/** What the calls on a ring buffer come to, told from the calls alone: which characters were accepted, in which
    order, and what the calls that have returned have got. The queue of IoQueue, with its cursors, waiters and lock,
    does that. */
module IoHistory {
  import opened Threads
  import opened IoQueue

  /** The characters taken in and given out so far, the latest call of each thread, and who is still in a call. */
  datatype Log = Log(accepted: seq<char>, returned: seq<char>, call: map<Tid, Job>, inside: set<Tid>)

  const START := Log([], [], map[], {})

  /** A call gets through when there is a character to return, or room for the one it brings: first in, first out, and
      63 at most. */
  function Pass(h: Log, t: Tid): Log {
    if t !in h.call then h
    else match h.call[t]
      case Reading =>
        if |h.returned| >= |h.accepted| then h
        else h.(returned := h.returned + [h.accepted[|h.returned|]], inside := h.inside - {t})
      case Writing(c) =>
        if |h.accepted| - |h.returned| >= 63 then h
        else h.(accepted := h.accepted + [c], inside := h.inside - {t})
  }

  function Note(h: Log, e: Input): Log {
    match e
    case Key(c) => if |h.accepted| - |h.returned| >= 63 then h else h.(accepted := h.accepted + [c])
    case GetChar(t) => Pass(h.(call := h.call[t := Reading], inside := h.inside + {t}), t)
    case PutChar(t, c) => Pass(h.(call := h.call[t := Writing(c)], inside := h.inside + {t}), t)
    case LockTurn(_) => h
    case Continue(t) => Pass(h, t)
  }

  /** Over a run; what cannot happen when its turn comes does not. */
  function Noted(q: Queue, h: Log, es: seq<Input>): Log
    requires BufferOk(q)
    decreases |es|
  {
    if es == [] then h
    else if CanHappen(q, es[0]) then Noted(Happen(q, es[0]), Note(h, es[0]), es[1..])
    else Noted(q, h, es[1..])
  }

  ghost predicate PlaceMatches(h: Log, t: Tid, place: Place) {
    && (place == Outside <==> t !in h.inside)
    && (place != Outside ==> t in h.call && h.call[t] == place.job)
  }

  ghost predicate Matches(q: Queue, h: Log) {
    && QueueInv(q) && q.written == h.accepted && q.read == h.returned
    && forall t :: t in q.at ==> PlaceMatches(h, t, q.at[t])
  }

  /** The cursors tell what the two histories tell. */
  lemma CursorsMatch(q: Queue)
    requires QueueInv(q)
    ensures q.head == q.tail <==> |q.read| == |q.written|
    ensures BufferOk(q) && (Full(q) <==> |q.written| - |q.read| == 63)
    ensures |q.read| <= |q.written| <= |q.read| + 63
    ensures q.head != q.tail ==> q.written[|q.read|] == q.buf[q.tail]
  {
    FullAndEmpty(q.buf, q.head, q.tail);
    hide Between, WaitersOk;
    if q.head != q.tail {
      GetBetween(q.buf, q.head, q.tail);
    }
  }

  lemma NobodyWaits(q: Queue)
    requires QueueInv(q)
    ensures q.lock == None ==> q.consumer == None && q.producer == None
  {
  }

  /** The loop of a call, by a thread that does not hold the lock. */
  lemma LoopMatches(q: Queue, h: Log, t: Tid, job: Job)
    requires QueueInv(q) && q.written == h.accepted && q.read == h.returned
    requires forall u :: u in q.at && u != t ==> PlaceMatches(h, u, q.at[u])
    requires t in q.at && !q.at[t].Registered? && q.lock != Some(t)
    requires t in h.inside && t in h.call && h.call[t] == job
    ensures Matches(LoopTest(q, t, job), Pass(h, t))
  {
    hide Between, QueueInv;
    CursorsMatch(q);
    NobodyWaits(q);
    LoopKeeps(q, t, job);
  }

  lemma HappenMatches(q: Queue, h: Log, e: Input)
    requires Matches(q, h) && CanHappen(q, e)
    ensures Matches(Happen(q, e), Note(h, e))
  {
    hide Between, WaitersOk;
    match e
    case Key(c) => KeyMatches(q, h, c);
    case GetChar(t) =>
      OutsideFree(q, t);
      LoopMatches(q, h.(call := h.call[t := Reading], inside := h.inside + {t}), t, Reading);
    case PutChar(t, c) =>
      OutsideFree(q, t);
      LoopMatches(q, h.(call := h.call[t := Writing(c)], inside := h.inside + {t}), t, Writing(c));
    case LockTurn(t) => TurnMatches(q, h, t);
    case Continue(t) => ContinueMatches(q, h, t);
  }

  lemma OutsideFree(q: Queue, t: Tid)
    requires QueueInv(q) && t in q.at && q.at[t] == Outside
    ensures q.lock != Some(t)
  {
  }

  lemma KeyMatches(q: Queue, h: Log, c: char)
    requires Matches(q, h)
    ensures Matches(Happen(q, Key(c)), Note(h, Key(c)))
  {
    hide Between, QueueInv;
    CursorsMatch(q);
    HappenKeeps(q, Key(c));
  }

  lemma TurnMatches(q: Queue, h: Log, t: Tid)
    requires Matches(q, h) && CanHappen(q, LockTurn(t))
    ensures Matches(Happen(q, LockTurn(t)), h)
  {
    hide Between, WaitersOk;
    NobodyWaits(q);
    HappenKeeps(q, LockTurn(t));
  }

  lemma ContinueMatches(q: Queue, h: Log, t: Tid)
    requires Matches(q, h) && CanHappen(q, Continue(t))
    ensures Matches(Happen(q, Continue(t)), Note(h, Continue(t)))
  {
    hide Between;
    var job := q.at[t].job;
    var free := q.(lock := None, at := q.at[t := Outside]);
    LoopMatches(free, h, t, job);
    FromOutside(q.(lock := None), t, job);
  }

  lemma {:induction false} HappensMatches(q: Queue, h: Log, es: seq<Input>)
    requires Matches(q, h)
    ensures Matches(Happens(q, es), Noted(q, h, es))
    decreases |es|
  {
    if es == [] {
    } else {
      if CanHappen(q, es[0]) {
        HappenMatches(q, h, es[0]);
        HappensMatches(Happen(q, es[0]), Note(h, es[0]), es[1..]);
      } else {
        HappensMatches(q, h, es[1..]);
      }
    }
  }

  /** In every run, of any number of readers, writers and keys: what was written is what was accepted, each character as
      it was handed in and in that order; what was read is as long a beginning of it as there are calls of ioq_getchar
      that have returned; and a thread is in its call exactly while it has not got through. */
  lemma FirstInFirstOut(readers: set<Tid>, writers: set<Tid>, buf: seq<char>, es: seq<Input>)
    requires |buf| == BUFSIZE
    ensures var q := Fresh(readers, writers, buf);
      var q', h := Happens(q, es), Noted(q, START, es);
      && q'.written == h.accepted && q'.read == h.returned && h.returned <= h.accepted
      && Between(q'.buf, q'.head, q'.tail) == h.accepted[|h.returned|..]
      && forall t :: t in readers + writers ==> t in q'.at && (q'.at[t] == Outside <==> t !in h.inside)
  {
    var q := Fresh(readers, writers, buf);
    HappensMatches(q, START, es);
    ReadIsPrefixOfWritten(readers, writers, buf, es);
    HappensKeeps(q, es);
    hide Between;
  }

  // ---------------------------------------------------------------- who sleeps and who is woken

  /** The thread an event belongs to; the keyboard is none. */
  ghost predicate Acts(e: Input, t: Tid) {
    match e
    case Key(_) => false
    case GetChar(u) => t == u
    case PutChar(u, _) => t == u
    case LockTurn(u) => t == u
    case Continue(u) => t == u
  }

  /** The call it is in. */
  ghost function JobOf(q: Queue, e: Input): Job
    requires CanHappen(q, e) && !e.Key?
  {
    match e
    case GetChar(_) => Reading
    case PutChar(_, c) => Writing(c)
    case LockTurn(t) => q.at[t].job
    case Continue(t) => q.at[t].job
  }

  /** Where a thread's own event takes it: out of the call if a character was moved, else to sleep as the one consumer
      or producer if it can have the lock, else to wait for the lock. */
  ghost predicate Moves(q: Queue, q': Queue, t: Tid, job: Job, canLock: bool) {
    t in q'.at && q'.at[t] ==
      if q'.written != q.written || q'.read != q.read then Outside
      else if canLock then Registered(job) else WantsLock(job)
  }

  /** A character stored is good news for the waiting consumer, a character taken for the waiting producer. */
  ghost predicate Woken(q: Queue, q': Queue, t: Tid) {
    (q.consumer == Some(t) && q'.written != q.written) || (q.producer == Some(t) && q'.read != q.read)
  }

  /** Any other thread stays where it is, unless it is woken. */
  ghost predicate Stays(q: Queue, q': Queue, t: Tid)
    requires t in q.at
  {
    && t in q'.at
    && (if Woken(q, q', t) then q.at[t].Registered? && q'.at[t] == Resumed(q.at[t].job) else q'.at[t] == q.at[t])
  }

  lemma LoopPlaces(q: Queue, t: Tid, job: Job, u: Tid)
    requires QueueInv(q) && t in q.at && u in q.at && !q.at[t].Registered? && q.lock != Some(t)
    ensures u != t ==> Stays(q, LoopTest(q, t, job), u)
    ensures Moves(q, LoopTest(q, t, job), t, job, q.lock == None)
  {
    hide Between;
  }

  lemma ContinuePlaces(q: Queue, t: Tid, u: Tid)
    requires QueueInv(q) && CanHappen(q, Continue(t)) && u in q.at
    ensures u != t ==> Stays(q, Happen(q, Continue(t)), u)
    ensures Moves(q, Happen(q, Continue(t)), t, q.at[t].job, true)
  {
    hide Between, TakeChar, StoreChar;
    var job := q.at[t].job;
    var free := q.(lock := None, at := q.at[t := Outside]);
    FromOutside(q.(lock := None), t, job);
    LoopPlaces(free, t, job, u);
  }

  /** Every event, every thread: the one whose call it is gets through or sleeps, the waiter concerned is woken, and
      nobody else is touched. */
  lemma Places(q: Queue, e: Input, t: Tid)
    requires QueueInv(q) && CanHappen(q, e) && t in q.at
    ensures if Acts(e, t) then Moves(q, Happen(q, e), t, JobOf(q, e), q.lock == None || e.Continue?)
            else Stays(q, Happen(q, e), t)
  {
    hide Between, Moves, Stays;
    match e
    case Key(c) => KeyPlaces(q, c, t);
    case GetChar(u) => LoopPlaces(q, u, Reading, t);
    case PutChar(u, c) => LoopPlaces(q, u, Writing(c), t);
    case LockTurn(u) => TurnPlaces(q, u, t);
    case Continue(u) => ContinuePlaces(q, u, t);
  }

  lemma KeyPlaces(q: Queue, c: char, t: Tid)
    requires QueueInv(q) && t in q.at
    ensures Stays(q, Happen(q, Key(c)), t)
  {
    hide Between;
  }

  lemma TurnPlaces(q: Queue, u: Tid, t: Tid)
    requires QueueInv(q) && t in q.at && CanHappen(q, LockTurn(u))
    ensures var q' := Happen(q, LockTurn(u));
      if t == u then Moves(q, q', t, q.at[t].job, true) else Stays(q, q', t)
  {
    hide Between;
  }
}
