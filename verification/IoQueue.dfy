/** The character queue of device/ioqueue.c: the ring buffer, and the waiting protocol around it. */
module IoQueue {
  import opened Threads

  const BUFSIZE: nat := 64

  function NextPos(pos: nat): nat {
    (pos + 1) % BUFSIZE
  }

  lemma NextPosIs(pos: nat)
    requires pos < BUFSIZE
    ensures NextPos(pos) == if pos + 1 == BUFSIZE then 0 else pos + 1
  {
  }

  /** The bytes between the read and the write cursor. */
  ghost function Between(buf: seq<char>, head: nat, tail: nat): (s: seq<char>)
    requires |buf| == BUFSIZE && head < BUFSIZE && tail < BUFSIZE
    ensures |s| < BUFSIZE
  {
    if tail <= head then buf[tail..head] else buf[tail..] + buf[..head]
  }

  /** Storing at the write cursor and moving it on appends, wherever the cursors are. */
  lemma PutBetween(buf: seq<char>, head: nat, tail: nat, c: char)
    requires |buf| == BUFSIZE && head < BUFSIZE && tail < BUFSIZE && NextPos(head) != tail
    ensures Between(buf[head := c], NextPos(head), tail) == Between(buf, head, tail) + [c]
  {
    NextPosIs(head);
    hide NextPos;
    var after := buf[head := c];
    assert after[..head] == buf[..head];
    if head + 1 == BUFSIZE {
      assert after[tail..] == buf[tail..head] + [c];
    } else if tail <= head {
      assert after[tail..head + 1] == buf[tail..head] + [c];
    } else {
      assert after[tail..] == buf[tail..] && after[..head + 1] == buf[..head] + [c];
    }
  }

  /** Moving the read cursor on takes the first byte away. */
  lemma GetBetween(buf: seq<char>, head: nat, tail: nat)
    requires |buf| == BUFSIZE && head < BUFSIZE && tail < BUFSIZE && head != tail
    ensures Between(buf, head, tail) == [buf[tail]] + Between(buf, head, NextPos(tail))
  {
    NextPosIs(tail);
    hide NextPos;
    if tail + 1 == BUFSIZE {
      assert buf[tail..] == [buf[tail]] && buf[0..head] == buf[..head];
    } else if tail < head {
      assert buf[tail..head] == [buf[tail]] + buf[tail + 1..head];
    } else {
      assert buf[tail..] == [buf[tail]] + buf[tail + 1..];
    }
  }

  /** The two tests tell 0 and 63 bytes apart from everything else. */
  lemma FullAndEmpty(buf: seq<char>, head: nat, tail: nat)
    requires |buf| == BUFSIZE && head < BUFSIZE && tail < BUFSIZE
    ensures head == tail <==> Between(buf, head, tail) == []
    ensures NextPos(head) == tail <==> |Between(buf, head, tail)| == BUFSIZE - 1
  {
  }

  class Ring {
    const buf: array<char>
    var head: nat  // written next
    var tail: nat  // read next

    ghost predicate Valid()
      reads this
    {
      buf.Length == BUFSIZE && head < BUFSIZE && tail < BUFSIZE
    }

    ghost function Contents(): (s: seq<char>)
      reads this, buf
      requires Valid()
      ensures |s| <= 63
    {
      Between(buf[..], head, tail)
    }

    constructor ()
      ensures Valid() && fresh(buf) && Contents() == []
    {
      buf := new char[BUFSIZE];
      head, tail := 0, 0;
    }

    method Full() returns (b: bool)
      requires Valid()
      ensures b <==> |Contents()| == 63
    {
      b := NextPos(head) == tail;
    }

    method Empty() returns (b: bool)
      requires Valid()
      ensures b <==> Contents() == []
    {
      b := head == tail;
    }

    /** ioq_putchar past its wait. */
    method Put(c: char)
      requires Valid() && |Contents()| < 63
      modifies this`head, buf
      ensures Valid() && Contents() == old(Contents()) + [c]
    {
      PutBetween(buf[..], head, tail, c);
      buf[head] := c;
      head := NextPos(head);
    }

    /** ioq_getchar past its wait. */
    method Get() returns (c: char)
      requires Valid() && Contents() != []
      modifies this`tail
      ensures Valid() && old(Contents()) == [c] + Contents()
    {
      GetBetween(buf[..], head, tail);
      c := buf[tail];
      tail := NextPos(tail);
    }
  }

  // ---------------------------------------------------------------- the waiting protocol

  /** What a thread has called: ioq_getchar or ioq_putchar. */
  datatype Job = Reading | Writing(c: char)

  /** Where a thread is in its call. Its sections run with interrupts off. */
  datatype Place =
    | Outside
    | WantsLock(job: Job)    // blocked in lock_acquire, device/ioqueue.c:51 and 71
    | Registered(job: Job)   // blocked in ioq_wait, holding the lock, device/ioqueue.c:52 and 72
    | Resumed(job: Job)      // made ready by wakeup, still holding the lock, device/ioqueue.c:53 and 73

  /** The buffer with its two cursors, the lock and the two waiters; `written` and `read` are history. */
  datatype Queue = Queue(readers: set<Tid>, writers: set<Tid>, at: map<Tid, Place>, lock: Option<Tid>,
                         consumer: Option<Tid>, producer: Option<Tid>, buf: seq<char>, head: nat, tail: nat,
                         written: seq<char>, read: seq<char>, halted: bool)

  datatype Input =
    | Key(c: char)              // the keyboard handler, device/keyboard.c:183-186
    | GetChar(t: Tid)           // reader `t` enters ioq_getchar
    | PutChar(t: Tid, c: char)  // writer `t` enters ioq_putchar
    | LockTurn(t: Tid)          // thread `t` gets past lock_acquire
    | Continue(t: Tid)          // thread `t` runs again after wakeup

  predicate CanHappen(q: Queue, e: Input) {
    match e
    case Key(_) => true
    case GetChar(t) => t in q.readers && t in q.at && q.at[t] == Outside
    case PutChar(t, _) => t in q.writers && t in q.at && q.at[t] == Outside
    case LockTurn(t) => t in q.at && q.at[t].WantsLock? && q.lock == None
    case Continue(t) => t in q.at && q.at[t].Resumed?
  }

  predicate BufferOk(q: Queue) {
    |q.buf| == BUFSIZE && q.head < BUFSIZE && q.tail < BUFSIZE
  }

  predicate Full(q: Queue) {
    NextPos(q.head) == q.tail
  }

  /** wakeup: the waiter is made ready. */
  function Wakeup(q: Queue, t: Tid): Queue {
    if t in q.at && q.at[t].Registered? then q.(at := q.at[t := Resumed(q.at[t].job)]) else q.(halted := true)
  }

  /** ioq_getchar past its loop */
  function TakeChar(q: Queue): Queue
    requires BufferOk(q)
  {
    var q' := q.(tail := NextPos(q.tail), read := q.read + [q.buf[q.tail]]);
    if q.producer == None then q' else Wakeup(q', q.producer.value).(producer := None)
  }

  /** ioq_putchar past its loop */
  function StoreChar(q: Queue, c: char): Queue
    requires BufferOk(q)
  {
    var q' := q.(buf := q.buf[q.head := c], head := NextPos(q.head), written := q.written + [c]);
    if q.consumer == None then q' else Wakeup(q', q.consumer.value).(consumer := None)
  }

  /** ioq_wait with the lock taken: there must be no waiter yet; record this one and block. */
  function Wait(q: Queue, t: Tid, job: Job): Queue {
    var q' := q.(lock := Some(t), at := q.at[t := Registered(job)]);
    match job
    case Reading => if q.consumer != None then q.(halted := true) else q'.(consumer := Some(t))
    case Writing(_) => if q.producer != None then q.(halted := true) else q'.(producer := Some(t))
  }

  /** The loop of either call, up to where the thread blocks or leaves. */
  function LoopTest(q: Queue, t: Tid, job: Job): Queue
    requires BufferOk(q)
  {
    if job == Reading && q.head != q.tail then TakeChar(q.(at := q.at[t := Outside]))
    else if job != Reading && !Full(q) then StoreChar(q.(at := q.at[t := Outside]), job.c)
    else if q.lock == None then Wait(q, t, job)
    else q.(at := q.at[t := WantsLock(job)])
  }

  function Happen(q: Queue, e: Input): (q': Queue)
    requires CanHappen(q, e) && BufferOk(q)
    ensures BufferOk(q')
  {
    match e
    case Key(c) => if Full(q) then q else StoreChar(q, c)
    case GetChar(t) => LoopTest(q, t, Reading)
    case PutChar(t, c) => LoopTest(q, t, Writing(c))
    case LockTurn(t) => Wait(q, t, q.at[t].job)
    case Continue(t) => LoopTest(q.(lock := None), t, q.at[t].job)
  }

  function Happens(q: Queue, es: seq<Input>): (q': Queue)
    requires BufferOk(q)
    ensures BufferOk(q')
    decreases |es|
  {
    if es == [] then q
    else if CanHappen(q, es[0]) then Happens(Happen(q, es[0]), es[1..])
    else Happens(q, es[1..])
  }

  /** ioqueue_init: the cursors meet at 0, the buffer holds anything. */
  function Fresh(readers: set<Tid>, writers: set<Tid>, buf: seq<char>): (q: Queue)
    requires |buf| == BUFSIZE
    ensures BufferOk(q)
  {
    Queue(readers, writers, map t | t in readers + writers :: Outside, None, None, None, buf, 0, 0, [], [], false)
  }

  ghost function Pending(q: Queue): seq<char>
    requires BufferOk(q)
  {
    Between(q.buf, q.head, q.tail)
  }

  /** The waiters and the lock: one thread holds the lock, asleep as the consumer or the producer, or woken. */
  ghost predicate WaitersOk(q: Queue) {
    && (forall t :: t in q.at ==> (q.at[t] == Registered(Reading) <==> q.consumer == Some(t)))
    && (forall t :: t in q.at ==> (q.at[t].Registered? && q.at[t].job != Reading <==> q.producer == Some(t)))
    && (forall t :: t in q.at ==>
          (q.at[t].Resumed? <==> q.lock == Some(t) && q.consumer == None && q.producer == None))
    && (q.consumer.Some? ==> q.lock == q.consumer && q.producer == None)
    && (q.producer.Some? ==> q.lock == q.producer)
    && (q.lock.Some? ==> q.lock.value in q.at)
  }

  ghost predicate QueueInv(q: Queue) {
    && !q.halted && BufferOk(q) && q.at.Keys == q.readers + q.writers
    && q.written == q.read + Pending(q)
    && WaitersOk(q)
  }

  ghost predicate SameThreads(q: Queue, q': Queue) {
    q'.readers == q.readers && q'.writers == q.writers
  }

  lemma TakeKeeps(q: Queue)
    requires QueueInv(q) && q.head != q.tail
    ensures QueueInv(TakeChar(q)) && SameThreads(q, TakeChar(q))
  {
    hide Between;
    GetBetween(q.buf, q.head, q.tail);
    var rest := Between(q.buf, q.head, NextPos(q.tail));
    assert q.read + ([q.buf[q.tail]] + rest) == (q.read + [q.buf[q.tail]]) + rest;
  }

  lemma StoreKeeps(q: Queue, c: char)
    requires QueueInv(q) && !Full(q)
    ensures QueueInv(StoreChar(q, c)) && SameThreads(q, StoreChar(q, c))
  {
    hide Between;
    PutBetween(q.buf, q.head, q.tail, c);
    assert (q.read + Pending(q)) + [c] == q.read + (Pending(q) + [c]);
  }

  lemma WaitKeeps(q: Queue, t: Tid, job: Job)
    requires QueueInv(q) && t in q.at && q.lock == None
    ensures QueueInv(Wait(q, t, job)) && SameThreads(q, Wait(q, t, job))
  {
    hide Between;
  }

  /** A thread without the lock may be anywhere else. */
  lemma MoveKeeps(q: Queue, t: Tid, place: Place)
    requires QueueInv(q) && t in q.at && !q.at[t].Registered? && q.lock != Some(t)
    requires place == Outside || place.WantsLock?
    ensures QueueInv(q.(at := q.at[t := place]))
  {
    hide Between;
  }

  /** A thread that does not hold the lock goes through the loop. */
  lemma LoopKeeps(q: Queue, t: Tid, job: Job)
    requires QueueInv(q) && t in q.at && !q.at[t].Registered? && q.lock != Some(t)
    ensures QueueInv(LoopTest(q, t, job)) && SameThreads(q, LoopTest(q, t, job))
  {
    hide Between, TakeChar, StoreChar, Wait, WaitersOk;
    var out := q.(at := q.at[t := Outside]);
    MoveKeeps(q, t, Outside);
    if job == Reading && q.head != q.tail {
      TakeKeeps(out);
    } else if job != Reading && !Full(q) {
      StoreKeeps(out, job.c);
    } else if q.lock == None {
      WaitKeeps(q, t, job);
    } else {
      MoveKeeps(q, t, WantsLock(job));
    }
  }

  /** The loop does not look at where its thread is. */
  lemma FromOutside(q: Queue, t: Tid, job: Job)
    requires BufferOk(q) && q.consumer == None && q.producer == None
    ensures LoopTest(q.(at := q.at[t := Outside]), t, job) == LoopTest(q, t, job)
  {
    hide TakeChar, StoreChar;
    var out := q.at[t := Outside];
    assert out[t := Outside] == out && out[t := WantsLock(job)] == q.at[t := WantsLock(job)];
    assert out[t := Registered(job)] == q.at[t := Registered(job)];
  }

  lemma HappenKeeps(q: Queue, e: Input)
    requires QueueInv(q) && CanHappen(q, e)
    ensures QueueInv(Happen(q, e)) && SameThreads(q, Happen(q, e))
  {
    hide Between, TakeChar, StoreChar, Wait;
    match e
    case Key(c) =>
      if !Full(q) {
        StoreKeeps(q, c);
      }
    case GetChar(t) => LoopKeeps(q, t, Reading);
    case PutChar(t, c) => LoopKeeps(q, t, Writing(c));
    case LockTurn(t) => WaitKeeps(q, t, q.at[t].job);
    case Continue(t) =>
      var job := q.at[t].job;
      var free := q.(lock := None, at := q.at[t := Outside]);
      LoopKeeps(free, t, job);
      FromOutside(q.(lock := None), t, job);
  }

  lemma {:induction false} HappensKeeps(q: Queue, es: seq<Input>)
    requires QueueInv(q)
    ensures QueueInv(Happens(q, es)) && SameThreads(q, Happens(q, es))
    decreases |es|
  {
    if es == [] {
    } else {
      if CanHappen(q, es[0]) {
        HappenKeeps(q, es[0]);
        HappensKeeps(Happen(q, es[0]), es[1..]);
      } else {
        HappensKeeps(q, es[1..]);
      }
    }
  }

  /** FIFO across every interleaving of any number of readers and writers and the keyboard, however often the cursors
      wrap around: what was read is a prefix of what was written, what lies between the cursors is the rest of it, at
      most 63 characters, and no assertion fails. */
  lemma ReadIsPrefixOfWritten(readers: set<Tid>, writers: set<Tid>, buf: seq<char>, es: seq<Input>)
    requires |buf| == BUFSIZE
    ensures var q := Happens(Fresh(readers, writers, buf), es);
      && !q.halted && q.read <= q.written && |q.written| - |q.read| <= 63
      && Between(q.buf, q.head, q.tail) == q.written[|q.read|..]
  {
    HappensKeeps(Fresh(readers, writers, buf), es);
  }

  // ---------------------------------------------------------------- waiters on a queue that has what they wait for

  ghost predicate WaitingMeansEmpty(q: Queue) {
    q.consumer.Some? ==> q.head == q.tail
  }

  ghost predicate WaitingMeansFull(q: Queue) {
    q.producer.Some? ==> Full(q)
  }

  /** With one thread nobody ever waits for the lock, and what it waits for is what there is not. */
  ghost predicate Alone(q: Queue, t: Tid) {
    && q.readers + q.writers <= {t} && (forall u :: u in q.at ==> !q.at[u].WantsLock?)
    && WaitingMeansEmpty(q) && WaitingMeansFull(q)
  }

  lemma {:induction false} OneThread(q: Queue, t: Tid, es: seq<Input>)
    requires QueueInv(q) && Alone(q, t)
    ensures Alone(Happens(q, es), t)
    decreases |es|
  {
    if es == [] {
    } else {
      if CanHappen(q, es[0]) {
        HappenKeeps(q, es[0]);
        AloneStep(q, t, es[0]);
        OneThread(Happen(q, es[0]), t, es[1..]);
      } else {
        OneThread(q, t, es[1..]);
      }
    }
  }

  lemma AloneStep(q: Queue, t: Tid, e: Input)
    requires QueueInv(q) && Alone(q, t) && CanHappen(q, e)
    ensures Alone(Happen(q, e), t)
  {
    hide Between;
    assert forall u :: u in q.at ==> u == t;
    assert q.lock.Some? ==> q.lock.value == t;
  }

  /** Without readers nobody waits for a byte, and a writer that does not get on finds the queue full. */
  ghost predicate OnlyWriters(q: Queue) {
    && q.readers == {} && forall u :: u in q.at && q.at[u] != Outside ==> q.at[u].job != Reading && Full(q)
  }

  lemma {:induction false} NoReader(q: Queue, es: seq<Input>)
    requires QueueInv(q) && OnlyWriters(q)
    ensures QueueInv(Happens(q, es)) && OnlyWriters(Happens(q, es))
    decreases |es|
  {
    if es == [] {
    } else {
      if CanHappen(q, es[0]) {
        HappenKeeps(q, es[0]);
        NoReader(Happen(q, es[0]), es[1..]);
      } else {
        NoReader(q, es[1..]);
      }
    }
  }

  /** Without writers nobody waits for room. */
  ghost predicate OnlyReaders(q: Queue) {
    q.writers == {} && forall u :: u in q.at && q.at[u] != Outside ==> q.at[u].job == Reading
  }

  lemma {:induction false} NoWriter(q: Queue, es: seq<Input>)
    requires QueueInv(q) && OnlyReaders(q)
    ensures QueueInv(Happens(q, es)) && OnlyReaders(Happens(q, es))
    decreases |es|
  {
    if es == [] {
    } else {
      if CanHappen(q, es[0]) {
        HappenKeeps(q, es[0]);
        NoWriter(Happen(q, es[0]), es[1..]);
      } else {
        NoWriter(q, es[1..]);
      }
    }
  }

  // ---------------------------------------------------------------- runs that strand a thread

  lemma {:induction false} OneByOne(q: Queue, es: seq<Input>, more: seq<Input>)
    requires BufferOk(q)
    ensures Happens(q, es + more) == Happens(Happens(q, es), more)
    decreases |es|
  {
    if es == [] {
      assert es + more == more;
    } else {
      assert (es + more)[1..] == es[1..] + more;
      OneByOne(if CanHappen(q, es[0]) then Happen(q, es[0]) else q, es[1..], more);
    }
  }

  lemma Next(q: Queue, e: Input, more: seq<Input>)
    requires BufferOk(q) && CanHappen(q, e)
    ensures Happens(q, [e] + more) == Happens(Happen(q, e), more)
  {
    assert ([e] + more)[1..] == more;
  }

  /** Two readers and two keys are enough to leave a reader waiting on a queue that is not empty. */
  function TwoReaders(a: Tid, b: Tid): seq<Input> {
    [GetChar(a), GetChar(b), Key('x'), Key('y'), Continue(a), LockTurn(b)]
  }

  lemma TwoReadersStuck(readers: set<Tid>, writers: set<Tid>, buf: seq<char>, a: Tid, b: Tid)
    requires |buf| == BUFSIZE && a in readers && b in readers && a != b
    ensures !WaitingMeansEmpty(Happens(Fresh(readers, writers, buf), TwoReaders(a, b)))
  {
    var q0 := Fresh(readers, writers, buf);
    var q1 := Happen(q0, GetChar(a));
    var q2 := Happen(q1, GetChar(b));
    var q3 := Happen(q2, Key('x'));
    var q4 := Happen(q3, Key('y'));
    var q5 := Happen(q4, Continue(a));
    var q6 := Happen(q5, LockTurn(b));
    assert q6.head == 2 && q6.tail == 1 && q6.consumer == Some(b);
    assert Happens(q5, TwoReaders(a, b)[5..]) == q6;
    assert Happens(q4, TwoReaders(a, b)[4..]) == q6;
    assert Happens(q3, TwoReaders(a, b)[3..]) == q6;
    assert Happens(q2, TwoReaders(a, b)[2..]) == q6;
    assert Happens(q1, TwoReaders(a, b)[1..]) == q6;
  }

  function Keys(n: nat): seq<Input> {
    if n == 0 then [] else [Key('x')] + Keys(n - 1)
  }

  function Gets(t: Tid, n: nat): seq<Input> {
    if n == 0 then [] else [GetChar(t)] + Gets(t, n - 1)
  }

  /** Keys with nobody to wake fill the buffer. */
  lemma {:induction false} Filling(q: Queue, n: nat)
    requires BufferOk(q) && q.consumer == None && |Pending(q)| + n <= 63
    ensures var q' := Happens(q, Keys(n));
      q' == q.(buf := q'.buf, head := q'.head, written := q'.written) && |Pending(q')| == |Pending(q)| + n
    decreases n
  {
    hide Between;
    if n == 0 {
    } else {
      FullAndEmpty(q.buf, q.head, q.tail);
      PutBetween(q.buf, q.head, q.tail, 'x');
      Next(q, Key('x'), Keys(n - 1));
      Filling(Happen(q, Key('x')), n - 1);
    }
  }

  /** A reader with nobody to wake drains it. */
  lemma {:induction false} Draining(q: Queue, t: Tid, n: nat)
    requires BufferOk(q) && q.producer == None && n <= |Pending(q)|
    requires t in q.readers && t in q.at && q.at[t] == Outside
    ensures var q' := Happens(q, Gets(t, n));
      q' == q.(tail := q'.tail, read := q'.read) && |Pending(q')| == |Pending(q)| - n
    decreases n
  {
    hide Between;
    if n == 0 {
    } else {
      FullAndEmpty(q.buf, q.head, q.tail);
      GetBetween(q.buf, q.head, q.tail);
      Next(q, GetChar(t), Gets(t, n - 1));
      assert q.at[t := Outside] == q.at;
      Draining(Happen(q, GetChar(t)), t, n - 1);
    }
  }

  function AfterDrain(r: Tid, w: Tid): seq<Input> {
    [GetChar(r)] + ([Continue(w)] + ([LockTurn(r)] + []))
  }

  /** A writer waits for room; the reader that makes it takes every byte, wants the lock the writer still holds, and
      gets it only after the writer has stored its byte. */
  function StrandReader(r: Tid, w: Tid): seq<Input> {
    Keys(63) + ([PutChar(w, 'y')] + ([GetChar(r)] + (Gets(r, 62) + AfterDrain(r, w))))
  }

  lemma ReaderStuck(readers: set<Tid>, writers: set<Tid>, buf: seq<char>, r: Tid, w: Tid)
    requires |buf| == BUFSIZE && r in readers && w in writers && r != w
    ensures !WaitingMeansEmpty(Happens(Fresh(readers, writers, buf), StrandReader(r, w)))
  {
    hide Between, Keys, Gets;
    var q0 := Fresh(readers, writers, buf);
    FullAndEmpty(q0.buf, q0.head, q0.tail);
    Filling(q0, 63);
    var q1 := Happens(q0, Keys(63));
    FullAndEmpty(q1.buf, q1.head, q1.tail);
    var q2 := Happen(q1, PutChar(w, 'y'));
    GetBetween(q2.buf, q2.head, q2.tail);
    var q3 := Happen(q2, GetChar(r));
    assert q3.at[r] == Outside && q3.at[w] == Resumed(Writing('y')) && q3.lock == Some(w) && |Pending(q3)| == 62;
    Draining(q3, r, 62);
    var q4 := Happens(q3, Gets(r, 62));
    FullAndEmpty(q4.buf, q4.head, q4.tail);
    var q5 := Happen(q4, GetChar(r));
    var q6 := Happen(q5, Continue(w));
    var q7 := Happen(q6, LockTurn(r));
    assert q7.consumer == Some(r) && q7.head == NextPos(q5.head) && q7.tail == q5.tail;
    var rest := AfterDrain(r, w);
    OneByOne(q0, Keys(63), [PutChar(w, 'y')] + ([GetChar(r)] + (Gets(r, 62) + rest)));
    Next(q1, PutChar(w, 'y'), [GetChar(r)] + (Gets(r, 62) + rest));
    Next(q2, GetChar(r), Gets(r, 62) + rest);
    OneByOne(q3, Gets(r, 62), rest);
    Next(q4, GetChar(r), [Continue(w)] + ([LockTurn(r)] + []));
    Next(q5, Continue(w), [LockTurn(r)] + []);
    Next(q6, LockTurn(r), []);
  }

  function AfterFill(r: Tid, w: Tid): seq<Input> {
    [PutChar(w, 'y')] + ([Continue(r)] + ([LockTurn(w)] + []))
  }

  /** The same with the roles exchanged. */
  function StrandWriter(r: Tid, w: Tid): seq<Input> {
    [GetChar(r)] + ([Key('x')] + (Keys(62) + AfterFill(r, w)))
  }

  lemma WriterStuck(readers: set<Tid>, writers: set<Tid>, buf: seq<char>, r: Tid, w: Tid)
    requires |buf| == BUFSIZE && r in readers && w in writers && r != w
    ensures !WaitingMeansFull(Happens(Fresh(readers, writers, buf), StrandWriter(r, w)))
  {
    hide Between, Keys, Gets;
    var q0 := Fresh(readers, writers, buf);
    var q1 := Happen(q0, GetChar(r));
    FullAndEmpty(q1.buf, q1.head, q1.tail);
    PutBetween(q1.buf, q1.head, q1.tail, 'x');
    var q2 := Happen(q1, Key('x'));
    Filling(q2, 62);
    var q3 := Happens(q2, Keys(62));
    FullAndEmpty(q3.buf, q3.head, q3.tail);
    var q4 := Happen(q3, PutChar(w, 'y'));
    GetBetween(q4.buf, q4.head, q4.tail);
    var q5 := Happen(q4, Continue(r));
    FullAndEmpty(q5.buf, q5.head, q5.tail);
    var q6 := Happen(q5, LockTurn(w));
    assert q6.producer == Some(w) && |Pending(q6)| == 62;
    var rest := AfterFill(r, w);
    Next(q0, GetChar(r), [Key('x')] + (Keys(62) + rest));
    Next(q1, Key('x'), Keys(62) + rest);
    OneByOne(q2, Keys(62), rest);
    Next(q3, PutChar(w, 'y'), [Continue(r)] + ([LockTurn(w)] + []));
    Next(q4, Continue(r), [LockTurn(w)] + []);
    Next(q5, LockTurn(w), []);
  }

  // ---------------------------------------------------------------- when waiting means what it should

  lemma FewThreads(q: Queue, es: seq<Input>)
    requires QueueInv(q) && |q.readers + q.writers| <= 1 && q.consumer == None && q.producer == None
    requires forall u :: u in q.at ==> q.at[u] == Outside
    ensures WaitingMeansEmpty(Happens(q, es)) && WaitingMeansFull(Happens(q, es))
  {
    var all := q.readers + q.writers;
    if all == {} {
      OneThread(q, 0, es);
    } else {
      var t :| t in all;
      assert |all - {t}| == |all| - 1;
      assert all <= {t} by {
        assert all - {t} == {};
      }
      OneThread(q, t, es);
    }
  }

  lemma TwoOf(s: set<Tid>) returns (a: Tid, b: Tid)
    requires |s| >= 2
    ensures a in s && b in s && a != b
  {
    a :| a in s;
    assert |s - {a}| == |s| - 1;
    b :| b in s - {a};
  }

  /** A reader and a writer, when there are both and two threads at least. */
  lemma OneOfEach(readers: set<Tid>, writers: set<Tid>) returns (r: Tid, w: Tid)
    requires readers != {} && writers != {} && |readers + writers| >= 2
    ensures r in readers && w in writers && r != w
  {
    var a, b := TwoOf(readers + writers);
    r :| r in readers;
    w :| w in writers;
    if r == w {
      var other := if a == r then b else a;
      if other in readers {
        r := other;
      } else {
        w := other;
      }
    }
  }

  /** "A registered waiting consumer implies an empty queue" holds in every run exactly when nobody reads or there is
      one thread besides the keyboard. */
  lemma WaitingMeansEmptyIff(readers: set<Tid>, writers: set<Tid>, buf: seq<char>)
    requires |buf| == BUFSIZE
    ensures (forall es :: WaitingMeansEmpty(Happens(Fresh(readers, writers, buf), es))) <==>
      readers == {} || |readers + writers| <= 1
  {
    var q := Fresh(readers, writers, buf);
    if readers == {} {
      forall es ensures WaitingMeansEmpty(Happens(q, es)) {
        NoReader(q, es);
      }
    } else if |readers + writers| <= 1 {
      forall es ensures WaitingMeansEmpty(Happens(q, es)) {
        FewThreads(q, es);
      }
    } else if writers == {} {
      assert readers + writers == readers;
      var a, b := TwoOf(readers);
      TwoReadersStuck(readers, writers, buf, a, b);
    } else {
      var r, w := OneOfEach(readers, writers);
      ReaderStuck(readers, writers, buf, r, w);
    }
  }

  /** "A registered waiting producer implies a full queue" holds in every run exactly when nobody writes or nobody reads
      or there is one thread besides the keyboard. */
  lemma WaitingMeansFullIff(readers: set<Tid>, writers: set<Tid>, buf: seq<char>)
    requires |buf| == BUFSIZE
    ensures (forall es :: WaitingMeansFull(Happens(Fresh(readers, writers, buf), es))) <==>
      readers == {} || writers == {} || |readers + writers| <= 1
  {
    var q := Fresh(readers, writers, buf);
    if readers == {} {
      forall es ensures WaitingMeansFull(Happens(q, es)) {
        NoReader(q, es);
      }
    } else if writers == {} {
      forall es ensures WaitingMeansFull(Happens(q, es)) {
        NoWriter(q, es);
      }
    } else if |readers + writers| <= 1 {
      forall es ensures WaitingMeansFull(Happens(q, es)) {
        FewThreads(q, es);
      }
    } else {
      var r, w := OneOfEach(readers, writers);
      WriterStuck(readers, writers, buf, r, w);
    }
  }
}
