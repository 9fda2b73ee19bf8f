/** What every step of the machine in Threads keeps, and what follows for whole runs. */
module LockSafety {
  import opened Threads

  // ---------------------------------------------------------------- the scheduler's part

  ghost predicate NoDup(q: seq<Tid>) {
    forall i, j :: 0 <= i < j < |q| ==> q[i] != q[j]
  }

  ghost predicate ReadyExact(s: State) {
    && NoDup(s.ready)
    && forall t :: t in s.ready <==> t in s.th && s.th[t].status == Ready
  }

  ghost predicate ThreadOk(x: Thread) {
    && x.ticks <= x.priority
    && (IsBlocked(x.status) ==> x.pc.Suspended? || (x.pc.Loop? && x.status == Blocked))
  }

  /** The scheduler's state between `schedule` being entered and the next thread running. */
  ghost predicate SchedBase(s: State) {
    && Closed(s) && !s.halted
    && ReadyExact(s)
    && (forall t :: t in s.th ==> (s.th[t].status == Running ==> t == s.cur))
    && (forall t :: t in s.th ==> ThreadOk(s.th[t]))
    && (s.th[s.idle].pc == Run || s.th[s.idle].pc == Suspended)
  }

  ghost predicate SchedInv(s: State) {
    SchedBase(s) && s.th[s.cur].status == Running
  }

  /** Threads differ at most in their time slices and in statuses no lock looks at. */
  ghost predicate Quiet(th: map<Tid, Thread>, th': map<Tid, Thread>) {
    && th.Keys == th'.Keys
    && forall t :: t in th ==> QuietThread(th[t], th'[t])
  }

  ghost predicate QuietThread(x: Thread, x': Thread) {
    && x'.pc == x.pc && x'.depth == x.depth
    && (x.pc.Loop? ==> IsBlocked(x'.status) == IsBlocked(x.status))
  }

  lemma RequeueKeeps(s: State)
    requires SchedBase(s)
    ensures SchedBase(Requeue(s)) && Requeue(s).locks == s.locks && Quiet(s.th, Requeue(s).th)
    ensures forall t :: t in s.th ==> Requeue(s).th[t].status != Running
    ensures Requeue(s).idle == s.idle
  {
  }

  lemma NoDupFront(q: seq<Tid>, t: Tid)
    requires NoDup(q) && t !in q
    ensures NoDup([t] + q)
  {
  }

  lemma NoDupRest(q: seq<Tid>)
    requires NoDup(q) && q != []
    ensures NoDup(q[1..]) && forall t :: t in q[1..] <==> t in q && t != q[0]
  {
    forall t | t in q && t != q[0] ensures t in q[1..] {
      var i :| 0 <= i < |q| && q[i] == t;
      assert q[1..][i - 1] == t;
    }
  }

  lemma UnblockKeeps(s: State, t: Tid)
    requires SchedBase(s) && t in s.th && IsBlocked(s.th[t].status)
    ensures SchedBase(ThreadUnblock(s, t)) && ThreadUnblock(s, t).ready == [t] + s.ready
    ensures ThreadUnblock(s, t).th == s.th[t := s.th[t].(status := Ready)]
  {
    NoDupFront(s.ready, t);
  }

  lemma PopKeeps(s: State)
    requires SchedBase(s) && s.ready != [] && forall t :: t in s.th ==> s.th[t].status != Running
    ensures SchedInv(Dispatch(s)) && Dispatch(s).locks == s.locks && Dispatch(s).idle == s.idle
    ensures Quiet(s.th, Dispatch(s).th)
  {
    NoDupRest(s.ready);
  }

  lemma DispatchKeeps(s: State)
    requires SchedBase(s) && forall t :: t in s.th ==> s.th[t].status != Running
    ensures SchedInv(Dispatch(s)) && Dispatch(s).locks == s.locks && Dispatch(s).idle == s.idle
    ensures Quiet(s.th, Dispatch(s).th)
  {
    if s.ready == [] {
      assert s.idle !in s.ready;
      var u := ThreadUnblock(s, s.idle);
      UnblockKeeps(s, s.idle);
      PopKeeps(u);
      assert Dispatch(s) == Dispatch(u);
      assert Quiet(s.th, u.th);
    } else {
      PopKeeps(s);
    }
  }

  /** schedule never trips an assertion, in particular the idle thread is blocked when it is needed. */
  lemma ScheduleKeeps(s: State)
    requires SchedBase(s)
    ensures SchedInv(Schedule(s)) && Schedule(s).locks == s.locks && Quiet(s.th, Schedule(s).th)
    ensures Schedule(s).idle == s.idle
  {
    RequeueKeeps(s);
    DispatchKeeps(Requeue(s));
  }

  // ---------------------------------------------------------------- one lock's part

  /** Between a completed sema_down and the matching sema_up. */
  ghost predicate Inside(x: Thread, l: LockId) {
    Depth(x, l) > 0 || x.pc == Taken(l) || x.pc == Owned(l)
  }

  ghost predicate Sleeping(x: Thread, l: LockId) {
    x.pc == Loop(l) && x.status == Blocked
  }

  /** Popped from the waiter list, but not yet past the loop of sema_down. */
  ghost predicate Woken(x: Thread, l: LockId) {
    x.pc == Loop(l) && !IsBlocked(x.status)
  }

  ghost predicate OwnerIs(th: map<Tid, Thread>, k: Lock, l: LockId, o: Tid) {
    && o in th && Inside(th[o], l)
    && (forall t :: t in th ==> (Inside(th[t], l) ==> t == o))
    && k.holder == (if th[o].pc == Taken(l) || th[o].pc == Clear(l) || th[o].pc == Up(l) then None else Some(o))
    && k.repeat == (if th[o].pc == Taken(l) || th[o].pc == Owned(l) || th[o].pc == Up(l) then 0 else Depth(th[o], l))
  }

  ghost predicate WaitersExact(th: map<Tid, Thread>, k: Lock, l: LockId) {
    && NoDup(k.waiters)
    && forall t :: t in k.waiters <==> t in th && Sleeping(th[t], l)
  }

  ghost predicate ValueExact(th: map<Tid, Thread>, k: Lock, l: LockId) {
    if k.value == 0 then exists o :: OwnerIs(th, k, l, o)
    else
      && k.value == 1 && k.holder == None && k.repeat == 0
      && forall t :: t in th ==> !Inside(th[t], l)
  }

  /** A free lock somebody still waits for has a waiter on its way to it. */
  ghost predicate NoLostWakeup(th: map<Tid, Thread>, k: Lock, l: LockId) {
    k.value == 1 && k.waiters != [] ==> exists t :: t in th && Woken(th[t], l)
  }

  ghost predicate LockInv(th: map<Tid, Thread>, k: Lock, l: LockId) {
    WaitersExact(th, k, l) && ValueExact(th, k, l) && NoLostWakeup(th, k, l)
  }

  /** Where a thread may be, given how often it holds the lock it is working on. */
  ghost predicate PcOk(x: Thread, locks: map<LockId, Lock>) {
    match x.pc
    case Run => true
    case Suspended => true
    case Enter(l) => l in locks
    case Down(l) => l in locks && Depth(x, l) == 0
    case Loop(l) => l in locks && Depth(x, l) == 0
    case Taken(l) => l in locks && Depth(x, l) == 0
    case Owned(l) => l in locks && Depth(x, l) == 0
    case Release(l) => l in locks && Depth(x, l) > 0
    case Drop(l) => l in locks && Depth(x, l) == 1
    case Clear(l) => l in locks && Depth(x, l) == 1
    case Up(l) => l in locks && Depth(x, l) == 1
  }

  ghost predicate PcsOk(th: map<Tid, Thread>, locks: map<LockId, Lock>) {
    forall t :: t in th ==> PcOk(th[t], locks)
  }

  ghost predicate LocksInv(s: State) {
    PcsOk(s.th, s.locks) && forall l :: l in s.locks ==> LockInv(s.th, s.locks[l], l)
  }

  ghost predicate Inv(s: State) {
    SchedInv(s) && LocksInv(s)
  }

  // ---------------------------------------------------------------- frames

  lemma QuietKeepsLock(th: map<Tid, Thread>, th': map<Tid, Thread>, k: Lock, l: LockId)
    requires Quiet(th, th') && LockInv(th, k, l)
    requires forall t :: t in th' ==> ThreadOk(th'[t])
    requires forall t :: t in th ==> ThreadOk(th[t])
    ensures LockInv(th', k, l)
  {
    forall t | t in th
      ensures Sleeping(th'[t], l) == Sleeping(th[t], l) && Woken(th'[t], l) == Woken(th[t], l)
      ensures Inside(th'[t], l) == Inside(th[t], l)
    {
      assert QuietThread(th[t], th'[t]);
    }
    if k.value == 0 {
      var o :| OwnerIs(th, k, l, o);
      assert OwnerIs(th', k, l, o);
    }
  }

  /** A thread that is not working on lock `l`, before or after, leaves it as it was. */
  lemma OtherLock(th: map<Tid, Thread>, t: Tid, x: Thread, k: Lock, l: LockId)
    requires t in th && LockInv(th, k, l)
    requires Depth(x, l) == Depth(th[t], l)
    requires Bystander(th[t].pc, l) && Bystander(x.pc, l)
    ensures LockInv(th[t := x], k, l)
  {
    var th' := th[t := x];
    if k.value == 0 {
      var o :| OwnerIs(th, k, l, o);
      assert OwnerIs(th', k, l, o);
    }
    if k.value == 1 && k.waiters != [] {
      var w :| w in th && Woken(th[w], l);
      assert Woken(th'[w], l);
    }
  }

  ghost predicate Bystander(pc: Pc, l: LockId) {
    pc != Loop(l) && pc != Taken(l) && pc != Owned(l) && pc != Clear(l) && pc != Up(l)
  }

  lemma QuietKeepsLocks(s: State, s': State)
    requires LocksInv(s) && SchedBase(s) && SchedBase(s')
    requires s'.locks == s.locks && Quiet(s.th, s'.th)
    ensures LocksInv(s')
  {
    forall t | t in s'.th ensures PcOk(s'.th[t], s'.locks) {
      assert QuietThread(s.th[t], s'.th[t]) && PcOk(s.th[t], s.locks);
    }
    forall l | l in s.locks ensures LockInv(s'.th, s'.locks[l], l) {
      QuietKeepsLock(s.th, s'.th, s.locks[l], l);
    }
  }

  ghost predicate WorksOn(pc: Pc, l: LockId) {
    pc.Run? || pc.Suspended? || pc.lock == l
  }

  /** One thread's step on one lock: only that lock has to be looked at. */
  lemma LocksStep(s: State, t: Tid, x: Thread, l: LockId, k: Lock)
    requires LocksInv(s) && t in s.th && l in s.locks
    requires WorksOn(s.th[t].pc, l) && WorksOn(x.pc, l)
    requires forall m :: m != l ==> Depth(x, m) == Depth(s.th[t], m)
    requires PcOk(x, s.locks) && LockInv(s.th[t := x], k, l)
    ensures LocksInv(s.(th := s.th[t := x], locks := s.locks[l := k]))
  {
    forall m | m in s.locks && m != l ensures LockInv(s.th[t := x], s.locks[m], m) {
      OtherLock(s.th, t, x, s.locks[m], m);
    }
    forall u | u in s.th ensures PcOk(s.th[t := x][u], s.locks[l := k]) {
      assert PcOk(s.th[u], s.locks);
    }
  }

  // ---------------------------------------------------------------- the lock's own steps

  /** A step of the thread inside the lock, or of one that stays outside, keeps the lock. */
  lemma OwnerStep(th: map<Tid, Thread>, t: Tid, x: Thread, k: Lock, k': Lock, l: LockId)
    requires t in th && LockInv(th, k, l)
    requires k'.value == k.value == 0 && k'.waiters == k.waiters
    requires th[t].pc != Loop(l) && x.pc != Loop(l)
    requires Inside(th[t], l) && OwnerIs(th[t := x], k', l, t)
    ensures LockInv(th[t := x], k', l)
  {
  }

  /** Passing the loop of sema_down, whether at once or after a wake-up. */
  lemma TakeStep(th: map<Tid, Thread>, t: Tid, x: Thread, k: Lock, l: LockId)
    requires t in th && LockInv(th, k, l) && k.value == 1
    requires !Sleeping(th[t], l) && x.pc == Taken(l) && Depth(x, l) == 0
    ensures LockInv(th[t := x], k.(value := 0), l)
  {
    assert OwnerIs(th[t := x], k.(value := 0), l, t);
  }

  /** Going to sleep in the loop of sema_down. */
  lemma SleepStep(th: map<Tid, Thread>, t: Tid, x: Thread, k: Lock, l: LockId)
    requires t in th && LockInv(th, k, l) && k.value == 0
    requires !Sleeping(th[t], l) && !Inside(th[t], l) && Sleeping(x, l) && Depth(x, l) == 0
    ensures LockInv(th[t := x], k.(waiters := k.waiters + [t]), l)
  {
    var o :| OwnerIs(th, k, l, o);
    assert OwnerIs(th[t := x], k.(waiters := k.waiters + [t]), l, o);
  }

  /** sema_up: the owner leaves, and the first waiter, if any, becomes the woken one. */
  lemma UpStep(th: map<Tid, Thread>, t: Tid, x: Thread, k: Lock, l: LockId)
    requires t in th && LockInv(th, k, l) && th[t].pc == Up(l) && Depth(th[t], l) == 1
    requires x.pc == Run && Depth(x, l) == 0
    ensures k.value == 0
    ensures k.waiters == [] ==> LockInv(th[t := x], k.(value := 1), l)
    ensures k.waiters != [] ==>
      var w := k.waiters[0];
      && w in th && w != t && Sleeping(th[w], l)
      && LockInv(th[t := x][w := th[w].(status := Ready)], k.(value := 1, waiters := k.waiters[1..]), l)
  {
    assert Inside(th[t], l) && k.value == 0;
    var o :| OwnerIs(th, k, l, o);
    assert o == t;
    if k.waiters != [] {
      var w := k.waiters[0];
      assert w in k.waiters;
      NoDupRest(k.waiters);
      var th' := th[t := x][w := th[w].(status := Ready)];
      assert w in th' && Woken(th'[w], l);
    }
  }
}
