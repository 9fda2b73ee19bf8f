/** Safety of every run of the machine in Threads, and what a reader may rely on in any state it reaches. */
module LockRuns {
  import opened Threads
  import opened LockSafety

  // ---------------------------------------------------------------- scheduling events

  lemma ScheduleInv(s: State)
    requires SchedBase(s) && LocksInv(s)
    ensures Inv(Schedule(s))
  {
    ScheduleKeeps(s);
    QuietKeepsLocks(s, Schedule(s));
  }

  lemma TimerInv(s: State)
    requires Inv(s)
    ensures Inv(TimerTick(s))
  {
    if s.th[s.cur].ticks == 0 {
      ScheduleInv(s);
    } else {
      QuietKeepsLocks(s, TimerTick(s));
    }
  }

  lemma WakeInv(s: State, t: Tid)
    requires Inv(s) && t in s.th && s.th[t].pc.Suspended? && IsBlocked(s.th[t].status)
    ensures Inv(ThreadUnblock(s, t))
  {
    UnblockKeeps(s, t);
    QuietKeepsLocks(s, ThreadUnblock(s, t));
  }

  /** Any change of the running thread's place that no lock looks at. */
  lemma MoveInv(s: State, pc: Pc)
    requires Inv(s) && PcOk(s.th[s.cur].(pc := pc), s.locks)
    requires s.cur != s.idle || pc == Run || pc == Suspended
    requires forall l :: Bystander(s.th[s.cur].pc, l) && Bystander(pc, l)
    ensures Inv(SetPc(s, pc))
  {
    var x := s.th[s.cur].(pc := pc);
    forall l | l in s.locks ensures LockInv(s.th[s.cur := x], s.locks[l], l) {
      OtherLock(s.th, s.cur, x, s.locks[l], l);
    }
    forall t | t in s.th ensures PcOk(SetPc(s, pc).th[t], s.locks) {
      assert PcOk(s.th[t], s.locks);
    }
  }

  lemma SleepInv(s: State, stat: Status)
    requires Inv(s) && s.th[s.cur].pc == Run && IsBlocked(stat)
    ensures Inv(Apply(s, Sleep(stat)))
  {
    hide ReadyExact, ThreadOk, LocksInv, ThreadBlock;
    MoveInv(s, Suspended);
    BlockKeeps(SetPc(s, Suspended), stat);
  }

  /** thread_block on its own, once the thread has left its own code. */
  lemma BlockKeeps(s: State, stat: Status)
    requires Inv(s) && s.th[s.cur].pc == Suspended && IsBlocked(stat)
    ensures Inv(ThreadBlock(s, stat))
  {
    BlockBase(s, stat);
    hide SchedBase, LocksInv, Quiet;
    var s1 := s.(th := s.th[s.cur := s.th[s.cur].(status := stat)]);
    QuietKeepsLocks(s, s1);
    ScheduleInv(s1);
  }

  lemma SleepBase(s: State, stat: Status)
    requires Inv(s) && s.th[s.cur].pc == Run && IsBlocked(stat)
    ensures var s1 := SetPc(s, Suspended);
      var s2 := s1.(th := s1.th[s1.cur := s1.th[s1.cur].(status := stat)]);
      SchedBase(s2) && LocksInv(s2)
  {
    MoveInv(s, Suspended);
    var s1 := SetPc(s, Suspended);
    BlockBase(s1, stat);
    hide SchedBase, LocksInv, Quiet;
    QuietKeepsLocks(s1, s1.(th := s1.th[s1.cur := s1.th[s1.cur].(status := stat)]));
  }

  /** thread_block up to its call of schedule. */
  lemma BlockBase(s: State, stat: Status)
    requires SchedInv(s) && s.th[s.cur].pc == Suspended && IsBlocked(stat)
    ensures var s' := s.(th := s.th[s.cur := s.th[s.cur].(status := stat)]);
      SchedBase(s') && Quiet(s.th, s'.th)
  {
    assert s.cur !in s.ready;
  }

  lemma YieldInv(s: State)
    requires Inv(s) && s.th[s.cur].pc == Run && s.cur != s.idle
    ensures Inv(Apply(s, Yield))
  {
    MoveInv(s, Suspended);
    YieldKeeps(SetPc(s, Suspended));
  }

  /** thread_yield on its own, once the thread has left its own code. */
  lemma YieldKeeps(s: State)
    requires Inv(s) && s.th[s.cur].pc == Suspended
    ensures Inv(ThreadYield(s))
  {
    var s1 := s.(ready := s.ready + [s.cur], th := s.th[s.cur := s.th[s.cur].(status := Ready)]);
    YieldBase(s);
    hide SchedBase, LocksInv, Quiet;
    QuietKeepsLocks(s, s1);
    ScheduleInv(s1);
  }

  /** thread_yield up to its call of schedule. */
  lemma YieldBase(s: State)
    requires SchedInv(s) && s.th[s.cur].pc == Suspended
    ensures s.cur !in s.ready
    ensures var s' := s.(ready := s.ready + [s.cur], th := s.th[s.cur := s.th[s.cur].(status := Ready)]);
      SchedBase(s') && Quiet(s.th, s'.th)
  {
    assert s.cur !in s.ready;
    assert forall t :: t in s.ready + [s.cur] <==> t in s.ready || t == s.cur;
  }

  lemma StartInv(s: State, t: Tid, priority: nat)
    requires Inv(s) && t !in s.th
    ensures Inv(ThreadStart(s, t, priority))
  {
    StartSched(s, t, priority);
    StartLocks(s, t, priority);
  }

  lemma StartSched(s: State, t: Tid, priority: nat)
    requires SchedInv(s) && t !in s.th
    ensures SchedInv(ThreadStart(s, t, priority)) && ThreadStart(s, t, priority).locks == s.locks
    ensures ThreadStart(s, t, priority).th == s.th[t := Thread(Ready, Run, priority, priority, map[])]
  {
    assert forall u :: u in s.ready + [t] <==> u in s.ready || u == t;
  }

  lemma StartLocks(s: State, t: Tid, priority: nat)
    requires LocksInv(s) && t !in s.th
    ensures var th := s.th[t := Thread(Ready, Run, priority, priority, map[])];
      PcsOk(th, s.locks) && forall l :: l in s.locks ==> LockInv(th, s.locks[l], l)
  {
    hide LockInv;
    forall l | l in s.locks ensures LockInv(s.th[t := Thread(Ready, Run, priority, priority, map[])], s.locks[l], l) {
      StartLock(s.th, s.locks[l], l, t, Thread(Ready, Run, priority, priority, map[]));
    }
  }

  /** A thread that is new leaves every lock as it was. */
  lemma StartLock(th: map<Tid, Thread>, k: Lock, l: LockId, t: Tid, x: Thread)
    requires LockInv(th, k, l) && t !in th && x.pc == Run && x.depth == map[]
    ensures LockInv(th[t := x], k, l)
  {
    if k.value == 0 {
      var o :| OwnerIs(th, k, l, o);
      assert OwnerIs(th[t := x], k, l, o);
    }
    if k.value == 1 && k.waiters != [] {
      var w :| w in th && Woken(th[w], l);
      assert Woken(th[t := x][w], l);
    }
  }

  // ---------------------------------------------------------------- lock events

  /** Nothing about the schedule changes when the running thread moves on inside the lock code. */
  lemma SchedSame(s: State, x: Thread, locks: map<LockId, Lock>)
    requires SchedInv(s) && s.cur != s.idle && x.status == Running && x.ticks <= x.priority
    requires locks.Keys == s.locks.Keys
    requires forall l :: l in locks ==> forall t :: t in locks[l].waiters ==> t in s.th
    ensures SchedInv(s.(th := s.th[s.cur := x], locks := locks))
  {
  }

  /** A section that leaves the schedule alone and works on lock `l`. */
  lemma SectionInv(s: State, x: Thread, l: LockId, k: Lock)
    requires Inv(s) && s.cur != s.idle && l in s.locks
    requires x.status == Running && x.ticks <= x.priority
    requires WorksOn(s.th[s.cur].pc, l) && WorksOn(x.pc, l)
    requires forall m :: m != l ==> Depth(x, m) == Depth(s.th[s.cur], m)
    requires PcOk(x, s.locks) && LockInv(s.th[s.cur := x], k, l)
    ensures Inv(s.(th := s.th[s.cur := x], locks := s.locks[l := k]))
  {
    LocksStep(s, s.cur, x, l, k);
    assert forall t :: t in k.waiters ==> t in s.th[s.cur := x];
    SchedSame(s, x, s.locks[l := k]);
  }

  lemma SleepInLock(s: State, l: LockId)
    requires Inv(s) && s.cur != s.idle && l in s.locks && s.locks[l].value == 0
    requires WorksOn(s.th[s.cur].pc, l) && PcOk(s.th[s.cur].(pc := Loop(l)), s.locks) && !Inside(s.th[s.cur], l)
    ensures var k, x := s.locks[l], s.th[s.cur].(pc := Loop(l), status := Blocked);
      var s' := s.(th := s.th[s.cur := x], locks := s.locks[l := k.(waiters := k.waiters + [s.cur])]);
      s.cur !in k.waiters && SchedBase(s') && LocksInv(s')
  {
    var k, x := s.locks[l], s.th[s.cur].(pc := Loop(l), status := Blocked);
    assert LockInv(s.th, k, l);
    SleepStep(s.th, s.cur, x, k, l);
    LocksStep(s, s.cur, x, l, k.(waiters := k.waiters + [s.cur]));
    assert s.cur !in s.ready;
  }

  lemma SemaDownWaits(s: State, l: LockId)
    requires Inv(s) && s.cur != s.idle && (s.th[s.cur].pc == Down(l) || s.th[s.cur].pc == Loop(l))
    requires l in s.locks && s.locks[l].value == 0
    ensures Inv(SemaDown(s, l))
  {
    assert PcOk(s.th[s.cur], s.locks);
    SleepInLock(s, l);
    var k, x := s.locks[l], s.th[s.cur].(pc := Loop(l), status := Blocked);
    var s' := s.(th := s.th[s.cur := x], locks := s.locks[l := k.(waiters := k.waiters + [s.cur])]);
    ScheduleInv(s');
    SleepShape(s, l);
  }

  lemma SleepShape(s: State, l: LockId)
    requires Closed(s) && l in s.locks && s.locks[l].value == 0 && s.cur !in s.locks[l].waiters
    ensures var k, x := s.locks[l], s.th[s.cur].(pc := Loop(l), status := Blocked);
      var s' := s.(th := s.th[s.cur := x], locks := s.locks[l := k.(waiters := k.waiters + [s.cur])]);
      Closed(s') ==> SemaDown(s, l) == Schedule(s')
  {
    var k, x := s.locks[l], s.th[s.cur].(pc := Loop(l), status := Blocked);
    assert s.th[s.cur := s.th[s.cur].(pc := Loop(l))][s.cur := x] == s.th[s.cur := x];
  }

  lemma SemaDownTakes(s: State, l: LockId)
    requires Inv(s) && s.cur != s.idle && (s.th[s.cur].pc == Down(l) || s.th[s.cur].pc == Loop(l))
    requires l in s.locks && s.locks[l].value != 0
    ensures Inv(SemaDown(s, l))
  {
    var x, k := s.th[s.cur], s.locks[l];
    assert PcOk(x, s.locks) && LockInv(s.th, k, l);
    TakeStep(s.th, s.cur, x.(pc := Taken(l)), k, l);
    SectionInv(s, x.(pc := Taken(l)), l, k.(value := 0));
  }

  lemma SemaDownInv(s: State, l: LockId)
    requires Inv(s) && s.cur != s.idle && (s.th[s.cur].pc == Down(l) || s.th[s.cur].pc == Loop(l))
    ensures l in s.locks && Inv(SemaDown(s, l))
  {
    assert PcOk(s.th[s.cur], s.locks);
    if s.locks[l].value == 0 {
      SemaDownWaits(s, l);
    } else {
      SemaDownTakes(s, l);
    }
  }

  /** The thread in the lock is its owner. */
  lemma OwnerHere(s: State, l: LockId) returns (k: Lock)
    requires Inv(s) && l in s.locks && Inside(s.th[s.cur], l)
    ensures k == s.locks[l] && k.value == 0 && OwnerIs(s.th, k, l, s.cur)
  {
    k := s.locks[l];
    assert LockInv(s.th, k, l);
    var o :| OwnerIs(s.th, k, l, o);
  }

  lemma OwnerSection(s: State, x: Thread, l: LockId, k: Lock)
    requires Inv(s) && s.cur != s.idle && l in s.locks && Inside(s.th[s.cur], l)
    requires x.status == Running && x.ticks <= x.priority
    requires WorksOn(s.th[s.cur].pc, l) && WorksOn(x.pc, l)
    requires s.th[s.cur].pc != Loop(l) && x.pc != Loop(l)
    requires forall m :: m != l ==> Depth(x, m) == Depth(s.th[s.cur], m)
    requires PcOk(x, s.locks) && k.value == 0 && k.waiters == s.locks[l].waiters
    requires OwnerIs(s.th[s.cur := x], k, l, s.cur)
    ensures Inv(s.(th := s.th[s.cur := x], locks := s.locks[l := k]))
  {
    var k0 := OwnerHere(s, l);
    assert LockInv(s.th, k0, l);
    OwnerStep(s.th, s.cur, x, k0, k, l);
    SectionInv(s, x, l, k);
  }

  lemma NotHolder(s: State, l: LockId)
    requires Inv(s) && l in s.locks && !Inside(s.th[s.cur], l)
    ensures s.locks[l].holder != Some(s.cur)
  {
    var k := s.locks[l];
    assert LockInv(s.th, k, l);
    if k.value == 0 {
      var o :| OwnerIs(s.th, k, l, o);
    }
  }

  lemma EnterInv(s: State, l: LockId)
    requires Inv(s) && s.cur != s.idle && s.th[s.cur].pc == Enter(l)
    ensures Closed(s) && PcNames(s) && Inv(Advance(s))
  {
    assert PcOk(s.th[s.cur], s.locks);
    if Inside(s.th[s.cur], l) {
      EnterAgain(s, l);
    } else {
      EnterFirst(s, l);
    }
  }

  lemma EnterFirst(s: State, l: LockId)
    requires Inv(s) && s.cur != s.idle && s.th[s.cur].pc == Enter(l) && l in s.locks && !Inside(s.th[s.cur], l)
    ensures Closed(s) && PcNames(s) && Inv(Advance(s))
  {
    NotHolder(s, l);
    MoveInv(s, Down(l));
    hide Inv;
  }

  lemma EnterAgain(s: State, l: LockId)
    requires Inv(s) && s.cur != s.idle && s.th[s.cur].pc == Enter(l) && l in s.locks && Inside(s.th[s.cur], l)
    ensures Closed(s) && PcNames(s) && Inv(Advance(s))
  {
    var x := s.th[s.cur];
    var k := OwnerHere(s, l);
    Nested(s.th, s.cur, k, l, k.repeat + 1);
    OwnerSection(s, x.(pc := Run, depth := x.depth[l := k.repeat + 1]), l, k.(repeat := k.repeat + 1));
    EnterShape(s, l);
  }

  lemma EnterShape(s: State, l: LockId)
    requires Closed(s) && l in s.locks && s.th[s.cur].pc == Enter(l)
    requires s.locks[l].holder == Some(s.cur) && s.locks[l].repeat == Depth(s.th[s.cur], l)
    ensures var x, d := s.th[s.cur], s.locks[l].repeat + 1;
      PcNames(s) && Advance(s) == s.(th := s.th[s.cur := x.(pc := Run, depth := x.depth[l := d])],
                                     locks := s.locks[l := s.locks[l].(repeat := d)])
  {
  }

  /** The owner stays the owner at another nesting depth. */
  lemma Nested(th: map<Tid, Thread>, t: Tid, k: Lock, l: LockId, d: nat)
    requires OwnerIs(th, k, l, t) && (th[t].pc == Enter(l) || th[t].pc == Release(l)) && d > 0
    ensures k.holder == Some(t) && k.repeat == Depth(th[t], l)
    ensures OwnerIs(th[t := th[t].(pc := Run, depth := th[t].depth[l := d])], k.(repeat := d), l, t)
  {
  }

  lemma TakenInv(s: State, l: LockId)
    requires Inv(s) && s.cur != s.idle && s.th[s.cur].pc == Taken(l)
    ensures Closed(s) && PcNames(s) && Inv(Advance(s))
  {
    var x := s.th[s.cur];
    assert PcOk(x, s.locks);
    var k := OwnerHere(s, l);
    OwnerSection(s, x.(pc := Owned(l)), l, k.(holder := Some(s.cur)));
  }

  lemma OwnedInv(s: State, l: LockId)
    requires Inv(s) && s.cur != s.idle && s.th[s.cur].pc == Owned(l)
    ensures Closed(s) && PcNames(s) && Inv(Advance(s))
  {
    var x := s.th[s.cur];
    assert PcOk(x, s.locks);
    var k := OwnerHere(s, l);
    OwnedOwner(s.th, s.cur, k, l);
    OwnerSection(s, x.(pc := Run, depth := x.depth[l := 1]), l, k.(repeat := 1));
    OwnedShape(s, l);
  }

  lemma OwnedShape(s: State, l: LockId)
    requires Closed(s) && l in s.locks && s.th[s.cur].pc == Owned(l)
    requires s.locks[l].repeat == 0 && Depth(s.th[s.cur], l) == 0
    ensures var x := s.th[s.cur];
      Advance(s) == s.(th := s.th[s.cur := x.(pc := Run, depth := x.depth[l := 1])],
                       locks := s.locks[l := s.locks[l].(repeat := 1)])
  {
  }

  lemma OwnedOwner(th: map<Tid, Thread>, t: Tid, k: Lock, l: LockId)
    requires OwnerIs(th, k, l, t) && th[t].pc == Owned(l) && Depth(th[t], l) == 0
    ensures k.repeat == 0
    ensures OwnerIs(th[t := th[t].(pc := Run, depth := th[t].depth[l := 1])], k.(repeat := 1), l, t)
  {
  }

  lemma ReleaseInv(s: State, l: LockId)
    requires Inv(s) && s.cur != s.idle && s.th[s.cur].pc == Release(l)
    ensures Closed(s) && PcNames(s) && Inv(Advance(s))
  {
    assert PcOk(s.th[s.cur], s.locks);
    if Depth(s.th[s.cur], l) > 1 {
      ReleaseInner(s, l);
    } else {
      ReleaseLast(s, l);
    }
  }

  lemma ReleaseInner(s: State, l: LockId)
    requires Inv(s) && s.cur != s.idle && s.th[s.cur].pc == Release(l) && l in s.locks && Depth(s.th[s.cur], l) > 1
    ensures Closed(s) && PcNames(s) && Inv(Advance(s))
  {
    var x := s.th[s.cur];
    var k := OwnerHere(s, l);
    Nested(s.th, s.cur, k, l, k.repeat - 1);
    OwnerSection(s, x.(pc := Run, depth := x.depth[l := k.repeat - 1]), l, k.(repeat := k.repeat - 1));
    ReleaseShape(s, l);
  }

  lemma ReleaseShape(s: State, l: LockId)
    requires Closed(s) && l in s.locks && s.th[s.cur].pc == Release(l)
    requires s.locks[l].holder == Some(s.cur) && s.locks[l].repeat == Depth(s.th[s.cur], l) > 1
    ensures var x, d := s.th[s.cur], s.locks[l].repeat - 1;
      PcNames(s) && Advance(s) == s.(th := s.th[s.cur := x.(pc := Run, depth := x.depth[l := d])],
                                     locks := s.locks[l := s.locks[l].(repeat := d)])
  {
  }

  lemma ReleaseLast(s: State, l: LockId)
    requires Inv(s) && s.cur != s.idle && s.th[s.cur].pc == Release(l) && l in s.locks && Depth(s.th[s.cur], l) == 1
    ensures Closed(s) && PcNames(s) && Inv(Advance(s))
  {
    var x := s.th[s.cur];
    var k := OwnerHere(s, l);
    OwnerSection(s, x.(pc := Drop(l)), l, k);
    LastShape(s, l);
  }

  lemma LastShape(s: State, l: LockId)
    requires Closed(s) && l in s.locks && s.th[s.cur].pc == Release(l)
    requires s.locks[l].holder == Some(s.cur) && s.locks[l].repeat == 1
    ensures PcNames(s) && s.locks[l := s.locks[l]] == s.locks
    ensures Advance(s) == s.(th := s.th[s.cur := s.th[s.cur].(pc := Drop(l))])
  {
  }

  lemma DropInv(s: State, l: LockId)
    requires Inv(s) && s.cur != s.idle && s.th[s.cur].pc == Drop(l)
    ensures Closed(s) && PcNames(s) && Inv(Advance(s))
  {
    var x := s.th[s.cur];
    assert PcOk(x, s.locks);
    var k := OwnerHere(s, l);
    OwnerSection(s, x.(pc := Clear(l)), l, k.(holder := None));
  }

  lemma ClearInv(s: State, l: LockId)
    requires Inv(s) && s.cur != s.idle && s.th[s.cur].pc == Clear(l)
    ensures Closed(s) && PcNames(s) && Inv(Advance(s))
  {
    var x := s.th[s.cur];
    assert PcOk(x, s.locks);
    var k := OwnerHere(s, l);
    OwnerSection(s, x.(pc := Up(l)), l, k.(repeat := 0));
  }

  lemma UpInv(s: State, l: LockId)
    requires Inv(s) && s.cur != s.idle && s.th[s.cur].pc == Up(l)
    ensures Closed(s) && PcNames(s) && Inv(Advance(s))
  {
    var x := s.th[s.cur];
    assert PcOk(x, s.locks);
    var y := x.(pc := Run, depth := x.depth[l := 0]);
    var k := s.locks[l];
    assert LockInv(s.th, k, l);
    UpStep(s.th, s.cur, y, k, l);
    if k.waiters == [] {
      SectionInv(s, y, l, k.(value := 1));
    } else {
      UpWakes(s, y, l);
    }
  }

  /** sema_up with a waiter: two threads change, so the other locks are looked at twice. */
  lemma UpWakes(s: State, y: Thread, l: LockId)
    requires Inv(s) && s.cur != s.idle && l in s.locks && s.locks[l].waiters != []
    requires s.th[s.cur].pc == Up(l) && Depth(s.th[s.cur], l) == 1
    requires y == s.th[s.cur].(pc := Run, depth := s.th[s.cur].depth[l := 0])
    ensures Closed(s.(th := s.th[s.cur := y]))
    ensures Inv(SemaUp(s.(th := s.th[s.cur := y]), l))
  {
    hide LockInv, PcsOk;
    var k := s.locks[l];
    assert LockInv(s.th, k, l);
    UpStep(s.th, s.cur, y, k, l);
    var w := k.waiters[0];
    var s1 := s.(th := s.th[s.cur := y], locks := s.locks[l := k.(value := 1, waiters := k.waiters[1..])]);
    assert IsBlocked(s.th[w].status) && y.status == Running && y.ticks <= y.priority;
    UpWakesSched(s, y, l);
    UpWakesLocks(s.th, s1.th[w := s.th[w].(status := Ready)], s.locks, s1.locks, l, s.cur, w);
    UpWakesPcs(s, y, l, w, s1.locks);
  }

  /** The scheduler's half of it. */
  lemma UpWakesSched(s: State, y: Thread, l: LockId)
    requires SchedInv(s) && s.cur != s.idle && l in s.locks && s.locks[l].waiters != [] && s.locks[l].value == 0
    requires y.status == Running && y.ticks <= y.priority
    requires var w := s.locks[l].waiters[0]; w in s.th && w != s.cur && IsBlocked(s.th[w].status)
    ensures Closed(s.(th := s.th[s.cur := y]))
    ensures
      var k := s.locks[l];
      var w, s1 := k.waiters[0], s.(th := s.th[s.cur := y],
                                    locks := s.locks[l := k.(value := 1, waiters := k.waiters[1..])]);
      && Closed(s1) && SemaUp(s.(th := s.th[s.cur := y]), l) == ThreadUnblock(s1, w)
      && SchedInv(ThreadUnblock(s1, w)) && ThreadUnblock(s1, w).th == s1.th[w := s1.th[w].(status := Ready)]
      && ThreadUnblock(s1, w).locks == s1.locks
  {
    var k := s.locks[l];
    var w, s1 := k.waiters[0], s.(th := s.th[s.cur := y],
                                  locks := s.locks[l := k.(value := 1, waiters := k.waiters[1..])]);
    assert forall t :: t in k.waiters[1..] ==> t in k.waiters;
    SchedSame(s, y, s1.locks);
    UnblockKeeps(s1, w);
  }

  lemma UpWakesLocks(th: map<Tid, Thread>, th': map<Tid, Thread>, locks: map<LockId, Lock>, locks': map<LockId, Lock>,
                     l: LockId, t: Tid, w: Tid)
    requires t in th && w in th && w != t && th[t].pc == Up(l) && th[w].pc == Loop(l)
    requires th' == th[t := th[t].(pc := Run, depth := th[t].depth[l := 0])][w := th[w].(status := Ready)]
    requires locks'.Keys == locks.Keys && forall m :: m in locks && m != l ==> locks'[m] == locks[m]
    requires forall m :: m in locks && m != l ==> LockInv(th, locks[m], m)
    ensures forall m :: m in locks' && m != l ==> LockInv(th', locks'[m], m)
  {
    hide LockInv;
    forall m | m in locks && m != l ensures LockInv(th', locks'[m], m) {
      UpWakesOther(th, t, th[t].(pc := Run, depth := th[t].depth[l := 0]), w, l, locks[m], m);
    }
  }

  lemma UpWakesPcs(s: State, y: Thread, l: LockId, w: Tid, locks: map<LockId, Lock>)
    requires PcsOk(s.th, s.locks) && s.cur in s.th && w in s.th && w != s.cur
    requires y.pc == Run && locks.Keys == s.locks.Keys
    ensures PcsOk(s.th[s.cur := y][w := s.th[w].(status := Ready)], locks)
  {
    forall t | t in s.th ensures PcOk(s.th[s.cur := y][w := s.th[w].(status := Ready)][t], locks) {
      assert PcOk(s.th[t], s.locks);
    }
  }

  lemma UpWakesOther(th: map<Tid, Thread>, t: Tid, y: Thread, w: Tid, l: LockId, k: Lock, m: LockId)
    requires t in th && w in th && w != t && m != l && LockInv(th, k, m)
    requires th[t].pc == Up(l) && y == th[t].(pc := Run, depth := th[t].depth[l := 0])
    requires th[w].pc == Loop(l)
    ensures LockInv(th[t := y][w := th[w].(status := Ready)], k, m)
  {
    OtherLock(th, t, y, k, m);
    OtherLock(th[t := y], w, th[w].(status := Ready), k, m);
  }

  lemma AdvanceInv(s: State)
    requires Inv(s) && s.th[s.cur].pc != Run
    ensures PcNames(s) && Inv(Advance(s))
  {
    assert PcOk(s.th[s.cur], s.locks);
    match s.th[s.cur].pc
    case Run =>
    case Suspended => MoveInv(s, Run);
    case Enter(l) => EnterInv(s, l);
    case Down(l) => SemaDownInv(s, l);
    case Loop(l) => SemaDownInv(s, l);
    case Taken(l) => TakenInv(s, l);
    case Owned(l) => OwnedInv(s, l);
    case Release(l) => ReleaseInv(s, l);
    case Drop(l) => DropInv(s, l);
    case Clear(l) => ClearInv(s, l);
    case Up(l) => UpInv(s, l);
  }

  /** Every enabled event keeps the invariant; in particular no assertion of the kernel can fail. */
  lemma ApplyInv(s: State, e: Event)
    requires Inv(s) && Enabled(s, e)
    ensures Inv(Apply(s, e)) && !Apply(s, e).halted
  {
    hide LocksInv, LockInv, ThreadBlock, ThreadYield, TimerTick, Advance, ThreadUnblock, ThreadStart;
    match e
    case Timer => TimerInv(s);
    case Step => AdvanceInv(s);
    case Wake(t) => WakeInv(s, t);
    case Acquire(l) => MoveInv(s, Enter(l));
    case Free(l) => MoveInv(s, Release(l));
    case Sleep(stat) => SleepInv(s, stat);
    case Yield => YieldInv(s);
    case Start(t, priority) => StartInv(s, t, priority);
  }

  // ---------------------------------------------------------------- runs

  /** The state thread_init leaves behind: main runs, the idle thread is ready, every lock is free. */
  ghost predicate Initial(s: State) {
    && s.cur != s.idle && s.th.Keys == {s.cur, s.idle} && s.ready == [s.idle] && !s.halted
    && s.th[s.cur].status == Running && s.th[s.idle].status == Ready
    && (forall t :: t in s.th ==>
          s.th[t].pc == Run && s.th[t].depth == map[] && s.th[t].ticks == s.th[t].priority)
    && forall l :: l in s.locks ==> s.locks[l] == Lock(1, [], None, 0)
  }

  /** A run under any schedule: events that are not enabled when their turn comes do not happen. */
  function After(s: State, es: seq<Event>): State
    decreases |es|
  {
    if es == [] then s
    else if Closed(s) && Enabled(s, es[0]) then After(Apply(s, es[0]), es[1..])
    else After(s, es[1..])
  }

  lemma InitialInv(s: State)
    requires Initial(s)
    ensures Inv(s)
  {
    assert forall l :: l in s.locks ==> LockInv(s.th, s.locks[l], l);
  }

  lemma {:induction false} AfterInv(s: State, es: seq<Event>)
    requires Inv(s)
    ensures Inv(After(s, es))
    decreases |es|
  {
    if es == [] {
    } else {
      if Enabled(s, es[0]) {
        ApplyInv(s, es[0]);
        AfterInv(Apply(s, es[0]), es[1..]);
      } else {
        AfterInv(s, es[1..]);
      }
    }
  }

  /** No ASSERT of the scheduler or the lock code fails in any interleaving of any number of threads. */
  lemma NoAssertionFails(s0: State, es: seq<Event>)
    requires Initial(s0)
    ensures !After(s0, es).halted
  {
    InitialInv(s0);
    AfterInv(s0, es);
  }

  lemma MutualExclusion(s0: State, es: seq<Event>, l: LockId, t: Tid, u: Tid)
    requires Initial(s0)
    requires var s := After(s0, es); l in s.locks && t in s.th && u in s.th
    requires var s := After(s0, es); Inside(s.th[t], l) && Inside(s.th[u], l)
    ensures t == u
  {
    InitialInv(s0);
    AfterInv(s0, es);
    var s := After(s0, es);
    assert LockInv(s.th, s.locks[l], l);
  }

  ghost function Insiders(th: map<Tid, Thread>, l: LockId): set<Tid> {
    set t | t in th && Inside(th[t], l)
  }

  lemma ValueCounts(th: map<Tid, Thread>, k: Lock, l: LockId)
    requires ValueExact(th, k, l)
    ensures k.value + |Insiders(th, l)| == 1
  {
    if k.value == 0 {
      var o: Tid :| OwnerIs(th, k, l, o);
      assert forall t :: t in Insiders(th, l) <==> t == o;
      assert Insiders(th, l) == {o};
    } else {
      assert Insiders(th, l) == {};
    }
  }

  /** Semaphore value plus threads between sema_down and sema_up is always one. */
  lemma SemaphoreConservation(s0: State, es: seq<Event>, l: LockId)
    requires Initial(s0) && l in After(s0, es).locks
    ensures After(s0, es).locks[l].value + |Insiders(After(s0, es).th, l)| == 1
  {
    InitialInv(s0);
    AfterInv(s0, es);
    var s := After(s0, es);
    assert LockInv(s.th, s.locks[l], l);
    ValueCounts(s.th, s.locks[l], l);
  }

  /** Outside the lock code a thread is the recorded holder exactly when it holds the lock, and the
      recorded count is its nesting depth. */
  lemma HolderAndDepth(s0: State, es: seq<Event>, l: LockId, t: Tid)
    requires Initial(s0)
    requires var s := After(s0, es); l in s.locks && t in s.th && (s.th[t].pc == Run || s.th[t].pc == Suspended)
    ensures var s := After(s0, es);
      && (s.locks[l].holder == Some(t) <==> Depth(s.th[t], l) > 0)
      && (Depth(s.th[t], l) > 0 ==> s.locks[l].repeat == Depth(s.th[t], l))
  {
    InitialInv(s0);
    AfterInv(s0, es);
    var s := After(s0, es);
    assert LockInv(s.th, s.locks[l], l);
    if s.locks[l].value == 0 {
      var o :| OwnerIs(s.th, s.locks[l], l, o);
    }
  }

  /** A free lock with waiters has a thread that was popped from them and is ready or running. */
  lemma NoWakeupIsLost(s0: State, es: seq<Event>, l: LockId) returns (t: Tid)
    requires Initial(s0)
    requires var s := After(s0, es); l in s.locks && s.locks[l].value == 1 && s.locks[l].waiters != []
    ensures var s := After(s0, es);
      && t in s.th && s.th[t].pc == Loop(l) && t !in s.locks[l].waiters
      && (t in s.ready || t == s.cur)
  {
    InitialInv(s0);
    AfterInv(s0, es);
    var s := After(s0, es);
    assert LockInv(s.th, s.locks[l], l);
    t :| t in s.th && Woken(s.th[t], l);
    assert s.th[t].status == Ready || s.th[t].status == Running;
  }

  /** A thread's one general_tag is on at most one list, and at most once. */
  lemma OneListPerTag(s0: State, es: seq<Event>, l: LockId, m: LockId, t: Tid)
    requires Initial(s0)
    requires var s := After(s0, es); l in s.locks && m in s.locks && l != m
    ensures var s := After(s0, es);
      && NoDup(s.ready) && NoDup(s.locks[l].waiters)
      && !(t in s.ready && t in s.locks[l].waiters)
      && !(t in s.locks[l].waiters && t in s.locks[m].waiters)
  {
    InitialInv(s0);
    AfterInv(s0, es);
    var s := After(s0, es);
    assert LockInv(s.th, s.locks[l], l) && LockInv(s.th, s.locks[m], m);
  }

  /** Exactly one thread runs, and the ready list holds exactly the ready threads. */
  lemma SchedulerWellFormed(s0: State, es: seq<Event>, t: Tid)
    requires Initial(s0)
    ensures var s := After(s0, es);
      && s.cur in s.th
      && (t in s.th && s.th[t].status == Running <==> t == s.cur)
      && (t in s.th && s.th[t].status == Ready <==> t in s.ready)
      && (t == s.idle && s.ready == [] && t != s.cur ==> t in s.th && IsBlocked(s.th[t].status))
  {
    InitialInv(s0);
    AfterInv(s0, es);
  }
}
