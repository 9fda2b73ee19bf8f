/** What one event of the machine in Threads leaves of every thread, list and lock, said without naming how the
    machine does it, and what whole calls and runs come to: who holds a lock by the calls made, what a lock_acquire
    and a lock_release do from end to end, how long a slice lasts, and in which order waiters get a lock. */
module EventLaws {
  import opened Threads
  import opened LockSafety
  import opened LockRuns
  import opened RoundRobin

  // ---------------------------------------------------------------- schedule

  /** schedule gives a thread that is still running a new slice and its turn behind the others; every other thread
      only gets the processor or does not. */
  lemma ScheduleThread(s: State, t: Tid)
    requires SchedBase(s) && t in s.th
    ensures var s' := Schedule(s);
      && t in s'.th
      && s'.th[t].pc == s.th[t].pc && s'.th[t].depth == s.th[t].depth && s'.th[t].priority == s.th[t].priority
      && s'.th[t].ticks == (if t == s.cur && s.th[t].status == Running then s.th[t].priority else s.th[t].ticks)
      && s'.th[t].status == (if t == s'.cur then Running
                             else if s.th[t].status == Running then Ready else s.th[t].status)
  {
    hide Dispatch, ReadyExact, ThreadOk;
    RequeueKeeps(s);
    DispatchThread(Requeue(s), t);
  }

  lemma DispatchThread(s: State, t: Tid)
    requires SchedBase(s) && t in s.th && forall u :: u in s.th ==> s.th[u].status != Running
    ensures var s' := Dispatch(s);
      t in s'.th && s'.th[t] == s.th[t].(status := if t == s'.cur then Running else s.th[t].status)
  {
  }

  /** A thread on its way to sleep in the loop of sema_down: last among the waiters, and blocked. */
  ghost function Asleep(s: State, l: LockId): State
    requires s.cur in s.th && l in s.locks
  {
    s.(th := s.th[s.cur := s.th[s.cur].(pc := Loop(l), status := Blocked)],
       locks := s.locks[l := s.locks[l].(waiters := s.locks[l].waiters + [s.cur])])
  }

  lemma WaitIs(s: State, l: LockId)
    requires Inv(s) && Enabled(s, Step) && l in s.locks && s.locks[l].value == 0
    requires s.th[s.cur].pc == Down(l) || s.th[s.cur].pc == Loop(l)
    ensures SchedBase(Asleep(s, l)) && Apply(s, Step) == Schedule(Asleep(s, l))
  {
    assert PcOk(s.th[s.cur], s.locks);
    SleepInLock(s, l);
    SleepShape(s, l);
    hide Inv, Schedule;
  }

  /** A thread on its way to sleep in thread_block. */
  ghost function Blocking(s: State, stat: Status): State
    requires s.cur in s.th
  {
    s.(th := s.th[s.cur := s.th[s.cur].(pc := Suspended, status := stat)])
  }

  lemma SleepIs(s: State, stat: Status)
    requires Inv(s) && Enabled(s, Sleep(stat))
    ensures SchedBase(Blocking(s, stat)) && Apply(s, Sleep(stat)) == Schedule(Blocking(s, stat))
  {
    SleepBase(s, stat);
    var x := s.th[s.cur];
    assert s.th[s.cur := x.(pc := Suspended)][s.cur := x.(pc := Suspended, status := stat)] == Blocking(s, stat).th;
    hide LocksInv, Schedule;
  }

  /** A thread that thread_yield has put last among the ready ones. */
  ghost function Yielding(s: State): State
    requires s.cur in s.th
  {
    s.(th := s.th[s.cur := s.th[s.cur].(pc := Suspended, status := Ready)], ready := s.ready + [s.cur])
  }

  lemma YieldIs(s: State)
    requires Inv(s) && Enabled(s, Yield)
    ensures SchedBase(Yielding(s)) && Apply(s, Yield) == Schedule(Yielding(s))
  {
    MoveInv(s, Suspended);
    hide LocksInv, Schedule;
    YieldBase(SetPc(s, Suspended));
    var x := s.th[s.cur];
    assert s.th[s.cur := x.(pc := Suspended)][s.cur := x.(pc := Suspended, status := Ready)] == Yielding(s).th;
  }

  // ---------------------------------------------------------------- one event, any thread

  /** The thread `thread_unblock` is called for, if it is. */
  ghost predicate Unblocks(s: State, e: Event, t: Tid)
    requires Closed(s) && Enabled(s, e)
  {
    match e
    case Wake(u) => t == u
    case Step =>
      var pc := s.th[s.cur].pc;
      pc.Up? && s.locks[pc.lock].waiters != [] && t == s.locks[pc.lock].waiters[0]
    case _ => false
  }

  /** The status of a thread that does not run after the event. */
  function StatusLeft(s: State, e: Event, t: Tid): Status
    requires t in s.th
  {
    if t != s.cur then s.th[t].status
    else match e
      case Sleep(stat) => stat
      case Step => Blocked
      case _ => Ready
  }

  /** Where a call takes the thread that makes it. */
  function CallPlace(pc: Pc, e: Event): Pc {
    match e
    case Acquire(l) => Enter(l)
    case Free(l) => Release(l)
    case Sleep(_) => Suspended
    case Yield => Suspended
    case _ => pc
  }

  /** A tick takes one off the slice of the running thread, a tick at zero refills it, and nothing else touches a
      slice; nothing touches a priority. A thread's status is Running exactly when it has the processor. */
  ghost predicate ThreadGoesOn(s: State, e: Event, s': State, t: Tid)
    requires Closed(s) && Enabled(s, e) && t in s.th
  {
    var x := s.th[t];
    && t in s'.th && s'.th[t].priority == x.priority
    && s'.th[t].ticks ==
       (if e != Timer || t != s.cur then x.ticks else if x.ticks == 0 then x.priority else x.ticks - 1)
    && s'.th[t].status ==
       (if t == s'.cur then Running else if Unblocks(s, e, t) then Ready else StatusLeft(s, e, t))
    && (t != s.cur ==> s'.th[t].pc == x.pc && s'.th[t].depth == x.depth)
    && (t == s.cur && e != Step ==> s'.th[t].pc == CallPlace(x.pc, e) && s'.th[t].depth == x.depth)
  }

  lemma TimerThread(s: State, t: Tid)
    requires Inv(s) && Enabled(s, Timer) && t in s.th
    ensures ThreadGoesOn(s, Timer, Apply(s, Timer), t)
  {
    hide LocksInv, Schedule;
    if s.th[s.cur].ticks == 0 {
      ScheduleThread(s, t);
    }
  }

  lemma SleepThread(s: State, stat: Status, t: Tid)
    requires Inv(s) && Enabled(s, Sleep(stat)) && t in s.th
    ensures ThreadGoesOn(s, Sleep(stat), Apply(s, Sleep(stat)), t)
  {
    hide LocksInv, ReadyExact, ThreadOk, Schedule, Apply;
    SleepIs(s, stat);
    ScheduleThread(Blocking(s, stat), t);
  }

  lemma YieldThread(s: State, t: Tid)
    requires Inv(s) && Enabled(s, Yield) && t in s.th
    ensures ThreadGoesOn(s, Yield, Apply(s, Yield), t)
  {
    hide LocksInv, ReadyExact, ThreadOk, Schedule, Apply;
    YieldIs(s);
    ScheduleThread(Yielding(s), t);
  }

  lemma WakeThread(s: State, u: Tid, t: Tid)
    requires Inv(s) && Enabled(s, Wake(u)) && t in s.th
    ensures ThreadGoesOn(s, Wake(u), Apply(s, Wake(u)), t)
  {
    UnblockKeeps(s, u);
    hide LocksInv;
  }

  lemma StepThread(s: State, t: Tid)
    requires Inv(s) && Enabled(s, Step) && t in s.th
    ensures ThreadGoesOn(s, Step, Apply(s, Step), t)
  {
    assert PcOk(s.th[s.cur], s.locks);
    var pc := s.th[s.cur].pc;
    if (pc.Down? || pc.Loop?) && s.locks[pc.lock].value == 0 {
      WaitThread(s, pc.lock, t);
    } else if pc.Up? && s.locks[pc.lock].waiters != [] {
      UpThread(s, pc.lock, t);
    } else {
      SectionThread(s, t);
    }
  }

  lemma WaitThread(s: State, l: LockId, t: Tid)
    requires Inv(s) && Enabled(s, Step) && t in s.th && l in s.locks && s.locks[l].value == 0
    requires s.th[s.cur].pc == Down(l) || s.th[s.cur].pc == Loop(l)
    ensures ThreadGoesOn(s, Step, Apply(s, Step), t)
  {
    hide LocksInv, ReadyExact, ThreadOk, Schedule, Apply;
    WaitIs(s, l);
    ScheduleThread(Asleep(s, l), t);
  }

  lemma UpThread(s: State, l: LockId, t: Tid)
    requires Inv(s) && Enabled(s, Step) && t in s.th && l in s.locks && s.locks[l].waiters != []
    requires s.th[s.cur].pc == Up(l)
    ensures ThreadGoesOn(s, Step, Apply(s, Step), t)
  {
    WakesOne(s, l);
    hide LocksInv, ReadyExact, ThreadOk;
  }

  /** sema_up finds its first waiter asleep. */
  lemma WakesOne(s: State, l: LockId)
    requires Inv(s) && Enabled(s, Step) && l in s.locks && s.locks[l].waiters != [] && s.th[s.cur].pc == Up(l)
    ensures s.locks[l].value == 0 && Depth(s.th[s.cur], l) == 1
    ensures var w := s.locks[l].waiters[0]; w in s.th && w != s.cur && IsBlocked(s.th[w].status) && w !in s.ready
  {
    var x := s.th[s.cur];
    assert PcOk(x, s.locks) && LockInv(s.th, s.locks[l], l);
    UpStep(s.th, s.cur, x.(pc := Run, depth := x.depth[l := 0]), s.locks[l], l);
    hide LocksInv, LockInv;
  }

  /** Every other section stays with the running thread. */
  lemma SectionThread(s: State, t: Tid)
    requires Closed(s) && Enabled(s, Step) && t in s.th && s.th[s.cur].status == Running
    requires forall u :: u in s.th ==> (s.th[u].status == Running ==> u == s.cur)
    requires var pc := s.th[s.cur].pc;
      && ((pc.Down? || pc.Loop?) ==> s.locks[pc.lock].value != 0)
      && (pc.Up? ==> s.locks[pc.lock].waiters == [])
    ensures ThreadGoesOn(s, Step, Apply(s, Step), t)
  {
  }

  lemma EventThread(s: State, e: Event, t: Tid)
    requires Inv(s) && Enabled(s, e) && t in s.th
    ensures ThreadGoesOn(s, e, Apply(s, e), t)
  {
    hide Inv, Apply, ThreadGoesOn;
    match e
    case Timer => TimerThread(s, t);
    case Step => StepThread(s, t);
    case Wake(u) => WakeThread(s, u, t);
    case Sleep(stat) => SleepThread(s, stat, t);
    case Yield => YieldThread(s, t);
    case _ => CallThread(s, e, t);
  }

  lemma CallThread(s: State, e: Event, t: Tid)
    requires Inv(s) && Enabled(s, e) && t in s.th && (e.Acquire? || e.Free? || e.Start?)
    ensures ThreadGoesOn(s, e, Apply(s, e), t)
  {
    hide LocksInv;
  }

  // ---------------------------------------------------------------- one event, the rest of the machine

  /** Threads come by thread_start alone, and nothing but a section of the lock code changes a lock. */
  ghost predicate MachineGoesOn(s: State, e: Event, s': State)
    requires Closed(s) && Enabled(s, e)
  {
    && s'.idle == s.idle
    && s'.th.Keys == s.th.Keys + (if e.Start? then {e.t} else {})
    && (e.Start? ==> s'.th[e.t] == Thread(Ready, Run, e.priority, e.priority, map[]) && s'.ready == s.ready + [e.t])
    && (e.Wake? ==> s'.ready == [e.t] + s.ready)
    && (e != Step ==> s'.locks == s.locks)
    && (e == Step ==> s'.locks.Keys == s.locks.Keys && forall l :: l in s.locks ==>
          (s.th[s.cur].pc.Suspended? || l != s.th[s.cur].pc.lock ==> s'.locks[l] == s.locks[l]))
  }

  lemma MachineEvent(s: State, e: Event)
    requires Inv(s) && Enabled(s, e)
    ensures MachineGoesOn(s, e, Apply(s, e))
  {
    hide MachineGoesOn, LocksInv;
    match e
    case Step => MachineStep(s);
    case Sleep(stat) => MachineSleep(s, stat);
    case Yield => MachineYield(s);
    case Timer => MachineTimer(s);
    case _ => MachineCall(s, e);
  }

  lemma ScheduleRest(s: State)
    requires SchedBase(s)
    ensures var s' := Schedule(s); s'.locks == s.locks && s'.idle == s.idle && s'.th.Keys == s.th.Keys
  {
    ScheduleKeeps(s);
  }

  lemma MachineCall(s: State, e: Event)
    requires Inv(s) && Enabled(s, e) && (e.Acquire? || e.Free? || e.Start? || e.Wake?)
    ensures MachineGoesOn(s, e, Apply(s, e))
  {
    hide LocksInv;
  }

  lemma MachineTimer(s: State)
    requires Inv(s) && Enabled(s, Timer)
    ensures MachineGoesOn(s, Timer, Apply(s, Timer))
  {
    hide LocksInv, Schedule;
    ScheduleRest(s);
  }

  lemma MachineSleep(s: State, stat: Status)
    requires Inv(s) && Enabled(s, Sleep(stat))
    ensures MachineGoesOn(s, Sleep(stat), Apply(s, Sleep(stat)))
  {
    hide LocksInv, ReadyExact, ThreadOk, Schedule, Apply;
    SleepIs(s, stat);
    ScheduleRest(Blocking(s, stat));
  }

  lemma MachineYield(s: State)
    requires Inv(s) && Enabled(s, Yield)
    ensures MachineGoesOn(s, Yield, Apply(s, Yield))
  {
    hide LocksInv, ReadyExact, ThreadOk, Schedule, Apply;
    YieldIs(s);
    ScheduleRest(Yielding(s));
  }

  lemma MachineStep(s: State)
    requires Inv(s) && Enabled(s, Step)
    ensures MachineGoesOn(s, Step, Apply(s, Step))
  {
    assert PcOk(s.th[s.cur], s.locks);
    var pc := s.th[s.cur].pc;
    if (pc.Down? || pc.Loop?) && s.locks[pc.lock].value == 0 {
      MachineWait(s, pc.lock);
    } else {
      MachineSection(s);
    }
  }

  lemma MachineWait(s: State, l: LockId)
    requires Inv(s) && Enabled(s, Step) && l in s.locks && s.locks[l].value == 0
    requires s.th[s.cur].pc == Down(l) || s.th[s.cur].pc == Loop(l)
    ensures MachineGoesOn(s, Step, Apply(s, Step))
  {
    WaitIs(s, l);
    ClosedInv(s);
    hide *;
    ScheduleRest(Asleep(s, l));
    WaitMachine(s, Schedule(Asleep(s, l)), l);
  }

  lemma WaitMachine(s: State, s': State, l: LockId)
    requires Closed(s) && Enabled(s, Step) && l in s.locks && (s.th[s.cur].pc == Down(l) || s.th[s.cur].pc == Loop(l))
    requires s'.locks == Asleep(s, l).locks && s'.idle == s.idle && s'.th.Keys == s.th.Keys
    ensures MachineGoesOn(s, Step, s')
  {
  }

  lemma MachineSection(s: State)
    requires Closed(s) && Enabled(s, Step)
    requires var pc := s.th[s.cur].pc; (pc.Down? || pc.Loop?) ==> s.locks[pc.lock].value != 0
    ensures MachineGoesOn(s, Step, Apply(s, Step))
  {
  }

  // ---------------------------------------------------------------- holding a lock is having called for it

  /** What an event adds to the calls of lock_acquire less those of lock_release that `t` has made on `l`. */
  function Called(s: State, e: Event, l: LockId, t: Tid): int {
    if s.cur != t then 0
    else match e
      case Acquire(m) => if m == l then 1 else 0
      case Free(m) => if m == l then -1 else 0
      case _ => 0
  }

  /** The same over a run; events that are not enabled do not happen. */
  function Calls(s: State, es: seq<Event>, l: LockId, t: Tid): int
    decreases |es|
  {
    if es == [] then 0
    else if Closed(s) && Enabled(s, es[0]) then Called(s, es[0], l, t) + Calls(Apply(s, es[0]), es[1..], l, t)
    else Calls(s, es[1..], l, t)
  }

  /** A call that has been made and has not returned. */
  function Owed(x: Thread, l: LockId): int {
    match x.pc
    case Enter(m) => if m == l then 1 else 0
    case Down(m) => if m == l then 1 else 0
    case Loop(m) => if m == l then 1 else 0
    case Taken(m) => if m == l then 1 else 0
    case Owned(m) => if m == l then 1 else 0
    case Release(m) => if m == l then -1 else 0
    case Drop(m) => if m == l then -1 else 0
    case Clear(m) => if m == l then -1 else 0
    case Up(m) => if m == l then -1 else 0
    case _ => 0
  }

  /** Calls made by a thread, returned from or not; a thread that is not there has made none. */
  function Made(s: State, l: LockId, t: Tid): int {
    if t in s.th then Depth(s.th[t], l) + Owed(s.th[t], l) else 0
  }

  /** Each section of the lock code leaves the thread with as many locks as it has called for. */
  lemma MadeMoves(s: State, e: Event, l: LockId, t: Tid)
    requires Inv(s) && Enabled(s, e)
    ensures Made(Apply(s, e), l, t) == Made(s, l, t) + Called(s, e, l, t)
  {
    hide LocksInv, ReadyExact, ThreadOk, Apply;
    if t !in s.th {
      MachineEvent(s, e);
    } else if t == s.cur && e == Step {
      MadeStep(s, l);
    } else {
      EventThread(s, e, t);
      MadeCall(s, e, Apply(s, e), l, t);
    }
  }

  lemma MadeCall(s: State, e: Event, s': State, l: LockId, t: Tid)
    requires Closed(s) && Enabled(s, e) && t in s.th && (t != s.cur || e != Step) && ThreadGoesOn(s, e, s', t)
    ensures Made(s', l, t) == Made(s, l, t) + Called(s, e, l, t)
  {
  }

  lemma MadeStep(s: State, l: LockId)
    requires Inv(s) && Enabled(s, Step)
    ensures Made(Apply(s, Step), l, s.cur) == Made(s, l, s.cur)
  {
    hide ReadyExact, ThreadOk, LockInv, Apply, Made;
    assert PcOk(s.th[s.cur], s.locks);
    var pc := s.th[s.cur].pc;
    if (pc.Down? || pc.Loop?) && s.locks[pc.lock].value == 0 {
      MadeWaiting(s, pc.lock, l);
    } else if pc.Up? {
      MadeUp(s, pc.lock, l);
    } else {
      MadeSection(s, l);
    }
  }

  lemma MadeSection(s: State, l: LockId)
    requires Closed(s) && Enabled(s, Step) && PcOk(s.th[s.cur], s.locks)
    requires var pc := s.th[s.cur].pc; !pc.Up? && ((pc.Down? || pc.Loop?) ==> s.locks[pc.lock].value != 0)
    ensures Made(Apply(s, Step), l, s.cur) == Made(s, l, s.cur)
  {
  }

  lemma MadeWaiting(s: State, l: LockId, m: LockId)
    requires Inv(s) && Enabled(s, Step) && l in s.locks && s.locks[l].value == 0
    requires s.th[s.cur].pc == Down(l) || s.th[s.cur].pc == Loop(l)
    ensures Made(Apply(s, Step), m, s.cur) == Made(s, m, s.cur)
  {
    hide LocksInv, ReadyExact, ThreadOk, Schedule, Apply, Enabled;
    WaitIs(s, l);
    ScheduleThread(Asleep(s, l), s.cur);
  }

  lemma MadeUp(s: State, l: LockId, m: LockId)
    requires Inv(s) && Enabled(s, Step) && l in s.locks && s.th[s.cur].pc == Up(l)
    ensures Made(Apply(s, Step), m, s.cur) == Made(s, m, s.cur)
  {
    var x := s.th[s.cur];
    assert PcOk(x, s.locks) && LockInv(s.th, s.locks[l], l);
    UpStep(s.th, s.cur, x.(pc := Run, depth := x.depth[l := 0]), s.locks[l], l);
    hide LocksInv, LockInv;
  }

  lemma {:induction false} MadeIsCalled(s: State, es: seq<Event>, l: LockId, t: Tid)
    requires Inv(s)
    ensures Made(After(s, es), l, t) == Made(s, l, t) + Calls(s, es, l, t)
    decreases |es|
  {
    hide Inv, Made, Called;
    if es == [] {
    } else {
      ClosedInv(s);
      if Enabled(s, es[0]) {
        MadeMoves(s, es[0], l, t);
        ApplyInv(s, es[0]);
        MadeIsCalled(Apply(s, es[0]), es[1..], l, t);
      } else {
        MadeIsCalled(s, es[1..], l, t);
      }
    }
  }

  lemma ClosedInv(s: State)
    requires Inv(s)
    ensures Closed(s)
  {
  }

  /** Whoever is outside the lock code holds a lock exactly when it has called lock_acquire on it more often than
      lock_release, and holder_repeat_nr is by how much. So a lock_acquire that has returned has got the lock, a nested
      one has counted, and a lock_release gives the lock back at the outermost level and not before. */
  lemma HeldByCalls(s0: State, es: seq<Event>, l: LockId, t: Tid)
    requires Initial(s0)
    requires var s := After(s0, es); l in s.locks && t in s.th && (s.th[t].pc == Run || s.th[t].pc == Suspended)
    ensures var s, n := After(s0, es), Calls(s0, es, l, t);
      && n >= 0 && (s.locks[l].holder == Some(t) <==> n > 0)
      && (n > 0 ==> s.locks[l].repeat == n && s.locks[l].value == 0)
  {
    InitialInv(s0);
    MadeIsCalled(s0, es, l, t);
    HolderAndDepth(s0, es, l, t);
    if Calls(s0, es, l, t) > 0 {
      HeldIsTaken(s0, es, l, t);
    }
    hide Inv, After, Calls;
  }

  lemma HeldIsTaken(s0: State, es: seq<Event>, l: LockId, t: Tid)
    requires Initial(s0) && l in After(s0, es).locks && t in After(s0, es).th
    requires Inside(After(s0, es).th[t], l)
    ensures After(s0, es).locks[l].value == 0
  {
    InitialInv(s0);
    AfterInv(s0, es);
    var s := After(s0, es);
    assert LockInv(s.th, s.locks[l], l);
  }

  /** Two threads that have both returned from lock_acquire of one lock, and not called lock_release, are one. */
  lemma OneCriticalSection(s0: State, es: seq<Event>, l: LockId, t: Tid, u: Tid)
    requires Initial(s0)
    requires var s := After(s0, es);
      && l in s.locks && t in s.th && u in s.th && (s.th[t].pc == Run || s.th[t].pc == Suspended)
      && (s.th[u].pc == Run || s.th[u].pc == Suspended)
    requires Calls(s0, es, l, t) > 0 && Calls(s0, es, l, u) > 0
    ensures t == u
  {
    HeldByCalls(s0, es, l, t);
    HeldByCalls(s0, es, l, u);
  }

  // ---------------------------------------------------------------- whose turn it is

  /** The first ready thread runs; the one that ran goes behind the others or is not ready. With nobody ready it goes
      on itself, or the idle thread does. */
  ghost predicate TurnPasses(s: State, s': State, stays: bool) {
    if s.ready == [] then s'.ready == [] && s'.cur == (if stays then s.cur else s.idle)
    else s'.cur == s.ready[0] && s'.ready == s.ready[1..] + (if stays then [s.cur] else [])
  }

  lemma ScheduleTurn(s: State)
    requires SchedBase(s) && s.th[s.cur].status != Ready
    ensures TurnPasses(s, Schedule(s), s.th[s.cur].status == Running)
  {
    if s.th[s.cur].status == Running {
      assert s.ready != [] ==> (s.ready + [s.cur])[1..] == s.ready[1..] + [s.cur];
    }
  }

  lemma YieldTurn(s: State)
    requires SchedBase(s) && s.cur !in s.ready && SchedBase(s.(ready := s.ready + [s.cur],
                                                               th := s.th[s.cur := s.th[s.cur].(status := Ready)]))
    ensures TurnPasses(s, ThreadYield(s), true)
  {
    assert s.ready != [] ==> (s.ready + [s.cur])[1..] == s.ready[1..] + [s.cur];
  }

  /** The ready list after any event: a schedule passes the turn on, a woken thread comes in front, a new one goes to
      the end, and otherwise it stays as it is. */
  lemma EventTurn(s: State, e: Event)
    requires Inv(s) && Enabled(s, e)
    ensures var s' := Apply(s, e);
      if Schedules(s, e) == 1 then TurnPasses(s, s', e == Timer || e == Yield)
      else
        && s'.cur == s.cur
        && (Pushes(s, e) == 1 ==> exists w :: Unblocks(s, e, w) && s'.ready == [w] + s.ready)
        && (Pushes(s, e) == 0 ==> s'.ready == s.ready + (if e.Start? then [e.t] else []))
  {
    match e
    case Timer => TimerTurn(s);
    case Sleep(stat) => SleepTurn(s, stat);
    case Yield =>
      MoveInv(s, Suspended);
      YieldBase(SetPc(s, Suspended));
      YieldTurn(SetPc(s, Suspended));
    case Step => StepTurn(s);
    case Wake(t) =>
      UnblockKeeps(s, t);
      assert Unblocks(s, e, t);
    case _ => hide LocksInv;
  }

  lemma TimerTurn(s: State)
    requires Inv(s) && Enabled(s, Timer)
    ensures var s' := Apply(s, Timer);
      if s.th[s.cur].ticks == 0 then TurnPasses(s, s', true) else s'.cur == s.cur && s'.ready == s.ready
  {
    hide LocksInv, Schedule;
    if s.th[s.cur].ticks == 0 {
      ScheduleTurn(s);
    }
  }

  lemma SleepTurn(s: State, stat: Status)
    requires Inv(s) && Enabled(s, Sleep(stat))
    ensures TurnPasses(s, Apply(s, Sleep(stat)), false)
  {
    hide LocksInv, ReadyExact, ThreadOk, Schedule, Apply;
    SleepIs(s, stat);
    ScheduleTurn(Blocking(s, stat));
  }

  lemma StepTurn(s: State)
    requires Inv(s) && Enabled(s, Step)
    ensures var s' := Apply(s, Step);
      if Schedules(s, Step) == 1 then TurnPasses(s, s', false)
      else
        && s'.cur == s.cur
        && (Pushes(s, Step) == 1 ==> exists w :: Unblocks(s, Step, w) && s'.ready == [w] + s.ready)
        && (Pushes(s, Step) == 0 ==> s'.ready == s.ready)
  {
    assert PcOk(s.th[s.cur], s.locks);
    var pc := s.th[s.cur].pc;
    if (pc.Down? || pc.Loop?) && s.locks[pc.lock].value == 0 {
      WaitIs(s, pc.lock);
      hide Inv, Schedule, Apply;
      ScheduleTurn(Asleep(s, pc.lock));
    } else if pc.Up? && s.locks[pc.lock].waiters != [] {
      UpTurn(s, pc.lock);
      assert Unblocks(s, Step, s.locks[pc.lock].waiters[0]);
    } else {
      hide LocksInv;
    }
  }

  lemma UpTurn(s: State, l: LockId)
    requires Inv(s) && Enabled(s, Step) && l in s.locks && s.locks[l].waiters != [] && s.th[s.cur].pc == Up(l)
    ensures var s' := Apply(s, Step); s'.cur == s.cur && s'.ready == [s.locks[l].waiters[0]] + s.ready
  {
    hide LocksInv, ReadyExact, ThreadOk;
    WakesOne(s, l);
  }

  // ---------------------------------------------------------------- a time slice is used up and not cut short

  /** A tick with some of the slice left takes one off it and changes nothing else. */
  lemma TickTakesOne(s: State)
    requires Inv(s) && Enabled(s, Timer) && s.th[s.cur].ticks > 0
    ensures var x := s.th[s.cur]; Apply(s, Timer) == s.(th := s.th[s.cur := x.(ticks := x.ticks - 1)])
  {
    hide LocksInv;
  }

  /** A tick at the end of the slice gives the processor to the first ready thread, if there is one. The thread that
      ran has a full slice again and is last in line, or runs on. */
  lemma TickEndsSlice(s: State)
    requires Inv(s) && Enabled(s, Timer) && s.th[s.cur].ticks == 0
    ensures var s' := Apply(s, Timer);
      && s'.th[s.cur].ticks == s.th[s.cur].priority
      && (if s.ready == [] then s'.cur == s.cur && s'.ready == []
          else s'.cur == s.ready[0] && s'.ready == s.ready[1..] + [s.cur] && s'.th[s.cur].status == Ready)
  {
    EventThread(s, Timer, s.cur);
    EventTurn(s, Timer);
    assert s.cur !in s.ready;
    hide LocksInv, Apply;
  }

  /** Nothing that happens gives the processor away but, perhaps, ticks. */
  predicate StaysOn(s: State, es: seq<Event>)
    decreases |es|
  {
    es == [] ||
    if Closed(s) && Enabled(s, es[0])
    then (es[0] == Timer || Schedules(s, es[0]) == 0) && StaysOn(Apply(s, es[0]), es[1..])
    else StaysOn(s, es[1..])
  }

  /** A thread that does not give the processor away keeps it for its whole slice, whoever is woken, started or waiting
      meanwhile. */
  lemma {:induction false} KeepsProcessor(s: State, es: seq<Event>)
    requires Inv(s) && StaysOn(s, es) && Ticks(s, es) <= s.th[s.cur].ticks
    ensures var s' := After(s, es);
      && Inv(s') && s'.cur == s.cur && s'.th[s.cur].priority == s.th[s.cur].priority
      && s'.th[s.cur].ticks == s.th[s.cur].ticks - Ticks(s, es)
    decreases |es|
  {
    ClosedInv(s);
    if es == [] {
    } else {
      hide Inv;
      if Enabled(s, es[0]) {
        EventThread(s, es[0], s.cur);
        EventTurn(s, es[0]);
        ApplyInv(s, es[0]);
        hide Apply;
        KeepsProcessor(Apply(s, es[0]), es[1..]);
      } else {
        KeepsProcessor(s, es[1..]);
      }
    }
  }

  /** So the timer takes the processor from a thread with `n` ticks left at tick number n + 1 and at no earlier one. */
  lemma PreemptedAtLast(s: State, es: seq<Event>)
    requires Inv(s) && StaysOn(s, es) && Ticks(s, es) == s.th[s.cur].ticks
    requires Closed(After(s, es)) && Enabled(After(s, es), Timer) && After(s, es).ready != []
    ensures After(s, es).cur == s.cur
    ensures var s' := Apply(After(s, es), Timer);
      && s'.cur == After(s, es).ready[0] && s'.cur != s.cur
      && s'.ready == After(s, es).ready[1..] + [s.cur] && s'.th[s.cur].ticks == s.th[s.cur].priority
  {
    KeepsProcessor(s, es);
    TickEndsSlice(After(s, es));
    assert After(s, es).cur !in After(s, es).ready;
  }

  // ---------------------------------------------------------------- the order in which waiters get a lock

  /** The running thread starts to wait for lock `l`. */
  ghost predicate Joins(s: State, e: Event, l: LockId)
    requires Closed(s) && Enabled(s, e)
  {
    e == Step && l in s.locks && (s.th[s.cur].pc == Down(l) || s.th[s.cur].pc == Loop(l)) && s.locks[l].value == 0
  }

  /** sema_up of lock `l` finds somebody waiting. */
  predicate Hands(s: State, e: Event, l: LockId)
    requires Closed(s) && Enabled(s, e)
  {
    e == Step && l in s.locks && s.th[s.cur].pc == Up(l) && s.locks[l].waiters != []
  }

  /** The waiters of a lock after an event. */
  ghost function WaitersLeft(s: State, e: Event, l: LockId): seq<Tid>
    requires Closed(s) && Enabled(s, e) && l in s.locks
  {
    var q := s.locks[l].waiters;
    if Joins(s, e, l) then q + [s.cur] else if Hands(s, e, l) then q[1..] else q
  }

  /** Waiters join at the end and leave at the front, one with each sema_up, which makes the one that leaves the first
      of the ready threads. */
  lemma WaitersMove(s: State, e: Event, l: LockId)
    requires Inv(s) && Enabled(s, e) && l in s.locks
    ensures var s' := Apply(s, e);
      && l in s'.locks && s'.locks[l].waiters == WaitersLeft(s, e, l)
      && (Hands(s, e, l) ==> s'.locks[l].value == 1 && s'.ready == [s.locks[l].waiters[0]] + s.ready)
  {
    MachineEvent(s, e);
    hide Inv, Apply;
    if Joins(s, e, l) {
      JoinsOn(s, l);
    } else if Hands(s, e, l) {
      UpTurn(s, l);
      HandsOn(s, l);
    } else if e == Step && !s.th[s.cur].pc.Suspended? && s.th[s.cur].pc.lock == l {
      StaysAsIs(s, l);
    }
  }

  lemma JoinsOn(s: State, l: LockId)
    requires Inv(s) && Enabled(s, Step) && Joins(s, Step, l)
    ensures l in Apply(s, Step).locks && Apply(s, Step).locks[l].waiters == s.locks[l].waiters + [s.cur]
  {
    WaitIs(s, l);
    ScheduleRest(Asleep(s, l));
    hide Inv, Apply, Schedule;
  }

  lemma StaysAsIs(s: State, l: LockId)
    requires Inv(s) && Enabled(s, Step) && l in s.locks && WorksOn(s.th[s.cur].pc, l)
    requires !Joins(s, Step, l) && !Hands(s, Step, l)
    ensures l in Apply(s, Step).locks && Apply(s, Step).locks[l].waiters == s.locks[l].waiters
  {
    hide LocksInv;
  }

  lemma HandsOn(s: State, l: LockId)
    requires Inv(s) && Enabled(s, Step) && Hands(s, Step, l)
    ensures var s' := Apply(s, Step);
      && l in s'.locks && s'.locks[l].waiters == s.locks[l].waiters[1..] && s'.locks[l].value == 1
  {
    hide LocksInv, ReadyExact, ThreadOk;
    WakesOne(s, l);
  }

  /** How often over a run lock `l` is handed on. */
  function Handed(s: State, es: seq<Event>, l: LockId): nat
    decreases |es|
  {
    if es == [] then 0
    else if Closed(s) && Enabled(s, es[0])
    then (if Hands(s, es[0], l) then 1 else 0) + Handed(Apply(s, es[0]), es[1..], l)
    else Handed(s, es[1..], l)
  }

  /** The waiter at position i after one event, unless it was the one woken. */
  lemma WaiterAt(s: State, e: Event, l: LockId, i: nat)
    requires Inv(s) && Enabled(s, e) && l in s.locks && i < |s.locks[l].waiters|
    requires Hands(s, e, l) ==> i > 0
    ensures var s', j := Apply(s, e), if Hands(s, e, l) then i - 1 else i;
      l in s'.locks && j < |s'.locks[l].waiters| && s'.locks[l].waiters[j] == s.locks[l].waiters[i]
  {
    WaitersMove(s, e, l);
    hide Inv, Apply, Hands, Joins;
  }

  /** First come, first served: whatever happens, the waiter at position i is at position i - n after n waiters were
      woken, so it is the one woken by sema_up number i + 1. */
  lemma {:induction false} WaitersInOrder(s: State, es: seq<Event>, l: LockId, i: nat)
    requires Inv(s) && l in s.locks && i < |s.locks[l].waiters| && Handed(s, es, l) <= i
    ensures var s', j := After(s, es), i - Handed(s, es, l);
      l in s'.locks && j < |s'.locks[l].waiters| && s'.locks[l].waiters[j] == s.locks[l].waiters[i]
    decreases |es|
  {
    hide Inv, Hands, Apply, Enabled, Closed;
    ClosedInv(s);
    if es == [] {
    } else {
      if Enabled(s, es[0]) {
        WaiterAt(s, es[0], l, i);
        ApplyInv(s, es[0]);
        WaitersInOrder(Apply(s, es[0]), es[1..], l, if Hands(s, es[0], l) then i - 1 else i);
      } else {
        WaitersInOrder(s, es[1..], l, i);
      }
    }
  }

  // ---------------------------------------------------------------- whole calls

  /** `n` sections of the running thread. */
  function Steps(n: nat): seq<Event> {
    if n == 0 then [] else [Step] + Steps(n - 1)
  }

  /** lock_acquire and the sections after it; lock_release likewise. */
  function Acquiring(l: LockId, n: nat): seq<Event> {
    [Acquire(l)] + Steps(n)
  }

  function Releasing(l: LockId, n: nat): seq<Event> {
    [Free(l)] + Steps(n)
  }

  lemma Then(s: State, e: Event, es: seq<Event>)
    requires Closed(s) && Enabled(s, e)
    ensures After(s, [e] + es) == After(Apply(s, e), es)
  {
    assert ([e] + es)[1..] == es;
  }

  /** The running thread somewhere in the code of lock `l`, or back from it. */
  ghost function With(s: State, l: LockId, x: Thread, k: Lock): State {
    s.(th := s.th[s.cur := x], locks := s.locks[l := k])
  }

  /** One section takes the running thread and the lock from one value to another, and leaves the rest alone. */
  ghost predicate Section(s: State, l: LockId, x: Thread, k: Lock, y: Thread, m: Lock) {
    Closed(With(s, l, x, k)) && Enabled(With(s, l, x, k), Step) && Apply(With(s, l, x, k), Step) == With(s, l, y, m)
  }

  lemma OneSection(s: State, l: LockId, x: Thread, k: Lock, y: Thread, m: Lock, n: nat)
    requires Section(s, l, x, k, y, m) && n > 0
    ensures After(With(s, l, x, k), Steps(n)) == After(With(s, l, y, m), Steps(n - 1))
  {
    Then(With(s, l, x, k), Step, Steps(n - 1));
  }

  ghost predicate SameWaiters(s: State, l: LockId, k: Lock) {
    Closed(s) && l in s.locks && k.waiters == s.locks[l].waiters
  }

  lemma EnterFresh(s: State, l: LockId, x: Thread, k: Lock)
    requires SameWaiters(s, l, k) && k.holder != Some(s.cur)
    ensures Section(s, l, x.(pc := Enter(l)), k, x.(pc := Down(l)), k)
  {
  }

  lemma EnterNested(s: State, l: LockId, x: Thread, k: Lock)
    requires SameWaiters(s, l, k) && k.holder == Some(s.cur)
    ensures Section(s, l, x.(pc := Enter(l)), k,
                    x.(pc := Run, depth := x.depth[l := Depth(x, l) + 1]), k.(repeat := k.repeat + 1))
  {
  }

  lemma DownTakes(s: State, l: LockId, x: Thread, k: Lock)
    requires SameWaiters(s, l, k) && k.value == 1
    ensures Section(s, l, x.(pc := Down(l)), k, x.(pc := Taken(l)), k.(value := 0))
  {
  }

  lemma LoopTakes(s: State, l: LockId, x: Thread, k: Lock)
    requires SameWaiters(s, l, k) && k.value == 1 && x.pc == Loop(l)
    ensures Section(s, l, x, k, x.(pc := Taken(l)), k.(value := 0))
  {
  }

  lemma TakenOwns(s: State, l: LockId, x: Thread, k: Lock)
    requires SameWaiters(s, l, k)
    ensures Section(s, l, x.(pc := Taken(l)), k, x.(pc := Owned(l)), k.(holder := Some(s.cur)))
  {
  }

  lemma OwnedCounts(s: State, l: LockId, x: Thread, k: Lock)
    requires SameWaiters(s, l, k) && k.repeat == 0 && Depth(x, l) == 0
    ensures Section(s, l, x.(pc := Owned(l)), k, x.(pc := Run, depth := x.depth[l := 1]), k.(repeat := 1))
  {
  }

  lemma ReleaseCounts(s: State, l: LockId, x: Thread, k: Lock)
    requires SameWaiters(s, l, k) && k.holder == Some(s.cur) && k.repeat > 1
    ensures Section(s, l, x.(pc := Release(l)), k,
                    x.(pc := Run, depth := x.depth[l := OneLess(Depth(x, l))]), k.(repeat := k.repeat - 1))
  {
  }

  lemma ReleaseDrops(s: State, l: LockId, x: Thread, k: Lock)
    requires SameWaiters(s, l, k) && k.holder == Some(s.cur) && k.repeat == 1
    ensures Section(s, l, x.(pc := Release(l)), k, x.(pc := Drop(l)), k)
  {
  }

  lemma DropClears(s: State, l: LockId, x: Thread, k: Lock)
    requires SameWaiters(s, l, k)
    ensures Section(s, l, x.(pc := Drop(l)), k, x.(pc := Clear(l)), k.(holder := None))
  {
  }

  lemma ClearUps(s: State, l: LockId, x: Thread, k: Lock)
    requires SameWaiters(s, l, k)
    ensures Section(s, l, x.(pc := Clear(l)), k, x.(pc := Up(l)), k.(repeat := 0))
  {
  }

  lemma UpLeaves(s: State, l: LockId, x: Thread, k: Lock)
    requires SameWaiters(s, l, k) && k.value == 0 && k.waiters == []
    ensures Section(s, l, x.(pc := Up(l)), k,
                    x.(pc := Run, depth := x.depth[l := OneLess(Depth(x, l))]), k.(value := 1))
  {
  }

  /** The call itself. */
  lemma Calling(s: State, l: LockId, n: nat)
    requires Closed(s) && l in s.locks
    ensures var x, k := s.th[s.cur], s.locks[l];
      && (Enabled(s, Acquire(l)) ==>
            After(s, Acquiring(l, n)) == After(With(s, l, x.(pc := Enter(l)), k), Steps(n)))
      && (Enabled(s, Free(l)) ==>
            After(s, Releasing(l, n)) == After(With(s, l, x.(pc := Release(l)), k), Steps(n)))
  {
    hide After, Steps;
    assert s.locks[l := s.locks[l]] == s.locks;
    if Enabled(s, Acquire(l)) {
      Then(s, Acquire(l), Steps(n));
    }
    if Enabled(s, Free(l)) {
      Then(s, Free(l), Steps(n));
    }
  }

  lemma NoMore(s: State)
    ensures After(s, Steps(0)) == s
  {
  }

  /** The two sections behind sema_down. */
  lemma Owning(s: State, l: LockId, x: Thread, k: Lock)
    requires SameWaiters(s, l, k) && k.repeat == 0 && Depth(x, l) == 0
    ensures After(With(s, l, x.(pc := Taken(l)), k), Steps(2)) ==
      With(s, l, x.(pc := Run, depth := x.depth[l := 1]), k.(holder := Some(s.cur), repeat := 1))
  {
    hide After, Steps, With, Section, Closed;
    var k', y := k.(holder := Some(s.cur)), x.(pc := Run, depth := x.depth[l := 1]);
    TakenOwns(s, l, x, k);
    OneSection(s, l, x.(pc := Taken(l)), k, x.(pc := Owned(l)), k', 2);
    OwnedCounts(s, l, x, k');
    OneSection(s, l, x.(pc := Owned(l)), k', y, k'.(repeat := 1), 1);
    NoMore(With(s, l, y, k'.(repeat := 1)));
  }

  /** lock_acquire of a lock that nobody is in: four more sections, and the caller has it at depth one. Threads that
      wait for it go on waiting. Nothing else changes. */
  lemma AcquireFree(s: State, l: LockId)
    requires Inv(s) && Enabled(s, Acquire(l)) && s.locks[l].value == 1
    ensures var x, k := s.th[s.cur], s.locks[l];
      After(s, Acquiring(l, 4)) == With(s, l, x.(depth := x.depth[l := 1]), Lock(0, k.waiters, Some(s.cur), 1))
  {
    LockValues(s, l);
    Calling(s, l, 4);
    hide Inv, After, Steps, With, Section, Closed;
    var x, k := s.th[s.cur], s.locks[l];
    EnterFresh(s, l, x, k);
    OneSection(s, l, x.(pc := Enter(l)), k, x.(pc := Down(l)), k, 4);
    DownTakes(s, l, x, k);
    OneSection(s, l, x.(pc := Down(l)), k, x.(pc := Taken(l)), k.(value := 0), 3);
    Owning(s, l, x, k.(value := 0));
  }

  lemma LockValues(s: State, l: LockId)
    requires Inv(s) && l in s.locks && s.th[s.cur].pc == Run
    ensures Closed(s) && SameWaiters(s, l, s.locks[l])
    ensures s.locks[l].value == 1 ==> s.locks[l].holder == None && s.locks[l].repeat == 0 && Depth(s.th[s.cur], l) == 0
    ensures Depth(s.th[s.cur], l) > 0 ==>
      s.locks[l].value == 0 && s.locks[l].holder == Some(s.cur) && s.locks[l].repeat == Depth(s.th[s.cur], l)
  {
    assert LockInv(s.th, s.locks[l], l);
  }

  /** lock_acquire by the thread that has the lock counts one more and changes nothing else. */
  lemma AcquireAgain(s: State, l: LockId)
    requires Inv(s) && Enabled(s, Acquire(l)) && Depth(s.th[s.cur], l) > 0
    ensures var x, k := s.th[s.cur], s.locks[l];
      After(s, Acquiring(l, 1)) ==
      With(s, l, x.(depth := x.depth[l := Depth(x, l) + 1]), k.(repeat := k.repeat + 1))
  {
    LockValues(s, l);
    Calling(s, l, 1);
    hide Inv, After, Steps, With, Section, Closed;
    var x, k := s.th[s.cur], s.locks[l];
    var y := x.(depth := x.depth[l := Depth(x, l) + 1]);
    EnterNested(s, l, x, k);
    OneSection(s, l, x.(pc := Enter(l)), k, y, k.(repeat := k.repeat + 1), 1);
    NoMore(With(s, l, y, k.(repeat := k.repeat + 1)));
  }

  /** lock_acquire of a lock another thread is in: the caller is blocked, last among the waiters, and the first ready
      thread runs. */
  lemma AcquireTaken(s: State, l: LockId)
    requires Inv(s) && Enabled(s, Acquire(l)) && s.locks[l].value == 0 && Depth(s.th[s.cur], l) == 0
    ensures var s', k := After(s, Acquiring(l, 2)), s.locks[l];
      && TurnPasses(s, s', false) && s'.locks == s.locks[l := k.(waiters := k.waiters + [s.cur])]
      && s.cur in s'.th && s'.cur != s.cur && s'.th[s.cur] == s.th[s.cur].(pc := Loop(l), status := Blocked)
  {
    MoveInv(s, Down(l));
    AtLoop(s, l);
    Waits(SetPc(s, Down(l)), l);
    hide Inv, After, Steps, Apply;
  }

  lemma AtLoop(s: State, l: LockId)
    requires Inv(s) && Enabled(s, Acquire(l)) && Depth(s.th[s.cur], l) == 0
    ensures Closed(SetPc(s, Down(l))) && Enabled(SetPc(s, Down(l)), Step)
    ensures After(s, Acquiring(l, 2)) == Apply(SetPc(s, Down(l)), Step)
  {
    NotHolder(s, l);
    LockValues(s, l);
    Calling(s, l, 2);
    hide Inv, After, Steps, Section, Apply;
    var x, k := s.th[s.cur], s.locks[l];
    assert s.locks[l := k] == s.locks;
    var s2 := With(s, l, x.(pc := Down(l)), k);
    EnterFresh(s, l, x, k);
    OneSection(s, l, x.(pc := Enter(l)), k, x.(pc := Down(l)), k, 2);
    LastStep(s2);
  }

  lemma LastStep(s: State)
    requires Closed(s) && Enabled(s, Step)
    ensures After(s, Steps(1)) == Apply(s, Step)
  {
    Then(s, Step, Steps(0));
  }

  /** A turn of the loop of sema_down that finds the semaphore taken. */
  lemma Waits(s: State, l: LockId)
    requires Inv(s) && Enabled(s, Step) && l in s.locks && s.locks[l].value == 0
    requires s.th[s.cur].pc == Down(l) || s.th[s.cur].pc == Loop(l)
    ensures var s', k := Apply(s, Step), s.locks[l];
      && TurnPasses(s, s', false) && s'.locks == s.locks[l := k.(waiters := k.waiters + [s.cur])]
      && s.cur in s'.th && s'.cur != s.cur && s'.th[s.cur] == s.th[s.cur].(pc := Loop(l), status := Blocked)
  {
    assert PcOk(s.th[s.cur], s.locks) && s.cur !in s.ready && s.cur != s.idle;
    WaitIs(s, l);
    hide Inv, Schedule, Apply;
    ScheduleTurn(Asleep(s, l));
    ScheduleRest(Asleep(s, l));
    ScheduleThread(Asleep(s, l), s.cur);
  }

  /** A woken thread that finds the semaphore at one gets the lock in three sections; one that finds it taken again
      waits again (`Waits`). */
  lemma WokenTakes(s: State, l: LockId)
    requires Inv(s) && s.th[s.cur].pc == Loop(l) && l in s.locks && s.locks[l].value == 1
    ensures var x, k := s.th[s.cur], s.locks[l];
      After(s, Steps(3)) ==
      With(s, l, x.(pc := Run, depth := x.depth[l := 1]), Lock(0, k.waiters, Some(s.cur), 1))
  {
    LoopValues(s, l);
    hide Inv, After, Steps, Section, Closed;
    var x, k := s.th[s.cur], s.locks[l];
    assert s.locks[l := k] == s.locks;
    LoopTakes(s, l, x, k);
    OneSection(s, l, x, k, x.(pc := Taken(l)), k.(value := 0), 3);
    Owning(s, l, x, k.(value := 0));
  }

  lemma LoopValues(s: State, l: LockId)
    requires Inv(s) && s.th[s.cur].pc == Loop(l) && l in s.locks && s.locks[l].value == 1
    ensures SameWaiters(s, l, s.locks[l]) && s.locks[l].repeat == 0 && Depth(s.th[s.cur], l) == 0
  {
    assert LockInv(s.th, s.locks[l], l) && PcOk(s.th[s.cur], s.locks);
  }

  /** A thread that has blocked itself or yielded and runs again goes on in its own code. */
  lemma GoesOn(s: State)
    requires Inv(s) && s.th[s.cur].pc == Suspended
    ensures After(s, Steps(1)) == s.(th := s.th[s.cur := s.th[s.cur].(pc := Run)])
  {
    hide LocksInv;
    LastStep(s);
  }

  /** lock_release of a nested acquire counts one less and changes nothing else. */
  lemma ReleaseNested(s: State, l: LockId)
    requires Inv(s) && Enabled(s, Free(l)) && Depth(s.th[s.cur], l) > 1
    ensures var x, k := s.th[s.cur], s.locks[l];
      After(s, Releasing(l, 1)) ==
      With(s, l, x.(depth := x.depth[l := OneLess(Depth(x, l))]), k.(repeat := OneLess(k.repeat)))
  {
    LockValues(s, l);
    Calling(s, l, 1);
    hide Inv, After, Steps, With, Section, Closed;
    var x, k := s.th[s.cur], s.locks[l];
    var y := x.(depth := x.depth[l := OneLess(Depth(x, l))]);
    ReleaseCounts(s, l, x, k);
    OneSection(s, l, x.(pc := Release(l)), k, y, k.(repeat := k.repeat - 1), 1);
    NoMore(With(s, l, y, k.(repeat := k.repeat - 1)));
  }

  /** The last lock_release up to its sema_up. */
  lemma Leaving(s: State, l: LockId, x: Thread, k: Lock)
    requires SameWaiters(s, l, k) && k.holder == Some(s.cur) && k.repeat == 1
    ensures After(With(s, l, x.(pc := Release(l)), k), Steps(4)) ==
      After(With(s, l, x.(pc := Up(l)), k.(holder := None, repeat := 0)), Steps(1))
  {
    hide After, Steps, With, Section, Closed;
    var k1, k2 := k.(holder := None), k.(holder := None, repeat := 0);
    ReleaseDrops(s, l, x, k);
    OneSection(s, l, x.(pc := Release(l)), k, x.(pc := Drop(l)), k, 4);
    DropClears(s, l, x, k);
    OneSection(s, l, x.(pc := Drop(l)), k, x.(pc := Clear(l)), k1, 3);
    ClearUps(s, l, x, k1);
    OneSection(s, l, x.(pc := Clear(l)), k1, x.(pc := Up(l)), k2, 2);
  }

  /** The outermost lock_release of a lock nobody waits for: four more sections, and the lock is free. */
  lemma ReleaseAlone(s: State, l: LockId)
    requires Inv(s) && Enabled(s, Free(l)) && Depth(s.th[s.cur], l) == 1 && s.locks[l].waiters == []
    ensures var x := s.th[s.cur];
      After(s, Releasing(l, 4)) == With(s, l, x.(depth := x.depth[l := 0]), Lock(1, [], None, 0))
  {
    LockValues(s, l);
    Calling(s, l, 4);
    hide Inv, After, Steps, With, Section, Closed;
    var x, k := s.th[s.cur], s.locks[l];
    var k1, y := k.(holder := None, repeat := 0), x.(depth := x.depth[l := 0]);
    Leaving(s, l, x, k);
    UpLeaves(s, l, x, k1);
    OneSection(s, l, x.(pc := Up(l)), k1, y, Lock(1, [], None, 0), 1);
    NoMore(With(s, l, y, Lock(1, [], None, 0)));
  }

  /** The outermost lock_release of a lock somebody waits for: the lock is free, and the first waiter is the first of
      the ready threads, still to go past the loop of sema_down. */
  lemma ReleaseHands(s: State, l: LockId)
    requires Inv(s) && Enabled(s, Free(l)) && Depth(s.th[s.cur], l) == 1 && s.locks[l].waiters != []
    ensures var x, k, w := s.th[s.cur], s.locks[l], s.locks[l].waiters[0];
      && w in s.th && w != s.cur && s.th[w].pc == Loop(l)
      && After(s, Releasing(l, 4)) ==
         s.(th := s.th[s.cur := x.(depth := x.depth[l := 0])][w := s.th[w].(status := Ready)],
            locks := s.locks[l := Lock(1, k.waiters[1..], None, 0)], ready := [w] + s.ready)
  {
    LockValues(s, l);
    FirstWaiter(s, l);
    Calling(s, l, 4);
    hide Inv, After, Steps;
    Leaving(s, l, s.th[s.cur], s.locks[l]);
    UpHands(s, l, s.th[s.cur], s.locks[l].(holder := None, repeat := 0));
  }

  lemma FirstWaiter(s: State, l: LockId)
    requires Inv(s) && l in s.locks && s.locks[l].waiters != [] && s.th[s.cur].pc == Run
    ensures var w := s.locks[l].waiters[0];
      w in s.th && w != s.cur && s.th[w].pc == Loop(l) && s.th[w].status == Blocked && w !in s.ready
  {
    assert LockInv(s.th, s.locks[l], l) && s.locks[l].waiters[0] in s.locks[l].waiters;
  }

  lemma UpHands(s: State, l: LockId, x: Thread, k: Lock)
    requires SameWaiters(s, l, k) && k.value == 0 && k.waiters != []
    requires var w := k.waiters[0]; w in s.th && w != s.cur && s.th[w].status == Blocked && w !in s.ready
    ensures
      var w := k.waiters[0];
      After(With(s, l, x.(pc := Up(l)), k), Steps(1)) ==
      s.(th := s.th[s.cur := x.(pc := Run, depth := x.depth[l := OneLess(Depth(x, l))])]
                   [w := s.th[w].(status := Ready)],
         locks := s.locks[l := k.(value := 1, waiters := k.waiters[1..])], ready := [w] + s.ready)
  {
    hide After, Steps;
    LastStep(With(s, l, x.(pc := Up(l)), k));
  }

  lemma {:induction false} Continues(s: State, es: seq<Event>, more: seq<Event>)
    ensures After(s, es + more) == After(After(s, es), more)
    decreases |es|
  {
    hide Enabled, Apply;
    if es == [] {
      assert es + more == more;
    } else {
      assert (es + more)[1..] == es[1..] + more;
      Continues(if Closed(s) && Enabled(s, es[0]) then Apply(s, es[0]) else s, es[1..], more);
    }
  }

  /** Acquire and release of a free lock nobody waits for leave no trace: every thread, list and lock is as it was. */
  lemma AcquireRelease(s: State, l: LockId)
    requires Inv(s) && Enabled(s, Acquire(l)) && s.locks[l].value == 1 && s.locks[l].waiters == []
    ensures var x := s.th[s.cur];
      && Depth(x, l) == 0
      && After(s, Acquiring(l, 4) + Releasing(l, 4)) ==
         s.(th := s.th[s.cur := x.(depth := x.depth[l := 0])])
  {
    hide After, Acquiring, Releasing, With, LocksInv, SchedBase;
    LockValues(s, l);
    AcquireFree(s, l);
    AfterInv(s, Acquiring(l, 4));
    Continues(s, Acquiring(l, 4), Releasing(l, 4));
    var x := s.th[s.cur];
    var y, k := x.(depth := x.depth[l := 1]), Lock(0, [], Some(s.cur), 1);
    Took(s, l, y, k);
    ReleaseAlone(With(s, l, y, k), l);
    assert y.depth[l := 0] == x.depth[l := 0];
    GaveBack(s, l, y, k, x.(depth := x.depth[l := 0]));
  }

  lemma Took(s: State, l: LockId, x: Thread, k: Lock)
    requires SameWaiters(s, l, k) && s.cur != s.idle && x.pc == Run && Depth(x, l) > 0
    ensures var s' := With(s, l, x, k); Closed(s') && Enabled(s', Free(l)) && s'.th[s'.cur] == x && s'.locks[l] == k
  {
  }

  lemma GaveBack(s: State, l: LockId, x: Thread, k: Lock, y: Thread)
    requires SameWaiters(s, l, k) && s.locks[l] == Lock(1, [], None, 0)
    ensures With(With(s, l, x, k), l, y, Lock(1, [], None, 0)) == s.(th := s.th[s.cur := y])
  {
    assert s.th[s.cur := x][s.cur := y] == s.th[s.cur := y];
    assert s.locks[l := k][l := s.locks[l]] == s.locks;
  }
}
