/** How long a ready thread waits for the processor, in schedules and in timer ticks. */
module RoundRobin {
  import opened Threads
  import opened LockSafety
  import LockRuns

  // ---------------------------------------------------------------- what an event does to the ready list

  /** Calls of schedule made by an event. */
  function Schedules(s: State, e: Event): nat
    requires Closed(s) && Enabled(s, e)
  {
    match e
    case Timer => if s.th[s.cur].ticks == 0 then 1 else 0
    case Step =>
      var pc := s.th[s.cur].pc;
      if (pc.Down? || pc.Loop?) && s.locks[pc.lock].value == 0 then 1 else 0
    case Sleep(_) => 1
    case Yield => 1
    case _ => 0
  }

  /** Threads put at the front of the ready list by thread_unblock. */
  function Pushes(s: State, e: Event): nat
    requires Closed(s) && Enabled(s, e)
  {
    match e
    case Wake(_) => 1
    case Step =>
      var pc := s.th[s.cur].pc;
      if pc.Up? && s.locks[pc.lock].waiters != [] then 1 else 0
    case _ => 0
  }

  /** Position of `t` in a queue that contains it. */
  function IndexOf(q: seq<Tid>, t: Tid): (i: nat)
    requires t in q
    ensures i < |q| && q[i] == t && t !in q[..i]
  {
    if q[0] == t then 0 else 1 + IndexOf(q[1..], t)
  }

  lemma {:induction false} IndexUnique(q: seq<Tid>, t: Tid, i: nat)
    requires NoDup(q) && i < |q| && q[i] == t
    ensures IndexOf(q, t) == i
  {
  }

  // ---------------------------------------------------------------- one event

  /** The ready list after an event that finds it non-empty. */
  ghost predicate ReadyMoves(s: State, s': State, schedules: nat, pushes: nat) {
    if schedules == 1 then
      && s.ready != [] && s'.cur == s.ready[0] && pushes == 0
      && (s'.ready == s.ready[1..] || s'.ready == s.ready[1..] + [s.cur])
    else if pushes == 1 then
      && schedules == 0 && s'.cur == s.cur
      && s'.ready != [] && s'.ready[1..] == s.ready && s'.ready[0] !in s.ready
    else
      && schedules == 0 && pushes == 0 && s'.cur == s.cur
      && s.ready <= s'.ready
  }

  lemma ScheduleMoves(s: State)
    requires SchedBase(s) && s.ready != []
    requires s.th[s.cur].status != Ready
    ensures var s' := Schedule(s);
      && (s'.ready == s.ready[1..] || s'.ready == s.ready[1..] + [s.cur])
      && s'.cur == s.ready[0]
      && (forall t :: t in s.ready ==> t in s'.th && s'.th[t].ticks == s.th[t].ticks)
  {
    if s.th[s.cur].status == Running {
      assert (s.ready + [s.cur])[1..] == s.ready[1..] + [s.cur];
      assert (s.ready + [s.cur])[0] == s.ready[0];
    }
  }

  /** Time slices of waiting threads never change. */
  ghost predicate SlicesKept(s: State, s': State) {
    forall t :: t in s.ready ==> t in s.th && t in s'.th && s'.th[t].ticks == s.th[t].ticks
  }

  lemma StepMoves(s: State)
    requires Inv(s) && s.th[s.cur].pc != Run && PcNames(s) && s.ready != []
    ensures ReadyMoves(s, Advance(s), Schedules(s, Step), Pushes(s, Step)) && SlicesKept(s, Advance(s))
  {
    assert PcOk(s.th[s.cur], s.locks) && s.cur !in s.ready;
    var pc := s.th[s.cur].pc;
    if pc.Down? || pc.Loop? {
      DownMoves(s, pc.lock);
    } else if pc.Up? {
      UpMoves(s, pc.lock);
    }
  }

  lemma DownMoves(s: State, l: LockId)
    requires Inv(s) && l in s.locks && s.ready != [] && WorksOn(s.th[s.cur].pc, l) && s.cur != s.idle
    requires PcOk(s.th[s.cur].(pc := Loop(l)), s.locks) && !Inside(s.th[s.cur], l)
    ensures ReadyMoves(s, SemaDown(s, l), if s.locks[l].value == 0 then 1 else 0, 0)
    ensures SlicesKept(s, SemaDown(s, l))
  {
    assert s.cur !in s.ready && LockInv(s.th, s.locks[l], l);
    if s.locks[l].value == 0 {
      LockRuns.SleepInLock(s, l);
      LockRuns.SleepShape(s, l);
      var k, x := s.locks[l], s.th[s.cur].(pc := Loop(l), status := Blocked);
      var s' := s.(th := s.th[s.cur := x], locks := s.locks[l := k.(waiters := k.waiters + [s.cur])]);
      ScheduleMoves(s');
    }
  }

  lemma UpMoves(s: State, l: LockId)
    requires Inv(s) && s.th[s.cur].pc == Up(l) && l in s.locks && s.ready != []
    ensures ReadyMoves(s, Advance(s), 0, if s.locks[l].waiters != [] then 1 else 0)
    ensures SlicesKept(s, Advance(s))
  {
    assert s.cur !in s.ready && LockInv(s.th, s.locks[l], l) && PcOk(s.th[s.cur], s.locks);
    var x := s.th[s.cur];
    UpStep(s.th, s.cur, x.(pc := Run, depth := x.depth[l := 0]), s.locks[l], l);
    if s.locks[l].waiters != [] {
      assert s.locks[l].waiters[0] !in s.ready;
    }
  }

  lemma EventMoves(s: State, e: Event)
    requires Inv(s) && Enabled(s, e) && s.ready != []
    ensures ReadyMoves(s, Apply(s, e), Schedules(s, e), Pushes(s, e)) && SlicesKept(s, Apply(s, e))
  {
    assert s.cur !in s.ready;
    match e
    case Timer =>
      if s.th[s.cur].ticks == 0 {
        ScheduleMoves(s);
      }
    case Step => StepMoves(s);
    case Sleep(stat) => SleepMoves(s, stat);
    case Yield => YieldMoves(s);
    case _ =>
  }

  lemma SleepMoves(s: State, stat: Status)
    requires Inv(s) && s.ready != [] && s.th[s.cur].pc == Run && IsBlocked(stat)
    ensures ReadyMoves(s, Apply(s, Sleep(stat)), 1, 0) && SlicesKept(s, Apply(s, Sleep(stat)))
  {
    hide LocksInv;
    LockRuns.SleepBase(s, stat);
    var s1 := SetPc(s, Suspended);
    hide Schedule;
    ScheduleMoves(s1.(th := s1.th[s1.cur := s1.th[s1.cur].(status := stat)]));
  }

  lemma YieldMoves(s: State)
    requires Inv(s) && s.ready != [] && s.th[s.cur].pc == Run && s.cur != s.idle
    ensures ReadyMoves(s, Apply(s, Yield), 1, 0) && SlicesKept(s, Apply(s, Yield))
  {
    assert s.cur !in s.ready;
    var q := s.ready + [s.cur];
    assert q[1..] == s.ready[1..] + [s.cur] && q[0] == s.ready[0];
  }

  // ---------------------------------------------------------------- the bound in schedules

  /** One event moves a waiting thread by exactly the schedules and pushes it makes, or runs it. */
  lemma PositionMoves(s: State, e: Event, t: Tid)
    requires Inv(s) && Enabled(s, e) && t in s.ready
    ensures var s' := Apply(s, e);
      if s'.cur == t then Schedules(s, e) == 1 && IndexOf(s.ready, t) == 0
      else t in s'.ready && IndexOf(s'.ready, t) == IndexOf(s.ready, t) - Schedules(s, e) + Pushes(s, e)
  {
    EventMoves(s, e);
    LockRuns.ApplyInv(s, e);
    hide LocksInv, Apply, Schedules, Pushes;
    PositionIn(s, Apply(s, e), Schedules(s, e), Pushes(s, e), t);
  }

  lemma PositionIn(s: State, s': State, schedules: nat, pushes: nat, t: Tid)
    requires NoDup(s.ready) && NoDup(s'.ready) && t in s.ready && t != s.cur && ReadyMoves(s, s', schedules, pushes)
    ensures
      if s'.cur == t then schedules == 1 && IndexOf(s.ready, t) == 0
      else t in s'.ready && IndexOf(s'.ready, t) == IndexOf(s.ready, t) - schedules + pushes
  {
    var i := IndexOf(s.ready, t);
    if schedules == 1 {
      if s'.cur == t {
        IndexUnique(s.ready, t, 0);
      } else {
        assert i > 0 && s'.ready[i - 1] == t;
        IndexUnique(s'.ready, t, i - 1);
      }
    } else if pushes == 1 {
      assert s'.ready[i + 1] == t;
      IndexUnique(s'.ready, t, i + 1);
    } else {
      assert s'.ready[i] == t;
      IndexUnique(s'.ready, t, i);
    }
  }

  /** Some state along the run, the first one included, has `t` running. */
  predicate Dispatched(s: State, es: seq<Event>, t: Tid)
    decreases |es|
  {
    s.cur == t ||
    (es != [] && if Closed(s) && Enabled(s, es[0]) then Dispatched(Apply(s, es[0]), es[1..], t)
                 else Dispatched(s, es[1..], t))
  }

  function AllSchedules(s: State, es: seq<Event>): nat
    decreases |es|
  {
    if es == [] then 0
    else if Closed(s) && Enabled(s, es[0]) then Schedules(s, es[0]) + AllSchedules(Apply(s, es[0]), es[1..])
    else AllSchedules(s, es[1..])
  }

  function AllPushes(s: State, es: seq<Event>): nat
    decreases |es|
  {
    if es == [] then 0
    else if Closed(s) && Enabled(s, es[0]) then Pushes(s, es[0]) + AllPushes(Apply(s, es[0]), es[1..])
    else AllPushes(s, es[1..])
  }

  /** A ready thread at position k runs by the schedule number k + 1 + (front pushes on the way). */
  lemma {:induction false} DispatchBound(s: State, es: seq<Event>, t: Tid)
    requires Inv(s) && t in s.ready
    requires AllSchedules(s, es) > IndexOf(s.ready, t) + AllPushes(s, es)
    ensures Dispatched(s, es, t)
    decreases |es|
  {
    if Enabled(s, es[0]) {
      var s' := Apply(s, es[0]);
      LockRuns.ApplyInv(s, es[0]);
      PositionMoves(s, es[0], t);
      if s'.cur == t {
        assert Dispatched(s', es[1..], t);
      } else {
        DispatchBound(s', es[1..], t);
      }
    } else {
      DispatchBound(s, es[1..], t);
    }
  }

  // ---------------------------------------------------------------- the bound in timer ticks

  /** Ticks the threads of `q` may use before the last of them gives way. */
  function SliceSum(th: map<Tid, Thread>, q: seq<Tid>): nat
    requires forall t :: t in q ==> t in th
  {
    if q == [] then 0 else th[q[0]].ticks + 1 + SliceSum(th, q[1..])
  }

  function PrioritySum(th: map<Tid, Thread>, q: seq<Tid>): nat
    requires forall t :: t in q ==> t in th
  {
    if q == [] then 0 else th[q[0]].priority + 1 + PrioritySum(th, q[1..])
  }

  lemma {:induction false} SliceSumSame(th: map<Tid, Thread>, th': map<Tid, Thread>, q: seq<Tid>)
    requires forall t :: t in q ==> t in th && t in th' && th'[t].ticks == th[t].ticks
    ensures SliceSum(th', q) == SliceSum(th, q)
  {
    if q == [] {
    } else {
      SliceSumSame(th, th', q[1..]);
    }
  }

  lemma {:induction false} SliceSumBound(th: map<Tid, Thread>, q: seq<Tid>)
    requires forall t :: t in q ==> t in th && th[t].ticks <= th[t].priority
    ensures SliceSum(th, q) <= PrioritySum(th, q)
  {
    if q == [] {
    } else {
      SliceSumBound(th, q[1..]);
    }
  }

  /** The running thread, then those ahead of `t`. */
  function Ahead(s: State, t: Tid): (q: seq<Tid>)
    requires t in s.ready
  {
    [s.cur] + s.ready[..IndexOf(s.ready, t)]
  }

  function Ticks(s: State, es: seq<Event>): nat
    decreases |es|
  {
    if es == [] then 0
    else if Closed(s) && Enabled(s, es[0]) then (if es[0] == Timer then 1 else 0) + Ticks(Apply(s, es[0]), es[1..])
    else Ticks(s, es[1..])
  }

  lemma AheadExists(s: State, t: Tid)
    requires Inv(s) && t in s.ready
    ensures forall u :: u in Ahead(s, t) ==> u in s.th
  {
    forall u | u in s.ready[..IndexOf(s.ready, t)] ensures u in s.ready {}
  }

  lemma BudgetSplit(s: State, t: Tid)
    requires Inv(s) && t in s.ready
    ensures var i := IndexOf(s.ready, t);
      && (forall u :: u in Ahead(s, t) ==> u in s.th)
      && (forall u :: u in s.ready[..i] ==> u in s.th)
      && SliceSum(s.th, Ahead(s, t)) == s.th[s.cur].ticks + 1 + SliceSum(s.th, s.ready[..i])
  {
    AheadExists(s, t);
    assert Ahead(s, t)[1..] == s.ready[..IndexOf(s.ready, t)];
  }

  lemma ScheduledBudget(s: State, s': State, t: Tid)
    requires Inv(s) && Inv(s') && t in s.ready && t in s'.ready && IndexOf(s.ready, t) > 0
    requires IndexOf(s'.ready, t) == IndexOf(s.ready, t) - 1
    requires ReadyMoves(s, s', 1, 0) && SlicesKept(s, s')
    ensures forall u :: u in Ahead(s, t) ==> u in s.th
    ensures forall u :: u in Ahead(s', t) ==> u in s'.th
    ensures SliceSum(s'.th, Ahead(s', t)) + s.th[s.cur].ticks + 1 == SliceSum(s.th, Ahead(s, t))
  {
    hide LocksInv, Ahead;
    var i := IndexOf(s.ready, t);
    BudgetSplit(s, t);
    BudgetSplit(s', t);
    assert s'.ready[..i - 1] == s.ready[..i][1..];
    assert s.ready[..i][0] == s.ready[0];
    SliceSumSame(s.th, s'.th, s.ready[..i][1..]);
  }

  lemma UnscheduledBudget(s: State, s': State, t: Tid, tick: nat)
    requires Inv(s) && Inv(s') && t in s.ready && t in s'.ready
    requires IndexOf(s'.ready, t) == IndexOf(s.ready, t)
    requires ReadyMoves(s, s', 0, 0) && SlicesKept(s, s')
    requires s'.th[s.cur].ticks + tick == s.th[s.cur].ticks
    ensures forall u :: u in Ahead(s, t) ==> u in s.th
    ensures forall u :: u in Ahead(s', t) ==> u in s'.th
    ensures SliceSum(s'.th, Ahead(s', t)) + tick == SliceSum(s.th, Ahead(s, t))
  {
    var i := IndexOf(s.ready, t);
    BudgetSplit(s, t);
    BudgetSplit(s', t);
    assert s'.ready[..i] == s.ready[..i];
    SliceSumSame(s.th, s'.th, s.ready[..i]);
  }

  /** What an event uses up of the slices ahead of a waiting thread: a tick one unit, a schedule what is left to the
      thread that ran. */
  function Used(s: State, e: Event): nat
    requires Closed(s) && Enabled(s, e)
  {
    if Schedules(s, e) == 1 then s.th[s.cur].ticks + 1 else if e == Timer then 1 else 0
  }

  /** An event takes exactly that off the budget ahead of `t`; nothing but a front push refills it. */
  lemma BudgetMoves(s: State, e: Event, t: Tid)
    requires Inv(s) && Enabled(s, e) && t in s.ready && Pushes(s, e) == 0 && Apply(s, e).cur != t
    ensures t in Apply(s, e).ready
    ensures forall u :: u in Ahead(s, t) ==> u in s.th
    ensures forall u :: u in Ahead(Apply(s, e), t) ==> u in Apply(s, e).th
    ensures SliceSum(Apply(s, e).th, Ahead(Apply(s, e), t)) + Used(s, e) == SliceSum(s.th, Ahead(s, t))
  {
    EventMoves(s, e);
    PositionMoves(s, e, t);
    LockRuns.ApplyInv(s, e);
    if Schedules(s, e) == 1 {
      ScheduledBudget(s, Apply(s, e), t);
    } else {
      CurTicks(s, e);
      UnscheduledBudget(s, Apply(s, e), t, if e == Timer then 1 else 0);
    }
  }

  /** Without a schedule a tick takes one off the running thread's slice, and nothing else changes it. */
  lemma CurTicks(s: State, e: Event)
    requires Closed(s) && Enabled(s, e) && Schedules(s, e) == 0 && Pushes(s, e) == 0
    ensures s.cur in Apply(s, e).th
    ensures Apply(s, e).th[s.cur].ticks + (if e == Timer then 1 else 0) == s.th[s.cur].ticks
  {
    if e == Step {
      StepTicks(s);
    }
  }

  lemma StepTicks(s: State)
    requires Closed(s) && PcNames(s) && s.th[s.cur].pc != Run
    requires Schedules(s, Step) == 0 && Pushes(s, Step) == 0
    ensures s.cur in Advance(s).th && Advance(s).th[s.cur].ticks == s.th[s.cur].ticks
  {
  }

  /** With no front pushes a ready thread runs before more timer ticks have passed than the sum of
      (priority + 1) over the running thread and the threads ahead of it. */
  lemma {:induction false} TickBound(s: State, es: seq<Event>, t: Tid)
    requires Inv(s) && t in s.ready && AllPushes(s, es) == 0
    requires forall u :: u in Ahead(s, t) ==> u in s.th
    requires Ticks(s, es) >= SliceSum(s.th, Ahead(s, t))
    ensures Dispatched(s, es, t)
    decreases |es|
  {
    BudgetSplit(s, t);
    if Enabled(s, es[0]) {
      var s' := Apply(s, es[0]);
      if s'.cur == t {
        assert Dispatched(s', es[1..], t);
      } else {
        BudgetMoves(s, es[0], t);
        LockRuns.ApplyInv(s, es[0]);
        TickBound(s', es[1..], t);
      }
    } else {
      TickBound(s, es[1..], t);
    }
  }

  /** The bound in priorities, for a thread that is ready in any state a run reaches. */
  lemma WaitsAtMost(s0: State, before: seq<Event>, es: seq<Event>, t: Tid)
    requires LockRuns.Initial(s0)
    requires var s := LockRuns.After(s0, before);
      && t in s.ready && AllPushes(s, es) == 0
      && (forall u :: u in Ahead(s, t) ==> u in s.th)
      && Ticks(s, es) >= PrioritySum(s.th, Ahead(s, t))
    ensures Dispatched(LockRuns.After(s0, before), es, t)
  {
    var s := LockRuns.After(s0, before);
    LockRuns.InitialInv(s0);
    LockRuns.AfterInv(s0, before);
    SliceSumBound(s.th, Ahead(s, t));
    TickBound(s, es, t);
  }
}
