/** The scheduler and lock code in the form the kernel has it: control blocks with an embedded general_tag, the
    ready list and the waiter lists as intrusive lists through those tags, and globals, all updated in place.
    What that heap stands for is a state of the machine in Threads, and each method does on the heap what the
    machine's step does, so what is proved of the machine's runs holds of this code. */
module KernelCode {
  import opened IntrusiveList
  import opened TagLists
  import opened Threads
  import opened LockSafety
  import EventLaws
  import LockRuns

  /** The lists a general_tag can be on. */
  datatype ListName = ReadyList | WaitersOf(lock: LockId)

  /** The ready list and the waiters of each lock. */
  function ListNames(lockIds: set<LockId>): (names: set<ListName>)
    ensures forall n :: n in names <==> n == ReadyList || (n.WaitersOf? && n.lock in lockIds)
  {
    {ReadyList} + set l | l in lockIds :: WaitersOf(l)
  }

  /** struct task_struct; `pc` is what its kernel stack returns to. */
  class Task {
    const tag: Elem  // general_tag
    const priority: nat
    var status: Status
    var pc: Pc
    var ticks: nat
    ghost var depth: map<LockId, nat>

    constructor (tag: Elem, status: Status, priority: nat)
      ensures this.tag == tag && Block() == Thread(status, Run, priority, priority, map[])
    {
      this.tag, this.priority, this.status, pc, ticks, depth := tag, priority, status, Run, priority, map[];
    }

    ghost function Block(): Thread
      reads this
    {
      Thread(status, pc, ticks, priority, depth)
    }
  }

  ghost function BlocksOf(tasks: map<Tid, Task>): map<Tid, Thread>
    reads tasks.Values
  {
    map t | t in tasks :: tasks[t].Block()
  }

  lemma BlocksMore(tasks: map<Tid, Task>, t: Tid, task: Task)
    ensures BlocksOf(tasks[t := task]) == BlocksOf(tasks)[t := task.Block()]
  {
  }

  /** The parts of struct lock that are no list. */
  datatype Sem = Sem(value: nat, holder: Option<Tid>, repeat: nat)

  /** The locks as the machine has them. */
  ghost function LocksOf(sems: map<LockId, Sem>, owner: map<Elem, Tid>, all: Contents<ListName>): map<LockId, Lock> {
    map l | l in sems && WaitersOf(l) in all ::
      Lock(sems[l].value, Entries(owner, all[WaitersOf(l)]), sems[l].holder, sems[l].repeat)
  }

  lemma OffMeans(tags: map<Tid, Elem>, owner: map<Elem, Tid>, all: Contents<ListName>, ends: set<Elem>,
                 sems: map<LockId, Sem>, t: Tid)
    requires TagsOk(tags, owner, all, ends) && t in tags && ReadyList in all
    requires forall l :: l in sems <==> WaitersOf(l) in all
    ensures Off(all, ends, tags[t]) <==>
      t !in Entries(owner, all[ReadyList]) &&
      forall l :: l in sems ==> t !in LocksOf(sems, owner, all)[l].waiters
  {
    hide Entries;
    forall n | n in all ensures t in Entries(owner, all[n]) <==> tags[t] in all[n] {
      TagOnList(tags, owner, all, ends, n, t);
    }
    if forall l :: l in sems ==> t !in LocksOf(sems, owner, all)[l].waiters {
      forall n: ListName | n in all && n != ReadyList ensures t !in Entries(owner, all[n]) {
        assert n == WaitersOf(n.lock) && n.lock in sems;
      }
    }
  }

  lemma LocksReady(sems: map<LockId, Sem>, owner: map<Elem, Tid>, all: Contents<ListName>, q: seq<Elem>)
    ensures LocksOf(sems, owner, all[ReadyList := q]) == LocksOf(sems, owner, all)
  {
  }

  lemma LocksWaiters(sems: map<LockId, Sem>, owner: map<Elem, Tid>, all: Contents<ListName>, l: LockId, q: seq<Elem>)
    requires l in sems && WaitersOf(l) in all
    ensures var k := LocksOf(sems, owner, all);
      LocksOf(sems, owner, all[WaitersOf(l) := q]) == k[l := k[l].(waiters := Entries(owner, q))]
  {
  }

  lemma LocksSem(sems: map<LockId, Sem>, owner: map<Elem, Tid>, all: Contents<ListName>, l: LockId, x: Sem)
    requires l in sems && WaitersOf(l) in all
    ensures var k := LocksOf(sems, owner, all);
      LocksOf(sems[l := x], owner, all) == k[l := Lock(x.value, k[l].waiters, x.holder, x.repeat)]
  {
  }

  lemma LocksMore(sems: map<LockId, Sem>, owner: map<Elem, Tid>, all: Contents<ListName>, e: Elem, t: Tid)
    requires forall n :: n in all ==> e !in all[n]
    ensures LocksOf(sems, owner[e := t], all) == LocksOf(sems, owner, all)
  {
    hide Entries;
    forall n | n in all ensures Entries(owner[e := t], all[n]) == Entries(owner, all[n]) {
      EntriesMore(owner, all[n], e, t);
    }
  }

  lemma LocksStart(sems: map<LockId, Sem>, owner: map<Elem, Tid>, all: Contents<ListName>)
    requires forall l :: l in sems ==> WaitersOf(l) in all && all[WaitersOf(l)] == [] && sems[l] == Sem(1, None, 0)
    ensures LocksOf(sems, owner, all) == map l | l in sems :: Lock(1, [], None, 0)
  {
    EntriesNone(owner);
  }

  /** The state after thread_init. */
  function StartState(main: Tid, idleThread: Tid, lockIds: set<LockId>): State {
    State(map[main := Thread(Running, Run, 32, 32, map[]), idleThread := Thread(Ready, Run, 10, 10, map[])],
          [idleThread], map l | l in lockIds :: Lock(1, [], None, 0), main, idleThread, false)
  }

  lemma StartInitial(main: Tid, idleThread: Tid, lockIds: set<LockId>)
    requires main != idleThread
    ensures var s := StartState(main, idleThread, lockIds); LockRuns.Initial(s) && Inv(s)
  {
    LockRuns.InitialInv(StartState(main, idleThread, lockIds));
  }

  ghost predicate NotWaiting(s: State, t: Tid) {
    forall l :: l in s.locks ==> t !in s.locks[l].waiters
  }

  ghost predicate OnNoList(s: State, t: Tid) {
    t !in s.ready && NotWaiting(s, t)
  }

  // The machine's functions as the calls of the methods below.

  lemma RequeueRuns(s: State)
    requires Closed(s) && s.th[s.cur].status == Running && s.cur !in s.ready
    ensures var v := s.(ready := s.ready + [s.cur]);
      var w := v.(th := v.th[v.cur := v.th[v.cur].(ticks := v.th[v.cur].priority)]);
      Requeue(s) == w.(th := w.th[w.cur := w.th[w.cur].(status := Ready)])
  {
  }

  lemma RequeueClosed(s: State)
    requires Closed(s) && !Requeue(s).halted && NotWaiting(s, s.idle)
    ensures Closed(Requeue(s)) && NotWaiting(Requeue(s), s.idle) && Requeue(s).idle == s.idle
    ensures Threads.Schedule(s) == Threads.Dispatch(Requeue(s))
  {
  }

  ghost function Stocked(s: State): State
    requires Closed(s)
  {
    if s.ready == [] then Threads.ThreadUnblock(s, s.idle) else s
  }

  ghost function FirstRuns(s: State): State
    requires s.ready != [] && s.ready[0] in s.th
  {
    var v, t := s.(ready := s.ready[1..]), s.ready[0];
    v.(th := v.th[t := v.th[t].(status := Running)]).(cur := t)
  }

  lemma DispatchIs(s: State)
    requires Closed(s)
    ensures var u := Stocked(s);
      if u.halted || u.ready == [] then Threads.Dispatch(s) == Halt(u)
      else u.ready[0] in u.th && Threads.Dispatch(s) == FirstRuns(u)
  {
  }

  lemma BlockIs(s: State, stat: Status)
    requires Closed(s) && IsBlocked(stat) && !s.halted && NotWaiting(s, s.idle)
    ensures var v := s.(th := s.th[s.cur := s.th[s.cur].(status := stat)]);
      Closed(v) && NotWaiting(v, s.idle) && v.th[v.cur].status != Running
      && Threads.ThreadBlock(s, stat) == Threads.Schedule(v)
  {
    hide Threads.Schedule;
  }

  lemma YieldIs(s: State)
    requires Closed(s) && s.cur !in s.ready && NotWaiting(s, s.idle)
    ensures var v := s.(ready := s.ready + [s.cur]);
      var w := v.(th := v.th[v.cur := v.th[v.cur].(status := Ready)]);
      Closed(w) && NotWaiting(w, s.idle) && Threads.ThreadYield(s) == Threads.Schedule(w)
  {
    hide Threads.Schedule;
  }

  lemma DownIs(s: State, l: LockId)
    requires Closed(s) && l in s.locks && s.locks[l].value == 0 && s.cur !in s.locks[l].waiters
    requires s.cur != s.idle && NotWaiting(s, s.idle)
    ensures
      var v := SetPc(s.(locks := s.locks[l := s.locks[l].(waiters := s.locks[l].waiters + [s.cur])]), Loop(l));
      Closed(v) && NotWaiting(v, s.idle) && Threads.SemaDown(s, l) == Threads.ThreadBlock(v, Blocked)
  {
    hide Threads.ThreadBlock;
  }

  ghost function WithoutFirst(s: State, l: LockId): (s': State)
    requires l in s.locks && s.locks[l].waiters != []
    ensures s'.th == s.th
  {
    s.(locks := s.locks[l := s.locks[l].(waiters := s.locks[l].waiters[1..])])
  }

  /** The first waiter taken off the list and unblocked. */
  ghost function Unblocked(s: State, l: LockId): State
    requires Closed(s) && l in s.locks && s.locks[l].waiters != []
  {
    Threads.ThreadUnblock(WithoutFirst(s, l), s.locks[l].waiters[0])
  }

  lemma UpIs(s: State, l: LockId)
    requires Closed(s) && l in s.locks && s.locks[l].value == 0 && s.locks[l].waiters != []
    ensures s.locks[l].waiters[0] in s.th
    ensures var k, v := s.locks[l], Unblocked(s, l);
      && l in v.locks && v.locks[l] == k.(waiters := k.waiters[1..])
      && Threads.SemaUp(s, l) == v.(locks := v.locks[l := v.locks[l].(value := 1)])
  {
  }

  lemma UpAlone(s: State, l: LockId)
    requires Closed(s) && l in s.locks && (s.locks[l].value != 0 || s.locks[l].waiters == [])
    ensures Threads.SemaUp(s, l) ==
      if s.locks[l].value != 0 then Halt(s) else s.(locks := s.locks[l := s.locks[l].(value := 1)])
  {
  }

  /** The semaphore is up again, and its first waiter, if there is one, is the first of the ready threads. */
  ghost predicate FirstWoken(s: State, s': State, l: LockId) {
    && l in s.locks && l in s'.locks && s.locks[l].value == 0 && s'.locks[l].value == 1
    && var q, q' := s.locks[l].waiters, s'.locks[l].waiters;
      if q == [] then q' == [] && s'.ready == s.ready else q' == q[1..] && s'.ready == [q[0]] + s.ready
  }

  lemma UpMeans(s: State, l: LockId)
    requires Closed(s) && l in s.locks && !s.halted && !Threads.SemaUp(s, l).halted
    ensures FirstWoken(s, Threads.SemaUp(s, l), l)
  {
  }

  // What the invariant says about lists where the methods below are called.

  lemma RunningFacts(s: State)
    requires Inv(s)
    ensures Closed(s) && !s.halted && s.th[s.cur].status == Running && OnNoList(s, s.cur) && NotWaiting(s, s.idle)
  {
    forall l | l in s.locks ensures s.cur !in s.locks[l].waiters && s.idle !in s.locks[l].waiters {
      assert LockInv(s.th, s.locks[l], l);
    }
  }

  lemma PlaceFacts(s: State)
    requires Inv(s) && s.th[s.cur].pc != Run
    ensures PcNames(s) && (s.cur == s.idle ==> s.th[s.cur].pc.Suspended?)
  {
    assert PcOk(s.th[s.cur], s.locks);
  }

  lemma SuspendedFacts(s: State, t: Tid)
    requires Inv(s) && t in s.th && s.th[t].pc.Suspended?
    ensures NotWaiting(s, t)
  {
    forall l | l in s.locks ensures t !in s.locks[l].waiters {
      assert LockInv(s.th, s.locks[l], l);
    }
  }

  class Kernel {
    const lists: Lists<ListName>
    var tasks: map<Tid, Task>      // thread_all_list
    var owner: map<Elem, Tid>      // elem2entry: the control block a tag is embedded in
    var sems: map<LockId, Sem>
    var cur: Tid                   // running_thread()
    var idle: Tid                  // idle_thread
    var halted: bool               // spinning in panic_spin

    ghost var repr: set<object>    // control blocks, lists and list elements

    ghost function Blocks(): map<Tid, Thread>
      reads this`tasks, tasks.Values
    {
      BlocksOf(tasks)
    }

    ghost function Tags(): map<Tid, Elem>
      reads this`tasks
    {
      map t | t in tasks :: tasks[t].tag
    }

    ghost predicate Valid()
      reads this, repr
    {
      && this !in repr && lists in repr && lists.repr <= repr && this !in lists.repr && lists.Valid()
      && (forall t :: t in tasks ==> tasks[t] in repr && tasks[t] !in lists.repr)
      && TagsOk(Tags(), owner, lists.All(), lists.Ends()) && (forall t :: t in tasks ==> tasks[t].tag in lists.cells)
      && ReadyList in lists.at && forall l :: l in sems <==> WaitersOf(l) in lists.at
    }

    /** The machine's state this heap stands for. */
    ghost function View(): State
      requires Valid()
      reads this, repr
    {
      State(Blocks(), Entries(owner, lists.All()[ReadyList]), LocksOf(sems, owner, lists.All()), cur, idle, halted)
    }

    ghost predicate Good()
      reads this, repr
    {
      Valid() && Inv(View())
    }

    /** The lists and locks as they are set up, before there is a thread. */
    constructor (main: Tid, idleThread: Tid, lockIds: set<LockId>)
      ensures Valid() && fresh(repr)
      ensures View() == State(map[], [], map l | l in lockIds :: Lock(1, [], None, 0), main, idleThread, false)
    {
      hide Lists.Valid, Lists.Ends, Lists.All, Entries, LocksOf, TagsOk, ListNames;
      var ls := new Lists<ListName>(ListNames(lockIds));
      lists := ls;
      tasks := map[];
      owner := map[];
      sems := map l | l in lockIds :: Sem(1, None, 0);
      cur, idle, halted := main, idleThread, false;
      repr := {ls} + ls.repr;
      new;
      EntriesNone(owner);
      LocksStart(sems, owner, lists.All());
      NoTags(lists.All(), lists.Ends());
    }

    /** thread_init: the main thread gets its control block, and the idle thread is started. */
    method ThreadInit(main: Tid, idleThread: Tid, lockIds: set<LockId>)
      requires Valid() && main != idleThread
      requires View() == State(map[], [], map l | l in lockIds :: Lock(1, [], None, 0), main, idleThread, false)
      modifies this, repr
      ensures Good() && fresh(repr - old(repr)) && LockRuns.Initial(View())
      ensures View().cur == main && View().idle == idleThread && View().ready == [idleThread]
      ensures View().th ==
        map[main := Thread(Running, Run, 32, 32, map[]), idleThread := Thread(Ready, Run, 10, 10, map[])]
    {
      hide Valid, View, Inv;
      NewTask(main, 32);
      Fields();
      SetStatus(main, Running);
      ThreadStart(idleThread, 10);
      assert View() == StartState(main, idleThread, lockIds);
      StartInitial(main, idleThread, lockIds);
    }

    // -------------------------------------------------------------- what the state says about the heap

    lemma Fields()
      requires Valid()
      ensures View().cur == cur && View().idle == idle && View().halted == halted
      ensures View().ready == Entries(owner, lists.All()[ReadyList])
      ensures View().th.Keys == tasks.Keys && View().locks.Keys == sems.Keys
      ensures forall t :: t in tasks ==> View().th[t] == tasks[t].Block()
    {
      hide Lists.Valid, Lists.All, Lists.Ends, Entries, TagsOk;
    }

    lemma LockAt(l: LockId)
      requires Valid() && l in sems
      ensures l in View().locks && WaitersOf(l) in lists.at
      ensures View().locks[l] ==
        Lock(sems[l].value, Entries(owner, lists.All()[WaitersOf(l)]), sems[l].holder, sems[l].repeat)
    {
      hide Lists.Valid, Lists.All, Lists.Ends, Entries, TagsOk;
    }

    /** The ready list may become any list of tags. */
    lemma ReadyBecomes(q: seq<Elem>)
      requires Valid() && forall e :: e in q ==> e in owner
      ensures TagsOk(Tags(), owner, lists.All()[ReadyList := q], lists.Ends())
      ensures LocksOf(sems, owner, lists.All()[ReadyList := q]) == LocksOf(sems, owner, lists.All())
    {
      hide Lists.Valid, Lists.All, Lists.Ends, TagsOk, LocksOf;
      TagsKept(Tags(), owner, lists.All(), lists.Ends(), ReadyList, q);
      LocksReady(sems, owner, lists.All(), q);
    }

    /** ... and so may the waiters of a lock. */
    lemma WaitersBecome(l: LockId, q: seq<Elem>)
      requires Valid() && l in sems && forall e :: e in q ==> e in owner
      ensures TagsOk(Tags(), owner, lists.All()[WaitersOf(l) := q], lists.Ends())
      ensures var k := LocksOf(sems, owner, lists.All());
        l in k && LocksOf(sems, owner, lists.All()[WaitersOf(l) := q]) == k[l := k[l].(waiters := Entries(owner, q))]
    {
      hide Lists.Valid, Lists.All, Lists.Ends, TagsOk, Entries;
      TagsKept(Tags(), owner, lists.All(), lists.Ends(), WaitersOf(l), q);
      LocksWaiters(sems, owner, lists.All(), l, q);
    }

    /** A thread that is on no list has a tag that is on none. */
    lemma TagOff(t: Tid)
      requires Valid() && t in tasks
      ensures OnNoList(View(), t) <==> Off(lists.All(), lists.Ends(), tasks[t].tag)
    {
      hide Lists.Valid, Lists.Ends, Entries, Off, TagsOk;
      OffMeans(Tags(), owner, lists.All(), lists.Ends(), sems, t);
    }

    lemma TagFacts(t: Tid, n: ListName)
      requires Valid() && t in tasks && n in lists.at
      ensures tasks[t].tag in owner && owner[tasks[t].tag] == t && forall e :: e in lists.All()[n] ==> e in owner
    {
      hide Lists.Valid, Lists.Ends;
      assert Tags()[t] == tasks[t].tag;
    }

    lemma ListedOnes(n: ListName)
      requires Valid() && n in lists.at
      ensures forall e :: e in lists.All()[n] ==> e in owner && owner[e] in tasks && tasks[owner[e]].tag == e
    {
      hide Lists.Valid, Lists.Ends;
    }

    lemma OneTag(t: Tid)
      requires Valid() && t in tasks
      ensures forall u :: u in tasks && u != t ==> tasks[u] != tasks[t]
    {
      hide Lists.Valid, Lists.All, Lists.Ends;
      assert forall u :: u in tasks ==> Tags()[u] == tasks[u].tag;
    }

    // -------------------------------------------------------------- the lists

    /** elem_find(&thread_ready_list, &t->general_tag) or the same on a waiter list */
    method Find(n: ListName, t: Tid) returns (found: bool)
      requires Valid() && n in lists.at && t in tasks
      ensures found <==> t in Entries(owner, lists.All()[n])
    {
      hide Lists.Valid;
      TagOnList(Tags(), owner, lists.All(), lists.Ends(), n, t);
      found := lists.Find(n, tasks[t].tag);
    }

    /** elem_find on the ready list. */
    method FindReady(t: Tid) returns (found: bool)
      requires Valid() && t in tasks
      ensures found <==> t in View().ready
    {
      found := Find(ReadyList, t);
    }

    /** elem_find on the waiters of a lock. */
    method FindWaiter(l: LockId, t: Tid) returns (found: bool)
      requires Valid() && t in tasks && l in sems
      ensures found <==> t in View().locks[l].waiters
    {
      hide Lists.Valid, Lists.All, Lists.Ends, Entries, TagsOk;
      LockAt(l);
      found := Find(WaitersOf(l), t);
    }

    /** list_empty(&thread_ready_list) */
    method NobodyReady() returns (b: bool)
      requires Valid()
      ensures b <==> View().ready == []
    {
      b := lists.Empty(ReadyList);
    }

    /** list_empty(&psema->waiters) */
    method NobodyWaits(l: LockId) returns (b: bool)
      requires Valid() && l in sems
      ensures b <==> View().locks[l].waiters == []
    {
      hide Lists.Valid, Lists.Ends, TagsOk;
      LockAt(l);
      b := lists.Empty(WaitersOf(l));
    }

    /** list_append on the ready list. */
    method AppendReady(t: Tid)
      requires Valid() && t in tasks && OnNoList(View(), t)
      modifies this, repr
      ensures Valid() && repr == old(repr)
      ensures View() == old(View()).(ready := old(View()).ready + [t])
    {
      hide Lists.Valid, Lists.All, Lists.Ends, Entries, Off, OnNoList, TagsOk, LocksOf;
      var tag := tasks[t].tag;
      ghost var q := lists.All()[ReadyList];
      TagOff(t);
      TagFacts(t, ReadyList);
      ReadyBecomes(q + [tag]);
      EntriesConcat(owner, q, [tag]);
      EntriesOne(owner, tag);
      lists.Append(ReadyList, tag);
    }

    /** list_push on the ready list. */
    method PushReady(t: Tid)
      requires Valid() && t in tasks && OnNoList(View(), t)
      modifies this, repr
      ensures Valid() && repr == old(repr)
      ensures View() == old(View()).(ready := [t] + old(View()).ready)
    {
      hide Lists.Valid, Lists.All, Lists.Ends, Entries, Off, OnNoList, TagsOk, LocksOf;
      var tag := tasks[t].tag;
      ghost var q := lists.All()[ReadyList];
      TagOff(t);
      TagFacts(t, ReadyList);
      ReadyBecomes([tag] + q);
      EntriesConcat(owner, [tag], q);
      EntriesOne(owner, tag);
      lists.Push(ReadyList, tag);
    }

    /** elem2entry(struct task_struct, general_tag, list_pop(&thread_ready_list)) */
    method PopReady() returns (t: Tid)
      requires Valid() && View().ready != []
      modifies this, repr
      ensures Valid() && repr == old(repr)
      ensures t in tasks && t == old(View()).ready[0]
      ensures View() == old(View()).(ready := old(View()).ready[1..])
    {
      hide Lists.Valid, Lists.All, Lists.Ends, Entries, Off, OnNoList, TagsOk, LocksOf;
      ghost var q := lists.All()[ReadyList];
      ListedOnes(ReadyList);
      assert q[0] in q && q == [q[0]] + q[1..];
      ReadyBecomes(q[1..]);
      EntriesConcat(owner, [q[0]], q[1..]);
      EntriesOne(owner, q[0]);
      var tag := lists.Pop(ReadyList);
      t := owner[tag];
    }

    /** list_append on the waiters of a lock. */
    method AppendWaiter(l: LockId, t: Tid)
      requires Valid() && t in tasks && l in sems && OnNoList(View(), t)
      modifies this, repr
      ensures Valid() && repr == old(repr)
      ensures var v := old(View());
        View() == v.(locks := v.locks[l := v.locks[l].(waiters := v.locks[l].waiters + [t])])
    {
      hide Lists.Valid, Lists.All, Lists.Ends, Entries, Off, OnNoList, TagsOk, LocksOf;
      var tag := tasks[t].tag;
      ghost var q := lists.All()[WaitersOf(l)];
      TagOff(t);
      TagFacts(t, WaitersOf(l));
      LockAt(l);
      WaitersBecome(l, q + [tag]);
      EntriesConcat(owner, q, [tag]);
      EntriesOne(owner, tag);
      lists.Append(WaitersOf(l), tag);
    }

    /** elem2entry(struct task_struct, general_tag, list_pop(&psema->waiters)) */
    method PopWaiter(l: LockId) returns (t: Tid)
      requires Valid() && l in sems && View().locks[l].waiters != []
      modifies this, repr
      ensures Valid() && repr == old(repr)
      ensures t in tasks && t == old(View()).locks[l].waiters[0] && OnNoList(View(), t)
      ensures View() == WithoutFirst(old(View()), l)
    {
      hide Lists.Valid, Lists.All, Lists.Ends, Entries, Off, OnNoList, TagsOk, LocksOf;
      ghost var q := lists.All()[WaitersOf(l)];
      ListedOnes(WaitersOf(l));
      LockAt(l);
      assert q[0] in q && q == [q[0]] + q[1..];
      WaitersBecome(l, q[1..]);
      EntriesConcat(owner, [q[0]], q[1..]);
      EntriesOne(owner, q[0]);
      var tag := lists.Pop(WaitersOf(l));
      t := owner[tag];
      TagOff(t);
    }

    // -------------------------------------------------------------- fields of control blocks and locks

    method SetStatus(t: Tid, status: Status)
      requires Valid() && t in tasks
      modifies this, repr
      ensures Valid() && repr == old(repr)
      ensures View() == old(View()).(th := old(View()).th[t := old(View()).th[t].(status := status)])
    {
      hide Lists.Valid, Lists.All, Lists.Ends, Entries, Off, OnNoList, TagsOk, LocksOf;
      OneTag(t);
      tasks[t].status := status;
    }

    method MoveTo(pc: Pc)
      requires Valid() && cur in tasks
      modifies this, repr
      ensures Valid() && repr == old(repr)
      ensures View() == SetPc(old(View()), pc)
    {
      hide Lists.Valid, Lists.All, Lists.Ends, Entries, Off, OnNoList, TagsOk, LocksOf;
      OneTag(cur);
      tasks[cur].pc := pc;
    }

    method SetTicks(ticks: nat)
      requires Valid() && cur in tasks
      modifies this, repr
      ensures Valid() && repr == old(repr)
      ensures var v := old(View()); View() == v.(th := v.th[v.cur := v.th[v.cur].(ticks := ticks)])
    {
      hide Lists.Valid, Lists.All, Lists.Ends, Entries, Off, OnNoList, TagsOk, LocksOf;
      OneTag(cur);
      tasks[cur].ticks := ticks;
    }

    method LeaveLock(l: LockId, ghost d: nat)
      requires Valid() && cur in tasks
      modifies this, repr
      ensures Valid() && repr == old(repr)
      ensures View() == Leave(old(View()), l, d)
    {
      hide Lists.Valid, Lists.All, Lists.Ends, Entries, Off, OnNoList, TagsOk, LocksOf;
      OneTag(cur);
      tasks[cur].pc := Run;
      tasks[cur].depth := tasks[cur].depth[l := d];
    }

    method SetSem(l: LockId, k: Sem)
      requires Valid() && l in sems
      modifies this, repr
      ensures Valid() && repr == old(repr)
      ensures var v := old(View());
        View() == v.(locks := v.locks[l := Lock(k.value, v.locks[l].waiters, k.holder, k.repeat)])
    {
      hide Lists.Valid, Lists.All, Lists.Ends, Entries, Off, OnNoList, TagsOk, LocksOf;
      LockAt(l);
      LocksSem(sems, owner, lists.All(), l, k);
      sems := sems[l := k];
    }

    method SetValue(l: LockId, n: nat)
      requires Valid() && l in sems
      modifies this, repr
      ensures Valid() && repr == old(repr)
      ensures var v := old(View()); View() == v.(locks := v.locks[l := v.locks[l].(value := n)])
    {
      hide Valid, View;
      LockAt(l);
      SetSem(l, sems[l].(value := n));
    }

    method SetRepeat(l: LockId, n: nat)
      requires Valid() && l in sems
      modifies this, repr
      ensures Valid() && repr == old(repr)
      ensures var v := old(View()); View() == v.(locks := v.locks[l := v.locks[l].(repeat := n)])
    {
      hide Valid, View;
      LockAt(l);
      SetSem(l, sems[l].(repeat := n));
    }

    method SetHolder(l: LockId, holder: Option<Tid>)
      requires Valid() && l in sems
      modifies this, repr
      ensures Valid() && repr == old(repr)
      ensures var v := old(View()); View() == v.(locks := v.locks[l := v.locks[l].(holder := holder)])
    {
      hide Valid, View;
      LockAt(l);
      SetSem(l, sems[l].(holder := holder));
    }

    method SetCur(t: Tid)
      requires Valid()
      modifies this, repr
      ensures Valid() && repr == old(repr)
      ensures View() == old(View()).(cur := t)
    {
      hide Lists.Valid, Lists.All, Lists.Ends, Entries, Off, OnNoList, TagsOk, LocksOf;
      cur := t;
    }

    /** panic_spin */
    method Panic()
      requires Valid()
      modifies this, repr
      ensures Valid() && repr == old(repr)
      ensures View() == Halt(old(View()))
    {
      hide Lists.Valid, Lists.All, Lists.Ends, Entries, Off, OnNoList, TagsOk, LocksOf;
      halted := true;
    }

    // -------------------------------------------------------------- thread.c

    /** The tag may be on no other list; callers take it off the waiters first. */
    method ThreadUnblock(t: Tid)
      requires Valid() && t in View().th && NotWaiting(View(), t)
      modifies this, repr
      ensures Valid() && repr == old(repr)
      ensures View() == Threads.ThreadUnblock(old(View()), t)
      ensures Inv(old(View())) && old(tasks[t].pc).Suspended? && IsBlocked(old(tasks[t].status)) ==> Inv(View())
    {
      hide Valid, View, Inv;
      Fields();
      if Inv(View()) && tasks[t].pc.Suspended? && IsBlocked(tasks[t].status) {
        LockRuns.WakeInv(View(), t);
      }
      if !IsBlocked(tasks[t].status) {
        Panic();
        return;
      }
      var found := FindReady(t);
      if found {
        Panic();
        return;
      }
      PushReady(t);
      Fields();
      SetStatus(t, Ready);
    }

    method Schedule()
      requires Valid() && Closed(View()) && !halted
      requires tasks[cur].status == Running ==> NotWaiting(View(), cur)
      requires NotWaiting(View(), idle)
      modifies this, repr
      ensures Valid() && repr == old(repr)
      ensures View() == Threads.Schedule(old(View()))
      ensures old(SchedBase(View()) && LocksInv(View())) ==> Inv(View())
    {
      hide Valid, View, Threads.Dispatch, Inv;
      Fields();
      if SchedBase(View()) && LocksInv(View()) {
        LockRuns.ScheduleInv(View());
      }
      ghost var s := View();
      if tasks[cur].status == Running {
        var found := FindReady(cur);
        if found {
          Panic();
          return;
        }
        AppendReady(cur);
        Fields();
        SetTicks(tasks[cur].priority);
        Fields();
        SetStatus(cur, Ready);
        RequeueRuns(s);
      }
      assert View() == Requeue(s);
      RequeueClosed(s);
      Fields();
      Dispatch();
    }

    /** The second half of schedule. */
    method Dispatch()
      requires Valid() && Closed(View()) && NotWaiting(View(), idle)
      modifies this, repr
      ensures Valid() && repr == old(repr)
      ensures View() == Threads.Dispatch(old(View()))
    {
      hide Valid, View, Threads.Dispatch, Threads.ThreadUnblock, FirstRuns;
      Fields();
      ghost var s := View();
      DispatchIs(s);
      var empty := NobodyReady();
      if empty {
        ThreadUnblock(idle);
      }
      assert View() == Stocked(s);
      empty := NobodyReady();
      Fields();
      if halted || empty {
        Panic();
        return;
      }
      RunFirst();
    }

    /** The end of schedule: the first ready thread is taken off the list and runs. */
    method RunFirst()
      requires Valid() && View().ready != []
      modifies this, repr
      ensures Valid() && repr == old(repr)
      ensures old(View()).ready[0] in old(View()).th && View() == FirstRuns(old(View()))
    {
      hide Valid, View;
      ghost var s := View();
      var next := PopReady();
      Fields();
      assert next in s.th;
      SetStatus(next, Running);
      SetCur(next);
    }

    method ThreadBlock(stat: Status)
      requires Valid() && Closed(View()) && !halted && NotWaiting(View(), idle)
      modifies this, repr
      ensures Valid() && repr == old(repr)
      ensures View() == Threads.ThreadBlock(old(View()), stat)
      ensures Inv(old(View())) && old(tasks[cur].pc).Suspended? && IsBlocked(stat) ==> Inv(View())
    {
      hide Valid, View, Threads.Schedule, Inv;
      Fields();
      if Inv(View()) && tasks[cur].pc.Suspended? && IsBlocked(stat) {
        LockRuns.BlockKeeps(View(), stat);
      }
      if !IsBlocked(stat) {
        Panic();
        return;
      }
      BlockIs(View(), stat);
      SetStatus(cur, stat);
      Fields();
      Schedule();
    }

    method ThreadYield()
      requires Valid() && Closed(View()) && !halted && NotWaiting(View(), cur) && NotWaiting(View(), idle)
      modifies this, repr
      ensures Valid() && repr == old(repr)
      ensures View() == Threads.ThreadYield(old(View()))
      ensures Inv(old(View())) && old(tasks[cur].pc).Suspended? ==> Inv(View())
    {
      hide Valid, View, Threads.Schedule, Inv;
      Fields();
      if Inv(View()) && tasks[cur].pc.Suspended? {
        LockRuns.YieldKeeps(View());
      }
      var found := FindReady(cur);
      if found {
        Panic();
        return;
      }
      YieldIs(View());
      AppendReady(cur);
      Fields();
      SetStatus(cur, Ready);
      Fields();
      Schedule();
    }

    /** init_thread and thread_start on a new page: the new control block brings its own general_tag. */
    method ThreadStart(t: Tid, priority: nat)
      requires Valid() && t !in View().th
      modifies this, repr
      ensures Valid() && fresh(repr - old(repr)) && View() == Threads.ThreadStart(old(View()), t, priority)
      ensures Inv(old(View())) ==> Inv(View())
    {
      hide Valid, View, Inv;
      if Inv(View()) {
        LockRuns.StartInv(View(), t, priority);
      }
      NewTask(t, priority);
      Fields();
      AppendReady(t);
    }

    method NewTask(t: Tid, priority: nat)
      requires Valid() && t !in View().th
      modifies this, repr
      ensures Valid() && fresh(repr - old(repr)) && OnNoList(View(), t)
      ensures View() == old(View()).(th := old(View()).th[t := Thread(Ready, Run, priority, priority, map[])])
    {
      hide Lists.Valid, Lists.Ends, Lists.All, Entries, Off, OnNoList, TagsOk, LocksOf, Tags, Blocks;
      Fields();
      var tag := NewTag();
      var task := new Task(tag, Ready, priority);
      NewOwner(tag, t);
      AddTask(t, task);
      TagOff(t);
    }

    /** thread_all_list gets a control block. */
    method AddTask(t: Tid, task: Task)
      requires Valid() && t !in tasks && task !in repr && task.tag in lists.cells
      requires TagsOk(Tags()[t := task.tag], owner[task.tag := t], lists.All(), lists.Ends())
      modifies this
      ensures Valid() && repr == old(repr) + {task} && lists.All() == old(lists.All())
      ensures tasks == old(tasks)[t := task] && owner == old(owner)[task.tag := t]
      ensures sems == old(sems) && cur == old(cur) && idle == old(idle) && halted == old(halted)
      ensures Blocks() == old(Blocks())[t := task.Block()]
    {
      hide Lists.Valid, Lists.Ends, Lists.All, TagsOk, Entries, LocksOf, BlocksOf;
      BlocksMore(tasks, t, task);
      tasks := tasks[t := task];
      owner := owner[task.tag := t];
      repr := repr + {task};
      assert Tags() == old(Tags())[t := task.tag];
    }

    /** The general_tag of a new control block. */
    method NewTag() returns (tag: Elem)
      requires Valid()
      modifies this, repr
      ensures Valid() && fresh(tag) && repr == old(repr) + {tag} && tag in lists.cells && tag !in owner
      ensures tasks == old(tasks) && View() == old(View())
      ensures Off(lists.All(), lists.Ends(), tag)
    {
      hide Lists.Valid, Lists.Ends, Lists.All, Entries, Off, TagsOk, LocksOf;
      tag := lists.AddTag();
      repr := repr + {tag};
      assert Blocks() == old(Blocks()) && Tags() == old(Tags());
    }

    lemma NewOwner(tag: Elem, t: Tid)
      requires Valid() && t !in tasks && Off(lists.All(), lists.Ends(), tag) && tag !in owner
      ensures TagsOk(Tags()[t := tag], owner[tag := t], lists.All(), lists.Ends())
      ensures LocksOf(sems, owner[tag := t], lists.All()) == LocksOf(sems, owner, lists.All())
      ensures Entries(owner[tag := t], lists.All()[ReadyList]) == Entries(owner, lists.All()[ReadyList])
    {
      hide Lists.Valid, Lists.Ends, Lists.All, Entries, TagsOk, LocksOf;
      TagsMore(Tags(), owner, lists.All(), lists.Ends(), t, tag);
      LocksMore(sems, owner, lists.All(), tag, t);
      EntriesMore(owner, lists.All()[ReadyList], tag, t);
    }

    // -------------------------------------------------------------- device/timer.c and sync.c

    method TimerInterrupt()
      requires Valid() && Closed(View()) && !halted && NotWaiting(View(), idle)
      requires tasks[cur].status == Running ==> NotWaiting(View(), cur)
      modifies this, repr
      ensures Valid() && repr == old(repr)
      ensures View() == TimerTick(old(View()))
      ensures Inv(old(View())) ==> Inv(View())
      ensures var v := old(View());
        var x := v.th[v.cur];
        if x.ticks > 0 then View() == v.(th := v.th[v.cur := x.(ticks := x.ticks - 1)])
        else Inv(v) && InterruptsOn(v) ==> EventLaws.TurnPasses(v, View(), true) && View().th[v.cur].ticks == x.priority
    {
      hide Valid, View, Threads.Schedule, Inv;
      Fields();
      if Inv(View()) {
        LockRuns.TimerInv(View());
        if InterruptsOn(View()) && tasks[cur].ticks == 0 {
          EventLaws.TickEndsSlice(View());
        }
      }
      if tasks[cur].ticks == 0 {
        Schedule();
      } else {
        SetTicks(tasks[cur].ticks - 1);
      }
    }

    /** One turn of the loop of sema_down. */
    method SemaDown(l: LockId)
      requires Valid() && Closed(View()) && !halted && l in View().locks && cur != idle && NotWaiting(View(), idle)
      requires cur !in View().ready && forall m :: m in View().locks && m != l ==> cur !in View().locks[m].waiters
      modifies this, repr
      ensures Valid() && repr == old(repr)
      ensures View() == Threads.SemaDown(old(View()), l)
      ensures Inv(old(View())) && old(tasks[cur].pc in {Down(l), Loop(l)}) ==> Inv(View())
    {
      hide Valid, View, Threads.ThreadBlock, Inv;
      Fields();
      if Inv(View()) && tasks[cur].pc in {Down(l), Loop(l)} {
        LockRuns.SemaDownInv(View(), l);
      }
      LockAt(l);
      var k := sems[l];
      if k.value == 0 {
        var found := FindWaiter(l, cur);
        if found {
          Panic();
          return;
        }
        DownIs(View(), l);
        AppendWaiter(l, cur);
        Fields();
        MoveTo(Loop(l));
        Fields();
        ThreadBlock(Blocked);
      } else if k.value != 1 {
        Panic();
      } else {
        SetValue(l, 0);
        Fields();
        MoveTo(Taken(l));
      }
    }

    method SemaUp(l: LockId)
      requires Valid() && Closed(View()) && l in View().locks
      modifies this, repr
      ensures Valid() && repr == old(repr)
      ensures View() == Threads.SemaUp(old(View()), l)
      ensures !old(halted) && !halted ==> FirstWoken(old(View()), View(), l)
    {
      hide Valid, View, Threads.SemaUp, FirstWoken, Unblocked;
      Fields();
      LockAt(l);
      ghost var s := View();
      if !s.halted && !Threads.SemaUp(s, l).halted {
        UpMeans(s, l);
      }
      var k := sems[l];
      if k.value != 0 {
        UpAlone(s, l);
        Panic();
        Fields();
        return;
      }
      WakeWaiter(l);
      Fields();
      SetValue(l, k.value + 1);
      Fields();
    }

    /** The branch of sema_up for a list that is not empty. */
    method WakeWaiter(l: LockId)
      requires Valid() && Closed(View()) && l in View().locks && View().locks[l].value == 0
      modifies this, repr
      ensures Valid() && repr == old(repr) && l in View().locks
      ensures var v := View(); Threads.SemaUp(old(View()), l) == v.(locks := v.locks[l := v.locks[l].(value := 1)])
    {
      hide Valid, View, Threads.SemaUp, Unblocked;
      Fields();
      var empty := NobodyWaits(l);
      if !empty {
        UpIs(View(), l);
        WakeFirst(l);
      } else {
        UpAlone(View(), l);
      }
    }

    /** thread_unblock of the first waiter, as sema_up calls it. */
    method WakeFirst(l: LockId)
      requires Valid() && Closed(View()) && l in View().locks && View().locks[l].waiters != []
      modifies this, repr
      ensures Valid() && repr == old(repr)
      ensures View() == Unblocked(old(View()), l)
    {
      hide Valid, View, Threads.ThreadUnblock, WithoutFirst;
      Fields();
      var t := PopWaiter(l);
      Fields();
      ThreadUnblock(t);
    }

    /** lock_acquire, thread/sync.c:82 and :90 */
    method AtEnter(l: LockId)
      requires Valid() && Closed(View()) && l in View().locks
      modifies this, repr
      ensures Valid() && repr == old(repr)
      ensures View() == Threads.EnterLock(old(View()), l)
    {
      hide Valid, View, Leave, Depth, OneLess;
      Fields();
      LockAt(l);
      var k := sems[l];
      ghost var d := Depth(View().th[cur], l) + 1;
      if k.holder != Some(cur) {
        MoveTo(Down(l));
      } else {
        SetRepeat(l, k.repeat + 1);
        Fields();
        LeaveLock(l, d);
      }
    }

    /** lock_acquire, thread/sync.c:85 */
    method AtTaken(l: LockId)
      requires Valid() && Closed(View()) && l in View().locks
      modifies this, repr
      ensures Valid() && repr == old(repr)
      ensures View() == Threads.SetOwner(old(View()), l)
    {
      hide Valid, View, Leave;
      Fields();
      LockAt(l);
      SetHolder(l, Some(cur));
      Fields();
      MoveTo(Owned(l));
    }

    /** lock_acquire, thread/sync.c:86-87 */
    method AtOwned(l: LockId)
      requires Valid() && Closed(View()) && l in View().locks
      modifies this, repr
      ensures Valid() && repr == old(repr)
      ensures View() == Threads.FirstDepth(old(View()), l)
    {
      hide Valid, View, Leave, Depth, OneLess;
      Fields();
      LockAt(l);
      var k := sems[l];
      ghost var d := Depth(View().th[cur], l) + 1;
      if k.repeat != 0 {
        Panic();
      } else {
        SetRepeat(l, 1);
        Fields();
        LeaveLock(l, d);
      }
    }

    /** lock_release, thread/sync.c:100-108 */
    method AtRelease(l: LockId)
      requires Valid() && Closed(View()) && l in View().locks
      modifies this, repr
      ensures Valid() && repr == old(repr)
      ensures View() == Threads.LeaveLevel(old(View()), l)
    {
      hide Valid, View, Leave, Depth, OneLess;
      Fields();
      LockAt(l);
      var k := sems[l];
      ghost var d := OneLess(Depth(View().th[cur], l));
      if k.holder != Some(cur) {
        Panic();
      } else if k.repeat > 1 {
        SetRepeat(l, k.repeat - 1);
        Fields();
        LeaveLock(l, d);
      } else if k.repeat != 1 {
        Panic();
      } else {
        MoveTo(Drop(l));
      }
    }

    /** lock_release, thread/sync.c:110 */
    method AtDrop(l: LockId)
      requires Valid() && Closed(View()) && l in View().locks
      modifies this, repr
      ensures Valid() && repr == old(repr)
      ensures View() == Threads.DropOwner(old(View()), l)
    {
      hide Valid, View, Leave;
      Fields();
      LockAt(l);
      SetHolder(l, None);
      Fields();
      MoveTo(Clear(l));
    }

    /** lock_release, thread/sync.c:111 */
    method AtClear(l: LockId)
      requires Valid() && Closed(View()) && l in View().locks
      modifies this, repr
      ensures Valid() && repr == old(repr)
      ensures View() == Threads.ClearDepth(old(View()), l)
    {
      hide Valid, View, Leave;
      Fields();
      LockAt(l);
      SetRepeat(l, 0);
      Fields();
      MoveTo(Up(l));
    }

    /** lock_release, thread/sync.c:112 */
    method AtUp(l: LockId)
      requires Valid() && Closed(View()) && l in View().locks
      modifies this, repr
      ensures Valid() && repr == old(repr)
      ensures View() == Threads.LetGo(old(View()), l)
    {
      hide Valid, View, Depth, OneLess, Threads.SemaUp;
      Fields();
      LockAt(l);
      LeaveLock(l, OneLess(Depth(tasks[cur].Block(), l)));
      Fields();
      SemaUp(l);
    }

    // -------------------------------------------------------------- the machine's steps

    /** The running thread's next section of lock code. */
    method Advance()
      requires Good() && tasks[cur].pc != Run
      modifies this, repr
      ensures Valid() && repr == old(repr)
      ensures PcNames(old(View())) && View() == Threads.Advance(old(View())) && Good()
    {
      hide Valid, View, Inv;
      RunningFacts(View());
      Fields();
      PlaceFacts(View());
      LockRuns.AdvanceInv(View());
      match tasks[cur].pc {
        case Run => assert false;
        case Suspended => MoveTo(Run);
        case Enter(l) => AtEnter(l);
        case Down(l) => SemaDown(l);
        case Loop(l) => SemaDown(l);
        case Taken(l) => AtTaken(l);
        case Owned(l) => AtOwned(l);
        case Release(l) => AtRelease(l);
        case Drop(l) => AtDrop(l);
        case Clear(l) => AtClear(l);
        case Up(l) => AtUp(l);
      }
    }

    /** Any event of the machine happens on the heap as it does in the machine, and what holds of the machine's
        states is kept: lists that are lists, a tag on at most one of them, every lock's invariant, no panic. */
    method Handle(e: Event)
      requires Good() && Enabled(View(), e)
      modifies this, repr
      ensures Good() && fresh(repr - old(repr)) && View() == Apply(old(View()), e) && !halted
    {
      hide Valid, View, Inv;
      RunningFacts(View());
      LockRuns.ApplyInv(View(), e);
      Fields();
      match e {
        case Timer => TimerInterrupt();
        case Step => Advance();
        case Wake(t) =>
          SuspendedFacts(View(), t);
          ThreadUnblock(t);
        case Acquire(l) => MoveTo(Enter(l));
        case Free(l) => MoveTo(Release(l));
        case Sleep(stat) =>
          MoveTo(Suspended);
          Fields();
          ThreadBlock(stat);
        case Yield =>
          MoveTo(Suspended);
          Fields();
          ThreadYield();
        case Start(t, priority) => ThreadStart(t, priority);
      }
      Fields();
    }
  }
}
