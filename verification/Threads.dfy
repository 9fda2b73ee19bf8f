/** The scheduler, semaphores and locks of thread/thread.c, thread/sync.c and device/timer.c as a
    machine whose steps are the sections the kernel runs without interruption. A thread's place
    inside the lock code is its `pc`; a timer tick may fall between any two steps of a thread that
    runs with interrupts on. ASSERT and PANIC stop the machine: they set `halted`. */
module Threads {

  datatype Option<+T> = None | Some(value: T)

  type Tid = nat
  type LockId = nat

  datatype Status = Running | Ready | Blocked | Waiting | Hanging

  /** Where a thread is in the code of a lock, or outside of it. The comment names what runs next. */
  datatype Pc =
    | Run                   // code of its own
    | Suspended             // interrupts off, in thread_block or thread_yield: back to its own code
    | Enter(lock: LockId)   // thread/sync.c:82, the test of the holder
    | Down(lock: LockId)    // thread/sync.c:28, sema_down from the top
    | Loop(lock: LockId)    // interrupts off, thread/sync.c:31, the loop test after a wake-up
    | Taken(lock: LockId)   // thread/sync.c:85, recording the holder
    | Owned(lock: LockId)   // thread/sync.c:86, the first nesting level
    | Release(lock: LockId) // thread/sync.c:100, lock_release from the top
    | Drop(lock: LockId)    // thread/sync.c:110, clearing the holder
    | Clear(lock: LockId)   // thread/sync.c:111, clearing the nesting count
    | Up(lock: LockId)      // thread/sync.c:58, sema_up

  /** `depth` is history: completed acquires minus completed releases, per lock. */
  datatype Thread = Thread(status: Status, pc: Pc, ticks: nat, priority: nat, depth: map<LockId, nat>)

  datatype Lock = Lock(value: nat, waiters: seq<Tid>, holder: Option<Tid>, repeat: nat)

  datatype State = State(th: map<Tid, Thread>, ready: seq<Tid>, locks: map<LockId, Lock>, cur: Tid, idle: Tid,
                         halted: bool)

  function Depth(x: Thread, l: LockId): nat {
    if l in x.depth then x.depth[l] else 0
  }

  function OneLess(d: nat): nat {
    if d == 0 then 0 else d - 1
  }

  predicate IsBlocked(st: Status) {
    st == Blocked || st == Waiting || st == Hanging
  }

  /** Interrupts are off in a thread that has just come back from `schedule`. */
  predicate InterruptsOn(s: State)
    requires s.cur in s.th
  {
    !s.th[s.cur].pc.Loop? && !s.th[s.cur].pc.Suspended?
  }

  /** Every thread named anywhere exists. */
  predicate Closed(s: State) {
    && s.cur in s.th && s.idle in s.th
    && (forall t :: t in s.ready ==> t in s.th)
    && (forall l :: l in s.locks ==> forall t :: t in s.locks[l].waiters ==> t in s.th)
  }

  // ---------------------------------------------------------------- thread.c

  function Halt(s: State): State {
    s.(halted := true)
  }

  function SetPc(s: State, pc: Pc): State
    requires s.cur in s.th
  {
    s.(th := s.th[s.cur := s.th[s.cur].(pc := pc)])
  }

  /** thread_unblock, thread/thread.c:201-218 */
  function ThreadUnblock(s: State, t: Tid): State
    requires t in s.th
  {
    if !IsBlocked(s.th[t].status) || t in s.ready then Halt(s)
    else s.(ready := [t] + s.ready, th := s.th[t := s.th[t].(status := Ready)])
  }

  /** The first half of schedule: the running thread goes to the back of the ready list. */
  function Requeue(s: State): State
    requires s.cur in s.th
  {
    var x := s.th[s.cur];
    if x.status != Running then s
    else if s.cur in s.ready then Halt(s)
    else s.(ready := s.ready + [s.cur], th := s.th[s.cur := x.(ticks := x.priority, status := Ready)])
  }

  /** The second half: the idle thread stands in for an empty list, and the first thread runs. */
  function Dispatch(s: State): State
    requires s.idle in s.th && forall t :: t in s.ready ==> t in s.th
  {
    var s' := if s.ready == [] then ThreadUnblock(s, s.idle) else s;
    if s'.halted || s'.ready == [] then Halt(s')
    else
      var next := s'.ready[0];
      s'.(ready := s'.ready[1..], th := s'.th[next := s'.th[next].(status := Running)], cur := next)
  }

  /** schedule, thread/thread.c:152-183 */
  function Schedule(s: State): State
    requires Closed(s)
  {
    var s' := Requeue(s);
    if s'.halted then s' else Dispatch(s')
  }

  /** thread_block, thread/thread.c:186-198 */
  function ThreadBlock(s: State, stat: Status): State
    requires Closed(s)
  {
    if !IsBlocked(stat) then Halt(s)
    else Schedule(s.(th := s.th[s.cur := s.th[s.cur].(status := stat)]))
  }

  /** thread_yield, thread/thread.c:226-234 */
  function ThreadYield(s: State): State
    requires Closed(s)
  {
    if s.cur in s.ready then Halt(s)
    else Schedule(s.(ready := s.ready + [s.cur], th := s.th[s.cur := s.th[s.cur].(status := Ready)]))
  }

  /** thread_start, thread/thread.c:115-134, for a control block that is new */
  function ThreadStart(s: State, t: Tid, priority: nat): State
    requires t !in s.th
  {
    if t in s.ready then Halt(s)
    else s.(ready := s.ready + [t], th := s.th[t := Thread(Ready, Run, priority, priority, map[])])
  }

  /** intr_timer_handler, device/timer.c:49-62 */
  function TimerTick(s: State): State
    requires Closed(s)
  {
    var x := s.th[s.cur];
    if x.ticks == 0 then Schedule(s) else s.(th := s.th[s.cur := x.(ticks := x.ticks - 1)])
  }

  // ---------------------------------------------------------------- sync.c

  /** One turn of sema_down's loop, thread/sync.c:31-46; it ends in a context switch or past the loop. */
  function SemaDown(s: State, l: LockId): State
    requires Closed(s) && l in s.locks
  {
    var k := s.locks[l];
    if k.value == 0 then
      if s.cur in k.waiters then Halt(s)
      else ThreadBlock(SetPc(s.(locks := s.locks[l := k.(waiters := k.waiters + [s.cur])]), Loop(l)), Blocked)
    else if k.value != 1 then Halt(s)
    else SetPc(s.(locks := s.locks[l := k.(value := 0)]), Taken(l))
  }

  /** sema_up, thread/sync.c:55-75 */
  function SemaUp(s: State, l: LockId): State
    requires Closed(s) && l in s.locks
  {
    var k := s.locks[l];
    if k.value != 0 then Halt(s)
    else if k.waiters == [] then s.(locks := s.locks[l := k.(value := 1)])
    else ThreadUnblock(s.(locks := s.locks[l := k.(value := 1, waiters := k.waiters[1..])]), k.waiters[0])
  }

  /** The running thread leaves the lock code at nesting depth `d`. */
  function Leave(s: State, l: LockId, d: nat): State
    requires s.cur in s.th
  {
    var x := s.th[s.cur];
    s.(th := s.th[s.cur := x.(pc := Run, depth := x.depth[l := d])])
  }

  /** lock_acquire up to sema_down, thread/sync.c:82 and 91 */
  function EnterLock(s: State, l: LockId): State
    requires Closed(s) && l in s.locks
  {
    var k := s.locks[l];
    if k.holder != Some(s.cur) then SetPc(s, Down(l))
    else Leave(s.(locks := s.locks[l := k.(repeat := k.repeat + 1)]), l, Depth(s.th[s.cur], l) + 1)
  }

  /** thread/sync.c:85 */
  function SetOwner(s: State, l: LockId): State
    requires Closed(s) && l in s.locks
  {
    SetPc(s.(locks := s.locks[l := s.locks[l].(holder := Some(s.cur))]), Owned(l))
  }

  /** thread/sync.c:86-87 */
  function FirstDepth(s: State, l: LockId): State
    requires Closed(s) && l in s.locks
  {
    var k := s.locks[l];
    if k.repeat != 0 then Halt(s)
    else Leave(s.(locks := s.locks[l := k.(repeat := 1)]), l, Depth(s.th[s.cur], l) + 1)
  }

  /** lock_release up to the holder, thread/sync.c:100-107 */
  function LeaveLevel(s: State, l: LockId): State
    requires Closed(s) && l in s.locks
  {
    var k := s.locks[l];
    if k.holder != Some(s.cur) then Halt(s)
    else if k.repeat > 1 then
      Leave(s.(locks := s.locks[l := k.(repeat := k.repeat - 1)]), l, OneLess(Depth(s.th[s.cur], l)))
    else if k.repeat != 1 then Halt(s)
    else SetPc(s, Drop(l))
  }

  /** thread/sync.c:110 */
  function DropOwner(s: State, l: LockId): State
    requires Closed(s) && l in s.locks
  {
    SetPc(s.(locks := s.locks[l := s.locks[l].(holder := None)]), Clear(l))
  }

  /** thread/sync.c:111 */
  function ClearDepth(s: State, l: LockId): State
    requires Closed(s) && l in s.locks
  {
    SetPc(s.(locks := s.locks[l := s.locks[l].(repeat := 0)]), Up(l))
  }

  /** thread/sync.c:112 */
  function LetGo(s: State, l: LockId): State
    requires Closed(s) && l in s.locks
  {
    SemaUp(Leave(s, l, OneLess(Depth(s.th[s.cur], l))), l)
  }

  /** The next section of the running thread, by its place in the lock code. */
  function Advance(s: State): State
    requires Closed(s) && PcNames(s)
  {
    match s.th[s.cur].pc
    case Run => s
    case Suspended => SetPc(s, Run)
    case Enter(l) => EnterLock(s, l)
    case Down(l) => SemaDown(s, l)
    case Loop(l) => SemaDown(s, l)
    case Taken(l) => SetOwner(s, l)
    case Owned(l) => FirstDepth(s, l)
    case Release(l) => LeaveLevel(s, l)
    case Drop(l) => DropOwner(s, l)
    case Clear(l) => ClearDepth(s, l)
    case Up(l) => LetGo(s, l)
  }

  predicate PcNames(s: State)
    requires s.cur in s.th
  {
    var pc := s.th[s.cur].pc;
    pc.Run? || pc.Suspended? || pc.lock in s.locks
  }

  // ---------------------------------------------------------------- the machine

  datatype Event =
    | Timer                            // a timer interrupt
    | Step                             // the running thread's next section of lock code
    | Wake(t: Tid)                     // thread_unblock of a thread that blocked itself
    | Acquire(l: LockId)               // the running thread calls lock_acquire
    | Free(l: LockId)                  // ... lock_release
    | Sleep(stat: Status)              // ... thread_block
    | Yield                            // ... thread_yield
    | Start(t: Tid, priority: nat)     // ... thread_start

  /** What the hardware and the callers allow: interrupts only where they are on, calls only from a
      thread's own code, a release only by a thread that holds the lock, and the idle thread only
      ever blocks itself. */
  predicate Enabled(s: State, e: Event)
    requires Closed(s)
  {
    var x := s.th[s.cur];
    match e
    case Timer => InterruptsOn(s)
    case Step => x.pc != Run && PcNames(s)
    case Wake(t) => InterruptsOn(s) && t in s.th && t != s.idle && s.th[t].pc.Suspended? && IsBlocked(s.th[t].status)
    case Acquire(l) => x.pc == Run && s.cur != s.idle && l in s.locks
    case Free(l) => x.pc == Run && s.cur != s.idle && l in s.locks && Depth(x, l) > 0
    case Sleep(stat) => x.pc == Run && IsBlocked(stat)
    case Yield => x.pc == Run && s.cur != s.idle
    case Start(t, _) => x.pc == Run && s.cur != s.idle && t !in s.th
  }

  function Apply(s: State, e: Event): State
    requires Closed(s) && Enabled(s, e)
  {
    match e
    case Timer => TimerTick(s)
    case Step => Advance(s)
    case Wake(t) => ThreadUnblock(s, t)
    case Acquire(l) => SetPc(s, Enter(l))
    case Free(l) => SetPc(s, Release(l))
    case Sleep(stat) => ThreadBlock(SetPc(s, Suspended), stat)
    case Yield => ThreadYield(SetPc(s, Suspended))
    case Start(t, priority) => ThreadStart(s, t, priority)
  }
}
