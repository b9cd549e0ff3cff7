/**
 Theorems about every run of the kernel: the invariant, the pager forest, the
 handoff, the message buffers, the notification bits and the orphaned senders.
 */
module KernelRuns {
  import opened Common
  import opened KernelSpec
  import opened KernelInvariant

  // ---- the pager forest -------------------------------------------------------------

  /** The pager of each task in use. */
  ghost function Pagers(s: State): map<Tid, Tid> {
    map t | 1 <= t < |s.tasks| && InUse(s, t) :: s.tasks[t].pager
  }

  ghost function Children(f: map<Tid, Tid>, t: Tid): set<Tid> {
    set u | u in f && f[u] == t
  }

  /** The n-th task on the way from t to the root. */
  ghost function Ancestor(f: map<Tid, Tid>, t: Tid, n: nat): Tid
    decreases n
  {
    if n == 0 || t !in f then t else Ancestor(f, f[t], n - 1)
  }

  ghost predicate ReachesInit(f: map<Tid, Tid>, t: Tid) {
    exists n: nat :: Ancestor(f, t, n) == INIT_TASK
  }

  /** The pager relation is a tree rooted at init: no cycle and no dead pager. */
  ghost predicate IsForest(f: map<Tid, Tid>) {
    && INIT_TASK in f && f[INIT_TASK] == NO_TASK
    && (forall t :: t in f && t != INIT_TASK ==> f[t] in f)
    && (forall t :: t in f ==> ReachesInit(f, t))
  }

  ghost predicate PagersOk(s: State) {
    && IsForest(Pagers(s))
    && (forall t :: InUse(s, t) ==> s.tasks[t].refCount == |Children(Pagers(s), t)|)
  }

  lemma {:induction false} ReachesCarries(f: map<Tid, Tid>, g: map<Tid, Tid>, live: set<Tid>, t: Tid, n: nat)
    requires t in live && Ancestor(f, t, n) == INIT_TASK
    requires forall y :: y in live ==> y in f
    requires forall y :: y in live && y != INIT_TASK ==> f[y] in live && y in g && g[y] == f[y]
    ensures ReachesInit(g, t)
    decreases n
  {
    if t == INIT_TASK {
      assert Ancestor(g, t, 0) == INIT_TASK;
    } else {
      ReachesCarries(f, g, live, f[t], n - 1);
      var k: nat :| Ancestor(g, f[t], k) == INIT_TASK;
      assert Ancestor(g, t, k + 1) == INIT_TASK;
    }
  }

  lemma {:induction false} SelfPager(f: map<Tid, Tid>, t: Tid, n: nat)
    requires t in f && f[t] == t
    ensures Ancestor(f, t, n) == t
  {
    if n > 0 { SelfPager(f, t, n - 1); }
  }

  lemma NoSelfPager(s: State, t: Tid)
    requires PagersOk(s) && InUse(s, t)
    ensures s.tasks[t].pager != t
  {
    var f := Pagers(s);
    assert t in f;
    if f[t] == t {
      var n: nat :| Ancestor(f, t, n) == INIT_TASK;
      SelfPager(f, t, n);
    }
  }

  lemma LeafAdded(f: map<Tid, Tid>, t: Tid, p: Tid)
    requires IsForest(f) && t !in f && p in f
    ensures IsForest(f[t := p])
  {
    var g := f[t := p];
    forall x | x in g ensures ReachesInit(g, x) {
      var y := if x == t then p else x;
      assert ReachesInit(f, y);
      var n: nat :| Ancestor(f, y, n) == INIT_TASK;
      ReachesCarries(f, g, f.Keys, y, n);
      if x == t {
        var k: nat :| Ancestor(g, p, k) == INIT_TASK;
        assert Ancestor(g, t, k + 1) == INIT_TASK;
      }
    }
  }

  lemma LeafRemoved(f: map<Tid, Tid>, t: Tid)
    requires IsForest(f) && t in f && t != INIT_TASK && Children(f, t) == {}
    ensures IsForest(f - {t})
  {
    var g := f - {t};
    assert forall x :: x in f && f[x] == t ==> x in Children(f, t);
    forall x | x in g ensures ReachesInit(g, x) {
      assert ReachesInit(f, x);
      var n: nat :| Ancestor(f, x, n) == INIT_TASK;
      ReachesCarries(f, g, g.Keys, x, n);
    }
  }

  lemma FamilyKeepsPagers(s: State, r: State)
    requires Shape(s) && Shape(r) && PagersOk(s) && SameFamily(s, r)
    ensures PagersOk(r)
  {
    assert Pagers(r) == Pagers(s);
  }

  lemma ChildrenAdded(f: map<Tid, Tid>, t: Tid, p: Tid, x: Tid)
    requires t !in f && x != t
    ensures |Children(f[t := p], x)| == |Children(f, x)| + if x == p then 1 else 0
  {
    var g := f[t := p];
    assert forall u :: u in g <==> u in f || u == t;
    var more: set<Tid> := if x == p then {t} else {};
    assert Children(g, x) == Children(f, x) + more;
  }

  lemma ChildrenRemoved(f: map<Tid, Tid>, t: Tid, x: Tid)
    requires t in f
    ensures |Children(f - {t}, x)| == if x == f[t] then |Children(f, x)| - 1 else |Children(f, x)|
  {
    if x == f[t] { assert t in Children(f, x); }
    assert Children(f - {t}, x) == Children(f, x) - {t};
  }

  lemma CreatedMap(s: State, r: State, t: Tid, pager: Tid, caps: bool)
    requires Shape(s) && Shape(r) && IsTask(s, t) && s.tasks[t].state.Unused? && InUse(s, pager)
    requires Created(s, r, t, pager, caps)
    ensures Pagers(r) == Pagers(s)[t := pager]
  {
    assert forall x :: 0 <= x < |s.tasks| && x != t ==>
      r.tasks[x].pager == s.tasks[x].pager && r.tasks[x].state == s.tasks[x].state;
  }

  lemma CreatedPagers(s: State, r: State, t: Tid, pager: Tid, caps: bool)
    requires Shape(s) && Shape(r) && PagersOk(s) && IsTask(s, t) && s.tasks[t].state.Unused? && InUse(s, pager)
    requires Created(s, r, t, pager, caps)
    ensures PagersOk(r)
  {
    var f := Pagers(s);
    CreatedMap(s, r, t, pager, caps);
    LeafAdded(f, t, pager);
    forall x | InUse(r, x) ensures r.tasks[x].refCount == |Children(Pagers(r), x)| {
      if x == t {
        assert Children(Pagers(r), x) == {};
      } else {
        ChildrenAdded(f, t, pager, x);
        assert InUse(s, x);
      }
    }
  }

  lemma DestroyedMap(s: State, r: State, t: Tid)
    requires Shape(s) && Shape(r) && |r.tasks| == |s.tasks| && InUse(s, t) && Destroyed(s, r, t)
    ensures Pagers(r) == Pagers(s) - {t}
  {
    assert forall x :: 0 <= x < |s.tasks| && x != t ==>
      r.tasks[x].pager == s.tasks[x].pager && r.tasks[x].state == s.tasks[x].state;
  }

  lemma DestroyedPagers(s: State, r: State, t: Tid)
    requires Shape(s) && Shape(r) && |r.tasks| == |s.tasks| && PagersOk(s) && IsTask(s, t)
    requires DestroyError(s, t) == OK && Destroyed(s, r, t)
    ensures PagersOk(r)
  {
    var f := Pagers(s);
    DestroyedMap(s, r, t);
    assert t in f;
    LeafRemoved(f, t);
    forall x | InUse(r, x) ensures r.tasks[x].refCount == |Children(Pagers(r), x)| { DestroyedCount(s, r, t, x); }
  }

  lemma DestroyedCount(s: State, r: State, t: Tid, x: Tid)
    requires Shape(s) && Shape(r) && |r.tasks| == |s.tasks| && PagersOk(s) && InUse(s, t) && Destroyed(s, r, t)
             && InUse(r, x)
    requires Pagers(r) == Pagers(s) - {t}
    ensures r.tasks[x].refCount == |Children(Pagers(r), x)|
  {
    ChildrenRemoved(Pagers(s), t, x);
    assert x != t && InUse(s, x) && Pagers(s)[t] == s.tasks[t].pager;
  }

  // ---- one step -----------------------------------------------------------------------

  ghost predicate Good(s: State) {
    Inv(s) && PagersOk(s)
  }

  /** The caller of task_destroy() has checked that nobody is about to deliver to the task. */
  ghost predicate Careful(s: State, e: Event)
    requires Shape(s)
  {
    e.SysTaskDestroy? && IsTask(s, e.tid) && DestroyError(s, e.tid) == OK ==> NotAwaited(s, e.tid)
  }

  lemma PagersUsable(s: State)
    requires Good(s) && s.current != IDLE_TASK
    ensures PagerUsable(s)
  {
    var f := Pagers(s);
    assert s.current in f;
  }

  lemma InterruptKeeps(s: State, e: Event)
    requires Good(s) && Enabled(s, e) && (e.Tick? || e.Interrupt? || e.Reschedule? || e.Continue?)
    ensures Inv(Step(s, e)) && SameFamily(s, Step(s, e))
  {
    match e
    case Tick => TimerIrqKeeps(s);
    case Interrupt(irq) => IrqKeeps(s, irq);
    case Reschedule => SwitchKeeps(s);
    case Continue =>
      PagersUsable(s);
      if s.tasks[s.current].kont.InSend? { ContinueSendKeeps(s); } else { ContinueRecvKeeps(s); }
  }

  lemma TimerSetKeeps(s: State, timeout: nat)
    requires Inv(s)
    ensures Inv(TimerSet(s, timeout)) && SameFamily(s, TimerSet(s, timeout))
  {
    SameTasksKeep(s, TimerSet(s, timeout));
  }

  lemma SetIrqOwnerKeeps(s: State, irq: nat, owner: Tid)
    requires Inv(s) && irq < |s.irqOwners| && (owner == NO_TASK || InUse(s, owner))
    ensures Inv(SetIrqOwner(s, irq, owner)) && SameFamily(s, SetIrqOwner(s, irq, owner))
  {
    var r := SetIrqOwner(s, irq, owner);
    forall t | IsTask(r, t) ensures SendersOk(r, t) && TaskOk(r, t) {
      assert SendersOk(s, t) && TaskOk(s, t);
      Untouched(s, r, t);
    }
  }

  lemma SyscallKeeps(s: State, e: Event)
    requires Good(s) && Enabled(s, e) && (e.SysTimerSet? || e.SysIrqAcquire? || e.SysIrqRelease?)
    ensures Inv(Step(s, e)) && SameFamily(s, Step(s, e))
  {
    if e.SysTimerSet? {
      TimerSetKeeps(s, e.timeout);
    } else if e.irq < |s.irqOwners| {
      SetIrqOwnerKeeps(s, e.irq, if e.SysIrqAcquire? then s.current else NO_TASK);
    }
  }

  lemma PolicyKeeps(s: State, t: Tid, priority: int)
    requires Good(s) && Enabled(s, SysTaskSchedule(t, priority))
    ensures Inv(Step(s, SysTaskSchedule(t, priority))) && SameFamily(s, Step(s, SysTaskSchedule(t, priority)))
  {
    if IsTask(s, t) && t != s.current { ScheduleKeeps(s, t, priority); }
  }

  lemma LeavingKeeps(s: State, e: Event)
    requires Good(s) && Enabled(s, e) && (e.SysTaskExit? || e.Fault?)
    ensures Inv(Step(s, e)) && SameFamily(s, Step(s, e))
  {
    PagersUsable(s);
    if e.Fault? { PageFaultKeeps(s); } else { ExitKeeps(s); }
  }

  lemma SysIpcKeeps(s: State, dst: Tid, src: Tid, m: Message, flags: IpcFlags)
    requires Executing(s)
    ensures Inv(SysIpcStep(s, dst, src, m, flags)) && SameFamily(s, SysIpcStep(s, dst, src, m, flags))
  {
    if flags.kernel || src < 0 || src >= |s.tasks| || (flags.send && !InUse(s, dst)) {
    } else {
      IpcKeeps(s, if flags.send then dst else NO_TASK, src, m, flags, ToUser);
    }
  }

  lemma MessageKeeps(s: State, e: Event)
    requires Good(s) && Enabled(s, e) && (e.SysIpc? || e.SysNotify?)
    ensures Inv(Step(s, e)) && SameFamily(s, Step(s, e))
  {
    match e
    case SysIpc(dst, src, m, flags) => SysIpcKeeps(s, dst, src, m, flags);
    case SysNotify(t, bits) => if InUse(s, t) { NotifyKeeps(s, t, bits); }
  }

  /** Every system call and interrupt other than create and destroy. */
  lemma OrdinaryStep(s: State, e: Event)
    requires Good(s) && Enabled(s, e) && !e.SysTaskCreate? && !e.SysTaskDestroy?
    ensures Inv(Step(s, e)) && SameFamily(s, Step(s, e))
  {
    if e.SysIpc? || e.SysNotify? {
      MessageKeeps(s, e);
    } else if e.Tick? || e.Interrupt? || e.Reschedule? || e.Continue? {
      InterruptKeeps(s, e);
    } else if e.SysTaskExit? || e.Fault? {
      LeavingKeeps(s, e);
    } else if e.SysTaskSchedule? {
      PolicyKeeps(s, e.tid, e.priority);
    } else {
      SyscallKeeps(s, e);
    }
  }

  lemma StepKeeps(s: State, e: Event)
    requires Good(s) && Enabled(s, e) && Careful(s, e)
    ensures Good(Step(s, e))
  {
    var c := s.current;
    match e
    case SysTaskCreate(t, pager, flags, archOk) =>
      if s.tasks[c].caps && IsTask(s, t) && t != c && InUse(s, pager) && CreateError(s, t, flags, archOk) == OK {
        CreateKeeps(s, t, pager, flags, archOk);
        CreatedPagers(s, Step(s, e), t, pager, flags.allCaps);
      }
    case SysTaskDestroy(t) =>
      if s.tasks[c].caps && IsTask(s, t) && t != c && DestroyError(s, t) == OK {
        NoSelfPager(s, t);
        DestroyKeepsIff(s, t);
        DestroyIs(s, t);
        DestroyedPagers(s, Step(s, e), t);
      }
    case _ =>
      OrdinaryStep(s, e);
      FamilyKeepsPagers(s, Step(s, e));
  }

  // ---- whole runs -----------------------------------------------------------------------

  /** A run from boot whose calls of task_destroy() are careful. */
  ghost predicate IsRun(run: seq<State>, events: seq<Event>) {
    && |run| == |events| + 1
    && (exists n: nat, irqs: nat :: n >= 1 && run[0] == Boot(n, irqs))
    && (forall i :: 0 <= i < |events| ==>
          Shape(run[i]) && Enabled(run[i], events[i]) && Careful(run[i], events[i])
            && run[i + 1] == Step(run[i], events[i]))
  }

  lemma BootGood(n: nat, irqs: nat)
    requires n >= 1
    ensures Good(Boot(n, irqs))
  {
    var s := Boot(n, irqs);
    assert Pagers(s) == map[INIT_TASK := NO_TASK];
    assert Ancestor(Pagers(s), INIT_TASK, 0) == INIT_TASK;
    assert Children(Pagers(s), INIT_TASK) == {};
  }

  lemma {:induction false} RunIsGood(run: seq<State>, events: seq<Event>, i: nat)
    requires IsRun(run, events) && i < |run|
    ensures Good(run[i])
  {
    if i == 0 {
      var n: nat, irqs: nat :| n >= 1 && run[0] == Boot(n, irqs);
      BootGood(n, irqs);
    } else {
      RunIsGood(run, events, i - 1);
      StepKeeps(run[i - 1], events[i - 1]);
    }
  }

  /**
   Run queues: a task is in the queue of its priority, and there once, exactly while it is runnable and not
   CURRENT.
   */
  lemma RunQueues(run: seq<State>, events: seq<Event>, i: nat, t: Tid, p: nat)
    requires IsRun(run, events) && i < |run| && Shape(run[i]) && IsTask(run[i], t) && p < TASK_PRIORITY_MAX
    ensures t in run[i].runqueues[p]
            <==> run[i].tasks[t].state.Runnable? && t != run[i].current && run[i].tasks[t].priority == p
    ensures NoDup(run[i].runqueues[p])
  {
    RunIsGood(run, events, i);
  }

  /**
   Sender queues: whoever is in one is asleep, accepts nobody, and is in no other; unused tasks are in none and
   have none.
   */
  lemma SenderQueues(run: seq<State>, events: seq<Event>, i: nat, d: Tid, x: Tid)
    requires IsRun(run, events) && i < |run| && Shape(run[i]) && IsTask(run[i], d) && x in run[i].tasks[d].senders
    ensures run[i].tasks[x].state.Blocked? && run[i].tasks[x].src == IPC_DENY && !run[i].tasks[d].state.Unused?
    ensures NoDup(run[i].tasks[d].senders)
    ensures forall e :: IsTask(run[i], e) && x in run[i].tasks[e].senders ==> e == d
  {
    RunIsGood(run, events, i);
    assert SendersOk(run[i], d) && TaskOk(run[i], d) && TaskOk(run[i], x);
    forall e | IsTask(run[i], e) && x in run[i].tasks[e].senders ensures e == d { assert SendersOk(run[i], e); }
  }

  /**
   Pagers: every task but init has a pager that is in use, from which pagers lead to init, and counts its
   children.
   */
  lemma PagerTree(run: seq<State>, events: seq<Event>, i: nat, t: Tid)
    requires IsRun(run, events) && i < |run| && InUse(run[i], t)
    ensures if t == INIT_TASK then run[i].tasks[t].pager == NO_TASK else InUse(run[i], run[i].tasks[t].pager)
    ensures ReachesInit(Pagers(run[i]), t) && run[i].tasks[t].refCount == |Children(Pagers(run[i]), t)|
  {
    RunIsGood(run, events, i);
    assert t in Pagers(run[i]);
  }

  /** The step is not x's own delivery and does not destroy x. */
  predicate Spares(s: State, e: Event, x: Tid) {
    !(e.Continue? && s.current == x) && e != SysTaskDestroy(x)
  }

  /** Destroying another task frees no orphan and closes no window. */
  lemma DestroySpares(s: State, t: Tid, x: Tid)
    requires Good(s) && IsTask(s, t) && t != x
    ensures InWindow(s, x) ==> InWindow(Destroy(s, t), x) && Destroy(s, t).tasks[x].kont == s.tasks[x].kont
    ensures Orphan(s, x) ==> Orphan(Destroy(s, t), x)
  {
    if DestroyError(s, t) == OK {
      NoSelfPager(s, t);
      DestroyIs(s, t);
    }
  }

  lemma CreateSpares(s: State, t: Tid, pager: Tid, flags: TaskFlags, archOk: bool, x: Tid)
    requires Good(s) && IsTask(s, t) && InUse(s, pager)
    ensures var r := Create(s, t, pager, flags, archOk);
            && (InWindow(s, x) ==> InWindow(r, x) && r.tasks[x].kont == s.tasks[x].kont)
            && (Orphan(s, x) ==> Orphan(r, x))
  {
    if CreateError(s, t, flags, archOk) == OK {
      CreateKeeps(s, t, pager, flags, archOk);
    }
  }

  lemma StepSpares(s: State, e: Event, x: Tid)
    requires Good(s) && Enabled(s, e) && Careful(s, e) && e != SysTaskDestroy(x)
    ensures InWindow(s, x) && !(e.Continue? && s.current == x) ==>
              InWindow(Step(s, e), x) && Step(s, e).tasks[x].kont == s.tasks[x].kont
    ensures Orphan(s, x) ==> Orphan(Step(s, e), x)
  {
    if e.SysTaskDestroy? {
      if IsTask(s, e.tid) { DestroySpares(s, e.tid, x); }
    } else if e.SysTaskCreate? {
      if IsTask(s, e.tid) && InUse(s, e.pager) { CreateSpares(s, e.tid, e.pager, e.tflags, e.archOk, x); }
    } else {
      OrdinaryStep(s, e);
    }
  }

  ghost predicate WindowOpen(s: State, r: State, x: Tid) {
    Shape(s) && Shape(r) && (InWindow(s, x) ==> InWindow(r, x) && r.tasks[x].kont == s.tasks[x].kont)
  }

  ghost predicate StillOrphan(s: State, r: State, x: Tid) {
    Shape(s) && Shape(r) && (Orphan(s, x) ==> Orphan(r, x))
  }

  lemma {:induction false} ChainWindow(run: seq<State>, i: nat, j: nat, x: Tid)
    requires i <= j < |run| && Shape(run[i])
    requires forall k :: i <= k < j ==> WindowOpen(run[k], run[k + 1], x)
    ensures WindowOpen(run[i], run[j], x)
    decreases j
  {
    if i < j {
      ChainWindow(run, i, j - 1, x);
      assert WindowOpen(run[j - 1], run[j - 1 + 1], x);
    }
  }

  lemma {:induction false} ChainOrphan(run: seq<State>, i: nat, j: nat, x: Tid)
    requires i <= j < |run| && Shape(run[i])
    requires forall k :: i <= k < j ==> StillOrphan(run[k], run[k + 1], x)
    ensures StillOrphan(run[i], run[j], x)
    decreases j
  {
    if i < j {
      ChainOrphan(run, i, j - 1, x);
      assert StillOrphan(run[j - 1], run[j - 1 + 1], x);
    }
  }

  lemma NextSpares(run: seq<State>, events: seq<Event>, k: nat, x: Tid)
    requires IsRun(run, events) && k < |events| && events[k] != SysTaskDestroy(x)
    ensures StillOrphan(run[k], run[k + 1], x)
    ensures Spares(run[k], events[k], x) ==> WindowOpen(run[k], run[k + 1], x)
  {
    RunIsGood(run, events, k);
    StepSpares(run[k], events[k], x);
  }

  /**
   Handoff safety.  From the moment a receiver has resumed a queued sender x until x runs, and through
   any other events, x stays runnable and its receiver stays asleep and accepts x alone.
   */
  lemma HandoffSafety(run: seq<State>, events: seq<Event>, i: nat, j: nat, x: Tid)
    requires IsRun(run, events) && i <= j < |run| && Shape(run[i]) && InWindow(run[i], x)
    requires forall k :: i <= k < j ==> Spares(run[k], events[k], x)
    ensures Shape(run[j]) && InWindow(run[j], x) && run[j].tasks[x].kont == run[i].tasks[x].kont
    ensures WaitsFor(run[j], run[i].tasks[x].kont.dst, x)
  {
    forall k | i <= k < j ensures WindowOpen(run[k], run[k + 1], x) { NextSpares(run, events, k, x); }
    ChainWindow(run, i, j, x);
    RunIsGood(run, events, j);
    assert TaskOk(run[j], x);
  }

  /** At the point of no return of every resumed send in every run, the receiver is ready. */
  lemma PointOfNoReturn(run: seq<State>, events: seq<Event>, i: nat)
    requires IsRun(run, events) && i < |events| && events[i].Continue? && run[i].tasks[run[i].current].kont.InSend?
    ensures Ready(run[i], run[i].tasks[run[i].current].kont.dst)
  {
    RunIsGood(run, events, i);
    assert TaskOk(run[i], run[i].current);
  }

  /**
   Mailbox safety.  In every state of every run a task has received exactly the messages written into
   its buffer, each once and in order, except for at most one that it is about to pick up; and a receive
   from one task only ever returned messages that this task sent.
   */
  lemma MailboxSafety(run: seq<State>, events: seq<Event>, i: nat, t: Tid)
    requires IsRun(run, events) && i < |run| && InUse(run[i], t) && |run[i].hist| == |run[i].tasks|
    ensures var h := run[i].hist[t];
            && |h.receipts| <= |h.letters| <= |h.receipts| + 1
            && (|h.letters| == |h.receipts| + 1 <==> Unread(run[i].tasks[t]))
            && (forall k :: 0 <= k < |h.receipts| ==> h.receipts[k].m == h.letters[k].m)
            && (forall k :: 0 <= k < |h.receipts| && h.receipts[k].filter != IPC_ANY ==>
               h.letters[k].from == h.receipts[k].filter)
  {
    RunIsGood(run, events, i);
    assert TaskOk(run[i], t);
  }

  /** Notification conservation: no bit is lost, and only an aborted send eats one. */
  lemma NotificationConservation(run: seq<State>, events: seq<Event>, i: nat, t: Tid)
    requires IsRun(run, events) && i < |run| && InUse(run[i], t) && |run[i].hist| == |run[i].tasks|
    ensures var h, task := run[i].hist[t], run[i].tasks[t];
            && h.raised == h.taken + task.notifications + UnreadBits(task) + h.consumed
            && h.consumed <= {NOTIFY_ABORTED}
  {
    RunIsGood(run, events, i);
    assert TaskOk(run[i], t);
  }

  // ---- senders of a destroyed task ------------------------------------------------------

  /** task_destroy() marks the senders that wait for the task, and leaves each of them asleep in no queue. */
  lemma DestroyOrphansSenders(s: State, t: Tid, x: Tid)
    requires Good(s) && IsTask(s, t) && DestroyError(s, t) == OK && x in s.tasks[t].senders
    ensures Orphan(Destroy(s, t), x) && NOTIFY_ABORTED in Destroy(s, t).tasks[x].notifications
  {
    NoSelfPager(s, t);
    DestroyIs(s, t);
    assert SendersOk(s, t);
  }

  /** Nothing but its own destruction ever ends the sleep of an orphaned sender. */
  lemma OrphanSleepsForever(run: seq<State>, events: seq<Event>, i: nat, j: nat, x: Tid)
    requires IsRun(run, events) && i <= j < |run| && Shape(run[i]) && Orphan(run[i], x)
    requires forall k :: i <= k < j ==> events[k] != SysTaskDestroy(x)
    ensures Shape(run[j]) && Orphan(run[j], x)
  {
    forall k | i <= k < j ensures StillOrphan(run[k], run[k + 1], x) { NextSpares(run, events, k, x); }
    ChainOrphan(run, i, j, x);
  }

  // ---- the fast path ------------------------------------------------------------------

  /** The fast path does what the slow path does, except when IPC_NOBLOCK is also given. */
  lemma FastpathRefinesSlowpath(s: State, dst: Tid, src: Tid, m: Message, flags: IpcFlags, after: After)
    requires Shape(s) && IsTask(s, s.current) && src >= 0 && IsTask(s, dst) && dst != s.current
             && Fastpath(s, dst, flags)
    ensures IpcFastpath(s, dst, src, m, after) == IpcSlowpath(s, dst, src, m, flags, after) <==> !flags.noblock
    ensures flags.noblock ==>
            IpcSlowpath(s, dst, src, m, flags, after) == (Deliver(s, dst, m, flags), Done(ErrWouldBlock))
  {
    var d := Deliver(s, dst, m, flags);
    assert d == Deliver(s, dst, m, IpcFlags(true, true, false, false, false));
    assert d.tasks[s.current] == s.tasks[s.current];
  }
}
