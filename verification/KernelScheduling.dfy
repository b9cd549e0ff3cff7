/**
 The scheduler: task_switch() always picks a task of the best priority, and a
 queued task waits for no more switches than there are tasks before it in its
 queue, as long as no task of a better priority becomes runnable.
 */
module KernelScheduling {
  import opened KernelSpec
  import opened KernelInvariant
  import opened KernelRuns

  /** The best priority wins; the idle task runs only if nothing is runnable. */
  lemma SwitchPicksBest(s: State)
    requires Core(s)
    ensures var r := Switch(s);
            && (r.current == IDLE_TASK <==> forall t :: IsTask(s, t) ==> !s.tasks[t].state.Runnable?)
            && (forall t :: IsTask(s, t) && s.tasks[t].state.Runnable? && r.current != IDLE_TASK ==>
                  s.tasks[r.current].priority <= s.tasks[t].priority)
  {
    QueuesRequeue(s);
    var q := Requeue(s);
    var k := Best(q.runqueues, 0);
    forall t | IsTask(s, t) && s.tasks[t].state.Runnable? ensures k <= s.tasks[t].priority {
      assert t in q.runqueues[s.tasks[t].priority];
    }
    if k < |q.runqueues| {
      assert q.runqueues[k][0] in q.runqueues[k];
    }
  }

  function IndexOf(q: seq<Tid>, t: Tid): (i: nat)
    ensures i <= |q| && (i < |q| <==> t in q) && (i < |q| ==> q[i] == t)
    ensures forall j :: 0 <= j < i ==> q[j] != t
  {
    if q == [] || q[0] == t then 0 else 1 + IndexOf(q[1..], t)
  }

  lemma {:induction false} IndexAppend(q: seq<Tid>, x: Tid, t: Tid)
    requires t in q
    ensures IndexOf(q + [x], t) == IndexOf(q, t)
  {
    if q[0] != t {
      assert (q + [x])[1..] == q[1..] + [x];
      IndexAppend(q[1..], x, t);
    } else {
      assert (q + [x])[0] == t;
    }
  }

  lemma {:induction false} IndexWithout(q: seq<Tid>, x: Tid, t: Tid)
    requires t in q && x != t
    ensures t in Without(q, x) && IndexOf(Without(q, x), t) <= IndexOf(q, t)
  {
    if q[0] != t {
      IndexWithout(q[1..], x, t);
    }
  }

  ghost predicate Queued(s: State, t: Tid)
    requires Shape(s)
  {
    IsTask(s, t) && t in s.runqueues[s.tasks[t].priority]
  }

  /** How many tasks of its own priority are before t. */
  function Before(s: State, t: Tid): nat
    requires Shape(s) && IsTask(s, t)
  {
    IndexOf(s.runqueues[s.tasks[t].priority], t)
  }

  /** The queues only grow at their ends, and nothing is switched. */
  ghost predicate Grows(s: State, r: State) {
    && Shape(s) && Shape(r) && |r.tasks| == |s.tasks| && r.switches == s.switches
    && (forall t :: 0 <= t < |s.tasks| ==> r.tasks[t].priority == s.tasks[t].priority)
    && (forall p :: 0 <= p < TASK_PRIORITY_MAX ==> s.runqueues[p] <= r.runqueues[p])
  }

  ghost predicate NoneBetter(s: State, p: int) {
    forall x :: IsTask(s, x) && s.tasks[x].state.Runnable? ==> s.tasks[x].priority >= p
  }

  /**
   Unless a task of a better priority is runnable in r, the queued task t is CURRENT in r, or still
   queued, and every switch has taken away a task before it.
   */
  ghost predicate Advances(s: State, r: State, t: Tid) {
    && Shape(s) && Shape(r) && |r.tasks| == |s.tasks|
    && (Queued(s, t) && NoneBetter(r, s.tasks[t].priority) ==>
          || r.current == t
          || (Queued(r, t) && r.tasks[t].priority == s.tasks[t].priority
             && Before(r, t) + r.switches - s.switches <= Before(s, t)))
  }

  lemma {:induction false} IndexPrefix(q: seq<Tid>, q': seq<Tid>, t: Tid)
    requires t in q && q <= q'
    ensures t in q' && IndexOf(q', t) == IndexOf(q, t)
  {
    if q[0] != t { IndexPrefix(q[1..], q'[1..], t); }
  }

  lemma GrowsAdvances(s: State, r: State, t: Tid)
    requires Grows(s, r)
    ensures Advances(s, r, t)
  {
    if Queued(s, t) { IndexPrefix(s.runqueues[s.tasks[t].priority], r.runqueues[s.tasks[t].priority], t); }
  }

  lemma GrowsThenAdvances(s: State, m: State, r: State, t: Tid)
    requires Grows(s, m) && Advances(m, r, t)
    ensures Advances(s, r, t)
  {
    if Queued(s, t) { IndexPrefix(s.runqueues[s.tasks[t].priority], m.runqueues[s.tasks[t].priority], t); }
  }

  lemma SwitchAdvances(s: State, t: Tid)
    requires Core(s)
    ensures Advances(s, Switch(s), t)
  {
    var r := Switch(s);
    if Queued(s, t) && NoneBetter(r, s.tasks[t].priority) {
      var p := s.tasks[t].priority;
      var q := Requeue(s);
      QueuesRequeue(s);
      IndexPrefix(s.runqueues[p], q.runqueues[p], t);
      var k := Best(q.runqueues, 0);
      assert k <= p;
      var n := q.runqueues[k][0];
      assert n in q.runqueues[k] && IsTask(r, n) && r.tasks[n].state.Runnable? && r.tasks[n].priority == k;
      assert k == p;
      if r.current != t {
        assert r.runqueues[p] == q.runqueues[p][1..];
        assert IndexOf(q.runqueues[p], t) == 1 + IndexOf(q.runqueues[p][1..], t);
      }
    }
  }

  // ---- the steps ------------------------------------------------------------------------

  lemma NotifyGrows(s: State, t: Tid, bits: Bits)
    requires Shape(s) && IsTask(s, t)
    ensures Grows(s, Notify(s, t, bits))
  {
  }

  lemma RecvPhaseAdvances(s: State, src: Tid, flags: IpcFlags, after: After, t: Tid)
    requires Executing(s) && src >= 0
    ensures Advances(s, RecvPhase(s, src, flags, after).0, t)
    ensures RecvPhase(s, src, flags, after).1.Done? ==> Grows(s, RecvPhase(s, src, flags, after).0)
  {
    var r := RecvPhase(s, src, flags, after);
    if r.1.Done? {
      GrowsAdvances(s, r.0, t);
    } else {
      SleepAdvances(s, src, after, t);
    }
  }

  lemma SleepAdvances(s: State, src: Tid, after: After, t: Tid)
    requires Executing(s) && src >= 0
    ensures Advances(s, Switch(ParkRecv(s, src, after)), t)
  {
    var m := ParkRecv(s, src, after);
    assert Grows(s, m);
    ParkRecvKeeps(s, src, after);
    SwitchAdvances(m, t);
    GrowsThenAdvances(s, m, Switch(m), t);
  }

  lemma DeliverGrows(s: State, d: Tid, m: Message, flags: IpcFlags)
    requires Shape(s) && IsTask(s, d)
    ensures Grows(s, Deliver(s, d, m, flags))
  {
  }

  lemma DeliverRecvAdvances(s: State, dst: Tid, m: Message, flags: IpcFlags, src: Tid, after: After, t: Tid)
    requires Executing(s) && src >= 0 && IsTask(s, dst) && dst != s.current && Ready(s, dst)
    requires flags.kernel ==> m.typ != NotificationsMsg
    ensures var r := RecvPhase(Deliver(s, dst, m, flags), src, flags, after);
            Advances(s, r.0, t) && (r.1.Done? ==> Grows(s, r.0))
  {
    DeliverExecuting(s, dst, m, flags);
    DeliverGrows(s, dst, m, flags);
    var d := Deliver(s, dst, m, flags);
    RecvPhaseAdvances(d, src, flags, after, t);
    GrowsThenAdvances(s, d, RecvPhase(d, src, flags, after).0, t);
  }

  lemma SendSleepAdvances(s: State, dst: Tid, src: Tid, m: Message, flags: IpcFlags, after: After, t: Tid)
    requires Executing(s) && src >= 0 && InUse(s, dst) && dst != s.current
    requires flags.kernel ==> m.typ != NotificationsMsg
    ensures Advances(s, Switch(ParkSend(s, dst, src, m, flags, after)), t)
  {
    var p := ParkSend(s, dst, src, m, flags, after);
    assert Grows(s, p);
    ParkSendKeeps(s, dst, src, m, flags, after);
    SwitchAdvances(p, t);
    GrowsThenAdvances(s, p, Switch(p), t);
  }

  lemma IpcAdvances(s: State, dst: Tid, src: Tid, m: Message, flags: IpcFlags, after: After, t: Tid)
    requires Executing(s) && src >= 0 && (flags.send ==> InUse(s, dst))
    requires flags.kernel ==> m.typ != NotificationsMsg
    ensures var r := Ipc(s, dst, src, m, flags, after); Advances(s, r.0, t) && (r.1.Done? ==> Grows(s, r.0))
  {
    if flags.send && dst == s.current {
      GrowsAdvances(s, s, t);
    } else if Fastpath(s, dst, flags) {
      FastpathRefinesSlowpath(s, dst, src, m, flags.(noblock := false), after);
      DeliverRecvAdvances(s, dst, m, flags.(noblock := false), src, after, t);
    } else if !flags.send {
      RecvPhaseAdvances(s, src, flags, after, t);
    } else if Ready(s, dst) {
      DeliverRecvAdvances(s, dst, m, flags, src, after, t);
    } else if flags.noblock {
      GrowsAdvances(s, s, t);
    } else {
      SendSleepAdvances(s, dst, src, m, flags, after, t);
    }
  }

  lemma RetireAdvances(s: State, t: Tid)
    requires Executing(s)
    ensures Advances(s, Retire(s), t)
  {
    var c := s.current;
    var m := Set(s, c, s.tasks[c].(state := Blocked, src := IPC_DENY, kont := Exited));
    RetireCore(s);
    SwitchAdvances(m, t);
    GrowsThenAdvances(s, m, Switch(m), t);
  }

  lemma ExitAdvances(s: State, t: Tid)
    requires Executing(s) && PagerUsable(s)
    ensures Advances(s, Exit(s), t)
  {
    var pager := s.tasks[s.current].pager;
    if pager == NO_TASK {
      GrowsAdvances(s, Exit(s), t);
    } else {
      IpcKeeps(s, pager, IPC_ANY, EXCEPTION, SEND_KERNEL, ToExit);
      IpcAdvances(s, pager, IPC_ANY, EXCEPTION, SEND_KERNEL, ToExit, t);
      var (s1, res) := Ipc(s, pager, IPC_ANY, EXCEPTION, SEND_KERNEL, ToExit);
      if res.Done? {
        RetireAdvances(s1, t);
        GrowsThenAdvances(s, s1, Retire(s1), t);
      }
    }
  }

  lemma ReturnAdvances(s: State, err: Error, m: Message, after: After, t: Tid)
    requires Executing(s) && PagerUsable(s)
    ensures Advances(s, Return(s, err, m, after), t)
  {
    match after
    case ToUser => GrowsAdvances(s, s, t);
    case ToFault => if err != OK || m.typ != PageFaultReplyMsg { ExitAdvances(s, t); } else { GrowsAdvances(s, s, t); }
    case ToExit => RetireAdvances(s, t);
  }

  lemma PageFaultAdvances(s: State, t: Tid)
    requires Executing(s) && PagerUsable(s)
    ensures Advances(s, PageFault(s), t)
  {
    var pager := s.tasks[s.current].pager;
    if pager == NO_TASK {
      GrowsAdvances(s, PageFault(s), t);
    } else {
      IpcKeeps(s, pager, pager, PAGE_FAULT, CALL_KERNEL, ToFault);
      IpcAdvances(s, pager, pager, PAGE_FAULT, CALL_KERNEL, ToFault, t);
      var (s1, res) := Ipc(s, pager, pager, PAGE_FAULT, CALL_KERNEL, ToFault);
      if res.Done? {
        ReturnAdvances(s1, res.err, PAGE_FAULT, ToFault, t);
        GrowsThenAdvances(s, s1, Return(s1, res.err, PAGE_FAULT, ToFault), t);
      }
    }
  }

  lemma FinishSendAdvances(s: State, dst: Tid, m: Message, flags: IpcFlags, src: Tid, after: After, t: Tid)
    requires Executing(s) && PagerUsable(s) && src >= 0
    requires IsTask(s, dst) && dst != s.current && Ready(s, dst)
    requires flags.kernel ==> m.typ != NotificationsMsg
    ensures var r := RecvPhase(Deliver(s, dst, m, flags), src, flags, after);
            Advances(s, if r.1.Done? then Return(r.0, r.1.err, m, after) else r.0, t)
  {
    FinishSendKeeps(s, dst, m, flags, src, after);
    DeliverRecvAdvances(s, dst, m, flags, src, after, t);
    var r := RecvPhase(Deliver(s, dst, m, flags), src, flags, after);
    if r.1.Done? {
      ReturnAdvances(r.0, r.1.err, m, after, t);
      GrowsThenAdvances(s, r.0, Return(r.0, r.1.err, m, after), t);
    }
  }

  lemma ContinueSendAdvances(s: State, t: Tid)
    requires Inv(s) && IsTask(s, s.current) && s.tasks[s.current].kont.InSend? && PagerUsable(s)
    ensures Advances(s, ContinueSend(s), t)
  {
    var c := s.current;
    assert TaskOk(s, c);
    var InSend(dst, m, flags, src, after) := s.tasks[c].kont;
    WakeKeeps(s);
    var w := Wake(s);
    if NOTIFY_ABORTED in s.tasks[c].notifications {
      var s1 := Log(w, c, w.hist[c].(consumed := w.hist[c].consumed + {NOTIFY_ABORTED}));
      var s2 := Set(s1, c, s1.tasks[c].(notifications := s1.tasks[c].notifications - {NOTIFY_ABORTED}));
      AbortKeeps(w, s2);
      ReturnAdvances(s2, ErrAborted, m, after, t);
      GrowsThenAdvances(w, s2, Return(s2, ErrAborted, m, after), t);
    } else {
      FinishSendAdvances(w, dst, m, flags, src, after, t);
    }
    GrowsThenAdvances(s, w, ContinueSend(s), t);
  }

  lemma ContinueRecvAdvances(s: State, t: Tid)
    requires Inv(s) && IsTask(s, s.current) && s.tasks[s.current].kont.InRecv? && PagerUsable(s)
    ensures Advances(s, ContinueRecv(s), t)
  {
    var c := s.current;
    assert TaskOk(s, c);
    OwnUpdateKeeps(s, Collect(s), c);
    ReturnAdvances(Collect(s), OK, s.tasks[c].m, s.tasks[c].kont.after, t);
    GrowsThenAdvances(s, Collect(s), ContinueRecv(s), t);
  }

  lemma TickTaskGrows(s: State, i: nat)
    requires Shape(s) && IsTask(s, i)
    ensures Grows(s, TickTask(s, i))
  {
    if !s.tasks[i].state.Unused? && s.tasks[i].timeout > 0 {
      NotifyGrows(Set(s, i, s.tasks[i].(timeout := s.tasks[i].timeout - 1)), i, {NOTIFY_TIMER});
    }
  }

  lemma {:induction false} TimeoutsGrow(s: State, i: nat)
    requires Shape(s) && 1 <= i <= |s.tasks|
    ensures Grows(s, Timeouts(s, i).0)
    decreases |s.tasks| - i
  {
    if i < |s.tasks| {
      TickTaskGrows(s, i);
      TimeoutsGrow(TickTask(s, i), i + 1);
    }
  }

  lemma UseQuantumAdvances(s: State, expired: bool, t: Tid)
    requires Inv(s)
    ensures Advances(s, UseQuantum(s, expired), t)
  {
    SliceUsedAdvances(s, t);
    SliceEndAdvances(s, t);
  }

  lemma SliceUsedAdvances(s: State, t: Tid)
    requires Inv(s)
    ensures Advances(s, Set(s, s.current, s.tasks[s.current].(quantum := s.tasks[s.current].quantum - 1)), t)
  {
    GrowsAdvances(s, Set(s, s.current, s.tasks[s.current].(quantum := s.tasks[s.current].quantum - 1)), t);
  }

  lemma SliceEndAdvances(s: State, t: Tid)
    requires Inv(s)
    ensures Advances(s, Switch(Set(s, s.current, s.tasks[s.current].(quantum := s.tasks[s.current].quantum - 1))), t)
  {
    var m := Set(s, s.current, s.tasks[s.current].(quantum := s.tasks[s.current].quantum - 1));
    SliceUsedKeeps(s);
    SwitchAdvances(m, t);
    GrowsThenAdvances(s, m, Switch(m), t);
  }

  lemma TimerIrqAdvances(s: State, t: Tid)
    requires Inv(s)
    ensures Advances(s, TimerIrq(s), t)
  {
    TimeoutsGrow(s, 1);
    TimeoutsKeep(s, 1);
    var (s1, expired) := Timeouts(s, 1);
    UseQuantumAdvances(s1, expired, t);
    GrowsThenAdvances(s, s1, UseQuantum(s1, expired), t);
  }

  lemma IrqAdvances(s: State, irq: nat, t: Tid)
    requires Inv(s) && irq < |s.irqOwners|
    ensures Advances(s, Irq(s, irq), t)
  {
    var owner := s.irqOwners[irq];
    if owner == NO_TASK {
      GrowsAdvances(s, s, t);
    } else {
      NotifyKeeps(s, owner, {NOTIFY_IRQ});
      NotifyGrows(s, owner, {NOTIFY_IRQ});
      var n := Notify(s, owner, {NOTIFY_IRQ});
      SwitchAdvances(n, t);
      GrowsThenAdvances(s, n, Switch(n), t);
      GrowsAdvances(s, n, t);
    }
  }

  lemma ScheduleAdvances(s: State, x: Tid, priority: int, t: Tid)
    requires Shape(s) && IsTask(s, x) && x != t
    ensures Advances(s, Schedule(s, x, priority), t)
  {
    if Queued(s, t) {
      var q := s.runqueues[s.tasks[t].priority];
      IndexWithout(q, x, t);
      IndexAppend(Without(q, x), x, t);
      var r := Schedule(s, x, priority);
      assert r.switches == s.switches && r.tasks[t] == s.tasks[t];
      var q' := r.runqueues[s.tasks[t].priority];
      assert q' == q || q' == Without(q, x) || q' == Without(q, x) + [x];
    }
  }

  lemma DestroyedAdvances(s: State, r: State, x: Tid, t: Tid)
    requires Shape(s) && Shape(r) && |r.tasks| == |s.tasks| && IsTask(s, x) && x != t && Destroyed(s, r, x)
    ensures Advances(s, r, t)
  {
    if Queued(s, t) { IndexWithout(s.runqueues[s.tasks[t].priority], x, t); }
  }

  lemma DestroyAdvances(s: State, x: Tid, t: Tid)
    requires Good(s) && IsTask(s, x) && x != t
    ensures Advances(s, Destroy(s, x), t)
  {
    if DestroyError(s, x) == OK {
      NoSelfPager(s, x);
      DestroyIs(s, x);
      DestroyedAdvances(s, Destroy(s, x), x, t);
    } else {
      GrowsAdvances(s, s, t);
    }
  }

  lemma CreatedAdvances(s: State, r: State, x: Tid, pager: Tid, caps: bool, t: Tid)
    requires Inv(s) && Shape(r) && IsTask(s, x) && IsTask(s, pager) && s.tasks[x].state.Unused?
             && Created(s, r, x, pager, caps)
    ensures Advances(s, r, t)
  {
    if t in s.runqueues[TASK_PRIORITY_MAX - 1] { IndexAppend(s.runqueues[TASK_PRIORITY_MAX - 1], x, t); }
  }

  lemma CreateAdvances(s: State, x: Tid, pager: Tid, flags: TaskFlags, archOk: bool, t: Tid)
    requires Good(s) && IsTask(s, x) && InUse(s, pager)
    ensures Advances(s, Create(s, x, pager, flags, archOk), t)
  {
    if CreateError(s, x, flags, archOk) == OK {
      CreateKeeps(s, x, pager, flags, archOk);
      CreatedAdvances(s, Create(s, x, pager, flags, archOk), x, pager, flags.allCaps, t);
    } else {
      GrowsAdvances(s, s, t);
    }
  }

  lemma MessageAdvances(s: State, e: Event, t: Tid)
    requires Good(s) && Enabled(s, e) && (e.SysIpc? || e.SysNotify?)
    ensures Advances(s, Step(s, e), t)
  {
    match e
    case SysIpc(dst, src, m, flags) =>
      if !flags.kernel && 0 <= src < |s.tasks| && (flags.send ==> InUse(s, dst)) {
        IpcAdvances(s, if flags.send then dst else NO_TASK, src, m, flags, ToUser, t);
      } else {
        GrowsAdvances(s, s, t);
      }
    case SysNotify(x, bits) =>
      if InUse(s, x) { NotifyGrows(s, x, bits); }
      GrowsAdvances(s, Step(s, e), t);
  }

  lemma TaskEventAdvances(s: State, e: Event, t: Tid)
    requires Good(s) && Enabled(s, e) && (e.SysTaskCreate? || e.SysTaskDestroy? || e.SysTaskSchedule?)
    requires (e.SysTaskDestroy? || e.SysTaskSchedule?) ==> e.tid != t
    ensures Advances(s, Step(s, e), t)
  {
    GrowsAdvances(s, s, t);
    if IsTask(s, e.tid) && e.tid != s.current {
      match e
      case SysTaskCreate(x, pager, flags, archOk) =>
        if InUse(s, pager) { CreateAdvances(s, x, pager, flags, archOk, t); }
      case SysTaskDestroy(x) => DestroyAdvances(s, x, t);
      case SysTaskSchedule(x, priority) => ScheduleAdvances(s, x, priority, t);
    }
  }

  lemma InterruptAdvances(s: State, e: Event, t: Tid)
    requires Good(s) && Enabled(s, e) && (e.Tick? || e.Interrupt? || e.Reschedule? || e.Continue?)
    ensures Advances(s, Step(s, e), t)
  {
    match e
    case Tick => TimerIrqAdvances(s, t);
    case Interrupt(irq) => IrqAdvances(s, irq, t);
    case Reschedule => SwitchAdvances(s, t);
    case Continue =>
      PagersUsable(s);
      if s.tasks[s.current].kont.InSend? { ContinueSendAdvances(s, t); } else { ContinueRecvAdvances(s, t); }
  }

  lemma LeavingAdvances(s: State, e: Event, t: Tid)
    requires Good(s) && Enabled(s, e) && (e.SysTaskExit? || e.Fault?)
    ensures Advances(s, Step(s, e), t)
  {
    PagersUsable(s);
    if e.Fault? { PageFaultAdvances(s, t); } else { ExitAdvances(s, t); }
  }

  /** The event neither destroys t nor gives it another priority. */
  predicate LeavesInQueue(e: Event, t: Tid) {
    (e.SysTaskDestroy? || e.SysTaskSchedule?) ==> e.tid != t
  }

  lemma StepAdvances(s: State, e: Event, t: Tid)
    requires Good(s) && Enabled(s, e) && LeavesInQueue(e, t)
    ensures Advances(s, Step(s, e), t)
  {
    if e.SysIpc? || e.SysNotify? {
      MessageAdvances(s, e, t);
    } else if e.SysTaskCreate? || e.SysTaskDestroy? || e.SysTaskSchedule? {
      TaskEventAdvances(s, e, t);
    } else if e.Tick? || e.Interrupt? || e.Reschedule? || e.Continue? {
      InterruptAdvances(s, e, t);
    } else if e.SysTaskExit? || e.Fault? {
      LeavingAdvances(s, e, t);
    } else {
      GrowsAdvances(s, Step(s, e), t);
    }
  }

  // ---- whole runs -------------------------------------------------------------------------

  lemma {:induction false} ChainAdvances(run: seq<State>, i: nat, j: nat, t: Tid)
    requires i <= j < |run| && Shape(run[i]) && Queued(run[i], t)
    requires forall k :: i <= k < j ==> Advances(run[k], run[k + 1], t)
    requires forall k :: i < k <= j ==> NoneBetter(run[k], run[i].tasks[t].priority) && run[k].current != t
    ensures Shape(run[j]) && Queued(run[j], t) && run[j].tasks[t].priority == run[i].tasks[t].priority
    ensures Before(run[j], t) + run[j].switches - run[i].switches <= Before(run[i], t)
    decreases j
  {
    if i < j {
      ChainAdvances(run, i, j - 1, t);
      assert Advances(run[j - 1], run[j - 1 + 1], t);
    }
  }

  /**
   Round robin.  A task that is queued behind `Before` tasks of its priority has become CURRENT before
   `Before + 1` switches are over, if meanwhile no task of a better priority is runnable.
   */
  lemma RoundRobin(run: seq<State>, events: seq<Event>, i: nat, j: nat, t: Tid)
    requires IsRun(run, events) && i <= j < |run| && Shape(run[i]) && Queued(run[i], t)
    requires forall k :: i <= k < j ==> LeavesInQueue(events[k], t)
    requires forall k :: i < k <= j ==> NoneBetter(run[k], run[i].tasks[t].priority)
    requires run[j].switches - run[i].switches >= Before(run[i], t) + 1
    ensures exists k :: i < k <= j && run[k].current == t
  {
    if forall k :: i < k <= j ==> run[k].current != t {
      forall k | i <= k < j ensures Advances(run[k], run[k + 1], t) {
        RunIsGood(run, events, k);
        StepAdvances(run[k], events[k], t);
      }
      ChainAdvances(run, i, j, t);
    }
  }

  // ---- timeouts -------------------------------------------------------------------------

  /** One tick less, and the timer bit exactly when the last one is gone. */
  ghost predicate Counted(s: State, r: State, t: Tid)
    requires Shape(s) && Shape(r) && |r.tasks| == |s.tasks| && IsTask(s, t)
  {
    && r.tasks[t].timeout
       == (if InUse(s, t) && s.tasks[t].timeout > 0 then s.tasks[t].timeout - 1 else s.tasks[t].timeout)
    && r.hist[t].raised == s.hist[t].raised + (if Expires(s, t) then {NOTIFY_TIMER} else {})
  }

  lemma TickTouchesOne(s: State, i: nat, t: Tid)
    requires Shape(s) && IsTask(s, i) && IsTask(s, t)
    ensures t == i ==> Counted(s, TickTask(s, i), t)
    ensures t != i ==> TickTask(s, i).tasks[t] == s.tasks[t] && TickTask(s, i).hist[t] == s.hist[t]
  {
  }

  lemma {:induction false} TimeoutsCount(s: State, i: nat, t: Tid)
    requires Shape(s) && 1 <= i <= |s.tasks| && IsTask(s, t)
    ensures t >= i ==> Counted(s, Timeouts(s, i).0, t)
    ensures t < i ==> Timeouts(s, i).0.tasks[t] == s.tasks[t] && Timeouts(s, i).0.hist[t] == s.hist[t]
    decreases |s.tasks| - i
  {
    if i < |s.tasks| {
      TickTouchesOne(s, i, t);
      TimeoutsCount(TickTask(s, i), i + 1, t);
    }
  }

  /** Switching and using up a time slice leave timeouts and histories alone. */
  lemma SwitchKeepsTimers(s: State, t: Tid)
    requires Shape(s) && IsTask(s, t)
    ensures Switch(s).tasks[t].timeout == s.tasks[t].timeout && Switch(s).hist == s.hist
  {
  }

  /**
   The timer interrupt counts down every timeout of a task in use, and notifies exactly the tasks whose timeout
   runs out.
   */
  lemma TimerCounts(s: State, t: Tid)
    requires Shape(s) && IsTask(s, t)
    ensures Counted(s, TimerIrq(s), t)
  {
    TimeoutsCount(s, 1, t);
    var s1 := Timeouts(s, 1).0;
    SwitchKeepsTimers(Set(s1, s1.current, s1.tasks[s1.current].(quantum := s1.tasks[s1.current].quantum - 1)), t);
  }
}
