/**
 Receivers that have resumed a queued sender and wait for it alone, although it
 will not come: how a task in an open receive gets there, and for how long.
 */
module KernelDeafness {
  import opened KernelSpec
  import opened KernelInvariant
  import opened KernelRuns

  /** d sleeps in an open receive and yet accepts x alone. */
  ghost predicate Narrow(s: State, d: Tid, x: Tid)
    requires Shape(s)
  {
    && IsTask(s, d) && s.tasks[d].state.Blocked? && s.tasks[d].kont.InRecv? && s.tasks[d].kont.filter == IPC_ANY
    && s.tasks[d].src == x != IPC_ANY
  }

  /** x has been resumed and is about to deliver to d. */
  ghost predicate Delivering(s: State, x: Tid, d: Tid)
    requires Shape(s)
  {
    InWindow(s, x) && s.tasks[x].kont.dst == d
  }

  /** d sleeps in an open receive, hears nobody but x, and x is not about to deliver. */
  ghost predicate Deaf(s: State, d: Tid, x: Tid)
    requires Shape(s)
  {
    Narrow(s, d, x) && !Delivering(s, x, d)
  }

  // ---- what a step leaves alone --------------------------------------------------------------

  /** Neither CURRENT nor a notification can wake y up. */
  ghost predicate Dormant(s: State, y: Tid)
    requires Shape(s)
  {
    && IsTask(s, y) && y != s.current && s.tasks[y].state.Blocked? && s.tasks[y].src != IPC_ANY
       && s.tasks[y].src != s.current
    && (IsTask(s, s.current) ==> y !in s.tasks[s.current].senders)
  }

  /** y sleeps on: nothing reaches its buffer, and its notifications stay pending. */
  ghost predicate SleepsOn(s: State, r: State, y: Tid)
    requires Shape(s) && Shape(r) && |r.tasks| == |s.tasks| && IsTask(s, y)
  {
    && r.tasks[y].state == s.tasks[y].state && r.tasks[y].src == s.tasks[y].src && r.tasks[y].kont == s.tasks[y].kont
    && s.tasks[y].notifications <= r.tasks[y].notifications
    && r.hist[y] == s.hist[y].(raised := r.hist[y].raised)
  }

  /** Only CURRENT falls asleep or moves on in its code, and dormant tasks sleep on. */
  ghost predicate Leaves(s: State, r: State, y: Tid) {
    && Shape(s) && Shape(r) && |r.tasks| == |s.tasks| && IsTask(s, y)
    && (y != s.current ==>
          && r.tasks[y].kont == s.tasks[y].kont
          && (r.tasks[y].state.Blocked? ==> s.tasks[y].state.Blocked? && r.tasks[y].src == s.tasks[y].src))
    && (Dormant(s, y) ==> SleepsOn(s, r, y) && (IsTask(s, s.current) ==> y !in r.tasks[s.current].senders))
  }

  lemma LeavesTrans(a: State, b: State, c: State, y: Tid)
    requires Leaves(a, b, y) && Leaves(b, c, y) && b.current == a.current
    ensures Leaves(a, c, y)
  {
  }

  lemma SwitchLeaves(s: State, y: Tid)
    requires Shape(s) && IsTask(s, y)
    ensures Leaves(s, Switch(s), y)
  {
  }

  lemma NotifyLeaves(s: State, t: Tid, bits: Bits, y: Tid)
    requires Shape(s) && IsTask(s, t) && IsTask(s, y)
    ensures Leaves(s, Notify(s, t, bits), y)
  {
  }

  lemma DeliverLeaves(s: State, dst: Tid, m: Message, flags: IpcFlags, y: Tid)
    requires Shape(s) && IsTask(s, dst) && Ready(s, dst) && IsTask(s, y)
    ensures Leaves(s, Deliver(s, dst, m, flags), y)
  {
  }

  lemma ParkRecvLeaves(s: State, src: Tid, after: After, y: Tid)
    requires Shape(s) && IsTask(s, s.current) && IsTask(s, y)
    ensures Leaves(s, ParkRecv(s, src, after), y) && ParkRecv(s, src, after).current == s.current
  {
    var q := s.tasks[s.current].senders;
    var i := FirstSender(q, src);
    if i < |q| {
      assert q[i] in q && forall x :: x in q[..i] + q[i+1..] ==> x in q;
    }
  }

  lemma SleepLeaves(s: State, src: Tid, after: After, y: Tid)
    requires Shape(s) && IsTask(s, s.current) && IsTask(s, y)
    ensures Leaves(s, Switch(ParkRecv(s, src, after)), y)
  {
    var p := ParkRecv(s, src, after);
    ParkRecvLeaves(s, src, after, y);
    SwitchLeaves(p, y);
    LeavesTrans(s, p, Switch(p), y);
  }

  lemma RecvPhaseLeaves(s: State, src: Tid, flags: IpcFlags, after: After, y: Tid)
    requires Shape(s) && IsTask(s, s.current) && src >= 0 && IsTask(s, y)
    ensures Leaves(s, RecvPhase(s, src, flags, after).0, y)
  {
    if flags.recv { SleepLeaves(s, src, after, y); }
  }

  lemma DeliverRecvLeaves(s: State, dst: Tid, m: Message, flags: IpcFlags, src: Tid, after: After, y: Tid)
    requires Shape(s) && IsTask(s, s.current) && IsTask(s, dst) && Ready(s, dst) && src >= 0 && IsTask(s, y)
    ensures Leaves(s, RecvPhase(Deliver(s, dst, m, flags), src, flags, after).0, y)
  {
    var d := Deliver(s, dst, m, flags);
    DeliverLeaves(s, dst, m, flags, y);
    RecvPhaseLeaves(d, src, flags, after, y);
    LeavesTrans(s, d, RecvPhase(d, src, flags, after).0, y);
  }

  lemma ParkSendLeaves(s: State, dst: Tid, src: Tid, m: Message, flags: IpcFlags, after: After, y: Tid)
    requires Shape(s) && IsTask(s, s.current) && IsTask(s, dst) && dst != s.current && src >= 0 && IsTask(s, y)
    ensures Leaves(s, Switch(ParkSend(s, dst, src, m, flags, after)), y)
  {
    var p := ParkSend(s, dst, src, m, flags, after);
    assert Leaves(s, p, y);
    SwitchLeaves(p, y);
    LeavesTrans(s, p, Switch(p), y);
  }

  lemma IpcLeaves(s: State, dst: Tid, src: Tid, m: Message, flags: IpcFlags, after: After, y: Tid)
    requires Shape(s) && IsTask(s, s.current) && src >= 0 && (flags.send ==> IsTask(s, dst)) && IsTask(s, y)
    ensures Leaves(s, Ipc(s, dst, src, m, flags, after).0, y)
  {
    if flags.send && dst == s.current {
    } else if Fastpath(s, dst, flags) {
      var plain := IpcFlags(true, true, false, false, false);
      DeliverLeaves(s, dst, m, plain, y);
      var d := Deliver(s, dst, m, plain);
      SleepLeaves(d, src, after, y);
      LeavesTrans(s, d, Switch(ParkRecv(d, src, after)), y);
    } else if !flags.send {
      RecvPhaseLeaves(s, src, flags, after, y);
    } else if Ready(s, dst) {
      DeliverRecvLeaves(s, dst, m, flags, src, after, y);
    } else if !flags.noblock {
      ParkSendLeaves(s, dst, src, m, flags, after, y);
    }
  }

  lemma RetireLeaves(s: State, y: Tid)
    requires Shape(s) && IsTask(s, s.current) && IsTask(s, y)
    ensures Leaves(s, Retire(s), y)
  {
    var p := Set(s, s.current, s.tasks[s.current].(state := Blocked, src := IPC_DENY, kont := Exited));
    SwitchLeaves(p, y);
    LeavesTrans(s, p, Switch(p), y);
  }

  lemma ExitLeaves(s: State, y: Tid)
    requires Shape(s) && IsTask(s, s.current) && IsTask(s, y)
    ensures Leaves(s, Exit(s), y)
  {
    var pager := s.tasks[s.current].pager;
    if pager != NO_TASK {
      IpcLeaves(s, pager, IPC_ANY, EXCEPTION, SEND_KERNEL, ToExit, y);
      var (s1, res) := Ipc(s, pager, IPC_ANY, EXCEPTION, SEND_KERNEL, ToExit);
      if res.Done? {
        RetireLeaves(s1, y);
        LeavesTrans(s, s1, Retire(s1), y);
      }
    }
  }

  lemma ReturnLeaves(s: State, err: Error, m: Message, after: After, y: Tid)
    requires Shape(s) && IsTask(s, s.current) && IsTask(s, y)
    ensures Leaves(s, Return(s, err, m, after), y)
  {
    if after.ToFault? { ExitLeaves(s, y); } else if after.ToExit? { RetireLeaves(s, y); }
  }

  lemma PageFaultLeaves(s: State, y: Tid)
    requires Shape(s) && IsTask(s, s.current) && IsTask(s, y)
    ensures Leaves(s, PageFault(s), y)
  {
    var pager := s.tasks[s.current].pager;
    if pager != NO_TASK {
      IpcLeaves(s, pager, pager, PAGE_FAULT, CALL_KERNEL, ToFault, y);
      var (s1, res) := Ipc(s, pager, pager, PAGE_FAULT, CALL_KERNEL, ToFault);
      if res.Done? {
        ReturnLeaves(s1, res.err, PAGE_FAULT, ToFault, y);
        LeavesTrans(s, s1, Return(s1, res.err, PAGE_FAULT, ToFault), y);
      }
    }
  }

  /** The state in which a resumed sender finds its abort bit and goes on without delivering. */
  ghost function Aborted(s: State): State
    requires Shape(s) && IsTask(s, s.current)
  {
    var c, w := s.current, Wake(s);
    var s1 := Log(w, c, w.hist[c].(consumed := w.hist[c].consumed + {NOTIFY_ABORTED}));
    Set(s1, c, s1.tasks[c].(notifications := s1.tasks[c].notifications - {NOTIFY_ABORTED}))
  }

  lemma ContinueSendLeaves(s: State, y: Tid)
    requires Inv(s) && IsTask(s, s.current) && s.tasks[s.current].kont.InSend? && IsTask(s, y)
    ensures Leaves(s, ContinueSend(s), y)
  {
    var InSend(dst, m, flags, src, after) := s.tasks[s.current].kont;
    var w := Wake(s);
    assert TaskOk(s, s.current) && Leaves(s, w, y);
    if NOTIFY_ABORTED in s.tasks[s.current].notifications {
      assert Leaves(s, Aborted(s), y);
      ReturnLeaves(Aborted(s), ErrAborted, m, after, y);
      LeavesTrans(s, Aborted(s), ContinueSend(s), y);
    } else {
      DeliverRecvLeaves(w, dst, m, flags, src, after, y);
      var (s1, res) := RecvPhase(Deliver(w, dst, m, flags), src, flags, after);
      LeavesTrans(s, w, s1, y);
      if res.Done? {
        ReturnLeaves(s1, res.err, m, after, y);
        LeavesTrans(s, s1, Return(s1, res.err, m, after), y);
      }
    }
  }

  lemma ContinueRecvLeaves(s: State, y: Tid)
    requires Shape(s) && IsTask(s, s.current) && s.tasks[s.current].kont.InRecv? && IsTask(s, y)
    ensures Leaves(s, ContinueRecv(s), y)
  {
    var s1 := Collect(s);
    assert Leaves(s, s1, y);
    ReturnLeaves(s1, OK, s.tasks[s.current].m, s.tasks[s.current].kont.after, y);
    LeavesTrans(s, s1, ContinueRecv(s), y);
  }

  lemma {:induction false} TimeoutsLeaves(s: State, i: nat, y: Tid)
    requires Shape(s) && 1 <= i <= |s.tasks| && IsTask(s, y)
    ensures Leaves(s, Timeouts(s, i).0, y)
    decreases |s.tasks| - i
  {
    if i < |s.tasks| {
      var t := TickTask(s, i);
      TickTaskLeaves(s, i, y);
      TimeoutsLeaves(t, i + 1, y);
      LeavesTrans(s, t, Timeouts(s, i).0, y);
    }
  }

  lemma TickTaskLeaves(s: State, i: nat, y: Tid)
    requires Shape(s) && IsTask(s, i) && IsTask(s, y)
    ensures Leaves(s, TickTask(s, i), y)
  {
    if !s.tasks[i].state.Unused? && s.tasks[i].timeout > 0 {
      var s1 := Set(s, i, s.tasks[i].(timeout := s.tasks[i].timeout - 1));
      NotifyLeaves(s1, i, {NOTIFY_TIMER}, y);
      LeavesTrans(s, s1, Notify(s1, i, {NOTIFY_TIMER}), y);
    }
  }

  lemma TimerIrqLeaves(s: State, y: Tid)
    requires Shape(s) && IsTask(s, y)
    ensures Leaves(s, TimerIrq(s), y)
  {
    TimeoutsLeaves(s, 1, y);
    var s1 := Timeouts(s, 1).0;
    var s2 := Set(s1, s1.current, s1.tasks[s1.current].(quantum := s1.tasks[s1.current].quantum - 1));
    LeavesTrans(s, s1, s2, y);
    SwitchLeaves(s2, y);
    LeavesTrans(s, s2, Switch(s2), y);
  }

  lemma IrqLeaves(s: State, irq: nat, y: Tid)
    requires Shape(s) && irq < |s.irqOwners| && IsTask(s, y)
    ensures Leaves(s, Irq(s, irq), y)
  {
    var owner := s.irqOwners[irq];
    if owner != NO_TASK {
      var s1 := Notify(s, owner, {NOTIFY_IRQ});
      NotifyLeaves(s, owner, {NOTIFY_IRQ}, y);
      SwitchLeaves(s1, y);
      LeavesTrans(s, s1, Switch(s1), y);
    }
  }

  lemma DestroyLeaves(s: State, t: Tid, y: Tid)
    requires Good(s) && IsTask(s, t) && t != s.current && IsTask(s, y) && y != t
    ensures Leaves(s, Destroy(s, t), y)
  {
    if DestroyError(s, t) == OK {
      NoSelfPager(s, t);
      DestroyIs(s, t);
    }
  }

  lemma CreateLeaves(s: State, t: Tid, pager: Tid, flags: TaskFlags, archOk: bool, y: Tid)
    requires Shape(s) && IsTask(s, t) && t != s.current && IsTask(s, pager) && InUse(s, y)
    ensures Leaves(s, Create(s, t, pager, flags, archOk), y)
  {
  }

  lemma ScheduleLeaves(s: State, t: Tid, priority: int, y: Tid)
    requires Shape(s) && IsTask(s, t) && t != s.current && IsTask(s, y)
    ensures Leaves(s, Schedule(s, t, priority), y)
  {
  }

  lemma TaskCallLeaves(s: State, e: Event, y: Tid)
    requires Good(s) && Enabled(s, e) && InUse(s, y) && e != SysTaskDestroy(y)
    requires e.SysTaskCreate? || e.SysTaskDestroy? || e.SysTaskSchedule?
    ensures Leaves(s, Step(s, e), y)
  {
    if IsTask(s, e.tid) && e.tid != s.current {
      match e
      case SysTaskCreate(t, pager, flags, archOk) => if InUse(s, pager) { CreateLeaves(s, t, pager, flags, archOk, y); }
      case SysTaskDestroy(t) => DestroyLeaves(s, t, y);
      case SysTaskSchedule(t, priority) => ScheduleLeaves(s, t, priority, y);
    }
  }

  lemma SysIpcLeaves(s: State, dst: Tid, src: Tid, m: Message, flags: IpcFlags, y: Tid)
    requires Shape(s) && IsTask(s, s.current) && IsTask(s, y)
    ensures Leaves(s, SysIpcStep(s, dst, src, m, flags), y)
  {
    if !flags.kernel && 0 <= src < |s.tasks| && (flags.send ==> InUse(s, dst)) {
      IpcLeaves(s, if flags.send then dst else NO_TASK, src, m, flags, ToUser, y);
    }
  }

  /** Every step, and every task in use that the step does not destroy. */
  lemma StepLeaves(s: State, e: Event, y: Tid)
    requires Good(s) && Enabled(s, e) && InUse(s, y) && e != SysTaskDestroy(y)
    ensures Leaves(s, Step(s, e), y)
  {
    if e.SysTaskCreate? || e.SysTaskDestroy? || e.SysTaskSchedule? {
      TaskCallLeaves(s, e, y);
    } else {
      match e
      case SysIpc(dst, src, m, flags) => SysIpcLeaves(s, dst, src, m, flags, y);
      case SysNotify(t, bits) => if InUse(s, t) { NotifyLeaves(s, t, bits, y); }
      case SysTaskExit => ExitLeaves(s, y);
      case Fault => PageFaultLeaves(s, y);
      case Tick => TimerIrqLeaves(s, y);
      case Interrupt(irq) => IrqLeaves(s, irq, y);
      case Reschedule => SwitchLeaves(s, y);
      case Continue => if s.tasks[s.current].kont.InSend? { ContinueSendLeaves(s, y); } else {
        ContinueRecvLeaves(s, y);
      }
      case _ =>
    }
  }

  // ---- who narrows an open receive ------------------------------------------------------------

  /** If c sleeps in an open receive and accepts one task alone, that task is about to deliver. */
  ghost predicate Attentive(r: State, c: Tid) {
    Shape(r) && forall x :: Narrow(r, c, x) ==> Delivering(r, x, c)
  }

  lemma SleepAttentive(s: State, src: Tid, after: After)
    requires Executing(s) && src >= 0
    ensures Attentive(Switch(ParkRecv(s, src, after)), s.current)
  {
    var c := s.current;
    var q := s.tasks[c].senders;
    var i := FirstSender(q, src);
    assert SendersOk(s, c);
    if i < |q| { assert q[i] in q; }
  }

  lemma RecvPhaseAttentive(s: State, src: Tid, flags: IpcFlags, after: After)
    requires Executing(s) && src >= 0
    ensures Attentive(RecvPhase(s, src, flags, after).0, s.current)
  {
    if flags.recv { SleepAttentive(s, src, after); }
  }

  lemma IpcAttentive(s: State, dst: Tid, src: Tid, m: Message, flags: IpcFlags, after: After)
    requires Executing(s) && src >= 0 && (flags.send ==> InUse(s, dst)) && (flags.kernel ==> m.typ != NotificationsMsg)
    ensures Attentive(Ipc(s, dst, src, m, flags, after).0, s.current)
  {
    if flags.send && dst == s.current {
    } else if Fastpath(s, dst, flags) {
      var plain := IpcFlags(true, true, false, false, false);
      DeliverExecuting(s, dst, m, plain);
      SleepAttentive(Deliver(s, dst, m, plain), src, after);
    } else if !flags.send {
      RecvPhaseAttentive(s, src, flags, after);
    } else if Ready(s, dst) {
      DeliverExecuting(s, dst, m, flags);
      RecvPhaseAttentive(Deliver(s, dst, m, flags), src, flags, after);
    }
  }

  /** CURRENT runs its own code. */
  ghost predicate Awake(s: State) {
    Shape(s) && IsTask(s, s.current) && s.tasks[s.current].state.Runnable? && s.tasks[s.current].kont.Running?
  }

  /** c is not asleep in the receive phase. */
  ghost predicate NotReceiving(r: State, c: Tid) {
    Shape(r) && IsTask(r, c) && !(r.tasks[c].state.Blocked? && r.tasks[c].kont.InRecv?)
  }

  lemma RetireNotReceiving(s: State)
    requires Awake(s)
    ensures NotReceiving(Retire(s), s.current)
  {
  }

  lemma ExitNotReceiving(s: State)
    requires Awake(s)
    ensures NotReceiving(Exit(s), s.current)
  {
    var pager := s.tasks[s.current].pager;
    if pager != NO_TASK {
      var (s1, res) := Ipc(s, pager, IPC_ANY, EXCEPTION, SEND_KERNEL, ToExit);
      if res.Done? { RetireNotReceiving(s1); }
    }
  }

  lemma ReturnNotReceiving(s: State, err: Error, m: Message, after: After)
    requires Awake(s)
    ensures NotReceiving(Return(s, err, m, after), s.current)
  {
    if after.ToFault? { ExitNotReceiving(s); } else if after.ToExit? { RetireNotReceiving(s); }
  }

  lemma ContinueAttentive(s: State)
    requires Inv(s) && Enabled(s, Continue)
    ensures Attentive(Step(s, Continue), s.current)
  {
    var c := s.current;
    if s.tasks[c].kont.InRecv? {
      ReturnNotReceiving(Collect(s), OK, s.tasks[c].m, s.tasks[c].kont.after);
    } else {
      var InSend(dst, m, flags, src, after) := s.tasks[c].kont;
      var w := Wake(s);
      WakeKeeps(s);
      if NOTIFY_ABORTED in s.tasks[c].notifications {
        ReturnNotReceiving(Aborted(s), ErrAborted, m, after);
      } else {
        assert TaskOk(s, c);
        DeliverExecuting(w, dst, m, flags);
        var d := Deliver(w, dst, m, flags);
        RecvPhaseAttentive(d, src, flags, after);
        var (s1, res) := RecvPhase(d, src, flags, after);
        if res.Done? { ReturnNotReceiving(s1, res.err, m, after); }
      }
    }
  }

  lemma FaultAttentive(s: State)
    requires Good(s) && Executing(s)
    ensures Attentive(PageFault(s), s.current)
  {
    var pager := s.tasks[s.current].pager;
    PagersUsable(s);
    if pager != NO_TASK {
      IpcAttentive(s, pager, pager, PAGE_FAULT, CALL_KERNEL, ToFault);
      var (s1, res) := Ipc(s, pager, pager, PAGE_FAULT, CALL_KERNEL, ToFault);
      IpcKeeps(s, pager, pager, PAGE_FAULT, CALL_KERNEL, ToFault);
      if res.Done? { ReturnNotReceiving(s1, res.err, PAGE_FAULT, ToFault); }
    }
  }

  /** A task that has just gone to sleep in an open receive is never deaf. */
  lemma StepAttentive(s: State, e: Event)
    requires Good(s) && Enabled(s, e) && IsTask(s, s.current)
    ensures Attentive(Step(s, e), s.current)
  {
    var c := s.current;
    match e
    case SysIpc(dst, src, m, flags) =>
      if !flags.kernel && 0 <= src < |s.tasks| && (flags.send ==> InUse(s, dst)) {
        IpcAttentive(s, if flags.send then dst else NO_TASK, src, m, flags, ToUser);
      }
    case SysTaskExit => ExitNotReceiving(s);
    case Fault => FaultAttentive(s);
    case Continue => ContinueAttentive(s);
    case _ => OtherAttentive(s, e);
  }

  lemma OtherAttentive(s: State, e: Event)
    requires Good(s) && Enabled(s, e) && IsTask(s, s.current) && !e.SysIpc? && !e.SysTaskExit? && !e.Fault?
             && !e.Continue?
    ensures NotReceiving(Step(s, e), s.current)
  {
    if e.Tick? {
      TickNotReceiving(s);
    } else if e.SysTaskCreate? || e.SysTaskDestroy? || e.SysTaskSchedule? {
      TaskCallNotReceiving(s, e);
    } else {
      SmallCallNotReceiving(s, e);
    }
  }

  lemma TaskCallNotReceiving(s: State, e: Event)
    requires Good(s) && Enabled(s, e) && IsTask(s, s.current)
             && (e.SysTaskCreate? || e.SysTaskDestroy? || e.SysTaskSchedule?)
    ensures NotReceiving(Step(s, e), s.current)
  {
    if e.SysTaskDestroy? && IsTask(s, e.tid) && e.tid != s.current && DestroyError(s, e.tid) == OK {
      NoSelfPager(s, e.tid);
      DestroyIs(s, e.tid);
    }
  }

  lemma SmallCallNotReceiving(s: State, e: Event)
    requires Good(s) && Enabled(s, e) && IsTask(s, s.current)
    requires e.SysNotify? || e.SysTimerSet? || e.SysIrqAcquire? || e.SysIrqRelease? || e.Interrupt? || e.Reschedule?
    ensures NotReceiving(Step(s, e), s.current)
  {
    if e.SysNotify? {
      if InUse(s, e.target) { NotifyAwake(s, e.target, e.bits); }
    } else if e.Interrupt? {
      if s.irqOwners[e.irq] != NO_TASK { NotifyAwake(s, s.irqOwners[e.irq], {NOTIFY_IRQ}); }
    }
  }

  lemma NotifyAwake(s: State, t: Tid, bits: Bits)
    requires Shape(s) && IsTask(s, s.current) && s.tasks[s.current].state.Runnable? && IsTask(s, t)
    ensures Notify(s, t, bits).tasks[s.current].state.Runnable?
  {
  }

  /** The timer may send CURRENT to the end of its run queue, but not to sleep. */
  lemma TickNotReceiving(s: State)
    requires Inv(s) && IsTask(s, s.current)
    ensures NotReceiving(TimerIrq(s), s.current)
  {
    TimerIrqKeeps(s);
    TimeoutsAwake(s, 1);
  }

  lemma {:induction false} TimeoutsAwake(s: State, i: nat)
    requires Shape(s) && 1 <= i <= |s.tasks| && IsTask(s, s.current) && s.tasks[s.current].state.Runnable?
    ensures Timeouts(s, i).0.tasks[s.current].state.Runnable?
    decreases |s.tasks| - i
  {
    if i < |s.tasks| { TimeoutsAwake(TickTask(s, i), i + 1); }
  }

  // ---- deafness ---------------------------------------------------------------------------------

  /** The step ends the handoff from x to d without a delivery: x is destroyed, or finds its abort bit and goes on. */
  ghost predicate Silences(s: State, e: Event, x: Tid, d: Tid)
    requires Shape(s)
  {
    || (e == SysTaskDestroy(x) && s.tasks[s.current].caps && IsTask(s, x) && x != s.current && DestroyError(s, x) == OK)
    || (e.Continue? && s.current == x && IsTask(s, x) && NOTIFY_ABORTED in s.tasks[x].notifications
        && !(s.tasks[x].kont.InSend? && s.tasks[x].kont.after.ToFault? && s.tasks[x].pager == d))
  }

  /** A resumed sender that goes on with its delivery wakes its receiver up. */
  lemma DeliveryWakes(s: State, x: Tid, d: Tid)
    requires Good(s) && Delivering(s, x, d) && s.current == x && Enabled(s, Continue)
             && NOTIFY_ABORTED !in s.tasks[x].notifications
    ensures !ContinueSend(s).tasks[d].state.Blocked?
  {
    var InSend(dst, m, flags, src, after) := s.tasks[x].kont;
    var w := Wake(s);
    assert TaskOk(s, x);
    var r := Deliver(w, dst, m, flags);
    RecvPhaseLeaves(r, src, flags, after, d);
    var (s1, res) := RecvPhase(r, src, flags, after);
    if res.Done? { ReturnLeaves(s1, res.err, m, after, d); }
  }

  /** The sender of a page fault that has been aborted exits, and its pager hears of that instead. */
  lemma AbortedFaultWakes(s: State, x: Tid, d: Tid)
    requires Good(s) && Delivering(s, x, d) && s.current == x && Enabled(s, Continue)
    requires NOTIFY_ABORTED in s.tasks[x].notifications && s.tasks[x].kont.after.ToFault? && s.tasks[x].pager == d
    ensures !ContinueSend(s).tasks[d].state.Blocked?
  {
    assert TaskOk(s, x);
    var a := Aborted(s);
    assert ContinueSend(s) == Exit(a);
    ExitTells(a, d);
  }

  /** A pager that is ready for an exiting task wakes up. */
  lemma ExitTells(s: State, d: Tid)
    requires Awake(s) && s.tasks[s.current].pager == d && IsTask(s, d) && d != s.current && Ready(s, d)
    ensures !Exit(s).tasks[d].state.Blocked?
  {
    var s1 := Deliver(s, d, EXCEPTION, SEND_KERNEL);
    assert Ipc(s, d, IPC_ANY, EXCEPTION, SEND_KERNEL, ToExit) == (s1, Done(OK));
    RetireLeaves(s1, d);
  }

  /** Otherwise an aborted sender leaves the task that has resumed it as it is. */
  lemma AbortSilences(s: State, x: Tid, d: Tid)
    requires Good(s) && Delivering(s, x, d) && s.current == x && Enabled(s, Continue) && Silences(s, Continue, x, d)
    ensures var r := ContinueSend(s); SleepsOn(s, r, d) && !Delivering(r, x, d)
  {
    assert TaskOk(s, x);
    var after := s.tasks[x].kont.after;
    var a := Aborted(s);
    assert ContinueSend(s) == Return(a, ErrAborted, s.tasks[x].kont.msg, after);
    if after.ToFault? {
      ExitPasses(a, d);
    } else if after.ToExit? {
      RetirePasses(a, d);
    }
  }

  lemma RetirePasses(s: State, d: Tid)
    requires Awake(s) && IsTask(s, d) && d != s.current
    ensures SleepsOn(s, Retire(s), d) && !Retire(s).tasks[s.current].kont.InSend?
  {
  }

  lemma DeliverPasses(s: State, dst: Tid, m: Message, flags: IpcFlags, d: Tid)
    requires Awake(s) && IsTask(s, dst) && IsTask(s, d) && d != dst
    ensures SleepsOn(s, Deliver(s, dst, m, flags), d)
  {
  }

  lemma ParkSendPasses(s: State, dst: Tid, src: Tid, m: Message, flags: IpcFlags, after: After, d: Tid)
    requires Awake(s) && IsTask(s, dst) && dst != s.current && src >= 0 && IsTask(s, d) && d != dst && d != s.current
    ensures var r := Switch(ParkSend(s, dst, src, m, flags, after)); SleepsOn(s, r, d) && !Delivering(r, s.current, d)
  {
  }

  /** An exiting task turns to its pager alone. */
  lemma ExitPasses(s: State, d: Tid)
    requires Awake(s) && IsTask(s, d) && d != s.current && s.tasks[s.current].pager != d
    ensures SleepsOn(s, Exit(s), d) && !Delivering(Exit(s), s.current, d)
  {
    var pager := s.tasks[s.current].pager;
    if pager == s.current {
      RetirePasses(s, d);
    } else if pager != NO_TASK {
      if Ready(s, pager) {
        var s1 := Deliver(s, pager, EXCEPTION, SEND_KERNEL);
        DeliverPasses(s, pager, EXCEPTION, SEND_KERNEL, d);
        RetirePasses(s1, d);
      } else {
        ParkSendPasses(s, pager, IPC_ANY, EXCEPTION, SEND_KERNEL, ToExit, d);
      }
    }
  }

  lemma DestroySilences(s: State, d: Tid, x: Tid)
    requires Good(s) && Narrow(s, d, x) && Delivering(s, x, d) && x != s.current && DestroyError(s, x) == OK
    ensures Deaf(Destroy(s, x), d, x)
  {
    NoSelfPager(s, x);
    DestroyIs(s, x);
  }

  /** The end of a handoff into an open receive. */
  lemma SilencedIff(s: State, e: Event, d: Tid, x: Tid)
    requires Good(s) && Enabled(s, e) && Careful(s, e) && Narrow(s, d, x) && Delivering(s, x, d)
    ensures Deaf(Step(s, e), d, x) <==> Silences(s, e, x, d)
  {
    if e == SysTaskDestroy(x) {
      if s.tasks[s.current].caps && x != s.current && DestroyError(s, x) == OK { DestroySilences(s, d, x); }
    } else if s.current == x {
      if NOTIFY_ABORTED !in s.tasks[x].notifications {
        DeliveryWakes(s, x, d);
      } else if s.tasks[x].kont.after.ToFault? && s.tasks[x].pager == d {
        AbortedFaultWakes(s, x, d);
      } else {
        AbortSilences(s, x, d);
      }
    } else {
      StepSpares(s, e, x);
    }
  }

  /** An unused task stays unused or is created, and a created task is runnable. */
  lemma UnusedNotBlocked(s: State, e: Event, d: Tid)
    requires Good(s) && Enabled(s, e) && IsTask(s, d) && s.tasks[d].state.Unused?
    ensures Step(s, e).tasks[d].state.Unused?
            || (Step(s, e).tasks[d].state.Runnable? && Step(s, e).tasks[d].kont.Running?)
    ensures !(e.SysTaskCreate? && e.tid == d) ==> Step(s, e).tasks[d].state.Unused?
  {
    if e.SysTaskCreate? {
      if IsTask(s, e.tid) && InUse(s, e.pager) && CreateError(s, e.tid, e.tflags, e.archOk) == OK {
        CreateKeeps(s, e.tid, e.pager, e.tflags, e.archOk);
      }
    } else if e.SysTaskDestroy? {
      if IsTask(s, e.tid) && DestroyError(s, e.tid) == OK {
        NoSelfPager(s, e.tid);
        DestroyIs(s, e.tid);
      }
    } else {
      OrdinaryStep(s, e);
    }
  }

  lemma DestroyedNotBlocked(s: State, d: Tid)
    requires Good(s) && IsTask(s, d) && DestroyError(s, d) == OK
    ensures Destroy(s, d).tasks[d].state.Unused?
  {
    NoSelfPager(s, d);
    DestroyIs(s, d);
  }

  /**
   Which steps make a receiver deaf.  A task that is not deaf becomes so exactly when it waits in an open
   receive for a sender that it has resumed, and that sender is destroyed, or goes on with its abort bit set
   and does not exit towards this very task.
   */
  lemma DeafIff(s: State, e: Event, d: Tid, x: Tid)
    requires Good(s) && Enabled(s, e) && Careful(s, e) && IsTask(s, d) && !Deaf(s, d, x)
    ensures Deaf(Step(s, e), d, x) <==> Narrow(s, d, x) && Delivering(s, x, d) && Silences(s, e, x, d)
  {
    if Narrow(s, d, x) && Delivering(s, x, d) {
      SilencedIff(s, e, d, x);
    } else if s.tasks[d].state.Unused? {
      UnusedNotBlocked(s, e, d);
    } else if e == SysTaskDestroy(d) {
      if DestroyError(s, d) == OK { DestroyedNotBlocked(s, d); }
    } else if d == s.current {
      StepAttentive(s, e);
    } else {
      StepLeaves(s, e, d);
    }
  }

  /** The step neither runs x nor destroys d. */
  predicate Ignores(s: State, e: Event, d: Tid, x: Tid) {
    s.current != x && e != SysTaskDestroy(d)
  }

  /** A sender that sleeps is dormant unless it waits for CURRENT. */
  lemma SenderDormant(s: State, x: Tid)
    requires Good(s) && IsTask(s, x) && s.tasks[x].state.Blocked? && s.tasks[x].kont.InSend?
             && s.tasks[x].kont.dst != s.current
    ensures Dormant(s, x)
  {
    assert TaskOk(s, x);
    if IsTask(s, s.current) { assert SendersOk(s, s.current); }
  }

  lemma DeafDormant(s: State, d: Tid, x: Tid)
    requires Good(s) && Narrow(s, d, x) && s.current != x
    ensures Dormant(s, d)
  {
    if IsTask(s, s.current) { assert SendersOk(s, s.current); }
  }

  /** A task that is not about to deliver to d is not so after a step that it does not make itself. */
  lemma NotDeliveringStays(s: State, e: Event, d: Tid, x: Tid)
    requires Good(s) && Enabled(s, e) && Careful(s, e) && d != s.current && s.current != x && !Delivering(s, x, d)
    ensures !Delivering(Step(s, e), x, d)
  {
    if InUse(s, x) && e != SysTaskDestroy(x) {
      if s.tasks[x].state.Blocked? && s.tasks[x].kont.InSend? && s.tasks[x].kont.dst == d { SenderDormant(s, x); }
      StepLeaves(s, e, x);
    } else if IsTask(s, x) && s.tasks[x].state.Unused? {
      UnusedNotBlocked(s, e, x);
    } else if IsTask(s, x) && DestroyError(s, x) == OK {
      DestroyedNotBlocked(s, x);
    }
  }

  /** A deaf task receives nothing, and its notifications stay pending, until the task it waits for runs again. */
  lemma DeafStays(s: State, e: Event, d: Tid, x: Tid)
    requires Good(s) && Enabled(s, e) && Careful(s, e) && Deaf(s, d, x) && Ignores(s, e, d, x)
    ensures Deaf(Step(s, e), d, x) && SleepsOn(s, Step(s, e), d)
  {
    DeafDormant(s, d, x);
    StepLeaves(s, e, d);
    NotDeliveringStays(s, e, d, x);
  }

  // ---- how deafness ends ------------------------------------------------------------------------

  /** d sleeps, neither in an open receive nor in a queue of CURRENT. */
  ghost predicate Aside(s: State, d: Tid) {
    && Shape(s) && IsTask(s, d) && d != s.current && s.tasks[d].state.Blocked? && s.tasks[d].src != IPC_ANY
    && (IsTask(s, s.current) ==> d !in s.tasks[s.current].senders)
  }

  /** From s to r CURRENT has done nothing to d, and is not about to. */
  ghost predicate Passes(s: State, r: State, d: Tid) {
    Shape(s) && Shape(r) && |r.tasks| == |s.tasks| && IsTask(s, d) && SleepsOn(s, r, d) && !Delivering(r, s.current, d)
  }

  lemma PassesOn(s: State, m: State, r: State, d: Tid)
    requires Shape(s) && Shape(m) && |m.tasks| == |s.tasks| && IsTask(s, d) && SleepsOn(s, m, d)
    requires m.current == s.current && Passes(m, r, d)
    ensures Passes(s, r, d)
  {
  }

  /** CURRENT is still in its own code, and d aside. */
  ghost predicate StillAside(s: State, r: State, d: Tid) {
    Awake(s) && Awake(r) && Aside(r, d) && r.current == s.current && |r.tasks| == |s.tasks|
      && r.tasks[r.current].pager == s.tasks[s.current].pager
  }

  lemma SleepPasses(s: State, src: Tid, after: After, d: Tid)
    requires Awake(s) && Aside(s, d)
    ensures Passes(s, Switch(ParkRecv(s, src, after)), d)
  {
    var q := s.tasks[s.current].senders;
    var i := FirstSender(q, src);
    if i < |q| { assert q[i] in q; }
  }

  lemma RecvPhasePasses(s: State, src: Tid, flags: IpcFlags, after: After, d: Tid)
    requires Awake(s) && Aside(s, d) && src >= 0
    ensures var (r, res) := RecvPhase(s, src, flags, after);
            Passes(s, r, d) && (res.Done? ==> StillAside(s, r, d))
  {
    SleepPasses(s, src, after, d);
  }

  lemma DeliverAside(s: State, dst: Tid, m: Message, flags: IpcFlags, d: Tid)
    requires Awake(s) && Aside(s, d) && IsTask(s, dst) && Ready(s, dst) && dst != d
    ensures var r := Deliver(s, dst, m, flags);
            StillAside(s, r, d) && SleepsOn(s, r, d)
  {
  }

  lemma IpcPasses(s: State, dst: Tid, src: Tid, m: Message, flags: IpcFlags, after: After, d: Tid)
    requires Awake(s) && Aside(s, d) && src >= 0 && (flags.send ==> IsTask(s, dst) && dst != d)
    ensures var (r, res) := Ipc(s, dst, src, m, flags, after);
            Passes(s, r, d) && (res.Done? ==> StillAside(s, r, d))
  {
    if flags.send && dst == s.current {
    } else if Fastpath(s, dst, flags) {
      var plain := IpcFlags(true, true, false, false, false);
      DeliverAside(s, dst, m, plain, d);
      SleepPasses(Deliver(s, dst, m, plain), src, after, d);
      PassesOn(s, Deliver(s, dst, m, plain), Ipc(s, dst, src, m, flags, after).0, d);
    } else if !flags.send {
      RecvPhasePasses(s, src, flags, after, d);
    } else if Ready(s, dst) {
      DeliverAside(s, dst, m, flags, d);
      RecvPhasePasses(Deliver(s, dst, m, flags), src, flags, after, d);
      PassesOn(s, Deliver(s, dst, m, flags), Ipc(s, dst, src, m, flags, after).0, d);
    } else if !flags.noblock {
      ParkSendPasses(s, dst, src, m, flags, after, d);
    }
  }

  /** ipc() has returned, and CURRENT exits and tells d. */
  predicate TellsOnReturn(s: State, err: Error, m: Message, after: After, d: Tid)
    requires Shape(s)
  {
    after.ToFault? && (err != OK || m.typ != PageFaultReplyMsg) && s.tasks[s.current].pager == d
  }

  lemma ReturnPassesOrTells(s: State, err: Error, m: Message, after: After, d: Tid)
    requires Awake(s) && Aside(s, d) && s.tasks[d].src == s.current
    ensures if TellsOnReturn(s, err, m, after, d) then !Return(s, err, m, after).tasks[d].state.Blocked?
            else Passes(s, Return(s, err, m, after), d)
  {
    if TellsOnReturn(s, err, m, after, d) {
      ExitTells(s, d);
    } else if after.ToFault? && (err != OK || m.typ != PageFaultReplyMsg) {
      ExitPasses(s, d);
    } else if after.ToExit? {
      RetirePasses(s, d);
    }
  }

  /** CURRENT goes on behind its task_switch() and then tells d that it exits. */
  ghost predicate TellsOnContinue(s: State, d: Tid)
    requires Shape(s) && IsTask(s, s.current)
  {
    var c := s.tasks[s.current];
    match c.kont
    case InRecv(_, after) => TellsOnReturn(s, OK, c.m, after, d)
    case InSend(dst, m, flags, src, after) =>
      if NOTIFY_ABORTED in c.notifications then TellsOnReturn(s, ErrAborted, m, after, d)
      else
        var res := RecvPhase(Deliver(Wake(s), dst, m, flags), src, flags, after).1;
        res.Done? && TellsOnReturn(s, res.err, m, after, d)
    case _ => false
  }

  /** The delivery to dst, the receive behind it, and the return. */
  lemma SentHeard(w: State, dst: Tid, m: Message, flags: IpcFlags, src: Tid, after: After, d: Tid)
    requires Awake(w) && Aside(w, d) && w.tasks[d].src == w.current && IsTask(w, dst) && Ready(w, dst) && dst != d
    requires src >= 0
    ensures var (r, res) := RecvPhase(Deliver(w, dst, m, flags), src, flags, after);
            && (!res.Done? ==> Passes(w, r, d))
            && (res.Done? ==>
                  if TellsOnReturn(w, res.err, m, after, d) then !Return(r, res.err, m, after).tasks[d].state.Blocked?
                  else Passes(w, Return(r, res.err, m, after), d))
  {
    var e := Deliver(w, dst, m, flags);
    DeliverAside(w, dst, m, flags, d);
    RecvPhasePasses(e, src, flags, after, d);
    var (r, res) := RecvPhase(e, src, flags, after);
    PassesOn(w, e, r, d);
    if res.Done? {
      ReturnPassesOrTells(r, res.err, m, after, d);
      if !TellsOnReturn(w, res.err, m, after, d) { PassesOn(w, r, Return(r, res.err, m, after), d); }
    }
  }

  lemma ContinueSendHeard(s: State, d: Tid)
    requires Aside(s, d) && IsTask(s, s.current) && s.tasks[s.current].state.Runnable? && s.tasks[d].src == s.current
    requires s.tasks[s.current].kont.InSend? && NOTIFY_ABORTED !in s.tasks[s.current].notifications
    requires var k := s.tasks[s.current].kont; Ready(s, k.dst) && k.dst != d
    ensures if TellsOnContinue(s, d) then !ContinueSend(s).tasks[d].state.Blocked? else Passes(s, ContinueSend(s), d)
  {
    var InSend(dst, m, flags, src, after) := s.tasks[s.current].kont;
    SentHeard(Wake(s), dst, m, flags, src, after, d);
    if !TellsOnContinue(s, d) { PassesOn(s, Wake(s), ContinueSend(s), d); }
  }

  lemma ContinueHeard(s: State, d: Tid)
    requires Aside(s, d) && IsTask(s, s.current) && s.tasks[s.current].state.Runnable? && s.tasks[d].src == s.current
    requires s.tasks[s.current].kont.InRecv? || s.tasks[s.current].kont.InSend?
    requires var k := s.tasks[s.current].kont; k.InSend? ==> Ready(s, k.dst) && k.dst != d
    ensures var r := if s.tasks[s.current].kont.InSend? then ContinueSend(s) else ContinueRecv(s);
            if TellsOnContinue(s, d) then !r.tasks[d].state.Blocked? else Passes(s, r, d)
  {
    var c := s.tasks[s.current];
    if c.kont.InRecv? {
      var w := Collect(s);
      ReturnPassesOrTells(w, OK, c.m, c.kont.after, d);
      if !TellsOnContinue(s, d) { PassesOn(s, w, ContinueRecv(s), d); }
    } else if NOTIFY_ABORTED in c.notifications {
      ReturnPassesOrTells(Aborted(s), ErrAborted, c.kont.msg, c.kont.after, d);
      if !TellsOnContinue(s, d) { PassesOn(s, Aborted(s), ContinueSend(s), d); }
    } else {
      ContinueSendHeard(s, d);
    }
  }

  lemma FaultHeard(s: State, d: Tid)
    requires Awake(s) && Aside(s, d) && s.tasks[d].src == s.current && s.tasks[s.current].pager != s.current
    ensures if s.tasks[s.current].pager == d then !PageFault(s).tasks[d].state.Blocked? else Passes(s, PageFault(s), d)
  {
    var pager := s.tasks[s.current].pager;
    if pager == d {
      RecvPhaseLeaves(Deliver(s, d, PAGE_FAULT, CALL_KERNEL), d, CALL_KERNEL, ToFault, d);
    } else if pager != NO_TASK {
      IpcPasses(s, pager, pager, PAGE_FAULT, CALL_KERNEL, ToFault, d);
    }
  }

  lemma ExitHeard(s: State, d: Tid)
    requires Awake(s) && Aside(s, d) && s.tasks[d].src == s.current
    ensures if s.tasks[s.current].pager == d then !Exit(s).tasks[d].state.Blocked? else Passes(s, Exit(s), d)
  {
    if s.tasks[s.current].pager == d { ExitTells(s, d); } else { ExitPasses(s, d); }
  }

  /** A message of the task that d waits for reaches d at once. */
  lemma IpcHeard(s: State, d: Tid, src: Tid, m: Message, flags: IpcFlags)
    requires Awake(s) && Aside(s, d) && s.tasks[d].src == s.current
    requires flags.send && !flags.kernel && 0 <= src < |s.tasks|
    ensures !SysIpcStep(s, d, src, m, flags).tasks[d].state.Blocked?
  {
    if Fastpath(s, d, flags) {
      SleepLeaves(Deliver(s, d, m, IpcFlags(true, true, false, false, false)), src, ToUser, d);
    } else {
      RecvPhaseLeaves(Deliver(s, d, m, flags), src, flags, ToUser, d);
    }
  }

  lemma NotifyPasses(s: State, t: Tid, bits: Bits, d: Tid)
    requires Aside(s, d) && IsTask(s, t)
    ensures SleepsOn(s, Notify(s, t, bits), d) && Aside(Notify(s, t, bits), d)
  {
  }

  lemma TickTaskPasses(s: State, i: nat, d: Tid)
    requires Aside(s, d) && IsTask(s, i)
    ensures SleepsOn(s, TickTask(s, i), d) && Aside(TickTask(s, i), d)
  {
    if !s.tasks[i].state.Unused? && s.tasks[i].timeout > 0 {
      NotifyPasses(Set(s, i, s.tasks[i].(timeout := s.tasks[i].timeout - 1)), i, {NOTIFY_TIMER}, d);
    }
  }

  lemma {:induction false} TimeoutsPasses(s: State, i: nat, d: Tid)
    requires Aside(s, d) && 1 <= i <= |s.tasks|
    ensures SleepsOn(s, Timeouts(s, i).0, d) && Aside(Timeouts(s, i).0, d)
    decreases |s.tasks| - i
  {
    if i < |s.tasks| {
      TickTaskPasses(s, i, d);
      TimeoutsPasses(TickTask(s, i), i + 1, d);
    }
  }

  lemma SwitchPasses(s: State, d: Tid)
    requires Aside(s, d) && IsTask(s, s.current) && s.tasks[s.current].kont.Running?
    ensures Passes(s, Switch(s), d)
  {
  }

  lemma NotifyRunning(s: State, t: Tid, bits: Bits)
    requires Shape(s) && IsTask(s, t)
    ensures Notify(s, t, bits).tasks[s.current].kont == s.tasks[s.current].kont
  {
  }

  lemma CreatePasses(s: State, t: Tid, pager: Tid, flags: TaskFlags, archOk: bool, d: Tid)
    requires Aside(s, d) && Awake(s) && IsTask(s, t) && t != s.current && IsTask(s, pager)
    ensures Passes(s, Create(s, t, pager, flags, archOk), d)
  {
  }

  lemma DestroyedPasses(s: State, r: State, t: Tid, d: Tid)
    requires Aside(s, d) && Awake(s) && IsTask(s, t) && t != s.current && t != d
    requires Shape(r) && |r.tasks| == |s.tasks| && Destroyed(s, r, t)
    ensures Passes(s, r, d)
  {
  }

  lemma DestroyPasses(s: State, t: Tid, d: Tid)
    requires Good(s) && Aside(s, d) && Awake(s) && IsTask(s, t) && t != s.current && t != d
    ensures Passes(s, Destroy(s, t), d)
  {
    if DestroyError(s, t) == OK {
      NoSelfPager(s, t);
      DestroyIs(s, t);
      DestroyedPasses(s, Destroy(s, t), t, d);
    }
  }

  lemma SchedulePasses(s: State, t: Tid, priority: int, d: Tid)
    requires Aside(s, d) && Awake(s) && IsTask(s, t) && t != s.current
    ensures Passes(s, Schedule(s, t, priority), d)
  {
  }

  lemma TaskCallPasses(s: State, e: Event, d: Tid)
    requires Good(s) && Enabled(s, e) && Aside(s, d) && Awake(s) && e != SysTaskDestroy(d)
    requires e.SysTaskCreate? || e.SysTaskDestroy? || e.SysTaskSchedule?
    ensures Passes(s, Step(s, e), d)
  {
    if IsTask(s, e.tid) && e.tid != s.current {
      match e
      case SysTaskCreate(t, pager, flags, archOk) => if InUse(s, pager) { CreatePasses(s, t, pager, flags, archOk, d); }
      case SysTaskDestroy(t) => DestroyPasses(s, t, d);
      case SysTaskSchedule(t, priority) => SchedulePasses(s, t, priority, d);
    }
  }

  lemma TickTaskRunning(s: State, i: nat)
    requires Shape(s) && IsTask(s, i)
    ensures TickTask(s, i).tasks[s.current].kont == s.tasks[s.current].kont
  {
    if !s.tasks[i].state.Unused? && s.tasks[i].timeout > 0 {
      NotifyRunning(Set(s, i, s.tasks[i].(timeout := s.tasks[i].timeout - 1)), i, {NOTIFY_TIMER});
    }
  }

  lemma {:induction false} TimeoutsRunning(s: State, i: nat)
    requires Shape(s) && 1 <= i <= |s.tasks|
    ensures Timeouts(s, i).0.tasks[s.current].kont == s.tasks[s.current].kont
    decreases |s.tasks| - i
  {
    if i < |s.tasks| {
      TickTaskRunning(s, i);
      TimeoutsRunning(TickTask(s, i), i + 1);
    }
  }

  lemma QuantumPasses(s: State, expired: bool, d: Tid)
    requires Aside(s, d) && IsTask(s, s.current) && s.tasks[s.current].kont.Running?
    ensures Passes(s, UseQuantum(s, expired), d)
  {
    SwitchPasses(Set(s, s.current, s.tasks[s.current].(quantum := s.tasks[s.current].quantum - 1)), d);
  }

  lemma TickPasses(s: State, d: Tid)
    requires Aside(s, d) && Awake(s)
    ensures Passes(s, TimerIrq(s), d)
  {
    var (r, expired) := Timeouts(s, 1);
    TimeoutsPasses(s, 1, d);
    TimeoutsRunning(s, 1);
    QuantumPasses(r, expired, d);
    PassesOn(s, r, TimerIrq(s), d);
  }

  /** The other calls and interrupts do not concern d. */
  lemma OtherPasses(s: State, e: Event, d: Tid)
    requires Aside(s, d) && Awake(s) && Enabled(s, e)
    requires e.SysNotify? || e.SysTimerSet? || e.SysIrqAcquire? || e.SysIrqRelease? || e.Interrupt? || e.Reschedule?
    ensures Passes(s, Step(s, e), d)
  {
    if e.SysNotify? {
      if InUse(s, e.target) {
        NotifyPasses(s, e.target, e.bits, d);
        NotifyRunning(s, e.target, e.bits);
      }
    } else if e.Interrupt? {
      if s.irqOwners[e.irq] != NO_TASK {
        NotifyPasses(s, s.irqOwners[e.irq], {NOTIFY_IRQ}, d);
        NotifyRunning(s, s.irqOwners[e.irq], {NOTIFY_IRQ});
      }
    }
  }

  /** The step destroys d. */
  predicate Destroys(s: State, e: Event, d: Tid)
    requires Shape(s)
  {
    e == SysTaskDestroy(d) && IsTask(s, d) && s.tasks[s.current].caps && d != s.current && DestroyError(s, d) == OK
  }

  /** The step is one in which x delivers to d: a message, or the word of its fault or its exit. */
  ghost predicate Tells(s: State, e: Event, x: Tid, d: Tid)
    requires Shape(s)
  {
    && s.current == x && IsTask(s, x)
    && match e
       case SysIpc(dst, src, m, flags) => flags.send && dst == d && !flags.kernel && 0 <= src < |s.tasks|
       case SysTaskExit => s.tasks[x].pager == d
       case Fault => s.tasks[x].pager == d
       case Continue => TellsOnContinue(s, d)
       case _ => false
  }

  /** What x does to a task that is deaf to all others. */
  lemma TellsOrPasses(s: State, e: Event, d: Tid, x: Tid)
    requires Good(s) && Enabled(s, e) && Deaf(s, d, x) && s.current == x && e != SysTaskDestroy(d)
    ensures if Tells(s, e, x, d) then !Step(s, e).tasks[d].state.Blocked? else Passes(s, Step(s, e), d)
  {
    assert TaskOk(s, x) && SendersOk(s, x);
    assert Aside(s, d);
    if e.SysIpc? {
      IpcTellsOrPasses(s, e, d);
    } else if e.SysTaskExit? {
      ExitHeard(s, d);
    } else if e.Fault? {
      NoSelfPager(s, x);
      FaultHeard(s, d);
    } else if e.Continue? {
      ContinueHeard(s, d);
    } else if e.Tick? {
      TickPasses(s, d);
    } else if e.SysTaskCreate? || e.SysTaskDestroy? || e.SysTaskSchedule? {
      TaskCallPasses(s, e, d);
    } else {
      OtherPasses(s, e, d);
    }
  }

  lemma IpcTellsOrPasses(s: State, e: Event, d: Tid)
    requires Awake(s) && Aside(s, d) && s.tasks[d].src == s.current && e.SysIpc? && Enabled(s, e)
    ensures if Tells(s, e, s.current, d) then !Step(s, e).tasks[d].state.Blocked? else Passes(s, Step(s, e), d)
  {
    var SysIpc(dst, src, m, flags) := e;
    if Tells(s, e, s.current, d) {
      IpcHeard(s, d, src, m, flags);
    } else if !flags.kernel && 0 <= src < |s.tasks| && (flags.send ==> InUse(s, dst)) {
      IpcPasses(s, if flags.send then dst else NO_TASK, src, m, flags, ToUser, d);
    }
  }

  /**
   Deafness ends if and only if the task is destroyed, or the one task it hears delivers to it: by ipc(), or
   because it faults or exits and has this task for its pager.
   */
  lemma HeardIff(s: State, e: Event, d: Tid, x: Tid)
    requires Good(s) && Enabled(s, e) && Careful(s, e) && Deaf(s, d, x)
    ensures !Deaf(Step(s, e), d, x) <==> Destroys(s, e, d) || Tells(s, e, x, d)
  {
    if e == SysTaskDestroy(d) {
      if Destroys(s, e, d) { DestroyedNotBlocked(s, d); }
    } else if s.current == x {
      TellsOrPasses(s, e, d, x);
    } else {
      DeafStays(s, e, d, x);
    }
  }

  // ---- whole runs -----------------------------------------------------------------------------

  /** From s to r, d has stayed deaf and has received nothing. */
  ghost predicate DeafOn(s: State, r: State, d: Tid, x: Tid) {
    Shape(s) && Shape(r) && |r.tasks| == |s.tasks| && (Deaf(s, d, x) ==> Deaf(r, d, x) && SleepsOn(s, r, d))
  }

  lemma {:induction false} ChainDeaf(run: seq<State>, i: nat, j: nat, d: Tid, x: Tid)
    requires i <= j < |run| && Shape(run[i])
    requires forall k :: i <= k < j ==> DeafOn(run[k], run[k + 1], d, x)
    ensures DeafOn(run[i], run[j], d, x)
    decreases j
  {
    if i < j {
      ChainDeaf(run, i, j - 1, d, x);
      assert DeafOn(run[j - 1], run[j - 1 + 1], d, x);
    }
  }

  /** A deaf task sleeps on, with everything that is notified to it pending, for as long as x does not run. */
  lemma DeafLasts(run: seq<State>, events: seq<Event>, i: nat, j: nat, d: Tid, x: Tid)
    requires IsRun(run, events) && i <= j < |run| && Shape(run[i]) && Deaf(run[i], d, x)
    requires forall k :: i <= k < j ==> Ignores(run[k], events[k], d, x)
    ensures DeafOn(run[i], run[j], d, x)
  {
    forall k | i <= k < j ensures DeafOn(run[k], run[k + 1], d, x) {
      RunIsGood(run, events, k);
      if Deaf(run[k], d, x) { DeafStays(run[k], events[k], d, x); }
    }
    ChainDeaf(run, i, j, d, x);
  }

  lemma {:induction false} UnusedLasts(run: seq<State>, events: seq<Event>, i: nat, j: nat, x: Tid)
    requires IsRun(run, events) && i <= j < |run| && IsTask(run[i], x) && run[i].tasks[x].state.Unused?
    requires forall k :: i <= k < j ==> !(events[k].SysTaskCreate? && events[k].tid == x)
    ensures IsTask(run[j], x) && run[j].tasks[x].state.Unused? && run[j].current != x
    decreases j
  {
    RunIsGood(run, events, j);
    if i < j {
      UnusedLasts(run, events, i, j - 1, x);
      RunIsGood(run, events, j - 1);
      UnusedNotBlocked(run[j - 1], events[j - 1], x);
    }
  }

  /**
   A task that waits for a destroyed sender is deaf until a new task is created in that slot, or it is
   destroyed itself.
   */
  lemma DeafUntilCreated(run: seq<State>, events: seq<Event>, i: nat, j: nat, d: Tid, x: Tid)
    requires IsRun(run, events) && i <= j < |run| && Shape(run[i]) && Deaf(run[i], d, x)
    requires IsTask(run[i], x) && run[i].tasks[x].state.Unused?
    requires forall k :: i <= k < j ==>
             events[k] != SysTaskDestroy(d) && !(events[k].SysTaskCreate? && events[k].tid == x)
    ensures DeafOn(run[i], run[j], d, x)
  {
    forall k | i <= k < j ensures Ignores(run[k], events[k], d, x) { UnusedLasts(run, events, i, k, x); }
    DeafLasts(run, events, i, j, d, x);
  }
}
