/**
 Time slices: how many timer ticks may pass before the kernel switches, and so
 before a waiting task runs.
 */
module KernelTimeSlice {
  import opened KernelSpec
  import opened KernelInvariant
  import opened KernelRuns
  import opened KernelScheduling

  /** What is left of the time slice of CURRENT. */
  function Left(s: State): int
    requires 0 <= s.current < |s.tasks|
  {
    s.tasks[s.current].quantum
  }

  /** No switch, and the time slice is as it was. */
  ghost predicate Quiet(s: State, r: State) {
    Shape(s) && Shape(r) && |r.tasks| == |s.tasks| && r.switches == s.switches && r.current == s.current
      && Left(r) == Left(s)
  }

  /** Quiet, or a switch to a task with a new time slice. */
  ghost predicate Clocked(s: State, r: State) {
    Quiet(s, r) || (Shape(s) && Shape(r) && |r.tasks| == |s.tasks| && r.switches > s.switches
      && Left(r) == TASK_TIME_SLICE)
  }

  lemma QuietThen(a: State, b: State, c: State)
    requires Quiet(a, b) && Clocked(b, c)
    ensures Clocked(a, c)
  {
  }

  lemma QuietTrans(a: State, b: State, c: State)
    requires Quiet(a, b) && Quiet(b, c)
    ensures Quiet(a, c)
  {
  }

  lemma SwitchClocked(s: State)
    requires Shape(s)
    ensures Clocked(s, Switch(s)) && Switch(s).switches == s.switches + 1
  {
  }

  // ---- messages ---------------------------------------------------------------------------

  lemma NotifyQuiet(s: State, t: Tid, bits: Bits)
    requires Shape(s) && IsTask(s, t)
    ensures Quiet(s, Notify(s, t, bits))
  {
  }

  lemma DeliverQuiet(s: State, dst: Tid, m: Message, flags: IpcFlags)
    requires Shape(s) && IsTask(s, dst)
    ensures Quiet(s, Deliver(s, dst, m, flags))
  {
  }

  lemma SleepClocked(s: State, src: Tid, after: After)
    requires Shape(s) && IsTask(s, s.current)
    ensures Clocked(s, Switch(ParkRecv(s, src, after)))
  {
    SwitchClocked(ParkRecv(s, src, after));
  }

  lemma RecvPhaseClocked(s: State, src: Tid, flags: IpcFlags, after: After)
    requires Shape(s) && IsTask(s, s.current) && src >= 0
    ensures var r := RecvPhase(s, src, flags, after); Clocked(s, r.0) && (r.1.Done? ==> Quiet(s, r.0))
  {
    if flags.recv { SleepClocked(s, src, after); }
  }

  lemma DeliverRecvClocked(s: State, dst: Tid, m: Message, flags: IpcFlags, src: Tid, after: After)
    requires Shape(s) && IsTask(s, s.current) && IsTask(s, dst) && src >= 0
    ensures var r := RecvPhase(Deliver(s, dst, m, flags), src, flags, after);
            Clocked(s, r.0) && (r.1.Done? ==> Quiet(s, r.0))
  {
    var d := Deliver(s, dst, m, flags);
    DeliverQuiet(s, dst, m, flags);
    RecvPhaseClocked(d, src, flags, after);
    QuietThen(s, d, RecvPhase(d, src, flags, after).0);
  }

  lemma SlowpathClocked(s: State, dst: Tid, src: Tid, m: Message, flags: IpcFlags, after: After)
    requires Shape(s) && IsTask(s, s.current) && src >= 0 && (flags.send ==> IsTask(s, dst) && dst != s.current)
    ensures var r := IpcSlowpath(s, dst, src, m, flags, after); Clocked(s, r.0) && (r.1.Done? ==> Quiet(s, r.0))
  {
    if !flags.send {
      RecvPhaseClocked(s, src, flags, after);
    } else if Ready(s, dst) {
      DeliverRecvClocked(s, dst, m, flags, src, after);
    } else if !flags.noblock {
      SwitchClocked(ParkSend(s, dst, src, m, flags, after));
    }
  }

  lemma FastpathClocked(s: State, dst: Tid, src: Tid, m: Message, after: After)
    requires Shape(s) && IsTask(s, s.current) && src >= 0 && IsTask(s, dst) && dst != s.current
    ensures var r := IpcFastpath(s, dst, src, m, after); Clocked(s, r.0) && r.1.Parked?
  {
    var s1 := Resume(Write(s, dst, s.current, m.(src := s.current)), dst);
    assert Quiet(s, s1);
    SleepClocked(s1, src, after);
    QuietThen(s, s1, Switch(ParkRecv(s1, src, after)));
  }

  lemma IpcClocked(s: State, dst: Tid, src: Tid, m: Message, flags: IpcFlags, after: After)
    requires Shape(s) && IsTask(s, s.current) && src >= 0 && (flags.send ==> IsTask(s, dst))
    ensures var r := Ipc(s, dst, src, m, flags, after); Clocked(s, r.0) && (r.1.Done? ==> Quiet(s, r.0))
  {
    if flags.send && dst == s.current {
    } else if Fastpath(s, dst, flags) {
      FastpathClocked(s, dst, src, m, after);
    } else {
      SlowpathClocked(s, dst, src, m, flags, after);
    }
  }

  // ---- exits, faults and resumed system calls ---------------------------------------------

  lemma RetireClocked(s: State)
    requires Shape(s) && IsTask(s, s.current)
    ensures Clocked(s, Retire(s))
  {
    SwitchClocked(Set(s, s.current, s.tasks[s.current].(state := Blocked, src := IPC_DENY, kont := Exited)));
  }

  lemma ExitClocked(s: State)
    requires Shape(s) && IsTask(s, s.current)
    ensures Clocked(s, Exit(s))
  {
    var pager := s.tasks[s.current].pager;
    if pager != NO_TASK {
      IpcClocked(s, pager, IPC_ANY, EXCEPTION, SEND_KERNEL, ToExit);
      var (s1, res) := Ipc(s, pager, IPC_ANY, EXCEPTION, SEND_KERNEL, ToExit);
      if res.Done? {
        RetireClocked(s1);
        QuietThen(s, s1, Retire(s1));
      }
    }
  }

  lemma ReturnClocked(s: State, err: Error, m: Message, after: After)
    requires Shape(s) && IsTask(s, s.current)
    ensures Clocked(s, Return(s, err, m, after))
  {
    if after.ToFault? { ExitClocked(s); } else if after.ToExit? { RetireClocked(s); }
  }

  lemma PageFaultClocked(s: State)
    requires Shape(s) && IsTask(s, s.current)
    ensures Clocked(s, PageFault(s))
  {
    var pager := s.tasks[s.current].pager;
    if pager != NO_TASK {
      IpcClocked(s, pager, pager, PAGE_FAULT, CALL_KERNEL, ToFault);
      var (s1, res) := Ipc(s, pager, pager, PAGE_FAULT, CALL_KERNEL, ToFault);
      if res.Done? {
        ReturnClocked(s1, res.err, PAGE_FAULT, ToFault);
        QuietThen(s, s1, Return(s1, res.err, PAGE_FAULT, ToFault));
      }
    }
  }

  lemma ContinueSendClocked(s: State)
    requires Shape(s) && IsTask(s, s.current) && s.tasks[s.current].kont.InSend?
    ensures Clocked(s, ContinueSend(s))
  {
    var c := s.current;
    var InSend(dst, m, flags, src, after) := s.tasks[c].kont;
    var w := Wake(s);
    assert Quiet(s, w);
    if NOTIFY_ABORTED in s.tasks[c].notifications {
      var s1 := Log(w, c, w.hist[c].(consumed := w.hist[c].consumed + {NOTIFY_ABORTED}));
      var s2 := Set(s1, c, s1.tasks[c].(notifications := s1.tasks[c].notifications - {NOTIFY_ABORTED}));
      ReturnClocked(s2, ErrAborted, m, after);
      QuietThen(s, s2, Return(s2, ErrAborted, m, after));
    } else {
      DeliverRecvClocked(w, dst, m, flags, src, after);
      var (s1, res) := RecvPhase(Deliver(w, dst, m, flags), src, flags, after);
      if res.Done? {
        ReturnClocked(s1, res.err, m, after);
        QuietTrans(s, w, s1);
        QuietThen(s, s1, Return(s1, res.err, m, after));
      } else {
        QuietThen(s, w, s1);
      }
    }
  }

  lemma ContinueRecvClocked(s: State)
    requires Shape(s) && IsTask(s, s.current) && s.tasks[s.current].kont.InRecv?
    ensures Clocked(s, ContinueRecv(s))
  {
    var s1 := Collect(s);
    assert Quiet(s, s1);
    ReturnClocked(s1, OK, s.tasks[s.current].m, s.tasks[s.current].kont.after);
    QuietThen(s, s1, ContinueRecv(s));
  }

  // ---- tasks and interrupts -----------------------------------------------------------------

  lemma CreateQuiet(s: State, t: Tid, pager: Tid, flags: TaskFlags, archOk: bool)
    requires Good(s) && IsTask(s, t) && t != s.current && InUse(s, pager)
    ensures Quiet(s, Create(s, t, pager, flags, archOk))
  {
  }

  lemma DestroyQuiet(s: State, t: Tid)
    requires Good(s) && IsTask(s, t) && t != s.current
    ensures Quiet(s, Destroy(s, t))
  {
    if DestroyError(s, t) == OK {
      NoSelfPager(s, t);
      DestroyIs(s, t);
    }
  }

  lemma IrqClocked(s: State, irq: nat)
    requires Shape(s) && irq < |s.irqOwners|
    ensures Clocked(s, Irq(s, irq))
  {
    var owner := s.irqOwners[irq];
    if owner != NO_TASK {
      var s1 := Notify(s, owner, {NOTIFY_IRQ});
      NotifyQuiet(s, owner, {NOTIFY_IRQ});
      SwitchClocked(s1);
      QuietThen(s, s1, Switch(s1));
    }
  }

  lemma {:induction false} TimeoutsQuiet(s: State, i: nat)
    requires Shape(s) && 1 <= i <= |s.tasks|
    ensures Quiet(s, Timeouts(s, i).0)
    decreases |s.tasks| - i
  {
    if i < |s.tasks| {
      assert Quiet(s, TickTask(s, i));
      TimeoutsQuiet(TickTask(s, i), i + 1);
      QuietTrans(s, TickTask(s, i), Timeouts(s, i).0);
    }
  }

  /** A timer tick switches, or takes one tick off a time slice that had one left. */
  lemma TickTakesOne(s: State)
    requires Shape(s)
    ensures var r := TimerIrq(s);
            || (r.switches > s.switches && Left(r) == TASK_TIME_SLICE)
            || (r.switches == s.switches && r.current == s.current && 0 <= Left(r) == Left(s) - 1)
  {
    TimeoutsQuiet(s, 1);
    var s1 := Timeouts(s, 1).0;
    SwitchClocked(Set(s1, s1.current, s1.tasks[s1.current].(quantum := s1.tasks[s1.current].quantum - 1)));
  }

  /** Every event but the timer tick. */
  lemma StepClocked(s: State, e: Event)
    requires Good(s) && Enabled(s, e) && !e.Tick?
    ensures Clocked(s, Step(s, e))
  {
    var c := s.current;
    match e
    case SysIpc(dst, src, m, flags) =>
      if !flags.kernel && 0 <= src < |s.tasks| && (flags.send ==> InUse(s, dst)) {
        IpcClocked(s, if flags.send then dst else NO_TASK, src, m, flags, ToUser);
      }
    case SysNotify(t, bits) => if InUse(s, t) { NotifyQuiet(s, t, bits); }
    case SysTaskCreate(t, pager, flags, archOk) => if IsTask(s, t) && t != c && InUse(s, pager) {
      CreateQuiet(s, t, pager, flags, archOk);
    }
    case SysTaskDestroy(t) => if IsTask(s, t) && t != c { DestroyQuiet(s, t); }
    case SysTaskExit => ExitClocked(s);
    case Fault => PageFaultClocked(s);
    case Interrupt(irq) => IrqClocked(s, irq);
    case Reschedule => SwitchClocked(s);
    case Continue => if s.tasks[c].kont.InSend? { ContinueSendClocked(s); } else { ContinueRecvClocked(s); }
    case _ =>
  }

  // ---- whole runs -------------------------------------------------------------------------

  function TickOf(e: Event): nat {
    if e.Tick? then 1 else 0
  }

  function Ticks(events: seq<Event>, i: nat, j: nat): (n: nat)
    requires i <= j <= |events|
    decreases j
  {
    if i == j then 0 else Ticks(events, i, j - 1) + TickOf(events[j - 1])
  }

  /** A new time slice after a switch, or `ticks` taken off the old one, which lasted as long. */
  ghost predicate SliceRuns(s: State, r: State, ticks: nat) {
    && Shape(s) && Shape(r)
    && (|| r.switches > s.switches
        || (r.switches == s.switches && Left(r) == Left(s) - ticks && (ticks > 0 ==> Left(r) >= 0)))
  }

  lemma StepSlice(run: seq<State>, events: seq<Event>, k: nat)
    requires IsRun(run, events) && k < |events|
    ensures SliceRuns(run[k], run[k + 1], TickOf(events[k]))
    ensures run[k + 1].switches > run[k].switches ==> Left(run[k + 1]) == TASK_TIME_SLICE
  {
    RunIsGood(run, events, k);
    if events[k].Tick? { TickTakesOne(run[k]); } else { StepClocked(run[k], events[k]); }
  }

  lemma SliceTrans(a: State, b: State, c: State, m: nat, n: nat)
    requires SliceRuns(a, b, m) && SliceRuns(b, c, n)
    ensures SliceRuns(a, c, m + n)
  {
  }

  lemma {:induction false} ChainSlice(run: seq<State>, events: seq<Event>, i: nat, j: nat)
    requires i <= j < |run| && |run| == |events| + 1 && Shape(run[i])
    requires forall k :: i <= k < j ==> SliceRuns(run[k], run[k + 1], TickOf(events[k]))
    ensures SliceRuns(run[i], run[j], Ticks(events, i, j))
    decreases j
  {
    if i < j {
      ChainSlice(run, events, i, j - 1);
      assert SliceRuns(run[j - 1], run[j - 1 + 1], TickOf(events[j - 1]));
      SliceTrans(run[i], run[j - 1], run[j], Ticks(events, i, j - 1), TickOf(events[j - 1]));
    }
  }

  lemma SliceOverRun(run: seq<State>, events: seq<Event>, i: nat, j: nat)
    requires IsRun(run, events) && i <= j < |run|
    ensures SliceRuns(run[i], run[j], Ticks(events, i, j))
  {
    RunIsGood(run, events, i);
    forall k | i <= k < j ensures SliceRuns(run[k], run[k + 1], TickOf(events[k])) { StepSlice(run, events, k); }
    ChainSlice(run, events, i, j);
  }

  /** No time slice is ever longer than TASK_TIME_SLICE. */
  lemma {:induction false} SliceBound(run: seq<State>, events: seq<Event>, k: nat)
    requires IsRun(run, events) && k < |run|
    ensures Shape(run[k]) && Left(run[k]) <= TASK_TIME_SLICE
  {
    if k == 0 {
      RunIsGood(run, events, 0);
    } else {
      SliceBound(run, events, k - 1);
      StepSlice(run, events, k - 1);
    }
  }

  /** More ticks than a time slice has do not pass without a switch. */
  lemma SliceEnds(run: seq<State>, events: seq<Event>, i: nat, j: nat)
    requires IsRun(run, events) && i <= j < |run| && Ticks(events, i, j) > TASK_TIME_SLICE
    ensures run[j].switches > run[i].switches
  {
    SliceBound(run, events, i);
    SliceOverRun(run, events, i, j);
  }

  lemma {:induction false} TicksReach(events: seq<Event>, i: nat, j: nat, n: nat) returns (m: nat)
    requires i <= j <= |events| && n <= Ticks(events, i, j)
    ensures i <= m <= j && Ticks(events, i, m) == n && Ticks(events, m, j) == Ticks(events, i, j) - n
    decreases j
  {
    if n == Ticks(events, i, j) {
      m := j;
    } else {
      m := TicksReach(events, i, j - 1, n);
    }
  }

  lemma {:induction false} SwitchesPerTicks(run: seq<State>, events: seq<Event>, i: nat, j: nat, n: nat)
    requires IsRun(run, events) && i <= j < |run| && Ticks(events, i, j) >= n * (TASK_TIME_SLICE + 1)
    ensures run[j].switches - run[i].switches >= n
    decreases n
  {
    if n == 0 {
      SliceOverRun(run, events, i, j);
    } else {
      var m := TicksReach(events, i, j, TASK_TIME_SLICE + 1);
      SliceEnds(run, events, i, m);
      SwitchesPerTicks(run, events, m, j, n - 1);
    }
  }

  /**
   Fairness in time.  A task behind k others of its priority has run before (k + 1) full time slices of
   timer ticks are over, whatever the others do, if meanwhile no task of a better priority is runnable.
   */
  lemma FairInTicks(run: seq<State>, events: seq<Event>, i: nat, j: nat, t: Tid)
    requires IsRun(run, events) && i <= j < |run| && Shape(run[i]) && Queued(run[i], t)
    requires forall k :: i <= k < j ==> LeavesInQueue(events[k], t)
    requires forall k :: i < k <= j ==> NoneBetter(run[k], run[i].tasks[t].priority)
    requires Ticks(events, i, j) >= (Before(run[i], t) + 1) * (TASK_TIME_SLICE + 1)
    ensures exists k :: i < k <= j && run[k].current == t
  {
    SwitchesPerTicks(run, events, i, j, Before(run[i], t) + 1);
    RoundRobin(run, events, i, j, t);
  }
}
