/**
 The kernel as it is written: procedures that update the task table, the run
 queues and CURRENT in place.  Each is proved against the function of
 `KernelSpec` with the same purpose, so the theorems about runs hold of it.
 */
module KernelImpl {
  import opened KernelSpec
  import Spec = KernelSpec
  import opened KernelInvariant
  import opened KernelRuns

  class Kernel {
    var tasks: seq<Task>
    var runqueues: seq<seq<Tid>>
    var irqOwners: seq<Tid>
    var current: Tid
    var panicked: bool
    ghost var switches: nat
    ghost var hist: seq<History>

    ghost function View(): State
      reads this
    {
      State(tasks, runqueues, irqOwners, current, panicked, switches, hist)
    }

    /** task_init() and the creation of the first two tasks in kmain() and mpmain(). */
    constructor (numTasks: nat, numIrqs: nat)
      requires numTasks >= 1
      ensures View() == Boot(numTasks, numIrqs) && Good(View())
    {
      var unused := Task(Unused, 0, NO_TASK, 0, 0, EMPTY_MESSAGE, 0, {}, 0, [], false, Running);
      var idle, init := FreshTask(unused, NO_TASK, false), FreshTask(unused, NO_TASK, true);
      tasks := seq(numTasks + 1, t => if t == IDLE_TASK then idle else if t == INIT_TASK then init else unused);
      runqueues := seq(TASK_PRIORITY_MAX, p => []);
      irqOwners := seq(numIrqs, i => NO_TASK);
      current, panicked, switches := IDLE_TASK, false, 0;
      hist := seq(numTasks + 1, t => FRESH_HISTORY);
      new;
      TaskResume(INIT_TASK);
      BootGood(numTasks, numIrqs);
    }

    // ---- kernel/task.c ------------------------------------------------------------

    method TaskResume(t: Tid)
      requires Shape(View()) && IsTask(View(), t)
      modifies this
      ensures View() == Resume(old(View()), t)
    {
      tasks := tasks[t := tasks[t].(state := Runnable)];
      runqueues := runqueues[tasks[t].priority := runqueues[tasks[t].priority] + [t]];
    }

    method Scheduler() returns (next: Tid)
      requires Shape(View())
      modifies this`runqueues
      ensures var q := Requeue(old(View())).runqueues; next == Pick(q) && runqueues == Popped(q)
    {
      if current != IDLE_TASK && tasks[current].state.Runnable? {
        runqueues := runqueues[tasks[current].priority := runqueues[tasks[current].priority] + [current]];
      }
      ghost var q := runqueues;
      for i := 0 to TASK_PRIORITY_MAX
        invariant runqueues == q && forall j :: 0 <= j < i ==> q[j] == []
      {
        if runqueues[i] != [] {
          next := runqueues[i][0];
          runqueues := runqueues[i := runqueues[i][1..]];
          return;
        }
      }
      next := IDLE_TASK;
    }

    method TaskSwitch()
      requires Shape(View())
      modifies this
      ensures View() == Switch(old(View()))
    {
      ghost var s := View();
      var next := Scheduler();
      assert next == Switch(s).current;
      tasks := tasks[next := tasks[next].(quantum := TASK_TIME_SLICE)];
      current := next;
      switches := switches + 1;
    }

    method TaskCreate(t: Tid, pager: Tid, flags: TaskFlags, archOk: bool) returns (err: Error)
      requires Shape(View()) && IsTask(View(), t) && IsTask(View(), pager)
      modifies this
      ensures View() == Create(old(View()), t, pager, flags, archOk)
      ensures err == CreateError(old(View()), t, flags, archOk)
    {
      if !tasks[t].state.Unused? { return ErrAlreadyExists; }
      if flags.sched || flags.other { return ErrInvalidArg; }
      if flags.abiEmu || flags.hv { return ErrUnavailable; }
      if !archOk { return ErrInvalidArg; }
      tasks := tasks[t := FreshTask(tasks[t], pager, flags.allCaps)];
      hist := hist[t := FRESH_HISTORY];
      tasks := tasks[pager := tasks[pager].(refCount := tasks[pager].refCount + 1)];
      TaskResume(t);
      return OK;
    }

    method TaskDestroy(t: Tid) returns (err: Error)
      requires Shape(View()) && IsTask(View(), t) && t != current
      modifies this
      ensures View() == Destroy(old(View()), t)
      ensures err == DestroyError(old(View()), t)
    {
      if t == INIT_TASK || tasks[t].state.Unused? { return ErrInvalidArg; }
      if tasks[t].refCount > 0 { return ErrInUse; }
      Detach(t);
      while tasks[t].senders != []
        invariant Shape(View()) && IsTask(View(), t)
        invariant AbortAll(View(), t) == AbortAll(Spec.Detach(old(View()), t), t)
        decreases |tasks[t].senders|
      {
        AbortFirst(t);
      }
      ReleaseIrqs(t);
      return OK;
    }

    /** list_remove() on both links of t, and the count of its pager. */
    method Detach(t: Tid)
      requires Shape(View()) && IsTask(View(), t)
      modifies this
      ensures View() == Spec.Detach(old(View()), t)
    {
      runqueues := seq(|runqueues|, p requires 0 <= p < |runqueues| reads this => Without(runqueues[p], t));
      tasks := seq(|tasks|,
        i requires 0 <= i < |tasks| reads this => tasks[i].(senders := Without(tasks[i].senders, t)));
      assert View() == Unlink(old(View()), t);
      tasks := tasks[t := tasks[t].(state := Unused)];
      var pager := tasks[t].pager;
      if pager != NO_TASK {
        tasks := tasks[pager := tasks[pager].(refCount := tasks[pager].refCount - 1)];
      }
    }

    method AbortFirst(t: Tid)
      requires Shape(View()) && IsTask(View(), t) && tasks[t].senders != []
      modifies this
      ensures View() == Spec.AbortFirst(old(View()), t)
    {
      var sender, next := tasks[t].senders[0], tasks[t].senders[1..];
      assert sender in tasks[t].senders;
      Notify(sender, {NOTIFY_ABORTED});
      tasks := tasks[t := tasks[t].(senders := next)];
    }

    method ReleaseIrqs(t: Tid)
      modifies this`irqOwners
      ensures irqOwners == Spec.ReleaseIrqs(old(irqOwners), t)
    {
      for irq := 0 to |irqOwners|
        invariant |irqOwners| == |old(irqOwners)|
        invariant forall i :: 0 <= i < |irqOwners| ==>
                  irqOwners[i] == if i < irq && old(irqOwners)[i] == t then NO_TASK else old(irqOwners)[i]
      {
        if irqOwners[irq] == t {
          irqOwners := irqOwners[irq := NO_TASK];
        }
      }
    }

    /** A negative priority is out of the array of run queues: the model stops there. */
    method TaskSchedule(t: Tid, priority: int) returns (err: Error)
      requires Shape(View()) && IsTask(View(), t)
      modifies this
      ensures View() == Schedule(old(View()), t, priority)
      ensures err == if priority < TASK_PRIORITY_MAX then OK else ErrInvalidArg
    {
      if priority >= TASK_PRIORITY_MAX { return ErrInvalidArg; }
      if priority < 0 {
        panicked := true;
        return OK;
      }
      tasks := tasks[t := tasks[t].(priority := priority)];
      if tasks[t].state.Runnable? {
        runqueues := seq(|runqueues|, p requires 0 <= p < |runqueues| reads this => Without(runqueues[p], t));
        runqueues := runqueues[priority := runqueues[priority] + [t]];
      }
      return OK;
    }

    method TickTask(i: nat) returns (expired: bool)
      requires Shape(View()) && IsTask(View(), i)
      modifies this
      ensures View() == Spec.TickTask(old(View()), i) && expired == Expires(old(View()), i)
    {
      expired := false;
      if tasks[i].state.Unused? || tasks[i].timeout == 0 { return; }
      tasks := tasks[i := tasks[i].(timeout := tasks[i].timeout - 1)];
      if tasks[i].timeout == 0 {
        Notify(i, {NOTIFY_TIMER});
        expired := true;
      }
    }

    /** The loop of handle_timer_irq() over the task table. */
    method TickAll() returns (resumedByTimeout: bool)
      requires Shape(View())
      modifies this
      ensures (View(), resumedByTimeout) == Timeouts(old(View()), 1)
    {
      resumedByTimeout := false;
      var i := 1;
      while i < |tasks|
        invariant Shape(View()) && 1 <= i <= |tasks|
        invariant Timeouts(old(View()), 1) == (Timeouts(View(), i).0, resumedByTimeout || Timeouts(View(), i).1)
        decreases |tasks| - i
      {
        var expired := TickTask(i);
        resumedByTimeout := resumedByTimeout || expired;
        i := i + 1;
      }
    }

    method HandleTimerIrq()
      requires Shape(View())
      modifies this
      ensures View() == TimerIrq(old(View()))
    {
      var resumedByTimeout := TickAll();
      tasks := tasks[current := tasks[current].(quantum := tasks[current].quantum - 1)];
      if tasks[current].quantum < 0 || (current == IDLE_TASK && resumedByTimeout) {
        TaskSwitch();
      }
    }

    method HandleIrq(irq: nat)
      requires Shape(View()) && irq < |irqOwners|
      modifies this
      ensures View() == Irq(old(View()), irq)
    {
      var owner := irqOwners[irq];
      if owner != NO_TASK {
        Notify(owner, {NOTIFY_IRQ});
        if current == IDLE_TASK {
          TaskSwitch();
        }
      }
    }

    // ---- kernel/ipc.c ---------------------------------------------------------------

    method Notify(t: Tid, bits: Bits)
      requires Shape(View()) && IsTask(View(), t)
      modifies this
      ensures View() == Spec.Notify(old(View()), t, bits)
    {
      hist := hist[t := hist[t].(raised := hist[t].raised + bits)];
      if tasks[t].state.Blocked? && tasks[t].src == IPC_ANY {
        var m := Message(NotificationsMsg, KERNEL_TASK, tasks[t].notifications + bits, tasks[t].m.raw);
        CopyMessage(t, KERNEL_TASK, m);
        tasks := tasks[t := tasks[t].(notifications := {})];
        TaskResume(t);
      } else {
        tasks := tasks[t := tasks[t].(notifications := tasks[t].notifications + bits)];
      }
    }

    /** memcpy(&dst->m, ...) */
    method CopyMessage(t: Tid, ghost from: Tid, m: Message)
      requires Shape(View()) && IsTask(View(), t)
      modifies this
      ensures View() == Write(old(View()), t, from, m)
    {
      tasks := tasks[t := tasks[t].(m := m)];
      hist := hist[t := hist[t].(letters := hist[t].letters + [Letter(from, m)])];
    }

    method ResumeSender(receiver: Tid, src: Tid)
      requires Shape(View()) && IsTask(View(), receiver)
      modifies this
      ensures View() == Spec.ResumeSender(old(View()), receiver, src)
    {
      var q := tasks[receiver].senders;
      for i := 0 to |q|
        invariant View() == old(View())
        invariant (i > 0 ==> src != IPC_ANY) && forall j :: 0 <= j < i ==> q[j] != src
      {
        if src == IPC_ANY || src == q[i] {
          FirstSenderIs(q, src, i);
          assert q[i] in q;
          TaskResume(q[i]);
          tasks := tasks[receiver := tasks[receiver].(senders := q[..i] + q[i+1..], src := q[i])];
          return;
        }
      }
      tasks := tasks[receiver := tasks[receiver].(src := src)];
    }

    /** The receive phase; the caller's message is copied out when the task continues. */
    method Receive(src: Tid, flags: IpcFlags, after: After) returns (res: Result)
      requires Shape(View()) && IsTask(View(), current) && src >= 0
      modifies this
      ensures (View(), res) == RecvPhase(old(View()), src, flags, after)
    {
      if !flags.recv { return Done(OK); }
      if src == IPC_ANY && tasks[current].notifications != {} {
        hist := hist[current := hist[current].(taken := hist[current].taken + tasks[current].notifications)];
        tasks := tasks[current := tasks[current].(notifications := {})];
        return Done(OK);
      }
      if flags.noblock { return Done(ErrWouldBlock); }
      Sleep(src, after);
      return Parked;
    }

    method Sleep(src: Tid, after: After)
      requires Shape(View()) && IsTask(View(), current) && src >= 0
      modifies this
      ensures View() == Switch(ParkRecv(old(View()), src, after))
    {
      ResumeSender(current, src);
      tasks := tasks[current := tasks[current].(state := Blocked, kont := InRecv(src, after))];
      assert View() == ParkRecv(old(View()), src, after);
      TaskSwitch();
    }

    method SleepInSend(dst: Tid, src: Tid, m: Message, flags: IpcFlags, after: After)
      requires Shape(View()) && IsTask(View(), current) && src >= 0 && IsTask(View(), dst) && dst != current
      modifies this
      ensures View() == Switch(ParkSend(old(View()), dst, src, m, flags, after))
    {
      tasks := tasks[current := tasks[current].(src := IPC_DENY, state := Blocked,
        kont := InSend(dst, m, flags, src, after))];
      tasks := tasks[dst := tasks[dst].(senders := tasks[dst].senders + [current])];
      assert View() == ParkSend(old(View()), dst, src, m, flags, after);
      TaskSwitch();
    }

    method IpcSlowpath(dst: Tid, src: Tid, m: Message, flags: IpcFlags, after: After) returns (res: Result)
      requires Shape(View()) && IsTask(View(), current) && src >= 0
      requires flags.send ==> IsTask(View(), dst) && dst != current
      modifies this
      ensures (View(), res) == Spec.IpcSlowpath(old(View()), dst, src, m, flags, after)
    {
      if flags.send {
        var receiverIsReady := tasks[dst].state.Blocked? && (tasks[dst].src == IPC_ANY || tasks[dst].src == current);
        if !receiverIsReady {
          if flags.noblock { return Done(ErrWouldBlock); }
          SleepInSend(dst, src, m, flags, after);
          return Parked;
        }
        CopyMessage(dst, current, m.(src := if flags.kernel then KERNEL_TASK else current));
        TaskResume(dst);
        assert View() == Deliver(old(View()), dst, m, flags);
      }
      res := Receive(src, flags, after);
    }

    method Ipc(dst: Tid, src: Tid, m: Message, flags: IpcFlags, after: After) returns (res: Result)
      requires Shape(View()) && IsTask(View(), current) && src >= 0
      requires flags.send ==> IsTask(View(), dst)
      modifies this
      ensures (View(), res) == Spec.Ipc(old(View()), dst, src, m, flags, after)
    {
      if flags.send && dst == current { return Done(ErrInvalidArg); }
      var fastpath := flags.send && flags.recv && !flags.kernel && !flags.other
        && tasks[dst].state.Blocked? && (tasks[dst].src == IPC_ANY || tasks[dst].src == current)
        && tasks[current].notifications == {};
      if !fastpath {
        res := IpcSlowpath(dst, src, m, flags, after);
        return;
      }
      CopyMessage(dst, current, m.(src := current));
      TaskResume(dst);
      Sleep(src, after);
      return Parked;
    }

    // ---- exits, faults and resumed system calls ---------------------------------------

    method Retire()
      requires Shape(View()) && IsTask(View(), current)
      modifies this
      ensures View() == Spec.Retire(old(View()))
    {
      tasks := tasks[current := tasks[current].(state := Blocked, src := IPC_DENY, kont := Exited)];
      TaskSwitch();
    }

    method TaskExit()
      requires Shape(View()) && IsTask(View(), current)
      modifies this
      ensures View() == Exit(old(View()))
    {
      var pager := tasks[current].pager;
      if pager == NO_TASK {
        panicked := true;
        return;
      }
      var res := Ipc(pager, IPC_ANY, EXCEPTION, SEND_KERNEL, ToExit);
      if res.Done? { Retire(); }
    }

    method Return(err: Error, m: Message, after: After) returns (answer: Answer)
      requires Shape(View()) && IsTask(View(), current)
      modifies this
      ensures View() == Spec.Return(old(View()), err, m, after) && answer == Replied(Done(err), after)
    {
      answer := NoAnswer;
      match after
      case ToUser => answer := Returns(err);
      case ToFault => if err != OK || m.typ != PageFaultReplyMsg { TaskExit(); }
      case ToExit => Retire();
    }

    method HandlePageFault()
      requires Shape(View()) && IsTask(View(), current)
      modifies this
      ensures View() == PageFault(old(View()))
    {
      var pager := tasks[current].pager;
      if pager == NO_TASK {
        panicked := true;
        return;
      }
      var res := Ipc(pager, pager, PAGE_FAULT, CALL_KERNEL, ToFault);
      if res.Done? { var answer := Return(res.err, PAGE_FAULT, ToFault); }
    }

    /** The code behind the task_switch() of the send phase. */
    method ContinueSend() returns (answer: Answer)
      requires Shape(View()) && IsTask(View(), current) && tasks[current].kont.InSend?
      modifies this
      ensures View() == Spec.ContinueSend(old(View())) && answer == SendAnswer(old(View()))
    {
      var InSend(dst, m, flags, src, after) := tasks[current].kont;
      tasks := tasks[current := tasks[current].(kont := Running)];
      if NOTIFY_ABORTED in tasks[current].notifications {
        hist := hist[current := hist[current].(consumed := hist[current].consumed + {NOTIFY_ABORTED})];
        tasks := tasks[current := tasks[current].(notifications := tasks[current].notifications - {NOTIFY_ABORTED})];
        answer := Return(ErrAborted, m, after);
        return;
      }
      CopyMessage(dst, current, m.(src := if flags.kernel then KERNEL_TASK else current));
      TaskResume(dst);
      assert View() == Deliver(Wake(old(View())), dst, m, flags);
      var res := Receive(src, flags, after);
      answer := NoAnswer;
      if res.Done? { answer := Return(res.err, m, after); }
    }

    /** The code behind the task_switch() of the receive phase. */
    method ContinueRecv() returns (answer: Answer)
      requires Shape(View()) && IsTask(View(), current) && tasks[current].kont.InRecv?
      modifies this
      ensures View() == Spec.ContinueRecv(old(View())) && answer == Replied(Done(OK), old(tasks[current].kont.after))
    {
      var m, filter, after := tasks[current].m, tasks[current].kont.filter, tasks[current].kont.after;
      tasks := tasks[current := tasks[current].(kont := Running)];
      ghost var h := hist[current];
      hist := hist[current := h.(receipts := h.receipts + [Receipt(filter, m)], taken := h.taken + NotifiedBits(m))];
      answer := Return(OK, m, after);
    }

    // ---- kernel/syscall.c ---------------------------------------------------------------

    method SysIpc(dst: Tid, src: Tid, m: Message, flags: IpcFlags) returns (answer: Answer)
      requires Shape(View()) && IsTask(View(), current)
      modifies this
      ensures View() == SysIpcStep(old(View()), dst, src, m, flags)
              && answer == IpcAnswer(old(View()), dst, src, m, flags)
    {
      if flags.kernel { return Returns(ErrInvalidArg); }
      if src < 0 || src >= |tasks| { return Returns(ErrInvalidArg); }
      if flags.send && !(1 <= dst < |tasks| && !tasks[dst].state.Unused?) { return Returns(ErrInvalidTask); }
      var res := Ipc(if flags.send then dst else NO_TASK, src, m, flags, ToUser);
      answer := if res.Done? then Returns(res.err) else NoAnswer;
    }

    method SysNotify(t: Tid, bits: Bits) returns (answer: Answer)
      requires Shape(View()) && Enabled(View(), Event.SysNotify(t, bits))
      modifies this
      ensures View() == Step(old(View()), Event.SysNotify(t, bits))
              && answer == AnswerTo(old(View()), Event.SysNotify(t, bits))
    {
      if !(1 <= t < |tasks| && !tasks[t].state.Unused?) { return Returns(ErrInvalidTask); }
      Notify(t, bits);
      answer := Returns(OK);
    }

    method SysTask(e: Event) returns (answer: Answer)
      requires Shape(View()) && Enabled(View(), e) && (e.SysTaskCreate? || e.SysTaskDestroy? || e.SysTaskSchedule?)
      modifies this
      ensures View() == Step(old(View()), e) && answer == AnswerTo(old(View()), e)
    {
      if !tasks[current].caps { return Returns(ErrNotPermitted); }
      if !(1 <= e.tid < |tasks|) || e.tid == current { return Returns(ErrInvalidTask); }
      var err;
      match e {
        case SysTaskCreate(t, pager, flags, archOk) =>
          if !(1 <= pager < |tasks| && !tasks[pager].state.Unused?) { return Returns(ErrInvalidArg); }
          err := TaskCreate(t, pager, flags, archOk);
        case SysTaskDestroy(t) =>
          err := TaskDestroy(t);
        case SysTaskSchedule(t, priority) =>
          err := TaskSchedule(t, priority);
          if panicked { return NoAnswer; }
      }
      answer := Returns(err);
    }

    method SysIrq(e: Event) returns (answer: Answer)
      requires Shape(View()) && Enabled(View(), e) && (e.SysIrqAcquire? || e.SysIrqRelease?)
      modifies this
      ensures View() == Step(old(View()), e) && answer == AnswerTo(old(View()), e)
    {
      if !tasks[current].caps { return Returns(ErrNotPermitted); }
      if e.irq >= |irqOwners| { return Returns(ErrInvalidArg); }
      if e.SysIrqRelease? {
        irqOwners := irqOwners[e.irq := NO_TASK];
      } else {
        if irqOwners[e.irq] != NO_TASK { return Returns(ErrAlreadyExists); }
        irqOwners := irqOwners[e.irq := current];
      }
      answer := Returns(OK);
    }

    /** One entry into the kernel: it takes the step of the specification, keeps the invariant, and answers. */
    method Handle(e: Event) returns (answer: Answer)
      requires Good(View()) && Enabled(View(), e) && Careful(View(), e)
      modifies this
      ensures View() == Step(old(View()), e) && Good(View())
      ensures answer == AnswerTo(old(View()), e)
    {
      StepKeeps(View(), e);
      answer := NoAnswer;
      match e
      case SysIpc(dst, src, m, flags) => answer := SysIpc(dst, src, m, flags);
      case SysNotify(t, bits) => answer := SysNotify(t, bits);
      case SysTimerSet(timeout) =>
        tasks := tasks[current := tasks[current].(timeout := timeout)];
        answer := Returns(OK);
      case SysTaskCreate(_, _, _, _) => answer := SysTask(e);
      case SysTaskDestroy(_) => answer := SysTask(e);
      case SysTaskSchedule(_, _) => answer := SysTask(e);
      case SysTaskExit => TaskExit();
      case SysIrqAcquire(_) => answer := SysIrq(e);
      case SysIrqRelease(_) => answer := SysIrq(e);
      case Fault => HandlePageFault();
      case Tick => HandleTimerIrq();
      case Interrupt(irq) => HandleIrq(irq);
      case Reschedule => TaskSwitch();
      case Continue => if tasks[current].kont.InSend? { answer := ContinueSend(); } else { answer := ContinueRecv(); }
    }
  }
}
