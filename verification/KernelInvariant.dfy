/**
 The invariant that every step of the kernel keeps: the run queues, the sender
 queues, the handoff from a receiver to the sender it has resumed, the message
 buffers and the notification bits.
 */
module KernelInvariant {
  import opened Common
  import opened KernelSpec

  /** A task is in a run queue iff it is runnable and not running; then once, and in that of its priority. */
  ghost predicate QueuesOk(s: State, running: Tid)
    requires Shape(s)
  {
    && (forall p :: 0 <= p < TASK_PRIORITY_MAX ==> NoDup(s.runqueues[p]))
    && (forall p, t :: 0 <= p < TASK_PRIORITY_MAX && IsTask(s, t) ==>
          (t in s.runqueues[p] <==> s.tasks[t].state.Runnable? && t != running && s.tasks[t].priority == p))
  }

  /** The members of d's sender queue sleep in the send phase of a send to d. */
  ghost predicate SendersOk(s: State, d: Tid)
    requires Shape(s) && IsTask(s, d)
  {
    && NoDup(s.tasks[d].senders)
    && (forall x :: x in s.tasks[d].senders ==>
          s.tasks[x].state.Blocked? && s.tasks[x].kont.InSend? && s.tasks[x].kont.dst == d)
  }

  /** d waits for a message of t and of nobody else. */
  ghost predicate WaitsFor(s: State, d: Tid, t: Tid)
    requires Shape(s) && IsTask(s, d)
  {
    s.tasks[d].state.Blocked? && s.tasks[d].kont.InRecv? && s.tasks[d].src == t
  }

  /** A message is in the buffer and its owner has not picked it up yet. */
  predicate Unread(task: Task) {
    task.state.Runnable? && task.kont.InRecv?
  }

  ghost predicate StateOk(s: State, t: Tid)
    requires Shape(s) && IsTask(s, t)
  {
    var task := s.tasks[t];
    match task.state
    case Unused => task.senders == []
    case Runnable => !task.kont.Exited? && (task.kont.InSend? ==> WaitsFor(s, task.kont.dst, t))
    case Blocked =>
      && !task.kont.Running?
      && (task.kont.InRecv? ==> task.src >= 0 && (task.kont.filter != IPC_ANY ==> task.src == task.kont.filter))
      && (!task.kont.InRecv? ==> task.src == IPC_DENY)
  }

  /** The receipts are the letters, in order, up to the one that is still in the buffer. */
  ghost predicate MailOk(task: Task, h: History) {
    && |h.letters| == |h.receipts| + (if Unread(task) then 1 else 0)
    && (forall i :: 0 <= i < |h.receipts| ==>
          h.receipts[i].m == h.letters[i].m
            && (h.receipts[i].filter != IPC_ANY ==> h.letters[i].from == h.receipts[i].filter))
    && (Unread(task) ==>
          var last := h.letters[|h.receipts|];
          task.m == last.m && (task.kont.filter != IPC_ANY ==> last.from == task.kont.filter))
  }

  function UnreadBits(task: Task): Bits {
    if Unread(task) then NotifiedBits(task.m) else {}
  }

  /** Every bit passed to notify() was received, is pending, or was eaten by an aborted send. */
  ghost predicate NotesOk(task: Task, h: History) {
    && h.raised == h.taken + task.notifications + UnreadBits(task) + h.consumed
    && h.consumed <= {NOTIFY_ABORTED}
    && (task.kont.InSend? && task.kont.flags.kernel ==> task.kont.msg.typ != NotificationsMsg)
  }

  ghost predicate TaskOk(s: State, t: Tid)
    requires Shape(s) && IsTask(s, t)
  {
    && StateOk(s, t)
    && (!s.tasks[t].state.Unused? ==> MailOk(s.tasks[t], s.hist[t]) && NotesOk(s.tasks[t], s.hist[t]))
  }

  ghost predicate IrqsOk(s: State)
    requires Shape(s)
  {
    forall i :: 0 <= i < |s.irqOwners| && s.irqOwners[i] != NO_TASK ==> InUse(s, s.irqOwners[i])
  }

  /** Holds also between task_block(CURRENT) and task_switch(). */
  ghost predicate Core(s: State) {
    && Shape(s)
    && QueuesOk(s, s.current)
    && (forall d {:trigger SendersOk(s, d)} :: IsTask(s, d) ==> SendersOk(s, d))
    && (forall t {:trigger TaskOk(s, t)} :: IsTask(s, t) ==> TaskOk(s, t))
    && IrqsOk(s)
  }

  ghost predicate Inv(s: State) {
    && Core(s)
    && (s.current != IDLE_TASK ==> s.tasks[s.current].state.Runnable?)
  }

  /** x sleeps in the send phase although it is in no sender queue. */
  ghost predicate Orphan(s: State, x: Tid)
    requires Shape(s)
  {
    && IsTask(s, x) && s.tasks[x].state.Blocked? && s.tasks[x].kont.InSend?
    && x !in s.tasks[s.tasks[x].kont.dst].senders
  }

  /** x has been resumed by its receiver and has not delivered yet. */
  ghost predicate InWindow(s: State, x: Tid)
    requires Shape(s)
  {
    IsTask(s, x) && s.tasks[x].state.Runnable? && s.tasks[x].kont.InSend?
  }

  /**
   The step neither creates nor destroys a task, leaves the pager relation alone, frees no orphan,
   and closes no window other than that of CURRENT.
   */
  ghost predicate SameFamily(s: State, r: State)
    requires Shape(s) && Shape(r)
  {
    && |r.tasks| == |s.tasks|
    && (forall x :: InWindow(s, x) && x != s.current ==> InWindow(r, x) && r.tasks[x].kont == s.tasks[x].kont)
    && (forall x :: Orphan(s, x) ==> Orphan(r, x))
    && (forall t :: 0 <= t < |s.tasks| ==>
          r.tasks[t].pager == s.tasks[t].pager && r.tasks[t].refCount == s.tasks[t].refCount
          && (r.tasks[t].state.Unused? <==> s.tasks[t].state.Unused?))
  }

  lemma FamilyTrans(a: State, b: State, c: State)
    requires Shape(a) && Shape(b) && Shape(c) && SameFamily(a, b) && SameFamily(b, c) && b.current == a.current
    ensures SameFamily(a, c)
  {
  }

  // ---- sequences without duplicates -----------------------------------------------

  lemma NoDupAppend(q: seq<Tid>, t: Tid)
    requires NoDup(q) && t !in q
    ensures NoDup(q + [t])
  {
  }

  lemma NoDupTail(q: seq<Tid>)
    requires NoDup(q) && q != []
    ensures NoDup(q[1..])
    ensures forall x :: x in q[1..] <==> x in q && x != q[0]
  {
    assert q == [q[0]] + q[1..];
  }

  lemma NoDupCut(q: seq<Tid>, i: nat)
    requires NoDup(q) && i < |q|
    ensures NoDup(q[..i] + q[i+1..])
    ensures forall x :: x in q[..i] + q[i+1..] <==> x in q && x != q[i]
  {
    assert q == q[..i] + [q[i]] + q[i+1..];
  }

  lemma {:induction false} NoDupWithout(q: seq<Tid>, x: Tid)
    requires NoDup(q)
    ensures NoDup(Without(q, x))
  {
    if q != [] {
      NoDupWithout(q[1..], x);
      NoDupTail(q);
      var w := Without(q[1..], x);
      assert q[0] !in w;
      assert forall i :: 0 <= i < |w| ==> w[i] in w;
    }
  }

  // ---- the run queues -------------------------------------------------------------

  lemma QueuesResume(s: State, t: Tid, running: Tid)
    requires Shape(s) && QueuesOk(s, running) && IsTask(s, t)
    requires s.tasks[t].state.Blocked? && t != running
    ensures QueuesOk(Resume(s, t), running)
  {
    NoDupAppend(s.runqueues[s.tasks[t].priority], t);
  }

  lemma QueuesRequeue(s: State)
    requires Core(s)
    ensures QueuesOk(Requeue(s), IDLE_TASK)
  {
    if s.current != IDLE_TASK && s.tasks[s.current].state.Runnable? {
      NoDupAppend(s.runqueues[s.tasks[s.current].priority], s.current);
    }
  }

  /** Nothing about the tasks changes except time slices and timeouts. */
  ghost predicate SameTask(a: Task, b: Task) {
    b == a.(quantum := b.quantum, timeout := b.timeout)
  }

  lemma SameTasksKeep(s: State, s': State)
    requires Core(s) && Shape(s') && |s'.tasks| == |s.tasks| && s'.hist == s.hist && s'.irqOwners == s.irqOwners
    requires QueuesOk(s', s'.current)
    requires forall t :: 0 <= t < |s.tasks| ==> SameTask(s.tasks[t], s'.tasks[t])
    ensures Core(s')
  {
    forall t | IsTask(s', t) ensures SendersOk(s', t) && TaskOk(s', t) {
      assert SendersOk(s, t) && TaskOk(s, t);
    }
  }

  lemma SwitchKeeps(s: State)
    requires Core(s)
    ensures Inv(Switch(s)) && SameFamily(s, Switch(s))
  {
    QueuesRequeue(s);
    var q := Requeue(s);
    var r := Switch(s);
    var k := Best(q.runqueues, 0);
    if k < |q.runqueues| {
      NoDupTail(q.runqueues[k]);
      assert q.runqueues[k][0] in q.runqueues[k];
    }
    assert QueuesOk(r, r.current);
    SameTasksKeep(s, r);
  }

  // ---- sleeping and waking --------------------------------------------------------

  /** A task that the step leaves alone, and so do its queued senders and the receiver that waits for it. */
  lemma Untouched(s: State, s': State, t: Tid)
    requires Shape(s) && Shape(s') && |s'.tasks| == |s.tasks| && IsTask(s, t)
    requires SendersOk(s, t) && TaskOk(s, t)
    requires s'.tasks[t] == s.tasks[t] && s'.hist[t] == s.hist[t]
    requires forall x :: x in s.tasks[t].senders ==>
             s'.tasks[x].state == s.tasks[x].state && s'.tasks[x].kont == s.tasks[x].kont
    requires s.tasks[t].state.Runnable? && s.tasks[t].kont.InSend? ==> WaitsFor(s', s.tasks[t].kont.dst, t)
    ensures SendersOk(s', t) && TaskOk(s', t)
  {
  }

  /** Only t changes: it leaves its sleep in the receive phase. */
  lemma WakeUpFamily(s: State, r: State, t: Tid)
    requires Shape(s) && Shape(r) && IsTask(s, t) && |r.tasks| == |s.tasks|
    requires s.tasks[t].state.Blocked? && s.tasks[t].kont.InRecv? && r.tasks[t].state.Runnable?
    requires r.tasks[t].pager == s.tasks[t].pager && r.tasks[t].refCount == s.tasks[t].refCount
             && r.tasks[t].senders == s.tasks[t].senders
    requires forall x :: 0 <= x < |s.tasks| && x != t ==> r.tasks[x] == s.tasks[x]
    ensures SameFamily(s, r)
  {
  }

  lemma DeliverKeeps(s: State, d: Tid, m: Message, flags: IpcFlags)
    requires Inv(s) && IsTask(s, s.current) && s.tasks[s.current].kont.Running?
    requires IsTask(s, d) && d != s.current && Ready(s, d)
    requires flags.kernel ==> m.typ != NotificationsMsg
    ensures Inv(Deliver(s, d, m, flags)) && SameFamily(s, Deliver(s, d, m, flags))
  {
    var m' := m.(src := if flags.kernel then KERNEL_TASK else s.current);
    var r := Deliver(s, d, m, flags);
    QueuesResume(Write(s, d, s.current, m'), d, s.current);
    assert TaskOk(s, d) && SendersOk(s, d);
    assert r.tasks == s.tasks[d := s.tasks[d].(m := m', state := Runnable)];
    forall t | IsTask(r, t) ensures SendersOk(r, t) && TaskOk(r, t) {
      assert SendersOk(s, t) && TaskOk(s, t);
      if t != d { Untouched(s, r, t); }
    }
    WakeUpFamily(s, r, d);
  }

  /** The task that notify() wakes up. */
  lemma NotifyNowTask(s: State, t: Tid, bits: Bits)
    requires Core(s) && IsTask(s, t) && t != s.current
    requires s.tasks[t].state.Blocked? && s.tasks[t].src == IPC_ANY
    ensures var r := Notify(s, t, bits); r.tasks == s.tasks[t := r.tasks[t]] && SendersOk(r, t) && TaskOk(r, t)
  {
    assert TaskOk(s, t) && SendersOk(s, t);
  }

  lemma NotifyNowKeeps(s: State, t: Tid, bits: Bits)
    requires Core(s) && IsTask(s, t) && t != s.current
    requires s.tasks[t].state.Blocked? && s.tasks[t].src == IPC_ANY
    ensures Core(Notify(s, t, bits)) && SameFamily(s, Notify(s, t, bits))
  {
    var r := Notify(s, t, bits);
    var s0 := Log(s, t, s.hist[t].(raised := s.hist[t].raised + bits));
    var m := Message(NotificationsMsg, KERNEL_TASK, s.tasks[t].notifications + bits, s.tasks[t].m.raw);
    var s1 := Write(s0, t, KERNEL_TASK, m);
    QueuesResume(Set(s1, t, s1.tasks[t].(notifications := {})), t, s.current);
    NotifyNowTask(s, t, bits);
    assert TaskOk(s, t);
    forall x | IsTask(r, x) ensures SendersOk(r, x) && TaskOk(r, x) {
      if x != t {
        assert SendersOk(s, x) && TaskOk(s, x);
        Untouched(s, r, x);
      }
    }
    WakeUpFamily(s, r, t);
  }

  /** notify() on a task that is not in an open receive only sets the bits. */
  lemma NotifyPending(s: State, x: Tid, bits: Bits)
    requires Shape(s) && IsTask(s, x) && !(s.tasks[x].state.Blocked? && s.tasks[x].src == IPC_ANY)
    ensures Notify(s, x, bits)
            == s.(tasks := s.tasks[x := s.tasks[x].(notifications := s.tasks[x].notifications + bits)],
                                     hist := s.hist[x := s.hist[x].(raised := s.hist[x].raised + bits)])
  {
  }

  lemma NotifyLaterKeeps(s: State, t: Tid, bits: Bits)
    requires Core(s) && InUse(s, t) && !(s.tasks[t].state.Blocked? && s.tasks[t].src == IPC_ANY)
    ensures Core(Notify(s, t, bits)) && SameFamily(s, Notify(s, t, bits))
  {
    NotifyPending(s, t, bits);
    var r := Notify(s, t, bits);
    assert QueuesOk(r, r.current);
    forall x | IsTask(r, x) ensures SendersOk(r, x) && TaskOk(r, x) {
      assert SendersOk(s, x) && TaskOk(s, x);
      if x != t { Untouched(s, r, x); }
    }
  }

  lemma NotifyKeeps(s: State, t: Tid, bits: Bits)
    requires Core(s) && InUse(s, t)
    requires t == s.current ==> s.tasks[t].state.Runnable?
    ensures Core(Notify(s, t, bits)) && SameFamily(s, Notify(s, t, bits))
  {
    if s.tasks[t].state.Blocked? && s.tasks[t].src == IPC_ANY {
      NotifyNowKeeps(s, t, bits);
    } else {
      NotifyLaterKeeps(s, t, bits);
    }
  }

  lemma ParkSendFamily(s: State, dst: Tid, src: Tid, m: Message, flags: IpcFlags, after: After)
    requires Inv(s) && IsTask(s, s.current) && InUse(s, dst) && dst != s.current && src >= 0
    ensures SameFamily(s, ParkSend(s, dst, src, m, flags, after))
  {
  }

  /** The sender and the receiver it queues up for. */
  lemma ParkSendParties(s: State, dst: Tid, src: Tid, m: Message, flags: IpcFlags, after: After)
    requires Inv(s) && IsTask(s, s.current) && s.tasks[s.current].kont.Running?
    requires InUse(s, dst) && dst != s.current && src >= 0
    requires flags.kernel ==> m.typ != NotificationsMsg
    ensures var r := ParkSend(s, dst, src, m, flags, after);
            SendersOk(r, dst) && TaskOk(r, dst) && SendersOk(r, s.current) && TaskOk(r, s.current)
  {
    var c := s.current;
    assert SendersOk(s, dst) && TaskOk(s, dst) && SendersOk(s, c) && TaskOk(s, c);
    NoDupAppend(s.tasks[dst].senders, c);
  }

  lemma ParkSendKeeps(s: State, dst: Tid, src: Tid, m: Message, flags: IpcFlags, after: After)
    requires Inv(s) && IsTask(s, s.current) && s.tasks[s.current].kont.Running?
    requires InUse(s, dst) && dst != s.current && src >= 0
    requires flags.kernel ==> m.typ != NotificationsMsg
    ensures Core(ParkSend(s, dst, src, m, flags, after)) && SameFamily(s, ParkSend(s, dst, src, m, flags, after))
  {
    var r := ParkSend(s, dst, src, m, flags, after);
    var c := s.current;
    ParkSendFamily(s, dst, src, m, flags, after);
    ParkSendParties(s, dst, src, m, flags, after);
    forall t | IsTask(r, t) ensures SendersOk(r, t) && TaskOk(r, t) {
      if t != c && t != dst {
        assert SendersOk(s, t) && TaskOk(s, t);
        Untouched(s, r, t);
      }
    }
  }

  lemma ParkRecvNoSender(s: State, src: Tid, after: After)
    requires Inv(s) && IsTask(s, s.current) && s.tasks[s.current].kont.Running?
    requires src >= 0 && FirstSender(s.tasks[s.current].senders, src) == |s.tasks[s.current].senders|
    ensures Core(ParkRecv(s, src, after)) && SameFamily(s, ParkRecv(s, src, after))
  {
    var r := ParkRecv(s, src, after);
    var c := s.current;
    assert r.tasks == s.tasks[c := s.tasks[c].(src := src, state := Blocked, kont := InRecv(src, after))];
    forall t | IsTask(r, t) ensures SendersOk(r, t) && TaskOk(r, t) {
      assert SendersOk(s, t) && TaskOk(s, t);
      if t != c { Untouched(s, r, t); }
    }
  }

  /** The receiver resumes the queued sender x and from then on waits for it alone. */
  ghost predicate HandsOff(s: State, r: State, x: Tid, src: Tid, after: After)
    requires Shape(s) && Shape(r) && IsTask(s, s.current) && IsTask(s, x)
  {
    && |r.tasks| == |s.tasks| && r.hist == s.hist && r.irqOwners == s.irqOwners && r.current == s.current
    && x in s.tasks[s.current].senders
    && (src == IPC_ANY || src == x)
    && r.runqueues == Resume(s, x).runqueues
    && (forall t :: 0 <= t < |s.tasks| && t != x && t != s.current ==> r.tasks[t] == s.tasks[t])
    && r.tasks[x] == s.tasks[x].(state := Runnable)
    && r.tasks[s.current]
       == s.tasks[s.current].(src := x, state := Blocked, kont := InRecv(src, after),
         senders := r.tasks[s.current].senders)
    && NoDup(r.tasks[s.current].senders)
    && (forall y :: y in r.tasks[s.current].senders <==> y in s.tasks[s.current].senders && y != x)
  }

  lemma HandoffFamily(s: State, r: State, x: Tid, src: Tid, after: After)
    requires Inv(s) && IsTask(s, s.current)
    requires Shape(r) && IsTask(s, x) && HandsOff(s, r, x, src, after)
    ensures SameFamily(s, r)
  {
    assert SendersOk(s, s.current);
  }

  lemma HandoffKeeps(s: State, r: State, x: Tid, src: Tid, after: After)
    requires Inv(s) && IsTask(s, s.current) && s.tasks[s.current].kont.Running? && src >= 0
    requires Shape(r) && IsTask(s, x) && HandsOff(s, r, x, src, after)
    ensures Core(r) && SameFamily(s, r)
  {
    var c := s.current;
    HandoffFamily(s, r, x, src, after);
    assert SendersOk(s, c) && TaskOk(s, c) && TaskOk(s, x) && SendersOk(s, x);
    QueuesResume(s, x, c);
    assert QueuesOk(r, c);
    assert SendersOk(r, c) && TaskOk(r, c);
    assert SendersOk(r, x) && TaskOk(r, x);
    forall t | IsTask(r, t) ensures SendersOk(r, t) && TaskOk(r, t) {
      assert SendersOk(s, t) && TaskOk(s, t);
      if t != c && t != x { Untouched(s, r, t); }
    }
  }

  lemma ParkRecvKeeps(s: State, src: Tid, after: After)
    requires Inv(s) && IsTask(s, s.current) && s.tasks[s.current].kont.Running? && src >= 0
    ensures Core(ParkRecv(s, src, after)) && SameFamily(s, ParkRecv(s, src, after))
  {
    var c := s.current;
    var q := s.tasks[c].senders;
    var i := FirstSender(q, src);
    if i < |q| {
      assert q[i] in q && SendersOk(s, c);
      NoDupCut(q, i);
      HandoffKeeps(s, ParkRecv(s, src, after), q[i], src, after);
    } else {
      ParkRecvNoSender(s, src, after);
    }
  }

  // ---- ipc() ----------------------------------------------------------------------

  /** CURRENT is a task that executes on its own stack. */
  ghost predicate Executing(s: State) {
    Inv(s) && s.current != IDLE_TASK && s.tasks[s.current].kont.Running?
  }

  /** Only the task c changes, and it stays runnable and not asleep. */
  lemma OwnUpdateKeeps(s: State, r: State, c: Tid)
    requires Inv(s) && Shape(r) && c == s.current && IsTask(s, c)
    requires |r.tasks| == |s.tasks| && r.current == s.current && r.runqueues == s.runqueues
             && r.irqOwners == s.irqOwners
    requires forall t :: 0 <= t < |s.tasks| && t != c ==> r.tasks[t] == s.tasks[t] && r.hist[t] == s.hist[t]
    requires r.tasks[c].state.Runnable? && r.tasks[c].kont.Running? && r.tasks[c].priority == s.tasks[c].priority
    requires r.tasks[c].senders == s.tasks[c].senders && MailOk(r.tasks[c], r.hist[c]) && NotesOk(r.tasks[c], r.hist[c])
    requires r.tasks[c].pager == s.tasks[c].pager && r.tasks[c].refCount == s.tasks[c].refCount
    ensures Inv(r) && SameFamily(s, r)
  {
    forall t | IsTask(r, t) ensures SendersOk(r, t) && TaskOk(r, t) {
      assert SendersOk(s, t) && TaskOk(s, t);
      if t != c { Untouched(s, r, t); }
    }
  }

  lemma RecvPhaseKeeps(s: State, src: Tid, flags: IpcFlags, after: After)
    requires Executing(s) && src >= 0
    ensures var r := RecvPhase(s, src, flags, after);
            Inv(r.0) && SameFamily(s, r.0) && (r.1.Done? ==> Executing(r.0) && r.0.current == s.current)
  {
    var c := s.current;
    assert TaskOk(s, c);
    if !flags.recv {
    } else if src == IPC_ANY && s.tasks[c].notifications != {} {
      OwnUpdateKeeps(s, TakePending(s), c);
    } else if !flags.noblock {
      ParkRecvKeeps(s, src, after);
      SwitchKeeps(ParkRecv(s, src, after));
    }
  }

  lemma SleepKeeps(s: State, src: Tid, after: After)
    requires Executing(s) && src >= 0
    ensures Inv(Switch(ParkRecv(s, src, after))) && SameFamily(s, Switch(ParkRecv(s, src, after)))
  {
    ParkRecvKeeps(s, src, after);
    SwitchKeeps(ParkRecv(s, src, after));
  }

  lemma DeliverExecuting(s: State, d: Tid, m: Message, flags: IpcFlags)
    requires Executing(s) && IsTask(s, d) && d != s.current && Ready(s, d)
    requires flags.kernel ==> m.typ != NotificationsMsg
    ensures Executing(Deliver(s, d, m, flags)) && SameFamily(s, Deliver(s, d, m, flags))
    ensures Deliver(s, d, m, flags).current == s.current
  {
    DeliverKeeps(s, d, m, flags);
  }

  lemma IpcFastpathKeeps(s: State, dst: Tid, src: Tid, m: Message, after: After)
    requires Executing(s) && src >= 0 && IsTask(s, dst) && dst != s.current && Ready(s, dst)
    ensures var r := IpcFastpath(s, dst, src, m, after); Inv(r.0) && SameFamily(s, r.0)
  {
    var flags := IpcFlags(true, true, false, false, false);
    DeliverExecuting(s, dst, m, flags);
    SleepKeeps(Deliver(s, dst, m, flags), src, after);
  }

  lemma IpcSlowpathKeeps(s: State, dst: Tid, src: Tid, m: Message, flags: IpcFlags, after: After)
    requires Executing(s) && src >= 0
    requires flags.send ==> InUse(s, dst) && dst != s.current
    requires flags.kernel ==> m.typ != NotificationsMsg
    ensures var r := IpcSlowpath(s, dst, src, m, flags, after);
            Inv(r.0) && SameFamily(s, r.0) && (r.1.Done? ==> Executing(r.0) && r.0.current == s.current)
  {
    if !flags.send {
      RecvPhaseKeeps(s, src, flags, after);
    } else if Ready(s, dst) {
      DeliverExecuting(s, dst, m, flags);
      RecvPhaseKeeps(Deliver(s, dst, m, flags), src, flags, after);
    } else if !flags.noblock {
      ParkSendKeeps(s, dst, src, m, flags, after);
      SwitchKeeps(ParkSend(s, dst, src, m, flags, after));
    }
  }

  lemma IpcKeeps(s: State, dst: Tid, src: Tid, m: Message, flags: IpcFlags, after: After)
    requires Executing(s) && src >= 0
    requires flags.send ==> InUse(s, dst)
    requires flags.kernel ==> m.typ != NotificationsMsg
    ensures var r := Ipc(s, dst, src, m, flags, after);
            Inv(r.0) && SameFamily(s, r.0) && (r.1.Done? ==> Executing(r.0) && r.0.current == s.current)
  {
    if flags.send && dst == s.current {
    } else if Fastpath(s, dst, flags) {
      IpcFastpathKeeps(s, dst, src, m, after);
    } else {
      IpcSlowpathKeeps(s, dst, src, m, flags, after);
    }
  }

  lemma RetireCore(s: State)
    requires Executing(s)
    ensures var r := Set(s, s.current, s.tasks[s.current].(state := Blocked, src := IPC_DENY, kont := Exited));
            Core(r) && SameFamily(s, r)
  {
    var c := s.current;
    var r := Set(s, c, s.tasks[c].(state := Blocked, src := IPC_DENY, kont := Exited));
    forall t | IsTask(r, t) ensures SendersOk(r, t) && TaskOk(r, t) {
      assert SendersOk(s, t) && TaskOk(s, t);
      if t != c { Untouched(s, r, t); }
    }
  }

  lemma RetireKeeps(s: State)
    requires Executing(s)
    ensures Inv(Retire(s)) && SameFamily(s, Retire(s))
  {
    var r := Set(s, s.current, s.tasks[s.current].(state := Blocked, src := IPC_DENY, kont := Exited));
    RetireCore(s);
    SwitchKeeps(r);
    FamilyTrans(s, r, Switch(r));
  }

  /** The pager that CURRENT turns to is a live task. */
  ghost predicate PagerUsable(s: State) {
    && 0 <= s.current < |s.tasks|
    && var pager := s.tasks[s.current].pager;
       pager != NO_TASK ==> InUse(s, pager)
  }

  lemma ExitKeeps(s: State)
    requires Executing(s) && PagerUsable(s)
    ensures Inv(Exit(s)) && SameFamily(s, Exit(s))
  {
    var pager := s.tasks[s.current].pager;
    if pager != NO_TASK {
      IpcKeeps(s, pager, IPC_ANY, EXCEPTION, SEND_KERNEL, ToExit);
      var (s1, res) := Ipc(s, pager, IPC_ANY, EXCEPTION, SEND_KERNEL, ToExit);
      if res.Done? { RetireKeeps(s1); }
    } else {
      SameTasksKeep(s, Exit(s));
    }
  }

  lemma ReturnKeeps(s: State, err: Error, m: Message, after: After)
    requires Executing(s) && PagerUsable(s)
    ensures Inv(Return(s, err, m, after)) && SameFamily(s, Return(s, err, m, after))
  {
    match after
    case ToUser =>
    case ToFault => if err != OK || m.typ != PageFaultReplyMsg { ExitKeeps(s); }
    case ToExit => RetireKeeps(s);
  }

  lemma PageFaultKeeps(s: State)
    requires Executing(s) && PagerUsable(s)
    ensures Inv(PageFault(s)) && SameFamily(s, PageFault(s))
  {
    var pager := s.tasks[s.current].pager;
    if pager != NO_TASK {
      IpcKeeps(s, pager, pager, PAGE_FAULT, CALL_KERNEL, ToFault);
      var (s1, res) := Ipc(s, pager, pager, PAGE_FAULT, CALL_KERNEL, ToFault);
      if res.Done? { ReturnKeeps(s1, res.err, PAGE_FAULT, ToFault); }
    } else {
      SameTasksKeep(s, PageFault(s));
    }
  }

  // ---- the second halves of ipc() ---------------------------------------------------

  lemma WakeKeeps(s: State)
    requires Inv(s) && IsTask(s, s.current) && s.tasks[s.current].kont.InSend?
    ensures Executing(Wake(s)) && SameFamily(s, Wake(s))
    ensures Ready(s, s.tasks[s.current].kont.dst)
  {
    assert TaskOk(s, s.current);
    OwnUpdateKeeps(s, Wake(s), s.current);
  }

  /** The send phase gives up: it eats the abort bit. */
  lemma AbortKeeps(s: State, w: State)
    requires Executing(s) && NOTIFY_ABORTED in s.tasks[s.current].notifications
    requires w == Set(Log(s, s.current, s.hist[s.current].(consumed := s.hist[s.current].consumed + {NOTIFY_ABORTED})),
                      s.current,
                      s.tasks[s.current].(notifications := s.tasks[s.current].notifications - {NOTIFY_ABORTED}))
    ensures Executing(w) && SameFamily(s, w) && w.current == s.current
  {
    assert TaskOk(s, s.current);
    OwnUpdateKeeps(s, w, s.current);
  }

  /** The rest of ipc() and of its caller, from the point of no return on. */
  lemma FinishSendKeeps(s: State, dst: Tid, m: Message, flags: IpcFlags, src: Tid, after: After)
    requires Executing(s) && PagerUsable(s) && src >= 0
    requires IsTask(s, dst) && dst != s.current && Ready(s, dst)
    requires flags.kernel ==> m.typ != NotificationsMsg
    ensures var r := RecvPhase(Deliver(s, dst, m, flags), src, flags, after);
            && Inv(r.0) && SameFamily(s, r.0)
            && (r.1.Done? ==>
               Executing(r.0) && Inv(Return(r.0, r.1.err, m, after)) && SameFamily(s, Return(r.0, r.1.err, m, after)))
  {
    DeliverExecuting(s, dst, m, flags);
    var d := Deliver(s, dst, m, flags);
    RecvPhaseKeeps(d, src, flags, after);
    var r := RecvPhase(d, src, flags, after);
    if r.1.Done? { ReturnKeeps(r.0, r.1.err, m, after); }
  }

  /** Beyond the point of no return the receiver is always ready for the sender. */
  lemma ContinueSendKeeps(s: State)
    requires Inv(s) && IsTask(s, s.current) && s.tasks[s.current].kont.InSend? && PagerUsable(s)
    ensures Ready(s, s.tasks[s.current].kont.dst)
    ensures Inv(ContinueSend(s)) && SameFamily(s, ContinueSend(s))
  {
    var c := s.current;
    assert TaskOk(s, c);
    var InSend(dst, m, flags, src, after) := s.tasks[c].kont;
    WakeKeeps(s);
    var w := Wake(s);
    if NOTIFY_ABORTED in s.tasks[c].notifications {
      var s1 := Log(w, c, w.hist[c].(consumed := w.hist[c].consumed + {NOTIFY_ABORTED}));
      var s2 := Set(s1, c, s1.tasks[c].(notifications := s1.tasks[c].notifications - {NOTIFY_ABORTED}));
      AbortKeeps(w, s2);
      ReturnKeeps(s2, ErrAborted, m, after);
    } else {
      FinishSendKeeps(w, dst, m, flags, src, after);
    }
  }

  lemma ContinueRecvKeeps(s: State)
    requires Inv(s) && IsTask(s, s.current) && s.tasks[s.current].kont.InRecv? && PagerUsable(s)
    ensures Inv(ContinueRecv(s)) && SameFamily(s, ContinueRecv(s))
  {
    var c := s.current;
    assert TaskOk(s, c);
    OwnUpdateKeeps(s, Collect(s), c);
    ReturnKeeps(Collect(s), OK, s.tasks[c].m, s.tasks[c].kont.after);
  }

  // ---- scheduling, timers and interrupts -------------------------------------------

  lemma QueuesSchedule(s: State, t: Tid, priority: int)
    requires Inv(s) && IsTask(s, t) && t != s.current && 0 <= priority < TASK_PRIORITY_MAX
    ensures QueuesOk(Schedule(s, t, priority), s.current)
  {
    var r := Schedule(s, t, priority);
    forall p | 0 <= p < TASK_PRIORITY_MAX ensures NoDup(r.runqueues[p]) {
      NoDupWithout(s.runqueues[p], t);
      if p == priority { NoDupAppend(Without(s.runqueues[p], t), t); }
    }
  }

  lemma ScheduleKeeps(s: State, t: Tid, priority: int)
    requires Inv(s) && IsTask(s, t) && t != s.current
    ensures Inv(Schedule(s, t, priority)) && SameFamily(s, Schedule(s, t, priority))
  {
    var r := Schedule(s, t, priority);
    if priority < 0 {
      SameTasksKeep(s, r);
    } else if priority < TASK_PRIORITY_MAX {
      QueuesSchedule(s, t, priority);
      assert r.tasks == s.tasks[t := s.tasks[t].(priority := priority)];
      forall x | IsTask(r, x) ensures SendersOk(r, x) && TaskOk(r, x) {
        assert SendersOk(s, x) && TaskOk(s, x);
        if x != t { Untouched(s, r, x); }
      }
    }
  }

  lemma TimeoutDownKeeps(s: State, i: nat)
    requires Inv(s) && InUse(s, i) && s.tasks[i].timeout > 0
    ensures var r := Set(s, i, s.tasks[i].(timeout := s.tasks[i].timeout - 1));
            Inv(r) && SameFamily(s, r) && InUse(r, i)
  {
    SameTasksKeep(s, Set(s, i, s.tasks[i].(timeout := s.tasks[i].timeout - 1)));
  }

  lemma TickExpiryKeeps(s: State, i: nat)
    requires Inv(s) && InUse(s, i) && s.tasks[i].timeout > 0
    ensures var r := Notify(Set(s, i, s.tasks[i].(timeout := s.tasks[i].timeout - 1)), i, {NOTIFY_TIMER});
            Inv(r) && SameFamily(s, r)
  {
    var s1 := Set(s, i, s.tasks[i].(timeout := s.tasks[i].timeout - 1));
    TimeoutDownKeeps(s, i);
    NotifyKeeps(s1, i, {NOTIFY_TIMER});
    FamilyTrans(s, s1, Notify(s1, i, {NOTIFY_TIMER}));
  }

  lemma TickTaskKeeps(s: State, i: nat)
    requires Inv(s) && IsTask(s, i)
    ensures Inv(TickTask(s, i)) && SameFamily(s, TickTask(s, i))
  {
    if !s.tasks[i].state.Unused? && s.tasks[i].timeout > 0 {
      if Expires(s, i) { TickExpiryKeeps(s, i); } else { TimeoutDownKeeps(s, i); }
    }
  }

  lemma {:induction false} TimeoutsKeep(s: State, i: nat)
    requires Inv(s) && 1 <= i <= |s.tasks|
    ensures Inv(Timeouts(s, i).0) && SameFamily(s, Timeouts(s, i).0)
    decreases |s.tasks| - i
  {
    if i < |s.tasks| {
      TickTaskKeeps(s, i);
      TimeoutsKeep(TickTask(s, i), i + 1);
    }
  }

  lemma SliceUsedKeeps(s: State)
    requires Inv(s)
    ensures var r := Set(s, s.current, s.tasks[s.current].(quantum := s.tasks[s.current].quantum - 1));
            Inv(r) && SameFamily(s, r)
  {
    SameTasksKeep(s, Set(s, s.current, s.tasks[s.current].(quantum := s.tasks[s.current].quantum - 1)));
  }

  lemma SliceEndKeeps(s: State)
    requires Inv(s)
    ensures var r := Switch(Set(s, s.current, s.tasks[s.current].(quantum := s.tasks[s.current].quantum - 1)));
            Inv(r) && SameFamily(s, r)
  {
    var r := Set(s, s.current, s.tasks[s.current].(quantum := s.tasks[s.current].quantum - 1));
    SliceUsedKeeps(s);
    SwitchKeeps(r);
    FamilyTrans(s, r, Switch(r));
  }

  lemma UseQuantumKeeps(s: State, expired: bool)
    requires Inv(s)
    ensures Inv(UseQuantum(s, expired)) && SameFamily(s, UseQuantum(s, expired))
  {
    SliceUsedKeeps(s);
    SliceEndKeeps(s);
  }

  lemma TimerIrqKeeps(s: State)
    requires Inv(s)
    ensures Inv(TimerIrq(s)) && SameFamily(s, TimerIrq(s))
  {
    TimeoutsKeep(s, 1);
    var (s1, expired) := Timeouts(s, 1);
    UseQuantumKeeps(s1, expired);
    FamilyTrans(s, s1, UseQuantum(s1, expired));
  }

  lemma IrqKeeps(s: State, irq: nat)
    requires Inv(s) && irq < |s.irqOwners|
    ensures Inv(Irq(s, irq)) && SameFamily(s, Irq(s, irq))
  {
    var owner := s.irqOwners[irq];
    if owner != NO_TASK {
      NotifyKeeps(s, owner, {NOTIFY_IRQ});
      SwitchKeeps(Notify(s, owner, {NOTIFY_IRQ}));
    }
  }

  // ---- task creation and destruction -------------------------------------------------

  /** What a successful task_create(t) does, as one relation. */
  ghost predicate Created(s: State, r: State, t: Tid, pager: Tid, caps: bool)
    requires Shape(s) && Shape(r) && IsTask(s, t) && IsTask(s, pager)
  {
    && |r.tasks| == |s.tasks| && r.current == s.current && r.irqOwners == s.irqOwners && r.switches == s.switches
    && r.runqueues == s.runqueues[TASK_PRIORITY_MAX - 1 := s.runqueues[TASK_PRIORITY_MAX - 1] + [t]]
    && r.tasks == s.tasks[t := FreshTask(s.tasks[t], pager, caps).(state := Runnable)]
                         [pager := s.tasks[pager].(refCount := s.tasks[pager].refCount + 1)]
    && r.hist == s.hist[t := FRESH_HISTORY]
  }

  lemma CreatedQueues(s: State, r: State, t: Tid, pager: Tid, caps: bool)
    requires Inv(s) && Shape(r) && IsTask(s, t) && InUse(s, pager) && s.tasks[t].state.Unused?
    requires Created(s, r, t, pager, caps)
    ensures QueuesOk(r, r.current)
  {
    NoDupAppend(s.runqueues[TASK_PRIORITY_MAX - 1], t);
  }

  lemma CreateKeeps(s: State, t: Tid, pager: Tid, flags: TaskFlags, archOk: bool)
    requires Inv(s) && IsTask(s, t) && InUse(s, pager) && CreateError(s, t, flags, archOk) == OK
    ensures Created(s, Create(s, t, pager, flags, archOk), t, pager, flags.allCaps)
    ensures Inv(Create(s, t, pager, flags, archOk))
  {
    var r := Create(s, t, pager, flags, archOk);
    assert Created(s, r, t, pager, flags.allCaps);
    CreatedQueues(s, r, t, pager, flags.allCaps);
    forall x | IsTask(r, x) ensures SendersOk(r, x) && TaskOk(r, x) {
      assert SendersOk(s, x) && TaskOk(s, x) && TaskOk(s, t) && SendersOk(s, pager) && TaskOk(s, pager);
      if x != t && x != pager { Untouched(s, r, x); }
    }
  }

  /** No runnable task is about to complete a send to t: the caller of task_destroy() can check this. */
  ghost predicate NotAwaited(s: State, t: Tid)
    requires Shape(s)
  {
    forall x :: InWindow(s, x) ==> s.tasks[x].kont.dst != t
  }

  function OneIf(b: bool): nat {
    if b then 1 else 0
  }

  /** What task_destroy(t) does, as one relation. */
  ghost predicate Destroyed(s: State, r: State, t: Tid)
    requires Shape(s) && Shape(r) && |r.tasks| == |s.tasks| && IsTask(s, t)
  {
    var queue := s.tasks[t].senders;
    && r.current == s.current && r.panicked == s.panicked && r.switches == s.switches
    && (forall p :: 0 <= p < TASK_PRIORITY_MAX ==> r.runqueues[p] == Without(s.runqueues[p], t))
    && r.irqOwners == ReleaseIrqs(s.irqOwners, t)
    && r.tasks[t].state.Unused? && r.tasks[t].senders == []
    && (forall x :: 0 <= x < |s.tasks| && x != t ==>
          var pending := if x in queue then {NOTIFY_ABORTED} else {};
          && r.tasks[x] == s.tasks[x].(senders := Without(s.tasks[x].senders, t),
                                       refCount := s.tasks[x].refCount - OneIf(x == s.tasks[t].pager && x != NO_TASK),
                                       notifications := s.tasks[x].notifications + pending)
          && r.hist[x] == s.hist[x].(raised := s.hist[x].raised + pending))
  }

  /** x has gained the abort bit iff `hit`, and its sender queue is q. */
  ghost predicate Marked(s: State, r: State, x: Tid, hit: bool, q: seq<Tid>)
    requires 0 <= x < |s.tasks| == |r.tasks| == |s.hist| == |r.hist|
  {
    var pending := if hit then {NOTIFY_ABORTED} else {};
    && r.tasks[x] == s.tasks[x].(notifications := s.tasks[x].notifications + pending, senders := q)
    && r.hist[x] == s.hist[x].(raised := s.hist[x].raised + pending)
  }

  lemma MarkedTwice(s: State, m: State, r: State, x: Tid, hit: bool, hit': bool, q: seq<Tid>, q': seq<Tid>)
    requires 0 <= x < |s.tasks| == |m.tasks| == |r.tasks| == |s.hist| == |m.hist| == |r.hist|
    requires Marked(s, m, x, hit, q) && Marked(m, r, x, hit', q')
    ensures Marked(s, r, x, hit || hit', q')
  {
    var a := if hit then {NOTIFY_ABORTED} else {};
    var b := if hit' then {NOTIFY_ABORTED} else {};
    var n := s.tasks[x].notifications;
    assert n + a + b == n + (a + b) && s.hist[x].raised + a + b == s.hist[x].raised + (a + b);
    assert a + b == if hit || hit' then {NOTIFY_ABORTED} else {};
  }

  lemma AbortFirstIs(s: State, t: Tid)
    requires Shape(s) && IsTask(s, t) && s.tasks[t].senders != []
    requires IsTask(s, s.tasks[t].senders[0]) && s.tasks[s.tasks[t].senders[0]].src != IPC_ANY
    ensures var r := AbortFirst(s, t);
            && r == s.(tasks := r.tasks, hist := r.hist)
            && (forall x :: 0 <= x < |s.tasks| ==>
                  Marked(s, r, x, x == s.tasks[t].senders[0], if x == t then s.tasks[t].senders[1..]
                    else s.tasks[x].senders))
  {
    NotifyPending(s, s.tasks[t].senders[0], {NOTIFY_ABORTED});
  }

  /** Marking the first sender opens the receive of none of the others. */
  lemma StillClosed(s: State, m: State, t: Tid)
    requires Shape(s) && Shape(m) && |m.tasks| == |s.tasks| && IsTask(s, t) && s.tasks[t].senders != []
    requires forall x :: x in s.tasks[t].senders ==> s.tasks[x].src != IPC_ANY
    requires forall x :: 0 <= x < |s.tasks| ==>
               Marked(s, m, x, x == s.tasks[t].senders[0],
                      if x == t then s.tasks[t].senders[1..] else s.tasks[x].senders)
    ensures forall x :: x in m.tasks[t].senders ==> m.tasks[x].src != IPC_ANY
  {
    var q := s.tasks[t].senders;
    assert Marked(s, m, t, t == q[0], q[1..]) && forall x :: x in q[1..] ==> x in q;
    forall x | x in m.tasks[t].senders ensures m.tasks[x].src != IPC_ANY {
      assert x in q && Marked(s, m, x, x == q[0], if x == t then q[1..] else s.tasks[x].senders);
    }
  }

  lemma {:induction false} AbortAllIs(s: State, t: Tid)
    requires Shape(s) && IsTask(s, t)
    requires forall x :: x in s.tasks[t].senders ==> s.tasks[x].src != IPC_ANY
    ensures var r := AbortAll(s, t);
            && r == s.(tasks := r.tasks, hist := r.hist)
            && (forall x :: 0 <= x < |s.tasks| ==>
                  Marked(s, r, x, x in s.tasks[t].senders, if x == t then [] else s.tasks[x].senders))
    decreases |s.tasks[t].senders|
  {
    var q := s.tasks[t].senders;
    var r := AbortAll(s, t);
    if q != [] {
      assert q[0] in q && forall x :: x in q <==> x == q[0] || x in q[1..];
      AbortFirstIs(s, t);
      var m := AbortFirst(s, t);
      assert Marked(s, m, t, t == q[0], q[1..]);
      StillClosed(s, m, t);
      AbortAllIs(m, t);
      forall x | 0 <= x < |s.tasks| ensures Marked(s, r, x, x in q, if x == t then [] else s.tasks[x].senders) {
        var q1 := if x == t then q[1..] else s.tasks[x].senders;
        MarkedTwice(s, m, r, x, x == q[0], x in q[1..], q1, if x == t then [] else q1);
      }
    }
  }

  lemma WithoutAbsent(q: seq<Tid>, x: Tid)
    requires x !in q
    ensures Without(q, x) == q
  {
  }

  lemma DetachIs(s: State, t: Tid)
    requires Inv(s) && IsTask(s, t) && s.tasks[t].pager != t
    ensures var r := Detach(s, t);
            && r == s.(tasks := r.tasks, runqueues := r.runqueues)
            && (forall p :: 0 <= p < TASK_PRIORITY_MAX ==> r.runqueues[p] == Without(s.runqueues[p], t))
            && r.tasks[t].state.Unused? && r.tasks[t].senders == s.tasks[t].senders
            && (forall x :: 0 <= x < |s.tasks| && x != t ==>
                  r.tasks[x] == s.tasks[x].(
                                  senders := Without(s.tasks[x].senders, t),
                                  refCount := s.tasks[x].refCount - OneIf(x == s.tasks[t].pager && x != NO_TASK)))
  {
    assert SendersOk(s, t);
    WithoutAbsent(s.tasks[t].senders, t);
  }

  lemma DestroyIs(s: State, t: Tid)
    requires Inv(s) && IsTask(s, t) && DestroyError(s, t) == OK && s.tasks[t].pager != t
    ensures Destroyed(s, Destroy(s, t), t)
  {
    DetachIs(s, t);
    var s1 := Detach(s, t);
    forall x | x in s.tasks[t].senders ensures s1.tasks[x].src != IPC_ANY { assert SendersOk(s, t) && TaskOk(s, x); }
    AbortAllIs(s1, t);
    forall x | 0 <= x < |s.tasks| && x != t
      ensures Marked(s1, AbortAll(s1, t), x, x in s.tasks[t].senders, s1.tasks[x].senders) { }
    assert Marked(s1, AbortAll(s1, t), t, t in s.tasks[t].senders, []);
  }

  lemma DestroyedQueues(s: State, r: State, t: Tid)
    requires Inv(s) && Shape(r) && |r.tasks| == |s.tasks| && IsTask(s, t) && t != s.current && Destroyed(s, r, t)
    ensures QueuesOk(r, r.current)
  {
    forall p | 0 <= p < TASK_PRIORITY_MAX ensures NoDup(r.runqueues[p]) {
      NoDupWithout(s.runqueues[p], t);
    }
  }

  lemma DestroyedTask(s: State, r: State, t: Tid, x: Tid)
    requires Inv(s) && Shape(r) && |r.tasks| == |s.tasks| && IsTask(s, t) && t != s.current && Destroyed(s, r, t)
    requires NotAwaited(s, t) && IsTask(s, x)
    ensures SendersOk(r, x) && TaskOk(r, x)
  {
    assert SendersOk(s, x) && TaskOk(s, x);
    if x != t {
      NoDupWithout(s.tasks[x].senders, t);
    }
  }

  lemma AwaitedBreaks(s: State, r: State, t: Tid, x: Tid)
    requires Inv(s) && Shape(r) && |r.tasks| == |s.tasks| && IsTask(s, t) && Destroyed(s, r, t)
    requires InWindow(s, x) && s.tasks[x].kont.dst == t
    ensures !TaskOk(r, x)
  {
    assert TaskOk(s, x);
  }

  /** task_destroy() keeps the invariant exactly if no resumed sender is still to deliver to the task. */
  lemma DestroyKeepsIff(s: State, t: Tid)
    requires Inv(s) && IsTask(s, t) && t != s.current && DestroyError(s, t) == OK && s.tasks[t].pager != t
    ensures Inv(Destroy(s, t)) <==> NotAwaited(s, t)
  {
    DestroyIs(s, t);
    var r := Destroy(s, t);
    DestroyedQueues(s, r, t);
    if NotAwaited(s, t) {
      forall x | IsTask(r, x) ensures SendersOk(r, x) && TaskOk(r, x) { DestroyedTask(s, r, t, x); }
    } else {
      var x :| InWindow(s, x) && s.tasks[x].kont.dst == t;
      AwaitedBreaks(s, r, t, x);
    }
  }
}
