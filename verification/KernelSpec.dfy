/**
 The kernel of kernel/ipc.c, kernel/task.c and kernel/syscall.c as a single-CPU
 step machine.  A `State` holds the task table, the run queues, the interrupt
 owners and CURRENT.  Every entry into the kernel (a system call, an interrupt,
 a fault, or the code that a task runs when `task_switch()` returns to it) is a
 function on states; `Step` collects them.

 A C task that sleeps inside `task_switch()` keeps its position on its kernel
 stack.  Here that position is the field `kont`.
 */
module KernelSpec {

  type Tid = int

  const IPC_ANY := 0
  const IPC_DENY := -1
  const KERNEL_TASK := 0
  const IDLE_TASK := 0
  const INIT_TASK := 1
  const NO_TASK := 0
  const TASK_PRIORITY_MAX := 8
  const TASK_TIME_SLICE := 10

  /** `notifications_t`, as the set of the bit positions that are set. */
  type Bits = set<nat>

  const NOTIFY_TIMER := 0
  const NOTIFY_IRQ := 1
  const NOTIFY_ABORTED := 2

  datatype Error =
    | OK | ErrNotPermitted | ErrWouldBlock | ErrAborted | ErrInvalidArg
    | ErrInvalidTask | ErrAlreadyExists | ErrUnavailable | ErrInUse

  datatype MsgType = NotificationsMsg | ExceptionMsg | PageFaultMsg | PageFaultReplyMsg | OtherMsg(id: int)

  /** `struct message`; `bits` is its `notifications.data` field. */
  datatype Message = Message(typ: MsgType, src: Tid, bits: Bits, raw: seq<int>)

  /** The IPC flags; `other` stands for any bit outside the four known ones. */
  datatype IpcFlags = IpcFlags(send: bool, recv: bool, noblock: bool, kernel: bool, other: bool)

  datatype TaskFlags = TaskFlags(allCaps: bool, abiEmu: bool, sched: bool, hv: bool, other: bool)

  datatype RunState = Unused | Runnable | Blocked

  /** What the kernel does once `ipc()` has returned. */
  datatype After = ToUser | ToFault | ToExit

  /** Where a task continues when the scheduler picks it next. */
  datatype Kont =
    | Running
    | InSend(dst: Tid, msg: Message, flags: IpcFlags, recvFrom: Tid, after: After)
    | InRecv(filter: Tid, after: After)
    | Exited

  /** `struct task`; `pager` is `NO_TASK` for a null pointer. */
  datatype Task = Task(
    state: RunState,
    refCount: int,
    pager: Tid,
    quantum: int,
    priority: int,
    m: Message,
    src: Tid,
    notifications: Bits,
    timeout: nat,
    senders: seq<Tid>,
    caps: bool,
    kont: Kont)

  /** A write into a task's message buffer, with the task that made it (0: the kernel's `notify`). */
  datatype Letter = Letter(from: Tid, m: Message)

  /** What a receive operation that slept took out of the buffer. */
  datatype Receipt = Receipt(filter: Tid, m: Message)

  /** The observable history of one task since it was created. */
  datatype History = History(
    letters: seq<Letter>,   // every write into `m`
    receipts: seq<Receipt>, // every copy out of `m` to the task
    raised: Bits,           // bits passed to notify()
    taken: Bits,            // bits the task has received
    consumed: Bits)         // bits eaten by an aborted send

  datatype State = State(
    tasks: seq<Task>,       // index 0 is the idle task
    runqueues: seq<seq<Tid>>,
    irqOwners: seq<Tid>,
    current: Tid,
    panicked: bool,         // the kernel has stopped, or does what C does not define
    switches: nat,          // how often task_switch() has run
    hist: seq<History>)

  /** Every element names a slot of a task table of n entries, the idle task aside. */
  ghost predicate Tids(q: seq<Tid>, n: nat) {
    forall x :: x in q ==> 1 <= x < n
  }

  ghost predicate TaskShape(n: nat, t: Tid, task: Task) {
    && 0 <= task.priority < TASK_PRIORITY_MAX
    && Tids(task.senders, n)
    && 0 <= task.pager < n
    && (task.kont.InSend? ==> 1 <= task.kont.dst < n && task.kont.dst != t && task.kont.recvFrom >= 0)
  }

  /** The shape every state has; the rest of the module assumes it. */
  ghost predicate Shape(s: State) {
    && |s.tasks| >= 2
    && |s.hist| == |s.tasks|
    && |s.runqueues| == TASK_PRIORITY_MAX
    && 0 <= s.current < |s.tasks|
    && (forall t :: 0 <= t < |s.tasks| ==> TaskShape(|s.tasks|, t, s.tasks[t]))
    && (forall p :: 0 <= p < |s.runqueues| ==> Tids(s.runqueues[p], |s.tasks|))
    && (forall i :: 0 <= i < |s.irqOwners| ==> 0 <= s.irqOwners[i] < |s.tasks|)
  }

  /** A task ID that `task_lookup_unchecked` accepts. */
  predicate IsTask(s: State, t: Tid) {
    1 <= t < |s.tasks|
  }

  predicate InUse(s: State, t: Tid) {
    IsTask(s, t) && !s.tasks[t].state.Unused?
  }

  function Set(s: State, t: Tid, task: Task): (r: State)
    requires 0 <= t < |s.tasks|
    ensures Shape(s) && TaskShape(|s.tasks|, t, task) ==> Shape(r)
  {
    s.(tasks := s.tasks[t := task])
  }

  function Log(s: State, t: Tid, h: History): (r: State)
    requires 0 <= t < |s.hist|
    ensures Shape(s) ==> Shape(r)
  {
    s.(hist := s.hist[t := h])
  }

  function Without(q: seq<Tid>, x: Tid): (r: seq<Tid>)
    ensures forall y :: y in r <==> y in q && y != x
    ensures |r| <= |q|
  {
    if q == [] then [] else if q[0] == x then Without(q[1..], x) else [q[0]] + Without(q[1..], x)
  }

  // ---- kernel/task.c --------------------------------------------------------

  function Enqueue(s: State, t: Tid): (r: State)
    requires Shape(s) && IsTask(s, t)
    ensures Shape(r) && |r.tasks| == |s.tasks|
  {
    var p := s.tasks[t].priority;
    s.(runqueues := s.runqueues[p := s.runqueues[p] + [t]])
  }

  /** task_resume() */
  function Resume(s: State, t: Tid): (r: State)
    requires Shape(s) && IsTask(s, t)
    ensures Shape(r) && |r.tasks| == |s.tasks|
  {
    Enqueue(Set(s, t, s.tasks[t].(state := Runnable)), t)
  }

  /** The best non-empty run queue at or after index i. */
  function Best(rq: seq<seq<Tid>>, i: nat): (k: nat)
    requires i <= |rq|
    ensures i <= k <= |rq|
    ensures k < |rq| ==> rq[k] != []
    ensures forall j :: i <= j < k ==> rq[j] == []
    decreases |rq| - i
  {
    if i == |rq| || rq[i] != [] then i else Best(rq, i + 1)
  }

  function Requeue(s: State): (r: State)
    requires Shape(s)
    ensures Shape(r) && |r.tasks| == |s.tasks|
  {
    if s.current != IDLE_TASK && s.tasks[s.current].state.Runnable? then Enqueue(s, s.current) else s
  }

  /** scheduler(): the task that runs next, given the queues after `Requeue`. */
  function Pick(rq: seq<seq<Tid>>): Tid {
    var k := Best(rq, 0);
    if k < |rq| then rq[k][0] else IDLE_TASK
  }

  function Popped(rq: seq<seq<Tid>>): seq<seq<Tid>> {
    var k := Best(rq, 0);
    if k < |rq| then rq[k := rq[k][1..]] else rq
  }

  /** task_switch() */
  function Switch(s: State): (r: State)
    requires Shape(s)
    ensures Shape(r) && |r.tasks| == |s.tasks|
  {
    var q := Requeue(s);
    var next := Pick(q.runqueues);
    var k := Best(q.runqueues, 0);
    assert k < |q.runqueues| ==> next in q.runqueues[k] && forall x :: x in q.runqueues[k][1..] ==> x in q.runqueues[k];
    Set(q, next, q.tasks[next].(quantum := TASK_TIME_SLICE)).(runqueues := Popped(q.runqueues), current := next,
      switches := s.switches + 1)
  }

  const EMPTY_MESSAGE := Message(OtherMsg(0), 0, {}, [])
  const FRESH_HISTORY := History([], [], {}, {}, {})

  /** The fields that task_create() sets; `m` is left as it was. */
  function FreshTask(old_: Task, pager: Tid, caps: bool): Task {
    old_.(state := Blocked, notifications := {}, pager := pager, src := IPC_DENY, timeout := 0, quantum := 0,
          priority := TASK_PRIORITY_MAX - 1, refCount := 0, caps := caps, senders := [], kont := Running)
  }

  function CreateError(s: State, t: Tid, flags: TaskFlags, archOk: bool): Error
    requires IsTask(s, t)
  {
    if !s.tasks[t].state.Unused? then ErrAlreadyExists
    else if flags.sched || flags.other then ErrInvalidArg
    else if flags.abiEmu || flags.hv then ErrUnavailable
    else if !archOk then ErrInvalidArg
    else OK
  }

  /** task_create() on a slot of the task table, with a pager. */
  function Create(s: State, t: Tid, pager: Tid, flags: TaskFlags, archOk: bool): (r: State)
    requires Shape(s) && IsTask(s, t) && IsTask(s, pager)
    ensures Shape(r) && |r.tasks| == |s.tasks|
  {
    if CreateError(s, t, flags, archOk) != OK then s else
    var s1 := Set(s, t, FreshTask(s.tasks[t], pager, flags.allCaps));
    var s2 := Set(s1, pager, s1.tasks[pager].(refCount := s1.tasks[pager].refCount + 1));
    Resume(Log(s2, t, FRESH_HISTORY), t)
  }

  function DestroyError(s: State, t: Tid): Error
    requires IsTask(s, t)
  {
    if t == INIT_TASK || s.tasks[t].state.Unused? then ErrInvalidArg
    else if s.tasks[t].refCount > 0 then ErrInUse
    else OK
  }

  /** Unlinks `t` from the run queue and the sender queue it may be in. */
  function Unlink(s: State, t: Tid): (r: State)
    requires Shape(s)
    ensures Shape(r) && |r.tasks| == |s.tasks|
  {
    var rq := seq(|s.runqueues|, p requires 0 <= p < |s.runqueues| => Without(s.runqueues[p], t));
    var ts := seq(|s.tasks|, i requires 0 <= i < |s.tasks| => s.tasks[i].(senders := Without(s.tasks[i].senders, t)));
    s.(runqueues := rq, tasks := ts)
  }

  /** notify(sender, NOTIFY_ABORTED) for the first sender that waits for t, which leaves the queue. */
  function AbortFirst(s: State, t: Tid): (r: State)
    requires Shape(s) && IsTask(s, t) && s.tasks[t].senders != []
    ensures Shape(r) && |r.tasks| == |s.tasks| && |r.tasks[t].senders| < |s.tasks[t].senders|
  {
    var q := s.tasks[t].senders;
    assert q[0] in q && forall x :: x in q[1..] ==> x in q;
    var s1 := Notify(s, q[0], {NOTIFY_ABORTED});
    assert TaskShape(|s.tasks|, t, s1.tasks[t]);
    Set(s1, t, s1.tasks[t].(senders := q[1..]))
  }

  /** The same for all of them, in order. */
  function AbortAll(s: State, t: Tid): (r: State)
    requires Shape(s) && IsTask(s, t)
    ensures Shape(r) && |r.tasks| == |s.tasks|
    decreases |s.tasks[t].senders|
  {
    if s.tasks[t].senders == [] then s else AbortAll(AbortFirst(s, t), t)
  }

  function ReleaseIrqs(owners: seq<Tid>, t: Tid): seq<Tid> {
    seq(|owners|, i requires 0 <= i < |owners| => if owners[i] == t then NO_TASK else owners[i])
  }

  /** task_destroy() up to its loops: t leaves the queues and its pager's count. */
  function Detach(s: State, t: Tid): (r: State)
    requires Shape(s) && IsTask(s, t)
    ensures Shape(r) && |r.tasks| == |s.tasks|
  {
    var s1 := Unlink(s, t);
    var s2 := Set(s1, t, s1.tasks[t].(state := Unused));
    var p := s2.tasks[t].pager;
    if p == NO_TASK then s2 else Set(s2, p, s2.tasks[p].(refCount := s2.tasks[p].refCount - 1))
  }

  /** task_destroy() */
  function Destroy(s: State, t: Tid): (r: State)
    requires Shape(s) && IsTask(s, t)
    ensures Shape(r) && |r.tasks| == |s.tasks|
  {
    if DestroyError(s, t) != OK then s else
    var r := AbortAll(Detach(s, t), t);
    r.(irqOwners := ReleaseIrqs(r.irqOwners, t))
  }

  /** task_schedule(); a negative priority names no run queue, and the code does not look for it. */
  function Schedule(s: State, t: Tid, priority: int): (r: State)
    requires Shape(s) && IsTask(s, t)
    ensures Shape(r) && |r.tasks| == |s.tasks|
  {
    if priority >= TASK_PRIORITY_MAX then s else
    if priority < 0 then s.(panicked := true) else
    if !s.tasks[t].state.Runnable? then Set(s, t, s.tasks[t].(priority := priority)) else
    var rq := seq(|s.runqueues|, p requires 0 <= p < |s.runqueues| => Without(s.runqueues[p], t));
    var s1 := Set(s, t, s.tasks[t].(priority := priority));
    s1.(runqueues := rq[priority := rq[priority] + [t]])
  }

  predicate Expires(s: State, i: nat)
    requires i < |s.tasks|
  {
    !s.tasks[i].state.Unused? && s.tasks[i].timeout == 1
  }

  /** One timer tick for the timeout of task i. */
  function TickTask(s: State, i: nat): (r: State)
    requires Shape(s) && IsTask(s, i)
    ensures Shape(r) && |r.tasks| == |s.tasks| && r.current == s.current
  {
    if s.tasks[i].state.Unused? || s.tasks[i].timeout == 0 then s else
    var s1 := Set(s, i, s.tasks[i].(timeout := s.tasks[i].timeout - 1));
    if Expires(s, i) then Notify(s1, i, {NOTIFY_TIMER}) else s1
  }

  /** The tasks i, i+1, ... take their timer ticks; also tells whether a timeout expired. */
  function Timeouts(s: State, i: nat): (r: (State, bool))
    requires Shape(s) && 1 <= i <= |s.tasks|
    ensures Shape(r.0) && |r.0.tasks| == |s.tasks| && r.0.current == s.current
    decreases |s.tasks| - i
  {
    if i == |s.tasks| then (s, false)
    else var (s1, expired) := Timeouts(TickTask(s, i), i + 1); (s1, expired || Expires(s, i))
  }

  /** CURRENT uses up a tick of its time slice. */
  function UseQuantum(s: State, expired: bool): (r: State)
    requires Shape(s)
    ensures Shape(r) && |r.tasks| == |s.tasks|
  {
    var s1 := Set(s, s.current, s.tasks[s.current].(quantum := s.tasks[s.current].quantum - 1));
    if s1.tasks[s.current].quantum < 0 || (s.current == IDLE_TASK && expired) then Switch(s1) else s1
  }

  /** handle_timer_irq() */
  function TimerIrq(s: State): (r: State)
    requires Shape(s)
    ensures Shape(r) && |r.tasks| == |s.tasks|
  {
    UseQuantum(Timeouts(s, 1).0, Timeouts(s, 1).1)
  }

  /** handle_irq() */
  function Irq(s: State, irq: nat): (r: State)
    requires Shape(s) && irq < |s.irqOwners|
    ensures Shape(r) && |r.tasks| == |s.tasks|
  {
    var owner := s.irqOwners[irq];
    if owner == NO_TASK then s else
    var s1 := Notify(s, owner, {NOTIFY_IRQ});
    if s1.current == IDLE_TASK then Switch(s1) else s1
  }

  // ---- kernel/ipc.c ---------------------------------------------------------

  /** The kernel copies `m` into the buffer of task t on behalf of `from`. */
  function Write(s: State, t: Tid, from: Tid, m: Message): (r: State)
    requires Shape(s) && IsTask(s, t)
    ensures Shape(r) && |r.tasks| == |s.tasks|
  {
    Log(Set(s, t, s.tasks[t].(m := m)), t, s.hist[t].(letters := s.hist[t].letters + [Letter(from, m)]))
  }

  /** notify() */
  function Notify(s: State, t: Tid, bits: Bits): (r: State)
    requires Shape(s) && IsTask(s, t)
    ensures Shape(r) && |r.tasks| == |s.tasks| && r.current == s.current
    ensures forall x :: 0 <= x < |s.tasks| ==> r.tasks[x].senders == s.tasks[x].senders
  {
    var s0 := Log(s, t, s.hist[t].(raised := s.hist[t].raised + bits));
    if s.tasks[t].state.Blocked? && s.tasks[t].src == IPC_ANY then
      var m := Message(NotificationsMsg, KERNEL_TASK, s.tasks[t].notifications + bits, s.tasks[t].m.raw);
      var s1 := Write(s0, t, KERNEL_TASK, m);
      var s2 := Set(s1, t, s1.tasks[t].(notifications := {}));
      Resume(s2, t)
    else
      Set(s0, t, s0.tasks[t].(notifications := s0.tasks[t].notifications + bits))
  }

  /** The index of the first queued sender that a receive from `src` accepts. */
  function FirstSender(q: seq<Tid>, src: Tid): (i: nat)
    ensures i <= |q|
    ensures i < |q| ==> src == IPC_ANY || q[i] == src
    ensures i > 0 ==> src != IPC_ANY
    ensures forall j :: 0 <= j < i ==> q[j] != src
  {
    if q == [] || src == IPC_ANY || q[0] == src then 0 else 1 + FirstSender(q[1..], src)
  }

  lemma FirstSenderIs(q: seq<Tid>, src: Tid, i: nat)
    requires i < |q| && (src == IPC_ANY || q[i] == src)
    requires (i > 0 ==> src != IPC_ANY) && forall j :: 0 <= j < i ==> q[j] != src
    ensures FirstSender(q, src) == i
  {
  }

  /** resume_sender(receiver, src) */
  function ResumeSender(s: State, receiver: Tid, src: Tid): (r: State)
    requires Shape(s) && IsTask(s, receiver)
    ensures Shape(r) && |r.tasks| == |s.tasks|
  {
    var q := s.tasks[receiver].senders;
    var i := FirstSender(q, src);
    if i < |q| then
      var rest := q[..i] + q[i+1..];
      assert q[i] in q && forall x :: x in rest ==> x in q;
      var s1 := Resume(s, q[i]);
      assert Tids(rest, |s.tasks|) && TaskShape(|s.tasks|, receiver, s1.tasks[receiver]);
      Set(s1, receiver, s1.tasks[receiver].(senders := rest, src := q[i]))
    else
      Set(s, receiver, s.tasks[receiver].(src := src))
  }

  predicate Ready(s: State, dst: Tid)
    requires IsTask(s, dst)
  {
    s.tasks[dst].state.Blocked? && (s.tasks[dst].src == IPC_ANY || s.tasks[dst].src == s.current)
  }

  datatype Result = Done(err: Error) | Parked

  /** Past the point of no return: the copy into the receiver and its resumption. */
  function Deliver(s: State, dst: Tid, m: Message, flags: IpcFlags): (r: State)
    requires Shape(s) && IsTask(s, dst)
    ensures Shape(r) && |r.tasks| == |s.tasks|
  {
    var m' := m.(src := if flags.kernel then KERNEL_TASK else s.current);
    Resume(Write(s, dst, s.current, m'), dst)
  }

  /** CURRENT goes to sleep in the send phase, in the sender queue of dst. */
  function ParkSend(s: State, dst: Tid, src: Tid, m: Message, flags: IpcFlags, after: After): (r: State)
    requires src >= 0
    requires Shape(s) && IsTask(s, s.current) && IsTask(s, dst) && dst != s.current
    ensures Shape(r) && |r.tasks| == |s.tasks|
  {
    var c := s.current;
    var s1 := Set(s, c, s.tasks[c].(src := IPC_DENY, state := Blocked, kont := InSend(dst, m, flags, src, after)));
    Set(s1, dst, s1.tasks[dst].(senders := s1.tasks[dst].senders + [c]))
  }

  /** CURRENT goes to sleep in the receive phase. */
  function ParkRecv(s: State, src: Tid, after: After): (r: State)
    requires Shape(s) && IsTask(s, s.current)
    ensures Shape(r) && |r.tasks| == |s.tasks|
  {
    var c := s.current;
    var s1 := ResumeSender(s, c, src);
    Set(s1, c, s1.tasks[c].(state := Blocked, kont := InRecv(src, after)))
  }

  /** CURRENT receives its pending notifications without sleeping. */
  function TakePending(s: State): (r: State)
    requires Shape(s) && IsTask(s, s.current)
    ensures Shape(r) && |r.tasks| == |s.tasks|
  {
    var c := s.current;
    var s1 := Log(s, c, s.hist[c].(taken := s.hist[c].taken + s.tasks[c].notifications));
    Set(s1, c, s1.tasks[c].(notifications := {}))
  }

  /** The receive phase of ipc_slowpath(). */
  function RecvPhase(s: State, src: Tid, flags: IpcFlags, after: After): (r: (State, Result))
    requires src >= 0
    requires Shape(s) && IsTask(s, s.current)
    ensures Shape(r.0) && |r.0.tasks| == |s.tasks|
    ensures r.1.Done? ==> r.0.current == s.current
  {
    if !flags.recv then (s, Done(OK))
    else if src == IPC_ANY && s.tasks[s.current].notifications != {} then (TakePending(s), Done(OK))
    else if flags.noblock then (s, Done(ErrWouldBlock))
    else
      (Switch(ParkRecv(s, src, after)), Parked)
  }

  /** ipc_slowpath() up to its first task_switch(). */
  function IpcSlowpath(s: State, dst: Tid, src: Tid, m: Message, flags: IpcFlags, after: After): (r: (State, Result))
    requires src >= 0
    requires Shape(s) && IsTask(s, s.current)
    requires flags.send ==> IsTask(s, dst) && dst != s.current
    ensures Shape(r.0) && |r.0.tasks| == |s.tasks|
    ensures r.1.Done? ==> r.0.current == s.current
  {
    if !flags.send then RecvPhase(s, src, flags, after)
    else if !Ready(s, dst) then
      if flags.noblock then (s, Done(ErrWouldBlock))
      else
        (Switch(ParkSend(s, dst, src, m, flags, after)), Parked)
    else
      RecvPhase(Deliver(s, dst, m, flags), src, flags, after)
  }

  predicate Fastpath(s: State, dst: Tid, flags: IpcFlags)
    requires IsTask(s, s.current) && (flags.send ==> IsTask(s, dst))
  {
    && flags.send && flags.recv && !flags.kernel && !flags.other
    && Ready(s, dst)
    && s.tasks[s.current].notifications == {}
  }

  /** The body of ipc() once the fast path has been chosen. */
  function IpcFastpath(s: State, dst: Tid, src: Tid, m: Message, after: After): (r: (State, Result))
    requires src >= 0
    requires Shape(s) && IsTask(s, s.current) && IsTask(s, dst) && dst != s.current
    ensures Shape(r.0) && |r.0.tasks| == |s.tasks|
    ensures r.1.Done? ==> r.0.current == s.current
  {
    var m' := m.(src := s.current);
    var s1 := Resume(Write(s, dst, s.current, m'), dst);
    (Switch(ParkRecv(s1, src, after)), Parked)
  }

  /** ipc(); `dst` is `NO_TASK` when nothing is sent. */
  function Ipc(s: State, dst: Tid, src: Tid, m: Message, flags: IpcFlags, after: After): (r: (State, Result))
    requires src >= 0
    requires Shape(s) && IsTask(s, s.current)
    requires flags.send ==> IsTask(s, dst)
    ensures Shape(r.0) && |r.0.tasks| == |s.tasks|
    ensures r.1.Done? ==> r.0.current == s.current
  {
    if flags.send && dst == s.current then (s, Done(ErrInvalidArg))
    else if Fastpath(s, dst, flags) then IpcFastpath(s, dst, src, m, after)
    else IpcSlowpath(s, dst, src, m, flags, after)
  }

  // ---- exits, faults and resumed system calls -----------------------------------

  const SEND_KERNEL := IpcFlags(true, false, false, true, false)
  const CALL_KERNEL := IpcFlags(true, true, false, true, false)
  const EXCEPTION := Message(ExceptionMsg, 0, {}, [])
  const PAGE_FAULT := Message(PageFaultMsg, 0, {}, [])

  /** The end of task_exit(): CURRENT waits to be destroyed. */
  function Retire(s: State): (r: State)
    requires Shape(s) && IsTask(s, s.current)
    ensures Shape(r) && |r.tasks| == |s.tasks|
  {
    var c := s.current;
    Switch(Set(s, c, s.tasks[c].(state := Blocked, src := IPC_DENY, kont := Exited)))
  }

  /** task_exit() */
  function Exit(s: State): (r: State)
    requires Shape(s) && IsTask(s, s.current)
    ensures Shape(r) && |r.tasks| == |s.tasks|
  {
    var pager := s.tasks[s.current].pager;
    if pager == NO_TASK then s.(panicked := true) else
    var (s1, res) := Ipc(s, pager, IPC_ANY, EXCEPTION, SEND_KERNEL, ToExit);
    if res.Done? then Retire(s1) else s1
  }

  /** handle_page_fault() */
  function PageFault(s: State): (r: State)
    requires Shape(s) && IsTask(s, s.current)
    ensures Shape(r) && |r.tasks| == |s.tasks|
  {
    var pager := s.tasks[s.current].pager;
    if pager == NO_TASK then s.(panicked := true) else
    var (s1, res) := Ipc(s, pager, pager, PAGE_FAULT, CALL_KERNEL, ToFault);
    if res.Done? then Return(s1, res.err, PAGE_FAULT, ToFault) else s1
  }

  /** ipc() has returned `err` to CURRENT, with `m` in the caller's message. */
  function Return(s: State, err: Error, m: Message, after: After): (r: State)
    requires Shape(s) && IsTask(s, s.current)
    ensures Shape(r) && |r.tasks| == |s.tasks|
  {
    match after
    case ToUser => s
    case ToFault => if err != OK || m.typ != PageFaultReplyMsg then Exit(s) else s
    case ToExit => Retire(s)
  }

  /** CURRENT leaves its sleep: it runs on its own stack again. */
  function Wake(s: State): (r: State)
    requires Shape(s) && IsTask(s, s.current)
    ensures Shape(r) && |r.tasks| == |s.tasks| && r.current == s.current
  {
    Set(s, s.current, s.tasks[s.current].(kont := Running))
  }

  /** ipc_slowpath() after the task_switch() of the send phase. */
  function ContinueSend(s: State): (r: State)
    requires Shape(s) && IsTask(s, s.current) && s.tasks[s.current].kont.InSend?
    ensures Shape(r) && |r.tasks| == |s.tasks|
  {
    var c := s.current;
    var InSend(dst, m, flags, src, after) := s.tasks[c].kont;
    var w := Wake(s);
    if NOTIFY_ABORTED in s.tasks[c].notifications then
      var s1 := Log(w, c, w.hist[c].(consumed := w.hist[c].consumed + {NOTIFY_ABORTED}));
      var s2 := Set(s1, c, s1.tasks[c].(notifications := s1.tasks[c].notifications - {NOTIFY_ABORTED}));
      Return(s2, ErrAborted, m, after)
    else
      var (s1, res) := RecvPhase(Deliver(w, dst, m, flags), src, flags, after);
      if res.Done? then Return(s1, res.err, m, after) else s1
  }

  /** The bits that a message from the kernel's notify() carries. */
  function NotifiedBits(m: Message): Bits {
    if m.typ == NotificationsMsg && m.src == KERNEL_TASK then m.bits else {}
  }

  /** CURRENT copies the message out of its buffer. */
  function Collect(s: State): (r: State)
    requires Shape(s) && IsTask(s, s.current) && s.tasks[s.current].kont.InRecv?
    ensures Shape(r) && |r.tasks| == |s.tasks| && r.current == s.current
  {
    var c := s.current;
    var m := s.tasks[c].m;
    var h := s.hist[c];
    Log(Wake(s), c,
      h.(receipts := h.receipts + [Receipt(s.tasks[c].kont.filter, m)], taken := h.taken + NotifiedBits(m)))
  }

  /** ipc_slowpath() after the task_switch() of the receive phase. */
  function ContinueRecv(s: State): (r: State)
    requires Shape(s) && IsTask(s, s.current) && s.tasks[s.current].kont.InRecv?
    ensures Shape(r) && |r.tasks| == |s.tasks|
  {
    Return(Collect(s), OK, s.tasks[s.current].m, s.tasks[s.current].kont.after)
  }

  // ---- kernel/syscall.c -----------------------------------------------------------

  datatype Event =
    | SysIpc(dst: Tid, src: Tid, m: Message, flags: IpcFlags)
    | SysNotify(target: Tid, bits: Bits)
    | SysTimerSet(timeout: nat)
    | SysTaskCreate(tid: Tid, pager: Tid, tflags: TaskFlags, archOk: bool)
    | SysTaskDestroy(tid: Tid)
    | SysTaskSchedule(tid: Tid, priority: int)
    | SysTaskExit
    | SysIrqAcquire(irq: nat)
    | SysIrqRelease(irq: nat)
    | Fault                       // a page fault in user mode
    | Tick                        // the timer interrupt
    | Interrupt(irq: nat)         // any other interrupt
    | Reschedule                  // task_switch() from arch_idle()
    | Continue                    // CURRENT goes on behind its task_switch()

  /** The events that can happen next: a task asleep in the kernel first finishes its system call. */
  predicate Enabled(s: State, e: Event)
    requires 0 <= s.current < |s.tasks|
  {
    && !s.panicked
    && var k := s.tasks[s.current].kont;
       match e
       case Continue => s.current != IDLE_TASK && (k.InSend? || k.InRecv?)
       case Tick => s.current == IDLE_TASK || k.Running?
       case Reschedule => s.current == IDLE_TASK
       case Interrupt(irq) => irq < |s.irqOwners| && (s.current == IDLE_TASK || k.Running?)
       case _ => s.current != IDLE_TASK && k.Running?
  }

  function SysIpcStep(s: State, dst: Tid, src: Tid, m: Message, flags: IpcFlags): (r: State)
    requires Shape(s) && IsTask(s, s.current)
    ensures Shape(r) && |r.tasks| == |s.tasks|
  {
    if flags.kernel then s
    else if src < 0 || src >= |s.tasks| then s
    else if flags.send && !InUse(s, dst) then s
    else Ipc(s, if flags.send then dst else NO_TASK, src, m, flags, ToUser).0
  }

  function TimerSet(s: State, timeout: nat): (r: State)
    requires Shape(s)
    ensures Shape(r) && |r.tasks| == |s.tasks|
  {
    Set(s, s.current, s.tasks[s.current].(timeout := timeout))
  }

  /** task_listen_irq() and task_unlisten_irq() once their checks have passed. */
  function SetIrqOwner(s: State, irq: nat, owner: Tid): (r: State)
    requires Shape(s) && irq < |s.irqOwners| && 0 <= owner < |s.tasks|
    ensures Shape(r) && |r.tasks| == |s.tasks|
  {
    s.(irqOwners := s.irqOwners[irq := owner])
  }

  /** One entry into the kernel. */
  function Step(s: State, e: Event): (r: State)
    requires Shape(s) && Enabled(s, e)
    ensures Shape(r) && |r.tasks| == |s.tasks|
  {
    var c := s.current;
    match e
    case SysIpc(dst, src, m, flags) => SysIpcStep(s, dst, src, m, flags)
    case SysNotify(t, bits) => if InUse(s, t) then Notify(s, t, bits) else s
    case SysTimerSet(timeout) => TimerSet(s, timeout)
    case SysTaskCreate(t, pager, flags, archOk) =>
      if !s.tasks[c].caps || !IsTask(s, t) || t == c || !InUse(s, pager) then s else Create(s, t, pager, flags, archOk)
    case SysTaskDestroy(t) =>
      if !s.tasks[c].caps || !IsTask(s, t) || t == c then s else Destroy(s, t)
    case SysTaskSchedule(t, priority) =>
      if !s.tasks[c].caps || !IsTask(s, t) || t == c then s else Schedule(s, t, priority)
    case SysTaskExit => Exit(s)
    case SysIrqAcquire(irq) =>
      if !s.tasks[c].caps || irq >= |s.irqOwners| || s.irqOwners[irq] != NO_TASK then s else SetIrqOwner(s, irq, c)
    case SysIrqRelease(irq) =>
      if !s.tasks[c].caps || irq >= |s.irqOwners| then s else SetIrqOwner(s, irq, NO_TASK)
    case Fault => PageFault(s)
    case Tick => TimerIrq(s)
    case Interrupt(irq) => Irq(s, irq)
    case Reschedule => Switch(s)
    case Continue => if s.tasks[c].kont.InSend? then ContinueSend(s) else ContinueRecv(s)
  }

  /** What a system call returns to user mode, unless its task sleeps, exits or faults. */
  datatype Answer = Returns(err: Error) | NoAnswer

  /** ipc() and the code around it are done, if `res` says so. */
  function Replied(res: Result, after: After): Answer {
    if res.Done? && after.ToUser? then Returns(res.err) else NoAnswer
  }

  function IpcAnswer(s: State, dst: Tid, src: Tid, m: Message, flags: IpcFlags): Answer
    requires Shape(s) && IsTask(s, s.current)
  {
    if flags.kernel then Returns(ErrInvalidArg)
    else if src < 0 || src >= |s.tasks| then Returns(ErrInvalidArg)
    else if flags.send && !InUse(s, dst) then Returns(ErrInvalidTask)
    else Replied(Ipc(s, if flags.send then dst else NO_TASK, src, m, flags, ToUser).1, ToUser)
  }

  /** What ipc() returns behind the task_switch() of the send phase. */
  function SendAnswer(s: State): Answer
    requires Shape(s) && IsTask(s, s.current) && s.tasks[s.current].kont.InSend?
  {
    var InSend(dst, m, flags, src, after) := s.tasks[s.current].kont;
    if NOTIFY_ABORTED in s.tasks[s.current].notifications then Replied(Done(ErrAborted), after)
    else Replied(RecvPhase(Deliver(Wake(s), dst, m, flags), src, flags, after).1, after)
  }

  /** The calls on another task: what they check in common, and then `err`. */
  function TaskAnswer(s: State, t: Tid, err: Answer): Answer
    requires Shape(s)
  {
    if !s.tasks[s.current].caps then Returns(ErrNotPermitted)
    else if !IsTask(s, t) || t == s.current then Returns(ErrInvalidTask)
    else err
  }

  function IrqAnswer(s: State, irq: nat, acquire: bool): Answer
    requires Shape(s)
  {
    if !s.tasks[s.current].caps then Returns(ErrNotPermitted)
    else if irq >= |s.irqOwners| then Returns(ErrInvalidArg)
    else if acquire && s.irqOwners[irq] != NO_TASK then Returns(ErrAlreadyExists)
    else Returns(OK)
  }

  /** The return value of the system call e, or of the one that goes on. */
  function AnswerTo(s: State, e: Event): Answer
    requires Shape(s) && Enabled(s, e)
  {
    var c := s.current;
    match e
    case SysIpc(dst, src, m, flags) => IpcAnswer(s, dst, src, m, flags)
    case SysNotify(t, bits) => Returns(if InUse(s, t) then OK else ErrInvalidTask)
    case SysTimerSet(timeout) => Returns(OK)
    case SysTaskCreate(t, pager, flags, archOk) =>
      TaskAnswer(s, t, if !InUse(s, pager) then Returns(ErrInvalidArg)
                       else if IsTask(s, t) then Returns(CreateError(s, t, flags, archOk))
                       else NoAnswer)
    case SysTaskDestroy(t) => TaskAnswer(s, t, if IsTask(s, t) then Returns(DestroyError(s, t)) else NoAnswer)
    case SysTaskSchedule(t, priority) =>
      TaskAnswer(s, t, if priority >= TASK_PRIORITY_MAX then Returns(ErrInvalidArg)
                       else if priority < 0 then NoAnswer
                       else Returns(OK))
    case SysIrqAcquire(irq) => IrqAnswer(s, irq, true)
    case SysIrqRelease(irq) => IrqAnswer(s, irq, false)
    case Continue =>
      if s.tasks[c].kont.InSend? then SendAnswer(s) else Replied(Done(OK), s.tasks[c].kont.after)
    case _ => NoAnswer
  }

  /** The message has gone out although the call says that it would block: the receive that follows the send would. */
  predicate SentBeforeError(s: State, e: Event)
    requires Shape(s) && Enabled(s, e)
  {
    && e.SysIpc? && e.flags.send && e.flags.recv && e.flags.noblock && !e.flags.kernel && 0 <= e.src < |s.tasks|
    && InUse(s, e.dst) && e.dst != s.current && Ready(s, e.dst) && !Fastpath(s, e.dst, e.flags)
    && !(e.src == IPC_ANY && s.tasks[s.current].notifications != {})
  }

  /** A system call that returns an error at once has changed nothing, except in that one case. */
  lemma ErrorsChangeNothing(s: State, e: Event)
    requires Shape(s) && Enabled(s, e) && !e.Continue? && AnswerTo(s, e).Returns? && AnswerTo(s, e).err != OK
    ensures Step(s, e) == s <==> !SentBeforeError(s, e)
  {
    if SentBeforeError(s, e) {
      assert Deliver(s, e.dst, e.m, e.flags).tasks[e.dst].state.Runnable?;
    }
  }

  /** The state kmain() reaches before its first task_switch(): idle is CURRENT, init is queued. */
  function Boot(numTasks: nat, numIrqs: nat): (s: State)
    requires numTasks >= 1
    ensures Shape(s) && |s.tasks| == numTasks + 1
  {
    var unused := Task(Unused, 0, NO_TASK, 0, 0, EMPTY_MESSAGE, 0, {}, 0, [], false, Running);
    var idle := FreshTask(unused, NO_TASK, false);
    var init := FreshTask(unused, NO_TASK, true);
    var tasks := seq(numTasks + 1, t => if t == IDLE_TASK then idle else if t == INIT_TASK then init else unused);
    Resume(State(tasks, seq(TASK_PRIORITY_MAX, p => []), seq(numIrqs, i => NO_TASK), IDLE_TASK, false, 0,
                 seq(numTasks + 1, t => FRESH_HISTORY)), INIT_TASK)
  }
}
