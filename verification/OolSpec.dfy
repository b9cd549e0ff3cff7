/**
 The out-of-line payload protocol of servers/vm/ool.c on values: a receiver
 registers a buffer, a sender's bytes are copied into it, and the receiver asks
 the server to verify what it was told about.
 */
module OolSpec {
  import opened Common

  /** An `ool_send` request. */
  datatype Msg = Msg(src: nat, dst: nat, addr: nat, len: nat)

  /** `received_ool_from`, `received_ool_buf` and `received_ool_len`; all zero when there is nothing to verify. */
  datatype Receipt = Receipt(from: nat, buf: nat, len: nat)

  const NOTHING := Receipt(0, 0, 0)

  /**
   The fields of `struct task` that the protocol uses. The last three are a record
   of what has happened to the task as a receiver: the requests made, the copies
   done, and the copies verified.
   */
  datatype Task = Task(
    buf: nat, len: nat,
    receipt: Receipt,
    queue: seq<nat>,
    saved: Msg,
    requests: seq<Msg>, served: seq<Msg>, verified: seq<Msg>)

  type Tasks = map<nat, Task>

  /** Panicked: task_lookup() has been asked for a task that is not in use, which stops the server. */
  datatype Reply = Ok | DontReply | AlreadyExists | InvalidArg | Unavailable | Panicked

  /** How the copy ends: done, or at a page of either side that cannot be had. */
  datatype Ending = Copied | SenderMissing | ReceiverMissing

  /** The bytes have been copied: the buffer is closed and there is something to verify. */
  function Delivered(t: Task, m: Msg): Task {
    t.(receipt := Receipt(m.src, t.buf, m.len), buf := 0, len := 0, served := t.served + [m])
  }

  /** handle_ool_send(); whoever lacks a page is killed. */
  function Send(s: Tasks, m: Msg, ending: Ending): (Tasks, Reply)
  {
    if m.src !in s || m.dst !in s then (s, Panicked) else
    if s[m.dst].buf == 0 then
      var s1 := s[m.src := s[m.src].(saved := m)];
      (s1[m.dst := s1[m.dst].(queue := s1[m.dst].queue + [m.src])], DontReply)
    else match ending
      case Copied => (s[m.dst := Delivered(s[m.dst], m)], Ok)
      case SenderMissing => (s - {m.src}, DontReply)
      case ReceiverMissing => (s - {m.dst}, Unavailable)
  }

  /** handle_ool_recv() */
  function Recv(s: Tasks, t: nat, addr: nat, len: nat, ending: Ending): (Tasks, Reply)
  {
    if t !in s then (s, Panicked) else
    if s[t].buf != 0 then (s, AlreadyExists) else
      var open := s[t].(buf := addr, len := len);
      if open.queue == [] then (s[t := open], Ok) else
        var s1 := s[t := open.(queue := open.queue[1..])];
        var u := open.queue[0];
        if u !in s then (s1, Panicked) else
        var (s2, reply) := Send(s1, s1[u].saved, ending);
        (s2, if reply == Panicked then Panicked else Ok)
  }

  /** handle_ool_verify() */
  function Verify(s: Tasks, t: nat, claim: Receipt): (Tasks, Reply)
  {
    if t !in s then (s, Panicked) else
    if claim != s[t].receipt then (s, InvalidArg)
    else
      var verified := if s[t].receipt.buf != 0 && s[t].served != []
                      then s[t].verified + [s[t].served[|s[t].served| - 1]] else s[t].verified;
      (s[t := s[t].(receipt := NOTHING, verified := verified)], Ok)
  }

  // ---- runs ---------------------------------------------------------------------------------

  datatype Event =
    | Sends(m: Msg, ending: Ending)
    | Receives(t: nat, addr: nat, len: nat, ending: Ending)
    | Verifies(t: nat, claim: Receipt)

  /** A sender in a queue waits for the reply, so it makes no request. */
  ghost predicate Waiting(s: Tasks, u: nat) {
    exists t :: t in s && u in s[t].queue
  }

  ghost predicate Enabled(s: Tasks, e: Event) {
    match e
    case Sends(m, _) => m.src in s && !Waiting(s, m.src)
    case Receives(t, _, _, _) => t in s && !Waiting(s, t)
    case Verifies(t, _) => t in s && !Waiting(s, t)
  }

  /** Clients register a real buffer, and only after verifying the last one; no copy fails. */
  ghost predicate Disciplined(s: Tasks, e: Event)
    requires Enabled(s, e)
  {
    match e
    case Sends(_, ending) => ending == Copied
    case Receives(t, addr, _, ending) => ending == Copied && addr != 0 && s[t].receipt.buf == 0
    case Verifies(_, _) => true
  }

  /** The messages of the senders in a queue. */
  ghost function SavedOf(s: Tasks, q: seq<nat>): (r: seq<Msg>)
    requires forall u :: u in q ==> u in s
    ensures |r| == |q| && forall i :: 0 <= i < |q| ==> r[i] == s[q[i]].saved
  {
    seq(|q|, i requires 0 <= i < |q| => assert q[i] in q; s[q[i]].saved)
  }

  /** Each copy is verified once, and only the last one may still have to be. */
  ghost predicate ReceiptOk(k: Task) {
    if k.receipt.buf == 0 then k.receipt == NOTHING && k.verified == k.served
    else k.served != [] && var last := k.served[|k.served| - 1];
      k.verified + [last] == k.served && k.receipt.from == last.src && k.receipt.len == last.len
  }

  /** The queue holds waiting senders, each with its request to this task. */
  ghost predicate QueueOk(s: Tasks, t: nat)
    requires t in s
  {
    NoDup(s[t].queue) && forall u :: u in s[t].queue ==> u in s && s[u].saved.src == u && s[u].saved.dst == t
  }

  ghost predicate TaskOk(s: Tasks, t: nat)
    requires t in s
  {
    && QueueOk(s, t)
    && s[t].served + SavedOf(s, s[t].queue) == s[t].requests
    && ReceiptOk(s[t])
    && (s[t].buf != 0 ==> s[t].queue == [] && s[t].receipt == NOTHING)
  }

  ghost predicate Inv(s: Tasks) {
    forall t {:trigger TaskOk(s, t)} :: t in s ==> TaskOk(s, t)
  }

  /** A request is on record as soon as it is made. */
  function Step(s: Tasks, e: Event): (Tasks, Reply)
  {
    match e
    case Sends(m, ending) => Send(if m.dst in s then s[m.dst := s[m.dst].(requests := s[m.dst].requests + [m])]
      else s, m, ending)
    case Receives(t, addr, len, ending) => Recv(s, t, addr, len, ending)
    case Verifies(t, claim) => Verify(s, t, claim)
  }

  /** A task whose part of the state, and whose queued senders' messages, are as before. */
  lemma TaskStays(s: Tasks, s': Tasks, t: nat)
    requires t in s && t in s' && s'[t] == s[t].(saved := s'[t].saved) && TaskOk(s, t)
    requires forall u :: u in s[t].queue ==> u in s' && u in s && s'[u].saved == s[u].saved
    ensures TaskOk(s', t)
  {
    assert SavedOf(s', s'[t].queue) == SavedOf(s, s[t].queue);
  }

  lemma SendKeeps(s: Tasks, m: Msg)
    requires Inv(s) && Enabled(s, Sends(m, Copied))
    ensures Inv(Step(s, Sends(m, Copied)).0)
  {
    if m.dst !in s { return; }
    var s' := Step(s, Sends(m, Copied)).0;
    var dst := m.dst;
    assert TaskOk(s, dst);
    forall t | t in s' ensures TaskOk(s', t) {
      assert TaskOk(s, t);
      assert m.src !in s[t].queue;
      if t != dst {
        TaskStays(s, s', t);
      } else if s[dst].buf == 0 {
        var q := s[dst].queue;
        assert s'[dst].queue == q + [m.src];
        assert SavedOf(s', q + [m.src]) == SavedOf(s, q) + [m];
      } else {
        assert SavedOf(s', s'[dst].queue) == [];
      }
    }
  }

  /** In a state that meets the invariant every request can be handled. */
  lemma HeadOk(s: Tasks, t: nat)
    requires Inv(s) && t in s && s[t].queue != []
    ensures var u := s[t].queue[0]; u in s && s[u].saved.src == u && s[u].saved.dst == t && s[t].buf == 0
  {
    assert TaskOk(s, t) && s[t].queue[0] in s[t].queue;
  }

  /** Only the task itself has to be looked at when its part of the state changes. */
  lemma OneTask(s: Tasks, t: nat, k: Task)
    requires Inv(s) && t in s && k.saved == s[t].saved
    ensures Inv(s[t := k]) <==> TaskOk(s[t := k], t)
  {
    var s' := s[t := k];
    forall x | x in s && x != t ensures TaskOk(s', x) { assert TaskOk(s, x); TaskStays(s, s', x); }
  }

  /** handle_ool_recv() with no sender waiting. */
  lemma RecvIdle(s: Tasks, t: nat, addr: nat, len: nat)
    requires Inv(s) && t in s && s[t].buf == 0 && s[t].queue == []
    ensures Inv(Recv(s, t, addr, len, Copied).0) <==> addr == 0 || s[t].receipt.buf == 0
  {
    assert TaskOk(s, t);
    OneTask(s, t, s[t].(buf := addr, len := len));
    assert SavedOf(s[t := s[t].(buf := addr, len := len)], []) == SavedOf(s, []);
  }

  /** What serving the first sender does. */
  lemma RecvServesState(s: Tasks, t: nat, addr: nat, len: nat)
    requires Inv(s) && t in s && s[t].queue != [] && addr != 0
    ensures s[t].queue[0] in s
    ensures Recv(s, t, addr, len, Copied).0
            == s[t := Delivered(s[t].(buf := addr, len := len, queue := s[t].queue[1..]), s[s[t].queue[0]].saved)]
  {
    HeadOk(s, t);
  }

  lemma SavedTail(s: Tasks, t: nat, k: Task)
    requires t in s && TaskOk(s, t) && s[t].queue != [] && k.saved == s[t].saved
    ensures var q := s[t].queue;
            q[0] in s && (forall u :: u in q[1..] ==> u in s[t := k])
              && SavedOf(s, q) == [s[q[0]].saved] + SavedOf(s[t := k], q[1..])
  {
    var q := s[t].queue;
    assert q[0] in q && forall u :: u in q[1..] ==> u in q;
  }

  /** A copy can be verified exactly when nothing is left to verify before it. */
  lemma DeliveredReceipt(k: Task, m: Msg)
    requires ReceiptOk(k) && k.buf != 0
    ensures ReceiptOk(Delivered(k, m)) <==> k.receipt.buf == 0
  {
    assert (k.verified + [m])[..|k.verified|] == k.verified && (k.served + [m])[..|k.served|] == k.served;
  }

  lemma ServedQueue(s: Tasks, t: nat, k: Task)
    requires t in s && TaskOk(s, t) && s[t].queue != [] && k.saved == s[t].saved && k.queue == s[t].queue[1..]
    ensures QueueOk(s[t := k], t) && s[t].queue[0] in s
            && s[t].served + [s[s[t].queue[0]].saved] + SavedOf(s[t := k], k.queue) == s[t].requests
  {
    SavedTail(s, t, k);
    var m := s[s[t].queue[0]].saved;
    assert s[t].served + [m] + SavedOf(s[t := k], k.queue) == s[t].served + ([m] + SavedOf(s[t := k], k.queue));
  }

  /** handle_ool_recv() with a real buffer and a sender waiting. */
  lemma RecvServes(s: Tasks, t: nat, addr: nat, len: nat)
    requires Inv(s) && t in s && s[t].queue != [] && addr != 0
    ensures Inv(Recv(s, t, addr, len, Copied).0) <==> s[t].receipt.buf == 0
  {
    RecvServesState(s, t, addr, len);
    assert TaskOk(s, t);
    var open := s[t].(buf := addr, len := len, queue := s[t].queue[1..]);
    var k := Delivered(open, s[s[t].queue[0]].saved);
    DeliveredReceipt(open, s[s[t].queue[0]].saved);
    ServedQueue(s, t, k);
    OneTask(s, t, k);
  }

  /** Registering no buffer at all sends the first sender to the back of the queue. */
  lemma RecvRotates(s: Tasks, t: nat, len: nat)
    requires Inv(s) && t in s && s[t].queue != []
    ensures Recv(s, t, 0, len, Copied).0
            == s[t := s[t].(buf := 0, len := len, queue := s[t].queue[1..] + [s[t].queue[0]])]
    ensures Inv(Recv(s, t, 0, len, Copied).0) <==> |s[t].queue| == 1
  {
    HeadOk(s, t);
    var q := s[t].queue;
    var r := q[1..] + [q[0]];
    var k := s[t].(buf := 0, len := len, queue := r);
    assert TaskOk(s, t);
    OneTask(s, t, k);
    SavedRotated(s, t, k);
  }

  lemma SavedRotated(s: Tasks, t: nat, k: Task)
    requires t in s && TaskOk(s, t) && s[t].queue != [] && k.saved == s[t].saved && k.served == s[t].served
    ensures var r := s[t].queue[1..] + [s[t].queue[0]];
            && NoDup(r) && (forall u :: u in r <==> u in s[t].queue)
            && (k.served + SavedOf(s[t := k], r) == s[t].requests <==> |r| == 1)
  {
    var q := s[t].queue;
    var r := q[1..] + [q[0]];
    assert q == [q[0]] + q[1..];
    var a, b := SavedOf(s[t := k], r), SavedOf(s, q);
    if |q| == 1 {
      assert a == b;
    } else {
      assert q[0] in q && q[1] in q && r[0] == q[1];
      assert a[0] == s[q[1]].saved && b[0] == s[q[0]].saved;
      assert (k.served + a)[|k.served|] == a[0] && s[t].requests[|k.served|] == b[0];
    }
  }

  lemma VerifyKeeps(s: Tasks, t: nat, claim: Receipt)
    requires Inv(s) && t in s
    ensures Inv(Verify(s, t, claim).0)
  {
    var s' := Verify(s, t, claim).0;
    assert TaskOk(s, t);
    forall x | x in s && x != t ensures TaskOk(s', x) { assert TaskOk(s, x); TaskStays(s, s', x); }
    assert SavedOf(s', s[t].queue) == SavedOf(s, s[t].queue);
  }

  /**
   When registering a buffer keeps the protocol going: exactly if it is a real one, with nothing left to
   verify, or nobody has to wait for it.
   */
  lemma RecvKeepsIff(s: Tasks, t: nat, addr: nat, len: nat)
    requires Inv(s) && Enabled(s, Receives(t, addr, len, Copied)) && s[t].buf == 0
    ensures Inv(Recv(s, t, addr, len, Copied).0) <==> if addr == 0 then |s[t].queue| <= 1 else s[t].receipt.buf == 0
  {
    if s[t].queue == [] {
      RecvIdle(s, t, addr, len);
    } else if addr == 0 {
      RecvRotates(s, t, len);
    } else {
      RecvServes(s, t, addr, len);
    }
  }

  /** A sender that cannot be read from is killed, and the buffer stays open whoever else is waiting. */
  lemma FailedCopyLeavesOpen(s: Tasks, t: nat, addr: nat, len: nat)
    requires Inv(s) && t in s && s[t].queue != [] && addr != 0 && t != s[t].queue[0]
    ensures var s' := Recv(s, t, addr, len, SenderMissing).0;
            t in s' && s'[t].buf == addr && s'[t].queue == s[t].queue[1..] && s[t].queue[0] !in s'
  {
    HeadOk(s, t);
  }

  /** A receiver that cannot be written to is killed, and the senders that waited for it then wait in no queue. */
  lemma KilledReceiverStrands(s: Tasks, t: nat, addr: nat, len: nat, u: nat)
    requires Inv(s) && t in s && |s[t].queue| > 1 && addr != 0 && u in s[t].queue[1..] && u != t
    ensures var s' := Recv(s, t, addr, len, ReceiverMissing).0; t !in s' && u in s' && !Waiting(s', u)
  {
    HeadOk(s, t);
    assert TaskOk(s, t) && u in s[t].queue;
    var s' := Recv(s, t, addr, len, ReceiverMissing).0;
    forall x | x in s' ensures u !in s'[x].queue { assert TaskOk(s, x); }
  }

  /** One disciplined request, whatever it is. */
  lemma StepKeeps(s: Tasks, e: Event)
    requires Inv(s) && Enabled(s, e) && Disciplined(s, e)
    ensures Inv(Step(s, e).0) && (Step(s, e).1 == Panicked <==> e.Sends? && e.m.dst !in s)
  {
    match e
    case Sends(m, _) => SendKeeps(s, m);
    case Receives(t, addr, len, _) =>
      if s[t].queue != [] { HeadOk(s, t); }
      if s[t].buf == 0 { RecvKeepsIff(s, t, addr, len); }
    case Verifies(t, claim) => VerifyKeeps(s, t, claim);
  }

  /** Disciplined clients, request by request. */
  ghost predicate IsRun(s: Tasks, events: seq<Event>)
    decreases |events|
  {
    events != [] ==> Enabled(s, events[0]) && Disciplined(s, events[0]) && IsRun(Step(s, events[0]).0, events[1..])
  }

  ghost function Run(s: Tasks, events: seq<Event>): Tasks
    decreases |events|
  {
    if events == [] then s else Run(Step(s, events[0]).0, events[1..])
  }

  /** No task has made or taken any request yet. */
  ghost predicate Initial(s: Tasks) {
    forall t :: t in s ==> s[t] == Task(0, 0, NOTHING, [], s[t].saved, [], [], [])
  }

  lemma InitialOk(s: Tasks)
    requires Initial(s)
    ensures Inv(s)
  {
    forall t | t in s ensures TaskOk(s, t) { assert SavedOf(s, []) == []; }
  }

  lemma {:induction false} RunKeeps(s: Tasks, events: seq<Event>)
    requires Inv(s) && IsRun(s, events)
    ensures Inv(Run(s, events))
    decreases |events|
  {
    if events != [] {
      StepKeeps(s, events[0]);
      RunKeeps(Step(s, events[0]).0, events[1..]);
    }
  }

  /**
   With disciplined clients, for every receiver and after every run: the copies done
   are the first of the requests made, in order, and the others still wait in that
   order; each copy is verified once, in order, before the next buffer is
   registered; and a buffer is never open while a sender waits.
   */
  lemma ServedInOrder(s: Tasks, events: seq<Event>, t: nat)
    requires Initial(s) && IsRun(s, events) && t in Run(s, events)
    ensures var k := Run(s, events)[t];
            && k.served <= k.requests && |k.requests| == |k.served| + |k.queue|
            && k.verified <= k.served && |k.served| == |k.verified| + (if k.receipt.buf == 0 then 0 else 1)
            && (k.buf == 0 || k.queue == [])
  {
    InitialOk(s);
    RunKeeps(s, events);
    var k := Run(s, events)[t];
    assert TaskOk(Run(s, events), t);
    assert k.served <= k.served + SavedOf(Run(s, events), k.queue);
  }
}
