/**
 A run in which task_destroy() meets an open handoff: three tasks, ten events.
 The destroyed task comes back to life when the resumed sender goes on.
 */
module KernelWitness {
  import opened KernelSpec
  import opened KernelInvariant
  import opened KernelRuns
  import opened KernelDeafness

  const SEND := IpcFlags(true, false, false, false, false)
  const RECV := IpcFlags(false, true, false, false, false)
  const CAPS := TaskFlags(true, false, false, false, false)
  const HELLO := Message(OtherMsg(1), 0, {}, [])
  const LAST := TASK_PRIORITY_MAX - 1

  /** Three tasks besides idle, all of the lowest priority; q is the run queue. */
  ghost predicate Scene(s: State, current: Tid, q: seq<Tid>) {
    && Shape(s) && |s.tasks| == 4 && s.current == current && !s.panicked
    && s.runqueues[LAST] == q && (forall p :: 0 <= p < LAST ==> s.runqueues[p] == [])
  }

  /** A task of the lowest priority without pending notifications. */
  ghost predicate Plain(s: State, t: Tid, state: RunState, kont: Kont, senders: seq<Tid>)
    requires Shape(s) && IsTask(s, t)
  {
    && s.tasks[t].state == state && s.tasks[t].kont == kont && s.tasks[t].senders == senders
    && s.tasks[t].priority == LAST && s.tasks[t].notifications == {}
  }

  ghost predicate Admin(s: State)
    requires Shape(s) && |s.tasks| == 4
  {
    s.tasks[1].caps && (s.tasks[2].state.Unused? || s.tasks[2].refCount == 0)
      && (s.tasks[3].state.Unused? || s.tasks[3].refCount == 0)
  }

  lemma SwitchScene(s: State, q: seq<Tid>)
    requires Scene(s, s.current, q) && s.current != IDLE_TASK && !s.tasks[s.current].state.Runnable? && q != []
    ensures Scene(Switch(s), q[0], q[1..])
    ensures forall t :: IsTask(s, t) ==> SameTask(s.tasks[t], Switch(s).tasks[t])
  {
    assert Best(s.runqueues, 0) == LAST;
  }

  /** The waiting state of a task in an open receive. */
  const OPEN := InRecv(IPC_ANY, ToUser)
  const SENDING := InSend(3, HELLO, SEND, IPC_ANY, ToUser)

  lemma Start(s: State)
    requires s == Step(Boot(3, 0), Reschedule)
    ensures Scene(s, 1, []) && Plain(s, 1, Runnable, Running, []) && Admin(s)
    ensures s.tasks[2].state.Unused? && s.tasks[3].state.Unused?
  {
    assert Best(Boot(3, 0).runqueues, 0) == LAST;
  }

  lemma CreateTwo(s: State)
    requires Scene(s, 1, []) && Plain(s, 1, Runnable, Running, []) && Admin(s)
    requires s.tasks[2].state.Unused? && s.tasks[3].state.Unused?
    ensures var r := Step(s, SysTaskCreate(2, 1, CAPS, true));
            && Scene(r, 1, [2]) && Plain(r, 1, Runnable, Running, []) && Plain(r, 2, Runnable, Running, [])
            && Admin(r) && r.tasks[3].state.Unused?
  {
  }

  lemma CreateThree(s: State)
    requires Scene(s, 1, [2]) && Plain(s, 1, Runnable, Running, []) && Plain(s, 2, Runnable, Running, [])
    requires Admin(s) && s.tasks[3].state.Unused?
    ensures var r := Step(s, SysTaskCreate(3, 1, CAPS, true));
            && Scene(r, 1, [2, 3]) && Plain(r, 1, Runnable, Running, []) && Plain(r, 2, Runnable, Running, [])
            && Plain(r, 3, Runnable, Running, []) && Admin(r)
  {
  }

  lemma OneReceives(s: State, q: seq<Tid>)
    requires Scene(s, 1, q) && Plain(s, 1, Runnable, Running, []) && q != []
    ensures var r := Step(s, SysIpc(0, IPC_ANY, HELLO, RECV));
            && Scene(r, q[0], q[1..]) && Plain(r, 1, Blocked, OPEN, []) && r.tasks[1].src == IPC_ANY
            && (forall t :: IsTask(s, t) && t != 1 ==> SameTask(s.tasks[t], r.tasks[t]))
               && r.tasks[1].caps == s.tasks[1].caps
  {
    SwitchScene(ParkRecv(s, IPC_ANY, ToUser), q);
  }

  lemma TwoSends(s: State)
    requires Scene(s, 2, [3]) && Plain(s, 2, Runnable, Running, []) && Plain(s, 3, Runnable, Running, [])
    ensures var r := Step(s, SysIpc(3, IPC_ANY, HELLO, SEND));
            && Scene(r, 3, []) && Plain(r, 2, Blocked, SENDING, []) && Plain(r, 3, Runnable, Running, [2])
            && SameTask(s.tasks[1], r.tasks[1]) && r.tasks[2].refCount == s.tasks[2].refCount
               && r.tasks[3].refCount == s.tasks[3].refCount
  {
    SwitchScene(ParkSend(s, 3, IPC_ANY, HELLO, SEND, ToUser), [3]);
  }

  lemma ThreeSends(s: State)
    requires Scene(s, 3, []) && Plain(s, 3, Runnable, Running, [2]) && Plain(s, 1, Blocked, OPEN, [])
             && s.tasks[1].src == IPC_ANY
    ensures var r := Step(s, SysIpc(1, IPC_ANY, HELLO, SEND));
            && Scene(r, 3, [1]) && Plain(r, 1, Runnable, OPEN, []) && r.tasks[1].caps == s.tasks[1].caps
            && r.tasks[2] == s.tasks[2] && r.tasks[3] == s.tasks[3]
  {
  }

  lemma ThreeReceives(s: State)
    requires Scene(s, 3, [1]) && Plain(s, 3, Runnable, Running, [2]) && Plain(s, 2, Blocked, SENDING, [])
             && Plain(s, 1, Runnable, OPEN, [])
    ensures var r := Step(s, SysIpc(0, IPC_ANY, HELLO, RECV));
            && Scene(r, 1, [2]) && Plain(r, 3, Blocked, OPEN, []) && Plain(r, 2, Runnable, SENDING, [])
            && SameTask(s.tasks[1], r.tasks[1]) && r.tasks[2].refCount == s.tasks[2].refCount
               && r.tasks[3].refCount == s.tasks[3].refCount
  {
    var m := ParkRecv(s, IPC_ANY, ToUser);
    assert m.tasks[3].senders == [] && m.runqueues[LAST] == [1, 2];
    SwitchScene(m, [1, 2]);
  }

  lemma OneGoesOn(s: State)
    requires Scene(s, 1, [2]) && Plain(s, 1, Runnable, OPEN, [])
    ensures var r := Step(s, Continue);
            && Scene(r, 1, [2]) && Plain(r, 1, Runnable, Running, []) && r.tasks[1].caps == s.tasks[1].caps
            && r.tasks[2] == s.tasks[2] && r.tasks[3] == s.tasks[3]
  {
  }

  lemma DestroyedScene(s: State, r: State)
    requires Scene(s, 1, [2]) && Plain(s, 1, Runnable, Running, []) && Plain(s, 2, Runnable, SENDING, [])
    requires Plain(s, 3, Blocked, OPEN, [])
    requires Shape(r) && |r.tasks| == 4 && Destroyed(s, r, 3)
    ensures Scene(r, 1, [2]) && Plain(r, 1, Runnable, Running, []) && Plain(r, 2, Runnable, SENDING, [])
  {
    assert Without([2], 3) == [2];
    assert forall p :: 0 <= p < LAST ==> Without([], 3) == s.runqueues[p];
  }

  lemma OneDestroysThree(s: State, r: State)
    requires Good(s) && Scene(s, 1, [2]) && Plain(s, 1, Runnable, Running, []) && Admin(s)
    requires Plain(s, 2, Runnable, SENDING, []) && Plain(s, 3, Blocked, OPEN, [])
    requires r == Destroy(s, 3)
    ensures !Inv(r) && Scene(r, 1, [2]) && Plain(r, 1, Runnable, Running, []) && Plain(r, 2, Runnable, SENDING, [])
    ensures r.tasks[3].state.Unused?
  {
    NoSelfPager(s, 3);
    DestroyIs(s, 3);
    DestroyedScene(s, r);
    assert InWindow(s, 2) && InWindow(r, 2) && !TaskOk(r, 2);
  }

  /** The resumed sender copies into the destroyed task and makes it runnable. */
  lemma TwoGoesOn(s: State)
    requires Scene(s, 2, []) && Plain(s, 2, Runnable, SENDING, []) && s.tasks[3].state.Unused?
    ensures Step(s, Continue).tasks[3].state.Runnable?
  {
  }

  ghost predicate Next(s: State, e: Event, r: State) {
    Shape(s) && Enabled(s, e) && r == Step(s, e)
  }

  /** s is the state after the events es, counted from boot with three task slots. */
  ghost predicate Reached(s: State, es: seq<Event>)
    decreases |es|
  {
    if es == [] then s == Boot(3, 0)
    else
      var before, e := es[..|es| - 1], es[|es| - 1];
      exists p :: Next(p, e, s) && Reached(p, before)
  }

  lemma ReachedNext(p: State, es: seq<Event>, e: Event, s: State)
    requires Reached(p, es) && Next(p, e, s)
    ensures Reached(s, es + [e])
  {
    var longer := es + [e];
    assert longer[..|longer| - 1] == es && longer[|longer| - 1] == e;
    assert Next(p, e, s) && Reached(p, longer[..|longer| - 1]);
  }

  lemma Onward(s: State, es: seq<Event>, e: Event) returns (r: State)
    requires Reached(s, es) && Good(s) && Enabled(s, e) && !e.SysTaskDestroy?
    ensures Reached(r, es + [e]) && Good(r) && r == Step(s, e)
  {
    r := Step(s, e);
    StepKeeps(s, e);
    ReachedNext(s, es, e, r);
  }

  lemma Opening() returns (s: State, es: seq<Event>)
    ensures Reached(s, es) && Good(s) && Scene(s, 1, [2]) && Plain(s, 1, Runnable, Running, [])
            && Plain(s, 2, Runnable, Running, [])
    ensures Admin(s) && s.tasks[3].state.Unused?
  {
    BootGood(3, 0);
    s, es := Boot(3, 0), [];
    s := Onward(s, es, Reschedule);
    es := es + [Reschedule];
    Start(s);
    CreateTwo(s);
    s := Onward(s, es, SysTaskCreate(2, 1, CAPS, true));
    es := es + [SysTaskCreate(2, 1, CAPS, true)];
  }

  lemma Queueing(s: State, es: seq<Event>) returns (r: State, es': seq<Event>)
    requires Reached(s, es) && Good(s) && Scene(s, 1, [2]) && Plain(s, 1, Runnable, Running, [])
             && Plain(s, 2, Runnable, Running, [])
    requires Admin(s) && s.tasks[3].state.Unused?
    ensures Reached(r, es') && Good(r) && Scene(r, 3, []) && Plain(r, 1, Blocked, OPEN, []) && r.tasks[1].src == IPC_ANY
    ensures Plain(r, 2, Blocked, SENDING, []) && Plain(r, 3, Runnable, Running, [2]) && Admin(r)
  {
    CreateThree(s);
    r := Onward(s, es, SysTaskCreate(3, 1, CAPS, true));
    es' := es + [SysTaskCreate(3, 1, CAPS, true)];
    OneReceives(r, [2, 3]);
    r := Onward(r, es', SysIpc(0, IPC_ANY, HELLO, RECV));
    es' := es' + [SysIpc(0, IPC_ANY, HELLO, RECV)];
    TwoSends(r);
    r := Onward(r, es', SysIpc(3, IPC_ANY, HELLO, SEND));
    es' := es' + [SysIpc(3, IPC_ANY, HELLO, SEND)];
  }

  lemma Resuming(s: State, es: seq<Event>) returns (r: State, es': seq<Event>)
    requires Reached(s, es) && Good(s) && Scene(s, 3, []) && Plain(s, 1, Blocked, OPEN, []) && s.tasks[1].src == IPC_ANY
    requires Plain(s, 2, Blocked, SENDING, []) && Plain(s, 3, Runnable, Running, [2]) && Admin(s)
    ensures Reached(r, es') && Good(r) && Scene(r, 1, [2]) && Plain(r, 1, Runnable, Running, []) && Admin(r)
    ensures Plain(r, 2, Runnable, SENDING, []) && Plain(r, 3, Blocked, OPEN, [])
  {
    ThreeSends(s);
    r := Onward(s, es, SysIpc(1, IPC_ANY, HELLO, SEND));
    es' := es + [SysIpc(1, IPC_ANY, HELLO, SEND)];
    ThreeReceives(r);
    r := Onward(r, es', SysIpc(0, IPC_ANY, HELLO, RECV));
    es' := es' + [SysIpc(0, IPC_ANY, HELLO, RECV)];
    OneGoesOn(r);
    r := Onward(r, es', Continue);
    es' := es' + [Continue];
  }

  lemma DestroyNext(s: State) returns (r: State)
    requires Good(s) && Scene(s, 1, [2]) && Plain(s, 1, Runnable, Running, []) && Admin(s)
    requires Plain(s, 2, Runnable, SENDING, []) && Plain(s, 3, Blocked, OPEN, [])
    ensures Next(s, SysTaskDestroy(3), r) && !Inv(r)
    ensures Scene(r, 1, [2]) && Plain(r, 1, Runnable, Running, []) && Plain(r, 2, Runnable, SENDING, [])
            && r.tasks[3].state.Unused?
  {
    r := Destroy(s, 3);
    OneDestroysThree(s, r);
  }

  lemma Aftermath(r: State) returns (r': State, r'': State)
    requires Scene(r, 1, [2]) && Plain(r, 1, Runnable, Running, []) && Plain(r, 2, Runnable, SENDING, [])
             && r.tasks[3].state.Unused?
    ensures Next(r, SysIpc(0, IPC_ANY, HELLO, RECV), r') && Next(r', Continue, r'')
    ensures |r''.tasks| == 4 && r''.tasks[3].state.Runnable?
  {
    OneReceives(r, [2]);
    r' := Step(r, SysIpc(0, IPC_ANY, HELLO, RECV));
    TwoGoesOn(r');
    r'' := Step(r', Continue);
  }

  /**
   A state that the kernel reaches from boot, in which task 2 has been resumed to deliver to task 3.
   Destroying task 3 breaks the invariant, and two events later the destroyed task is runnable again.
   */
  lemma DestroyDuringHandoff() returns (s: State, es: seq<Event>, r: State, r': State, r'': State)
    ensures Reached(s, es) && Good(s)
    ensures Next(s, SysTaskDestroy(3), r) && !Inv(r) && |r.tasks| == 4 && r.tasks[3].state.Unused?
    ensures Next(r, SysIpc(0, IPC_ANY, HELLO, RECV), r') && Next(r', Continue, r'')
    ensures |r''.tasks| == 4 && r''.tasks[3].state.Runnable?
  {
    s, es := Opening();
    s, es := Queueing(s, es);
    s, es := Resuming(s, es);
    r := DestroyNext(s);
    r', r'' := Aftermath(r);
  }

  /** What task_destroy(2) leaves in this scene. */
  lemma TwoDestroyed(s: State, r: State)
    requires Shape(s) && |s.tasks| == 4 && s.current == 1 && Plain(s, 3, Blocked, OPEN, []) && s.tasks[2].senders == []
    requires Shape(r) && |r.tasks| == 4 && Destroyed(s, r, 2)
    ensures r.tasks[2].state.Unused? && r.current == 1 && r.panicked == s.panicked && r.tasks[1].kont == s.tasks[1].kont
    ensures r.tasks[3].notifications == {}
  {
  }

  lemma HandoffDeafens(s: State, r: State)
    requires Good(s) && Scene(s, 1, [2]) && Plain(s, 1, Runnable, Running, []) && Admin(s)
    requires Plain(s, 2, Runnable, SENDING, []) && Plain(s, 3, Blocked, OPEN, []) && r == Destroy(s, 2)
    ensures Deaf(r, 3, 2) && r.tasks[2].state.Unused? && r.tasks[3].notifications == {}
    ensures r.current == 1 && !r.panicked && r.tasks[1].kont.Running?
  {
    assert TaskOk(s, 2) && Narrow(s, 3, 2) && Delivering(s, 2, 3) && DestroyError(s, 2) == OK;
    DestroySilences(s, 3, 2);
    NoSelfPager(s, 2);
    DestroyIs(s, 2);
    TwoDestroyed(s, r);
  }

  lemma MayDestroyTwo(s: State)
    requires Scene(s, 1, [2]) && Plain(s, 1, Runnable, Running, []) && Admin(s)
    requires Plain(s, 2, Runnable, SENDING, []) && Plain(s, 3, Blocked, OPEN, [])
    ensures Enabled(s, SysTaskDestroy(2)) && Careful(s, SysTaskDestroy(2))
            && Step(s, SysTaskDestroy(2)) == Destroy(s, 2)
  {
    forall x | InWindow(s, x) ensures s.tasks[x].kont.dst != 2 { assert x == 2; }
  }

  lemma DestroySender(s: State) returns (r: State)
    requires Good(s) && Scene(s, 1, [2]) && Plain(s, 1, Runnable, Running, []) && Admin(s)
    requires Plain(s, 2, Runnable, SENDING, []) && Plain(s, 3, Blocked, OPEN, [])
    ensures Next(s, SysTaskDestroy(2), r) && Good(r) && Deaf(r, 3, 2) && r.tasks[2].state.Unused?
            && r.tasks[3].notifications == {}
    ensures |r.tasks| == 4 && r.current == 1 && !r.panicked && r.tasks[1].kont.Running?
  {
    MayDestroyTwo(s);
    StepKeeps(s, SysTaskDestroy(2));
    r := Destroy(s, 2);
    HandoffDeafens(s, r);
  }

  lemma NotifyThree(r: State, bits: Bits) returns (r': State)
    requires Good(r) && |r.tasks| == 4 && r.current == 1 && !r.panicked && r.tasks[1].kont.Running? && Deaf(r, 3, 2)
    requires r.tasks[3].notifications == {}
    ensures Next(r, SysNotify(3, bits), r') && Deaf(r', 3, 2) && r'.tasks[3].notifications == bits
  {
    DeafStays(r, SysNotify(3, bits), 3, 2);
    NotifyPending(r, 3, bits);
    r' := Step(r, SysNotify(3, bits));
  }

  /**
   The same state reached from boot.  Destroying the resumed sender, task 2, keeps the invariant, but leaves
   task 3 deaf: a notification that its open receive asks for stays pending.
   */
  lemma DestroyDeafensReceiver(bits: Bits) returns (s: State, es: seq<Event>, r: State, r': State)
    ensures Reached(s, es) && Good(s) && Next(s, SysTaskDestroy(2), r) && Good(r) && Deaf(r, 3, 2)
            && r.tasks[2].state.Unused?
    ensures Next(r, SysNotify(3, bits), r') && Deaf(r', 3, 2) && r'.tasks[3].notifications == bits
  {
    s, es := Opening();
    s, es := Queueing(s, es);
    s, es := Resuming(s, es);
    r := DestroySender(s);
    r' := NotifyThree(r, bits);
  }
}
