/**
 The queues of the kernel as kernel/task.c and kernel/ipc.c keep them: rings of
 links that are part of the tasks.  `Queues` stands for the run queues, whose
 heads are the array `runqueues` and whose links are the fields `runqueue_next`,
 and for the sender queues, with a head in every task and the links `sender_next`.
 */
module KernelQueues {
  import opened Common
  import opened List
  import opened KernelSpec
  import KernelInvariant

  /** Each element is in the sequence once, and in no other one. */
  ghost predicate OncePerQueue(qs: seq<seq<Tid>>) {
    forall p, i, r, j ::
      0 <= p < |qs| && 0 <= r < |qs| && 0 <= i < |qs[p]| && 0 <= j < |qs[r]| && qs[p][i] == qs[r][j] ==>
        p == r && i == j
  }

  ghost predicate InRange(q: seq<Tid>, n: nat) {
    forall i :: 0 <= i < |q| ==> 0 <= q[i] < n
  }

  /** The queues without t. */
  ghost function AllWithout(qs: seq<seq<Tid>>, t: Tid): (r: seq<seq<Tid>>)
    ensures |r| == |qs| && forall p :: 0 <= p < |qs| ==> r[p] == Without(qs[p], t)
  {
    seq(|qs|, p requires 0 <= p < |qs| => Without(qs[p], t))
  }

  lemma {:induction false} WithoutAt(q: seq<Tid>, k: nat)
    requires k < |q| && forall i :: 0 <= i < |q| && i != k ==> q[i] != q[k]
    ensures Without(q, q[k]) == q[..k] + q[k + 1..]
    decreases k
  {
    if k == 0 {
      KernelInvariant.WithoutAbsent(q[1..], q[0]);
      assert q[..0] + q[1..] == q[1..];
    } else {
      WithoutAt(q[1..], k - 1);
      assert q[1..][..k - 1] == q[1..k] && q[1..][k..] == q[k + 1..];
      assert q[..k] + q[k + 1..] == [q[0]] + (q[1..k] + q[k + 1..]);
    }
  }

  /** An element that is in one queue only is taken out of all of them by taking it out of that one. */
  lemma WithoutFrom(qs: seq<seq<Tid>>, p: nat, k: nat)
    requires OncePerQueue(qs) && p < |qs| && k < |qs[p]|
    ensures AllWithout(qs, qs[p][k]) == qs[p := qs[p][..k] + qs[p][k + 1..]]
  {
    var t := qs[p][k];
    WithoutAt(qs[p], k);
    forall r | 0 <= r < |qs| && r != p ensures Without(qs[r], t) == qs[r] {
      forall j | 0 <= j < |qs[r]| ensures qs[r][j] != t { }
      KernelInvariant.WithoutAbsent(qs[r], t);
    }
  }

  lemma WithoutNone(qs: seq<seq<Tid>>, t: Tid)
    requires forall p :: 0 <= p < |qs| ==> t !in qs[p]
    ensures AllWithout(qs, t) == qs
  {
    forall p | 0 <= p < |qs| ensures Without(qs[p], t) == qs[p] { KernelInvariant.WithoutAbsent(qs[p], t); }
  }

  ghost predicate InNone(qs: seq<seq<Tid>>, t: Tid) {
    forall p :: 0 <= p < |qs| ==> t !in qs[p]
  }

  /** One queue is replaced by q, whose elements are in no other queue. */
  lemma ReplaceOnce(qs: seq<seq<Tid>>, p: nat, q: seq<Tid>)
    requires OncePerQueue(qs) && p < |qs| && (forall i, j :: 0 <= i < j < |q| ==> q[i] != q[j])
    requires forall x, r :: x in q && 0 <= r < |qs| && r != p ==> x !in qs[r]
    ensures OncePerQueue(qs[p := q])
  {
    forall r, j, i | 0 <= r < |qs| && r != p && 0 <= j < |qs[r]| && 0 <= i < |q| ensures qs[r][j] != q[i] {
      assert q[i] in q;
    }
  }

  /** A ring whose links have not been written to is still one. */
  twostate lemma RingStays(ring: seq<Link>)
    requires old(IsRing(ring)) && forall i :: 0 <= i < |ring| ==>
             ring[i].next == old(ring[i].next) && ring[i].prev == old(ring[i].prev)
    ensures IsRing(ring)
  {
    forall i | 0 <= i < |ring| ensures Linked(ring, i) { assert old(Linked(ring, i)); }
  }

  /** The p-th of the queues becomes q. */
  datatype Change = Change(qs: seq<seq<Tid>>, p: nat, q: seq<Tid>) {
    ghost function After(): seq<seq<Tid>>
      requires p < |qs|
    {
      qs[p := q]
    }
  }

  class Queues {
    const heads: seq<Link>
    const links: seq<Link>              // by task
    const owner: map<Link, nat>         // LIST_CONTAINER(): the task that a link is part of
    ghost var queues: seq<seq<Tid>>     // what the rings spell out

    ghost function Ring(qs: seq<seq<Tid>>, p: nat): (r: seq<Link>)
      requires p < |qs| == |heads| && InRange(qs[p], |links|)
    {
      [heads[p]] + Elems(qs[p])
    }

    ghost function Elems(q: seq<Tid>): (r: seq<Link>)
      requires InRange(q, |links|)
      ensures |r| == |q| && forall i :: 0 <= i < |q| ==> r[i] == links[q[i]]
    {
      seq(|q|, i requires 0 <= i < |q| => links[q[i]])
    }

    /** The links are all different, and each task is in one queue at most. */
    ghost predicate Shaped(qs: seq<seq<Tid>>) {
      && |qs| == |heads| && NoDup(heads + links) && OncePerQueue(qs)
      && (forall t :: 0 <= t < |links| ==> links[t] in owner && owner[links[t]] == t)
      && forall p :: 0 <= p < |qs| ==> InRange(qs[p], |links|)
    }

    /** The rings spell out these queues, and a link that is in none is null. */
    ghost predicate Spell(qs: seq<seq<Tid>>)
      reads heads, links
    {
      && Shaped(qs)
      && (forall p {:trigger Ring(qs, p)} :: 0 <= p < |heads| ==> IsRing(Ring(qs, p)))
      && (forall t {:trigger InNone(qs, t)} :: 0 <= t < |links| && InNone(qs, t) ==> links[t].next == null)
    }

    ghost predicate Valid()
      reads this`queues, heads, links
    {
      Spell(queues)
    }

    /** list_init() on every head; the links are zeroed memory. */
    constructor (heads: seq<Link>, links: seq<Link>, owner: map<Link, nat>)
      requires NoDup(heads + links) && forall t :: 0 <= t < |links| ==> links[t] in owner && owner[links[t]] == t
      requires forall p :: 0 <= p < |heads| ==> heads[p].next == heads[p].prev == heads[p]
      requires forall t :: 0 <= t < |links| ==> links[t].next == null
      ensures Valid() && this.heads == heads && this.links == links && queues == seq(|heads|, p => [])
    {
      this.heads, this.links, this.owner := heads, links, owner;
      queues := seq(|heads|, p => []);
      new;
      forall p | 0 <= p < |heads| ensures IsRing(Ring(queues, p)) {
        assert Ring(queues, p) == [heads[p]];
        assert Linked([heads[p]], 0);
      }
    }

    /** Different queues share no link. */
    lemma RingsApart(qs: seq<seq<Tid>>, p: nat, r: nat)
      requires Shaped(qs) && p < |heads| && r < |heads| && p != r
      ensures forall x :: x in Ring(qs, p) ==> x !in Ring(qs, r)
    {
      var all, a, b := heads + links, Elems(qs[p]), Elems(qs[r]);
      assert all[p] == heads[p] && all[r] == heads[r];
      forall i | 0 <= i < |a| ensures a[i] != heads[r] && a[i] !in b {
        assert all[|heads| + qs[p][i]] == a[i];
        forall j | 0 <= j < |b| ensures a[i] != b[j] { assert all[|heads| + qs[r][j]] == b[j]; }
      }
      forall j | 0 <= j < |b| ensures b[j] != heads[p] { assert all[|heads| + qs[r][j]] == b[j]; }
    }

    /** The link of a task that is not in the p-th queue is not in its ring. */
    lemma LinkOutside(qs: seq<seq<Tid>>, p: nat, t: nat)
      requires Shaped(qs) && p < |heads| && t < |links| && t !in qs[p]
      ensures links[t] !in Ring(qs, p)
    {
      var all, a := heads + links, Elems(qs[p]);
      assert all[p] == heads[p] && all[|heads| + t] == links[t];
      forall i | 0 <= i < |a| ensures a[i] != links[t] { assert all[|heads| + qs[p][i]] == a[i]; }
    }

    /** One ring has been changed into that of q; a link that has left it is null. */
    twostate lemma Respelled(c: Change)
      requires old(Spell(c.qs)) && c.p < |heads| && Shaped(c.After()) && IsRing(Ring(c.After(), c.p))
      requires forall x :: x in heads + links && x !in Ring(c.qs, c.p) && x !in Ring(c.After(), c.p) ==>
                 x.next == old(x.next) && x.prev == old(x.prev)
      requires forall t :: t in c.qs[c.p] && t !in c.q ==> links[t].next == null
      ensures Spell(c.After())
    {
      var Change(qs, p, q) := c;
      var qs' := qs[p := q];
      forall r | 0 <= r < |heads| ensures IsRing(Ring(qs', r)) {
        if r != p {
          RingsApart(qs, r, p);
          RingsApart(qs', r, p);
          assert Ring(qs', r) == Ring(qs, r) && old(IsRing(Ring(qs, r)));
          InAll(qs, r);
          RingStays(Ring(qs, r));
        }
      }
      forall t | 0 <= t < |links| && InNone(qs', t) ensures links[t].next == null {
        if t !in qs[p] {
          LinkOutside(qs, p, t);
          LinkOutside(qs', p, t);
          forall r | 0 <= r < |qs| ensures t !in qs[r] { assert r != p ==> qs'[r] == qs[r]; }
          assert InNone(qs, t) && links[t] in heads + links;
        }
      }
    }

    lemma InAll(qs: seq<seq<Tid>>, p: nat)
      requires Shaped(qs) && p < |heads|
      ensures forall x :: x in Ring(qs, p) ==> x in heads + links
    {
    }

    /** Links that have not been written to spell out what they did. */
    twostate lemma StillSpells(qs: seq<seq<Tid>>)
      requires old(Spell(qs)) && forall x :: x in heads + links ==> x.next == old(x.next) && x.prev == old(x.prev)
      ensures Spell(qs)
    {
      forall p | 0 <= p < |heads| ensures IsRing(Ring(qs, p)) {
        InAll(qs, p);
        assert old(IsRing(Ring(qs, p)));
        RingStays(Ring(qs, p));
      }
      forall t | 0 <= t < |links| && InNone(qs, t) ensures links[t].next == null { assert links[t] in heads + links; }
    }

    /** list_push_back() of a task that is in no queue. */
    method PushBack(p: nat, t: nat)
      requires Valid() && p < |heads| && t < |links| && InNone(queues, t)
      modifies this`queues, heads, links
      ensures Valid() && queues == old(queues)[p := old(queues)[p] + [t]]
    {
      ghost var qs, q := queues, queues[p] + [t];
      LinkOutside(qs, p, t);
      ReplaceOnce(qs, p, q);
      assert Ring(qs, p) == [heads[p]] + Elems(qs[p]);
      List.PushBack(heads[p], links[t], Elems(qs[p]));
      assert Ring(qs[p := q], p) == [heads[p]] + (Elems(qs[p]) + [links[t]]);
      Respelled(Change(qs, p, q));
      queues := qs[p := q];
    }

    /** What is left of the p-th queue without its k-th element. */
    lemma Shortened(qs: seq<seq<Tid>>, p: nat, k: nat)
      requires Shaped(qs) && p < |heads| && k < |qs[p]|
      ensures var q := qs[p][..k] + qs[p][k + 1..];
              && Shaped(qs[p := q]) && qs[p][k] !in q && (forall t :: t in qs[p] && t !in q ==> t == qs[p][k])
              && Elems(q) == Elems(qs[p])[..k] + Elems(qs[p])[k + 1..]
    {
      var q := qs[p][..k] + qs[p][k + 1..];
      assert forall i :: 0 <= i < |q| ==> q[i] == qs[p][if i < k then i else i + 1];
      assert qs[p] == qs[p][..k] + [qs[p][k]] + qs[p][k + 1..];
      ReplaceOnce(qs, p, q);
    }

    /** A link with a successor is in a queue. */
    lemma LinkedSomewhere(t: nat)
      requires Valid() && t < |links|
      ensures links[t].next == null <==> InNone(queues, t)
    {
      if !InNone(queues, t) {
        var p :| 0 <= p < |queues| && t in queues[p];
        var k :| 0 <= k < |queues[p]| && queues[p][k] == t;
        assert Linked(Ring(queues, p), k + 1);
      }
    }

    /** list_remove() of an element whose place is known to the proof alone. */
    method Take(ghost p: nat, ghost k: nat, t: nat)
      requires Valid() && t < |links| && p < |heads| && k < |queues[p]| && queues[p][k] == t && links[t].next != null
      modifies this`queues, heads, links
      ensures Valid() && queues == AllWithout(old(queues), t)
    {
      ghost var qs, q := queues, queues[p][..k] + queues[p][k + 1..];
      Shortened(qs, p, k);
      WithoutFrom(qs, p, k);
      assert Ring(qs, p) == [heads[p]] + Elems(qs[p]);
      InAll(qs, p);
      List.Remove(links[t], heads[p], Elems(qs[p]), k);
      assert Ring(qs[p := q], p) == [heads[p]] + Elems(q);
      Respelled(Change(qs, p, q));
      queues := qs[p := q];
    }

    /** list_remove(): whatever queue the task is in, it leaves it; in none, nothing happens. */
    method Remove(t: nat)
      requires Valid() && t < |links|
      modifies this`queues, heads, links
      ensures Valid() && queues == AllWithout(old(queues), t)
    {
      LinkedSomewhere(t);
      if links[t].next == null {
        WithoutNone(queues, t);
        return;
      }
      ghost var p :| 0 <= p < |queues| && t in queues[p];
      ghost var k :| 0 <= k < |queues[p]| && queues[p][k] == t;
      Take(p, k, t);
    }

    /** task_schedule() moves a runnable task to the end of the queue of its new priority. */
    method Reschedule(t: nat, p: nat)
      requires Valid() && t < |links| && p < |heads|
      modifies this`queues, heads, links
      ensures Valid() && queues == AllWithout(old(queues), t)[p := Without(old(queues)[p], t) + [t]]
    {
      Remove(t);
      PushBack(p, t);
    }

    lemma TailShaped(qs: seq<seq<Tid>>, p: nat)
      requires Shaped(qs) && p < |heads| && qs[p] != []
      ensures var q := qs[p][1..];
              && Shaped(qs[p := q]) && (forall t :: t in qs[p] && t !in q ==> t == qs[p][0])
              && Elems(q) == Elems(qs[p])[1..] && Ring(qs[p := q], p) == [heads[p]] + Elems(qs[p])[1..]
    {
      Shortened(qs, p, 0);
      assert qs[p][..0] + qs[p][1..] == qs[p][1..] && Elems(qs[p])[..0] + Elems(qs[p])[1..] == Elems(qs[p])[1..];
    }

    /** LIST_POP_FRONT() of a queue that is not empty. */
    method PopFirst(p: nat) returns (t: nat)
      requires Valid() && p < |heads| && queues[p] != []
      modifies this`queues, heads, links
      ensures Valid() && t == old(queues)[p][0] && queues == old(queues)[p := old(queues)[p][1..]]
    {
      ghost var qs, elems := queues, Elems(queues[p]);
      assert Ring(qs, p) == [heads[p]] + elems;
      InAll(qs, p);
      TailShaped(qs, p);
      var head := List.PopFront(heads[p], elems);
      t := owner[head];
      Respelled(Change(qs, p, qs[p][1..]));
      queues := qs[p := qs[p][1..]];
    }

    /** LIST_POP_FRONT() */
    method PopFront(p: nat) returns (found: bool, t: nat)
      requires Valid() && p < |heads|
      modifies this`queues, heads, links
      ensures Valid() && (found <==> old(queues)[p] != [])
      ensures if found then t == old(queues)[p][0] && queues == old(queues)[p := old(queues)[p][1..]]
              else queues == old(queues)
    {
      assert Ring(queues, p) == [heads[p]] + Elems(queues[p]);
      var empty := List.IsEmpty(heads[p], Elems(queues[p]));
      if empty { return false, 0; }
      found := true;
      t := PopFirst(p);
    }

    /** The loop of scheduler(): the first task of the best queue, or idle. */
    method Scheduler() returns (next: Tid)
      requires Valid()
      modifies this`queues, heads, links
      ensures Valid() && next == Pick(old(queues)) && queues == Popped(old(queues))
    {
      for i := 0 to |heads|
        invariant Valid() && queues == old(queues) && Best(queues, 0) == Best(queues, i)
      {
        var found, t := PopFront(i);
        if found { return t; }
      }
      next := IDLE_TASK;
    }

    /** The loop of resume_sender(): the first task in the queue that a receive from src accepts. */
    method FirstAccepted(p: nat, src: Tid) returns (found: bool, t: nat)
      requires Valid() && p < |heads|
      ensures found <==> FirstSender(queues[p], src) < |queues[p]|
      ensures found ==> t == queues[p][FirstSender(queues[p], src)]
    {
      ghost var q, ring := queues[p], Ring(queues, p);
      assert Linked(ring, 0);
      var node, head := heads[p].next, heads[p];
      ghost var n := 0;
      while node != head
        invariant n <= |q| && node == ring[if n + 1 < |ring| then n + 1 else 0]
        invariant (n > 0 ==> src != IPC_ANY) && forall j :: 0 <= j < n ==> q[j] != src
        decreases |q| - n
      {
        t := owner[node];
        if src == IPC_ANY || t == src {
          FirstSenderIs(q, src, n);
          return true, t;
        }
        assert Linked(ring, n + 1);
        node, n := node.next, n + 1;
      }
      return false, 0;
    }

    /** resume_sender() takes the task it has found out of the queue. */
    method TakeAccepted(p: nat, src: Tid) returns (found: bool, t: nat)
      requires Valid() && p < |heads|
      modifies this`queues, heads, links
      ensures Valid() && (found <==> FirstSender(old(queues)[p], src) < |old(queues)[p]|)
      ensures var q := old(queues)[p]; var i := FirstSender(q, src);
              if found then t == q[i] && queues == old(queues)[p := q[..i] + q[i + 1..]] else queues == old(queues)
    {
      found, t := FirstAccepted(p, src);
      if !found { return; }
      WithoutFrom(queues, p, FirstSender(queues[p], src));
      Remove(t);
    }
  }

  /** The rings hold the run queues and the sender queues of this state. */
  ghost predicate Hold(run: Queues, waiting: Queues, s: State)
    requires Shape(s)
    reads run, waiting
  {
    && run.queues == s.runqueues && |run.links| == |waiting.links| == |s.tasks|
    && |waiting.queues| == |s.tasks| && forall t :: 0 <= t < |s.tasks| ==> waiting.queues[t] == s.tasks[t].senders
  }

  /** The two families of links are different fields. */
  ghost predicate Separate(run: Queues, waiting: Queues) {
    && run != waiting
    && (forall x :: x in run.heads ==> x !in waiting.heads && x !in waiting.links)
    && (forall x :: x in run.links ==> x !in waiting.heads && x !in waiting.links)
  }

  /** task_destroy() unlinks the task without knowing which queues it is in. */
  method UnlinkTask(run: Queues, waiting: Queues, t: nat, ghost s: State)
    requires run.Valid() && waiting.Valid() && Separate(run, waiting) && Shape(s) && Hold(run, waiting, s)
             && IsTask(s, t)
    modifies run`queues, run.heads, run.links, waiting`queues, waiting.heads, waiting.links
    ensures run.Valid() && waiting.Valid() && Hold(run, waiting, Unlink(s, t))
  {
    run.Remove(t);
    waiting.StillSpells(waiting.queues);
    label Middle:
    waiting.Remove(t);
    run.StillSpells@Middle(run.queues);
  }
}
