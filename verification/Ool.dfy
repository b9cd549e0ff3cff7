/** servers/vm/ool.c: the handlers, and the copy from one address space to another, page by page. */
module Ool {
  import opened Common
  import opened OolSpec

  const PAGE := 4096

  /** The physical page behind a task's virtual page, as vaddr2paddr() finds it or has it filled in. */
  type Pages = map<(nat, nat), nat>

  const NOWHERE := -1

  /** The physical address behind a virtual one. */
  function Phys(pages: Pages, t: nat, v: nat): int {
    if (t, v / PAGE) in pages then pages[(t, v / PAGE)] + v % PAGE else NOWHERE
  }

  /** Where the i-th byte comes from and where it goes. */
  function From(pages: Pages, m: Msg, i: nat): int {
    Phys(pages, m.src, m.addr + i)
  }

  function To(pages: Pages, m: Msg, buf: nat, i: nat): int {
    Phys(pages, m.dst, buf + i)
  }

  /** Addresses within one page have neighbouring physical addresses. */
  lemma SamePage(pages: Pages, t: nat, v: nat, i: nat)
    requires v % PAGE + i < PAGE
    ensures Phys(pages, t, v + i) == if Phys(pages, t, v) == NOWHERE then NOWHERE else Phys(pages, t, v) + i
  {
    assert (v + i) / PAGE == v / PAGE && (v + i) % PAGE == v % PAGE + i;
  }

  /** Physical pages lie in memory. */
  ghost predicate PagesFit(pages: Pages, size: nat) {
    forall k :: k in pages ==> pages[k] + PAGE <= size
  }

  /** No two bytes go to the same place, and none to a place another one comes from. */
  ghost predicate Separate(pages: Pages, m: Msg, buf: nat) {
    && (forall i, j {:trigger To(pages, m, buf, i), To(pages, m, buf, j)} :: 0 <= i < j < m.len ==>
          To(pages, m, buf, i) == NOWHERE || To(pages, m, buf, i) != To(pages, m, buf, j))
    && (forall i, j {:trigger To(pages, m, buf, i), From(pages, m, j)} :: 0 <= i < m.len && 0 <= j < m.len ==>
          To(pages, m, buf, i) == NOWHERE || To(pages, m, buf, i) != From(pages, m, j))
  }

  /** One of the first n bytes goes to p. */
  ghost predicate Target(pages: Pages, m: Msg, buf: nat, n: nat, p: nat) {
    exists i :: 0 <= i < n && To(pages, m, buf, i) == p
  }

  /** The first n bytes can be had on both sides. */
  ghost predicate Reachable(pages: Pages, m: Msg, buf: nat, n: nat) {
    forall i {:trigger From(pages, m, i)} {:trigger To(pages, m, buf, i)} :: 0 <= i < n ==>
      From(pages, m, i) != NOWHERE && To(pages, m, buf, i) != NOWHERE
  }

  /** Where the copy ends, byte by byte. */
  ghost function EndingOf(pages: Pages, m: Msg, buf: nat, i: nat): Ending
    decreases m.len - i
  {
    if i >= m.len then Copied
    else if From(pages, m, i) == NOWHERE then SenderMissing
    else if To(pages, m, buf, i) == NOWHERE then ReceiverMissing
    else EndingOf(pages, m, buf, i + 1)
  }

  lemma {:induction false} EndingSkips(pages: Pages, m: Msg, buf: nat, n: nat)
    requires n <= m.len && Reachable(pages, m, buf, n)
    ensures EndingOf(pages, m, buf, 0) == EndingOf(pages, m, buf, n)
  {
    if n > 0 {
      EndingSkips(pages, m, buf, n - 1);
      assert From(pages, m, n - 1) != NOWHERE;
    }
  }

  lemma InMemory(pages: Pages, size: nat, t: nat, v: nat)
    requires PagesFit(pages, size)
    ensures Phys(pages, t, v) == NOWHERE || 0 <= Phys(pages, t, v) < size
  {
  }

  /** No byte but the targets of the first n has changed. */
  ghost predicate OthersSpared(pages: Pages, before: seq<int>, after: seq<int>, m: Msg, buf: nat, n: nat) {
    |after| == |before| && forall p :: 0 <= p < |before| && !Target(pages, m, buf, n, p) ==> after[p] == before[p]
  }

  /** The first n bytes have arrived. */
  ghost predicate Arrived(pages: Pages, before: seq<int>, after: seq<int>, m: Msg, buf: nat, n: nat) {
    forall i {:trigger From(pages, m, i)} {:trigger To(pages, m, buf, i)} :: 0 <= i < n ==>
      && 0 <= From(pages, m, i) < |before| && 0 <= To(pages, m, buf, i) < |after|
      && after[To(pages, m, buf, i)] == before[From(pages, m, i)]
  }

  /** The c bytes from the n-th on lie within one page on both sides. */
  ghost predicate IsPiece(pages: Pages, m: Msg, buf: nat, n: nat, c: nat) {
    && n + c <= m.len && c > 0 && (m.addr + n) % PAGE + c <= PAGE && (buf + n) % PAGE + c <= PAGE
    && From(pages, m, n) != NOWHERE && To(pages, m, buf, n) != NOWHERE
  }

  lemma InPiece(pages: Pages, m: Msg, buf: nat, n: nat, c: nat, i: nat)
    requires IsPiece(pages, m, buf, n, c) && n <= i < n + c
    ensures To(pages, m, buf, i) == To(pages, m, buf, n) + i - n && From(pages, m, i) == From(pages, m, n) + i - n
    ensures From(pages, m, n) >= 0 && To(pages, m, buf, n) >= 0
  {
    SamePage(pages, m.src, m.addr + n, i - n);
    SamePage(pages, m.dst, buf + n, i - n);
    assert m.addr + n + (i - n) == m.addr + i && buf + n + (i - n) == buf + i;
  }

  /** memcpy() of c bytes */
  function Blit(mem: seq<int>, to: nat, from: nat, c: nat): (r: seq<int>)
    requires to + c <= |mem| && from + c <= |mem|
    ensures |r| == |mem|
    ensures forall p :: 0 <= p < |mem| ==> r[p] == if to <= p < to + c then mem[from + p - to] else mem[p]
  {
    mem[..to] + mem[from..from + c] + mem[to + c..]
  }

  lemma PieceBounds(pages: Pages, size: nat, m: Msg, buf: nat, n: nat, c: nat)
    requires PagesFit(pages, size) && IsPiece(pages, m, buf, n, c)
    ensures 0 <= To(pages, m, buf, n) && To(pages, m, buf, n) + c <= size && 0 <= From(pages, m, n)
            && From(pages, m, n) + c <= size
  {
    InPiece(pages, m, buf, n, c, n + c - 1);
    InMemory(pages, size, m.src, m.addr + (n + c - 1));
    InMemory(pages, size, m.dst, buf + (n + c - 1));
  }

  lemma PieceReachable(pages: Pages, m: Msg, buf: nat, n: nat, c: nat)
    requires IsPiece(pages, m, buf, n, c) && Reachable(pages, m, buf, n)
    ensures Reachable(pages, m, buf, n + c)
  {
    forall i | 0 <= i < n + c ensures From(pages, m, i) != NOWHERE && To(pages, m, buf, i) != NOWHERE {
      if i >= n { InPiece(pages, m, buf, n, c, i); }
    }
  }

  /** A piece changes nothing but its targets, wherever it comes from. */
  lemma PieceSpares(pages: Pages, before: seq<int>, mem: seq<int>, m: Msg, buf: nat, n: nat, c: nat)
    requires IsPiece(pages, m, buf, n, c) && PagesFit(pages, |mem|) && OthersSpared(pages, before, mem, m, buf, n)
    requires 0 <= To(pages, m, buf, n) && To(pages, m, buf, n) + c <= |mem| && 0 <= From(pages, m, n)
             && From(pages, m, n) + c <= |mem|
    ensures OthersSpared(pages, before, Blit(mem, To(pages, m, buf, n), From(pages, m, n), c), m, buf, n + c)
  {
    var to := To(pages, m, buf, n);
    forall p | 0 <= p < |before| && !Target(pages, m, buf, n + c, p)
      ensures Blit(mem, to, From(pages, m, n), c)[p] == before[p] {
      if to <= p < to + c {
        InPiece(pages, m, buf, n, c, n + (p - to));
        assert false;
      }
      assert !Target(pages, m, buf, n, p);
    }
  }

  /** Without overlaps, bytes that have arrived stay, and the bytes of the piece arrive. */
  lemma PieceArrives(pages: Pages, before: seq<int>, mem: seq<int>, m: Msg, buf: nat, n: nat, c: nat, i: nat)
    requires Separate(pages, m, buf) && IsPiece(pages, m, buf, n, c) && PagesFit(pages, |mem|) && i < n + c
    requires OthersSpared(pages, before, mem, m, buf, n) && Arrived(pages, before, mem, m, buf, n)
    requires 0 <= To(pages, m, buf, n) && To(pages, m, buf, n) + c <= |mem| && 0 <= From(pages, m, n)
             && From(pages, m, n) + c <= |mem|
    ensures 0 <= From(pages, m, i) < |before| && 0 <= To(pages, m, buf, i) < |mem|
    ensures Blit(mem, To(pages, m, buf, n), From(pages, m, n), c)[To(pages, m, buf, i)] == before[From(pages, m, i)]
  {
    var to, p := To(pages, m, buf, n), To(pages, m, buf, i);
    if i >= n {
      InPiece(pages, m, buf, n, c, i);
      assert !Target(pages, m, buf, n, From(pages, m, i));
    } else if to <= p < to + c {
      InPiece(pages, m, buf, n, c, n + (p - to));
      assert false;
    }
  }

  lemma PieceCopied(pages: Pages, before: seq<int>, mem: seq<int>, m: Msg, buf: nat, n: nat, c: nat)
    requires Separate(pages, m, buf) && IsPiece(pages, m, buf, n, c) && PagesFit(pages, |mem|)
    requires OthersSpared(pages, before, mem, m, buf, n) && Arrived(pages, before, mem, m, buf, n)
    requires 0 <= To(pages, m, buf, n) && To(pages, m, buf, n) + c <= |mem| && 0 <= From(pages, m, n)
             && From(pages, m, n) + c <= |mem|
    ensures Arrived(pages, before, Blit(mem, To(pages, m, buf, n), From(pages, m, n), c), m, buf, n + c)
  {
    var after := Blit(mem, To(pages, m, buf, n), From(pages, m, n), c);
    forall i | 0 <= i < n + c
      ensures 0 <= From(pages, m, i) < |before| && 0 <= To(pages, m, buf, i) < |after|
      ensures after[To(pages, m, buf, i)] == before[From(pages, m, i)]
    {
      PieceArrives(pages, before, mem, m, buf, n, c, i);
    }
  }

  /** What the copy of a message does to memory: a prefix arrives, all of it exactly if the copy ends well. */
  ghost predicate MemoryAfter(pages: Pages, before: seq<int>, after: seq<int>, m: Msg, buf: nat) {
    exists n: nat ::
      && n <= m.len && (EndingOf(pages, m, buf, 0) == Copied <==> n == m.len)
         && OthersSpared(pages, before, after, m, buf, n)
      && (Separate(pages, m, buf) ==> Arrived(pages, before, after, m, buf, n))
  }

  /** Bytes that few targets have spared, more targets spare as well. */
  lemma SparedByMore(pages: Pages, before: seq<int>, after: seq<int>, m: Msg, buf: nat, n: nat, k: nat)
    requires OthersSpared(pages, before, after, m, buf, n) && n <= k
    ensures OthersSpared(pages, before, after, m, buf, k)
  {
    forall p | 0 <= p < |before| && !Target(pages, m, buf, k, p) ensures after[p] == before[p] {
      assert !Target(pages, m, buf, n, p);
    }
  }

  /**
   The length of the registered buffer is looked at only in debug builds. A copy that comes to its end stays
   inside the buffer if and only if the message is no longer than that.
   */
  lemma InsideIffShort(pages: Pages, m: Msg, buf: nat, len: nat)
    requires Separate(pages, m, buf) && Reachable(pages, m, buf, m.len)
    ensures (forall p: nat :: Target(pages, m, buf, m.len, p) ==> Target(pages, m, buf, len, p)) <==> m.len <= len
  {
    if m.len <= len {
      forall p: nat | Target(pages, m, buf, m.len, p) ensures Target(pages, m, buf, len, p) {
        var i :| 0 <= i < m.len && To(pages, m, buf, i) == p;
      }
    } else {
      var p := To(pages, m, buf, len);
      assert p >= 0 && Target(pages, m, buf, m.len, p);
    }
  }

  class OolServer {
    var tasks: Tasks
    var mem: seq<int>
    const pages: Pages

    constructor (tasks: Tasks, mem: seq<int>, pages: Pages)
      ensures this.tasks == tasks && this.mem == mem && this.pages == pages
    {
      this.tasks, this.mem, this.pages := tasks, mem, pages;
    }

    /** The copy loop: it stops early at the first page that cannot be had, of the sender or of the receiver. */
    method Copy(m: Msg, buf: nat) returns (ending: Ending, done: nat)
      requires PagesFit(pages, |mem|)
      modifies this`mem
      ensures done <= m.len && ending == EndingOf(pages, m, buf, 0) && (ending == Copied <==> done == m.len)
      ensures Reachable(pages, m, buf, done) && OthersSpared(pages, old(mem), mem, m, buf, done)
      ensures ending == SenderMissing ==> done < m.len && From(pages, m, done) == NOWHERE
      ensures ending == ReceiverMissing ==> done < m.len && To(pages, m, buf, done) == NOWHERE
      ensures Separate(pages, m, buf) ==> Arrived(pages, old(mem), mem, m, buf, done)
    {
      done := 0;
      while done < m.len
        invariant done <= m.len && |mem| == |old(mem)| && Reachable(pages, m, buf, done)
        invariant OthersSpared(pages, old(mem), mem, m, buf, done)
        invariant Separate(pages, m, buf) ==> Arrived(pages, old(mem), mem, m, buf, done)
      {
        var srcOff, dstOff := (m.addr + done) % PAGE, (buf + done) % PAGE;
        var c := Min(m.len - done, Min(PAGE - srcOff, PAGE - dstOff));
        var from, to := From(pages, m, done), To(pages, m, buf, done);
        EndingSkips(pages, m, buf, done);
        if from == NOWHERE { return SenderMissing, done; }
        if to == NOWHERE { return ReceiverMissing, done; }
        PieceBounds(pages, |mem|, m, buf, done, c);
        PieceReachable(pages, m, buf, done, c);
        PieceSpares(pages, old(mem), mem, m, buf, done, c);
        if Separate(pages, m, buf) { PieceCopied(pages, old(mem), mem, m, buf, done, c); }
        mem := Blit(mem, to, from, c);
        done := done + c;
      }
      EndingSkips(pages, m, buf, done);
      return Copied, done;
    }

    /** handle_ool_send() */
    method HandleSend(m: Msg) returns (reply: Reply)
      requires PagesFit(pages, |mem|)
      modifies this`tasks, this`mem
      ensures var ending := if m.dst in old(tasks) then EndingOf(pages, m, old(tasks)[m.dst].buf, 0) else Copied;
              tasks == Send(old(tasks), m, ending).0 && reply == Send(old(tasks), m, ending).1
      ensures if m.src in old(tasks) && m.dst in old(tasks) && old(tasks)[m.dst].buf != 0
              then MemoryAfter(pages, old(mem), mem, m, old(tasks)[m.dst].buf) else mem == old(mem)
      ensures m.dst in old(tasks) && m.len <= old(tasks)[m.dst].len ==>
              OthersSpared(pages, old(mem), mem, m, old(tasks)[m.dst].buf, old(tasks)[m.dst].len)
    {
      if m.src !in tasks || m.dst !in tasks { return Panicked; }
      var buf := tasks[m.dst].buf;
      if buf == 0 {
        tasks := tasks[m.src := tasks[m.src].(saved := m)];
        tasks := tasks[m.dst := tasks[m.dst].(queue := tasks[m.dst].queue + [m.src])];
        return DontReply;
      }
      var ending, done := Copy(m, buf);
      if m.len <= tasks[m.dst].len { SparedByMore(pages, old(mem), mem, m, buf, done, tasks[m.dst].len); }
      match ending
      case SenderMissing =>
        tasks := tasks - {m.src};
        return DontReply;
      case ReceiverMissing =>
        tasks := tasks - {m.dst};
        return Unavailable;
      case Copied =>
        var receipt := Receipt(m.src, buf, m.len);
        var served := tasks[m.dst].served + [m];
        tasks := tasks[m.dst := tasks[m.dst].(receipt := receipt, buf := 0, len := 0, served := served)];
        return Ok;
    }

    /** The message of the first waiting sender, if there is one. */
    ghost function Head(t: nat): Option<Msg>
      reads this
    {
      if t in tasks && tasks[t].buf == 0 && tasks[t].queue != [] && tasks[t].queue[0] in tasks
      then Some(tasks[tasks[t].queue[0]].saved) else None
    }

    /**
     Where the bytes of the first waiting sender go: into the new buffer, or into that of the task it has asked
     for.
     */
    ghost function HeadBuffer(t: nat, addr: nat): nat
      requires Head(t).Some?
      reads this
    {
      var m := Head(t).value;
      if m.dst == t then addr else if m.dst in tasks then tasks[m.dst].buf else 0
    }

    ghost function HeadEnding(t: nat, addr: nat): Ending
      reads this
    {
      if Head(t).Some? then EndingOf(pages, Head(t).value, HeadBuffer(t, addr), 0) else Copied
    }

    /** handle_ool_recv() */
    method HandleRecv(t: nat, addr: nat, len: nat) returns (reply: Reply)
      requires PagesFit(pages, |mem|)
      modifies this`tasks, this`mem
      ensures tasks == Recv(old(tasks), t, addr, len, old(HeadEnding(t, addr))).0
      ensures reply == Recv(old(tasks), t, addr, len, old(HeadEnding(t, addr))).1
      ensures if old(Head(t)).Some? && old(HeadBuffer(t, addr)) != 0 && old(Head(t)).value.src in old(tasks)
              then MemoryAfter(pages, old(mem), mem, old(Head(t)).value, old(HeadBuffer(t, addr))) else mem == old(mem)
    {
      if t !in tasks { return Panicked; }
      if tasks[t].buf != 0 { return AlreadyExists; }
      tasks := tasks[t := tasks[t].(buf := addr, len := len)];
      if tasks[t].queue != [] {
        var sender := tasks[t].queue[0];
        tasks := tasks[t := tasks[t].(queue := tasks[t].queue[1..])];
        assert tasks == old(tasks)[t := old(tasks)[t].(buf := addr, len := len, queue := old(tasks)[t].queue[1..])];
        if sender !in tasks { return Panicked; }
        assert tasks[sender].saved == old(tasks)[sender].saved;
        reply := HandleSend(tasks[sender].saved);
        if reply == Panicked { return; }
      }
      return Ok;
    }

    /** handle_ool_verify() */
    method HandleVerify(t: nat, claim: Receipt) returns (reply: Reply)
      modifies this`tasks
      ensures tasks == Verify(old(tasks), t, claim).0 && reply == Verify(old(tasks), t, claim).1
    {
      if t !in tasks { return Panicked; }
      var k := tasks[t];
      if claim.from != k.receipt.from || claim.buf != k.receipt.buf || claim.len != k.receipt.len { return InvalidArg; }
      if k.receipt.buf != 0 && k.served != [] { k := k.(verified := k.verified + [k.served[|k.served| - 1]]); }
      tasks := tasks[t := k.(receipt := NOTHING)];
      return Ok;
    }
  }
}
