/**
 The buffer chains of servers/tcpip/mbuf.c: linked nodes of up to 512 bytes that
 stand for a byte sequence.
 */
module Mbuf {
  import opened Common

  const MAX_LEN := 512

  /** `struct mbuf` */
  class Node {
    var next: Node?
    var offset: nat
    var offsetEnd: nat
    var data: Bytes

    /** mbuf_alloc() */
    constructor ()
      ensures next == null && offset == offsetEnd == 0 && |data| == MAX_LEN
    {
      next, offset, offsetEnd := null, 0, 0;
      data := seq(MAX_LEN, i => 0);
    }

    ghost predicate Ok()
      reads this
    {
      offset <= offsetEnd <= MAX_LEN == |data|
    }

    ghost function Text(): Bytes
      requires Ok()
      reads this
    {
      data[offset..offsetEnd]
    }

    /** mbuf_len_one() */
    function LenOne(): (n: nat)
      requires Ok()
      reads this
      ensures n == |Text()|
    {
      offsetEnd - offset
    }
  }

  ghost predicate AllOk(nodes: seq<Node>)
    reads nodes
  {
    forall i :: 0 <= i < |nodes| ==> nodes[i].Ok()
  }

  /** The next field of the i-th node. */
  ghost predicate LinkAt(nodes: seq<Node>, end: Node?, i: nat)
    requires i < |nodes|
    reads nodes
  {
    nodes[i].next == if i + 1 < |nodes| then nodes[i + 1] else end
  }

  /** From head on, the next fields lead through exactly these nodes, none of them twice, and then to `end`. */
  ghost predicate IsSegment(head: Node?, nodes: seq<Node>, end: Node?)
    reads nodes
  {
    && head == (if nodes == [] then end else nodes[0])
    && AllOk(nodes) && NoDup(nodes)
    && (forall i {:trigger LinkAt(nodes, end, i)} :: 0 <= i < |nodes| ==> LinkAt(nodes, end, i))
  }

  ghost predicate IsChain(head: Node?, nodes: seq<Node>)
    reads nodes
  {
    IsSegment(head, nodes, null)
  }

  ghost predicate Disjoint(a: seq<Node>, b: seq<Node>) {
    forall x :: x in a ==> x !in b
  }

  /** The bytes that a chain stands for. */
  ghost function Text(nodes: seq<Node>): Bytes
    requires AllOk(nodes)
    reads nodes
  {
    if nodes == [] then [] else nodes[0].Text() + Text(nodes[1..])
  }

  lemma {:induction false} TextAppend(a: seq<Node>, b: seq<Node>)
    requires AllOk(a) && AllOk(b)
    ensures AllOk(a + b) && Text(a + b) == Text(a) + Text(b)
  {
    if a == [] {
      assert a + b == b;
    } else {
      assert (a + b)[1..] == a[1..] + b;
      TextAppend(a[1..], b);
    }
  }

  /** The rest of a chain is a chain. */
  lemma ChainTail(head: Node?, nodes: seq<Node>)
    requires IsChain(head, nodes) && nodes != []
    ensures IsChain(nodes[0].next, nodes[1..])
  {
    var rest := nodes[1..];
    assert LinkAt(nodes, null, 0);
    forall i | 0 <= i < |rest| ensures LinkAt(rest, null, i) { assert LinkAt(nodes, null, i + 1); }
  }

  /** Two segments over disjoint nodes, the first one's end linked to the second one's head. */
  lemma SegmentsLinked(head: Node?, a: seq<Node>, middle: Node?, b: seq<Node>)
    requires IsSegment(head, a, middle) && IsChain(middle, b) && Disjoint(a, b)
    ensures IsChain(head, a + b) && Text(a + b) == Text(a) + Text(b)
  {
    TextAppend(a, b);
    var c := a + b;
    forall i | 0 <= i < |c| ensures LinkAt(c, null, i) {
      if i < |a| { assert LinkAt(a, middle, i); } else { assert LinkAt(b, null, i - |a|); }
    }
    forall i, j | 0 <= i < j < |c| ensures c[i] != c[j] {
      if i < |a| <= j { assert c[i] in a && c[j] in b; }
    }
  }

  lemma PrefixGrows(data: Bytes, k: nat, n: nat)
    requires k + n <= |data|
    ensures data[..k] + data[k..k + n] == data[..k + n]
  {
  }

  /** mbuf_new() splits any data into nodes. */
  method New(data: Bytes) returns (head: Node, ghost nodes: seq<Node>)
    ensures IsChain(head, nodes) && nodes != [] && fresh(nodes) && Text(nodes) == data
  {
    var k := if |data| < MAX_LEN then |data| else MAX_LEN;
    head := Fill(data[..k]);
    var tail := head;
    nodes := [head];
    while k < |data|
      invariant k <= |data| && IsChain(head, nodes) && nodes != [] && tail == nodes[|nodes| - 1] && fresh(nodes)
      invariant Text(nodes) == data[..k]
    {
      var n := if |data| - k < MAX_LEN then |data| - k else MAX_LEN;
      var node := AddBehind(head, tail, data, k, n, nodes);
      nodes, tail, k := nodes + [node], node, k + n;
    }
    assert data == data[..k];
  }

  /** The next n bytes go into a new node behind the others. */
  method AddBehind(head: Node, tail: Node, data: Bytes, k: nat, n: nat, ghost nodes: seq<Node>) returns (node: Node)
    requires k + n <= |data| && n <= MAX_LEN && IsChain(head, nodes) && nodes != [] && tail == nodes[|nodes| - 1]
    requires Text(nodes) == data[..k]
    modifies tail`next
    ensures fresh(node) && IsChain(head, nodes + [node]) && Text(nodes + [node]) == data[..k + n]
  {
    node := Fill(data[k..k + n]);
    LinkBehind(head, tail, node, nodes);
    PrefixGrows(data, k, n);
  }

  /** The node becomes the last one of the chain. */
  method LinkBehind(head: Node, tail: Node, node: Node, ghost nodes: seq<Node>)
    requires IsChain(head, nodes) && tail == nodes[|nodes| - 1] && node !in nodes && node.Ok() && node.next == null
    modifies tail`next
    ensures IsChain(head, nodes + [node]) && Text(nodes + [node]) == old(Text(nodes)) + node.Text()
  {
    tail.next := node;
    TextSame(nodes);
    forall k | 0 <= k < |nodes| ensures LinkAt(nodes, node, k) { assert old(LinkAt(nodes, null, k)); }
    SegmentsLinked(head, nodes, node, [node]);
  }

  /** A chain none of whose nodes has been written to. */
  twostate lemma Untouched(nodes: seq<Node>)
    requires forall x :: x in nodes ==> unchanged(x)
    ensures nodes != [] && old(IsChain(nodes[0], nodes)) ==> IsChain(nodes[0], nodes) && Text(nodes) == old(Text(nodes))
  {
    if nodes != [] && old(IsChain(nodes[0], nodes)) {
      forall k | 0 <= k < |nodes|
        ensures LinkAt(nodes, null, k) && nodes[k].Ok() && nodes[k].Text() == old(nodes[k].Text()) {
        assert old(LinkAt(nodes, null, k)) && nodes[k] in nodes;
      }
      TextSame(nodes);
    }
  }

  /** A new node with the bytes copied into it. */
  method Fill(bytes: Bytes) returns (node: Node)
    requires |bytes| <= MAX_LEN
    ensures fresh(node) && node.Ok() && node.next == null && node.Text() == bytes && IsChain(node, [node])
            && Text([node]) == bytes
  {
    node := new Node();
    node.data := bytes + node.data[|bytes|..];
    node.offsetEnd := |bytes|;
    assert Text([node]) == node.Text() + Text([node][1..]);
  }

  /** mbuf_append(): chains without a common node are concatenated. */
  method Append(mbuf: Node, tail: Node?, ghost nodes: seq<Node>, ghost more: seq<Node>)
    requires IsChain(mbuf, nodes) && IsChain(tail, more) && Disjoint(nodes, more)
    modifies nodes
    ensures IsChain(mbuf, nodes + more) && Text(nodes + more) == old(Text(nodes)) + old(Text(more))
  {
    var m := mbuf;
    ghost var i := 0;
    while m.next != null
      invariant 0 <= i < |nodes| && m == nodes[i]
      decreases |nodes| - i
    {
      assert LinkAt(nodes, null, i);
      m, i := m.next, i + 1;
    }
    assert LinkAt(nodes, null, i);
    m.next := tail;
    TextSame(nodes);
    TextSame(more);
    forall k | 0 <= k < |nodes| ensures LinkAt(nodes, tail, k) { assert old(LinkAt(nodes, null, k)); }
    forall k | 0 <= k < |more|
      ensures LinkAt(more, null, k) && more[k].Ok() { assert old(LinkAt(more, null, k)) && more[k] in more; }
    SegmentsLinked(mbuf, nodes, tail, more);
  }

  /** A chain stands for the same bytes when only links change. */
  twostate lemma {:induction false} TextSame(nodes: seq<Node>)
    requires old(AllOk(nodes)) && AllOk(nodes) && forall i :: 0 <= i < |nodes| ==>
             nodes[i].Text() == old(nodes[i].Text())
    ensures Text(nodes) == old(Text(nodes))
  {
    if nodes != [] { TextSame(nodes[1..]); }
  }

  /** mbuf_prepend(): whatever the new head was linked to, it now leads to the chain. */
  method Prepend(mbuf: Node?, newHead: Node, ghost nodes: seq<Node>)
    requires IsChain(mbuf, nodes) && newHead.Ok() && newHead !in nodes
    modifies newHead`next
    ensures IsChain(newHead, [newHead] + nodes) && Text([newHead] + nodes) == old(newHead.Text()) + old(Text(nodes))
  {
    newHead.next := mbuf;
    TextSame(nodes);
    forall k | 0 <= k < |nodes|
      ensures LinkAt(nodes, null, k) { assert old(LinkAt(nodes, null, k)) && nodes[k] in nodes; }
    assert LinkAt([newHead], mbuf, 0);
    SegmentsLinked(newHead, [newHead], mbuf, nodes);
    assert Text([newHead]) == newHead.Text() + Text([newHead][1..]);
  }

  /** mbuf_len() */
  method Len(mbuf: Node?, ghost nodes: seq<Node>) returns (total: nat)
    requires IsChain(mbuf, nodes)
    ensures total == |Text(nodes)|
  {
    var m := mbuf;
    ghost var rest := nodes;
    total := 0;
    while m != null
      invariant IsChain(m, rest) && total + |Text(rest)| == |Text(nodes)|
      decreases |rest|
    {
      ChainTail(m, rest);
      total, m, rest := total + m.LenOne(), m.next, rest[1..];
    }
  }

  /** The first node of a chain gives up its first c bytes. */
  method Advance(m: Node, c: nat, ghost rest: seq<Node>) returns (bytes: Bytes)
    requires IsChain(m, rest) && c <= m.LenOne()
    modifies m`offset
    ensures IsChain(m, rest) && m.LenOne() == old(m.LenOne()) - c && c <= |old(Text(rest))|
    ensures Text(rest) == old(Text(rest))[c..] && bytes == old(Text(rest))[..c]
  {
    bytes := m.data[m.offset..m.offset + c];
    ChainTail(m, rest);
    m.offset := m.offset + c;
    forall k | 0 <= k < |rest| ensures LinkAt(rest, null, k) { assert old(LinkAt(rest, null, k)); }
    TextSame(rest[1..]);
    assert m.Text() == old(m.Text())[c..] && bytes == old(m.Text())[..c];
    assert Text(rest) == m.Text() + Text(rest[1..]) && old(Text(rest)) == old(m.Text()) + old(Text(rest[1..]));
  }

  /** An empty last node ends the text. */
  lemma TextEnds(m: Node, rest: seq<Node>)
    requires IsChain(m, rest) && m.LenOne() == 0 && m.next == null
    ensures Text(rest) == []
  {
    assert LinkAt(rest, null, 0);
    assert Text(rest) == m.Text() + Text(rest[1..]);
  }

  /** An empty first node adds nothing. */
  lemma SkipEmpty(m: Node, rest: seq<Node>)
    requires IsChain(m, rest) && m.LenOne() == 0 && m.next != null
    ensures |rest| > 1 && IsChain(m.next, rest[1..]) && Text(rest[1..]) == Text(rest)
  {
    assert LinkAt(rest, null, 0);
    ChainTail(m, rest);
  }

  lemma ReadDone(text: Bytes, buf: Bytes, rest: Bytes, bufLen: nat)
    requires buf + rest == text && |buf| <= bufLen && (|buf| == bufLen || rest == [])
    ensures buf == text[..Min(bufLen, |text|)] && rest == text[Min(bufLen, |text|)..]
  {
    assert |buf| == Min(bufLen, |text|);
  }

  lemma Shifted(buf: Bytes, text: Bytes, c: nat)
    requires c <= |text|
    ensures (buf + text[..c]) + text[c..] == buf + text
  {
  }

  /** The rest of a chain that has been read from: some of its last nodes. */
  ghost predicate SuffixOf(rest: seq<Node>, nodes: seq<Node>) {
    |rest| <= |nodes| && rest == nodes[|nodes| - |rest|..]
  }

  ghost predicate Within(a: seq<Node>, b: seq<Node>) {
    forall x :: x in a ==> x in b
  }

  lemma SuffixWithin(rest: seq<Node>, nodes: seq<Node>)
    requires SuffixOf(rest, nodes)
    ensures Within(rest, nodes)
  {
  }

  lemma WithinDisjoint(a: seq<Node>, b: seq<Node>, others: seq<Node>)
    requires Within(a, b) && Disjoint(b, others)
    ensures Disjoint(a, others)
  {
  }

  lemma SuffixTail(rest: seq<Node>, nodes: seq<Node>)
    requires SuffixOf(rest, nodes) && rest != []
    ensures SuffixOf(rest[1..], nodes)
  {
  }

  /** The next c bytes of a chain, which make up its text together with the ones before and behind them. */
  method TakePiece(m: Node, c: nat, ghost rest: seq<Node>, ghost before: Bytes) returns (bytes: Bytes)
    requires IsChain(m, rest) && c <= m.LenOne()
    modifies m`offset
    ensures IsChain(m, rest) && |bytes| == c && before + bytes + Text(rest) == before + old(Text(rest))
  {
    ghost var text := Text(rest);
    bytes := Advance(m, c, rest);
    Shifted(before, text, c);
  }

  lemma SuffixDisjoint(rest: seq<Node>, nodes: seq<Node>, others: seq<Node>)
    requires SuffixOf(rest, nodes)
    ensures Disjoint(nodes, others) ==> Disjoint(rest, others)
    ensures Disjoint(others, nodes) ==> Disjoint(others, rest)
  {
  }

  /** mbuf_read(): the next bytes of the chain, as many as there are up to bufLen. */
  method Read(mbuf: Node, bufLen: nat, ghost nodes: seq<Node>) returns (m: Node, buf: Bytes, ghost rest: seq<Node>)
    requires IsChain(mbuf, nodes)
    modifies nodes
    ensures IsChain(m, rest) && SuffixOf(rest, nodes)
    ensures buf == old(Text(nodes))[..Min(bufLen, |old(Text(nodes))|)]
            && Text(rest) == old(Text(nodes))[Min(bufLen, |old(Text(nodes))|)..]
  {
    m, buf, rest := mbuf, [], nodes;
    var readLen := 0;
    while true
      invariant IsChain(m, rest) && SuffixOf(rest, nodes) && readLen == |buf| <= bufLen
                && buf + Text(rest) == old(Text(nodes))
      decreases |rest|, bufLen - readLen
    {
      if m.LenOne() == 0 && m.next != null {
        SkipEmpty(m, rest);
        SuffixTail(rest, nodes);
        m, rest := m.next, rest[1..];
        continue;
      }
      var c := Min(bufLen - readLen, m.LenOne());
      if c == 0 {
        if m.LenOne() == 0 { TextEnds(m, rest); }
        break;
      }
      var bytes := TakePiece(m, c, rest, buf);
      buf, readLen := buf + bytes, readLen + c;
    }
    ReadDone(old(Text(nodes)), buf, Text(rest), bufLen);
  }

  /** mbuf_discard(): the next bytes go, as many as there are up to len. */
  method Discard(mbuf: Node, len: nat, ghost nodes: seq<Node>) returns (m: Node, done: nat, ghost rest: seq<Node>)
    requires IsChain(mbuf, nodes)
    modifies nodes
    ensures IsChain(m, rest) && SuffixOf(rest, nodes)
    ensures done == Min(len, |old(Text(nodes))|) && Text(rest) == old(Text(nodes))[done..]
  {
    m, rest := mbuf, nodes;
    var remaining := len;
    ghost var gone: Bytes := [];
    while true
      invariant IsChain(m, rest) && SuffixOf(rest, nodes) && remaining == len - |gone|
                && gone + Text(rest) == old(Text(nodes))
      decreases |rest|, remaining
    {
      if m.LenOne() == 0 && m.next != null {
        SkipEmpty(m, rest);
        SuffixTail(rest, nodes);
        m, rest := m.next, rest[1..];
        continue;
      }
      var c := Min(remaining, m.LenOne());
      if c == 0 {
        if m.LenOne() == 0 { TextEnds(m, rest); }
        break;
      }
      var bytes := TakePiece(m, c, rest, gone);
      gone, remaining := gone + bytes, remaining - c;
    }
    ReadDone(old(Text(nodes)), gone, Text(rest), len);
    done := len - remaining;
  }

  /** What New() splits, Read() joins again. */
  method SplitAndJoin(data: Bytes) returns (buf: Bytes)
    ensures buf == data
  {
    var head, nodes := New(data);
    var m;
    ghost var rest;
    m, buf, rest := Read(head, |data|, nodes);
    assert data[..|data|] == data;
  }
}
