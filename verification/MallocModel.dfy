/**
 The chunks of libs/resea/malloc.c as values: how they tile the heap, how the
 bins list the free ones, and which capacities a bin may hold.
 */
module MallocModel {
  import opened Common

  const NUM_BINS := 16
  const LAST := NUM_BINS - 1            // the bin that takes what fits no other
  const REDZONE := 16
  const HEADER := 48                    // sizeof(struct malloc_chunk)
  const FRAME := HEADER + REDZONE       // MALLOC_FRAME_LEN
  const UNDERFLOW_MARKER := 0x5a
  const OVERFLOW_MARKER := 0x5b

  datatype Magic = Vacant | InUse

  /** `struct malloc_chunk`; a null `next` is 0. */
  datatype Chunk = Chunk(next: nat, capacity: nat, size: nat, magic: Magic)

  type Chunks = map<nat, Chunk>

  // ---- powers of two ---------------------------------------------------------------

  function Pow2(i: nat): (p: nat)
    ensures p >= 1
  {
    if i == 0 then 1 else 2 * Pow2(i - 1)
  }

  lemma {:induction false} Pow2Grows(i: nat, j: nat)
    requires i < j
    ensures Pow2(i) < Pow2(j)
  {
    if i + 1 < j { Pow2Grows(i, j - 1); }
  }

  /** Small requests have a bin of their own: the first whose capacity is enough. */
  function BinOf(size: nat, i: nat): (b: nat)
    requires i < NUM_BINS
    ensures i <= b < NUM_BINS
    ensures b < NUM_BINS - 1 ==> size <= Pow2(b)
    ensures forall j :: i <= j < b ==> size > Pow2(j)
    decreases NUM_BINS - i, size
  {
    if i == NUM_BINS - 1 || size <= Pow2(i) then i else BinOf(size, i + 1)
  }

  function AlignUp16(n: nat): (r: nat)
    ensures n <= r < n + 16 && r % 16 == 0
  {
    (n + 15) / 16 * 16
  }

  /** The size that malloc() works with. */
  function Rounded(size: nat): (r: nat)
    ensures r >= size && r >= 16 && r % 16 == 0
  {
    AlignUp16(if size == 0 then 1 else size)
  }

  /** A capacity that free() puts back into the bin it was meant for. */
  predicate Regular(capacity: nat) {
    var b := BinOf(capacity, 0);
    b == NUM_BINS - 1 || capacity == Pow2(b)
  }

  lemma {:induction false} Pow2Aligned(i: nat)
    requires i >= 4
    ensures Pow2(i) % 16 == 0
  {
    if i == 4 {
      assert Pow2(4) == 2 * Pow2(3) && Pow2(3) == 2 * Pow2(2) && Pow2(2) == 2 * Pow2(1);
    } else {
      Pow2Aligned(i - 1);
    }
  }

  lemma BinAtLeast4(size: nat)
    requires size >= 16
    ensures BinOf(size, 0) >= 4
  {
    assert Pow2(3) == 8 && Pow2(2) == 4;
  }

  lemma BinOfPow2(b: nat)
    requires b < NUM_BINS - 1
    ensures BinOf(Pow2(b), 0) == b
  {
    var d := BinOf(Pow2(b), 0);
    if d < b { Pow2Grows(d, b); }
  }

  /** The capacity that malloc() gives a block it carves out for a rounded size. */
  function CarvedSize(size: nat): (n: nat)
    ensures n >= size
  {
    var b := BinOf(size, 0);
    if b == NUM_BINS - 1 then size else Pow2(b)
  }

  /** What is carved out is aligned, and free() will put it where the same request finds it again. */
  lemma CarvedRegular(size: nat)
    requires size >= 16 && size % 16 == 0
    ensures CarvedSize(size) % 16 == 0 && Regular(CarvedSize(size)) && BinOf(CarvedSize(size), 0) == BinOf(size, 0)
  {
    var b := BinOf(size, 0);
    if b < NUM_BINS - 1 {
      BinAtLeast4(size);
      Pow2Aligned(b);
      BinOfPow2(b);
    }
  }

  // ---- the tiling ---------------------------------------------------------------------

  function End(chunks: Chunks, a: nat): nat
    requires a in chunks
  {
    a + FRAME + chunks[a].capacity
  }

  /** The chunks follow each other without gaps from lo to hi, and there are no others. */
  ghost predicate Tiles(chunks: Chunks, layout: seq<nat>, lo: nat, hi: nat) {
    && layout != [] && layout[0] == lo
    && (forall i :: 0 <= i < |layout| ==> layout[i] in chunks)
    && (forall i, j :: 0 <= i < |layout| && j == i + 1 && j < |layout| ==> End(chunks, layout[i]) == layout[j])
    && End(chunks, layout[|layout| - 1]) == hi
    && (forall a {:trigger a in layout} :: a in chunks ==> a in layout)
  }

  lemma {:induction false} TilesOrdered(chunks: Chunks, layout: seq<nat>, lo: nat, hi: nat, i: nat, j: nat)
    requires Tiles(chunks, layout, lo, hi) && i < j < |layout|
    ensures End(chunks, layout[i]) <= layout[j]
    decreases j
  {
    if i + 1 < j {
      TilesOrdered(chunks, layout, lo, hi, i, j - 1);
      assert End(chunks, layout[j - 1]) == layout[j];
    }
  }

  /** No two chunks overlap, redzones included. */
  lemma ChunksDisjoint(chunks: Chunks, layout: seq<nat>, lo: nat, hi: nat, a: nat, b: nat)
    requires Tiles(chunks, layout, lo, hi) && a in chunks && b in chunks && a != b
    ensures End(chunks, a) <= b || End(chunks, b) <= a
  {
    assert a in layout && b in layout;
    var i :| 0 <= i < |layout| && layout[i] == a;
    var j :| 0 <= j < |layout| && layout[j] == b;
    if i < j { TilesOrdered(chunks, layout, lo, hi, i, j); } else { TilesOrdered(chunks, layout, lo, hi, j, i); }
  }

  lemma ChunkInside(chunks: Chunks, layout: seq<nat>, lo: nat, hi: nat, a: nat)
    requires Tiles(chunks, layout, lo, hi) && a in chunks
    ensures lo <= a && End(chunks, a) <= hi
  {
    assert a in layout;
    var i :| 0 <= i < |layout| && layout[i] == a;
    if i > 0 { TilesOrdered(chunks, layout, lo, hi, 0, i); }
    if i < |layout| - 1 { TilesOrdered(chunks, layout, lo, hi, i, |layout| - 1); }
  }

  /** The sum of the chunks' lengths. */
  function Covered(chunks: Chunks, layout: seq<nat>): nat
    requires forall i :: 0 <= i < |layout| ==> layout[i] in chunks
  {
    if layout == [] then 0 else FRAME + chunks[layout[0]].capacity + Covered(chunks, layout[1..])
  }

  /** Capacities and frames add up to the heap. */
  lemma {:induction false} TilesCover(chunks: Chunks, layout: seq<nat>, lo: nat, hi: nat, k: nat)
    requires Tiles(chunks, layout, lo, hi) && k < |layout|
    ensures Covered(chunks, layout[k..]) == hi - layout[k]
    decreases |layout| - k
  {
    if k + 1 < |layout| {
      TilesCover(chunks, layout, lo, hi, k + 1);
      assert layout[k..][1..] == layout[k + 1..] && End(chunks, layout[k]) == layout[k + 1];
    } else {
      assert layout[k..] == [layout[k]];
    }
  }

  /** No chunk starts inside another one. */
  lemma NoChunkInside(chunks: Chunks, layout: seq<nat>, lo: nat, hi: nat, a: nat, n: nat)
    requires Tiles(chunks, layout, lo, hi) && a in chunks && a < n < End(chunks, a)
    ensures n !in chunks
  {
    if n in chunks { ChunksDisjoint(chunks, layout, lo, hi, a, n); }
  }

  function Insert(layout: seq<nat>, i: nat, n: nat): (r: seq<nat>)
    requires i < |layout|
    ensures |r| == |layout| + 1
    ensures forall k :: 0 <= k < |r| ==> r[k] == if k <= i then layout[k] else if k == i + 1 then n else layout[k - 1]
  {
    layout[..i + 1] + [n] + layout[i + 1..]
  }

  /** The j-th chunk ends where the next one starts, or at hi. */
  ghost predicate EndsAt(chunks: Chunks, layout: seq<nat>, hi: nat, j: nat)
    requires j < |layout|
  {
    layout[j] in chunks && End(chunks, layout[j]) == if j == |layout| - 1 then hi else layout[j + 1]
  }

  lemma TilesFromEnds(chunks: Chunks, layout: seq<nat>, lo: nat, hi: nat)
    requires layout != [] && layout[0] == lo && forall a :: a in chunks ==> a in layout
    requires forall j {:trigger EndsAt(chunks, layout, hi, j)} :: 0 <= j < |layout| ==> EndsAt(chunks, layout, hi, j)
    ensures Tiles(chunks, layout, lo, hi)
  {
    forall j | 0 <= j < |layout| ensures layout[j] in chunks { assert EndsAt(chunks, layout, hi, j); }
    forall i, j | 0 <= i < |layout| && j == i + 1 && j < |layout|
      ensures End(chunks, layout[i]) == layout[j] { assert EndsAt(chunks, layout, hi, i); }
    assert EndsAt(chunks, layout, hi, |layout| - 1);
  }

  lemma InsertElements(layout: seq<nat>, i: nat, n: nat, x: nat)
    requires i < |layout| && (x == n || x in layout)
    ensures x in Insert(layout, i, n)
  {
    var k := if x == n then i + 1 else var j :| 0 <= j < |layout| && layout[j] == x; if j <= i then j else j + 1;
    assert Insert(layout, i, n)[k] == x;
  }

  /** The chunk at layout[i] gives up its tail to a new chunk of capacity len. */
  lemma SplitTiles(chunks: Chunks, layout: seq<nat>, lo: nat, hi: nat, i: nat, len: nat, chunk: Chunk, tail: Chunk)
    requires Tiles(chunks, layout, lo, hi) && i < |layout| && chunks[layout[i]].capacity > FRAME + len
    requires chunk.capacity == chunks[layout[i]].capacity - FRAME - len && tail.capacity == len
    ensures var a := layout[i]; var n := a + FRAME + chunk.capacity;
            && n !in chunks && Tiles(chunks[a := chunk][n := tail], Insert(layout, i, n), lo, hi)
  {
    var a := layout[i];
    var n := a + FRAME + chunk.capacity;
    NoChunkInside(chunks, layout, lo, hi, a, n);
    var chunks', layout' := chunks[a := chunk][n := tail], Insert(layout, i, n);
    forall x | x in chunks' ensures x in layout' {
      assert x == n || x in layout;
      InsertElements(layout, i, n, x);
    }
    forall j | 0 <= j < |layout'| ensures EndsAt(chunks', layout', hi, j) {
      SplitEnds(chunks, layout, lo, hi, i, len, chunk, tail, j);
    }
    TilesFromEnds(chunks', layout', lo, hi);
  }

  lemma SplitEnds(chunks: Chunks, layout: seq<nat>, lo: nat, hi: nat, i: nat, len: nat, chunk: Chunk, tail: Chunk,
          j: nat)
    requires Tiles(chunks, layout, lo, hi) && i < |layout| && chunks[layout[i]].capacity > FRAME + len && j <= |layout|
    requires chunk.capacity == chunks[layout[i]].capacity - FRAME - len && tail.capacity == len
    requires layout[i] + FRAME + chunk.capacity !in chunks
    ensures var a := layout[i]; var n := a + FRAME + chunk.capacity;
            var chunks', layout' := chunks[a := chunk][n := tail], Insert(layout, i, n);
            EndsAt(chunks', layout', hi, j)
  {
    LayoutDistinct(chunks, layout, lo, hi);
    if j < i {
      assert End(chunks, layout[j]) == layout[j + 1];
    } else if j == i + 1 {
      assert i + 1 < |layout| ==> End(chunks, layout[i]) == layout[i + 1];
    } else if j > i + 1 {
      assert j < |layout| ==> End(chunks, layout[j - 1]) == layout[j];
    }
  }

  lemma LayoutDistinct(chunks: Chunks, layout: seq<nat>, lo: nat, hi: nat)
    requires Tiles(chunks, layout, lo, hi)
    ensures forall i, j :: 0 <= i < j < |layout| ==> layout[i] != layout[j]
  {
    forall i, j | 0 <= i < j < |layout| ensures layout[i] != layout[j] { TilesOrdered(chunks, layout, lo, hi, i, j); }
  }

  /** Updating headers without touching capacities keeps the tiling. */
  lemma SameCapacitiesTile(chunks: Chunks, chunks': Chunks, layout: seq<nat>, lo: nat, hi: nat)
    requires Tiles(chunks, layout, lo, hi) && chunks'.Keys == chunks.Keys
    requires forall a :: a in chunks ==> chunks'[a].capacity == chunks[a].capacity
    ensures Tiles(chunks', layout, lo, hi)
  {
  }

  // ---- the bins -----------------------------------------------------------------------

  /** `head` starts a null-terminated list through the `next` fields. */
  ghost predicate IsList(chunks: Chunks, head: nat, list: seq<nat>) {
    && head == (if list == [] then 0 else list[0])
    && (forall i :: 0 <= i < |list| ==> list[i] in chunks && list[i] != 0)
    && (forall i, j :: 0 <= i < |list| && j == i + 1 && j < |list| ==> chunks[list[i]].next == list[j])
    && (list != [] ==> chunks[list[|list| - 1]].next == 0)
    && NoDup(list)
  }

  /** Every free chunk is in exactly one bin, every other chunk in none. */
  ghost predicate BinsOk(chunks: Chunks, bins: seq<nat>, lists: seq<seq<nat>>, bin: map<nat, nat>) {
    && |bins| == |lists| == NUM_BINS && 0 !in chunks
    && (forall b {:trigger IsList(chunks, bins[b], lists[b])} :: 0 <= b < NUM_BINS ==>
       IsList(chunks, bins[b], lists[b]))
    && (forall b, a {:trigger a in lists[b]} :: 0 <= b < NUM_BINS ==> (a in lists[b] <==> a in bin && bin[a] == b))
    && (forall a :: a in bin ==> bin[a] < NUM_BINS)
    && (forall a {:trigger a in bin} :: a in chunks ==> (chunks[a].magic.Vacant? <==> a in bin))
    && (forall a :: a in bin ==> a in chunks)
    && (forall a :: a in chunks && chunks[a].magic.InUse? ==> chunks[a].next == 0)
  }

  /** A list none of whose members changes its link. */
  lemma ListStays(chunks: Chunks, chunks': Chunks, head: nat, list: seq<nat>)
    requires IsList(chunks, head, list)
    requires forall a :: a in list && a in chunks ==> a in chunks' && chunks'[a].next == chunks[a].next
    ensures IsList(chunks', head, list)
  {
    forall i | 0 <= i < |list|
      ensures list[i] in chunks' && chunks'[list[i]].next == chunks[list[i]].next { assert list[i] in list; }
  }

  /** The head of a list leaves it. */
  lemma ListPop(chunks: Chunks, chunks': Chunks, head: nat, list: seq<nat>)
    requires IsList(chunks, head, list) && list != []
    requires forall a :: a in chunks && a != head ==> a in chunks' && chunks'[a].next == chunks[a].next
    ensures IsList(chunks', chunks[head].next, list[1..])
    ensures forall a :: a in list <==> a == head || a in list[1..]
    ensures head !in list[1..]
  {
    var rest := list[1..];
    assert list == [head] + rest;
    forall i | 0 <= i < |rest| ensures rest[i] in chunks && rest[i] != head { assert rest[i] == list[i + 1]; }
    forall i, j | 0 <= i < |rest| && j == i + 1 && j < |rest| ensures chunks'[rest[i]].next == rest[j] {
      assert chunks[list[i + 1]].next == list[j + 1];
    }
    if rest != [] { assert chunks[list[0]].next == list[1]; }
  }

  /** A chunk comes in front of a list. */
  lemma ListPush(chunks: Chunks, chunks': Chunks, head: nat, list: seq<nat>, a: nat)
    requires IsList(chunks, head, list) && a !in list && a in chunks' && a != 0 && chunks'[a].next == head
    requires forall x :: x in chunks && x != a ==> x in chunks' && chunks'[x].next == chunks[x].next
    ensures IsList(chunks', a, [a] + list)
  {
    var l := [a] + list;
    forall i | 0 <= i < |list| ensures list[i] != a && l[i + 1] == list[i] { assert list[i] in list; }
    forall i, j | 0 <= i < |l| && j == i + 1 && j < |l| ensures chunks'[l[i]].next == l[j] {
      if i > 0 { assert chunks[list[i - 1]].next == list[i]; }
    }
    if list != [] { assert l[|l| - 1] == list[|list| - 1]; }
  }

  function RemoveAt(list: seq<nat>, k: nat): (r: seq<nat>)
    requires k < |list|
    ensures |r| == |list| - 1
    ensures forall i :: 0 <= i < |r| ==> r[i] == list[if i < k then i else i + 1]
  {
    list[..k] + list[k + 1..]
  }

  lemma RemoveAtElements(list: seq<nat>, k: nat)
    requires k < |list| && NoDup(list)
    ensures NoDup(RemoveAt(list, k)) && forall a :: a in RemoveAt(list, k) <==> a in list && a != list[k]
  {
    assert list == list[..k] + [list[k]] + list[k + 1..];
  }

  lemma UnlinkStep(chunks: Chunks, chunks': Chunks, head: nat, list: seq<nat>, k: nat, i: nat)
    requires IsList(chunks, head, list) && 0 < k < |list| && i < |list| - 1
    requires list[k - 1] in chunks' && chunks'[list[k - 1]].next == chunks[list[k]].next
    requires forall a :: a in chunks && a != list[k - 1] && a != list[k] ==>
             a in chunks' && chunks'[a].next == chunks[a].next
    ensures var l := RemoveAt(list, k); l[i] in chunks' && chunks'[l[i]].next == if i + 1 < |l| then l[i + 1] else 0
  {
    if i < k - 1 {
      assert chunks[list[i]].next == list[i + 1];
    } else if i == k - 1 {
      assert k + 1 < |list| ==> chunks[list[k]].next == list[k + 1];
    } else {
      assert i + 2 < |list| ==> chunks[list[i + 1]].next == list[i + 2];
    }
  }

  /** The k-th element leaves the list, k > 0: the element before it links past it. */
  lemma ListUnlink(chunks: Chunks, chunks': Chunks, head: nat, list: seq<nat>, k: nat)
    requires IsList(chunks, head, list) && 0 < k < |list|
    requires list[k - 1] in chunks' && chunks'[list[k - 1]].next == chunks[list[k]].next
    requires forall a :: a in chunks && a != list[k - 1] && a != list[k] ==>
             a in chunks' && chunks'[a].next == chunks[a].next
    ensures IsList(chunks', head, RemoveAt(list, k))
  {
    var l := RemoveAt(list, k);
    RemoveAtElements(list, k);
    forall i | 0 <= i < |l|
      ensures l[i] in chunks' && l[i] != 0 && chunks'[l[i]].next == if i + 1 < |l| then l[i + 1] else 0 {
      UnlinkStep(chunks, chunks', head, list, k, i);
    }
  }

  // ---- what the operations do to the bins --------------------------------------------------

  /** A chunk that is handed out. */
  function Granted(c: Chunk, size: nat): Chunk {
    Chunk(0, c.capacity, size, InUse)
  }

  lemma OtherListsStay(chunks: Chunks, chunks': Chunks, bins: seq<nat>, lists: seq<seq<nat>>, bin: map<nat, nat>,
          b: nat, d: nat)
    requires BinsOk(chunks, bins, lists, bin) && b < NUM_BINS && d < NUM_BINS && d != b
    requires forall x :: x in chunks && x in bin && bin[x] != b ==> x in chunks' && chunks'[x].next == chunks[x].next
    ensures IsList(chunks', bins[d], lists[d])
  {
    ListStays(chunks, chunks', bins[d], lists[d]);
  }

  /** malloc() takes the first chunk of a bin. */
  lemma TakeHead(chunks: Chunks, bins: seq<nat>, lists: seq<seq<nat>>, bin: map<nat, nat>, b: nat, size: nat)
    requires BinsOk(chunks, bins, lists, bin) && b < NUM_BINS && bins[b] != 0
    ensures var a := bins[b];
            && a in chunks && chunks[a].magic.Vacant? && lists[b] != [] && lists[b][0] == a
            && BinsOk(chunks[a := Granted(chunks[a], size)], bins[b := chunks[a].next], lists[b := lists[b][1..]],
               bin - {a})
  {
    var a := bins[b];
    assert IsList(chunks, bins[b], lists[b]) && lists[b][0] in lists[b];
    var chunks' := chunks[a := Granted(chunks[a], size)];
    ListPop(chunks, chunks', a, lists[b]);
    forall d | 0 <= d < NUM_BINS && d != b ensures IsList(chunks', bins[d], lists[d]) {
      OtherListsStay(chunks, chunks', bins, lists, bin, b, d);
    }
  }

  /** malloc() takes a later chunk of the last bin. */
  lemma TakeLater(chunks: Chunks, bins: seq<nat>, lists: seq<seq<nat>>, bin: map<nat, nat>, b: nat, k: nat, size: nat)
    requires BinsOk(chunks, bins, lists, bin) && b < NUM_BINS && 0 < k < |lists[b]|
    ensures var l := lists[b]; var prev, a := l[k - 1], l[k];
            && prev in chunks && a in chunks && prev != a && chunks[a].magic.Vacant?
            && BinsOk(chunks[prev := chunks[prev].(next := chunks[a].next)][a := Granted(chunks[a], size)],
                      bins, lists[b := RemoveAt(l, k)], bin - {a})
  {
    var l := lists[b];
    var prev, a := l[k - 1], l[k];
    assert IsList(chunks, bins[b], l) && prev in l && a in l;
    var chunks' := chunks[prev := chunks[prev].(next := chunks[a].next)][a := Granted(chunks[a], size)];
    ListUnlink(chunks, chunks', bins[b], l, k);
    RemoveAtElements(l, k);
    forall d | 0 <= d < NUM_BINS && d != b ensures IsList(chunks', bins[d], lists[d]) {
      OtherListsStay(chunks, chunks', bins, lists, bin, b, d);
    }
  }

  /** free() puts a chunk in front of a bin. */
  lemma PutHead(chunks: Chunks, bins: seq<nat>, lists: seq<seq<nat>>, bin: map<nat, nat>, b: nat, a: nat)
    requires BinsOk(chunks, bins, lists, bin) && b < NUM_BINS && a in chunks && chunks[a].magic.InUse?
    ensures BinsOk(chunks[a := chunks[a].(magic := Vacant, next := bins[b])], bins[b := a], lists[b := [a] + lists[b]],
            bin[a := b])
  {
    var chunks' := chunks[a := chunks[a].(magic := Vacant, next := bins[b])];
    assert a !in lists[b];
    ListPush(chunks, chunks', bins[b], lists[b], a);
    forall d | 0 <= d < NUM_BINS && d != b ensures IsList(chunks', bins[d], lists[d]) {
      OtherListsStay(chunks, chunks', bins, lists, bin, b, d);
    }
  }

  /** A split leaves the lists alone: the rest stays where it is, and the new chunk is in use at once. */
  lemma SplitBins(chunks: Chunks, bins: seq<nat>, lists: seq<seq<nat>>, bin: map<nat, nat>, a: nat, capacity: nat,
          n: nat, tail: Chunk)
    requires BinsOk(chunks, bins, lists, bin) && a in chunks && n !in chunks && n != 0 && tail.magic.InUse?
             && tail.next == 0
    ensures BinsOk(chunks[a := chunks[a].(capacity := capacity)][n := tail], bins, lists, bin)
  {
    var chunks' := chunks[a := chunks[a].(capacity := capacity)][n := tail];
    forall d | 0 <= d < NUM_BINS ensures IsList(chunks', bins[d], lists[d]) {
      assert IsList(chunks, bins[d], lists[d]);
      ListStays(chunks, chunks', bins[d], lists[d]);
    }
  }

  /** Where malloc()'s scan of the last bin stops: the first chunk that is large enough, or the end of the list. */
  ghost function FirstFit(chunks: Chunks, list: seq<nat>, n: nat, i: nat): (k: nat)
    requires i <= |list| && forall j :: 0 <= j < |list| ==> list[j] in chunks
    ensures i <= k <= |list|
    ensures k < |list| ==> chunks[list[k]].capacity >= n
    ensures forall j :: i <= j < k ==> chunks[list[j]].capacity < n
    decreases |list| - i
  {
    if i == |list| || chunks[list[i]].capacity >= n then i else FirstFit(chunks, list, n, i + 1)
  }

  // ---- the whole heap -----------------------------------------------------------------------

  ghost predicate AlignedAt(chunks: Chunks, a: nat)
    requires a in chunks
  {
    a % 16 == 0 && chunks[a].capacity % 16 == 0 && chunks[a].capacity > 0
  }

  ghost predicate Aligned(chunks: Chunks) {
    forall a {:trigger AlignedAt(chunks, a)} :: a in chunks ==> AlignedAt(chunks, a)
  }

  lemma AlignedStays(chunks: Chunks, chunks': Chunks)
    requires Aligned(chunks) && chunks'.Keys == chunks.Keys
    requires forall a :: a in chunks ==> chunks'[a].capacity == chunks[a].capacity
    ensures Aligned(chunks')
  {
    forall a | a in chunks' ensures AlignedAt(chunks', a) { assert AlignedAt(chunks, a); }
  }

  lemma TailAligned(c: nat, capacity: nat, len: nat)
    requires c % 16 == 0 && capacity % 16 == 0 && len % 16 == 0
    ensures (capacity - FRAME - len) % 16 == 0 && (c + FRAME + (capacity - FRAME - len)) % 16 == 0
  {
  }

  lemma SplitAligned(chunks: Chunks, c: nat, len: nat, size: nat)
    requires Aligned(chunks) && c in chunks && chunks[c].capacity > FRAME + len && len % 16 == 0 && len > 0
    ensures var rest := chunks[c].(capacity := chunks[c].capacity - FRAME - len);
            Aligned(chunks[c := rest][c + FRAME + rest.capacity := Chunk(0, len, size, InUse)])
  {
    var rest := chunks[c].(capacity := chunks[c].capacity - FRAME - len);
    var chunks' := chunks[c := rest][c + FRAME + rest.capacity := Chunk(0, len, size, InUse)];
    assert AlignedAt(chunks, c);
    TailAligned(c, chunks[c].capacity, len);
    forall a | a in chunks' ensures AlignedAt(chunks', a) {
      if a in chunks { assert AlignedAt(chunks, a); }
    }
  }

  ghost predicate HeapOk(lo: nat, hi: nat, chunks: Chunks, layout: seq<nat>, bins: seq<nat>, lists: seq<seq<nat>>,
          bin: map<nat, nat>) {
    0 < lo && lo % 16 == 0 && Tiles(chunks, layout, lo, hi) && BinsOk(chunks, bins, lists, bin) && Aligned(chunks)
  }

  /** One free chunk in the last bin. */
  lemma WholeHeap(lo: nat, hi: nat, chunks: Chunks, bins: seq<nat>, lists: seq<seq<nat>>)
    requires 0 < lo && lo % 16 == 0 && hi % 16 == 0 && hi - lo > FRAME
    requires chunks == map[lo := Chunk(0, hi - lo - FRAME, 0, Vacant)]
    requires |bins| == |lists| == NUM_BINS && bins[LAST] == lo && lists[LAST] == [lo]
    requires forall b :: 0 <= b < LAST ==> bins[b] == 0 && lists[b] == []
    ensures HeapOk(lo, hi, chunks, [lo], bins, lists, map[lo := LAST])
  {
    assert AlignedAt(chunks, lo);
  }

  /** The chunk at a was not in use before; all other chunks in use are as they were, and no chunk is gone. */
  ghost predicate HandedOut(before: Chunks, after: Chunks, a: nat, size: nat) {
    && a in after && after[a].magic.InUse? && after[a].size == size
    && (a in before ==> before[a].magic.Vacant?)
    && (forall x :: x in before ==> x in after && (before[x].magic.InUse? ==> after[x] == before[x]))
    && (forall x :: x in after && x != a && after[x].magic.InUse? ==> x in before && before[x] == after[x])
  }

  /** Every block holds what its owner has asked for. */
  ghost predicate AllHeld(chunks: Chunks, asked: map<nat, nat>) {
    forall a :: a in chunks && chunks[a].magic.InUse? && a + HEADER in asked ==> asked[a + HEADER] <= chunks[a].capacity
  }

  lemma HeldAfter(before: Chunks, after: Chunks, asked: map<nat, nat>, a: nat, n: nat, size: nat)
    requires AllHeld(before, asked) && HandedOut(before, after, a, n) && size <= after[a].capacity
    ensures AllHeld(after, asked[a + HEADER := size])
  {
  }

  /** Chunks outside the last bin have the capacity that their bin stands for, and blocks hold what was asked for. */
  ghost predicate IsTame(chunks: Chunks, bin: map<nat, nat>) {
    && (forall a :: a in bin && a in chunks && bin[a] < NUM_BINS - 1 ==> chunks[a].capacity == Pow2(bin[a]))
    && (forall a :: a in chunks && chunks[a].magic.InUse? ==>
       Regular(chunks[a].capacity) && chunks[a].size <= chunks[a].capacity)
  }

  /** Handing out a chunk keeps the heap tame exactly when that chunk fits a bin and the request. */
  lemma TameAfter(before: Chunks, after: Chunks, bin: map<nat, nat>, bin': map<nat, nat>, a: nat, size: nat)
    requires IsTame(before, bin) && HandedOut(before, after, a, size)
    requires forall x :: x in bin' && x in after && bin'[x] < NUM_BINS - 1 ==>
             x in bin && bin[x] == bin'[x] && x in before && after[x].capacity == before[x].capacity
    ensures IsTame(after, bin') <==> Regular(after[a].capacity) && size <= after[a].capacity
  {
  }

  /** A chunk that returns to the bin of its capacity. */
  lemma TamePut(chunks: Chunks, bin: map<nat, nat>, a: nat, next: nat)
    requires IsTame(chunks, bin) && a in chunks && chunks[a].magic.InUse?
    ensures IsTame(chunks[a := chunks[a].(magic := Vacant, next := next)], bin[a := BinOf(chunks[a].capacity, 0)])
  {
    assert Regular(chunks[a].capacity);
  }

  /** A chunk whose capacity is not the one its bin stands for is in use, or in such a bin. */
  ghost predicate Marked(chunks: Chunks, bin: map<nat, nat>, a: nat) {
    a in chunks && !Regular(chunks[a].capacity) && (chunks[a].magic.InUse? || (a in bin && bin[a] < LAST))
  }

  ghost predicate IsMarred(chunks: Chunks, bin: map<nat, nat>) {
    exists a :: Marked(chunks, bin, a)
  }

  lemma MarredNotTame(chunks: Chunks, bin: map<nat, nat>)
    requires IsMarred(chunks, bin)
    ensures !IsTame(chunks, bin)
  {
    var a :| Marked(chunks, bin, a);
    if a in bin && bin[a] < LAST { BinOfPow2(bin[a]); }
  }

  /** Handing out a chunk leaves the marked ones where they are, or takes one of them whole. */
  lemma MarredAfter(before: Chunks, after: Chunks, bin: map<nat, nat>, bin': map<nat, nat>, a: nat, size: nat)
    requires IsMarred(before, bin) && HandedOut(before, after, a, size)
    requires forall x :: x in before && x in bin && bin[x] < LAST ==>
             x in after && after[x].capacity == before[x].capacity && (x == a || (x in bin' && bin'[x] == bin[x]))
    ensures IsMarred(after, bin')
  {
    var x :| Marked(before, bin, x);
    assert Marked(after, bin', x);
  }

  /** free() puts a marked chunk into a small bin. */
  lemma MarredPut(chunks: Chunks, bin: map<nat, nat>, a: nat, next: nat)
    requires IsMarred(chunks, bin) && a in chunks
    ensures IsMarred(chunks[a := chunks[a].(magic := Vacant, next := next)], bin[a := BinOf(chunks[a].capacity, 0)])
  {
    var x :| Marked(chunks, bin, x);
    assert Marked(chunks[a := chunks[a].(magic := Vacant, next := next)], bin[a := BinOf(chunks[a].capacity, 0)], x);
  }

  lemma TakeHeadHeap(lo: nat, hi: nat, chunks: Chunks, layout: seq<nat>, bins: seq<nat>, lists: seq<seq<nat>>,
          bin: map<nat, nat>, b: nat, size: nat)
    requires HeapOk(lo, hi, chunks, layout, bins, lists, bin) && b < NUM_BINS && bins[b] != 0
    ensures var a := bins[b];
            && a in chunks && lists[b] != []
            && var chunks' := chunks[a := Granted(chunks[a], size)];
            && HeapOk(lo, hi, chunks', layout, bins[b := chunks[a].next], lists[b := lists[b][1..]], bin - {a})
            && HandedOut(chunks, chunks', a, size)
            && (IsMarred(chunks, bin) ==> IsMarred(chunks', bin - {a}))
  {
    TakeHead(chunks, bins, lists, bin, b, size);
    var chunks' := chunks[bins[b] := Granted(chunks[bins[b]], size)];
    if IsMarred(chunks, bin) { MarredAfter(chunks, chunks', bin, bin - {bins[b]}, bins[b], size); }
    SameCapacitiesTile(chunks, chunks', layout, lo, hi);
    AlignedStays(chunks, chunks');
  }

  lemma TakeLaterHeap(lo: nat, hi: nat, chunks: Chunks, layout: seq<nat>, bins: seq<nat>, lists: seq<seq<nat>>,
          bin: map<nat, nat>, b: nat, k: nat, size: nat)
    requires HeapOk(lo, hi, chunks, layout, bins, lists, bin) && b < NUM_BINS && 0 < k < |lists[b]|
    ensures var l := lists[b]; var prev, a := l[k - 1], l[k];
            && prev in chunks && a in chunks && prev != a
            && var chunks' := chunks[prev := chunks[prev].(next := chunks[a].next)][a := Granted(chunks[a], size)];
            && HeapOk(lo, hi, chunks', layout, bins, lists[b := RemoveAt(l, k)], bin - {a})
            && HandedOut(chunks, chunks', a, size)
            && (IsMarred(chunks, bin) ==> IsMarred(chunks', bin - {a}))
  {
    var l := lists[b];
    var prev, a := l[k - 1], l[k];
    assert prev in l && a in l;
    TakeLater(chunks, bins, lists, bin, b, k, size);
    var chunks' := chunks[prev := chunks[prev].(next := chunks[a].next)][a := Granted(chunks[a], size)];
    if IsMarred(chunks, bin) { MarredAfter(chunks, chunks', bin, bin - {a}, a, size); }
    SameCapacitiesTile(chunks, chunks', layout, lo, hi);
    AlignedStays(chunks, chunks');
  }

  lemma SplitHeap(lo: nat, hi: nat, chunks: Chunks, layout: seq<nat>, bins: seq<nat>, lists: seq<seq<nat>>,
          bin: map<nat, nat>, i: nat, c: nat, rest: Chunk, a: nat, tail: Chunk)
    requires HeapOk(lo, hi, chunks, layout, bins, lists, bin) && i < |layout| && layout[i] == c
             && chunks[c].magic.Vacant?
    requires tail.magic.InUse? && tail.next == 0 && tail.capacity % 16 == 0 && tail.capacity > 0
    requires chunks[c].capacity > FRAME + tail.capacity
             && rest == chunks[c].(capacity := chunks[c].capacity - FRAME - tail.capacity)
    requires a == c + FRAME + rest.capacity
    ensures a !in chunks && HeapOk(lo, hi, chunks[c := rest][a := tail], Insert(layout, i, a), bins, lists, bin)
    ensures HandedOut(chunks, chunks[c := rest][a := tail], a, tail.size)
  {
    SplitTiles(chunks, layout, lo, hi, i, tail.capacity, rest, tail);
    SplitBins(chunks, bins, lists, bin, c, rest.capacity, a, tail);
    SplitAligned(chunks, c, tail.capacity, tail.size);
  }

  lemma PutHeap(lo: nat, hi: nat, chunks: Chunks, layout: seq<nat>, bins: seq<nat>, lists: seq<seq<nat>>,
          bin: map<nat, nat>, b: nat, a: nat)
    requires HeapOk(lo, hi, chunks, layout, bins, lists, bin) && b < NUM_BINS && a in chunks && chunks[a].magic.InUse?
    ensures HeapOk(lo, hi, chunks[a := chunks[a].(magic := Vacant, next := bins[b])], layout, bins[b := a],
            lists[b := [a] + lists[b]], bin[a := b])
  {
    PutHead(chunks, bins, lists, bin, b, a);
    var chunks' := chunks[a := chunks[a].(magic := Vacant, next := bins[b])];
    SameCapacitiesTile(chunks, chunks', layout, lo, hi);
    AlignedStays(chunks, chunks');
  }

  // ---- the heap as a value --------------------------------------------------------------------

  /** The n bytes from `from` on are all v. */
  ghost predicate Filled(bytes: seq<int>, from: int, n: nat, v: int) {
    0 <= from && from + n <= |bytes| && forall i :: from <= i < from + n ==> bytes[i] == v
  }

  /** Both redzones of the chunk at offset o of the heap are intact. */
  ghost predicate Guarded(bytes: seq<int>, o: int, capacity: nat) {
    Filled(bytes, o + HEADER - REDZONE, REDZONE, UNDERFLOW_MARKER)
      && Filled(bytes, o + HEADER + capacity, REDZONE, OVERFLOW_MARKER)
  }

  /** Only the redzones of the chunk at offset o may differ. */
  ghost predicate SameOutside(before: seq<int>, after: seq<int>, o: int, capacity: nat) {
    && |after| == |before|
    && forall i ::
         && 0 <= i < |before|
         && !(o + HEADER - REDZONE <= i < o + HEADER) && !(o + HEADER + capacity <= i < o + FRAME + capacity)
         ==> after[i] == before[i]
  }

  /** Every block in use lies between intact redzones. */
  ghost predicate AllGuarded(lo: nat, hi: nat, chunks: Chunks, bytes: seq<int>) {
    forall a :: a in chunks && chunks[a].magic.InUse? ==> Guarded(bytes, a - lo, chunks[a].capacity)
  }

  /** The n bytes at the end of the chunk at c become a chunk in use. */
  function SplitAt(chunks: Chunks, c: nat, n: nat, size: nat): Chunks
    requires c in chunks && chunks[c].capacity > FRAME + n
  {
    var whole := chunks[c];
    chunks[c := whole.(capacity := whole.capacity - FRAME - n)][c + whole.capacity - n := Chunk(0, n, size, InUse)]
  }

  predicate Aligned16(p: nat) {
    p % 16 == 0
  }

  /** A pointer that malloc() has returned and free() has not taken back. */
  predicate IsLive(chunks: Chunks, p: nat) {
    p >= HEADER && p - HEADER in chunks && chunks[p - HEADER].magic.InUse?
  }

  /** The pointer comes from malloc(), or is null. */
  predicate IsKnown(chunks: Chunks, p: nat) {
    p == 0 || (p >= HEADER && p - HEADER in chunks)
  }

  /** Of the first k bytes of a block, the ones from n on lie on the ground of the new block by chance. */
  ghost predicate SameGround(lo: nat, block: seq<int>, ground: seq<int>, q: nat, n: nat, k: nat) {
    n <= k <= |block| && lo <= q && q - lo + k <= |ground| && ground[q - lo + n..q - lo + k] == block[n..k]
  }

  /** A call of malloc(), free() or realloc(), or a write of a byte to a block. */
  datatype Request =
    | Allocate(size: nat)
    | Release(p: nat)
    | Reallocate(p: nat, size: nat)
    | Write(p: nat, i: nat, v: int)

  /**
   How it ends: the program goes on, the allocator stops it, a copy or write leaves a block although its owner
   has asked for that many bytes, or the program uses a pointer or an index it has not got.
   */
  datatype Outcome = Returned | Panicked | Overran | Strayed

  /** The heap at one moment: its headers, bins and bytes, and what the proof knows about them. */
  datatype HeapValue = HeapValue(
    lo: nat, hi: nat, chunks: Chunks, bins: seq<nat>, bytes: seq<int>,
    layout: seq<nat>, lists: seq<seq<nat>>, bin: map<nat, nat>)
  {
    ghost predicate Ok() {
      HeapOk(lo, hi, chunks, layout, bins, lists, bin) && |bytes| == hi - lo
    }

    /** malloc() finds a free chunk in the bin of the size, so it takes that one without looking at its capacity. */
    ghost predicate HasOwnBin(size: nat)
      requires |bins| == NUM_BINS
    {
      var b := BinOf(size, 0);
      b < LAST && bins[b] != 0
    }

    /** The chunk malloc() would take is smaller than the request. */
    ghost predicate Undersized(size: nat)
      requires |bins| == NUM_BINS
    {
      HasOwnBin(size) && var a := bins[BinOf(size, 0)]; a in chunks && chunks[a].capacity < size
    }

    /** The chunk in the last bin that malloc() would use; the length of the list stands for none. */
    ghost function Fit(size: nat): (k: nat)
      requires Ok()
      ensures k <= |lists[LAST]|
    {
      assert IsList(chunks, bins[LAST], lists[LAST]);
      FirstFit(chunks, lists[LAST], CarvedSize(size), 0)
    }

    ghost predicate OutOfMemory(size: nat)
      requires Ok()
    {
      !HasOwnBin(size) && Fit(size) == |lists[LAST]|
    }

    /**
     malloc() would take a whole chunk that free() will later put into a bin that promises more than the chunk
     holds.
     */
    ghost predicate TakesMisfit(size: nat)
      requires Ok()
    {
      && !HasOwnBin(size) && Fit(size) < |lists[LAST]|
      && var c := lists[LAST][Fit(size)];
      && c in chunks && chunks[c].capacity <= CarvedSize(size) + FRAME && !Regular(chunks[c].capacity)
    }

    /** The capacity of the block that the last bin would serve. */
    ghost function LastBinCapacity(size: nat): nat
      requires Ok() && !OutOfMemory(size) && !HasOwnBin(size)
    {
      assert IsList(chunks, bins[LAST], lists[LAST]);
      var c, n := lists[LAST][Fit(size)], CarvedSize(size);
      if chunks[c].capacity > n + FRAME then n else chunks[c].capacity
    }

    /** The capacity of the block that malloc() would hand out. */
    ghost function NewCapacity(size: nat): nat
      requires Ok() && !OutOfMemory(size)
    {
      if HasOwnBin(size)
      then var a := bins[BinOf(size, 0)]; if a in chunks then chunks[a].capacity else 0
      else LastBinCapacity(size)
    }

    /** The chunk that the last bin would serve: the tail of a large chunk, or all of one that is just large enough. */
    ghost function LastBinAddress(size: nat): nat
      requires Ok() && !OutOfMemory(size) && !HasOwnBin(size)
    {
      assert IsList(chunks, bins[LAST], lists[LAST]);
      var c, n := lists[LAST][Fit(size)], CarvedSize(size);
      if chunks[c].capacity > n + FRAME then c + chunks[c].capacity - n else c
    }

    /** The request is served from the tail of the chunk that the last bin has for it. */
    ghost predicate Splits(size: nat)
      requires Ok()
    {
      && !HasOwnBin(size) && Fit(size) < |lists[LAST]|
      && var c := lists[LAST][Fit(size)];
      && c in chunks && chunks[c].capacity > CarvedSize(size) + FRAME
    }

    /** The bytes of a block. */
    ghost function Data(p: nat): seq<int>
      requires IsLive(chunks, p)
    {
      var end := p - lo + chunks[p - HEADER].capacity;
      if lo <= p && end <= |bytes| then bytes[p - lo..end] else []
    }

    /** The block is in use and its redzones are intact. */
    ghost predicate Freeable(p: nat) {
      IsLive(chunks, p) && Guarded(bytes, p - HEADER - lo, chunks[p - HEADER].capacity)
    }

    /** realloc() has to move the block. */
    ghost predicate MustMove(p: nat, size: nat)
      requires IsLive(chunks, p)
    {
      size > chunks[p - HEADER].capacity
    }

    /** realloc() checks the block and has to move it. */
    ghost predicate Moves(p: nat, size: nat) {
      Freeable(p) && MustMove(p, size)
    }

    /** realloc() would move the block and copy more bytes than it, or the new one, has room for. */
    ghost predicate Overruns(p: nat, size: nat)
      requires Ok() && IsLive(chunks, p)
    {
      && MustMove(p, size) && !OutOfMemory(Rounded(size))
      && (chunks[p - HEADER].size > chunks[p - HEADER].capacity || chunks[p - HEADER].size > NewCapacity(Rounded(size)))
    }

    /** What a caller of malloc() gets: a fresh aligned block, and nothing else in use has changed. */
    ghost predicate Served(size: nat, p: nat, after: HeapValue)
      requires |bins| == NUM_BINS
    {
      && IsLive(after.chunks, p) && Aligned16(p)
      && HandedOut(chunks, after.chunks, p - HEADER, size)
      && SameOutside(bytes, after.bytes, p - HEADER - lo, after.chunks[p - HEADER].capacity)
      && (after.chunks[p - HEADER].capacity >= size <==> !Undersized(size))
    }

    /** The bin of the size has given up its first chunk. */
    ghost predicate FirstTaken(size: nat, p: nat, after: HeapValue)
      requires |bins| == NUM_BINS
    {
      var b := BinOf(size, 0);
      && p == bins[b] + HEADER && p - HEADER in chunks && after.bins == bins[b := chunks[p - HEADER].next]
      && after.chunks == chunks[p - HEADER := Granted(chunks[p - HEADER], size)]
    }

    /** A request that is served from a tail takes nothing else. */
    ghost predicate Carved(size: nat, after: HeapValue)
      requires Ok()
    {
      Splits(size) ==>
        after.bins == bins && after.lists == lists
          && after.chunks == SplitAt(chunks, lists[LAST][Fit(size)], CarvedSize(size), size)
    }

    /** The block is still there, with its contents. */
    ghost predicate Kept(x: nat, after: HeapValue) {
      IsLive(chunks, x) ==> IsLive(after.chunks, x) && after.Data(x) == Data(x)
    }

    /** Every block in use but these two is still there. */
    ghost predicate RestKept(p: nat, q: nat, after: HeapValue) {
      forall x: nat {:trigger Kept(x, after)} {:trigger IsLive(chunks, x)} :: x != p && x != q ==> Kept(x, after)
    }

    /** Every block in use but p is still there, and is not q. */
    ghost predicate OthersKept(p: nat, q: nat, after: HeapValue) {
      RestKept(p, q, after) && (q != p ==> !IsLive(chunks, q))
    }

    /** The chunk has gone to the front of the bin of its capacity. */
    ghost predicate PutBack(a: nat, after: HeapValue)
      requires |bins| == NUM_BINS && a in chunks
    {
      var c := chunks[a]; var b := BinOf(c.capacity, 0);
      after.chunks == chunks[a := c.(magic := Vacant, next := bins[b])] && after.bins == bins[b := a]
        && after.bin == bin[a := b] && after.bytes == bytes
    }

    /** The block q holds the first n bytes of the block p. */
    ghost predicate Carried(p: nat, q: nat, n: nat, after: HeapValue)
      requires IsLive(chunks, p) && IsLive(after.chunks, q)
    {
      n <= |Data(p)| && n <= |after.Data(q)| && after.Data(q)[..n] == Data(p)[..n]
    }

    /** Whether the first k bytes of a block that has moved with n of its bytes are still there. */
    ghost predicate KeptIf(p: nat, q: nat, n: nat, k: nat, after: HeapValue)
      requires IsLive(chunks, p) && IsLive(after.chunks, q)
    {
      k <= |Data(p)| && k <= |after.Data(q)| ==>
        (Carried(p, q, k, after) <==> k <= n || SameGround(lo, Data(p), bytes, q, n, k))
    }

    /** The block p has moved to q, with n of its bytes; everything else in use is as it was. */
    ghost predicate Moved(p: nat, q: nat, n: nat, after: HeapValue)
      requires IsLive(chunks, p)
    {
      && q != p && IsLive(after.chunks, q) && !IsLive(after.chunks, p) && OthersKept(p, q, after)
      && Carried(p, q, n, after)
    }
  }

  /** The other blocks in use when a chunk has gone back to its bin. */
  lemma OthersPut(before: HeapValue, after: HeapValue, a: nat)
    requires |before.bins| == NUM_BINS && a in before.chunks && after.lo == before.lo && before.PutBack(a, after)
    ensures before.OthersKept(a + HEADER, a + HEADER, after)
  {
    forall x: nat | x != a + HEADER && IsLive(before.chunks, x)
      ensures IsLive(after.chunks, x) && after.Data(x) == before.Data(x) {
      assert x - HEADER != a && after.chunks[x - HEADER] == before.chunks[x - HEADER];
    }
  }

  /** What holds of the whole heap still holds when a chunk has gone back to its bin. */
  lemma PutBackKeeps(before: HeapValue, after: HeapValue, a: nat)
    requires |before.bins| == NUM_BINS && a in before.chunks && before.chunks[a].magic.InUse?
    requires before.PutBack(a, after)
    ensures AllGuarded(before.lo, before.hi, before.chunks, before.bytes) ==>
            AllGuarded(before.lo, before.hi, after.chunks, after.bytes)
    ensures IsTame(before.chunks, before.bin) ==> IsTame(after.chunks, after.bin)
    ensures IsMarred(before.chunks, before.bin) ==> IsMarred(after.chunks, after.bin)
  {
    var next := before.bins[BinOf(before.chunks[a].capacity, 0)];
    if IsTame(before.chunks, before.bin) { TamePut(before.chunks, before.bin, a, next); }
    if IsMarred(before.chunks, before.bin) { MarredPut(before.chunks, before.bin, a, next); }
  }

  /** Putting a chunk into a bin and taking it out again. */
  lemma PutThenTaken(before: HeapValue, mid: HeapValue, after: HeapValue, a: nat, size: nat, q: nat)
    requires |before.bins| == |mid.bins| == NUM_BINS && a in before.chunks
    requires before.chunks[a].magic.InUse? && before.chunks[a].next == 0
    requires BinOf(size, 0) == BinOf(before.chunks[a].capacity, 0) < LAST
    requires before.PutBack(a, mid) && mid.FirstTaken(size, q, after)
    ensures q == a + HEADER && after.bins == before.bins
    ensures after.chunks == before.chunks[a := before.chunks[a].(size := size)]
  {
  }

  /** The copy to the new block, and then free() of the old one. */
  lemma CopiedThenFreed(before: HeapValue, mid: HeapValue, after: HeapValue, p: nat, q: nat)
    requires IsLive(before.chunks, p) && IsLive(mid.chunks, q) && p != q
    requires before.RestKept(q, q, mid) && mid.OthersKept(p, p, after)
    ensures before.RestKept(p, q, after) && IsLive(after.chunks, q)
    ensures forall n: nat :: before.Carried(p, q, n, after) <==> before.Carried(p, q, n, mid)
  {
    assert mid.Kept(q, after);
    forall x: nat | x != p && x != q ensures before.Kept(x, after) {
      assert before.Kept(x, mid) && mid.Kept(x, after);
    }
  }

  /** malloc() of the new block, and then the copy and free() of the old one. */
  lemma MovedInTwo(before: HeapValue, mid: HeapValue, after: HeapValue, p: nat, q: nat, n: nat)
    requires IsLive(before.chunks, p) && p != q && q != 0
    requires before.OthersKept(0, q, mid) && IsLive(mid.chunks, p)
    requires mid.RestKept(p, q, after) && IsLive(after.chunks, q) && !IsLive(after.chunks, p)
    requires mid.Carried(p, q, n, after)
    ensures before.Moved(p, q, n, after)
  {
    assert before.Kept(p, mid);
    forall x: nat | x != p && x != q ensures before.Kept(x, after) {
      if x != 0 { assert before.Kept(x, mid) && mid.Kept(x, after); }
    }
  }

  /** The heap, and what the owners of its blocks have asked for. */
  datatype Moment = Moment(heap: HeapValue, asked: map<nat, nat>) {
    ghost predicate Ok() {
      heap.Ok()
    }

    ghost predicate Intact() {
      AllGuarded(heap.lo, heap.hi, heap.chunks, heap.bytes)
    }

    ghost predicate Tame() {
      IsTame(heap.chunks, heap.bin)
    }

    ghost predicate Marred() {
      IsMarred(heap.chunks, heap.bin)
    }

    ghost predicate HoldsAsked() {
      AllHeld(heap.chunks, asked)
    }

    ghost predicate Known(p: nat) {
      IsKnown(heap.chunks, p)
    }

    /** The call takes a whole chunk that fits no bin. */
    ghost predicate Misfit(r: Request)
      requires Ok()
    {
      match r
      case Allocate(size) => heap.TakesMisfit(Rounded(size))
      case Release(p) => false
      case Reallocate(p, size) => (p == 0 || heap.Moves(p, size)) && heap.TakesMisfit(Rounded(size))
      case Write(p, i, v) => false
    }

    ghost function MallocFate(size: nat): Outcome
      requires Ok()
    {
      if heap.OutOfMemory(Rounded(size)) then Panicked else Returned
    }

    ghost function ReallocFate(p: nat, size: nat): Outcome
      requires Ok()
    {
      if p == 0 then MallocFate(size)
      else if !Known(p) then Strayed
      else if !heap.Freeable(p) then Panicked
      else if !heap.MustMove(p, size) then Returned
      else if heap.Overruns(p, size) then Overran
      else MallocFate(size)
    }

    ghost function FreeFate(p: nat): Outcome {
      if !Known(p) then Strayed else if p == 0 || heap.Freeable(p) then Returned else Panicked
    }

    ghost function WriteFate(p: nat, i: nat): Outcome {
      if !IsLive(heap.chunks, p) then Strayed
      else if i < heap.chunks[p - HEADER].capacity then Returned
      else if p in asked && i < asked[p] then Overran
      else Strayed
    }

    /** How a request ends. */
    ghost function Fate(r: Request): Outcome
      requires Ok()
    {
      match r
      case Allocate(size) => MallocFate(size)
      case Release(p) => FreeFate(p)
      case Reallocate(p, size) => ReallocFate(p, size)
      case Write(p, i, v) => WriteFate(p, i)
    }

    /** malloc() returns q: which chunk that is, and what becomes of the heap. */
    ghost predicate Mallocs(size: nat, q: nat, after: Moment)
      requires Ok() && MallocFate(size) == Returned
    {
      var n := Rounded(size);
      && heap.Served(n, q, after.heap) && heap.Carved(n, after.heap) && after.asked == asked[q := size]
      && after.heap.chunks[q - HEADER].capacity == heap.NewCapacity(n)
      && (if heap.HasOwnBin(n) then heap.FirstTaken(n, q, after.heap) else q == heap.LastBinAddress(n) + HEADER)
    }

    ghost predicate Frees(p: nat, after: Moment)
      requires Ok() && FreeFate(p) == Returned
    {
      after.asked == asked && if p == 0 then after.heap == heap else heap.PutBack(p - HEADER, after.heap)
    }

    /** realloc() returns q: the same block, or one that holds the recorded bytes of it. */
    ghost predicate Reallocs(p: nat, size: nat, q: nat, after: Moment)
      requires Ok() && ReallocFate(p, size) == Returned
    {
      if p == 0 then Mallocs(size, q, after) else
        && after.asked == asked[q := size]
        && if !heap.MustMove(p, size) then q == p && after.heap == heap
           else
             && heap.Moved(p, q, heap.chunks[p - HEADER].size, after.heap)
             && heap.KeptIf(p, q, heap.chunks[p - HEADER].size, if p in asked then asked[p] else 0, after.heap)
    }

    ghost predicate Writes(p: nat, i: nat, v: int, after: Moment)
      requires Ok() && WriteFate(p, i) == Returned
    {
      ChunkInside(heap.chunks, heap.layout, heap.lo, heap.hi, p - HEADER);
      after == Moment(heap.(bytes := heap.bytes[p - heap.lo + i := v]), asked)
    }

    /** A request that returns, its result and the heap after it; free() and a write return nothing. */
    ghost predicate Called(r: Request, q: nat, after: Moment)
      requires Ok() && Fate(r) == Returned
    {
      match r
      case Allocate(size) => Mallocs(size, q, after)
      case Release(p) => q == 0 && Frees(p, after)
      case Reallocate(p, size) => Reallocs(p, size, q, after)
      case Write(p, i, v) => q == 0 && Writes(p, i, v, after)
    }
  }

  /** The i-th request of a program that goes by the pointers it has got so far. */
  ghost predicate CalledAt(next: seq<nat> -> Request, got: seq<nat>, trace: seq<Moment>, i: nat)
    requires |trace| == |got| + 1 && i < |got|
  {
    && trace[i].Ok() && trace[i].Fate(next(got[..i])) == Returned
    && trace[i].Called(next(got[..i]), got[i], trace[i + 1])
  }

  ghost predicate MisfitAt(next: seq<nat> -> Request, got: seq<nat>, trace: seq<Moment>, i: nat)
    requires |trace| == |got| + 1 && i < |got|
  {
    trace[i].Ok() && trace[i].Misfit(next(got[..i]))
  }

  /** No request of the run has taken a misfit. */
  ghost predicate Tidy(next: seq<nat> -> Request, got: seq<nat>, trace: seq<Moment>)
    requires |trace| == |got| + 1
  {
    forall i :: 0 <= i < |got| ==> !MisfitAt(next, got, trace, i)
  }

  /** A run of the program from one heap to another. */
  ghost predicate IsRun(next: seq<nat> -> Request, got: seq<nat>, trace: seq<Moment>) {
    && |trace| == |got| + 1
    && (forall i :: 0 <= i < |got| ==> CalledAt(next, got, trace, i))
    && (forall i :: 0 <= i < |trace| ==> trace[i].Ok() && trace[i].Intact())
  }

  /** What a run has done to the capacities. */
  ghost predicate Judged(next: seq<nat> -> Request, got: seq<nat>, trace: seq<Moment>)
    requires |trace| == |got| + 1
  {
    if Tidy(next, got, trace) then trace[|got|].Tame() && trace[|got|].HoldsAsked() else trace[|got|].Marred()
  }

  /** One more request leaves the ones before it as they were. */
  lemma Longer(next: seq<nat> -> Request, got: seq<nat>, trace: seq<Moment>, q: nat, now: Moment, i: nat)
    requires |trace| == |got| + 1 && i < |got|
    ensures CalledAt(next, got + [q], trace + [now], i) <==> CalledAt(next, got, trace, i)
    ensures MisfitAt(next, got + [q], trace + [now], i) <==> MisfitAt(next, got, trace, i)
  {
    assert (got + [q])[..i] == got[..i];
  }

  lemma RunLonger(next: seq<nat> -> Request, got: seq<nat>, trace: seq<Moment>, q: nat, now: Moment)
    requires IsRun(next, got, trace) && now.Ok() && now.Intact()
    requires trace[|got|].Fate(next(got)) == Returned && trace[|got|].Called(next(got), q, now)
    ensures IsRun(next, got + [q], trace + [now])
  {
    forall i | 0 <= i < |got| ensures CalledAt(next, got + [q], trace + [now], i) {
      Longer(next, got, trace, q, now, i);
    }
    assert (got + [q])[..|got|] == got;
  }

  lemma TidyLonger(next: seq<nat> -> Request, got: seq<nat>, trace: seq<Moment>, q: nat, now: Moment)
    requires |trace| == |got| + 1 && trace[|got|].Ok()
    ensures Tidy(next, got + [q], trace + [now]) <==> Tidy(next, got, trace) && !trace[|got|].Misfit(next(got))
  {
    forall i | 0 <= i < |got|
      ensures MisfitAt(next, got + [q], trace + [now], i) <==> MisfitAt(next, got, trace, i) {
      Longer(next, got, trace, q, now, i);
    }
    assert (got + [q])[..|got|] == got;
    assert MisfitAt(next, got + [q], trace + [now], |got|) <==> trace[|got|].Misfit(next(got));
  }
}
