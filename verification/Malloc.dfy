/**
 The allocator of libs/resea/malloc.c: bins of free chunks over one heap, tail
 splitting, and redzones around every block.
 */
module Malloc {
  import opened MallocModel

  /** memcpy() of n bytes */
  function Spliced(bytes: seq<int>, to: nat, from: nat, n: nat): (r: seq<int>)
    requires to + n <= |bytes| && from + n <= |bytes|
    ensures |r| == |bytes| && r[to..to + n] == bytes[from..from + n]
    ensures forall i :: 0 <= i < |bytes| && !(to <= i < to + n) ==> r[i] == bytes[i]
  {
    bytes[..to] + bytes[from..from + n] + bytes[to + n..]
  }

  /** The two blocks of a copy. */
  lemma SplicedBlocks(bytes: seq<int>, to: nat, lenTo: nat, from: nat, lenFrom: nat, n: nat)
    requires n <= lenTo && n <= lenFrom && to + lenTo <= |bytes| && from + lenFrom <= |bytes|
    ensures var block := Spliced(bytes, to, from, n)[to..to + lenTo];
            block[..n] == bytes[from..from + lenFrom][..n] && block[n..] == bytes[to..to + lenTo][n..]
  {
    var r := Spliced(bytes, to, from, n);
    assert r[to..to + lenTo][..n] == r[to..to + n] && bytes[from..from + lenFrom][..n] == bytes[from..from + n];
  }

  lemma DropOfSlice(s: seq<int>, from: nat, to: nat, n: nat)
    requires from + n <= to <= |s|
    ensures s[from..to][n..] == s[from + n..to]
  {
  }

  /** A block that holds n bytes of another one, and then what lay there: when it holds the first k of them. */
  lemma KeptIff(block: seq<int>, copy: seq<int>, ground: seq<int>, at: nat, n: nat, k: nat)
    requires n <= |block| && k <= |block| && n <= |copy| && k <= |copy| && at + |copy| <= |ground|
    requires copy[..n] == block[..n] && copy[n..] == ground[at + n..at + |copy|]
    ensures copy[..k] == block[..k] <==> k <= n || ground[at + n..at + k] == block[n..k]
  {
    if k <= n {
      assert copy[..k] == copy[..n][..k] && block[..k] == block[..n][..k];
    } else {
      assert ground[at + n..at + k] == copy[n..][..k - n] == copy[n..k];
      assert copy[..k] == copy[..n] + copy[n..k] && block[..k] == block[..n] + block[n..k];
    }
  }

  /** The same, for a block that held `was` before the copy. */
  lemma CopyKept(block: seq<int>, was: seq<int>, copy: seq<int>, ground: seq<int>, at: nat, n: nat, k: nat)
    requires n <= |block| && k <= |block| && n <= |copy| && k <= |copy| == |was| && at + |was| <= |ground|
    requires was == ground[at..at + |was|] && copy[..n] == block[..n] && copy[n..] == was[n..]
    ensures copy[..k] == block[..k] <==> k <= n || ground[at + n..at + k] == block[n..k]
  {
    DropOfSlice(ground, at, at + |was|, n);
    KeptIff(block, copy, ground, at, n, k);
  }

  lemma HeaderAligned(a: nat)
    requires a % 16 == 0
    ensures Aligned16(a + HEADER)
  {
  }

  /** What the owners of the blocks know. */
  class Ledger {
    var asked: map<nat, nat>           // of each block, the size its owner asked for last

    constructor ()
      ensures asked == map[]
    {
      asked := map[];
    }
  }

  class Heap {
    const lo: nat              // __heap
    const hi: nat              // __heap_end
    const ledger: Ledger
    var chunks: Chunks         // the headers in the heap, by address
    var bins: seq<nat>
    var bytes: seq<int>        // the heap's bytes, from lo on
    ghost var layout: seq<nat>        // the chunks in the order of their addresses
    ghost var lists: seq<seq<nat>>    // the chunks of each bin
    ghost var bin: map<nat, nat>      // the bin of each free chunk

    ghost predicate Valid()
      reads this
    {
      HeapOk(lo, hi, chunks, layout, bins, lists, bin) && |bytes| == hi - lo
    }

    /** No redzone has been written to. */
    ghost predicate Intact()
      requires Valid()
      reads this
    {
      AllGuarded(lo, hi, chunks, bytes)
    }

    /** A pointer that malloc() has returned and free() has not taken back. */
    ghost predicate Live(p: nat)
      reads this
    {
      IsLive(chunks, p)
    }

    /** Chunks outside the last bin have the capacity that their bin stands for, and blocks hold what was asked for. */
    ghost predicate Tame()
      reads this
    {
      IsTame(chunks, bin)
    }

    /** A chunk that fits no bin has been handed out once. */
    ghost predicate Marred()
      reads this`chunks, this`bin
    {
      IsMarred(chunks, bin)
    }

    /** Every block holds what its owner has asked for. */
    ghost predicate HoldsAsked()
      reads this, ledger
    {
      AllHeld(chunks, ledger.asked)
    }

    /** The pointer comes from malloc(), or is null. */
    predicate Known(p: nat)
      reads this
    {
      IsKnown(chunks, p)
    }

    /** The heap is as it was. */
    twostate predicate Untouched()
      reads this
    {
      && chunks == old(chunks) && bytes == old(bytes) && bins == old(bins) && bin == old(bin)
      && layout == old(layout) && lists == old(lists)
    }

    /** malloc_init(): the whole heap is one free chunk in the last bin. */
    constructor (lo: nat, hi: nat)
      requires 0 < lo && lo % 16 == 0 && hi % 16 == 0 && hi - lo > FRAME
      ensures Valid() && Intact() && Tame() && HoldsAsked() && this.lo == lo && this.hi == hi
      ensures chunks == map[lo := Chunk(0, hi - lo - FRAME, 0, Vacant)] && bins == seq(NUM_BINS, b => 0)[LAST := lo]
      ensures lists[LAST] == [lo] && bytes == seq(hi - lo, i => 0)
      ensures fresh(ledger) && ledger.asked == map[]
    {
      this.lo, this.hi := lo, hi;
      chunks := map[lo := Chunk(0, hi - lo - FRAME, 0, Vacant)];
      bins := seq(NUM_BINS, b => 0)[LAST := lo];
      bytes := seq(hi - lo, i => 0);
      layout := [lo];
      lists := seq(NUM_BINS, b => [])[LAST := [lo]];
      bin := map[lo := LAST];
      ledger := new Ledger();
      WholeHeap(lo, hi, map[lo := Chunk(0, hi - lo - FRAME, 0, Vacant)], seq(NUM_BINS, b => 0)[LAST := lo],
        seq(NUM_BINS, b => [])[LAST := [lo]]);
    }

    /** get_bin_idx_from_size(); the last bin stands for -1. */
    method GetBinIdx(size: nat) returns (b: nat)
      ensures b == BinOf(size, 0)
    {
      for i := 0 to NUM_BINS - 1
        invariant BinOf(size, 0) == BinOf(size, i)
      {
        if size <= Pow2(i) { return i; }
      }
      return NUM_BINS - 1;
    }

    /** memset(ptr, v, n) */
    method Memset(from: nat, n: nat, v: int)
      requires from + n <= |bytes|
      modifies this`bytes
      ensures |bytes| == |old(bytes)| && Filled(bytes, from, n, v)
      ensures forall i :: 0 <= i < |bytes| && !(from <= i < from + n) ==> bytes[i] == old(bytes)[i]
    {
      bytes := bytes[..from] + seq(n, i => v) + bytes[from + n..];
    }

    /** The redzones of a chunk that is handed out. */
    method Guard(a: nat)
      requires a in chunks && lo <= a && End(chunks, a) <= hi && |bytes| == hi - lo
      modifies this`bytes
      ensures Guarded(bytes, a - lo, chunks[a].capacity) && SameOutside(old(bytes), bytes, a - lo, chunks[a].capacity)
    {
      Memset(a - lo + HEADER - REDZONE, REDZONE, UNDERFLOW_MARKER);
      Memset(a - lo + HEADER + chunks[a].capacity, REDZONE, OVERFLOW_MARKER);
    }

    // ---- malloc() -----------------------------------------------------------------------

    /** Writing the redzones of one chunk breaks those of no other. */
    lemma OthersGuarded(before: seq<int>, a: nat, x: nat)
      requires Tiles(chunks, layout, lo, hi) && a in chunks && x in chunks && a != x
      requires Guarded(before, x - lo, chunks[x].capacity) && SameOutside(before, bytes, a - lo, chunks[a].capacity)
      ensures Guarded(bytes, x - lo, chunks[x].capacity)
    {
      ChunksDisjoint(chunks, layout, lo, hi, a, x);
    }

    /** The end of both ways through malloc(): everything is in place except the redzones. */
    method Finish(a: nat, size: nat, ghost before: Chunks)
      requires HeapOk(lo, hi, chunks, layout, bins, lists, bin) && HandedOut(before, chunks, a, size)
               && |bytes| == hi - lo
      modifies this`bytes
      ensures Valid() && SameOutside(old(bytes), bytes, a - lo, chunks[a].capacity)
      ensures AllGuarded(lo, hi, before, old(bytes)) ==> Intact()
    {
      ChunkInside(chunks, layout, lo, hi, a);
      Guard(a);
      if AllGuarded(lo, hi, before, old(bytes)) {
        forall x | x in chunks && chunks[x].magic.InUse? ensures Guarded(bytes, x - lo, chunks[x].capacity) {
          if x != a { OthersGuarded(old(bytes), a, x); }
        }
      }
    }

    /** malloc() reuses the first chunk of a bin. */
    method TakeFirst(b: nat, size: nat) returns (a: nat)
      requires Valid() && b < NUM_BINS && bins[b] != 0
      modifies this
      ensures Valid() && (old(Intact()) ==> Intact()) && a == old(bins)[b] && a in old(chunks)
              && HandedOut(old(chunks), chunks, a, size)
      ensures chunks == old(chunks)[a := Granted(old(chunks)[a], size)] && bin == old(bin) - {a}
      ensures a in old(bin) && old(bin)[a] == b && bins == old(bins)[b := old(chunks)[a].next]
      ensures SameOutside(old(bytes), bytes, a - lo, chunks[a].capacity)
      ensures old(Marred()) ==> Marred()
    {
      a := bins[b];
      assert IsList(chunks, bins[b], lists[b]) && lists[b][0] in lists[b];
      TakeHeadHeap(lo, hi, chunks, layout, bins, lists, bin, b, size);
      bins := bins[b := chunks[a].next];
      chunks := chunks[a := Granted(chunks[a], size)];
      lists := lists[b := lists[b][1..]];
      bin := bin - {a};
      Finish(a, size, old(chunks));
    }

    /** malloc() takes a whole chunk behind the first one out of the last bin. */
    method TakeBehind(ghost k: nat, prev: nat, a: nat, size: nat)
      requires Valid() && 0 < k < |lists[LAST]| && prev == lists[LAST][k - 1] && a == lists[LAST][k]
      modifies this
      ensures Valid() && (old(Intact()) ==> Intact()) && a in old(chunks) && HandedOut(old(chunks), chunks, a, size)
              && bin == old(bin) - {a}
      ensures chunks.Keys == old(chunks).Keys && forall x :: x in chunks ==>
              chunks[x].capacity == old(chunks)[x].capacity
      ensures SameOutside(old(bytes), bytes, a - lo, chunks[a].capacity)
      ensures old(Marred()) ==> Marred()
    {
      TakeLaterHeap(lo, hi, chunks, layout, bins, lists, bin, LAST, k, size);
      chunks := chunks[prev := chunks[prev].(next := chunks[a].next)][a := Granted(chunks[a], size)];
      lists := lists[LAST := RemoveAt(lists[LAST], k)];
      bin := bin - {a};
      Finish(a, size, old(chunks));
    }

    /** split(); the new chunk is marked as in use at once. */
    method SplitOff(c: nat, len: nat, size: nat) returns (a: nat)
      requires Valid() && c in chunks && chunks[c].magic.Vacant? && chunks[c].capacity > FRAME + len && len % 16 == 0
               && len > 0
      modifies this`chunks, this`layout
      ensures a == c + old(chunks)[c].capacity - len && a !in old(chunks)
      ensures chunks == SplitAt(old(chunks), c, len, size)
      ensures HeapOk(lo, hi, chunks, layout, bins, lists, bin) && HandedOut(old(chunks), chunks, a, size)
    {
      var rest := chunks[c].(capacity := chunks[c].capacity - FRAME - len);
      a := c + FRAME + rest.capacity;
      assert c in layout;
      ghost var i :| 0 <= i < |layout| && layout[i] == c;
      var tail := Chunk(0, len, size, InUse);
      SplitHeap(lo, hi, chunks, layout, bins, lists, bin, i, c, rest, a, tail);
      chunks := chunks[c := rest][a := tail];
      layout := Insert(layout, i, a);
    }

    /** malloc() hands out the tail of a chunk. */
    method TakeTail(c: nat, len: nat, size: nat) returns (a: nat)
      requires Valid() && c in chunks && chunks[c].magic.Vacant? && chunks[c].capacity > FRAME + len && len % 16 == 0
               && len > 0
      modifies this
      ensures Valid() && (old(Intact()) ==> Intact()) && HandedOut(old(chunks), chunks, a, size)
      ensures bin == old(bin) && bins == old(bins) && lists == old(lists) && a == c + old(chunks)[c].capacity - len
              && a % 16 == 0
      ensures a !in old(chunks) && chunks == SplitAt(old(chunks), c, len, size)
      ensures SameOutside(old(bytes), bytes, a - lo, len)
      ensures old(Marred()) && c in bin && bin[c] == LAST ==> Marred()
    {
      a := SplitOff(c, len, size);
      assert AlignedAt(chunks, a);
      if old(Marred()) && c in bin && bin[c] == LAST { MarredAfter(old(chunks), chunks, bin, bin, a, size); }
      Finish(a, size, old(chunks));
    }

    /** The heap as it is now. */
    ghost function Value(): HeapValue
      reads this
    {
      HeapValue(lo, hi, chunks, bins, bytes, layout, lists, bin)
    }

    ghost predicate HasOwnBin(size: nat)
      requires Valid()
      reads this
    {
      Value().HasOwnBin(size)
    }

    ghost predicate Undersized(size: nat)
      requires Valid()
      reads this
    {
      Value().Undersized(size)
    }

    ghost function Fit(size: nat): (k: nat)
      requires Valid()
      reads this
      ensures k <= |lists[LAST]|
    {
      Value().Fit(size)
    }

    ghost predicate OutOfMemory(size: nat)
      requires Valid()
      reads this
    {
      Value().OutOfMemory(size)
    }

    ghost predicate TakesMisfit(size: nat)
      requires Valid()
      reads this
    {
      Value().TakesMisfit(size)
    }

    /** The chunk that the last bin would serve: the tail of a large chunk, or all of one that is just large enough. */
    ghost function LastBinAddress(size: nat): nat
      requires Valid() && !OutOfMemory(size) && !HasOwnBin(size)
      reads this
    {
      Value().LastBinAddress(size)
    }

    ghost function LastBinCapacity(size: nat): nat
      requires Valid() && !OutOfMemory(size) && !HasOwnBin(size)
      reads this
    {
      Value().LastBinCapacity(size)
    }

    /** The request is served from the tail of the chunk that the last bin has for it. */
    ghost predicate Splits(size: nat)
      requires Valid()
      reads this
    {
      Value().Splits(size)
    }

    /** The walk along the last bin: the first chunk that is large enough, and the one before it. */
    method Search(n: nat) returns (chunk: nat, prev: nat, ghost k: nat)
      requires Valid()
      ensures forall i :: 0 <= i < |lists[LAST]| ==> lists[LAST][i] in chunks && lists[LAST][i] != 0
      ensures k == FirstFit(chunks, lists[LAST], n, 0)
      ensures chunk == (if k < |lists[LAST]| then lists[LAST][k] else 0)
              && prev == (if k == 0 then 0 else lists[LAST][k - 1])
      ensures chunk != 0 ==>
              chunk in chunks && chunks[chunk].magic.Vacant? && chunk % 16 == 0 && chunk in bin && bin[chunk] == LAST
      ensures k == 0 ==> chunk == 0 || chunk == bins[LAST]
    {
      ghost var l := lists[LAST];
      assert IsList(chunks, bins[LAST], l);
      chunk, prev, k := bins[LAST], 0, 0;
      while chunk != 0 && chunks[chunk].capacity < n
        invariant k <= |l| && chunk == (if k < |l| then l[k] else 0) && prev == (if k == 0 then 0 else l[k - 1])
        invariant FirstFit(chunks, l, n, 0) == FirstFit(chunks, l, n, k)
        decreases |l| - k
      {
        prev, chunk, k := chunk, chunks[chunk].next, k + 1;
      }
      assert chunk != 0 ==> chunk in l && AlignedAt(chunks, chunk);
    }

    /** The tail of the chunk at c has become a chunk of its own, and the lists are as they were. */
    twostate predicate TailTaken(c: nat, n: nat, size: nat)
      requires c in old(chunks) && n + FRAME < old(chunks)[c].capacity
      reads this
    {
      bins == old(bins) && lists == old(lists) && chunks == SplitAt(old(chunks), c, n, size)
    }

    /** A request that is served from a tail takes nothing else. */
    twostate predicate Carved(size: nat)
      requires old(Valid())
      reads this
    {
      old(Value()).Carved(size, Value())
    }

    /** The bins but the last hold no chunk they did not hold before. */
    twostate predicate SmallBinsKept()
      reads this
    {
      forall x :: x in bin && bin[x] < LAST ==>
        x in chunks && x in old(bin) && old(bin)[x] == bin[x] && x in old(chunks)
          && chunks[x].capacity == old(chunks)[x].capacity
    }

    /** The scan of the last bin. A null result stands for the panic. */
    method Scan(n: nat, size: nat) returns (a: nat)
      requires Valid() && n % 16 == 0 && n > 0
      modifies this
      ensures Valid() && (old(Intact()) ==> Intact())
      ensures forall i :: 0 <= i < |old(lists)[LAST]| ==> old(lists)[LAST][i] in old(chunks)
      ensures var l := old(lists)[LAST]; var k := FirstFit(old(chunks), l, n, 0);
              if k == |l| then a == 0 && Untouched() else
                && HandedOut(old(chunks), chunks, a, size)
                && SameOutside(old(bytes), bytes, a - lo, chunks[a].capacity)
                && a % 16 == 0 && a != 0
                && var c := old(chunks)[l[k]];
                   if c.capacity > n + FRAME
                   then a == l[k] + c.capacity - n && chunks[a].capacity == n && bin == old(bin)
                     && TailTaken(l[k], n, size)
                   else a == l[k] && chunks[a].capacity == c.capacity && bin == old(bin) - {a}
      ensures SmallBinsKept()
      ensures old(Marred()) ==> Marred()
    {
      var chunk, prev, k := Search(n);
      if chunk == 0 {
        return 0;
      } else if chunks[chunk].capacity > n + FRAME {
        a := TakeTail(chunk, n, size);
      } else if prev != 0 {
        TakeBehind(k, prev, chunk, size);
        a := chunk;
      } else {
        a := TakeFirst(LAST, size);
      }
    }

    /** What a caller of malloc() gets: a fresh aligned block, and nothing else in use has changed. */
    twostate predicate Served(size: nat, p: nat)
      requires old(Valid()) && Valid()
      reads this
    {
      old(Value()).Served(size, p, Value())
    }

    /** The bin of the size has given up its first chunk. */
    twostate predicate FirstTaken(size: nat, p: nat)
      requires old(Valid()) && Valid()
      reads this
    {
      old(Value()).FirstTaken(size, p, Value())
    }

    /** The scan for a rounded size. */
    method TakeFit(size: nat) returns (a: nat)
      requires Valid() && !HasOwnBin(size) && size >= 16 && size % 16 == 0
      modifies this
      ensures Valid() && (old(Intact()) ==> Intact())
      ensures a == 0 <==> old(OutOfMemory(size))
      ensures a == 0 ==> Untouched()
      ensures a != 0 ==> HandedOut(old(chunks), chunks, a, size) && a % 16 == 0 && chunks[a].capacity >= size
      ensures a != 0 ==> SameOutside(old(bytes), bytes, a - lo, chunks[a].capacity)
      ensures a != 0 ==> a == old(LastBinAddress(size)) && chunks[a].capacity == old(LastBinCapacity(size))
      ensures Carved(size) && SmallBinsKept() && (old(Marred()) ==> Marred())
      ensures a == 0 ==> !old(TakesMisfit(size))
      ensures a != 0 ==> (Regular(chunks[a].capacity) <==> !old(TakesMisfit(size)))
    {
      CarvedRegular(size);
      a := Scan(CarvedSize(size), size);
    }

    /** The chunk that the last bin gives up for the request, or null. */
    method TakeFromLastBin(size: nat) returns (a: nat)
      requires Valid() && !HasOwnBin(size) && size >= 16 && size % 16 == 0
      modifies this
      ensures Valid() && (old(Intact()) ==> Intact())
      ensures a == 0 <==> old(OutOfMemory(size))
      ensures a == 0 ==> Untouched()
      ensures a != 0 ==> HandedOut(old(chunks), chunks, a, size) && a % 16 == 0 && chunks[a].capacity >= size
      ensures a != 0 ==> SameOutside(old(bytes), bytes, a - lo, chunks[a].capacity)
      ensures a != 0 ==> a == old(LastBinAddress(size)) && chunks[a].capacity == old(LastBinCapacity(size))
      ensures Carved(size)
      ensures old(Tame()) ==> (Tame() <==> !old(TakesMisfit(size)))
      ensures old(Tame()) && a != 0 ==> (Regular(chunks[a].capacity) <==> !old(TakesMisfit(size)))
      ensures old(Marred() || TakesMisfit(size)) ==> Marred()
    {
      a := TakeFit(size);
      if a == 0 { return; }
      if old(Tame()) { TameAfter(old(chunks), chunks, old(bin), bin, a, size); }
      assert !Regular(chunks[a].capacity) ==> Marked(chunks, bin, a);
    }

    /** The last bin serves the request. */
    method FromLastBin(size: nat) returns (p: nat)
      requires Valid() && !HasOwnBin(size) && size >= 16 && size % 16 == 0
      modifies this
      ensures Valid() && (old(Intact()) ==> Intact())
      ensures p == 0 <==> old(OutOfMemory(size))
      ensures p == 0 ==> Untouched()
      ensures p != 0 ==>
              Served(size, p) && p == old(LastBinAddress(size)) + HEADER
                && chunks[p - HEADER].capacity == old(LastBinCapacity(size))
      ensures Carved(size)
      ensures old(Tame()) ==> (Tame() <==> !old(TakesMisfit(size)))
      ensures old(Tame()) && p != 0 ==> (Regular(chunks[p - HEADER].capacity) <==> !old(TakesMisfit(size)))
      ensures old(Marred() || TakesMisfit(size)) ==> Marred()
    {
      var a := TakeFromLastBin(size);
      if a == 0 { return 0; }
      p := a + HEADER;
      HeaderAligned(a);
      assert p - HEADER == a;
    }

    /** The bin of the size serves the request. */
    method FromOwnBin(size: nat) returns (p: nat)
      requires Valid() && HasOwnBin(size) && size >= 16 && size % 16 == 0
      modifies this
      ensures Valid() && (old(Intact()) ==> Intact())
      ensures p != 0 && Served(size, p) && FirstTaken(size, p)
      ensures old(Tame()) ==> !old(Undersized(size)) && Tame() && Regular(chunks[p - HEADER].capacity)
      ensures old(Marred()) ==> Marred()
    {
      var b := GetBinIdx(size);
      var a := TakeFirst(b, size);
      assert AlignedAt(chunks, a);
      BinOfPow2(b);
      if old(Tame()) { TameAfter(old(chunks), chunks, old(bin), bin, a, size); }
      p := a + HEADER;
      HeaderAligned(a);
      assert p - HEADER == a;
    }

    /** The capacity of the block that malloc() would hand out. */
    ghost function NewCapacity(size: nat): nat
      requires Valid() && !OutOfMemory(size)
      reads this
    {
      Value().NewCapacity(size)
    }

    /** malloc(), all but the record of what was asked for. */
    method Grant(size: nat) returns (p: nat)
      requires Valid() && size >= 16 && size % 16 == 0
      modifies this
      ensures Valid() && (old(Intact()) ==> Intact())
      ensures p == 0 <==> old(OutOfMemory(size))
      ensures p == 0 ==> Untouched()
      ensures p != 0 ==> Served(size, p)
      ensures old(HasOwnBin(size)) ==> FirstTaken(size, p)
      ensures p != 0 && !old(HasOwnBin(size)) ==> p == old(LastBinAddress(size)) + HEADER
      ensures p != 0 ==> chunks[p - HEADER].capacity == old(NewCapacity(size))
      ensures Carved(size)
      ensures old(Tame()) ==> !old(Undersized(size)) && (Tame() <==> !old(TakesMisfit(size)))
      ensures old(Tame()) && p != 0 ==> (Regular(chunks[p - HEADER].capacity) <==> !old(TakesMisfit(size)))
      ensures old(Marred() || TakesMisfit(size)) ==> Marred()
    {
      var b := GetBinIdx(size);
      if b != LAST && bins[b] != 0 {
        p := FromOwnBin(size);
        return;
      }
      p := FromLastBin(size);
    }

    /** A block that holds what was asked for joins the others. */
    lemma HeldWith(before: Chunks, asked: map<nat, nat>, p: nat, n: nat, size: nat)
      requires Live(p) && HandedOut(before, chunks, p - HEADER, n) && size <= n <= chunks[p - HEADER].capacity
      requires AllHeld(before, asked)
      ensures AllHeld(chunks, asked[p := size])
    {
      HeldAfter(before, chunks, asked, p - HEADER, n, size);
      assert p - HEADER + HEADER == p;
    }

    /** malloc(): a null result stands for the panic when the heap is exhausted. */
    method Malloc(size: nat) returns (p: nat)
      requires Valid()
      modifies this, ledger
      ensures Valid() && (old(Intact()) ==> Intact()) && old(chunks).Keys <= chunks.Keys
      ensures Known(p)
      ensures p == 0 <==> old(OutOfMemory(Rounded(size)))
      ensures p == 0 ==> Untouched()
      ensures p != 0 ==> Served(Rounded(size), p)
      ensures old(HasOwnBin(Rounded(size))) ==> FirstTaken(Rounded(size), p)
      ensures p != 0 && !old(HasOwnBin(Rounded(size))) ==> p == old(LastBinAddress(Rounded(size))) + HEADER
      ensures p != 0 ==> chunks[p - HEADER].capacity == old(NewCapacity(Rounded(size)))
      ensures Carved(Rounded(size))
      ensures old(Tame()) ==> !old(Undersized(Rounded(size))) && (Tame() <==> !old(TakesMisfit(Rounded(size))))
      ensures old(Tame()) && p != 0 ==> (Regular(chunks[p - HEADER].capacity) <==> !old(TakesMisfit(Rounded(size))))
      ensures old(Marred() || TakesMisfit(Rounded(size))) ==> Marred()
      ensures ledger.asked == if p == 0 then old(ledger.asked) else old(ledger.asked)[p := size]
      ensures old(HoldsAsked()) && !old(Undersized(Rounded(size))) ==> HoldsAsked()
    {
      p := Grant(Rounded(size));
      if p != 0 {
        if old(HoldsAsked()) && !old(Undersized(Rounded(size))) {
          HeldWith(old(chunks), ledger.asked, p, Rounded(size), size);
        }
        ledger.asked := ledger.asked[p := size];
      }
    }

    // ---- blocks -------------------------------------------------------------------------

    /** The bytes of a block. */
    ghost function Data(p: nat): seq<int>
      requires Valid() && Live(p)
      reads this
    {
      Value().Data(p)
    }

    lemma DataIs(p: nat)
      requires Valid() && Live(p)
      ensures lo <= p && p - lo + chunks[p - HEADER].capacity <= |bytes|
      ensures Data(p) == bytes[p - lo..p - lo + chunks[p - HEADER].capacity]
    {
      ChunkInside(chunks, layout, lo, hi, p - HEADER);
    }

    /** Two blocks in use are separated by a redzone, a header and another redzone. */
    lemma BlocksApart(p: nat, q: nat)
      requires Valid() && Live(p) && Live(q) && p < q
      ensures p + chunks[p - HEADER].capacity + REDZONE + HEADER <= q
    {
      ChunksDisjoint(chunks, layout, lo, hi, p - HEADER, q - HEADER);
    }

    ghost predicate GuardedAt(p: nat)
      requires Valid() && Live(p)
      reads this
    {
      Guarded(bytes, p - HEADER - lo, chunks[p - HEADER].capacity)
    }

    /** A write inside one block leaves the other blocks and all redzones alone. */
    twostate lemma WriteStaysInside(q: nat)
      requires old(Valid()) && Valid() && chunks == old(chunks) && layout == old(layout) && Live(q)
               && |bytes| == |old(bytes)|
      requires forall i :: 0 <= i < |bytes| && !(q <= lo + i < q + chunks[q - HEADER].capacity) ==>
               bytes[i] == old(bytes[i])
      ensures forall x: nat :: Live(x) ==> (x != q ==> Data(x) == old(Data(x))) && (old(GuardedAt(x)) ==> GuardedAt(x))
      ensures old(Intact()) ==> Intact()
    {
      forall x: nat | Live(x) ensures (x != q ==> Data(x) == old(Data(x))) && (old(GuardedAt(x)) ==> GuardedAt(x)) {
        ChunkInside(chunks, layout, lo, hi, x - HEADER);
        if x != q { ChunksDisjoint(chunks, layout, lo, hi, x - HEADER, q - HEADER); }
      }
      forall a | a in chunks && chunks[a].magic.InUse? && old(Intact())
        ensures Guarded(bytes, a - lo, chunks[a].capacity) {
        assert Live(a + HEADER) && old(GuardedAt(a + HEADER)) && GuardedAt(a + HEADER);
      }
    }

    /** A program writes to its block. */
    method Store(p: nat, i: nat, v: int)
      requires Valid() && Live(p) && i < chunks[p - HEADER].capacity
      modifies this`bytes
      ensures Valid() && (old(Intact()) ==> Intact())
      ensures i < |old(Data(p))| && Data(p) == old(Data(p))[i := v]
      ensures |bytes| == |old(bytes)| && forall j :: 0 <= j < |bytes| && j != p - lo + i ==> bytes[j] == old(bytes[j])
      ensures forall q: nat :: Live(q) && q != p ==> Data(q) == old(Data(q))
    {
      ChunkInside(chunks, layout, lo, hi, p - HEADER);
      bytes := bytes[p - lo + i := v];
      WriteStaysInside(p);
    }

    /** Every block in use but p is still there, with its contents, and is not q. */
    twostate predicate OthersKept(p: nat, q: nat)
      requires old(Valid()) && Valid()
      reads this
    {
      old(Value()).OthersKept(p, q, Value())
    }

    // ---- free() -------------------------------------------------------------------------

    /** check_buffer_overflow() of a chunk in use. */
    method CheckBufferOverflow(a: nat) returns (ok: bool)
      requires Valid() && a in chunks && chunks[a].magic.InUse?
      ensures ok <==> Guarded(bytes, a - lo, chunks[a].capacity)
    {
      ChunkInside(chunks, layout, lo, hi, a);
      var under, over := a - lo + HEADER - REDZONE, a - lo + HEADER + chunks[a].capacity;
      for i := 0 to REDZONE
        invariant Filled(bytes, under, i, UNDERFLOW_MARKER)
      {
        if bytes[under + i] != UNDERFLOW_MARKER { return false; }
      }
      for i := 0 to REDZONE
        invariant Filled(bytes, over, i, OVERFLOW_MARKER)
      {
        if bytes[over + i] != OVERFLOW_MARKER { return false; }
      }
      return true;
    }

    /** The chunk has gone to the front of the bin of its capacity. */
    twostate predicate PutBack(a: nat)
      requires old(Valid()) && a in old(chunks)
      reads this
    {
      old(Value()).PutBack(a, Value())
    }

    /** The end of free(): the chunk goes to the front of its bin. */
    method Put(a: nat)
      requires Valid() && a in chunks && chunks[a].magic.InUse?
      modifies this`chunks, this`bins, this`lists, this`bin
      ensures Valid() && PutBack(a) && OthersKept(a + HEADER, a + HEADER)
      ensures (old(Intact()) ==> Intact()) && (old(Tame()) ==> Tame())
      ensures old(Marred()) ==> Marred()
    {
      ghost var was := Value();
      var b := GetBinIdx(chunks[a].capacity);
      PutHeap(lo, hi, chunks, layout, bins, lists, bin, b, a);
      var next := if bins[b] != 0 then bins[b] else chunks[a].next;
      chunks := chunks[a := chunks[a].(magic := Vacant, next := next)];
      bins := bins[b := a];
      lists := lists[b := [a] + lists[b]];
      bin := bin[a := b];
      PutBackKeeps(was, Value(), a);
      OthersPut(was, Value(), a);
    }

    /** The block is in use and its redzones are intact. */
    ghost predicate Freeable(p: nat)
      requires Valid()
      reads this
    {
      Value().Freeable(p)
    }

    /** free() of a pointer that malloc() once returned; a false result stands for a failed assertion or panic. */
    method Free(p: nat) returns (ok: bool)
      requires Valid() && (p == 0 || (p >= HEADER && p - HEADER in chunks))
      modifies this`chunks, this`bins, this`lists, this`bin
      ensures ok <==> p == 0 || old(Freeable(p))
      ensures if ok && p != 0 then PutBack(p - HEADER)
              else Untouched()
      ensures Valid() && (old(Intact()) ==> Intact()) && (old(Tame()) ==> Tame()) && (old(Marred()) ==> Marred())
      ensures OthersKept(p, p) && (ok && p != 0 ==> !Live(p))
    {
      if p == 0 { return true; }
      var a := p - HEADER;
      if chunks[a].magic != InUse { return false; }
      ok := CheckBufferOverflow(a);
      if ok { Put(a); }
    }

    /** free() of a block in use whose redzones are intact. */
    method FreeLive(p: nat)
      requires Valid() && Live(p) && GuardedAt(p)
      modifies this`chunks, this`bins, this`lists, this`bin
      ensures Valid() && PutBack(p - HEADER) && OthersKept(p, p) && !Live(p)
      ensures (old(Intact()) ==> Intact()) && (old(Tame()) ==> Tame()) && (old(Marred()) ==> Marred())
      ensures var b := BinOf(old(chunks)[p - HEADER].capacity, 0); b < LAST ==> bins[b] != 0
    {
      var ok := Free(p);
    }

    /** A freed small block is the next one handed out for a size of its bin. */
    method FreeThenMalloc(p: nat, size: nat) returns (q: nat)
      requires Valid() && Intact() && Live(p)
      requires BinOf(Rounded(size), 0) == BinOf(chunks[p - HEADER].capacity, 0) < LAST
      modifies this, ledger
      ensures Valid() && q == p && bins == old(bins)
      ensures chunks == old(chunks)[p - HEADER := old(chunks)[p - HEADER].(size := Rounded(size))]
    {
      assert GuardedAt(p);
      FreeLive(p);
      ghost var mid := Value();
      q := Malloc(size);
      PutThenTaken(old(Value()), mid, Value(), p - HEADER, Rounded(size), q);
    }

    // ---- realloc() ----------------------------------------------------------------------

    /** malloc() leaves the contents and the redzones of every block in use alone. */
    lemma BlockKept(before: Chunks, was: seq<int>, q: nat, size: nat, x: nat)
      requires Valid() && Live(q) && HandedOut(before, chunks, q - HEADER, size)
      requires SameOutside(was, bytes, q - HEADER - lo, chunks[q - HEADER].capacity)
      requires x >= HEADER && x - HEADER in before && before[x - HEADER].magic.InUse?
      ensures Live(x) && x != q && chunks[x - HEADER] == before[x - HEADER]
      ensures |Data(x)| == before[x - HEADER].capacity && lo <= x && x - lo + before[x - HEADER].capacity <= |was|
      ensures Data(x) == was[x - lo..x - lo + before[x - HEADER].capacity]
      ensures Guarded(was, x - HEADER - lo, before[x - HEADER].capacity) <==> GuardedAt(x)
    {
      ChunksDisjoint(chunks, layout, lo, hi, x - HEADER, q - HEADER);
      ChunkInside(chunks, layout, lo, hi, x - HEADER);
    }

    /** memcpy() between two blocks. */
    method Memcpy(q: nat, p: nat, n: nat)
      requires Valid() && Live(p) && Live(q) && n <= chunks[p - HEADER].capacity && n <= chunks[q - HEADER].capacity
      modifies this`bytes
      ensures Valid() && forall i :: 0 <= i < |bytes| && !(q <= lo + i < q + n) ==> bytes[i] == old(bytes[i])
      ensures n <= |old(Data(p))| && n <= |old(Data(q))| && |Data(q)| == |old(Data(q))|
      ensures Data(q)[..n] == old(Data(p))[..n] && Data(q)[n..] == old(Data(q))[n..]
    {
      DataIs(p);
      DataIs(q);
      SplicedBlocks(bytes, q - lo, chunks[q - HEADER].capacity, p - lo, chunks[p - HEADER].capacity, n);
      bytes := Spliced(bytes, q - lo, p - lo, n);
      DataIs(q);
    }

    /** What the copy leaves alone. */
    method Copy(q: nat, p: nat, n: nat)
      requires Valid() && Live(p) && Live(q) && p != q && n <= chunks[p - HEADER].capacity
               && n <= chunks[q - HEADER].capacity
      modifies this`bytes
      ensures Valid() && (old(Intact()) ==> Intact())
      ensures n <= |old(Data(p))| && n <= |old(Data(q))| && |Data(q)| == |old(Data(q))|
      ensures Data(q)[..n] == old(Data(p))[..n] && Data(q)[n..] == old(Data(q))[n..]
      ensures forall x: nat :: Live(x) ==> (x != q ==> Data(x) == old(Data(x))) && (old(GuardedAt(x)) ==> GuardedAt(x))
    {
      Memcpy(q, p, n);
      WriteStaysInside(q);
    }

    /** realloc() has to move the block. */
    ghost predicate MustMove(p: nat, size: nat)
      requires Live(p)
      reads this
    {
      Value().MustMove(p, size)
    }

    /** The size that the owner of a block has asked for last. */
    ghost function Asked(p: nat): nat
      reads ledger
    {
      if p in ledger.asked then ledger.asked[p] else 0
    }

    /** realloc() would move the block and copy more bytes than it, or the new one, has room for. */
    ghost predicate Overruns(p: nat, size: nat)
      requires Valid() && Live(p)
      reads this
    {
      Value().Overruns(p, size)
    }

    /** On a tame heap no copy of realloc() leaves its blocks. */
    lemma TameNeverOverruns(p: nat, size: nat)
      requires Valid() && Tame() && Live(p)
      ensures !Overruns(p, size)
    {
      var n := Rounded(size);
      if HasOwnBin(n) {
        var b := BinOf(n, 0);
        assert IsList(chunks, bins[b], lists[b]) && lists[b][0] in lists[b];
      }
    }

    /** The block q holds the first n bytes of the block p. */
    twostate predicate Carried(p: nat, q: nat, n: nat)
      requires old(Valid() && Live(p)) && Valid() && Live(q)
      reads this
    {
      old(Value()).Carried(p, q, n, Value())
    }

    /** Behind the n bytes that are copied, the new block holds what lay there before. */
    twostate predicate Leftover(q: nat, n: nat)
      requires old(Valid()) && Valid() && Live(q)
      reads this
    {
      n <= |Data(q)| && lo <= q && q - lo + |Data(q)| <= |old(bytes)|
        && Data(q)[n..] == old(bytes)[q - lo + n..q - lo + |Data(q)|]
    }

    /** A new block holds what lay there before. */
    lemma NewBlock(was: seq<int>, q: nat)
      requires Valid() && Live(q) && SameOutside(was, bytes, q - HEADER - lo, chunks[q - HEADER].capacity)
      ensures lo <= q && q - lo + chunks[q - HEADER].capacity <= |was|
      ensures Data(q) == was[q - lo..q - lo + chunks[q - HEADER].capacity]
    {
      ChunkInside(chunks, layout, lo, hi, q - HEADER);
    }

    /** malloc(), and what it leaves alone. */
    method MallocKeeping(size: nat) returns (q: nat)
      requires Valid()
      modifies this, ledger
      ensures Valid() && (old(Intact()) ==> Intact()) && old(chunks).Keys <= chunks.Keys
      ensures q == 0 <==> old(OutOfMemory(Rounded(size)))
      ensures q == 0 ==> Untouched()
      ensures q != 0 ==> Served(Rounded(size), q) && OthersKept(0, q) && Leftover(q, 0)
      ensures q != 0 ==> chunks[q - HEADER].capacity == old(NewCapacity(Rounded(size)))
      ensures old(Tame()) ==> (Tame() <==> !old(TakesMisfit(Rounded(size))))
      ensures old(Tame()) && q != 0 ==> (Regular(chunks[q - HEADER].capacity) <==> !old(TakesMisfit(Rounded(size))))
      ensures old(Marred() || TakesMisfit(Rounded(size))) ==> Marred()
      ensures ledger.asked == if q == 0 then old(ledger.asked) else old(ledger.asked)[q := size]
      ensures old(HoldsAsked()) && !old(Undersized(Rounded(size))) ==> HoldsAsked()
    {
      q := Malloc(size);
      if q != 0 {
        forall x: nat | IsLive(old(chunks), x) ensures IsLive(chunks, x) && x != q && Data(x) == old(Data(x)) {
          BlockKept(old(chunks), old(bytes), q, Rounded(size), x);
        }
        NewBlock(old(bytes), q);
      }
    }

    /** malloc() while the block p is in use. */
    method MallocBeside(ghost p: nat, size: nat) returns (q: nat)
      requires Valid() && Live(p) && GuardedAt(p)
      modifies this, ledger
      ensures Valid() && (old(Intact()) ==> Intact()) && old(chunks).Keys <= chunks.Keys
      ensures q == 0 <==> old(OutOfMemory(Rounded(size)))
      ensures q == 0 ==> Untouched()
      ensures q != 0 ==> Live(q) && OthersKept(0, q) && Leftover(q, 0)
      ensures q != 0 ==> chunks[q - HEADER].capacity == old(NewCapacity(Rounded(size)))
      ensures q != 0 ==> (!old(Undersized(Rounded(size))) ==> chunks[q - HEADER].capacity >= size)
      ensures q != 0 ==> Live(p) && GuardedAt(p) && chunks[p - HEADER] == old(chunks)[p - HEADER]
      ensures old(Tame()) ==> (Tame() <==> !old(TakesMisfit(Rounded(size))))
      ensures old(Tame()) && q != 0 ==> (Regular(chunks[q - HEADER].capacity) <==> !old(TakesMisfit(Rounded(size))))
      ensures old(Marred() || TakesMisfit(Rounded(size))) ==> Marred()
      ensures ledger.asked == if q == 0 then old(ledger.asked) else old(ledger.asked)[q := size]
      ensures old(HoldsAsked()) && !old(Undersized(Rounded(size))) ==> HoldsAsked()
    {
      q := MallocKeeping(size);
      if q != 0 { BlockKept(old(chunks), old(bytes), q, Rounded(size), p); }
    }

    lemma GroundKept(block: seq<int>, was: seq<int>, copy: seq<int>, ground: seq<int>, q: nat, n: nat, k: nat)
      requires lo <= q && n <= |block| && k <= |block| && n <= |copy| && k <= |copy| == |was|
      requires q - lo + |was| <= |ground|
      requires was == ground[q - lo..q - lo + |was|] && copy[..n] == block[..n] && copy[n..] == was[n..]
      ensures copy[..k] == block[..k] <==> k <= n || SameGround(lo, block, ground, q, n, k)
    {
      CopyKept(block, was, copy, ground, q - lo, n, k);
    }

    /** The end of realloc(): n bytes go to the new block, and the old one is freed. */
    method CopyAndFree(p: nat, q: nat, n: nat, ghost ground: seq<int>, ghost k: nat)
      requires Valid() && Live(p) && GuardedAt(p) && Live(q) && p != q
      requires lo <= q && q - lo + |Data(q)| <= |ground| && Data(q) == ground[q - lo..q - lo + |Data(q)|]
      requires n <= chunks[p - HEADER].capacity && n <= chunks[q - HEADER].capacity
      modifies this
      ensures Valid() && (old(Intact()) ==> Intact()) && (old(HoldsAsked()) ==> HoldsAsked())
              && chunks.Keys == old(chunks).Keys
      ensures !Live(p) && Live(q) && chunks[q - HEADER] == old(chunks)[q - HEADER] && Carried(p, q, n)
      ensures k <= |old(Data(p))| && k <= |Data(q)| ==>
              (Carried(p, q, k) <==> k <= n || SameGround(lo, old(Data(p)), ground, q, n, k))
      ensures old(Value()).RestKept(p, q, Value())
      ensures (old(Tame()) ==> Tame()) && (!Regular(chunks[q - HEADER].capacity) ==> !Tame())
      ensures old(Marred()) ==> Marred()
    {
      CopyAll(p, q, n, ground, k);
      ghost var mid := Value();
      FreeLive(p);
      CopiedThenFreed(old(Value()), mid, Value(), p, q);
    }

    method CopyAll(p: nat, q: nat, n: nat, ghost ground: seq<int>, ghost k: nat)
      requires Valid() && Live(p) && GuardedAt(p) && Live(q) && p != q
      requires lo <= q && q - lo + |Data(q)| <= |ground| && Data(q) == ground[q - lo..q - lo + |Data(q)|]
      requires n <= chunks[p - HEADER].capacity && n <= chunks[q - HEADER].capacity
      modifies this`bytes
      ensures Valid() && (old(Intact()) ==> Intact()) && GuardedAt(p) && Carried(p, q, n)
      ensures k <= |old(Data(p))| && k <= |Data(q)| ==>
              (Carried(p, q, k) <==> k <= n || SameGround(lo, old(Data(p)), ground, q, n, k))
      ensures old(Value()).RestKept(q, q, Value())
    {
      ghost var was, block := Data(q), Data(p);
      Copy(q, p, n);
      if k <= |block| && k <= |was| { GroundKept(block, was, Data(q), ground, q, n, k); }
      forall x: nat | x != q ensures old(Value()).Kept(x, Value()) { assert Live(x) ==> Data(x) == old(Data(x)); }
    }

    /** The block p has moved to q, with n of its bytes; everything else in use is as it was. */
    twostate predicate Moved(p: nat, q: nat, n: nat)
      requires old(Valid() && Live(p)) && Valid()
      reads this
    {
      old(Value()).Moved(p, q, n, Value())
    }

    /** Whether the first k bytes of a block that has moved with n of its bytes are still there. */
    twostate predicate KeptIf(p: nat, q: nat, n: nat, k: nat)
      requires old(Valid() && Live(p)) && Valid() && Live(q)
      reads this
    {
      old(Value()).KeptIf(p, q, n, k, Value())
    }

    /**
     realloc() of a block that is too small; a null result stands for the panic in malloc(). Where the copy
     would leave a block the outcome is `overrun`, and nothing is said about what happens next.
     */
    method Move(p: nat, size: nat) returns (q: nat, overrun: bool)
      requires Valid() && Live(p) && GuardedAt(p) && MustMove(p, size)
      modifies this, ledger
      ensures Valid() && (old(Intact()) ==> Intact()) && old(chunks).Keys <= chunks.Keys
      ensures (q == 0 <==> old(OutOfMemory(Rounded(size)))) && q != p
      ensures overrun <==> old(Overruns(p, size))
      ensures q == 0 ==> Untouched()
      ensures ledger.asked == if q == 0 then old(ledger.asked) else old(ledger.asked)[q := size]
      ensures q != 0 ==> Live(q) && (!old(Undersized(Rounded(size))) ==> chunks[q - HEADER].capacity >= size)
      ensures q != 0 && !overrun ==> Moved(p, q, old(chunks[p - HEADER].size))
      ensures q != 0 && !overrun ==> KeptIf(p, q, old(chunks[p - HEADER].size), old(Asked(p)))
      ensures old(Tame()) ==> (Tame() <==> !old(TakesMisfit(Rounded(size))))
      ensures old(Marred() || TakesMisfit(Rounded(size))) ==> Marred()
      ensures old(HoldsAsked()) && !old(Undersized(Rounded(size))) ==> HoldsAsked()
    {
      var n := chunks[p - HEADER].size;
      ghost var k := Asked(p);
      q := MallocBeside(p, size);
      overrun := q != 0 && (n > chunks[p - HEADER].capacity || n > chunks[q - HEADER].capacity);
      if q != 0 && !overrun {
        ghost var mid := Value();
        CopyAndFree(p, q, n, old(bytes), k);
        MovedInTwo(old(Value()), mid, Value(), p, q, n);
      }
    }

    /** realloc() checks the block and has to move it. */
    ghost predicate Moves(p: nat, size: nat)
      requires Valid()
      reads this
    {
      Value().Moves(p, size)
    }

    /** realloc() of a block that has passed the checks. */
    method StayOrMove(p: nat, size: nat) returns (q: nat, overrun: bool)
      requires Valid() && Live(p) && GuardedAt(p)
      modifies this, ledger
      ensures Valid() && (old(Intact()) ==> Intact()) && old(chunks).Keys <= chunks.Keys
      ensures q == 0 <==> old(MustMove(p, size)) && old(OutOfMemory(Rounded(size)))
      ensures q == p <==> !old(MustMove(p, size))
      ensures overrun <==> old(Overruns(p, size))
      ensures q == 0 || q == p ==> Untouched()
      ensures ledger.asked == if q == 0 then old(ledger.asked) else old(ledger.asked)[q := size]
      ensures q != 0 ==> Live(q) && (!old(Undersized(Rounded(size))) ==> chunks[q - HEADER].capacity >= size)
      ensures q != 0 && q != p && !overrun ==> Moved(p, q, old(chunks[p - HEADER].size))
      ensures q != 0 && q != p && !overrun ==> KeptIf(p, q, old(chunks[p - HEADER].size), old(Asked(p)))
      ensures old(Tame()) ==> (Tame() <==> !(old(MustMove(p, size)) && old(TakesMisfit(Rounded(size)))))
      ensures old(Marred() || (MustMove(p, size) && TakesMisfit(Rounded(size)))) ==> Marred()
      ensures old(HoldsAsked()) && !old(Undersized(Rounded(size))) ==> HoldsAsked()
    {
      if size <= chunks[p - HEADER].capacity {
        ledger.asked := ledger.asked[p := size];
        return p, false;
      }
      q, overrun := Move(p, size);
    }

    /** realloc() of a pointer that malloc() once returned; a null result stands for a failed assertion or panic. */
    method Resize(p: nat, size: nat) returns (q: nat, overrun: bool)
      requires Valid() && p >= HEADER && p - HEADER in chunks
      modifies this, ledger
      ensures Valid() && (old(Intact()) ==> Intact()) && old(chunks).Keys <= chunks.Keys
      ensures q == 0 <==> !old(Freeable(p)) || (old(Moves(p, size)) && old(OutOfMemory(Rounded(size))))
      ensures q == p <==> old(Freeable(p)) && !old(Moves(p, size))
      ensures overrun <==> old(Freeable(p)) && old(Overruns(p, size))
      ensures q == 0 || q == p ==> Untouched()
      ensures ledger.asked == if q == 0 then old(ledger.asked) else old(ledger.asked)[q := size]
      ensures q != 0 ==> Live(q) && (!old(Undersized(Rounded(size))) ==> chunks[q - HEADER].capacity >= size)
      ensures q != 0 && q != p && !overrun ==> Moved(p, q, old(chunks[p - HEADER].size))
      ensures q != 0 && q != p && !overrun ==> KeptIf(p, q, old(chunks[p - HEADER].size), old(Asked(p)))
      ensures old(Tame()) ==> (Tame() <==> !(old(Moves(p, size)) && old(TakesMisfit(Rounded(size)))))
      ensures old(Marred() || (Moves(p, size) && TakesMisfit(Rounded(size)))) ==> Marred()
      ensures old(HoldsAsked()) && !old(Undersized(Rounded(size))) ==> HoldsAsked()
    {
      if chunks[p - HEADER].magic != InUse { return 0, false; }
      var ok := CheckBufferOverflow(p - HEADER);
      if !ok { return 0, false; }
      q, overrun := StayOrMove(p, size);
    }

    /**
     realloc() of a pointer that malloc() once returned, or of nothing. A block that moves keeps as many bytes
     as malloc() has recorded for it; it keeps what its owner has asked for last if and only if that is no
     more, or the bytes behind it are the same by chance.
     */
    method Realloc(p: nat, size: nat) returns (q: nat, overrun: bool)
      requires Valid() && (p == 0 || (p >= HEADER && p - HEADER in chunks))
      modifies this, ledger
      ensures Valid() && (old(Intact()) ==> Intact()) && old(chunks).Keys <= chunks.Keys
      ensures Known(q)
      ensures p == 0 ==>
              (q == 0 <==> old(OutOfMemory(Rounded(size)))) && (q != 0 ==> Served(Rounded(size), q)) && !overrun
      ensures p != 0 ==> (q == 0 <==> !old(Freeable(p)) || (old(Moves(p, size)) && old(OutOfMemory(Rounded(size)))))
      ensures p != 0 ==> (q == p <==> old(Freeable(p)) && !old(Moves(p, size)))
      ensures p != 0 ==> (overrun <==> old(Freeable(p)) && old(Overruns(p, size)))
      ensures q == 0 || q == p ==> Untouched()
      ensures ledger.asked == if q == 0 then old(ledger.asked) else old(ledger.asked)[q := size]
      ensures q != 0 ==> Live(q) && (!old(Undersized(Rounded(size))) ==> chunks[q - HEADER].capacity >= size)
      ensures p != 0 && q != 0 && q != p && !overrun ==> Moved(p, q, old(chunks[p - HEADER].size))
      ensures p != 0 && q != 0 && q != p && !overrun ==> KeptIf(p, q, old(chunks[p - HEADER].size), old(Asked(p)))
      ensures old(HoldsAsked()) && !old(Undersized(Rounded(size))) ==> HoldsAsked()
      ensures old(Tame()) ==> (Tame() <==> !((p == 0 || old(Moves(p, size))) && old(TakesMisfit(Rounded(size)))))
      ensures old(Marred() || ((p == 0 || Moves(p, size)) && TakesMisfit(Rounded(size)))) ==> Marred()
    {
      if p == 0 {
        overrun := false;
        q := Malloc(size);
      } else {
        q, overrun := Resize(p, size);
      }
    }

    // ---- any sequence of calls ------------------------------------------------------------

    ghost function Now(): Moment
      reads this, ledger
    {
      Moment(Value(), ledger.asked)
    }

    /** On a tame heap the first chunk of a bin is as large as any request for it. */
    lemma TameServes(size: nat)
      requires Valid() && Tame()
      ensures !Undersized(size)
    {
      var b := BinOf(size, 0);
      if HasOwnBin(size) { assert IsList(chunks, bins[b], lists[b]) && lists[b][0] in lists[b]; }
    }

    method HandleMalloc(size: nat) returns (q: nat, outcome: Outcome)
      requires Valid()
      modifies this, ledger
      ensures Valid() && (old(Intact()) ==> Intact()) && old(chunks).Keys <= chunks.Keys
      ensures outcome == old(Now()).MallocFate(size)
      ensures if outcome == Returned then old(Now()).Mallocs(size, q, Now()) else Now() == old(Now())
      ensures old(Tame()) ==> (Tame() <==> !old(TakesMisfit(Rounded(size))))
      ensures old(Tame()) && old(HoldsAsked()) ==> HoldsAsked()
      ensures old(Marred() || TakesMisfit(Rounded(size))) ==> Marred()
    {
      if Tame() { TameServes(Rounded(size)); }
      q := Malloc(size);
      outcome := if q == 0 then Panicked else Returned;
    }

    method HandleRealloc(p: nat, size: nat) returns (q: nat, outcome: Outcome)
      requires Valid()
      modifies this, ledger
      ensures Valid() && (old(Intact()) ==> Intact()) && old(chunks).Keys <= chunks.Keys
      ensures outcome == old(Now()).ReallocFate(p, size)
      ensures outcome == Returned ==> old(Now()).Reallocs(p, size, q, Now())
      ensures outcome == Panicked || outcome == Strayed ==> Now() == old(Now())
      ensures old(Tame()) ==> outcome != Overran
      ensures old(Tame()) ==> (Tame() <==> !((p == 0 || old(Moves(p, size))) && old(TakesMisfit(Rounded(size)))))
      ensures old(Tame()) && old(HoldsAsked()) ==> HoldsAsked()
      ensures old(Marred() || ((p == 0 || Moves(p, size)) && TakesMisfit(Rounded(size)))) ==> Marred()
    {
      if p == 0 {
        q, outcome := HandleMalloc(size);
        return;
      }
      if !Known(p) { return 0, Strayed; }
      if Tame() {
        TameServes(Rounded(size));
        if Freeable(p) { TameNeverOverruns(p, size); }
      }
      var overrun;
      q, overrun := Resize(p, size);
      outcome := if overrun then Overran else if q == 0 then Panicked else Returned;
    }

    method HandleFree(p: nat) returns (outcome: Outcome)
      requires Valid()
      modifies this`chunks, this`bins, this`lists, this`bin
      ensures Valid() && (old(Intact()) ==> Intact()) && old(chunks).Keys <= chunks.Keys
      ensures outcome == old(Now()).FreeFate(p)
      ensures if outcome == Returned then old(Now()).Frees(p, Now()) else Now() == old(Now())
      ensures (old(Tame()) ==> Tame()) && (old(Marred()) ==> Marred())
      ensures old(HoldsAsked()) ==> HoldsAsked()
    {
      if !Known(p) { return Strayed; }
      var ok := Free(p);
      outcome := if ok then Returned else Panicked;
    }

    method HandleWrite(p: nat, i: nat, v: int) returns (outcome: Outcome)
      requires Valid()
      modifies this`bytes
      ensures Valid() && (old(Intact()) ==> Intact())
      ensures outcome == old(Now()).WriteFate(p, i)
      ensures if outcome == Returned then old(Now()).Writes(p, i, v, Now()) else Now() == old(Now())
      ensures HoldsAsked() ==> outcome != Overran
    {
      if !(p >= HEADER && p - HEADER in chunks && chunks[p - HEADER].magic == InUse) { return Strayed; }
      if i < chunks[p - HEADER].capacity {
        Store(p, i, v);
        return Returned;
      }
      outcome := if p in ledger.asked && i < ledger.asked[p] then Overran else Strayed;
    }

    /** One request of a program, whatever it is. */
    method Handle(r: Request) returns (q: nat, outcome: Outcome)
      requires Valid()
      modifies this, ledger
      ensures Valid() && (old(Intact()) ==> Intact()) && old(chunks).Keys <= chunks.Keys
      ensures outcome == old(Now()).Fate(r)
      ensures outcome == Returned ==> old(Now()).Called(r, q, Now())
      ensures outcome == Panicked || outcome == Strayed ==> Now() == old(Now())
      ensures old(Tame()) ==> (Tame() <==> !old(Now()).Misfit(r)) && (outcome == Overran ==> r.Write?)
      ensures old(Tame()) && old(HoldsAsked()) ==> HoldsAsked() && outcome != Overran
      ensures old(Marred()) || old(Now()).Misfit(r) ==> Marred()
    {
      match r
      case Allocate(size) =>
        q, outcome := HandleMalloc(size);
      case Release(p) =>
        q := 0;
        outcome := HandleFree(p);
      case Reallocate(p, size) =>
        q, outcome := HandleRealloc(p, size);
      case Write(p, i, v) =>
        q := 0;
        outcome := HandleWrite(p, i, v);
    }

    /** The next request of a run. */
    method ServeNext(next: seq<nat> -> Request, got: seq<nat>, ghost trace: seq<Moment>)
      returns (q: nat, outcome: Outcome)
      requires Valid() && IsRun(next, got, trace) && trace[|got|] == Now() && Judged(next, got, trace)
      modifies this, ledger
      ensures Valid() && outcome == trace[|got|].Fate(next(got))
      ensures outcome == Returned ==>
              IsRun(next, got + [q], trace + [Now()]) && Judged(next, got + [q], trace + [Now()])
      ensures outcome == Panicked || outcome == Strayed ==> Now() == old(Now())
      ensures Tidy(next, got, trace) ==> outcome != Overran
    {
      q, outcome := Handle(next(got));
      if outcome == Returned {
        RunLonger(next, got, trace, q, Now());
        TidyLonger(next, got, trace, q, Now());
      }
    }

    /**
     A program makes up to n requests, each from the pointers it has got so far. Whether it has taken a misfit
     decides whether the heap is tame at the end; as long as it has not, every block holds what its owner has
     asked for, and nothing is overrun.
     */
    method Serve(next: seq<nat> -> Request, n: nat) returns (got: seq<nat>, outcome: Outcome, ghost trace: seq<Moment>)
      requires Valid() && Intact() && Tame() && HoldsAsked()
      modifies this, ledger
      ensures IsRun(next, got, trace) && |got| <= n && trace[0] == old(Now())
      ensures if outcome == Returned then |got| == n else |got| < n && trace[|got|].Fate(next(got)) == outcome
      ensures Valid() && (outcome != Overran ==> trace[|got|] == Now())
      ensures Tidy(next, got, trace) <==> trace[|got|].Tame()
      ensures Tidy(next, got, trace) ==> trace[|got|].HoldsAsked() && outcome != Overran
    {
      got, outcome, trace := [], Returned, [Now()];
      while |got| < n
        invariant Valid() && |got| <= n && outcome == Returned
        invariant IsRun(next, got, trace) && trace[0] == old(Now()) && trace[|got|] == Now()
        invariant Judged(next, got, trace)
      {
        var q;
        q, outcome := ServeNext(next, got, trace);
        if outcome != Returned { break; }
        got, trace := got + [q], trace + [Now()];
      }
      if !Tidy(next, got, trace) { MarredNotTame(trace[|got|].heap.chunks, trace[|got|].heap.bin); }
    }
  }

  lemma SmallBins()
    ensures BinOf(16, 0) == 4 && Pow2(4) == 16 && BinOf(80, 0) == BinOf(128, 0) == 7
    ensures Rounded(16) == 16 && Rounded(128) == 128 && CarvedSize(16) == 16
  {
    assert Pow2(4) == 16 && Pow2(7) == 128 && Pow2(6) == 64;
    BinOfPow2(4);
    BinOfPow2(7);
  }

  /** A heap with room for one chunk, too small to be split: malloc(16) takes all of it. */
  method TakesAll() returns (heap: Heap, p: nat)
    ensures fresh(heap) && fresh(heap.ledger) && heap.Valid() && heap.Intact() && heap.Live(p)
            && heap.chunks[p - HEADER].capacity == 80
  {
    heap := new Heap(16, 160);
    SmallBins();
    assert heap.Fit(16) == 0;
    p := heap.Malloc(16);
  }

  /** free() puts that chunk into the next larger bin, where it serves a request it cannot hold. */
  method ServesTooLittle() returns (heap: Heap, q: nat)
    ensures fresh(heap) && heap.Valid() && heap.Live(q) && heap.chunks[q - HEADER].size == 128
            && heap.chunks[q - HEADER].capacity == 80
  {
    var p;
    heap, p := TakesAll();
    SmallBins();
    q := heap.FreeThenMalloc(p, 128);
  }

  lemma LargerBins()
    ensures Rounded(48) == 48 && Rounded(1000) == 1008 && BinOf(48, 0) == 6 && BinOf(1008, 0) == 10
    ensures CarvedSize(48) == 64 && CarvedSize(1008) == 1024
  {
    assert Pow2(5) == 32 && Pow2(6) == 64 && Pow2(9) == 512 && Pow2(10) == 1024;
    BinOfPow2(6);
    BinOfPow2(10);
  }

  /** The heap of this example before its first block. */
  ghost predicate NoBlock(heap: Heap)
    reads heap
  {
    && heap.Valid() && heap.Intact() && heap.lo == 16 && heap.hi == 4112
    && heap.chunks == map[16 := Chunk(0, 4032, 0, Vacant)]
    && heap.lists[LAST] == [16] && heap.bins == seq(NUM_BINS, b => 0)[LAST := 16]
    && forall i :: 0 <= i < 3968 ==> heap.bytes[i] == 0
  }

  /** Its first and only block has room for 64 bytes, of which 48 are recorded. */
  ghost predicate OneBlock(heap: Heap)
    reads heap
  {
    && heap.Valid() && heap.Intact() && heap.lo == 16 && heap.hi == 4112
    && heap.chunks == map[16 := Chunk(0, 3904, 0, Vacant), 3984 := Chunk(0, 64, 48, InUse)]
    && heap.lists[LAST] == [16] && heap.bins == seq(NUM_BINS, b => 0)[LAST := 16]
    && forall i :: 0 <= i < 3968 ==> heap.bytes[i] == 0
  }

  lemma FirstSplit(heap: Heap)
    requires NoBlock(heap)
    ensures heap.Splits(48) && heap.Fit(48) == 0 && !heap.OutOfMemory(48)
    ensures SplitAt(heap.chunks, 16, 64, 48) == map[16 := Chunk(0, 3904, 0, Vacant), 3984 := Chunk(0, 64, 48, InUse)]
  {
    LargerBins();
  }

  method FirstBlock(heap: Heap)
    requires NoBlock(heap)
    modifies heap, heap.ledger
    ensures OneBlock(heap)
  {
    LargerBins();
    FirstSplit(heap);
    ghost var zeros := heap.bytes;
    var p := heap.Malloc(48);
    assert SameOutside(zeros, heap.bytes, 3968, 64);
  }

  /** realloc() to a size that the chunk has room for leaves the recorded size alone. */
  method GrowsInPlace(heap: Heap)
    requires OneBlock(heap)
    modifies heap, heap.ledger
    ensures OneBlock(heap) && heap.Asked(3984 + HEADER) == 64
    ensures |heap.Data(3984 + HEADER)| == 64 && heap.Data(3984 + HEADER)[63] == 7
  {
    var p := 3984 + HEADER;
    assert heap.Live(p) && heap.GuardedAt(p);
    var q, overrun := heap.Realloc(p, 64);
    heap.Store(p, 63, 7);
  }

  lemma SecondSplit(heap: Heap)
    requires OneBlock(heap)
    ensures !heap.OutOfMemory(1008) && heap.Moves(3984 + HEADER, 1000) && !heap.Overruns(3984 + HEADER, 1000)
  {
    LargerBins();
    assert heap.Live(3984 + HEADER) && heap.GuardedAt(3984 + HEADER) && heap.Fit(1008) == 0;
  }

  /** A block that held a seven where there is no room for it has moved onto zeros. */
  lemma LosesSeven(before: HeapValue, after: HeapValue, p: nat, q: nat)
    requires before.lo == after.lo == 16 && after.hi == 4112 && p == 3984 + HEADER && after.Ok() && 3984 in after.chunks
    requires |before.bytes| >= 3968 && forall i :: 0 <= i < 3968 ==> before.bytes[i] == 0
    requires IsLive(before.chunks, p) && |before.Data(p)| == 64 && before.Data(p)[63] == 7
    requires before.Moved(p, q, 48, after) && before.KeptIf(p, q, 48, 64, after)
    requires after.chunks[q - HEADER].capacity >= 64
    ensures 64 <= |after.Data(q)| && after.Data(q)[..64] != before.Data(p)
  {
    ChunksDisjoint(after.chunks, after.layout, 16, after.hi, q - HEADER, 3984);
    ChunkInside(after.chunks, after.layout, 16, after.hi, q - HEADER);
    ChunkInside(after.chunks, after.layout, 16, after.hi, 3984);
    var block, ground := before.Data(p), before.bytes;
    assert ground[q - 16 + 48..q - 16 + 64][15] == 0 && block[48..64][15] == 7;
    assert block == block[..64];
  }

  /** The next move then loses what the owner wrote behind it. */
  method MovesTooLittle(heap: Heap) returns (q: nat)
    requires OneBlock(heap) && heap.Asked(3984 + HEADER) == 64
    requires |heap.Data(3984 + HEADER)| == 64 && heap.Data(3984 + HEADER)[63] == 7
    modifies heap, heap.ledger
    ensures heap.Valid() && heap.Live(q) && 64 <= |heap.Data(q)| && heap.Data(q)[..64] != old(heap.Data(3984 + HEADER))
  {
    LargerBins();
    SecondSplit(heap);
    var overrun;
    q, overrun := heap.Realloc(3984 + HEADER, 1000);
    LosesSeven(old(heap.Value()), heap.Value(), 3984 + HEADER, q);
  }

  /** malloc(48), realloc() to 64, a write to the last byte, realloc() to 1000: the byte is gone. */
  method LosesAskedBytes() returns (heap: Heap, q: nat, ghost before: seq<int>)
    ensures fresh(heap) && heap.Valid() && heap.Live(q)
    ensures |before| == 64 <= |heap.Data(q)| && heap.Data(q)[..64] != before
  {
    heap := new Heap(16, 4112);
    FirstBlock(heap);
    GrowsInPlace(heap);
    before := heap.Data(3984 + HEADER);
    q := MovesTooLittle(heap);
  }
}
