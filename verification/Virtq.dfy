/**
 The split virtqueue driver of libs/virtio/virtio_legacy.c (section 2.6 of
 VIRTIO 1.1): a free list threaded through the descriptor table, chains that
 are in flight, and the two rings shared with a device that completes chains
 in any order.
 */
module Virtq {
  import opened Common

  /** `struct virtio_chain_entry` */
  datatype Entry = Entry(addr: nat, len: nat, deviceWritable: bool)

  /** `struct virtq_desc`; the flags are F_WRITE and F_NEXT. */
  datatype Desc = Desc(addr: nat, len: nat, write: bool, hasNext: bool, next: nat)

  /** `struct virtq_used_elem` */
  datatype UsedElem = UsedElem(id: nat, len: nat)

  datatype Error = OK | NoMemory | IsEmpty

  // ---- walks along the next links --------------------------------------------------

  ghost predicate Below(s: seq<nat>, n: nat) {
    forall i :: 0 <= i < |s| ==> s[i] < n
  }

  /** The n descriptors that the links lead through, starting at h. */
  ghost function Walk(nx: seq<nat>, h: nat, n: nat): (w: seq<nat>)
    ensures |w| == n && (n > 0 ==> w[0] == h)
    decreases n
  {
    if n == 0 then [] else [h] + Walk(nx, if h < |nx| then nx[h] else 0, n - 1)
  }

  lemma {:induction false} WalkLinks(nx: seq<nat>, h: nat, n: nat, i: nat)
    requires Below(nx, |nx|) && h < |nx| && i < n
    ensures Walk(nx, h, n)[i] < |nx| && (i + 1 < n ==> Walk(nx, h, n)[i + 1] == nx[Walk(nx, h, n)[i]])
    decreases i
  {
    if i > 0 { WalkLinks(nx, nx[h], n - 1, i - 1); }
  }

  /** Each element links to the one after it. */
  ghost predicate Linked(nx: seq<nat>, s: seq<nat>) {
    Below(s, |nx|) && forall i, j :: 0 <= i < |s| && j == i + 1 && j < |s| ==> s[j] == nx[s[i]]
  }

  /** A sequence that follows the links is the walk. */
  lemma {:induction false} WalkUnique(nx: seq<nat>, s: seq<nat>)
    requires s != [] && Linked(nx, s)
    ensures Walk(nx, s[0], |s|) == s
  {
    if |s| > 1 { WalkUnique(nx, s[1..]); }
  }

  lemma WalkIsLinked(nx: seq<nat>, h: nat, n: nat)
    requires Below(nx, |nx|) && h < |nx|
    ensures Linked(nx, Walk(nx, h, n))
  {
    forall i | 0 <= i < n
      ensures Walk(nx, h, n)[i] < |nx| && (i + 1 < n ==> Walk(nx, h, n)[i + 1] == nx[Walk(nx, h, n)[i]]) {
      WalkLinks(nx, h, n, i);
    }
  }

  /** Two walks after each other, the first ending in a link to the second. */
  lemma LinkedConcat(nx: seq<nat>, c: seq<nat>, s: seq<nat>)
    requires c != [] && Linked(nx, c) && Linked(nx, s)
    requires s != [] ==> nx[c[|c| - 1]] == s[0]
    ensures Linked(nx, c + s)
  {
  }

  /** Different numbers below n are at most n. */
  lemma {:induction false} NoDupBound(s: seq<nat>, n: nat)
    requires NoDup(s) && Below(s, n)
    ensures |s| <= n
    decreases n
  {
    if s != [] {
      assert s[0] < n;
      if exists k :: 0 <= k < |s| && s[k] == n - 1 {
        var k :| 0 <= k < |s| && s[k] == n - 1;
        NoDupBound(s[..k] + s[k+1..], n - 1);
      } else {
        NoDupBound(s, n - 1);
      }
    }
  }

  // ---- the 16-bit indices -----------------------------------------------------------

  const WRAP := 65536

  /**
   `last_used_index` is an int, `used->index` wraps at 16 bits.  With d chains completed and not popped,
   the driver's test for an empty used ring is right if and only if fewer than 65536 chains have completed
   or some are waiting: once the counter has wrapped it never reports an empty ring again.
   */
  lemma EmptyTestIff(lastUsed: nat, d: nat)
    requires d < WRAP
    ensures (lastUsed == (lastUsed + d) % WRAP <==> d == 0) <==> lastUsed + d < WRAP || d > 0
  {
    var total := lastUsed + d;
    if total < WRAP {
      assert total % WRAP == total;
    } else {
      assert total % WRAP < WRAP;
    }
  }

  /** A ring whose size divides 65536 uses the slots in turn although its index wraps. */
  lemma SlotOfWrapped(count: nat, size: nat)
    requires size > 0 && WRAP % size == 0
    ensures count % WRAP % size == count % size
  {
    var k, q, r := WRAP / size, count / WRAP, count % WRAP;
    assert count == q * WRAP + r && WRAP == k * size;
    assert count == q * k * size + r;
    ModShift(r, q * k, size);
  }

  lemma MulAtLeast(k: int, size: int)
    requires k >= 1 && size >= 0
    ensures k * size >= size
  {
  }

  /** Division with remainder is unique. */
  lemma ModUnique(x: int, q: int, r: int, size: int)
    requires 0 <= r < size && x == q * size + r
    ensures x % size == r
  {
    var q', r' := x / size, x % size;
    assert x == q' * size + r';
    assert (q' - q) * size == q' * size - q * size && (q - q') * size == q * size - q' * size;
    if q' > q {
      MulAtLeast(q' - q, size);
    } else if q' < q {
      MulAtLeast(q - q', size);
    }
  }

  lemma ModShift(r: nat, q: nat, size: nat)
    requires size > 0
    ensures (q * size + r) % size == r % size
  {
    var k, m := r / size, r % size;
    assert r == k * size + m;
    assert q * size + k * size == (q + k) * size;
    ModUnique(q * size + r, q + k, m, size);
  }

  /** Fewer than `size` steps never come back to the same slot. */
  lemma SlotsDiffer(a: nat, b: nat, size: nat)
    requires a < b < a + size
    ensures a % size != b % size
  {
    var q, m := a / size, a % size;
    assert a == q * size + m;
    if m + (b - a) < size {
      ModUnique(b, q, m + (b - a), size);
    } else {
      assert (q + 1) * size == q * size + size;
      ModUnique(b, q + 1, m + (b - a) - size, size);
    }
  }

  // ---- the driver --------------------------------------------------------------------

  /** How far the device has come with a chain. */
  datatype Stage = Offered | Taken | Completed

  /** A chain in flight: its descriptors, what the driver put into them, and its stage. */
  datatype Chain = Chain(descs: seq<nat>, entries: seq<Entry>, stage: Stage)

  const FREE := -1

  ghost function Links(ds: seq<Desc>): (nx: seq<nat>)
    ensures |nx| == |ds| && forall d :: 0 <= d < |ds| ==> nx[d] == ds[d].next
  {
    seq(|ds|, d requires 0 <= d < |ds| => ds[d].next)
  }

  /** The chain's descriptors hold its entries, and the last one ends it. */
  ghost predicate ChainOk(ds: seq<Desc>, h: nat, c: Chain) {
    && 0 < |c.descs| == |c.entries| && c.descs[0] == h && NoDup(c.descs)
    && Linked(Links(ds), c.descs) && ds[c.descs[|c.descs| - 1]].next == 0
    && forall i :: 0 <= i < |c.descs| ==>
         var d := ds[c.descs[i]]; Entry(d.addr, d.len, d.write) == c.entries[i] && d.hasNext == (i + 1 < |c.descs|)
  }

  /** The chains are intact, and every descriptor that is not free is in exactly one of them. */
  ghost predicate Apart(ds: seq<Desc>, chains: map<nat, Chain>, owner: seq<int>) {
    && |owner| == |ds| && Below(Links(ds), |ds|)
    && (forall d {:trigger owner[d]} :: 0 <= d < |ds| ==> owner[d] == FREE || (owner[d] >= 0 && owner[d] in chains))
    && (forall h {:trigger ChainOk(ds, h, chains[h])} :: h in chains ==> h < |ds| && ChainOk(ds, h, chains[h]))
    && (forall h, d {:trigger d in chains[h].descs} :: h in chains && 0 <= d < |ds| ==>
       (owner[d] == h <==> d in chains[h].descs))
  }

  /** The free list runs through all free descriptors and nothing else. */
  ghost predicate Whole(ds: seq<Desc>, free: seq<nat>, owner: seq<int>) {
    && |owner| == |ds| && NoDup(free) && Linked(Links(ds), free)
    && (forall d {:trigger d in free} :: 0 <= d < |ds| ==> (owner[d] == FREE <==> d in free))
  }

  /** Every descriptor is either in the free list or in exactly one chain. */
  ghost predicate Partition(ds: seq<Desc>, free: seq<nat>, chains: map<nat, Chain>, owner: seq<int>) {
    Apart(ds, chains, owner) && Whole(ds, free, owner)
  }

  /** The first n free descriptors become a chain that ends with a link to 0. */
  ghost predicate Filled(ds: seq<Desc>, ds': seq<Desc>, c: seq<nat>, entries: seq<Entry>) {
    && |ds'| == |ds| && |c| == |entries|
    && (forall i :: 0 <= i < |c| ==>
          && c[i] < |ds|
          && ds'[c[i]] == Desc(entries[i].addr, entries[i].len, entries[i].deviceWritable, i + 1 < |c|,
                               if i + 1 < |c| then ds[c[i]].next else 0))
    && (forall d :: 0 <= d < |ds| && d !in c ==> ds'[d] == ds[d])
  }

  ghost function Owned(owner: seq<int>, c: seq<nat>, h: int): (r: seq<int>)
    ensures |r| == |owner| && forall d :: 0 <= d < |owner| ==> r[d] == if d in c then h else owner[d]
  {
    seq(|owner|, d requires 0 <= d < |owner| => if d in c then h else owner[d])
  }

  lemma OtherChainStays(ds: seq<Desc>, ds': seq<Desc>, h: nat, c: Chain)
    requires ChainOk(ds, h, c) && |ds'| == |ds|
    requires forall d :: d in c.descs && 0 <= d < |ds| ==> ds'[d] == ds[d]
    ensures ChainOk(ds', h, c)
  {
    forall i | 0 <= i < |c.descs| ensures ds'[c.descs[i]] == ds[c.descs[i]] { assert c.descs[i] in c.descs; }
  }

  lemma SplitNoDup(s: seq<nat>, n: nat)
    requires NoDup(s) && n <= |s|
    ensures NoDup(s[..n]) && NoDup(s[n..])
    ensures forall x :: x in s <==> x in s[..n] || x in s[n..]
    ensures forall x :: !(x in s[..n] && x in s[n..])
  {
    assert s == s[..n] + s[n..];
  }

  lemma FilledLinks(ds: seq<Desc>, ds': seq<Desc>, free: seq<nat>, entries: seq<Entry>)
    requires NoDup(free) && Linked(Links(ds), free) && Below(Links(ds), |ds|) && 0 < |entries| <= |free|
    requires Filled(ds, ds', free[..|entries|], entries)
    ensures Linked(Links(ds'), free[|entries|..]) && Below(Links(ds'), |ds|)
    ensures ChainOk(ds', free[0], Chain(free[..|entries|], entries, Offered))
  {
    var n := |entries|;
    var c, rest := free[..n], free[n..];
    SplitNoDup(free, n);
    forall i, j | 0 <= i < |rest| && j == i + 1 && j < |rest| ensures rest[j] == Links(ds')[rest[i]] {
      assert rest[i] in rest && free[n + j] == Links(ds)[free[n + i]];
    }
    forall i, j | 0 <= i < n && j == i + 1 && j < n ensures c[j] == Links(ds')[c[i]] {
      assert free[j] == Links(ds)[free[i]];
    }
    assert Below(Links(ds'), |ds|) by {
      forall d | 0 <= d < |ds| ensures ds'[d].next < |ds| {
        assert Links(ds)[d] < |ds|;
        if d in c { var i :| 0 <= i < n && c[i] == d; }
      }
    }
  }

  /** Push takes a prefix of the free list: the rest stays free, and the other chains stay as they are. */
  lemma PushPartition(ds: seq<Desc>, ds': seq<Desc>, free: seq<nat>, chains: map<nat, Chain>, owner: seq<int>,
          entries: seq<Entry>)
    requires Partition(ds, free, chains, owner) && 0 < |entries| <= |free|
    requires Filled(ds, ds', free[..|entries|], entries)
    ensures var n := |entries|;
            && free[0] !in chains
            && Partition(ds', free[n..], chains[free[0] := Chain(free[..n], entries, Offered)],
               Owned(owner, free[..n], free[0]))
  {
    var n := |entries|;
    var c, rest := free[..n], free[n..];
    SplitNoDup(free, n);
    FilledLinks(ds, ds', free, entries);
    assert c[0] == free[0] && free[0] in free && free[0] in c;
    forall h | h in chains ensures h != free[0] && ChainOk(ds', h, chains[h]) {
      assert ChainOk(ds, h, chains[h]) && chains[h].descs[0] in chains[h].descs;
      forall d | d in chains[h].descs && 0 <= d < |ds| ensures ds'[d] == ds[d] { assert owner[d] == h; }
      OtherChainStays(ds, ds', h, chains[h]);
    }
    OwnersPush(ds, free, chains, owner, c, rest, Chain(c, entries, Offered));
  }

  lemma OwnersPush(ds: seq<Desc>, free: seq<nat>, chains: map<nat, Chain>, owner: seq<int>, c: seq<nat>, rest: seq<nat>,
          chain: Chain)
    requires Partition(ds, free, chains, owner) && c != [] && c[0] !in chains && chain.descs == c
    requires (forall x :: x in free <==> x in c || x in rest) && (forall x :: !(x in c && x in rest))
    ensures var owner', chains' := Owned(owner, c, c[0]), chains[c[0] := chain];
            && (forall d :: 0 <= d < |ds| ==> (owner'[d] == FREE <==> d in rest))
            && (forall d :: 0 <= d < |ds| ==> owner'[d] == FREE || (owner'[d] >= 0 && owner'[d] in chains'))
            && (forall h, d :: h in chains' && 0 <= d < |ds| ==> (owner'[d] == h <==> d in chains'[h].descs))
  {
    var chains' := chains[c[0] := chain];
    forall h, d | h in chains' && 0 <= d < |ds| ensures Owned(owner, c, c[0])[d] == h <==> d in chains'[h].descs {
      if h != c[0] { assert owner[d] == h <==> d in chains[h].descs; }
    }
  }

  lemma LinkedStays(ds: seq<Desc>, ds': seq<Desc>, s: seq<nat>, last: nat)
    requires Linked(Links(ds), s) && |ds'| == |ds|
    requires forall d :: 0 <= d < |ds| && d != last ==> ds'[d] == ds[d]
    requires forall i :: 0 <= i < |s| - 1 ==> s[i] != last
    ensures Linked(Links(ds'), s)
  {
  }

  lemma LinksBelow(ds: seq<Desc>, last: nat, next: nat)
    requires Below(Links(ds), |ds|) && last < |ds| && next < |ds|
    ensures Below(Links(ds[last := ds[last].(next := next)]), |ds|)
  {
    var ds' := ds[last := ds[last].(next := next)];
    forall d | 0 <= d < |ds| ensures Links(ds')[d] < |ds| { assert Links(ds)[d] < |ds|; }
  }

  lemma NoDupConcat(a: seq<nat>, b: seq<nat>)
    requires NoDup(a) && NoDup(b) && (forall x :: x in a ==> x !in b)
    ensures NoDup(a + b)
  {
    var s := a + b;
    forall i, j | 0 <= i < j < |s| ensures s[i] != s[j] {
      if i < |a| && j >= |a| { assert a[i] in a && b[j - |a|] in b; }
    }
  }

  lemma PoppedLinks(ds: seq<Desc>, free: seq<nat>, chain: Chain, h: nat, freeHead: nat)
    requires ChainOk(ds, h, chain) && NoDup(free) && Linked(Links(ds), free) && Below(Links(ds), |ds|)
    requires freeHead < |ds| && (free != [] ==> free[0] == freeHead) && (forall d :: d in chain.descs ==> d !in free)
    ensures var c := chain.descs; var ds' := ds[c[|c| - 1] := ds[c[|c| - 1]].(next := freeHead)];
            NoDup(c + free) && Linked(Links(ds'), c + free) && Below(Links(ds'), |ds|)
  {
    var c := chain.descs;
    var last := c[|c| - 1];
    var ds' := ds[last := ds[last].(next := freeHead)];
    assert last in c;
    NoDupConcat(c, free);
    LinkedStays(ds, ds', c, last);
    assert forall i :: 0 <= i < |free| ==> free[i] in free;
    LinkedStays(ds, ds', free, last);
    LinksBelow(ds, last, freeHead);
    LinkedConcat(Links(ds'), c, free);
  }

  lemma OwnersPop(ds: seq<Desc>, free: seq<nat>, chains: map<nat, Chain>, owner: seq<int>, h: nat)
    requires Partition(ds, free, chains, owner) && h in chains
    ensures var c := chains[h].descs; var owner', chains' := Owned(owner, c, FREE), chains - {h};
            && (forall d :: 0 <= d < |ds| ==> (owner'[d] == FREE <==> d in c + free))
            && (forall d :: 0 <= d < |ds| ==> owner'[d] == FREE || (owner'[d] >= 0 && owner'[d] in chains'))
            && (forall g, d :: g in chains' && 0 <= d < |ds| ==> (owner'[d] == g <==> d in chains'[g].descs))
  {
    var c := chains[h].descs;
    var owner', chains' := Owned(owner, c, FREE), chains - {h};
    forall d | 0 <= d < |ds| ensures owner'[d] == FREE || (owner'[d] >= 0 && owner'[d] in chains') {
      assert owner[d] == h <==> d in c;
    }
    forall g, d | g in chains' && 0 <= d < |ds| ensures owner'[d] == g <==> d in chains'[g].descs {
      assert (owner[d] == g <==> d in chains[g].descs) && (owner[d] == h <==> d in c);
    }
  }

  /** Pop puts a whole chain in front of the free list. */
  lemma PopPartition(ds: seq<Desc>, free: seq<nat>, chains: map<nat, Chain>, owner: seq<int>, h: nat, freeHead: nat)
    requires Partition(ds, free, chains, owner) && h in chains && freeHead < |ds|
             && (free != [] ==> free[0] == freeHead)
    ensures ChainOk(ds, h, chains[h])
    ensures var c := chains[h].descs; var last := c[|c| - 1]; var ds' := ds[last := ds[last].(next := freeHead)];
            Partition(ds', c + free, chains - {h}, Owned(owner, c, FREE))
  {
    var c := chains[h].descs;
    assert ChainOk(ds, h, chains[h]);
    var last := c[|c| - 1];
    var ds' := ds[last := ds[last].(next := freeHead)];
    forall d | d in c ensures d !in free && owner[d] == h { assert owner[d] == h <==> d in c; }
    assert last in c;
    PoppedLinks(ds, free, chains[h], h, freeHead);
    OwnersPop(ds, free, chains, owner, h);
    forall g | g in chains - {h} ensures g < |ds| && ChainOk(ds', g, (chains - {h})[g]) {
      assert ChainOk(ds, g, chains[g]);
      assert last !in chains[g].descs by { assert owner[last] == g <==> last in chains[g].descs; }
      OtherChainStays(ds, ds', g, chains[g]);
    }
  }

  lemma InitialPartition(ds: seq<Desc>, free: seq<nat>, owner: seq<int>)
    requires ds != [] && |free| == |owner| == |ds|
    requires forall d :: 0 <= d < |ds| ==>
             free[d] == d && owner[d] == FREE && ds[d].next == if d + 1 == |ds| then 0 else d + 1
    ensures Partition(ds, free, map[], owner)
  {
    assert forall d :: 0 <= d < |ds| ==> free[d] in free;
  }

  // ---- the rings -----------------------------------------------------------------------

  /** The ring holds the queued values at the slots from position `first` on. */
  ghost predicate RingHolds<T>(ring: seq<T>, first: nat, queue: seq<T>) {
    |ring| > 0 && |queue| <= |ring| && forall i :: 0 <= i < |queue| ==> ring[(first + i) % |ring|] == queue[i]
  }

  lemma RingAppend<T>(ring: seq<T>, first: nat, queue: seq<T>, x: T)
    requires RingHolds(ring, first, queue) && |queue| < |ring|
    ensures RingHolds(ring[(first + |queue|) % |ring| := x], first, queue + [x])
  {
    var slot := (first + |queue|) % |ring|;
    var ring' := ring[slot := x];
    forall i | 0 <= i < |queue| + 1 ensures ring'[(first + i) % |ring|] == (queue + [x])[i] {
      if i < |queue| { SlotsDiffer(first + i, first + |queue|, |ring|); }
    }
  }

  lemma RingRemove<T>(ring: seq<T>, first: nat, queue: seq<T>)
    requires RingHolds(ring, first, queue) && queue != []
    ensures ring[first % |ring|] == queue[0] && RingHolds(ring, first + 1, queue[1..])
  {
    forall i | 0 <= i < |queue| - 1 ensures ring[(first + 1 + i) % |ring|] == queue[1..][i] {
      assert ring[(first + (i + 1)) % |ring|] == queue[i + 1];
    }
  }

  ghost function Ids(done: seq<UsedElem>): (r: seq<nat>)
    ensures |r| == |done| && forall i :: 0 <= i < |done| ==> r[i] == done[i].id
  {
    seq(|done|, i requires 0 <= i < |done| => done[i].id)
  }

  /** The queued heads are exactly the chains at that stage. */
  ghost predicate Lists(queue: seq<nat>, chains: map<nat, Chain>, stage: Stage) {
    NoDup(queue) && forall h :: h in queue <==> h in chains && chains[h].stage == stage
  }

  // ---- the reclaim loop of virtq_push() ------------------------------------------------------

  /**
   A walk that enters the linked sequence s at position j sees the rest of s, and goes on where the last link
   of s points.
   */
  lemma {:induction false} WalkFrom(nx: seq<nat>, s: seq<nat>, j: nat, m: nat)
    requires Linked(nx, s) && j < |s|
    ensures Walk(nx, s[j], |s| - j + m) == s[j..] + Walk(nx, nx[s[|s| - 1]], m)
    decreases |s| - j
  {
    var rest := Walk(nx, nx[s[|s| - 1]], m);
    assert s[j..] == [s[j]] + s[j + 1..];
    if j + 1 < |s| {
      assert s[j + 1] == nx[s[j]];
      WalkFrom(nx, s, j + 1, m);
      assert [s[j]] + (s[j + 1..] + rest) == s[j..] + rest;
    }
  }

  /** v visits each element of s once and nothing else. */
  ghost predicate Permutes(v: seq<nat>, s: seq<nat>) {
    NoDup(v) && forall x :: x in v <==> x in s
  }

  /** The walk of |free| steps from descriptor 0 visits the free list exactly in these cases. */
  ghost predicate ZeroLeadsThrough(nx: seq<nat>, free: seq<nat>) {
    free == [] || free[0] == 0 || (0 in free && free[|free| - 1] < |nx| && nx[free[|free| - 1]] == free[0])
  }

  lemma ZeroLeads(nx: seq<nat>, free: seq<nat>)
    requires Linked(nx, free) && NoDup(free) && ZeroLeadsThrough(nx, free)
    ensures Permutes(Walk(nx, 0, |free|), free)
  {
    if free == [] {
    } else if free[0] == 0 {
      WalkUnique(nx, free);
    } else {
      var j :| 0 <= j < |free| && free[j] == 0;
      WalkRound(nx, free, j);
      Rotated(free, j);
    }
  }

  /** A ring entered at position j. */
  lemma WalkRound(nx: seq<nat>, ring: seq<nat>, j: nat)
    requires Linked(nx, ring) && j < |ring| && nx[ring[|ring| - 1]] == ring[0]
    ensures Walk(nx, ring[j], |ring|) == ring[j..] + ring[..j]
  {
    WalkFrom(nx, ring, j, j);
    if j > 0 {
      assert Linked(nx, ring[..j]);
      WalkUnique(nx, ring[..j]);
    }
  }

  lemma Rotated(s: seq<nat>, j: nat)
    requires NoDup(s) && j <= |s|
    ensures Permutes(s[j..] + s[..j], s)
  {
    SplitNoDup(s, j);
    NoDupConcat(s[j..], s[..j]);
    forall x ensures x in s[j..] + s[..j] <==> x in s { }
  }

  lemma LeadsFromZero(nx: seq<nat>, free: seq<nat>, j: nat, k: nat)
    requires Linked(nx, free) && NoDup(free) && 0 < j < |free| && free[j] == 0 && k < |free|
             && nx[free[|free| - 1]] == free[k]
    ensures k == 0 || !NoDup(Walk(nx, 0, |free|))
  {
    var n := |free|;
    var v := Walk(nx, 0, n);
    WalkFrom(nx, free, j, j);
    var rest := Walk(nx, free[k], j);
    assert v == free[j..] + rest && v[n - j] == free[k];
    if k >= j {
      assert v[k - j] == free[k];
    } else if k > 0 {
      assert Linked(nx, free[..j]);
      WalkFrom(nx, free[..j], k, k);
      assert nx[free[j - 1]] == free[j];
      assert rest == free[..j][k..] + Walk(nx, 0, k) && rest[j - k] == 0;
      assert v[n - j + (j - k)] == 0 && v[0] == 0;
    }
  }

  lemma ConcatApart(c: seq<nat>, v: seq<nat>)
    requires NoDup(c + v)
    ensures NoDup(v) && forall x :: x in v ==> x !in c
  {
    forall i, k | 0 <= i < |c| && 0 <= k < |v| ensures c[i] != v[k] { assert (c + v)[i] != (c + v)[|c| + k]; }
    forall i, k | 0 <= i < k < |v| ensures v[i] != v[k] { assert (c + v)[|c| + i] != (c + v)[|c| + k]; }
  }

  /**
   The reclaim loop sets free_head to the chain and adds its length, but leaves the chain's last link at 0.
   The free list is whole again if and only if it was empty, or descriptor 0 leads through all of it.
   */
  lemma ReclaimIff(nx: seq<nat>, c: seq<nat>, free: seq<nat>)
    requires c != [] && Linked(nx, c) && NoDup(c) && nx[c[|c| - 1]] == 0
    requires Linked(nx, free) && NoDup(free) && (forall x :: x in c ==> x !in free)
    ensures Permutes(Walk(nx, c[0], |c| + |free|), c + free) <==> ZeroLeadsThrough(nx, free)
  {
    var v := Walk(nx, 0, |free|);
    WalkFrom(nx, c, 0, |free|);
    if ZeroLeadsThrough(nx, free) {
      ZeroLeads(nx, free);
      NoDupConcat(c, v);
    }
    if Permutes(c + v, c + free) && free != [] {
      ConcatApart(c, v);
      assert forall x :: x in v ==> x in c + v;
      assert v[0] in v && v[0] in c + free;
      if free[0] != 0 {
        var j :| 0 <= j < |free| && free[j] == 0;
        WalkFrom(nx, free, j, j);
        var s := nx[free[|free| - 1]];
        assert v[|free| - j] == s && v[|free| - j] in v && s in c + free;
        var k :| 0 <= k < |free| && free[k] == s;
        LeadsFromZero(nx, free, j, k);
      }
    }
  }

  /** A chain joins the free list as the reclaim loop leaves it. */
  lemma ReclaimPartition(ds: seq<Desc>, free: seq<nat>, chains: map<nat, Chain>, owner: seq<int>, h: nat,
          free': seq<nat>)
    requires Partition(ds, free, chains, owner) && h in chains && Linked(Links(ds), free')
    ensures Partition(ds, free', chains - {h}, Owned(owner, chains[h].descs, FREE))
            <==> Permutes(free', chains[h].descs + free)
  {
    var c := chains[h].descs;
    OwnersPop(ds, free, chains, owner, h);
    assert ChainOk(ds, h, chains[h]);
    forall d | d in c + free ensures d < |ds| {
      if d in c { var i :| 0 <= i < |c| && c[i] == d; } else { var i :| 0 <= i < |free| && free[i] == d; }
    }
    forall d | d in free' ensures d < |ds| { var i :| 0 <= i < |free'| && free'[i] == d; }
    forall g | g in chains - {h}
      ensures g < |ds| && ChainOk(ds, g, (chains - {h})[g]) { assert ChainOk(ds, g, chains[g]); }
  }

  lemma ReclaimLinks(ds: seq<Desc>, free: seq<nat>, chains: map<nat, Chain>, owner: seq<int>, h: nat)
    requires Partition(ds, free, chains, owner) && h in chains
    ensures h < |ds| && ChainOk(ds, h, chains[h]) && Linked(Links(ds), Walk(Links(ds), h, |chains[h].descs| + |free|))
    ensures forall x :: x in chains[h].descs ==> x !in free
  {
    assert ChainOk(ds, h, chains[h]);
    WalkIsLinked(Links(ds), h, |chains[h].descs| + |free|);
    forall x | x in chains[h].descs ensures x !in free { assert owner[x] == h <==> x in chains[h].descs; }
  }

  /** Free list and chains partition the descriptors after one round of the reclaim loop exactly in these cases. */
  lemma ReclaimSound(ds: seq<Desc>, free: seq<nat>, chains: map<nat, Chain>, owner: seq<int>, h: nat)
    requires Partition(ds, free, chains, owner) && h in chains
    ensures h < |ds| && chains[h].descs != []
    ensures Partition(ds, Walk(Links(ds), h, |chains[h].descs| + |free|), chains - {h},
            Owned(owner, chains[h].descs, FREE))
            <==> ZeroLeadsThrough(Links(ds), free)
  {
    ReclaimLinks(ds, free, chains, owner, h);
    ReclaimIff(Links(ds), chains[h].descs, free);
    ReclaimPartition(ds, free, chains, owner, h, Walk(Links(ds), h, |chains[h].descs| + |free|));
  }

  /** The free list after each completed chain has been reclaimed in turn, as long as that leaves it whole. */
  ghost predicate ReclaimsWell(nx: seq<nat>, free: seq<nat>, chains: map<nat, Chain>, done: seq<UsedElem>)
    decreases |done|
  {
    done != [] ==>
      && ZeroLeadsThrough(nx, free) && done[0].id in chains
      && ReclaimsWell(nx, Walk(nx, done[0].id, |chains[done[0].id].descs| + |free|), chains - {done[0].id}, done[1..])
  }

  /** The free list that the rounds of the reclaim loop leave behind. */
  ghost function Reclaimed(nx: seq<nat>, free: seq<nat>, chains: map<nat, Chain>, done: seq<UsedElem>): seq<nat>
    decreases |done|
  {
    if done == [] || done[0].id !in chains then free
    else Reclaimed(nx, Walk(nx, done[0].id, |chains[done[0].id].descs| + |free|), chains - {done[0].id}, done[1..])
  }

  /** A free descriptor still has the link to 0 of the chain that it ended. */
  ghost predicate Ended(ds: seq<Desc>, owner: seq<int>) {
    |owner| == |ds| && exists d {:trigger owner[d]} :: 0 <= d < |ds| && owner[d] == FREE && ds[d].next == 0
  }

  lemma ReclaimApart(ds: seq<Desc>, chains: map<nat, Chain>, owner: seq<int>, h: nat)
    requires Apart(ds, chains, owner) && h in chains
    ensures h < |ds| && ChainOk(ds, h, chains[h]) && (forall d :: d in chains[h].descs ==> d < |ds| && owner[d] == h)
    ensures var owner' := Owned(owner, chains[h].descs, FREE);
            Apart(ds, chains - {h}, owner') && owner'[h] == FREE && Ended(ds, owner')
  {
    var c := chains[h].descs;
    assert ChainOk(ds, h, chains[h]);
    var owner', chains' := Owned(owner, c, FREE), chains - {h};
    forall d | d in c ensures d < |ds| && owner[d] == h {
      var i :| 0 <= i < |c| && c[i] == d;
      assert owner[d] == h <==> d in c;
    }
    assert c[0] in c && c[|c| - 1] in c && owner'[c[|c| - 1]] == FREE;
    forall d | 0 <= d < |ds| ensures owner'[d] == FREE || (owner'[d] >= 0 && owner'[d] in chains') {
      assert owner[d] == h <==> d in c;
    }
    forall g | g in chains' ensures g < |ds| && ChainOk(ds, g, chains'[g]) { assert ChainOk(ds, g, chains[g]); }
    forall g, d | g in chains' && 0 <= d < |ds| ensures owner'[d] == g <==> d in chains'[g].descs {
      assert (owner[d] == g <==> d in chains[g].descs) && (owner[d] == h <==> d in c);
    }
  }

  /** A walk of distinct descriptors that visits one with a link back to its start is a ring. */
  lemma ClosesRing(nx: seq<nat>, v: seq<nat>, e: nat)
    requires Linked(nx, v) && NoDup(v) && e in v && nx[e] == v[0]
    ensures nx[v[|v| - 1]] == v[0]
  {
    var p :| 0 <= p < |v| && v[p] == e;
    forall i | 0 <= i < |v| - 1 ensures nx[v[i]] != v[0] { assert v[i + 1] == nx[v[i]]; }
  }

  lemma RingThrough(nx: seq<nat>, v: seq<nat>, j: nat, ring: seq<nat>)
    requires Linked(nx, v) && NoDup(v) && j < |v| && nx[v[|v| - 1]] == v[0] == 0 && ring == v[j..] + v[..j]
    ensures ZeroLeadsThrough(nx, ring)
  {
    assert v[0] in v;
    Rotated(v, j);
    if j == 0 { assert ring == v; } else { assert ring[|ring| - 1] == v[j - 1] && nx[v[j - 1]] == v[j]; }
  }

  /** Nothing relinks between the rounds: a round that ends with a whole free list has started with one. */
  lemma BrokenStays(ds: seq<Desc>, free: seq<nat>, chains: map<nat, Chain>, owner: seq<int>, freeHead: nat, h: nat)
    requires Apart(ds, chains, owner) && freeHead < |ds| && owner[freeHead] == FREE && Ended(ds, owner)
    requires free != [] && free == Walk(Links(ds), freeHead, |free|) && h in chains
    requires Whole(ds, Walk(Links(ds), h, |chains[h].descs| + |free|), Owned(owner, chains[h].descs, FREE))
    ensures Whole(ds, free, owner) && ZeroLeadsThrough(Links(ds), free)
  {
    var c, nx := chains[h].descs, Links(ds);
    ReclaimApart(ds, chains, owner, h);
    var v := Walk(nx, 0, |free|);
    WalkFrom(nx, c, 0, |free|);
    assert c[0..] == c;
    ConcatApart(c, v);
    WalkIsLinked(nx, 0, |free|);
    WalkIsLinked(nx, freeHead, |free|);
    var owner' := Owned(owner, c, FREE);
    forall d | 0 <= d < |ds| ensures owner[d] == FREE <==> d in v {
      assert owner'[d] == FREE <==> d in c + v;
    }
    var e :| 0 <= e < |ds| && owner[e] == FREE && ds[e].next == 0;
    ClosesRing(nx, v, e);
    var j :| 0 <= j < |v| && v[j] == freeHead;
    WalkRound(nx, v, j);
    Rotated(v, j);
    RingThrough(nx, v, j, free);
  }

  /** One round of the reclaim loop, on a whole free list or on one that earlier rounds have left behind. */
  lemma RoundIff(ds: seq<Desc>, free: seq<nat>, chains: map<nat, Chain>, owner: seq<int>, freeHead: nat, h: nat)
    requires Apart(ds, chains, owner) && freeHead < |ds| && (free != [] ==> owner[freeHead] == FREE) && h in chains
    requires free == Walk(Links(ds), freeHead, |free|) && (Whole(ds, free, owner) || (free != [] && Ended(ds, owner)))
    ensures h < |ds| && chains[h].descs != []
    ensures var owner' := Owned(owner, chains[h].descs, FREE);
            Apart(ds, chains - {h}, owner') && owner'[h] == FREE && Ended(ds, owner')
    ensures Whole(ds, Walk(Links(ds), h, |chains[h].descs| + |free|), Owned(owner, chains[h].descs, FREE))
            <==> Whole(ds, free, owner) && ZeroLeadsThrough(Links(ds), free)
  {
    ReclaimApart(ds, chains, owner, h);
    if Whole(ds, free, owner) {
      ReclaimSound(ds, free, chains, owner, h);
    } else if Whole(ds, Walk(Links(ds), h, |chains[h].descs| + |free|), Owned(owner, chains[h].descs, FREE)) {
      BrokenStays(ds, free, chains, owner, freeHead, h);
    }
  }

  // ---- virtq_push() on a free list that is not whole --------------------------------------------

  lemma {:induction false} WalkAgree(nx: seq<nat>, nx': seq<nat>, h: nat, n: nat)
    requires |nx| == |nx'| && Below(nx', |nx|) && h < |nx|
    requires forall x :: x in Walk(nx', h, n) && x < |nx| ==> nx[x] == nx'[x]
    ensures Walk(nx, h, n) == Walk(nx', h, n)
    decreases n
  {
    if n > 0 {
      assert Walk(nx', h, n) == [h] + Walk(nx', nx'[h], n - 1);
      assert h in Walk(nx', h, n);
      WalkAgree(nx, nx', nx'[h], n - 1);
    }
  }

  /** The links after virtq_push() has taken the first n descriptors of the walk and ended the chain. */
  ghost predicate Cut(nx: seq<nat>, nx': seq<nat>, last: nat) {
    last < |nx| == |nx'| && nx' == nx[last := 0]
  }

  /** A walk that goes on behind the first n descriptors without meeting the last of them does not notice the cut. */
  lemma WalkPastCut(nx: seq<nat>, nx': seq<nat>, h: nat, s: seq<nat>, m: nat)
    requires Below(nx, |nx|) && h < |nx| && s != [] && s == Walk(nx, h, |s|) && Cut(nx, nx', s[|s| - 1])
    requires s[|s| - 1] !in Walk(nx', nx[s[|s| - 1]], m)
    ensures Walk(nx, h, |s| + m) == s + Walk(nx', nx[s[|s| - 1]], m)
  {
    WalkIsLinked(nx, h, |s|);
    assert Below(nx', |nx|);
    WalkAgree(nx, nx', nx[s[|s| - 1]], m);
    WalkFrom(nx, s, 0, m);
    assert s[0..] == s;
  }

  lemma {:induction false} WalkTake(nx: seq<nat>, h: nat, n: nat, k: nat)
    requires Below(nx, |nx|) && h < |nx| && k <= n
    ensures Walk(nx, h, n)[..k] == Walk(nx, h, k)
    decreases k
  {
    if k > 0 { WalkTake(nx, nx[h], n - 1, k - 1); }
  }

  /** The new chain's descriptors were free if no other chain has lost one to it. */
  lemma TookFree(ds: seq<Desc>, ds': seq<Desc>, chains: map<nat, Chain>, owner: seq<int>, h: nat, c: Chain, d: nat)
    requires Apart(ds, chains, owner) && h !in chains && Apart(ds', chains[h := c], Owned(owner, c.descs, h))
             && |ds'| == |ds|
    requires d in c.descs && d < |ds|
    ensures owner[d] == FREE
  {
    forall g | g in chains ensures owner[d] != g {
      assert Owned(owner, c.descs, h)[d] == g <==> d in chains[h := c][g].descs;
    }
  }

  lemma WholeConcat(ds: seq<Desc>, c: seq<nat>, rest: seq<nat>, owner: seq<int>, h: nat)
    requires |owner| == |ds| && NoDup(c) && NoDup(rest) && Linked(Links(ds), c + rest)
    requires forall d :: d in c ==> d < |ds| && owner[d] == FREE
    requires forall d :: 0 <= d < |ds| ==> (Owned(owner, c, h)[d] == FREE <==> d in rest)
    ensures Whole(ds, c + rest, owner)
  {
    forall d | d in c ensures d !in rest { assert Owned(owner, c, h)[d] == h; }
    NoDupConcat(c, rest);
  }

  /** A push leaves the queue sound only if the descriptors it has walked through were all the free ones, each once. */
  lemma PushedWhole(ds: seq<Desc>, ds': seq<Desc>, free: seq<nat>, rest: seq<nat>, chains: map<nat, Chain>,
          owner: seq<int>, h: nat, c: Chain)
    requires Apart(ds, chains, owner) && h < |ds| == |ds'| && h !in chains && 0 < |c.descs| <= |free|
    requires free == Walk(Links(ds), h, |free|) && c.descs == free[..|c.descs|]
    requires Cut(Links(ds), Links(ds'), c.descs[|c.descs| - 1])
    requires rest == Walk(Links(ds'), Links(ds)[c.descs[|c.descs| - 1]], |free| - |c.descs|)
    requires Partition(ds', rest, chains[h := c], Owned(owner, c.descs, h))
    ensures Whole(ds, free, owner)
  {
    PushedWalk(ds, ds', free, rest, owner, h, c.descs);
    assert ChainOk(ds', h, chains[h := c][h]);
    forall d | d in c.descs ensures d < |ds| && owner[d] == FREE {
      var i :| 0 <= i < |c.descs| && c.descs[i] == d;
      TookFree(ds, ds', chains, owner, h, c, d);
    }
    WholeConcat(ds, c.descs, rest, owner, h);
  }

  lemma PushedWalk(ds: seq<Desc>, ds': seq<Desc>, free: seq<nat>, rest: seq<nat>, owner: seq<int>, h: nat, c: seq<nat>)
    requires Below(Links(ds), |ds|) && h < |ds| == |ds'| == |owner| && 0 < |c| <= |free|
    requires free == Walk(Links(ds), h, |free|) && c == free[..|c|] && Cut(Links(ds), Links(ds'), c[|c| - 1])
    requires rest == Walk(Links(ds'), Links(ds)[c[|c| - 1]], |free| - |c|) && Whole(ds', rest, Owned(owner, c, h))
    ensures free == c + rest && Linked(Links(ds), free)
  {
    var last := c[|c| - 1];
    assert last in c && Owned(owner, c, h)[last] == h && last !in rest;
    WalkTake(Links(ds), h, |free|, |c|);
    WalkPastCut(Links(ds), Links(ds'), h, c, |free| - |c|);
    WalkIsLinked(Links(ds), h, |free|);
  }

  /** The filled descriptors leave the free list: the queue is as sound as the free list was whole. */
  lemma ClaimIff(ds: seq<Desc>, ds': seq<Desc>, free: seq<nat>, chains: map<nat, Chain>, owner: seq<int>, h: nat,
          entries: seq<Entry>)
    requires Apart(ds, chains, owner) && h < |ds| == |ds'| && h !in chains && 0 < |entries| <= |free|
    requires free == Walk(Links(ds), h, |free|) && Cut(Links(ds), Links(ds'), free[|entries| - 1])
    requires NoDup(free[..|entries|]) ==> Filled(ds, ds', free[..|entries|], entries)
    ensures var n := |entries|; var rest := Walk(Links(ds'), Links(ds)[free[n - 1]], |free| - n);
            && (Partition(ds', rest, chains[h := Chain(free[..n], entries, Offered)], Owned(owner, free[..n], h))
               <==> Whole(ds, free, owner))
            && (Whole(ds, free, owner) ==> rest == free[n..])
  {
    var n := |entries|;
    var rest, c := Walk(Links(ds'), Links(ds)[free[n - 1]], |free| - n), Chain(free[..n], entries, Offered);
    if Whole(ds, free, owner) {
      SplitNoDup(free, n);
      PushPartition(ds, ds', free, chains, owner, entries);
      if n < |free| {
        assert free[n] == Links(ds)[free[n - 1]];
        WalkUnique(Links(ds'), free[n..]);
      }
      assert rest == free[n..];
    } else if Partition(ds', rest, chains[h := c], Owned(owner, free[..n], h)) {
      PushedWhole(ds, ds', free, rest, chains, owner, h, c);
    }
  }

  /** The first i descriptors of the walk w hold the entries, each with a link to the next one. */
  ghost predicate Written(ds: seq<Desc>, ds': seq<Desc>, w: seq<nat>, entries: seq<Entry>, i: nat) {
    && i <= |w| == |entries| && Below(w, |ds|) && |ds'| == |ds|
    && (forall d :: 0 <= d < |ds| ==> ds'[d].next == ds[d].next)
    && (forall d :: 0 <= d < |ds| && d !in w[..i] ==> ds'[d] == ds[d])
    && (NoDup(w) ==> forall j :: 0 <= j < i ==>
          ds'[w[j]] == Desc(entries[j].addr, entries[j].len, entries[j].deviceWritable, true, ds[w[j]].next))
  }

  lemma WriteNext(ds: seq<Desc>, ds': seq<Desc>, w: seq<nat>, entries: seq<Entry>, i: nat)
    requires Written(ds, ds', w, entries, i) && i < |w|
    ensures var e := entries[i];
            Written(ds, ds'[w[i] := Desc(e.addr, e.len, e.deviceWritable, true, ds'[w[i]].next)], w, entries, i + 1)
  {
    assert w[..i + 1] == w[..i] + [w[i]];
  }

  class Queue {
    const num: nat                 // num_descs
    const descs: array<Desc>
    const avail: array<nat>        // avail->ring
    const used: array<UsedElem>    // used->ring
    var freeHead: nat
    var numFree: nat
    var availIndex: nat            // avail->index, 16 bits
    var usedIndex: nat             // used->index, 16 bits
    var lastUsed: nat              // last_used_index
    var taken: nat                 // how many heads the device has taken; its own state

    ghost var free: seq<nat>            // the free list
    ghost var chains: map<nat, Chain>   // the chains in flight, by their heads
    ghost var owner: seq<int>           // of each descriptor: FREE or the head of its chain
    ghost var offered: seq<nat>         // heads in the avail ring that the device has not taken
    ghost var done: seq<UsedElem>       // elements of the used ring that the driver has not popped
    ghost var usedCount: nat            // used->index without the wrap-around

    /** The two rings hold what is on its way to the device and back. */
    ghost predicate RingsHold(chains: map<nat, Chain>, done: seq<UsedElem>, lastUsed: nat)
      reads this`availIndex, this`usedIndex, this`taken, this`offered, this`usedCount, avail, used
    {
      && 0 < num <= 4096 && num == descs.Length == avail.Length == used.Length && WRAP % num == 0
      && Lists(offered, chains, Offered) && RingHolds(avail[..], taken, offered)
         && availIndex == (taken + |offered|) % WRAP
      && Lists(Ids(done), chains, Completed) && RingHolds(used[..], lastUsed, done) && Below(Ids(used[..]), num)
      && usedCount == lastUsed + |done| && usedIndex == usedCount % WRAP
    }

    ghost predicate RingsOk()
      reads this, avail, used
    {
      RingsHold(chains, done, lastUsed)
    }

    ghost predicate Valid()
      reads this, descs, avail, used
    {
      && RingsOk() && freeHead < num && Partition(descs[..], free, chains, owner)
      && |free| == numFree && (free != [] ==> free[0] == freeHead)
    }

    /** The free list is the walk from free_head along as many links as num_free_descs counts. */
    ghost predicate FreeListWalks()
      reads this`freeHead, this`numFree, this`free, this`chains, this`owner, descs
    {
      && freeHead < num == descs.Length && Apart(descs[..], chains, owner) && (numFree > 0 ==> owner[freeHead] == FREE)
      && |free| == numFree && free == Walk(Links(descs[..]), freeHead, numFree)
    }

    /** Everything but that this walk runs through all free descriptors. */
    ghost predicate Sane()
      reads this, descs, avail, used
    {
      RingsOk() && FreeListWalks()
    }

    ghost predicate FreeListWhole()
      reads this`free, this`owner, descs
    {
      Whole(descs[..], free, owner)
    }

    lemma ValidIff()
      ensures Valid() <==> Sane() && FreeListWhole()
    {
      if Valid() && free != [] {
        WalkUnique(Links(descs[..]), free);
        assert free[0] in free;
      }
    }

    /** The free list is what the links spell out, and its length is the counter. */
    lemma FreeListIsWalk()
      requires Valid()
      ensures free == Walk(Links(descs[..]), freeHead, numFree)
    {
      ValidIff();
    }

    /** virtq_init() */
    constructor (num: nat)
      requires 0 < num <= 4096 && WRAP % num == 0
      ensures Valid() && this.num == num && numFree == num && free == seq(num, i => i) && chains == map[]
      ensures offered == [] && done == [] && usedCount == 0
      ensures fresh(descs) && fresh(avail) && fresh(used)
    {
      this.num := num;
      descs := new Desc[num](i => Desc(0, 0, false, false, 0));
      avail := new nat[num](i => 0);
      used := new UsedElem[num](i => UsedElem(0, 0));
      freeHead, numFree, availIndex, usedIndex, lastUsed := 0, num, 0, 0, 0;
      free := seq(num, i => i);
      chains, owner, offered, done, taken, usedCount := map[], seq(num, i => FREE), [], [], 0, 0;
      new;
      for i := 0 to num
        modifies descs
        invariant forall j :: 0 <= j < i ==> descs[j].next == if j + 1 == num then 0 else j + 1
      {
        descs[i] := descs[i].(next := if i + 1 == num then 0 else i + 1);
      }
      InitialPartition(descs[..], free, owner);
    }

    /** The loop of virtq_push() that fills the descriptors. */
    method FillAll(chain: seq<Entry>) returns (last: nat)
      requires freeHead < num == descs.Length && Below(Links(descs[..]), num)
      requires |free| == numFree && free == Walk(Links(descs[..]), freeHead, numFree) && 0 < |chain| <= numFree
      modifies descs
      ensures last == free[|chain| - 1] < num && Written(old(descs[..]), descs[..], free[..|chain|], chain, |chain|)
    {
      ghost var ds, w := descs[..], free[..|chain|];
      WalkIsLinked(Links(ds), freeHead, numFree);
      var descIndex := freeHead;
      last := freeHead;
      for i := 0 to |chain|
        invariant descIndex < num && (i < |chain| ==> descIndex == w[i]) && (i > 0 ==> last == w[i - 1])
        invariant Written(ds, descs[..], w, chain, i)
      {
        last := descIndex;
        WriteNext(ds, descs[..], w, chain, i);
        ghost var was := descs[..];
        descs[last] := Desc(chain[i].addr, chain[i].len, chain[i].deviceWritable, true, descs[last].next);
        assert descs[..] == was[last := descs[last]];
        assert descs[last].next == Links(ds)[w[i]] < num && (i + 1 < |chain| ==> free[i + 1] == Links(ds)[free[i]]);
        descIndex := descs[last].next;
      }
    }

    /** The filling loop, and the end of the chain. */
    method Fill(chain: seq<Entry>) returns (unusedNext: nat)
      requires Sane() && 0 < |chain| <= numFree
      modifies descs
      ensures Cut(Links(old(descs[..])), Links(descs[..]), free[|chain| - 1])
      ensures NoDup(free[..|chain|]) ==> Filled(old(descs[..]), descs[..], free[..|chain|], chain)
      ensures unusedNext == old(descs[..])[free[|chain| - 1]].next < num
    {
      var last := FillAll(chain);
      ghost var mid := descs[..];
      unusedNext := descs[last].next;
      assert Links(old(descs[..]))[last] < num;
      descs[last] := descs[last].(next := 0, hasNext := false);
      assert Links(mid) == Links(old(descs[..])) && Links(descs[..]) == Links(mid)[last := 0];
      assert last == free[..|chain|][|chain| - 1];
    }

    /** The head of the free list is not a chain, and there is a slot in the avail ring for it. */
    lemma RoomForHead()
      requires Sane() && numFree > 0
      ensures freeHead !in chains && freeHead !in offered && |offered| < num
    {
      forall h | h in chains
        ensures h in chains[h].descs && h < num && owner[h] == h { assert ChainOk(descs[..], h, chains[h]); }
      ListsRoom(offered, chains, Offered, num, freeHead);
    }

    /** The loop that counts the descriptors of a chain. */
    method CountChain(h: nat) returns (n: nat)
      requires num == descs.Length && h in chains && ChainOk(descs[..], h, chains[h])
      ensures n == |chains[h].descs|
    {
      ghost var c := chains[h].descs;
      var next := h;
      n := 1;
      while descs[next].hasNext
        invariant 0 < n <= |c| && next == c[n - 1]
        decreases |c| - n
      {
        next, n := descs[next].next, n + 1;
      }
    }

    /** The free list is whole, or it is what an earlier round has left behind. */
    ghost predicate Reclaiming()
      reads this`freeHead, this`numFree, this`free, this`chains, this`owner, descs
    {
      FreeListWalks() && (FreeListWhole() || (numFree > 0 && Ended(descs[..], owner)))
    }

    /**
     One round of the reclaim loop of virtq_push().  The chain completed first is counted as free again, but
     nothing links its last descriptor to the free list: the queue is sound afterwards if and only if it was
     sound and descriptor 0, to which that link points, leads through the whole free list.
     */
    method ReclaimOne()
      requires RingsOk() && Reclaiming() && done != []
      modifies this`freeHead, this`numFree, this`lastUsed, this`free, this`chains, this`owner, this`done
      ensures RingsOk() && Reclaiming()
              && (FreeListWhole() <==> old(FreeListWhole()) && ZeroLeadsThrough(Links(descs[..]), old(free)))
      ensures old(done)[0].id in old(chains) && old(chains)[old(done)[0].id].stage == Completed
      ensures chains == old(chains) - {old(done)[0].id} && done == old(done)[1..]
      ensures free == Walk(Links(descs[..]), old(done)[0].id, |old(chains)[old(done)[0].id].descs| + |old(free)|)
      ensures lastUsed == old(lastUsed) + 1
    {
      var h, n := NextUsed();
      CountFree(h, n);
      Advance();
    }

    /** last_used_index moves on to the next slot. */
    method Advance()
      requires if done == [] then usedCount == lastUsed else RingsHold(chains, done[1..], lastUsed + 1)
      modifies this`lastUsed, this`done
      ensures (RingsOk() <==> old(done) != []) && lastUsed == old(lastUsed) + 1
      ensures done == if old(done) == [] then [] else old(done)[1..]
    {
      lastUsed := lastUsed + 1;
      if done != [] { done := done[1..]; }
    }

    /** The chain that the next slot of the used ring names, and its length. */
    method NextUsed() returns (h: nat, n: nat)
      requires RingsOk() && Apart(descs[..], chains, owner) && done != []
      ensures h == done[0].id && h in chains && chains[h].stage == Completed && n == |chains[h].descs|
      ensures RingsHold(chains - {h}, done[1..], lastUsed + 1)
    {
      FirstDone();
      h := used[lastUsed % num].id;
      n := CountChain(h);
    }

    /** free_head and num_free_descs change, and nothing else. */
    method CountFree(h: nat, n: nat)
      requires Reclaiming() && h in chains && n == |chains[h].descs|
      modifies this`freeHead, this`numFree, this`free, this`chains, this`owner
      ensures Reclaiming() && chains == old(chains) - {h}
      ensures FreeListWhole() <==> old(FreeListWhole()) && ZeroLeadsThrough(Links(descs[..]), old(free))
      ensures free == Walk(Links(descs[..]), h, |old(chains)[h].descs| + |old(free)|)
    {
      RoundIff(descs[..], free, chains, owner, freeHead, h);
      freeHead := h;
      numFree := numFree + n;
      owner := Owned(owner, chains[h].descs, FREE);
      free := Walk(Links(descs[..]), h, n + |free|);
      chains := chains - {h};
      assert descs[..] == old(descs[..]);
    }

    /** Below 65536 completions the driver's test is right. */
    lemma UsedUp()
      requires RingsOk() && usedCount < WRAP
      ensures lastUsed == usedIndex <==> done == []
    {
    }

    /** After k rounds the test of the reclaim loop finds the used ring empty. */
    ghost predicate EmptyAfter(k: nat)
      reads this
    {
      lastUsed + k == usedIndex
    }

    /** The reclaim loop ends if and only if fewer than 65536 chains have completed. */
    lemma ReclaimEndsIff()
      requires RingsOk()
      ensures (exists k: nat :: EmptyAfter(k)) <==> usedCount < WRAP
    {
      if usedCount < WRAP {
        assert EmptyAfter(|done|);
      } else {
        assert usedCount % WRAP == (usedCount - WRAP) % WRAP <= usedCount - WRAP;
      }
    }

    /** The chains that the device has not completed. */
    ghost predicate Unfinished(before: map<nat, Chain>, after: map<nat, Chain>) {
      && (forall h :: h in after <==> h in before && before[h].stage != Completed)
      && (forall h :: h in after ==> after[h] == before[h])
    }

    /** Every round of the reclaim loop will leave the free list whole. */
    ghost predicate WillReclaimWell()
      reads this`free, this`chains, this`done, descs
    {
      ReclaimsWell(Links(descs[..]), free, chains, done)
    }

    /** A round, and what is still to come. */
    method ReclaimNext(ghost well: bool, ghost goal: seq<nat>, ghost before: map<nat, Chain>)
      requires RingsOk() && Reclaiming() && done != [] && OnlyCompletedGone(before, chains)
      requires (FreeListWhole() && WillReclaimWell() <==> well)
               && Reclaimed(Links(descs[..]), free, chains, done) == goal
      modifies this`freeHead, this`numFree, this`lastUsed, this`free, this`chains, this`owner, this`done
      ensures RingsOk() && Reclaiming() && OnlyCompletedGone(before, chains) && |done| < |old(done)|
      ensures (FreeListWhole() && WillReclaimWell() <==> well)
              && Reclaimed(Links(descs[..]), free, chains, done) == goal
    {
      ReclaimOne();
    }

    /**
     The reclaim loop of virtq_push(): all completed chains are given back.  The queue is sound afterwards if and
     only if each round on its own keeps it so.
     */
    method Reclaim()
      requires Valid() && usedCount < WRAP
      modifies this`freeHead, this`numFree, this`lastUsed, this`free, this`chains, this`owner, this`done
      ensures Sane() && done == [] && Unfinished(old(chains), chains)
      ensures Valid() <==> old(WillReclaimWell())
      ensures free == old(Reclaimed(Links(descs[..]), free, chains, done))
    {
      ValidIff();
      ReclaimAll(WillReclaimWell(), Reclaimed(Links(descs[..]), free, chains, done));
      ValidIff();
    }

    /** The loop itself. */
    method ReclaimAll(ghost well: bool, ghost goal: seq<nat>)
      requires RingsOk() && Reclaiming() && usedCount < WRAP
      requires (FreeListWhole() && WillReclaimWell() <==> well)
               && Reclaimed(Links(descs[..]), free, chains, done) == goal
      modifies this`freeHead, this`numFree, this`lastUsed, this`free, this`chains, this`owner, this`done
      ensures RingsOk() && Reclaiming() && done == [] && Unfinished(old(chains), chains)
      ensures (FreeListWhole() <==> well) && free == goal
    {
      while lastUsed != usedIndex
        invariant RingsOk() && Reclaiming() && OnlyCompletedGone(old(chains), chains)
        invariant (FreeListWhole() && WillReclaimWell() <==> well)
                  && Reclaimed(Links(descs[..]), free, chains, done) == goal
        decreases |done|
      {
        UsedUp();
        ReclaimNext(well, goal, old(chains));
      }
      UsedUp();
      NoneLeft(old(chains));
    }

    /** Only completed chains are gone. */
    ghost predicate OnlyCompletedGone(before: map<nat, Chain>, after: map<nat, Chain>) {
      && (forall h :: h in before ==> h in after || before[h].stage == Completed)
      && (forall h :: h in after ==> h in before && after[h] == before[h])
    }

    lemma NoneLeft(before: map<nat, Chain>)
      requires RingsOk() && done == [] && OnlyCompletedGone(before, chains)
      ensures Unfinished(before, chains)
    {
      assert Ids(done) == [];
    }

    /**
     virtq_push().  If there are too few free descriptors, completed chains are given back first, which ends
     before 65536 completions only.  The entries then go into the first descriptors of the free list, which
     become a chain that is offered to the device; without enough of them the chains in flight stay as they are.
     The queue is sound afterwards if and only if giving back has left the free list whole.
     */
    method Push(chain: seq<Entry>) returns (err: Error, ghost head: nat, ghost pool: seq<nat>)
      requires Valid() && 0 < |chain| && (|chain| > numFree ==> usedCount < WRAP)
      modifies this, descs, avail
      ensures Valid() <==> |chain| <= old(numFree) || old(WillReclaimWell())
      ensures usedCount == old(usedCount) && done == if |chain| <= old(numFree) then old(done) else []
      ensures pool == if |chain| <= old(numFree) then old(free)
              else old(Reclaimed(Links(descs[..]), free, chains, done))
      ensures err == if |chain| <= |pool| then OK else NoMemory
      ensures err == NoMemory ==> free == pool && offered == old(offered)
      ensures err == OK ==> head == pool[0] && offered == old(offered) + [head]
      ensures err == OK ==> head in chains && chains[head] == Chain(pool[..|chain|], chain, Offered)
      ensures err == OK && Valid() ==> pool == pool[..|chain|] + free
      ensures forall h ::
                && h in old(chains) && (|chain| <= old(numFree) || old(chains)[h].stage != Completed)
                && !(err == OK && h == head)
                ==> h in chains && chains[h] == old(chains)[h]
      ensures forall h :: h in chains && !(err == OK && h == head) ==> h in old(chains) && chains[h] == old(chains)[h]
    {
      ValidIff();
      if |chain| > numFree { Reclaim(); }
      pool := free;
      err, head := Enqueue(chain);
    }

    /** virtq_push() once there is nothing left to reclaim. */
    method Enqueue(chain: seq<Entry>) returns (err: Error, ghost head: nat)
      requires Sane() && 0 < |chain|
      modifies this`freeHead, this`numFree, this`availIndex, this`free, this`chains, this`owner, this`offered, descs,
        avail
      ensures Valid() <==> old(Valid())
      ensures err == if |chain| <= old(numFree) then OK else NoMemory
      ensures err == NoMemory ==> free == old(free) && chains == old(chains) && offered == old(offered)
      ensures err == OK ==>
        && head == old(free)[0] && head !in old(chains) && offered == old(offered) + [head]
        && chains == old(chains)[head := Chain(old(free)[..|chain|], chain, Offered)]
      ensures err == OK && Valid() ==> old(free) == old(free)[..|chain|] + free
    {
      head := freeHead;
      ValidIff();
      if |chain| > numFree { return NoMemory, head; }
      RoomForHead();
      var headIndex := freeHead;
      var unusedNext := Fill(chain);
      Claim(chain, unusedNext, old(descs[..]));
      Offer(headIndex, old(chains), Chain(old(free)[..|chain|], chain, Offered));
      err := OK;
    }

    /** The filled descriptors leave the free list. */
    method Claim(chain: seq<Entry>, unusedNext: nat, ghost ds: seq<Desc>)
      requires num == descs.Length == |ds| && Apart(ds, chains, owner) && freeHead < num && freeHead !in chains
      requires |free| == numFree && free == Walk(Links(ds), freeHead, numFree) && 0 < |chain| <= numFree
      requires Cut(Links(ds), Links(descs[..]), free[|chain| - 1]) && unusedNext == ds[free[|chain| - 1]].next < num
      requires NoDup(free[..|chain|]) ==> Filled(ds, descs[..], free[..|chain|], chain)
      modifies this`freeHead, this`numFree, this`free, this`chains, this`owner
      ensures Partition(descs[..], free, chains, owner) <==> Whole(ds, old(free), old(owner))
      ensures Partition(descs[..], free, chains, owner) ==> free == old(free)[|chain|..]
      ensures chains == old(chains)[old(free)[0] := Chain(old(free)[..|chain|], chain, Offered)]
      ensures freeHead == unusedNext && numFree == |free| == |old(free)| - |chain|
              && (free != [] ==> free[0] == freeHead)
    {
      var n := |chain|;
      ClaimIff(ds, descs[..], free, chains, owner, freeHead, chain);
      owner, chains := Owned(owner, free[..n], freeHead), chains[freeHead := Chain(free[..n], chain, Offered)];
      free := Walk(Links(descs[..]), unusedNext, numFree - n);
      freeHead := unusedNext;
      numFree := numFree - n;
    }

    /** The end of virtq_push(): the head goes into the next slot of the avail ring. */
    method Offer(h: nat, ghost before: map<nat, Chain>, ghost c: Chain)
      requires RingsHold(before, done, lastUsed) && |offered| < num && h !in before && chains == before[h := c]
               && c.stage == Offered
      modifies this`availIndex, this`offered, avail
      ensures RingsOk() && offered == old(offered) + [h]
    {
      ListsAdd(offered, before, h, c);
      ListsOther(Ids(done), before, h, c, Completed);
      OfferRing(avail[..], taken, offered, availIndex, h);
      IndexNext(taken + |offered|);
      ghost var ring := avail[..];
      var slot := availIndex % num;
      avail[slot] := h;
      assert avail[..] == ring[slot := h];
      availIndex := (availIndex + 1) % WRAP;
      offered := offered + [h];
    }

    /** The loop of virtq_pop(): the entries that it reads from h on, unless there are more than n. */
    method Collect(h: nat, n: nat) returns (err: Error, chain: seq<Entry>, last: nat)
      requires h < num == descs.Length && Below(Links(descs[..]), num) && n > 0
      ensures err != IsEmpty && 0 < |chain| <= n && last < num
      ensures !descs[h].hasNext ==> err == OK && |chain| == 1
      ensures h in chains && ChainOk(descs[..], h, chains[h]) ==> (err == OK <==> |chains[h].descs| <= n)
      ensures h in chains && ChainOk(descs[..], h, chains[h]) && err == OK ==>
                chain == chains[h].entries && last == chains[h].descs[|chains[h].descs| - 1]
    {
      ghost var isChain := h in chains && ChainOk(descs[..], h, chains[h]);
      chain, last := [], h;
      var next: nat := h;
      while |chain| < n
        invariant |chain| < n && next < num && (|chain| == 0 ==> next == h) && (|chain| > 0 ==> descs[h].hasNext)
        invariant isChain ==>
                  |chain| < |chains[h].descs| && chain == chains[h].entries[..|chain|]
                    && next == chains[h].descs[|chain|]
        decreases n - |chain|
      {
        last := next;
        var d := descs[last];
        chain := chain + [Entry(d.addr, d.len, d.write)];
        if !d.hasNext { break; }
        if |chain| >= n { return NoMemory, chain, last; }
        assert Links(descs[..])[last] < num;
        next := d.next;
      }
      err := OK;
    }

    /** More than 65535 chains have completed and none is waiting: the test for an empty used ring fails. */
    ghost predicate Misled()
      reads this
    {
      usedCount >= WRAP && done == []
    }

    /**
     virtq_pop().  It returns the entries that were pushed for the chain the device completed first, and puts
     its descriptors in front of the free list.  A buffer that is too short leaves everything as it is.  Once
     the counter has wrapped, an empty used ring yields an old element again, and descriptors that may be free
     or in flight are counted as free once more.
     */
    method Pop(n: nat) returns (err: Error, chain: seq<Entry>, totalLen: nat)
      requires Valid() && n > 0
      modifies this, descs
      ensures usedCount == old(usedCount) && offered == old(offered)
      ensures forall d :: 0 <= d < num ==> descs[d] == old(descs[d]).(next := descs[d].next)
      ensures Valid() <==> !old(Misled()) || err != OK
      ensures err == IsEmpty <==> old(done) == [] && !old(Misled())
      ensures old(done) != [] ==>
              old(done)[0].id in old(chains) && (err == OK <==> |old(chains)[old(done)[0].id].entries| <= n)
      ensures old(done) != [] && err == OK ==>
        && chain == old(chains)[old(done)[0].id].entries && totalLen == old(done)[0].len && done == old(done)[1..]
        && free == old(chains)[old(done)[0].id].descs + old(free) && chains == old(chains) - {old(done)[0].id}
      ensures err != OK ==> free == old(free) && chains == old(chains) && done == old(done) && numFree == old(numFree)
      ensures old(Misled()) && err == OK ==>
              chains == old(chains) && numFree == old(numFree) + |chain| && 0 < |chain| <= n
      ensures old(Misled()) && !old(descs[used[lastUsed % num].id].hasNext) ==> err == OK
    {
      EmptyTestIff(lastUsed, |done|);
      if lastUsed == usedIndex { return IsEmpty, [], 0; }
      if done != [] { FirstDone(); }
      var elem := used[lastUsed % num];
      assert Ids(used[..])[lastUsed % num] == elem.id;
      totalLen := elem.len;
      var last;
      err, chain, last := Collect(elem.id, n);
      if err == OK { Retire(elem.id, last, |chain|); }
    }

    /** The end of virtq_pop(), once the chain has been read. */
    method Retire(h: nat, last: nat, numPopped: nat)
      requires Valid() && h < num && last < num && numPopped > 0
      requires done != [] ==>
        && h == done[0].id && h in chains && ChainOk(descs[..], h, chains[h])
        && last == chains[h].descs[|chains[h].descs| - 1] && numPopped == |chains[h].descs|
      modifies this, descs
      ensures usedCount == old(usedCount) && offered == old(offered)
      ensures forall d :: 0 <= d < num ==> descs[d] == old(descs[d]).(next := descs[d].next)
      ensures Valid() <==> old(done) != []
      ensures old(done) != [] ==>
        && free == old(chains)[h].descs + old(free) && chains == old(chains) - {h} && done == old(done)[1..]
      ensures old(done) == [] ==> chains == old(chains) && numFree == old(numFree) + numPopped
    {
      ValidIff();
      if done != [] { FirstDone(); }
      Release(h, last, numPopped);
      Advance();
    }

    /** What the driver finds in the slot of the used ring, and what is left without it. */
    lemma FirstDone()
      requires RingsOk() && Apart(descs[..], chains, owner) && done != []
      ensures used[lastUsed % num] == done[0] && RingsHold(chains - {done[0].id}, done[1..], lastUsed + 1)
      ensures done[0].id in chains && chains[done[0].id].stage == Completed
              && ChainOk(descs[..], done[0].id, chains[done[0].id])
    {
      RingRemove(used[..], lastUsed, done);
      var h := done[0].id;
      assert Ids(done)[0] in Ids(done);
      assert ChainOk(descs[..], h, chains[h]);
      ListsDrop(Ids(done), chains, chains[h].(stage := Taken), Completed);
      ListsWithout(offered, chains, h, Offered);
      assert Ids(done[1..]) == Ids(done)[1..];
    }

    /** The chain goes in front of the free list. */
    method Release(h: nat, last: nat, numPopped: nat)
      requires num == descs.Length && |free| == numFree && h < num && last < num && freeHead < num
               && (free != [] ==> free[0] == freeHead)
      requires done != [] ==>
        && Partition(descs[..], free, chains, owner) && h in chains && ChainOk(descs[..], h, chains[h])
        && last == chains[h].descs[|chains[h].descs| - 1] && numPopped == |chains[h].descs|
      modifies this`freeHead, this`numFree, this`free, this`chains, this`owner, descs
      ensures descs[..] == old(descs[..])[last := old(descs[last]).(next := old(freeHead))]
      ensures freeHead == h && numFree == old(numFree) + numPopped
      ensures done == [] ==> free == old(free) && chains == old(chains)
      ensures done != [] ==>
        && Partition(descs[..], free, chains, owner) && free == old(chains)[h].descs + old(free)
           && chains == old(chains) - {h}
        && numFree == |free| && free[0] == freeHead
    {
      if done != [] {
        PopPartition(descs[..], free, chains, owner, h, freeHead);
        owner := Owned(owner, chains[h].descs, FREE);
        free := chains[h].descs + free;
        chains := chains - {h};
      }
      ghost var ds := descs[..];
      descs[last] := descs[last].(next := freeHead);
      assert descs[..] == ds[last := ds[last].(next := freeHead)];
      freeHead := h;
      numFree := numFree + numPopped;
    }

    // ---- the device ---------------------------------------------------------------------

    /** The device takes the oldest offered chain: its slot of the avail ring still holds the head. */
    method DeviceTake() returns (h: nat)
      requires Valid() && offered != []
      modifies this`chains, this`offered, this`taken
      ensures Valid() && h == old(offered)[0] && offered == old(offered)[1..] && done == old(done)
      ensures h in old(chains) && chains == old(chains)[h := old(chains)[h].(stage := Taken)]
    {
      RingRemove(avail[..], taken, offered);
      h := avail[taken % num];
      assert h in offered;
      ListsDrop(offered, chains, chains[h].(stage := Taken), Offered);
      ListsOther(Ids(done), chains, h, chains[h].(stage := Taken), Completed);
      Restaged(descs[..], free, chains, owner, h, Taken);
      chains := chains[h := chains[h].(stage := Taken)];
      offered := offered[1..];
      taken := taken + 1;
    }

    /** The device completes the oldest chain that is offered. */
    method DeviceServe(len: nat)
      requires Valid() && offered != []
      modifies this`chains, this`offered, this`taken, this`done, this`usedCount, this`usedIndex, used
      ensures Valid() && offered == old(offered)[1..] && done == old(done) + [UsedElem(old(offered)[0], len)]
      ensures usedCount == old(usedCount) + 1 && old(offered)[0] in old(chains)
      ensures chains == old(chains)[old(offered)[0] := old(chains)[old(offered)[0]].(stage := Completed)]
    {
      var h := DeviceTake();
      DeviceComplete(h, len);
    }

    /** The device completes any chain that it has taken. */
    method DeviceComplete(h: nat, len: nat)
      requires Valid() && h in chains && chains[h].stage.Taken?
      modifies this`chains, this`done, this`usedCount, this`usedIndex, used
      ensures Valid() && done == old(done) + [UsedElem(h, len)] && offered == old(offered)
              && usedCount == old(usedCount) + 1
      ensures chains == old(chains)[h := old(chains)[h].(stage := Completed)]
    {
      Completing(h, len);
      chains := chains[h := chains[h].(stage := Completed)];
      Report(UsedElem(h, len));
    }

    lemma Completing(h: nat, len: nat)
      requires Valid() && h in chains && chains[h].stage.Taken?
      ensures h < num
      ensures var chains' := chains[h := chains[h].(stage := Completed)];
              && |done| < num && Partition(descs[..], free, chains', owner)
              && Lists(Ids(done + [UsedElem(h, len)]), chains', Completed) && Lists(offered, chains', Offered)
    {
      HeadsBelow(descs[..], free, chains, owner);
      ListsRoom(Ids(done), chains, Completed, num, h);
      ListsAdd(Ids(done), chains, h, chains[h].(stage := Completed));
      ListsOther(offered, chains, h, chains[h].(stage := Completed), Offered);
      Restaged(descs[..], free, chains, owner, h, Completed);
      assert Ids(done + [UsedElem(h, len)]) == Ids(done) + [h];
    }

    /** An element goes into the next slot of the used ring. */
    method Report(elem: UsedElem)
      requires 0 < num == used.Length && WRAP % num == 0 && |done| < num && elem.id < num && Below(Ids(used[..]), num)
      requires RingHolds(used[..], lastUsed, done) && usedCount == lastUsed + |done| && usedIndex == usedCount % WRAP
      modifies this`done, this`usedCount, this`usedIndex, used
      ensures done == old(done) + [elem] && RingHolds(used[..], lastUsed, done) && Below(Ids(used[..]), num)
      ensures usedCount == old(usedCount) + 1 && usedIndex == usedCount % WRAP
    {
      RingAppend(used[..], lastUsed, done, elem);
      IndexNext(usedCount);
      SlotOfWrapped(usedCount, num);
      ghost var ring := used[..];
      var slot := usedIndex % num;
      used[slot] := elem;
      forall i | 0 <= i < num ensures used[i].id < num { assert i != slot ==> Ids(ring)[i] < num; }
      assert used[..] == ring[slot := elem];
      done := done + [elem];
      usedCount := usedCount + 1;
      usedIndex := (usedIndex + 1) % WRAP;
    }
  }

  lemma HeadsBelow(ds: seq<Desc>, free: seq<nat>, chains: map<nat, Chain>, owner: seq<int>)
    requires Partition(ds, free, chains, owner)
    ensures forall h :: h in chains ==> h < |ds|
  {
    forall h | h in chains ensures h < |ds| { assert ChainOk(ds, h, chains[h]); }
  }

  /** The stage of a chain is the device's business: it does not matter to the partition. */
  lemma Restaged(ds: seq<Desc>, free: seq<nat>, chains: map<nat, Chain>, owner: seq<int>, h: nat, stage: Stage)
    requires Partition(ds, free, chains, owner) && h in chains
    ensures Partition(ds, free, chains[h := chains[h].(stage := stage)], owner)
  {
    var chains' := chains[h := chains[h].(stage := stage)];
    forall g | g in chains' ensures g < |ds| && ChainOk(ds, g, chains'[g]) { assert ChainOk(ds, g, chains[g]); }
    forall g, d | g in chains' && 0 <= d < |ds| ensures owner[d] == g <==> d in chains'[g].descs {
      assert owner[d] == g <==> d in chains[g].descs;
    }
  }

  lemma ListsWithout(queue: seq<nat>, chains: map<nat, Chain>, h: nat, stage: Stage)
    requires Lists(queue, chains, stage) && h in chains && chains[h].stage != stage
    ensures Lists(queue, chains - {h}, stage)
  {
  }

  lemma OfferRing(ring: seq<nat>, taken: nat, offered: seq<nat>, index: nat, h: nat)
    requires |ring| > 0 && WRAP % |ring| == 0 && |offered| < |ring|
    requires RingHolds(ring, taken, offered) && index == (taken + |offered|) % WRAP
    ensures RingHolds(ring[index % |ring| := h], taken, offered + [h])
  {
    SlotOfWrapped(taken + |offered|, |ring|);
    RingAppend(ring, taken, offered, h);
  }

  lemma IndexNext(count: nat)
    ensures (count % WRAP + 1) % WRAP == (count + 1) % WRAP
  {
  }

  lemma ListsRoom(queue: seq<nat>, chains: map<nat, Chain>, stage: Stage, num: nat, h: nat)
    requires Lists(queue, chains, stage) && (forall g :: g in chains ==> g < num) && h < num
             && !(h in chains && chains[h].stage == stage)
    ensures h !in queue && |queue| < num
  {
    assert forall i :: 0 <= i < |queue| ==> queue[i] in queue;
    NoDupBound(queue + [h], num);
  }

  lemma ListsAdd(queue: seq<nat>, chains: map<nat, Chain>, h: nat, c: Chain)
    requires Lists(queue, chains, c.stage) && !(h in chains && chains[h].stage == c.stage)
    ensures Lists(queue + [h], chains[h := c], c.stage)
  {
    assert forall i :: 0 <= i < |queue| ==> queue[i] in queue;
  }

  lemma ListsOther(queue: seq<nat>, chains: map<nat, Chain>, h: nat, c: Chain, stage: Stage)
    requires Lists(queue, chains, stage) && c.stage != stage && !(h in chains && chains[h].stage == stage)
    ensures Lists(queue, chains[h := c], stage)
  {
  }

  lemma ListsDrop(queue: seq<nat>, chains: map<nat, Chain>, c: Chain, stage: Stage)
    requires queue != [] && Lists(queue, chains, stage) && c.stage != stage
    ensures Lists(queue[1..], chains[queue[0] := c], stage) && Lists(queue[1..], chains - {queue[0]}, stage)
  {
    assert queue == [queue[0]] + queue[1..];
    assert forall i :: 0 <= i < |queue| ==> queue[i] in queue;
  }

  /** A queue of four descriptors: a chain of one entry takes descriptor 0, and 1, 2 and 3 are free. */
  method OneOffered(e: Entry) returns (q: Queue)
    ensures fresh(q) && fresh(q.descs) && fresh(q.avail) && fresh(q.used) && q.Valid() && q.free == [1, 2, 3]
            && q.usedCount == 0
    ensures q.offered == [0] && q.done == [] && 0 in q.chains && q.chains[0].descs == [0] && q.descs[0].next == 0
  {
    q := new Queue(4);
    assert q.free == [0, 1, 2, 3];
    var err, head, pool := q.Push([e]);
    assert q.free == [1, 2, 3] && ChainOk(q.descs[..], 0, q.chains[0]);
  }

  lemma GivesBackZeros(nx: seq<nat>, free: seq<nat>, chains: map<nat, Chain>, done: seq<UsedElem>)
    requires nx != [] && nx[0] == 0 && free == [1, 2, 3] && 0 in chains && chains[0].descs == [0]
             && done == [UsedElem(0, 0)]
    ensures Reclaimed(nx, free, chains, done) == [0, 0, 0, 0] && !ReclaimsWell(nx, free, chains, done)
  {
    FourZeros(nx);
    assert done[1..] == [];
    assert Reclaimed(nx, free, chains, done) == Reclaimed(nx, Walk(nx, 0, 1 + |free|), chains - {0}, done[1..]);
  }

  /** A chain of four entries makes virtq_push() give 0 back, which loses the others: all four entries go into 0. */
  method ReclaimLosesDescriptors(e: Entry, chain: seq<Entry>) returns (q: Queue, err: Error, ghost pool: seq<nat>)
    requires |chain| == 4
    ensures fresh(q) && err == OK && pool == [0, 0, 0, 0] && 0 in q.chains && q.chains[0].descs == pool && !q.Valid()
  {
    q := OneOffered(e);
    q.DeviceServe(0);
    assert q.done == [UsedElem(0, 0)];
    GivesBackZeros(Links(q.descs[..]), q.free, q.chains, q.done);
    ghost var head;
    err, head, pool := q.Push(chain);
    assert pool[..4] == pool;
  }

  lemma FourZeros(nx: seq<nat>)
    requires nx != [] && nx[0] == 0
    ensures Walk(nx, 0, 4) == [0, 0, 0, 0]
  {
    assert Walk(nx, 0, 1) == [0];
    assert Walk(nx, 0, 2) == [0, 0];
    assert Walk(nx, 0, 3) == [0, 0, 0];
  }

  /** One chain after the other through a queue of one descriptor. */
  method Cycle(q: Queue, e: Entry)
    requires q.Valid() && q.num == 1 && q.numFree == 1 && q.chains == map[] && q.offered == [] && q.done == []
    requires q.usedCount < WRAP
    modifies q, q.descs, q.avail, q.used
    ensures q.Valid() && q.numFree == 1 && q.chains == map[] && q.offered == [] && q.done == []
    ensures q.usedCount == old(q.usedCount) + 1 && !q.descs[0].hasNext
  {
    var err, head, pool := q.Push([e]);
    assert ChainOk(q.descs[..], head, q.chains[head]);
    q.DeviceServe(0);
    var chain, len;
    err, chain, len := q.Pop(1);
  }

  /** After 65536 chains virtq_pop() finds one in the empty used ring, and counts two of one descriptor as free. */
  method PopsTwice(e: Entry) returns (q: Queue, err: Error)
    ensures fresh(q) && q.num == 1 && q.chains == map[] && err == OK && q.numFree == 2 && !q.Valid()
  {
    q := new Queue(1);
    for i := 0 to WRAP
      invariant fresh(q) && fresh(q.descs) && fresh(q.avail) && fresh(q.used) && q.num == 1 && q.Valid()
                && q.numFree == 1
      invariant q.chains == map[] && q.offered == [] && q.done == [] && q.usedCount == i
                && (i > 0 ==> !q.descs[0].hasNext)
    {
      Cycle(q, e);
    }
    assert Ids(q.used[..])[0] < 1;
    var chain, len;
    err, chain, len := q.Pop(1);
  }
}
