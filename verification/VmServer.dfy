/**
 The memory manager of the vm server: servers/vm/page_alloc.c and the retry
 loop of servers/vm/page_fault.c, on top of the kernel's page tables.
 */
module VmServer {
  import opened Common
  import opened PageAccounting
  import opened PageTable

  /** `struct available_ram_region`, in page frames. */
  datatype Region = Region(first: nat, count: nat)

  datatype Outcome = Ok | Panic | NoMemory | InvalidArg | NotAcceptable

  /** A run of n free pages inside a region. To look for no pages at all is to look for one in use. */
  ghost predicate Fits(refs: seq<nat>, r: Region, n: nat, first: nat) {
    && r.first <= first && first + n <= r.first + r.count && FreeRun(refs, first, n)
    && (n == 0 ==> first < r.first + r.count && first < |refs| && refs[first] > 0)
  }

  /** No region has a run of n free pages. */
  ghost predicate NoFit(refs: seq<nat>, regions: seq<Region>, n: nat) {
    forall i, b :: 0 <= i < |regions| ==> !Fits(refs, regions[i], n, b)
  }

  /** The first run of n free pages, in the order of the regions and of the addresses in each. */
  ghost predicate FirstFit(refs: seq<nat>, regions: seq<Region>, n: nat, first: nat) {
    exists i ::
      && 0 <= i < |regions| && Fits(refs, regions[i], n, first)
      && (forall b: nat :: b < first ==> !Fits(refs, regions[i], n, b))
      && (forall j, b :: 0 <= j < i ==> !Fits(refs, regions[j], n, b))
  }

  ghost predicate InRegions(regions: seq<Region>, f: nat) {
    exists i :: 0 <= i < |regions| && regions[i].first <= f < regions[i].first + regions[i].count
  }

  /** The unreferenced pages of the regions. */
  ghost function Available(refs: seq<nat>, regions: seq<Region>): set<nat> {
    set f: nat | f < |refs| && refs[f] == 0 && InRegions(regions, f)
  }

  lemma NoFitIffNoneAvailable(refs: seq<nat>, regions: seq<Region>)
    requires forall i :: 0 <= i < |regions| ==> regions[i].first + regions[i].count <= |refs|
    ensures NoFit(refs, regions, 1) <==> Available(refs, regions) == {}
  {
    if Available(refs, regions) == {} {
      forall i, b: nat | 0 <= i < |regions| ensures !Fits(refs, regions[i], 1, b) {
        assert b !in Available(refs, regions);
      }
    } else {
      var f :| f in Available(refs, regions);
      var i :| 0 <= i < |regions| && regions[i].first <= f < regions[i].first + regions[i].count;
      assert Fits(refs, regions[i], 1, f);
    }
  }

  /** Taking a page takes it out of the available ones, and no other. */
  lemma TakesOne(refs: seq<nat>, refs': seq<nat>, regions: seq<Region>, f: nat)
    requires FirstFit(refs, regions, 1, f) && Shifted(refs, refs', f, 1, 1)
    ensures f in Available(refs, regions) && Available(refs', regions) == Available(refs, regions) - {f}
    ensures |Available(refs', regions)| == |Available(refs, regions)| - 1
  {
    assert refs[f] == 0;
    assert Available(refs', regions) == Available(refs, regions) - {f};
  }

  /** The path leads to one of the tables on the way to a page, down to a level. */
  ghost predicate OnWay(p: seq<nat>, vaddr: nat, level: nat) {
    |p| <= level && |p| <= 3 && p == Path(vaddr)[..|p|]
  }

  /** The way to the i-th page of a range, down to a level. */
  function Way(vaddr: nat, i: nat, level: nat): seq<nat>
    requires level <= 3
  {
    Path(vaddr + i * PAGE_SIZE)[..level]
  }

  /** The tables that the n pages from vaddr on lack. */
  ghost function Missing(mem: Mem, root: nat, vaddr: nat, n: nat): set<seq<nat>> {
    set i: nat, k: nat | i < n && 1 <= k <= 3 && Table(mem, root, Way(vaddr, i, k)) == 0 :: Way(vaddr, i, k)
  }

  /** The tables on the way to a page that lie below a level. */
  ghost function Below(vaddr: nat, level: nat): set<seq<nat>>
    requires level <= 3
  {
    set k: nat | level < k <= 3 :: Path(vaddr)[..k]
  }

  lemma BelowSize(vaddr: nat, level: nat)
    requires level <= 3
    ensures |Below(vaddr, level)| == 3 - level
    decreases 3 - level
  {
    if level == 3 {
      assert Below(vaddr, 3) == {};
    } else {
      BelowSize(vaddr, level + 1);
      var next := Path(vaddr)[..level + 1];
      assert |next| == level + 1 && next !in Below(vaddr, level + 1);
      assert Below(vaddr, level) == Below(vaddr, level + 1) + {next};
    }
  }

  lemma SubsetSize<T>(a: set<T>, b: set<T>)
    requires a <= b
    ensures |a| <= |b|
  {
    assert b == a + (b - a);
  }

  lemma Difference(a: set<seq<nat>>, b: set<seq<nat>>, c: set<seq<nat>>)
    requires b <= a && c == a - b
    ensures |c| == |a| - |b|
  {
    assert a == b + c;
  }

  class Vm {
    const base: nat            // PAGES_BASE_ADDR
    const maxPages: nat        // PAGES_MAX
    const freeVaddrEnd: nat    // __free_vaddr_end
    const regions: seq<Region>
    const roots: seq<nat>      // the level-4 table of each task
    const mmu: Mmu

    var refs: seq<nat>         // pages[].ref_count
    var numUnused: int         // num_unused_pages
    var areas: seq<seq<Area>>  // task->page_areas
    var freeVaddr: seq<nat>    // task->free_vaddr
    ghost var lost: seq<nat>   // references whose allocation failed half-way

    function Paddr(f: nat): nat {
      base + f * PAGE_SIZE
    }

    ghost predicate Configured()
      reads this
    {
      && base > 0 && base % PAGE_SIZE == 0
      && (forall i :: 0 <= i < |regions| ==> regions[i].first + regions[i].count <= maxPages)
      && (forall a :: 0 <= a < |roots| ==> roots[a] < base)
      && |areas| == |roots| == |freeVaddr|
      && (forall t :: 0 <= t < |freeVaddr| ==> freeVaddr[t] > 0 && freeVaddr[t] % PAGE_SIZE == 0)
    }

    /** Every reference is held by an area that covers the page, and the counter of unused pages is right. */
    ghost predicate Accounted()
      reads this
    {
      && |refs| == |lost| == maxPages
      && numUnused == Zeros(refs)
      && (forall f :: 0 <= f < maxPages ==> refs[f] == Total(areas, f) + lost[f])
      && (forall t, k :: 0 <= t < |areas| && 0 <= k < |areas[t]| ==> AreaOk(areas[t][k]))
    }

    ghost predicate AreaOk(area: Area) {
      area.pages > 0 && area.first + area.pages <= maxPages
    }

    ghost predicate Owns(list: seq<Area>, table: nat) {
      exists k :: 0 <= k < |list| && Paddr(list[k].first) == table
    }

    /** A page that serves as a table of a task is in one of the task's areas. */
    ghost predicate TablesOwned()
      reads this, mmu
    {
      |areas| == |roots| && forall a, p :: 0 <= a < |roots| && UserPath(p) && p != [] ==>
        Table(mmu.mem, roots[a], p) != 0 ==> Owns(areas[a], Table(mmu.mem, roots[a], p))
    }

    ghost predicate Valid()
      reads this, mmu
    {
      Configured() && Accounted() && IsForest(mmu.mem, roots) && TablesOwned()
    }

    /** page_alloc_init(), over address spaces that have only their roots. */
    constructor (base: nat, maxPages: nat, freeVaddr: nat, freeVaddrEnd: nat, regions: seq<Region>, roots: seq<nat>,
            mmu: Mmu)
      requires base > 0 && base % PAGE_SIZE == 0 && (forall a :: 0 <= a < |roots| ==> roots[a] < base)
      requires forall i :: 0 <= i < |regions| ==> regions[i].first + regions[i].count <= maxPages
      requires IsForest(mmu.mem, roots) && freeVaddr > 0 && freeVaddr % PAGE_SIZE == 0
      requires forall a, p :: 0 <= a < |roots| && UserPath(p) && p != [] ==> Table(mmu.mem, roots[a], p) == 0
      ensures Valid() && numUnused == maxPages
      ensures this.base == base && this.maxPages == maxPages && this.freeVaddrEnd == freeVaddrEnd
      ensures this.regions == regions && this.roots == roots && this.mmu == mmu
      ensures refs == seq(maxPages, f => 0) && areas == seq(|roots|, t => [])
      ensures this.freeVaddr == seq(|roots|, t => freeVaddr)
    {
      this.base, this.maxPages, this.freeVaddrEnd, this.regions, this.roots, this.mmu :=
        base, maxPages, freeVaddrEnd, regions, roots, mmu;
      refs := seq(maxPages, f => 0);
      lost := seq(maxPages, f => 0);
      numUnused := maxPages;
      areas := seq(|roots|, t => []);
      this.freeVaddr := seq(|roots|, t => freeVaddr);
      new;
      ZerosAll(refs);
      forall f: nat ensures Total(areas, f) == 0 { TotalNone(areas, f); }
    }

    // ---- reference counts -----------------------------------------------------------------

    method PageIncref(first: nat, n: nat)
      requires |refs| == maxPages && first + n <= maxPages && numUnused == Zeros(refs)
      modifies this`refs, this`numUnused
      ensures Shifted(old(refs), refs, first, n, 1) && numUnused == Zeros(refs)
    {
      for i := 0 to n
        invariant Shifted(old(refs), refs, first, i, 1) && numUnused == Zeros(refs)
      {
        ZerosUpdate(refs, first + i, refs[first + i] + 1);
        if refs[first + i] == 0 {
          numUnused := numUnused - 1;
        }
        refs := refs[first + i := refs[first + i] + 1];
      }
    }

    method PageDecref(first: nat, n: nat)
      requires |refs| == maxPages && first + n <= maxPages && numUnused == Zeros(refs)
      requires forall f :: first <= f < first + n ==> refs[f] > 0
      modifies this`refs, this`numUnused
      ensures Shifted(old(refs), refs, first, n, -1) && numUnused == Zeros(refs)
    {
      for i := 0 to n
        invariant Shifted(old(refs), refs, first, i, -1) && numUnused == Zeros(refs)
      {
        ZerosUpdate(refs, first + i, refs[first + i] - 1);
        refs := refs[first + i := refs[first + i] - 1];
        if refs[first + i] == 0 {
          numUnused := numUnused + 1;
        }
      }
    }

    /** The length of the free run at `start`, up to n pages and within `end`. */
    method RunLength(start: nat, end: nat, n: nat) returns (i: nat)
      requires |refs| == maxPages && start <= end <= maxPages
      ensures (n > 0 ==> i <= n) && start + i <= end && FreeRun(refs, start, i)
      ensures i < n || n == 0 ==> start + i == end || refs[start + i] > 0
    {
      i := 0;
      while start + i < end
        invariant (n > 0 ==> i < n) && start + i <= end && FreeRun(refs, start, i)
      {
        if refs[start + i] > 0 { break; }
        i := i + 1;
        if i == n { break; }
      }
    }

    /**
     page_alloc(): the first run of n free pages, in the order of the regions and of the addresses in each.
     `None` stands for the panic.
     */
    method PageAlloc(n: nat) returns (r: Option<nat>)
      requires Configured() && |refs| == maxPages && numUnused == Zeros(refs)
      modifies this`refs, this`numUnused
      ensures numUnused == Zeros(refs)
      ensures r.None? <==> NoFit(old(refs), regions, n)
      ensures r.None? ==> refs == old(refs)
      ensures r.Some? ==>
        && r.value + n <= maxPages && FreeRun(old(refs), r.value, n) && Shifted(old(refs), refs, r.value, n, 1)
        && FirstFit(old(refs), regions, n, r.value)
    {
      for i := 0 to |regions|
        invariant refs == old(refs) && numUnused == old(numUnused)
        invariant forall j, b :: 0 <= j < i ==> !Fits(old(refs), regions[j], n, b)
      {
        var first, end := regions[i].first, regions[i].first + regions[i].count;
        for start := first to end
          invariant refs == old(refs) && numUnused == old(numUnused)
          invariant forall b: nat :: b < start ==> !Fits(refs, regions[i], n, b)
        {
          var len := RunLength(start, end, n);
          if len == n {
            assert Fits(refs, regions[i], n, start);
            PageIncref(start, n);
            return Some(start);
          }
        }
      }
      return None;
    }

    // ---- page areas -------------------------------------------------------------------------

    /** A new area on pages that just got their reference keeps the account. */
    lemma AccountAppend(before: seq<nat>, list: seq<seq<Area>>, t: nat, area: Area, f: nat)
      requires t < |list| && Shifted(before, refs, area.first, area.pages, 1) && f < |refs|
      ensures refs[f] - Total(list[t := list[t] + [area]], f) == before[f] - Total(list, f)
    {
      TotalUpdate(list, t, list[t] + [area], f);
      CountAppend(list[t], area, f);
    }

    /** free_page_area() on the k-th area of task t. */
    method FreePageArea(t: nat, k: nat)
      requires Configured() && Accounted() && t < |areas| && k < |areas[t]|
      modifies this`refs, this`numUnused, this`areas
      ensures Configured() && Accounted()
      ensures areas == old(areas)[t := old(areas)[t][..k] + old(areas)[t][k+1..]]
      ensures var area := old(areas)[t][k]; Shifted(old(refs), refs, area.first, area.pages, -1)
    {
      var area := areas[t][k];
      assert AreaOk(area);
      forall f | area.first <= f < area.first + area.pages ensures refs[f] > 0 {
        CountPositive(areas[t], k, f);
        TotalPositive(areas, t, f);
      }
      PageDecref(area.first, area.pages);
      var rest := areas[t][..k] + areas[t][k+1..];
      areas := areas[t := rest];
      forall f | 0 <= f < maxPages ensures refs[f] == Total(areas, f) + lost[f] {
        TotalUpdate(old(areas), t, rest, f);
        CountRemove(old(areas)[t], k, f);
      }
      forall u, j | 0 <= u < |areas| && 0 <= j < |areas[u]| ensures AreaOk(areas[u][j]) {
        assert areas[u][j] == old(areas)[u][if u == t && j >= k then j + 1 else j];
      }
    }

    /** task_page_free(): the first area that starts at the page; `false` stands for the warning. */
    method TaskPageFree(t: nat, first: nat) returns (found: bool)
      requires Configured() && Accounted() && t < |areas|
      modifies this`refs, this`numUnused, this`areas
      ensures Configured() && Accounted()
      ensures !found ==> refs == old(refs) && areas == old(areas) && forall k :: 0 <= k < |areas[t]| ==>
              areas[t][k].first != first
      ensures found ==> exists k :: && 0 <= k < |old(areas)[t]| && old(areas)[t][k].first == first
                                    && (forall j :: 0 <= j < k ==> old(areas)[t][j].first != first)
                                    && areas == old(areas)[t := old(areas)[t][..k] + old(areas)[t][k+1..]]
                                    && Shifted(old(refs), refs, first, old(areas)[t][k].pages, -1)
    {
      for k := 0 to |areas[t]|
        invariant refs == old(refs) && areas == old(areas) && numUnused == old(numUnused)
        invariant forall j :: 0 <= j < k ==> areas[t][j].first != first
      {
        if areas[t][k].first == first {
          FreePageArea(t, k);
          return true;
        }
      }
      return false;
    }

    /** task_page_free_all() */
    method TaskPageFreeAll(t: nat)
      requires Configured() && Accounted() && t < |areas|
      modifies this`refs, this`numUnused, this`areas
      ensures Configured() && Accounted() && areas == old(areas)[t := []]
    {
      while areas[t] != []
        invariant Configured() && Accounted() && areas == old(areas)[t := areas[t]]
        decreases |areas[t]|
      {
        FreePageArea(t, 0);
      }
    }

    /** task_kill(), with the level-4 table that the next task in this slot starts from. */
    method TaskKill(t: nat)
      requires Valid() && t < |areas|
      modifies this`refs, this`numUnused, this`areas, mmu
      ensures Valid() && areas == old(areas)[t := []]
      ensures mmu.mem == old(mmu.mem)[roots[t] := Zeroed()]
    {
      TaskPageFreeAll(t);
      ClearRoot(mmu.mem, roots, t);
      mmu.mem := mmu.mem[roots[t] := Zeroed()];
    }

    // ---- allocation -------------------------------------------------------------------------

    /** Appends an area for pages that PageAlloc has just returned. */
    method AddArea(t: nat, area: Area, ghost before: seq<nat>)
      requires Configured() && t < |areas| && AreaOk(area) && numUnused == Zeros(refs)
      requires |before| == |lost| == |refs| == maxPages && Shifted(before, refs, area.first, area.pages, 1)
      requires forall f :: 0 <= f < maxPages ==> before[f] == Total(areas, f) + lost[f]
      requires forall u, k :: 0 <= u < |areas| && 0 <= k < |areas[u]| ==> AreaOk(areas[u][k])
      modifies this`areas
      ensures Configured() && Accounted() && areas == old(areas)[t := old(areas)[t] + [area]]
    {
      areas := areas[t := areas[t] + [area]];
      forall f | 0 <= f < maxPages ensures refs[f] == Total(areas, f) + lost[f] {
        AccountAppend(before, old(areas), t, area, f);
      }
    }

    /** The bump pointer has no room for n more pages. */
    predicate OutOfAddresses(start: nat, n: nat) {
      start + n * PAGE_SIZE >= freeVaddrEnd
    }

    /** virt_page_alloc(): the bump pointer, or 0 when the task has used up its addresses and is killed. */
    method VirtPageAlloc(t: nat, n: nat) returns (vaddr: nat)
      requires t < |areas| && |areas| == |freeVaddr|
      modifies this`freeVaddr
      ensures if OutOfAddresses(old(freeVaddr)[t], n) then vaddr == 0 && freeVaddr == old(freeVaddr)
              else vaddr == old(freeVaddr)[t] && freeVaddr == old(freeVaddr)[t := vaddr + n * PAGE_SIZE]
    {
      vaddr := freeVaddr[t];
      var size := n * PAGE_SIZE;
      if vaddr + size >= freeVaddrEnd { return 0; }
      freeVaddr := freeVaddr[t := freeVaddr[t] + size];
    }

    /** All but the last references are accounted for: the pages from `first` on have just got one more. */
    ghost predicate Pending(before: seq<nat>, first: nat, n: nat)
      reads this, mmu
    {
      && Configured() && IsForest(mmu.mem, roots) && TablesOwned()
      && |before| == |lost| == |refs| == maxPages && numUnused == Zeros(refs) && AreaOk(Area(0, first, n))
      && Shifted(before, refs, first, n, 1)
      && (forall f :: 0 <= f < maxPages ==> before[f] == Total(areas, f) + lost[f])
      && (forall t, k :: 0 <= t < |areas| && 0 <= k < |areas[t]| ==> AreaOk(areas[t][k]))
    }

    /** The allocation fails: the task dies, and the new references stay behind without an area. */
    method Abandon(t: nat, first: nat, n: nat, ghost before: seq<nat>)
      requires t < |areas| && Pending(before, first, n)
      modifies this`refs, this`numUnused, this`areas, this`lost, mmu
      ensures Valid() && areas == old(areas)[t := []] && Shifted(old(lost), lost, first, n, 1)
      ensures mmu.mem == old(mmu.mem)[roots[t] := Zeroed()]
    {
      lost := seq(maxPages, f requires 0 <= f < |lost| reads this => lost[f] + if first <= f < first + n then 1 else 0);
      TaskKill(t);
    }

    /** The address of a new area: the given one, or the bump pointer, which then moves on. */
    ghost predicate Addressed(before: seq<nat>, after: seq<nat>, t: nat, vaddr: Option<nat>, n: nat, out: Outcome,
            v: nat)
      requires t < |before|
    {
      if vaddr == Some(0) && out.Ok?
      then v == before[t] && after == before[t := v + n * PAGE_SIZE]
      else after == before && (out.Ok? ==> v == if vaddr.None? then 0 else vaddr.value)
    }

    /** The end of task_page_alloc(): a virtual address if none is given, and the new area. */
    method Attach(t: nat, vaddr: Option<nat>, first: nat, n: nat, ghost before: seq<nat>) returns (out: Outcome, v: nat)
      requires t < |areas| && Pending(before, first, n)
      modifies this`refs, this`numUnused, this`areas, this`freeVaddr, this`lost, mmu
      ensures Valid() && (out.Ok? || out.NoMemory?)
      ensures out.NoMemory? <==> vaddr == Some(0) && OutOfAddresses(old(freeVaddr)[t], n)
      ensures Addressed(old(freeVaddr), freeVaddr, t, vaddr, n, out, v)
      ensures out.Ok? ==>
        && refs == old(refs) && areas == old(areas)[t := old(areas)[t] + [Area(v, first, n)]] && mmu.mem == old(mmu.mem)
           && lost == old(lost)
      ensures out.NoMemory? ==>
        && areas == old(areas)[t := []] && Shifted(old(lost), lost, first, n, 1)
        && mmu.mem == old(mmu.mem)[roots[t] := Zeroed()]
    {
      v := if vaddr.Some? then vaddr.value else 0;
      if vaddr == Some(0) {
        v := VirtPageAlloc(t, n);
        if v == 0 {
          Abandon(t, first, n, before);
          out := NoMemory;
          return;
        }
      }
      AddArea(t, Area(v, first, n), before);
      OwnedStays(mmu.mem, roots, old(areas), areas, t);
      out := Ok;
    }

    /**
     task_page_alloc() without a physical address.  The pages had no references; on success they belong
     to a new area of the task.
     */
    method TaskPageAllocAny(t: nat, vaddr: Option<nat>, n: nat) returns (out: Outcome, v: nat, first: nat)
      requires Valid() && t < |areas| && n > 0
      modifies this`refs, this`numUnused, this`areas, this`freeVaddr, this`lost, mmu
      ensures Valid() && (out.Ok? || out.Panic? || out.NoMemory?)
      ensures out.Panic? <==> NoFit(old(refs), regions, n)
      ensures out.NoMemory? <==> !out.Panic? && vaddr == Some(0) && OutOfAddresses(old(freeVaddr)[t], n)
      ensures Addressed(old(freeVaddr), freeVaddr, t, vaddr, n, out, v)
      ensures out.Panic? ==> refs == old(refs) && areas == old(areas) && mmu.mem == old(mmu.mem) && lost == old(lost)
      ensures out.Ok? ==>
        && FirstFit(old(refs), regions, n, first) && FreeRun(old(refs), first, n)
        && areas == old(areas)[t := old(areas)[t] + [Area(v, first, n)]]
        && mmu.mem == old(mmu.mem) && lost == old(lost) && Shifted(old(refs), refs, first, n, 1)
      ensures out.NoMemory? ==>
        && areas == old(areas)[t := []] && Shifted(old(lost), lost, first, n, 1)
        && mmu.mem == old(mmu.mem)[roots[t] := Zeroed()]
    {
      ghost var before := refs;
      var r := PageAlloc(n);
      if r.None? { return Panic, 0, 0; }
      first := r.value;
      out, v := Attach(t, vaddr, first, n, before);
    }

    /** More areas own no fewer tables. */
    lemma OwnedStays(mem: Mem, roots: seq<nat>, before: seq<seq<Area>>, after: seq<seq<Area>>, t: nat)
      requires |before| == |after| == |roots| && t < |before| && after == before[t := after[t]] && before[t] <= after[t]
      requires forall a, p :: 0 <= a < |roots| && UserPath(p) && p != [] ==>
                 Table(mem, roots[a], p) != 0 ==> Owns(before[a], Table(mem, roots[a], p))
      ensures forall a, p :: 0 <= a < |roots| && UserPath(p) && p != [] ==>
                 Table(mem, roots[a], p) != 0 ==> Owns(after[a], Table(mem, roots[a], p))
    {
      forall a, p | 0 <= a < |roots| && UserPath(p) && p != [] && Table(mem, roots[a], p) != 0
        ensures Owns(after[a], Table(mem, roots[a], p))
      {
        var k :| 0 <= k < |before[a]| && Paddr(before[a][k].first) == Table(mem, roots[a], p);
        assert after[a][k] == before[a][k];
      }
    }

    /** The areas own the tables of a memory. */
    ghost predicate OwnsTables(mem: Mem, list: seq<seq<Area>>) {
      |list| == |roots| && forall a, p :: 0 <= a < |roots| && UserPath(p) && p != [] ==>
        Table(mem, roots[a], p) != 0 ==> Owns(list[a], Table(mem, roots[a], p))
    }

    /** A page without references is not a table. */
    lemma UnreferencedIsFresh(mem: Mem, list: seq<seq<Area>>, f: nat)
      requires Configured() && OwnsTables(mem, list) && Total(list, f) == 0
      requires forall u, k :: 0 <= u < |list| && 0 <= k < |list[u]| ==> AreaOk(list[u][k])
      ensures Fresh(mem, roots, Paddr(f))
    {
      forall a, p | 0 <= a < |roots| && UserPath(p) ensures Table(mem, roots[a], p) != Paddr(f) {
        if p != [] && Table(mem, roots[a], p) == Paddr(f) {
          var k :| 0 <= k < |list[a]| && Paddr(list[a][k].first) == Paddr(f);
          assert AreaOk(list[a][k]) && list[a][k].first == f;
          CountPositive(list[a], k, f);
          TotalPositive(list, a, f);
        }
      }
    }

    /** No area of a task starts at a page without references. */
    lemma NoAreaAt(list: seq<seq<Area>>, t: nat, f: nat)
      requires t < |list| && Total(list, f) == 0
      requires forall u, k :: 0 <= u < |list| && 0 <= k < |list[u]| ==> AreaOk(list[u][k])
      ensures forall k :: 0 <= k < |list[t]| ==> list[t][k].first != f
    {
      forall k | 0 <= k < |list[t]| ensures list[t][k].first != f {
        assert AreaOk(list[t][k]);
        if list[t][k].first == f {
          CountPositive(list[t], k, f);
          TotalPositive(list, t, f);
        }
      }
    }

    // ---- mapping ------------------------------------------------------------------------------

    /** After an attempt with the page `first`, the areas with that page still own all tables. */
    lemma OwnsAfterAttempt(mem: Mem, list: seq<seq<Area>>, t: nat, vaddr: nat, paddr: nat, first: nat, attrs: set<Attr>)
      requires IsForest(mem, roots) && OwnsTables(mem, list) && t < |roots| && IsUserPage(vaddr)
               && Fresh(mem, roots, Paddr(first))
      ensures var mem' := Mapped(mem, roots, t, vaddr, paddr, Paddr(first), attrs);
              && OwnsTables(mem', list[t := list[t] + [Area(0, first, 1)]])
              && (Depth(mem, roots[t], Path(vaddr), 0) == 3 ==> OwnsTables(mem', list))
    {
      var mem' := Mapped(mem, roots, t, vaddr, paddr, Paddr(first), attrs);
      var more := list[t := list[t] + [Area(0, first, 1)]];
      OwnedStays(mem, roots, list, more, t);
      assert more[t][|list[t]|].first == first;
      if Depth(mem, roots[t], Path(vaddr), 0) < 3 {
        TryAgainRefines(mem, roots, t, vaddr, paddr, Paddr(first), attrs);
      } else {
        MapRefines(mem, roots, t, vaddr, paddr, Paddr(first), attrs);
      }
    }

    /** The page that was not needed goes back. */
    method ReturnPage(t: nat, first: nat, ghost list: seq<seq<Area>>, ghost before: seq<nat>)
      requires Configured() && Accounted() && t < |list| && areas == list[t := list[t] + [Area(0, first, 1)]]
      requires (forall k :: 0 <= k < |list[t]| ==> list[t][k].first != first) && Shifted(before, refs, first, 1, 1)
      modifies this`refs, this`numUnused, this`areas
      ensures Configured() && Accounted() && areas == list && refs == before
    {
      assert areas[t][|list[t]|].first == first;
      var found := TaskPageFree(t, first);
      assert areas[t] == list[t];
    }

    /** A page for a table that may be missing. */
    method TakePage(t: nat) returns (out: Outcome, first: nat)
      requires Valid() && t < |areas|
      modifies this`refs, this`numUnused, this`areas, this`freeVaddr, this`lost, mmu
      ensures Valid() && (out.Ok? || out.Panic?) && lost == old(lost) && freeVaddr == old(freeVaddr)
      ensures out.Panic? <==> Available(old(refs), regions) == {}
      ensures out.Panic? ==> refs == old(refs) && areas == old(areas)
      ensures mmu.mem == old(mmu.mem)
      ensures out.Ok? ==>
        && FreeRun(old(refs), first, 1) && Shifted(old(refs), refs, first, 1, 1)
        && areas == old(areas)[t := old(areas)[t] + [Area(0, first, 1)]]
        && |Available(refs, regions)| == |Available(old(refs), regions)| - 1
    {
      NoFitIffNoneAvailable(refs, regions);
      var v;
      out, v, first := TaskPageAllocAny(t, None, 1);
      if out.Ok? { TakesOne(old(refs), refs, regions, first); }
    }

    /** One round of the loop of map_page(): a fresh page, and an attempt to map with it. */
    method MapAttempt(t: nat, vaddr: nat, paddr: nat, writable: bool) returns (out: Outcome, again: bool, first: nat)
      requires Valid() && t < |areas| && IsUserPage(vaddr)
      modifies this`refs, this`numUnused, this`areas, this`freeVaddr, this`lost, mmu
      ensures Valid() && (out.Ok? || out.Panic?)
      ensures lost == old(lost) && freeVaddr == old(freeVaddr)
      ensures out.Panic? <==> Available(old(refs), regions) == {}
      ensures out.Panic? ==> refs == old(refs) && areas == old(areas) && mmu.mem == old(mmu.mem)
      ensures out.Ok? ==>
              Fresh(old(mmu.mem), roots, Paddr(first)) && again == (Depth(old(mmu.mem), roots[t], Path(vaddr), 0) < 3)
      ensures out.Ok? && again ==>
              areas == old(areas)[t := old(areas)[t] + [Area(0, first, 1)]]
                && |Available(refs, regions)| == |Available(old(refs), regions)| - 1
      ensures out.Ok? && !again ==> areas == old(areas) && refs == old(refs)
      ensures out.Ok? ==> mmu.mem == Mapped(old(mmu.mem), roots, t, vaddr, paddr, Paddr(first), MapAttrs(writable))
    {
      ghost var mem, list, before := mmu.mem, areas, refs;
      again := false;
      out, first := TakePage(t);
      if out.Panic? { return; }
      UnreferencedIsFresh(mem, list, first);
      OwnsAfterAttempt(mem, list, t, vaddr, paddr, first, MapAttrs(writable));
      var err := mmu.ArchVmMap(roots, t, vaddr, paddr, Paddr(first), writable);
      if err == TryAgain {
        again := true;
      } else {
        NoAreaAt(list, t, first);
        ReturnPage(t, first, list, before);
      }
    }

    /** The k-th new area is the page of the k-th new table on the way to vaddr. */
    ghost predicate NewTables(mem: Mem, t: nat, vaddr: nat, from: nat, extra: seq<Area>)
      requires t < |roots|
    {
      && from + |extra| <= 3
      && forall i :: 0 <= i < |extra| ==>
           extra[i] == Area(0, extra[i].first, 1)
             && Table(mem, roots[t], Path(vaddr)[..from + i + 1]) == Paddr(extra[i].first)
    }

    lemma NewTablesGrow(mem: Mem, t: nat, vaddr: nat, paddr: nat, first: nat, attrs: set<Attr>, from: nat,
            extra: seq<Area>)
      requires IsForest(mem, roots) && t < |roots| && IsUserPage(vaddr) && Fresh(mem, roots, Paddr(first))
      requires NewTables(mem, t, vaddr, from, extra) && Depth(mem, roots[t], Path(vaddr), 0) == from + |extra| < 3
      ensures var mem' := Mapped(mem, roots, t, vaddr, paddr, Paddr(first), attrs);
              NewTables(mem', t, vaddr, from, extra + [Area(0, first, 1)])
    {
      var mem' := Mapped(mem, roots, t, vaddr, paddr, Paddr(first), attrs);
      var more := extra + [Area(0, first, 1)];
      PathIsUser(vaddr);
      TryAgainRefines(mem, roots, t, vaddr, paddr, Paddr(first), attrs);
      forall i | 0 <= i < |more|
        ensures more[i] == Area(0, more[i].first, 1)
                && Table(mem', roots[t], Path(vaddr)[..from + i + 1]) == Paddr(more[i].first)
      {
        PrefixIsUser(Path(vaddr), from + i + 1);
        assert i < |extra| ==> Path(vaddr)[..from + i + 1] != Path(vaddr)[..from + |extra| + 1];
      }
    }

    /** Of the tables of the task, those on the way to vaddr have come, down to a level, and no other. */
    ghost predicate TablesCome(mem0: Mem, mem: Mem, t: nat, vaddr: nat, level: nat)
      requires t < |roots|
    {
      forall p {:trigger UserPath(p)} :: UserPath(p) && p != [] ==>
        (Table(mem, roots[t], p) == 0 <==> Table(mem0, roots[t], p) == 0 && !OnWay(p, vaddr, level))
    }

    lemma TablesComeFirst(mem: Mem, t: nat, vaddr: nat)
      requires IsForest(mem, roots) && t < |roots| && IsUserPage(vaddr)
      ensures TablesCome(mem, mem, t, vaddr, Depth(mem, roots[t], Path(vaddr), 0))
    {
      DepthTables(mem, roots, t, vaddr);
    }

    lemma TablesComeNext(mem0: Mem, mem: Mem, t: nat, vaddr: nat, paddr: nat, first: nat, attrs: set<Attr>)
      requires IsForest(mem, roots) && t < |roots| && IsUserPage(vaddr) && Fresh(mem, roots, Paddr(first))
      requires Depth(mem, roots[t], Path(vaddr), 0) < 3
      requires TablesCome(mem0, mem, t, vaddr, Depth(mem, roots[t], Path(vaddr), 0))
      ensures TablesCome(mem0, Mapped(mem, roots, t, vaddr, paddr, Paddr(first), attrs), t, vaddr,
              Depth(mem, roots[t], Path(vaddr), 0) + 1)
    {
      var mem' := Mapped(mem, roots, t, vaddr, paddr, Paddr(first), attrs);
      var n := Depth(mem, roots[t], Path(vaddr), 0);
      TryAgainRefines(mem, roots, t, vaddr, paddr, Paddr(first), attrs);
      forall p | UserPath(p) && p != []
        ensures Table(mem', roots[t], p) == 0 <==> Table(mem0, roots[t], p) == 0 && !OnWay(p, vaddr, n + 1)
      {
        assert OnWay(p, vaddr, n + 1) <==> OnWay(p, vaddr, n) || p == Path(vaddr)[..n + 1];
      }
    }

    /** The state of the loop of map_page(): so many levels filled, and no translation changed. */
    ghost predicate Progressed(mem0: Mem, mem: Mem, t: nat, vaddr: nat, from: nat, extra: seq<Area>)
      requires t < |roots|
    {
      && NewTables(mem, t, vaddr, from, extra) && Depth(mem, roots[t], Path(vaddr), 0) == from + |extra|
      && TablesCome(mem0, mem, t, vaddr, from + |extra|)
      && forall b, w :: 0 <= b < |roots| && IsUserPage(w) ==> Resolve(mem, roots[b], w) == Resolve(mem0, roots[b], w)
    }

    lemma AgainProgress(mem0: Mem, mem: Mem, t: nat, vaddr: nat, paddr: nat, first: nat, attrs: set<Attr>, from: nat,
            extra: seq<Area>)
      requires IsForest(mem, roots) && t < |roots| && IsUserPage(vaddr) && Fresh(mem, roots, Paddr(first))
      requires Progressed(mem0, mem, t, vaddr, from, extra) && from + |extra| < 3
      ensures Progressed(mem0, Mapped(mem, roots, t, vaddr, paddr, Paddr(first), attrs), t, vaddr, from, extra
              + [Area(0, first, 1)])
    {
      NewTablesGrow(mem, t, vaddr, paddr, first, attrs, from, extra);
      TablesComeNext(mem0, mem, t, vaddr, paddr, first, attrs);
      TryAgainRefines(mem, roots, t, vaddr, paddr, Paddr(first), attrs);
      TryAgainProgress(mem, roots, t, vaddr, paddr, Paddr(first), attrs);
    }

    /** What the last attempt brings: the mapping. */
    lemma LastProgress(mem0: Mem, mem: Mem, t: nat, vaddr: nat, paddr: nat, first: nat, attrs: set<Attr>, from: nat,
            extra: seq<Area>)
      requires IsForest(mem, roots) && t < |roots| && IsUserPage(vaddr) && Fresh(mem, roots, Paddr(first))
      requires Progressed(mem0, mem, t, vaddr, from, extra) && from + |extra| == 3
      ensures var mem' := Mapped(mem, roots, t, vaddr, paddr, Paddr(first), attrs);
              && NewTables(mem', t, vaddr, from, extra) && TablesCome(mem0, mem', t, vaddr, 3)
              && forall b, w :: 0 <= b < |roots| && IsUserPage(w) ==>
                   Resolve(mem', roots[b], w) == if b == t && w == vaddr then paddr else Resolve(mem0, roots[b], w)
    {
      MapRefines(mem, roots, t, vaddr, paddr, Paddr(first), attrs);
      NewTablesStay(mem, Mapped(mem, roots, t, vaddr, paddr, Paddr(first), attrs), t, vaddr, from, extra);
    }

    lemma NewTablesStay(mem: Mem, mem': Mem, t: nat, vaddr: nat, from: nat, extra: seq<Area>)
      requires t < |roots| && IsUserPage(vaddr) && NewTables(mem, t, vaddr, from, extra)
      requires forall p :: UserPath(p) ==> Table(mem', roots[t], p) == Table(mem, roots[t], p)
      ensures NewTables(mem', t, vaddr, from, extra)
    {
      PathIsUser(vaddr);
      forall k | 0 <= k <= 3 ensures UserPath(Path(vaddr)[..k]) { PrefixIsUser(Path(vaddr), k); }
    }

    /**
     map_page().  It ends after at most three ERR_TRY_AGAIN; then the page is mapped, no other page of any
     task has changed, the task owns one more area for each table it was missing, namely that table, and the
     last page, which was not needed, is free again.
     */
    method MapPage(t: nat, vaddr: nat, paddr: nat, writable: bool, overwrite: bool)
      returns (out: Outcome, ghost tries: nat, ghost extra: seq<Area>)
      requires Valid() && t < |areas| && IsUserPage(vaddr)
      modifies this`refs, this`numUnused, this`areas, this`freeVaddr, this`lost, mmu
      ensures Valid() && (out.Ok? || out.Panic?) && tries <= 3 && lost == old(lost) && freeVaddr == old(freeVaddr)
      ensures out.Ok? <==> |Available(old(refs), regions)| >= 4 - Depth(old(mmu.mem), roots[t], Path(vaddr), 0)
      ensures if out.Ok? then |Available(refs, regions)| == |Available(old(refs), regions)| - tries
              else Available(refs, regions) == {}
      ensures out.Ok? ==>
        && areas == old(areas)[t := old(areas)[t] + extra]
        && tries == |extra| == 3 - Depth(old(mmu.mem), roots[t], Path(vaddr), 0)
        && NewTables(mmu.mem, t, vaddr, 3 - |extra|, extra) && TablesCome(old(mmu.mem), mmu.mem, t, vaddr, 3)
        && forall b, w :: 0 <= b < |roots| && IsUserPage(w) ==>
             Resolve(mmu.mem, roots[b], w) == if b == t && w == vaddr then paddr else Resolve(old(mmu.mem), roots[b], w)
    {
      if overwrite {
        var err := mmu.VmUnmap(roots, t, vaddr);
        SameDepth(old(mmu.mem), mmu.mem, roots, t, vaddr);
      }
      out, tries, extra := MapLoop(t, vaddr, paddr, writable);
    }

    static lemma AreasAssoc(a: seq<Area>, b: seq<Area>, c: seq<Area>)
      ensures a + b + c == a + (b + c) && (c == [] ==> b + c == b)
    {
    }

    /** One round of the loop, and how far it has brought the walk. */
    method MapRound(t: nat, vaddr: nat, paddr: nat, writable: bool, ghost mem0: Mem, ghost from: nat,
            ghost extra: seq<Area>)
      returns (out: Outcome, again: bool, ghost more: seq<Area>)
      requires Valid() && t < |areas| && IsUserPage(vaddr) && Progressed(mem0, mmu.mem, t, vaddr, from, extra)
      modifies this`refs, this`numUnused, this`areas, this`freeVaddr, this`lost, mmu
      ensures Valid() && (out.Ok? || out.Panic?) && lost == old(lost) && freeVaddr == old(freeVaddr)
      ensures out.Panic? <==> Available(old(refs), regions) == {}
      ensures out.Panic? ==> Available(refs, regions) == {}
      ensures out.Ok? ==> areas == old(areas)[t := old(areas)[t] + more]
      ensures out.Ok? ==> |Available(refs, regions)| == |Available(old(refs), regions)| - |more|
      ensures out.Ok? && again ==>
              |more| == 1 && from + |extra| < 3 && Progressed(mem0, mmu.mem, t, vaddr, from, extra + more)
      ensures out.Ok? && !again ==> more == [] && from + |extra| == 3 && NewTables(mmu.mem, t, vaddr, from, extra)
      ensures out.Ok? && !again ==> TablesCome(mem0, mmu.mem, t, vaddr, 3)
      ensures out.Ok? && !again ==> forall b, w :: 0 <= b < |roots| && IsUserPage(w) ==>
                Resolve(mmu.mem, roots[b], w) == if b == t && w == vaddr then paddr else Resolve(mem0, roots[b], w)
    {
      ghost var mem := mmu.mem;
      var first;
      out, again, first := MapAttempt(t, vaddr, paddr, writable);
      more := if again then [Area(0, first, 1)] else [];
      if out.Panic? { return; }
      if again {
        AgainProgress(mem0, mem, t, vaddr, paddr, first, MapAttrs(writable), from, extra);
      } else {
        LastProgress(mem0, mem, t, vaddr, paddr, first, MapAttrs(writable), from, extra);
        assert old(areas)[t] + more == old(areas)[t];
      }
    }

    /** The loop of map_page(). */
    method MapLoop(t: nat, vaddr: nat, paddr: nat, writable: bool)
      returns (out: Outcome, ghost tries: nat, ghost extra: seq<Area>)
      requires Valid() && t < |areas| && IsUserPage(vaddr)
      modifies this`refs, this`numUnused, this`areas, this`freeVaddr, this`lost, mmu
      ensures Valid() && (out.Ok? || out.Panic?) && tries <= 3 && lost == old(lost) && freeVaddr == old(freeVaddr)
      ensures out.Ok? <==> |Available(old(refs), regions)| >= 4 - Depth(old(mmu.mem), roots[t], Path(vaddr), 0)
      ensures if out.Ok? then |Available(refs, regions)| == |Available(old(refs), regions)| - tries
              else Available(refs, regions) == {}
      ensures out.Ok? ==>
        && areas == old(areas)[t := old(areas)[t] + extra]
        && tries == |extra| == 3 - Depth(old(mmu.mem), roots[t], Path(vaddr), 0)
        && NewTables(mmu.mem, t, vaddr, 3 - |extra|, extra) && TablesCome(old(mmu.mem), mmu.mem, t, vaddr, 3)
        && forall b, w :: 0 <= b < |roots| && IsUserPage(w) ==>
             Resolve(mmu.mem, roots[b], w) == if b == t && w == vaddr then paddr else Resolve(old(mmu.mem), roots[b], w)
    {
      tries, extra := 0, [];
      ghost var from := Depth(mmu.mem, roots[t], Path(vaddr), 0);
      assert old(areas)[t] + extra == old(areas)[t];
      TablesComeFirst(mmu.mem, t, vaddr);
      while true
        invariant Valid() && lost == old(lost) && areas == old(areas)[t := old(areas)[t] + extra] && tries == |extra|
        invariant Progressed(old(mmu.mem), mmu.mem, t, vaddr, from, extra) && freeVaddr == old(freeVaddr)
        invariant |Available(refs, regions)| == |Available(old(refs), regions)| - |extra|
        decreases 3 - |extra|
      {
        var again;
        ghost var more;
        out, again, more := MapRound(t, vaddr, paddr, writable, old(mmu.mem), from, extra);
        if out.Panic? { return; }
        AreasAssoc(old(areas)[t], extra, more);
        if !again { return; }
        tries, extra := tries + 1, extra + more;
      }
    }

    /** is_mappable_paddr_range() */
    predicate IsMappable(paddr: nat, n: nat) {
      var end := paddr + n * PAGE_SIZE;
      base <= paddr < end && end < maxPages * PAGE_SIZE
    }

    /** The n pages from v on resolve to those from p on, and all other pages of all tasks as before. */
    ghost predicate RangeMapped(mem0: Mem, mem: Mem, t: nat, v: nat, p: nat, n: nat)
      requires t < |roots|
    {
      forall b, w: nat :: 0 <= b < |roots| && IsUserPage(w) ==>
        Resolve(mem, roots[b], w) == if b == t && v <= w < v + n * PAGE_SIZE then p + (w - v)
          else Resolve(mem0, roots[b], w)
    }

    static lemma PageWithin(v: nat, i: nat, w: nat)
      requires v % PAGE_SIZE == 0 && w % PAGE_SIZE == 0
      ensures v <= w < v + (i + 1) * PAGE_SIZE <==> v <= w < v + i * PAGE_SIZE || w == v + i * PAGE_SIZE
    {
    }

    /** One more page of the range. */
    lemma RangeGrows(mem0: Mem, mem: Mem, mem': Mem, t: nat, v: nat, p: nat, i: nat)
      requires t < |roots| && v % PAGE_SIZE == 0 && RangeMapped(mem0, mem, t, v, p, i)
      requires forall b, w: nat :: 0 <= b < |roots| && IsUserPage(w) ==>
                 Resolve(mem', roots[b], w) == if b == t && w == v + i * PAGE_SIZE then p + i * PAGE_SIZE
                   else Resolve(mem, roots[b], w)
      ensures RangeMapped(mem0, mem', t, v, p, i + 1)
    {
      forall b, w: nat | 0 <= b < |roots| && IsUserPage(w)
        ensures Resolve(mem', roots[b], w) == if b == t && v <= w < v + (i + 1) * PAGE_SIZE then p + (w - v)
                else Resolve(mem0, roots[b], w)
      {
        PageWithin(v, i, w);
        assert Resolve(mem, roots[b], w) == if b == t && v <= w < v + i * PAGE_SIZE then p + (w - v)
          else Resolve(mem0, roots[b], w);
      }
    }

    /** The tables on the way to a page that it lacks. */
    lemma LacksBelow(mem: Mem, t: nat, vaddr: nat, k: nat)
      requires IsForest(mem, roots) && t < |roots| && IsUserPage(vaddr) && 1 <= k <= 3
      ensures Table(mem, roots[t], Path(vaddr)[..k]) == 0 <==> k > Depth(mem, roots[t], Path(vaddr), 0)
    {
      DepthTables(mem, roots, t, vaddr);
      var path := Path(vaddr);
      assert path[..2][..1] == path[..1] && path[..3][..2] == path[..2];
    }

    lemma BelowMissing(mem: Mem, t: nat, vaddr: nat, n: nat, i: nat, v: nat)
      requires IsForest(mem, roots) && t < |roots| && i < n && v == vaddr + i * PAGE_SIZE && IsUserPage(v)
      ensures Below(v, Depth(mem, roots[t], Path(v), 0)) <= Missing(mem, roots[t], vaddr, n)
    {
      forall p | p in Below(v, Depth(mem, roots[t], Path(v), 0)) ensures p in Missing(mem, roots[t], vaddr, n) {
        LacksBelow(mem, t, v, |p|);
        assert p == Way(vaddr, i, |p|);
      }
    }

    /** Mapping a page of a range provides the tables that this page lacks, and no other. */
    lemma MissingShrinks(mem: Mem, mem': Mem, t: nat, vaddr: nat, n: nat, v: nat)
      requires IsForest(mem, roots) && t < |roots| && vaddr % PAGE_SIZE == 0 && vaddr + n * PAGE_SIZE <= USER_END
      requires IsUserPage(v) && TablesCome(mem, mem', t, v, 3)
      ensures Missing(mem', roots[t], vaddr, n)
              == Missing(mem, roots[t], vaddr, n) - Below(v, Depth(mem, roots[t], Path(v), 0))
    {
      var tables := Below(v, Depth(mem, roots[t], Path(v), 0));
      forall j: nat, k: nat | j < n && 1 <= k <= 3
        ensures Table(mem', roots[t], Way(vaddr, j, k)) == 0 <==>
                Table(mem, roots[t], Way(vaddr, j, k)) == 0 && Way(vaddr, j, k) !in tables
      {
        WayIsUser(vaddr, n, j, k);
        LacksBelow(mem, t, v, k);
        assert Way(vaddr, j, k) in tables ==> Way(vaddr, j, k) == Path(v)[..k];
      }
    }

    lemma WayIsUser(vaddr: nat, n: nat, j: nat, k: nat)
      requires vaddr % PAGE_SIZE == 0 && vaddr + n * PAGE_SIZE <= USER_END && j < n && k <= 3
      ensures IsUserPage(vaddr + j * PAGE_SIZE) && UserPath(Way(vaddr, j, k))
    {
      PathIsUser(vaddr + j * PAGE_SIZE);
      PrefixIsUser(Path(vaddr + j * PAGE_SIZE), k);
    }

    /** The first i pages of a range have all their tables. */
    ghost predicate Provided(mem: Mem, t: nat, vaddr: nat, i: nat)
      requires t < |roots|
    {
      forall j: nat, k: nat :: j < i && 1 <= k <= 3 ==> Table(mem, roots[t], Way(vaddr, j, k)) != 0
    }

    lemma ProvidedGrows(mem: Mem, mem': Mem, t: nat, vaddr: nat, n: nat, i: nat, v: nat)
      requires t < |roots| && vaddr % PAGE_SIZE == 0 && vaddr + n * PAGE_SIZE <= USER_END && i < n
      requires v == vaddr + i * PAGE_SIZE && Provided(mem, t, vaddr, i) && TablesCome(mem, mem', t, v, 3)
      ensures Provided(mem', t, vaddr, i + 1)
    {
      forall j: nat, k: nat | j < i + 1 && 1 <= k <= 3 ensures Table(mem', roots[t], Way(vaddr, j, k)) != 0 {
        WayIsUser(vaddr, n, j, k);
        assert j == i ==> OnWay(Way(vaddr, j, k), v, 3);
      }
    }

    lemma NothingMissing(mem: Mem, t: nat, vaddr: nat, n: nat)
      requires t < |roots| && Provided(mem, t, vaddr, n)
      ensures Missing(mem, roots[t], vaddr, n) == {}
    {
    }

    /** The i-th page of a range. */
    method MapNext(t: nat, vaddr: nat, paddr: nat, n: nat, i: nat) returns (out: Outcome, ghost extra: seq<Area>)
      requires Valid() && t < |areas| && i < n && vaddr % PAGE_SIZE == 0 && vaddr + n * PAGE_SIZE <= USER_END
      requires Provided(mmu.mem, t, vaddr, i)
      modifies this`refs, this`numUnused, this`areas, this`freeVaddr, this`lost, mmu
      ensures Valid() && (out.Ok? || out.Panic?) && lost == old(lost) && freeVaddr == old(freeVaddr)
      ensures out.Panic? ==> |Available(old(refs), regions)| <= |Missing(old(mmu.mem), roots[t], vaddr, n)|
      ensures out.Ok? ==>
        && areas == old(areas)[t := old(areas)[t] + extra] && Provided(mmu.mem, t, vaddr, i + 1)
        && |extra| == |Missing(old(mmu.mem), roots[t], vaddr, n)| - |Missing(mmu.mem, roots[t], vaddr, n)|
        && |extra| == |Available(old(refs), regions)| - |Available(refs, regions)| < |Available(old(refs), regions)|
      ensures out.Ok? ==> forall b, w: nat :: 0 <= b < |roots| && IsUserPage(w) ==>
        Resolve(mmu.mem, roots[b], w) == if b == t && w == vaddr + i * PAGE_SIZE then paddr + i * PAGE_SIZE
          else Resolve(old(mmu.mem), roots[b], w)
    {
      WayIsUser(vaddr, n, i, 3);
      var v := vaddr + i * PAGE_SIZE;
      LackedByPage(mmu.mem, t, vaddr, n, i, v);
      ghost var tries;
      out, tries, extra := MapPage(t, v, paddr + i * PAGE_SIZE, true, false);
      if out.Panic? { return; }
      PageDone(old(mmu.mem), mmu.mem, t, vaddr, n, i, v);
      ProvidedGrows(old(mmu.mem), mmu.mem, t, vaddr, n, i, v);
    }

    /** A page of a range lacks no more tables than the range. */
    lemma LackedByPage(mem: Mem, t: nat, vaddr: nat, n: nat, i: nat, v: nat)
      requires IsForest(mem, roots) && t < |roots| && i < n && v == vaddr + i * PAGE_SIZE && IsUserPage(v)
      ensures |Missing(mem, roots[t], vaddr, n)| >= 3 - Depth(mem, roots[t], Path(v), 0)
    {
      BelowMissing(mem, t, vaddr, n, i, v);
      BelowSize(v, Depth(mem, roots[t], Path(v), 0));
      SubsetSize(Below(v, Depth(mem, roots[t], Path(v), 0)), Missing(mem, roots[t], vaddr, n));
    }

    /** What the i-th page of a range brings. */
    lemma PageDone(mem: Mem, mem': Mem, t: nat, vaddr: nat, n: nat, i: nat, v: nat)
      requires IsForest(mem, roots) && t < |roots| && vaddr % PAGE_SIZE == 0 && vaddr + n * PAGE_SIZE <= USER_END
      requires i < n && v == vaddr + i * PAGE_SIZE && IsUserPage(v) && TablesCome(mem, mem', t, v, 3)
      ensures |Missing(mem', roots[t], vaddr, n)|
              == |Missing(mem, roots[t], vaddr, n)| - (3 - Depth(mem, roots[t], Path(v), 0))
    {
      BelowMissing(mem, t, vaddr, n, i, v);
      MissingShrinks(mem, mem', t, vaddr, n, v);
      BelowSize(v, Depth(mem, roots[t], Path(v), 0));
      Difference(Missing(mem, roots[t], vaddr, n), Below(v, Depth(mem, roots[t], Path(v), 0)),
        Missing(mem', roots[t], vaddr, n));
    }

    /**
     The loop of task_page_alloc() over a given range.  It runs out of pages if and only if the regions have no
     more of them than the range lacks tables.
     */
    method MapRange(t: nat, vaddr: nat, paddr: nat, n: nat) returns (out: Outcome, ghost extra: seq<Area>)
      requires Valid() && t < |areas| && n > 0 && vaddr % PAGE_SIZE == 0 && vaddr + n * PAGE_SIZE <= USER_END
      modifies this`refs, this`numUnused, this`areas, this`freeVaddr, this`lost, mmu
      ensures Valid() && (out.Ok? || out.Panic?) && lost == old(lost) && freeVaddr == old(freeVaddr)
      ensures out.Panic? <==> |Available(old(refs), regions)| <= |Missing(old(mmu.mem), roots[t], vaddr, n)|
      ensures out.Ok? ==>
        && areas == old(areas)[t := old(areas)[t] + extra]
        && |extra| == |Missing(old(mmu.mem), roots[t], vaddr, n)|
        && RangeMapped(old(mmu.mem), mmu.mem, t, vaddr, paddr, n)
    {
      out, extra := Ok, [];
      assert old(areas)[t] + extra == old(areas)[t];
      for i := 0 to n
        invariant Valid() && lost == old(lost) && freeVaddr == old(freeVaddr) && out.Ok?
        invariant areas == old(areas)[t := old(areas)[t] + extra] && Provided(mmu.mem, t, vaddr, i)
        invariant RangeMapped(old(mmu.mem), mmu.mem, t, vaddr, paddr, i)
        invariant |extra| == |Missing(old(mmu.mem), roots[t], vaddr, n)| - |Missing(mmu.mem, roots[t], vaddr, n)|
        invariant |extra| == |Available(old(refs), regions)| - |Available(refs, regions)|
        invariant i > 0 ==> |Available(refs, regions)| > 0
      {
        ghost var mem, more := mmu.mem, [];
        out, more := MapNext(t, vaddr, paddr, n, i);
        if out.Panic? { return; }
        RangeGrows(old(mmu.mem), mem, mmu.mem, t, vaddr, paddr, i);
        AreasAssoc(old(areas)[t], extra, more);
        extra := extra + more;
      }
      NothingMissing(mmu.mem, t, vaddr, n);
    }

    /** The end of task_page_alloc() for a given range of pages. */
    method TaskPageAllocAt(t: nat, vaddr: nat, first: nat, n: nat) returns (out: Outcome, v: nat)
      requires Valid() && t < |areas| && n > 0 && first + n <= maxPages
      modifies this`refs, this`numUnused, this`areas, this`freeVaddr, this`lost, mmu
      ensures Valid() && (out.Ok? || out.NoMemory?)
      ensures out.NoMemory? <==> vaddr == 0 && OutOfAddresses(old(freeVaddr)[t], n)
      ensures Addressed(old(freeVaddr), freeVaddr, t, Some(vaddr), n, out, v)
      ensures out.Ok? ==>
        && areas == old(areas)[t := old(areas)[t] + [Area(v, first, n)]] && lost == old(lost)
        && mmu.mem == old(mmu.mem) && Shifted(old(refs), refs, first, n, 1)
      ensures out.NoMemory? ==>
        && areas == old(areas)[t := []] && Shifted(old(lost), lost, first, n, 1)
        && mmu.mem == old(mmu.mem)[roots[t] := Zeroed()]
    {
      ghost var before := refs;
      PageIncref(first, n);
      out, v := Attach(t, Some(vaddr), first, n, before);
    }

    /** A range of pages that page_alloc.c counts references for. */
    predicate IsRange(paddr: nat, n: nat) {
      paddr % PAGE_SIZE == 0 && IsMappable(paddr, n)
    }

    /** paddr2pfn() */
    function Pfn(paddr: nat): nat
      requires base <= paddr
    {
      (paddr - base) / PAGE_SIZE
    }

    lemma RangeFrames(paddr: nat, n: nat)
      requires base % PAGE_SIZE == 0 && IsRange(paddr, n)
      ensures Paddr(Pfn(paddr)) == paddr && Pfn(paddr) + n <= maxPages && n > 0
    {
      var k := paddr / PAGE_SIZE - base / PAGE_SIZE;
      assert paddr - base == k * PAGE_SIZE;
    }

    /** The addresses of an area resolve to its pages. */
    ghost predicate AreaMapped(mem: Mem, t: nat, v: nat, p: nat, n: nat)
      requires t < |roots|
    {
      forall w: nat :: IsUserPage(w) && v <= w < v + n * PAGE_SIZE ==> Resolve(mem, roots[t], w) == p + (w - v)
    }

    /**
     A range that is mapped at address 0 is not at the address that the task gets for it, unless it was there
     before.
     */
    lemma MappedElsewhere(mem0: Mem, mem: Mem, t: nat, v: nat, p: nat, n: nat)
      requires t < |roots| && RangeMapped(mem0, mem, t, 0, p, n) && IsUserPage(v) && v > 0 && n > 0
      ensures AreaMapped(mem, t, v, p, n) <==> n * PAGE_SIZE <= v && AreaMapped(mem0, t, v, p, n)
    {
      assert Resolve(mem, roots[t], v) == if v < n * PAGE_SIZE then p + v else Resolve(mem0, roots[t], v);
      if n * PAGE_SIZE <= v {
        forall w: nat | IsUserPage(w) && v <= w ensures Resolve(mem, roots[t], w) == Resolve(mem0, roots[t], w) {
        }
      }
    }

    /** When the addresses of the new area resolve to the range that has been mapped for it. */
    lemma AreaMappedIff(mem0: Mem, mem: Mem, t: nat, vaddr: nat, v: nat, p: nat, n: nat)
      requires t < |roots| && RangeMapped(mem0, mem, t, vaddr, p, n) && IsUserPage(v) && v > 0 && n > 0
      requires vaddr != 0 ==> v == vaddr
      ensures AreaMapped(mem, t, v, p, n) <==> vaddr != 0 || (n * PAGE_SIZE <= v && AreaMapped(mem0, t, v, p, n))
    {
      if vaddr == 0 { MappedElsewhere(mem0, mem, t, v, p, n); }
    }

    /** task_page_alloc() of a given range. */
    method TaskPageAllocRange(t: nat, vaddr: nat, paddr: nat, n: nat)
      returns (out: Outcome, v: nat, ghost first: nat, ghost extra: seq<Area>)
      requires Valid() && t < |areas| && IsRange(paddr, n)
      requires vaddr % PAGE_SIZE == 0 && vaddr + n * PAGE_SIZE <= USER_END
      modifies this`refs, this`numUnused, this`areas, this`freeVaddr, this`lost, mmu
      ensures Valid() && (out.Ok? || out.Panic? || out.NoMemory?)
      ensures out.Panic? <==> |Available(old(refs), regions)| <= |Missing(old(mmu.mem), roots[t], vaddr, n)|
      ensures out.NoMemory? <==> !out.Panic? && vaddr == 0 && OutOfAddresses(old(freeVaddr)[t], n)
      ensures Addressed(old(freeVaddr), freeVaddr, t, Some(vaddr), n, out, v)
      ensures !out.NoMemory? ==> lost == old(lost)
      ensures out.NoMemory? ==> areas == old(areas)[t := []] && Shifted(old(lost), lost, first, n, 1)
      ensures out.Ok? ==>
        && paddr == Paddr(first) && areas == old(areas)[t := old(areas)[t] + extra + [Area(v, first, n)]]
        && |extra| == |Missing(old(mmu.mem), roots[t], vaddr, n)|
        && RangeMapped(old(mmu.mem), mmu.mem, t, vaddr, paddr, n)
      ensures out.Ok? && IsUserPage(v) ==>
              (AreaMapped(mmu.mem, t, v, paddr, n) <==>
                 vaddr != 0 || (n * PAGE_SIZE <= v && AreaMapped(old(mmu.mem), t, v, paddr, n)))
    {
      RangeFrames(paddr, n);
      v, first := 0, Pfn(paddr);
      out, extra := MapRange(t, vaddr, paddr, n);
      if out.Panic? { return; }
      out, v := TaskPageAllocAt(t, vaddr, Pfn(paddr), n);
      if out.Ok? && IsUserPage(v) { AreaMappedIff(old(mmu.mem), mmu.mem, t, vaddr, v, paddr, n); }
    }

    /**
     task_page_alloc().  Without a physical address it allocates unreferenced pages; with one it maps that
     range page by page and then counts the references.  On success the task has a new area, the range is mapped
     and no other translation has changed; whatever happens, every reference is accounted for.
     */
    method TaskPageAlloc(t: nat, vaddr: Option<nat>, paddr: nat, n: nat)
      returns (out: Outcome, v: nat, p: nat, ghost first: nat, ghost extra: seq<Area>)
      requires Valid() && t < |areas| && (paddr == 0 ==> n > 0)
      requires paddr != 0 ==> vaddr.Some? && vaddr.value % PAGE_SIZE == 0 && vaddr.value + n * PAGE_SIZE <= USER_END
      modifies this`refs, this`numUnused, this`areas, this`freeVaddr, this`lost, mmu
      ensures Valid()
      ensures out.InvalidArg? <==> paddr != 0 && paddr % PAGE_SIZE != 0
      ensures out.NotAcceptable? <==> paddr != 0 && paddr % PAGE_SIZE == 0 && !IsMappable(paddr, n)
      ensures paddr == 0 ==> (out.Panic? <==> NoFit(old(refs), regions, n))
      ensures paddr != 0 ==>
              (out.Panic? <==>
                 IsRange(paddr, n)
                 && |Available(old(refs), regions)| <= |Missing(old(mmu.mem), roots[t], vaddr.value, n)|)
      ensures out.NoMemory? <==>
              !out.InvalidArg? && !out.NotAcceptable? && !out.Panic? && vaddr == Some(0)
              && OutOfAddresses(old(freeVaddr)[t], n)
      ensures out.InvalidArg? || out.NotAcceptable? ==>
              areas == old(areas) && refs == old(refs) && mmu.mem == old(mmu.mem)
      ensures !out.NoMemory? ==> lost == old(lost)
      ensures out.NoMemory? ==> areas == old(areas)[t := []] && Shifted(old(lost), lost, first, n, 1)
      ensures Addressed(old(freeVaddr), freeVaddr, t, vaddr, n, out, v)
      ensures out.Ok? ==>
        && p == Paddr(first) && (paddr != 0 ==> p == paddr)
        && areas == old(areas)[t := old(areas)[t] + extra + [Area(v, first, n)]]
        && |extra| == if paddr == 0 then 0 else |Missing(old(mmu.mem), roots[t], vaddr.value, n)|
      ensures out.Ok? && paddr == 0 ==> mmu.mem == old(mmu.mem) && FirstFit(old(refs), regions, n, first)
      ensures out.Ok? && paddr != 0 ==> RangeMapped(old(mmu.mem), mmu.mem, t, vaddr.value, paddr, n)
      ensures out.Ok? && paddr != 0 && IsUserPage(v) ==>
              (AreaMapped(mmu.mem, t, v, paddr, n) <==>
                 vaddr.value != 0 || (n * PAGE_SIZE <= v && AreaMapped(old(mmu.mem), t, v, paddr, n)))
    {
      v, p, first, extra := 0, paddr, 0, [];
      if paddr == 0 {
        var f;
        out, v, f := TaskPageAllocAny(t, vaddr, n);
        p, first := Paddr(f), f;
        assert old(areas)[t] + extra == old(areas)[t];
        return;
      }
      if paddr % PAGE_SIZE != 0 { out := InvalidArg; return; }
      if !IsMappable(paddr, n) { out := NotAcceptable; return; }
      out, v, first, extra := TaskPageAllocRange(t, vaddr.value, paddr, n);
    }
  }

  lemma {:induction false} OnlyRoot(root: nat, p: seq<nat>)
    requires root != 0 && p != []
    ensures Table(map[root := Zeroed()], root, p) == 0
    decreases |p|
  {
    if |p| > 1 { OnlyRoot(root, p[..|p| - 1]); }
  }

  lemma OnlyRootForest(root: nat)
    requires root != 0
    ensures IsForest(map[root := Zeroed()], [root])
    ensures forall v: nat :: Resolve(map[root := Zeroed()], root, v) == 0
  {
    forall p: seq<nat> | p != [] ensures Table(map[root := Zeroed()], root, p) == 0 { OnlyRoot(root, p); }
  }

  lemma EnoughPages(refs: seq<nat>, regions: seq<Region>, mem: Mem, root: nat)
    requires |refs| == 8 && (forall f :: 0 <= f < 8 ==> refs[f] == 0) && regions == [Region(0, 8)]
    ensures |Available(refs, regions)| > |Missing(mem, root, 0, 1)|
  {
    assert regions[0] == Region(0, 8);
    SubsetSize({0, 1, 2, 3}, Available(refs, regions));
    BelowSize(0, 0);
    assert Missing(mem, root, 0, 1) <= Below(0, 0);
    SubsetSize(Missing(mem, root, 0, 1), Below(0, 0));
  }

  /** A server with eight pages from 0x2000 on, and one task with an empty address space. */
  ghost predicate OneTask(vm: Vm)
    reads vm, vm.mmu
  {
    && vm.Valid() && vm.base == 0x2000 && vm.maxPages == 8 && vm.regions == [Region(0, 8)] && vm.roots == [0x1000]
    && vm.refs == seq(8, f => 0) && vm.areas == [[]]
    && vm.freeVaddr == [0x1000_0000] && vm.freeVaddrEnd == 0xa00_0000_0000
    && vm.mmu.mem == map[0x1000 := Zeroed()]
  }

  method StartOneTask() returns (vm: Vm)
    ensures fresh(vm) && fresh(vm.mmu) && OneTask(vm)
  {
    var mmu := new Mmu(map[0x1000 := Zeroed()]);
    OnlyRootForest(0x1000);
    forall p: seq<nat> | p != [] ensures Table(mmu.mem, 0x1000, p) == 0 { OnlyRoot(0x1000, p); }
    vm := new Vm(0x2000, 8, 0x1000_0000, 0xa00_0000_0000, [Region(0, 8)], [0x1000], mmu);
  }

  lemma AtZeroOnly(vm: Vm, mem: Mem, v: nat)
    requires vm.roots == [0x1000] && IsUserPage(v) && v >= PAGE_SIZE
    requires vm.RangeMapped(map[0x1000 := Zeroed()], mem, 0, 0, 0x2000, 1)
    ensures Resolve(mem, vm.roots[0], v) == 0 && Resolve(mem, vm.roots[0], 0) == 0x2000
  {
    OnlyRootForest(0x1000);
    assert IsUserPage(0);
  }

  /**
   A task that asks for the page at 0x2000, as the vm server asks for it on the task's behalf: it is told an
   address at which there is nothing, and the page is at address 0.
   */
  method MapsAtZero() returns (vm: Vm, out: Outcome, v: nat)
    ensures fresh(vm) && vm.Valid() && vm.roots == [0x1000] && out.Ok? && v > 0
    ensures |vm.areas| == 1 && vm.areas[0] != [] && vm.areas[0][|vm.areas[0]| - 1] == Area(v, 0, 1)
    ensures Resolve(vm.mmu.mem, vm.roots[0], v) == 0 && Resolve(vm.mmu.mem, vm.roots[0], 0) == vm.Paddr(0)
  {
    vm := StartOneTask();
    EnoughPages(vm.refs, vm.regions, vm.mmu.mem, 0x1000);
    ghost var first, extra;
    var p;
    out, v, p, first, extra := vm.TaskPageAlloc(0, Some(0), 0x2000, 1);
    AtZeroOnly(vm, vm.mmu.mem, v);
  }
}
