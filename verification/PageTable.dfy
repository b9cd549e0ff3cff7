/**
 The 4-level page tables of kernel/arch/x64/vm.c.

 Physical memory is a map from page addresses to tables of 512 entries.  Several
 address spaces, one root each, live in the same memory.  The tables refine a
 flat map per address space: `Resolve` is what the hardware would see, and
 mapping, unmapping and installing a fresh table change it in one place or not
 at all.  Addresses are those of user pages, page-aligned and below 2^47.
 */
module PageTable {

  const PAGE_SIZE := 4096
  const ENTRIES := 512
  const USER_END := 0x8000_0000_0000

  datatype Attr = Present | Writable | User

  /** A 64-bit entry: zero, or an address with the attribute bits or-ed in. */
  datatype Entry = Empty | Entry(paddr: nat, attrs: set<Attr>)

  type Mem = map<nat, seq<Entry>>

  datatype Error = OK | TryAgain | IsEmpty | NotFound

  /** NTH_LEVEL_INDEX(level, vaddr) */
  function Index(level: nat, vaddr: nat): (i: nat)
    requires 1 <= level <= 4
    ensures i < ENTRIES
  {
    match level
    case 1 => vaddr / 0x1000 % 512
    case 2 => vaddr / 0x20_0000 % 512
    case 3 => vaddr / 0x4000_0000 % 512
    case _ => vaddr / 0x80_0000_0000 % 512
  }

  predicate IsUserPage(vaddr: nat) {
    vaddr % PAGE_SIZE == 0 && vaddr < USER_END
  }

  /** The indices of the levels 4, 3 and 2. */
  function Path(vaddr: nat): (p: seq<nat>)
    ensures |p| == 3
  {
    [Index(4, vaddr), Index(3, vaddr), Index(2, vaddr)]
  }

  /** The page tables of user space; a path of length k leads to a table of level 4 - k. */
  predicate UserPath(p: seq<nat>) {
    && |p| <= 3
    && (forall i :: 0 <= i < |p| ==> p[i] < ENTRIES)
    && (p != [] ==> p[0] < ENTRIES / 2)
  }

  /** The four indices determine the page: no two user pages share a translation slot. */
  lemma IndicesInjective(v: nat, w: nat)
    requires IsUserPage(v) && IsUserPage(w) && Path(v) == Path(w) && Index(1, v) == Index(1, w)
    ensures v == w
  {
    assert Path(v)[0] == Path(w)[0] && Path(v)[1] == Path(w)[1] && Path(v)[2] == Path(w)[2];
    Decompose(v);
    Decompose(w);
  }

  lemma Decompose(v: nat)
    requires IsUserPage(v)
    ensures Index(4, v) < ENTRIES / 2
    ensures v == 0x80_0000_0000 * Index(4, v) + 0x4000_0000 * Index(3, v) + 0x20_0000 * Index(2, v)
            + 0x1000 * Index(1, v)
  {
    var a := v / 0x1000;
    assert v / 0x20_0000 == a / 512;
    assert v / 0x4000_0000 == a / 512 / 512;
    assert v / 0x80_0000_0000 == a / 512 / 512 / 512;
  }

  lemma PathIsUser(v: nat)
    requires IsUserPage(v)
    ensures UserPath(Path(v)) && UserPath(Path(v)[..0]) && UserPath(Path(v)[..1]) && UserPath(Path(v)[..2])
  {
    Decompose(v);
  }

  // ---- the tables as a tree ---------------------------------------------------------

  function Get(mem: Mem, table: nat, index: nat): Entry {
    if table in mem && index < |mem[table]| then mem[table][index] else Empty
  }

  function Target(e: Entry): nat {
    if e.Empty? then 0 else e.paddr
  }

  /** The table at the end of a path, or 0. */
  function Table(mem: Mem, root: nat, path: seq<nat>): nat
    decreases |path|
  {
    if path == [] then root
    else Target(Get(mem, Table(mem, root, path[..|path| - 1]), path[|path| - 1]))
  }

  /** vm_resolve(): what the address space maps the page to, or 0. */
  function Resolve(mem: Mem, root: nat, vaddr: nat): nat {
    Target(Get(mem, Table(mem, root, Path(vaddr)), Index(1, vaddr)))
  }

  /** Every path leads to a table of its own, in all address spaces together. */
  ghost predicate IsForest(mem: Mem, roots: seq<nat>) {
    && 0 !in mem
    && (forall a, p {:trigger TableOk(mem, roots[a], p)} :: 0 <= a < |roots| && UserPath(p) ==>
       TableOk(mem, roots[a], p))
    && (forall a, b, p, q {:trigger Apart(mem, roots, a, p, b, q)} ::
          0 <= a < |roots| && 0 <= b < |roots| && UserPath(p) && UserPath(q) ==> Apart(mem, roots, a, p, b, q))
  }

  ghost predicate Apart(mem: Mem, roots: seq<nat>, a: nat, p: seq<nat>, b: nat, q: seq<nat>)
    requires a < |roots| && b < |roots|
  {
    Table(mem, roots[a], p) != 0 && Table(mem, roots[a], p) == Table(mem, roots[b], q) ==> a == b && p == q
  }

  ghost predicate TableOk(mem: Mem, root: nat, p: seq<nat>) {
    var t := Table(mem, root, p);
    && (p == [] ==> t != 0)
    && (t != 0 ==> t in mem && |mem[t]| == ENTRIES)
    && (t != 0 && |p| < 3 ==> forall i :: 0 <= i < ENTRIES && mem[t][i].Entry? ==> mem[t][i].paddr != 0)
  }

  /** kpage is not one of the tables. */
  ghost predicate Fresh(mem: Mem, roots: seq<nat>, kpage: nat) {
    kpage != 0 && forall a, p :: 0 <= a < |roots| && UserPath(p) ==> Table(mem, roots[a], p) != kpage
  }

  /** The caller of arch_vm_map() gives a new page for a table, or none. */
  ghost predicate FreshOrNone(mem: Mem, roots: seq<nat>, kpage: nat) {
    kpage == 0 || Fresh(mem, roots, kpage)
  }

  lemma PrefixIsUser(p: seq<nat>, k: nat)
    requires UserPath(p) && k <= |p|
    ensures UserPath(p[..k])
  {
  }

  /** If the entries of the upper three levels point where they did, so do all paths. */
  lemma {:induction false} TablesStay(mem: Mem, mem': Mem, root: nat, p: seq<nat>)
    requires UserPath(p)
    requires forall q, i :: UserPath(q) && |q| < 3 ==>
               Target(Get(mem', Table(mem, root, q), i)) == Target(Get(mem, Table(mem, root, q), i))
    ensures Table(mem', root, p) == Table(mem, root, p)
    decreases |p|
  {
    if p != [] {
      PrefixIsUser(p, |p| - 1);
      TablesStay(mem, mem', root, p[..|p| - 1]);
    }
  }

  lemma ApartStays(mem: Mem, mem': Mem, roots: seq<nat>)
    requires IsForest(mem, roots)
    requires forall b, p :: 0 <= b < |roots| && UserPath(p) ==> Table(mem', roots[b], p) == Table(mem, roots[b], p)
    ensures forall a, b, p, q :: 0 <= a < |roots| && 0 <= b < |roots| && UserPath(p) && UserPath(q) ==>
            Apart(mem', roots, a, p, b, q)
  {
    forall a, b, p, q | 0 <= a < |roots| && 0 <= b < |roots| && UserPath(p) && UserPath(q)
      ensures Apart(mem', roots, a, p, b, q) {
      assert Apart(mem, roots, a, p, b, q);
    }
  }

  // ---- writing the last level --------------------------------------------------------

  function SetEntry(mem: Mem, table: nat, index: nat, e: Entry): Mem
    requires table in mem && index < |mem[table]|
  {
    mem[table := mem[table][index := e]]
  }

  /** Writing an entry of a level-1 table moves no table. */
  lemma LeafMovesNothing(mem: Mem, roots: seq<nat>, a: nat, path: seq<nat>, index: nat, e: Entry)
    requires IsForest(mem, roots) && a < |roots| && UserPath(path) && |path| == 3 && index < ENTRIES
    requires Table(mem, roots[a], path) != 0
    ensures TableOk(mem, roots[a], path)
    ensures var mem' := SetEntry(mem, Table(mem, roots[a], path), index, e);
            forall b, p :: 0 <= b < |roots| && UserPath(p) ==> Table(mem', roots[b], p) == Table(mem, roots[b], p)
  {
    assert TableOk(mem, roots[a], path);
    var t := Table(mem, roots[a], path);
    var mem' := SetEntry(mem, t, index, e);
    forall b, p | 0 <= b < |roots| && UserPath(p) ensures Table(mem', roots[b], p) == Table(mem, roots[b], p) {
      forall q, i | UserPath(q) && |q| < 3
        ensures Target(Get(mem', Table(mem, roots[b], q), i)) == Target(Get(mem, Table(mem, roots[b], q), i))
      {
        assert Apart(mem, roots, a, path, b, q);
      }
      TablesStay(mem, mem', roots[b], p);
    }
  }

  lemma LeafKeepsForest(mem: Mem, roots: seq<nat>, a: nat, path: seq<nat>, index: nat, e: Entry)
    requires IsForest(mem, roots) && a < |roots| && UserPath(path) && |path| == 3 && index < ENTRIES
    requires Table(mem, roots[a], path) != 0
    ensures TableOk(mem, roots[a], path)
    ensures IsForest(SetEntry(mem, Table(mem, roots[a], path), index, e), roots)
  {
    assert TableOk(mem, roots[a], path);
    var t := Table(mem, roots[a], path);
    var mem' := SetEntry(mem, t, index, e);
    LeafMovesNothing(mem, roots, a, path, index, e);
    forall b, p | 0 <= b < |roots| && UserPath(p) ensures TableOk(mem', roots[b], p) {
      assert TableOk(mem, roots[b], p) && Apart(mem, roots, a, path, b, p);
    }
    ApartStays(mem, mem', roots);
  }

  /** It changes the translation of its own page, and of no other page in any address space. */
  lemma LeafWrite(mem: Mem, roots: seq<nat>, a: nat, vaddr: nat, e: Entry, b: nat, w: nat)
    requires IsForest(mem, roots) && a < |roots| && b < |roots| && IsUserPage(vaddr) && IsUserPage(w)
    requires Table(mem, roots[a], Path(vaddr)) != 0
    ensures UserPath(Path(vaddr)) && TableOk(mem, roots[a], Path(vaddr))
    ensures var mem' := SetEntry(mem, Table(mem, roots[a], Path(vaddr)), Index(1, vaddr), e);
            Resolve(mem', roots[b], w) == if b == a && w == vaddr then Target(e) else Resolve(mem, roots[b], w)
  {
    PathIsUser(vaddr);
    PathIsUser(w);
    assert TableOk(mem, roots[a], Path(vaddr));
    LeafMovesNothing(mem, roots, a, Path(vaddr), Index(1, vaddr), e);
    assert Apart(mem, roots, a, Path(vaddr), b, Path(w));
    if Path(w) == Path(vaddr) && Index(1, w) == Index(1, vaddr) {
      IndicesInjective(w, vaddr);
    }
  }

  // ---- or-ing attributes into an entry -------------------------------------------------

  /** The two memories hold the same tables, up to attributes. */
  ghost predicate SameTargets(mem: Mem, mem': Mem) {
    && mem'.Keys == mem.Keys
    && (forall t :: t in mem ==> |mem'[t]| == |mem[t]|)
    && (forall t, i :: t in mem && 0 <= i < |mem[t]| ==>
          mem'[t][i] == mem[t][i] || (mem[t][i].Entry? && mem'[t][i].Entry? && mem'[t][i].paddr == mem[t][i].paddr))
  }

  lemma {:induction false} SameTargetsTable(mem: Mem, mem': Mem, root: nat, p: seq<nat>)
    requires SameTargets(mem, mem')
    ensures Table(mem', root, p) == Table(mem, root, p)
    decreases |p|
  {
    if p != [] { SameTargetsTable(mem, mem', root, p[..|p| - 1]); }
  }

  lemma SameTargetsForest(mem: Mem, mem': Mem, roots: seq<nat>)
    requires IsForest(mem, roots) && SameTargets(mem, mem')
    ensures IsForest(mem', roots)
    ensures forall b, w :: 0 <= b < |roots| ==> Resolve(mem', roots[b], w) == Resolve(mem, roots[b], w)
  {
    forall b, p | 0 <= b < |roots| ensures Table(mem', roots[b], p) == Table(mem, roots[b], p) {
      SameTargetsTable(mem, mem', roots[b], p);
    }
    forall b, p | 0 <= b < |roots| && UserPath(p) ensures TableOk(mem', roots[b], p) {
      assert TableOk(mem, roots[b], p);
    }
    ApartStays(mem, mem', roots);
  }

  // ---- installing a fresh table ---------------------------------------------------------

  function Zeroed(): seq<Entry> { seq(ENTRIES, i => Empty) }

  /** memset(kpage, 0), then table[index] = kpage. */
  function Install(mem: Mem, table: nat, index: nat, kpage: nat): Mem
    requires table in mem && index < |mem[table]| && table != kpage
  {
    SetEntry(mem[kpage := Zeroed()], table, index, Entry(kpage, {}))
  }

  lemma {:induction false} InstalledTable(mem: Mem, roots: seq<nat>, a: nat, path: seq<nat>, kpage: nat, b: nat,
          p: seq<nat>)
    requires IsForest(mem, roots) && a < |roots| && b < |roots| && UserPath(path) && UserPath(p) && path != []
    requires Fresh(mem, roots, kpage)
    requires var t := Table(mem, roots[a], path[..|path| - 1]); t != 0 && t in mem && |mem[t]| == ENTRIES && t != kpage
    requires Table(mem, roots[a], path) == 0
    ensures var mem' := Install(mem, Table(mem, roots[a], path[..|path| - 1]), path[|path| - 1], kpage);
            Table(mem', roots[b], p) == if b == a && p == path then kpage else Table(mem, roots[b], p)
    decreases |p|
  {
    var up, i := path[..|path| - 1], path[|path| - 1];
    var t := Table(mem, roots[a], up);
    var mem' := Install(mem, t, i, kpage);
    if p != [] {
      var q, j := p[..|p| - 1], p[|p| - 1];
      PrefixIsUser(p, |p| - 1);
      PrefixIsUser(path, |path| - 1);
      InstalledTable(mem, roots, a, path, kpage, b, q);
      assert p == q + [j] && path == up + [i];
      assert TableOk(mem, roots[b], q) && Apart(mem, roots, a, up, b, q);
      assert Table(mem, roots[b], q) != kpage;
    }
  }

  /** A fresh table hangs where nothing was: it changes no translation and keeps the forest. */
  lemma InstallKeeps(mem: Mem, roots: seq<nat>, a: nat, path: seq<nat>, kpage: nat)
    requires IsForest(mem, roots) && a < |roots| && UserPath(path) && path != [] && Fresh(mem, roots, kpage)
    requires Table(mem, roots[a], path[..|path| - 1]) != 0 && Table(mem, roots[a], path) == 0
    ensures TableOk(mem, roots[a], path[..|path| - 1]) && Table(mem, roots[a], path[..|path| - 1]) != kpage
    ensures var mem' := Install(mem, Table(mem, roots[a], path[..|path| - 1]), path[|path| - 1], kpage);
            && IsForest(mem', roots)
            && (forall b, p :: 0 <= b < |roots| && UserPath(p) ==>
                  Table(mem', roots[b], p) == if b == a && p == path then kpage else Table(mem, roots[b], p))
  {
    var up := path[..|path| - 1];
    PrefixIsUser(path, |path| - 1);
    var t := Table(mem, roots[a], up);
    assert TableOk(mem, roots[a], up) && t != kpage;
    var mem' := Install(mem, t, path[|path| - 1], kpage);
    forall b, p | 0 <= b < |roots| && UserPath(p)
      ensures Table(mem', roots[b], p) == if b == a && p == path then kpage else Table(mem, roots[b], p)
    {
      InstalledTable(mem, roots, a, path, kpage, b, p);
    }
    forall b, p | 0 <= b < |roots| && UserPath(p) ensures TableOk(mem', roots[b], p) {
      assert TableOk(mem, roots[b], p) && Apart(mem, roots, a, up, b, p);
    }
    forall c, b, p, q | 0 <= c < |roots| && 0 <= b < |roots| && UserPath(p) && UserPath(q)
      ensures Apart(mem', roots, c, p, b, q) {
      assert Apart(mem, roots, c, p, b, q);
    }
  }

  /** A slot reads the same in both memories if its table is neither t nor the fresh page, or is the fresh page. */
  lemma SlotStays(mem: Mem, t: nat, j: nat, kpage: nat, old_: nat, new_: nat, i: nat)
    requires 0 !in mem && t in mem && j < |mem[t]| && t != kpage && kpage != 0
    requires (new_ == old_ && old_ != t && old_ != kpage) || (new_ == kpage && old_ == 0)
    ensures Target(Get(Install(mem, t, j, kpage), new_, i)) == Target(Get(mem, old_, i))
  {
  }

  lemma InstallKeepsSlot(mem: Mem, roots: seq<nat>, a: nat, path: seq<nat>, kpage: nat, b: nat, p: seq<nat>, i: nat)
    requires IsForest(mem, roots) && a < |roots| && b < |roots| && UserPath(path) && path != []
             && Fresh(mem, roots, kpage)
    requires Table(mem, roots[a], path[..|path| - 1]) != 0 && Table(mem, roots[a], path) == 0 && UserPath(p) && |p| == 3
    requires TableOk(mem, roots[a], path[..|path| - 1]) && Table(mem, roots[a], path[..|path| - 1]) != kpage
    ensures var mem' := Install(mem, Table(mem, roots[a], path[..|path| - 1]), path[|path| - 1], kpage);
            Target(Get(mem', Table(mem', roots[b], p), i)) == Target(Get(mem, Table(mem, roots[b], p), i))
  {
    var up := path[..|path| - 1];
    PrefixIsUser(path, |path| - 1);
    InstalledTable(mem, roots, a, path, kpage, b, p);
    var t, old_ := Table(mem, roots[a], up), Table(mem, roots[b], p);
    assert Apart(mem, roots, a, up, b, p);
    SlotStays(mem, t, path[|path| - 1], kpage, old_, if b == a && p == path then kpage else old_, i);
  }

  // ---- arch_vm_map() and arch_vm_unmap() --------------------------------------------------

  /** table[index] |= attrs */
  function OrAttrs(mem: Mem, table: nat, index: nat, attrs: set<Attr>): (r: Mem)
    ensures SameTargets(mem, r)
  {
    if table in mem && index < |mem[table]| && mem[table][index].Entry?
    then SetEntry(mem, table, index, mem[table][index].(attrs := mem[table][index].attrs + attrs))
    else mem
  }

  /** How many of the tables behind the root exist for this page. */
  function Depth(mem: Mem, root: nat, path: seq<nat>, k: nat): (n: nat)
    requires k <= |path|
    ensures k <= n <= |path|
    ensures forall j :: k <= j < n ==> !Get(mem, Table(mem, root, path[..j]), path[j]).Empty?
    ensures n < |path| ==> Get(mem, Table(mem, root, path[..n]), path[n]).Empty?
    decreases |path| - k
  {
    if k == |path| || Get(mem, Table(mem, root, path[..k]), path[k]).Empty? then k else Depth(mem, root, path, k + 1)
  }

  /** The attributes are or-ed into the first n entries on the way. */
  function Touch(mem: Mem, root: nat, path: seq<nat>, n: nat, attrs: set<Attr>): (r: Mem)
    requires n <= |path|
    ensures SameTargets(mem, r)
  {
    if n == 0 then mem
    else OrAttrs(Touch(mem, root, path, n - 1, attrs), Table(mem, root, path[..n - 1]), path[n - 1], attrs)
  }

  lemma DepthTables(mem: Mem, roots: seq<nat>, a: nat, vaddr: nat)
    requires IsForest(mem, roots) && a < |roots| && IsUserPage(vaddr)
    ensures var path := Path(vaddr); var n := Depth(mem, roots[a], path, 0);
            && (forall j :: 0 <= j <= n ==>
               var t := Table(mem, roots[a], path[..j]); t != 0 && t in mem && |mem[t]| == ENTRIES)
            && (n < 3 ==> Table(mem, roots[a], path[..n + 1]) == 0)
  {
    var path, root := Path(vaddr), roots[a];
    var n := Depth(mem, root, path, 0);
    PathIsUser(vaddr);
    assert path[..3] == path;
    assert TableOk(mem, root, path[..0]) && TableOk(mem, root, path[..1]) && TableOk(mem, root, path[..2])
      && TableOk(mem, root, path[..3]);
    assert path[..1][..0] == path[..0] && path[..2][..1] == path[..1] && path[..3][..2] == path[..2];
  }

  /** What arch_vm_map() leaves in memory. */
  function Mapped(mem: Mem, roots: seq<nat>, a: nat, vaddr: nat, paddr: nat, kpage: nat, attrs: set<Attr>): Mem
    requires IsForest(mem, roots) && a < |roots| && IsUserPage(vaddr) && FreshOrNone(mem, roots, kpage)
  {
    var path, root := Path(vaddr), roots[a];
    var n := Depth(mem, root, path, 0);
    DepthTables(mem, roots, a, vaddr);
    var touched := Touch(mem, root, path, n, attrs);
    var t := Table(mem, root, path[..n]);
    PathIsUser(vaddr);
    PrefixIsUser(path, n);
    if n == 3 then SetEntry(touched, t, Index(1, vaddr), Entry(paddr, attrs))
    else if kpage == 0 then touched else Install(touched, t, path[n], kpage)
  }

  /** A page that has all its tables: the mapping is made, and nothing else changes. */
  lemma MapRefines(mem: Mem, roots: seq<nat>, a: nat, vaddr: nat, paddr: nat, kpage: nat, attrs: set<Attr>)
    requires IsForest(mem, roots) && a < |roots| && IsUserPage(vaddr) && FreshOrNone(mem, roots, kpage)
    requires Depth(mem, roots[a], Path(vaddr), 0) == 3
    ensures var mem' := Mapped(mem, roots, a, vaddr, paddr, kpage, attrs);
            && IsForest(mem', roots)
            && (forall b, w :: 0 <= b < |roots| && IsUserPage(w) ==>
                  Resolve(mem', roots[b], w) == if b == a && w == vaddr then paddr else Resolve(mem, roots[b], w))
            && (forall b, p :: 0 <= b < |roots| && UserPath(p) ==> Table(mem', roots[b], p) == Table(mem, roots[b], p))
  {
    var path, root := Path(vaddr), roots[a];
    var touched := Touch(mem, root, path, 3, attrs);
    PathIsUser(vaddr);
    DepthTables(mem, roots, a, vaddr);
    assert path[..3] == path;
    SameTargetsForest(mem, touched, roots);
    SameTargetsTable(mem, touched, root, path);
    LeafKeepsForest(touched, roots, a, path, Index(1, vaddr), Entry(paddr, attrs));
    LeafMovesNothing(touched, roots, a, path, Index(1, vaddr), Entry(paddr, attrs));
    var mem' := Mapped(mem, roots, a, vaddr, paddr, kpage, attrs);
    forall b, w | 0 <= b < |roots| && IsUserPage(w)
      ensures Resolve(mem', roots[b], w) == if b == a && w == vaddr then paddr else Resolve(mem, roots[b], w)
    {
      LeafWrite(touched, roots, a, vaddr, Entry(paddr, attrs), b, w);
    }
    forall b, p | 0 <= b < |roots| && UserPath(p) ensures Table(mem', roots[b], p) == Table(mem, roots[b], p) {
      SameTargetsTable(mem, touched, roots[b], p);
    }
  }

  /** A page that lacks a table: it gets exactly one more, and no translation changes. */
  lemma TryAgainRefines(mem: Mem, roots: seq<nat>, a: nat, vaddr: nat, paddr: nat, kpage: nat, attrs: set<Attr>)
    requires IsForest(mem, roots) && a < |roots| && IsUserPage(vaddr) && Fresh(mem, roots, kpage)
    requires Depth(mem, roots[a], Path(vaddr), 0) < 3
    ensures var mem' := Mapped(mem, roots, a, vaddr, paddr, kpage, attrs);
            var n := Depth(mem, roots[a], Path(vaddr), 0);
            && IsForest(mem', roots)
            && (forall b, w :: 0 <= b < |roots| && IsUserPage(w) ==>
               Resolve(mem', roots[b], w) == Resolve(mem, roots[b], w))
            && (forall b, p :: 0 <= b < |roots| && UserPath(p) ==>
                  Table(mem', roots[b], p) == if b == a && p == Path(vaddr)[..n + 1] then kpage
                    else Table(mem, roots[b], p))
  {
    var path, root := Path(vaddr), roots[a];
    var n := Depth(mem, root, path, 0);
    var touched := Touch(mem, root, path, n, attrs);
    PathIsUser(vaddr);
    DepthTables(mem, roots, a, vaddr);
    SameTargetsForest(mem, touched, roots);
    var next := path[..n + 1];
    PrefixIsUser(path, n + 1);
    assert next[..n] == path[..n] && next[n] == path[n];
    TouchedTables(mem, touched, roots);
    InstallKeeps(touched, roots, a, next, kpage);
    var mem' := Mapped(mem, roots, a, vaddr, paddr, kpage, attrs);
    assert mem' == Install(touched, Table(touched, root, next[..n]), next[n], kpage);
    forall b, w | 0 <= b < |roots| && IsUserPage(w) ensures Resolve(mem', roots[b], w) == Resolve(mem, roots[b], w) {
      PathIsUser(w);
      InstallKeepsSlot(touched, roots, a, next, kpage, b, Path(w), Index(1, w));
    }
  }

  /** Without a page for the missing table, nothing but attributes on the way changes. */
  lemma EmptyRefines(mem: Mem, roots: seq<nat>, a: nat, vaddr: nat, paddr: nat, attrs: set<Attr>)
    requires IsForest(mem, roots) && a < |roots| && IsUserPage(vaddr) && Depth(mem, roots[a], Path(vaddr), 0) < 3
    ensures var mem' := Mapped(mem, roots, a, vaddr, paddr, 0, attrs);
            && IsForest(mem', roots)
            && (forall b, w :: 0 <= b < |roots| && IsUserPage(w) ==>
               Resolve(mem', roots[b], w) == Resolve(mem, roots[b], w))
            && (forall b, p :: 0 <= b < |roots| && UserPath(p) ==> Table(mem', roots[b], p) == Table(mem, roots[b], p))
  {
    var n := Depth(mem, roots[a], Path(vaddr), 0);
    var touched := Touch(mem, roots[a], Path(vaddr), n, attrs);
    DepthTables(mem, roots, a, vaddr);
    SameTargetsForest(mem, touched, roots);
    TouchedTables(mem, touched, roots);
    forall b, w | 0 <= b < |roots| && IsUserPage(w) ensures Resolve(touched, roots[b], w) == Resolve(mem, roots[b], w) {
      PathIsUser(w);
    }
  }

  /** Each failed attempt fills one missing level. */
  lemma TryAgainProgress(mem: Mem, roots: seq<nat>, a: nat, vaddr: nat, paddr: nat, kpage: nat, attrs: set<Attr>)
    requires IsForest(mem, roots) && a < |roots| && IsUserPage(vaddr) && Fresh(mem, roots, kpage)
    requires Depth(mem, roots[a], Path(vaddr), 0) < 3
    ensures Depth(Mapped(mem, roots, a, vaddr, paddr, kpage, attrs), roots[a], Path(vaddr), 0)
            == Depth(mem, roots[a], Path(vaddr), 0) + 1
  {
    var path, root := Path(vaddr), roots[a];
    var n := Depth(mem, root, path, 0);
    var mem' := Mapped(mem, roots, a, vaddr, paddr, kpage, attrs);
    PathIsUser(vaddr);
    DepthTables(mem, roots, a, vaddr);
    TryAgainRefines(mem, roots, a, vaddr, paddr, kpage, attrs);
    forall k | 0 <= k <= n + 1 ensures Table(mem', root, path[..k]) != 0 { PrefixIsUser(path, k); }
    if n + 2 <= 3 {
      PrefixIsUser(path, n + 2);
      assert path[..n + 2][..n + 1] == path[..n + 1] && Table(mem, root, path[..n + 2]) == 0;
    }
    OneDeeper(mem', roots, a, vaddr, n);
  }

  lemma TouchedTables(mem: Mem, touched: Mem, roots: seq<nat>)
    requires SameTargets(mem, touched)
    ensures forall b, p :: 0 <= b < |roots| && UserPath(p) ==> Table(touched, roots[b], p) == Table(mem, roots[b], p)
  {
    forall b, p | 0 <= b < |roots| && UserPath(p) ensures Table(touched, roots[b], p) == Table(mem, roots[b], p) {
      SameTargetsTable(mem, touched, roots[b], p);
    }
  }

  lemma OneDeeper(mem: Mem, roots: seq<nat>, a: nat, vaddr: nat, n: nat)
    requires IsForest(mem, roots) && a < |roots| && IsUserPage(vaddr) && n < 3
    requires forall k :: 0 <= k <= n + 1 ==> Table(mem, roots[a], Path(vaddr)[..k]) != 0
    requires n + 2 <= 3 ==> Table(mem, roots[a], Path(vaddr)[..n + 2]) == 0
    ensures Depth(mem, roots[a], Path(vaddr), 0) == n + 1
  {
    DepthTables(mem, roots, a, vaddr);
  }

  /** Two forests with the same tables agree on how many of them a page has. */
  lemma SameDepth(mem: Mem, mem': Mem, roots: seq<nat>, a: nat, vaddr: nat)
    requires IsForest(mem, roots) && IsForest(mem', roots) && a < |roots| && IsUserPage(vaddr)
    requires forall p :: UserPath(p) ==> Table(mem', roots[a], p) == Table(mem, roots[a], p)
    ensures Depth(mem', roots[a], Path(vaddr), 0) == Depth(mem, roots[a], Path(vaddr), 0)
  {
    PathIsUser(vaddr);
    DepthTables(mem, roots, a, vaddr);
    DepthTables(mem', roots, a, vaddr);
    var n, n' := Depth(mem, roots[a], Path(vaddr), 0), Depth(mem', roots[a], Path(vaddr), 0);
    if n < 3 { PrefixIsUser(Path(vaddr), n + 1); }
    if n' < 3 { PrefixIsUser(Path(vaddr), n' + 1); }
  }

  /** Clearing an entry whose tables all exist removes that page and no other. */
  lemma UnmapRefines(mem: Mem, roots: seq<nat>, a: nat, vaddr: nat)
    requires IsForest(mem, roots) && a < |roots| && IsUserPage(vaddr) && Table(mem, roots[a], Path(vaddr)) != 0
    ensures UserPath(Path(vaddr)) && TableOk(mem, roots[a], Path(vaddr))
    ensures var mem' := SetEntry(mem, Table(mem, roots[a], Path(vaddr)), Index(1, vaddr), Empty);
            && IsForest(mem', roots)
            && (forall b, w :: 0 <= b < |roots| && IsUserPage(w) ==>
                  Resolve(mem', roots[b], w) == if b == a && w == vaddr then 0 else Resolve(mem, roots[b], w))
            && (forall b, p :: 0 <= b < |roots| && UserPath(p) ==> Table(mem', roots[b], p) == Table(mem, roots[b], p))
  {
    PathIsUser(vaddr);
    var path := Path(vaddr);
    LeafKeepsForest(mem, roots, a, path, Index(1, vaddr), Empty);
    LeafMovesNothing(mem, roots, a, path, Index(1, vaddr), Empty);
    var mem' := SetEntry(mem, Table(mem, roots[a], path), Index(1, vaddr), Empty);
    forall b, w | 0 <= b < |roots| && IsUserPage(w)
      ensures Resolve(mem', roots[b], w) == if b == a && w == vaddr then 0 else Resolve(mem, roots[b], w)
    {
      LeafWrite(mem, roots, a, vaddr, Empty, b, w);
    }
  }

  // ---- the procedures ------------------------------------------------------------------------

  lemma {:induction false} TouchNothing(mem: Mem, root: nat, path: seq<nat>, n: nat)
    requires n <= |path|
    ensures Touch(mem, root, path, n, {}) == mem
  {
    if n > 0 {
      TouchNothing(mem, root, path, n - 1);
      var t, i := Table(mem, root, path[..n - 1]), path[n - 1];
      if t in mem && i < |mem[t]| && mem[t][i].Entry? {
        assert mem[t][i].(attrs := mem[t][i].attrs + {}) == mem[t][i];
        assert mem[t][i := mem[t][i]] == mem[t];
      }
    }
  }

  /** What traverse_page_table() leaves in memory. */
  function Traversed(mem: Mem, root: nat, path: seq<nat>, kpage: nat, attrs: set<Attr>): Mem {
    var n := Depth(mem, root, path, 0);
    var touched := Touch(mem, root, path, n, attrs);
    var t := Table(mem, root, path[..n]);
    if n < |path| && attrs != {} && t in touched && path[n] < |touched[t]| && t != kpage && kpage != 0
      then Install(touched, t, path[n], kpage) else touched
  }

  /** The tables on the way exist and none of them is kpage. */
  ghost predicate Walkable(mem: Mem, root: nat, path: seq<nat>, kpage: nat, attrs: set<Attr>) {
    && |path| == 3 && (forall k :: 0 <= k < 3 ==> path[k] < ENTRIES)
    && (forall k :: 0 <= k <= Depth(mem, root, path, 0) ==>
          var t := Table(mem, root, path[..k]); t in mem && |mem[t]| == ENTRIES && (attrs != {} ==> t != kpage))
  }

  lemma ForestWalkable(mem: Mem, roots: seq<nat>, a: nat, vaddr: nat, kpage: nat, attrs: set<Attr>)
    requires IsForest(mem, roots) && a < |roots| && IsUserPage(vaddr)
    requires attrs != {} ==> FreshOrNone(mem, roots, kpage)
    ensures Walkable(mem, roots[a], Path(vaddr), kpage, attrs)
  {
    DepthTables(mem, roots, a, vaddr);
    PathIsUser(vaddr);
    forall k | 0 <= k <= 3 ensures UserPath(Path(vaddr)[..k]) { PrefixIsUser(Path(vaddr), k); }
  }

  lemma {:induction false} TouchedEntry(mem: Mem, root: nat, path: seq<nat>, n: nat, attrs: set<Attr>, t: nat, i: nat)
    requires n <= |path| && t in mem && i < |mem[t]|
    ensures var r := Touch(mem, root, path, n, attrs);
            t in r && i < |r[t]| && r[t][i].Empty? == mem[t][i].Empty? && Target(r[t][i]) == Target(mem[t][i])
  {
  }

  lemma DepthIsHere(mem: Mem, root: nat, path: seq<nat>, k: nat)
    requires |path| == 3 && k <= Depth(mem, root, path, 0) && k < 3
    ensures Depth(mem, root, path, 0) == k <==> Get(mem, Table(mem, root, path[..k]), path[k]).Empty?
    ensures Table(mem, root, path[..k + 1]) == Target(Get(mem, Table(mem, root, path[..k]), path[k]))
  {
    assert path[..k + 1][..k] == path[..k] && path[..k + 1][k] == path[k];
  }

  class Mmu {
    var mem: Mem

    constructor (mem: Mem)
      ensures this.mem == mem
    {
      this.mem := mem;
    }

    /**
     The page kpage becomes the table behind an empty entry. Page 0 holds no table, and its address is an empty
     entry.
     */
    method InstallTable(table: nat, index: nat, kpage: nat)
      requires table in mem && index < |mem[table]| && table != kpage
      modifies this
      ensures mem == if kpage == 0 then old(mem) else Install(old(mem), table, index, kpage)
    {
      if kpage == 0 { return; }
      mem := mem[kpage := Zeroed()];
      mem := mem[table := mem[table][index := Entry(kpage, {})]];
    }

    /** traverse_page_table(): the level-1 table of the page, or nothing. */
    method TraversePageTable(root: nat, vaddr: nat, kpage: nat, attrs: set<Attr>) returns (found: bool, table: nat)
      requires Walkable(mem, root, Path(vaddr), kpage, attrs)
      modifies this
      ensures mem == Traversed(old(mem), root, Path(vaddr), kpage, attrs)
      ensures found == (Depth(old(mem), root, Path(vaddr), 0) == 3)
      ensures found ==> table == Table(old(mem), root, Path(vaddr))
    {
      ghost var path := Path(vaddr);
      table := root;
      var level := 4;
      while level > 1
        invariant 1 <= level <= 4 && 4 - level <= Depth(old(mem), root, path, 0)
        invariant table == Table(old(mem), root, path[..4 - level])
        invariant mem == Touch(old(mem), root, path, 4 - level, attrs)
        decreases level
      {
        var index := Index(level, vaddr);
        assert index == path[4 - level];
        TouchedEntry(old(mem), root, path, 4 - level, attrs, table, index);
        DepthIsHere(old(mem), root, path, 4 - level);
        if mem[table][index].Empty? {
          if attrs != {} { InstallTable(table, index, kpage); }
          return false, 0;
        }
        table := Descend(table, index, attrs);
        level := level - 1;
      }
      assert path[..3] == path;
      return true, table;
    }

    method Descend(table: nat, index: nat, attrs: set<Attr>) returns (next: nat)
      requires table in mem && index < |mem[table]| && mem[table][index].Entry?
      modifies this
      ensures mem == OrAttrs(old(mem), table, index, attrs) && next == Target(old(mem)[table][index])
    {
      mem := OrAttrs(mem, table, index, attrs);
      next := mem[table][index].paddr;
    }

    /** arch_vm_map() */
    method ArchVmMap(roots: seq<nat>, a: nat, vaddr: nat, paddr: nat, kpage: nat, writable: bool) returns (err: Error)
      requires IsForest(mem, roots) && a < |roots| && IsUserPage(vaddr) && FreshOrNone(mem, roots, kpage)
      modifies this
      ensures mem == Mapped(old(mem), roots, a, vaddr, paddr, kpage, MapAttrs(writable))
      ensures err == if Depth(old(mem), roots[a], Path(vaddr), 0) == 3 then OK else if kpage == 0 then IsEmpty
              else TryAgain
      ensures IsForest(mem, roots)
      ensures forall b, w :: 0 <= b < |roots| && IsUserPage(w) ==>
                Resolve(mem, roots[b], w) == if err == OK && b == a && w == vaddr then paddr
                  else Resolve(old(mem), roots[b], w)
    {
      var attrs := MapAttrs(writable);
      ghost var n := Depth(mem, roots[a], Path(vaddr), 0);
      ForestWalkable(mem, roots, a, vaddr, kpage, attrs);
      if n == 3 {
        MapRefines(mem, roots, a, vaddr, paddr, kpage, attrs);
        assert Path(vaddr)[..3] == Path(vaddr);
      } else if kpage == 0 {
        EmptyRefines(mem, roots, a, vaddr, paddr, attrs);
      } else {
        TryAgainRefines(mem, roots, a, vaddr, paddr, kpage, attrs);
      }
      DepthTables(mem, roots, a, vaddr);
      var found, table := TraversePageTable(roots[a], vaddr, kpage, attrs);
      if !found { return if kpage != 0 then TryAgain else IsEmpty; }
      mem := mem[table := mem[table][Index(1, vaddr) := Entry(paddr, attrs)]];
      return OK;
    }

    /** vm_resolve() */
    method VmResolve(roots: seq<nat>, a: nat, vaddr: nat) returns (paddr: nat)
      requires IsForest(mem, roots) && a < |roots| && IsUserPage(vaddr)
      modifies this
      ensures paddr == Resolve(old(mem), roots[a], vaddr) && mem == old(mem)
    {
      ForestWalkable(mem, roots, a, vaddr, 0, {});
      DepthTables(mem, roots, a, vaddr);
      TouchNothing(mem, roots[a], Path(vaddr), Depth(mem, roots[a], Path(vaddr), 0));
      UnmappedWithoutTables(mem, roots, a, vaddr);
      var found, table := TraversePageTable(roots[a], vaddr, 0, {});
      if !found { return 0; }
      assert Path(vaddr)[..3] == Path(vaddr);
      return Target(mem[table][Index(1, vaddr)]);
    }

    /** vm_unmap(): an unmapped page is an error; a mapped one is removed. */
    method VmUnmap(roots: seq<nat>, a: nat, vaddr: nat) returns (err: Error)
      requires IsForest(mem, roots) && a < |roots| && IsUserPage(vaddr)
      modifies this
      ensures err == if Resolve(old(mem), roots[a], vaddr) == 0 then NotFound else OK
      ensures IsForest(mem, roots)
      ensures forall b, w :: 0 <= b < |roots| && IsUserPage(w) ==>
                Resolve(mem, roots[b], w) == if b == a && w == vaddr then 0 else Resolve(old(mem), roots[b], w)
      ensures forall b, p :: 0 <= b < |roots| && UserPath(p) ==> Table(mem, roots[b], p) == Table(old(mem), roots[b], p)
    {
      var paddr := VmResolve(roots, a, vaddr);
      if paddr == 0 { return NotFound; }
      ForestWalkable(mem, roots, a, vaddr, 0, {});
      DepthTables(mem, roots, a, vaddr);
      TouchNothing(mem, roots[a], Path(vaddr), Depth(mem, roots[a], Path(vaddr), 0));
      UnmappedWithoutTables(mem, roots, a, vaddr);
      assert Path(vaddr)[..3] == Path(vaddr);
      UnmapRefines(mem, roots, a, vaddr);
      var found, table := TraversePageTable(roots[a], vaddr, 0, {});
      mem := mem[table := mem[table][Index(1, vaddr) := Empty]];
      return OK;
    }
  }

  function MapAttrs(writable: bool): set<Attr> {
    if writable then {Present, User, Writable} else {Present, User}
  }

  lemma {:induction false} NoTableBelow(mem: Mem, root: nat, path: seq<nat>, k: nat)
    requires 0 !in mem && k <= |path| && Table(mem, root, path[..k]) == 0 && k > 0
    ensures Table(mem, root, path) == 0
    decreases |path|
  {
    if k < |path| {
      assert path[..|path| - 1][..k] == path[..k];
      NoTableBelow(mem, root, path[..|path| - 1], k);
    } else {
      assert path[..k] == path;
    }
  }

  lemma UnmappedWithoutTables(mem: Mem, roots: seq<nat>, a: nat, vaddr: nat)
    requires IsForest(mem, roots) && a < |roots| && IsUserPage(vaddr)
    ensures Depth(mem, roots[a], Path(vaddr), 0) < 3 ==> Resolve(mem, roots[a], vaddr) == 0
  {
    var n := Depth(mem, roots[a], Path(vaddr), 0);
    DepthTables(mem, roots, a, vaddr);
    if n < 3 { NoTableBelow(mem, roots[a], Path(vaddr), n + 1); }
  }

  // ---- an address space starts over ------------------------------------------------------

  lemma {:induction false} ClearedTable(mem: Mem, roots: seq<nat>, a: nat, b: nat, p: seq<nat>)
    requires IsForest(mem, roots) && a < |roots| && b < |roots| && UserPath(p)
    ensures Table(mem[roots[a] := Zeroed()], roots[b], p) == if b == a && p != [] then 0 else Table(mem, roots[b], p)
    decreases |p|
  {
    if p != [] {
      var q := p[..|p| - 1];
      PrefixIsUser(p, |p| - 1);
      ClearedTable(mem, roots, a, b, q);
      assert Table(mem, roots[a], []) == roots[a];
      assert Apart(mem, roots, a, [], b, q) && TableOk(mem, roots[a], []);
    }
  }

  /** An empty level-4 table drops all translations of its address space and no others. */
  lemma ClearRoot(mem: Mem, roots: seq<nat>, a: nat)
    requires IsForest(mem, roots) && a < |roots|
    ensures var mem' := mem[roots[a] := Zeroed()];
            && IsForest(mem', roots)
            && (forall b, p :: 0 <= b < |roots| && UserPath(p) ==>
                  Table(mem', roots[b], p) == if b == a && p != [] then 0 else Table(mem, roots[b], p))
  {
    var mem' := mem[roots[a] := Zeroed()];
    assert TableOk(mem, roots[a], []);
    forall b, p | 0 <= b < |roots| && UserPath(p)
      ensures Table(mem', roots[b], p) == if b == a && p != [] then 0 else Table(mem, roots[b], p)
    {
      ClearedTable(mem, roots, a, b, p);
    }
    forall b, p | 0 <= b < |roots| && UserPath(p) ensures TableOk(mem', roots[b], p) {
      assert TableOk(mem, roots[b], p) && Apart(mem, roots, a, [], b, p);
    }
    forall c, b, p, q | 0 <= c < |roots| && 0 <= b < |roots| && UserPath(p) && UserPath(q)
      ensures Apart(mem', roots, c, p, b, q) {
      assert Apart(mem, roots, c, p, b, q);
    }
  }

  // ---- what the hardware needs besides the addresses ------------------------------------

  /** Or-ing never takes an attribute away. */
  ghost predicate HasAttrs(mem: Mem, t: nat, i: nat, attrs: set<Attr>) {
    Get(mem, t, i).Entry? && attrs <= Get(mem, t, i).attrs
  }

  lemma OrAttrsGrows(mem: Mem, table: nat, index: nat, attrs: set<Attr>, t: nat, i: nat)
    requires Get(mem, t, i).Entry?
    ensures HasAttrs(OrAttrs(mem, table, index, attrs), t, i, if t == table && i == index then attrs
            else Get(mem, t, i).attrs)
  {
  }

  lemma {:induction false} TouchedAttrs(mem: Mem, root: nat, path: seq<nat>, n: nat, attrs: set<Attr>, k: nat)
    requires k < n <= |path| && Get(mem, Table(mem, root, path[..k]), path[k]).Entry?
    ensures HasAttrs(Touch(mem, root, path, n, attrs), Table(mem, root, path[..k]), path[k], attrs)
  {
    var t, i := Table(mem, root, path[..k]), path[k];
    var m := Touch(mem, root, path, n - 1, attrs);
    var last := Table(mem, root, path[..n - 1]);
    assert Touch(mem, root, path, n, attrs) == OrAttrs(m, last, path[n - 1], attrs);
    if k == n - 1 {
      TouchedEntry(mem, root, path, n - 1, attrs, t, i);
      assert last == t;
    } else {
      TouchedAttrs(mem, root, path, n - 1, attrs, k);
    }
    OrAttrsGrows(m, last, path[n - 1], attrs, t, i);
  }

  /** After a successful map, every level above the page carries the attributes too: the walk is present throughout. */
  lemma MapPresent(mem: Mem, roots: seq<nat>, a: nat, vaddr: nat, paddr: nat, kpage: nat, attrs: set<Attr>, k: nat)
    requires IsForest(mem, roots) && a < |roots| && IsUserPage(vaddr) && FreshOrNone(mem, roots, kpage)
    requires Depth(mem, roots[a], Path(vaddr), 0) == 3 && k < 3
    ensures var mem' := Mapped(mem, roots, a, vaddr, paddr, kpage, attrs);
            var e := Get(mem', Table(mem', roots[a], Path(vaddr)[..k]), Path(vaddr)[k]);
            e.Entry? && attrs <= e.attrs
  {
    var path, root := Path(vaddr), roots[a];
    PathIsUser(vaddr);
    PrefixIsUser(path, k);
    DepthTables(mem, roots, a, vaddr);
    MapRefines(mem, roots, a, vaddr, paddr, kpage, attrs);
    TouchedAttrs(mem, root, path, 3, attrs, k);
    assert path[..3] == path && Apart(mem, roots, a, path[..k], a, path);
  }

  // ---- the packed form of an entry ------------------------------------------------------

  const PADDR_MASK: bv64 := 0x7fff_ffff_ffff_f000

  /**
   An address and attribute bits share one 64-bit word.  For a page-aligned address below 2^63,
   ENTRY_PADDR gets the address back whatever attributes were or-ed in, the attributes add up, and the
   word of a page other than page 0 is never taken for an empty entry.
   */
  lemma EntryPacking(paddr: bv64, attrs: bv64, more: bv64)
    requires paddr & PADDR_MASK == paddr && attrs & 7 == attrs && more & 7 == more
    ensures ((paddr | attrs) | more) & PADDR_MASK == paddr
    ensures ((paddr | attrs) | more) & 7 == attrs | more
    ensures paddr != 0 ==> (paddr | attrs) | more != 0
  {
  }
}
