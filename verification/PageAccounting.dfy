/**
 The arithmetic behind servers/vm/page_alloc.c: reference counts of physical
 pages, the page areas of the tasks that hold them, and runs of free pages.
 */
module PageAccounting {

  /** A `struct page_area`, with its first page frame number. */
  datatype Area = Area(vaddr: nat, first: nat, pages: nat)

  predicate Covers(area: Area, f: nat) {
    area.first <= f < area.first + area.pages
  }

  /** How many of the areas cover the page frame f. */
  function Count(list: seq<Area>, f: nat): nat {
    if list == [] then 0 else Count(list[..|list| - 1], f) + if Covers(list[|list| - 1], f) then 1 else 0
  }

  /** The same over the areas of all tasks. */
  function Total(areas: seq<seq<Area>>, f: nat): nat {
    if areas == [] then 0 else Total(areas[..|areas| - 1], f) + Count(areas[|areas| - 1], f)
  }

  lemma {:induction false} TotalUpdate(areas: seq<seq<Area>>, t: nat, list: seq<Area>, f: nat)
    requires t < |areas|
    ensures Total(areas[t := list], f) == Total(areas, f) - Count(areas[t], f) + Count(list, f)
  {
    var n := |areas| - 1;
    if t < n {
      assert areas[t := list][..n] == areas[..n][t := list];
      TotalUpdate(areas[..n], t, list, f);
    } else {
      assert areas[t := list][..n] == areas[..n];
    }
  }

  lemma {:induction false} CountSplit(a: seq<Area>, b: seq<Area>, f: nat)
    ensures Count(a + b, f) == Count(a, f) + Count(b, f)
  {
    if b == [] {
      assert a + b == a;
    } else {
      assert (a + b)[..|a + b| - 1] == a + b[..|b| - 1];
      CountSplit(a, b[..|b| - 1], f);
    }
  }

  lemma CountAppend(list: seq<Area>, area: Area, f: nat)
    ensures Count(list + [area], f) == Count(list, f) + if Covers(area, f) then 1 else 0
  {
    assert (list + [area])[..|list|] == list;
  }

  lemma CountRemove(list: seq<Area>, k: nat, f: nat)
    requires k < |list|
    ensures Count(list[..k] + list[k+1..], f) == Count(list, f) - if Covers(list[k], f) then 1 else 0
  {
    CountAppend(list[..k], list[k], f);
    CountSplit(list[..k], list[k+1..], f);
    CountSplit(list[..k] + [list[k]], list[k+1..], f);
    assert list == list[..k] + [list[k]] + list[k+1..];
  }

  lemma CountPositive(list: seq<Area>, k: nat, f: nat)
    requires k < |list| && Covers(list[k], f)
    ensures Count(list, f) >= 1
  {
    CountRemove(list, k, f);
  }

  lemma {:induction false} TotalPositive(areas: seq<seq<Area>>, t: nat, f: nat)
    requires t < |areas|
    ensures Total(areas, f) >= Count(areas[t], f)
  {
    var n := |areas| - 1;
    if t < n { TotalPositive(areas[..n], t, f); }
  }

  // ---- reference counts ---------------------------------------------------------------

  /** The number of pages that nobody references. */
  function Zeros(refs: seq<nat>): nat {
    if refs == [] then 0 else Zeros(refs[..|refs| - 1]) + if refs[|refs| - 1] == 0 then 1 else 0
  }

  lemma {:induction false} ZerosUpdate(refs: seq<nat>, f: nat, n: nat)
    requires f < |refs|
    ensures Zeros(refs[f := n]) == Zeros(refs) - (if refs[f] == 0 then 1 else 0) + (if n == 0 then 1 else 0)
  {
    var k := |refs| - 1;
    if f < k {
      assert refs[f := n][..k] == refs[..k][f := n];
      ZerosUpdate(refs[..k], f, n);
    } else {
      assert refs[f := n][..k] == refs[..k];
    }
  }

  lemma {:induction false} ZerosAll(refs: seq<nat>)
    requires forall f :: 0 <= f < |refs| ==> refs[f] == 0
    ensures Zeros(refs) == |refs|
  {
    if refs != [] { ZerosAll(refs[..|refs| - 1]); }
  }

  lemma {:induction false} TotalNone(areas: seq<seq<Area>>, f: nat)
    requires forall t :: 0 <= t < |areas| ==> areas[t] == []
    ensures Total(areas, f) == 0
  {
    if areas != [] { TotalNone(areas[..|areas| - 1], f); }
  }

  /** Every page of the range is unreferenced. */
  ghost predicate FreeRun(refs: seq<nat>, first: nat, n: nat) {
    first + n <= |refs| && forall f :: first <= f < first + n ==> refs[f] == 0
  }

  /** refs with d more references on each page of the range. */
  ghost predicate Shifted(refs: seq<nat>, refs': seq<nat>, first: nat, n: nat, d: int) {
    && |refs'| == |refs|
    && forall f :: 0 <= f < |refs| ==> refs'[f] == refs[f] + if first <= f < first + n then d else 0
  }
}
