/** How many frames the page tables of vm.c take. */
module FrameCounts {
  import opened Basics
  import opened PageTables
  import opened FreeFrames

  lemma {:induction false} MembersSize(list: seq<nat>)
    requires forall i, j :: 0 <= i < j < |list| ==> list[i] != list[j]
    ensures |Members(list)| == |list|
  {
    if list != [] {
      MembersSize(list[1..]);
      assert Members(list) == Members(list[1..]) + {list[0]};
    }
  }

  /** The slots of directory d that lead to a page table. */
  ghost function TableSet(ts: Tables, d: nat): set<nat> {
    set i | 0 <= i < ENTRIES && IsTable(ts, d) && Present(ts[d][i])
  }

  /** The slots of the page tables for pages [lo, hi). */
  ghost function Slots(lo: nat, hi: nat): set<nat> {
    if lo < hi then Interval(lo / ENTRIES, (hi - 1) / ENTRIES + 1) else {}
  }

  lemma SlotsGrow(lo: nat, a: nat)
    requires lo <= a
    ensures Slots(lo, a + 1) == Slots(lo, a) + {a / ENTRIES}
  {
    if lo < a {
      assert (a - 1) / ENTRIES <= a / ENTRIES <= (a - 1) / ENTRIES + 1;
    }
  }

  // ---------------------------------------------------------------- allocuvm

  /** Frames allocuvm takes for the pages [lo, hi) of d: the pages, and the tables d lacks for them. */
  ghost function GrowthCost(ts: Tables, d: nat, lo: nat, hi: nat): int {
    hi - lo + |Slots(lo, hi) - TableSet(ts, d)|
  }

  lemma UnionSize<T>(a: set<T>, b: set<T>)
    ensures |a + b| == |a| + |b - a|
  {
    assert a + b == a + (b - a) && a !! (b - a);
  }

  /** Memory runs out at page v, before or after a frame is taken for it: there was not enough. */
  lemma GrowthShort(ts: Tables, d: nat, lo: nat, v: nat, hi: nat, free: nat, taken: nat)
    requires lo <= v < hi && taken <= 1
    requires free == taken + (v - lo) + |Slots(lo, v) - TableSet(ts, d)|
    requires taken == 1 ==> v / ENTRIES !in TableSet(ts, d) + Slots(lo, v)
    ensures free < GrowthCost(ts, d, lo, hi)
  {
    hide TableSet;
    var has := TableSet(ts, d);
    SlotsNest(lo, v, hi);
    SubsetSize(Slots(lo, v) - has, Slots(lo, hi) - has);
    if taken == 1 {
      Smaller(Slots(lo, v) - has, Slots(lo, hi) - has, v / ENTRIES);
    }
  }

  lemma SlotsNest(lo: nat, v: nat, hi: nat)
    requires lo <= v < hi
    ensures Slots(lo, v) <= Slots(lo, hi) && v / ENTRIES in Slots(lo, hi)
  {
    hide Interval;
    assert forall x :: x in Slots(lo, v) ==> x in Slots(lo, hi);
  }

  // ---------------------------------------------------------------- setupkvm

  const KERNELTABLES := 64

  /** The tables of physical memory above KERNBASE and of the devices. */
  ghost function KernelTables(): set<nat> {
    Interval(512, 568) + Interval(1016, 1024)
  }

  lemma KernelTablesSize()
    ensures |KernelTables()| == KERNELTABLES
  {
    hide Interval;
    IntervalSize(512, 568);
    IntervalSize(1016, 1024);
    assert Interval(512, 568) !! Interval(1016, 1024);
  }

  lemma Smaller<T>(a: set<T>, b: set<T>, x: T)
    requires a <= b && x in b && x !in a
    ensures |a| < |b|
  {
    SubsetSize(a, b - {x});
  }

  // ---------------------------------------------------------------- copyuvm

  /** Page tables for the first n user pages. */
  function TablesFor(n: nat): nat { (n + ENTRIES - 1) / ENTRIES }

  /** Frames copyuvm takes for a copy of n pages: a directory, the kernel tables, the pages and their tables. */
  function CopyCost(n: nat): nat { 1 + KERNELTABLES + n + TablesFor(n) }

  /** copyuvm of n pages with `free` frames runs out between taking a frame for a page and getting a
      table for it. */
  predicate Loses(free: nat, n: nat) {
    free >= CopyCost(0) + 1 && (free - CopyCost(0) - 1) % (ENTRIES + 1) == 0
    && (free - CopyCost(0) - 1) / (ENTRIES + 1) * ENTRIES < n
  }

  /** Whether the table of page v is still missing once v pages are mapped. */
  lemma TableNeeded(v: nat)
    requires v < KPAGE
    ensures v / ENTRIES in KernelTables() + Interval(0, TablesFor(v)) <==> v % ENTRIES != 0
    ensures KernelTables() + Interval(0, TablesFor(v)) + {v / ENTRIES} == KernelTables() + Interval(0, TablesFor(v + 1))
    ensures TablesFor(v + 1) == TablesFor(v) + if v % ENTRIES == 0 then 1 else 0
  {
    assert v / ENTRIES < 512;
    assert TablesFor(v) == v / ENTRIES + if v % ENTRIES == 0 then 0 else 1;
    assert TablesFor(v + 1) == v / ENTRIES + 1;
  }

  /** At page v exactly one frame is left and a table is missing: the losing case. */
  lemma LosesAt(free: nat, v: nat, n: nat)
    requires free == CopyCost(v) + 1 && v % ENTRIES == 0 && v < n
    ensures Loses(free, n)
  {
    var q := v / ENTRIES;
    assert v == q * ENTRIES && TablesFor(v) == q;
    assert free - CopyCost(0) - 1 == q * (ENTRIES + 1);
  }

  /** Memory runs out before a frame is taken for page v. */
  lemma KeepsAt(free: nat, v: nat, n: nat)
    requires free == CopyCost(v)
    ensures !Loses(free, n)
  {
    var q, r := v / ENTRIES, v % ENTRIES;
    assert v == q * ENTRIES + r;
    assert TablesFor(v) == q + if r == 0 then 0 else 1;
    if free >= CopyCost(0) + 1 {
      var x := free - CopyCost(0) - 1;
      assert x == q * (ENTRIES + 1) + (if r == 0 then -1 else r);
      assert r == 0 ==> x == (q - 1) * (ENTRIES + 1) + ENTRIES;
      assert x % (ENTRIES + 1) != 0 by {
        if r == 0 {
          assert x % (ENTRIES + 1) == ENTRIES;
        } else {
          assert x % (ENTRIES + 1) == r;
        }
      }
    }
  }

  /** With enough for the whole copy nothing is lost. */
  lemma EnoughKeeps(free: nat, n: nat)
    requires free >= CopyCost(n)
    ensures !Loses(free, n)
  {
    if free >= CopyCost(0) + 1 && (free - CopyCost(0) - 1) % (ENTRIES + 1) == 0 {
      var q := (free - CopyCost(0) - 1) / (ENTRIES + 1);
      assert free == CopyCost(0) + 1 + q * (ENTRIES + 1);
      assert q * ENTRIES < n ==> n + ENTRIES - 1 >= (q + 1) * ENTRIES && TablesFor(n) >= q + 1;
    }
  }

  /** Memory for `free` frames runs out at page v, before or after a frame is taken for it. */
  predicate RunsOut(free: nat, v: nat, taken: bool) {
    if taken then free == CopyCost(v) + 1 && v % ENTRIES == 0 else free == CopyCost(v)
  }

  /** So copyuvm fails, and loses a frame exactly in the losing case. */
  lemma RunsOutLoses(free: nat, v: nat, taken: bool, n: nat)
    requires RunsOut(free, v, taken) && v < n
    ensures free < CopyCost(n) && (Loses(free, n) <==> taken)
  {
    if taken {
      LosesAt(free, v, n);
      TableStep(v);
    } else {
      KeepsAt(free, v, n);
    }
    CostGrows(v + 1, n);
  }

  lemma TableStep(v: nat)
    ensures TablesFor(v + 1) == TablesFor(v) + if v % ENTRIES == 0 then 1 else 0
  {
    assert TablesFor(v) == v / ENTRIES + if v % ENTRIES == 0 then 0 else 1;
    assert TablesFor(v + 1) == v / ENTRIES + 1;
  }

  lemma CostGrows(v: nat, n: nat)
    requires v <= n
    ensures CopyCost(v) <= CopyCost(n)
  {
  }

  lemma TooFew(free: nat, n: nat)
    requires free < CopyCost(0)
    ensures !Loses(free, n) && free < CopyCost(n)
  {
    CostGrows(0, n);
  }

  lemma OneMore(s: set<nat>, i: nat)
    ensures |s + {i}| == |s| + if i in s then 0 else 1
  {
    if i in s {
      assert s + {i} == s;
    }
  }
}
