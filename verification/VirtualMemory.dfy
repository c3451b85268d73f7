/**
 vm.c and kalloc.c, updating page tables and the free list in place.

 owner says what every allocated frame is used for, loose holds frames between kalloc and
 their first use. pages holds the contents of user frames.
 */
module VirtualMemory {
  import opened Basics
  import opened PageTables
  import opened FrameCounts
  import opened FreeFrames

  const PGSIZE := 4096
  const KERNBASE := 0x8000_0000

  type Page = p: seq<int> | |p| == PGSIZE witness seq(PGSIZE, _ => 0)

  function ZeroPage(): Page { seq(PGSIZE, _ => 0) }

  datatype MapResult = Mapped | OutOfMemory | Remap

  function PgRoundUp(a: nat): nat { (a + PGSIZE - 1) / PGSIZE * PGSIZE }

  /** Frame f holds a page of d between lo and hi. */
  ghost predicate InRange(owner: map<nat, Use>, f: nat, d: nat, lo: nat, hi: nat)
    requires f in owner
  {
    owner[f].User? && owner[f].d == d && lo <= owner[f].v < hi
  }

  /** Exactly the present pages of d in [lo, hi) are gone, and their frames with them. */
  ghost predicate Unmapped(ts: Tables, owner: map<nat, Use>, ts': Tables, owner': map<nat, Use>,
                           d: nat, lo: nat, hi: nat) {
    && (forall u: nat :: u < PAGES ==>
          Lookup(ts', d, u) == if lo <= u < hi && Present(Lookup(ts, d, u)) then NoEntry() else Lookup(ts, d, u))
    && (forall f :: f in owner' <==> f in owner && !InRange(owner, f, d, lo, hi))
    && (forall f :: f in owner' ==> owner'[f] == owner[f])
  }

  /** Pages without a present entry can be added to the range for free. */
  lemma UnmappedSkip(ts: Tables, owner: map<nat, Use>, ts': Tables, owner': map<nat, Use>,
                     d: nat, lo: nat, mid: nat, hi: nat)
    requires OwnersOk(ts, owner) && Unmapped(ts, owner, ts', owner', d, lo, mid) && mid <= hi
    requires forall u: nat :: mid <= u < hi && u < PAGES ==> !Present(Lookup(ts', d, u))
    ensures Unmapped(ts, owner, ts', owner', d, lo, hi)
  {
    forall f | f in owner' ensures !InRange(owner, f, d, lo, hi) {
      assert UseOk(ts, owner, f);
      assert owner[f].User? && owner[f].d == d && mid <= owner[f].v ==>
        Lookup(ts', d, owner[f].v) == Lookup(ts, d, owner[f].v);
    }
  }

  lemma UnmappedOne(ts: Tables, owner: map<nat, Use>, ts1: Tables, owner1: map<nat, Use>,
                    ts2: Tables, owner2: map<nat, Use>, d: nat, lo: nat, v: nat)
    requires Unmapped(ts, owner, ts1, owner1, d, lo, v) && lo <= v < KPAGE
    requires Present(Lookup(ts1, d, v)) && Lookup(ts1, d, v).frame in owner1
    requires owner2 == owner1 - {Lookup(ts1, d, v).frame} && owner1[Lookup(ts1, d, v).frame] == User(d, v)
    requires forall u: nat :: u < PAGES ==> Lookup(ts2, d, u) == if u == v then NoEntry() else Lookup(ts1, d, u)
    requires OwnersOk(ts, owner)
    ensures Unmapped(ts, owner, ts2, owner2, d, lo, v + 1)
  {
    var g := Lookup(ts1, d, v).frame;
    assert Lookup(ts1, d, v) == Lookup(ts, d, v);
    forall f | f in owner ensures f in owner2 <==> !InRange(owner, f, d, lo, v + 1) {
      assert UseOk(ts, owner, f);
      assert owner[f] == User(d, v) ==> f == g;
    }
  }

  class Memory {
    var head: nat
    var next: map<nat, nat>
    var tables: Tables
    var pages: map<nat, Page>
    ghost var list: seq<nat>
    ghost var pool: set<nat>
    ghost var owner: map<nat, Use>
    ghost var loose: set<nat>

    ghost predicate ListOk()
      reads this
    {
      Chain(next, head, list)
    }

    ghost predicate Valid()
      reads this
    {
      && ListOk()
      && Accounted(pool, Members(list), owner, loose)
      && OwnersOk(tables, owner)
      && forall f :: f in owner && owner[f].User? ==> f in pages
    }

    // kinit: nothing managed yet
    constructor ()
      ensures Valid() && list == [] && owner == map[] && loose == {} && pool == {}
    {
      head, next, tables, pages := NULL, map[], map[], map[];
      list, pool, owner, loose := [], {}, map[], {};
    }

    // kfree of a page that is not on the list
    method Kfree(f: nat)
      requires ListOk() && f != NULL && f !in list
      modifies `head, `next, `list
      ensures ListOk() && list == [f] + old(list) && Members(list) == Members(old(list)) + {f}
    {
      PushKeeps(next, head, list, f);
      next := next[f := head];
      head := f;
      list := [f] + list;
    }

    // kalloc; NULL when there is no memory
    method Kalloc() returns (f: nat)
      requires Valid()
      modifies `head, `list, `loose
      ensures Valid()
      ensures f == NULL <==> old(list) == []
      ensures f == NULL ==> list == old(list) && loose == old(loose)
      ensures f != NULL ==> f == old(list)[0] && list == old(list)[1..] && loose == old(loose) + {f}
      ensures f != NULL ==> f !in old(loose) && f !in owner
    {
      f := head;
      if f != NULL {
        PopKeeps(next, head, list);
        assert f in Members(list);
        head := next[f];
        list := list[1..];
        loose := loose + {f};
      }
    }

    // freerange over whole frames [lo, hi)
    method FreeRange(lo: nat, hi: nat)
      requires Valid() && lo >= 1 && forall f :: lo <= f < hi ==> f !in pool
      modifies `head, `next, `list, `pool
      ensures Valid()
      ensures pool == old(pool) + Interval(lo, hi)
      ensures Members(list) == Members(old(list)) + Interval(lo, hi)
    {
      hide Chain, OwnersOk;
      var f := lo;
      while f < hi
        invariant lo <= f && (lo <= hi ==> f <= hi) && Valid()
        invariant lo > hi ==> f == lo
        invariant pool == old(pool) + Interval(lo, f)
        invariant Members(list) == Members(old(list)) + Interval(lo, f)
        decreases hi - f
      {
        assert f !in list by { assert f in list ==> f in Members(list); }
        Kfree(f);
        pool := pool + {f};
        f := f + 1;
      }
    }

    // walkpgdir's new table page t, just allocated, for slot i of directory d
    method AddTable(d: nat, i: nat, t: nat)
      requires Valid() && IsDir(owner, d) && IsTable(tables, d) && i < ENTRIES && !Present(tables[d][i])
      requires t in loose
      modifies `tables, `owner, `loose
      ensures Valid() && loose == old(loose) - {t} && owner == old(owner)[t := Table(d, i)]
      ensures IsTable(old(tables), d) && tables == TableAdded(old(tables), d, i, t)
      ensures Elsewhere(old(tables), old(owner), tables, owner, d)
      ensures forall u: nat :: u < PAGES ==> Lookup(tables, d, u) == Lookup(old(tables), d, u)
      ensures IsTable(tables, d) && tables[d][i] == Pte(t, PTE_P + PTE_W + PTE_U) && IsTable(tables, t)
      ensures TableSet(tables, d) == TableSet(old(tables), d) + {i} && i !in TableSet(old(tables), d)
    {
      hide OwnersOk, Elsewhere, Lookup;
      AddTableKeeps(tables, owner, d, i, t);
      ElsewhereAfterTable(tables, owner, d, i, t);
      forall u: nat | u < PAGES ensures Lookup(TableAdded(tables, d, i, t), d, u) == Lookup(tables, d, u) {
        LookupAfterTable(tables, owner, d, i, t, d, u);
      }
      assert t != d;
      tables := tables[t := ZeroTable()];
      tables := tables[d := tables[d][i := Pte(t, PTE_P + PTE_W + PTE_U)]];
      owner := owner[t := Table(d, i)];
      loose := loose - {t};
    }

    /** Since tables were ts and the free list free, d has got exactly the tables in `slots` that it
        lacked, each out of the free list. */
    ghost predicate Paid(ts: Tables, free: seq<nat>, d: nat, slots: set<nat>)
      reads this
    {
      && TableSet(tables, d) == TableSet(ts, d) + slots
      && |list| + |TableSet(tables, d)| == |free| + |TableSet(ts, d)|
    }

    /** The tables d has got since then are some of `slots`, and one of these is still lacking. */
    ghost predicate ShortOf(ts: Tables, free: seq<nat>, d: nat, slots: set<nat>)
      reads this
    {
      && TableSet(tables, d) <= TableSet(ts, d) + slots
      && (exists i :: i in slots && i !in TableSet(tables, d))
      && |list| + |TableSet(tables, d)| == |free| + |TableSet(ts, d)|
    }

    // walkpgdir: the page table for v, NULL if there is none and none could be made
    method Walk(d: nat, v: nat, alloc: bool) returns (t: nat)
      requires Valid() && IsDir(owner, d) && v < PAGES
      modifies `head, `tables, `list, `owner, `loose
      ensures Valid() && Elsewhere(old(tables), old(owner), tables, owner, d) && loose == old(loose)
      ensures forall u: nat :: u < PAGES ==> Lookup(tables, d, u) == Lookup(old(tables), d, u)
      ensures t != NULL ==> HasTable(tables, owner, d, v) && t == tables[d][v / ENTRIES].frame
      ensures t == NULL ==> tables == old(tables) && owner == old(owner) && list == old(list)
      ensures t == NULL ==> IsTable(tables, d) && !Present(tables[d][v / ENTRIES])
      ensures t == NULL ==> Lookup(tables, d, v) == NoEntry() && (alloc ==> list == [])
      ensures !alloc ==> tables == old(tables) && owner == old(owner) && list == old(list)
      ensures t == NULL ==> v / ENTRIES !in TableSet(old(tables), d)
      ensures t != NULL ==> Paid(old(tables), old(list), d, {v / ENTRIES})
      ensures forall f :: f in owner && owner[f].User? ==> f in old(owner) && owner[f] == old(owner)[f]
      ensures forall f :: f in old(owner) ==> f in owner && owner[f] == old(owner)[f]
    {
      hide Elsewhere;
      assert DirOk(tables, owner, d);
      var i := v / ENTRIES;
      assert TableOwned(tables, owner, d, i);
      ElsewhereRefl(tables, owner, d);
      if Present(tables[d][i]) {
        t := tables[d][i].frame;
        assert UseOk(tables, owner, t);
        assert t != NULL;
      } else {
        if !alloc { return NULL; }
        ghost var was := loose;
        t := Kalloc();
        if t == NULL { return; }
        AddTable(d, i, t);
        assert loose == was;
      }
    }

    /** Page v of directory d is e, and its other pages are as they were. */
    ghost predicate OnlyPage(before: Tables, d: nat, v: nat, e: Pte)
      reads this
    {
      forall u: nat :: u < PAGES ==> Lookup(tables, d, u) == if u == v then e else Lookup(before, d, u)
    }

    // Store an entry for a page whose table exists; ghost bookkeeping follows the kind of page.
    method StoreEntry(d: nat, v: nat, t: nat, e: Pte)
      requires Valid() && HasTable(tables, owner, d, v) && t == tables[d][v / ENTRIES].frame
      requires Present(e) && !Present(Lookup(tables, d, v))
      requires v < KPAGE ==> e.frame in loose && e.frame in pages
      modifies `tables, `owner, `loose
      ensures Valid() && OnlyPage(old(tables), d, v, e) && Elsewhere(old(tables), old(owner), tables, owner, d)
      ensures owner == if v < KPAGE then old(owner)[e.frame := User(d, v)] else old(owner)
      ensures loose == if v < KPAGE then old(loose) - {e.frame} else old(loose)
      ensures IsDir(owner, d) && TableSet(tables, d) == TableSet(old(tables), d)
    {
      hide OwnersOk, Lookup, Elsewhere;
      ghost var owner' := if v < KPAGE then owner[e.frame := User(d, v)] else owner;
      if v < KPAGE { MapUserKeeps(tables, owner, d, v, e); } else { KernelEntryKeeps(tables, owner, d, v, e); }
      assert Others(owner', d) == Others(owner, d);
      ElsewhereAfterSet(tables, owner, d, v, e, owner');
      forall u: nat | u < PAGES
        ensures Lookup(EntrySet(tables, d, v, e), d, u) == if u == v then e else Lookup(tables, d, u)
      {
        LookupAfterSet(tables, owner, d, v, e, d, u);
      }
      LookupAfterSet(tables, owner, d, v, e, d, 0);
      tables := tables[t := tables[t][v % ENTRIES := e]];
      loose := if v < KPAGE then loose - {e.frame} else loose;
      owner := owner';
    }

    // One turn of mappages' loop.
    method MapOne(d: nat, v: nat, frame: nat, perm: nat) returns (r: MapResult)
      requires Valid() && IsDir(owner, d) && v < PAGES
      requires v < KPAGE ==> frame in loose && frame in pages
      modifies `head, `tables, `list, `owner, `loose
      ensures Valid() && IsDir(owner, d) && Elsewhere(old(tables), old(owner), tables, owner, d)
      ensures r.Remap? <==> Present(Lookup(old(tables), d, v))
      ensures r.OutOfMemory? ==> old(list) == list == [] && v / ENTRIES !in TableSet(old(tables), d)
      ensures r.OutOfMemory? ==> TableSet(tables, d) == TableSet(old(tables), d)
      ensures !r.OutOfMemory? ==> Paid(old(tables), old(list), d, {v / ENTRIES})
      ensures r.Mapped? ==> OnlyPage(old(tables), d, v, Pte(frame, WithP(perm)))
      ensures !r.Mapped? ==> forall u: nat :: u < PAGES ==> Lookup(tables, d, u) == Lookup(old(tables), d, u)
      ensures loose == if r.Mapped? && v < KPAGE then old(loose) - {frame} else old(loose)
      ensures r.Mapped? && v < KPAGE ==> frame in owner && owner[frame] == User(d, v)
      ensures forall f :: f in owner && owner[f].User? ==>
        (f in old(owner) && owner[f] == old(owner)[f]) || (r.Mapped? && f == frame && v < KPAGE)
      ensures forall f :: f in old(owner) ==> f in owner && owner[f] == old(owner)[f]
    {
      hide OwnersOk, Elsewhere, Chain, Lookup;
      var t := Walk(d, v, true);
      if t == NULL { return OutOfMemory; }
      TableEntry(tables, owner, d, v);
      if Present(tables[t][v % ENTRIES]) { return Remap; }
      ghost var ts, ow := tables, owner;
      StoreEntry(d, v, t, Pte(frame, WithP(perm)));
      ElsewhereTwice(old(tables), old(owner), ts, ow, tables, owner, d);
      return Mapped;
    }

    // deallocuvm's inner step: free a present page of d and clear its entry
    method FreePage(d: nat, v: nat, t: nat)
      requires Valid() && v < KPAGE && HasTable(tables, owner, d, v) && t == tables[d][v / ENTRIES].frame
      requires Present(Lookup(tables, d, v))
      modifies `head, `next, `tables, `list, `owner
      ensures Valid() && IsDir(owner, d) && Elsewhere(old(tables), old(owner), tables, owner, d)
      ensures OnlyPage(old(tables), d, v, NoEntry())
      ensures var f := Lookup(old(tables), d, v).frame;
        f in old(owner) && old(owner)[f] == User(d, v) && owner == old(owner) - {f}
    {
      hide OwnersOk, Elsewhere;
      UnmapUserKeeps(tables, owner, d, v);
      var f := tables[t][v % ENTRIES].frame;
      assert f == Lookup(tables, d, v).frame;
      assert f !in list by { assert f in list ==> f in Members(list); }
      ghost var owner' := owner - {f};
      assert Others(owner', d) == Others(owner, d);
      ElsewhereAfterSet(tables, owner, d, v, NoEntry(), owner');
      forall u: nat | u < PAGES
        ensures Lookup(EntrySet(tables, d, v, NoEntry()), d, u) == if u == v then NoEntry() else Lookup(tables, d, u)
      {
        LookupAfterSet(tables, owner, d, v, NoEntry(), d, u);
      }
      Kfree(f);
      tables := tables[t := tables[t][v % ENTRIES := NoEntry()]];
      owner := owner';
    }

    /** deallocuvm has dealt with the pages of d in [lo, hi) since tables and owners were ts and ow. */
    ghost predicate Dropped(ts: Tables, ow: map<nat, Use>, d: nat, lo: nat, hi: nat)
      reads this
    {
      && Valid() && IsDir(owner, d) && OwnersOk(ts, ow)
      && Elsewhere(ts, ow, tables, owner, d) && Unmapped(ts, ow, tables, owner, d, lo, hi)
    }

    // One turn of deallocuvm's loop, without the final a += PGSIZE.
    method DropAt(d: nat, a: nat, ghost ts: Tables, ghost ow: map<nat, Use>, ghost lo: nat, ghost top: nat)
        returns (r: nat)
      requires Dropped(ts, ow, d, lo, a / PGSIZE) && a % PGSIZE == 0 && lo <= a / PGSIZE < top <= KPAGE
      modifies `head, `next, `tables, `list, `owner, `loose
      ensures a <= r && r % PGSIZE == 0 && r < KERNBASE && loose == old(loose)
      ensures Dropped(ts, ow, d, lo, Min(r / PGSIZE + 1, top))
    {
      hide OwnersOk, Elsewhere, Unmapped, Lookup, Chain, Accounted;
      var v := a / PGSIZE;
      r := a;
      var t := Walk(d, v, false);
      if t == NULL {
        NoTableNoPages(tables, d, v);
        SkipTarget(a);
        r := (a / 0x40_0000 + 1) * 0x40_0000 - PGSIZE;
        UnmappedSkip(ts, ow, tables, owner, d, lo, v, Min(r / PGSIZE + 1, top));
      } else {
        TableEntry(tables, owner, d, v);
        if Present(tables[t][v % ENTRIES]) {
          ghost var ts1, ow1 := tables, owner;
          FreePage(d, v, t);
          UnmappedOne(ts, ow, ts1, ow1, tables, owner, d, lo, v);
          ElsewhereTwice(ts, ow, ts1, ow1, tables, owner, d);
        } else {
          UnmappedSkip(ts, ow, tables, owner, d, lo, v, v + 1);
        }
      }
    }

    method DeallocUvm(d: nat, oldsz: nat, newsz: nat) returns (r: nat)
      requires Valid() && IsDir(owner, d) && oldsz <= KERNBASE
      modifies `head, `next, `tables, `list, `owner, `loose
      ensures Valid() && IsDir(owner, d) && Elsewhere(old(tables), old(owner), tables, owner, d)
      ensures loose == old(loose)
      ensures newsz >= oldsz ==> r == oldsz && tables == old(tables) && owner == old(owner) && list == old(list)
      ensures newsz < oldsz ==> r == newsz
      ensures newsz < oldsz ==>
        Unmapped(old(tables), old(owner), tables, owner, d, PgRoundUp(newsz) / PGSIZE, PgRoundUp(oldsz) / PGSIZE)
    {
      hide OwnersOk, Elsewhere, Unmapped, Lookup, Chain, Accounted;
      ElsewhereRefl(tables, owner, d);
      if newsz >= oldsz { return oldsz; }
      ghost var ts, ow, lo, top := tables, owner, PgRoundUp(newsz) / PGSIZE, PgRoundUp(oldsz) / PGSIZE;
      UnmappedRefl(ts, ow, d, lo);
      var a := PgRoundUp(newsz);
      while a < oldsz
        invariant a % PGSIZE == 0 && lo <= a / PGSIZE && a <= KERNBASE && loose == old(loose)
        invariant Dropped(ts, ow, d, lo, Min(a / PGSIZE, top))
        decreases KERNBASE - a
      {
        a := DropAt(d, a, ts, ow, lo, top);
        a := a + PGSIZE;
      }
      r := newsz;
    }

    // freevm's loop: give back the page tables of d, whose user pages are gone
    method FreeTables(d: nat)
      requires Valid() && IsDir(owner, d)
      modifies `head, `next, `list
      ensures ListOk() && Members(list) == Members(old(list)) + TablesOf(owner, d, ENTRIES)
    {
      hide Chain, OwnersOk;
      TableSlots(tables, owner, d);
      var i := 0;
      while i < ENTRIES
        invariant 0 <= i <= ENTRIES && ListOk()
        invariant Members(list) == Members(old(list)) + TablesOf(owner, d, i)
      {
        TableSlot(tables, owner, d, i);
        if Present(tables[d][i]) {
          var t := tables[d][i].frame;
          assert t !in list by { assert t in list ==> t in Members(list); }
          Kfree(t);
        }
        i := i + 1;
      }
    }

    method FreeVm(d: nat)
      requires Valid() && IsDir(owner, d)
      modifies `head, `next, `tables, `list, `owner, `loose
      ensures Valid() && owner == Others(old(owner), d) && loose == old(loose)
      ensures Elsewhere(old(tables), old(owner), tables, owner, d)
    {
      hide Chain, OwnersOk, Lookup, Accounted, TablesOf, Elsewhere, Unmapped, Others;
      var r := DeallocUvm(d, KERNBASE, 0);
      ghost var free := Members(list);
      OnlyTables(old(tables), old(owner), tables, owner, d);
      FreeTables(d);
      Reclaimed(pool, free, owner, d, loose);
      assert d !in list by { assert d in list ==> d in Members(list); }
      Kfree(d);
      DropDirKeeps(tables, owner, d);
      ElsewhereDrop(old(tables), old(owner), tables, owner, d);
      owner := Others(owner, d);
    }

    // One turn of allocuvm's loop; a frame that could not be mapped is handed back in mem.
    method AllocPage(d: nat, v: nat, ghost ts: Tables, ghost ow: map<nat, Use>, ghost lo: nat)
        returns (r: MapResult, mem: nat)
      requires Valid() && IsDir(owner, d) && Elsewhere(ts, ow, tables, owner, d) && lo <= v < KPAGE
      requires Grown(ts, ow, tables, owner, pages, d, lo, v)
      modifies `head, `tables, `pages, `list, `owner, `loose
      ensures Valid() && IsDir(owner, d) && Elsewhere(ts, ow, tables, owner, d)
      ensures r.Mapped? ==> Grown(ts, ow, tables, owner, pages, d, lo, v + 1) && loose == old(loose)
      ensures r.Mapped? ==> !Present(Lookup(ts, d, v))
      ensures r.OutOfMemory? ==> Grown(ts, ow, tables, owner, pages, d, lo, v) && list == []
      ensures r.OutOfMemory? && mem == NULL ==> loose == old(loose)
      ensures r.OutOfMemory? && mem != NULL ==> loose == old(loose) + {mem} && mem !in old(loose)
      ensures r.Remap? ==> Present(Lookup(ts, d, v))
      ensures r.Mapped? ==> old(list) != [] && Paid(old(tables), old(list)[1..], d, {v / ENTRIES})
      ensures r.OutOfMemory? ==> |old(list)| == if mem == NULL then 0 else 1
      ensures r.OutOfMemory? && mem != NULL ==> v / ENTRIES !in TableSet(old(tables), d)
      ensures forall f :: f in old(pages) && f in old(owner) ==> f in pages && pages[f] == old(pages)[f]
    {
      hide OwnersOk, Chain, Lookup, Elsewhere, Accounted, Grown, TableSet;
      mem := Kalloc();
      if mem == NULL { return OutOfMemory, mem; }
      PageUntouched(ts, ow, tables, owner, pages, d, lo, v);
      ghost var ts1, ow1, pages1 := tables, owner, pages;
      pages := pages[mem := ZeroPage()];
      r := MapOne(d, v, mem, PTE_W + PTE_U);
      ElsewhereTwice(ts, ow, ts1, ow1, tables, owner, d);
      if r.Mapped? {
        GrownOne(ts, ow, ts1, ow1, pages1, tables, owner, pages, d, lo, v, mem);
      } else {
        GrownSame(ts, ow, ts1, ow1, pages1, tables, owner, pages, d, lo, v, mem);
      }
    }

    // allocuvm's error path: undo, and give back the frame that could not be mapped
    method GiveUp(d: nat, newsz: nat, oldsz: nat, mem: nat, ghost ts: Tables, ghost ow: map<nat, Use>, ghost v: nat)
      requires Valid() && IsDir(owner, d) && Elsewhere(ts, ow, tables, owner, d) && newsz <= KERNBASE
      requires OwnersOk(ts, ow) && IsDir(ow, d) && (mem != NULL ==> mem in loose)
      requires Grown(ts, ow, tables, owner, pages, d, PgRoundUp(oldsz) / PGSIZE, v)
      requires PgRoundUp(oldsz) / PGSIZE <= v < PgRoundUp(newsz) / PGSIZE
      modifies `head, `next, `tables, `list, `owner, `loose
      ensures Valid() && IsDir(owner, d) && Elsewhere(ts, ow, tables, owner, d)
      ensures Vacant(ts, d, oldsz, newsz) ==> Restored(ts, ow, tables, owner, d)
      ensures loose == if mem == NULL then old(loose) else old(loose) - {mem}
    {
      hide OwnersOk, Chain, Lookup, Elsewhere, Grown, Unmapped, Restored;
      ghost var ts1, ow1 := tables, owner;
      var r := DeallocUvm(d, newsz, oldsz);
      ElsewhereTwice(ts, ow, ts1, ow1, tables, owner, d);
      if Vacant(ts, d, oldsz, newsz) {
        Undone(ts, ow, ts1, ow1, pages, tables, owner, d, PgRoundUp(oldsz) / PGSIZE, v, PgRoundUp(newsz) / PGSIZE);
      }
      if mem != NULL {
        assert mem !in list by { assert mem in list ==> mem in Members(list); }
        Kfree(mem);
        loose := loose - {mem};
      }
    }

    /** Pages [lo, v) have been added to d since there were `free` frames and the tables ts. */
    ghost predicate Spent(ts: Tables, free: nat, d: nat, lo: nat, v: nat)
      reads this
    {
      && lo <= v && TableSet(tables, d) == TableSet(ts, d) + Slots(lo, v)
      && |list| + (v - lo) + |Slots(lo, v) - TableSet(ts, d)| == free
    }

    lemma NothingSpent(d: nat, lo: nat)
      ensures Spent(tables, |list|, d, lo, lo)
    {
      hide TableSet;
      NoSlots(lo);
      assert Slots(lo, lo) - TableSet(tables, d) == {};
    }

    lemma SpentIsCost(ts: Tables, free: nat, d: nat, lo: nat, v: nat)
      requires Spent(ts, free, d, lo, v)
      ensures free >= GrowthCost(ts, d, lo, v)
    {
    }

    lemma SpendPage(ts: Tables, free: nat, d: nat, lo: nat, v: nat, before: Tables, list0: seq<nat>)
      requires lo <= v && TableSet(before, d) == TableSet(ts, d) + Slots(lo, v)
      requires |list0| + (v - lo) + |Slots(lo, v) - TableSet(ts, d)| == free
      requires list0 != [] && Paid(before, list0[1..], d, {v / ENTRIES})
      ensures Spent(ts, free, d, lo, v + 1)
    {
      hide TableSet, Slots;
      SlotsGrow(lo, v);
      UnionSize(TableSet(ts, d), Slots(lo, v));
      UnionSize(TableSet(ts, d), Slots(lo, v + 1));
      assert TableSet(tables, d) == TableSet(ts, d) + Slots(lo, v + 1);
    }

    // A turn of allocuvm's loop, with the frames counted.
    method AllocTurn(d: nat, v: nat, ghost ts: Tables, ghost ow: map<nat, Use>, ghost lo: nat, ghost hi: nat,
                     ghost free: nat)
        returns (r: MapResult, mem: nat)
      requires Valid() && IsDir(owner, d) && Elsewhere(ts, ow, tables, owner, d) && lo <= v < hi <= KPAGE
      requires Grown(ts, ow, tables, owner, pages, d, lo, v) && Spent(ts, free, d, lo, v)
      modifies `head, `tables, `pages, `list, `owner, `loose
      ensures Valid() && IsDir(owner, d) && Elsewhere(ts, ow, tables, owner, d)
      ensures r.Mapped? ==> Grown(ts, ow, tables, owner, pages, d, lo, v + 1) && loose == old(loose)
      ensures r.Mapped? ==> !Present(Lookup(ts, d, v)) && Spent(ts, free, d, lo, v + 1)
      ensures r.OutOfMemory? ==> Grown(ts, ow, tables, owner, pages, d, lo, v) && free < GrowthCost(ts, d, lo, hi)
      ensures r.OutOfMemory? && mem == NULL ==> loose == old(loose)
      ensures r.OutOfMemory? && mem != NULL ==> loose == old(loose) + {mem} && mem !in old(loose)
      ensures r.Remap? ==> Present(Lookup(ts, d, v))
      ensures forall f :: f in old(pages) && f in old(owner) ==> f in pages && pages[f] == old(pages)[f]
    {
      hide Valid, OwnersOk, Chain, Lookup, Elsewhere, Accounted, Grown, TableSet, Slots, GrowthCost;
      r, mem := AllocPage(d, v, ts, ow, lo);
      if r.Mapped? {
        SpendPage(ts, free, d, lo, v, old(tables), old(list));
      } else if r.OutOfMemory? {
        GrowthShort(ts, d, lo, v, hi, free, |old(list)|);
      }
    }

    // allocuvm; a page that is already there is a panic
    method AllocUvm(d: nat, oldsz: nat, newsz: nat) returns (r: nat, panicked: bool)
      requires Valid() && IsDir(owner, d)
      modifies `head, `next, `tables, `pages, `list, `owner, `loose
      ensures Valid() && IsDir(owner, d) && Elsewhere(old(tables), old(owner), tables, owner, d)
      ensures panicked ==> oldsz <= newsz < KERNBASE && !Vacant(old(tables), d, oldsz, newsz)
      ensures !panicked ==> loose == old(loose)
      ensures newsz >= KERNBASE ==> r == 0 && tables == old(tables) && owner == old(owner)
      ensures newsz < KERNBASE && newsz < oldsz ==> r == oldsz && tables == old(tables) && owner == old(owner)
      ensures oldsz <= newsz < KERNBASE && !panicked ==> r == newsz || r == 0
      ensures oldsz <= newsz < KERNBASE && !panicked && r == newsz ==>
        Grown(old(tables), old(owner), tables, owner, pages, d, PgRoundUp(oldsz) / PGSIZE, PgRoundUp(newsz) / PGSIZE)
      ensures oldsz <= newsz < KERNBASE && !panicked && r == newsz > 0 ==> Vacant(old(tables), d, oldsz, newsz)
      ensures oldsz <= newsz < KERNBASE && r == 0 < newsz && Vacant(old(tables), d, oldsz, newsz) ==>
        Restored(old(tables), old(owner), tables, owner, d)
      ensures oldsz <= newsz < KERNBASE && 0 < newsz && Vacant(old(tables), d, oldsz, newsz) ==>
        (r == newsz <==>
          |old(list)| >= GrowthCost(old(tables), d, PgRoundUp(oldsz) / PGSIZE, PgRoundUp(newsz) / PGSIZE))
      ensures forall f :: f in old(pages) && f in old(owner) ==> f in pages && pages[f] == old(pages)[f]
    {
      hide OwnersOk, Chain, Lookup, Elsewhere, Grown, Accounted, Restored, TableSet, Slots, Spent, GrowthCost;
      panicked := false;
      ElsewhereRefl(tables, owner, d);
      if newsz >= KERNBASE { return 0, false; }
      if newsz < oldsz { return oldsz, false; }
      ghost var ts, ow, lo := tables, owner, PgRoundUp(oldsz) / PGSIZE;
      GrownRefl(ts, ow, pages, d, lo);
      var a := PgRoundUp(oldsz);
      NothingSpent(d, lo);
      while a < newsz
        invariant Spent(ts, |old(list)|, d, lo, a / PGSIZE)
        invariant a % PGSIZE == 0 && lo <= a / PGSIZE && a <= PgRoundUp(newsz) && loose == old(loose)
        invariant Valid() && IsDir(owner, d) && Elsewhere(ts, ow, tables, owner, d)
        invariant Grown(ts, ow, tables, owner, pages, d, lo, a / PGSIZE)
        invariant forall u: nat :: lo <= u < a / PGSIZE ==> !Present(Lookup(ts, d, u))
        invariant forall f :: f in old(pages) && f in ow ==> f in pages && pages[f] == old(pages)[f]
        decreases KERNBASE - a
      {
        GrownKeepsOwners(ts, ow, tables, owner, pages, d, lo, a / PGSIZE);
        PageStep(a, newsz);
        var res, mem := AllocTurn(d, a / PGSIZE, ts, ow, lo, PgRoundUp(newsz) / PGSIZE, |old(list)|);
        if res.Remap? {
          return 0, true;
        }
        if res.OutOfMemory? {
          GiveUp(d, newsz, oldsz, mem, ts, ow, a / PGSIZE);
          return 0, false;
        }
        a := a + PGSIZE;
      }
      PagesDone(a, newsz);
      SpentIsCost(ts, |old(list)|, d, lo, a / PGSIZE);
      r := newsz;
    }

    // mappages over kernel addresses: pages first..last onto frames from frame on
    method MapKernel(d: nat, first: nat, last: nat, frame: nat, perm: nat) returns (r: MapResult)
      requires Valid() && IsDir(owner, d) && KPAGE <= first <= last < PAGES
      modifies `head, `tables, `list, `owner, `loose
      ensures Valid() && IsDir(owner, d) && Elsewhere(old(tables), old(owner), tables, owner, d) && loose == old(loose)
      ensures r.Remap? ==> exists u: nat :: first <= u <= last && Present(Lookup(old(tables), d, u))
      ensures r.Mapped? ==> RangeMapped(old(tables), tables, d, first, last + 1, frame, perm)
      ensures r.Mapped? ==> forall u: nat :: first <= u <= last ==> !Present(Lookup(old(tables), d, u))
      ensures r.Mapped? ==> Paid(old(tables), old(list), d, Slots(first, last + 1))
      ensures r.OutOfMemory? ==> list == [] && ShortOf(old(tables), old(list), d, Slots(first, last + 1))
      ensures forall u: nat :: u < PAGES && !(first <= u <= last) ==> Lookup(tables, d, u) == Lookup(old(tables), d, u)
    {
      hide OwnersOk, Chain, Elsewhere, Accounted, Lookup, TableSet, Slots;
      ghost var ts, ow := tables, owner;
      ElsewhereRefl(ts, ow, d);
      NoSlots(first);
      var a, pa := first, frame;
      while true
        invariant first <= a <= last && pa == frame + (a - first)
        invariant Valid() && IsDir(owner, d) && Elsewhere(ts, ow, tables, owner, d) && loose == old(loose)
        invariant RangeMapped(ts, tables, d, first, a, frame, perm)
        invariant forall u: nat :: first <= u < a ==> !Present(Lookup(ts, d, u))
        invariant Paid(ts, old(list), d, Slots(first, a))
        decreases last - a
      {
        ghost var ts1, ow1, list1 := tables, owner, list;
        r := MapOne(d, a, pa, perm);
        ElsewhereTwice(ts, ow, ts1, ow1, tables, owner, d);
        SlotsGrow(first, a);
        if !r.Mapped? {
          SlotsWithin(first, a, last);
          return;
        }
        assert RangeMapped(ts, tables, d, first, a + 1, frame, perm);
        assert Paid(ts, old(list), d, Slots(first, a + 1));
        if a == last { break; }
        a := a + 1;
        pa := pa + 1;
      }
    }

    // setupkvm's first lines: a zeroed directory page
    method NewDirectory() returns (d: nat)
      requires Valid()
      modifies `head, `tables, `list, `owner, `loose
      ensures Valid() && loose == old(loose)
      ensures d == NULL ==> owner == old(owner) && tables == old(tables) && list == old(list)
      ensures d != NULL ==> d !in old(owner) && owner == old(owner)[d := Dir(d)] && IsDir(owner, d)
      ensures d == NULL <==> old(list) == []
      ensures d != NULL ==> |list| == |old(list)| - 1 && TableSet(tables, d) == {}
      ensures d != NULL ==> (forall u: nat :: Lookup(tables, d, u) == NoEntry())
      ensures d != NULL ==> Elsewhere(old(tables), old(owner), tables, owner, d) && Others(owner, d) == old(owner)
    {
      hide Chain, Lookup, OwnersOk;
      ghost var was := loose;
      d := Kalloc();
      if d == NULL { return; }
      AddDirKeeps(tables, owner, d);
      OthersAll(tables, owner, d);
      forall c: nat, v: nat | c != d && IsDir(owner, c) && v < PAGES
        ensures Lookup(DirAdded(tables, d), c, v) == Lookup(tables, c, v)
      {
        LookupAfterDir(tables, owner, d, c, v);
      }
      assert Others(owner[d := Dir(d)], d) == Others(owner, d);
      tables := tables[d := ZeroTable()];
      owner := owner[d := Dir(d)];
      loose := loose - {d};
      assert loose == was;
    }

    // setupkvm; data is the page number of the kernel's data segment
    method SetupKvm(data: nat) returns (d: nat)
      requires Valid() && EXTPAGE < data < PHYSPAGE
      modifies `head, `next, `tables, `list, `owner, `loose
      ensures Valid() && loose == old(loose)
      ensures d == NULL ==> owner == old(owner)
      ensures d == NULL ==>
        forall c: nat, v: nat :: IsDir(owner, c) && v < PAGES ==> Lookup(tables, c, v) == Lookup(old(tables), c, v)
      ensures d != NULL ==> d !in old(owner) && IsDir(owner, d) && Others(owner, d) == old(owner)
      ensures d != NULL ==> Elsewhere(old(tables), old(owner), tables, owner, d)
      ensures d != NULL ==> forall u: nat :: u < PAGES ==> Lookup(tables, d, u) == KernelPte(data, u)
      ensures d != NULL <==> |old(list)| >= 1 + KERNELTABLES
      ensures d != NULL ==> |list| == |old(list)| - 1 - KERNELTABLES && TableSet(tables, d) == KernelTables()
    {
      hide Chain, Lookup, OwnersOk, Accounted, Elsewhere, TableSet, Slots, KernelTables, TablesAfter;
      NoneAfter(data);
      ghost var ts, ow := tables, owner;
      d := NewDirectory();
      if d == NULL { return; }
      KernelTablesSize();
      var k := 0;
      while k < 4
        invariant 0 <= k <= 4 && Valid() && IsDir(owner, d) && loose == old(loose)
        invariant Elsewhere(ts, ow, tables, owner, d) && Others(owner, d) == ow && d !in ow
        invariant forall u: nat :: u < PAGES ==>
                    Lookup(tables, d, u) == if u < Boundary(data, k) then KernelPte(data, u) else NoEntry()
        invariant TableSet(tables, d) == TablesAfter(data, k) && |list| + |TableSet(tables, d)| == |old(list)| - 1
      {
        var m := Kmap(data, k);
        KernelSlots(data, k);
        ghost var ts1, ow1 := tables, owner;
        var r := MapKernel(d, m.virt, m.virt + (m.end - m.start) - 1, m.start, m.perm);
        ElsewhereTwice(ts, ow, ts1, ow1, tables, owner, d);
        assert Others(owner, d) == ow by { OthersKept(ts1, ow1, ts, ow, tables, owner, d); }
        if !r.Mapped? {
          ghost var i :| i in Slots(m.virt, m.virt + (m.end - m.start)) && i !in TableSet(tables, d);
          Smaller(TableSet(tables, d), KernelTables(), i);
          ts1, ow1 := tables, owner;
          FreeVm(d);
          assert owner == ow;
          ElsewhereAll(ts, ow, ts1, ow1, tables, owner, d);
          return NULL;
        }
        k := k + 1;
      }
    }

    // copyuvm's two tests for a missing page
    method PageAt(d: nat, v: nat) returns (present: bool)
      requires Valid() && IsDir(owner, d) && v < KPAGE
      modifies `head, `tables, `list, `owner, `loose
      ensures Valid() && tables == old(tables) && owner == old(owner) && list == old(list) && loose == old(loose)
      ensures present <==> Present(Lookup(tables, d, v))
    {
      hide Chain, OwnersOk, Accounted, Elsewhere;
      var t := Walk(d, v, false);
      if t == NULL { return false; }
      return Present(tables[t][v % ENTRIES]);
    }

    // One turn of copyuvm's loop: page v of d is copied into a new frame for c.
    method CopyPage(d: nat, c: nat, v: nat, ghost ts: Tables, ghost ow: map<nat, Use>, ghost before: map<nat, Page>)
        returns (ok: bool, leaked: nat)
      requires Valid() && Copying(ts, ow, before, tables, owner, pages, d, c, v) && v < KPAGE
      requires Present(Lookup(ts, d, v))
      modifies `head, `tables, `pages, `list, `owner, `loose
      ensures Valid() && IsDir(owner, c) && Elsewhere(ts, ow, tables, owner, c) && Others(owner, c) == ow
      ensures SamePages(ow, before, pages)
      ensures ok ==> Copying(ts, ow, before, tables, owner, pages, d, c, v + 1) && loose == old(loose) && leaked == NULL
      ensures ok ==> old(list) != [] && Paid(old(tables), old(list)[1..], c, {v / ENTRIES})
      ensures !ok ==> |old(list)| == if leaked == NULL then 0 else 1
      ensures leaked != NULL ==> v / ENTRIES !in TableSet(old(tables), c)
      ensures !ok ==> loose == if leaked == NULL then old(loose) else old(loose) + {leaked}
    {
      hide Chain, OwnersOk, Accounted, Elsewhere, Copied, TableSet;
      leaked := NULL;
      ParentEntry(ts, ow, before, tables, owner, pages, d, c, v);
      var t := Walk(d, v, false);
      var pte := tables[t][v % ENTRIES];
      ghost var ts1, ow1, pages1 := tables, owner, pages;
      assert pte == Lookup(ts1, d, v);
      var mem := Kalloc();
      if mem == NULL { return false, NULL; }
      pages := pages[mem := pages[pte.frame]];
      var r := MapOne(c, v, mem, pte.flags);
      ElsewhereTwice(ts, ow, ts1, ow1, tables, owner, c);
      OthersKept(ts1, ow1, ts, ow, tables, owner, c);
      assert SamePages(ow, before, pages) by { assert forall f :: f in ow ==> f != mem; }
      if !r.Mapped? { return false, mem; }
      CopiedOne(ts, ow, before, ts1, ow1, pages1, tables, owner, pages, d, c, v, mem);
      return true, NULL;
    }

    /** copyuvm has copied v pages into c, starting with `free` frames. */
    ghost predicate Progress(ts: Tables, ow: map<nat, Use>, before: map<nat, Page>, d: nat, c: nat, v: nat, free: nat)
      reads this
    {
      && Valid() && Copying(ts, ow, before, tables, owner, pages, d, c, v) && AllThere(ts, d, v)
      && TableSet(tables, c) == KernelTables() + Interval(0, TablesFor(v)) && |list| + CopyCost(v) == free
    }

    // A turn of copyuvm's loop with its tests for a missing page.
    method CopyTurn(d: nat, c: nat, v: nat, ghost ts: Tables, ghost ow: map<nat, Use>, ghost before: map<nat, Page>,
                    ghost free: nat)
        returns (ok: bool, leaked: nat, panicked: bool)
      requires Progress(ts, ow, before, d, c, v, free) && v < KPAGE
      modifies `head, `tables, `pages, `list, `owner, `loose
      ensures Valid() && IsDir(owner, c) && Elsewhere(ts, ow, tables, owner, c) && Others(owner, c) == ow
      ensures SamePages(ow, before, pages)
      ensures ok ==> Progress(ts, ow, before, d, c, v + 1, free) && leaked == NULL && !panicked
      ensures panicked ==> leaked == NULL && !Present(Lookup(ts, d, v))
      ensures !ok && !panicked ==> RunsOut(free, v, leaked != NULL)
      ensures loose == if leaked == NULL then old(loose) else old(loose) + {leaked}
    {
      hide Chain, OwnersOk, Accounted, Elsewhere, Copied, Lookup, TableSet, KernelTables, Copying, Interval, SamePages;
      hide PgRoundUp, TablesFor, AllThere;
      CopyingFacts(ts, ow, before, tables, owner, pages, d, c, v);
      ParentSame(ts, ow, before, tables, owner, pages, d, c, v);
      TableNeeded(v);
      var present := PageAt(d, v);
      if !present {
        return false, NULL, true;
      }
      OneMoreThere(ts, d, v);
      OneMore(TableSet(tables, c), v / ENTRIES);
      ok, leaked := CopyPage(d, c, v, ts, ow, before);
      panicked := false;
    }

    // copyuvm's loop, the child directory c being set up; leaked is the frame it loses.
    method CopyPages(d: nat, c: nat, sz: nat, ghost ts: Tables, ghost ow: map<nat, Use>, ghost before: map<nat, Page>,
                     ghost free: nat)
        returns (ok: bool, leaked: nat, panicked: bool, ghost at: nat)
      requires Progress(ts, ow, before, d, c, 0, free) && sz <= KERNBASE
      modifies `head, `tables, `pages, `list, `owner, `loose
      ensures Valid() && IsDir(owner, c) && Elsewhere(ts, ow, tables, owner, c) && Others(owner, c) == ow
      ensures SamePages(ow, before, pages)
      ensures ok ==> leaked == NULL && !panicked && Progress(ts, ow, before, d, c, PgRoundUp(sz) / PGSIZE, free)
      ensures panicked ==> leaked == NULL && at < PgRoundUp(sz) / PGSIZE && !Present(Lookup(ts, d, at))
      ensures !ok && !panicked ==> at < PgRoundUp(sz) / PGSIZE && RunsOut(free, at, leaked != NULL)
      ensures loose == if leaked == NULL then old(loose) else old(loose) + {leaked}
    {
      hide Chain, OwnersOk, Accounted, Elsewhere, Copying, Lookup, Others, SamePages, Progress, PgRoundUp, RunsOut;
      leaked, panicked, at := NULL, false, 0;
      var i := 0;
      while i < sz
        invariant i % PGSIZE == 0 && i <= PgRoundUp(sz) && loose == old(loose)
        invariant Progress(ts, ow, before, d, c, i / PGSIZE, free)
      {
        at := i / PGSIZE;
        PageStep(i, sz);
        ok, leaked, panicked := CopyTurn(d, c, i / PGSIZE, ts, ow, before, free);
        if !ok {
          return;
        }
        i := i + PGSIZE;
      }
      PagesDone(i, sz);
      ProgressFacts(ts, ow, before, d, c, i / PGSIZE, free);
      return true, NULL, false, at;
    }

    lemma ProgressFacts(ts: Tables, ow: map<nat, Use>, before: map<nat, Page>, d: nat, c: nat, v: nat, free: nat)
      requires Progress(ts, ow, before, d, c, v, free)
      ensures Valid() && IsDir(owner, c) && Elsewhere(ts, ow, tables, owner, c) && Others(owner, c) == ow
      ensures SamePages(ow, before, pages) && AllThere(ts, d, v) && free >= CopyCost(v)
    {
    }

    // copyuvm; a frame that could not be mapped is lost, and reported in leaked; a missing page panics
    method CopyUvm(d: nat, sz: nat, data: nat) returns (c: nat, leaked: nat, panicked: bool)
      requires Valid() && IsDir(owner, d) && sz <= KERNBASE && EXTPAGE < data < PHYSPAGE
      modifies `head, `next, `tables, `pages, `list, `owner, `loose
      ensures Valid() && SamePages(old(owner), old(pages), pages)
      ensures panicked ==> c == NULL && leaked == NULL && !AllThere(old(tables), d, PgRoundUp(sz) / PGSIZE)
      ensures c != NULL ==> leaked == NULL && AllThere(old(tables), d, PgRoundUp(sz) / PGSIZE)
      ensures c != NULL ==>
        Copying(old(tables), old(owner), old(pages), tables, owner, pages, d, c, PgRoundUp(sz) / PGSIZE)
      ensures c == NULL && !panicked ==> owner == old(owner)
      ensures c == NULL && !panicked ==>
        forall e: nat, v: nat :: IsDir(owner, e) && v < PAGES ==> Lookup(tables, e, v) == Lookup(old(tables), e, v)
      ensures loose == if leaked == NULL then old(loose) else old(loose) + {leaked}
      ensures AllThere(old(tables), d, PgRoundUp(sz) / PGSIZE) ==>
        (c != NULL <==> |old(list)| >= CopyCost(PgRoundUp(sz) / PGSIZE))
      ensures AllThere(old(tables), d, PgRoundUp(sz) / PGSIZE) ==>
        (leaked != NULL <==> Loses(|old(list)|, PgRoundUp(sz) / PGSIZE))
    {
      hide Chain, OwnersOk, Accounted, Elsewhere, Copied, Lookup, Copying, SamePages, TableSet, KernelTables;
      hide AllThere, Loses, Interval, TablesFor;
      leaked, panicked := NULL, false;
      ghost var ts, ow, before, n := tables, owner, pages, PgRoundUp(sz) / PGSIZE;
      SamePagesRefl(ow, pages);
      c := SetupKvm(data);
      if c == NULL {
        TooFew(|old(list)|, n);
        return;
      }
      CopyStarts(ts, ow, before, tables, owner, d, c, data);
      NoneThere(ts, d);
      assert KernelTables() + Interval(0, 0) == KernelTables();
      assert Progress(ts, ow, before, d, c, 0, |old(list)|);
      var ok;
      ghost var at;
      ok, leaked, panicked, at := CopyPages(d, c, sz, ts, ow, before, |old(list)|);
      if ok {
        EnoughKeeps(|old(list)|, n);
      } else if panicked {
        OneMissing(ts, d, at, n);
        c := NULL;
      } else {
        RunsOutLoses(|old(list)|, at, leaked != NULL, n);
        ghost var ts1, ow1 := tables, owner;
        FreeVm(c);
        ElsewhereAll(ts, ow, ts1, ow1, tables, owner, c);
        c := NULL;
      }
    }

    // growproc for a process with directory d and size sz: 0 or -1, and the size recorded
    method GrowProc(d: nat, sz: nat, n: int) returns (r: int, sz': nat)
      requires Valid() && IsDir(owner, d) && sz < KERNBASE && -KERNBASE <= n < KERNBASE && NothingAbove(tables, d, sz)
      modifies `head, `next, `tables, `pages, `list, `owner, `loose
      ensures Valid() && IsDir(owner, d) && Elsewhere(old(tables), old(owner), tables, owner, d) && loose == old(loose)
      ensures sz' < KERNBASE && NothingAbove(tables, d, sz') && (r == 0 || r == -1)
      ensures AllBelow(old(tables), d, sz) ==> (AllBelow(tables, d, sz') <==> !(0 < sz == -n))
      ensures r == 0 ==> sz' == if n < 0 && -n > sz then sz else sz + n
      ensures r == -1 ==> sz' == sz
      ensures n <= 0 ==> (r == 0 <==> n == 0 || (sz > 0 && sz != -n))
      ensures n > 0 ==> (r == 0 <==>
        && sz + n < KERNBASE
        && |old(list)| >= GrowthCost(old(tables), d, PgRoundUp(sz) / PGSIZE, PgRoundUp(sz + n) / PGSIZE))
    {
      hide Chain, OwnersOk, Accounted, Elsewhere, Lookup, Grown, Unmapped, Restored, NothingAbove, AllBelow,
        GrowthCost, TableSet;
      ElsewhereRefl(tables, owner, d);
      sz' := sz;
      if n > 0 {
        GrowRoom(tables, d, sz, sz + n);
        var x, panicked := AllocUvm(d, sz, sz + n);
        if x == 0 {
          if sz + n < KERNBASE { StaysSized(old(tables), old(owner), tables, owner, d, sz); }
          return -1, sz;
        }
        GrewSized(old(tables), old(owner), tables, owner, pages, d, sz, sz + n);
        sz' := x;
      } else if n < 0 {
        var target := if sz + n < 0 then sz + n + 0x1_0000_0000 else sz + n;
        var x := DeallocUvm(d, sz, target);
        if target < sz { ShrankSized(old(tables), old(owner), tables, owner, d, sz, target); }
        if x == 0 { return -1, sz; }
        sz' := x;
      }
      r := 0;
    }

    /** The life of an address space: made by setupkvm, resized any number of times, torn down
        by freevm. Every frame it took is free again, whatever failed on the way. */
    method LifeOfASpace(data: nat, script: seq<int>)
      requires Valid() && EXTPAGE < data < PHYSPAGE
      requires forall i :: 0 <= i < |script| ==> -KERNBASE <= script[i] < KERNBASE
      modifies `head, `next, `tables, `pages, `list, `owner, `loose
      ensures Valid() && owner == old(owner) && loose == old(loose) && Members(list) == Members(old(list))
    {
      hide Chain, OwnersOk, Accounted, Elsewhere, Lookup, NothingAbove, TableSet, KernelTables, AllBelow;
      ghost var ts, ow := tables, owner;
      var d := SetupKvm(data);
      if d != NULL {
        NewIsEmpty(tables, d, data);
        var sz: nat := 0;
        var i := 0;
        while i < |script|
          invariant 0 <= i <= |script| && Valid() && IsDir(owner, d) && loose == old(loose) && sz < KERNBASE
          invariant Elsewhere(ts, ow, tables, owner, d) && Others(owner, d) == ow && NothingAbove(tables, d, sz)
        {
          ghost var ts1, ow1 := tables, owner;
          var r;
          r, sz := GrowProc(d, sz, script[i]);
          ElsewhereTwice(ts, ow, ts1, ow1, tables, owner, d);
          OthersKept(ts1, ow1, ts, ow, tables, owner, d);
          i := i + 1;
        }
        FreeVm(d);
      }
      SameFree(pool, Members(old(list)), Members(list), owner, loose);
    }
  }

  lemma ListSize(m: Memory)
    requires m.ListOk()
    ensures |m.list| == |Members(m.list)|
  {
    MembersSize(m.list);
  }

  /** A machine with n frames, all free. */
  method Machine(n: nat) returns (m: Memory)
    ensures fresh(m) && m.Valid() && m.owner == map[] && m.loose == {} && |m.list| == n
  {
    hide Chain, OwnersOk, Accounted;
    m := new Memory();
    m.FreeRange(1, n + 1);
    IntervalSize(1, n + 1);
    assert Members([]) + Interval(1, n + 1) == Interval(1, n + 1);
    ListSize(m);
  }

  /** A process of one page takes 67 frames. */
  method OnePageProcess(n: nat) returns (m: Memory, d: nat)
    requires n >= 67
    ensures fresh(m) && m.Valid() && IsDir(m.owner, d) && m.loose == {} && |m.list| == n - 67
    ensures AllThere(m.tables, d, 1)
  {
    hide Chain, OwnersOk, Accounted, Elsewhere, Lookup, TableSet, KernelTables, Interval, Slots;
    m := Machine(n);
    d := m.SetupKvm(300);
    var f := m.Kalloc();
    m.pages := m.pages[f := ZeroPage()];
    NoUserTable();
    OneMore(KernelTables(), 0);
    assert KernelPte(300, 0) == NoEntry();
    var r := m.MapOne(d, 0, f, PTE_W + PTE_U);
    assert {f} - {f} == {};
  }

  /** With 133 frames the fork of that process finds 66, one short of what a copy costs. The frame
      taken for the page ends up on no list and in no use. */
  method ForkLosesFrame() returns (m: Memory, lost: nat)
    ensures fresh(m) && m.Valid() && lost != NULL && m.loose == {lost}
    ensures lost in m.pool && lost !in Members(m.list) && lost !in m.owner
  {
    hide Chain, OwnersOk, Accounted, Elsewhere, Lookup, SamePages, Copying, AllThere;
    var d;
    m, d := OnePageProcess(133);
    assert PgRoundUp(PGSIZE) / PGSIZE == 1;
    assert Loses(66, 1);
    var c, leaked, panicked := m.CopyUvm(d, PGSIZE, 300);
    lost := leaked;
    LooseIsNowhere(m.pool, Members(m.list), m.owner, m.loose, lost);
  }

  lemma NoUserTable()
    ensures 0 !in KernelTables()
  {
    hide Interval;
  }

  lemma LooseIsNowhere(pool: set<nat>, free: set<nat>, owner: map<nat, Use>, loose: set<nat>, f: nat)
    requires Accounted(pool, free, owner, loose) && f in loose
    ensures f in pool && f !in free && f !in owner
  {
  }

  /** Every one of the first n pages is there. */
  ghost predicate AllThere(ts: Tables, d: nat, n: nat) {
    forall u: nat :: u < n ==> Present(Lookup(ts, d, u))
  }

  lemma PageStep(i: nat, sz: nat)
    requires i % PGSIZE == 0 && i < sz
    ensures (i + PGSIZE) % PGSIZE == 0 && (i + PGSIZE) / PGSIZE == i / PGSIZE + 1
    ensures i + PGSIZE <= PgRoundUp(sz) && i / PGSIZE < PgRoundUp(sz) / PGSIZE
    ensures sz <= KERNBASE ==> PgRoundUp(sz) / PGSIZE <= KPAGE
  {
  }

  lemma PagesDone(i: nat, sz: nat)
    requires i % PGSIZE == 0 && sz <= i <= PgRoundUp(sz)
    ensures i / PGSIZE == PgRoundUp(sz) / PGSIZE
  {
  }

  lemma CopyingFacts(ts: Tables, ow: map<nat, Use>, before: map<nat, Page>,
                     ts': Tables, ow': map<nat, Use>, pages: map<nat, Page>, d: nat, c: nat, n: nat)
    requires Copying(ts, ow, before, ts', ow', pages, d, c, n)
    ensures IsDir(ow', c) && Elsewhere(ts, ow, ts', ow', c) && Others(ow', c) == ow && SamePages(ow, before, pages)
  {
  }

  lemma NoneThere(ts: Tables, d: nat)
    ensures AllThere(ts, d, 0) && TablesFor(0) == 0
  {
  }

  lemma OneMoreThere(ts: Tables, d: nat, v: nat)
    requires AllThere(ts, d, v) && Present(Lookup(ts, d, v))
    ensures AllThere(ts, d, v + 1)
  {
  }

  lemma OneMissing(ts: Tables, d: nat, v: nat, n: nat)
    requires v < n && !Present(Lookup(ts, d, v))
    ensures !AllThere(ts, d, n)
  {
  }

  lemma SamePagesRefl(ow: map<nat, Use>, pages: map<nat, Page>)
    requires forall f :: f in ow && ow[f].User? ==> f in pages
    ensures SamePages(ow, pages, pages)
  {
  }

  lemma NewIsEmpty(ts: Tables, d: nat, data: nat)
    requires forall u: nat :: u < PAGES ==> Lookup(ts, d, u) == KernelPte(data, u)
    ensures NothingAbove(ts, d, 0)
  {
  }

  lemma SameFree(pool: set<nat>, free: set<nat>, free': set<nat>, owner: map<nat, Use>, loose: set<nat>)
    requires Accounted(pool, free, owner, loose) && Accounted(pool, free', owner, loose)
    ensures free == free'
  {
    assert free == pool - owner.Keys - loose == free';
  }

  /** No user page at or above size sz. */
  ghost predicate NothingAbove(ts: Tables, d: nat, sz: nat) {
    forall u: nat :: PgRoundUp(sz) / PGSIZE <= u < KPAGE ==> Lookup(ts, d, u) == NoEntry()
  }

  /** Every page below size sz is there. */
  ghost predicate AllBelow(ts: Tables, d: nat, sz: nat) {
    forall u: nat :: u < PgRoundUp(sz) / PGSIZE && u < KPAGE ==> Present(Lookup(ts, d, u))
  }

  lemma GrowRoom(ts: Tables, d: nat, sz: nat, newsz: nat)
    requires NothingAbove(ts, d, sz)
    ensures newsz < KERNBASE ==> Vacant(ts, d, sz, newsz)
  {
  }

  lemma StaysSized(ts: Tables, ow: map<nat, Use>, ts': Tables, ow': map<nat, Use>, d: nat, sz: nat)
    requires Restored(ts, ow, ts', ow', d) && NothingAbove(ts, d, sz)
    ensures NothingAbove(ts', d, sz) && (AllBelow(ts, d, sz) ==> AllBelow(ts', d, sz))
  {
  }

  lemma GrewSized(ts: Tables, ow: map<nat, Use>, ts': Tables, ow': map<nat, Use>, pages: map<nat, Page>,
                  d: nat, sz: nat, newsz: nat)
    requires Grown(ts, ow, ts', ow', pages, d, PgRoundUp(sz) / PGSIZE, PgRoundUp(newsz) / PGSIZE) && sz <= newsz
    requires NothingAbove(ts, d, sz)
    ensures NothingAbove(ts', d, newsz) && (AllBelow(ts, d, sz) ==> AllBelow(ts', d, newsz))
  {
    var lo, hi := PgRoundUp(sz) / PGSIZE, PgRoundUp(newsz) / PGSIZE;
    assert lo <= hi;
    hide PgRoundUp, Lookup;
    forall u: nat | lo <= u < hi && u < KPAGE
      ensures Present(Lookup(ts', d, u))
    {
      assert FreshPage(ts', pages, ow, d, u);
    }
  }

  lemma ShrankSized(ts: Tables, ow: map<nat, Use>, ts': Tables, ow': map<nat, Use>, d: nat, sz: nat, newsz: nat)
    requires Unmapped(ts, ow, ts', ow', d, PgRoundUp(newsz) / PGSIZE, PgRoundUp(sz) / PGSIZE) && newsz < sz < KERNBASE
    requires NothingAbove(ts, d, sz) && OwnersOk(ts', ow') && IsDir(ow', d)
    ensures NothingAbove(ts', d, newsz) && NothingAbove(ts', d, sz)
    ensures AllBelow(ts, d, sz) ==> AllBelow(ts', d, newsz)
    ensures newsz == 0 ==> !AllBelow(ts', d, sz)
  {
    forall u: nat | PgRoundUp(newsz) / PGSIZE <= u < KPAGE ensures Lookup(ts', d, u) == NoEntry() {
      AbsentIsZero(ts', ow', d, u);
    }
    if newsz == 0 {
      assert 0 < PgRoundUp(sz) / PGSIZE && !Present(Lookup(ts', d, 0));
    }
  }

  /** User frames owned before keep their contents. */
  ghost predicate SamePages(ow: map<nat, Use>, before: map<nat, Page>, pages: map<nat, Page>) {
    forall f :: f in ow && ow[f].User? ==> f in before && f in pages && pages[f] == before[f]
  }

  /** Page u of c is a copy of page u of d, in a frame of its own. */
  ghost predicate CopiedPage(ts: Tables, ow: map<nat, Use>, before: map<nat, Page>, ts': Tables, pages: map<nat, Page>,
                             d: nat, c: nat, u: nat) {
    var e, e' := Lookup(ts, d, u), Lookup(ts', c, u);
    && Present(e) && e'.flags == e.flags && e'.frame !in ow
    && e.frame in before && e'.frame in pages && pages[e'.frame] == before[e.frame]
  }

  ghost predicate Copied(ts: Tables, ow: map<nat, Use>, before: map<nat, Page>, ts': Tables, pages: map<nat, Page>,
                         d: nat, c: nat, n: nat) {
    && (forall u: nat :: u < n && u < KPAGE ==> CopiedPage(ts, ow, before, ts', pages, d, c, u))
    && (forall u: nat :: n <= u < KPAGE ==> Lookup(ts', c, u) == NoEntry())
  }

  ghost predicate Copying(ts: Tables, ow: map<nat, Use>, before: map<nat, Page>,
                          ts': Tables, ow': map<nat, Use>, pages: map<nat, Page>, d: nat, c: nat, n: nat) {
    && OwnersOk(ts, ow) && IsDir(ow, d) && c != d && c !in ow && IsDir(ow', c)
    && Elsewhere(ts, ow, ts', ow', c) && Others(ow', c) == ow && SamePages(ow, before, pages)
    && Copied(ts, ow, before, ts', pages, d, c, n)
  }

  lemma ParentSame(ts: Tables, ow: map<nat, Use>, before: map<nat, Page>,
                   ts': Tables, ow': map<nat, Use>, pages: map<nat, Page>, d: nat, c: nat, v: nat)
    requires Copying(ts, ow, before, ts', ow', pages, d, c, v) && v < KPAGE
    ensures Lookup(ts', d, v) == Lookup(ts, d, v) && IsDir(ow', d)
  {
  }

  /** The parent's entry can be found while the child is being built. */
  lemma ParentEntry(ts: Tables, ow: map<nat, Use>, before: map<nat, Page>,
                    ts': Tables, ow': map<nat, Use>, pages: map<nat, Page>, d: nat, c: nat, v: nat)
    requires Copying(ts, ow, before, ts', ow', pages, d, c, v) && v < KPAGE && Present(Lookup(ts, d, v))
    ensures Lookup(ts', d, v) == Lookup(ts, d, v) && IsDir(ow', d)
    ensures Lookup(ts, d, v).frame in ow && ow[Lookup(ts, d, v).frame].User?
    ensures Lookup(ts, d, v).frame in pages && Lookup(ts, d, v).frame in before
    ensures pages[Lookup(ts, d, v).frame] == before[Lookup(ts, d, v).frame]
    ensures forall f :: f in ow ==> f in ow' && ow'[f] == ow[f]
    ensures !Present(Lookup(ts', c, v))
  {
    assert DirOk(ts, ow, d) && UserOwned(ts, ow, d, v);
    assert forall f :: f in Others(ow', c) ==> f in ow' && ow'[f] == Others(ow', c)[f];
  }

  lemma CopyStarts(ts: Tables, ow: map<nat, Use>, before: map<nat, Page>, ts': Tables, ow': map<nat, Use>,
                   d: nat, c: nat, data: nat)
    requires OwnersOk(ts, ow) && IsDir(ow, d) && c !in ow && IsDir(ow', c)
    requires Elsewhere(ts, ow, ts', ow', c) && Others(ow', c) == ow
    requires forall f :: f in ow && ow[f].User? ==> f in before
    requires forall u: nat :: u < PAGES ==> Lookup(ts', c, u) == KernelPte(data, u)
    ensures Copying(ts, ow, before, ts', ow', before, d, c, 0)
  {
  }

  /** A write through one of the two address spaces never shows in the other. */
  lemma CopyIsPrivate(ts: Tables, ow: map<nat, Use>, before: map<nat, Page>,
                      ts': Tables, ow': map<nat, Use>, pages: map<nat, Page>, d: nat, c: nat, n: nat,
                      u: nat, w: nat, page: Page)
    requires Copying(ts, ow, before, ts', ow', pages, d, c, n) && u < n && w < n && n <= KPAGE
    requires Present(Lookup(ts, d, w))
    ensures Lookup(ts', d, w) == Lookup(ts, d, w) && Present(Lookup(ts', c, u))
    ensures Lookup(ts', c, u).frame != Lookup(ts', d, w).frame
    ensures var child, parent := Lookup(ts', c, u).frame, Lookup(ts', d, w).frame;
            && parent in pages && pages[child := page][parent] == pages[parent]
            && child in pages && pages[parent := page][child] == pages[child]
  {
    assert CopiedPage(ts, ow, before, ts', pages, d, c, u);
    assert DirOk(ts, ow, d) && UserOwned(ts, ow, d, w);
  }

  lemma CopiedOne(ts: Tables, ow: map<nat, Use>, before: map<nat, Page>,
                  ts1: Tables, ow1: map<nat, Use>, pages1: map<nat, Page>,
                  ts2: Tables, ow2: map<nat, Use>, pages2: map<nat, Page>, d: nat, c: nat, v: nat, mem: nat)
    requires Copying(ts, ow, before, ts1, ow1, pages1, d, c, v) && v < KPAGE && Present(Lookup(ts, d, v))
    requires Elsewhere(ts, ow, ts2, ow2, c) && Others(ow2, c) == ow && SamePages(ow, before, pages2) && IsDir(ow2, c)
    requires mem !in ow1 && OwnersOk(ts1, ow1)
    requires Lookup(ts, d, v).frame in before && pages2 == pages1[mem := before[Lookup(ts, d, v).frame]]
    requires forall u: nat :: u < PAGES ==>
      Lookup(ts2, c, u) == if u == v then Pte(mem, WithP(Lookup(ts, d, v).flags)) else Lookup(ts1, c, u)
    ensures Copying(ts, ow, before, ts2, ow2, pages2, d, c, v + 1)
  {
    assert forall f :: f in Others(ow1, c) ==> f in ow1;
    forall u: nat | u < v + 1 && u < KPAGE ensures CopiedPage(ts, ow, before, ts2, pages2, d, c, u) {
      if u < v {
        assert CopiedPage(ts, ow, before, ts1, pages1, d, c, u);
        assert DirOk(ts1, ow1, c) && UserOwned(ts1, ow1, c, u);
      }
    }
  }

  lemma OthersKept(ts1: Tables, ow1: map<nat, Use>, ts: Tables, ow: map<nat, Use>,
                   ts2: Tables, ow2: map<nat, Use>, d: nat)
    requires Elsewhere(ts, ow, ts1, ow1, d) && Elsewhere(ts, ow, ts2, ow2, d) && Others(ow1, d) == ow
    ensures Others(ow2, d) == ow
  {
  }

  lemma ElsewhereAll(ts: Tables, ow: map<nat, Use>, ts1: Tables, ow1: map<nat, Use>,
                     ts2: Tables, ow2: map<nat, Use>, d: nat)
    requires Elsewhere(ts, ow, ts1, ow1, d) && Elsewhere(ts1, ow1, ts2, ow2, d) && d !in ow
    ensures forall c: nat, v: nat :: IsDir(ow, c) && v < PAGES ==> Lookup(ts2, c, v) == Lookup(ts, c, v)
  {
    ElsewhereTwice(ts, ow, ts1, ow1, ts2, ow2, d);
  }

  const EXTPAGE := 256                   // EXTMEM / PGSIZE
  const PHYSPAGE := 57344                // PHYSTOP / PGSIZE
  const DEVPAGE := 1040384               // DEVSPACE / PGSIZE

  datatype KernelMap = KernelMap(virt: nat, start: nat, end: nat, perm: nat)

  /** The table kmap of vm.c in pages; the last entry runs to the end of the address space. */
  function Kmap(data: nat, k: nat): KernelMap {
    if k == 0 then KernelMap(KPAGE, 0, EXTPAGE, PTE_W)
    else if k == 1 then KernelMap(KPAGE + EXTPAGE, EXTPAGE, data, 0)
    else if k == 2 then KernelMap(KPAGE + data, data, PHYSPAGE, PTE_W)
    else KernelMap(DEVPAGE, DEVPAGE, PAGES, PTE_W)
  }

  /** The layout setupkvm promises: all of physical memory above KERNBASE, text read-only,
      devices mapped to themselves, and nothing below KERNBASE. */
  function KernelPte(data: nat, u: nat): Pte {
    if KPAGE <= u < KPAGE + PHYSPAGE then
      Pte(u - KPAGE, if EXTPAGE <= u - KPAGE < data then PTE_P else PTE_P + PTE_W)
    else if DEVPAGE <= u < PAGES then Pte(u, PTE_P + PTE_W)
    else NoEntry()
  }

  ghost predicate UserBit(e: Pte) { e.flags / PTE_U % 2 == 1 }

  ghost predicate WriteBit(e: Pte) { e.flags / PTE_W % 2 == 1 }

  /** User code reaches nothing of the kernel part. The kernel finds all of physical memory at a
      fixed distance, each frame at one place, and the devices at their own addresses; its text is
      the only part it cannot write. */
  lemma KernelProtected(data: nat, u: nat)
    requires EXTPAGE < data < PHYSPAGE && u < PAGES
    ensures var e := KernelPte(data, u);
      && !UserBit(e)
      && (Present(e) <==> KPAGE <= u < KPAGE + PHYSPAGE || u >= DEVPAGE)
      && (Present(e) ==> e.frame == if u < DEVPAGE then u - KPAGE else u)
      && (Present(e) ==> (WriteBit(e) <==> !(KPAGE + EXTPAGE <= u < KPAGE + data)))
  {
  }

  /** A page allocuvm has added: user code may read and write it, and finds only zeros. */
  lemma FreshIsBlank(ts: Tables, pages: map<nat, Page>, ow: map<nat, Use>, d: nat, u: nat, i: nat)
    requires FreshPage(ts, pages, ow, d, u) && i < PGSIZE
    ensures var e := Lookup(ts, d, u); Present(e) && UserBit(e) && WriteBit(e) && pages[e.frame][i] == 0
  {
  }

  /** The least multiple of the page size that is not below a. */
  lemma RoundUpExact(a: nat)
    ensures PgRoundUp(a) % PGSIZE == 0 && a <= PgRoundUp(a) < a + PGSIZE
  {
  }

  function Boundary(data: nat, k: nat): nat {
    if k == 0 then KPAGE else if k == 1 then KPAGE + EXTPAGE else if k == 2 then KPAGE + data
    else if k == 3 then KPAGE + PHYSPAGE else PAGES
  }

  /** The tables setupkvm has made after k of its four ranges. */
  ghost function TablesAfter(data: nat, k: nat): set<nat> {
    if k == 0 then {}
    else if k == 1 then Interval(512, 513)
    else if k == 2 then Interval(512, (KPAGE + data - 1) / ENTRIES + 1)
    else if k == 3 then Interval(512, 568)
    else KernelTables()
  }

  lemma KernelSlots(data: nat, k: nat)
    requires EXTPAGE < data < PHYSPAGE && k < 4
    ensures var m := Kmap(data, k);
      TablesAfter(data, k) + Slots(m.virt, m.virt + (m.end - m.start)) == TablesAfter(data, k + 1) <= KernelTables()
  {
    hide Interval;
    var m := Kmap(data, k);
    var slots := Slots(m.virt, m.virt + (m.end - m.start));
    if k == 0 {
      assert slots == Interval(512, 513);
    } else if k == 1 {
      assert slots == Interval(512, (KPAGE + data - 1) / ENTRIES + 1);
    } else if k == 2 {
      assert slots == Interval((KPAGE + data) / ENTRIES, 568);
    } else {
      assert slots == Interval(1016, 1024);
    }
  }

  lemma NoneAfter(data: nat)
    ensures TablesAfter(data, 0) == {} && TablesAfter(data, 4) == KernelTables()
  {
  }

  lemma NoSlots(a: nat)
    ensures Slots(a, a) == {}
  {
  }

  lemma SlotsWithin(first: nat, a: nat, last: nat)
    requires first <= a <= last
    ensures Slots(first, a + 1) <= Slots(first, last + 1) && a / ENTRIES in Slots(first, last + 1)
  {
    hide Interval;
  }

  /** Pages [first, end) of d are mapped in order onto frames from frame on; others are as before. */
  ghost predicate RangeMapped(ts: Tables, ts': Tables, d: nat, first: nat, end: nat, frame: nat, perm: nat) {
    forall u: nat :: u < PAGES ==>
      Lookup(ts', d, u) == if first <= u < end then Pte(frame + (u - first), WithP(perm)) else Lookup(ts, d, u)
  }

  /** Removing what was added restores the address space; at most page tables are left over. */
  lemma Undone(ts: Tables, ow: map<nat, Use>, ts1: Tables, ow1: map<nat, Use>, pages: map<nat, Page>,
               ts2: Tables, ow2: map<nat, Use>, d: nat, lo: nat, v: nat, top: nat)
    requires OwnersOk(ts, ow) && Grown(ts, ow, ts1, ow1, pages, d, lo, v) && lo <= v <= top <= KPAGE
    requires Unmapped(ts1, ow1, ts2, ow2, d, lo, top)
    requires forall u: nat :: lo <= u < top ==> !Present(Lookup(ts, d, u))
    requires IsDir(ow, d)
    ensures Restored(ts, ow, ts2, ow2, d)
  {
    forall u: nat | lo <= u < top
      ensures Lookup(ts, d, u) == NoEntry()
    {
      AbsentIsZero(ts, ow, d, u);
    }
    forall u: nat | u < PAGES ensures Lookup(ts2, d, u) == Lookup(ts, d, u) {
      if lo <= u < v {
        assert FreshPage(ts1, pages, ow, d, u);
        assert Present(Lookup(ts1, d, u));
      }
    }
    forall f | f in ow ensures f in ow2 && ow2[f] == ow[f] {
      assert UseOk(ts, ow, f);
    }
  }

  /** The flat map of d and all frames in use are as before, except for added page tables. */
  ghost predicate Restored(ts: Tables, ow: map<nat, Use>, ts': Tables, ow': map<nat, Use>, d: nat) {
    && (forall u: nat :: u < PAGES ==> Lookup(ts', d, u) == Lookup(ts, d, u))
    && (forall f :: f in ow ==> f in ow' && ow'[f] == ow[f])
    && (forall f :: f in ow' && ow'[f].User? ==> f in ow)
  }

  lemma GrownKeepsOwners(ts: Tables, ow: map<nat, Use>, ts': Tables, ow': map<nat, Use>, pages: map<nat, Page>,
                         d: nat, lo: nat, hi: nat)
    requires Grown(ts, ow, ts', ow', pages, d, lo, hi)
    ensures forall f :: f in ow ==> f in ow'
  {
  }

  lemma GrownRefl(ts: Tables, ow: map<nat, Use>, pages: map<nat, Page>, d: nat, lo: nat)
    ensures Grown(ts, ow, ts, ow, pages, d, lo, lo)
  {
  }

  lemma PageUntouched(ts: Tables, ow: map<nat, Use>, ts': Tables, ow': map<nat, Use>, pages: map<nat, Page>,
                      d: nat, lo: nat, v: nat)
    requires Grown(ts, ow, ts', ow', pages, d, lo, v) && v < PAGES
    ensures Lookup(ts', d, v) == Lookup(ts, d, v)
  {
  }

  /** No page between the two sizes is there. */
  ghost predicate Vacant(ts: Tables, d: nat, oldsz: nat, newsz: nat) {
    forall u: nat :: PgRoundUp(oldsz) / PGSIZE <= u < PgRoundUp(newsz) / PGSIZE ==> !Present(Lookup(ts, d, u))
  }

  /** Page u of d is writable user memory, all zero, in a frame nobody owned before. */
  ghost predicate FreshPage(ts: Tables, pages: map<nat, Page>, ow: map<nat, Use>, d: nat, u: nat) {
    var e := Lookup(ts, d, u);
    e.flags == PTE_P + PTE_W + PTE_U && e.frame !in ow && e.frame in pages && pages[e.frame] == ZeroPage()
  }

  /** allocuvm has added zeroed user pages [lo, hi) to d since tables and owners were ts and ow. */
  ghost predicate Grown(ts: Tables, ow: map<nat, Use>, ts': Tables, ow': map<nat, Use>, pages: map<nat, Page>,
                        d: nat, lo: nat, hi: nat) {
    && (forall u: nat :: u < PAGES && !(lo <= u < hi) ==> Lookup(ts', d, u) == Lookup(ts, d, u))
    && (forall u: nat :: lo <= u < hi && u < PAGES ==> FreshPage(ts', pages, ow, d, u))
    && (forall f :: f in ow ==> f in ow' && ow'[f] == ow[f])
    && (forall f :: f in ow' && ow'[f].User? ==> f in ow || (ow'[f].d == d && lo <= ow'[f].v < hi))
  }

  lemma GrownOne(ts: Tables, ow: map<nat, Use>, ts1: Tables, ow1: map<nat, Use>, pages1: map<nat, Page>,
                 ts2: Tables, ow2: map<nat, Use>, pages2: map<nat, Page>, d: nat, lo: nat, v: nat, mem: nat)
    requires Grown(ts, ow, ts1, ow1, pages1, d, lo, v) && lo <= v
    requires mem !in ow1 && pages2 == pages1[mem := ZeroPage()]
    requires forall u: nat :: u < PAGES ==>
               Lookup(ts2, d, u) == if u == v then Pte(mem, PTE_P + PTE_W + PTE_U) else Lookup(ts1, d, u)
    requires mem in ow2 && ow2[mem] == User(d, v)
    requires forall f :: f in ow1 ==> f in ow2 && ow2[f] == ow1[f]
    requires forall f :: f in ow2 && ow2[f].User? ==> (f in ow1 && ow2[f] == ow1[f]) || f == mem
    ensures Grown(ts, ow, ts2, ow2, pages2, d, lo, v + 1)
  {
    forall u: nat | lo <= u < v + 1 && u < PAGES ensures FreshPage(ts2, pages2, ow, d, u) {
      if u < v { assert FreshPage(ts1, pages1, ow, d, u); }
    }
  }

  lemma GrownSame(ts: Tables, ow: map<nat, Use>, ts1: Tables, ow1: map<nat, Use>, pages1: map<nat, Page>,
                  ts2: Tables, ow2: map<nat, Use>, pages2: map<nat, Page>, d: nat, lo: nat, v: nat, mem: nat)
    requires Grown(ts, ow, ts1, ow1, pages1, d, lo, v)
    requires mem !in ow1 && pages2 == pages1[mem := ZeroPage()]
    requires forall u: nat :: u < PAGES ==> Lookup(ts2, d, u) == Lookup(ts1, d, u)
    requires forall f :: f in ow1 ==> f in ow2 && ow2[f] == ow1[f]
    requires forall f :: f in ow2 && ow2[f].User? ==> f in ow1 && ow2[f] == ow1[f]
    ensures Grown(ts, ow, ts2, ow2, pages2, d, lo, v)
  {
    forall u: nat | lo <= u < v && u < PAGES ensures FreshPage(ts2, pages2, ow, d, u) {
      assert FreshPage(ts1, pages1, ow, d, u);
    }
  }

  /** Frames used as tables in the first n slots of d. */
  ghost function TablesOf(owner: map<nat, Use>, d: nat, n: nat): set<nat> {
    set f | f in owner && owner[f].Table? && owner[f].d == d && owner[f].i < n
  }

  lemma TableSlots(ts: Tables, owner: map<nat, Use>, d: nat)
    requires OwnersOk(ts, owner) && IsDir(owner, d)
    ensures IsTable(ts, d) && TablesOf(owner, d, 0) == {}
  {
    assert DirOk(ts, owner, d);
  }

  lemma TableSlot(ts: Tables, owner: map<nat, Use>, d: nat, i: nat)
    requires OwnersOk(ts, owner) && IsDir(owner, d) && i < ENTRIES
    ensures IsTable(ts, d)
    ensures Present(ts[d][i]) ==> ts[d][i].frame in owner && owner[ts[d][i].frame] == Table(d, i)
    ensures TablesOf(owner, d, i + 1) == TablesOf(owner, d, i) + if Present(ts[d][i]) then {ts[d][i].frame} else {}
  {
    assert DirOk(ts, owner, d) && TableOwned(ts, owner, d, i);
    forall f | f in owner && owner[f] == Table(d, i) ensures Present(ts[d][i]) && ts[d][i].frame == f {
      assert UseOk(ts, owner, f);
    }
  }

  /** With its user pages gone, a directory owns itself and its tables. */
  lemma OnlyTables(ts: Tables, owner: map<nat, Use>, ts': Tables, owner': map<nat, Use>, d: nat)
    requires OwnersOk(ts, owner) && OwnersOk(ts', owner') && IsDir(owner', d)
    requires Unmapped(ts, owner, ts', owner', d, 0, KPAGE)
    ensures owner'.Keys - Others(owner', d).Keys == TablesOf(owner', d, ENTRIES) + {d}
  {
    forall f | f in owner' && owner'[f].d == d ensures f == d || f in TablesOf(owner', d, ENTRIES) {
      assert UseOk(ts', owner', f);
    }
  }

  lemma ElsewhereDrop(ts: Tables, owner: map<nat, Use>, ts': Tables, owner': map<nat, Use>, d: nat)
    requires Elsewhere(ts, owner, ts', owner', d)
    ensures Elsewhere(ts, owner, ts', Others(owner', d), d) && Others(owner', d) == Others(owner, d)
    ensures forall f :: f in Others(owner', d) ==> f in owner' && Others(owner', d)[f] == owner'[f]
  {
    assert Others(Others(owner', d), d) == Others(owner', d);
  }

  /** The books balance once the tables and the directory page are back on the free list. */
  lemma Reclaimed(pool: set<nat>, free: set<nat>, owner: map<nat, Use>, d: nat, loose: set<nat>)
    requires Accounted(pool, free, owner, loose) && IsDir(owner, d)
    requires owner.Keys - Others(owner, d).Keys == TablesOf(owner, d, ENTRIES) + {d}
    ensures d != 0 && d !in free && d !in TablesOf(owner, d, ENTRIES)
    ensures Accounted(pool, free + TablesOf(owner, d, ENTRIES) + {d}, Others(owner, d), loose)
  {
    assert Others(owner, d).Keys <= owner.Keys;
    assert d in pool;
  }

  /** Skipping to the last page of the directory slot of a. */
  lemma SkipTarget(a: nat)
    requires a % PGSIZE == 0 && a < KERNBASE
    ensures var r := (a / 0x40_0000 + 1) * 0x40_0000 - PGSIZE;
            && a <= r < KERNBASE && r % PGSIZE == 0
            && r / PGSIZE + 1 == (a / PGSIZE / ENTRIES + 1) * ENTRIES
  {
  }

  function Min(a: nat, b: nat): nat { if a < b then a else b }

  lemma UnmappedRefl(ts: Tables, owner: map<nat, Use>, d: nat, lo: nat)
    ensures Unmapped(ts, owner, ts, owner, d, lo, lo)
  {
  }

  lemma TableEntry(ts: Tables, owner: map<nat, Use>, d: nat, v: nat)
    requires HasTable(ts, owner, d, v)
    ensures ts[ts[d][v / ENTRIES].frame][v % ENTRIES] == Lookup(ts, d, v)
  {
  }

  /** Without its table, none of the 1024 pages around v is present. */
  lemma NoTableNoPages(ts: Tables, d: nat, v: nat)
    requires v < PAGES && IsTable(ts, d) && !Present(ts[d][v / ENTRIES])
    ensures forall u: nat :: u / ENTRIES == v / ENTRIES ==> Lookup(ts, d, u) == NoEntry()
    ensures forall u: nat :: v <= u < (v / ENTRIES + 1) * ENTRIES ==> !Present(Lookup(ts, d, u))
  {
  }
}
