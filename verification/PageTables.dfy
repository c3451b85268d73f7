/**
 Two-level x86 page tables (vm.c) and the frames they are made of, as values.

 A frame is a physical page number; a virtual page number has ten bits of directory index
 and ten bits of table index. Directory and table pages are arrays of 1024 entries.
 */
module PageTables {

  const ENTRIES := 1024
  const PAGES := 1048576                 // 2^32 / PGSIZE
  const KPAGE := 524288                  // KERNBASE / PGSIZE
  const PTE_P := 1
  const PTE_W := 2
  const PTE_U := 4

  datatype Pte = Pte(frame: nat, flags: nat)

  predicate Present(e: Pte) { e.flags % 2 == 1 }

  /** flags | PTE_P */
  function WithP(flags: nat): nat { if flags % 2 == 1 then flags else flags + 1 }

  type Tables = map<nat, seq<Pte>>

  ghost predicate IsTable(ts: Tables, f: nat) { f in ts && |ts[f]| == ENTRIES }

  function NoEntry(): Pte { Pte(0, 0) }

  /** The entry for virtual page v in directory d, absent when its table is. */
  ghost function Lookup(ts: Tables, d: nat, v: nat): Pte {
    if v < PAGES && IsTable(ts, d) && Present(ts[d][v / ENTRIES]) && IsTable(ts, ts[d][v / ENTRIES].frame)
    then ts[ts[d][v / ENTRIES].frame][v % ENTRIES] else NoEntry()
  }

  /** What an allocated frame is used for. */
  datatype Use = Dir(d: nat) | Table(d: nat, i: nat) | User(d: nat, v: nat)

  ghost predicate IsDir(owner: map<nat, Use>, d: nat) { d in owner && owner[d] == Dir(d) }

  ghost predicate UseOk(ts: Tables, owner: map<nat, Use>, f: nat)
    requires f in owner
  {
    match owner[f]
    case Dir(d) => d == f && IsTable(ts, f)
    case Table(d, i) =>
      && i < ENTRIES && IsDir(owner, d) && IsTable(ts, d) && IsTable(ts, f)
      && Present(ts[d][i]) && ts[d][i].frame == f
    case User(d, v) => v < KPAGE && IsDir(owner, d) && Present(Lookup(ts, d, v)) && Lookup(ts, d, v).frame == f
  }

  ghost predicate TableOwned(ts: Tables, owner: map<nat, Use>, d: nat, i: nat)
    requires IsTable(ts, d) && i < ENTRIES
  {
    Present(ts[d][i]) ==> ts[d][i].frame in owner && owner[ts[d][i].frame] == Table(d, i)
  }

  ghost predicate UserOwned(ts: Tables, owner: map<nat, Use>, d: nat, v: nat) {
    var e := Lookup(ts, d, v);
    if Present(e) then e.frame in owner && owner[e.frame] == User(d, v) else e == NoEntry()
  }

  /** Everything a directory refers to below KERNBASE, and all its tables, are its own. */
  ghost predicate DirOk(ts: Tables, owner: map<nat, Use>, d: nat) {
    && IsTable(ts, d)
    && (forall i {:trigger TableOwned(ts, owner, d, i)} :: 0 <= i < ENTRIES ==> TableOwned(ts, owner, d, i))
    && (forall v {:trigger UserOwned(ts, owner, d, v)} :: 0 <= v < KPAGE ==> UserOwned(ts, owner, d, v))
  }

  ghost predicate OwnersOk(ts: Tables, owner: map<nat, Use>) {
    && (forall f {:trigger UseOk(ts, owner, f)} :: f in owner ==> UseOk(ts, owner, f))
    && (forall d {:trigger DirOk(ts, owner, d)} :: IsDir(owner, d) ==> DirOk(ts, owner, d))
  }

  /** Every managed frame is free, in use, or in the hands of whoever just allocated it. */
  ghost predicate Accounted(pool: set<nat>, free: set<nat>, owner: map<nat, Use>, loose: set<nat>) {
    && 0 !in pool && pool == free + owner.Keys + loose
    && free !! owner.Keys && free !! loose && owner.Keys !! loose
  }

  // ---------------------------------------------------------------- entries

  /** Store entry e for page v, whose table exists. */
  ghost function EntrySet(ts: Tables, d: nat, v: nat, e: Pte): Tables
    requires v < PAGES && IsTable(ts, d) && IsTable(ts, ts[d][v / ENTRIES].frame)
  {
    var t := ts[d][v / ENTRIES].frame;
    ts[t := ts[t][v % ENTRIES := e]]
  }

  ghost predicate HasTable(ts: Tables, owner: map<nat, Use>, d: nat, v: nat) {
    && v < PAGES && IsDir(owner, d) && IsTable(ts, d) && Present(ts[d][v / ENTRIES])
    && IsTable(ts, ts[d][v / ENTRIES].frame)
  }

  /** Storing an entry changes that page of that directory and nothing else. */
  lemma LookupAfterSet(ts: Tables, owner: map<nat, Use>, d: nat, v: nat, e: Pte, d': nat, v': nat)
    requires OwnersOk(ts, owner) && HasTable(ts, owner, d, v) && IsDir(owner, d') && v' < PAGES
    ensures Lookup(EntrySet(ts, d, v, e), d', v') == if d' == d && v' == v then e else Lookup(ts, d', v')
    ensures IsTable(EntrySet(ts, d, v, e), d') && EntrySet(ts, d, v, e)[d'] == ts[d']
  {
    assert DirOk(ts, owner, d) && DirOk(ts, owner, d');
    assert TableOwned(ts, owner, d, v / ENTRIES) && TableOwned(ts, owner, d', v' / ENTRIES);
  }

  lemma KernelEntryKeeps(ts: Tables, owner: map<nat, Use>, d: nat, v: nat, e: Pte)
    requires OwnersOk(ts, owner) && HasTable(ts, owner, d, v) && KPAGE <= v
    ensures OwnersOk(EntrySet(ts, d, v, e), owner)
  {
    var ts' := EntrySet(ts, d, v, e);
    SetKeepsTables(ts, owner, d, v, e);
    forall f | f in owner ensures UseOk(ts', owner, f) {
      assert UseOk(ts, owner, f);
      if owner[f].User? { LookupAfterSet(ts, owner, d, v, e, owner[f].d, owner[f].v); }
      if owner[f].Table? { LookupAfterSet(ts, owner, d, v, e, owner[f].d, 0); }
    }
    forall c | IsDir(owner, c) ensures DirOk(ts', owner, c) {
      KeepsDir(ts, owner, d, v, e, c, owner);
    }
  }

  /** Only table pages are written, and they stay table pages. */
  lemma SetKeepsTables(ts: Tables, owner: map<nat, Use>, d: nat, v: nat, e: Pte)
    requires OwnersOk(ts, owner) && HasTable(ts, owner, d, v)
    ensures forall f :: IsTable(ts, f) ==> IsTable(EntrySet(ts, d, v, e), f)
  {
  }

  /** A directory stays in order if every entry still leads to its owner. */
  lemma KeepsDir(ts: Tables, owner: map<nat, Use>, d: nat, v: nat, e: Pte, c: nat, owner': map<nat, Use>)
    requires OwnersOk(ts, owner) && HasTable(ts, owner, d, v) && IsDir(owner, c)
    requires forall f :: f in owner && !(owner[f].User? && owner[f].d == d && owner[f].v == v) ==>
      f in owner' && owner'[f] == owner[f]
    requires v < KPAGE && Present(e) ==> e.frame in owner' && owner'[e.frame] == User(d, v)
    requires v < KPAGE && !Present(e) ==> e == NoEntry()
    ensures DirOk(EntrySet(ts, d, v, e), owner', c)
  {
    var ts' := EntrySet(ts, d, v, e);
    LookupAfterSet(ts, owner, d, v, e, c, 0);
    assert DirOk(ts, owner, c);
    forall i | 0 <= i < ENTRIES ensures TableOwned(ts', owner', c, i) {
      assert TableOwned(ts, owner, c, i);
    }
    forall u | 0 <= u < KPAGE ensures UserOwned(ts', owner', c, u) {
      assert UserOwned(ts, owner, c, u);
      LookupAfterSet(ts, owner, d, v, e, c, u);
    }
  }

  lemma MapUserKeeps(ts: Tables, owner: map<nat, Use>, d: nat, v: nat, e: Pte)
    requires OwnersOk(ts, owner) && HasTable(ts, owner, d, v) && v < KPAGE
    requires !Present(Lookup(ts, d, v)) && Present(e) && e.frame !in owner
    ensures OwnersOk(EntrySet(ts, d, v, e), owner[e.frame := User(d, v)])
  {
    var ts', owner' := EntrySet(ts, d, v, e), owner[e.frame := User(d, v)];
    SetKeepsTables(ts, owner, d, v, e);
    forall f | f in owner' ensures UseOk(ts', owner', f) {
      LookupAfterSet(ts, owner, d, v, e, d, v);
      if f != e.frame {
        assert UseOk(ts, owner, f);
        if owner[f].User? { LookupAfterSet(ts, owner, d, v, e, owner[f].d, owner[f].v); }
        if owner[f].Table? { LookupAfterSet(ts, owner, d, v, e, owner[f].d, 0); }
      }
    }
    assert forall f :: f in owner ==> !(owner[f].User? && owner[f].d == d && owner[f].v == v) by {
      forall f | f in owner ensures !(owner[f].User? && owner[f].d == d && owner[f].v == v) {
        assert UseOk(ts, owner, f);
      }
    }
    forall c | IsDir(owner', c) ensures DirOk(ts', owner', c) {
      KeepsDir(ts, owner, d, v, e, c, owner');
    }
  }

  lemma UnmapUserKeeps(ts: Tables, owner: map<nat, Use>, d: nat, v: nat)
    requires OwnersOk(ts, owner) && HasTable(ts, owner, d, v) && v < KPAGE && Present(Lookup(ts, d, v))
    ensures Lookup(ts, d, v).frame in owner && owner[Lookup(ts, d, v).frame] == User(d, v)
    ensures OwnersOk(EntrySet(ts, d, v, NoEntry()), owner - {Lookup(ts, d, v).frame})
  {
    var g := Lookup(ts, d, v).frame;
    assert DirOk(ts, owner, d) && UserOwned(ts, owner, d, v);
    var ts', owner' := EntrySet(ts, d, v, NoEntry()), owner - {g};
    SetKeepsTables(ts, owner, d, v, NoEntry());
    forall f | f in owner' ensures UseOk(ts', owner', f) {
      assert UseOk(ts, owner, f);
      if owner[f].User? { LookupAfterSet(ts, owner, d, v, NoEntry(), owner[f].d, owner[f].v); }
      if owner[f].Table? { LookupAfterSet(ts, owner, d, v, NoEntry(), owner[f].d, 0); }
    }
    forall f | f in owner && !(owner[f].User? && owner[f].d == d && owner[f].v == v)
      ensures f in owner' && owner'[f] == owner[f] {}
    forall c | IsDir(owner', c) ensures DirOk(ts', owner', c) {
      KeepsDir(ts, owner, d, v, NoEntry(), c, owner');
    }
  }

  // ---------------------------------------------------------------- tables and directories

  function ZeroTable(): seq<Pte> { seq(ENTRIES, _ => NoEntry()) }

  /** walkpgdir's allocation: page t becomes the table of directory slot i. */
  ghost function TableAdded(ts: Tables, d: nat, i: nat, t: nat): Tables
    requires IsTable(ts, d) && i < ENTRIES
  {
    ts[t := ZeroTable()][d := ts[d][i := Pte(t, PTE_P + PTE_W + PTE_U)]]
  }

  lemma LookupAfterTable(ts: Tables, owner: map<nat, Use>, d: nat, i: nat, t: nat, c: nat, v: nat)
    requires OwnersOk(ts, owner) && IsDir(owner, d) && IsTable(ts, d) && i < ENTRIES && !Present(ts[d][i])
    requires t !in owner && IsDir(owner, c) && v < PAGES
    ensures Lookup(TableAdded(ts, d, i, t), c, v) == Lookup(ts, c, v)
    ensures IsTable(TableAdded(ts, d, i, t), c)
    ensures TableAdded(ts, d, i, t)[c] == if c == d then ts[d][i := Pte(t, PTE_P + PTE_W + PTE_U)] else ts[c]
  {
    assert DirOk(ts, owner, c) && DirOk(ts, owner, d);
    assert TableOwned(ts, owner, c, v / ENTRIES);
    assert d != t && c != t;
    if Present(ts[c][v / ENTRIES]) { assert ts[c][v / ENTRIES].frame != t; }
  }

  lemma AddTableKeeps(ts: Tables, owner: map<nat, Use>, d: nat, i: nat, t: nat)
    requires OwnersOk(ts, owner) && IsDir(owner, d) && IsTable(ts, d) && i < ENTRIES && !Present(ts[d][i])
    requires t !in owner
    ensures OwnersOk(TableAdded(ts, d, i, t), owner[t := Table(d, i)])
  {
    var ts', owner' := TableAdded(ts, d, i, t), owner[t := Table(d, i)];
    LookupAfterTable(ts, owner, d, i, t, d, 0);
    forall f | f in owner' ensures UseOk(ts', owner', f) {
      if f != t {
        assert UseOk(ts, owner, f);
        if owner[f].User? { LookupAfterTable(ts, owner, d, i, t, owner[f].d, owner[f].v); }
        if owner[f].Table? { LookupAfterTable(ts, owner, d, i, t, owner[f].d, 0); }
      }
    }
    forall c | IsDir(owner', c) ensures DirOk(ts', owner', c) {
      assert DirOk(ts, owner, c);
      LookupAfterTable(ts, owner, d, i, t, c, 0);
      forall k | 0 <= k < ENTRIES ensures TableOwned(ts', owner', c, k) {
        assert TableOwned(ts, owner, c, k);
      }
      forall v | 0 <= v < KPAGE ensures UserOwned(ts', owner', c, v) {
        assert UserOwned(ts, owner, c, v);
        LookupAfterTable(ts, owner, d, i, t, c, v);
      }
    }
  }

  /** setupkvm's fresh directory page. */
  ghost function DirAdded(ts: Tables, d: nat): Tables { ts[d := ZeroTable()] }

  lemma LookupAfterDir(ts: Tables, owner: map<nat, Use>, d: nat, c: nat, v: nat)
    requires OwnersOk(ts, owner) && d !in owner && IsDir(owner, c) && v < PAGES
    ensures Lookup(DirAdded(ts, d), c, v) == Lookup(ts, c, v)
  {
    assert DirOk(ts, owner, c) && TableOwned(ts, owner, c, v / ENTRIES);
  }

  lemma AddDirKeeps(ts: Tables, owner: map<nat, Use>, d: nat)
    requires OwnersOk(ts, owner) && d !in owner
    ensures OwnersOk(DirAdded(ts, d), owner[d := Dir(d)])
    ensures forall v: nat :: Lookup(DirAdded(ts, d), d, v) == NoEntry()
  {
    var ts', owner' := DirAdded(ts, d), owner[d := Dir(d)];
    forall f | f in owner' ensures UseOk(ts', owner', f) {
      if f != d {
        assert UseOk(ts, owner, f);
        if owner[f].User? { LookupAfterDir(ts, owner, d, owner[f].d, owner[f].v); }
      }
    }
    forall c | IsDir(owner', c) ensures DirOk(ts', owner', c) {
      if c != d {
        assert DirOk(ts, owner, c);
        forall k | 0 <= k < ENTRIES ensures TableOwned(ts', owner', c, k) { assert TableOwned(ts, owner, c, k); }
        forall v | 0 <= v < KPAGE ensures UserOwned(ts', owner', c, v) {
          assert UserOwned(ts, owner, c, v);
          LookupAfterDir(ts, owner, d, c, v);
        }
      } else {
        forall k | 0 <= k < ENTRIES ensures TableOwned(ts', owner', c, k) {}
        forall v | 0 <= v < KPAGE ensures UserOwned(ts', owner', c, v) {}
      }
    }
  }

  /** The frames that do not belong to directory d. */
  ghost function Others(owner: map<nat, Use>, d: nat): map<nat, Use> {
    map f | f in owner && owner[f].d != d :: owner[f]
  }

  lemma DropDirKeeps(ts: Tables, owner: map<nat, Use>, d: nat)
    requires OwnersOk(ts, owner)
    ensures OwnersOk(ts, Others(owner, d))
  {
    var owner' := Others(owner, d);
    forall f | f in owner' ensures UseOk(ts, owner', f) {
      assert UseOk(ts, owner, f);
    }
    forall c | IsDir(owner', c) ensures DirOk(ts, owner', c) {
      assert DirOk(ts, owner, c);
      forall k | 0 <= k < ENTRIES ensures TableOwned(ts, owner', c, k) { assert TableOwned(ts, owner, c, k); }
      forall v | 0 <= v < KPAGE ensures UserOwned(ts, owner', c, v) { assert UserOwned(ts, owner, c, v); }
    }
  }

  /** Nothing that belongs to another directory has changed. */
  ghost predicate Elsewhere(ts: Tables, owner: map<nat, Use>, ts': Tables, owner': map<nat, Use>, d: nat) {
    && Others(owner', d) == Others(owner, d)
    && forall c: nat, v: nat :: c != d && IsDir(owner, c) && v < PAGES ==> Lookup(ts', c, v) == Lookup(ts, c, v)
  }

  lemma ElsewhereTwice(ts: Tables, owner: map<nat, Use>, ts1: Tables, owner1: map<nat, Use>,
                       ts2: Tables, owner2: map<nat, Use>, d: nat)
    requires Elsewhere(ts, owner, ts1, owner1, d) && Elsewhere(ts1, owner1, ts2, owner2, d)
    ensures Elsewhere(ts, owner, ts2, owner2, d)
  {
    forall c: nat, v: nat | c != d && IsDir(owner, c) && v < PAGES ensures Lookup(ts2, c, v) == Lookup(ts, c, v) {
      assert c in Others(owner, d) && c in Others(owner1, d);
      assert IsDir(owner1, c);
    }
  }

  lemma ElsewhereRefl(ts: Tables, owner: map<nat, Use>, d: nat)
    ensures Elsewhere(ts, owner, ts, owner, d)
  {
  }

  lemma ElsewhereAfterTable(ts: Tables, owner: map<nat, Use>, d: nat, i: nat, t: nat)
    requires OwnersOk(ts, owner) && IsDir(owner, d) && IsTable(ts, d) && i < ENTRIES && !Present(ts[d][i])
    requires t !in owner
    ensures Elsewhere(ts, owner, TableAdded(ts, d, i, t), owner[t := Table(d, i)], d)
  {
    forall c: nat, v: nat | c != d && IsDir(owner, c) && v < PAGES
      ensures Lookup(TableAdded(ts, d, i, t), c, v) == Lookup(ts, c, v)
    {
      LookupAfterTable(ts, owner, d, i, t, c, v);
    }
    assert Others(owner[t := Table(d, i)], d) == Others(owner, d);
  }

  lemma ElsewhereAfterSet(ts: Tables, owner: map<nat, Use>, d: nat, v: nat, e: Pte, owner': map<nat, Use>)
    requires OwnersOk(ts, owner) && HasTable(ts, owner, d, v) && Others(owner', d) == Others(owner, d)
    ensures Elsewhere(ts, owner, EntrySet(ts, d, v, e), owner', d)
  {
    forall c: nat, u: nat | c != d && IsDir(owner, c) && u < PAGES
      ensures Lookup(EntrySet(ts, d, v, e), c, u) == Lookup(ts, c, u)
    {
      LookupAfterSet(ts, owner, d, v, e, c, u);
    }
  }

  /** A frame that is not a directory owns nothing. */
  lemma OthersAll(ts: Tables, owner: map<nat, Use>, d: nat)
    requires OwnersOk(ts, owner) && d !in owner
    ensures Others(owner, d) == owner
  {
    forall f | f in owner ensures owner[f].d != d { assert UseOk(ts, owner, f); }
  }

  /** A user page without a present entry has a zero entry. */
  lemma AbsentIsZero(ts: Tables, owner: map<nat, Use>, d: nat, v: nat)
    requires OwnersOk(ts, owner) && IsDir(owner, d) && v < KPAGE && !Present(Lookup(ts, d, v))
    ensures Lookup(ts, d, v) == NoEntry()
  {
    assert DirOk(ts, owner, d) && UserOwned(ts, owner, d, v);
  }
}
