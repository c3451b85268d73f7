/**
 What link, unlink, create and the last iput do to names: a file system is seen here only through
 the names its directories hold and the inodes behind them, not through slots.
 */
module DirectoryLaws {
  import opened DirectoryTree
  import opened Directories

  ghost predicate SameName(e: nat, n: string, d: nat, name: string) {
    e == d && Short(n) == Short(name)
  }

  /** Except for the listed inodes nothing is different. */
  ghost predicate OthersSame(fs: Fs, gs: Fs, touched: set<nat>) {
    forall j :: j !in touched ==>
      (j in fs.inodes <==> j in gs.inodes) && (j in fs.inodes ==> gs.inodes[j] == fs.inodes[j])
  }

  lemma NamedIn(fs: Fs, d: nat, name: string, i: nat)
    ensures Named(fs, d, name, i) <==> IsDir(fs, d) && i != 0 && Slot(i, Short(name)) in fs.inodes[d].slots
  {
  }

  /** An entry of d is filled in that had no name of its own. */
  lemma PutNames(slots: seq<Slot>, k: nat, slot: Slot, n: string, j: nat)
    requires FreeAt(slots, k) && slot.inum != 0 && j != 0
    ensures Slot(j, n) in Put(slots, k, slot) <==> slot == Slot(j, n) || Slot(j, n) in slots
  {
    var r := Put(slots, k, slot);
    if l :| 0 <= l < |slots| && slots[l] == Slot(j, n) {
      assert r[l] == slots[l];
    }
    assert r[k] == slot;
  }

  /** link adds one name and one count, and changes nothing else. */
  lemma LinkAddsName(fs: Fs, gs: Fs, d: nat, name: string, i: nat, e: nat, n: string, j: nat)
    requires Entered1(fs, gs, d, name, i) && i != 0
    ensures Named(gs, e, n, j) <==> Named(fs, e, n, j) || (SameName(e, n, d, name) && j == i)
    ensures Links(gs, i) == Links(fs, i) + 1 && Links(gs, d) == Links(fs, d) && OthersSame(fs, gs, {d, i})
    ensures gs.inodes[i].File? && gs.inodes[i].device == fs.inodes[i].device
  {
    var k :| FreeAt(fs.inodes[d].slots, k) && gs.inodes == fs.inodes
           [i := File(fs.inodes[i].nlink + 1, fs.inodes[i].device)]
           [d := Dir(fs.inodes[d].nlink, Put(fs.inodes[d].slots, k, Slot(i, Short(name))))];
    NamedIn(fs, e, n, j);
    NamedIn(gs, e, n, j);
    if e == d && j != 0 {
      PutNames(fs.inodes[d].slots, k, Slot(i, Short(name)), Short(n), j);
    }
  }

  lemma ClearNames(slots: seq<Slot>, k: nat, n: string, j: nat)
    requires NamesDistinct(slots) && k < |slots| && slots[k].inum != 0 && j != 0
    ensures Slot(j, n) in slots[k := Slot(0, "")] <==> n != slots[k].name && Slot(j, n) in slots
  {
    var r := slots[k := Slot(0, "")];
    if l :| 0 <= l < |slots| && slots[l] == Slot(j, n) && n != slots[k].name {
      assert r[l] == slots[l];
    }
    if l :| 0 <= l < |slots| && r[l] == Slot(j, n) {
      assert slots[l] == Slot(j, n);
    }
  }

  /** unlink takes that name away, and a count, and nothing else; removing a directory also takes
      its parent's count for "..". */
  lemma UnlinkTakesName(fs: Fs, gs: Fs, d: nat, name: string, i: nat, e: nat, n: string, j: nat)
    requires Sound(fs) && Unlinked(fs, gs, d, name, i)
    ensures Named(gs, e, n, j) <==> Named(fs, e, n, j) && !SameName(e, n, d, name)
    ensures Named(fs, d, name, i) && Links(gs, i) == Links(fs, i) - 1
    ensures Links(gs, d) == Links(fs, d) - (if IsDir(fs, i) then 1 else 0) && OthersSame(fs, gs, {d, i})
    ensures i in gs.inodes && gs.inodes[i] == fs.inodes[i].(nlink := fs.inodes[i].nlink - 1)
  {
    hide Sound;
    var k: nat :| CanClear(fs, d, k, i) && fs.inodes[d].slots[k].name == Short(name) && i in fs.inodes && i != d
      && gs.inodes == fs.inodes
           [i := fs.inodes[i].(nlink := fs.inodes[i].nlink - 1)]
           [d := Dir(fs.inodes[d].nlink - (if IsDir(fs, i) then 1 else 0), fs.inodes[d].slots[k := Slot(0, "")])];
    SoundDir(fs, d);
    assert fs.inodes[d].slots[k] == Slot(i, Short(name));
    NamedIn(fs, e, n, j);
    NamedIn(gs, e, n, j);
    if e == d && j != 0 {
      ClearNames(fs.inodes[d].slots, k, Short(n), j);
    }
  }

  /** create adds one name, for an inode of the kind asked for; a directory also names itself and
      its parent, and raises its parent's count. */
  lemma CreateAddsName(fs: Fs, d: nat, k: nat, name: string, i: nat, kind: Kind, e: nat, n: string, j: nat)
    requires Sound(fs) && CanEnter(fs, d, k, name) && i !in fs.inodes && i != 0
    ensures var gs := Created(fs, d, k, name, i, kind);
      && (e != i ==> (Named(gs, e, n, j) <==> Named(fs, e, n, j) || (SameName(e, n, d, name) && j == i)))
      && i in gs.inodes && OfKind(gs.inodes[i], kind, i, d) && OthersSame(fs, gs, {d, i})
      && Links(gs, d) == Links(fs, d) + if kind == Directory then 1 else 0
  {
    hide Sound;
    NamedIn(fs, e, n, j);
    NamedIn(Created(fs, d, k, name, i, kind), e, n, j);
    if e == d && j != 0 {
      PutNames(fs.inodes[d].slots, k, Slot(i, Short(name)), Short(n), j);
    }
  }

  /** Freeing an inode takes it away, and nothing else. */
  lemma FreedIsGone(fs: Fs, i: nat)
    ensures i !in Freed(fs, i).inodes && OthersSame(fs, Freed(fs, i), {i})
  {
  }

  /** A file or directory that is created, unlinked again and put for the last time has left no
      trace: the same inodes are allocated, so ialloc may hand the number out again, and every
      directory holds the names, and every inode the count, it had before. */
  lemma LeavesNoTrace(fs: Fs, d: nat, k: nat, name: string, i: nat, kind: Kind, hs: Fs, e: nat, n: string, j: nat)
    requires Sound(fs) && CanEnter(fs, d, k, name) && Linked(fs, d) && i !in fs.inodes && i != 0
    requires Unlinked(Created(fs, d, k, name, i, kind), hs, d, name, i)
    ensures hs.inodes[i].nlink == 0
    ensures var gs := Freed(hs, i);
      && gs.inodes.Keys == fs.inodes.Keys && OthersSame(fs, gs, {d}) && Links(gs, d) == Links(fs, d)
      && (Named(gs, e, n, j) <==> Named(fs, e, n, j))
  {
    var cs := Created(fs, d, k, name, i, kind);
    CreateExactly(fs, d, k, name, i, kind);
    CreateAddsName(fs, d, k, name, i, kind, e, n, j);
    UnlinkTakesName(cs, hs, d, name, i, e, n, j);
    FreedIsGone(hs, i);
    hide Sound, Created, Unlinked, CanEnter, OfKind;
    NameWasFree(fs, d, k, name, e, n, j);
    assert forall x :: x in Freed(hs, i).inodes <==> x in fs.inodes;
  }

  lemma NameWasFree(fs: Fs, d: nat, k: nat, name: string, e: nat, n: string, j: nat)
    requires CanEnter(fs, d, k, name)
    ensures SameName(e, n, d, name) ==> !Named(fs, e, n, j)
  {
  }
}
