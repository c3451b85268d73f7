/**
 Link counts and directory entries (sysfile.c, fs.c).

 Every step here is what one lock-protected section does. sys_link raises a count before the
 entry exists and sys_unlink clears an entry before it lowers the count, so between their steps
 a link is in flight: `pending` counts those, and `limbo` holds the directories whose entry is
 already gone but whose count is not yet lowered. Both are specification only.
 */
module DirectoryTree {
  import opened Basics

  const ROOT := 1
  const DIRSIZ := 14

  /** A directory entry; inum 0 marks a free one. */
  datatype Slot = Slot(inum: nat, name: string)

  datatype Kind = Directory | Regular | Device

  /** An allocated inode: a directory, or a file or device. */
  datatype Inode = Dir(nlink: int, slots: seq<Slot>) | File(nlink: int, device: bool)

  datatype Fs = Fs(inodes: map<nat, Inode>, pending: multiset<nat>, limbo: set<nat>)

  /** What namecmp compares and strncpy stores of a name. */
  function Short(name: string): (r: string)
    ensures |r| <= DIRSIZ
  {
    if |name| <= DIRSIZ then name else name[..DIRSIZ]
  }

  ghost predicate Linked(fs: Fs, d: nat) {
    d in fs.inodes && fs.inodes[d].Dir? && fs.inodes[d].nlink > 0 && d !in fs.limbo
  }

  /** The entries of a linked directory. */
  ghost function Entries(fs: Fs, d: nat): seq<Slot> {
    if Linked(fs, d) then fs.inodes[d].slots else []
  }

  ghost function Parent(fs: Fs, d: nat): nat {
    if d in fs.inodes && fs.inodes[d].Dir? && |fs.inodes[d].slots| > 1 then fs.inodes[d].slots[1].inum else 0
  }

  /** The entries other than "." that name inode i in linked directories. */
  ghost function Refs(fs: Fs, i: nat): set<(nat, nat)> {
    set d, k | d in fs.inodes && 1 <= k < |Entries(fs, d)| && Entries(fs, d)[k].inum == i :: (d, k)
  }

  ghost function Links(fs: Fs, i: nat): int {
    if i in fs.inodes then fs.inodes[i].nlink else 0
  }

  /** The count of every inode is the number of entries naming it, plus the links in flight. */
  ghost predicate Exact(fs: Fs) {
    forall i {:trigger Refs(fs, i)} :: i != 0 ==> Links(fs, i) == |Refs(fs, i)| + fs.pending[i]
  }

  ghost predicate NamesDistinct(slots: seq<Slot>) {
    forall a, b :: 0 <= a < b < |slots| && slots[a].inum != 0 && slots[b].inum != 0 ==> slots[a].name != slots[b].name
  }

  ghost predicate EmptyDir(slots: seq<Slot>) {
    forall k :: 2 <= k < |slots| ==> slots[k].inum == 0
  }

  /** One directory by itself: "." and ".." come first, and no name occurs twice. */
  ghost predicate DirOk(d: nat, slots: seq<Slot>) {
    && |slots| >= 2
    && slots[0] == Slot(d, ".")
    && slots[1].name == ".." && slots[1].inum != 0
    && NamesDistinct(slots)
    && (forall k :: 0 <= k < |slots| ==> |slots[k].name| <= DIRSIZ)
  }

  ghost predicate DirsOk(fs: Fs) {
    && 0 !in fs.inodes
    && Linked(fs, ROOT) && Parent(fs, ROOT) == ROOT
    && (forall d :: d in fs.inodes && fs.inodes[d].Dir? ==> DirOk(d, fs.inodes[d].slots))
    && (forall d :: d in fs.inodes && fs.inodes[d].Dir? && !Linked(fs, d) ==> EmptyDir(fs.inodes[d].slots))
    && (forall d :: IsDir(fs, d) && d !in fs.limbo ==> fs.pending[d] == 0)
    && (forall d :: d in fs.limbo ==> IsDir(fs, d) && Links(fs, d) == 1 && fs.pending[d] == 1)
  }

  ghost predicate IsDir(fs: Fs, c: nat) { c in fs.inodes && fs.inodes[c].Dir? }

  /** Entry k of d, past the dots, names c. */
  ghost predicate Holds(fs: Fs, d: nat, k: nat, c: nat) {
    c != 0 && 2 <= k < |Entries(fs, d)| && Entries(fs, d)[k].inum == c
  }

  ghost predicate Held(fs: Fs, c: nat) {
    exists k :: Holds(fs, Parent(fs, c), k, c)
  }

  /** Linked directories form a tree: each but the root has one entry, and its ".." leads there. */
  ghost predicate TreeOk(fs: Fs) {
    && (forall d, k, c :: Holds(fs, d, k, c) ==> c != d && c != ROOT)
    && (forall d, k, c :: Holds(fs, d, k, c) && IsDir(fs, c) ==> Linked(fs, c) && Parent(fs, c) == d)
    && (forall d, k, l, c :: Holds(fs, d, k, c) && Holds(fs, d, l, c) && IsDir(fs, c) ==> k == l)
    && (forall c {:trigger Held(fs, c)} :: Linked(fs, c) && c != ROOT ==> Linked(fs, Parent(fs, c)) && Held(fs, c))
  }

  ghost predicate Sound(fs: Fs) {
    DirsOk(fs) && TreeOk(fs) && Exact(fs)
  }

  // ---------------------------------------------------------------- what soundness gives

  lemma RefIn(fs: Fs, d: nat, k: nat)
    requires 1 <= k < |Entries(fs, d)|
    ensures (d, k) in Refs(fs, Entries(fs, d)[k].inum)
  {
  }

  /** An entry of a linked directory names an allocated inode with a positive count. */
  lemma NamedIsAllocated(fs: Fs, d: nat, k: nat)
    requires Sound(fs) && 0 <= k < |Entries(fs, d)| && Entries(fs, d)[k].inum != 0
    ensures Links(fs, Entries(fs, d)[k].inum) >= 1
  {
    var i := Entries(fs, d)[k].inum;
    if k == 0 {
      assert DirOk(d, fs.inodes[d].slots);
    } else {
      RefIn(fs, d, k);
      assert |Refs(fs, i)| >= 1;
    }
  }

  /** So an inode whose count is zero, the only kind iput frees, is named by no linked directory. */
  lemma FreedIsUnnamed(fs: Fs, i: nat)
    requires Sound(fs) && i in fs.inodes && fs.inodes[i].nlink == 0
    ensures forall d, k :: 0 <= k < |Entries(fs, d)| ==> Entries(fs, d)[k].inum != i
  {
    forall d, k | 0 <= k < |Entries(fs, d)|
      ensures Entries(fs, d)[k].inum != i
    {
      if Entries(fs, d)[k].inum != 0 {
        NamedIsAllocated(fs, d, k);
      }
    }
  }

  // ---------------------------------------------------------------- sys_link and iput

  function Recount(fs: Fs, i: nat, delta: int): Fs
    requires i in fs.inodes
  {
    fs.(inodes := fs.inodes[i := fs.inodes[i].(nlink := fs.inodes[i].nlink + delta)])
  }

  /** Two states whose linked directories have the same entries. */
  ghost predicate SameEntries(fs: Fs, gs: Fs) {
    && (forall d :: Entries(fs, d) == Entries(gs, d))
    && (forall d :: Linked(fs, d) <==> Linked(gs, d))
  }

  lemma SameRefs(fs: Fs, gs: Fs, i: nat)
    requires SameEntries(fs, gs)
    ensures Refs(fs, i) == Refs(gs, i)
  {
    forall d: nat, k: nat
      ensures (d, k) in Refs(fs, i) <==> (d, k) in Refs(gs, i)
    {
      assert Entries(fs, d) == Entries(gs, d);
    }
  }

  lemma SameExact(fs: Fs, gs: Fs)
    requires Exact(fs) && SameEntries(fs, gs)
    requires forall j :: j != 0 ==> Links(gs, j) - gs.pending[j] == Links(fs, j) - fs.pending[j]
    ensures Exact(gs)
  {
    hide Refs;
    forall j | j != 0
      ensures Links(gs, j) == |Refs(gs, j)| + gs.pending[j]
    {
      SameRefs(fs, gs, j);
    }
  }

  function BeginLink(fs: Fs, i: nat): Fs
    requires i in fs.inodes
  {
    Recount(fs, i, 1).(pending := fs.pending + multiset{i})
  }

  lemma BeginLinkKeeps(fs: Fs, i: nat)
    requires Sound(fs) && i in fs.inodes && fs.inodes[i].File?
    ensures Sound(BeginLink(fs, i))
  {
    hide TreeOk, Refs, DirOk, EmptyDir;
    var gs := BeginLink(fs, i);
    assert SameEntries(fs, gs);
    SameExact(fs, gs);
    SameTree(fs, gs);
  }

  /** The tree depends on the entries, the parents and the kinds of inodes only. */
  lemma SameTree(fs: Fs, gs: Fs)
    requires TreeOk(fs) && SameEntries(fs, gs)
    requires forall d :: Linked(fs, d) ==> Parent(fs, d) == Parent(gs, d)
    requires forall c :: IsDir(gs, c) ==> IsDir(fs, c)
    ensures TreeOk(gs)
  {
    forall d, k, c
      ensures Holds(fs, d, k, c) <==> Holds(gs, d, k, c)
    {
      assert Entries(fs, d) == Entries(gs, d);
    }
    forall c | Linked(gs, c) && c != ROOT
      ensures Linked(gs, Parent(gs, c)) && Held(gs, c)
    {
      assert Held(fs, c);
      var k :| Holds(fs, Parent(fs, c), k, c);
      assert Holds(gs, Parent(gs, c), k, c);
    }
  }

  function UndoLink(fs: Fs, i: nat): Fs
    requires i in fs.inodes
  {
    Recount(fs, i, -1).(pending := fs.pending - multiset{i})
  }

  lemma UndoLinkKeeps(fs: Fs, i: nat)
    requires Sound(fs) && i in fs.inodes && fs.inodes[i].File? && fs.pending[i] > 0
    ensures Sound(UndoLink(fs, i))
  {
    hide TreeOk, Refs, DirOk, EmptyDir;
    var gs := UndoLink(fs, i);
    assert SameEntries(fs, gs);
    SameExact(fs, gs);
    SameTree(fs, gs);
  }

  function Freed(fs: Fs, i: nat): Fs {
    fs.(inodes := fs.inodes - {i})
  }

  lemma FreedKeeps(fs: Fs, i: nat)
    requires Sound(fs) && i in fs.inodes && fs.inodes[i].nlink == 0
    ensures Sound(Freed(fs, i))
  {
    hide TreeOk, Refs, DirOk, EmptyDir;
    var gs := Freed(fs, i);
    assert SameEntries(fs, gs);
    assert Links(fs, i) == 0 && |Refs(fs, i)| == 0 && fs.pending[i] == 0;
    SameExact(fs, gs);
    SameTree(fs, gs);
  }

  // ---------------------------------------------------------------- dirlink

  /** Writing entry k, or appending it at the end. */
  function Put(slots: seq<Slot>, k: nat, slot: Slot): (r: seq<Slot>)
    requires k <= |slots|
    ensures |r| == if k < |slots| then |slots| else |slots| + 1
    ensures r[k] == slot && forall l :: 0 <= l < |slots| && l != k ==> r[l] == slots[l]
  {
    if k < |slots| then slots[k := slot] else slots + [slot]
  }

  /** Entry k is free, or the one after the last. */
  ghost predicate FreeAt(slots: seq<Slot>, k: nat) {
    2 <= k <= |slots| && (k < |slots| ==> slots[k].inum == 0)
  }

  ghost predicate Absent(slots: seq<Slot>, name: string) {
    forall k :: 0 <= k < |slots| && slots[k].inum != 0 ==> slots[k].name != Short(name)
  }

  function Entered(fs: Fs, d: nat, k: nat, slot: Slot): Fs
    requires d in fs.inodes && fs.inodes[d].Dir? && k <= |fs.inodes[d].slots|
  {
    fs.(inodes := fs.inodes[d := fs.inodes[d].(slots := Put(fs.inodes[d].slots, k, slot))])
  }

  lemma PutOk(d: nat, slots: seq<Slot>, k: nat, slot: Slot)
    requires DirOk(d, slots) && FreeAt(slots, k) && Absent(slots, slot.name) && |slot.name| <= DIRSIZ
    ensures DirOk(d, Put(slots, k, slot))
  {
  }

  /** From fs to gs one free entry of the linked directory d has been filled in. */
  ghost predicate Gains(fs: Fs, gs: Fs, d: nat, k: nat, slot: Slot) {
    && Linked(fs, d) && FreeAt(Entries(fs, d), k) && slot.inum != 0
    && (forall e :: Linked(fs, e) <==> Linked(gs, e))
    && Entries(gs, d) == Put(Entries(fs, d), k, slot)
    && (forall e :: e != d ==> Entries(gs, e) == Entries(fs, e))
  }

  lemma GainedRefs(fs: Fs, gs: Fs, d: nat, k: nat, slot: Slot, j: nat)
    requires Gains(fs, gs, d, k, slot) && j != 0
    ensures (d, k) !in Refs(fs, j)
    ensures Refs(gs, j) == if j == slot.inum then Refs(fs, j) + {(d, k)} else Refs(fs, j)
  {
    forall e: nat, l: nat
      ensures (e, l) in Refs(gs, j) <==> (e, l) in Refs(fs, j) || (j == slot.inum && e == d && l == k)
    {
      assert e != d ==> Entries(gs, e) == Entries(fs, e);
    }
  }

  lemma GainedHolds(fs: Fs, gs: Fs, d: nat, k: nat, slot: Slot)
    requires Gains(fs, gs, d, k, slot)
    ensures forall e, l, c :: Holds(gs, e, l, c) <==> Holds(fs, e, l, c) || (e == d && l == k && c == slot.inum)
  {
    forall e, l, c
      ensures Holds(gs, e, l, c) <==> Holds(fs, e, l, c) || (e == d && l == k && c == slot.inum)
    {
      assert e != d ==> Entries(gs, e) == Entries(fs, e);
    }
  }

  /** A new entry for a file keeps the tree. */
  lemma GainedTree(fs: Fs, gs: Fs, d: nat, k: nat, slot: Slot)
    requires TreeOk(fs) && Gains(fs, gs, d, k, slot)
    requires !IsDir(gs, slot.inum) && slot.inum != d && slot.inum != ROOT
    requires forall e :: Linked(fs, e) ==> Parent(fs, e) == Parent(gs, e)
    requires forall c :: IsDir(gs, c) ==> IsDir(fs, c)
    ensures TreeOk(gs)
  {
    hide Holds, Linked, Entries, Parent;
    GainedHolds(fs, gs, d, k, slot);
    forall c | Linked(gs, c) && c != ROOT
      ensures Linked(gs, Parent(gs, c)) && Held(gs, c)
    {
      assert Held(fs, c);
      var l :| Holds(fs, Parent(fs, c), l, c);
      assert Holds(gs, Parent(gs, c), l, c);
    }
  }

  /** The successful end of sys_link: the entry is there, the link no longer in flight. */
  function EnterLink(fs: Fs, d: nat, k: nat, name: string, i: nat): Fs
    requires d in fs.inodes && fs.inodes[d].Dir? && k <= |fs.inodes[d].slots|
  {
    Entered(fs, d, k, Slot(i, Short(name))).(pending := fs.pending - multiset{i})
  }

  ghost predicate CanEnter(fs: Fs, d: nat, k: nat, name: string) {
    && d in fs.inodes && fs.inodes[d].Dir? && d !in fs.limbo
    && FreeAt(fs.inodes[d].slots, k) && Absent(fs.inodes[d].slots, name)
  }

  lemma EnterLinkKeeps(fs: Fs, d: nat, k: nat, name: string, i: nat)
    requires Sound(fs) && CanEnter(fs, d, k, name) && Linked(fs, d)
    requires i in fs.inodes && fs.inodes[i].File? && fs.pending[i] > 0
    ensures Sound(EnterLink(fs, d, k, name, i))
  {
    hide TreeOk, Refs, NamesDistinct;
    var gs := EnterLink(fs, d, k, name, i);
    var slot := Slot(i, Short(name));
    PutOk(d, fs.inodes[d].slots, k, slot);
    assert Gains(fs, gs, d, k, slot);
    GainedTree(fs, gs, d, k, slot);
    forall j | j != 0
      ensures Links(gs, j) == |Refs(gs, j)| + gs.pending[j]
    {
      GainedRefs(fs, gs, d, k, slot, j);
    }
  }

  /** Entering a name in an unlinked directory is what breaks the counts. */
  lemma EnterLinkBreaks(fs: Fs, d: nat, k: nat, name: string, i: nat)
    requires Sound(fs) && CanEnter(fs, d, k, name) && !Linked(fs, d)
    requires i in fs.inodes && fs.inodes[i].File? && fs.pending[i] > 0
    ensures !Exact(EnterLink(fs, d, k, name, i))
  {
    hide Refs;
    var gs := EnterLink(fs, d, k, name, i);
    assert SameEntries(fs, gs);
    SameRefs(fs, gs, i);
    assert Links(fs, i) == |Refs(fs, i)| + fs.pending[i];
    assert Links(gs, i) != |Refs(gs, i)| + gs.pending[i];
  }

  // ---------------------------------------------------------------- sys_unlink

  /** The first part of sys_unlink: entry k of d is cleared, and a directory gives up its "..". */
  function BeginUnlink(fs: Fs, d: nat, k: nat): Fs
    requires d in fs.inodes && fs.inodes[d].Dir? && k < |fs.inodes[d].slots|
  {
    var i := fs.inodes[d].slots[k].inum;
    var cleared := Entered(fs, d, k, Slot(0, "")).(pending := fs.pending + multiset{i});
    if i in fs.inodes && fs.inodes[i].Dir? then Recount(cleared, d, -1).(limbo := fs.limbo + {i}) else cleared
  }

  /** What dirlookup and isdirempty establish before sys_unlink clears an entry. */
  ghost predicate CanClear(fs: Fs, d: nat, k: nat, i: nat) {
    Holds(fs, d, k, i) && (IsDir(fs, i) ==> EmptyDir(fs.inodes[i].slots))
  }

  /** An empty directory is named by its entry alone. */
  lemma EmptyHasOneRef(fs: Fs, d: nat, k: nat, i: nat)
    requires Sound(fs) && CanClear(fs, d, k, i) && IsDir(fs, i)
    ensures Refs(fs, i) == {(d, k)}
  {
    hide Exact, DirOk;
    forall e | Linked(fs, e) && e != ROOT
      ensures Parent(fs, e) != i
    {
      assert Held(fs, e);
      assert Parent(fs, e) == i ==> !Held(fs, e);
    }
    forall e: nat, l: nat | (e, l) in Refs(fs, i)
      ensures e == d && l == k
    {
      assert l >= 2 ==> Holds(fs, e, l, i);
    }
    assert (d, k) in Refs(fs, i);
  }

  /** The parent of a directory is named at least twice: by that directory and from above. */
  lemma ParentHasTwoRefs(fs: Fs, d: nat, k: nat, i: nat)
    requires Sound(fs) && Holds(fs, d, k, i) && IsDir(fs, i)
    ensures Linked(fs, i) && Parent(fs, i) == d && (i, 1) in Refs(fs, d) && |Refs(fs, d)| >= 2
  {
    hide Exact;
    assert DirOk(i, fs.inodes[i].slots);
    assert (i, 1) in Refs(fs, d);
    var other: (nat, nat);
    if d == ROOT {
      assert DirOk(d, fs.inodes[d].slots);
      other := (ROOT, 1);
    } else {
      assert Held(fs, d);
      var l :| Holds(fs, Parent(fs, d), l, d);
      other := (Parent(fs, d), l);
    }
    assert other in Refs(fs, d) && other != (i, 1);
    assert {other, (i, 1)} <= Refs(fs, d);
    SubsetSize({other, (i, 1)}, Refs(fs, d));
  }

  /** From fs to gs entry k of d is gone, and with it a directory i is no longer linked. */
  ghost predicate Loses(fs: Fs, gs: Fs, d: nat, k: nat, i: nat) {
    && CanClear(fs, d, k, i) && i != d
    && (forall e :: Linked(gs, e) <==> Linked(fs, e) && !(IsDir(fs, i) && e == i))
    && Entries(gs, d) == Entries(fs, d)[k := Slot(0, "")]
    && (forall e :: e != d ==> Entries(gs, e) == if IsDir(fs, i) && e == i then [] else Entries(fs, e))
  }

  lemma ExactAt(fs: Fs, i: nat)
    requires Exact(fs) && i != 0
    ensures Links(fs, i) == |Refs(fs, i)| + fs.pending[i]
  {
  }

  lemma NotExact(fs: Fs, i: nat)
    requires i != 0 && Links(fs, i) != |Refs(fs, i)| + fs.pending[i]
    ensures !Exact(fs)
  {
  }

  lemma UnlinkLoses(fs: Fs, d: nat, k: nat, i: nat)
    requires Sound(fs) && CanClear(fs, d, k, i)
    ensures Loses(fs, BeginUnlink(fs, d, k), d, k, i)
  {
    hide Exact, Refs, DirOk, Held;
    assert d != i;
    if IsDir(fs, i) {
      ParentHasTwoRefs(fs, d, k, i);
      ExactAt(fs, d);
    }
    hide TreeOk, DirsOk;
  }

  lemma LostRefs(fs: Fs, gs: Fs, d: nat, k: nat, i: nat, j: nat)
    requires Loses(fs, gs, d, k, i) && j != 0 && (IsDir(fs, i) ==> Parent(fs, i) == d && Linked(fs, i))
    ensures Refs(gs, j) ==
      Refs(fs, j) - (if j == i then {(d, k)} else {}) - (if j == d && IsDir(fs, i) then {(i, 1)} else {})
  {
    forall e: nat, l: nat
      ensures (e, l) in Refs(gs, j) <==>
        (e, l) in Refs(fs, j) && !(j == i && e == d && l == k) && !(j == d && IsDir(fs, i) && e == i && l == 1)
    {
      if e == i && IsDir(fs, i) {
        assert Entries(gs, i) == [];
      } else {
        assert e != d ==> Entries(gs, e) == Entries(fs, e);
      }
    }
  }

  lemma LostHolds(fs: Fs, gs: Fs, d: nat, k: nat, i: nat)
    requires Loses(fs, gs, d, k, i)
    ensures forall e, l, c :: Holds(gs, e, l, c) <==> Holds(fs, e, l, c) && !(e == d && l == k)
  {
    forall e, l, c
      ensures Holds(gs, e, l, c) <==> Holds(fs, e, l, c) && !(e == d && l == k)
    {
      if e != d {
        assert Entries(gs, e) == if IsDir(fs, i) && e == i then [] else Entries(fs, e);
      }
    }
  }

  lemma LostTree(fs: Fs, gs: Fs, d: nat, k: nat, i: nat)
    requires TreeOk(fs) && Loses(fs, gs, d, k, i)
    requires forall e :: Parent(fs, e) == Parent(gs, e) && (IsDir(gs, e) <==> IsDir(fs, e))
    ensures TreeOk(gs)
  {
    LostHolds(fs, gs, d, k, i);
    assert !Linked(gs, i);
    assert IsDir(fs, i) ==> forall l, c :: !Holds(fs, i, l, c);
    hide Entries, Parent, IsDir, Holds, Linked;
    forall c | Linked(gs, c) && c != ROOT
      ensures Linked(gs, Parent(gs, c)) && Held(gs, c)
    {
      assert Linked(fs, c) && Held(fs, c);
      var l :| Holds(fs, Parent(fs, c), l, c);
      assert c != i ==> Holds(gs, Parent(gs, c), l, c);
    }
  }

  lemma UnlinkDirs(fs: Fs, d: nat, k: nat, i: nat)
    requires Sound(fs) && CanClear(fs, d, k, i)
    ensures DirsOk(BeginUnlink(fs, d, k))
  {
    hide Refs, TreeOk;
    UnlinkLoses(fs, d, k, i);
    assert DirOk(d, fs.inodes[d].slots);
    assert DirOk(d, fs.inodes[d].slots[k := Slot(0, "")]);
    ExactAt(fs, i);
    if IsDir(fs, i) {
      ParentHasTwoRefs(fs, d, k, i);
      EmptyHasOneRef(fs, d, k, i);
    }
  }

  lemma UnlinkLinks(fs: Fs, d: nat, k: nat, i: nat, j: nat)
    requires Holds(fs, d, k, i) && i in fs.inodes && i != d
    ensures var gs := BeginUnlink(fs, d, k);
      && Links(gs, j) == Links(fs, j) - (if j == d && IsDir(fs, i) then 1 else 0)
      && gs.pending[j] == fs.pending[j] + (if j == i then 1 else 0)
  {
  }

  lemma UnlinkExact(fs: Fs, d: nat, k: nat, i: nat, j: nat)
    requires Sound(fs) && CanClear(fs, d, k, i) && j != 0
    ensures var gs := BeginUnlink(fs, d, k); Links(gs, j) == |Refs(gs, j)| + gs.pending[j]
  {
    NamedIsAllocated(fs, d, k);
    assert i in fs.inodes && (d, k) in Refs(fs, i) by { RefIn(fs, d, k); }
    hide BeginUnlink, Refs, Exact, TreeOk, DirsOk, Linked, Entries, Links, EmptyDir;
    var gs := BeginUnlink(fs, d, k);
    UnlinkLoses(fs, d, k, i);
    if IsDir(fs, i) {
      ParentHasTwoRefs(fs, d, k, i);
    }
    ExactAt(fs, j);
    UnlinkLinks(fs, d, k, i, j);
    LostRefs(fs, gs, d, k, i, j);
  }

  lemma BeginUnlinkKeeps(fs: Fs, d: nat, k: nat, i: nat)
    requires Sound(fs) && CanClear(fs, d, k, i)
    ensures Sound(BeginUnlink(fs, d, k))
  {
    hide Refs, DirOk, EmptyDir, Links;
    var gs := BeginUnlink(fs, d, k);
    UnlinkDirs(fs, d, k, i);
    forall j | j != 0
      ensures Links(gs, j) == |Refs(gs, j)| + gs.pending[j]
    {
      UnlinkExact(fs, d, k, i, j);
    }
    hide Linked, DirsOk, Loses;
    UnlinkLoses(fs, d, k, i);
    assert forall e :: Parent(fs, e) == Parent(gs, e) && (IsDir(gs, e) <==> IsDir(fs, e));
    LostTree(fs, gs, d, k, i);
  }

  /** The second part of sys_unlink: the count of the removed inode goes down. */
  function FinishUnlink(fs: Fs, i: nat): Fs
    requires i in fs.inodes
  {
    UndoLink(fs, i).(limbo := fs.limbo - {i})
  }

  lemma FinishUnlinkKeeps(fs: Fs, i: nat)
    requires Sound(fs) && i in fs.inodes && fs.pending[i] > 0
    ensures Sound(FinishUnlink(fs, i))
  {
    hide TreeOk, Refs, DirOk, EmptyDir;
    var gs := FinishUnlink(fs, i);
    assert SameEntries(fs, gs);
    SameExact(fs, gs);
    SameTree(fs, gs);
  }

  // ---------------------------------------------------------------- create

  function Dots(i: nat, parent: nat): seq<Slot> {
    [Slot(i, "."), Slot(parent, "..")]
  }

  /** create: a new inode n with one link, entered in d; a directory also links back to d. */
  function Created(fs: Fs, d: nat, k: nat, name: string, n: nat, kind: Kind): Fs
    requires d in fs.inodes && fs.inodes[d].Dir? && k <= |fs.inodes[d].slots|
  {
    var entered := Entered(if kind.Directory? then Recount(fs, d, 1) else fs, d, k, Slot(n, Short(name)));
    entered.(inodes := entered.inodes[n := if kind.Directory? then Dir(1, Dots(n, d)) else File(1, kind.Device?)])
  }

  lemma UnallocatedIsUnnamed(fs: Fs, n: nat)
    requires Sound(fs) && n !in fs.inodes && n != 0
    ensures Refs(fs, n) == {} && fs.pending[n] == 0
  {
    ExactAt(fs, n);
  }

  /** A new file not entered anywhere yet is a link in flight. */
  function Made(fs: Fs, n: nat, device: bool): Fs {
    fs.(inodes := fs.inodes[n := File(1, device)], pending := fs.pending + multiset{n})
  }

  lemma MadeKeeps(fs: Fs, n: nat, device: bool)
    requires Sound(fs) && n !in fs.inodes && n != 0
    ensures Sound(Made(fs, n, device)) && SameEntries(fs, Made(fs, n, device))
  {
    hide Refs, TreeOk, DirOk, EmptyDir;
    UnallocatedIsUnnamed(fs, n);
    SameExact(fs, Made(fs, n, device));
    SameTree(fs, Made(fs, n, device));
  }

  lemma CreateFileKeeps(fs: Fs, d: nat, k: nat, name: string, n: nat, kind: Kind)
    requires Sound(fs) && CanEnter(fs, d, k, name) && Linked(fs, d) && n !in fs.inodes && n != 0 && !kind.Directory?
    ensures Sound(Created(fs, d, k, name, n, kind))
  {
    hide Sound, Linked, Entries, Absent;
    var made := Made(fs, n, kind.Device?);
    MadeKeeps(fs, n, kind.Device?);
    assert made.pending[n] > 0;
    EnterLinkKeeps(made, d, k, name, n);
    var gs := Created(fs, d, k, name, n, kind);
    var es := EnterLink(made, d, k, name, n);
    assert es.pending == fs.pending;
    assert es.inodes == gs.inodes;
  }

  /** From fs to gs the linked directory d has gained the new directory i. */
  ghost predicate GainsDir(fs: Fs, gs: Fs, d: nat, k: nat, slot: Slot) {
    var i := slot.inum;
    && Linked(fs, d) && FreeAt(Entries(fs, d), k) && i != 0 && i != d && !Linked(fs, i)
    && (forall e :: Linked(gs, e) <==> Linked(fs, e) || e == i)
    && Entries(gs, d) == Put(Entries(fs, d), k, slot)
    && (forall e :: e != d ==> Entries(gs, e) == if e == i then Dots(i, d) else Entries(fs, e))
  }

  lemma GainedDirRefs(fs: Fs, gs: Fs, d: nat, k: nat, slot: Slot, j: nat)
    requires GainsDir(fs, gs, d, k, slot) && j != 0
    ensures (d, k) !in Refs(fs, j) && (slot.inum, 1) !in Refs(fs, j)
    ensures Refs(gs, j) ==
      Refs(fs, j) + (if j == slot.inum then {(d, k)} else {}) + (if j == d then {(slot.inum, 1)} else {})
  {
    var i := slot.inum;
    forall e: nat, l: nat
      ensures (e, l) in Refs(gs, j) <==>
        (e, l) in Refs(fs, j) || (j == i && e == d && l == k) || (j == d && e == i && l == 1)
    {
      if e != d {
        assert Entries(gs, e) == if e == i then Dots(i, d) else Entries(fs, e);
      }
    }
  }

  lemma GainedDirHolds(fs: Fs, gs: Fs, d: nat, k: nat, slot: Slot)
    requires GainsDir(fs, gs, d, k, slot) && Refs(fs, slot.inum) == {}
    ensures forall e, l, c :: Holds(gs, e, l, c) <==> Holds(fs, e, l, c) || (e == d && l == k && c == slot.inum)
    ensures forall e, l :: !Holds(fs, e, l, slot.inum)
  {
    var i := slot.inum;
    forall e, l, c
      ensures Holds(gs, e, l, c) <==> Holds(fs, e, l, c) || (e == d && l == k && c == i)
    {
      if e != d {
        assert Entries(gs, e) == if e == i then Dots(i, d) else Entries(fs, e);
      }
    }
    forall e: nat, l: nat
      ensures !Holds(fs, e, l, i)
    {
      assert Holds(fs, e, l, i) ==> (e, l) in Refs(fs, i);
    }
  }

  lemma GainedDirTree(fs: Fs, gs: Fs, d: nat, k: nat, slot: Slot)
    requires TreeOk(fs) && GainsDir(fs, gs, d, k, slot) && slot.inum != ROOT
    requires Refs(fs, slot.inum) == {} && Parent(gs, slot.inum) == d
    requires forall e :: Linked(fs, e) ==> Parent(fs, e) == Parent(gs, e)
    requires forall c :: IsDir(gs, c) ==> IsDir(fs, c) || c == slot.inum
    ensures TreeOk(gs)
  {
    hide Holds, Linked, Entries, Parent, Refs, IsDir;
    var i := slot.inum;
    GainedDirHolds(fs, gs, d, k, slot);
    forall c | Linked(gs, c) && c != ROOT
      ensures Linked(gs, Parent(gs, c)) && Held(gs, c)
    {
      if c == i {
        assert Holds(gs, d, k, i);
      } else {
        assert Held(fs, c);
        var l :| Holds(fs, Parent(fs, c), l, c);
        assert Holds(gs, Parent(gs, c), l, c);
      }
    }
  }

  lemma CreateDirDirs(fs: Fs, d: nat, k: nat, name: string, n: nat)
    requires DirsOk(fs) && CanEnter(fs, d, k, name) && Linked(fs, d) && n !in fs.inodes && n != 0 && fs.pending[n] == 0
    ensures DirsOk(Created(fs, d, k, name, n, Directory))
  {
    PutOk(d, fs.inodes[d].slots, k, Slot(n, Short(name)));
    DotsOk(n, d);
    hide DirOk, EmptyDir, Put, Absent, Short, Dots;
  }

  lemma CreateDirGains(fs: Fs, d: nat, k: nat, name: string, n: nat)
    requires DirsOk(fs) && CanEnter(fs, d, k, name) && Linked(fs, d) && n !in fs.inodes && n != 0
    ensures GainsDir(fs, Created(fs, d, k, name, n, Directory), d, k, Slot(n, Short(name)))
  {
    hide DirOk, EmptyDir, Put, Absent, Short;
  }

  lemma CreateDirKeeps(fs: Fs, d: nat, k: nat, name: string, n: nat)
    requires Sound(fs) && CanEnter(fs, d, k, name) && Linked(fs, d) && n !in fs.inodes && n != 0
    ensures Sound(Created(fs, d, k, name, n, Directory))
  {
    hide TreeOk, Refs, Linked, Entries, Absent, GainsDir;
    var gs := Created(fs, d, k, name, n, Directory);
    var slot := Slot(n, Short(name));
    UnallocatedIsUnnamed(fs, n);
    CreateDirDirs(fs, d, k, name, n);
    CreateDirGains(fs, d, k, name, n);
    forall j | j != 0
      ensures Links(gs, j) == |Refs(gs, j)| + gs.pending[j]
    {
      ExactAt(fs, j);
      GainedDirRefs(fs, gs, d, k, slot, j);
    }
    CreateDirParents(fs, d, k, name, n);
    GainedDirTree(fs, gs, d, k, slot);
  }

  lemma CreateDirParents(fs: Fs, d: nat, k: nat, name: string, n: nat)
    requires CanEnter(fs, d, k, name) && n !in fs.inodes
    ensures var gs := Created(fs, d, k, name, n, Directory);
      && Parent(gs, n) == d
      && (forall e :: Linked(fs, e) ==> Parent(fs, e) == Parent(gs, e))
      && (forall c :: IsDir(gs, c) ==> IsDir(fs, c) || c == n)
  {
  }

  lemma DotsOk(i: nat, d: nat)
    requires d != 0
    ensures DirOk(i, Dots(i, d)) && EmptyDir(Dots(i, d))
  {
  }

  lemma CreateFileBreaks(fs: Fs, d: nat, k: nat, name: string, n: nat, kind: Kind)
    requires Sound(fs) && CanEnter(fs, d, k, name) && !Linked(fs, d) && n !in fs.inodes && n != 0 && !kind.Directory?
    ensures !Exact(Created(fs, d, k, name, n, kind))
  {
    hide Refs, TreeOk, Exact, DirOk, EmptyDir;
    var gs := Created(fs, d, k, name, n, kind);
    UnallocatedIsUnnamed(fs, n);
    assert SameEntries(fs, gs);
    SameRefs(fs, gs, n);
    NotExact(gs, n);
  }

  /** The entries that count after mkdir in an unlinked directory d. */
  lemma RevivedRefs(fs: Fs, d: nat, k: nat, name: string, n: nat)
    requires Sound(fs) && CanEnter(fs, d, k, name) && fs.inodes[d].nlink == 0 && n !in fs.inodes && n != 0
    ensures var gs := Created(fs, d, k, name, n, Directory);
      && (d, 1) in Refs(gs, Parent(fs, d)) && (n, 1) in Refs(gs, d) && (d, k) in Refs(gs, n)
      && forall q :: Refs(fs, q) <= Refs(gs, q) && (d, 1) !in Refs(fs, q)
  {
    hide Exact, TreeOk, NamesDistinct;
    var gs := Created(fs, d, k, name, n, Directory);
    assert DirOk(d, fs.inodes[d].slots);
    assert Linked(gs, d) && Linked(gs, n);
    assert Entries(gs, d)[1] == fs.inodes[d].slots[1] && Entries(gs, n) == Dots(n, d);
    forall q, e: nat, l: nat | (e, l) in Refs(fs, q)
      ensures (e, l) in Refs(gs, q) && e != d
    {
      assert Linked(fs, e) && Entries(gs, e) == Entries(fs, e);
    }
  }

  lemma RevivedLinks(fs: Fs, d: nat, k: nat, name: string, n: nat, j: nat)
    requires CanEnter(fs, d, k, name) && fs.inodes[d].nlink == 0 && n !in fs.inodes
    ensures var gs := Created(fs, d, k, name, n, Directory);
      Links(gs, j) == (if j == d || j == n then 1 else Links(fs, j)) && gs.pending == fs.pending
  {
  }

  /** mkdir in an unlinked directory revives it, and its ".." counts again without being counted. */
  lemma CreateDirBreaks(fs: Fs, d: nat, k: nat, name: string, n: nat)
    requires Sound(fs) && CanEnter(fs, d, k, name) && fs.inodes[d].nlink == 0 && n !in fs.inodes && n != 0
    ensures !Exact(Created(fs, d, k, name, n, Directory))
  {
    var gs := Created(fs, d, k, name, n, Directory);
    var q := Parent(fs, d);
    assert q != 0 by { assert DirOk(d, fs.inodes[d].slots); }
    RevivedRefs(fs, d, k, name, n);
    ExactAt(fs, q);
    RevivedLinks(fs, d, k, name, n, q);
    hide Created, Links, Refs, Linked, Entries, Parent, DirsOk, TreeOk, Exact;
    assert k != 1;
    if q == d {
      SubsetSize({(d, 1), (n, 1)}, Refs(gs, d));
    } else if q == n {
      SubsetSize({(d, 1), (d, k)}, Refs(gs, n));
    } else {
      SubsetSize(Refs(fs, q) + {(d, 1)}, Refs(gs, q));
    }
    assert Links(gs, q) < |Refs(gs, q)| + gs.pending[q];
    NotExact(gs, q);
  }
}
