/**
 The directory operations of sysfile.c and fs.c over the inodes of one disk. Each method is one
 lock-protected section; Link and Unlink put the sections of sys_link and sys_unlink together.
 */
module Directories {
  import opened DirectoryTree

  datatype Removal = Removed(inum: nat) | Refused

  datatype Creation = Existing(inum: nat) | New(inum: nat) | Taken | NoInodes

  class FileTree {
    const ninodes: nat
    var inodes: map<nat, Inode>
    ghost var pending: multiset<nat>
    ghost var limbo: set<nat>

    ghost function State(): Fs
      reads this
    {
      Fs(inodes, pending, limbo)
    }

    ghost predicate Valid()
      reads this
    {
      Sound(State())
    }

    ghost predicate IsDirectory(d: nat)
      reads this
    {
      d in inodes && inodes[d].Dir?
    }

    /** The empty file system that mkfs writes. */
    constructor (n: nat)
      requires n > ROOT
      ensures Valid() && ninodes == n && inodes == map[ROOT := Dir(1, Dots(ROOT, ROOT))]
      ensures pending == multiset{} && limbo == {}
    {
      ninodes := n;
      inodes := map[ROOT := Dir(1, Dots(ROOT, ROOT))];
      pending := multiset{};
      limbo := {};
      new;
      EmptySound(State());
    }

    /** dirlookup: the entry with this name, or -1. */
    method Dirlookup(d: nat, name: string) returns (k: int)
      requires IsDirectory(d)
      ensures k < 0 ==> Absent(inodes[d].slots, name)
      ensures 0 <= k ==> k < |inodes[d].slots| && inodes[d].slots[k].inum != 0 && inodes[d].slots[k].name == Short(name)
    {
      var slots := inodes[d].slots;
      k := 0;
      while k < |slots|
        invariant 0 <= k <= |slots|
        invariant forall l :: 0 <= l < k && slots[l].inum != 0 ==> slots[l].name != Short(name)
      {
        if slots[k].inum != 0 && slots[k].name == Short(name) {
          return;
        }
        k := k + 1;
      }
      k := -1;
    }

    /** The second loop of dirlink: the first free entry, or the end of the directory. */
    method FindFree(d: nat) returns (k: nat)
      requires Valid() && IsDirectory(d)
      ensures FreeAt(inodes[d].slots, k)
      ensures forall l :: 0 <= l < k ==> inodes[d].slots[l].inum != 0
    {
      hide Sound;
      SoundDir(State(), d);
      var slots := inodes[d].slots;
      k := 0;
      while k < |slots| && slots[k].inum != 0
        invariant 0 <= k <= |slots| && forall l :: 0 <= l < k ==> slots[l].inum != 0
      {
        k := k + 1;
      }
    }

    method IsDirEmpty(d: nat) returns (empty: bool)
      requires IsDirectory(d) && |inodes[d].slots| >= 2
      ensures empty <==> EmptyDir(inodes[d].slots)
    {
      var slots := inodes[d].slots;
      var k := 2;
      while k < |slots|
        invariant 2 <= k <= |slots| && forall l :: 2 <= l < k ==> slots[l].inum == 0
      {
        if slots[k].inum != 0 {
          return false;
        }
        k := k + 1;
      }
      return true;
    }

    /** ialloc: the lowest free inode number; 0 where the kernel panics. */
    method Ialloc() returns (n: nat)
      ensures n != 0 ==> n < ninodes && n !in inodes && forall i :: 1 <= i < n ==> i in inodes
      ensures n == 0 ==> forall i :: 1 <= i < ninodes ==> i in inodes
    {
      n := 1;
      while n < ninodes
        invariant 1 <= n && forall i :: 1 <= i < n && i < ninodes ==> i in inodes
      {
        if n !in inodes {
          return;
        }
        n := n + 1;
      }
      n := 0;
    }

    /** sys_link up to the release of ip: the count goes up first. */
    method StartLink(i: nat) returns (ok: bool)
      requires Valid() && i in inodes
      modifies this
      ensures Valid() && ok == old(inodes)[i].File?
      ensures State() == if ok then BeginLink(old(State()), i) else old(State())
    {
      hide Sound;
      if inodes[i].Dir? {
        return false;
      }
      BeginLinkKeeps(State(), i);
      inodes := inodes[i := File(inodes[i].nlink + 1, inodes[i].device)];
      pending := pending + multiset{i};
      return true;
    }

    /** dirlink for a link in flight. */
    method FinishLink(d: nat, name: string, i: nat) returns (ok: bool)
      requires Valid() && IsDirectory(d) && d !in limbo
      requires i in inodes && inodes[i].File? && pending[i] > 0
      modifies this
      ensures ok <==> Absent(old(inodes)[d].slots, name)
      ensures !ok ==> State() == old(State())
      ensures ok ==> exists k :: FreeAt(old(inodes)[d].slots, k) && State() == EnterLink(old(State()), d, k, name, i)
      ensures Valid() <==> !ok || old(inodes)[d].nlink > 0
    {
      hide Sound;
      var found := Dirlookup(d, name);
      if found >= 0 {
        return false;
      }
      var k := FindFree(d);
      if inodes[d].nlink > 0 {
        EnterLinkKeeps(State(), d, k, name, i);
      } else {
        EnterLinkBreaks(State(), d, k, name, i);
        SoundExact(EnterLink(State(), d, k, name, i));
      }
      inodes := inodes[d := inodes[d].(slots := Put(inodes[d].slots, k, Slot(i, Short(name))))];
      pending := pending - multiset{i};
      return true;
    }

    /** The bad exit of sys_link. */
    method CancelLink(i: nat)
      requires Valid() && i in inodes && inodes[i].File? && pending[i] > 0
      modifies this
      ensures Valid() && State() == UndoLink(old(State()), i)
    {
      hide Sound;
      UndoLinkKeeps(State(), i);
      inodes := inodes[i := File(inodes[i].nlink - 1, inodes[i].device)];
      pending := pending - multiset{i};
    }

    /** sys_link on the inode of the old path and the directory of the new one. */
    method Link(i: nat, d: nat, name: string) returns (ok: bool)
      requires Valid() && i in inodes && IsDirectory(d) && d !in limbo
      modifies this
      ensures ok <==> old(inodes)[i].File? && Absent(old(inodes)[d].slots, name)
      ensures !ok ==> State() == old(State())
      ensures ok ==> pending == old(pending) && limbo == old(limbo) && Entered1(old(State()), State(), d, name, i)
      ensures Valid() <==> !ok || old(inodes)[d].nlink > 0
    {
      hide Sound, Absent;
      ghost var was := State();
      ok := StartLink(i);
      if ok {
        ok := FinishLink(d, name, i);
        if !ok {
          CancelLink(i);
          assert inodes == was.inodes;
          assert pending == was.pending;
        } else {
          assert pending == was.pending;
        }
      }
    }

    /** sys_unlink up to the release of dp. A count below one, which panics, never occurs. */
    method StartUnlink(d: nat, name: string) returns (r: Removal)
      requires Valid() && IsDirectory(d) && d !in limbo
      modifies this
      ensures Valid()
      ensures r.Refused? ==> State() == old(State())
      ensures r.Refused? <==>
        name == "." || name == ".." || Absent(old(inodes)[d].slots, name) || HoldsFullDir(old(State()), d, name)
      ensures r.Removed? ==> Cleared(old(State()), State(), d, name, r.inum)
      ensures r.Removed? ==> r.inum in inodes && pending[r.inum] > 0
    {
      hide Sound;
      if Short(name) == "." || Short(name) == ".." {
        return Refused;
      }
      var k := Dirlookup(d, name);
      if k < 0 {
        return Refused;
      }
      SoundDir(State(), d);
      EntryFacts(State(), d, k);
      var i := inodes[d].slots[k].inum;
      assert inodes[i].nlink >= 1;
      if inodes[i].Dir? {
        SoundDir(State(), i);
        var empty := IsDirEmpty(i);
        if !empty {
          return Refused;
        }
      }
      BeginUnlinkKeeps(State(), d, k, i);
      OnlyEntry(State(), d, k, name);
      ghost var after := BeginUnlink(State(), d, k);
      inodes := inodes[d := Dir(inodes[d].nlink, inodes[d].slots[k := Slot(0, "")])];
      pending := pending + multiset{i};
      if inodes[i].Dir? {
        inodes := inodes[d := Dir(inodes[d].nlink - 1, inodes[d].slots)];
        limbo := limbo + {i};
      }
      assert inodes == after.inodes;
      assert State() == after;
      return Removed(i);
    }

    /** The rest of sys_unlink. */
    method EndUnlink(i: nat)
      requires Valid() && i in inodes && pending[i] > 0
      modifies this
      ensures Valid() && State() == FinishUnlink(old(State()), i)
    {
      hide Sound;
      FinishUnlinkKeeps(State(), i);
      var lowered := match inodes[i]
        case File(n, device) => File(n - 1, device)
        case Dir(n, slots) => Dir(n - 1, slots);
      inodes := inodes[i := lowered];
      pending := pending - multiset{i};
      limbo := limbo - {i};
    }

    /** sys_unlink. */
    method Unlink(d: nat, name: string) returns (r: Removal)
      requires Valid() && IsDirectory(d) && d !in limbo
      modifies this
      ensures Valid()
      ensures r.Refused? ==> State() == old(State())
      ensures r.Refused? <==>
        name == "." || name == ".." || Absent(old(inodes)[d].slots, name) || HoldsFullDir(old(State()), d, name)
      ensures r.Removed? ==> Unlinked(old(State()), State(), d, name, r.inum)
    {
      hide Sound, Absent, HoldsFullDir;
      ghost var was := State();
      r := StartUnlink(d, name);
      if r.Removed? {
        BothParts(was, State(), d, name, r.inum);
        EndUnlink(r.inum);
      }
    }

    /** iput of an inode; last says whether this is the only reference to it. */
    method Iput(i: nat, last: bool)
      requires Valid() && i in inodes
      modifies this
      ensures Valid() && State() == if last && old(inodes)[i].nlink == 0 then Freed(old(State()), i) else old(State())
      ensures i !in inodes <==> last && old(inodes)[i].nlink == 0
      ensures forall j :: j != i ==> (j in inodes <==> j in old(inodes))
      ensures forall j :: j in inodes ==> inodes[j] == old(inodes)[j]
      ensures i !in inodes ==> forall d, k :: 0 <= k < |Entries(State(), d)| ==> Entries(State(), d)[k].inum != i
    {
      hide Sound;
      if last && inodes[i].nlink == 0 {
        FreedKeeps(State(), i);
        SoundLinks(State(), i);
        inodes := inodes - {i};
        GoneIsUnnamed(State(), i);
      }
    }

    /** create, under the lock of the directory d. */
    method Create(d: nat, name: string, kind: Kind) returns (r: Creation)
      requires Valid() && IsDirectory(d) && d !in limbo
      modifies this
      ensures r.New? ==> Absent(old(inodes)[d].slots, name) && r.inum !in old(inodes) && 0 < r.inum < ninodes
      ensures r.New? ==> exists k ::
        FreeAt(old(inodes)[d].slots, k) && State() == Created(old(State()), d, k, name, r.inum, kind)
      ensures r.New? ==> r.inum in inodes && OfKind(inodes[r.inum], kind, r.inum, d)
      ensures r.New? || State() == old(State())
      ensures r.Existing? || r.Taken? ==> !Absent(inodes[d].slots, name)
      ensures r.Existing? ==> kind.Regular? && NamesRegular(old(State()), d, name, r.inum)
      ensures r.Taken? && kind.Regular? ==> forall i :: !NamesRegular(old(State()), d, name, i)
      ensures r.NoInodes? ==> Absent(inodes[d].slots, name) && forall i :: 1 <= i < ninodes ==> i in inodes
      ensures Valid() <==> !r.New? || old(inodes)[d].nlink > 0
    {
      hide Sound;
      var found := Dirlookup(d, name);
      if found >= 0 {
        var i := inodes[d].slots[found].inum;
        OnlyEntry(State(), d, found, name);
        return if kind.Regular? && i in inodes && inodes[i].File? && !inodes[i].device then Existing(i) else Taken;
      }
      var n := Ialloc();
      if n == 0 {
        return NoInodes;
      }
      var k := FindFree(d);
      EnterNew(d, k, name, n, kind);
      return New(n);
    }

    /** The end of create: the new inode n, the count of the parent, and the entry. */
    method EnterNew(d: nat, k: nat, name: string, n: nat, kind: Kind)
      requires Valid() && CanEnter(State(), d, k, name) && n !in inodes && n != 0
      modifies this
      ensures State() == Created(old(State()), d, k, name, n, kind)
      ensures n in inodes && OfKind(inodes[n], kind, n, d)
      ensures Valid() <==> old(inodes)[d].nlink > 0
    {
      hide Sound, Absent;
      ghost var after := Created(State(), d, k, name, n, kind);
      CreateExactly(State(), d, k, name, n, kind);
      inodes := inodes[n := if kind.Directory? then Dir(1, Dots(n, d)) else File(1, kind.Device?)];
      if kind.Directory? {
        inodes := inodes[d := Dir(inodes[d].nlink + 1, inodes[d].slots)];
      }
      inodes := inodes[d := Dir(inodes[d].nlink, Put(inodes[d].slots, k, Slot(n, Short(name))))];
      assert inodes == after.inodes;
    }
  }

  /** A new inode of the kind asked for: a directory with only its dots, or a file or device. */
  ghost predicate OfKind(ip: Inode, kind: Kind, i: nat, d: nat) {
    && ip.nlink == 1
    && (ip.Dir? <==> kind == Directory)
    && (ip.Dir? ==> ip.slots == [Slot(i, "."), Slot(d, "..")])
    && (ip.File? ==> (ip.device <==> kind == Device))
  }

  /** d has gained exactly the entry `name` for i, and i one link. */
  ghost predicate Entered1(fs: Fs, gs: Fs, d: nat, name: string, i: nat) {
    && i in fs.inodes && fs.inodes[i].File? && d in fs.inodes && fs.inodes[d].Dir?
    && exists k ::
      && FreeAt(fs.inodes[d].slots, k)
      && gs.inodes == fs.inodes
           [i := File(fs.inodes[i].nlink + 1, fs.inodes[i].device)]
           [d := Dir(fs.inodes[d].nlink, Put(fs.inodes[d].slots, k, Slot(i, Short(name))))]
  }

  /** The entry `name` of d, for i, has been taken away as sys_unlink does it. */
  ghost predicate Cleared(fs: Fs, gs: Fs, d: nat, name: string, i: nat) {
    && d in fs.inodes && fs.inodes[d].Dir? && i != d
    && exists k: nat ::
      && CanClear(fs, d, k, i) && fs.inodes[d].slots[k].name == Short(name)
      && gs == BeginUnlink(fs, d, k)
  }

  /** All of sys_unlink: d has lost the entry, i a link, and d the link of a directory's "..". */
  ghost predicate Unlinked(fs: Fs, gs: Fs, d: nat, name: string, i: nat) {
    && gs.pending == fs.pending && gs.limbo == fs.limbo
    && exists k: nat ::
      && CanClear(fs, d, k, i) && fs.inodes[d].slots[k].name == Short(name) && i in fs.inodes && i != d
      && gs.inodes == fs.inodes
           [i := fs.inodes[i].(nlink := fs.inodes[i].nlink - 1)]
           [d := Dir(fs.inodes[d].nlink - (if IsDir(fs, i) then 1 else 0), fs.inodes[d].slots[k := Slot(0, "")])]
  }

  ghost predicate Named(fs: Fs, d: nat, name: string, i: nat) {
    && d in fs.inodes && fs.inodes[d].Dir? && i != 0
    && exists k :: 0 <= k < |fs.inodes[d].slots| && fs.inodes[d].slots[k] == Slot(i, Short(name))
  }

  /** The entry `name` of d is a regular file. */
  ghost predicate NamesRegular(fs: Fs, d: nat, name: string, i: nat) {
    Named(fs, d, name, i) && i in fs.inodes && fs.inodes[i].File? && !fs.inodes[i].device
  }

  /** The entry `name` of d is a directory that is not empty. */
  ghost predicate HoldsFullDir(fs: Fs, d: nat, name: string) {
    exists i :: Named(fs, d, name, i) && IsDir(fs, i) && !EmptyDir(fs.inodes[i].slots)
  }

  /** An entry found under a name other than the dots sits past them, in a linked directory. */
  lemma EntryFacts(fs: Fs, d: nat, k: nat)
    requires Sound(fs) && IsDir(fs, d) && d !in fs.limbo && k < |fs.inodes[d].slots|
    requires fs.inodes[d].slots[k].inum != 0 && fs.inodes[d].slots[k].name != "." && fs.inodes[d].slots[k].name != ".."
    ensures Holds(fs, d, k, fs.inodes[d].slots[k].inum) && fs.inodes[d].slots[k].inum != d
    ensures Links(fs, fs.inodes[d].slots[k].inum) >= 1
  {
    hide Refs, Exact;
    SoundDir(fs, d);
    assert 2 <= k;
    assert !EmptyDir(fs.inodes[d].slots);
    assert Linked(fs, d);
    NamedIsAllocated(fs, d, k);
    assert Holds(fs, d, k, fs.inodes[d].slots[k].inum);
  }

  lemma HeldIsThere(fs: Fs, d: nat, k: nat, i: nat)
    requires Sound(fs) && Holds(fs, d, k, i)
    ensures i in fs.inodes && i !in fs.limbo
  {
    hide Refs, Exact;
    NamedIsAllocated(fs, d, k);
  }

  lemma BothParts(fs: Fs, gs: Fs, d: nat, name: string, i: nat)
    requires Sound(fs) && Cleared(fs, gs, d, name, i) && i in gs.inodes
    ensures Unlinked(fs, FinishUnlink(gs, i), d, name, i)
  {
    hide Sound, EmptyDir, Short;
    var k: nat :| CanClear(fs, d, k, i) && fs.inodes[d].slots[k].name == Short(name) && gs == BeginUnlink(fs, d, k);
    HeldIsThere(fs, d, k, i);
    var hs := FinishUnlink(gs, i);
    assert hs.pending == fs.pending;
    assert hs.limbo == fs.limbo;
  }

  /** Names are unique, so the entry dirlookup finds is the only one of that name. */
  lemma OnlyEntry(fs: Fs, d: nat, k: nat, name: string)
    requires Sound(fs) && IsDir(fs, d) && k < |fs.inodes[d].slots|
    requires fs.inodes[d].slots[k].inum != 0 && fs.inodes[d].slots[k].name == Short(name)
    ensures forall i :: Named(fs, d, name, i) ==> i == fs.inodes[d].slots[k].inum
  {
    hide Sound;
    SoundDir(fs, d);
  }

  lemma GoneIsUnnamed(fs: Fs, i: nat)
    requires Sound(fs) && i !in fs.inodes
    ensures forall d, k :: 0 <= k < |Entries(fs, d)| ==> Entries(fs, d)[k].inum != i || i == 0
  {
    hide Sound;
    forall d, k | 0 <= k < |Entries(fs, d)|
      ensures Entries(fs, d)[k].inum != i || i == 0
    {
      if Entries(fs, d)[k].inum != 0 {
        NamedIsAllocated(fs, d, k);
      }
    }
  }

  /** create keeps the counts exact if and only if the directory is linked. */
  lemma CreateExactly(fs: Fs, d: nat, k: nat, name: string, n: nat, kind: Kind)
    requires Sound(fs) && CanEnter(fs, d, k, name) && n !in fs.inodes && n != 0
    ensures Sound(Created(fs, d, k, name, n, kind)) <==> fs.inodes[d].nlink > 0
  {
    hide Sound, Exact, Absent;
    if fs.inodes[d].nlink > 0 {
      if kind.Directory? {
        CreateDirKeeps(fs, d, k, name, n);
      } else {
        CreateFileKeeps(fs, d, k, name, n, kind);
      }
    } else {
      SoundExact(Created(fs, d, k, name, n, kind));
      if kind.Directory? {
        SoundLinks(fs, d);
        CreateDirBreaks(fs, d, k, name, n);
      } else {
        CreateFileBreaks(fs, d, k, name, n, kind);
      }
    }
  }

  lemma SoundLinks(fs: Fs, d: nat)
    requires Sound(fs) && d in fs.inodes
    ensures fs.inodes[d].nlink >= 0 && d != 0
  {
    ExactAt(fs, d);
  }

  lemma SoundExact(fs: Fs)
    ensures Sound(fs) ==> Exact(fs)
  {
  }

  lemma SoundDir(fs: Fs, d: nat)
    requires Sound(fs) && IsDir(fs, d)
    ensures DirOk(d, fs.inodes[d].slots) && d != 0
  {
  }

  lemma EmptySound(fs: Fs)
    requires fs == Fs(map[ROOT := Dir(1, Dots(ROOT, ROOT))], multiset{}, {})
    ensures Sound(fs)
  {
    assert Entries(fs, ROOT) == Dots(ROOT, ROOT);
    assert forall c :: Linked(fs, c) ==> c == ROOT;
    assert forall i :: i != ROOT && i != 0 ==> Refs(fs, i) == {};
    assert Refs(fs, ROOT) == {(ROOT, 1)};
  }

  // ---------------------------------------------------------------- runs

  /** The steps of any number of concurrent system calls, in the order their locks give. */
  datatype Step =
    | LinkStarts(i: nat)
    | LinkEnters(d: nat, k: nat, name: string, i: nat)
    | LinkFails(i: nat)
    | UnlinkStarts(d: nat, k: nat, i: nat)
    | UnlinkEnds(i: nat)
    | Creates(d: nat, k: nat, name: string, n: nat, kind: Kind)
    | Frees(i: nat)

  /** What the code has established before it takes a step. */
  ghost predicate Enabled(fs: Fs, step: Step) {
    match step
    case LinkStarts(i) => i in fs.inodes && fs.inodes[i].File?
    case LinkEnters(d, k, name, i) =>
      CanEnter(fs, d, k, name) && i in fs.inodes && fs.inodes[i].File? && fs.pending[i] > 0
    case LinkFails(i) => i in fs.inodes && fs.inodes[i].File? && fs.pending[i] > 0
    case UnlinkStarts(d, k, i) => CanClear(fs, d, k, i)
    case UnlinkEnds(i) => i in fs.inodes && fs.pending[i] > 0
    case Creates(d, k, name, n, _) => CanEnter(fs, d, k, name) && n !in fs.inodes && n != 0
    case Frees(i) => i in fs.inodes && fs.inodes[i].nlink == 0
  }

  /** The step adds an entry to a directory that is itself unlinked. */
  ghost predicate AddsToUnlinked(fs: Fs, step: Step) {
    (step.LinkEnters? || step.Creates?) && !Linked(fs, step.d)
  }

  ghost function Apply(fs: Fs, step: Step): Fs
    requires Enabled(fs, step)
  {
    match step
    case LinkStarts(i) => BeginLink(fs, i)
    case LinkEnters(d, k, name, i) => EnterLink(fs, d, k, name, i)
    case LinkFails(i) => UndoLink(fs, i)
    case UnlinkStarts(d, k, _) => BeginUnlink(fs, d, k)
    case UnlinkEnds(i) => FinishUnlink(fs, i)
    case Creates(d, k, name, n, kind) => Created(fs, d, k, name, n, kind)
    case Frees(i) => Freed(fs, i)
  }

  /** One step keeps the tree sound if and only if it adds nothing to an unlinked directory. */
  lemma StepExact(fs: Fs, step: Step)
    requires Sound(fs) && Enabled(fs, step)
    ensures Sound(Apply(fs, step)) <==> !AddsToUnlinked(fs, step)
  {
    hide Sound, CanEnter, CanClear;
    match step {
      case LinkStarts(i) => BeginLinkKeeps(fs, i);
      case LinkEnters(d, k, name, i) => EnterStep(fs, d, k, name, i);
      case LinkFails(i) => UndoLinkKeeps(fs, i);
      case UnlinkStarts(d, k, i) => BeginUnlinkKeeps(fs, d, k, i);
      case UnlinkEnds(i) => FinishUnlinkKeeps(fs, i);
      case Creates(d, k, name, n, kind) => CreateStep(fs, d, k, name, n, kind);
      case Frees(i) => FreedKeeps(fs, i);
    }
  }

  lemma EnterStep(fs: Fs, d: nat, k: nat, name: string, i: nat)
    requires Sound(fs) && CanEnter(fs, d, k, name) && i in fs.inodes && fs.inodes[i].File? && fs.pending[i] > 0
    ensures Sound(EnterLink(fs, d, k, name, i)) <==> Linked(fs, d)
  {
    hide Sound, Absent, Linked;
    if Linked(fs, d) {
      EnterLinkKeeps(fs, d, k, name, i);
    } else {
      EnterLinkBreaks(fs, d, k, name, i);
      SoundExact(EnterLink(fs, d, k, name, i));
    }
  }

  lemma CreateStep(fs: Fs, d: nat, k: nat, name: string, n: nat, kind: Kind)
    requires Sound(fs) && CanEnter(fs, d, k, name) && n !in fs.inodes && n != 0
    ensures Sound(Created(fs, d, k, name, n, kind)) <==> Linked(fs, d)
  {
    hide Sound, FreeAt, Absent;
    CreateExactly(fs, d, k, name, n, kind);
  }

  /** The run is possible, and no step of it adds to an unlinked directory. */
  ghost predicate GoodRun(fs: Fs, steps: seq<Step>)
    decreases |steps|
  {
    steps == [] ||
    (Enabled(fs, steps[0]) && !AddsToUnlinked(fs, steps[0]) && GoodRun(Apply(fs, steps[0]), steps[1..]))
  }

  ghost function After(fs: Fs, steps: seq<Step>): Fs
    requires GoodRun(fs, steps)
    decreases |steps|
  {
    if steps == [] then fs else After(Apply(fs, steps[0]), steps[1..])
  }

  /** Over every such run the counts stay exact, and what a linked directory names is allocated. */
  lemma {:induction false} RunsStayExact(fs: Fs, steps: seq<Step>)
    requires Sound(fs) && GoodRun(fs, steps)
    ensures Sound(After(fs, steps))
    ensures forall d, k :: 0 <= k < |Entries(After(fs, steps), d)| ==>
      Entries(After(fs, steps), d)[k].inum == 0 || Entries(After(fs, steps), d)[k].inum in After(fs, steps).inodes
    decreases |steps|
  {
    hide Sound, Enabled, AddsToUnlinked, Apply, Entries;
    if steps == [] {
      forall d, k | 0 <= k < |Entries(fs, d)|
        ensures Entries(fs, d)[k].inum == 0 || Entries(fs, d)[k].inum in fs.inodes
      {
        if Entries(fs, d)[k].inum != 0 {
          NamedIsAllocated(fs, d, k);
        }
      }
    } else {
      StepExact(fs, steps[0]);
      RunsStayExact(Apply(fs, steps[0]), steps[1..]);
    }
  }

  /** The empty disk, and the disk after mkdir /a followed by unlink /a while /a is still in use. */
  function Fresh(): Fs {
    Fs(map[ROOT := Dir(1, Dots(ROOT, ROOT))], multiset{}, {})
  }

  function AfterRemoval(): Fs {
    Fs(map[ROOT := Dir(1, Dots(ROOT, ROOT) + [Slot(0, "")]), 2 := Dir(0, Dots(2, ROOT))], multiset{}, {})
  }

  lemma RemovalRun()
    ensures var made := Creates(ROOT, 2, "a", 2, Directory);
      && Enabled(Fresh(), made) && !AddsToUnlinked(Fresh(), made)
      && Enabled(Apply(Fresh(), made), UnlinkStarts(ROOT, 2, 2))
      && Enabled(Apply(Apply(Fresh(), made), UnlinkStarts(ROOT, 2, 2)), UnlinkEnds(2))
      && Apply(Apply(Apply(Fresh(), made), UnlinkStarts(ROOT, 2, 2)), UnlinkEnds(2)) == AfterRemoval()
  {
    var fs1 := Apply(Fresh(), Creates(ROOT, 2, "a", 2, Directory));
    assert fs1.inodes == map[ROOT := Dir(2, Dots(ROOT, ROOT) + [Slot(2, "a")]), 2 := Dir(1, Dots(2, ROOT))];
    assert Entries(fs1, ROOT)[2].inum == 2;
    var fs2 := Apply(fs1, UnlinkStarts(ROOT, 2, 2));
    assert Dots(ROOT, ROOT) + [Slot(0, "")] == (Dots(ROOT, ROOT) + [Slot(2, "a")])[2 := Slot(0, "")];
    assert fs2.inodes == map[ROOT := Dir(1, Dots(ROOT, ROOT) + [Slot(0, "")]), 2 := Dir(1, Dots(2, ROOT))];
    assert fs2.pending == multiset{2} && fs2.limbo == {2};
    var fs3 := Apply(fs2, UnlinkEnds(2));
    assert fs3.inodes == AfterRemoval().inodes;
    assert fs3.pending == multiset{} && fs3.limbo == {};
  }

  /** A file created there has a link no directory accounts for, and outlives the directory. */
  lemma OrphanedFile()
    ensures var creates := Creates(2, 2, "f", 3, Regular);
      && Enabled(AfterRemoval(), creates) && AddsToUnlinked(AfterRemoval(), creates)
      && var fs := Apply(AfterRemoval(), creates);
        && Enabled(fs, Frees(2))
        && Links(Apply(fs, Frees(2)), 3) == 1 && Refs(Apply(fs, Frees(2)), 3) == {}
  {
    var creates := Creates(2, 2, "f", 3, Regular);
    assert Short("f") == "f";
    var fs := Apply(AfterRemoval(), creates);
    assert fs.inodes[3] == File(1, false) && fs.inodes[2].nlink == 0;
    var gs := Apply(fs, Frees(2));
    assert gs.inodes[ROOT].slots == Dots(ROOT, ROOT) + [Slot(0, "")];
    assert forall d :: d != ROOT ==> Entries(gs, d) == [];
  }
}
