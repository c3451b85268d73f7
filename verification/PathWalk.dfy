/**
 Path names (fs.c): skipelem splits them, namex follows them from directory to directory.
 */
module PathWalk {
  import opened DirectoryTree
  import opened Directories

  // ---------------------------------------------------------------- splitting

  function DropSlashes(p: string): (r: string)
    ensures |r| <= |p| && (r == "" || r[0] != '/')
  {
    if p != "" && p[0] == '/' then DropSlashes(p[1..]) else p
  }

  /** The length of the element at the front of p. */
  function ElemLength(p: string): (n: nat)
    ensures n <= |p| && (n < |p| ==> p[n] == '/') && forall i :: 0 <= i < n ==> p[i] != '/'
  {
    if p == "" || p[0] == '/' then 0 else 1 + ElemLength(p[1..])
  }

  /** The elements of a path, each cut to DIRSIZ characters. */
  function Elements(path: string): (names: seq<string>)
    decreases |path|
  {
    var p := DropSlashes(path);
    if p == "" then []
    else
      var n := ElemLength(p);
      assert n > 0;
      [Short(p[..n])] + Elements(p[n..])
  }

  lemma DropSlashesStep(p: string, i: nat)
    requires i < |p| && p[i] == '/'
    ensures DropSlashes(p[i..]) == DropSlashes(p[i + 1..])
  {
    assert p[i..][1..] == p[i + 1..];
  }

  method SkipSlashes(path: string, i: nat) returns (j: nat)
    requires i <= |path|
    ensures i <= j <= |path| && path[j..] == DropSlashes(path[i..])
  {
    j := i;
    while j < |path| && path[j] == '/'
      invariant i <= j <= |path| && DropSlashes(path[j..]) == DropSlashes(path[i..])
    {
      DropSlashesStep(path, j);
      j := j + 1;
    }
  }

  lemma ElementsStep(path: string)
    ensures var p := DropSlashes(path); var n := ElemLength(p);
      && DropSlashes(p) == p && (Elements(path) == [] <==> p == "")
      && (p != "" ==> n > 0 && Elements(path) == [Short(p[..n])] + Elements(DropSlashes(p[n..])))
  {
    var p := DropSlashes(path);
    if p != "" {
      SameElements(p[ElemLength(p)..]);
    }
  }

  lemma SameElements(p: string)
    ensures Elements(DropSlashes(p)) == Elements(p)
  {
    assert DropSlashes(DropSlashes(p)) == DropSlashes(p);
  }

  method FindEnd(path: string, s: nat) returns (e: nat)
    requires s <= |path|
    ensures s <= e <= |path| && e - s == ElemLength(path[s..])
  {
    e := s;
    while e < |path| && path[e] != '/'
      invariant s <= e <= |path| && (e - s) + ElemLength(path[e..]) == ElemLength(path[s..])
    {
      assert path[e..][1..] == path[e + 1..];
      e := e + 1;
    }
  }

  /** skipelem from position i: the next element and the position of the one after it. */
  method Skipelem(path: string, i: nat) returns (found: bool, name: string, next: nat)
    requires i <= |path|
    ensures i <= next <= |path|
    ensures found <==> Elements(path[i..]) != []
    ensures found ==> i < next && Elements(path[i..]) == [name] + Elements(path[next..])
    ensures found ==> (next == |path| <==> Elements(path[next..]) == [])
  {
    hide Elements, DropSlashes, ElemLength;
    var s := SkipSlashes(path, i);
    ElementsStep(path[i..]);
    if s == |path| {
      return false, "", s;
    }
    var e := FindEnd(path, s);
    assert path[s..][..e - s] == path[s..e] && path[s..][e - s..] == path[e..];
    name := if e - s >= DIRSIZ then path[s..s + DIRSIZ] else path[s..e];
    assert name == Short(path[s..e]);
    next := SkipSlashes(path, e);
    ElementsStep(path[next..]);
    ElementsStep(path[e..]);
    found := true;
  }

  ghost predicate IsName(name: string) {
    0 < |name| <= DIRSIZ && forall i :: 0 <= i < |name| ==> name[i] != '/'
  }

  function Join(names: seq<string>): string {
    if names == [] then "" else "/" + names[0] + Join(names[1..])
  }

  lemma {:induction false} ElemLengthIs(name: string, rest: string)
    requires (forall i :: 0 <= i < |name| ==> name[i] != '/') && (rest == "" || rest[0] == '/')
    ensures ElemLength(name + rest) == |name|
  {
    if name == "" {
      assert name + rest == rest;
    } else {
      assert (name + rest)[1..] == name[1..] + rest;
      ElemLengthIs(name[1..], rest);
    }
  }

  /** Splitting undoes joining: every list of names is the element list of its path. */
  lemma {:induction false} JoinSplits(names: seq<string>)
    requires forall i :: 0 <= i < |names| ==> IsName(names[i])
    ensures Elements(Join(names)) == names
  {
    if names != [] {
      JoinSplits(names[1..]);
      var rest := Join(names[1..]);
      var p := names[0] + rest;
      assert IsName(names[0]);
      assert Join(names) == "/" + p;
      assert Join(names)[1..] == p;
      assert p[0] == names[0][0];
      assert DropSlashes(Join(names)) == p;
      ElemLengthIs(names[0], rest);
      assert p[..|names[0]|] == names[0] && p[|names[0]|..] == rest;
      assert [names[0]] + names[1..] == names;
    }
  }

  /** The elements of any path are names. */
  lemma {:induction false} ElementsAreNames(path: string, i: nat)
    requires i < |Elements(path)|
    ensures IsName(Elements(path)[i])
    decreases |path|
  {
    var p := DropSlashes(path);
    var n := ElemLength(p);
    if i > 0 {
      ElementsAreNames(p[n..], i - 1);
    } else {
      assert n > 0;
    }
  }

  // ---------------------------------------------------------------- walking

  /** Where a path leads; Dangling where ilock meets a free inode and panics. */
  datatype Walked = At(inum: nat) | Nowhere | Dangling

  function Find(slots: seq<Slot>, name: string): (k: int)
    ensures -1 <= k < |slots|
    ensures k < 0 <==> Absent(slots, name)
    ensures k >= 0 ==> slots[k].inum != 0 && slots[k].name == Short(name)
    ensures k >= 0 ==> forall l :: 0 <= l < k && slots[l].inum != 0 ==> slots[l].name != Short(name)
  {
    FindFrom(slots, name, 0)
  }

  function FindFrom(slots: seq<Slot>, name: string, i: nat): (k: int)
    requires i <= |slots| && forall l :: 0 <= l < i && slots[l].inum != 0 ==> slots[l].name != Short(name)
    ensures -1 <= k < |slots|
    ensures k < 0 <==> Absent(slots, name)
    ensures k >= 0 ==> slots[k].inum != 0 && slots[k].name == Short(name)
    ensures k >= 0 ==> forall l :: 0 <= l < k && slots[l].inum != 0 ==> slots[l].name != Short(name)
    decreases |slots| - i
  {
    if i == |slots| then -1
    else if slots[i].inum != 0 && slots[i].name == Short(name) then i
    else FindFrom(slots, name, i + 1)
  }

  /** One round of namex: look name up in inode i. */
  function StepTo(inodes: map<nat, Inode>, i: nat, name: string): Walked {
    if i !in inodes then Dangling
    else if inodes[i].File? then Nowhere
    else
      var k := Find(inodes[i].slots, name);
      if k < 0 then Nowhere else At(inodes[i].slots[k].inum)
  }

  function Walk(inodes: map<nat, Inode>, i: nat, names: seq<string>): Walked
    decreases |names|
  {
    if names == [] then At(i)
    else
      var w := StepTo(inodes, i, names[0]);
      if w.At? then Walk(inodes, w.inum, names[1..]) else w
  }

  function Start(path: string, cwd: nat): nat {
    if path != "" && path[0] == '/' then ROOT else cwd
  }

  ghost predicate Absolute(path: string) { "/" <= path }

  /** What a path leads to from a current directory. */
  function Resolve(inodes: map<nat, Inode>, cwd: nat, path: string): Walked {
    Walk(inodes, Start(path, cwd), Elements(path))
  }

  /** A path made of a slash before each name is followed from the root, wherever the process is. */
  lemma AbsolutePath(inodes: map<nat, Inode>, cwd: nat, names: seq<string>)
    requires names != [] && forall i :: 0 <= i < |names| ==> IsName(names[i])
    ensures Resolve(inodes, cwd, Join(names)) == Walk(inodes, ROOT, names)
    ensures Start(Join(names), cwd) == ROOT && Start("/", cwd) == ROOT && Elements("/") == []
  {
    JoinSplits(names);
  }

  /** Without the first slash it is followed from the current directory. */
  lemma RelativePath(inodes: map<nat, Inode>, cwd: nat, names: seq<string>)
    requires names != [] && forall i :: 0 <= i < |names| ==> IsName(names[i])
    ensures Resolve(inodes, cwd, names[0] + Join(names[1..])) == Walk(inodes, cwd, names)
    ensures Start(names[0] + Join(names[1..]), cwd) == cwd
  {
    var p := names[0] + Join(names[1..]);
    assert p[0] == names[0][0];
    assert Start(p, cwd) == cwd;
    JoinSplits(names);
    assert Join(names) == "/" + p;
    hide Elements, DropSlashes, ElemLength, Walk, Join;
    DropSlashesConcat("/", p);
    OneSlash();
    SameElements("/" + p);
    SameElements(p);
  }

  lemma ElemLengthPrefix(p: string, rest: string)
    requires rest == "" || rest[0] == '/'
    ensures ElemLength(p + rest) == ElemLength(p)
  {
    if p == "" {
      assert p + rest == rest;
    } else if p[0] != '/' {
      assert (p + rest)[1..] == p[1..] + rest;
      ElemLengthPrefix(p[1..], rest);
    }
  }

  lemma DropSlashesConcat(p: string, q: string)
    ensures DropSlashes(p + q) == if DropSlashes(p) == "" then DropSlashes(q) else DropSlashes(p) + q
  {
    if p == "" {
      assert p + q == q;
    } else {
      assert (p + q)[1..] == p[1..] + q;
      if p[0] == '/' { DropSlashesConcat(p[1..], q); }
    }
  }

  lemma OneSlash()
    ensures DropSlashes("/") == ""
  {
    assert "/"[1..] == "";
  }

  /** The names of two paths joined by a slash are the names of the one and then the other. */
  lemma {:induction false} ElementsConcat(p: string, q: string)
    ensures Elements(p + "/" + q) == Elements(p) + Elements(q)
    decreases |p|
  {
    hide Elements, DropSlashes, ElemLength, Short;
    var rest := "/" + q;
    assert p + "/" + q == p + rest;
    DropSlashesConcat(p, rest);
    ElementsStep(p);
    ElementsStep(p + rest);
    var d := DropSlashes(p);
    if d == "" {
      DropSlashesConcat("/", q);
      OneSlash();
      SameElements(p + rest);
      SameElements(q);
    } else {
      var n := ElemLength(d);
      ElemLengthPrefix(d, rest);
      assert (d + rest)[..n] == d[..n] && (d + rest)[n..] == d[n..] + "/" + q;
      ElementsConcat(d[n..], q);
      SameElements(d[n..]);
      SameElements(d[n..] + "/" + q);
    }
  }

  lemma {:induction false} WalkConcat(inodes: map<nat, Inode>, i: nat, names: seq<string>, more: seq<string>)
    ensures var w := Walk(inodes, i, names);
      Walk(inodes, i, names + more) == if w.At? then Walk(inodes, w.inum, more) else w
    decreases |names|
  {
    if names == [] {
      assert names + more == more;
    } else {
      var w := StepTo(inodes, i, names[0]);
      assert (names + more)[1..] == names[1..] + more;
      if w.At? { WalkConcat(inodes, w.inum, names[1..], more); }
    }
  }

  /** Following p/q is following p and, from where it leads, q. */
  lemma Composes(inodes: map<nat, Inode>, cwd: nat, p: string, q: string)
    requires p != "" && !Absolute(q)
    ensures var w := Resolve(inodes, cwd, p);
      Resolve(inodes, cwd, p + "/" + q) == if w.At? then Resolve(inodes, w.inum, q) else w
  {
    ElementsConcat(p, q);
    WalkConcat(inodes, Start(p, cwd), Elements(p), Elements(q));
    assert (p + "/" + q)[0] == p[0];
  }

  /** namex without nameiparent. */
  method Namei(inodes: map<nat, Inode>, cwd: nat, path: string) returns (r: Walked)
    ensures r == Resolve(inodes, cwd, path)
    ensures r == Walk(inodes, if Absolute(path) then ROOT else cwd, Elements(path))
  {
    var i: nat := if path != "" && path[0] == '/' then ROOT else cwd;
    assert path[0..] == path;
    var found, name, pos := Skipelem(path, 0);
    while found
      invariant pos <= |path|
      invariant Walk(inodes, i, if found then [name] + Elements(path[pos..]) else [])
             == Walk(inodes, Start(path, cwd), Elements(path))
      decreases found, |path| - pos
    {
      ghost var rest := Elements(path[pos..]);
      assert ([name] + rest)[1..] == rest;
      r := StepTo(inodes, i, name);
      if !r.At? {
        return;
      }
      i := r.inum;
      found, name, pos := Skipelem(path, pos);
      assert Walk(inodes, i, rest) == Walk(inodes, Start(path, cwd), Elements(path));
    }
    r := At(i);
  }

  /** The directory the last of the names is to be looked up in. */
  function ParentOf(inodes: map<nat, Inode>, i: nat, names: seq<string>): Walked
    requires names != []
    decreases |names|
  {
    if i !in inodes then Dangling
    else if inodes[i].File? then Nowhere
    else if |names| == 1 then At(i)
    else
      var w := StepTo(inodes, i, names[0]);
      if w.At? then ParentOf(inodes, w.inum, names[1..]) else w
  }

  /** nameiparent followed by one lookup is namei. */
  lemma {:induction false} ParentThenLookup(inodes: map<nat, Inode>, i: nat, names: seq<string>)
    requires names != []
    ensures var w := ParentOf(inodes, i, names);
      && Walk(inodes, i, names) == (if w.At? then StepTo(inodes, w.inum, names[|names| - 1]) else w)
      && (w.At? ==> w.inum in inodes && inodes[w.inum].Dir?)
    decreases |names|
  {
    var w := StepTo(inodes, i, names[0]);
    if |names| > 1 && w.At? {
      ParentThenLookup(inodes, w.inum, names[1..]);
    }
  }

  /** namex with nameiparent. */
  method NameiParent(inodes: map<nat, Inode>, cwd: nat, path: string) returns (r: Walked, name: string)
    ensures Elements(path) == [] ==> r == Nowhere
    ensures Elements(path) != [] ==> r == ParentOf(inodes, if Absolute(path) then ROOT else cwd, Elements(path))
    ensures r.At? ==> Elements(path) != [] && name == Elements(path)[|Elements(path)| - 1]
  {
    hide Elements, StepTo;
    var i: nat := if path != "" && path[0] == '/' then ROOT else cwd;
    assert path[0..] == path;
    var found, pos;
    found, name, pos := Skipelem(path, 0);
    ghost var names := Elements(path);
    while found
      invariant pos <= |path|
      invariant found <==> Elements(path) != []
      invariant found ==> names == [name] + Elements(path[pos..]) && (pos == |path| <==> Elements(path[pos..]) == [])
      invariant found ==> ParentOf(inodes, i, names) == ParentOf(inodes, Start(path, cwd), Elements(path))
      invariant found ==> names[|names| - 1] == Elements(path)[|Elements(path)| - 1]
      decreases |path| - pos
    {
      if i !in inodes {
        return Dangling, name;
      }
      if inodes[i].File? {
        return Nowhere, name;
      }
      if pos == |path| {
        return At(i), name;
      }
      r := StepTo(inodes, i, name);
      if !r.At? {
        return;
      }
      i := r.inum;
      assert names[1..] == Elements(path[pos..]);
      names := names[1..];
      found, name, pos := Skipelem(path, pos);
    }
    r := Nowhere;
  }

  /** Following a path from a linked directory never meets a freed inode. */
  lemma {:induction false} WalkIsSafe(fs: Fs, i: nat, names: seq<string>)
    requires Sound(fs) && i in fs.inodes && fs.inodes[i].nlink >= 1 && (IsDir(fs, i) ==> Linked(fs, i))
    ensures var w := Walk(fs.inodes, i, names);
      && w != Dangling
      && (w.At? ==> Links(fs, w.inum) >= 1 && (IsDir(fs, w.inum) ==> Linked(fs, w.inum)))
    decreases |names|
  {
    hide Sound;
    if names != [] && fs.inodes[i].Dir? {
      var k := Find(fs.inodes[i].slots, names[0]);
      if k >= 0 {
        EntryIsLinked(fs, i, k);
        WalkIsSafe(fs, fs.inodes[i].slots[k].inum, names[1..]);
      }
    }
  }

  lemma EntryIsLinked(fs: Fs, d: nat, k: nat)
    requires Sound(fs) && Linked(fs, d) && k < |fs.inodes[d].slots| && fs.inodes[d].slots[k].inum != 0
    ensures var c := fs.inodes[d].slots[k].inum; Links(fs, c) >= 1 && (IsDir(fs, c) ==> Linked(fs, c))
  {
    hide Refs, Exact;
    NamedIsAllocated(fs, d, k);
    assert DirOk(d, fs.inodes[d].slots);
    var c := fs.inodes[d].slots[k].inum;
    if k >= 2 {
      assert Holds(fs, d, k, c);
    } else if k == 1 {
      assert c == Parent(fs, d) && (d == ROOT || Held(fs, d));
    }
  }

  /** Entering a directory by name and leaving it by ".." comes back. */
  lemma DownAndUp(fs: Fs, d: nat, name: string)
    requires Sound(fs) && Linked(fs, d) && name != "." && name != ".."
    requires StepTo(fs.inodes, d, name).At? && IsDir(fs, StepTo(fs.inodes, d, name).inum)
    ensures Walk(fs.inodes, d, [name, ".."]) == At(d)
  {
    hide Exact;
    var k := Find(fs.inodes[d].slots, name);
    var c := fs.inodes[d].slots[k].inum;
    assert DirOk(d, fs.inodes[d].slots) && DirOk(c, fs.inodes[c].slots);
    assert Holds(fs, d, k, c);
    assert fs.inodes[c].slots[1] == Slot(d, "..");
    assert StepTo(fs.inodes, c, "..") == At(d) by {
      assert Find(fs.inodes[c].slots, "..") == 1;
    }
    assert [name, ".."][1..] == [".."];
    assert Walk(fs.inodes, d, [name, ".."]) == Walk(fs.inodes, c, [".."]);
    assert [".."][1..] == [];
  }

  // ---------------------------------------------------------------- walking while others work

  /** What happens around one walker: a step of some other system call, or the walker's next
      lookup, made under the lock of the inode it has a reference to. */
  datatype Event = Other(step: Step) | Look(name: string)

  /** The file system, and the inode the walker has a reference to. */
  datatype Scene = Scene(fs: Fs, at: nat)

  /** Others do not free the walker's inode, since iput frees only at the last reference; the
      walker waits for an inode that an unlink holds, and does not follow the parent entry of a
      directory whose parent is gone. */
  ghost predicate Proceeds(c: Scene, e: Event) {
    match e
    case Other(step) => Enabled(c.fs, step) && !AddsToUnlinked(c.fs, step) && step != Frees(c.at)
    case Look(name) => c.at !in c.fs.limbo && !AsksLostParent(c.fs, c.at, name)
  }

  /** A lookup of ".." in a directory whose parent has been freed. */
  ghost predicate AsksLostParent(fs: Fs, at: nat, name: string) {
    Short(name) == ".." && IsDir(fs, at) && Parent(fs, at) !in fs.inodes
  }

  ghost function Next(c: Scene, e: Event): Scene
    requires Proceeds(c, e)
  {
    match e
    case Other(step) => c.(fs := Apply(c.fs, step))
    case Look(name) =>
      var w := StepTo(c.fs.inodes, c.at, name);
      if w.At? then c.(at := w.inum) else c
  }

  /** One lookup leads to an inode that is not allocated exactly when it asks for a parent that has
      been freed; only an unlinked directory can have lost its parent, and never the root. */
  lemma LookIsSafe(fs: Fs, at: nat, name: string)
    requires Sound(fs) && at in fs.inodes && at !in fs.limbo
    ensures var w := StepTo(fs.inodes, at, name);
      && w != Dangling
      && (w.At? && w.inum !in fs.inodes <==> AsksLostParent(fs, at, name))
    ensures AsksLostParent(fs, at, name) ==> !Linked(fs, at) && Parent(fs, at) != ROOT
  {
    if fs.inodes[at].Dir? {
      var k := Find(fs.inodes[at].slots, name);
      SoundDir(fs, at);
      if k >= 0 {
        if Linked(fs, at) {
          EntryIsLinked(fs, at, k);
        } else {
          UnlinkedIsEmpty(fs, at);
        }
        assert Short(name) == ".." ==> k == 1;
      }
    }
  }

  lemma UnlinkedIsEmpty(fs: Fs, d: nat)
    requires Sound(fs) && IsDir(fs, d) && !Linked(fs, d)
    ensures EmptyDir(fs.inodes[d].slots)
  {
    hide TreeOk, Exact;
  }

  lemma HeldStays(fs: Fs, step: Step, i: nat)
    requires Enabled(fs, step) && i in fs.inodes && step != Frees(i)
    ensures i in Apply(fs, step).inodes
  {
  }

  /** The events of a walk, with other system calls between any two of its lookups. */
  ghost predicate GoodWalk(c: Scene, es: seq<Event>)
    decreases |es|
  {
    es == [] || (Proceeds(c, es[0]) && GoodWalk(Next(c, es[0]), es[1..]))
  }

  ghost function AfterWalk(c: Scene, es: seq<Event>): Scene
    requires GoodWalk(c, es)
    decreases |es|
  {
    if es == [] then c else AfterWalk(Next(c, es[0]), es[1..])
  }

  /** In every interleaving the walker has an allocated inode, so its next lock never panics. */
  lemma {:induction false} WalkerNeverDangles(c: Scene, es: seq<Event>)
    requires Sound(c.fs) && c.at in c.fs.inodes && GoodWalk(c, es)
    ensures Sound(AfterWalk(c, es).fs) && AfterWalk(c, es).at in AfterWalk(c, es).fs.inodes
    decreases |es|
  {
    hide Sound, Enabled, AddsToUnlinked, Apply, StepTo, AsksLostParent;
    if es != [] {
      match es[0] {
        case Other(step) =>
          StepExact(c.fs, step);
          HeldStays(c.fs, step, c.at);
        case Look(name) =>
          LookIsSafe(c.fs, c.at, name);
      }
      WalkerNeverDangles(Next(c, es[0]), es[1..]);
    }
  }

  // The guard is needed: a walker in /a/b, while others remove /a/b and then /a.

  function Inner(): Fs {
    Fs(map[ROOT := Dir(2, Dots(ROOT, ROOT) + [Slot(2, "a")]),
           2 := Dir(2, Dots(2, ROOT) + [Slot(3, "b")]),
           3 := Dir(1, Dots(3, 2))], multiset{}, {})
  }

  function InnerGone(): Fs {
    Fs(map[ROOT := Dir(2, Dots(ROOT, ROOT) + [Slot(2, "a")]),
           2 := Dir(1, Dots(2, ROOT) + [Slot(0, "")]),
           3 := Dir(0, Dots(3, 2))], multiset{}, {})
  }

  function OuterGone(): Fs {
    Fs(map[ROOT := Dir(1, Dots(ROOT, ROOT) + [Slot(0, "")]),
           2 := Dir(0, Dots(2, ROOT) + [Slot(0, "")]),
           3 := Dir(0, Dots(3, 2))], multiset{}, {})
  }

  lemma MadeInner()
    ensures var a, b := Creates(ROOT, 2, "a", 2, Directory), Creates(2, 2, "b", 3, Directory);
      && Enabled(Fresh(), a) && Enabled(Apply(Fresh(), a), b) && Apply(Apply(Fresh(), a), b) == Inner()
      && !AddsToUnlinked(Fresh(), a) && !AddsToUnlinked(Apply(Fresh(), a), b)
  {
    var a, b := Creates(ROOT, 2, "a", 2, Directory), Creates(2, 2, "b", 3, Directory);
    assert Short("a") == "a" && Short("b") == "b";
    var fs1 := Apply(Fresh(), a);
    assert fs1.inodes == map[ROOT := Dir(2, Dots(ROOT, ROOT) + [Slot(2, "a")]), 2 := Dir(1, Dots(2, ROOT))];
    var fs2 := Apply(fs1, b);
    assert fs2.inodes == Inner().inodes;
  }

  /** Removing entry 2 of d, an empty directory i, in both parts. */
  lemma RemovedDir(fs: Fs, gs: Fs, d: nat, i: nat)
    requires CanClear(fs, d, 2, i) && IsDir(fs, i) && i != d && fs.pending == multiset{} && fs.limbo == {}
    requires gs.pending == multiset{} && gs.limbo == {}
    requires gs.inodes == fs.inodes
               [i := Dir(fs.inodes[i].nlink - 1, fs.inodes[i].slots)]
               [d := Dir(fs.inodes[d].nlink - 1, fs.inodes[d].slots[2 := Slot(0, "")])]
    ensures Enabled(fs, UnlinkStarts(d, 2, i)) && Enabled(Apply(fs, UnlinkStarts(d, 2, i)), UnlinkEnds(i))
    ensures Apply(Apply(fs, UnlinkStarts(d, 2, i)), UnlinkEnds(i)) == gs
  {
    var mid := Apply(fs, UnlinkStarts(d, 2, i));
    assert mid.pending == multiset{i} && mid.limbo == {i};
    assert mid.inodes == fs.inodes[d := Dir(fs.inodes[d].nlink - 1, fs.inodes[d].slots[2 := Slot(0, "")])];
    var after := Apply(mid, UnlinkEnds(i));
    assert after.pending == multiset{} && after.limbo == {};
    assert after.inodes == gs.inodes;
  }

  lemma Cleared2(d: nat, parent: nat, slot: Slot)
    ensures (Dots(d, parent) + [slot])[2 := Slot(0, "")] == Dots(d, parent) + [Slot(0, "")]
  {
  }

  lemma BothRemoved()
    ensures Enabled(Inner(), UnlinkStarts(2, 2, 3))
    ensures Enabled(Apply(Inner(), UnlinkStarts(2, 2, 3)), UnlinkEnds(3))
    ensures Apply(Apply(Inner(), UnlinkStarts(2, 2, 3)), UnlinkEnds(3)) == InnerGone()
    ensures Enabled(InnerGone(), UnlinkStarts(ROOT, 2, 2))
    ensures Enabled(Apply(InnerGone(), UnlinkStarts(ROOT, 2, 2)), UnlinkEnds(2))
    ensures Apply(Apply(InnerGone(), UnlinkStarts(ROOT, 2, 2)), UnlinkEnds(2)) == OuterGone()
  {
    Cleared2(2, ROOT, Slot(3, "b"));
    Cleared2(ROOT, ROOT, Slot(2, "a"));
    assert Entries(Inner(), 2)[2].inum == 3;
    assert InnerGone().inodes == Inner().inodes[3 := Dir(0, Dots(3, 2))][2 := Dir(1, Dots(2, ROOT) + [Slot(0, "")])];
    RemovedDir(Inner(), InnerGone(), 2, 3);
    assert Entries(InnerGone(), ROOT)[2].inum == 2;
    assert OuterGone().inodes == InnerGone().inodes
      [2 := Dir(0, Dots(2, ROOT) + [Slot(0, "")])][ROOT := Dir(1, Dots(ROOT, ROOT) + [Slot(0, "")])];
    RemovedDir(InnerGone(), OuterGone(), ROOT, 2);
  }

  /** Once the parent is freed, the removed directory's parent entry leads to no inode. */
  lemma ParentEntryDangles()
    ensures Enabled(OuterGone(), Frees(2))
    ensures var fs := Apply(OuterGone(), Frees(2));
      && 3 in fs.inodes && 3 !in fs.limbo && AsksLostParent(fs, 3, "..")
      && StepTo(fs.inodes, 3, "..") == At(2) && 2 !in fs.inodes
  {
    var fs := Apply(OuterGone(), Frees(2));
    assert fs.inodes[3].slots == Dots(3, 2);
    assert Find(Dots(3, 2), "..") == 1;
  }
}
