/**
 The buffer cache of bio.c. Each method is one critical section or one action of the process
 that holds a buffer's sleep lock, so any interleaving of processes is a sequence of calls.
 view is the plain map from block to contents that cache and disk together stand for.
 */
module BufferCache {
  import opened Basics
  import opened BufferList

  type Block = seq<int>

  datatype Key = Key(dev: nat, blockno: nat)

  datatype Buf = Buf(key: Key, valid: bool, dirty: bool, refcnt: nat, locked: bool, data: Block)

  /** Ghost side of a buffer: processes waiting for its lock, processes that have given the lock
      up and not yet their reference, and whether its holder has changed the data without calling
      log_write or bwrite yet. */
  datatype Aux = Aux(waiting: nat, leaving: nat, touched: bool)

  ghost predicate BufOk(b: Buf, x: Aux, disk: map<Key, Block>, view: map<Key, Block>) {
    && b.refcnt == x.waiting + x.leaving + (if b.locked then 1 else 0)
    && (x.touched ==> b.locked && b.valid)
    && (b.dirty ==> b.valid)
    && (b.valid ==> b.key in disk)
    && (b.valid && b.key in view ==> view[b.key] == b.data)
    && (b.valid && !b.dirty && !x.touched && b.key in disk ==> b.data == disk[b.key])
    && (b.refcnt > 0 ==> b.key in disk)
  }

  /** Referenced or dirty buffers are never given to another block. */
  ghost predicate Reusable(b: Buf) { b.refcnt == 0 && !b.dirty }

  /** A block is in the cache, read in. */
  ghost predicate Holds(b: Buf, k: Key) { b.key == k && b.valid }

  ghost predicate Backed(bufs: seq<Buf>, disk: map<Key, Block>, view: map<Key, Block>, k: Key) {
    k in disk && k in view && ((forall i :: 0 <= i < |bufs| ==> !Holds(bufs[i], k)) ==> view[k] == disk[k])
  }

  /** No block of a real device is cached twice. */
  ghost predicate Unique(bufs: seq<Buf>) {
    forall i, j :: 0 <= i < j < |bufs| && bufs[i].key == bufs[j].key ==> bufs[i].key.dev == 0
  }

  ghost predicate Coherent(bufs: seq<Buf>, aux: seq<Aux>, disk: map<Key, Block>, view: map<Key, Block>) {
    && |bufs| == |aux| == NBUF
    && disk.Keys == view.Keys && (forall k :: k in disk ==> k.dev != 0)
    && Unique(bufs)
    && (forall i :: 0 <= i < NBUF ==> BufOk(bufs[i], aux[i], disk, view))
    && (forall k {:trigger Backed(bufs, disk, view, k)} :: k in disk ==> Backed(bufs, disk, view, k))
  }

  /** A change to one buffer that keeps its block, and leaves disk and view alone. */
  lemma TouchKeeps(bufs: seq<Buf>, aux: seq<Aux>, disk: map<Key, Block>, view: map<Key, Block>, i: nat, b: Buf, x: Aux)
    requires Coherent(bufs, aux, disk, view) && i < NBUF
    requires b.key == bufs[i].key && (bufs[i].valid ==> b.valid) && BufOk(b, x, disk, view)
    ensures Coherent(bufs[i := b], aux[i := x], disk, view)
  {
    forall k | k in disk ensures Backed(bufs[i := b], disk, view, k) {
      assert Backed(bufs, disk, view, k);
      if j :| 0 <= j < NBUF && Holds(bufs[j], k) {
        assert Holds(bufs[i := b][j], k);
      }
    }
  }

  /** Giving an unreferenced, clean buffer to another block changes no block's contents. */
  lemma RecycleKeeps(bufs: seq<Buf>, aux: seq<Aux>, disk: map<Key, Block>, view: map<Key, Block>, i: nat, k: Key)
    requires Coherent(bufs, aux, disk, view) && i < NBUF && k in disk
    requires bufs[i].refcnt == 0 && !bufs[i].dirty
    requires forall j :: 0 <= j < NBUF ==> bufs[j].key != k
    ensures Coherent(bufs[i := Buf(k, false, false, 1, false, bufs[i].data)], aux[i := Aux(1, 0, false)], disk, view)
  {
    var bufs' := bufs[i := Buf(k, false, false, 1, false, bufs[i].data)];
    assert BufOk(bufs[i], aux[i], disk, view);
    forall c | c in disk ensures Backed(bufs', disk, view, c) {
      assert Backed(bufs, disk, view, c);
      if j :| 0 <= j < NBUF && Holds(bufs[j], c) {
        assert BufOk(bufs[j], aux[j], disk, view);
        assert j != i ==> Holds(bufs'[j], c);
      }
    }
  }

  /** The holder of a block changes its contents. */
  lemma StoreKeeps(bufs: seq<Buf>, aux: seq<Aux>, disk: map<Key, Block>, view: map<Key, Block>, i: nat, data: Block)
    requires Coherent(bufs, aux, disk, view) && i < NBUF && bufs[i].locked && bufs[i].valid
    ensures bufs[i].key in disk
    ensures Coherent(bufs[i := bufs[i].(data := data)], aux[i := aux[i].(touched := true)],
                     disk, view[bufs[i].key := data])
  {
    var bufs', view' := bufs[i := bufs[i].(data := data)], view[bufs[i].key := data];
    assert BufOk(bufs[i], aux[i], disk, view);
    forall j | 0 <= j < NBUF && j != i ensures BufOk(bufs'[j], aux[j], disk, view') {
      assert BufOk(bufs[j], aux[j], disk, view);
    }
    forall k | k in disk ensures Backed(bufs', disk, view', k) {
      assert Backed(bufs, disk, view, k);
      assert Holds(bufs'[i], bufs[i].key);
      if j :| 0 <= j < NBUF && Holds(bufs[j], k) { assert Holds(bufs'[j], k); }
    }
  }

  /** iderw writes a block out: the disk catches up with the view. */
  lemma WriteOutKeeps(bufs: seq<Buf>, aux: seq<Aux>, disk: map<Key, Block>, view: map<Key, Block>, i: nat)
    requires Coherent(bufs, aux, disk, view) && i < NBUF && bufs[i].locked && bufs[i].valid
    ensures bufs[i].key in disk
    ensures Coherent(bufs[i := bufs[i].(dirty := false)], aux[i := aux[i].(touched := false)],
                     disk[bufs[i].key := bufs[i].data], view)
  {
    var bufs', disk' := bufs[i := bufs[i].(dirty := false)], disk[bufs[i].key := bufs[i].data];
    assert BufOk(bufs[i], aux[i], disk, view);
    forall j | 0 <= j < NBUF && j != i ensures BufOk(bufs'[j], aux[j], disk', view) {
      assert BufOk(bufs[j], aux[j], disk, view);
    }
    forall k | k in disk' ensures Backed(bufs', disk', view, k) {
      assert Backed(bufs, disk, view, k);
      assert Holds(bufs'[i], bufs[i].key);
      if j :| 0 <= j < NBUF && Holds(bufs[j], k) { assert Holds(bufs'[j], k); }
    }
  }

  class Cache {
    var bufs: seq<Buf>
    var next: seq<nat>
    var prev: seq<nat>
    var disk: map<Key, Block>
    ghost var order: seq<nat>
    ghost var aux: seq<Aux>
    ghost var view: map<Key, Block>

    ghost predicate Valid()
      reads this
    {
      |bufs| == |aux| == NBUF && Linked(next, prev, order) && Complete(order) && Coherent(bufs, aux, disk, view)
    }

    // binit
    constructor (disk: map<Key, Block>)
      requires forall k :: k in disk ==> k.dev != 0
      ensures Valid() && this.disk == disk && view == disk
      ensures forall i :: 0 <= i < NBUF ==> order[i] == NBUF - 1 - i
    {
      this.disk, view := disk, disk;
      bufs := seq(NBUF, _ => Buf(Key(0, 0), false, false, 0, false, []));
      aux := seq(NBUF, _ => Aux(0, 0, false));
      next := seq(NBUF + 1, _ => HEAD);
      prev := seq(NBUF + 1, _ => HEAD);
      order := [];
      new;
      assert Joined(next, prev, order, 0);
      var b := 0;
      while b < NBUF
        invariant 0 <= b <= NBUF && Linked(next, prev, order)
        invariant |order| == b && forall i :: 0 <= i < b ==> order[i] == b - 1 - i
        modifies `next, `prev, `order
      {
        PushFrontKeeps(next, prev, order, b);
        next := next[b := next[HEAD]];
        prev := prev[b := HEAD];
        prev := prev[next[HEAD] := b];
        next := next[HEAD := b];
        order := [b] + order;
        b := b + 1;
      }
      forall c | 0 <= c < NBUF ensures c in order { assert order[NBUF - 1 - c] == c; }
      forall k | k in disk ensures Backed(bufs, disk, view, k) {}
    }

    /** The first scan of bget: front to back for the block itself. */
    method FindCached(k: Key) returns (b: nat)
      requires Valid()
      ensures b <= NBUF && (b < NBUF ==> bufs[b].key == k)
      ensures b == HEAD ==> forall i :: 0 <= i < NBUF ==> bufs[i].key != k
    {
      hide Coherent;
      ghost var i := 0;
      assert Joined(next, prev, order, 0);
      b := next[HEAD];
      while b != HEAD
        invariant 0 <= i <= NBUF && b == Node(order, i)
        invariant forall j :: 0 <= j < i ==> bufs[order[j]].key != k
        decreases NBUF - i
      {
        if bufs[b].key == k { return; }
        assert Joined(next, prev, order, i + 1);
        b := next[b];
        i := i + 1;
      }
      forall c | 0 <= c < NBUF ensures bufs[c].key != k {
        assert c in order;
      }
    }

    /** The second scan: back to front for a buffer nobody uses. */
    method FindReusable() returns (b: nat)
      requires Valid()
      ensures b <= NBUF && (b < NBUF ==> Reusable(bufs[b]))
      ensures b == HEAD ==> forall i :: 0 <= i < NBUF ==> !Reusable(bufs[i])
      ensures b != HEAD ==> exists i ::
        0 <= i < NBUF && order[i] == b && forall j :: i < j < NBUF ==> !Reusable(bufs[order[j]])
    {
      hide Coherent;
      ghost var i := NBUF - 1;
      assert Joined(next, prev, order, NBUF);
      b := prev[HEAD];
      while b != HEAD
        invariant -1 <= i < NBUF && b == Node(order, i)
        invariant forall j :: i < j < NBUF ==> !Reusable(bufs[order[j]])
        decreases i
      {
        if bufs[b].refcnt == 0 && !bufs[b].dirty { return; }
        assert Joined(next, prev, order, i);
        b := prev[b];
        i := i - 1;
      }
      forall c | 0 <= c < NBUF ensures !Reusable(bufs[c]) {
        assert c in order;
      }
    }

    // bget under bcache.lock; NBUF is "no buffers"
    method Bget(k: Key) returns (b: nat)
      requires Valid() && k in disk
      modifies `bufs, `aux
      ensures Valid() && b <= NBUF
      ensures b == HEAD ==> bufs == old(bufs) && aux == old(aux)
      ensures b == HEAD <==> (forall i :: 0 <= i < NBUF ==> old(bufs[i]).key != k && !Reusable(old(bufs[i])))
      ensures b != HEAD && old(bufs[b].key) == k ==>
        bufs == old(bufs)[b := old(bufs[b]).(refcnt := old(bufs[b].refcnt) + 1)]
      ensures b != HEAD && old(bufs[b].key) != k ==>
        Reusable(old(bufs[b])) && bufs == old(bufs)[b := Buf(k, false, false, 1, false, old(bufs[b].data))]
      ensures b != HEAD && old(bufs[b].key) != k ==> exists i ::
        0 <= i < NBUF && order[i] == b && forall j :: i < j < NBUF ==> !Reusable(old(bufs[order[j]]))
      ensures b != HEAD ==> aux == old(aux)[b := old(aux[b]).(waiting := old(aux[b].waiting) + 1)]
    {
      hide Linked, Complete, BufOk, Backed, Unique;
      b := FindCached(k);
      if b != HEAD {
        OneMore(b);
        TouchKeeps(bufs, aux, disk, view, b,
                   bufs[b].(refcnt := bufs[b].refcnt + 1), aux[b].(waiting := aux[b].waiting + 1));
        aux := aux[b := aux[b].(waiting := aux[b].waiting + 1)];
        bufs := bufs[b := bufs[b].(refcnt := bufs[b].refcnt + 1)];
        return;
      }
      b := FindReusable();
      if b != HEAD {
        Unheld(b);
        RecycleKeeps(bufs, aux, disk, view, b, k);
        aux := aux[b := Aux(1, 0, false)];
        bufs := bufs[b := Buf(k, false, false, 1, false, bufs[b].data)];
      }
    }

    lemma OneMore(b: nat)
      requires Valid() && b < NBUF && bufs[b].key in disk
      ensures BufOk(bufs[b].(refcnt := bufs[b].refcnt + 1), aux[b].(waiting := aux[b].waiting + 1), disk, view)
    {
      assert BufOk(bufs[b], aux[b], disk, view);
    }

    lemma Unheld(b: nat)
      requires Valid() && b < NBUF && bufs[b].refcnt == 0
      ensures aux[b] == Aux(0, 0, false)
    {
      assert BufOk(bufs[b], aux[b], disk, view);
    }

    // acquiresleep succeeding for one of the processes that hold a reference
    method Lock(b: nat)
      requires Valid() && b < NBUF && aux[b].waiting > 0 && !bufs[b].locked
      modifies `bufs, `aux
      ensures Valid() && bufs == old(bufs)[b := old(bufs[b]).(locked := true)]
      ensures aux == old(aux)[b := old(aux[b]).(waiting := old(aux[b].waiting) - 1)]
    {
      hide Linked, Complete;
      assert BufOk(bufs[b], aux[b], disk, view);
      TouchKeeps(bufs, aux, disk, view, b, bufs[b].(locked := true), aux[b].(waiting := aux[b].waiting - 1));
      bufs := bufs[b := bufs[b].(locked := true)];
      aux := aux[b := aux[b].(waiting := aux[b].waiting - 1)];
    }

    // the rest of bread: read the block in unless it is there already
    method Fill(b: nat)
      requires Valid() && b < NBUF && bufs[b].locked
      modifies `bufs
      ensures Valid() && bufs[b].key in view && bufs[b].data == view[bufs[b].key]
      ensures bufs == old(bufs)[b := old(bufs[b]).(valid := true, data := bufs[b].data)]
    {
      hide Linked, Complete;
      assert BufOk(bufs[b], aux[b], disk, view);
      if !bufs[b].valid {
        assert Backed(bufs, disk, view, bufs[b].key);
        assert Unique(bufs);
        var block := disk[bufs[b].key];
        TouchKeeps(bufs, aux, disk, view, b, bufs[b].(data := block, valid := true), aux[b]);
        assert aux[b := aux[b]] == aux;
        bufs := bufs[b := bufs[b].(data := block, valid := true)];
      }
    }

    // the holder of b changes its data
    method Change(b: nat, data: Block)
      requires Valid() && b < NBUF && bufs[b].locked && bufs[b].valid
      modifies `bufs, `aux, `view
      ensures Valid() && view == old(view)[bufs[b].key := data]
      ensures bufs == old(bufs)[b := old(bufs[b]).(data := data)]
      ensures aux == old(aux)[b := old(aux[b]).(touched := true)]
    {
      hide Linked, Complete;
      StoreKeeps(bufs, aux, disk, view, b, data);
      view := view[bufs[b].key := data];
      aux := aux[b := aux[b].(touched := true)];
      bufs := bufs[b := bufs[b].(data := data)];
    }

    // log_write's mark: the buffer is pinned until the log has installed it
    method Pin(b: nat)
      requires Valid() && b < NBUF && bufs[b].locked && bufs[b].valid
      modifies `bufs, `aux
      ensures Valid() && bufs == old(bufs)[b := old(bufs[b]).(dirty := true)]
      ensures aux == old(aux)[b := old(aux[b]).(touched := false)]
    {
      hide Linked, Complete;
      assert BufOk(bufs[b], aux[b], disk, view);
      TouchKeeps(bufs, aux, disk, view, b, bufs[b].(dirty := true), aux[b].(touched := false));
      bufs := bufs[b := bufs[b].(dirty := true)];
      aux := aux[b := aux[b].(touched := false)];
    }

    // bwrite
    method Bwrite(b: nat)
      requires Valid() && b < NBUF && bufs[b].locked && bufs[b].valid
      modifies `bufs, `aux, `disk
      ensures Valid() && disk == old(disk)[bufs[b].key := bufs[b].data]
      ensures bufs == old(bufs)[b := old(bufs[b]).(dirty := false)]
      ensures aux == old(aux)[b := old(aux[b]).(touched := false)]
    {
      hide Linked, Complete;
      WriteOutKeeps(bufs, aux, disk, view, b);
      disk := disk[bufs[b].key := bufs[b].data];
      aux := aux[b := aux[b].(touched := false)];
      bufs := bufs[b := bufs[b].(dirty := false)];
    }

    // the list surgery of brelse
    method MoveToFront(b: nat)
      requires Valid() && b < NBUF
      modifies `next, `prev, `order
      ensures Valid()
      ensures exists j :: 0 <= j < NBUF && old(order)[j] == b && order == [b] + Without(old(order), j)
    {
      hide Coherent, BufOk;
      assert b in order;
      ghost var j :| 0 <= j < NBUF && order[j] == b;
      UnlinkKeeps(next, prev, order, j);
      ghost var rest := Without(order, j);
      ghost var n, p := next[b], prev[b];
      prev := prev[next[b] := prev[b]];
      next := next[prev[b] := next[b]];
      Moved(order, j);
      PushFrontKeeps(next, prev, rest, b);
      next := next[b := next[HEAD]];
      prev := prev[b := HEAD];
      prev := prev[next[HEAD] := b];
      next := next[HEAD := b];
      order := [b] + rest;
    }

    // brelse up to releasesleep, by a holder that has not left a change behind unannounced
    method Release(b: nat)
      requires Valid() && b < NBUF && bufs[b].locked && !aux[b].touched
      modifies `bufs, `aux
      ensures Valid() && bufs == old(bufs)[b := old(bufs[b]).(locked := false)]
      ensures aux == old(aux)[b := old(aux[b]).(leaving := old(aux[b].leaving) + 1)]
    {
      hide Linked, Complete;
      assert BufOk(bufs[b], aux[b], disk, view);
      TouchKeeps(bufs, aux, disk, view, b, bufs[b].(locked := false), aux[b].(leaving := aux[b].leaving + 1));
      bufs := bufs[b := bufs[b].(locked := false)];
      aux := aux[b := aux[b].(leaving := aux[b].leaving + 1)];
    }

    // the rest of brelse, under bcache.lock; another process may have locked b in between
    method Drop(b: nat)
      requires Valid() && b < NBUF && aux[b].leaving > 0
      modifies `bufs, `aux, `next, `prev, `order
      ensures Valid() && bufs == old(bufs)[b := old(bufs[b]).(refcnt := old(bufs[b].refcnt) - 1)]
      ensures aux == old(aux)[b := old(aux[b]).(leaving := old(aux[b].leaving) - 1)]
      ensures bufs[b].refcnt > 0 ==> order == old(order)
      ensures bufs[b].refcnt == 0 ==> !bufs[b].locked
      ensures bufs[b].refcnt == 0 ==>
        exists j :: 0 <= j < NBUF && old(order)[j] == b && order == [b] + Without(old(order), j)
    {
      hide Linked, Complete;
      assert BufOk(bufs[b], aux[b], disk, view);
      TouchKeeps(bufs, aux, disk, view, b,
                 bufs[b].(refcnt := bufs[b].refcnt - 1), aux[b].(leaving := aux[b].leaving - 1));
      bufs := bufs[b := bufs[b].(refcnt := bufs[b].refcnt - 1)];
      aux := aux[b := aux[b].(leaving := aux[b].leaving - 1)];
      if bufs[b].refcnt == 0 {
        MoveToFront(b);
      }
    }
  }

  /** Taking a buffer off the list and putting it in front keeps every buffer on it once. */
  lemma Moved(order: seq<nat>, j: nat)
    requires Complete(order) && j < NBUF
    ensures order[j] !in Without(order, j) && Complete([order[j]] + Without(order, j))
  {
    var order' := [order[j]] + Without(order, j);
    forall b | 0 <= b < NBUF ensures b in order' {
      assert b in order;
      var i :| 0 <= i < |order| && order[i] == b;
      assert order'[if i == j then 0 else if i < j then i + 1 else i] == b;
    }
  }
}
