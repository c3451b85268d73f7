/** The block allocator, block map, read, write and truncate of fs.c, updating in place. */
module FileSystem {
  import opened FileLayout

  // ---------------------------------------------------------------- files as byte strings

  /** Number of blocks a file of len bytes occupies. */
  function Blocks(len: nat): nat { (len + BSIZE - 1) / BSIZE }

  /** Exactly the blocks below len are there, and the indirect block if they need it. */
  ghost predicate HoleFree(fs: Fs, i: nat, len: nat)
    requires i < |fs.ino| && |fs.ino[i].addrs| == NDIRECT + 1
  {
    && len <= MAXFILE * BSIZE
    && (forall slot :: 0 <= slot < MAXFILE ==> (Addr(fs, i, slot) != 0 <==> slot < Blocks(len)))
    && (Addr(fs, i, INDIRECT) != 0 <==> Blocks(len) > NDIRECT)
  }

  ghost function ByteAt(fs: Fs, i: nat, k: nat): Byte
    requires i < |fs.ino| && |fs.ino[i].addrs| == NDIRECT + 1
  {
    var a := Addr(fs, i, k / BSIZE);
    if 0 < a < |fs.data| then fs.data[a][k % BSIZE] else 0
  }

  ghost function Contents(fs: Fs, i: nat): (r: seq<Byte>)
    requires i < |fs.ino| && |fs.ino[i].addrs| == NDIRECT + 1
  {
    seq(fs.ino[i].size, k requires 0 <= k => ByteAt(fs, i, k))
  }

  const T_DEV := 3

  /** src written over (and past the end of) file at off. */
  function Splice(file: seq<Byte>, off: nat, src: seq<Byte>): seq<Byte>
    requires off <= |file|
  {
    file[..off] + src + if off + |src| < |file| then file[off + |src|..] else []
  }

  /** Slot of file j holds the same block with the same contents. */
  ghost predicate SameSlot(fs: Fs, fs': Fs, j: nat, slot: nat)
    requires j < |fs.ino| && |fs.ino[j].addrs| == NDIRECT + 1
    requires j < |fs'.ino| && |fs'.ino[j].addrs| == NDIRECT + 1
    requires |fs.data| == |fs'.data|
  {
    var a := Addr(fs, j, slot);
    Addr(fs', j, slot) == a && (slot < MAXFILE && 0 < a < |fs.data| ==> fs'.data[a] == fs.data[a])
  }

  ghost predicate SameFile(g: Geometry, fs: Fs, fs': Fs, j: nat)
    requires Shaped(g, fs) && Shaped(g, fs') && j < |fs.ino| == |fs'.ino|
  {
    fs'.ino[j] == fs.ino[j] && forall slot :: 0 <= slot <= INDIRECT ==> SameSlot(fs, fs', j, slot)
  }

  ghost predicate OthersKept(g: Geometry, fs: Fs, fs': Fs, i: nat) {
    && Shaped(g, fs) && Shaped(g, fs') && |fs.ino| == |fs'.ino|
    && forall j :: 0 <= j < |fs.ino| && j != i ==> SameFile(g, fs, fs', j)
  }

  lemma SameFileSameContents(g: Geometry, fs: Fs, fs': Fs, j: nat)
    requires Shaped(g, fs) && Shaped(g, fs') && j < |fs.ino| == |fs'.ino| && SameFile(g, fs, fs', j)
    requires fs.ino[j].size <= MAXFILE * BSIZE
    ensures Contents(fs', j) == Contents(fs, j)
  {
    forall k | 0 <= k < fs.ino[j].size ensures ByteAt(fs', j, k) == ByteAt(fs, j, k) {
      assert SameSlot(fs, fs', j, k / BSIZE);
    }
  }

  /** A fresh zeroed block b appeared in one slot of file i, and nothing else changed. */
  ghost predicate Mapped(g: Geometry, fs: Fs, fs': Fs, i: nat, slot: nat, b: nat) {
    && OthersKept(g, fs, fs', i)
    && i < |fs.ino| && 0 < b < g.size
    && Addr(fs', i, slot) == b && fs'.data[b] == Zeros()
    && fs'.ino[i] == fs.ino[i].(addrs := fs'.ino[i].addrs)
    && forall s :: 0 <= s <= INDIRECT && s != slot ==> SameSlot(fs, fs', i, s)
  }

  lemma MapTop(g: Geometry, fs: Fs, owner: map<nat, Place>, i: nat, k: nat, b: nat)
    requires Consistent(g, fs, owner, {}) && b < g.size && !Bit(fs.bits, b)
    requires i < |fs.ino| && k <= NDIRECT && fs.ino[i].addrs[k] == 0
    ensures var fs' := AddrSet(Allocated(fs, b), i, k, b);
            Mapped(g, fs, fs', i, TopSlot(k), b) && Consistent(g, fs', owner[b := Place(i, TopSlot(k))], {})
  {
    var mid := Allocated(fs, b);
    var fs' := AddrSet(mid, i, k, b);
    AllocateKeeps(g, fs, owner, {}, b);
    AttachTop(g, mid, owner, {} + {b}, i, k, b);
    assert {} + {b} - {b} == {};
    forall j, s | 0 <= j < |fs.ino| && 0 <= s <= INDIRECT && !(j == i && s == TopSlot(k))
      ensures SameSlot(fs, fs', j, s)
    {
      AddrAfterTop(g, mid, i, k, b, j, s);
      assert Addr(fs, j, s) != b;
    }
    AddrAfterTop(g, mid, i, k, b, i, TopSlot(k));
    forall j | 0 <= j < |fs.ino| && j != i ensures SameFile(g, fs, fs', j) {}
  }

  /** Listing a fresh block in the indirect block leaves every other slot as it was. */
  lemma WordSlot(g: Geometry, fs: Fs, owner: map<nat, Place>, i: nat, k: nat, b: nat, j: nat, s: nat)
    requires Consistent(g, fs, owner, {}) && b < g.size && !Bit(fs.bits, b)
    requires i < |fs.ino| && k < NINDIRECT && fs.ino[i].addrs[NDIRECT] != 0 && fs.ino[i].addrs[NDIRECT] < |fs.data|
    requires Consistent(g, Allocated(fs, b), owner, {b}) && b !in owner
    requires j < |fs.ino| && s <= INDIRECT && !(j == i && s == NDIRECT + k)
    ensures SameSlot(fs, WordSet(Allocated(fs, b), fs.ino[i].addrs[NDIRECT], k, b), j, s)
  {
    var x := fs.ino[i].addrs[NDIRECT];
    assert Addr(fs, i, INDIRECT) == x && x in owner;
    AllocateKeeps(g, fs, owner, {}, b);
    AddrAfterWord(g, Allocated(fs, b), owner, i, k, b, j, s);
    assert Addr(fs, j, s) != b;
    assert s < MAXFILE ==> Addr(fs, j, s) != x;
  }

  lemma MapWord(g: Geometry, fs: Fs, owner: map<nat, Place>, i: nat, k: nat, b: nat)
    requires Consistent(g, fs, owner, {}) && b < g.size && !Bit(fs.bits, b)
    requires i < |fs.ino| && k < NINDIRECT && fs.ino[i].addrs[NDIRECT] != 0
    requires Addr(fs, i, NDIRECT + k) == 0
    ensures fs.ino[i].addrs[NDIRECT] < |fs.data|
    ensures var fs' := WordSet(Allocated(fs, b), fs.ino[i].addrs[NDIRECT], k, b);
            Mapped(g, fs, fs', i, NDIRECT + k, b) && Consistent(g, fs', owner[b := Place(i, NDIRECT + k)], {})
  {
    var x := fs.ino[i].addrs[NDIRECT];
    var mid := Allocated(fs, b);
    AllocateKeeps(g, fs, owner, {}, b);
    assert {} + {b} == {b} && {b} - {b} == {};
    AttachWord(g, mid, owner, {b}, i, k, b);
    var fs' := WordSet(mid, x, k, b);
    AddrAfterWord(g, mid, owner, i, k, b, i, NDIRECT + k);
    hide Owned, Marked, Addr, SameSlot;
    forall j, s | 0 <= j < |fs.ino| && 0 <= s <= INDIRECT && !(j == i && s == NDIRECT + k)
      ensures SameSlot(fs, fs', j, s)
    {
      WordSlot(g, fs, owner, i, k, b, j, s);
    }
    forall j | 0 <= j < |fs.ino| && j != i ensures SameFile(g, fs, fs', j) {}
  }

  /** Block bn of file i is now b, fresh and zeroed; an indirect block may have been added. */
  ghost predicate Extended(g: Geometry, fs: Fs, fs': Fs, i: nat, bn: nat, b: nat) {
    && OthersKept(g, fs, fs', i)
    && i < |fs.ino| && bn < MAXFILE && 0 < b < g.size
    && Addr(fs', i, bn) == b && fs'.data[b] == Zeros()
    && fs'.ino[i] == fs.ino[i].(addrs := fs'.ino[i].addrs)
    && (Addr(fs', i, INDIRECT) != 0 <==> Addr(fs, i, INDIRECT) != 0 || bn >= NDIRECT)
    && forall s :: 0 <= s < MAXFILE && s != bn ==> SameSlot(fs, fs', i, s)
  }

  lemma KeptRefl(g: Geometry, fs: Fs, i: nat)
    requires Shaped(g, fs)
    ensures OthersKept(g, fs, fs, i)
  {
    forall j | 0 <= j < |fs.ino| && j != i ensures SameFile(g, fs, fs, j) {}
  }

  lemma KeptTwice(g: Geometry, fs: Fs, mid: Fs, fs': Fs, i: nat)
    requires OthersKept(g, fs, mid, i) && OthersKept(g, mid, fs', i)
    ensures OthersKept(g, fs, fs', i)
  {
    forall j | 0 <= j < |fs.ino| && j != i ensures SameFile(g, fs, fs', j) {
      assert SameFile(g, fs, mid, j) && SameFile(g, mid, fs', j);
      forall s | 0 <= s <= INDIRECT ensures SameSlot(fs, fs', j, s) {
        assert SameSlot(fs, mid, j, s) && SameSlot(mid, fs', j, s);
      }
    }
  }

  lemma MapTwice(g: Geometry, fs: Fs, mid: Fs, fs': Fs, i: nat, x: nat, bn: nat, b: nat)
    requires Mapped(g, fs, mid, i, INDIRECT, x) && Mapped(g, mid, fs', i, bn, b) && NDIRECT <= bn < MAXFILE
    ensures Extended(g, fs, fs', i, bn, b)
  {
    KeptTwice(g, fs, mid, fs', i);
    assert SameSlot(mid, fs', i, INDIRECT);
    forall s | 0 <= s < MAXFILE && s != bn ensures SameSlot(fs, fs', i, s) {
      assert SameSlot(fs, mid, i, s) && SameSlot(mid, fs', i, s);
    }
  }

  lemma MapOnce(g: Geometry, fs: Fs, fs': Fs, i: nat, bn: nat, b: nat)
    requires Mapped(g, fs, fs', i, bn, b) && bn < MAXFILE
    requires bn >= NDIRECT ==> Addr(fs, i, INDIRECT) != 0
    ensures Extended(g, fs, fs', i, bn, b)
  {
    assert SameSlot(fs, fs', i, INDIRECT);
  }

  // ---------------------------------------------------------------- storing bytes

  function Stored(fs: Fs, a: nat, block: Block): Fs
    requires a < |fs.data|
  {
    fs.(data := fs.data[a := block])
  }

  lemma AddrAfterStore(g: Geometry, fs: Fs, owner: map<nat, Place>, i: nat, bn: nat, block: Block, j: nat, s: nat)
    requires Consistent(g, fs, owner, {}) && i < |fs.ino| && bn < MAXFILE && Addr(fs, i, bn) != 0
    requires j < |fs.ino| && s <= INDIRECT
    ensures Addr(fs, i, bn) < |fs.data|
    ensures Addr(Stored(fs, Addr(fs, i, bn), block), j, s) == Addr(fs, j, s)
  {
    assert Addr(fs, j, INDIRECT) != Addr(fs, i, bn);
  }

  lemma {:induction false} StoreKeeps(g: Geometry, fs: Fs, owner: map<nat, Place>, i: nat, bn: nat, block: Block)
    requires Consistent(g, fs, owner, {}) && i < |fs.ino| && bn < MAXFILE && Addr(fs, i, bn) != 0
    ensures Addr(fs, i, bn) < |fs.data|
    ensures var fs' := Stored(fs, Addr(fs, i, bn), block);
            && Consistent(g, fs', owner, {}) && OthersKept(g, fs, fs', i)
            && (forall s :: 0 <= s <= INDIRECT ==> Addr(fs', i, s) == Addr(fs, i, s))
            && (forall k :: 0 <= k < MAXFILE * BSIZE ==>
                  ByteAt(fs', i, k) == if k / BSIZE == bn then block[k % BSIZE] else ByteAt(fs, i, k))
  {
    var a := Addr(fs, i, bn);
    var fs' := Stored(fs, a, block);
    forall j, s | 0 <= j < |fs.ino| && 0 <= s <= INDIRECT ensures Addr(fs', j, s) == Addr(fs, j, s) {
      AddrAfterStore(g, fs, owner, i, bn, block, j, s);
    }
    forall j | 0 <= j < |fs.ino| && j != i ensures SameFile(g, fs, fs', j) {
      forall s | 0 <= s <= INDIRECT ensures SameSlot(fs, fs', j, s) {
        assert Addr(fs, j, s) != a;
      }
    }
    forall k | 0 <= k < MAXFILE * BSIZE
      ensures ByteAt(fs', i, k) == if k / BSIZE == bn then block[k % BSIZE] else ByteAt(fs, i, k)
    {
      assert k / BSIZE != bn ==> Addr(fs, i, k / BSIZE) != a;
    }
  }

  function Max(a: nat, b: nat): nat { if a < b then b else a }

  lemma ExtendedBytes(g: Geometry, fs: Fs, fs': Fs, i: nat, bn: nat, b: nat, k: nat)
    requires Extended(g, fs, fs', i, bn, b) && k < MAXFILE * BSIZE && k / BSIZE != bn
    ensures ByteAt(fs', i, k) == ByteAt(fs, i, k)
  {
    assert SameSlot(fs, fs', i, k / BSIZE);
  }

  /** The next block of a hole-free file appears at its end. */
  lemma ExtendedHoleFree(g: Geometry, fs: Fs, fs': Fs, i: nat, bn: nat, b: nat, len: nat, len': nat)
    requires Extended(g, fs, fs', i, bn, b) && HoleFree(fs, i, len)
    requires bn == Blocks(len) && bn * BSIZE < len' <= (bn + 1) * BSIZE
    ensures HoleFree(fs', i, len')
  {
    assert Blocks(len') == bn + 1;
    forall slot | 0 <= slot < MAXFILE ensures Addr(fs', i, slot) != 0 <==> slot < Blocks(len') {
      assert slot != bn ==> SameSlot(fs, fs', i, slot);
    }
  }

  /** Arithmetic of one chunk: it stays in block bn, which exists or is the next one. */
  lemma ChunkBlocks(off: nat, m: nat, len: nat)
    requires off <= len && m >= 1 && off % BSIZE + m <= BSIZE
    ensures off / BSIZE <= Blocks(len)
    ensures off / BSIZE < Blocks(len) ==> Blocks(Max(len, off + m)) == Blocks(len)
    ensures off / BSIZE == Blocks(len) ==> off == len && off == (off / BSIZE) * BSIZE
    ensures off < len ==> off / BSIZE < Blocks(len)
  {
  }

  lemma ChunkHoleFree(g: Geometry, fs: Fs, mid: Fs, fs': Fs, i: nat, addr: nat, off: nat, m: nat, len: nat)
    requires OthersKept(g, mid, fs', i) && i < |mid.ino| && fs'.ino == mid.ino
    requires OthersKept(g, fs, mid, i) && HoleFree(fs, i, len)
    requires off <= len && m >= 1 && off % BSIZE + m <= BSIZE && off + m <= MAXFILE * BSIZE
    requires if off / BSIZE < Blocks(len) then mid == fs else Extended(g, fs, mid, i, off / BSIZE, addr)
    requires forall s :: 0 <= s <= INDIRECT ==> Addr(fs', i, s) == Addr(mid, i, s)
    ensures HoleFree(fs', i, Max(len, off + m))
  {
    ChunkBlocks(off, m, len);
    if off / BSIZE == Blocks(len) {
      ExtendedHoleFree(g, fs, mid, i, off / BSIZE, addr, len, off + m);
    }
  }

  lemma ChunkBytes(g: Geometry, fs: Fs, mid: Fs, fs': Fs, i: nat, addr: nat, off: nat, chunk: seq<Byte>, len: nat,
                   block: Block, k: nat)
    requires OthersKept(g, fs, mid, i) && i < |mid.ino| && OthersKept(g, mid, fs', i)
    requires off <= len <= MAXFILE * BSIZE && |chunk| >= 1 && off % BSIZE + |chunk| <= BSIZE
    requires off + |chunk| <= MAXFILE * BSIZE
    requires if off / BSIZE < Blocks(len) then mid == fs else Extended(g, fs, mid, i, off / BSIZE, addr)
    requires addr == Addr(mid, i, off / BSIZE) && 0 < addr < |mid.data|
    requires block == mid.data[addr][..off % BSIZE] + chunk + mid.data[addr][off % BSIZE + |chunk|..]
    requires k < Max(len, off + |chunk|)
    requires ByteAt(fs', i, k) == if k / BSIZE == off / BSIZE then block[k % BSIZE] else ByteAt(mid, i, k)
    ensures ByteAt(fs', i, k) == if off <= k < off + |chunk| then chunk[k - off] else ByteAt(fs, i, k)
  {
    ChunkBlocks(off, |chunk|, len);
    if k / BSIZE == off / BSIZE {
      assert off <= k < off + |chunk| <==> off % BSIZE <= k % BSIZE < off % BSIZE + |chunk|;
      assert block[k % BSIZE] == if off <= k < off + |chunk| then chunk[k - off] else mid.data[addr][k % BSIZE];
    } else if off / BSIZE == Blocks(len) {
      ExtendedBytes(g, fs, mid, i, off / BSIZE, addr, k);
    }
  }

  class FileStore {
    const g: Geometry
    var bits: seq<Byte>
    var data: seq<Block>
    var ino: seq<Inode>          // inodes in memory
    var dino: seq<Inode>         // inodes on disk
    ghost var owner: map<nat, Place>

    ghost function State(): Fs
      reads this
    {
      Fs(bits, data, ino)
    }

    ghost predicate Valid()
      reads this
    {
      Consistent(g, State(), owner, {}) && |dino| == |ino|
    }

    ghost predicate Full()
      reads this
    {
      g.size <= |bits| * 8 && forall c :: 0 <= c < g.size ==> Bit(bits, c)
    }

    /** Any consistent image, with the inodes in memory as they are on disk. */
    constructor (g: Geometry, fs: Fs, ghost owner: map<nat, Place>)
      requires Consistent(g, fs, owner, {})
      ensures Valid() && State() == fs && dino == ino && this.owner == owner
    {
      this.g, bits, data, ino, dino := g, fs.bits, fs.data, fs.ino, fs.ino;
      this.owner := owner;
    }

    // balloc: the first free block, marked and zeroed; false is "out of blocks".
    method Balloc() returns (ok: bool, r: nat)
      requires Shaped(g, State())
      modifies `bits, `data
      ensures ok ==> r < g.size && !Bit(old(bits), r) && State() == Allocated(old(State()), r)
      ensures ok ==> forall c :: 0 <= c < r ==> Bit(old(bits), c)
      ensures !ok ==> State() == old(State()) && Full()
    {
      var b := 0;
      while b < g.size
        invariant b % BPB == 0
        invariant forall c :: 0 <= c < b && c < g.size ==> Bit(bits, c)
        invariant State() == old(State())
        decreases g.size - b
      {
        var bi := 0;
        while bi < BPB && b + bi < g.size
          invariant 0 <= bi <= BPB && b + bi <= g.size
          invariant forall c :: 0 <= c < b + bi ==> Bit(bits, c)
          invariant State() == old(State())
        {
          var at := (b / BPB) * BSIZE + bi / 8;
          assert at == (b + bi) / 8 && (b + bi) % 8 == bi % 8;
          if !BitOf(bits[at], bi % 8) {
            assert !Bit(bits, b + bi);
            ByteFits(bits[at], bi % 8);
            bits := bits[at := bits[at] + Mask(bi % 8)];
            data := data[b + bi := Zeros()];
            return true, b + bi;
          }
          bi := bi + 1;
        }
        b := b + BPB;
      }
      return false, 0;
    }

    // bfree: false is "freeing free block".
    method Bfree(b: nat) returns (ok: bool)
      requires Shaped(g, State()) && b < g.size
      modifies `bits
      ensures ok <==> Bit(old(bits), b)
      ensures ok ==> bits == ClearBit(old(bits), b)
      ensures !ok ==> bits == old(bits)
    {
      var bi := b % BPB;
      var at := (b / BPB) * BSIZE + bi / 8;
      assert at == b / 8 && bi % 8 == b % 8;
      if !BitOf(bits[at], bi % 8) { return false; }
      ClearBitOf(bits[at], bi % 8);
      bits := bits[at := bits[at] - Mask(bi % 8)];
      ok := true;
    }

    // Address k of an inode gets a block from balloc.
    method AllocTop(i: nat, k: nat) returns (ok: bool, addr: nat)
      requires Valid() && i < |ino| && k <= NDIRECT && ino[i].addrs[k] == 0
      modifies `bits, `data, `ino, `owner
      ensures !ok ==> Full()
      ensures ok ==> Valid() && Mapped(g, old(State()), State(), i, TopSlot(k), addr)
      ensures ok ==> ino[i].addrs == old(ino[i].addrs)[k := addr]
    {
      ghost var fs := State();
      ok, addr := Balloc();
      if ok {
        MapTop(g, fs, owner, i, k, addr);
        ino := ino[i := ino[i].(addrs := ino[i].addrs[k := addr])];
        owner := owner[addr := Place(i, TopSlot(k))];
        assert State() == AddrSet(Allocated(fs, addr), i, k, addr);
      }
    }

    // a[k] = balloc(), in the indirect block of file i
    method AllocWord(i: nat, k: nat) returns (ok: bool, addr: nat)
      requires Valid() && i < |ino| && k < NINDIRECT && ino[i].addrs[NDIRECT] != 0
      requires Addr(State(), i, NDIRECT + k) == 0
      modifies `bits, `data, `owner
      ensures !ok ==> Full()
      ensures ok ==> Valid() && Mapped(g, old(State()), State(), i, NDIRECT + k, addr)
    {
      ghost var fs := State();
      ok, addr := Balloc();
      if ok {
        MapWord(g, fs, owner, i, k, addr);
        var x := ino[i].addrs[NDIRECT];
        data := data[x := PutWord(data[x], k, addr)];
        owner := owner[addr := Place(i, NDIRECT + k)];
        assert State() == WordSet(Allocated(fs, addr), x, k, addr);
      }
    }

    /** Blocks in slots are data blocks. */
    lemma InRange(i: nat, slot: nat)
      requires Valid() && i < |ino| && slot <= INDIRECT && Addr(State(), i, slot) != 0
      ensures g.nmeta <= Addr(State(), i, slot) < g.size
    {
    }

    // The second half of bmap: a block listed in the indirect block.
    method BmapIndirect(i: nat, bn: nat) returns (ok: bool, addr: nat)
      requires Valid() && i < |ino| && NDIRECT <= bn < MAXFILE
      modifies `bits, `data, `ino, `owner
      ensures !ok ==> Full() && old(Addr(State(), i, bn)) == 0
      ensures ok ==> Valid() && i < |ino| && addr == Addr(State(), i, bn) && 0 < addr < g.size
      ensures ok && old(Addr(State(), i, bn)) != 0 ==> State() == old(State()) && owner == old(owner)
      ensures ok && old(Addr(State(), i, bn)) == 0 ==> Extended(g, old(State()), State(), i, bn, addr)
    {
      hide Owned, Marked, Extended;
      var k := bn - NDIRECT;
      ghost var fs := State();
      ok, addr := true, ino[i].addrs[NDIRECT];
      ghost var hadIndirect := addr != 0;
      if addr == 0 {
        ok, addr := AllocTop(i, NDIRECT);
        if !ok { return; }
      }
      assert Addr(State(), i, INDIRECT) == addr;
      InRange(i, INDIRECT);
      ghost var mid, x := State(), addr;
      assert !hadIndirect ==> SameSlot(fs, mid, i, bn);
      addr := Word(data[addr], k);
      assert addr == Addr(State(), i, bn);
      if addr == 0 {
        ok, addr := AllocWord(i, k);
        if ok {
          if hadIndirect {
            MapOnce(g, fs, State(), i, bn, addr);
          } else {
            MapTwice(g, fs, mid, State(), i, x, bn, addr);
          }
        }
      } else {
        InRange(i, bn);
      }
    }

    // bmap: false is a panic, either "out of range" or "out of blocks".
    method Bmap(i: nat, bn: nat) returns (ok: bool, addr: nat)
      requires Valid() && i < |ino|
      modifies `bits, `data, `ino, `owner
      ensures !ok ==> bn >= MAXFILE || (Full() && old(Addr(State(), i, bn)) == 0)
      ensures ok ==> Valid() && bn < MAXFILE && i < |ino| && addr == Addr(State(), i, bn) && 0 < addr < g.size
      ensures ok && old(Addr(State(), i, bn)) != 0 ==> State() == old(State()) && owner == old(owner)
      ensures ok && old(Addr(State(), i, bn)) == 0 ==> Extended(g, old(State()), State(), i, bn, addr)
    {
      hide Owned, Marked, Extended;
      if bn < NDIRECT {
        ghost var fs := State();
        ok, addr := true, ino[i].addrs[bn];
        if addr == 0 {
          ok, addr := AllocTop(i, bn);
          if ok { MapOnce(g, fs, State(), i, bn, addr); }
        } else {
          InRange(i, bn);
        }
      } else if bn - NDIRECT < NINDIRECT {
        ok, addr := BmapIndirect(i, bn);
      } else {
        ok, addr := false, 0;
      }
    }

    // One turn of writei's loop: chunk goes into the block holding byte off.
    method WriteChunk(i: nat, off: nat, chunk: seq<Byte>, ghost len: nat) returns (ok: bool)
      requires Valid() && i < |ino| && HoleFree(State(), i, len)
      requires off <= len && |chunk| >= 1 && off % BSIZE + |chunk| <= BSIZE && off + |chunk| <= MAXFILE * BSIZE
      modifies `bits, `data, `ino, `owner
      ensures !ok ==> Full()
      ensures ok ==> Valid() && OthersKept(g, old(State()), State(), i)
      ensures ok ==> ino[i] == old(ino[i]).(addrs := ino[i].addrs)
      ensures ok ==> HoleFree(State(), i, Max(len, off + |chunk|))
      ensures ok && off < len ==> ino == old(ino)
      ensures ok ==> forall k :: 0 <= k < Max(len, off + |chunk|) ==>
                ByteAt(State(), i, k) == if off <= k < off + |chunk| then chunk[k - off] else old(ByteAt(State(), i, k))
    {
      hide Owned, Marked;
      var bn := off / BSIZE;
      ghost var fs := State();
      var addr;
      ok, addr := Bmap(i, bn);
      if !ok { return; }
      ghost var mid := State();
      ChunkBlocks(off, |chunk|, len);
      var o := off % BSIZE;
      var block := data[addr];
      block := block[..o] + chunk + block[o + |chunk|..];
      StoreKeeps(g, State(), owner, i, bn, block);
      data := data[addr := block];
      ghost var fs' := State();
      assert fs' == Stored(mid, addr, block);
      assert OthersKept(g, fs, mid, i);
      KeptTwice(g, fs, mid, fs', i);
      ChunkHoleFree(g, fs, mid, fs', i, addr, off, |chunk|, len);
      forall k | 0 <= k < Max(len, off + |chunk|)
        ensures ByteAt(fs', i, k) == if off <= k < off + |chunk| then chunk[k - off] else ByteAt(fs, i, k)
      {
        ChunkBytes(g, fs, mid, fs', i, addr, off, chunk, len, block, k);
      }
    }

    // iupdate: copy the inode to disk.
    method Iupdate(i: nat)
      requires Valid() && i < |ino|
      modifies `dino
      ensures Valid() && dino == old(dino)[i := ino[i]]
    {
      dino := dino[i := ino[i]];
    }

    /** A regular file whose inode on disk is up to date and which has no holes. */
    ghost predicate Settled(i: nat)
      reads this
    {
      && Valid() && i < |ino| && dino[i] == ino[i] && HoleFree(State(), i, ino[i].size)
    }

    ghost function FileOf(i: nat): (r: seq<Byte>)
      requires Settled(i)
      reads this
      ensures |r| == ino[i].size
    {
      Contents(State(), i)
    }

    // One turn of readi's loop: m bytes from the block holding byte at.
    method ReadChunk(i: nat, at: nat, m: nat) returns (piece: seq<Byte>)
      requires Settled(i) && at % BSIZE + m <= BSIZE && m >= 1 && at + m <= ino[i].size
      modifies `bits, `data, `ino, `owner
      ensures Settled(i) && State() == old(State()) && owner == old(owner)
      ensures piece == Contents(State(), i)[at..at + m]
    {
      hide Owned, Marked;
      assert Addr(State(), i, at / BSIZE) != 0;
      var ok, addr := Bmap(i, at / BSIZE);
      piece := data[addr][at % BSIZE..at % BSIZE + m];
      forall k | 0 <= k < m ensures piece[k] == Contents(State(), i)[at + k] {
        assert (at + k) / BSIZE == at / BSIZE && (at + k) % BSIZE == at % BSIZE + k;
      }
    }

    // readi; device stands for the answer of a device driver.
    method Readi(i: nat, off: nat, n: nat, device: int) returns (r: int, dst: seq<Byte>)
      requires Settled(i) && off < UINT && n < UINT
      modifies `bits, `data, `ino, `owner
      ensures Settled(i) && State() == old(State()) && owner == old(owner)
      ensures ino[i].kind == T_DEV ==> r == device
      ensures ino[i].kind != T_DEV ==> (r == -1 <==> off > ino[i].size || off + n >= UINT)
      ensures ino[i].kind != T_DEV && r != -1 ==>
        r == |dst| && off + r <= |Contents(State(), i)| && dst == Contents(State(), i)[off..off + r]
      ensures ino[i].kind != T_DEV && r != -1 ==> r == n || off + r == ino[i].size
    {
      hide Consistent, HoleFree, ByteAt;
      dst := [];
      if ino[i].kind == T_DEV { return device, []; }
      if off > ino[i].size || (off + n) % UINT < off { return -1, []; }
      var want := if off + n > ino[i].size then ino[i].size - off else n;
      ghost var file := FileOf(i);
      var tot := 0;
      while tot < want
        invariant 0 <= tot <= want
        invariant Settled(i) && State() == old(State()) && owner == old(owner) && file == FileOf(i)
        invariant dst == file[off..off + tot]
        decreases want - tot
      {
        var at := off + tot;
        var room := BSIZE - at % BSIZE;
        var m := if want - tot < room then want - tot else room;
        var piece := ReadChunk(i, at, m);
        dst := dst + piece;
        tot := tot + m;
      }
      r := want;
    }

    // writei's loop: false is "out of blocks".
    method WriteAll(i: nat, off: nat, src: seq<Byte>) returns (ok: bool)
      requires Settled(i) && off <= ino[i].size && off + |src| <= MAXFILE * BSIZE
      modifies `bits, `data, `ino, `owner
      ensures !ok ==> Full()
      ensures ok ==> Valid() && OthersKept(g, old(State()), State(), i)
      ensures ok ==> ino[i] == old(ino[i]).(addrs := ino[i].addrs)
      ensures ok ==> HoleFree(State(), i, Max(ino[i].size, off + |src|))
      ensures ok && off + |src| <= ino[i].size ==> ino == old(ino)
      ensures ok ==> forall k :: 0 <= k < Max(ino[i].size, off + |src|) ==>
                ByteAt(State(), i, k) == if off <= k < off + |src| then src[k - off] else old(ByteAt(State(), i, k))
    {
      hide Owned, Marked, ByteAt, HoleFree, SameFile;
      ghost var fs, len := State(), ino[i].size;
      ok := true;
      var tot := 0;
      KeptRefl(g, fs, i);
      while tot < |src|
        invariant 0 <= tot <= |src| && ok
        invariant Valid() && OthersKept(g, fs, State(), i)
        invariant ino[i] == fs.ino[i].(addrs := ino[i].addrs)
        invariant HoleFree(State(), i, Max(len, off + tot))
        invariant off + tot <= len ==> ino == fs.ino
        invariant forall k :: 0 <= k < Max(len, off + tot) ==>
                ByteAt(State(), i, k) == if off <= k < off + tot then src[k - off] else ByteAt(fs, i, k)
      {
        var at := off + tot;
        var room := BSIZE - at % BSIZE;
        var m := if |src| - tot < room then |src| - tot else room;
        ghost var mid := State();
        ok := WriteChunk(i, at, src[tot..tot + m], Max(len, at));
        if !ok { return; }
        KeptTwice(g, fs, mid, State(), i);
        tot := tot + m;
      }
    }

    // The tail of writei: record a larger size, then update the inode on disk.
    method Extend(i: nat, end: nat)
      requires Valid() && i < |ino| && HoleFree(State(), i, end)
      modifies `ino, `dino
      ensures Settled(i) && ino[i] == old(ino[i]).(size := end) && dino == old(dino)[i := ino[i]]
      ensures OthersKept(g, old(State()), State(), i)
      ensures forall k :: 0 <= k < MAXFILE * BSIZE ==> ByteAt(State(), i, k) == old(ByteAt(State(), i, k))
    {
      hide Owned, Marked;
      Resized(g, State(), owner, i, end);
      ino := ino[i := ino[i].(size := end)];
      Iupdate(i);
    }

    // writei once its arguments are accepted.
    method WriteFile(i: nat, off: nat, src: seq<Byte>) returns (ok: bool)
      requires Settled(i) && off <= ino[i].size && off + |src| <= MAXFILE * BSIZE
      modifies `bits, `data, `ino, `dino, `owner
      ensures !ok ==> Full()
      ensures ok ==> Settled(i) && FileOf(i) == Splice(old(FileOf(i)), off, src)
      ensures ok ==> OthersKept(g, old(State()), State(), i) && dino == old(dino)[i := ino[i]]
    {
      hide Owned, Marked, HoleFree, Splice, ByteAt;
      ghost var fs := State();
      ok := WriteAll(i, off, src);
      if !ok { return; }
      ghost var mid := State();
      if |src| > 0 && off + |src| > ino[i].size {
        Extend(i, off + |src|);
        KeptTwice(g, fs, mid, State(), i);
      }
      Spliced(fs, State(), i, off, src);
    }

    // writei; device stands for the answer of a device driver, false is a panic.
    method Writei(i: nat, off: nat, src: seq<Byte>, device: int) returns (ok: bool, r: int)
      requires Settled(i) && off < UINT && |src| < UINT
      modifies `bits, `data, `ino, `dino, `owner
      ensures !ok ==> Full()
      ensures ok ==> Settled(i)
      ensures ok && old(ino[i].kind) == T_DEV ==> r == device && State() == old(State()) && dino == old(dino)
      ensures ok && old(ino[i].kind) != T_DEV ==>
        (r == -1 <==> off > old(ino[i].size) || off + |src| >= UINT || off + |src| > MAXFILE * BSIZE)
      ensures ok && old(ino[i].kind) != T_DEV && r == -1 ==> State() == old(State()) && dino == old(dino)
      ensures ok && old(ino[i].kind) != T_DEV && r != -1 ==>
        && r == |src| && off <= |old(FileOf(i))| && FileOf(i) == Splice(old(FileOf(i)), off, src)
        && OthersKept(g, old(State()), State(), i) && dino == old(dino)[i := ino[i]]
    {
      hide Consistent, HoleFree, Splice, Contents, OthersKept;
      if ino[i].kind == T_DEV { return true, device; }
      if off > ino[i].size || (off + |src|) % UINT < off { return true, -1; }
      if off + |src| > MAXFILE * BSIZE { return true, -1; }
      ok := WriteFile(i, off, src);
      r := |src|;
    }

    // One turn of itrunc's first loop: false is "freeing free block".
    method FreeDirect(i: nat, k: nat) returns (ok: bool)
      requires Valid() && i < |ino| && k < NDIRECT
      modifies `bits, `ino, `owner
      ensures ok && Valid() && OthersKept(g, old(State()), State(), i)
      ensures ino[i] == old(ino[i]).(addrs := old(ino[i].addrs)[k := 0])
      ensures owner == old(owner) - {old(ino[i].addrs[k])}
    {
      ghost var fs := State();
      ok := true;
      assert Addr(State(), i, k) == ino[i].addrs[k];
      if ino[i].addrs[k] != 0 {
        var b := ino[i].addrs[k];
        DetachTop(g, fs, owner, i, k);
        ok := Bfree(b);
        ino := ino[i := ino[i].(addrs := ino[i].addrs[k := 0])];
        owner := owner - {b};
        assert State() == AddrSet(fs.(bits := ClearBit(fs.bits, b)), i, k, 0);
      } else {
        assert ino[i].addrs[k := 0] == ino[i].addrs && 0 !in owner;
        assert owner - {0} == owner;
        forall j | 0 <= j < |ino| && j != i ensures SameFile(g, fs, State(), j) {}
      }
    }

    // itrunc's second loop: free every block the indirect block lists.
    method FreeListed(i: nat) returns (ok: bool)
      requires Valid() && i < |ino| && ino[i].addrs[NDIRECT] != 0
      modifies `bits
      ensures ok && Shaped(g, State()) && Freeing(g, bits, owner, i, INDIRECT)
    {
      hide Owned, Marked, Freeing, Word, Addr;
      ghost var fs := State();
      var x := ino[i].addrs[NDIRECT];
      FreeingStart(g, fs, owner, i);
      ok := true;
      var j := 0;
      while j < NINDIRECT
        invariant 0 <= j <= NINDIRECT && ok && Shaped(g, State())
        invariant Freeing(g, bits, owner, i, NDIRECT + j)
      {
        ListedAddr(g, fs, owner, i, j);
        var b := Word(data[x], j);
        if b != 0 {
          FreeingStep(g, fs, bits, owner, i, NDIRECT + j);
          ok := Bfree(b);
        } else {
          FreeingSkip(g, fs, bits, owner, i, NDIRECT + j);
        }
        j := j + 1;
      }
    }

    // itrunc's second half: the listed blocks, then the indirect block itself.
    method FreeIndirect(i: nat) returns (ok: bool)
      requires Valid() && i < |ino| && ino[i].addrs[NDIRECT] != 0
      modifies `bits, `ino, `owner
      ensures ok && Valid() && OthersKept(g, old(State()), State(), i)
      ensures ino[i] == old(ino[i]).(addrs := old(ino[i].addrs)[NDIRECT := 0])
      ensures owner == Without(old(owner), i, INDIRECT + 1)
    {
      hide Owned, Marked, Without, Freeing;
      ghost var fs := State();
      assert Addr(fs, i, INDIRECT) == ino[i].addrs[NDIRECT];
      ok := FreeListed(i);
      FreeingStep(g, fs, bits, owner, i, INDIRECT);
      ok := Bfree(ino[i].addrs[NDIRECT]);
      DropIndirect(g, fs, bits, owner, i);
      ino := ino[i := ino[i].(addrs := ino[i].addrs[NDIRECT := 0])];
      owner := Without(owner, i, INDIRECT + 1);
      assert State() == AddrSet(fs.(bits := bits), i, NDIRECT, 0);
    }

    /** The owners are the old ones, less some of file i. */
    ghost predicate OwnersLeft(before: map<nat, Place>, i: nat)
      reads this
    {
      && (forall b :: b in owner ==> b in before && owner[b] == before[b])
      && (forall b :: b in before && before[b].i != i ==> b in owner)
    }

    // itrunc's first loop.
    method FreeDirects(i: nat) returns (ok: bool)
      requires Valid() && i < |ino|
      modifies `bits, `ino, `owner
      ensures ok && Valid() && OthersKept(g, old(State()), State(), i) && OwnersLeft(old(owner), i)
      ensures forall c :: 0 <= c < NDIRECT ==> ino[i].addrs[c] == 0
      ensures ino[i] == old(ino[i]).(addrs := ino[i].addrs)
    {
      hide Marked, Addr;
      ghost var fs := State();
      ok := true;
      var k := 0;
      KeptRefl(g, fs, i);
      while k < NDIRECT
        invariant 0 <= k <= NDIRECT && ok && Valid() && OthersKept(g, fs, State(), i)
        invariant forall c :: 0 <= c < k ==> ino[i].addrs[c] == 0
        invariant ino[i] == old(ino[i]).(addrs := ino[i].addrs)
        invariant OwnersLeft(old(owner), i)
      {
        ghost var mid := State();
        OwnAddr(i, k);
        ok := FreeDirect(i, k);
        KeptTwice(g, fs, mid, State(), i);
        k := k + 1;
      }
    }

    lemma OwnAddr(i: nat, k: nat)
      requires Valid() && i < |ino| && k < NDIRECT
      ensures ino[i].addrs[k] in owner ==> owner[ino[i].addrs[k]].i == i
    {
      assert Addr(State(), i, k) == ino[i].addrs[k];
    }

    // itrunc; false is "freeing free block".
    method Itrunc(i: nat) returns (ok: bool)
      requires Valid() && i < |ino|
      modifies `bits, `ino, `dino, `owner
      ensures ok && Settled(i) && FileOf(i) == [] && OthersKept(g, old(State()), State(), i)
      ensures dino == old(dino)[i := ino[i]]
      ensures forall slot :: 0 <= slot <= INDIRECT ==> Addr(State(), i, slot) == 0
      ensures forall b :: b in owner <==> b in old(owner) && old(owner)[b].i != i
    {
      hide Owned, Marked, Addr, SameFile;
      ghost var fs := State();
      ok := FreeDirects(i);
      if ino[i].addrs[NDIRECT] != 0 {
        ghost var mid := State();
        ok := FreeIndirect(i);
        KeptTwice(g, fs, mid, State(), i);
      }
      ghost var mid := State();
      EmptyFile(g, mid, owner, i);
      Resized(g, mid, owner, i, 0);
      ino := ino[i := ino[i].(size := 0)];
      KeptTwice(g, fs, mid, State(), i);
      Iupdate(i);
      EmptyFile(g, State(), owner, i);
    }
  }

  lemma EmptyFile(g: Geometry, fs: Fs, owner: map<nat, Place>, i: nat)
    requires Consistent(g, fs, owner, {}) && i < |fs.ino|
    requires forall c :: 0 <= c <= NDIRECT ==> fs.ino[i].addrs[c] == 0
    ensures forall slot :: 0 <= slot <= INDIRECT ==> Addr(fs, i, slot) == 0
    ensures HoleFree(fs, i, 0)
    ensures forall b :: b in owner ==> owner[b].i != i
  {
  }

  /** The owners once file i has given up its blocks in slots [NDIRECT, upto). */
  ghost function Without(owner: map<nat, Place>, i: nat, upto: nat): map<nat, Place> {
    map b | b in owner && !(owner[b].i == i && NDIRECT <= owner[b].slot < upto) :: owner[b]
  }

  /** Freeing the indirect blocks one by one: only the bits change meanwhile. */
  ghost predicate Freeing(g: Geometry, bits: seq<Byte>, owner: map<nat, Place>, i: nat, upto: nat) {
    && g.size <= |bits| * 8
    && forall b :: 0 <= b < g.size ==> (Bit(bits, b) <==> b < g.nmeta || b in Without(owner, i, upto))
  }

  lemma FreeingStart(g: Geometry, fs: Fs, owner: map<nat, Place>, i: nat)
    requires Consistent(g, fs, owner, {})
    ensures Freeing(g, fs.bits, owner, i, NDIRECT)
  {
    assert Without(owner, i, NDIRECT) == owner;
  }

  lemma ListedAddr(g: Geometry, fs: Fs, owner: map<nat, Place>, i: nat, k: nat)
    requires Consistent(g, fs, owner, {}) && i < |fs.ino| && k < NINDIRECT && fs.ino[i].addrs[NDIRECT] != 0
    ensures fs.ino[i].addrs[NDIRECT] < |fs.data|
    ensures Addr(fs, i, NDIRECT + k) == Word(fs.data[fs.ino[i].addrs[NDIRECT]], k)
  {
    assert Addr(fs, i, INDIRECT) == fs.ino[i].addrs[NDIRECT];
  }

  lemma {:induction false} FreeingStep(g: Geometry, fs: Fs, bits: seq<Byte>, owner: map<nat, Place>, i: nat, slot: nat)
    requires Consistent(g, fs, owner, {}) && i < |fs.ino| && NDIRECT <= slot <= INDIRECT
    requires Freeing(g, bits, owner, i, slot) && Addr(fs, i, slot) != 0
    ensures var b := Addr(fs, i, slot);
            g.nmeta <= b < g.size && Bit(bits, b) && Freeing(g, ClearBit(bits, b), owner, i, slot + 1)
  {
    var b := Addr(fs, i, slot);
    assert b in owner && owner[b] == Place(i, slot) && b in Without(owner, i, slot);
    forall c | 0 <= c < g.size ensures Bit(ClearBit(bits, b), c) <==> c < g.nmeta || c in Without(owner, i, slot + 1) {
      BitAfterClear(bits, b, c);
      assert c in owner && owner[c] == Place(i, slot) ==> c == b;
    }
  }

  lemma FreeingSkip(g: Geometry, fs: Fs, bits: seq<Byte>, owner: map<nat, Place>, i: nat, slot: nat)
    requires Consistent(g, fs, owner, {}) && i < |fs.ino| && NDIRECT <= slot <= INDIRECT
    requires Freeing(g, bits, owner, i, slot) && Addr(fs, i, slot) == 0
    ensures Freeing(g, bits, owner, i, slot + 1)
  {
    assert forall c :: c in owner ==> owner[c] != Place(i, slot);
    assert Without(owner, i, slot + 1) == Without(owner, i, slot);
  }

  lemma DropIndirect(g: Geometry, fs: Fs, bits: seq<Byte>, owner: map<nat, Place>, i: nat)
    requires Consistent(g, fs, owner, {}) && i < |fs.ino| && Freeing(g, bits, owner, i, INDIRECT + 1)
    ensures var fs' := AddrSet(fs.(bits := bits), i, NDIRECT, 0);
            && Consistent(g, fs', Without(owner, i, INDIRECT + 1), {}) && OthersKept(g, fs, fs', i)
  {
    var fs' := AddrSet(fs.(bits := bits), i, NDIRECT, 0);
    assert Shaped(g, fs');
    forall j, s | 0 <= j < |fs.ino| && 0 <= s <= INDIRECT
      ensures Addr(fs', j, s) == if j == i && s >= NDIRECT then 0 else Addr(fs, j, s)
    {
    }
    forall j | 0 <= j < |fs.ino| && j != i ensures SameFile(g, fs, fs', j) {}
  }

  /** Free a block listed directly and forget it. */
  lemma DetachTop(g: Geometry, fs: Fs, owner: map<nat, Place>, i: nat, k: nat)
    requires Consistent(g, fs, owner, {}) && i < |fs.ino| && k < NDIRECT && fs.ino[i].addrs[k] != 0
    ensures fs.ino[i].addrs[k] < g.size && Bit(fs.bits, fs.ino[i].addrs[k])
    ensures var b := fs.ino[i].addrs[k];
            var fs' := AddrSet(fs.(bits := ClearBit(fs.bits, b)), i, k, 0);
            Consistent(g, fs', owner - {b}, {}) && OthersKept(g, fs, fs', i)
  {
    var b := fs.ino[i].addrs[k];
    assert Addr(fs, i, k) == b && b in owner && owner[b] == Place(i, k);
    var fs' := AddrSet(fs.(bits := ClearBit(fs.bits, b)), i, k, 0);
    forall c | 0 <= c < g.size ensures Bit(fs'.bits, c) <==> c != b && Bit(fs.bits, c) {
      BitAfterClear(fs.bits, b, c);
    }
    assert Shaped(g, fs');
    forall j, s | 0 <= j < |fs.ino| && 0 <= s <= INDIRECT
      ensures Addr(fs', j, s) == if j == i && s == k then 0 else Addr(fs, j, s)
    {
    }
    forall j | 0 <= j < |fs.ino| && j != i ensures SameFile(g, fs, fs', j) {}
  }

  /** Changing a size changes no block. */
  lemma Resized(g: Geometry, fs: Fs, owner: map<nat, Place>, i: nat, len: nat)
    requires Consistent(g, fs, owner, {}) && i < |fs.ino| && HoleFree(fs, i, len)
    ensures var fs' := fs.(ino := fs.ino[i := fs.ino[i].(size := len)]);
            && Consistent(g, fs', owner, {}) && HoleFree(fs', i, len) && OthersKept(g, fs, fs', i)
            && forall k :: 0 <= k < MAXFILE * BSIZE ==> ByteAt(fs', i, k) == ByteAt(fs, i, k)
  {
    var fs' := fs.(ino := fs.ino[i := fs.ino[i].(size := len)]);
    assert forall j, s :: 0 <= j < |fs.ino| && 0 <= s <= INDIRECT ==> Addr(fs', j, s) == Addr(fs, j, s);
    forall j | 0 <= j < |fs.ino| && j != i ensures SameFile(g, fs, fs', j) {}
  }

  lemma Spliced(fs: Fs, fs': Fs, i: nat, off: nat, src: seq<Byte>)
    requires i < |fs.ino| && |fs.ino[i].addrs| == NDIRECT + 1
    requires i < |fs'.ino| && |fs'.ino[i].addrs| == NDIRECT + 1
    requires off <= fs.ino[i].size && fs'.ino[i].size == Max(fs.ino[i].size, off + |src|)
    requires forall k :: 0 <= k < Max(fs.ino[i].size, off + |src|) ==>
               ByteAt(fs', i, k) == if off <= k < off + |src| then src[k - off] else ByteAt(fs, i, k)
    ensures Contents(fs', i) == Splice(Contents(fs, i), off, src)
  {
  }

  /** A file nobody wrote to keeps its bytes and stays free of holes. */
  lemma UntouchedFile(g: Geometry, fs: Fs, fs': Fs, i: nat, j: nat)
    requires OthersKept(g, fs, fs', i) && j != i && j < |fs.ino| && HoleFree(fs, j, fs.ino[j].size)
    ensures HoleFree(fs', j, fs'.ino[j].size) && Contents(fs', j) == Contents(fs, j)
  {
    assert SameFile(g, fs, fs', j);
    SameFileSameContents(g, fs, fs', j);
    forall slot | 0 <= slot <= INDIRECT ensures Addr(fs', j, slot) == Addr(fs, j, slot) {
      assert SameSlot(fs, fs', j, slot);
    }
  }

  /** Reading back what was written, and what lies around it. */
  lemma ReadBack(file: seq<Byte>, off: nat, src: seq<Byte>, lo: nat, hi: nat)
    requires off <= |file| && lo <= hi <= |Splice(file, off, src)|
    ensures |Splice(file, off, src)| == Max(|file|, off + |src|)
    ensures off + |src| <= |Splice(file, off, src)| && Splice(file, off, src)[off..off + |src|] == src
    ensures hi <= off ==> Splice(file, off, src)[lo..hi] == file[lo..hi]
    ensures off + |src| <= lo && hi <= |file| ==> Splice(file, off, src)[lo..hi] == file[lo..hi]
  {
  }
}
