/**
 Blocks, the free map and inodes of fs.c, as values.

 The free map is the concatenation of the bitmap blocks: bit b % BPB of block b / BPB is
 bit b % 8 of byte b / 8. An inode lists NDIRECT blocks and one indirect block, whose
 512 bytes are read as 128 little-endian words.
 */
module FileLayout {

  const BSIZE := 512
  const BPB := 4096
  const NDIRECT := 12
  const NINDIRECT := 128
  const MAXFILE := 140
  const UINT := 0x1_0000_0000

  /** Slot number of the indirect block itself; slots below it are file blocks. */
  const INDIRECT := MAXFILE

  type Byte = b: int | 0 <= b < 256
  type Block = b: seq<Byte> | |b| == BSIZE witness seq(BSIZE, _ => 0)

  // ---------------------------------------------------------------- bits

  /** 1 << k. */
  function Mask(k: nat): (m: nat)
    ensures m >= 1
  {
    if k == 0 then 1 else 2 * Mask(k - 1)
  }

  /** (x & (1 << k)) != 0. */
  predicate BitOf(x: nat, k: nat) {
    if k == 0 then x % 2 == 1 else BitOf(x / 2, k - 1)
  }

  /** x |= 1 << k on a clear bit adds the mask. */
  lemma {:induction false} SetBitOf(x: nat, k: nat, j: nat)
    requires !BitOf(x, k)
    ensures BitOf(x + Mask(k), j) <==> j == k || BitOf(x, j)
  {
    if k == 0 {
      assert (x + 1) / 2 == x / 2;
    } else {
      assert (x + Mask(k)) % 2 == x % 2 && (x + Mask(k)) / 2 == x / 2 + Mask(k - 1);
      if j > 0 { SetBitOf(x / 2, k - 1, j - 1); }
    }
  }

  lemma {:induction false} SetBitFits(x: nat, k: nat, n: nat)
    requires !BitOf(x, k) && k < n && x < Mask(n)
    ensures x + Mask(k) < Mask(n)
  {
    var m := Mask(n - 1);
    assert Mask(n) == 2 * m;
    if k == 0 {
      assert x % 2 == 0;
    } else {
      SetBitFits(x / 2, k - 1, n - 1);
      assert Mask(k) == 2 * Mask(k - 1) && x / 2 + Mask(k - 1) < m;
    }
  }

  /** x &= ~(1 << k) on a set bit takes the mask away again. */
  lemma {:induction false} ClearBitOf(x: nat, k: nat)
    requires BitOf(x, k)
    ensures x >= Mask(k) && !BitOf(x - Mask(k), k)
  {
    if k > 0 {
      ClearBitOf(x / 2, k - 1);
      assert (x - Mask(k)) / 2 == x / 2 - Mask(k - 1);
    }
  }

  predicate Bit(bits: seq<Byte>, b: nat)
    requires b < |bits| * 8
  {
    BitOf(bits[b / 8], b % 8)
  }

  function SetBit(bits: seq<Byte>, b: nat): (r: seq<Byte>)
    requires b < |bits| * 8 && !Bit(bits, b)
    ensures |r| == |bits|
  {
    ByteFits(bits[b / 8], b % 8);
    bits[b / 8 := bits[b / 8] + Mask(b % 8)]
  }

  function ClearBit(bits: seq<Byte>, b: nat): (r: seq<Byte>)
    requires b < |bits| * 8 && Bit(bits, b)
    ensures |r| == |bits|
  {
    ClearBitOf(bits[b / 8], b % 8);
    bits[b / 8 := bits[b / 8] - Mask(b % 8)]
  }

  lemma ByteFits(x: Byte, k: nat)
    requires k < 8 && !BitOf(x, k)
    ensures x + Mask(k) < 256
  {
    assert Mask(8) == 256 by { assert Mask(4) == 16; }
    SetBitFits(x, k, 8);
  }

  lemma BitAfterSet(bits: seq<Byte>, b: nat, c: nat)
    requires b < |bits| * 8 && c < |bits| * 8 && !Bit(bits, b)
    ensures Bit(SetBit(bits, b), c) <==> c == b || Bit(bits, c)
  {
    SetBitOf(bits[b / 8], b % 8, c % 8);
  }

  lemma BitAfterClear(bits: seq<Byte>, b: nat, c: nat)
    requires b < |bits| * 8 && c < |bits| * 8 && Bit(bits, b)
    ensures Bit(ClearBit(bits, b), c) <==> c != b && Bit(bits, c)
  {
    var x := bits[b / 8];
    ClearBitOf(x, b % 8);
    SetBitOf(x - Mask(b % 8), b % 8, c % 8);
  }

  // ---------------------------------------------------------------- words

  function Word(b: Block, k: nat): (w: nat)
    requires k < NINDIRECT
  {
    b[4 * k] as int + 256 * (b[4 * k + 1] as int) + 65536 * (b[4 * k + 2] as int) + 16777216 * (b[4 * k + 3] as int)
  }

  function PutWord(b: Block, k: nat, w: nat): Block
    requires k < NINDIRECT && w < UINT
  {
    b[4 * k := w % 256][4 * k + 1 := w / 256 % 256][4 * k + 2 := w / 65536 % 256][4 * k + 3 := w / 16777216]
  }

  lemma Digits(w: nat)
    requires w < UINT
    ensures w % 256 + 256 * (w / 256 % 256) + 65536 * (w / 65536 % 256) + 16777216 * (w / 16777216) == w
  {
    var a, b, c := w / 256, w / 65536, w / 16777216;
    assert b == a / 256 && c == b / 256;
  }

  lemma WordRoundTrip(b: Block, k: nat, w: nat, j: nat)
    requires k < NINDIRECT && w < UINT && j < NINDIRECT
    ensures Word(PutWord(b, k, w), j) == if j == k then w else Word(b, j)
  {
    var p := PutWord(b, k, w);
    if j == k {
      assert p[4 * j] == w % 256 && p[4 * j + 1] == w / 256 % 256;
      assert p[4 * j + 2] == w / 65536 % 256 && p[4 * j + 3] == w / 16777216;
      Digits(w);
    } else {
      assert p[4 * j] == b[4 * j] && p[4 * j + 1] == b[4 * j + 1];
      assert p[4 * j + 2] == b[4 * j + 2] && p[4 * j + 3] == b[4 * j + 3];
    }
  }

  // ---------------------------------------------------------------- inodes

  datatype Inode = Inode(kind: int, nlink: int, size: nat, addrs: seq<nat>)

  /** Metadata blocks [0, nmeta) and data blocks [nmeta, size). */
  datatype Geometry = Geometry(nmeta: nat, size: nat)

  /** The free map, the block contents and the inodes in memory. */
  datatype Fs = Fs(bits: seq<Byte>, data: seq<Block>, ino: seq<Inode>)

  ghost predicate Shaped(g: Geometry, fs: Fs) {
    && 1 <= g.nmeta <= g.size <= |fs.bits| * 8
    && g.size < UINT
    && |fs.data| == g.size
    && forall i :: 0 <= i < |fs.ino| ==> |fs.ino[i].addrs| == NDIRECT + 1
  }

  /** Block number in a slot of an inode, 0 when there is none. */
  ghost function Addr(fs: Fs, i: nat, slot: nat): nat
    requires i < |fs.ino| && |fs.ino[i].addrs| == NDIRECT + 1
  {
    var a := fs.ino[i].addrs;
    if slot < NDIRECT then a[slot]
    else if slot == INDIRECT then a[NDIRECT]
    else if slot < MAXFILE && 0 < a[NDIRECT] < |fs.data| then Word(fs.data[a[NDIRECT]], slot - NDIRECT)
    else 0
  }

  datatype Place = Place(i: nat, slot: nat)

  /** Every block in a slot is owned by that slot and no other. */
  ghost predicate Owned(g: Geometry, fs: Fs, owner: map<nat, Place>)
    requires Shaped(g, fs)
  {
    && (forall b :: b in owner ==>
          && g.nmeta <= b < g.size
          && owner[b].i < |fs.ino| && owner[b].slot <= INDIRECT
          && Addr(fs, owner[b].i, owner[b].slot) == b)
    && (forall i, slot :: 0 <= i < |fs.ino| && 0 <= slot <= INDIRECT && Addr(fs, i, slot) != 0 ==>
          Addr(fs, i, slot) in owner && owner[Addr(fs, i, slot)] == Place(i, slot))
  }

  /** Set bits are exactly the metadata blocks, the owned blocks and those being attached. */
  ghost predicate Marked(g: Geometry, fs: Fs, owner: map<nat, Place>, loose: set<nat>)
    requires Shaped(g, fs)
  {
    && (forall b :: b in loose ==> g.nmeta <= b < g.size && b !in owner)
    && (forall b :: 0 <= b < g.size ==> (Bit(fs.bits, b) <==> b < g.nmeta || b in owner || b in loose))
  }

  ghost predicate Consistent(g: Geometry, fs: Fs, owner: map<nat, Place>, loose: set<nat>) {
    Shaped(g, fs) && Owned(g, fs, owner) && Marked(g, fs, owner, loose)
  }

  function Zeros(): Block { seq(BSIZE, _ => 0) }

  // ---------------------------------------------------------------- allocation steps

  function Allocated(fs: Fs, b: nat): Fs
    requires b < |fs.bits| * 8 && b < |fs.data| && !Bit(fs.bits, b)
  {
    fs.(bits := SetBit(fs.bits, b), data := fs.data[b := Zeros()])
  }

  lemma AllocateKeeps(g: Geometry, fs: Fs, owner: map<nat, Place>, loose: set<nat>, b: nat)
    requires Consistent(g, fs, owner, loose) && b < g.size && !Bit(fs.bits, b)
    ensures b !in owner && b !in loose && g.nmeta <= b
    ensures Consistent(g, Allocated(fs, b), owner, loose + {b})
    ensures forall i, slot :: 0 <= i < |fs.ino| && 0 <= slot <= INDIRECT ==>
              Addr(Allocated(fs, b), i, slot) == Addr(fs, i, slot)
  {
    var fs' := Allocated(fs, b);
    forall i, slot | 0 <= i < |fs.ino| && 0 <= slot <= INDIRECT
      ensures Addr(fs', i, slot) == Addr(fs, i, slot)
    {
      assert Addr(fs, i, INDIRECT) != b;
    }
    forall c | 0 <= c < g.size ensures Bit(fs'.bits, c) <==> c == b || Bit(fs.bits, c) {
      BitAfterSet(fs.bits, b, c);
    }
  }

  function TopSlot(k: nat): nat { if k == NDIRECT then INDIRECT else k }

  /** Address k of inode i becomes b. */
  function AddrSet(fs: Fs, i: nat, k: nat, b: nat): Fs
    requires i < |fs.ino| && k < |fs.ino[i].addrs|
  {
    fs.(ino := fs.ino[i := fs.ino[i].(addrs := fs.ino[i].addrs[k := b])])
  }

  /** a[k] = b in the indirect block. */
  function WordSet(fs: Fs, x: nat, k: nat, b: nat): Fs
    requires x < |fs.data| && k < NINDIRECT && b < UINT
  {
    fs.(data := fs.data[x := PutWord(fs.data[x], k, b)])
  }

  lemma ZeroWords(k: nat)
    requires k < NINDIRECT
    ensures Word(Zeros(), k) == 0
  {
  }

  /** Only the slot written changes. */
  lemma AddrAfterTop(g: Geometry, fs: Fs, i: nat, k: nat, b: nat, j: nat, slot: nat)
    requires Shaped(g, fs) && i < |fs.ino| && k <= NDIRECT && fs.ino[i].addrs[k] == 0
    requires 0 < b < g.size && (k == NDIRECT ==> fs.data[b] == Zeros())
    requires j < |fs.ino| && slot <= INDIRECT
    ensures Shaped(g, AddrSet(fs, i, k, b))
    ensures Addr(AddrSet(fs, i, k, b), j, slot) == if j == i && slot == TopSlot(k) then b else Addr(fs, j, slot)
  {
    if NDIRECT <= slot < MAXFILE { ZeroWords(slot - NDIRECT); }
  }

  lemma AttachTop(g: Geometry, fs: Fs, owner: map<nat, Place>, loose: set<nat>, i: nat, k: nat, b: nat)
    requires Consistent(g, fs, owner, loose) && b in loose
    requires i < |fs.ino| && k <= NDIRECT && fs.ino[i].addrs[k] == 0
    requires k == NDIRECT ==> fs.data[b] == Zeros()
    ensures Consistent(g, AddrSet(fs, i, k, b), owner[b := Place(i, TopSlot(k))], loose - {b})
  {
    var fs', owner' := AddrSet(fs, i, k, b), owner[b := Place(i, TopSlot(k))];
    forall j, slot | 0 <= j < |fs.ino| && 0 <= slot <= INDIRECT
      ensures Addr(fs', j, slot) == if j == i && slot == TopSlot(k) then b else Addr(fs, j, slot)
    {
      AddrAfterTop(g, fs, i, k, b, j, slot);
    }
    assert Addr(fs, i, TopSlot(k)) == 0;
  }

  /** Only the slot written changes: nobody else reads that indirect block. */
  lemma AddrAfterWord(g: Geometry, fs: Fs, owner: map<nat, Place>, i: nat, k: nat, b: nat, j: nat, slot: nat)
    requires Shaped(g, fs) && Owned(g, fs, owner) && i < |fs.ino| && k < NINDIRECT && b < UINT
    requires fs.ino[i].addrs[NDIRECT] != 0
    requires j < |fs.ino| && slot <= INDIRECT
    ensures fs.ino[i].addrs[NDIRECT] < |fs.data|
    ensures Addr(WordSet(fs, fs.ino[i].addrs[NDIRECT], k, b), j, slot)
         == if j == i && slot == NDIRECT + k then b else Addr(fs, j, slot)
  {
    var x := fs.ino[i].addrs[NDIRECT];
    assert Addr(fs, i, INDIRECT) == x && x in owner && owner[x] == Place(i, INDIRECT);
    assert Addr(fs, j, INDIRECT) == x ==> j == i;
    if NDIRECT <= slot < MAXFILE {
      WordRoundTrip(fs.data[x], k, b, slot - NDIRECT);
    }
  }

  lemma {:induction false} AttachWord(g: Geometry, fs: Fs, owner: map<nat, Place>, loose: set<nat>,
                                      i: nat, k: nat, b: nat)
    requires Consistent(g, fs, owner, loose) && b in loose
    requires i < |fs.ino| && k < NINDIRECT && fs.ino[i].addrs[NDIRECT] != 0
    requires Addr(fs, i, NDIRECT + k) == 0
    ensures fs.ino[i].addrs[NDIRECT] in owner && owner[fs.ino[i].addrs[NDIRECT]] == Place(i, INDIRECT)
    ensures fs.ino[i].addrs[NDIRECT] < |fs.data|
    ensures Consistent(g, WordSet(fs, fs.ino[i].addrs[NDIRECT], k, b), owner[b := Place(i, NDIRECT + k)], loose - {b})
  {
    var x := fs.ino[i].addrs[NDIRECT];
    assert Addr(fs, i, INDIRECT) == x;
    var fs', owner' := WordSet(fs, x, k, b), owner[b := Place(i, NDIRECT + k)];
    forall j, slot | 0 <= j < |fs.ino| && 0 <= slot <= INDIRECT
      ensures Addr(fs', j, slot) == if j == i && slot == NDIRECT + k then b else Addr(fs, j, slot)
    {
      AddrAfterWord(g, fs, owner, i, k, b, j, slot);
    }
  }
}
