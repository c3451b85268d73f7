/**
 The file system on top of the log. Recovery never yields a state from the middle of an operation:
 what it leaves is what the running system showed at some moment at which no operation was in
 progress. A file system that is consistent at those moments is consistent after every crash.
 */
module CrashConsistency {
  import opened LogMachine
  import opened LogSafety
  import FL = FileLayout

  /** Where mkfs put the inodes, the free map and the data. */
  datatype Superblock = Superblock(size: nat, ninodes: nat, inodestart: nat, bmapstart: nat, nmeta: nat) {
    predicate Within(ndisk: nat) {
      && size <= ndisk
      && inodestart + (ninodes + IPB - 1) / IPB <= bmapstart
      && bmapstart + BitmapBlocks() <= ndisk
    }

    function BitmapBlocks(): nat { size / FL.BPB + 1 }
  }

  const IPB := 8

  /** The bytes of a block of little-endian words. */
  function Bytes(b: Block): FL.Block {
    seq(FL.BSIZE, i requires 0 <= i < FL.BSIZE =>
      var w := b[i / 4];
      if i % 4 == 0 then w % 256 else if i % 4 == 1 then w / 256 % 256
      else if i % 4 == 2 then w / 65536 % 256 else w / 16777216 % 256)
  }

  /** The upper or lower half of a word as a C short. */
  function Half(w: nat): int {
    var h := w % 65536;
    if h < 32768 then h else h - 65536
  }

  /** The inode in the k-th sixteen words of a block. */
  function InodeAt(b: Block, k: nat): FL.Inode
    requires k < IPB
  {
    FL.Inode(Half(b[16 * k]), Half(b[16 * k + 1] / 65536), b[16 * k + 2], b[16 * k + 3..16 * k + 16])
  }

  /** A word read out of the bytes, as bmap reads the indirect block, is the word that was stored. */
  lemma BytesAreWords(b: Block, k: nat)
    requires k < FL.NINDIRECT && b[k] < FL.UINT
    ensures FL.Word(Bytes(b), k) == b[k]
  {
    var w := b[k];
    assert (4 * k) / 4 == k && (4 * k + 1) / 4 == k && (4 * k + 2) / 4 == k && (4 * k + 3) / 4 == k;
    assert w / 16777216 % 256 == w / 16777216;
    FL.Digits(w);
  }

  /** How iupdate stores an inode; the device numbers stay as they are. */
  function Stored(b: Block, k: nat, ip: FL.Inode, major: nat, minor: nat): Block
    requires k < IPB && |ip.addrs| == FL.NDIRECT + 1 && major < 65536 && minor < 65536
  {
    b[..16 * k] + [ip.kind % 65536 + 65536 * major, minor + 65536 * (ip.nlink % 65536), ip.size] + ip.addrs
    + b[16 * k + 16..]
  }

  /** An inode reads back as it was stored, and the others of the block as they were. */
  lemma InodeRoundTrip(b: Block, k: nat, ip: FL.Inode, major: nat, minor: nat, j: nat)
    requires k < IPB && |ip.addrs| == FL.NDIRECT + 1 && major < 65536 && minor < 65536 && j < IPB
    requires -32768 <= ip.kind < 32768 && -32768 <= ip.nlink < 32768
    ensures InodeAt(Stored(b, k, ip, major, minor), j) == if j == k then ip else InodeAt(b, j)
  {
    var r := Stored(b, k, ip, major, minor);
    if j == k {
      assert r[16 * k + 3..16 * k + 16] == ip.addrs;
      HalfBack(ip.kind, major);
      HalfBack(ip.nlink, 0);
      assert r[16 * k + 1] / 65536 == ip.nlink % 65536;
    } else {
      assert forall i :: 16 * j <= i < 16 * j + 16 ==> r[i] == b[i];
      assert r[16 * j + 3..16 * j + 16] == b[16 * j + 3..16 * j + 16];
    }
  }

  lemma HalfBack(x: int, upper: nat)
    requires -32768 <= x < 32768
    ensures Half(x % 65536 + 65536 * upper) == x
  {
  }

  /** Contents of the blocks outside the log area, zeros inside it. */
  ghost function HomeOf(g: Geometry, d: Disk): (r: Disk)
    ensures |r| == |d|
  {
    seq(|d|, b requires 0 <= b < |d| => if g.Home(b) then d[b] else seq(WORDS, _ => 0))
  }

  /** The file system a disk holds. */
  ghost function FsOf(sb: Superblock, g: Geometry, d: Disk): FL.Fs
    requires sb.Within(|d|)
  {
    var h := HomeOf(g, d);
    FL.Fs(
      seq(sb.BitmapBlocks() * FL.BSIZE, i requires 0 <= i < sb.BitmapBlocks() * FL.BSIZE =>
        Bytes(h[sb.bmapstart + i / FL.BSIZE])[i % FL.BSIZE]),
      seq(sb.size, b requires 0 <= b < sb.size => Bytes(h[b])),
      seq(sb.ninodes, i requires 0 <= i < sb.ninodes => InodeAt(h[sb.inodestart + i / IPB], i % IPB)))
  }

  /** Every block in use belongs to exactly one place, and the free map says so. */
  ghost predicate ConsistentDisk(sb: Superblock, g: Geometry, d: Disk)
    requires sb.Within(|d|)
  {
    exists owner: map<nat, FL.Place> :: FL.Consistent(FL.Geometry(sb.nmeta, sb.size), FsOf(sb, g, d), owner, {})
  }

  /** After k steps no operation is in progress and the system shows a consistent file system. */
  ghost predicate QuietlyConsistent(sb: Superblock, g: Geometry, d: Disk, t: seq<Step>, k: nat)
    requires GoodDisk(g, d) && sb.Within(g.ndisk) && k <= |t|
  {
    Quiescent(g, d, t[..k]) ==> ConsistentDisk(sb, g, Current(g, d, t[..k]))
  }

  ghost predicate Quiescent(g: Geometry, d: Disk, t: seq<Step>) {
    Run(g, d, t).Some? && Run(g, d, t).value.ops == []
  }

  lemma CurrentSize(g: Geometry, d: Disk, t: seq<Step>)
    requires GoodDisk(g, d)
    ensures |Durable(g, d, t)| == |Current(g, d, t)| == g.ndisk
  {
  }

  /** What is durable is what the system showed at a moment without operations. */
  lemma {:induction false} DurableIsQuiet(g: Geometry, d: Disk, t: seq<Step>) returns (k: nat)
    requires GoodDisk(g, d) && Run(g, d, t).Some?
    ensures k <= |t| && Quiescent(g, d, t[..k]) && Durable(g, d, t) == Current(g, d, t[..k])
  {
    if t == [] {
      k := 0;
    } else {
      var n := |t| - 1;
      assert t == t[..n] + [t[n]];
      CurrentAfter(g, d, t[..n], t[n]);
      if t[n].WriteHeader? {
        k := n;
        RunKeepsBooks(g, d, t[..n]);
      } else {
        k := DurableIsQuiet(g, d, t[..n]);
        assert t[..n][..k] == t[..k];
      }
    }
  }

  /** After any run that keeps its log copies inside the log area, the disk recovery yields agrees outside that
      area with what the system showed at some moment at which no operation was in progress. */
  lemma RecoveredIsQuiet(g: Geometry, d: Disk, t: seq<Step>) returns (k: nat)
    requires GoodDisk(g, d) && Fits(g, d, t)
    ensures k <= |t| && Quiescent(g, d, t[..k]) && GoodDisk(g, Run(g, d, t).value.disk)
    ensures HomeOf(g, RecoveredDisk(g, Run(g, d, t).value.disk)) == HomeOf(g, Current(g, d, t[..k]))
  {
    hide Run, Fits;
    FitsRuns(g, d, t);
    k := DurableIsQuiet(g, d, t);
    RunIsTracked(g, d, t);
    CurrentSize(g, d, t[..k]);
  }

  lemma FitsRuns(g: Geometry, d: Disk, t: seq<Step>)
    requires Fits(g, d, t)
    ensures Run(g, d, t).Some?
  {
  }

  /** If the file system the system shows is consistent whenever no operation is in progress, then
      the one every crash leaves to recovery is consistent too. */
  lemma {:induction false} RecoveredIsConsistent(sb: Superblock, g: Geometry, d: Disk, t: seq<Step>)
    requires GoodDisk(g, d) && Fits(g, d, t) && sb.Within(g.ndisk)
    requires forall k :: 0 <= k <= |t| ==> QuietlyConsistent(sb, g, d, t, k)
    ensures GoodDisk(g, Run(g, d, t).value.disk)
    ensures ConsistentDisk(sb, g, RecoveredDisk(g, Run(g, d, t).value.disk))
  {
    hide Run, Fits, FL.Consistent;
    FitsRuns(g, d, t);
    var k := RecoveredIsQuiet(g, d, t);
    CurrentSize(g, d, t[..k]);
    assert QuietlyConsistent(sb, g, d, t, k);
    assert FsOf(sb, g, RecoveredDisk(g, Run(g, d, t).value.disk)) == FsOf(sb, g, Current(g, d, t[..k]));
  }
}
