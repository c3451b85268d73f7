/**
 The Kernighan and Ritchie allocator of umalloc.c.

 Headers live in one memory indexed by byte address; free blocks are chained through
 their headers in a circle that starts at the static header base, which lies below the
 heap. Addresses stay below KERNBASE, so pointer arithmetic never wraps.
 */
module Heap {

  const UNIT := 8                        // sizeof(Header)
  const MORE := 4096                     // least number of units asked of sbrk
  const KERNBASE := 0x8000_0000
  const UINT := 0x1_0000_0000

  datatype Header = Header(ptr: int, size: nat)
  type Cells = map<int, Header>

  // ---------------------------------------------------------------- request sizes

  /** The unit count malloc computes in 32-bit unsigned arithmetic. */
  function Units(nbytes: nat): (n: nat)
    ensures n >= 1
  {
    ((nbytes + UNIT - 1) % UINT) / UNIT + 1
  }

  function AtLeastMore(n: nat): nat {
    if n < MORE then MORE else n
  }

  /** The argument sbrk receives: a 32-bit product read as a signed int. */
  function SbrkArgument(n: nat): int {
    var bytes := (n * UNIT) % UINT;
    if bytes < UINT / 2 then bytes else bytes - UINT
  }

  /** Exactly the requests for which the block found is large enough and sbrk is asked for
      the memory the header will claim. */
  lemma RequestExact(nbytes: nat)
    requires nbytes < UINT
    ensures var n := AtLeastMore(Units(nbytes));
      (Units(nbytes) - 1) * UNIT >= nbytes && SbrkArgument(n) == n * UNIT <==> nbytes <= 0x7FFF_FFF0
  {
  }

  /** For such requests no smaller number of units would do, and the heap grows by the least number
      of units that covers the request and is worth the call. */
  lemma RequestTight(nbytes: nat)
    requires nbytes <= 0x7FFF_FFF0
    ensures (Units(nbytes) - 1) * UNIT < nbytes + UNIT
    ensures var n := AtLeastMore(Units(nbytes));
      n >= Units(nbytes) && n >= MORE && (n == Units(nbytes) || n == MORE)
  {
  }

  /** A request just below 4 GB is served with a block that holds no bytes at all. */
  lemma HugeRequestWraps()
    ensures Units(0xFFFF_FFFF) == 1
  {
  }

  // ---------------------------------------------------------------- blocks

  /** First address after the block at a. */
  ghost function End(m: Cells, a: int): int
    requires a in m
  {
    a + m[a].size * UNIT
  }

  ghost predicate Within(m: Cells, a: int, x: int)
    requires a in m
  {
    a <= x < End(m, a)
  }

  /** n follows a in circular address order among the addresses f, which start at base. */
  ghost predicate Follows(f: set<int>, base: int, a: int, n: int) {
    if a < n then forall b :: b in f ==> b <= a || n <= b
    else n == base && forall b :: b in f ==> b <= a
  }

  /** The free list: circular, address ordered, with one wrap from the last block to base. */
  ghost predicate Ring(m: Cells, f: set<int>, base: int) {
    && base in f
    && (forall a :: a in f ==> base <= a && a in m)
    && (forall a {:trigger Linked(m, f, base, a)} :: a in f ==> Linked(m, f, base, a))
  }

  ghost predicate Linked(m: Cells, f: set<int>, base: int, a: int)
    requires a in m
  {
    m[a].ptr in f && Follows(f, base, a, m[a].ptr)
  }

  /** base is an empty block; the others are nonempty and lie above it. */
  ghost predicate Sized(m: Cells, f: set<int>, base: int)
    requires Ring(m, f, base)
  {
    && m[base].size == 0
    && (forall a :: a in f && a != base ==> m[a].size >= 1 && base + UNIT <= a)
  }

  /** Free blocks do not overlap, and those outside loose do not even touch the next one. */
  ghost predicate Apart(m: Cells, f: set<int>, base: int, loose: set<int>)
    requires Ring(m, f, base)
  {
    forall a, b :: a in f && b in f && base < a < b ==>
      End(m, a) <= b && (a !in loose ==> End(m, a) < b)
  }

  /** Live blocks keep their headers and overlap neither each other nor free blocks. */
  ghost predicate Separate(m: Cells, f: set<int>, base: int, live: map<int, nat>)
    requires Ring(m, f, base)
  {
    && (forall a :: a in live ==> a in m && m[a].size == live[a] >= 1 && base + UNIT <= a && a !in f)
    && (forall a, b :: a in live && b in live && a < b ==> End(m, a) <= b)
    && (forall a, b :: a in live && b in f && b != base ==> End(m, a) <= b || End(m, b) <= a)
  }

  ghost predicate Good(m: Cells, f: set<int>, base: int, live: map<int, nat>, loose: set<int>) {
    Ring(m, f, base) && Sized(m, f, base) && Apart(m, f, base, loose) && Separate(m, f, base, live)
  }

  ghost predicate FreeAt(m: Cells, f: set<int>, base: int, x: int)
    requires Ring(m, f, base)
  {
    exists a :: a in f && a != base && Within(m, a, x)
  }

  ghost predicate LiveAt(live: map<int, nat>, x: int) {
    exists a :: a in live && a <= x < a + live[a] * UNIT
  }

  // ---------------------------------------------------------------- free

  /** Chain block bp in after the block at p. */
  function Inserted(m: Cells, p: int, bp: int): Cells
    requires p in m && bp in m
  {
    m[bp := Header(m[p].ptr, m[bp].size)][p := Header(bp, m[p].size)]
  }

  /** Join the block at a with its successor n. */
  function Joined(m: Cells, a: int, n: int): Cells
    requires a in m && n in m
  {
    m[a := Header(m[n].ptr, m[a].size + m[n].size)]
  }

  lemma FollowsNew(f: set<int>, base: int, p: int, bp: int, n: int)
    requires p in f && n in f && (forall b :: b in f ==> base <= b) && Follows(f, base, p, n)
    requires p < bp && (p < n ==> bp < n)
    ensures Follows(f + {bp}, base, p, bp) && Follows(f + {bp}, base, bp, n)
  {
  }

  lemma FollowsOld(f: set<int>, base: int, p: int, bp: int, n: int, a: int, c: int)
    requires p in f && n in f && a in f && c in f && base in f && (forall b :: b in f ==> base <= b)
    requires Follows(f, base, p, n) && p < bp && (p < n ==> bp < n)
    requires a != p && Follows(f, base, a, c)
    ensures Follows(f + {bp}, base, a, c)
  {
  }

  lemma InsertLinked(m: Cells, f: set<int>, base: int, p: int, bp: int, a: int)
    requires Ring(m, f, base) && bp in m && bp !in f
    requires p in f && p < bp && (p < m[p].ptr ==> bp < m[p].ptr)
    requires a in f || a == bp
    ensures Linked(Inserted(m, p, bp), f + {bp}, base, a)
  {
    hide Follows;
    assert Linked(m, f, base, p);
    FollowsNew(f, base, p, bp, m[p].ptr);
    if a != p && a != bp {
      assert Linked(m, f, base, a);
      FollowsOld(f, base, p, bp, m[p].ptr, a, m[a].ptr);
    }
  }

  lemma InsertRing(m: Cells, f: set<int>, base: int, p: int, bp: int)
    requires Ring(m, f, base) && bp in m && bp !in f
    requires p in f && p < bp && (p < m[p].ptr ==> bp < m[p].ptr)
    ensures Ring(Inserted(m, p, bp), f + {bp}, base)
  {
    hide Linked;
    forall a | a in f + {bp} ensures Linked(Inserted(m, p, bp), f + {bp}, base, a) {
      InsertLinked(m, f, base, p, bp, a);
    }
  }

  ghost predicate Placed(m: Cells, f: set<int>, live: map<int, nat>, p: int, bp: int) {
    && bp in live && bp in m && p in f && p in m
    && p < bp && (p < m[p].ptr ==> bp < m[p].ptr)
  }

  lemma InsertApart(m: Cells, f: set<int>, base: int, live: map<int, nat>, p: int, bp: int)
    requires Good(m, f, base, live, {}) && Placed(m, f, live, p, bp)
    requires Ring(Inserted(m, p, bp), f + {bp}, base)
    ensures Sized(Inserted(m, p, bp), f + {bp}, base) && Apart(Inserted(m, p, bp), f + {bp}, base, {p, bp})
  {
    hide Linked;
    assert forall a :: a in f && a < bp ==> a <= p by { Below(m, f, base, p, bp); }
    var m' := Inserted(m, p, bp);
    assert forall a :: a in f + {bp} ==> m'[a].size == m[a].size && End(m', a) == End(m, a);
  }

  lemma Below(m: Cells, f: set<int>, base: int, p: int, bp: int)
    requires Ring(m, f, base) && p in f && p < bp && (p < m[p].ptr ==> bp < m[p].ptr)
    ensures forall a :: a in f && a < bp ==> a <= p
  {
    assert Linked(m, f, base, p);
  }

  lemma InsertSeparate(m: Cells, f: set<int>, base: int, live: map<int, nat>, p: int, bp: int)
    requires Good(m, f, base, live, {}) && Placed(m, f, live, p, bp)
    requires Ring(Inserted(m, p, bp), f + {bp}, base)
    ensures Separate(Inserted(m, p, bp), f + {bp}, base, live - {bp})
  {
    hide Linked;
    var m' := Inserted(m, p, bp);
    assert forall a :: a in f + {bp} ==> m'[a].size == m[a].size && End(m', a) == End(m, a);
    assert forall a :: a in live ==> m'[a].size == m[a].size && End(m', a) == End(m, a);
  }

  lemma InsertKeeps(m: Cells, f: set<int>, base: int, live: map<int, nat>, p: int, bp: int)
    requires Good(m, f, base, live, {}) && Placed(m, f, live, p, bp)
    ensures Good(Inserted(m, p, bp), f + {bp}, base, live - {bp}, {p, bp})
  {
    hide Linked, Sized, Apart, Follows;
    InsertRing(m, f, base, p, bp);
    InsertApart(m, f, base, live, p, bp);
    InsertSeparate(m, f, base, live, p, bp);
  }

  lemma InsertFrees(m: Cells, f: set<int>, base: int, live: map<int, nat>, p: int, bp: int, x: int)
    requires Good(m, f, base, live, {}) && Placed(m, f, live, p, bp)
    requires Ring(Inserted(m, p, bp), f + {bp}, base)
    ensures FreeAt(Inserted(m, p, bp), f + {bp}, base, x) <==> FreeAt(m, f, base, x) || Within(m, bp, x)
  {
    var m' := Inserted(m, p, bp);
    forall a | a in m ensures Within(m', a, x) <==> Within(m, a, x) {}
    if FreeAt(m, f, base, x) {
      var a :| a in f && a != base && Within(m, a, x);
      assert a in f + {bp} && Within(m', a, x);
    }
    if Within(m, bp, x) {
      assert bp in f + {bp} && Within(m', bp, x);
    }
  }

  /** Block a ends where its successor n begins. */
  ghost predicate Touches(m: Cells, f: set<int>, base: int, a: int, n: int) {
    a in f && a != base && n in f && a in m && n in m && m[a].ptr == n && End(m, a) == n && m[a].size >= 1
  }

  lemma JoinRing(m: Cells, f: set<int>, base: int, a: int, n: int)
    requires Ring(m, f, base) && Touches(m, f, base, a, n)
    ensures Ring(Joined(m, a, n), f - {n}, base)
  {
    var m', f' := Joined(m, a, n), f - {n};
    assert Linked(m, f, base, a) && Linked(m, f, base, n);
    forall b | b in f' ensures Linked(m', f', base, b) {
      assert Linked(m, f, base, b);
    }
  }

  lemma JoinKeeps(m: Cells, f: set<int>, base: int, live: map<int, nat>, loose: set<int>, a: int, n: int)
    requires Good(m, f, base, live, loose) && Touches(m, f, base, a, n) && n !in loose
    ensures Good(Joined(m, a, n), f - {n}, base, live, loose - {a})
  {
    hide Linked;
    JoinRing(m, f, base, a, n);
    var m' := Joined(m, a, n);
    assert End(m', a) == End(m, n);
    assert forall b :: b in m && b != a ==> m'[b] == m[b] && End(m', b) == End(m, b);
    forall b | b in live ensures End(m, b) <= a || End(m', a) <= b {
      assert End(m, b) <= a || End(m, a) <= b;
      assert End(m, b) <= n || End(m, n) <= b;
    }
  }

  lemma JoinFrees(m: Cells, f: set<int>, base: int, a: int, n: int, x: int)
    requires Ring(m, f, base) && Touches(m, f, base, a, n)
    requires Ring(Joined(m, a, n), f - {n}, base)
    ensures FreeAt(Joined(m, a, n), f - {n}, base, x) <==> FreeAt(m, f, base, x)
  {
    var m' := Joined(m, a, n);
    assert n != base by { assert base <= a; }
    if FreeAt(m, f, base, x) {
      var b :| b in f && b != base && Within(m, b, x);
      var c := if b == n then a else b;
      assert c in f - {n} && Within(m', c, x);
    }
    if FreeAt(m', f - {n}, base, x) {
      var b :| b in f - {n} && b != base && Within(m', b, x);
      var c := if b == a && n <= x then n else b;
      assert c in f && Within(m, c, x);
    }
  }

  /** A block that does not end at its successor touches no block. */
  lemma Tighten(m: Cells, f: set<int>, base: int, live: map<int, nat>, loose: set<int>, a: int)
    requires Good(m, f, base, live, loose) && a in f && End(m, a) != m[a].ptr
    ensures Good(m, f, base, live, loose - {a})
  {
    assert Linked(m, f, base, a);
  }

  /** Cells after free's four assignments, p being the block found by its loop. */
  function Freed(m: Cells, p: int, bp: int): Cells
    requires p in m && bp in m && m[p].ptr in m && p != bp
  {
    var n := m[p].ptr;
    var m1 := if bp + m[bp].size * UNIT == n
              then m[bp := Header(m[n].ptr, m[bp].size + m[n].size)]
              else m[bp := Header(n, m[bp].size)];
    if p + m1[p].size * UNIT == bp
    then m1[p := Header(m1[bp].ptr, m1[p].size + m1[bp].size)]
    else m1[p := Header(bp, m1[p].size)]
  }

  /** Addresses of the free blocks after that. */
  ghost function FreedSet(m: Cells, f: set<int>, p: int, bp: int): set<int>
    requires p in m && bp in m
  {
    f + {bp} - (if End(m, bp) == m[p].ptr then {m[p].ptr} else {}) - (if End(m, p) == bp then {bp} else {})
  }

  /** First half: bp chained in and joined with its right neighbour when they touch. */
  lemma FreeRight(m: Cells, f: set<int>, base: int, live: map<int, nat>, p: int, bp: int)
      returns (m': Cells, f': set<int>)
    requires Good(m, f, base, live, {}) && Placed(m, f, live, p, bp)
    ensures m[p].ptr in m && Good(m', f', base, live - {bp}, {p}) && p in f' && bp in f'
    ensures m'[p] == Header(bp, m[p].size) && End(m', p) == End(m, p)
    ensures f' == f + {bp} - (if End(m, bp) == m[p].ptr then {m[p].ptr} else {})
    ensures m' == (if End(m, bp) == m[p].ptr
                   then m[bp := Header(m[m[p].ptr].ptr, m[bp].size + m[m[p].ptr].size)]
                   else m[bp := Header(m[p].ptr, m[bp].size)])[p := Header(bp, m[p].size)]
    ensures forall x :: FreeAt(m', f', base, x) <==> FreeAt(m, f, base, x) || Within(m, bp, x)
  {
    var n := m[p].ptr;
    assert Linked(m, f, base, p);
    var i := Inserted(m, p, bp);
    InsertKeeps(m, f, base, live, p, bp);
    forall x ensures FreeAt(i, f + {bp}, base, x) <==> FreeAt(m, f, base, x) || Within(m, bp, x) {
      InsertFrees(m, f, base, live, p, bp, x);
    }
    if End(m, bp) == n {
      assert n != p && n != bp;
      m', f' := Joined(i, bp, n), f + {bp} - {n};
      JoinKeeps(i, f + {bp}, base, live - {bp}, {p, bp}, bp, n);
      forall x ensures FreeAt(m', f', base, x) <==> FreeAt(i, f + {bp}, base, x) {
        JoinFrees(i, f + {bp}, base, bp, n, x);
      }
      assert {p, bp} - {bp} == {p};
    } else {
      m', f' := i, f + {bp};
      Tighten(i, f + {bp}, base, live - {bp}, {p, bp}, bp);
      assert {p, bp} - {bp} == {p};
    }
  }

  /** free: the list stays well formed and coalesced, and exactly bp's bytes become free. */
  lemma FreeKeeps(m: Cells, f: set<int>, base: int, live: map<int, nat>, p: int, bp: int)
    requires Good(m, f, base, live, {}) && Placed(m, f, live, p, bp)
    ensures m[p].ptr in m && Good(Freed(m, p, bp), FreedSet(m, f, p, bp), base, live - {bp}, {})
    ensures p in FreedSet(m, f, p, bp)
    ensures forall x :: FreeAt(Freed(m, p, bp), FreedSet(m, f, p, bp), base, x)
                   <==> FreeAt(m, f, base, x) || Within(m, bp, x)
  {
    var m', f' := FreeRight(m, f, base, live, p, bp);
    assert {p} - {p} == {};
    if End(m, p) == bp {
      assert m[base].size == 0;
      JoinKeeps(m', f', base, live - {bp}, {p}, p, bp);
      forall x ensures FreeAt(Joined(m', p, bp), f' - {bp}, base, x) <==> FreeAt(m', f', base, x) {
        JoinFrees(m', f', base, p, bp, x);
      }
      assert FreedSet(m, f, p, bp) == f' - {bp} && Freed(m, p, bp) == Joined(m', p, bp);
    } else {
      Tighten(m', f', base, live - {bp}, {p}, p);
      assert FreedSet(m, f, p, bp) == f' && Freed(m, p, bp) == m';
    }
  }

  lemma LiveWithout(live: map<int, nat>, bp: int, x: int)
    requires bp in live
    ensures LiveAt(live, x) <==> LiveAt(live - {bp}, x) || bp <= x < bp + live[bp] * UNIT
  {
    if LiveAt(live, x) {
      var a :| a in live && a <= x < a + live[a] * UNIT;
      assert a == bp || a in live - {bp};
    }
    if LiveAt(live - {bp}, x) {
      var a :| a in live - {bp} && a <= x < a + (live - {bp})[a] * UNIT;
      assert a in live && live[a] == (live - {bp})[a];
    }
  }

  // ---------------------------------------------------------------- malloc

  /** A block that fits exactly leaves the chain. */
  function Unlinked(m: Cells, prevp: int, p: int): Cells
    requires prevp in m && p in m
  {
    m[prevp := Header(m[p].ptr, m[prevp].size)]
  }

  /** A larger block gives up its tail. */
  function Split(m: Cells, p: int, q: int, n: nat, junk: int): Cells
    requires p in m && n <= m[p].size
  {
    m[p := Header(m[p].ptr, m[p].size - n)][q := Header(junk, n)]
  }

  lemma UnlinkRing(m: Cells, f: set<int>, base: int, prevp: int, p: int)
    requires Ring(m, f, base) && prevp in f && p in f && m[prevp].ptr == p && p != base
    ensures Ring(Unlinked(m, prevp, p), f - {p}, base) && prevp != p
  {
    var m', f' := Unlinked(m, prevp, p), f - {p};
    assert Linked(m, f, base, prevp) && Linked(m, f, base, p);
    forall a | a in f' ensures Linked(m', f', base, a) {
      assert Linked(m, f, base, a);
    }
  }

  lemma UnlinkKeeps(m: Cells, f: set<int>, base: int, live: map<int, nat>, prevp: int, p: int)
    requires Good(m, f, base, live, {}) && prevp in f && p in f && m[prevp].ptr == p && p != base
    ensures prevp != p
    ensures Good(Unlinked(m, prevp, p), f - {p}, base, live[p := m[p].size], {})
  {
    UnlinkRing(m, f, base, prevp, p);
    var m' := Unlinked(m, prevp, p);
    assert forall a :: a in m ==> m'[a].size == m[a].size && End(m', a) == End(m, a);
  }

  lemma SplitRing(m: Cells, f: set<int>, base: int, p: int, q: int, n: nat, junk: int)
    requires Ring(m, f, base) && p in f && n <= m[p].size && q !in f
    ensures Ring(Split(m, p, q, n, junk), f, base)
  {
    var m' := Split(m, p, q, n, junk);
    forall a | a in f ensures Linked(m', f, base, a) {
      assert Linked(m, f, base, a);
    }
  }

  lemma SplitSpace(m: Cells, f: set<int>, base: int, live: map<int, nat>, p: int, q: int)
    requires Good(m, f, base, live, {}) && p in f && p != base && p < q < End(m, p)
    ensures q !in f && q !in live
    ensures forall a :: a in f && a != p && a != base ==> End(m, p) < a || End(m, a) < p
    ensures forall a :: a in live ==> End(m, p) <= a || End(m, a) <= p
  {
  }

  lemma SplitKeeps(m: Cells, f: set<int>, base: int, live: map<int, nat>, p: int, n: nat, junk: int)
    requires Good(m, f, base, live, {}) && p in f && p != base && 1 <= n < m[p].size
    ensures var q := p + (m[p].size - n) * UNIT;
            q !in live && Good(Split(m, p, q, n, junk), f, base, live[q := n], {})
  {
    hide Linked;
    var q := p + (m[p].size - n) * UNIT;
    var m' := Split(m, p, q, n, junk);
    SplitSpace(m, f, base, live, p, q);
    SplitRing(m, f, base, p, q, n, junk);
    assert End(m', q) == End(m, p) && End(m', p) == q;
    assert forall a :: a in f && a != p ==> m'[a] == m[a] && End(m', a) == End(m, a);
    assert forall a :: a in live ==> m'[a] == m[a] && End(m', a) == End(m, a);
    assert Apart(m', f, base, {});
    assert Separate(m', f, base, live[q := n]);
  }

  /** Coalescing: the byte after a free block is not free, so a run of free bytes lies in one block. */
  lemma EndNotFree(m: Cells, f: set<int>, base: int, live: map<int, nat>, a: int)
    requires Good(m, f, base, live, {}) && a in f && a != base
    ensures !FreeAt(m, f, base, End(m, a))
  {
  }

  ghost predicate Between(lo: int, x: int, hi: int) { lo <= x < hi }

  ghost function Range(lo: int, bytes: nat): iset<int> {
    var hi := lo + bytes;
    iset x | Between(lo, x, hi)
  }

  lemma OneBlock(m: Cells, f: set<int>, base: int, live: map<int, nat>, lo: int, units: nat) returns (a: int)
    requires Good(m, f, base, live, {}) && units >= 1
    requires forall x :: x in Range(lo, units * UNIT) ==> FreeAt(m, f, base, x)
    ensures a in f && a != base && m[a].size >= units
  {
    assert Between(lo, lo, lo + units * UNIT) && lo in Range(lo, units * UNIT);
    a :| a in f && a != base && Within(m, a, lo);
    EndNotFree(m, f, base, live, a);
    assert End(m, a) in Range(lo, units * UNIT) <==> Between(lo, End(m, a), lo + units * UNIT);
  }

  /** Memory above everything in use becomes a live block. */
  lemma GrowKeeps(m: Cells, f: set<int>, base: int, live: map<int, nat>, hp: int, units: nat)
    requires Good(m, f, base, live, {}) && base + UNIT <= hp && units >= 1
    requires forall a :: a in f ==> End(m, a) <= hp && a < hp
    requires forall a :: a in live ==> End(m, a) <= hp
    ensures Good(m[hp := Header(0, units)], f, base, live[hp := units], {})
  {
    var m' := m[hp := Header(0, units)];
    assert hp !in f && hp !in live;
    assert Ring(m', f, base) by {
      forall a | a in f ensures Linked(m', f, base, a) {
        assert Linked(m, f, base, a);
      }
    }
    assert forall a :: a in f ==> m'[a] == m[a] && End(m', a) == End(m, a);
    assert forall a :: a in live ==> m'[a] == m[a] && End(m', a) == End(m, a);
    assert End(m', hp) == hp + units * UNIT;
  }

  lemma LiveWith(live: map<int, nat>, hp: int, units: nat, x: int)
    requires hp !in live
    ensures LiveAt(live[hp := units], x) <==> LiveAt(live, x) || hp <= x < hp + units * UNIT
  {
    assert live[hp := units] - {hp} == live;
    LiveWithout(live[hp := units], hp, x);
  }

  /** Bytes leave the free blocks only from the end of block p. */
  lemma Taken(m: Cells, f: set<int>, base: int, m': Cells, f': set<int>, p: int, q: int, n: nat, x: int)
    requires Ring(m, f, base) && Ring(m', f', base) && p in f && p != base && q in m'
    requires q + n * UNIT == End(m, p) && p <= q
    requires f' == if q == p then f - {p} else f
    requires q != p ==> End(m', p) == q
    requires forall a :: a in f && a != p ==> End(m', a) == End(m, a)
    ensures FreeAt(m, f, base, x) <==> FreeAt(m', f', base, x) || q <= x < q + n * UNIT
  {
    if FreeAt(m, f, base, x) {
      var a :| a in f && a != base && Within(m, a, x);
      if a != p || x < q { assert a in f' && Within(m', a, x); }
    }
    if FreeAt(m', f', base, x) {
      var a :| a in f' && a != base && Within(m', a, x);
      assert a in f && Within(m, a, x);
    }
    if q <= x < q + n * UNIT {
      assert Within(m, p, x);
    }
  }

  /** Address of the block malloc hands out, n units from the block at p. */
  function TakenAt(m: Cells, p: int, n: nat): int
    requires p in m && n <= m[p].size
  {
    p + (m[p].size - n) * UNIT
  }

  function TakenMemory(m: Cells, prevp: int, p: int, n: nat): Cells
    requires prevp in m && p in m && n <= m[p].size
  {
    if m[p].size == n then Unlinked(m, prevp, p) else Split(m, p, TakenAt(m, p, n), n, 0)
  }

  ghost function TakenSet(m: Cells, f: set<int>, p: int, n: nat): set<int>
    requires p in m
  {
    if m[p].size == n then f - {p} else f
  }

  /** malloc: the list stays well formed, and exactly the block's bytes stop being free. */
  lemma TakeKeeps(m: Cells, f: set<int>, base: int, live: map<int, nat>, prevp: int, p: int, n: nat)
    requires Good(m, f, base, live, {}) && prevp in f && p in f && m[prevp].ptr == p && 1 <= n <= m[p].size
    ensures prevp in TakenSet(m, f, p, n) && TakenAt(m, p, n) !in live && base + UNIT <= TakenAt(m, p, n)
    ensures Good(TakenMemory(m, prevp, p, n), TakenSet(m, f, p, n), base, live[TakenAt(m, p, n) := n], {})
  {
    assert p != base;
    if m[p].size == n {
      UnlinkKeeps(m, f, base, live, prevp, p);
    } else {
      SplitKeeps(m, f, base, live, p, n, 0);
      SplitSpace(m, f, base, live, p, TakenAt(m, p, n));
    }
  }

  lemma TakeFrees(m: Cells, f: set<int>, base: int, live: map<int, nat>, prevp: int, p: int, n: nat, x: int)
    requires Good(m, f, base, live, {}) && prevp in f && p in f && m[prevp].ptr == p && 1 <= n <= m[p].size
    requires TakenAt(m, p, n) !in live && Ring(TakenMemory(m, prevp, p, n), TakenSet(m, f, p, n), base)
    ensures FreeAt(m, f, base, x) <==>
            FreeAt(TakenMemory(m, prevp, p, n), TakenSet(m, f, p, n), base, x)
            || TakenAt(m, p, n) <= x < TakenAt(m, p, n) + n * UNIT
    ensures LiveAt(live[TakenAt(m, p, n) := n], x) <==>
            LiveAt(live, x) || TakenAt(m, p, n) <= x < TakenAt(m, p, n) + n * UNIT
  {
    var q := TakenAt(m, p, n);
    assert p != base;
    if q != p { SplitSpace(m, f, base, live, p, q); } else { UnlinkRing(m, f, base, prevp, p); }
    Taken(m, f, base, TakenMemory(m, prevp, p, n), TakenSet(m, f, p, n), p, q, n, x);
    LiveWith(live, q, n, x);
  }

  // ---------------------------------------------------------------- walking the circle

  /** Free blocks strictly between p and address x in circular order. */
  ghost function Ahead(f: set<int>, p: int, x: int): set<int> {
    if p < x then set b | b in f && p < b < x else set b | b in f && (p < b || b < x)
  }

  lemma AheadStart(m: Cells, f: set<int>, base: int, p: int)
    requires Ring(m, f, base) && p in f
    ensures m[p].ptr in f && Ahead(f, p, m[p].ptr) == {}
  {
    assert Linked(m, f, base, p);
  }

  lemma AheadStep(m: Cells, f: set<int>, base: int, start: int, p: int)
    requires Ring(m, f, base) && p in f && start in f && p != start
    ensures m[p].ptr in f && p !in Ahead(f, start, p)
    ensures Ahead(f, start, m[p].ptr) == Ahead(f, start, p) + {p}
  {
    assert Linked(m, f, base, p);
  }

  lemma AheadAll(f: set<int>, p: int)
    ensures Ahead(f, p, p) == f - {p}
  {
  }

  class Allocator {
    const base: int
    var mem: Cells
    var freep: int
    ghost var free: set<int>
    ghost var live: map<int, nat>
    ghost var arena: iset<int>
    ghost var brk: int

    /** Nothing obtained yet, or a well formed list; the free and the live blocks together
        make up exactly the bytes obtained from sbrk. */
    ghost predicate Valid()
      reads this
    {
      && 0 < base && base + UNIT <= brk <= KERNBASE
      && (forall x :: x in arena ==> x < brk)
      && (freep == 0 ==> live == map[] && arena == iset{})
      && (freep != 0 ==> freep in free && Good(mem, free, base, live, {}))
      && (freep != 0 ==> forall x :: x in arena <==> FreeAt(mem, free, base, x) || LiveAt(live, x))
    }

    constructor (base: int, brk: int)
      requires 0 < base && base + UNIT <= brk <= KERNBASE
      ensures Valid() && freep == 0 && this.base == base
    {
      this.base, mem, freep := base, map[], 0;
      free, live, arena, this.brk := {}, map[], iset{}, brk;
    }

    // The search loop of free: the block after which bp belongs.
    method FindSpot(bp: int) returns (p: int)
      requires Valid() && freep != 0 && bp in live
      ensures Placed(mem, free, live, p, bp)
    {
      p := freep;
      while !(bp > p && bp < mem[p].ptr)
        invariant p in free && p in mem && Linked(mem, free, base, p)
        decreases Ahead(free, p, bp)
      {
        if p >= mem[p].ptr && (bp > p || bp < mem[p].ptr) { break; }
        assert Linked(mem, free, base, mem[p].ptr);
        assert mem[p].ptr in Ahead(free, p, bp);
        p := mem[p].ptr;
      }
    }

    /** No byte is both free and live. */
    lemma Exclusive(x: int)
      requires Valid() && freep != 0
      ensures !(FreeAt(mem, free, base, x) && LiveAt(live, x))
    {
    }

    method Free(ap: int)
      requires Valid() && ap - UNIT in live
      modifies `mem, `freep, `free, `live
      ensures Valid() && freep != 0
      ensures live == old(live) - {ap - UNIT}
      ensures forall x :: FreeAt(mem, free, base, x) <==>
                old(FreeAt(mem, free, base, x)) || ap - UNIT <= x < ap - UNIT + old(live)[ap - UNIT] * UNIT
    {
      hide Linked, Sized, Apart, Freed;
      var bp := ap - UNIT;
      var p := FindSpot(bp);
      ghost var m, f := mem, free;
      FreeKeeps(mem, free, base, live, p, bp);
      LinkIn(p, bp);
      freep := p;
      free := FreedSet(m, f, p, bp);
      live := live - {bp};
      forall x ensures LiveAt(old(live), x) <==> LiveAt(live, x) || Within(m, bp, x) {
        LiveWithout(old(live), bp, x);
      }
    }

    // The pointer updates of free: join the block to its neighbours or link it between them.
    method LinkIn(p: int, bp: int)
      requires p in mem && bp in mem && mem[p].ptr in mem && p != bp
      modifies `mem
      ensures mem == Freed(old(mem), p, bp)
    {
      var next := mem[p].ptr;
      if bp + mem[bp].size * UNIT == next {
        mem := mem[bp := Header(mem[next].ptr, mem[bp].size + mem[next].size)];
      } else {
        mem := mem[bp := Header(next, mem[bp].size)];
      }
      if p + mem[p].size * UNIT == bp {
        mem := mem[p := Header(mem[bp].ptr, mem[p].size + mem[bp].size)];
      } else {
        mem := mem[p := Header(bp, mem[p].size)];
      }
    }

    /** Every block ends below brk. */
    lemma BelowBrk()
      requires Valid() && freep != 0
      ensures forall a :: a in free ==> End(mem, a) <= brk && a < brk
      ensures forall a :: a in live ==> a in mem && End(mem, a) <= brk
    {
      forall a | a in free ensures End(mem, a) <= brk && a < brk {
        if a != base {
          assert Within(mem, a, End(mem, a) - 1);
          assert FreeAt(mem, free, base, End(mem, a) - 1);
        }
      }
      forall a | a in live ensures End(mem, a) <= brk {
        assert LiveAt(live, End(mem, a) - 1);
      }
    }

    // sbrk's answer is an address past everything obtained so far, or -1.
    ghost predicate Fresh(answer: int, bytes: nat)
      reads this
    {
      answer == -1 || (brk <= answer && answer + bytes <= KERNBASE)
    }

    /** New memory from sbrk, dressed up as a live block. */
    method Grow(hp: int, nu: nat)
      requires Valid() && freep != 0 && nu >= 1 && brk <= hp && hp + nu * UNIT <= KERNBASE
      modifies `mem, `live, `arena, `brk
      ensures Valid() && hp !in old(live) && live == old(live)[hp := nu]
      ensures arena == old(arena) + Range(hp, nu * UNIT)
    {
      BelowBrk();
      GrowKeeps(mem, free, base, live, hp, nu);
      assert hp !in live;
      forall x ensures LiveAt(live[hp := nu], x) <==> LiveAt(live, x) || hp <= x < hp + nu * UNIT {
        LiveWith(live, hp, nu, x);
      }
      ghost var m := mem;
      mem := mem[hp := Header(0, nu)];
      forall x ensures FreeAt(mem, free, base, x) <==> FreeAt(m, free, base, x) {
        assert forall a :: a in free ==> (Within(mem, a, x) <==> Within(m, a, x));
      }
      live := live[hp := nu];
      brk := hp + nu * UNIT;
      arena := arena + Range(hp, nu * UNIT);
    }

    method MoreCore(units: nat, answer: int) returns (r: int)
      requires Valid() && freep != 0 && units >= 1
      requires Fresh(answer, AtLeastMore(units) * UNIT)
      modifies `mem, `freep, `free, `live, `arena, `brk
      ensures Valid() && live == old(live) && freep != 0 && Ring(mem, free, base)
      ensures r == 0 <==> answer == -1
      ensures r == 0 ==> mem == old(mem) && freep == old(freep) && free == old(free)
      ensures r == 0 ==> arena == old(arena) && brk == old(brk)
      ensures r != 0 ==> r == freep && exists a :: a in free && a != base && mem[a].size >= units
      ensures r != 0 ==> arena == old(arena) + Range(answer, AtLeastMore(units) * UNIT)
    {
      var nu := if units < MORE then MORE else units;
      if answer == -1 { return 0; }
      var hp := answer;
      Grow(hp, nu);
      Free(hp + UNIT);
      r := freep;
      ghost var a := OneBlock(mem, free, base, live, hp, nu);
    }

    // The two ways malloc takes nunits from the block at p, whose predecessor is prevp.
    method Take(prevp: int, p: int, nunits: nat) returns (r: int)
      requires Valid() && freep != 0 && nunits >= 1
      requires prevp in free && p in free && mem[prevp].ptr == p && mem[p].size >= nunits
      modifies `mem, `freep, `free, `live
      ensures Valid() && freep != 0 && r != 0
      ensures r - UNIT !in old(live) && live == old(live)[r - UNIT := nunits]
      ensures forall x :: r - UNIT <= x < r - UNIT + nunits * UNIT ==>
                old(FreeAt(mem, free, base, x)) && !LiveAt(old(live), x)
    {
      hide Linked, Sized, Apart;
      forall x ensures !(FreeAt(mem, free, base, x) && LiveAt(live, x)) { Exclusive(x); }
      TakeKeeps(mem, free, base, live, prevp, p, nunits);
      ghost var m, f, l := mem, free, live;
      var q := p;
      if mem[p].size == nunits {
        mem := mem[prevp := Header(mem[p].ptr, mem[prevp].size)];
      } else {
        mem := mem[p := Header(mem[p].ptr, mem[p].size - nunits)];
        q := p + mem[p].size * UNIT;
        mem := mem[q := Header(0, nunits)];
      }
      free := TakenSet(m, f, p, nunits);
      live := live[q := nunits];
      freep := prevp;
      r := q + UNIT;
      assert mem == TakenMemory(m, prevp, p, nunits) && q == TakenAt(m, p, nunits);
      forall x ensures FreeAt(m, f, base, x) <==> FreeAt(mem, free, base, x) || q <= x < q + nunits * UNIT
        ensures LiveAt(live, x) <==> LiveAt(l, x) || q <= x < q + nunits * UNIT
      {
        TakeFrees(m, f, base, l, prevp, p, nunits, x);
      }
    }

    // The first call of malloc makes base a list of its own.
    method Start()
      requires Valid()
      modifies `mem, `freep, `free
      ensures Valid() && freep != 0 && Ring(mem, free, base)
      ensures old(freep) != 0 ==> mem == old(mem) && free == old(free) && freep == old(freep)
      ensures old(freep) == 0 ==> free == {base} && mem[base].size == 0
    {
      if freep == 0 {
        mem := mem[base := Header(base, 0)];
        freep := base;
        free := {base};
        assert Linked(mem, free, base, base);
      }
    }

    ghost predicate NoneFits(nunits: nat)
      reads this
    {
      forall a :: a in free ==> a in mem && mem[a].size < nunits
    }

    method Malloc(nbytes: nat, answer: int) returns (r: int)
      requires Valid() && nbytes < UINT
      requires AtLeastMore(Units(nbytes)) * UNIT < UINT / 2
      requires Fresh(answer, AtLeastMore(Units(nbytes)) * UNIT)
      modifies `mem, `freep, `free, `live, `arena, `brk
      ensures Valid() && freep != 0
      ensures r == 0 ==> answer == -1 && live == old(live) && NoneFits(Units(nbytes))
      ensures r != 0 ==> r - UNIT !in old(live) && live == old(live)[r - UNIT := Units(nbytes)]
      ensures r != 0 ==> forall x :: r - UNIT <= x < r - UNIT + Units(nbytes) * UNIT ==> !LiveAt(old(live), x)
      ensures arena == old(arena) || arena == old(arena) + Range(answer, AtLeastMore(Units(nbytes)) * UNIT)
      ensures arena != old(arena) ==> answer != -1 && (old(freep != 0) ==> old(NoneFits(Units(nbytes))))
    {
      hide Good, LiveAt;
      var nunits := Units(nbytes);
      Start();
      ghost var m, f := mem, free;
      ghost var grown := false;
      var prevp := freep;
      AheadStart(mem, free, base, prevp);
      var p := mem[prevp].ptr;
      while true
        invariant Valid() && freep != 0 && live == old(live) && Ring(mem, free, base)
        invariant prevp in free && p in free && mem[prevp].ptr == p
        invariant forall b :: b in Ahead(free, freep, p) ==> mem[b].size < nunits
        invariant !grown ==> mem == m && free == f && arena == old(arena) && Fresh(answer, AtLeastMore(nunits) * UNIT)
        invariant grown ==> exists a :: a in free && mem[a].size >= nunits
        invariant grown ==> arena == old(arena) + Range(answer, AtLeastMore(nunits) * UNIT)
        invariant grown ==> answer != -1 && forall a :: a in f ==> a in m && m[a].size < nunits
        decreases if grown then 0 else 1, free - Ahead(free, freep, p)
      {
        if mem[p].size >= nunits {
          r := Take(prevp, p, nunits);
          return;
        }
        if p == freep {
          AheadAll(free, freep);
          assert NoneFits(nunits);
          assert !grown;
          p := MoreCore(nunits, answer);
          if p == 0 { return 0; }
          grown := true;
          AheadStart(mem, free, base, p);
        } else {
          AheadStep(mem, free, base, freep, p);
        }
        prevp, p := p, mem[p].ptr;
      }
    }
  }
}
