/** The arena allocator: a simulated linear address space [0, peak) whose free
    blocks are kept in three indices (an ordered set keyed by (size, addr), and
    two maps from a block's start and end address to its size), best-fit
    allocation with splitting and tail extension, immediate coalescing on free,
    and a backing buffer that is realized once. */
module Allocators {
  import opened Util

  /** size_t arithmetic wraps modulo 2^64. */
  const WORD: int := 0x1_0000_0000_0000_0000
  type Word64 = x: int | 0 <= x < WORD

  /** sizeof(uint64_t), the widest scalar the tensors hold. */
  const ALIGNMENT: nat := 8

  /** getAlignedSize, evaluated in size_t: `(size - 1)` wraps for size 0, and the
      final product wraps for the seven largest sizes. */
  function AlignedSize(size: Word64): (r: Word64)
    ensures 1 <= size <= WORD - ALIGNMENT ==> r % ALIGNMENT == 0 && size <= r && r - ALIGNMENT < size
    ensures size == 0 ==> r == 0
    ensures WORD - ALIGNMENT < size ==> r == 0
  {
    var dec := (size - 1) % WORD;
    ((dec / ALIGNMENT + 1) * ALIGNMENT) % WORD
  }

  /** std::map::emplace: inserts the entry only when the key is absent. */
  function Emplace(m: map<nat, nat>, k: nat, v: nat): (r: map<nat, nat>)
    ensures k in m ==> r == m
    ensures k !in m ==> r == m[k := v]
  {
    if k in m then m else m[k := v]
  }

  // ---------------------------------------------------------------------------
  // BlockInfo and its ordering

  datatype BlockInfo = BlockInfo(addr: nat, size: nat) {
    function End(): nat { addr + size }
  }

  /** BlockInfo::operator<: by size, then by address. */
  predicate Less(a: BlockInfo, b: BlockInfo) {
    if a.size != b.size then a.size < b.size else a.addr < b.addr
  }

  /** The probe BlockInfo(s) used for the best-fit search: address 0. */
  function Probe(size: nat): (p: BlockInfo)
    ensures p.addr == 0 && p.size == size
  {
    BlockInfo(0, size)
  }

  lemma LessIsStrictTotalOrder(a: BlockInfo, b: BlockInfo, c: BlockInfo)
    ensures !Less(a, a)
    ensures Less(a, b) ==> !Less(b, a)
    ensures Less(a, b) && Less(b, c) ==> Less(a, c)
    ensures a != b ==> Less(a, b) || Less(b, a)
  {
  }

  /** No block is below the probe exactly when it is large enough. */
  lemma ProbeBoundsSize(b: BlockInfo, size: nat)
    ensures !Less(b, Probe(size)) <==> b.size >= size
  {
  }

  /** std::set::lower_bound: the least element that is not below `probe`. */
  method LowerBound(blocks: set<BlockInfo>, probe: BlockInfo) returns (r: Option<BlockInfo>)
    ensures r.None? <==> forall b :: b in blocks ==> Less(b, probe)
    ensures r.Some? ==> r.value in blocks && !Less(r.value, probe)
    ensures r.Some? ==> forall b :: b in blocks && !Less(b, probe) ==> r.value == b || Less(r.value, b)
  {
    var rest := blocks;
    r := None;
    while rest != {}
      invariant rest <= blocks
      invariant r.None? ==> forall b :: b in blocks - rest ==> Less(b, probe)
      invariant r.Some? ==> r.value in blocks - rest && !Less(r.value, probe)
      invariant r.Some? ==> forall b :: b in blocks - rest && !Less(b, probe) ==> r.value == b || Less(r.value, b)
      decreases rest
    {
      var b :| b in rest;
      rest := rest - {b};
      if !Less(b, probe) && (r.None? || Less(b, r.value)) {
        r := Some(b);
      }
    }
  }

  /** Some free block is at least `size` long. */
  ghost predicate HasFit(fb: set<BlockInfo>, size: nat) {
    exists b :: b in fb && b.size >= size
  }

  /** `b` is the best fit: the smallest block of at least `size`, lowest address on ties. */
  ghost predicate IsBestFit(fb: set<BlockInfo>, size: nat, b: BlockInfo) {
    && b in fb && b.size >= size
    && forall c :: c in fb && c.size >= size ==> b == c || Less(b, c)
  }

  lemma {:induction false} BestFitExists(fb: set<BlockInfo>, size: nat)
    requires HasFit(fb, size)
    ensures exists b :: IsBestFit(fb, size, b)
    decreases fb
  {
    var b :| b in fb && b.size >= size;
    var rest := fb - {b};
    if HasFit(rest, size) {
      BestFitExists(rest, size);
      var m :| IsBestFit(rest, size, m);
      if Less(b, m) {
        assert IsBestFit(fb, size, b);
      } else {
        assert IsBestFit(fb, size, m);
      }
    } else {
      assert IsBestFit(fb, size, b);
    }
  }

  lemma BestFitUnique(fb: set<BlockInfo>, size: nat, b: BlockInfo, c: BlockInfo)
    requires IsBestFit(fb, size, b) && IsBestFit(fb, size, c)
    ensures b == c
  {
  }

  /** The block the best-fit search selects. */
  ghost function BestFit(fb: set<BlockInfo>, size: nat): (b: BlockInfo)
    requires HasFit(fb, size)
    ensures IsBestFit(fb, size, b)
  {
    BestFitExists(fb, size);
    var b :| IsBestFit(fb, size, b);
    b
  }

  /** The search the allocator performs, stated against the best-fit definition. */
  lemma LowerBoundIsBestFit(fb: set<BlockInfo>, size: nat, r: Option<BlockInfo>)
    requires r.None? <==> forall b :: b in fb ==> Less(b, Probe(size))
    requires r.Some? ==> r.value in fb && !Less(r.value, Probe(size))
    requires r.Some? ==> forall b :: b in fb && !Less(b, Probe(size)) ==> r.value == b || Less(r.value, b)
    ensures r.None? <==> !HasFit(fb, size)
    ensures r.Some? ==> HasFit(fb, size) && r.value == BestFit(fb, size)
  {
    if r.Some? {
      assert IsBestFit(fb, size, r.value);
      BestFitUnique(fb, size, r.value, BestFit(fb, size));
    }
  }

  // ---------------------------------------------------------------------------
  // The free-block indices

  /** Every free block is indexed by its start and by its end. */
  ghost predicate Indexed(fb: set<BlockInfo>, starts: map<nat, nat>, ends: map<nat, nat>) {
    forall b {:trigger InFree(fb, b)} :: InFree(fb, b) ==> b.addr in starts && starts[b.addr] == b.size && b.End() in ends && ends[b.End()] == b.size
  }

  /** Every entry of the start index names a free block. */
  ghost predicate StartsNamed(fb: set<BlockInfo>, starts: map<nat, nat>) {
    forall a {:trigger InIdx(starts, a)} :: InIdx(starts, a) ==> BlockInfo(a, starts[a]) in fb
  }

  /** Every entry of the end index names a free block. */
  ghost predicate EndsNamed(fb: set<BlockInfo>, ends: map<nat, nat>) {
    forall e {:trigger InIdx(ends, e)} :: InIdx(ends, e) ==> exists b {:trigger b in fb} :: b in fb && b.End() == e && b.size == ends[e]
  }

  /** Distinct free blocks are separated by at least one allocated byte: they never
      overlap, and none ends where another starts (coalescing is complete). */
  ghost predicate Apart(fb: set<BlockInfo>) {
    forall a, b {:trigger Separate(a, b)} :: a in fb && b in fb && a != b ==> Separate(a, b)
  }

  /** Membership in the free set and in an index, spelled as predicates: the
      invariant's quantifiers fire on these terms only, so each proof says which
      blocks and keys it needs instead of the solver trying every one. */
  predicate InFree(fb: set<BlockInfo>, b: BlockInfo) { b in fb }
  predicate InIdx(m: map<nat, nat>, k: nat) { k in m }

  /** At least one byte lies between the two blocks, in one order or the other. */
  predicate Separate(a: BlockInfo, b: BlockInfo) {
    a.End() < b.addr || b.End() < a.addr
  }

  ghost predicate WithinPeak(fb: set<BlockInfo>, peak: nat) {
    forall b {:trigger InFree(fb, b)} :: InFree(fb, b) ==> b.End() <= peak
  }

  /** The allocator's invariant over its free-block state: the ordered set and both
      maps describe the same blocks, which lie apart from each other below peak. */
  ghost predicate Consistent(fb: set<BlockInfo>, starts: map<nat, nat>, ends: map<nat, nat>, peak: nat) {
    Indexed(fb, starts, ends) && StartsNamed(fb, starts) && EndsNamed(fb, ends) && Apart(fb) && WithinPeak(fb, peak)
  }

  /** The range [addr, addr + size) meets no free block (it may touch one). */
  ghost predicate ClearOfFree(fb: set<BlockInfo>, addr: nat, size: nat) {
    forall b {:trigger InFree(fb, b)} :: InFree(fb, b) ==> addr + size <= b.addr || b.End() <= addr
  }

  /** Address `x` lies inside some free block. */
  ghost predicate Covered(fb: set<BlockInfo>, x: int) {
    exists b {:trigger b in fb} :: b in fb && b.addr <= x < b.End()
  }

  lemma CoveredMinus(fb: set<BlockInfo>, b: BlockInfo)
    requires Apart(fb) && b in fb
    ensures forall x :: Covered(fb - {b}, x) <==> Covered(fb, x) && !(b.addr <= x < b.End())
  {
    forall x | Covered(fb, x) && !(b.addr <= x < b.End()) ensures Covered(fb - {b}, x) {
      var c :| c in fb && c.addr <= x < c.End();
      assert c in fb - {b};
    }
    forall x | Covered(fb - {b}, x) ensures !(b.addr <= x < b.End()) {
      var c :| c in fb - {b} && c.addr <= x < c.End();
      assert Separate(c, b);
    }
  }

  lemma CoveredPlus(fb: set<BlockInfo>, m: BlockInfo)
    ensures forall x :: Covered(fb + {m}, x) <==> Covered(fb, x) || m.addr <= x < m.End()
  {
    forall x | Covered(fb, x) ensures Covered(fb + {m}, x) {
      var c :| c in fb && c.addr <= x < c.End();
      assert c in fb + {m};
    }
    forall x | m.addr <= x < m.End() ensures Covered(fb + {m}, x) {
      assert m in fb + {m};
    }
  }

  lemma CoveredBelowPeak(fb: set<BlockInfo>, peak: nat)
    requires WithinPeak(fb, peak)
    ensures forall x :: Covered(fb, x) ==> x < peak
  {
    forall x | Covered(fb, x) ensures x < peak {
      var c :| c in fb && c.addr <= x < c.End();
      assert InFree(fb, c);
    }
  }

  /** Free blocks that lie apart have distinct starts and distinct ends. */
  lemma ApartKeys(fb: set<BlockInfo>)
    requires Apart(fb)
    ensures forall b, c :: b in fb && c in fb && b != c ==> b.addr != c.addr && b.End() != c.End()
  {
    forall b, c | b in fb && c in fb && b != c ensures b.addr != c.addr && b.End() != c.End() {
      assert Separate(b, c);
    }
  }

  /** The start index of a set of free blocks that lie apart: each block's start
      mapped to its size. */
  ghost function StartsOf(fb: set<BlockInfo>): map<nat, nat>
    requires Apart(fb)
  {
    ApartKeys(fb);
    map b | b in fb :: b.addr := b.size
  }

  /** The end index: each block's end mapped to its size. */
  ghost function EndsOf(fb: set<BlockInfo>): map<nat, nat>
    requires Apart(fb)
  {
    ApartKeys(fb);
    map b | b in fb :: b.End() := b.size
  }

  lemma StartsDescribeFree(fb: set<BlockInfo>, st: map<nat, nat>, en: map<nat, nat>)
    requires Indexed(fb, st, en) && StartsNamed(fb, st) && Apart(fb)
    ensures st == StartsOf(fb)
  {
    var m := StartsOf(fb);
    forall a | a in st ensures a in m && m[a] == st[a] {
      assert InIdx(st, a);
      var b := BlockInfo(a, st[a]);
      assert b in fb && b.addr == a;
      forall x | x in fb && x.addr == a ensures x == b {
        assert x == b || Separate(x, b);
      }
    }
    forall a | a in m ensures a in st {
      var b :| b in fb && b.addr == a;
      assert InFree(fb, b);
    }
  }

  lemma EndsDescribeFree(fb: set<BlockInfo>, st: map<nat, nat>, en: map<nat, nat>)
    requires Indexed(fb, st, en) && EndsNamed(fb, en) && Apart(fb)
    ensures en == EndsOf(fb)
  {
    var m := EndsOf(fb);
    forall e | e in en ensures e in m && m[e] == en[e] {
      EndIndexed(fb, en, e);
      var b := BlockInfo(e - en[e], en[e]);
      assert b in fb && b.End() == e;
      forall x | x in fb && x.End() == e ensures x == b {
        assert x == b || Separate(x, b);
      }
    }
    forall e | e in m ensures e in en {
      var b :| b in fb && b.End() == e;
      assert InFree(fb, b);
    }
  }

  /** Under the invariant the two maps hold exactly the free blocks: they are
      determined by the ordered set. */
  lemma IndicesDescribeFree(fb: set<BlockInfo>, st: map<nat, nat>, en: map<nat, nat>, peak: nat)
    requires Consistent(fb, st, en, peak)
    ensures st == StartsOf(fb) && en == EndsOf(fb)
  {
    StartsDescribeFree(fb, st, en);
    EndsDescribeFree(fb, st, en);
  }

  /** The indices of an empty free set are empty, and those of a single free block
      hold just that block. */
  lemma EmptyIndices(fb: set<BlockInfo>, st: map<nat, nat>, en: map<nat, nat>, peak: nat)
    requires Consistent(fb, st, en, peak) && fb == {}
    ensures st == map[] && en == map[]
  {
    IndicesDescribeFree(fb, st, en, peak);
  }

  lemma SingleIndices(fb: set<BlockInfo>, st: map<nat, nat>, en: map<nat, nat>, peak: nat, b: BlockInfo)
    requires Consistent(fb, st, en, peak) && fb == {b}
    ensures st == map[b.addr := b.size] && en == map[b.End() := b.size]
  {
    assert InFree(fb, b);
    forall a | a in st ensures a == b.addr {
      assert InIdx(st, a);
    }
    forall e | e in en ensures e == b.End() {
      EndIndexed(fb, en, e);
    }
  }

  // ---------------------------------------------------------------------------
  // Index maintenance, one block at a time

  lemma EndIndexed(fb: set<BlockInfo>, ends: map<nat, nat>, e: nat)
    requires EndsNamed(fb, ends) && e in ends
    ensures ends[e] <= e && BlockInfo(e - ends[e], ends[e]) in fb
  {
    assert InIdx(ends, e);
    var b :| b in fb && b.End() == e && b.size == ends[e];
    assert b == BlockInfo(e - ends[e], ends[e]);
  }

  lemma RemoveIndexed(fb: set<BlockInfo>, starts: map<nat, nat>, ends: map<nat, nat>, b: BlockInfo)
    requires Indexed(fb, starts, ends) && Apart(fb) && b in fb
    ensures Indexed(fb - {b}, starts - {b.addr}, ends - {b.End()})
  {
    forall c | InFree(fb - {b}, c)
      ensures c.addr in starts - {b.addr} && (starts - {b.addr})[c.addr] == c.size
      ensures c.End() in ends - {b.End()} && (ends - {b.End()})[c.End()] == c.size
    {
      assert InFree(fb, c) && Separate(c, b);
    }
  }

  lemma RemoveStartsNamed(fb: set<BlockInfo>, starts: map<nat, nat>, b: BlockInfo)
    requires StartsNamed(fb, starts)
    ensures StartsNamed(fb - {b}, starts - {b.addr})
  {
    forall a | InIdx(starts - {b.addr}, a) ensures BlockInfo(a, (starts - {b.addr})[a]) in fb - {b} {
      assert InIdx(starts, a);
    }
  }

  lemma RemoveEndsNamed(fb: set<BlockInfo>, ends: map<nat, nat>, b: BlockInfo)
    requires EndsNamed(fb, ends)
    ensures EndsNamed(fb - {b}, ends - {b.End()})
  {
    forall e | InIdx(ends - {b.End()}, e)
      ensures exists c :: c in fb - {b} && c.End() == e && c.size == (ends - {b.End()})[e]
    {
      assert InIdx(ends, e);
      var c :| c in fb && c.End() == e && c.size == ends[e];
      assert c in fb - {b};
    }
  }

  /** Erasing a free block from all three indices keeps the invariant; `e` is the
      key under which the end index holds it. */
  lemma RemoveBlock(fb: set<BlockInfo>, starts: map<nat, nat>, ends: map<nat, nat>, peak: nat, b: BlockInfo, e: nat)
    requires Consistent(fb, starts, ends, peak) && b in fb && e == b.End()
    ensures Consistent(fb - {b}, starts - {b.addr}, ends - {e}, peak)
  {
    RemoveIndexed(fb, starts, ends, b);
    RemoveStartsNamed(fb, starts, b);
    RemoveEndsNamed(fb, ends, b);
    forall c | InFree(fb - {b}, c) ensures c.End() <= peak {
      assert InFree(fb, c);
    }
  }

  lemma InsertIndexed(fb: set<BlockInfo>, starts: map<nat, nat>, ends: map<nat, nat>, m: BlockInfo)
    requires Indexed(fb, starts, ends) && m.addr !in starts && m.End() !in ends
    ensures Indexed(fb + {m}, starts[m.addr := m.size], ends[m.End() := m.size])
  {
    forall c | InFree(fb + {m}, c) && c != m
      ensures c.addr != m.addr && c.End() != m.End()
      ensures c.addr in starts && starts[c.addr] == c.size && c.End() in ends && ends[c.End()] == c.size
    {
      assert InFree(fb, c);
    }
  }

  lemma InsertStartsNamed(fb: set<BlockInfo>, starts: map<nat, nat>, m: BlockInfo)
    requires StartsNamed(fb, starts)
    ensures StartsNamed(fb + {m}, starts[m.addr := m.size])
  {
    forall a | InIdx(starts, a) ensures BlockInfo(a, starts[a]) in fb {
      assert InIdx(starts, a);
    }
  }

  lemma InsertEndsNamed(fb: set<BlockInfo>, ends: map<nat, nat>, m: BlockInfo)
    requires EndsNamed(fb, ends)
    ensures EndsNamed(fb + {m}, ends[m.End() := m.size])
  {
    var ends' := ends[m.End() := m.size];
    forall e | InIdx(ends', e)
      ensures exists c :: c in fb + {m} && c.End() == e && c.size == ends'[e]
    {
      if e == m.End() {
        assert m in fb + {m};
      } else {
        assert InIdx(ends, e);
        var c :| c in fb && c.End() == e && c.size == ends[e];
        assert c in fb + {m};
      }
    }
  }

  lemma InsertApart(fb: set<BlockInfo>, peak: nat, m: BlockInfo)
    requires Apart(fb) && WithinPeak(fb, peak) && m.End() <= peak
    requires forall c :: c in fb ==> c.End() < m.addr || m.End() < c.addr
    ensures Apart(fb + {m}) && WithinPeak(fb + {m}, peak)
  {
    forall c | InFree(fb + {m}, c) && c != m ensures c.End() <= peak {
      assert InFree(fb, c);
    }
  }

  /** A block apart from every indexed free block has no index entry at its start or end. */
  lemma ApartUnindexed(fb: set<BlockInfo>, starts: map<nat, nat>, ends: map<nat, nat>, m: BlockInfo)
    requires StartsNamed(fb, starts) && EndsNamed(fb, ends)
    requires forall c :: c in fb ==> c.End() < m.addr || m.End() < c.addr
    ensures m.addr !in starts && m.End() !in ends
  {
    assert m.addr in starts ==> InIdx(starts, m.addr);
    assert m.End() in ends ==> InIdx(ends, m.End());
  }

  /** Inserting a block that lies apart from every free block, below peak. */
  lemma InsertBlock(fb: set<BlockInfo>, starts: map<nat, nat>, ends: map<nat, nat>, peak: nat, m: BlockInfo)
    requires Consistent(fb, starts, ends, peak) && m.End() <= peak
    requires forall c :: c in fb ==> c.End() < m.addr || m.End() < c.addr
    ensures m.addr !in starts && m.End() !in ends
    ensures Consistent(fb + {m}, starts[m.addr := m.size], ends[m.End() := m.size], peak)
  {
    ApartUnindexed(fb, starts, ends, m);
    InsertIndexed(fb, starts, ends, m);
    InsertStartsNamed(fb, starts, m);
    InsertEndsNamed(fb, ends, m);
    InsertApart(fb, peak, m);
  }

  // ---------------------------------------------------------------------------
  // The state transitions of alloc and free, on values

  /** What is left of `b` once its first `size` bytes are handed out. */
  ghost function Remainder(b: BlockInfo, size: nat): set<BlockInfo> {
    if b.size > size then {BlockInfo(b.addr + size, b.size - size)} else {}
  }

  /** The tail of a free block lies apart from every other free block. */
  lemma RemainderApart(fb: set<BlockInfo>, b: BlockInfo, s: nat)
    requires Apart(fb) && b in fb && b.size > s
    ensures forall c :: c in fb - {b} ==> c.End() < b.addr + s || b.End() < c.addr
  {
    forall c | c in fb - {b} ensures c.End() < b.addr + s || b.End() < c.addr {
      assert Separate(c, b);
    }
  }

  /** Handing out the first `s` bytes of the free block `b`, as alloc's best-fit branch
      does: `b` leaves all three indices and its remainder, if any, enters them. */
  lemma SplitBlock(fb: set<BlockInfo>, st: map<nat, nat>, en: map<nat, nat>, peak: nat, b: BlockInfo, s: nat)
    requires Consistent(fb, st, en, peak) && b in fb && b.size >= s
    ensures b.size > s ==>
      var rem := BlockInfo(b.addr + s, b.size - s);
      Consistent(fb - {b} + {rem}, (st - {b.addr})[rem.addr := rem.size], (en - {b.End()})[rem.End() := rem.size], peak)
    ensures b.size <= s ==> Consistent(fb - {b}, st - {b.addr}, en - {b.End()}, peak)
  {
    RemoveBlock(fb, st, en, peak, b, b.End());
    assert InFree(fb, b);
    if b.size > s {
      var rem := BlockInfo(b.addr + s, b.size - s);
      RemainderApart(fb, b, s);
      InsertBlock(fb - {b}, st - {b.addr}, en - {b.End()}, peak, rem);
    }
  }

  /** The split as a set operation, and where the handed-out range lies. */
  lemma SplitCovers(fb: set<BlockInfo>, peak: nat, b: BlockInfo, s: nat)
    requires Apart(fb) && WithinPeak(fb, peak) && b in fb && b.size >= s
    ensures b.size > s ==> fb - {b} + {BlockInfo(b.addr + s, b.size - s)} == fb - {b} + Remainder(b, s)
    ensures b.size <= s ==> fb - {b} == fb - {b} + Remainder(b, s)
    ensures b.addr + s <= peak
    ensures forall x :: Covered(fb - {b} + Remainder(b, s), x) ==> !(b.addr <= x < b.addr + s)
    ensures forall x :: Covered(fb - {b} + Remainder(b, s), x) || b.addr <= x < b.addr + s <==> Covered(fb, x)
  {
    assert InFree(fb, b);
    CoveredMinus(fb, b);
    if b.size > s {
      CoveredPlus(fb - {b}, BlockInfo(b.addr + s, b.size - s));
    } else {
      assert fb - {b} + Remainder(b, s) == fb - {b};
    }
  }

  /** Extending the free block `t` that ends at peak, as alloc's tail branch does. */
  lemma ExtendTail(fb: set<BlockInfo>, st: map<nat, nat>, en: map<nat, nat>, peak: nat, t: BlockInfo, s: nat)
    requires Consistent(fb, st, en, peak) && t in fb && t.End() == peak && t.size < s
    ensures Consistent(fb - {t}, st - {t.addr}, en - {peak}, peak + (s - t.size))
  {
    RemoveBlock(fb, st, en, peak, t, peak);
  }

  lemma TailCovers(fb: set<BlockInfo>, peak: nat, t: BlockInfo, s: nat)
    requires Apart(fb) && WithinPeak(fb, peak) && t in fb && t.End() == peak && t.size < s
    ensures forall x :: Covered(fb - {t}, x) ==> !(t.addr <= x < t.addr + s)
    ensures forall x :: Covered(fb - {t}, x) || t.addr <= x < t.addr + s <==> Covered(fb, x) || peak <= x < peak + (s - t.size)
  {
    CoveredMinus(fb, t);
    CoveredBelowPeak(fb, peak);
    forall x | Covered(fb - {t}, x) ensures x < t.addr {
      var c :| c in fb - {t} && c.addr <= x < c.End();
      assert c in fb && c != t;
    }
  }

  /** The left neighbour a free at `addr` finds: a block ending exactly there. */
  ghost function LeftNeighbor(ends: map<nat, nat>, addr: nat): Option<BlockInfo> {
    if addr in ends && ends[addr] <= addr then Some(BlockInfo(addr - ends[addr], ends[addr])) else None
  }

  /** The right neighbour: a block starting at `e`, other than the left one already merged. */
  ghost function RightNeighbor(starts: map<nat, nat>, left: Option<BlockInfo>, e: nat): Option<BlockInfo> {
    if e in starts && !(left.Some? && left.value.addr == e) then Some(BlockInfo(e, starts[e])) else None
  }

  ghost function AsSet(o: Option<BlockInfo>): set<BlockInfo> {
    if o.Some? then {o.value} else {}
  }

  /** The block a free of [addr, addr + size) inserts after both merges. */
  ghost function Merged(left: Option<BlockInfo>, addr: nat, size: nat, right: Option<BlockInfo>): BlockInfo {
    var start := if left.Some? then left.value.addr else addr;
    var lsize := if left.Some? then left.value.size else 0;
    var rsize := if right.Some? then right.value.size else 0;
    BlockInfo(start, lsize + size + rsize)
  }

  /** The free-block set free leaves behind before inserting the merged block. */
  ghost function WithoutNeighbors(fb: set<BlockInfo>, left: Option<BlockInfo>, right: Option<BlockInfo>): set<BlockInfo> {
    var fb1 := if left.Some? then fb - {left.value} else fb;
    if right.Some? then fb1 - {right.value} else fb1
  }

  /** Where the neighbours lie, and the merged block's extent. */
  lemma NeighborFacts(fb: set<BlockInfo>, st: map<nat, nat>, en: map<nat, nat>, addr: nat, s: nat)
    requires StartsNamed(fb, st) && EndsNamed(fb, en)
    ensures var left := LeftNeighbor(en, addr);
      var right := RightNeighbor(st, left, addr + s);
      var m := Merged(left, addr, s, right);
      && (addr in en <==> left.Some?)
      && (left.Some? ==> left.value in fb && left.value.End() == addr && m.addr == left.value.addr)
      && (left.None? ==> m.addr == addr)
      && (right.Some? ==> right.value in fb && right.value.addr == addr + s && m.End() == right.value.End())
      && (right.None? ==> m.End() == addr + s)
  {
    if addr in en {
      EndIndexed(fb, en, addr);
    }
    var left := LeftNeighbor(en, addr);
    if addr + s in st {
      assert InIdx(st, addr + s);
    }
  }

  /** One free block that is not a neighbour stays apart from the merged block. */
  lemma ApartFromMerged(fb: set<BlockInfo>, st: map<nat, nat>, en: map<nat, nat>, addr: nat, s: nat, c: BlockInfo)
    requires Indexed(fb, st, en) && StartsNamed(fb, st) && EndsNamed(fb, en) && Apart(fb)
    requires ClearOfFree(fb, addr, s)
    requires var left := LeftNeighbor(en, addr);
      c in WithoutNeighbors(fb, left, RightNeighbor(st, left, addr + s))
    ensures var left := LeftNeighbor(en, addr);
      var m := Merged(left, addr, s, RightNeighbor(st, left, addr + s));
      c.End() < m.addr || m.End() < c.addr
  {
    var left := LeftNeighbor(en, addr);
    var right := RightNeighbor(st, left, addr + s);
    NeighborFacts(fb, st, en, addr, s);
    assert c in fb && c !in AsSet(left) && c !in AsSet(right);
    assert InFree(fb, c);
    if left.Some? {
      assert InFree(fb, left.value);
    }
    if c.End() <= addr {
      // c is not the left neighbour, so it ends strictly below addr
      assert c.End() != addr;
      if left.Some? {
        assert Separate(c, left.value);
      }
    } else {
      // c is not the right neighbour, so it starts strictly above addr + s
      assert c.addr != addr + s;
      if right.Some? {
        assert Separate(c, right.value);
      }
    }
  }

  /** The merged block's range is the freed range plus both neighbours' ranges. */
  lemma MergedCovers(fb: set<BlockInfo>, st: map<nat, nat>, en: map<nat, nat>, addr: nat, s: nat)
    requires StartsNamed(fb, st) && EndsNamed(fb, en) && Apart(fb)
    ensures var left := LeftNeighbor(en, addr);
      var right := RightNeighbor(st, left, addr + s);
      forall x :: Covered(WithoutNeighbors(fb, left, right) + {Merged(left, addr, s, right)}, x)
        <==> Covered(fb, x) || addr <= x < addr + s
  {
    var left := LeftNeighbor(en, addr);
    var right := RightNeighbor(st, left, addr + s);
    var m := Merged(left, addr, s, right);
    NeighborFacts(fb, st, en, addr, s);
    var fb1 := if left.Some? then fb - {left.value} else fb;
    if left.Some? {
      CoveredMinus(fb, left.value);
    }
    if right.Some? {
      assert right.value in fb1;
      CoveredMinus(fb1, right.value);
    }
    CoveredPlus(WithoutNeighbors(fb, left, right), m);
  }

  /** The free blocks left once free has erased the neighbours it found. */
  lemma NeighborsErased(fb0: set<BlockInfo>, fb1: set<BlockInfo>, fb2: set<BlockInfo>, left: Option<BlockInfo>, right: Option<BlockInfo>)
    requires left.Some? ==> fb1 == fb0 - {left.value}
    requires left.None? ==> fb1 == fb0
    requires right.Some? ==> fb2 == fb1 - {right.value}
    requires right.None? ==> fb2 == fb1
    ensures fb2 == WithoutNeighbors(fb0, left, right)
  {
  }

  /** Freeing [addr, addr + s): both neighbours leave the indices (state 0 to 1 to 2),
      the merged block enters them, and the invariant holds again. */
  lemma MergeBlocks(fb0: set<BlockInfo>, st0: map<nat, nat>, en0: map<nat, nat>, peak: nat, addr: nat, s: nat,
                    left: Option<BlockInfo>, right: Option<BlockInfo>,
                    fb1: set<BlockInfo>, st1: map<nat, nat>, en1: map<nat, nat>,
                    fb2: set<BlockInfo>, st2: map<nat, nat>, en2: map<nat, nat>)
    requires Consistent(fb0, st0, en0, peak) && addr + s <= peak && ClearOfFree(fb0, addr, s)
    requires left == LeftNeighbor(en0, addr) && right == RightNeighbor(st0, left, addr + s)
    requires left.Some? ==> fb1 == fb0 - {left.value} && st1 == st0 - {left.value.addr} && en1 == en0 - {addr}
    requires left.None? ==> fb1 == fb0 && st1 == st0 && en1 == en0
    requires right.Some? ==> fb2 == fb1 - {right.value} && st2 == st1 - {addr + s} && en2 == en1 - {right.value.End()}
    requires right.None? ==> fb2 == fb1 && st2 == st1 && en2 == en1
    ensures var m := Merged(left, addr, s, right);
      && m.addr !in st2 && m.End() !in en2
      && Consistent(fb2 + {m}, st2[m.addr := m.size], en2[m.End() := m.size], peak)
  {
    var m := Merged(left, addr, s, right);
    NeighborFacts(fb0, st0, en0, addr, s);
    NeighborsErased(fb0, fb1, fb2, left, right);
    if right.Some? {
      assert InFree(fb0, right.value);
    }
    assert Consistent(fb1, st1, en1, peak) by {
      if left.Some? {
        RemoveBlock(fb0, st0, en0, peak, left.value, addr);
      }
    }
    assert Consistent(fb2, st2, en2, peak) by {
      if right.Some? {
        assert right.value in fb1;
        RemoveBlock(fb1, st1, en1, peak, right.value, right.value.End());
      }
    }
    assert forall c :: c in fb2 ==> c.End() < m.addr || m.End() < c.addr by {
      forall c | c in fb2 ensures c.End() < m.addr || m.End() < c.addr {
        ApartFromMerged(fb0, st0, en0, addr, s, c);
      }
    }
    InsertBlock(fb2, st2, en2, peak, m);
  }

  /** The whole of free on values, in the shape of its code: state 0 is the allocator's,
      state 1 follows the left merge, state 2 the right merge, and `nb2` is the block
      emplaced at the end. */
  lemma FreeMerges(fb0: set<BlockInfo>, st0: map<nat, nat>, en0: map<nat, nat>, peak: nat, addr: nat, s: nat,
                   fb1: set<BlockInfo>, st1: map<nat, nat>, en1: map<nat, nat>, nb1: BlockInfo,
                   fb2: set<BlockInfo>, st2: map<nat, nat>, en2: map<nat, nat>, nb2: BlockInfo)
    requires Consistent(fb0, st0, en0, peak) && addr + s <= peak && ClearOfFree(fb0, addr, s)
    requires addr in en0 ==>
      && en0[addr] <= addr
      && var lb := BlockInfo(addr - en0[addr], en0[addr]);
      && fb1 == fb0 - {lb} && st1 == st0 - {lb.addr} && en1 == en0 - {addr}
      && nb1 == BlockInfo(lb.addr, lb.size + s)
    requires addr !in en0 ==> fb1 == fb0 && st1 == st0 && en1 == en0 && nb1 == BlockInfo(addr, s)
    requires nb1.End() in st1 ==>
      var rb := BlockInfo(nb1.End(), st1[nb1.End()]);
      && fb2 == fb1 - {rb} && st2 == st1 - {rb.addr} && en2 == en1 - {rb.End()}
      && nb2 == BlockInfo(nb1.addr, nb1.size + rb.size)
    requires nb1.End() !in st1 ==> fb2 == fb1 && st2 == st1 && en2 == en1 && nb2 == nb1
    ensures nb2.addr !in st2 && nb2.End() !in en2
    ensures Consistent(fb2 + {nb2}, st2[nb2.addr := nb2.size], en2[nb2.End() := nb2.size], peak)
    ensures var left := LeftNeighbor(en0, addr);
      var right := RightNeighbor(st0, left, addr + s);
      fb2 + {nb2} == WithoutNeighbors(fb0, left, right) + {Merged(left, addr, s, right)}
    ensures forall x :: Covered(fb2 + {nb2}, x) <==> Covered(fb0, x) || addr <= x < addr + s
  {
    var left := LeftNeighbor(en0, addr);
    var right := RightNeighbor(st0, left, addr + s);
    assert nb1.End() == addr + s;
    assert left.Some? ==> fb1 == fb0 - {left.value} && st1 == st0 - {left.value.addr} && en1 == en0 - {addr};
    assert left.None? ==> fb1 == fb0 && st1 == st0 && en1 == en0;
    assert right.Some? ==> fb2 == fb1 - {right.value} && st2 == st1 - {addr + s} && en2 == en1 - {right.value.End()};
    assert right.None? ==> fb2 == fb1 && st2 == st1 && en2 == en1;
    assert nb2 == Merged(left, addr, s, right);
    MergeBlocks(fb0, st0, en0, peak, addr, s, left, right, fb1, st1, en1, fb2, st2, en2);
    NeighborsErased(fb0, fb1, fb2, left, right);
    MergedCovers(fb0, st0, en0, addr, s);
  }

  /** The index updates of alloc for an aligned size `s`: hand out the best-fitting
      free block and keep its remainder, or else extend the free block that ends at
      peak, or else bump peak. `used` grows by `dUsed` and peak by `dPeak`. */
  method AllocIndices(fb0: set<BlockInfo>, st0: map<nat, nat>, en0: map<nat, nat>, peak: nat, s: nat)
    returns (fb: set<BlockInfo>, st: map<nat, nat>, en: map<nat, nat>, addr: nat, dUsed: nat, dPeak: nat)
    requires Consistent(fb0, st0, en0, peak)
    ensures Consistent(fb, st, en, peak + dPeak)
    // best fit, split off the remainder
    ensures HasFit(fb0, s) ==>
      var b := BestFit(fb0, s);
      && addr == b.addr && dPeak == 0 && dUsed == s
      && fb == fb0 - {b} + Remainder(b, s)
    // extend the free tail block that ends at peak
    ensures !HasFit(fb0, s) && peak in en0 ==>
      && LeftNeighbor(en0, peak).Some?
      && var t := LeftNeighbor(en0, peak).value;
      && addr == t.addr && t.size < s
      && dPeak == s - t.size && dUsed == s - t.size
      && fb == fb0 - {t}
    // bump peak
    ensures !HasFit(fb0, s) && peak !in en0 ==>
      addr == peak && dPeak == s && dUsed == s && fb == fb0
    // the handed-out range lies below the new peak, clear of the free blocks, and
    // together with them makes up the old free space plus the growth of the arena
    ensures addr + s <= peak + dPeak
    ensures forall x :: Covered(fb, x) ==> !(addr <= x < addr + s)
    ensures forall x :: Covered(fb, x) || addr <= x < addr + s <==> Covered(fb0, x) || peak <= x < peak + dPeak
  {
    fb, st, en := fb0, st0, en0;
    var it := LowerBound(fb, Probe(s));
    LowerBoundIsBestFit(fb, s, it);
    if it.Some? {
      var b := it.value;
      SplitBlock(fb, st, en, peak, b, s);
      SplitCovers(fb, peak, b, s);
      addr := b.addr;
      fb, st, en := fb - {b}, st - {b.addr}, en - {b.End()};
      if b.size > s {
        var rem := BlockInfo(b.addr + s, b.size - s);
        fb, st, en := fb + {rem}, st[rem.addr := rem.size], en[rem.End() := rem.size];
      }
      dUsed, dPeak := s, 0;
    } else if peak in en {
      var endBlockSize := en[peak];
      EndIndexed(fb, en, peak);
      var endBlock := BlockInfo(peak - endBlockSize, endBlockSize);
      ExtendTail(fb, st, en, peak, endBlock, s);
      TailCovers(fb, peak, endBlock, s);
      fb, st, en := fb - {endBlock}, st - {endBlock.addr}, en - {peak};
      addr := endBlock.addr;
      dUsed, dPeak := s - endBlockSize, s - endBlockSize;
    } else {
      CoveredBelowPeak(fb, peak);
      addr := peak;
      dUsed, dPeak := s, s;
    }
  }

  /** The index updates of free: merge with the block ending at `addr`, then with the
      block starting where the merged range ends, then emplace the merged block. */
  method FreeIndices(fb0: set<BlockInfo>, st0: map<nat, nat>, en0: map<nat, nat>, ghost peak: nat, addr: nat, s: nat)
    returns (fb: set<BlockInfo>, st: map<nat, nat>, en: map<nat, nat>)
    requires Consistent(fb0, st0, en0, peak) && addr + s <= peak && ClearOfFree(fb0, addr, s)
    ensures Consistent(fb, st, en, peak)
    ensures var left := LeftNeighbor(en0, addr);
      var right := RightNeighbor(st0, left, addr + s);
      fb == WithoutNeighbors(fb0, left, right) + {Merged(left, addr, s, right)}
    ensures forall x :: Covered(fb, x) <==> Covered(fb0, x) || addr <= x < addr + s
  {
    fb, st, en := fb0, st0, en0;
    var newBlock := BlockInfo(addr, s);
    // merge with the block that ends at addr
    if addr in en {
      var ls := en[addr];
      EndIndexed(fb, en, addr);
      var lb := BlockInfo(addr - ls, ls);
      newBlock := BlockInfo(lb.addr, lb.size + s);
      fb, st, en := fb - {lb}, st - {lb.addr}, en - {addr};
    }
    ghost var fb1, st1, en1, nb1 := fb, st, en, newBlock;
    // merge with the block that starts where the freed range ends
    if newBlock.End() in st {
      var rb := BlockInfo(newBlock.End(), st[newBlock.End()]);
      newBlock := BlockInfo(newBlock.addr, newBlock.size + rb.size);
      fb, st, en := fb - {rb}, st - {rb.addr}, en - {rb.End()};
    }
    FreeMerges(fb0, st0, en0, peak, addr, s, fb1, st1, en1, nb1, fb, st, en, newBlock);
    fb := fb + {newBlock};
    st := Emplace(st, newBlock.addr, newBlock.size);
    en := Emplace(en, newBlock.End(), newBlock.size);
  }

  class Allocator {
    var used: nat
    var peak: nat
    const alignment: nat
    /** The realized buffer's base pointer; None stands for nullptr. */
    var ptr: Option<nat>
    /** How many bytes the runtime was asked for when the buffer was realized. */
    ghost var realizedBytes: nat
    var freeBlocks: set<BlockInfo>
    var blockStartToSize: map<nat, nat>
    var blockEndToSize: map<nat, nat>

    ghost predicate Valid()
      reads this
    {
      alignment == ALIGNMENT && Consistent(freeBlocks, blockStartToSize, blockEndToSize, peak)
    }

    constructor ()
      ensures Valid()
      ensures used == 0 && peak == 0 && ptr == None && alignment == ALIGNMENT
      ensures freeBlocks == {} && blockStartToSize == map[] && blockEndToSize == map[]
    {
      used := 0;
      peak := 0;
      ptr := None;
      alignment := ALIGNMENT;
      freeBlocks := {};
      blockStartToSize := map[];
      blockEndToSize := map[];
    }

    method Alloc(size: Word64) returns (r: Result<nat>)
      requires Valid()
      modifies this`used, this`peak, this`freeBlocks, this`blockStartToSize, this`blockEndToSize
      ensures Valid()
      ensures old(ptr).Some? ==> r == Failure(AllocatorMisuse)
      ensures old(ptr).Some? ==>
        used == old(used) && peak == old(peak) && freeBlocks == old(freeBlocks)
        && blockStartToSize == old(blockStartToSize) && blockEndToSize == old(blockEndToSize)
      ensures old(ptr).None? ==> r.Success?
      // best fit, split off the remainder
      ensures old(ptr).None? && HasFit(old(freeBlocks), AlignedSize(size)) ==>
        var b := BestFit(old(freeBlocks), AlignedSize(size));
        && r == Success(b.addr)
        && peak == old(peak) && used == old(used) + AlignedSize(size)
        && freeBlocks == old(freeBlocks) - {b} + Remainder(b, AlignedSize(size))
      // extend the free tail block that ends at peak
      ensures old(ptr).None? && !HasFit(old(freeBlocks), AlignedSize(size)) && old(peak) in old(blockEndToSize) ==>
        && LeftNeighbor(old(blockEndToSize), old(peak)).Some?
        && var t := LeftNeighbor(old(blockEndToSize), old(peak)).value;
        && r == Success(t.addr)
        && t.size < AlignedSize(size)
        && peak == old(peak) + (AlignedSize(size) - t.size)
        && used == old(used) + (AlignedSize(size) - t.size)
        && freeBlocks == old(freeBlocks) - {t}
      // bump peak
      ensures old(ptr).None? && !HasFit(old(freeBlocks), AlignedSize(size)) && old(peak) !in old(blockEndToSize) ==>
        && r == Success(old(peak))
        && peak == old(peak) + AlignedSize(size) && used == old(used) + AlignedSize(size)
        && freeBlocks == old(freeBlocks)
      // the handed-out range is free of free blocks, and together with them makes up
      // the old free space plus the growth of the arena
      ensures old(ptr).None? ==> r.value + AlignedSize(size) <= peak && peak >= old(peak)
      ensures old(ptr).None? ==>
        forall x :: Covered(freeBlocks, x) ==> !(r.value <= x < r.value + AlignedSize(size))
      ensures old(ptr).None? ==>
        forall x :: Covered(freeBlocks, x) || r.value <= x < r.value + AlignedSize(size)
          <==> Covered(old(freeBlocks), x) || old(peak) <= x < peak
    {
      if ptr.Some? {
        return Failure(AllocatorMisuse);
      }
      var s := AlignedSize(size);
      var fb, st, en, addr, dUsed, dPeak := AllocIndices(freeBlocks, blockStartToSize, blockEndToSize, peak, s);
      freeBlocks, blockStartToSize, blockEndToSize := fb, st, en;
      used, peak := used + dUsed, peak + dPeak;
      r := Success(addr);
    }

    method Free(addr: nat, size: Word64) returns (r: Outcome)
      requires Valid()
      requires addr + AlignedSize(size) <= peak
      requires ClearOfFree(freeBlocks, addr, AlignedSize(size))
      modifies this`freeBlocks, this`blockStartToSize, this`blockEndToSize
      ensures Valid()
      ensures old(ptr).Some? ==> r == Fail(AllocatorMisuse)
      ensures old(ptr).Some? ==>
        freeBlocks == old(freeBlocks)
        && blockStartToSize == old(blockStartToSize) && blockEndToSize == old(blockEndToSize)
      ensures old(ptr).None? ==>
        var left := LeftNeighbor(old(blockEndToSize), addr);
        var right := RightNeighbor(old(blockStartToSize), left, addr + AlignedSize(size));
        && r == Pass
        && freeBlocks == WithoutNeighbors(old(freeBlocks), left, right) + {Merged(left, addr, AlignedSize(size), right)}
      ensures old(ptr).None? ==>
        forall x :: Covered(freeBlocks, x) <==> Covered(old(freeBlocks), x) || addr <= x < addr + AlignedSize(size)
    {
      if ptr.Some? {
        return Fail(AllocatorMisuse);
      }
      var s := AlignedSize(size);
      freeBlocks, blockStartToSize, blockEndToSize := FreeIndices(freeBlocks, blockStartToSize, blockEndToSize, peak, addr, s);
      r := Pass;
    }

    /** getPtr: the first call asks the runtime for exactly `peak` bytes, which come
        back at `base`; every later call returns the cached pointer. */
    method GetPtr(base: nat) returns (p: nat)
      requires Valid()
      modifies this`ptr, this`realizedBytes
      ensures Valid()
      ensures old(ptr).None? ==> ptr == Some(base) && p == base && realizedBytes == peak
      ensures old(ptr).Some? ==> ptr == old(ptr) && p == old(ptr).value && realizedBytes == old(realizedBytes)
    {
      if ptr.None? {
        ptr := Some(base);
        realizedBytes := peak;
      }
      p := ptr.value;
    }
  }

  // ---------------------------------------------------------------------------
  // Scenarios, on a fresh allocator

  /** Best-fit reuse: a freed block is handed out again to a request of its size. */
  method ReuseScenario() returns (first: Result<nat>, second: Result<nat>)
    ensures first == Success(0) && second == Success(0)
  {
    var a := new Allocator();
    first := a.Alloc(64);
    EmptyIndices(a.freeBlocks, a.blockStartToSize, a.blockEndToSize, a.peak);
    var _ := a.Free(0, 64);
    assert a.freeBlocks == {BlockInfo(0, 64)};
    second := a.Alloc(64);
  }

  /** Split: a 40-byte request takes the head of a freed 104-byte block and a 60-byte
      request (64 once aligned) takes exactly the remainder, without growing peak. */
  method SplitScenario() returns (first: Result<nat>, second: Result<nat>, third: Result<nat>, peak: nat)
    ensures first == Success(0) && second == Success(0) && third == Success(40) && peak == 104
  {
    var a := new Allocator();
    first := a.Alloc(100);
    EmptyIndices(a.freeBlocks, a.blockStartToSize, a.blockEndToSize, a.peak);
    var _ := a.Free(0, 100);
    assert a.freeBlocks == {BlockInfo(0, 104)};
    second := a.Alloc(40);
    assert a.freeBlocks == {BlockInfo(40, 64)};
    third := a.Alloc(60);
    peak := a.peak;
  }

  /** A fresh allocator after two 32-byte requests: [0, 32) and [32, 64) are in use. */
  method TwoNeighbors() returns (a: Allocator, x: Result<nat>, y: Result<nat>)
    ensures fresh(a) && a.Valid() && a.ptr.None?
    ensures a.freeBlocks == {} && a.peak == 64
    ensures x == Success(0) && y == Success(32)
  {
    a := new Allocator();
    x := a.Alloc(32);
    EmptyIndices(a.freeBlocks, a.blockStartToSize, a.blockEndToSize, a.peak);
    y := a.Alloc(32);
  }

  /** Coalescing, left block first: the second free merges with its left neighbour
      and the joint block serves a 64-byte request from offset 0. */
  method CoalesceLeftFirst() returns (z: Result<nat>)
    ensures z == Success(0)
  {
    var a, x, y := TwoNeighbors();
    EmptyIndices(a.freeBlocks, a.blockStartToSize, a.blockEndToSize, a.peak);
    var _ := a.Free(0, 32);
    assert a.freeBlocks == {BlockInfo(0, 32)};
    SingleIndices(a.freeBlocks, a.blockStartToSize, a.blockEndToSize, a.peak, BlockInfo(0, 32));
    var _ := a.Free(32, 32);
    assert a.freeBlocks == {BlockInfo(0, 64)};
    z := a.Alloc(64);
  }

  /** Coalescing, right block first: the second free merges with its right neighbour. */
  method CoalesceRightFirst() returns (z: Result<nat>)
    ensures z == Success(0)
  {
    var a, x, y := TwoNeighbors();
    EmptyIndices(a.freeBlocks, a.blockStartToSize, a.blockEndToSize, a.peak);
    var _ := a.Free(32, 32);
    assert a.freeBlocks == {BlockInfo(32, 32)};
    SingleIndices(a.freeBlocks, a.blockStartToSize, a.blockEndToSize, a.peak, BlockInfo(32, 32));
    var _ := a.Free(0, 32);
    assert a.freeBlocks == {BlockInfo(0, 64)};
    z := a.Alloc(64);
  }
}
