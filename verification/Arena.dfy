/**
 The bump arena (src/core/memory_pool.h). Addresses and sizes are 64-bit words with wrap-around written out;
 where the system places a new block is a parameter.
 */
module Arenas {
  import opened TagAllocation
  import opened Arithmetic

  // ── Bits ───────────────────────────────────────────────

  /** Bitwise and of the low n bits. */
  function And(x: nat, y: nat, n: nat): (r: nat)
    ensures r <= x
  {
    if n == 0 then 0 else 2 * And(x / 2, y / 2, n - 1) + if x % 2 == 1 && y % 2 == 1 then 1 else 0
  }

  ghost predicate PowerOfTwo(x: nat) {
    exists k: nat :: x == Pow2(k)
  }

  lemma {:induction false} AndSelf(x: nat, n: nat)
    requires x < Pow2(n)
    ensures And(x, x, n) == x
  {
    if n > 0 { AndSelf(x / 2, n - 1); }
  }

  lemma {:induction false} AndOnes(x: nat, n: nat)
    requires x < Pow2(n)
    ensures And(x, Pow2(n) - 1, n) == x
  {
    if n > 0 {
      assert Pow2(n) == 2 * Pow2(n - 1);
      hide Pow2;
      AndOnes(x / 2, n - 1);
      OddHalf(Pow2(n - 1));
    }
  }

  lemma {:induction false} OddHalf(p: nat)
    requires p > 0
    ensures (2 * p - 1) / 2 == p - 1 && (2 * p - 1) % 2 == 1
  {
  }

  lemma {:induction false} HalvesOfPower(m: nat)
    requires m > 0
    ensures PowerOfTwo(2 * m) <==> PowerOfTwo(m)
  {
    if PowerOfTwo(2 * m) {
      var k: nat :| 2 * m == Pow2(k);
      assert k > 0 && m == Pow2(k - 1);
    }
    if PowerOfTwo(m) {
      var k: nat :| m == Pow2(k);
      assert 2 * m == Pow2(k + 1);
    }
  }

  /** The test in allocate: x & (x - 1) is zero exactly for the powers of two. */
  lemma {:induction false} PowerOfTwoTest(x: nat, n: nat)
    requires 0 < x < Pow2(n)
    ensures And(x, x - 1, n) == 0 <==> PowerOfTwo(x)
  {
    var m := x / 2;
    if x % 2 == 0 {
      assert (x - 1) / 2 == m - 1 && (x - 1) % 2 == 1;
      PowerOfTwoTest(m, n - 1);
      HalvesOfPower(m);
    } else {
      AndSelf(m, n - 1);
      OddPower(x);
    }
  }

  lemma {:induction false} OddPower(x: nat)
    requires x % 2 == 1
    ensures PowerOfTwo(x) <==> x == 1
  {
    assert 1 == Pow2(0);
    if PowerOfTwo(x) {
      var k: nat :| x == Pow2(k);
      assert k > 0 ==> x == 2 * Pow2(k - 1);
    }
  }

  predicate IsMultiple(x: nat, d: nat)
    requires d > 0
  {
    x % d == 0
  }

  /** The last multiple of d up to x. */
  function Floor(x: nat, d: nat): nat
    requires d > 0
  {
    x / d * d
  }

  /** Masking with the complement of 2^k - 1 rounds down to a multiple of 2^k. */
  lemma {:induction false} MaskRoundsDown(x: nat, k: nat, n: nat)
    requires k <= n && x < Pow2(n)
    ensures Pow2(k) <= Pow2(n)
    ensures And(x, Pow2(n) - Pow2(k), n) == Floor(x, Pow2(k))
  {
    if k == 0 {
      AndOnes(x, n);
      assert Pow2(0) == 1 && x / 1 * 1 == x;
    } else {
      assert Pow2(n) == 2 * Pow2(n - 1) && Pow2(k) == 2 * Pow2(k - 1);
      MaskRoundsDown(x / 2, k - 1, n - 1);
      EvenMask(x, Pow2(n - 1), Pow2(k - 1), n);
      hide And, Pow2, Floor;
      DoubleFloor(x, Pow2(k - 1));
    }
  }

  lemma {:induction false} EvenMask(x: nat, m: nat, p: nat, n: nat)
    requires n > 0 && p <= m
    ensures And(x, 2 * m - 2 * p, n) == 2 * And(x / 2, m - p, n - 1)
  {
  }

  lemma {:induction false} DoubleFloor(x: nat, p: nat)
    requires p > 0
    ensures 2 * Floor(x / 2, p) == Floor(x, 2 * p)
  {
    DivideTwice(x, p);
    var q := x / 2 / p;
    assert 2 * (q * p) == q * (2 * p);
  }

  lemma {:induction false} DivideTwice(x: nat, p: nat)
    requires p > 0
    ensures x / 2 / p == x / (2 * p)
  {
    var q, r := x / 2 / p, x / 2 % p;
    assert x / 2 == q * p + r;
    assert x == q * (2 * p) + (2 * r + x % 2);
    Quotient(x, 2 * p, q, 2 * r + x % 2);
  }

  // ── The arena ──────────────────────────────────────────

  const MAX_ALIGN: int := 16

  datatype Block = Block(base: Word64, size: Word64, used: Word64)

  datatype Arena = Arena(blocks: seq<Block>, blockSize: Word64, totalAllocated: Word64)

  function Bytes(bytes: Word64): (r: Word64)
    ensures r > 0
  {
    if bytes == 0 then 1 else bytes
  }

  function Alignment(align: Word64): (r: Word64)
    ensures r > 0
  {
    if align == 0 || And(align, align - 1, 64) != 0 then MAX_ALIGN else align
  }

  function Plus(x: Word64, y: Word64): Word64 {
    (x + y) % TWO64
  }

  /** (base + (align - 1)) & ~(align - 1) */
  function Aligned(base: Word64, align: Word64): Word64
    requires align > 0
  {
    And(Plus(base, align - 1), TWO64 - align, 64)
  }

  function Padding(base: Word64, align: Word64): Word64
    requires align > 0
  {
    (Aligned(base, align) - base) % TWO64
  }

  /** Size of the block grow_ would add. */
  function Want(blockSize: Word64, atLeast: Word64): Word64 {
    if blockSize < atLeast then atLeast else blockSize
  }

  function Grown(blockSize: Word64, want: Word64): Word64 {
    if want == blockSize && blockSize < 0x100_0000 then blockSize * 2 else blockSize
  }

  predicate FitsLast(a: Arena, bytes: Word64, align: Word64)
    requires align > 0
  {
    && a.blocks != []
    && var b := a.blocks[|a.blocks| - 1];
       Plus(Padding(Plus(b.base, b.used), align), bytes) <= (b.size - b.used) % TWO64
  }

  /** allocate: the arena afterwards and the address handed out; a new block would be placed at `place`. */
  function Allocate(a: Arena, bytes: Word64, align: Word64, place: Word64): (Arena, Word64) {
    var n, al := Bytes(bytes), Alignment(align);
    var total := Plus(a.totalAllocated, n);
    if FitsLast(a, n, al) then
      var last := |a.blocks| - 1;
      var b := a.blocks[last];
      var start := Plus(b.base, b.used);
      (a.(blocks := a.blocks[last := b.(used := Plus(b.used, Plus(Padding(start, al), n)))], totalAllocated := total),
       Aligned(start, al))
    else
      var want := Want(a.blockSize, Plus(n, al));
      (Arena(a.blocks + [Block(place, want, Plus(Padding(place, al), n))], Grown(a.blockSize, want), total), Aligned(place, al))
  }

  class ArenaObject {
    var blocks: seq<Block>
    var blockSize: Word64
    var totalAllocated: Word64

    ghost function State(): Arena
      reads this
    {
      Arena(blocks, blockSize, totalAllocated)
    }

    constructor (size: Word64)
      ensures State() == Arena([], if size == 0 then 4096 else size, 0)
    {
      blocks, blockSize, totalAllocated := [], if size == 0 then 4096 else size, 0;
    }

    method Grow(atLeast: Word64, place: Word64)
      modifies this
      ensures var want := Want(old(blockSize), atLeast);
              blocks == old(blocks) + [Block(place, want, 0)] && blockSize == Grown(old(blockSize), want)
              && totalAllocated == old(totalAllocated)
    {
      var want := if blockSize < atLeast then atLeast else blockSize;
      blocks := blocks + [Block(place, want, 0)];
      if want == blockSize && blockSize < 0x100_0000 { blockSize := blockSize * 2; }
    }

    method AllocateBytes(bytes: Word64, align: Word64, place: Word64) returns (address: Word64)
      modifies this
      ensures (State(), address) == Allocate(old(State()), bytes, align, place)
    {
      hide Aligned, Padding, And, Plus;
      var n, al := Bytes(bytes), Alignment(align);
      if blocks != [] {
        var b := blocks[|blocks| - 1];
        var base := Plus(b.base, b.used);
        var aligned := Aligned(base, al);
        var pad := Padding(base, al);
        if Plus(pad, n) <= (b.size - b.used) % TWO64 {
          blocks := blocks[|blocks| - 1 := b.(used := Plus(b.used, Plus(pad, n)))];
          totalAllocated := Plus(totalAllocated, n);
          return aligned;
        }
      }
      Grow(Plus(n, al), place);
      var nb := blocks[|blocks| - 1];
      assert blocks[|blocks| - 1 := nb.(used := Plus(Padding(nb.base, al), n))]
             == old(blocks) + [nb.(used := Plus(Padding(nb.base, al), n))];
      blocks := blocks[|blocks| - 1 := nb.(used := Plus(Padding(nb.base, al), n))];
      totalAllocated := Plus(totalAllocated, n);
      return Aligned(nb.base, al);
    }

    method Reset()
      modifies this
      ensures State() == old(State()).(blocks := [], totalAllocated := 0)
    {
      blocks := [];
      totalAllocated := 0;
    }
  }

  // ── Safety of every run between resets ─────────────────

  /** A request, with the place the system would put a new block at. */
  datatype Request = Request(bytes: Word64, align: Word64, place: Word64)

  datatype Region = Region(start: Word64, size: Word64)

  predicate Apart(a: int, m: int, b: int, n: int) {
    a + m <= b || b + n <= a
  }

  predicate Inside(r: Region, b: Block) {
    b.base <= r.start && r.start + r.size <= b.base + b.used
  }

  predicate BlocksFit(blocks: seq<Block>) {
    forall i :: 0 <= i < |blocks| ==> blocks[i].used <= blocks[i].size && blocks[i].base + blocks[i].size < TWO64
  }

  predicate BlocksApart(blocks: seq<Block>) {
    forall i, j :: 0 <= i < j < |blocks| ==> Apart(blocks[i].base, blocks[i].size, blocks[j].base, blocks[j].size)
  }

  predicate HasHome(r: Region, blocks: seq<Block>) {
    exists i :: 0 <= i < |blocks| && Inside(r, blocks[i])
  }

  predicate RegionsInside(blocks: seq<Block>, regions: seq<Region>) {
    forall i :: 0 <= i < |regions| ==> HasHome(regions[i], blocks)
  }

  predicate RegionsApart(regions: seq<Region>) {
    forall i, j :: 0 <= i < j < |regions| ==> Apart(regions[i].start, regions[i].size, regions[j].start, regions[j].size)
  }

  /** Blocks do not overlap, nor do regions, and every region lies in the used part of one block. */
  predicate Sound(blocks: seq<Block>, regions: seq<Region>) {
    BlocksFit(blocks) && BlocksApart(blocks) && RegionsInside(blocks, regions) && RegionsApart(regions)
  }

  /** No size or address of the request wraps around, and the system places a new block on memory of its own. */
  predicate Sane(a: Arena, q: Request) {
    var n, al := Bytes(q.bytes), Alignment(q.align);
    && n + al < TWO64
    && (forall i :: 0 <= i < |a.blocks| ==> a.blocks[i].base + a.blocks[i].size + al < TWO64)
    && var want := Want(a.blockSize, n + al);
       && q.place + want + al < TWO64
       && forall i :: 0 <= i < |a.blocks| ==> Apart(a.blocks[i].base, a.blocks[i].size, q.place, want)
  }

  /** Aligning rounds up to the next multiple of the alignment, so the padding is less than it. */
  lemma {:induction false} AlignedRoundsUp(base: Word64, align: Word64)
    requires align > 0 && PowerOfTwo(align) && base + align < TWO64
    ensures IsMultiple(Aligned(base, align), align)
    ensures base <= Aligned(base, align) < base + align
    ensures Padding(base, align) == Aligned(base, align) - base
  {
    AlignedIsCeiling(base, align);
    CeilingIsNext(base, align);
    hide Aligned, Ceiling, PowerOfTwo, IsMultiple, Padding;
    PaddingIs(base, align);
  }

  lemma {:induction false} PaddingIs(base: Word64, align: Word64)
    requires align > 0 && base <= Aligned(base, align)
    ensures Padding(base, align) == Aligned(base, align) - base
  {
    hide Aligned;
  }

  /** The next multiple of d. */
  function Ceiling(x: nat, d: nat): nat
    requires d > 0
  {
    Floor(x + (d - 1), d)
  }

  lemma {:induction false} AlignedIsCeiling(base: Word64, align: Word64)
    requires align > 0 && PowerOfTwo(align) && base + align < TWO64
    ensures Aligned(base, align) == Ceiling(base, align)
  {
    var k := PowerIndex(align);
    WordPower();
    hide And, Pow2, Floor, PowerOfTwo;
    MaskRoundsDown(base + (align - 1), k, 64);
    assert Plus(base, align - 1) == base + (align - 1);
  }

  lemma {:induction false} PowerIndex(align: Word64) returns (k: nat)
    requires PowerOfTwo(align)
    ensures k <= 64 && align == Pow2(k)
  {
    k :| align == Pow2(k);
    WordPower();
    if k > 64 { PowersGrow(64, k); }
  }

  lemma {:induction false} CeilingIsNext(x: nat, d: nat)
    requires d > 0
    ensures IsMultiple(Ceiling(x, d), d) && x <= Ceiling(x, d) < x + d
  {
    var y := x + (d - 1);
    assert y == y / d * d + y % d;
    Quotient(y / d * d, d, y / d, 0);
  }

  lemma {:induction false} WordPower()
    ensures Pow2(64) == TWO64
  {
    assert Pow2(8) == 256;
    assert Pow2(16) == 0x1_0000;
    assert Pow2(24) == 0x100_0000;
    assert Pow2(32) == 0x1_0000_0000;
    assert Pow2(40) == 0x100_0000_0000;
    assert Pow2(48) == 0x1_0000_0000_0000;
    assert Pow2(56) == 0x100_0000_0000_0000;
  }

  lemma {:induction false} PowersGrow(i: nat, k: nat)
    requires i <= k
    ensures Pow2(i) <= Pow2(k)
  {
    if i < k { PowersGrow(i, k - 1); }
  }

  lemma {:induction false} AlignmentIsPower(align: Word64)
    ensures PowerOfTwo(Alignment(align))
    ensures align > 0 && PowerOfTwo(align) ==> Alignment(align) == align
  {
    WordPower();
    assert Pow2(4) == MAX_ALIGN;
    if align > 0 { PowerOfTwoTest(align, 64); }
    hide And;
  }

  /** One allocation keeps the arena sound, hands out an aligned region apart from all others, and counts its bytes. */
  lemma {:induction false} AllocateSound(a: Arena, regions: seq<Region>, q: Request)
    requires Sound(a.blocks, regions) && Sane(a, q)
    ensures var (a', address) := Allocate(a, q.bytes, q.align, q.place);
            Sound(a'.blocks, regions + [Region(address, Bytes(q.bytes))]) && IsMultiple(address, Alignment(q.align))
  {
    hide Sound, Sane, Allocate, FitsLast, Alignment, Bytes;
    if FitsLast(a, Bytes(q.bytes), Alignment(q.align)) {
      LastSound(a, regions, q);
    } else {
      NewSound(a, regions, q);
    }
  }

  lemma {:induction false} LastSound(a: Arena, regions: seq<Region>, q: Request)
    requires Sound(a.blocks, regions) && Sane(a, q) && FitsLast(a, Bytes(q.bytes), Alignment(q.align))
    ensures var (a', address) := Allocate(a, q.bytes, q.align, q.place);
            Sound(a'.blocks, regions + [Region(address, Bytes(q.bytes))]) && IsMultiple(address, Alignment(q.align))
  {
    var n, al := Bytes(q.bytes), Alignment(q.align);
    AlignmentIsPower(q.align);
    var b := a.blocks[|a.blocks| - 1];
    assert b.used <= b.size && b.base + b.size + al < TWO64;
    hide Alignment, Bytes, Aligned, Padding, PowerOfTwo, Sound, Sane, Allocate, FitsLast, IsMultiple;
    AlignedRoundsUp(b.base + b.used, al);
    AllocatedInLast(a, regions, q);
    Extended(a, regions, Aligned(b.base + b.used, al), n, Padding(b.base + b.used, al) + n);
  }

  lemma {:induction false} NewSound(a: Arena, regions: seq<Region>, q: Request)
    requires Sound(a.blocks, regions) && Sane(a, q) && !FitsLast(a, Bytes(q.bytes), Alignment(q.align))
    ensures var (a', address) := Allocate(a, q.bytes, q.align, q.place);
            Sound(a'.blocks, regions + [Region(address, Bytes(q.bytes))]) && IsMultiple(address, Alignment(q.align))
  {
    var n, al := Bytes(q.bytes), Alignment(q.align);
    AlignmentIsPower(q.align);
    hide Alignment, Bytes, Aligned, Padding, PowerOfTwo, Sound, Allocate, FitsLast, IsMultiple;
    AlignedRoundsUp(q.place, al);
    AllocatedInNew(a, q);
    Appended(a, regions, Block(q.place, Want(a.blockSize, n + al), Padding(q.place, al) + n), Aligned(q.place, al), n);
  }

  lemma {:induction false} AllocatedInLast(a: Arena, regions: seq<Region>, q: Request)
    requires var n, al := Bytes(q.bytes), Alignment(q.align);
             Sound(a.blocks, regions) && Sane(a, q) && FitsLast(a, n, al)
             && var b := a.blocks[|a.blocks| - 1]; Padding(b.base + b.used, al) < al
    ensures var n, al := Bytes(q.bytes), Alignment(q.align); var last := |a.blocks| - 1;
            var b := a.blocks[last]; var start := b.base + b.used; var grow := Padding(start, al) + n;
            b.used + grow <= b.size
            && Allocate(a, q.bytes, q.align, q.place).0.blocks == a.blocks[last := b.(used := b.used + grow)]
            && Allocate(a, q.bytes, q.align, q.place).1 == Aligned(start, al)
  {
    hide Alignment, And, Bytes, Aligned, Padding, PowerOfTwo;
    var n, al := Bytes(q.bytes), Alignment(q.align);
    var b := a.blocks[|a.blocks| - 1];
    assert b.used <= b.size && b.base + b.size + al < TWO64;
    assert Plus(b.base, b.used) == b.base + b.used;
    assert Plus(Padding(b.base + b.used, al), n) == Padding(b.base + b.used, al) + n;
  }

  lemma {:induction false} AllocatedInNew(a: Arena, q: Request)
    requires var n, al := Bytes(q.bytes), Alignment(q.align); Sane(a, q) && !FitsLast(a, n, al) && Padding(q.place, al) < al
    ensures var n, al := Bytes(q.bytes), Alignment(q.align);
            Allocate(a, q.bytes, q.align, q.place).0.blocks == a.blocks + [Block(q.place, Want(a.blockSize, n + al), Padding(q.place, al) + n)]
            && Allocate(a, q.bytes, q.align, q.place).1 == Aligned(q.place, al)
  {
    hide Alignment, And, Bytes, Aligned, Padding, PowerOfTwo, FitsLast;
  }

  // ── When a block is opened ─────────────────────────────

  /** The region would lie aligned in what is left of the block. */
  predicate HasRoom(b: Block, start: nat, n: nat, al: nat)
    requires al > 0
  {
    IsMultiple(start, al) && b.base + b.used <= start && start + n <= b.base + b.size
  }

  /** There is an aligned place for the region in what is left of the last block. */
  ghost predicate RoomLeft(blocks: seq<Block>, n: nat, al: nat)
    requires al > 0
  {
    blocks != [] && var b := blocks[|blocks| - 1]; exists start: nat :: HasRoom(b, start, n, al)
  }

  lemma {:induction false} MultiplesApart(x: nat, y: nat, d: nat)
    requires d > 0 && IsMultiple(x, d) && IsMultiple(y, d) && x < y + d
    ensures x <= y
  {
    var i, j := x / d, y / d;
    assert x == i * d && y == j * d;
    assert x - y == (i - j) * d;
    Multiple(i - j, d);
  }

  lemma {:induction false} RoomIff(b: Block, n: nat, al: Word64)
    requires al > 0 && PowerOfTwo(al) && b.used <= b.size && b.base + b.size + al < TWO64
    ensures (exists start: nat :: HasRoom(b, start, n, al)) <==> Aligned(b.base + b.used, al) + n <= b.base + b.size
  {
    hide Aligned, PowerOfTwo, IsMultiple;
    AlignedRoundsUp(b.base + b.used, al);
    var first := Aligned(b.base + b.used, al);
    if first + n <= b.base + b.size { assert HasRoom(b, first, n, al); }
    if start: nat :| HasRoom(b, start, n, al) { MultiplesApart(first, start, al); }
  }

  lemma {:induction false} FitsLastIs(a: Arena, n: Word64, al: Word64)
    requires al > 0 && PowerOfTwo(al) && n + al < TWO64 && a.blocks != []
    requires var b := a.blocks[|a.blocks| - 1]; b.used <= b.size && b.base + b.size + al < TWO64
    ensures var b := a.blocks[|a.blocks| - 1]; FitsLast(a, n, al) <==> Aligned(b.base + b.used, al) + n <= b.base + b.size
  {
    var b := a.blocks[|a.blocks| - 1];
    var start := b.base + b.used;
    AlignedRoundsUp(start, al);
    PlusIs(b.base, b.used);
    PlusIs(Padding(start, al), n);
    FreeIs(b);
    hide Aligned, PowerOfTwo, IsMultiple, Padding, Plus;
    assert FitsLast(a, n, al) <==> Padding(start, al) + n <= b.size - b.used;
  }

  lemma {:induction false} PlusIs(x: Word64, y: Word64)
    requires x + y < TWO64
    ensures Plus(x, y) == x + y
  {
  }

  lemma {:induction false} FreeIs(b: Block)
    requires b.used <= b.size
    ensures (b.size - b.used) % TWO64 == b.size - b.used
  {
  }

  lemma {:induction false} FitsLastIff(a: Arena, q: Request)
    requires Sane(a, q) && BlocksFit(a.blocks)
    ensures FitsLast(a, Bytes(q.bytes), Alignment(q.align)) <==> RoomLeft(a.blocks, Bytes(q.bytes), Alignment(q.align))
  {
    var n, al := Bytes(q.bytes), Alignment(q.align);
    if a.blocks != [] {
      var b := a.blocks[|a.blocks| - 1];
      assert b.used <= b.size && b.base + b.size + al < TWO64;
      AlignmentIsPower(q.align);
      hide Alignment, Bytes, Aligned, PowerOfTwo, HasRoom, FitsLast;
      RoomIff(b, n, al);
      FitsLastIs(a, n, al);
    }
  }

  lemma {:induction false} AllocatedSizes(a: Arena, q: Request)
    requires Sane(a, q)
    ensures var b := Allocate(a, q.bytes, q.align, q.place).0; var n, al := Bytes(q.bytes), Alignment(q.align);
            if FitsLast(a, n, al) then |b.blocks| == |a.blocks| && b.blockSize == a.blockSize
            else
              && |b.blocks| == |a.blocks| + 1 && b.blocks[..|a.blocks|] == a.blocks
              && b.blocks[|a.blocks|].base == q.place && b.blocks[|a.blocks|].size == Want(a.blockSize, n + al)
              && b.blockSize == Grown(a.blockSize, Want(a.blockSize, n + al))
  {
    hide Alignment, Bytes, Aligned, Padding, Want, Grown;
  }

  /**
   A block is opened exactly when no aligned place for the request is left in the last one. It is as large as the
   usual size and as the request needs, and the usual size doubles, below 16 MiB, when it was enough.
   */
  lemma {:induction false} BlockOpenedIff(a: Arena, q: Request)
    requires Sane(a, q) && BlocksFit(a.blocks)
    ensures var b := Allocate(a, q.bytes, q.align, q.place).0; var n, al := Bytes(q.bytes), Alignment(q.align);
            if RoomLeft(a.blocks, n, al) then |b.blocks| == |a.blocks| && b.blockSize == a.blockSize
            else
              && |b.blocks| == |a.blocks| + 1 && b.blocks[..|a.blocks|] == a.blocks
              && var size := b.blocks[|a.blocks|].size;
                 && b.blocks[|a.blocks|].base == q.place
                 && size >= a.blockSize && size >= n + al && (size == a.blockSize || size == n + al)
                 && b.blockSize == if size == a.blockSize && a.blockSize < 16 * 1024 * 1024 then 2 * a.blockSize else a.blockSize
  {
    FitsLastIff(a, q);
    AllocatedSizes(a, q);
    hide Alignment, Bytes, FitsLast, RoomLeft, Allocate, Sane, BlocksFit;
  }

  /** A region apart from what was used so far joins the others. */
  lemma {:induction false} RegionAdded(blocks: seq<Block>, now: seq<Block>, regions: seq<Region>, r: Region)
    requires RegionsInside(blocks, regions) && RegionsApart(regions) && |blocks| <= |now| && HasHome(r, now)
    requires forall i :: 0 <= i < |blocks| ==>
      blocks[i].base == now[i].base && blocks[i].used <= now[i].used && Apart(blocks[i].base, blocks[i].used, r.start, r.size)
    ensures RegionsInside(now, regions + [r]) && RegionsApart(regions + [r])
  {
    forall k | 0 <= k < |regions| ensures HasHome(regions[k], now) && Apart(regions[k].start, regions[k].size, r.start, r.size) {
      assert HasHome(regions[k], blocks);
      var i :| 0 <= i < |blocks| && Inside(regions[k], blocks[i]);
      assert Inside(regions[k], now[i]);
    }
    hide HasHome, Apart;
  }

  /** Room taken at the end of the last block. */
  lemma {:induction false} Extended(a: Arena, regions: seq<Region>, address: Word64, n: Word64, grow: nat)
    requires Sound(a.blocks, regions) && a.blocks != []
    requires var b := a.blocks[|a.blocks| - 1];
             b.used + grow <= b.size && b.base + b.used <= address && address + n == b.base + b.used + grow
    ensures var last := |a.blocks| - 1; var b := a.blocks[last];
            Sound(a.blocks[last := b.(used := b.used + grow)], regions + [Region(address, n)])
  {
    var last := |a.blocks| - 1;
    var b := a.blocks[last];
    var r, now := Region(address, n), a.blocks[last := b.(used := b.used + grow)];
    assert Inside(r, now[last]);
    forall i | 0 <= i < last ensures Apart(a.blocks[i].base, a.blocks[i].used, address, n) {
      assert Apart(a.blocks[i].base, a.blocks[i].size, b.base, b.size);
    }
    hide RegionsInside, RegionsApart;
    RegionAdded(a.blocks, now, regions, r);
  }

  /** A fresh block with the region in it. */
  lemma {:induction false} Appended(a: Arena, regions: seq<Region>, b: Block, address: Word64, n: Word64)
    requires Sound(a.blocks, regions) && b.used <= b.size && b.base + b.size < TWO64
    requires b.base <= address && address + n == b.base + b.used
    requires forall i :: 0 <= i < |a.blocks| ==> Apart(a.blocks[i].base, a.blocks[i].size, b.base, b.size)
    ensures Sound(a.blocks + [b], regions + [Region(address, n)])
  {
    var r, now := Region(address, n), a.blocks + [b];
    assert Inside(r, now[|a.blocks|]);
    hide RegionsInside, RegionsApart;
    RegionAdded(a.blocks, now, regions, r);
  }

  function Run(a: Arena, qs: seq<Request>): (Arena, seq<Region>) {
    if qs == [] then (a, [])
    else
      var q := qs[|qs| - 1];
      var (before, regions) := Run(a, qs[..|qs| - 1]);
      var (now, address) := Allocate(before, q.bytes, q.align, q.place);
      (now, regions + [Region(address, Bytes(q.bytes))])
  }

  function TotalSize(regions: seq<Region>): nat {
    if regions == [] then 0 else TotalSize(regions[..|regions| - 1]) + regions[|regions| - 1].size
  }

  /** The region has the size and the alignment asked for. */
  predicate Serves(r: Region, q: Request) {
    r.size == Bytes(q.bytes) && IsMultiple(r.start, Alignment(q.align))
  }

  /** Every request of the run is sane when it is made. */
  ghost predicate AllSane(a: Arena, qs: seq<Request>) {
    forall k :: 0 <= k < |qs| ==> Sane(Run(a, qs[..k]).0, qs[k])
  }

  /** What the arena owes its callers after these requests. */
  predicate Served(a: Arena, regions: seq<Region>, qs: seq<Request>) {
    && Sound(a.blocks, regions)
    && |regions| == |qs| && (forall k :: 0 <= k < |qs| ==> Serves(regions[k], qs[k]))
    && a.totalAllocated == TotalSize(regions)
  }

  /**
   Between two resets, every sane run hands out regions that are pairwise disjoint, each inside one block and
   aligned as asked, and totalAllocated is the sum of their sizes.
   */
  lemma {:induction false} RunSound(blockSize: Word64, qs: seq<Request>)
    requires AllSane(Arena([], blockSize, 0), qs)
    ensures var (a, regions) := Run(Arena([], blockSize, 0), qs); Served(a, regions, qs)
  {
    var empty := Arena([], blockSize, 0);
    hide Sane, Served, Allocate, AllSane;
    if qs == [] {
      NothingServed(empty);
    } else {
      var n := |qs| - 1;
      PrefixSane(empty, qs);
      RunSound(blockSize, qs[..n]);
      ServedNext(Run(empty, qs[..n]).0, Run(empty, qs[..n]).1, qs[..n], qs[n]);
      assert qs == qs[..n] + [qs[n]];
    }
  }

  lemma {:induction false} ServedNext(a: Arena, regions: seq<Region>, qs: seq<Request>, q: Request)
    requires Served(a, regions, qs) && Sane(a, q)
    ensures var (a', address) := Allocate(a, q.bytes, q.align, q.place); Served(a', regions + [Region(address, Bytes(q.bytes))], qs + [q])
  {
    var (a', address) := Allocate(a, q.bytes, q.align, q.place);
    var r := Region(address, Bytes(q.bytes));
    hide Sane, Sound, Bytes, Allocate, Alignment, IsMultiple, TotalSize;
    AllocateSound(a, regions, q);
    Counted(a, q);
    TotalStep(regions, r);
    SoundTotal(a'.blocks, regions + [r]);
    OneMoreServed(regions, qs, r, q);
  }

  lemma {:induction false} OneMoreServed(regions: seq<Region>, qs: seq<Request>, r: Region, q: Request)
    requires |regions| == |qs| && (forall k :: 0 <= k < |qs| ==> Serves(regions[k], qs[k])) && Serves(r, q)
    ensures forall k :: 0 <= k < |qs + [q]| ==> Serves((regions + [r])[k], (qs + [q])[k])
  {
    hide Serves;
  }

  lemma {:induction false} PrefixSane(a: Arena, qs: seq<Request>)
    requires AllSane(a, qs) && qs != []
    ensures var n := |qs| - 1; AllSane(a, qs[..n]) && Sane(Run(a, qs[..n]).0, qs[n])
  {
    var n := |qs| - 1;
    hide Sane, Run;
    assert forall k :: 0 <= k < n ==> qs[..n][..k] == qs[..k];
  }

  lemma {:induction false} NothingServed(a: Arena)
    requires a.blocks == [] && a.totalAllocated == 0
    ensures Served(a, [], [])
  {
  }

  lemma {:induction false} Counted(a: Arena, q: Request)
    ensures Allocate(a, q.bytes, q.align, q.place).0.totalAllocated == (a.totalAllocated + Bytes(q.bytes)) % TWO64
  {
    hide FitsLast, Alignment, Aligned, Padding;
  }

  lemma {:induction false} TotalStep(regions: seq<Region>, r: Region)
    ensures TotalSize(regions + [r]) == TotalSize(regions) + r.size
  {
    assert (regions + [r])[..|regions|] == regions;
  }

  // ── Disjoint regions cannot exceed the address space ───

  function Cells(start: int, size: nat): (r: set<int>)
    ensures forall x :: x in r <==> start <= x < start + size
    ensures |r| == size
  {
    if size == 0 then {} else Cells(start, size - 1) + {start + size - 1}
  }

  lemma {:induction false} SubsetCount(a: set<int>, b: set<int>)
    requires a <= b
    ensures |a| <= |b|
  {
    assert b == a + (b - a);
  }

  function Covered(regions: seq<Region>): set<int> {
    if regions == [] then {}
    else Covered(regions[..|regions| - 1]) + Cells(regions[|regions| - 1].start, regions[|regions| - 1].size)
  }

  predicate Holds(r: Region, x: int) {
    r.start <= x < r.start + r.size
  }

  predicate SomeHolds(regions: seq<Region>, x: int) {
    exists k :: 0 <= k < |regions| && Holds(regions[k], x)
  }

  lemma {:induction false} SomeHoldsNext(regions: seq<Region>, x: int)
    requires regions != []
    ensures SomeHolds(regions, x) <==> SomeHolds(regions[..|regions| - 1], x) || Holds(regions[|regions| - 1], x)
  {
    hide Holds;
    assert forall k :: 0 <= k < |regions| - 1 ==> regions[..|regions| - 1][k] == regions[k];
  }

  lemma {:induction false} CoveredBy(regions: seq<Region>, x: int)
    ensures x in Covered(regions) <==> SomeHolds(regions, x)
  {
    hide SomeHolds, Cells;
    if regions == [] {
      assert !SomeHolds([], x) by { NoneHolds(x); }
    } else {
      CoveredBy(regions[..|regions| - 1], x);
      SomeHoldsNext(regions, x);
    }
  }

  lemma {:induction false} NoneHolds(x: int)
    ensures !SomeHolds([], x)
  {
  }

  lemma {:induction false} CoveredCount(regions: seq<Region>)
    requires RegionsApart(regions)
    ensures |Covered(regions)| == TotalSize(regions)
  {
    if regions != [] {
      var n := |regions| - 1;
      var last := regions[n];
      assert RegionsApart(regions[..n]);
      CoveredCount(regions[..n]);
      forall x | x in Covered(regions[..n]) ensures x !in Cells(last.start, last.size) {
        CoveredBy(regions[..n], x);
        var k :| 0 <= k < n && Holds(regions[..n][k], x);
        assert Apart(regions[k].start, regions[k].size, last.start, last.size);
      }
      assert Covered(regions[..n]) !! Cells(last.start, last.size);
    }
  }

  /** The regions of a sound arena together hold less than 2^64 bytes, so their sum does not wrap. */
  lemma {:induction false} SoundTotal(blocks: seq<Block>, regions: seq<Region>)
    requires Sound(blocks, regions)
    ensures TotalSize(regions) < TWO64
  {
    CoveredCount(regions);
    forall x | x in Covered(regions) ensures x in Cells(0, TWO64 - 1) {
      CoveredBy(regions, x);
      var k :| 0 <= k < |regions| && Holds(regions[k], x);
      assert HasHome(regions[k], blocks);
    }
    hide Covered, TotalSize, RegionsApart;
    SubsetCount(Covered(regions), Cells(0, TWO64 - 1));
  }
}
