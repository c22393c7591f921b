/**
 The fingerprint of a configuration schema (src/feature/config.cpp): the bytes that are hashed, and the
 FNV-1a hash itself.
 */
module Fingerprints {
  import opened Wrappers
  import opened FeatureModel
  import opened TagAllocation
  import opened Config
  import opened Arithmetic

  type Byte = b: int | 0 <= b < 256

  const FNV_OFFSET: int := 0xcbf29ce484222325
  const FNV_PRIME: int := 0x100000001b3

  // ── The hash ───────────────────────────────────────────

  /** Exclusive-or of the low n bits. */
  function Xor(x: nat, y: nat, n: nat): (r: nat)
    ensures r < Pow2(n)
  {
    if n == 0 then 0 else 2 * Xor(x / 2, y / 2, n - 1) + if x % 2 == y % 2 then 0 else 1
  }

  function XorByte(x: Byte, y: Byte): Byte {
    assert Pow2(4) == 16 && Pow2(8) == 256;
    Xor(x, y, 8)
  }

  /** One byte folded into the hash: exclusive-or into the low byte, then multiply modulo 2^64. */
  function FnvStep(h: Word64, b: Byte): Word64 {
    (Xored(h, b) * FNV_PRIME) % TWO64
  }

  function Xored(h: Word64, b: Byte): Word64 {
    WithLowByte(h, XorByte(h % 256, b))
  }

  function WithLowByte(h: Word64, low: Byte): (r: Word64)
    ensures r % 256 == low && r - low == h - h % 256
  {
    assert h == h / 256 * 256 + h % 256;
    h / 256 * 256 + low
  }

  function Fold(h: Word64, bytes: seq<Byte>): Word64 {
    if bytes == [] then h else FnvStep(Fold(h, bytes[..|bytes| - 1]), bytes[|bytes| - 1])
  }

  lemma {:induction false} XorUndone(x: nat, y: nat, n: nat)
    requires x < Pow2(n) && y < Pow2(n)
    ensures Xor(Xor(x, y, n), y, n) == x && Xor(Xor(x, y, n), x, n) == y
  {
    if n > 0 {
      XorUndone(x / 2, y / 2, n - 1);
      var z := Xor(x, y, n);
      assert z / 2 == Xor(x / 2, y / 2, n - 1) && z % 2 == if x % 2 == y % 2 then 0 else 1;
    }
  }

  lemma {:induction false} XorByteUndone(x: Byte, y: Byte)
    ensures XorByte(XorByte(x, y), y) == x && XorByte(XorByte(x, y), x) == y
  {
    assert Pow2(4) == 16 && Pow2(8) == 256;
    XorUndone(x, y, 8);
  }

  lemma {:induction false} PrimeInvertible(x: Word64)
    ensures ((x * FNV_PRIME) % TWO64 * 0xce965057aff6957b) % TWO64 == x
  {
    var q := (x * FNV_PRIME) / TWO64;
    assert x * FNV_PRIME == q * TWO64 + (x * FNV_PRIME) % TWO64;
    assert FNV_PRIME * 0xce965057aff6957b == 1 + TWO64 * ((FNV_PRIME * 0xce965057aff6957b - 1) / TWO64);
    var k := (FNV_PRIME * 0xce965057aff6957b - 1) / TWO64;
    assert (x * FNV_PRIME) % TWO64 * 0xce965057aff6957b == x + TWO64 * (x * k - q * 0xce965057aff6957b);
    Reduced(x, x * k - q * 0xce965057aff6957b);
  }

  lemma {:induction false} Reduced(x: Word64, m: int)
    ensures (x + TWO64 * m) % TWO64 == x
  {
  }

  /** For a fixed byte the step is injective in the hash, and for a fixed hash in the byte. */
  lemma {:induction false} StepInjective(h: Word64, b: Byte, g: Word64, c: Byte)
    requires FnvStep(h, b) == FnvStep(g, c)
    ensures b == c ==> h == g
    ensures h == g ==> b == c
  {
    PrimeInvertible(Xored(h, b));
    PrimeInvertible(Xored(g, c));
    assert Xored(h, b) == Xored(g, c) by { hide Xored; }
    XorByteUndone(h % 256, b);
    XorByteUndone(g % 256, c);
    hide XorByte, FnvStep, WithLowByte;
  }

  lemma {:induction false} FoldInjective(h: Word64, g: Word64, bytes: seq<Byte>)
    requires Fold(h, bytes) == Fold(g, bytes)
    ensures h == g
  {
    hide FnvStep;
    if bytes != [] {
      var n := |bytes| - 1;
      StepInjective(Fold(h, bytes[..n]), bytes[n], Fold(g, bytes[..n]), bytes[n]);
      FoldInjective(h, g, bytes[..n]);
    }
  }

  lemma {:induction false} FoldConcat(h: Word64, a: seq<Byte>, b: seq<Byte>)
    ensures Fold(h, a + b) == Fold(Fold(h, a), b)
  {
    hide FnvStep;
    if b == [] {
      assert a + b == a;
    } else {
      assert (a + b)[..|a + b| - 1] == a + b[..|b| - 1];
      FoldConcat(h, a, b[..|b| - 1]);
    }
  }

  /** Streams of equal length that differ in exactly one byte never have the same hash. */
  lemma {:induction false} OneByteDiffers(h: Word64, s: seq<Byte>, t: seq<Byte>, i: nat)
    requires i < |s| == |t| && s[i] != t[i] && s[..i] == t[..i] && s[i + 1..] == t[i + 1..]
    ensures Fold(h, s) != Fold(h, t)
  {
    assert s == s[..i] + [s[i]] + s[i + 1..] && t == s[..i] + [t[i]] + s[i + 1..];
    FoldAround(h, s[..i], s[i], s[i + 1..]);
    FoldAround(h, s[..i], t[i], s[i + 1..]);
    hide FnvStep, Fold;
    var g := Fold(h, s[..i]);
    if Fold(h, s) == Fold(h, t) {
      FoldInjective(FnvStep(g, s[i]), FnvStep(g, t[i]), s[i + 1..]);
      StepInjective(g, s[i], g, t[i]);
    }
  }

  lemma {:induction false} FoldAround(h: Word64, pre: seq<Byte>, b: Byte, post: seq<Byte>)
    ensures Fold(h, pre + [b] + post) == Fold(FnvStep(Fold(h, pre), b), post)
  {
    FoldConcat(h, pre + [b], post);
    hide FnvStep;
    assert (pre + [b])[..|pre|] == pre;
  }

  // ── The bytes ──────────────────────────────────────────

  function LittleEndian(v: nat, n: nat): (r: seq<Byte>)
    ensures |r| == n
  {
    if n == 0 then [] else [v % 256] + LittleEndian(v / 256, n - 1)
  }

  function U64(v: Word64): (r: seq<Byte>)
    ensures |r| == 8
  {
    LittleEndian(v, 8)
  }

  function Count(n: nat): Word64 {
    n % TWO64
  }

  function Chars(s: string): (r: seq<Byte>)
    ensures |r| == |s|
  {
    seq(|s|, i requires 0 <= i < |s| => s[i] as int % 256)
  }

  function Text(s: string): seq<Byte> {
    U64(Count(|s|)) + Chars(s)
  }

  // ── Doubles and their bits ─────────────────────────────

  function TwoTo(n: nat): (r: real)
    ensures r > 0.0
  {
    if n == 0 then 1.0 else 2.0 * TwoTo(n - 1)
  }

  const EXPONENTS: int := 2048
  const FRACTIONS: int := 0x10_0000_0000_0000

  /** m * 2^(e - 1075) */
  function Scaled(m: nat, e: nat): real {
    if e >= 1075 then m as real * TwoTo(e - 1075) else m as real / TwoTo(1075 - e)
  }

  /** The number a 64-bit word stands for in the binary64 format of IEEE 754, section 3.4; its zeros and its NaNs are one value each. */
  function Decode(w: Word64): Double {
    var negative := w / FRACTIONS / EXPONENTS == 1;
    var e := w / FRACTIONS % EXPONENTS;
    var f := w % FRACTIONS;
    if e == EXPONENTS - 1 then
      if f != 0 then NaN else if negative then NegInf else PosInf
    else
      var magnitude := if e == 0 then Scaled(f, 1) else Scaled(FRACTIONS + f, e);
      Finite(if negative then -magnitude else magnitude)
  }

  /** The values a C++ double can have. */
  ghost predicate IsDouble(d: Double) {
    exists w: Word64 :: Decode(w) == d
  }

  /** The 64 bits memcpy finds in a double. */
  type Bits = Double -> Word64

  ghost predicate Faithful(bits: Bits) {
    forall d :: IsDouble(d) ==> Decode(bits(d)) == d
  }

  /** There is such a choice of bits, so what assumes one is about something. */
  lemma {:induction false} FaithfulExists()
    ensures exists bits: Bits :: Faithful(bits)
  {
    hide Decode;
    var bits: Bits := d => if IsDouble(d) then var w: Word64 :| Decode(w) == d; w else 0;
    assert Faithful(bits);
  }

  function Word(negative: bool, e: nat, f: nat): Word64
    requires e < EXPONENTS && f < FRACTIONS
  {
    ((if negative then EXPONENTS else 0) + e) * FRACTIONS + f
  }

  lemma {:induction false} WordParts(negative: bool, e: nat, f: nat)
    requires e < EXPONENTS && f < FRACTIONS
    ensures var w := Word(negative, e, f);
            w / FRACTIONS / EXPONENTS == (if negative then 1 else 0) && w / FRACTIONS % EXPONENTS == e && w % FRACTIONS == f
  {
    Quotient(Word(negative, e, f), FRACTIONS, (if negative then EXPONENTS else 0) + e, f);
  }

  lemma {:induction false} PowersMultiply(a: nat, b: nat)
    ensures Pow2(a) * Pow2(b) == Pow2(a + b)
  {
    if a > 0 {
      PowersMultiply(a - 1, b);
      DoubledFirst(Pow2(a - 1), Pow2(b));
    }
  }

  lemma {:induction false} DoubledFirst(x: nat, y: nat)
    ensures (2 * x) * y == 2 * (x * y)
  {
  }

  lemma {:induction false} TwoToIsPow2(n: nat)
    ensures TwoTo(n) == Pow2(n) as real
  {
    if n > 0 { TwoToIsPow2(n - 1); }
  }

  lemma {:induction false} FractionBits()
    ensures Pow2(52) == FRACTIONS
  {
    assert Pow2(8) == 256;
    assert Pow2(16) == 0x1_0000;
    assert Pow2(24) == 0x100_0000;
    assert Pow2(32) == 0x1_0000_0000;
    assert Pow2(40) == 0x100_0000_0000;
    assert Pow2(48) == 0x1_0000_0000_0000;
  }

  lemma {:induction false} DecodeNormal(negative: bool, e: nat, f: nat)
    requires 0 < e < EXPONENTS - 1 && f < FRACTIONS
    ensures Decode(Word(negative, e, f)) == Finite(if negative then -Scaled(FRACTIONS + f, e) else Scaled(FRACTIONS + f, e))
  {
    WordParts(negative, e, f);
    hide Word, Scaled;
  }

  lemma {:induction false} MantissaFits(n: nat, e: nat)
    requires e <= 52 && Pow2(e) <= n < 2 * Pow2(e)
    ensures FRACTIONS <= n * Pow2(52 - e) < 2 * FRACTIONS
  {
    var p := Pow2(52 - e);
    PowersMultiply(e, 52 - e);
    FractionBits();
    AtLeastTimes(Pow2(e), n, p);
    AtLeastTimes(n + 1, 2 * Pow2(e), p);
    Twice(n, Pow2(e), p);
  }

  lemma {:induction false} Twice(n: nat, q: nat, p: nat)
    ensures (n + 1) * p == n * p + p && 2 * q * p == 2 * (q * p)
  {
  }

  lemma {:induction false} ScaledWhole(n: nat, e: nat)
    requires e <= 52
    ensures Scaled(n * Pow2(52 - e), 1023 + e) == n as real
  {
    TwoToIsPow2(52 - e);
    Undone(n, Pow2(52 - e));
    hide Pow2, TwoTo;
  }

  /** Every whole number below 2^53, with either sign, is a double. */
  lemma {:induction false} WholeNumbersAreDoubles(n: nat, e: nat)
    requires n == 0 || (e <= 52 && Pow2(e) <= n < 2 * Pow2(e))
    ensures IsDouble(Finite(n as real)) && IsDouble(Finite(-(n as real)))
  {
    if n == 0 {
      assert Decode(0) == Finite(0.0);
    } else {
      hide Pow2, Word, Scaled, Decode;
      MantissaFits(n, e);
      var f := n * Pow2(52 - e) - FRACTIONS;
      ScaledWhole(n, e);
      DecodeNormal(false, 1023 + e, f);
      DecodeNormal(true, 1023 + e, f);
    }
  }

  lemma {:induction false} AtLeastTimes(a: nat, b: nat, p: nat)
    requires a <= b && p > 0
    ensures a * p <= b * p
  {
    assert b * p == a * p + (b - a) * p;
  }

  lemma {:induction false} Undone(n: nat, p: nat)
    requires p > 0
    ensures (n * p) as real / (p as real) == n as real
  {
    assert (n * p) as real == n as real * p as real;
  }

  lemma {:induction false} BitsTellDoubles(bits: Bits, x: Double, y: Double)
    requires Faithful(bits) && IsDouble(x) && IsDouble(y) && bits(x) == bits(y)
    ensures x == y
  {
    hide Decode, IsDouble;
    assert Decode(bits(x)) == x && Decode(bits(y)) == y;
  }

  function Optional(bits: Bits, o: Option<Double>): seq<Byte> {
    if o.Some? then U64(1) + U64(bits(o.value)) else U64(0)
  }

  function Coordinates(bits: Bits, t: Triple): (r: seq<Byte>)
    ensures |r| == 24
  {
    U64(bits(t.x)) + U64(bits(t.y)) + U64(bits(t.z))
  }

  function Reference(r: ElementRef): seq<Byte> {
    Text(r.featureId) + Text(r.elementName) + Text(r.elementType)
  }

  function References(rs: seq<ElementRef>): seq<Byte> {
    if rs == [] then [] else Reference(rs[0]) + References(rs[1..])
  }

  function Payload(bits: Bits, v: ParamValue): seq<Byte> {
    match v
    case DoubleV(d) => U64(bits(d))
    case IntV(i) => U64(i % TWO64)
    case BoolV(b) => U64(if b then 1 else 0)
    case StringV(s) => Text(s)
    case VecV(t) => Coordinates(bits, t)
    case PntV(t) => Coordinates(bits, t)
    case DirV(t) => Coordinates(bits, t)
    case Ax1V(loc, axis) => Coordinates(bits, loc) + Coordinates(bits, axis)
    case Ax2V(loc, axis, xdir) => Coordinates(bits, loc) + Coordinates(bits, axis) + Coordinates(bits, xdir)
    case PlnV(loc, axis, _) => Coordinates(bits, loc) + Coordinates(bits, axis)
    case ElemRefV(r) => Reference(r)
    case ElemRefListV(rs) => U64(Count(|rs|)) + References(rs)
    case ConfigRefV(n) => Text(n)
  }

  /** The position of an alternative in the variant, which is also the number of its declared type. */
  function Index(k: ParamType): (r: Word64)
    ensures r < 13
  {
    match k
    case TDouble => 0 case TInt => 1 case TBool => 2 case TString => 3 case TVec => 4 case TPnt => 5 case TDir => 6
    case TAx1 => 7 case TAx2 => 8 case TPln => 9 case TElemRef => 10 case TElemRefList => 11 case TConfigRef => 12
  }

  function Value(bits: Bits, v: ParamValue): seq<Byte> {
    U64(Index(TypeOf(v))) + Payload(bits, v)
  }

  function Input(bits: Bits, s: InputSpec): seq<Byte> {
    Text(s.name) + U64(Index(s.kind)) + Optional(bits, s.min) + Optional(bits, s.max) + Value(bits, s.default)
  }

  function Inputs(bits: Bits, specs: seq<InputSpec>): seq<Byte> {
    if specs == [] then [] else Input(bits, specs[0]) + Inputs(bits, specs[1..])
  }

  /** Everything hashed for a schema: a format number, the number of inputs, and the inputs. */
  function Stream(bits: Bits, specs: seq<InputSpec>): seq<Byte> {
    U64(1) + U64(Count(|specs|)) + Inputs(bits, specs)
  }

  // ── What the source's types can hold ───────────────────

  /** A std::string: bytes, and no more of them than memory. */
  predicate IsText(s: string) {
    |s| < TWO64 && forall i :: 0 <= i < |s| ==> s[i] as int < 256
  }

  predicate IsReference(r: ElementRef) {
    IsText(r.featureId) && IsText(r.elementName) && IsText(r.elementType)
  }

  ghost predicate IsTriple(t: Triple) {
    IsDouble(t.x) && IsDouble(t.y) && IsDouble(t.z)
  }

  ghost predicate IsValue(v: ParamValue) {
    match v
    case DoubleV(d) => IsDouble(d)
    case VecV(t) => IsTriple(t)
    case PntV(t) => IsTriple(t)
    case DirV(t) => IsTriple(t)
    case Ax1V(loc, axis) => IsTriple(loc) && IsTriple(axis)
    case Ax2V(loc, axis, xdir) => IsTriple(loc) && IsTriple(axis) && IsTriple(xdir)
    case PlnV(loc, axis, xdir) => IsTriple(loc) && IsTriple(axis) && IsTriple(xdir)
    case IntV(i) => -0x8000_0000 <= i < 0x8000_0000
    case StringV(s) => IsText(s)
    case ElemRefV(r) => IsReference(r)
    case ElemRefListV(rs) => |rs| < TWO64 && forall i :: 0 <= i < |rs| ==> IsReference(rs[i])
    case ConfigRefV(n) => IsText(n)
    case BoolV(_) => true
  }

  ghost predicate IsBound(o: Option<Double>) {
    o.Some? ==> IsDouble(o.value)
  }

  ghost predicate IsInput(s: InputSpec) {
    IsText(s.name) && IsBound(s.min) && IsBound(s.max) && IsValue(s.default)
  }

  function NoXDir(v: ParamValue): ParamValue {
    if v.PlnV? then v.(xdir := Triple(NaN, NaN, NaN)) else v
  }

  /** What the fingerprint looks at: not the description, and not the x-direction of a plane. */
  function Hashed(s: InputSpec): InputSpec {
    s.(description := "", default := NoXDir(s.default))
  }

  // ── Self-delimiting ────────────────────────────────────

  lemma {:induction false} LittleEndianInjective(v: nat, w: nat, n: nat)
    requires LittleEndian(v, n) == LittleEndian(w, n)
    ensures v % Pow256(n) == w % Pow256(n)
  {
    if n > 0 {
      assert LittleEndian(v, n)[0] == v % 256 && LittleEndian(w, n)[0] == w % 256;
      assert LittleEndian(v, n)[1..] == LittleEndian(v / 256, n - 1) && LittleEndian(w, n)[1..] == LittleEndian(w / 256, n - 1);
      LittleEndianInjective(v / 256, w / 256, n - 1);
      ModSplit(v, Pow256(n - 1));
      ModSplit(w, Pow256(n - 1));
    }
  }

  function Pow256(n: nat): (r: nat)
    ensures r > 0
  {
    if n == 0 then 1 else 256 * Pow256(n - 1)
  }

  lemma {:induction false} ModSplit(v: nat, p: nat)
    requires p > 0
    ensures v % (256 * p) == v / 256 % p * 256 + v % 256
  {
    var q, r := v / 256 / p, v / 256 % p;
    assert v / 256 == q * p + r && v == v / 256 * 256 + v % 256;
    assert v == q * (256 * p) + (r * 256 + v % 256);
    assert r * 256 + v % 256 < 256 * p;
    Quotient(v, 256 * p, q, r * 256 + v % 256);
  }

  lemma {:induction false} U64Injective(v: Word64, w: Word64)
    requires U64(v) == U64(w)
    ensures v == w
  {
    hide LittleEndian, Pow256;
    LittleEndianInjective(v, w, 8);
    EightBytes();
    assert v % TWO64 == v && w % TWO64 == w;
  }

  lemma {:induction false} EightBytes()
    ensures Pow256(8) == TWO64
  {
    assert Pow256(2) == 0x1_0000;
    assert Pow256(4) == 0x1_0000_0000;
    assert Pow256(6) == 0x1_0000_0000_0000;
  }

  /** A prefix of known length comes off a stream. */
  lemma {:induction false} Split(a: seq<Byte>, r: seq<Byte>, b: seq<Byte>, q: seq<Byte>)
    requires a + r == b + q && |a| == |b|
    ensures a == b && r == q
  {
    assert a == (a + r)[..|a|] && b == (b + q)[..|b|];
    assert r == (a + r)[|a|..] && q == (b + q)[|b|..];
  }

  lemma {:induction false} U64Off(v: Word64, r: seq<Byte>, w: Word64, q: seq<Byte>)
    requires U64(v) + r == U64(w) + q
    ensures v == w && r == q
  {
    Split(U64(v), r, U64(w), q);
    U64Injective(v, w);
  }

  lemma {:induction false} CharsInjective(s: string, t: string)
    requires IsText(s) && IsText(t) && Chars(s) == Chars(t)
    ensures s == t
  {
    forall i | 0 <= i < |s| ensures s[i] == t[i] {
      assert Chars(s)[i] == s[i] as int && Chars(t)[i] == t[i] as int;
    }
  }

  lemma {:induction false} TextOff(s: string, r: seq<Byte>, t: string, q: seq<Byte>)
    requires IsText(s) && IsText(t) && Text(s) + r == Text(t) + q
    ensures s == t && r == q
  {
    assert Count(|s|) == |s| && Count(|t|) == |t|;
    hide U64, Chars, Count, IsText;
    assert Text(s) + r == U64(Count(|s|)) + (Chars(s) + r) && Text(t) + q == U64(Count(|t|)) + (Chars(t) + q);
    U64Off(Count(|s|), Chars(s) + r, Count(|t|), Chars(t) + q);
    Split(Chars(s), r, Chars(t), q);
    CharsInjective(s, t);
  }

  lemma {:induction false} OptionalOff(bits: Bits, o: Option<Double>, r: seq<Byte>, p: Option<Double>, q: seq<Byte>)
    requires Faithful(bits) && IsBound(o) && IsBound(p) && Optional(bits, o) + r == Optional(bits, p) + q
    ensures o == p && r == q
  {
    hide U64, IsDouble, Faithful;
    var ro, rp := if o.Some? then U64(bits(o.value)) + r else r, if p.Some? then U64(bits(p.value)) + q else q;
    assert Optional(bits, o) + r == U64(if o.Some? then 1 else 0) + ro;
    assert Optional(bits, p) + q == U64(if p.Some? then 1 else 0) + rp;
    U64Off(if o.Some? then 1 else 0, ro, if p.Some? then 1 else 0, rp);
    if o.Some? {
      U64Off(bits(o.value), r, bits(p.value), q);
      BitsTellDoubles(bits, o.value, p.value);
    }
  }

  lemma {:induction false} CoordinatesOff(bits: Bits, t: Triple, r: seq<Byte>, u: Triple, q: seq<Byte>)
    requires Faithful(bits) && IsTriple(t) && IsTriple(u) && Coordinates(bits, t) + r == Coordinates(bits, u) + q
    ensures t == u && r == q
  {
    hide U64, IsDouble, Faithful;
    Split(Coordinates(bits, t), r, Coordinates(bits, u), q);
    U64Off(bits(t.x), U64(bits(t.y)) + U64(bits(t.z)), bits(u.x), U64(bits(u.y)) + U64(bits(u.z))) by {
      assert Coordinates(bits, t) == U64(bits(t.x)) + (U64(bits(t.y)) + U64(bits(t.z)));
      assert Coordinates(bits, u) == U64(bits(u.x)) + (U64(bits(u.y)) + U64(bits(u.z)));
    }
    U64Off(bits(t.y), U64(bits(t.z)), bits(u.y), U64(bits(u.z)));
    assert U64(bits(t.z)) + [] == U64(bits(t.z)) && U64(bits(u.z)) + [] == U64(bits(u.z));
    U64Off(bits(t.z), [], bits(u.z), []);
    BitsTellDoubles(bits, t.x, u.x);
    BitsTellDoubles(bits, t.y, u.y);
    BitsTellDoubles(bits, t.z, u.z);
  }

  lemma {:induction false} ReferenceOff(a: ElementRef, r: seq<Byte>, b: ElementRef, q: seq<Byte>)
    requires IsReference(a) && IsReference(b) && Reference(a) + r == Reference(b) + q
    ensures a == b && r == q
  {
    hide Text, IsText;
    assert Reference(a) + r == Text(a.featureId) + (Text(a.elementName) + (Text(a.elementType) + r));
    assert Reference(b) + q == Text(b.featureId) + (Text(b.elementName) + (Text(b.elementType) + q));
    TextOff(a.featureId, Text(a.elementName) + (Text(a.elementType) + r), b.featureId, Text(b.elementName) + (Text(b.elementType) + q));
    TextOff(a.elementName, Text(a.elementType) + r, b.elementName, Text(b.elementType) + q);
    TextOff(a.elementType, r, b.elementType, q);
  }

  lemma {:induction false} ReferencesOff(xs: seq<ElementRef>, r: seq<Byte>, ys: seq<ElementRef>, q: seq<Byte>)
    requires |xs| == |ys| && References(xs) + r == References(ys) + q
    requires forall i :: 0 <= i < |xs| ==> IsReference(xs[i]) && IsReference(ys[i])
    ensures xs == ys && r == q
  {
    hide Reference, IsReference;
    if xs == [] {
      assert [] + r == r && [] + q == q;
    } else {
      assert References(xs) + r == Reference(xs[0]) + (References(xs[1..]) + r);
      assert References(ys) + q == Reference(ys[0]) + (References(ys[1..]) + q);
      ReferenceOff(xs[0], References(xs[1..]) + r, ys[0], References(ys[1..]) + q);
      ReferencesOff(xs[1..], r, ys[1..], q);
      assert xs == [xs[0]] + xs[1..] && ys == [ys[0]] + ys[1..];
    }
  }

  lemma {:induction false} NumberOff(bits: Bits, v: ParamValue, r: seq<Byte>, w: ParamValue, q: seq<Byte>)
    requires Faithful(bits) && IsValue(v) && IsValue(w) && TypeOf(v) == TypeOf(w) && Payload(bits, v) + r == Payload(bits, w) + q
    requires v.DoubleV? || v.IntV? || v.BoolV?
    ensures v == w && r == q
  {
    hide U64, IsDouble, Faithful;
    match v
    case DoubleV(d) => U64Off(bits(d), r, bits(w.d), q); BitsTellDoubles(bits, d, w.d);
    case IntV(i) => U64Off(i % TWO64, r, w.i % TWO64, q);
    case BoolV(b) => U64Off(if b then 1 else 0, r, if w.b then 1 else 0, q);
  }

  lemma {:induction false} GeometryOff(bits: Bits, v: ParamValue, r: seq<Byte>, w: ParamValue, q: seq<Byte>)
    requires Faithful(bits) && IsValue(v) && IsValue(w) && TypeOf(v) == TypeOf(w) && Payload(bits, v) + r == Payload(bits, w) + q
    requires v.VecV? || v.PntV? || v.DirV? || v.Ax1V? || v.Ax2V? || v.PlnV?
    ensures NoXDir(v) == NoXDir(w) && r == q
  {
    hide Coordinates, IsTriple, Faithful, IsText, IsReference;
    match v
    case VecV(t) => CoordinatesOff(bits, t, r, w.vec, q);
    case PntV(t) => CoordinatesOff(bits, t, r, w.pnt, q);
    case DirV(t) => CoordinatesOff(bits, t, r, w.dir, q);
    case Ax1V(loc, axis) => PairOff(bits, loc, axis, r, w.loc, w.axis, q);
    case PlnV(loc, axis, _) => PairOff(bits, loc, axis, r, w.loc, w.axis, q);
    case Ax2V(loc, axis, xdir) =>
      assert Payload(bits, v) + r == Coordinates(bits, loc) + Coordinates(bits, axis) + (Coordinates(bits, xdir) + r);
      assert Payload(bits, w) + q == Coordinates(bits, w.loc) + Coordinates(bits, w.axis) + (Coordinates(bits, w.xdir) + q);
      PairOff(bits, loc, axis, Coordinates(bits, xdir) + r, w.loc, w.axis, Coordinates(bits, w.xdir) + q);
      CoordinatesOff(bits, xdir, r, w.xdir, q);
  }

  lemma {:induction false} PairOff(bits: Bits, a: Triple, b: Triple, r: seq<Byte>, c: Triple, d: Triple, q: seq<Byte>)
    requires Faithful(bits) && IsTriple(a) && IsTriple(b) && IsTriple(c) && IsTriple(d)
    requires Coordinates(bits, a) + Coordinates(bits, b) + r == Coordinates(bits, c) + Coordinates(bits, d) + q
    ensures a == c && b == d && r == q
  {
    hide Coordinates, IsTriple, Faithful;
    assert Coordinates(bits, a) + Coordinates(bits, b) + r == Coordinates(bits, a) + (Coordinates(bits, b) + r);
    assert Coordinates(bits, c) + Coordinates(bits, d) + q == Coordinates(bits, c) + (Coordinates(bits, d) + q);
    CoordinatesOff(bits, a, Coordinates(bits, b) + r, c, Coordinates(bits, d) + q);
    CoordinatesOff(bits, b, r, d, q);
  }

  lemma {:induction false} NamesOff(bits: Bits, v: ParamValue, r: seq<Byte>, w: ParamValue, q: seq<Byte>)
    requires IsValue(v) && IsValue(w) && TypeOf(v) == TypeOf(w) && Payload(bits, v) + r == Payload(bits, w) + q
    requires v.StringV? || v.ElemRefV? || v.ElemRefListV? || v.ConfigRefV?
    ensures v == w && r == q
  {
    hide Text, IsText, U64, Reference, IsReference, IsTriple, IsDouble;
    match v
    case StringV(s) => TextOff(s, r, w.s, q);
    case ConfigRefV(n) => TextOff(n, r, w.name, q);
    case ElemRefV(a) => ReferenceOff(a, r, w.ref, q);
    case ElemRefListV(rs) => ListOff(rs, r, w.refs, q);
  }

  lemma {:induction false} ListOff(xs: seq<ElementRef>, r: seq<Byte>, ys: seq<ElementRef>, q: seq<Byte>)
    requires |xs| < TWO64 && |ys| < TWO64
    requires (forall i :: 0 <= i < |xs| ==> IsReference(xs[i])) && (forall i :: 0 <= i < |ys| ==> IsReference(ys[i]))
    requires U64(Count(|xs|)) + References(xs) + r == U64(Count(|ys|)) + References(ys) + q
    ensures xs == ys && r == q
  {
    hide U64, References, IsReference;
    assert U64(Count(|xs|)) + References(xs) + r == U64(Count(|xs|)) + (References(xs) + r);
    assert U64(Count(|ys|)) + References(ys) + q == U64(Count(|ys|)) + (References(ys) + q);
    U64Off(Count(|xs|), References(xs) + r, Count(|ys|), References(ys) + q);
    ReferencesOff(xs, r, ys, q);
  }

  lemma {:induction false} ValueOff(bits: Bits, v: ParamValue, r: seq<Byte>, w: ParamValue, q: seq<Byte>)
    requires Faithful(bits) && IsValue(v) && IsValue(w) && Value(bits, v) + r == Value(bits, w) + q
    ensures NoXDir(v) == NoXDir(w) && r == q
  {
    hide U64, Payload, IsValue, Faithful;
    assert Value(bits, v) + r == U64(Index(TypeOf(v))) + (Payload(bits, v) + r);
    assert Value(bits, w) + q == U64(Index(TypeOf(w))) + (Payload(bits, w) + q);
    U64Off(Index(TypeOf(v)), Payload(bits, v) + r, Index(TypeOf(w)), Payload(bits, w) + q);
    if v.DoubleV? || v.IntV? || v.BoolV? { NumberOff(bits, v, r, w, q); }
    else if v.StringV? || v.ElemRefV? || v.ElemRefListV? || v.ConfigRefV? { NamesOff(bits, v, r, w, q); }
    else { GeometryOff(bits, v, r, w, q); }
  }

  lemma {:induction false} InputOff(bits: Bits, s: InputSpec, r: seq<Byte>, t: InputSpec, q: seq<Byte>)
    requires Faithful(bits) && IsInput(s) && IsInput(t) && Input(bits, s) + r == Input(bits, t) + q
    ensures Hashed(s) == Hashed(t) && r == q
  {
    hide Text, IsText, U64, Optional, Value, IsValue, IsBound, Faithful;
    var s4, t4 := Value(bits, s.default) + r, Value(bits, t.default) + q;
    var s3, t3 := Optional(bits, s.max) + s4, Optional(bits, t.max) + t4;
    var s2, t2 := Optional(bits, s.min) + s3, Optional(bits, t.min) + t3;
    var s1, t1 := U64(Index(s.kind)) + s2, U64(Index(t.kind)) + t2;
    assert Input(bits, s) + r == Text(s.name) + s1 && Input(bits, t) + q == Text(t.name) + t1;
    TextOff(s.name, s1, t.name, t1);
    U64Off(Index(s.kind), s2, Index(t.kind), t2);
    OptionalOff(bits, s.min, s3, t.min, t3);
    OptionalOff(bits, s.max, s4, t.max, t4);
    ValueOff(bits, s.default, r, t.default, q);
  }

  lemma {:induction false} InputsOff(bits: Bits, xs: seq<InputSpec>, ys: seq<InputSpec>)
    requires Faithful(bits) && |xs| == |ys| && Inputs(bits, xs) == Inputs(bits, ys)
    requires forall i :: 0 <= i < |xs| ==> IsInput(xs[i]) && IsInput(ys[i])
    ensures forall i :: 0 <= i < |xs| ==> Hashed(xs[i]) == Hashed(ys[i])
  {
    hide Input, IsInput, Hashed, Faithful;
    if xs != [] {
      InputOff(bits, xs[0], Inputs(bits, xs[1..]), ys[0], Inputs(bits, ys[1..]));
      InputsOff(bits, xs[1..], ys[1..]);
      assert forall i :: 1 <= i < |xs| ==> xs[i] == xs[1..][i - 1] && ys[i] == ys[1..][i - 1];
    }
  }

  lemma {:induction false} SameHashedSameBytes(bits: Bits, s: InputSpec, t: InputSpec)
    requires Hashed(s) == Hashed(t)
    ensures Input(bits, s) == Input(bits, t)
  {
    hide Text, U64, Coordinates, Reference, References;
  }

  lemma {:induction false} SameInputs(bits: Bits, xs: seq<InputSpec>, ys: seq<InputSpec>)
    requires |xs| == |ys| && forall i :: 0 <= i < |xs| ==> Hashed(xs[i]) == Hashed(ys[i])
    ensures Inputs(bits, xs) == Inputs(bits, ys)
  {
    hide Input, Hashed;
    if xs != [] {
      SameHashedSameBytes(bits, xs[0], ys[0]);
      SameInputs(bits, xs[1..], ys[1..]);
    }
  }

  /** The stream says everything that is hashed and nothing else: it determines the inputs, and is determined by them. */
  lemma {:induction false} StreamDeterminesInputs(bits: Bits, xs: seq<InputSpec>, ys: seq<InputSpec>)
    requires Faithful(bits) && |xs| < TWO64 && |ys| < TWO64
    requires (forall i :: 0 <= i < |xs| ==> IsInput(xs[i])) && (forall i :: 0 <= i < |ys| ==> IsInput(ys[i]))
    ensures Stream(bits, xs) == Stream(bits, ys)
            <==> |xs| == |ys| && forall i :: 0 <= i < |xs| ==> Hashed(xs[i]) == Hashed(ys[i])
  {
    hide U64, Inputs, IsInput, Hashed, Faithful;
    if Stream(bits, xs) == Stream(bits, ys) {
      assert Stream(bits, xs) == U64(1) + (U64(Count(|xs|)) + Inputs(bits, xs));
      assert Stream(bits, ys) == U64(1) + (U64(Count(|ys|)) + Inputs(bits, ys));
      U64Off(1, U64(Count(|xs|)) + Inputs(bits, xs), 1, U64(Count(|ys|)) + Inputs(bits, ys));
      U64Off(Count(|xs|), Inputs(bits, xs), Count(|ys|), Inputs(bits, ys));
      InputsOff(bits, xs, ys);
    } else if |xs| == |ys| && forall i :: 0 <= i < |xs| ==> Hashed(xs[i]) == Hashed(ys[i]) {
      SameInputs(bits, xs, ys);
    }
  }

  // ── A toggled default ──────────────────────────────────

  function Fingerprint(bits: Bits, specs: seq<InputSpec>): Word64 {
    Fold(FNV_OFFSET, Stream(bits, specs))
  }

  /** The inputs before and after one of them. */
  lemma {:induction false} InputsAround(bits: Bits, specs: seq<InputSpec>, i: nat)
    requires i < |specs|
    ensures Inputs(bits, specs) == Inputs(bits, specs[..i]) + Input(bits, specs[i]) + Inputs(bits, specs[i + 1..])
  {
    hide Input;
    if i == 0 {
      assert Inputs(bits, specs[..0]) == [];
    } else {
      InputsAround(bits, specs[1..], i - 1);
      assert specs[1..][..i - 1] == specs[..i][1..] && specs[1..][i..] == specs[i + 1..];
    }
  }

  /** The bytes of an input with a boolean default end in a word that is 1 or 0. */
  lemma {:induction false} BoolAtTheEnd(bits: Bits, s: InputSpec) returns (pre: seq<Byte>)
    requires s.default.BoolV?
    ensures Input(bits, s) == pre + [if s.default.b then 1 else 0] + [0, 0, 0, 0, 0, 0, 0]
    ensures Input(bits, s.(default := BoolV(!s.default.b))) == pre + [if s.default.b then 0 else 1] + [0, 0, 0, 0, 0, 0, 0]
  {
    hide Input, U64, UpToDefault;
    pre := UpToDefault(bits, s) + U64(Index(TBool));
    BoolInput(bits, s);
    BoolInput(bits, s.(default := BoolV(!s.default.b)));
  }

  /** The bytes of an input before its default. */
  function UpToDefault(bits: Bits, s: InputSpec): seq<Byte> {
    Text(s.name) + U64(Index(s.kind)) + Optional(bits, s.min) + Optional(bits, s.max)
  }

  lemma {:induction false} BoolInput(bits: Bits, s: InputSpec)
    requires s.default.BoolV?
    ensures Input(bits, s) == UpToDefault(bits, s) + U64(Index(TBool)) + [if s.default.b then 1 else 0] + [0, 0, 0, 0, 0, 0, 0]
    ensures UpToDefault(bits, s) == UpToDefault(bits, s.(default := BoolV(!s.default.b)))
  {
    hide U64, Text, Optional;
    BoolWord(s.default.b);
    Grouped(UpToDefault(bits, s), U64(Index(TBool)), [if s.default.b then 1 else 0], [0, 0, 0, 0, 0, 0, 0]);
  }

  lemma {:induction false} Grouped(a: seq<Byte>, b: seq<Byte>, c: seq<Byte>, d: seq<Byte>)
    ensures a + (b + (c + d)) == a + b + c + d
  {
  }

  lemma {:induction false} BoolWord(b: bool)
    ensures U64(if b then 1 else 0) == [if b then 1 else 0] + [0, 0, 0, 0, 0, 0, 0]
  {
    var v := if b then 1 else 0;
    assert LittleEndian(0, 1) == [0];
    assert LittleEndian(0, 3) == [0, 0, 0];
    assert LittleEndian(0, 5) == [0, 0, 0, 0, 0];
    assert LittleEndian(0, 7) == [0, 0, 0, 0, 0, 0, 0];
    assert LittleEndian(v, 8) == [v % 256] + LittleEndian(0, 7);
  }

  /** Two schemas that differ in one boolean default never share a fingerprint. */
  lemma {:induction false} ToggledDefaultDiffers(bits: Bits, specs: seq<InputSpec>, i: nat)
    requires i < |specs| && specs[i].default.BoolV?
    ensures Fingerprint(bits, specs) != Fingerprint(bits, specs[i := specs[i].(default := BoolV(!specs[i].default.b))])
  {
    var now := specs[i].(default := BoolV(!specs[i].default.b));
    var pre := BoolAtTheEnd(bits, specs[i]);
    var zeros: seq<Byte> := [0, 0, 0, 0, 0, 0, 0];
    var b: Byte := if specs[i].default.b then 1 else 0;
    StreamAround(bits, specs, i, specs[i], pre, b, zeros);
    StreamAround(bits, specs, i, now, pre, 1 - b, zeros);
    assert specs[i := specs[i]] == specs;
    hide U64, Inputs, Input, Fold, Stream;
    OneByteApart(U64(1) + U64(Count(|specs|)) + Inputs(bits, specs[..i]) + pre, b, 1 - b, zeros + Inputs(bits, specs[i + 1..]));
  }

  lemma {:induction false} StreamAround(bits: Bits, specs: seq<InputSpec>, i: nat, s: InputSpec, pre: seq<Byte>, b: Byte, post: seq<Byte>)
    requires i < |specs| && Input(bits, s) == pre + [b] + post
    ensures Stream(bits, specs[i := s])
            == (U64(1) + U64(Count(|specs|)) + Inputs(bits, specs[..i]) + pre) + [b] + (post + Inputs(bits, specs[i + 1..]))
  {
    var now := specs[i := s];
    InputsAround(bits, now, i);
    assert now[..i] == specs[..i] && now[i + 1..] == specs[i + 1..] && now[i] == s;
    hide U64, Inputs, Input;
    Regroup(U64(1) + U64(Count(|specs|)), Inputs(bits, specs[..i]), pre, b, post, Inputs(bits, specs[i + 1..]));
  }

  lemma {:induction false} Regroup(a: seq<Byte>, f: seq<Byte>, pre: seq<Byte>, x: Byte, post: seq<Byte>, c: seq<Byte>)
    ensures a + (f + (pre + [x] + post) + c) == (a + f + pre) + [x] + (post + c)
  {
  }

  lemma {:induction false} OneByteApart(head: seq<Byte>, b: Byte, c: Byte, tail: seq<Byte>)
    requires b != c
    ensures Fold(FNV_OFFSET, head + [b] + tail) != Fold(FNV_OFFSET, head + [c] + tail)
  {
    var s, t := head + [b] + tail, head + [c] + tail;
    assert s[..|head|] == head && t[..|head|] == head && s[|head| + 1..] == tail && t[|head| + 1..] == tail;
    hide Fold;
    OneByteDiffers(FNV_OFFSET, s, t, |head|);
  }

  // ── The hashing loops ──────────────────────────────────

  method FnvUpdate(h: Word64, data: seq<Byte>) returns (out: Word64)
    ensures out == Fold(h, data)
  {
    out := h;
    for i := 0 to |data|
      invariant out == Fold(h, data[..i])
    {
      assert data[..i + 1][..i] == data[..i];
      out := FnvStep(out, data[i]);
    }
    assert data[..|data|] == data;
  }

  method FnvUpdateReferences(h: Word64, rs: seq<ElementRef>) returns (out: Word64)
    ensures out == Fold(h, References(rs))
  {
    out := h;
    hide Reference, FnvStep, Fold;
    FoldNothing(h);
    for i := 0 to |rs|
      invariant out == Fold(h, References(rs[..i]))
    {
      out := FnvUpdate(out, Reference(rs[i]));
      FoldConcat(h, References(rs[..i]), Reference(rs[i]));
      ReferencesNext(rs, i);
    }
    assert rs[..|rs|] == rs;
  }

  lemma {:induction false} FoldNothing(h: Word64)
    ensures Fold(h, []) == h
  {
  }

  lemma {:induction false} ReferencesNext(rs: seq<ElementRef>, i: nat)
    requires i < |rs|
    ensures References(rs[..i + 1]) == References(rs[..i]) + Reference(rs[i])
  {
    hide Reference;
    if i > 0 {
      ReferencesNext(rs[1..], i - 1);
      assert rs[1..][..i] == rs[..i + 1][1..] && rs[1..][..i - 1] == rs[..i][1..];
    }
  }

  method FnvUpdateParamValue(h: Word64, bits: Bits, v: ParamValue) returns (out: Word64)
    ensures out == Fold(h, Value(bits, v))
  {
    hide Fold;
    out := FnvUpdate(h, U64(Index(TypeOf(v))));
    FoldConcat(h, U64(Index(TypeOf(v))), Payload(bits, v));
    if v.ElemRefListV? {
      FoldConcat(out, U64(Count(|v.refs|)), References(v.refs));
      out := FnvUpdate(out, U64(Count(|v.refs|)));
      out := FnvUpdateReferences(out, v.refs);
    } else {
      out := FnvUpdate(out, Payload(bits, v));
    }
  }

  /** ConfigSchema::fingerprint */
  method ComputeFingerprint(bits: Bits, specs: seq<InputSpec>) returns (h: Word64)
    ensures h == Fingerprint(bits, specs)
  {
    hide Fold, U64, Text, Optional, Value;
    var start := FnvUpdate(FNV_OFFSET, U64(1));
    start := FnvUpdate(start, U64(Count(|specs|)));
    FoldConcat(FNV_OFFSET, U64(1), U64(Count(|specs|)));
    h := start;
    FoldNothing(start);
    for i := 0 to |specs|
      invariant h == Fold(start, Inputs(bits, specs[..i]))
    {
      var spec := specs[i];
      ghost var before := h;
      h := FnvUpdate(h, Text(spec.name));
      h := FnvUpdate(h, U64(Index(spec.kind)));
      h := FnvUpdate(h, Optional(bits, spec.min));
      h := FnvUpdate(h, Optional(bits, spec.max));
      h := FnvUpdateParamValue(h, bits, spec.default);
      FoldInput(before, bits, spec);
      InputsNext(bits, specs, i);
      hide Inputs, Input;
      FoldConcat(start, Inputs(bits, specs[..i]), Input(bits, spec));
    }
    assert specs[..|specs|] == specs;
    FoldConcat(FNV_OFFSET, U64(1) + U64(Count(|specs|)), Inputs(bits, specs));
  }

  lemma {:induction false} FoldInput(h: Word64, bits: Bits, s: InputSpec)
    ensures Fold(h, Input(bits, s))
            == Fold(Fold(Fold(Fold(Fold(h, Text(s.name)), U64(Index(s.kind))), Optional(bits, s.min)), Optional(bits, s.max)), Value(bits, s.default))
  {
    hide Fold, U64, Text, Optional, Value;
    FoldConcat(h, Text(s.name), U64(Index(s.kind)));
    FoldConcat(h, Text(s.name) + U64(Index(s.kind)), Optional(bits, s.min));
    FoldConcat(h, Text(s.name) + U64(Index(s.kind)) + Optional(bits, s.min), Optional(bits, s.max));
    FoldConcat(h, Text(s.name) + U64(Index(s.kind)) + Optional(bits, s.min) + Optional(bits, s.max), Value(bits, s.default));
  }

  lemma {:induction false} InputsNext(bits: Bits, specs: seq<InputSpec>, i: nat)
    requires i < |specs|
    ensures Inputs(bits, specs[..i + 1]) == Inputs(bits, specs[..i]) + Input(bits, specs[i])
  {
    InputsAround(bits, specs[..i + 1], i);
    assert specs[..i + 1][..i] == specs[..i] && specs[..i + 1][i + 1..] == [];
    hide Input;
    assert Inputs(bits, []) == [];
  }
}
