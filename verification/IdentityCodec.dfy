/**
 The 64-bit scalar form of an identity (src/core/shape_identity_v1.cpp), its hexadecimal form
 (src/core/shape_identity.h), and the scope that coalesces downgrade warnings.
 */
module IdentityCodec {
  import opened Wrappers
  import opened TagAllocation
  import opened AllocatorTheory

  // ── The scalar form ────────────────────────────────────

  /** encodeV1Scalar. The two halves of the word are disjoint, so the source's `hi | lo` is their sum. */
  function Encode(id: ShapeIdentity): Result<Int64, Exception> {
    if id.counter == 0 then Thrown(InvalidArgument)
    else if id.documentId == 0 then
      if id.counter > INT64_MAX then Thrown(OverflowError) else Ok(id.counter)
    else if id.counter > UINT32_MAX then Thrown(OverflowError)
    else Ok(Wrap64(Low32(id.documentId) * TWO32 + id.counter))
  }

  function Unsigned(s: Int64): Word64 {
    if s < 0 then s + TWO64 else s
  }

  function High32(w: Word64): (r: int)
    ensures 0 <= r < TWO32
  {
    w / TWO32
  }

  /** A decoded identity, and whether the reader lost the high half of its document. */
  datatype Decoded = Decoded(id: ShapeIdentity, downgraded: bool)

  /** decodeV1Scalar */
  function Decode(scalar: Int64, hint: Word64): Result<Decoded, Exception> {
    var u := Unsigned(scalar);
    if High32(u) == 0 then Ok(Decoded(ShapeIdentity(hint, u), false))
    else if hint == 0 then Ok(Decoded(ShapeIdentity(High32(u), Low32(u)), true))
    else if Low32(hint) != High32(u) then Thrown(InvalidArgument)
    else Ok(Decoded(ShapeIdentity(hint, Low32(u)), false))
  }

  /** Reading back the scalar with the identity's own document works exactly for counters of at most 32 bits. */
  lemma {:induction false} ScalarRoundTrip(id: ShapeIdentity)
    ensures (Encode(id).Ok? && Decode(Encode(id).value, id.documentId) == Ok(Decoded(id, false)))
            <==> 1 <= id.counter <= UINT32_MAX
  {
    if id.documentId != 0 && 1 <= id.counter <= UINT32_MAX {
      EncodedHalves(id);
    }
  }

  lemma {:induction false} EncodedHalves(id: ShapeIdentity)
    requires id.documentId != 0 && 1 <= id.counter <= UINT32_MAX
    ensures Encode(id).Ok? && High32(Unsigned(Encode(id).value)) == Low32(id.documentId)
    ensures Low32(Unsigned(Encode(id).value)) == id.counter
  {
    var w := Low32(id.documentId) * TWO32 + id.counter;
    assert 0 <= w < TWO64;
    assert Unsigned(Wrap64(w)) == w;
    assert w / TWO32 == Low32(id.documentId) && w % TWO32 == id.counter;
  }

  /** Writing again what was read gives the same scalar, except for a zero counter or a hint that adds a document. */
  lemma {:induction false} ReencodeIff(scalar: Int64, hint: Word64)
    requires Decode(scalar, hint).Ok?
    ensures var id := Decode(scalar, hint).value.id;
            Encode(id) == Ok(scalar) <==> id.counter != 0 && (High32(Unsigned(scalar)) != 0 || Low32(hint) == 0)
  {
    var u, id := Unsigned(scalar), Decode(scalar, hint).value.id;
    assert u == High32(u) * TWO32 + Low32(u);
    assert Low32(High32(u)) == High32(u);
    if High32(u) == 0 {
      assert u == Low32(u) && u == scalar;
      if hint != 0 && u != 0 {
        EncodedHalves(id);
      }
    } else if id.counter != 0 {
      assert Wrap64(u) == scalar;
    }
  }

  /** The scalar of a multi-document identity holds its counter and the low half of its document, nothing else. */
  lemma {:induction false} ScalarsEqualIff(a: ShapeIdentity, b: ShapeIdentity)
    requires a.documentId != 0 && b.documentId != 0 && Encode(a).Ok? && Encode(b).Ok?
    ensures Encode(a) == Encode(b) <==> a.counter == b.counter && Low32(a.documentId) == Low32(b.documentId)
  {
    EncodedHalves(a);
    EncodedHalves(b);
  }

  /** Among documents this process has admitted, different identities have different scalars. */
  lemma {:induction false} EncodeInjectiveWhereAdmitted(documents: seq<Word64>, a: ShapeIdentity, b: ShapeIdentity)
    requires var reg := Registrations(map[], documents); Admitted(reg, a.documentId) && Admitted(reg, b.documentId)
    requires a.documentId != 0 && b.documentId != 0 && Encode(a).Ok? && Encode(b).Ok?
    ensures Encode(a) == Encode(b) <==> a == b
  {
    ScalarsEqualIff(a, b);
  }

  // ── The hexadecimal form ───────────────────────────────

  function Digit(d: int): char
    requires 0 <= d < 16
  {
    if d < 10 then '0' + d as char else 'a' + (d - 10) as char
  }

  function DigitValue(c: char): (r: Option<int>)
    ensures r.Some? ==> 0 <= r.value < 16
  {
    if '0' <= c <= '9' then Some((c - '0') as int)
    else if 'a' <= c <= 'f' then Some((c - 'a') as int + 10)
    else if 'A' <= c <= 'F' then Some((c - 'A') as int + 10)
    else None
  }

  /** The last n hexadecimal digits of a number. */
  function Digits(v: nat, n: nat): (r: string)
    ensures |r| == n
  {
    if n == 0 then "" else Digits(v / 16, n - 1) + [Digit(v % 16)]
  }

  function ToHex(id: ShapeIdentity): string {
    Digits(id.documentId, 16) + "." + Digits(id.counter, 16)
  }

  function HexValue(s: string): (r: Option<nat>)
    ensures r.Some? ==> forall c :: c in s ==> DigitValue(c).Some?
  {
    if s == "" then Some(0)
    else
      var rest, d := HexValue(s[..|s| - 1]), DigitValue(s[|s| - 1]);
      assert s == s[..|s| - 1] + [s[|s| - 1]];
      if rest.Some? && d.Some? then Some(rest.value * 16 + d.value) else None
  }

  function FromHex(s: string): ShapeIdentity {
    if |s| != 33 || s[16] != '.' || HexValue(s[..16]).None? || HexValue(s[17..]).None? then ShapeIdentity(0, 0)
    else
      ValueBound(s[..16]);
      ValueBound(s[17..]);
      ShapeIdentity(HexValue(s[..16]).value, HexValue(s[17..]).value)
  }

  function Pow16(n: nat): (r: nat)
    ensures r > 0
  {
    if n == 0 then 1 else 16 * Pow16(n - 1)
  }

  lemma {:induction false} ValueBelow(s: string)
    ensures HexValue(s).Some? ==> HexValue(s).value < Pow16(|s|)
  {
    if s != "" { ValueBelow(s[..|s| - 1]); }
  }

  lemma {:induction false} ValueBound(s: string)
    requires |s| == 16
    ensures HexValue(s).Some? ==> HexValue(s).value < TWO64
  {
    ValueBelow(s);
    SixteenDigits();
  }

  lemma {:induction false} SixteenDigits()
    ensures Pow16(16) == TWO64
  {
    assert Pow16(4) == 0x1_0000;
    assert Pow16(8) == 0x1_0000_0000;
    assert Pow16(12) == 0x1_0000_0000_0000;
  }

  lemma {:induction false} DigitsRead(v: nat, n: nat)
    requires v < Pow16(n)
    ensures HexValue(Digits(v, n)) == Some(v)
  {
    if n > 0 {
      DigitsRead(v / 16, n - 1);
      var d := Digit(v % 16);
      assert DigitValue(d) == Some(v % 16);
      assert (Digits(v / 16, n - 1) + [d])[..n - 1] == Digits(v / 16, n - 1);
    }
  }

  /** Every 128-bit identity is read back from its hexadecimal form. */
  lemma {:induction false} HexRoundTrip(id: ShapeIdentity)
    ensures FromHex(ToHex(id)) == id
  {
    var s := ToHex(id);
    assert s[..16] == Digits(id.documentId, 16) && s[17..] == Digits(id.counter, 16);
    SixteenDigits();
    DigitsRead(id.documentId, 16);
    DigitsRead(id.counter, 16);
  }

  function Lower(c: char): char {
    if 'A' <= c <= 'F' then c - 'A' + 'a' else c
  }

  function Lowered(s: string): string {
    seq(|s|, i requires 0 <= i < |s| => Lower(s[i]))
  }

  lemma {:induction false} ReadDigits(s: string)
    requires HexValue(s).Some?
    ensures Digits(HexValue(s).value, |s|) == Lowered(s)
  {
    if s != "" {
      var n := |s| - 1;
      ReadDigits(s[..n]);
      assert HexValue(s).value / 16 == HexValue(s[..n]).value;
      assert Digit(DigitValue(s[n]).value) == Lower(s[n]);
      assert Lowered(s) == Lowered(s[..n]) + [Lower(s[n])];
    }
  }

  /** A text that parses is, up to letter case, the hexadecimal form of what it parses to. */
  lemma {:induction false} HexIsCanonical(s: string)
    requires FromHex(s) != ShapeIdentity(0, 0)
    ensures ToHex(FromHex(s)) == Lowered(s)
  {
    ReadDigits(s[..16]);
    ReadDigits(s[17..]);
    assert s == s[..16] + "." + s[17..];
    assert Lowered(s) == Lowered(s[..16]) + "." + Lowered(s[17..]);
  }

  /** The parsing loop: shift the word left by four, or in the digit. */
  method ParseHex16(hex: string) returns (ok: bool, out: Word64)
    requires |hex| == 16
    ensures ok == HexValue(hex).Some?
    ensures ok ==> out == HexValue(hex).value
  {
    var v: Word64 := 0;
    for i := 0 to 16
      invariant HexValue(hex[..i]) == Some(v) && v < Pow16(i)
    {
      assert hex[..i + 1][..i] == hex[..i];
      var d := DigitValue(hex[i]);
      if d.None? {
        PrefixFails(hex, i + 1);
        return false, 0;
      }
      PowerFits(i);
      v := (v * 16) % TWO64 + d.value;
    }
    assert hex[..16] == hex;
    return true, v;
  }

  lemma {:induction false} PowerFits(i: nat)
    requires i < 16
    ensures 16 * Pow16(i) <= TWO64
  {
    SixteenDigits();
    PowersGrow(i + 1, 16);
  }

  lemma {:induction false} PowersGrow(i: nat, n: nat)
    requires i <= n
    ensures Pow16(i) <= Pow16(n)
  {
    if i < n { PowersGrow(i, n - 1); }
  }

  lemma {:induction false} PrefixFails(s: string, i: nat)
    requires i <= |s| && HexValue(s[..i]).None?
    ensures HexValue(s).None?
  {
    if i < |s| {
      assert s[..|s| - 1][..i] == s[..i];
      PrefixFails(s[..|s| - 1], i);
    } else {
      assert s[..i] == s;
    }
  }

  /** fromHex */
  method ParseIdentity(s: string) returns (id: ShapeIdentity)
    ensures id == FromHex(s)
  {
    if |s| != 33 || s[16] != '.' { return ShapeIdentity(0, 0); }
    var ok, documentId := ParseHex16(s[..16]);
    if !ok { return ShapeIdentity(0, 0); }
    var counter;
    ok, counter := ParseHex16(s[17..]);
    if !ok { return ShapeIdentity(0, 0); }
    return ShapeIdentity(documentId, counter);
  }

  // ── Coalescing downgrade warnings ──────────────────────

  datatype Dedup = Dedup(depth: int, warned: bool)

  datatype Event = Enter | Leave | Ask

  /** The thread-local state after one event, and whether a warning may be emitted. */
  function Step(d: Dedup, e: Event): (Dedup, bool) {
    match e
    case Enter => (Dedup(d.depth + 1, d.depth != 0 && d.warned), false)
    case Leave => (Dedup(d.depth - 1, d.depth != 1 && d.warned), false)
    case Ask => if d.depth == 0 then (d, true) else (d.(warned := true), !d.warned)
  }

  function After(events: seq<Event>): Dedup {
    if events == [] then Dedup(0, false) else Step(After(events[..|events| - 1]), events[|events| - 1]).0
  }

  /** Scopes entered and not yet left. */
  function Depth(events: seq<Event>): int {
    if events == [] then 0
    else
      var d := Depth(events[..|events| - 1]);
      match events[|events| - 1]
      case Enter => d + 1
      case Leave => d - 1
      case Ask => d
  }

  /** No scope is left before it is entered. */
  predicate Bracketed(events: seq<Event>) {
    forall i :: 0 <= i <= |events| ==> Depth(events[..i]) >= 0
  }

  predicate Emits(events: seq<Event>, i: nat)
    requires i < |events|
  {
    Step(After(events[..i]), events[i]).1
  }

  /** Some question was asked in the outermost scope still open after `events`. */
  predicate AskedInScope(events: seq<Event>) {
    exists j :: 0 <= j < |events| && events[j] == Ask && forall m :: j < m <= |events| ==> Depth(events[..m]) > 0
  }

  lemma {:induction false} AskedNext(events: seq<Event>, e: Event)
    requires Depth(events + [e]) > 0
    ensures AskedInScope(events + [e]) <==> AskedInScope(events) || e == Ask
  {
    var now := events + [e];
    assert now[..|events|] == events && now[..|now|] == now;
    assert forall m :: 0 <= m <= |events| ==> now[..m] == events[..m];
    if AskedInScope(now) && e != Ask {
      var j :| 0 <= j < |now| && now[j] == Ask && forall m :: j < m <= |now| ==> Depth(now[..m]) > 0;
      assert events[j] == Ask;
      assert forall m :: j < m <= |events| ==> Depth(now[..m]) > 0;
    }
    if AskedInScope(events) {
      var j :| 0 <= j < |events| && events[j] == Ask && forall m :: j < m <= |events| ==> Depth(events[..m]) > 0;
      assert now[j] == Ask;
      assert forall m :: j < m <= |now| ==> m == |now| || now[..m] == events[..m];
    }
    if e == Ask { assert now[|events|] == Ask; }
  }

  lemma {:induction false} FlagMeaning(events: seq<Event>)
    requires Bracketed(events)
    ensures After(events).depth == Depth(events)
    ensures After(events).warned <==> Depth(events) > 0 && AskedInScope(events)
  {
    if events != [] {
      var n := |events| - 1;
      var before := events[..n];
      assert forall i :: 0 <= i <= n ==> before[..i] == events[..i];
      FlagMeaning(before);
      assert events == before + [events[n]] && events[..|events|] == events;
      if Depth(events) > 0 { AskedNext(before, events[n]); }
    }
  }

  /**
   In every bracketed run a question is answered yes exactly when no scope is open, or none was asked before
   in the outermost scope now open: one warning for each outermost scope, however scopes nest inside it.
   */
  lemma {:induction false} OneWarningPerScope(events: seq<Event>, i: nat)
    requires Bracketed(events) && i < |events| && events[i] == Ask
    ensures Emits(events, i) <==> Depth(events[..i]) == 0 || !AskedInScope(events[..i])
  {
    assert forall k :: 0 <= k <= i ==> events[..i][..k] == events[..k];
    FlagMeaning(events[..i]);
  }

  /** The thread-local state behind the scope objects. */
  class DowngradeDedup {
    var depth: int
    var warned: bool

    ghost function State(): Dedup
      reads this
    {
      Dedup(depth, warned)
    }

    constructor ()
      ensures State() == After([])
    {
      depth, warned := 0, false;
    }

    method EnterScope()
      modifies this
      ensures State() == Step(old(State()), Enter).0
    {
      if depth == 0 { warned := false; }
      depth := depth + 1;
    }

    method LeaveScope()
      modifies this
      ensures State() == Step(old(State()), Leave).0
    {
      depth := depth - 1;
      if depth == 0 { warned := false; }
    }

    method ShouldEmitDowngradeWarning() returns (emit: bool)
      modifies this
      ensures (State(), emit) == Step(old(State()), Ask)
    {
      if depth == 0 { return true; }
      if warned { return false; }
      warned := true;
      return true;
    }

    /** The decoder: it asks for permission to warn only in the lossy case, and only when someone listens. */
    method DecodeV1Scalar(scalar: Int64, hint: Word64, listening: bool) returns (r: Result<ShapeIdentity, Exception>, emitted: bool)
      modifies this
      ensures match Decode(scalar, hint)
              case Thrown(e) => r == Thrown(e) && !emitted && State() == old(State())
              case Ok(d) =>
                && r == Ok(d.id)
                && (if d.downgraded && listening then (State(), emitted) == Step(old(State()), Ask)
                    else !emitted && State() == old(State()))
    {
      var u := Unsigned(scalar);
      var hi, lo := High32(u), Low32(u);
      emitted := false;
      if hi == 0 { return Ok(ShapeIdentity(hint, u)), false; }
      if hint == 0 {
        if listening { emitted := ShouldEmitDowngradeWarning(); }
        return Ok(ShapeIdentity(hi, lo)), emitted;
      }
      if Low32(hint) != hi { return Thrown(InvalidArgument), false; }
      return Ok(ShapeIdentity(hint, lo)), false;
    }
  }
}
