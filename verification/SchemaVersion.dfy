/**
 Schema versions and their text (src/core/schema.h and the parser in src/core/schema.cpp).
 */
module SchemaVersions {
  import opened Wrappers
  import opened TagAllocation

  datatype Version = Version(major: Int32, minor: Int32, patch: Int32)
  {
    /** Same major, and no newer minor. */
    predicate CanLoad(other: Version) {
      major == other.major && other.minor <= minor
    }

    function ToString(): string {
      Decimal(major) + "." + Decimal(minor) + "." + Decimal(patch)
    }
  }

  // ── Decimal numbers ────────────────────────────────────

  predicate IsDigit(c: char) {
    '0' <= c <= '9'
  }

  predicate AllDigits(s: string) {
    forall c :: c in s ==> IsDigit(c)
  }

  function NatDecimal(n: nat): (r: string)
    ensures AllDigits(r) && r != ""
  {
    var d := ['0' + (n % 10) as char];
    if n < 10 then d else NatDecimal(n / 10) + d
  }

  /** std::to_string */
  function Decimal(i: int): string {
    if i < 0 then "-" + NatDecimal(-i) else NatDecimal(i)
  }

  function DecimalValue(s: string): nat
    requires AllDigits(s)
  {
    if s == "" then 0
    else
      assert s == s[..|s| - 1] + [s[|s| - 1]] && IsDigit(s[|s| - 1]);
      DecimalValue(s[..|s| - 1]) * 10 + (s[|s| - 1] - '0') as int
  }

  lemma {:induction false} DecimalRead(n: nat)
    ensures DecimalValue(NatDecimal(n)) == n
  {
    var d := ['0' + (n % 10) as char];
    assert AllDigits(d);
    if n >= 10 {
      DecimalRead(n / 10);
      assert (NatDecimal(n / 10) + d)[..|NatDecimal(n / 10)|] == NatDecimal(n / 10);
    } else {
      assert d[..0] == "";
    }
  }

  lemma {:induction false} DecimalInjective(i: int, j: int)
    requires Decimal(i) == Decimal(j)
    ensures i == j
  {
    var m, n := if i < 0 then -i else i, if j < 0 then -j else j;
    DecimalRead(m);
    DecimalRead(n);
    assert !IsDigit('-') && NatDecimal(m)[0] in NatDecimal(m) && NatDecimal(n)[0] in NatDecimal(n);
    assert (i < 0) == (j < 0);
    assert NatDecimal(m) == if i < 0 then Decimal(i)[1..] else Decimal(i);
    assert NatDecimal(n) == if j < 0 then Decimal(j)[1..] else Decimal(j);
  }

  // ── Splitting at dots ──────────────────────────────────

  /** The parts of a text between its dots. */
  function Segments(s: string): (r: seq<string>)
    ensures |r| > 0
  {
    var k := FirstDot(s);
    if k == |s| then [s] else [s[..k]] + Segments(s[k + 1..])
  }

  function FirstDot(s: string): (k: nat)
    ensures k <= |s| && '.' !in s[..k] && (k < |s| ==> s[k] == '.')
    ensures forall j :: 0 <= j < |s| && s[j] == '.' ==> k <= j
  {
    if s == "" || s[0] == '.' then 0
    else
      var k := FirstDot(s[1..]);
      assert s[..k + 1] == [s[0]] + s[1..][..k];
      k + 1
  }

  lemma {:induction false} SegmentsAt(s: string, k: nat)
    requires k < |s| && s[k] == '.' && '.' !in s[..k]
    ensures Segments(s) == [s[..k]] + Segments(s[k + 1..])
  {
    var before := s[..k];
    assert forall j :: 0 <= j < k ==> s[j] == before[j];
  }

  lemma {:induction false} SegmentsLast(s: string)
    requires '.' !in s
    ensures Segments(s) == [s]
  {
    assert forall j :: 0 <= j < |s| ==> s[j] in s;
  }

  lemma {:induction false} SegmentsOfThree(a: string, b: string, c: string)
    requires '.' !in a && '.' !in b && '.' !in c
    ensures Segments(a + "." + b + "." + c) == [a, b, c]
  {
    hide Segments;
    assert a + "." + b + "." + c == a + "." + (b + "." + c);
    SegmentsSplit(a, b + "." + c);
    SegmentsSplit(b, c);
    SegmentsLast(c);
  }

  lemma {:induction false} SegmentsSplit(a: string, rest: string)
    requires '.' !in a
    ensures Segments(a + "." + rest) == [a] + Segments(rest)
  {
    var s := a + "." + rest;
    assert s[..|a|] == a && s[|a| + 1..] == rest;
    SegmentsAt(s, |a|);
  }

  lemma {:induction false} NoDot(i: int)
    ensures '.' !in Decimal(i)
  {
  }

  // ── Parsing ────────────────────────────────────────────

  /** The number a segment stands for: digits only, and no more than INT_MAX. */
  function Number(segment: string): Option<Int32> {
    if segment == "" || !AllDigits(segment) || DecimalValue(segment) > INT32_MAX then None
    else Some(DecimalValue(segment))
  }

  /** None where the parser throws. */
  function Parse(s: string): Option<Version> {
    var parts := Segments(s);
    if |parts| != 3 || Number(parts[0]).None? || Number(parts[1]).None? || Number(parts[2]).None? then None
    else Some(Version(Number(parts[0]).value, Number(parts[1]).value, Number(parts[2]).value))
  }

  /** A version is read back from its text exactly when no part of it is negative. */
  lemma {:induction false} VersionRoundTrip(v: Version)
    ensures Parse(v.ToString()) == Some(v) <==> v.major >= 0 && v.minor >= 0 && v.patch >= 0
    ensures Parse(v.ToString()).Some? ==> Parse(v.ToString()) == Some(v)
  {
    NoDot(v.major);
    NoDot(v.minor);
    NoDot(v.patch);
    SegmentsOfThree(Decimal(v.major), Decimal(v.minor), Decimal(v.patch));
    NumberOfDecimal(v.major);
    NumberOfDecimal(v.minor);
    NumberOfDecimal(v.patch);
  }

  lemma {:induction false} NumberOfDecimal(i: Int32)
    ensures Number(Decimal(i)) == if i >= 0 then Some(i) else None
  {
    if i >= 0 {
      DecimalRead(i);
    } else {
      assert Decimal(i)[0] in Decimal(i);
    }
  }

  lemma {:induction false} ToStringInjective(v: Version, w: Version)
    requires v.ToString() == w.ToString()
    ensures v == w
  {
    NoDot(v.major); NoDot(v.minor); NoDot(v.patch);
    NoDot(w.major); NoDot(w.minor); NoDot(w.patch);
    SegmentsOfThree(Decimal(v.major), Decimal(v.minor), Decimal(v.patch));
    SegmentsOfThree(Decimal(w.major), Decimal(w.minor), Decimal(w.patch));
    DecimalInjective(v.major, w.major);
    DecimalInjective(v.minor, w.minor);
    DecimalInjective(v.patch, w.patch);
  }

  /** The key under which a migration is stored. */
  function ComposeKey(kind: string, v: Version): string {
    kind + "#" + v.ToString()
  }

  /** Although a type name may itself contain the separator, no two keys coincide. */
  lemma {:induction false} ComposeKeyInjective(k: string, v: Version, l: string, w: Version)
    requires ComposeKey(k, v) == ComposeKey(l, w)
    ensures k == l && v == w
  {
    var s := ComposeKey(k, v);
    NoHash(v);
    NoHash(w);
    assert v.ToString() == s[|k| + 1..] && w.ToString() == s[|l| + 1..];
    LastHash(s, |k|, |l|);
    LastHash(s, |l|, |k|);
    assert k == s[..|k|] && l == s[..|l|];
    ToStringInjective(v, w);
  }

  lemma {:induction false} LastHash(s: string, i: nat, j: nat)
    requires i < |s| && j < |s| && s[j] == '#' && '#' !in s[i + 1..]
    ensures j <= i
  {
    var tail := s[i + 1..];
    assert forall m :: i < m < |s| ==> s[m] == tail[m - i - 1];
  }

  lemma {:induction false} NoHash(v: Version)
    ensures '#' !in v.ToString()
  {
    assert '#' !in Decimal(v.major) && '#' !in Decimal(v.minor) && '#' !in Decimal(v.patch);
  }

  // ── The parser's loop ──────────────────────────────────

  function Fields(numbers: seq<Int32>): Version {
    Version(if |numbers| > 0 then numbers[0] else 0, if |numbers| > 1 then numbers[1] else 0, if |numbers| > 2 then numbers[2] else 0)
  }

  /** The first segments have been read as these numbers. */
  ghost predicate Prefix(s: string, numbers: seq<Int32>) {
    |numbers| <= 3 && |numbers| <= |Segments(s)| && forall k :: 0 <= k < |numbers| ==> Number(Segments(s)[k]) == Some(numbers[k])
  }

  /** What is left to read starts at `pos`. */
  ghost predicate Rest(s: string, pos: nat, field: nat) {
    pos <= |s| && field <= |Segments(s)| && Segments(s)[field..] == Segments(s[pos..])
  }

  ghost predicate Progress(s: string, pos: nat, i: nat, numbers: seq<Int32>) {
    && Prefix(s, numbers) && pos <= i
    && if i <= |s| then Rest(s, pos, |numbers|) && '.' !in s[pos..i] else |Segments(s)| == |numbers|
  }

  /** SchemaVersion::parse; None for each of its exceptions. */
  method ParseVersion(s: string) returns (r: Option<Version>)
    ensures r == Parse(s)
  {
    if s == "" {
      SegmentsLast(s);
      return None;
    }
    hide Progress, Parse, Segments, Number, Fields;
    var v := Version(0, 0, 0);
    var pos, field := 0, 0;
    ghost var numbers: seq<Int32> := [];
    Begin(s);
    assert v == Fields([]) by { NoFields(); }
    for i := 0 to |s| + 1
      invariant field == |numbers| && v == Fields(numbers) && 0 <= pos <= i
      invariant Progress(s, pos, i, numbers)
    {
      if i == |s| || s[i] == '.' {
        AtSegment(s, pos, i, numbers);
        if pos >= i { return None; }
        var n := ReadNumber(s[pos..i]);
        if n.None? { return None; }
        if field == 0 { v := v.(major := n.value); }
        else if field == 1 { v := v.(minor := n.value); }
        else if field == 2 { v := v.(patch := n.value); }
        else { return None; }
        FieldsNext(numbers, n.value);
        numbers := numbers + [n.value];
        pos, field := i + 1, field + 1;
      } else {
        InSegment(s, pos, i, numbers);
      }
    }
    Finished(s, pos, numbers);
    if field != 3 { return None; }
    return Some(v);
  }

  lemma {:induction false} NoFields()
    ensures Fields([]) == Version(0, 0, 0)
  {
  }

  lemma {:induction false} FieldsNext(numbers: seq<Int32>, n: Int32)
    requires |numbers| < 3
    ensures var v := Fields(numbers);
            Fields(numbers + [n]) == if |numbers| == 0 then v.(major := n) else if |numbers| == 1 then v.(minor := n) else v.(patch := n)
  {
  }

  lemma {:induction false} Begin(s: string)
    ensures Progress(s, 0, 0, [])
  {
    assert s[0..] == s && s[0..0] == "";
  }

  lemma {:induction false} InSegment(s: string, pos: nat, i: nat, numbers: seq<Int32>)
    requires Progress(s, pos, i, numbers) && i < |s| && s[i] != '.'
    ensures Progress(s, pos, i + 1, numbers)
  {
    assert s[pos..i + 1] == s[pos..i] + [s[i]];
  }

  /** At the end of a segment: what happens if it is bad, and where reading it leads. */
  lemma {:induction false} AtSegment(s: string, pos: nat, i: nat, numbers: seq<Int32>)
    requires Progress(s, pos, i, numbers) && i <= |s| && (i < |s| ==> s[i] == '.')
    ensures |numbers| == 3 || Number(s[pos..i]).None? ==> Parse(s) == None
    ensures |numbers| < 3 && Number(s[pos..i]).Some? ==> Progress(s, i + 1, i + 1, numbers + [Number(s[pos..i]).value])
    ensures pos == i ==> Parse(s) == None
  {
    NextSegment(s, pos, i, |numbers|);
    hide Segments;
    if |numbers| < 3 && Number(s[pos..i]).Some? && i < |s| { assert s[i + 1..i + 1] == ""; }
  }

  lemma {:induction false} Finished(s: string, pos: nat, numbers: seq<Int32>)
    requires Progress(s, pos, |s| + 1, numbers)
    ensures Parse(s) == if |numbers| == 3 then Some(Fields(numbers)) else None
  {
  }

  lemma {:induction false} NextSegment(s: string, pos: nat, i: nat, field: nat)
    requires Rest(s, pos, field) && pos <= i <= |s| && '.' !in s[pos..i] && (i < |s| ==> s[i] == '.')
    ensures field < |Segments(s)| && Segments(s)[field] == s[pos..i]
    ensures if i == |s| then |Segments(s)| == field + 1 else Rest(s, i + 1, field + 1)
  {
    var rest, parts := s[pos..], Segments(s);
    assert parts[field] == parts[field..][0];
    assert parts[field + 1..] == parts[field..][1..];
    if i < |s| {
      assert rest[..i - pos] == s[pos..i] && rest[i - pos + 1..] == s[i + 1..];
      SegmentsAt(rest, i - pos);
    } else {
      assert rest == s[pos..i];
      SegmentsLast(rest);
    }
  }

  /** The digit check, and std::stoi with its range check. */
  method ReadNumber(segment: string) returns (r: Option<Int32>)
    requires segment != ""
    ensures r == Number(segment)
  {
    for i := 0 to |segment|
      invariant AllDigits(segment[..i])
    {
      if segment[i] < '0' || segment[i] > '9' {
        assert segment[i] in segment;
        return None;
      }
      assert segment[..i + 1] == segment[..i] + [segment[i]];
    }
    assert segment[..|segment|] == segment;
    var n := DecimalValue(segment);
    if n > INT32_MAX { return None; }
    return Some(n);
  }
}
