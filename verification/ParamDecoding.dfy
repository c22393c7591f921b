/**
 Reading parameter values back from JSON trees (src/feature/param_json.cpp): the strict decoder used where a
 schema declares the type, and the lenient one used elsewhere.
 */
module ParamDecoding {
  import opened Wrappers
  import opened FeatureModel
  import opened TagAllocation
  import opened ParamJson

  /** The geometry library's normalisation; None where it refuses a direction. */
  datatype Frames = Frames(
    unit: Triple -> Option<Triple>,
    xdir: (Triple, Triple) -> Option<Triple>,
    planeX: Triple -> Triple)

  function Axis1(fr: Frames, loc: Triple, d: Triple): Option<ParamValue> {
    var u := fr.unit(d);
    if u.None? then None else Some(Ax1V(loc, u.value))
  }

  function Axis2(fr: Frames, loc: Triple, d: Triple, x: Triple): Option<ParamValue> {
    var u, w := fr.unit(d), fr.unit(x);
    if u.None? || w.None? then None
    else
      var x' := fr.xdir(u.value, w.value);
      if x'.None? then None else Some(Ax2V(loc, u.value, x'.value))
  }

  function Plane(fr: Frames, loc: Triple, d: Triple): Option<ParamValue> {
    var u := fr.unit(d);
    if u.None? then None else Some(PlnV(loc, u.value, fr.planeX(u.value)))
  }

  function Direction(fr: Frames, d: Triple): Option<ParamValue> {
    var u := fr.unit(d);
    if u.None? then None else Some(DirV(u.value))
  }

  function NumberIn(j: Json): Option<Double> {
    match j
    case JFloat(d) => Some(d)
    case JInt(i) => Some(Finite(i as real))
    case _ => None
  }

  // ── The strict decoder ─────────────────────────────────

  /** requireNumber: present, a number, finite. */
  function Required(f: map<string, Json>, name: string): Option<Double> {
    if name !in f then None
    else
      var d := NumberIn(f[name]);
      if d.Some? && d.value.Finite? then d else None
  }

  function RequiredTriple(f: map<string, Json>, x: string, y: string, z: string): (r: Option<Triple>)
    ensures r.Some? ==> FiniteTriple(r.value)
  {
    var a, b, c := Required(f, x), Required(f, y), Required(f, z);
    if a.Some? && b.Some? && c.Some? then Some(Triple(a.value, b.value, c.value)) else None
  }

  predicate Tagged(j: Json, tag: string) {
    j.JObject? && "type" in j.fields && j.fields["type"] == JString(tag)
  }

  const TINY: real := 0.000000000001

  function Abs(x: real): real {
    if x < 0.0 then -x else x
  }

  predicate Vanishes(t: Triple)
    requires FiniteTriple(t)
  {
    Abs(t.x.value) + Abs(t.y.value) + Abs(t.z.value) < TINY
  }

  predicate IsText(f: map<string, Json>, name: string) {
    name in f && f[name].JString?
  }

  /** decodeElementRef */
  function DecodeRef(j: Json): Option<ElementRef> {
    if !j.JObject? then None
    else
      var f := j.fields;
      if !IsText(f, "featureId") || !IsText(f, "elementName") || ("elementType" in f && !f["elementType"].JString?) then None
      else if f["featureId"].s == "" then None
      else Some(ElementRef(f["featureId"].s, f["elementName"].s, if "elementType" in f then f["elementType"].s else ""))
  }

  function DecodeRefs(items: seq<Json>): Option<seq<ElementRef>> {
    if items == [] then Some([])
    else
      var before, last := DecodeRefs(items[..|items| - 1]), DecodeRef(items[|items| - 1]);
      if before.Some? && last.Some? then Some(before.value + [last.value]) else None
  }

  function DecodeConfigRef(f: map<string, Json>): Option<ParamValue> {
    if IsText(f, "name") && f["name"].s != "" then Some(ConfigRefV(f["name"].s)) else None
  }

  /** A vector, point or direction; an axis, frame or plane. */
  function DecodePlace(fr: Frames, j: Json, kind: ParamType): Option<ParamValue> {
    if !j.JObject? then None
    else
      var f := j.fields;
      var xyz, p, d, x := RequiredTriple(f, "x", "y", "z"), RequiredTriple(f, "px", "py", "pz"),
                          RequiredTriple(f, "dx", "dy", "dz"), RequiredTriple(f, "xx", "xy", "xz");
      match kind
      case TPnt => if Tagged(j, "point") && xyz.Some? then Some(PntV(xyz.value)) else None
      case TVec => if Tagged(j, "vec") && xyz.Some? then Some(VecV(xyz.value)) else None
      case TDir => if Tagged(j, "dir") && xyz.Some? && !Vanishes(xyz.value) then Direction(fr, xyz.value) else None
      case TAx1 => if Tagged(j, "ax1") && p.Some? && d.Some? && !Vanishes(d.value) then Axis1(fr, p.value, d.value) else None
      case TAx2 =>
        if Tagged(j, "ax2") && p.Some? && d.Some? && x.Some? && !Vanishes(d.value) && !Vanishes(x.value)
        then Axis2(fr, p.value, d.value, x.value) else None
      case TPln => if Tagged(j, "pln") && p.Some? && d.Some? && !Vanishes(d.value) then Plane(fr, p.value, d.value) else None
      case _ => None
  }

  /** paramValueFromJsonStrict. A ConfigRef is taken in any slot. */
  function DecodeStrict(fr: Frames, j: Json, kind: ParamType): Option<ParamValue> {
    if Tagged(j, "configRef") then DecodeConfigRef(j.fields)
    else match kind
      case TDouble =>
        var d := NumberIn(j);
        if d.Some? && d.value.Finite? then Some(DoubleV(d.value)) else None
      case TInt =>
        if !j.JInt? then None
        else
          var i := Wrap64(j.i);
          if -0x8000_0000 <= i < 0x8000_0000 then Some(IntV(i)) else None
      case TBool => if j.JBool? then Some(BoolV(j.b)) else None
      case TString => if j.JString? then Some(StringV(j.s)) else None
      case TElemRef => var r := DecodeRef(j); if r.Some? then Some(ElemRefV(r.value)) else None
      case TElemRefList =>
        if !j.JArray? then None
        else var rs := DecodeRefs(j.items); if rs.Some? then Some(ElemRefListV(rs.value)) else None
      case TConfigRef => None
      case _ => DecodePlace(fr, j, kind)
  }

  method DecodeRefList(items: seq<Json>) returns (r: Option<seq<ElementRef>>)
    ensures r == DecodeRefs(items)
  {
    var refs := [];
    for i := 0 to |items|
      invariant DecodeRefs(items[..i]) == Some(refs)
    {
      assert items[..i + 1][..i] == items[..i];
      var one := DecodeRef(items[i]);
      if one.None? {
        PrefixFails(items, i + 1);
        return None;
      }
      refs := refs + [one.value];
    }
    assert items[..|items|] == items;
    return Some(refs);
  }

  lemma {:induction false} PrefixFails(items: seq<Json>, i: nat)
    requires i <= |items| && DecodeRefs(items[..i]).None?
    ensures DecodeRefs(items).None?
  {
    hide DecodeRef;
    if i < |items| {
      assert items[..|items| - 1][..i] == items[..i];
      PrefixFails(items[..|items| - 1], i);
    } else {
      assert items[..i] == items;
    }
  }

  // ── The lenient decoder ────────────────────────────────

  /** value(name, default): the default when absent, None (an exception) when of another type. */
  function NumberOr(f: map<string, Json>, name: string, default: real): Option<Double> {
    if name !in f then Some(Finite(default)) else NumberIn(f[name])
  }

  function TextOr(f: map<string, Json>, name: string): Option<string> {
    if name !in f then Some("") else if f[name].JString? then Some(f[name].s) else None
  }

  function TripleOr(f: map<string, Json>, x: string, y: string, z: string, dx: real, dy: real, dz: real): Option<Triple> {
    var a, b, c := NumberOr(f, x, dx), NumberOr(f, y, dy), NumberOr(f, z, dz);
    if a.Some? && b.Some? && c.Some? then Some(Triple(a.value, b.value, c.value)) else None
  }

  function LenientRef(j: Json): Option<ElementRef> {
    if !j.JObject? then None
    else
      var a, b, c := TextOr(j.fields, "featureId"), TextOr(j.fields, "elementName"), TextOr(j.fields, "elementType");
      if a.Some? && b.Some? && c.Some? then Some(ElementRef(a.value, b.value, c.value)) else None
  }

  function LenientRefs(items: seq<Json>): Option<seq<ElementRef>> {
    if items == [] then Some([])
    else
      var before, last := LenientRefs(items[..|items| - 1]), LenientRef(items[|items| - 1]);
      if before.Some? && last.Some? then Some(before.value + [last.value]) else None
  }

  function LenientObject(fr: Frames, j: Json): Option<ParamValue>
    requires j.JObject?
  {
    var f := j.fields;
    var p := TripleOr(f, "px", "py", "pz", 0.0, 0.0, 0.0);
    var d := TripleOr(f, "dx", "dy", "dz", 0.0, 0.0, 1.0);
    var x := TripleOr(f, "xx", "xy", "xz", 1.0, 0.0, 0.0);
    var xyz := TripleOr(f, "x", "y", "z", 0.0, 0.0, 0.0);
    var dir := TripleOr(f, "x", "y", "z", 0.0, 1.0, 0.0);
    if Tagged(j, "point") then (if xyz.Some? then Some(PntV(xyz.value)) else None)
    else if Tagged(j, "vec") then (if xyz.Some? then Some(VecV(xyz.value)) else None)
    else if Tagged(j, "dir") then (if dir.Some? then Direction(fr, dir.value) else None)
    else if Tagged(j, "ax1") then (if p.Some? && d.Some? then Axis1(fr, p.value, d.value) else None)
    else if Tagged(j, "ax2") then (if p.Some? && d.Some? && x.Some? then Axis2(fr, p.value, d.value, x.value) else None)
    else if Tagged(j, "pln") then (if p.Some? && d.Some? then Plane(fr, p.value, d.value) else None)
    else if Tagged(j, "configRef") then
      var n := TextOr(f, "name"); if n.Some? then Some(ConfigRefV(n.value)) else None
    else if "featureId" in f then
      var r := LenientRef(j); if r.Some? then Some(ElemRefV(r.value)) else None
    else Some(StringV(""))
  }

  /** paramValueFromJson; None where it throws. */
  function DecodeLenient(fr: Frames, j: Json): Option<ParamValue> {
    match j
    case JFloat(d) => Some(DoubleV(d))
    case JInt(i) => Some(IntV(Wrap32(i)))
    case JBool(b) => Some(BoolV(b))
    case JString(s) => Some(StringV(s))
    case JObject(_) => LenientObject(fr, j)
    case JArray(items) =>
      if items != [] && items[0].JObject? && "featureId" in items[0].fields then
        var rs := LenientRefs(items); if rs.Some? then Some(ElemRefListV(rs.value)) else None
      else if |items| == 3 && NumberIn(items[0]).Some? then
        if NumberIn(items[1]).Some? && NumberIn(items[2]).Some?
        then Some(VecV(Triple(NumberIn(items[0]).value, NumberIn(items[1]).value, NumberIn(items[2]).value)))
        else None
      else Some(StringV(""))
    case JNull => Some(StringV(""))
  }

  // ── Round trips ────────────────────────────────────────

  /** A direction that normalisation leaves alone. */
  predicate IsUnit(fr: Frames, t: Triple) {
    fr.unit(t) == Some(t)
  }

  /** An x-direction that the frame constructor leaves alone. */
  predicate IsFrame(fr: Frames, axis: Triple, xdir: Triple) {
    var u := fr.unit(xdir);
    u.Some? && fr.xdir(axis, u.value) == Some(xdir)
  }

  predicate Substantial(t: Triple) {
    FiniteTriple(t) && !Vanishes(t)
  }

  predicate StorableDirection(fr: Frames, t: Triple) {
    Substantial(t) && IsUnit(fr, t)
  }

  predicate NamedRef(r: ElementRef) {
    r.featureId != ""
  }

  predicate AllNamed(rs: seq<ElementRef>) {
    forall i :: 0 <= i < |rs| ==> NamedRef(rs[i])
  }

  /** What can be stored in a slot of this declared type and read back. */
  predicate Storable(fr: Frames, v: ParamValue, kind: ParamType) {
    match v
    case ConfigRefV(n) => n != ""
    case _ =>
      TypeOf(v) == kind
      && match v
         case DoubleV(d) => d.Finite?
         case IntV(i) => -0x8000_0000 <= i < 0x8000_0000
         case VecV(t) => FiniteTriple(t)
         case PntV(t) => FiniteTriple(t)
         case DirV(t) => StorableDirection(fr, t)
         case Ax1V(loc, axis) => FiniteTriple(loc) && StorableDirection(fr, axis)
         case Ax2V(loc, axis, xdir) =>
           FiniteTriple(loc) && StorableDirection(fr, axis) && Substantial(xdir) && IsFrame(fr, axis, xdir)
         case PlnV(loc, axis, xdir) => FiniteTriple(loc) && StorableDirection(fr, axis) && xdir == fr.planeX(axis)
         case ElemRefV(r) => NamedRef(r)
         case ElemRefListV(rs) => AllNamed(rs)
         case _ => true
  }

  lemma {:induction false} TripleRead(tag: string, t: Triple)
    ensures var r := RequiredTriple(TripleFields(tag, t), "x", "y", "z");
            if FiniteTriple(t) then r == Some(t) else r.None?
  {
  }

  lemma {:induction false} AxisRead(tag: string, loc: Triple, axis: Triple)
    ensures var f := AxisFields(tag, loc, axis); var p, d := RequiredTriple(f, "px", "py", "pz"), RequiredTriple(f, "dx", "dy", "dz");
            (if FiniteTriple(loc) then p == Some(loc) else p.None?) && (if FiniteTriple(axis) then d == Some(axis) else d.None?)
  {
  }

  lemma {:induction false} FrameRead(loc: Triple, axis: Triple, xdir: Triple)
    ensures var f := AxisFields("ax2", loc, axis) + XDirFields(xdir);
            && RequiredTriple(f, "px", "py", "pz") == RequiredTriple(AxisFields("ax2", loc, axis), "px", "py", "pz")
            && RequiredTriple(f, "dx", "dy", "dz") == RequiredTriple(AxisFields("ax2", loc, axis), "dx", "dy", "dz")
            && (if FiniteTriple(xdir) then RequiredTriple(f, "xx", "xy", "xz") == Some(xdir) else RequiredTriple(f, "xx", "xy", "xz").None?)
            && f["type"] == JString("ax2")
  {
    var g, h := AxisFields("ax2", loc, axis), XDirFields(xdir);
    assert h.Keys == {"xx", "xy", "xz"};
    assert "px" !in h && "py" !in h && "pz" !in h && "dx" !in h && "dy" !in h && "dz" !in h && "type" !in h;
  }

  lemma {:induction false} RefRead(r: ElementRef)
    ensures DecodeRef(RefToJson(r)) == if NamedRef(r) then Some(r) else None
    ensures LenientRef(RefToJson(r)) == Some(r)
    ensures RefToJson(r).JObject? && "featureId" in RefToJson(r).fields && !exists tag :: Tagged(RefToJson(r), tag)
  {
    assert "type" !in RefToJson(r).fields;
  }

  function RefsToJson(rs: seq<ElementRef>): seq<Json> {
    seq(|rs|, i requires 0 <= i < |rs| => RefToJson(rs[i]))
  }

  lemma {:induction false} RefsReadStrictly(rs: seq<ElementRef>)
    ensures DecodeRefs(RefsToJson(rs)) == if AllNamed(rs) then Some(rs) else None
  {
    if rs != [] {
      var n := |rs| - 1;
      assert RefsToJson(rs)[..n] == RefsToJson(rs[..n]);
      RefsReadStrictly(rs[..n]);
      RefRead(rs[n]);
      hide NamedRef, DecodeRef, RefToJson;
      assert rs == rs[..n] + [rs[n]];
    }
  }

  lemma {:induction false} RefsReadLeniently(rs: seq<ElementRef>)
    ensures LenientRefs(RefsToJson(rs)) == Some(rs)
  {
    if rs != [] {
      var n := |rs| - 1;
      assert RefsToJson(rs)[..n] == RefsToJson(rs[..n]);
      RefsReadLeniently(rs[..n]);
      RefRead(rs[n]);
      hide LenientRef, RefToJson;
      assert rs == rs[..n] + [rs[n]];
    }
  }

  lemma {:induction false} SimpleRoundTrip(fr: Frames, v: ParamValue, kind: ParamType)
    requires v.DoubleV? || v.IntV? || v.BoolV? || v.StringV? || v.ElemRefV? || v.ElemRefListV? || v.ConfigRefV?
    ensures DecodeStrict(fr, ToJson(v), kind) == Some(v) <==> Storable(fr, v, kind)
  {
    hide DecodePlace, DecodeRef, RefToJson;
    PlaceKind(fr, ToJson(v), kind);
    if v.ElemRefV? { RefRead(v.ref); }
    if v.ElemRefListV? {
      RefsReadStrictly(v.refs);
      assert ToJson(v) == JArray(RefsToJson(v.refs));
    }
  }

  lemma {:induction false} PlaceKind(fr: Frames, j: Json, kind: ParamType)
    ensures DecodePlace(fr, j, kind).Some? ==> TypeOf(DecodePlace(fr, j, kind).value) == kind
    ensures DecodePlace(fr, j, kind).Some? ==> kind.TVec? || kind.TPnt? || kind.TDir? || kind.TAx1? || kind.TAx2? || kind.TPln?
  {
    hide RequiredTriple, Tagged, Vanishes;
  }

  lemma {:induction false} PlaceRoundTrip(fr: Frames, v: ParamValue)
    requires v.VecV? || v.PntV? || v.DirV? || v.Ax1V? || v.Ax2V? || v.PlnV?
    ensures DecodePlace(fr, ToJson(v), TypeOf(v)) == Some(v) <==> Storable(fr, v, TypeOf(v))
    ensures !Tagged(ToJson(v), "configRef")
  {
    hide RequiredTriple, Vanishes;
    match v
    case VecV(t) => TripleRead("vec", t);
    case PntV(t) => TripleRead("point", t);
    case DirV(t) => TripleRead("dir", t);
    case Ax1V(loc, axis) => AxisRead("ax1", loc, axis);
    case PlnV(loc, axis, _) => AxisRead("pln", loc, axis);
    case Ax2V(loc, axis, xdir) => AxisRead("ax2", loc, axis); FrameRead(loc, axis, xdir);
  }

  /** The strict decoder gives a stored value back exactly when the value is storable in that slot. */
  lemma {:induction false} StrictRoundTrip(fr: Frames, v: ParamValue, kind: ParamType)
    ensures DecodeStrict(fr, ToJson(v), kind) == Some(v) <==> Storable(fr, v, kind)
  {
    if v.VecV? || v.PntV? || v.DirV? || v.Ax1V? || v.Ax2V? || v.PlnV? {
      PlaceRoundTrip(fr, v);
      PlaceKind(fr, ToJson(v), kind);
      hide DecodePlace, ToJson, DecodeRef, DecodeRefs;
    } else {
      SimpleRoundTrip(fr, v, kind);
    }
  }

  /** What the lenient decoder gives back: everything but an empty list and what the geometry library rewrites. */
  predicate LenientlyStorable(fr: Frames, v: ParamValue) {
    match v
    case IntV(i) => -0x8000_0000 <= i < 0x8000_0000
    case DirV(t) => IsUnit(fr, t)
    case Ax1V(_, axis) => IsUnit(fr, axis)
    case Ax2V(_, axis, xdir) => IsUnit(fr, axis) && IsFrame(fr, axis, xdir)
    case PlnV(_, axis, xdir) => IsUnit(fr, axis) && xdir == fr.planeX(axis)
    case ElemRefListV(rs) => rs != []
    case _ => true
  }

  lemma {:induction false} LenientReads(tag: string, t: Triple, loc: Triple, axis: Triple, xdir: Triple)
    ensures TripleOr(TripleFields(tag, t), "x", "y", "z", 0.0, 0.0, 0.0) == Some(t)
    ensures TripleOr(TripleFields(tag, t), "x", "y", "z", 0.0, 1.0, 0.0) == Some(t)
    ensures TripleOr(AxisFields(tag, loc, axis), "px", "py", "pz", 0.0, 0.0, 0.0) == Some(loc)
    ensures TripleOr(AxisFields(tag, loc, axis), "dx", "dy", "dz", 0.0, 0.0, 1.0) == Some(axis)
    ensures var f := AxisFields("ax2", loc, axis) + XDirFields(xdir);
            && TripleOr(f, "px", "py", "pz", 0.0, 0.0, 0.0) == Some(loc)
            && TripleOr(f, "dx", "dy", "dz", 0.0, 0.0, 1.0) == Some(axis)
            && TripleOr(f, "xx", "xy", "xz", 1.0, 0.0, 0.0) == Some(xdir)
  {
    var h := XDirFields(xdir);
    assert h.Keys == {"xx", "xy", "xz"};
    assert "px" !in h && "py" !in h && "pz" !in h && "dx" !in h && "dy" !in h && "dz" !in h && "type" !in h;
  }

  /** The lenient decoder gives a stored value back exactly for these values. */
  lemma {:induction false} LenientRoundTrip(fr: Frames, v: ParamValue)
    ensures DecodeLenient(fr, ToJson(v)) == Some(v) <==> LenientlyStorable(fr, v)
  {
    match v
    case VecV(_) => LenientPoint(fr, v);
    case PntV(_) => LenientPoint(fr, v);
    case DirV(_) => LenientPoint(fr, v);
    case Ax1V(_, _) => LenientAxis(fr, v);
    case PlnV(_, _, _) => LenientAxis(fr, v);
    case Ax2V(loc, axis, xdir) => LenientFrame(fr, loc, axis, xdir);
    case ElemRefV(r) => RefRead(r);
    case ElemRefListV(rs) => LenientList(fr, rs);
    case _ =>
  }

  lemma {:induction false} LenientPoint(fr: Frames, v: ParamValue)
    requires v.VecV? || v.PntV? || v.DirV?
    ensures DecodeLenient(fr, ToJson(v)) == Some(v) <==> LenientlyStorable(fr, v)
  {
    hide TripleOr, Axis1, Axis2, Plane;
    var zero := Triple(NaN, NaN, NaN);
    match v
    case VecV(t) => LenientReads("vec", t, zero, zero, zero);
    case PntV(t) => LenientReads("point", t, zero, zero, zero);
    case DirV(t) => LenientReads("dir", t, zero, zero, zero);
  }

  lemma {:induction false} LenientAxis(fr: Frames, v: ParamValue)
    requires v.Ax1V? || v.PlnV?
    ensures DecodeLenient(fr, ToJson(v)) == Some(v) <==> LenientlyStorable(fr, v)
  {
    hide TripleOr, Direction, Axis2;
    var zero := Triple(NaN, NaN, NaN);
    match v
    case Ax1V(loc, axis) => LenientReads("ax1", zero, loc, axis, zero);
    case PlnV(loc, axis, _) => LenientReads("pln", zero, loc, axis, zero);
  }

  lemma {:induction false} LenientFrame(fr: Frames, loc: Triple, axis: Triple, xdir: Triple)
    ensures DecodeLenient(fr, ToJson(Ax2V(loc, axis, xdir))) == Some(Ax2V(loc, axis, xdir)) <==> LenientlyStorable(fr, Ax2V(loc, axis, xdir))
  {
    hide TripleOr, Direction, Axis1, Plane, LenientRef, NumberIn, RequiredTriple;
    var zero := Triple(NaN, NaN, NaN);
    LenientReads("ax2", zero, loc, axis, xdir);
    FrameRead(loc, axis, xdir);
    hide XDirFields;
  }

  lemma {:induction false} LenientList(fr: Frames, rs: seq<ElementRef>)
    ensures DecodeLenient(fr, ToJson(ElemRefListV(rs))) == if rs == [] then Some(StringV("")) else Some(ElemRefListV(rs))
  {
    RefsReadLeniently(rs);
    assert ToJson(ElemRefListV(rs)) == JArray(RefsToJson(rs));
    if rs != [] { RefRead(rs[0]); }
    hide RefToJson, LenientRefs;
  }

  /**
   Of the integers a JSON document can hold, the strict decoder accepts those of an int and those within 2^31 of
   2^64, which it takes for negative ones.
   */
  lemma {:induction false} StrictIntegerIff(fr: Frames, i: int)
    requires -TWO63 <= i < TWO64
    ensures DecodeStrict(fr, JInt(i), TInt)
            == if -0x8000_0000 <= i < 0x8000_0000 then Some(IntV(i))
               else if i >= TWO64 - 0x8000_0000 then Some(IntV(i - TWO64)) else None
  {
    assert Wrap64(i) == if i < TWO63 then i else i - TWO64;
    hide Wrap64;
  }
}
