/**
 Parameter values as JSON trees (src/feature/param_json.cpp), and the equality the merge uses on them.
 */
module ParamJson {
  import opened Wrappers
  import opened FeatureModel

  datatype Json =
    | JNull
    | JBool(b: bool)
    | JInt(i: int)
    | JFloat(d: Double)
    | JString(s: string)
    | JArray(items: seq<Json>)
    | JObject(fields: map<string, Json>)

  function TripleFields(tag: string, t: Triple): map<string, Json> {
    map["type" := JString(tag), "x" := JFloat(t.x), "y" := JFloat(t.y), "z" := JFloat(t.z)]
  }

  function AxisFields(tag: string, loc: Triple, axis: Triple): map<string, Json> {
    map["type" := JString(tag),
        "px" := JFloat(loc.x), "py" := JFloat(loc.y), "pz" := JFloat(loc.z),
        "dx" := JFloat(axis.x), "dy" := JFloat(axis.y), "dz" := JFloat(axis.z)]
  }

  function XDirFields(xdir: Triple): map<string, Json> {
    map["xx" := JFloat(xdir.x), "xy" := JFloat(xdir.y), "xz" := JFloat(xdir.z)]
  }

  function RefToJson(r: ElementRef): Json {
    JObject(map["featureId" := JString(r.featureId), "elementName" := JString(r.elementName), "elementType" := JString(r.elementType)])
  }

  /** paramValueToJson. The x-direction of a plane is not written. */
  function ToJson(v: ParamValue): Json {
    match v
    case DoubleV(d) => JFloat(d)
    case IntV(i) => JInt(i)
    case BoolV(b) => JBool(b)
    case StringV(s) => JString(s)
    case PntV(t) => JObject(TripleFields("point", t))
    case VecV(t) => JObject(TripleFields("vec", t))
    case DirV(t) => JObject(TripleFields("dir", t))
    case Ax1V(loc, axis) => JObject(AxisFields("ax1", loc, axis))
    case Ax2V(loc, axis, xdir) => JObject(AxisFields("ax2", loc, axis) + XDirFields(xdir))
    case PlnV(loc, axis, _) => JObject(AxisFields("pln", loc, axis))
    case ElemRefV(r) => RefToJson(r)
    case ElemRefListV(rs) => JArray(seq(|rs|, i requires 0 <= i < |rs| => RefToJson(rs[i])))
    case ConfigRefV(n) => JObject(map["type" := JString("configRef"), "name" := JString(n)])
  }

  /** Equality of doubles: NaN differs from itself. */
  predicate SameDouble(a: Double, b: Double) {
    a == b && !a.NaN?
  }

  /** The library's equality of JSON trees: an integer equals a float of the same value. */
  predicate JsonEqual(a: Json, b: Json) {
    match (a, b)
    case (JInt(i), JInt(j)) => i == j
    case (JFloat(x), JFloat(y)) => SameDouble(x, y)
    case (JInt(i), JFloat(y)) => y == Finite(i as real)
    case (JFloat(x), JInt(j)) => x == Finite(j as real)
    case (JArray(xs), JArray(ys)) => |xs| == |ys| && forall i :: 0 <= i < |xs| ==> JsonEqual(xs[i], ys[i])
    case (JObject(f), JObject(g)) => f.Keys == g.Keys && forall k :: k in f ==> JsonEqual(f[k], g[k])
    case (JNull, JNull) => true
    case (JBool(x), JBool(y)) => x == y
    case (JString(s), JString(t)) => s == t
    case (_, _) => false
  }

  /** paramValueEquals */
  predicate ValueEquals(a: ParamValue, b: ParamValue) {
    JsonEqual(ToJson(a), ToJson(b))
  }

  // ── A canonical form for that equality ─────────────────

  predicate NaNFree(t: Triple) {
    !t.x.NaN? && !t.y.NaN? && !t.z.NaN?
  }

  /** No NaN among the numbers that are written. */
  predicate Comparable(v: ParamValue) {
    match v
    case DoubleV(d) => !d.NaN?
    case VecV(t) => NaNFree(t)
    case PntV(t) => NaNFree(t)
    case DirV(t) => NaNFree(t)
    case Ax1V(loc, axis) => NaNFree(loc) && NaNFree(axis)
    case Ax2V(loc, axis, xdir) => NaNFree(loc) && NaNFree(axis) && NaNFree(xdir)
    case PlnV(loc, axis, _) => NaNFree(loc) && NaNFree(axis)
    case _ => true
  }

  /** The canonical representative of a value: integers as doubles, planes without their x-direction. */
  function Canon(v: ParamValue): ParamValue {
    match v
    case IntV(i) => DoubleV(Finite(i as real))
    case PlnV(loc, axis, _) => PlnV(loc, axis, Triple(Finite(0.0), Finite(0.0), Finite(0.0)))
    case _ => v
  }

  lemma {:induction false} TripleEqual(tag: string, tag': string, t: Triple, u: Triple)
    ensures JsonEqual(JObject(TripleFields(tag, t)), JObject(TripleFields(tag', u))) <==> tag == tag' && t == u && NaNFree(t)
  {
    var f, g := TripleFields(tag, t), TripleFields(tag', u);
    assert f.Keys == g.Keys == {"type", "x", "y", "z"};
    assert JsonEqual(JObject(f), JObject(g)) <==>
           JsonEqual(f["type"], g["type"]) && JsonEqual(f["x"], g["x"]) && JsonEqual(f["y"], g["y"]) && JsonEqual(f["z"], g["z"]);
  }

  lemma {:induction false} AxisEqual(tag: string, loc: Triple, axis: Triple, loc': Triple, axis': Triple)
    ensures JsonEqual(JObject(AxisFields(tag, loc, axis)), JObject(AxisFields(tag, loc', axis')))
            <==> loc == loc' && axis == axis' && NaNFree(loc) && NaNFree(axis)
  {
    var f, g := AxisFields(tag, loc, axis), AxisFields(tag, loc', axis');
    assert f.Keys == g.Keys == {"type", "px", "py", "pz", "dx", "dy", "dz"};
    assert JsonEqual(JObject(f), JObject(g)) <==>
           JsonEqual(f["type"], g["type"])
           && JsonEqual(f["px"], g["px"]) && JsonEqual(f["py"], g["py"]) && JsonEqual(f["pz"], g["pz"])
           && JsonEqual(f["dx"], g["dx"]) && JsonEqual(f["dy"], g["dy"]) && JsonEqual(f["dz"], g["dz"]);
  }

  lemma {:induction false} XDirEqual(x: Triple, x': Triple)
    ensures (forall k :: k in XDirFields(x) ==> JsonEqual(XDirFields(x)[k], XDirFields(x')[k])) <==> x == x' && NaNFree(x)
  {
    var h, h' := XDirFields(x), XDirFields(x');
    assert (forall k :: k in h ==> JsonEqual(h[k], h'[k])) <==>
           JsonEqual(h["xx"], h'["xx"]) && JsonEqual(h["xy"], h'["xy"]) && JsonEqual(h["xz"], h'["xz"]);
  }

  lemma {:induction false} FrameEqual(loc: Triple, axis: Triple, x: Triple, loc': Triple, axis': Triple, x': Triple)
    ensures JsonEqual(ToJson(Ax2V(loc, axis, x)), ToJson(Ax2V(loc', axis', x')))
            <==> loc == loc' && axis == axis' && x == x' && NaNFree(loc) && NaNFree(axis) && NaNFree(x)
  {
    var f, g := AxisFields("ax2", loc, axis), AxisFields("ax2", loc', axis');
    var h, h' := XDirFields(x), XDirFields(x');
    assert ToJson(Ax2V(loc, axis, x)) == JObject(f + h) && ToJson(Ax2V(loc', axis', x')) == JObject(g + h');
    hide *;
    FieldNames("ax2", loc, axis, x);
    FieldNames("ax2", loc', axis', x');
    AxisEqual("ax2", loc, axis, loc', axis');
    XDirEqual(x, x');
    UnionEqual(f, g, h, h');
  }

  lemma {:induction false} FieldNames(tag: string, loc: Triple, axis: Triple, x: Triple)
    ensures AxisFields(tag, loc, axis).Keys == {"type", "px", "py", "pz", "dx", "dy", "dz"}
    ensures XDirFields(x).Keys == {"xx", "xy", "xz"}
  {
  }

  lemma {:induction false} UnionEqual(f: map<string, Json>, g: map<string, Json>, h: map<string, Json>, h': map<string, Json>)
    requires f.Keys == g.Keys && h.Keys == h'.Keys && f.Keys !! h.Keys
    ensures JsonEqual(JObject(f + h), JObject(g + h'))
            <==> JsonEqual(JObject(f), JObject(g)) && (forall k :: k in h ==> JsonEqual(h[k], h'[k]))
  {
    assert forall k :: k in f ==> (f + h)[k] == f[k] && (g + h')[k] == g[k];
    assert forall k :: k in h ==> (f + h)[k] == h[k] && (g + h')[k] == h'[k];
  }

  lemma {:induction false} RefEqual(r: ElementRef, q: ElementRef)
    ensures JsonEqual(RefToJson(r), RefToJson(q)) <==> r == q
  {
    var f, g := RefToJson(r).fields, RefToJson(q).fields;
    assert f.Keys == g.Keys == {"featureId", "elementName", "elementType"};
    assert JsonEqual(JObject(f), JObject(g)) <==>
           JsonEqual(f["featureId"], g["featureId"]) && JsonEqual(f["elementName"], g["elementName"]) && JsonEqual(f["elementType"], g["elementType"]);
  }

  lemma {:induction false} RefListEqual(rs: seq<ElementRef>, qs: seq<ElementRef>)
    ensures JsonEqual(ToJson(ElemRefListV(rs)), ToJson(ElemRefListV(qs))) <==> rs == qs
  {
    var xs, ys := ToJson(ElemRefListV(rs)).items, ToJson(ElemRefListV(qs)).items;
    if |rs| == |qs| {
      forall i | 0 <= i < |rs| ensures JsonEqual(xs[i], ys[i]) <==> rs[i] == qs[i] { RefEqual(rs[i], qs[i]); }
    }
  }

  lemma {:induction false} ConfigRefEqual(a: string, b: string)
    ensures JsonEqual(ToJson(ConfigRefV(a)), ToJson(ConfigRefV(b))) <==> a == b
  {
    var f, g := ToJson(ConfigRefV(a)).fields, ToJson(ConfigRefV(b)).fields;
    assert f.Keys == g.Keys == {"type", "name"};
    assert JsonEqual(JObject(f), JObject(g)) <==> JsonEqual(f["type"], g["type"]) && JsonEqual(f["name"], g["name"]);
  }

  /** The tag an object is written with; an element reference has none. */
  function Tag(v: ParamValue): string {
    match v
    case PntV(_) => "point"
    case VecV(_) => "vec"
    case DirV(_) => "dir"
    case Ax1V(_, _) => "ax1"
    case Ax2V(_, _, _) => "ax2"
    case PlnV(_, _, _) => "pln"
    case ConfigRefV(_) => "configRef"
    case _ => ""
  }

  predicate WrittenAsObject(v: ParamValue) {
    v.PntV? || v.VecV? || v.DirV? || v.Ax1V? || v.Ax2V? || v.PlnV? || v.ElemRefV? || v.ConfigRefV?
  }

  lemma {:induction false} TagWritten(v: ParamValue)
    requires WrittenAsObject(v)
    ensures ToJson(v).JObject?
    ensures var f := ToJson(v).fields; if v.ElemRefV? then "type" !in f else "type" in f && f["type"] == JString(Tag(v))
  {
  }

  lemma {:induction false} FieldDiffers(f: map<string, Json>, g: map<string, Json>, key: string)
    requires key in f && (key !in g || (f[key].JString? && g[key].JString? && f[key] != g[key]))
    ensures !JsonEqual(JObject(f), JObject(g)) && !JsonEqual(JObject(g), JObject(f))
  {
    if key in g { assert !JsonEqual(f[key], g[key]) && !JsonEqual(g[key], f[key]); }
  }

  lemma {:induction false} ObjectsDiffer(a: ParamValue, b: ParamValue)
    requires WrittenAsObject(a) && WrittenAsObject(b) && TypeOf(a) != TypeOf(b)
    ensures !ValueEquals(a, b)
  {
    TagWritten(a);
    TagWritten(b);
    assert a.ElemRefV? || b.ElemRefV? || Tag(a) != Tag(b);
    assert !a.ElemRefV? || !b.ElemRefV?;
    hide ToJson, WrittenAsObject, TypeOf, Tag, JsonEqual;
    if a.ElemRefV? {
      FieldDiffers(ToJson(b).fields, ToJson(a).fields, "type");
    } else {
      FieldDiffers(ToJson(a).fields, ToJson(b).fields, "type");
    }
  }

  lemma {:induction false} DifferentKinds(a: ParamValue, b: ParamValue)
    requires TypeOf(Canon(a)) != TypeOf(Canon(b))
    ensures !ValueEquals(a, b)
  {
    if WrittenAsObject(a) && WrittenAsObject(b) { ObjectsDiffer(a, b); }
  }

  /** The equality used by the merge is equality of canonical forms, for values without NaN. */
  lemma {:induction false} ValueEqualsIsCanonical(a: ParamValue, b: ParamValue)
    ensures ValueEquals(a, b) <==> Comparable(a) && Canon(a) == Canon(b)
  {
    if TypeOf(Canon(a)) != TypeOf(Canon(b)) {
      DifferentKinds(a, b);
    } else {
      match (a, b)
      case (VecV(t), VecV(u)) => TripleEqual("vec", "vec", t, u);
      case (PntV(t), PntV(u)) => TripleEqual("point", "point", t, u);
      case (DirV(t), DirV(u)) => TripleEqual("dir", "dir", t, u);
      case (Ax1V(l, x), Ax1V(l', x')) => AxisEqual("ax1", l, x, l', x');
      case (Ax2V(l, x, d), Ax2V(l', x', d')) => FrameEqual(l, x, d, l', x', d');
      case (PlnV(l, x, _), PlnV(l', x', _)) => AxisEqual("pln", l, x, l', x');
      case (ElemRefV(r), ElemRefV(q)) => RefEqual(r, q);
      case (ElemRefListV(rs), ElemRefListV(qs)) => RefListEqual(rs, qs);
      case (ConfigRefV(m), ConfigRefV(n)) => ConfigRefEqual(m, n);
      case (_, _) =>
    }
  }
}
