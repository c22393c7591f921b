/**
 What is read from documents this kernel did not write (src/core/schema.cpp, src/feature/param_json.cpp,
 src/feature/workspace.cpp): version texts, workspace headers, and what stands for what is missing.
 */
module LoadingLaws {
  import opened Wrappers
  import opened FeatureModel
  import T = TagAllocation
  import opened ParamJson
  import opened ParamDecoding
  import opened SchemaVersions
  import S = SchemaRegistries
  import opened WorkspaceJson
  import opened TreeState
  import opened EditingLaws
  import opened SchemaLaws

  // ── Version texts ──────────────────────────────────────

  function Joined(parts: seq<string>): string
    requires parts != []
  {
    if |parts| == 1 then parts[0] else parts[0] + "." + Joined(parts[1..])
  }

  lemma {:induction false} SegmentsJoin(s: string)
    ensures Joined(Segments(s)) == s
  {
    var k := FirstDot(s);
    if k < |s| {
      SegmentsJoin(s[k + 1..]);
      assert Segments(s)[1..] == Segments(s[k + 1..]);
      assert s == s[..k] + "." + s[k + 1..];
    }
  }

  /** The text is a decimal number, of digits only, that fits an int. */
  ghost predicate Reads(s: string, i: T.Int32) {
    s != "" && AllDigits(s) && DecimalValue(s) == i
  }

  lemma {:induction false} NumberIff(s: string, i: T.Int32)
    ensures Number(s) == Some(i) <==> Reads(s, i)
    ensures Reads(s, i) ==> '.' !in s
  {
  }

  /** The value of a text of digits: ten times that of all but the last, and the last. */
  lemma {:induction false} DecimalPlaces(s: string, c: char)
    requires AllDigits(s) && '0' <= c <= '9'
    ensures AllDigits(s + [c]) && DecimalValue(s + [c]) == 10 * DecimalValue(s) + (c - '0') as int
  {
    assert (s + [c])[..|s|] == s;
  }

  lemma {:induction false} JoinedThree(a: string, b: string, c: string)
    ensures Joined([a, b, c]) == a + "." + b + "." + c
  {
    assert [a, b, c][1..] == [b, c] && [b, c][1..] == [c];
    assert Joined([b, c]) == b + "." + c;
    assert a + "." + (b + "." + c) == a + "." + b + "." + c;
  }

  lemma {:induction false} ParsedParts(s: string, v: Version)
    ensures Parse(s) == Some(v)
            <==> var parts := Segments(s);
                 |parts| == 3 && Number(parts[0]) == Some(v.major) && Number(parts[1]) == Some(v.minor) && Number(parts[2]) == Some(v.patch)
  {
    hide Segments, Number;
  }

  /** A version is read exactly from three decimal numbers between two dots; leading zeros are allowed, signs are not. */
  lemma {:induction false} ParseIff(s: string, v: Version)
    ensures Parse(s) == Some(v)
            <==> exists a, b, c :: s == a + "." + b + "." + c && Reads(a, v.major) && Reads(b, v.minor) && Reads(c, v.patch)
  {
    var parts := Segments(s);
    ParsedParts(s, v);
    hide Parse, Segments, Number, Reads;
    if |parts| == 3 {
      SegmentsJoin(s);
      assert parts == [parts[0], parts[1], parts[2]];
      JoinedThree(parts[0], parts[1], parts[2]);
      NumberIff(parts[0], v.major);
      NumberIff(parts[1], v.minor);
      NumberIff(parts[2], v.patch);
    }
    hide Joined;
    if a, b, c :| s == a + "." + b + "." + c && Reads(a, v.major) && Reads(b, v.minor) && Reads(c, v.patch) {
      NumberIff(a, v.major);
      NumberIff(b, v.minor);
      NumberIff(c, v.patch);
      SegmentsOfThree(a, b, c);
    }
  }

  // ── Workspace headers ──────────────────────────────────

  lemma {:induction false} WorkspaceLoads(v: Version)
    ensures Builtins().CanLoad(WORKSPACE_TYPE, v) <==> v.major == 1 && v.minor <= 0
  {
    var r, goal := Builtins(), Version(1, 0, 0);
    assert S.CURRENT_VERSIONS["oreo.workspace"] == goal;
    assert "oreo.workspace"[5] != "oreo.feature_tree"[5] && "oreo.workspace"[5] != "oreo.part_studio"[5];
    assert S.Scan(r.migrations, "oreo.workspace", v) < 0 by {
      assert r.migrations[0].kind == "oreo.feature_tree" && r.migrations[1].kind == "oreo.part_studio";
    }
    hide S.Scan, S.VersionBump, Version.ToString;
    if v != goal { assert S.Walk(r.migrations, "oreo.workspace", v, goal, {}, 256) == S.Stuck; }
  }

  /** A workspace is accepted without any header, under its bare type, and under its type at major 1 without a minor. */
  lemma {:induction false} WorkspaceHeaderIff(doc: Json)
    requires doc.JObject?
    ensures HeaderAccepted(doc)
            <==> var f := doc.fields;
                 || ("_schema" !in f && "_version" !in f)
                 || ("_schema" in f && "_version" !in f && f["_schema"] == JString("oreo.workspace"))
                 || (exists v: Version :: S.ReadHeader(doc) == Ok(S.Header("oreo.workspace", v)) && v.major == 1 && v.minor <= 0)
  {
    var h := S.ReadHeader(doc);
    if h.Ok? {
      WorkspaceLoads(h.value.version);
      assert "_schema" in doc.fields && "_version" in doc.fields;
      assert h == Ok(S.Header(h.value.kind, h.value.version));
    }
    hide S.ReadHeader, S.Registry.CanLoad, Builtins;
  }

  // ── Defaults ───────────────────────────────────────────

  /** The empty object is an empty workspace without a rollback. */
  lemma {:induction false} EmptyDocument(fr: Frames)
    ensures FromDocument(fr, JObject(map[])) == Some(State("", "", [], -1, [], -1))
  {
  }

  /** A feature needs an id and a type, both not empty; without more it has no parameters and is not suppressed. */
  lemma {:induction false} BareFeature(fr: Frames, id: string, kind: string)
    ensures DecodeFeature(fr, JObject(map["id" := JString(id), "type" := JString(kind)]))
            == if id == "" || kind == "" then None else Some(Feature(id, kind, map[], false, NotExecuted, ""))
    ensures DecodeFeature(fr, JObject(map["id" := JString(id)])) == None
    ensures DecodeFeature(fr, JObject(map["type" := JString(kind)])) == None
  {
  }

  function Point(x: real, y: real, z: real): Triple {
    Triple(Finite(x), Finite(y), Finite(z))
  }

  function Bare(tag: string): Json {
    JObject(map["type" := JString(tag)])
  }

  lemma {:induction false} BareFields(tag: string)
    ensures var f := Bare(tag).fields; f.Keys == {"type"} && f["type"] == JString(tag)
    ensures forall other :: Tagged(Bare(tag), other) <==> tag == other
    ensures "featureId" !in Bare(tag).fields && "name" !in Bare(tag).fields
  {
  }

  lemma {:induction false} BareTriples(tag: string)
    ensures var f := Bare(tag).fields;
            && TripleOr(f, "px", "py", "pz", 0.0, 0.0, 0.0) == Some(Point(0.0, 0.0, 0.0))
            && TripleOr(f, "dx", "dy", "dz", 0.0, 0.0, 1.0) == Some(Point(0.0, 0.0, 1.0))
            && TripleOr(f, "xx", "xy", "xz", 1.0, 0.0, 0.0) == Some(Point(1.0, 0.0, 0.0))
            && TripleOr(f, "x", "y", "z", 0.0, 0.0, 0.0) == Some(Point(0.0, 0.0, 0.0))
            && TripleOr(f, "x", "y", "z", 0.0, 1.0, 0.0) == Some(Point(0.0, 1.0, 0.0))
  {
    BareFields(tag);
    hide Bare;
  }

  /** Missing coordinates: points and vectors at the origin, directions up the y axis, axes and planes up z, frames along x. */
  lemma {:induction false} BareValue(fr: Frames, tag: string)
    ensures DecodeLenient(fr, Bare(tag))
            == if tag == "point" then Some(PntV(Point(0.0, 0.0, 0.0)))
               else if tag == "vec" then Some(VecV(Point(0.0, 0.0, 0.0)))
               else if tag == "dir" then Direction(fr, Point(0.0, 1.0, 0.0))
               else if tag == "ax1" then Axis1(fr, Point(0.0, 0.0, 0.0), Point(0.0, 0.0, 1.0))
               else if tag == "ax2" then Axis2(fr, Point(0.0, 0.0, 0.0), Point(0.0, 0.0, 1.0), Point(1.0, 0.0, 0.0))
               else if tag == "pln" then Plane(fr, Point(0.0, 0.0, 0.0), Point(0.0, 0.0, 1.0))
               else if tag == "configRef" then Some(ConfigRefV(""))
               else Some(StringV(""))
  {
    BareFields(tag);
    BareTriples(tag);
    assert Bare(tag).JObject?;
    hide Bare, Tagged, TripleOr, Point, Direction, Axis1, Axis2, Plane;
  }

  /** What is no value at all is read as the empty string, and a partial reference with empty names. */
  lemma {:induction false} StrayValues(fr: Frames, id: string)
    ensures DecodeLenient(fr, JNull) == DecodeLenient(fr, JArray([])) == DecodeLenient(fr, JObject(map[])) == Some(StringV(""))
    ensures DecodeLenient(fr, JObject(map["featureId" := JString(id)])) == Some(ElemRefV(ElementRef(id, "", "")))
  {
  }

  // ── What the strict decoder lets through ───────────────

  /** Finite numbers where the document gives them, and references to some feature. */
  predicate Sane(v: ParamValue) {
    match v
    case DoubleV(d) => d.Finite?
    case VecV(t) => FiniteTriple(t)
    case PntV(t) => FiniteTriple(t)
    case Ax1V(loc, _) => FiniteTriple(loc)
    case Ax2V(loc, _, _) => FiniteTriple(loc)
    case PlnV(loc, _, _) => FiniteTriple(loc)
    case ElemRefV(r) => r.featureId != ""
    case ElemRefListV(rs) => forall i :: 0 <= i < |rs| ==> rs[i].featureId != ""
    case ConfigRefV(n) => n != ""
    case _ => true
  }

  lemma {:induction false} RefsNamed(items: seq<Json>)
    ensures DecodeRefs(items).Some? ==> forall i :: 0 <= i < |DecodeRefs(items).value| ==> DecodeRefs(items).value[i].featureId != ""
  {
    if items != [] { RefsNamed(items[..|items| - 1]); }
  }

  /** What it returns has the declared type, or is a placeholder with a name; numbers are finite and references name a feature. */
  lemma {:induction false} StrictYields(fr: Frames, j: Json, kind: ParamType)
    requires DecodeStrict(fr, j, kind).Some?
    ensures var v := DecodeStrict(fr, j, kind).value; Sane(v) && (v.ConfigRefV? || TypeOf(v) == kind)
  {
    if kind == TElemRefList && j.JArray? { RefsNamed(j.items); }
    hide RequiredTriple, Vanishes;
  }

  // ── What is read, field by field ───────────────────────

  /** The field is this text, or missing where the text is empty. */
  predicate TextIs(f: map<string, Json>, name: string, s: string) {
    if name in f then f[name] == JString(s) else s == ""
  }

  lemma {:induction false} TextReadIff(f: map<string, Json>, name: string, s: string)
    ensures TextOr(f, name) == Some(s) <==> TextIs(f, name, s)
  {
  }

  /** The field is this flag, or missing where the flag is not set. */
  predicate FlagIs(f: map<string, Json>, name: string, b: bool) {
    if name in f then f[name] == JBool(b) else !b
  }

  /** Every parameter is read by its declared type, or leniently where none is declared; anything but an object holds none. */
  predicate ParamsAre(fr: Frames, f: map<string, Json>, kind: string, params: map<string, ParamValue>) {
    if "params" in f && f["params"].JObject? then
      && params.Keys == f["params"].fields.Keys
      && forall p :: p in params ==> DecodeParam(fr, kind, p, f["params"].fields[p]) == Some(params[p])
    else params == map[]
  }

  lemma {:induction false} ParamsReadIff(fr: Frames, kind: string, fields: map<string, Json>, params: map<string, ParamValue>)
    ensures DecodeParams(fr, kind, fields) == Some(params)
            <==> params.Keys == fields.Keys && forall p :: p in params ==> DecodeParam(fr, kind, p, fields[p]) == Some(params[p])
  {
    hide DecodeParam;
    if params.Keys == fields.Keys && (forall p :: p in params ==> DecodeParam(fr, kind, p, fields[p]) == Some(params[p])) {
      assert forall p :: p in fields ==> p in params;
      assert DecodeParams(fr, kind, fields).value == params;
    }
  }

  /** A feature is read exactly from an object with its non-empty id and type, its flag and its parameters; it has not been executed. */
  lemma {:induction false} FeatureReadIff(fr: Frames, j: Json, g: Feature)
    ensures DecodeFeature(fr, j) == Some(g)
            <==> && j.JObject? && g.id != "" && g.kind != ""
                 && TextIs(j.fields, "id", g.id) && TextIs(j.fields, "type", g.kind) && FlagIs(j.fields, "suppressed", g.suppressed)
                 && ParamsAre(fr, j.fields, g.kind, g.params) && g.status == NotExecuted && g.errorMessage == ""
  {
    if j.JObject? {
      var f := j.fields;
      TextReadIff(f, "id", g.id);
      TextReadIff(f, "type", g.kind);
      assert FlagOr(f, "suppressed") == Some(g.suppressed) <==> FlagIs(f, "suppressed", g.suppressed);
      if "params" in f && f["params"].JObject? { ParamsReadIff(fr, g.kind, f["params"].fields, g.params); }
    }
    hide TextOr, TextIs, FlagOr, FlagIs, DecodeParams, DecodeParam;
  }

  /** A list of features is read exactly when each is, under pairwise different ids. */
  lemma {:induction false} FeaturesReadIff(fr: Frames, items: seq<Json>, fs: seq<Feature>)
    ensures DecodeFeatures(fr, items) == Some(fs)
            <==> |fs| == |items| && (forall i :: 0 <= i < |fs| ==> DecodeFeature(fr, items[i]) == Some(fs[i])) && Distinct(Ids(fs))
    decreases |items|
  {
    hide DecodeFeature;
    if items == [] {
      assert DecodeFeatures(fr, items) == Some([]);
    } else if |fs| == |items| {
      var n := |items| - 1;
      FeaturesReadIff(fr, items[..n], fs[..n]);
      DistinctSplit(fs);
      assert fs == fs[..n] + [fs[n]];
      LastRead(fr, items, fs);
    } else if DecodeFeatures(fr, items) == Some(fs) {
      LengthRead(fr, items);
    }
  }

  lemma {:induction false} LengthRead(fr: Frames, items: seq<Json>)
    ensures DecodeFeatures(fr, items).Some? ==> |DecodeFeatures(fr, items).value| == |items|
  {
    hide DecodeFeature;
    if items != [] { LengthRead(fr, items[..|items| - 1]); }
  }

  lemma {:induction false} LastRead(fr: Frames, items: seq<Json>, fs: seq<Feature>)
    requires items != [] && |fs| == |items|
    ensures var n := |items| - 1;
            DecodeFeatures(fr, items) == Some(fs)
            <==> DecodeFeatures(fr, items[..n]) == Some(fs[..n]) && DecodeFeature(fr, items[n]) == Some(fs[n]) && fs[n].id !in Ids(fs[..n])
  {
    var n := |items| - 1;
    hide DecodeFeature;
    LengthRead(fr, items[..n]);
    assert fs == fs[..n] + [fs[n]];
  }

  /** The whole number next to x on the side of zero. */
  predicate TowardZero(x: real, n: int) {
    if x >= 0.0 then n as real <= x < n as real + 1.0 && n >= 0 else n as real - 1.0 < x <= n as real && n <= 0
  }

  /** The field is this index: an integer or the whole part of a number, up to a multiple of 2^32, a flag, or missing for -1. */
  ghost predicate IndexIs(f: map<string, Json>, name: string, i: T.Int32) {
    if name !in f then i == -1
    else match f[name]
      case JInt(x) => exists k: int :: x == i + k * T.TWO32
      case JFloat(Finite(x)) => exists k: int :: TowardZero(x, i + k * T.TWO32)
      case JBool(b) => i == if b then 1 else 0
      case _ => false
  }

  lemma {:induction false} TruncatedIs(x: real, n: int)
    ensures Truncated(x) == n <==> TowardZero(x, n)
  {
  }

  lemma {:induction false} IndexReadIff(f: map<string, Json>, name: string, i: T.Int32)
    ensures IndexOr(f, name) == Some(i) <==> IndexIs(f, name, i)
  {
    if name in f {
      match f[name]
      case JInt(x) => WrapMeans(x, i);
      case JFloat(Finite(x)) =>
        WrapMeans(Truncated(x), i);
        forall k: int ensures TowardZero(x, i + k * T.TWO32) <==> Truncated(x) == i + k * T.TWO32 { TruncatedIs(x, i + k * T.TWO32); }
        hide TowardZero, Truncated;
      case _ =>
    }
    hide T.Wrap32;
  }

  /** A list of features in a field, or none where it is missing. */
  predicate ListIs(fr: Frames, f: map<string, Json>, name: string, fs: seq<Feature>) {
    if name in f then f[name].JArray? && DecodeFeatures(fr, f[name].items) == Some(fs) else fs == []
  }

  /** The marker is the nearest of -1..n-1 to the index written; without features it is not read. */
  ghost predicate MarkerIs(f: map<string, Json>, n: nat, marker: int) {
    if "features" in f then exists i: T.Int32 :: IndexIs(f, "rollbackIndex", i) && Nearest(i + 1, n + 1, marker + 1) else marker == -1
  }

  /** A workspace is read exactly from an object with an accepted header and its fields, each with its default where it is missing. */
  lemma {:induction false} DocumentReadIff(fr: Frames, doc: Json, w: State)
    ensures FromDocument(fr, doc) == Some(w)
            <==> && doc.JObject? && HeaderAccepted(doc)
                 && TextIs(doc.fields, "name", w.name) && TextIs(doc.fields, "parentName", w.parentName)
                 && ListIs(fr, doc.fields, "features", w.features) && MarkerIs(doc.fields, |w.features|, w.rollbackIndex)
                 && ListIs(fr, doc.fields, "baseSnapshot", w.baseSnapshot)
                 && -0x8000_0000 <= w.baseRollbackIndex < 0x8000_0000 && IndexIs(doc.fields, "baseRollbackIndex", w.baseRollbackIndex)
  {
    if doc.JObject? && HeaderAccepted(doc) {
      var f := doc.fields;
      TextReadIff(f, "name", w.name);
      TextReadIff(f, "parentName", w.parentName);
      if "features" in f || w.features == [] { MarkerReadIff(f, |w.features|, w.rollbackIndex); }
      if -0x8000_0000 <= w.baseRollbackIndex < 0x8000_0000 { IndexReadIff(f, "baseRollbackIndex", w.baseRollbackIndex); }
      hide HeaderAccepted, TextOr, TextIs, IndexOr, IndexIs, DecodeFeatures, MarkerIs;
    }
  }

  lemma {:induction false} MarkerReadIff(f: map<string, Json>, n: nat, marker: int)
    requires "features" !in f ==> n == 0
    ensures MarkerIs(f, n, marker)
            <==> var r := if "features" in f then IndexOr(f, "rollbackIndex") else Some(-1); r.Some? && marker == Clamp(-1, r.value, n - 1)
  {
    forall i: T.Int32 ensures IndexOr(f, "rollbackIndex") == Some(i) <==> IndexIs(f, "rollbackIndex", i) { IndexReadIff(f, "rollbackIndex", i); }
    hide IndexOr, IndexIs;
  }
}
