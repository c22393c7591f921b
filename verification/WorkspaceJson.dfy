/**
 Workspaces as JSON trees (src/feature/workspace.cpp): what is written, what is read back, and exactly which
 workspaces survive the round trip.
 */
module WorkspaceJson {
  import opened Wrappers
  import opened FeatureModel
  import opened TagAllocation
  import opened TreeState
  import opened ParamJson
  import opened ParamDecoding
  import opened SchemaVersions
  import S = SchemaRegistries
  import F = FeatureSchemas

  datatype State = State(
    name: string,
    parentName: string,
    features: seq<Feature>,
    rollbackIndex: int,
    baseSnapshot: seq<Feature>,
    baseRollbackIndex: int)

  // ── Writing ────────────────────────────────────────────

  function ParamsToJson(params: map<string, ParamValue>): map<string, Json> {
    map p | p in params :: ToJson(params[p])
  }

  function FeatureToJson(f: Feature): Json {
    JObject(map["id" := JString(f.id), "type" := JString(f.kind), "suppressed" := JBool(f.suppressed),
                "params" := JObject(ParamsToJson(f.params))])
  }

  /** featuresToJson */
  function FeaturesToJson(fs: seq<Feature>): seq<Json> {
    seq(|fs|, i requires 0 <= i < |fs| => FeatureToJson(fs[i]))
  }

  const WORKSPACE_TYPE: string := "oreo.workspace"
  const KERNEL_VERSION: string := "0.9.0"

  /** toJSON */
  function ToDocument(w: State, documentId: Word64): Json {
    JObject(map["_schema" := JString(WORKSPACE_TYPE),
                "_version" := S.VersionToJson(Version(1, 0, 0)),
                "_kernelVersion" := JString(KERNEL_VERSION),
                "name" := JString(w.name),
                "parentName" := JString(w.parentName),
                "documentId" := JString(Decimal(documentId)),
                "features" := JArray(FeaturesToJson(w.features)),
                "rollbackIndex" := JInt(w.rollbackIndex),
                "baseSnapshot" := JArray(FeaturesToJson(w.baseSnapshot)),
                "baseRollbackIndex" := JInt(w.baseRollbackIndex)])
  }

  // ── Reading ────────────────────────────────────────────

  function FindParam(specs: seq<F.ParamSpec>, name: string): Option<F.ParamSpec> {
    if specs == [] then None else if specs[0].name == name then Some(specs[0]) else FindParam(specs[1..], name)
  }

  /** The type a feature's schema declares for a parameter; None for unknown features and parameters. */
  function DeclaredType(kind: string, name: string): Option<ParamType> {
    var op := F.Registered(kind);
    if op.None? then None
    else
      var s := FindParam(F.SpecsOf(op.value), name);
      if s.None? then None else Some(s.value.kind)
  }

  function DecodeParam(fr: Frames, kind: string, name: string, j: Json): Option<ParamValue> {
    var declared := DeclaredType(kind, name);
    if declared.Some? then DecodeStrict(fr, j, declared.value) else DecodeLenient(fr, j)
  }

  function DecodeParams(fr: Frames, kind: string, fields: map<string, Json>): Option<map<string, ParamValue>> {
    if forall p :: p in fields ==> DecodeParam(fr, kind, p, fields[p]).Some?
    then Some(map p | p in fields :: DecodeParam(fr, kind, p, fields[p]).value)
    else None
  }

  function FlagOr(f: map<string, Json>, name: string): Option<bool> {
    if name !in f then Some(false) else if f[name].JBool? then Some(f[name].b) else None
  }

  /** Truncation toward zero. */
  function Truncated(x: real): int {
    if x >= 0.0 then x.Floor else -((-x).Floor)
  }

  /** value(name, -1) as an int: integers and floats are truncated to it, other types throw. */
  function IndexOr(f: map<string, Json>, name: string): Option<Int32> {
    if name !in f then Some(-1)
    else match f[name]
      case JInt(i) => Some(Wrap32(i))
      case JFloat(d) => if d.Finite? then Some(Wrap32(Truncated(d.value))) else None
      case JBool(b) => Some(if b then 1 else 0)
      case _ => None
  }

  function DecodeFeature(fr: Frames, j: Json): Option<Feature> {
    if !j.JObject? then None
    else
      var f := j.fields;
      var id, kind, suppressed := TextOr(f, "id"), TextOr(f, "type"), FlagOr(f, "suppressed");
      if id.None? || kind.None? || suppressed.None? || id.value == "" || kind.value == "" then None
      else
        var params := if "params" in f && f["params"].JObject? then DecodeParams(fr, kind.value, f["params"].fields) else Some(map[]);
        if params.None? then None
        else Some(Feature(id.value, kind.value, params.value, suppressed.value, NotExecuted, ""))
  }

  /** featuresFromJson: stops at the first malformed or repeated feature. */
  function DecodeFeatures(fr: Frames, items: seq<Json>): Option<seq<Feature>> {
    if items == [] then Some([])
    else
      var before, last := DecodeFeatures(fr, items[..|items| - 1]), DecodeFeature(fr, items[|items| - 1]);
      if before.None? || last.None? || last.value.id in Ids(before.value) then None
      else Some(before.value + [last.value])
  }

  function DecodeList(fr: Frames, j: Json): Option<seq<Feature>> {
    if j.JArray? then DecodeFeatures(fr, j.items) else None
  }

  function Builtins(): S.Registry {
    S.Registry(S.CURRENT_VERSIONS, [S.Builtin("oreo.feature_tree"), S.Builtin("oreo.part_studio")], 256, false)
  }

  /** The three headers accepted: none, a type alone, or a type with a loadable version. */
  predicate HeaderAccepted(doc: Json)
    requires doc.JObject?
  {
    var f := doc.fields;
    if "_schema" !in f then "_version" !in f
    else if "_version" !in f then f["_schema"] == JString(WORKSPACE_TYPE)
    else
      var h := S.ReadHeader(doc);
      h.Ok? && h.value.kind == WORKSPACE_TYPE && Builtins().CanLoad(WORKSPACE_TYPE, h.value.version)
  }

  /** fromJSON; None where it reports failure. */
  function FromDocument(fr: Frames, doc: Json): Option<State> {
    if !doc.JObject? || !HeaderAccepted(doc) then None
    else
      var f := doc.fields;
      var name, parent := TextOr(f, "name"), TextOr(f, "parentName");
      var features := if "features" in f then DecodeList(fr, f["features"]) else Some([]);
      var rollback := if "features" in f then IndexOr(f, "rollbackIndex") else Some(-1);
      var base := if "baseSnapshot" in f then DecodeList(fr, f["baseSnapshot"]) else Some([]);
      var baseRollback := IndexOr(f, "baseRollbackIndex");
      if name.None? || parent.None? || features.None? || rollback.None? || base.None? || baseRollback.None? then None
      else Some(State(name.value, parent.value, features.value, Clamp(-1, rollback.value, |features.value| - 1), base.value, baseRollback.value))
  }

  // ── The round trip ─────────────────────────────────────

  /** A feature as it comes back: executed by nobody yet. */
  function AsLoaded(f: Feature): Feature {
    f.(status := NotExecuted, errorMessage := "")
  }

  function AllAsLoaded(fs: seq<Feature>): seq<Feature> {
    seq(|fs|, i requires 0 <= i < |fs| => AsLoaded(fs[i]))
  }

  predicate PersistableParam(fr: Frames, kind: string, name: string, v: ParamValue) {
    var declared := DeclaredType(kind, name);
    if declared.Some? then Storable(fr, v, declared.value) else LenientlyStorable(fr, v)
  }

  predicate Persistable(fr: Frames, f: Feature) {
    f.id != "" && f.kind != "" && forall p :: p in f.params ==> PersistableParam(fr, f.kind, p, f.params[p])
  }

  predicate AllPersistable(fr: Frames, fs: seq<Feature>) {
    Distinct(Ids(fs)) && forall i :: 0 <= i < |fs| ==> Persistable(fr, fs[i])
  }

  lemma {:induction false} ParamRoundTrip(fr: Frames, kind: string, name: string, v: ParamValue)
    ensures DecodeParam(fr, kind, name, ToJson(v)) == Some(v) <==> PersistableParam(fr, kind, name, v)
  {
    hide DeclaredType, DecodeStrict, DecodeLenient, Storable, LenientlyStorable, ToJson;
    var declared := DeclaredType(kind, name);
    if declared.Some? { StrictRoundTrip(fr, v, declared.value); } else { LenientRoundTrip(fr, v); }
  }

  lemma {:induction false} ParamsRoundTrip(fr: Frames, kind: string, params: map<string, ParamValue>)
    ensures DecodeParams(fr, kind, ParamsToJson(params)) == Some(params)
            <==> forall p :: p in params ==> PersistableParam(fr, kind, p, params[p])
  {
    hide DecodeParam, PersistableParam, ToJson;
    var fields := ParamsToJson(params);
    forall p | p in params ensures DecodeParam(fr, kind, p, fields[p]) == Some(params[p]) <==> PersistableParam(fr, kind, p, params[p]) {
      ParamRoundTrip(fr, kind, p, params[p]);
    }
    if DecodeParams(fr, kind, fields) == Some(params) {
      forall p | p in params ensures PersistableParam(fr, kind, p, params[p]) {
        assert p in fields && params[p] == DecodeParam(fr, kind, p, fields[p]).value;
      }
    }
    if forall p :: p in params ==> PersistableParam(fr, kind, p, params[p]) {
      assert forall p :: p in fields ==> DecodeParam(fr, kind, p, fields[p]) == Some(params[p]);
      assert (map p | p in fields :: DecodeParam(fr, kind, p, fields[p]).value) == params;
    }
  }

  lemma {:induction false} FeatureRoundTrip(fr: Frames, f: Feature)
    ensures DecodeFeature(fr, FeatureToJson(f)) == Some(AsLoaded(f)) <==> Persistable(fr, f)
    ensures DecodeFeature(fr, FeatureToJson(f)).Some? ==> DecodeFeature(fr, FeatureToJson(f)).value.id == f.id
  {
    ParamsRoundTrip(fr, f.kind, f.params);
    hide DecodeParams, PersistableParam, ParamsToJson;
  }

  lemma {:induction false} LoadedIds(fs: seq<Feature>)
    ensures Ids(AllAsLoaded(fs)) == Ids(fs)
  {
  }

  lemma {:induction false} DistinctSplit(fs: seq<Feature>)
    requires fs != []
    ensures var n := |fs| - 1; Distinct(Ids(fs)) <==> Distinct(Ids(fs[..n])) && fs[n].id !in Ids(fs[..n])
  {
    var n := |fs| - 1;
    assert Ids(fs) == Ids(fs[..n]) + [fs[n].id];
    if Distinct(Ids(fs[..n])) && fs[n].id !in Ids(fs[..n]) {
      forall i, j | 0 <= i < j < |fs| ensures Ids(fs)[i] != Ids(fs)[j] {
        assert Ids(fs)[i] == Ids(fs[..n])[i];
      }
    }
    if Distinct(Ids(fs)) {
      forall i | 0 <= i < n ensures Ids(fs[..n])[i] != fs[n].id { assert Ids(fs)[i] != Ids(fs)[n]; }
      forall i, j | 0 <= i < j < n ensures Ids(fs[..n])[i] != Ids(fs[..n])[j] { assert Ids(fs)[i] != Ids(fs)[j]; }
    }
  }

  /** A feature list is read back exactly when its ids are unique and every feature is persistable. */
  lemma {:induction false} FeaturesRoundTrip(fr: Frames, fs: seq<Feature>)
    ensures DecodeFeatures(fr, FeaturesToJson(fs)) == Some(AllAsLoaded(fs)) <==> AllPersistable(fr, fs)
  {
    hide DecodeFeature, FeatureToJson, Persistable, AsLoaded;
    if fs == [] {
      assert FeaturesToJson(fs) == [] && AllAsLoaded(fs) == [];
    } else {
      var n := |fs| - 1;
      var init, items := fs[..n], FeaturesToJson(fs);
      FeaturesRoundTrip(fr, init);
      FeatureRoundTrip(fr, fs[n]);
      LoadedIds(init);
      DistinctSplit(fs);
      assert items[..n] == FeaturesToJson(init) && items[n] == FeatureToJson(fs[n]);
      assert AllAsLoaded(fs) == AllAsLoaded(init) + [AsLoaded(fs[n])];
      LastFeature(fr, fs);
    }
  }

  lemma {:induction false} LastFeature(fr: Frames, fs: seq<Feature>)
    requires fs != []
    requires var n := |fs| - 1; AllAsLoaded(fs) == AllAsLoaded(fs[..n]) + [AsLoaded(fs[n])] && Ids(AllAsLoaded(fs[..n])) == Ids(fs[..n])
    ensures var n := |fs| - 1;
            DecodeFeatures(fr, FeaturesToJson(fs)) == Some(AllAsLoaded(fs))
            <==> (DecodeFeatures(fr, FeaturesToJson(fs[..n])) == Some(AllAsLoaded(fs[..n]))
                  && DecodeFeature(fr, FeatureToJson(fs[n])) == Some(AsLoaded(fs[n])) && fs[n].id !in Ids(fs[..n]))
  {
    var n := |fs| - 1;
    var items := FeaturesToJson(fs);
    assert items[..n] == FeaturesToJson(fs[..n]) && items[n] == FeatureToJson(fs[n]);
    assert AsLoaded(fs[n]).id == fs[n].id;
    hide DecodeFeature, FeatureToJson, AsLoaded, AllAsLoaded, FeaturesToJson;
    var before, last := DecodeFeatures(fr, items[..n]), DecodeFeature(fr, items[n]);
    if before.Some? && last.Some? && before.value + [last.value] == AllAsLoaded(fs) {
      AppendInjective(before.value, last.value, AllAsLoaded(fs[..n]), AsLoaded(fs[n]));
    }
  }

  lemma {:induction false} AppendInjective(a: seq<Feature>, x: Feature, b: seq<Feature>, y: Feature)
    requires a + [x] == b + [y]
    ensures a == b && x == y
  {
    assert |a| == |b|;
    assert a == (a + [x])[..|a|] && b == (b + [y])[..|b|];
    assert x == (a + [x])[|a|] && y == (b + [y])[|b|];
  }

  /** What a workspace must satisfy to be restored: persistable features and rollback indices in range. */
  predicate Restorable(fr: Frames, w: State) {
    && AllPersistable(fr, w.features) && AllPersistable(fr, w.baseSnapshot)
    && -1 <= w.rollbackIndex < |w.features| && w.rollbackIndex <= INT32_MAX
    && -0x8000_0000 <= w.baseRollbackIndex <= INT32_MAX
  }

  function Restored(w: State): State {
    w.(features := AllAsLoaded(w.features), baseSnapshot := AllAsLoaded(w.baseSnapshot))
  }

  lemma {:induction false} OwnHeaderAccepted(w: State, documentId: Word64)
    ensures HeaderAccepted(ToDocument(w, documentId))
  {
    var v := S.VersionToJson(Version(1, 0, 0));
    assert v.fields.Keys == {"major", "minor", "patch"};
    hide FeaturesToJson, Decimal;
  }

  lemma {:induction false} DocumentFields(w: State, documentId: Word64)
    ensures ToDocument(w, documentId).JObject?
    ensures var f := ToDocument(w, documentId).fields;
            && TextOr(f, "name") == Some(w.name) && TextOr(f, "parentName") == Some(w.parentName)
            && "features" in f && f["features"] == JArray(FeaturesToJson(w.features))
            && "baseSnapshot" in f && f["baseSnapshot"] == JArray(FeaturesToJson(w.baseSnapshot))
            && IndexOr(f, "rollbackIndex") == Some(Wrap32(w.rollbackIndex))
            && IndexOr(f, "baseRollbackIndex") == Some(Wrap32(w.baseRollbackIndex))
  {
    hide FeaturesToJson, Decimal;
  }

  /** Reading what was written restores the workspace exactly when it is restorable. */
  lemma {:induction false} WorkspaceRoundTrip(fr: Frames, w: State, documentId: Word64)
    ensures FromDocument(fr, ToDocument(w, documentId)) == Some(Restored(w)) <==> Restorable(fr, w)
  {
    OwnHeaderAccepted(w, documentId);
    DocumentFields(w, documentId);
    FeaturesRoundTrip(fr, w.features);
    FeaturesRoundTrip(fr, w.baseSnapshot);
    hide ToDocument, HeaderAccepted, TextOr, IndexOr, DecodeFeatures, FeaturesToJson, AllPersistable;
    assert |AllAsLoaded(w.features)| == |w.features|;
  }

  // ── Forking ────────────────────────────────────────────

  /** fork: the features copied, the parent's kept as the base of a later merge. */
  function Fork(w: State, newName: string): State {
    State(newName, w.name, w.features, Clamp(-1, w.rollbackIndex, |w.features| - 1), w.features, w.rollbackIndex)
  }

  /** Every fork of a restorable workspace can be restored too, and keeps its parent's features and rollback. */
  lemma {:induction false} ForkRestorable(fr: Frames, w: State, newName: string, documentId: Word64)
    requires Restorable(fr, w)
    ensures var child := Fork(w, newName);
            && FromDocument(fr, ToDocument(child, documentId)) == Some(Restored(child))
            && child.name == newName && child.parentName == w.name && child.features == child.baseSnapshot == w.features
            && child.rollbackIndex == child.baseRollbackIndex == w.rollbackIndex
  {
    WorkspaceRoundTrip(fr, Fork(w, newName), documentId);
    hide FromDocument, ToDocument, AllPersistable;
  }
}
