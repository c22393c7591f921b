/**
 What applyResolutions does with the conflicts of its own merge: a feature-by-feature description of the
 result, from which order independence, unique ids, kept order and untouched facets follow.
 */
module ResolutionTheory {
  import opened Wrappers
  import opened FeatureModel
  import opened ParamJson
  import opened TreeState
  import opened MergeSpec
  import opened MergeLaws
  import opened Resolutions

  // ── The conflicts of one feature, looked up by key ─────

  predicate HasKey(c: MergeConflict, kind: ConflictKind, id: string, p: string) {
    c.kind == kind && c.featureId == id && c.paramName == p
  }

  /** The conflict with this key, when it was answered by a resolution: what was chosen. */
  function Answer(cs: seq<MergeConflict>, rs: seq<Resolution>, kind: ConflictKind, id: string, p: string): (r: Option<(MergeConflict, Resolution)>)
    ensures r.Some? ==> r.value.0 in cs && HasKey(r.value.0, kind, id, p) && FindResolution(rs, id, p) == Some(r.value.1)
    ensures r.None? ==> FindResolution(rs, id, p).None? || forall c :: c in cs ==> !HasKey(c, kind, id, p)
  {
    if cs == [] then None
    else
      var last := cs[|cs| - 1];
      var before := Answer(cs[..|cs| - 1], rs, kind, id, p);
      assert cs == cs[..|cs| - 1] + [last];
      if before.Some? then before
      else if HasKey(last, kind, id, p) && FindResolution(rs, id, p).Some? then Some((last, FindResolution(rs, id, p).value))
      else None
  }

  /** What the conflicts reported by a merge look like, next to the merged list. */
  ghost predicate Own(merged: seq<Feature>, cs: seq<MergeConflict>) {
    && Distinct(Ids(merged))
    && (forall i, j :: 0 <= i < j < |cs| ==> !HasKey(cs[j], cs[i].kind, cs[i].featureId, cs[i].paramName))
    && (forall c :: c in cs ==> WellFormedConflict(c) && c.featureId in Ids(merged))
    && (forall c, d :: c in cs && d in cs && c.kind == AddRemoveConflict && d.featureId == c.featureId ==>
          d.kind == AddRemoveConflict || d.kind == PositionConflict)
  }

  predicate WellFormedConflict(c: MergeConflict) {
    match c.kind
    case ParamConflict => true
    case SuppressionConflict => c.paramName == "" && c.baseValue.BoolV? && c.oursValue.BoolV? && c.theirsValue.BoolV?
    case TypeConflict => c.paramName == "" && c.baseValue.StringV? && c.oursValue.StringV? && c.theirsValue.StringV?
    case AddRemoveConflict =>
      && c.paramName == "" && c.baseSnapshot.Some?
      && (forall f :: f in {c.baseSnapshot, c.oursSnapshot, c.theirsSnapshot} && f.Some? ==> f.value.id == c.featureId)
    case PositionConflict => c.paramName == ""
  }

  /** A resolution whose custom value, if it is used, has the kind its conflict needs. */
  predicate RightVariant(c: MergeConflict, r: Resolution) {
    match c.kind
    case SuppressionConflict => Chosen(c, r).BoolV?
    case TypeConflict => Chosen(c, r).StringV?
    case _ => true
  }

  ghost predicate WellKinded(cs: seq<MergeConflict>, rs: seq<Resolution>) {
    forall c :: c in cs && FindResolution(rs, c.featureId, c.paramName).Some? ==>
      RightVariant(c, FindResolution(rs, c.featureId, c.paramName).value)
  }

  // ── The result, feature by feature ─────────────────────

  function ResolvedParam(f: Feature, cs: seq<MergeConflict>, rs: seq<Resolution>, p: string): Option<ParamValue> {
    var a := Answer(cs, rs, ParamConflict, f.id, p);
    if a.Some? then Some(Chosen(a.value.0, a.value.1)) else Param(f, p)
  }

  function ParamNamesIn(cs: seq<MergeConflict>): set<string> {
    set c | c in cs :: c.paramName
  }

  function ResolvedParams(f: Feature, cs: seq<MergeConflict>, rs: seq<Resolution>): (m: map<string, ParamValue>)
    ensures forall p :: p in m <==> ResolvedParam(f, cs, rs, p).Some?
    ensures forall p :: p in m ==> ResolvedParam(f, cs, rs, p) == Some(m[p])
  {
    map p | p in f.params.Keys + ParamNamesIn(cs) && ResolvedParam(f, cs, rs, p).Some? :: ResolvedParam(f, cs, rs, p).value
  }

  function ResolvedKind(f: Feature, cs: seq<MergeConflict>, rs: seq<Resolution>): string {
    var a := Answer(cs, rs, TypeConflict, f.id, "");
    if a.Some? && Chosen(a.value.0, a.value.1).StringV? then Chosen(a.value.0, a.value.1).s else f.kind
  }

  function ResolvedSuppression(f: Feature, cs: seq<MergeConflict>, rs: seq<Resolution>): bool {
    var a := Answer(cs, rs, SuppressionConflict, f.id, "");
    if a.Some? && Chosen(a.value.0, a.value.1).BoolV? then Chosen(a.value.0, a.value.1).b else f.suppressed
  }

  /** What becomes of one merged feature: None when its removal was chosen. */
  function Resolve(cs: seq<MergeConflict>, rs: seq<Resolution>, f: Feature): Option<Feature> {
    var a := Answer(cs, rs, AddRemoveConflict, f.id, "");
    if a.Some? then ChosenFeature(a.value.0, a.value.1)
    else
      Some(f.(kind := ResolvedKind(f, cs, rs),
              suppressed := ResolvedSuppression(f, cs, rs),
              params := ResolvedParams(f, cs, rs)))
  }

  function ResolveAll(merged: seq<Feature>, cs: seq<MergeConflict>, rs: seq<Resolution>): seq<Feature> {
    if merged == [] then []
    else
      var last := Resolve(cs, rs, merged[|merged| - 1]);
      ResolveAll(merged[..|merged| - 1], cs, rs) + if last.Some? then [last.value] else []
  }

  // ── The loop computes it ───────────────────────────────

  lemma {:induction false} AnswerNext(cs: seq<MergeConflict>, c: MergeConflict, rs: seq<Resolution>, kind: ConflictKind, id: string, p: string)
    ensures var before := Answer(cs, rs, kind, id, p);
            Answer(cs + [c], rs, kind, id, p)
            == if before.Some? then before
               else if HasKey(c, kind, id, p) && FindResolution(rs, id, p).Some? then Some((c, FindResolution(rs, id, p).value))
               else None
  {
    assert (cs + [c])[..|cs|] == cs;
  }

  lemma {:induction false} SameParams(f: Feature, cs: seq<MergeConflict>, ds: seq<MergeConflict>, rs: seq<Resolution>)
    requires forall p :: ResolvedParam(f, cs, rs, p) == ResolvedParam(f, ds, rs, p)
    ensures ResolvedParams(f, cs, rs) == ResolvedParams(f, ds, rs)
  {
    hide ResolvedParam, ResolvedParams;
  }

  /** A conflict that answers no other key than its own. */
  lemma {:induction false} OtherKeysSame(cs: seq<MergeConflict>, c: MergeConflict, rs: seq<Resolution>, f: Feature)
    ensures !HasKey(c, AddRemoveConflict, f.id, "") ==>
              Answer(cs + [c], rs, AddRemoveConflict, f.id, "") == Answer(cs, rs, AddRemoveConflict, f.id, "")
    ensures !HasKey(c, TypeConflict, f.id, "") ==> ResolvedKind(f, cs + [c], rs) == ResolvedKind(f, cs, rs)
    ensures !HasKey(c, SuppressionConflict, f.id, "") ==> ResolvedSuppression(f, cs + [c], rs) == ResolvedSuppression(f, cs, rs)
    ensures forall p :: !HasKey(c, ParamConflict, f.id, p) ==> ResolvedParam(f, cs + [c], rs, p) == ResolvedParam(f, cs, rs, p)
  {
    AnswerNext(cs, c, rs, AddRemoveConflict, f.id, "");
    AnswerNext(cs, c, rs, TypeConflict, f.id, "");
    AnswerNext(cs, c, rs, SuppressionConflict, f.id, "");
    forall p ensures !HasKey(c, ParamConflict, f.id, p) ==> Answer(cs + [c], rs, ParamConflict, f.id, p) == Answer(cs, rs, ParamConflict, f.id, p) {
      AnswerNext(cs, c, rs, ParamConflict, f.id, p);
    }
    hide Answer;
  }

  /** A conflict of another feature, or one without a resolution, or about position, changes nothing. */
  lemma {:induction false} IrrelevantSame(cs: seq<MergeConflict>, c: MergeConflict, rs: seq<Resolution>, f: Feature)
    requires c.featureId != f.id || c.kind == PositionConflict
    ensures Resolve(cs + [c], rs, f) == Resolve(cs, rs, f)
  {
    OtherKeysSame(cs, c, rs, f);
    hide Answer, ResolvedKind, ResolvedSuppression, ResolvedParam;
    if (forall p :: !HasKey(c, ParamConflict, f.id, p)) { SameParams(f, cs + [c], cs, rs); }
  }

  lemma {:induction false} UnansweredSame(cs: seq<MergeConflict>, c: MergeConflict, rs: seq<Resolution>, f: Feature)
    requires FindResolution(rs, c.featureId, c.paramName).None?
    ensures Resolve(cs + [c], rs, f) == Resolve(cs, rs, f)
  {
    AnswerNext(cs, c, rs, AddRemoveConflict, f.id, "");
    AnswerNext(cs, c, rs, TypeConflict, f.id, "");
    AnswerNext(cs, c, rs, SuppressionConflict, f.id, "");
    forall p ensures ResolvedParam(f, cs + [c], rs, p) == ResolvedParam(f, cs, rs, p) {
      AnswerNext(cs, c, rs, ParamConflict, f.id, p);
    }
    hide Answer, ResolvedParam;
    SameParams(f, cs + [c], cs, rs);
  }

  /** What one answered conflict does to its own feature. */
  function Edited(c: MergeConflict, r: Resolution, f: Feature): Option<Feature> {
    match c.kind
    case ParamConflict => Some(f.(params := f.params[c.paramName := Chosen(c, r)]))
    case SuppressionConflict => Some(if Chosen(c, r).BoolV? then f.(suppressed := Chosen(c, r).b) else f)
    case TypeConflict => Some(if Chosen(c, r).StringV? then f.(kind := Chosen(c, r).s) else f)
    case AddRemoveConflict => ChosenFeature(c, r)
    case PositionConflict => Some(f)
  }

  /** No earlier conflict has the key of `c`, and none makes the feature's content moot. */
  ghost predicate Newly(cs: seq<MergeConflict>, c: MergeConflict) {
    && (forall d :: d in cs ==> !HasKey(c, d.kind, d.featureId, d.paramName))
    && (forall d :: d in cs && d.featureId == c.featureId ==>
          d.kind == PositionConflict || c.kind == PositionConflict || (d.kind != AddRemoveConflict && c.kind != AddRemoveConflict))
    && (c.kind != ParamConflict ==> c.paramName == "")
  }

  lemma {:induction false} NoAnswerYet(cs: seq<MergeConflict>, c: MergeConflict, rs: seq<Resolution>, kind: ConflictKind, p: string)
    requires forall d :: d in cs ==> !HasKey(d, kind, c.featureId, p)
    ensures Answer(cs, rs, kind, c.featureId, p).None?
  {
  }

  /** Working in one more conflict of a feature edits what the earlier ones made of it. */
  lemma {:induction false} EditNext(cs: seq<MergeConflict>, c: MergeConflict, rs: seq<Resolution>, f: Feature)
    requires f.id == c.featureId && Newly(cs, c) && c.kind != PositionConflict
    requires FindResolution(rs, f.id, c.paramName).Some?
    ensures Resolve(cs, rs, f).Some?
    ensures Resolve(cs + [c], rs, f) == Edited(c, FindResolution(rs, f.id, c.paramName).value, Resolve(cs, rs, f).value)
  {
    var r := FindResolution(rs, f.id, c.paramName).value;
    assert forall d :: d in cs ==> !HasKey(d, AddRemoveConflict, f.id, "");
    NoAnswerYet(cs, c, rs, AddRemoveConflict, "");
    assert forall d :: d in cs ==> !HasKey(d, c.kind, f.id, c.paramName);
    NoAnswerYet(cs, c, rs, c.kind, c.paramName);
    AnswerNext(cs, c, rs, c.kind, f.id, c.paramName);
    OtherKeysSame(cs, c, rs, f);
    hide Answer, Newly, FindResolution;
    EditParams(cs, c, rs, f);
  }

  lemma {:induction false} EditParams(cs: seq<MergeConflict>, c: MergeConflict, rs: seq<Resolution>, f: Feature)
    requires f.id == c.featureId && FindResolution(rs, f.id, c.paramName).Some?
    requires forall p :: !HasKey(c, ParamConflict, f.id, p) ==> ResolvedParam(f, cs + [c], rs, p) == ResolvedParam(f, cs, rs, p)
    requires Answer(cs + [c], rs, c.kind, f.id, c.paramName) == Some((c, FindResolution(rs, f.id, c.paramName).value))
    ensures ResolvedParams(f, cs + [c], rs)
            == if c.kind == ParamConflict then ResolvedParams(f, cs, rs)[c.paramName := Chosen(c, FindResolution(rs, f.id, c.paramName).value)]
               else ResolvedParams(f, cs, rs)
  {
    hide Answer, ResolvedParam, ResolvedParams, FindResolution, Chosen, HasKey;
    var was, now := ResolvedParams(f, cs, rs), ResolvedParams(f, cs + [c], rs);
    forall p | c.kind != ParamConflict || p != c.paramName ensures ResolvedParam(f, cs + [c], rs, p) == ResolvedParam(f, cs, rs, p) {
      OtherKey(c, f.id, p);
    }
    if c.kind == ParamConflict {
      ParamAnswered(cs, c, rs, f);
      assert now == was[c.paramName := Chosen(c, FindResolution(rs, f.id, c.paramName).value)];
    } else {
      assert now == was;
    }
  }

  lemma {:induction false} OtherKey(c: MergeConflict, id: string, p: string)
    requires c.kind != ParamConflict || p != c.paramName
    ensures !HasKey(c, ParamConflict, id, p)
  {
  }

  lemma {:induction false} ParamAnswered(cs: seq<MergeConflict>, c: MergeConflict, rs: seq<Resolution>, f: Feature)
    requires c.kind == ParamConflict && f.id == c.featureId && FindResolution(rs, f.id, c.paramName).Some?
    requires Answer(cs + [c], rs, c.kind, f.id, c.paramName) == Some((c, FindResolution(rs, f.id, c.paramName).value))
    ensures ResolvedParam(f, cs + [c], rs, c.paramName) == Some(Chosen(c, FindResolution(rs, f.id, c.paramName).value))
  {
    hide Answer, FindResolution, Chosen;
  }

  // ── Ids ────────────────────────────────────────────────

  /** Ids whose removal was not chosen. */
  function Survives(cs: seq<MergeConflict>, rs: seq<Resolution>): string -> bool {
    (id: string) => var a := Answer(cs, rs, AddRemoveConflict, id, ""); a.None? || ChosenFeature(a.value.0, a.value.1).Some?
  }

  ghost predicate AllWellFormed(cs: seq<MergeConflict>) {
    forall c :: c in cs ==> WellFormedConflict(c)
  }

  lemma {:induction false} ResolveKeepsId(cs: seq<MergeConflict>, rs: seq<Resolution>, f: Feature)
    requires AllWellFormed(cs)
    ensures Resolve(cs, rs, f).Some? <==> Survives(cs, rs)(f.id)
    ensures Resolve(cs, rs, f).Some? ==> Resolve(cs, rs, f).value.id == f.id
  {
    var a := Answer(cs, rs, AddRemoveConflict, f.id, "");
    if a.Some? { assert WellFormedConflict(a.value.0); }
  }

  /** The surviving features keep their ids and their order. */
  lemma {:induction false} ResolvedIds(merged: seq<Feature>, cs: seq<MergeConflict>, rs: seq<Resolution>)
    requires AllWellFormed(cs)
    ensures Ids(ResolveAll(merged, cs, rs)) == Select(Ids(merged), Survives(cs, rs))
  {
    if merged != [] {
      var n := |merged| - 1;
      ResolvedIds(merged[..n], cs, rs);
      ResolveKeepsId(cs, rs, merged[n]);
      IdsSplit(merged);
      IdsAppend(ResolveAll(merged[..n], cs, rs), Resolve(cs, rs, merged[n]));
      hide Resolve, Survives, Ids;
    }
  }

  lemma {:induction false} IdsSplit(fs: seq<Feature>)
    requires fs != []
    ensures var n := |fs| - 1; |Ids(fs)| == |fs| && Ids(fs)[..n] == Ids(fs[..n]) && Ids(fs)[n] == fs[n].id
    ensures Ids(fs) != []
  {
  }

  lemma {:induction false} IdsAppend(fs: seq<Feature>, f: Option<Feature>)
    ensures Ids(fs + if f.Some? then [f.value] else []) == Ids(fs) + if f.Some? then [f.value.id] else []
  {
  }

  lemma {:induction false} ResolvedDistinct(merged: seq<Feature>, cs: seq<MergeConflict>, rs: seq<Resolution>)
    requires AllWellFormed(cs) && Distinct(Ids(merged))
    ensures Distinct(Ids(ResolveAll(merged, cs, rs)))
    ensures forall id :: id in Ids(ResolveAll(merged, cs, rs)) ==> id in Ids(merged)
  {
    ResolvedIds(merged, cs, rs);
    SelectDistinct(Ids(merged), Survives(cs, rs));
    SelectMembers(Ids(merged), Survives(cs, rs));
  }

  // ── The fold ───────────────────────────────────────────

  lemma {:induction false} AllSame(merged: seq<Feature>, cs: seq<MergeConflict>, ds: seq<MergeConflict>, rs: seq<Resolution>)
    requires forall f :: f in merged ==> Resolve(ds, rs, f) == Resolve(cs, rs, f)
    ensures ResolveAll(merged, ds, rs) == ResolveAll(merged, cs, rs)
  {
    hide Resolve;
    if merged != [] { AllSame(merged[..|merged| - 1], cs, ds, rs); }
  }

  function Replace(out: seq<Feature>, i: nat, g: Option<Feature>): seq<Feature>
    requires i < |out|
  {
    if g.Some? then out[i := g.value] else RemoveAt(out, i)
  }

  lemma {:induction false} FindLast(pre: seq<Feature>, x: Feature)
    requires x.id !in Ids(pre)
    ensures Find(pre + [x], x.id) == |pre|
  {
    assert forall j :: 0 <= j < |pre| ==> Ids(pre)[j] == pre[j].id;
    FirstFind(pre + [x], x.id, |pre|);
  }

  lemma {:induction false} FindEarlier(pre: seq<Feature>, tail: seq<Feature>, id: string)
    requires 0 <= Find(pre, id)
    ensures Find(pre + tail, id) == Find(pre, id)
  {
    var i := Find(pre, id);
    assert forall j :: 0 <= j < i ==> pre[j].id != id by {
      assert forall j :: 0 <= j < i ==> Ids(pre)[..i][j] == pre[j].id;
    }
    FirstFind(pre + tail, id, i);
  }

  /** One more answered conflict edits exactly its own feature, in place. */
  lemma {:induction false} EditOne(merged: seq<Feature>, cs: seq<MergeConflict>, c: MergeConflict, rs: seq<Resolution>)
    requires Distinct(Ids(merged)) && AllWellFormed(cs) && Newly(cs, c) && c.kind != PositionConflict
    requires c.featureId in Ids(merged) && FindResolution(rs, c.featureId, c.paramName).Some?
    ensures var out := ResolveAll(merged, cs, rs); var i := Find(out, c.featureId);
            0 <= i && ResolveAll(merged, cs + [c], rs)
                      == Replace(out, i, Edited(c, FindResolution(rs, c.featureId, c.paramName).value, out[i]))
  {
    var n := |merged| - 1;
    var pre := ResolveAll(merged[..n], cs, rs);
    var last := merged[n];
    assert Ids(merged)[..n] == Ids(merged[..n]) && Ids(merged)[n] == last.id;
    assert last.id !in Ids(merged[..n]) by { assert forall j :: 0 <= j < n ==> Ids(merged)[..n][j] != last.id; }
    assert Distinct(Ids(merged[..n]));
    ResolvedDistinct(merged[..n], cs, rs);
    ResolveKeepsId(cs, rs, last);
    if last.id == c.featureId {
      EditNext(cs, c, rs, last);
      forall f | f in merged[..n] ensures Resolve(cs + [c], rs, f) == Resolve(cs, rs, f) {
        var j :| 0 <= j < n && merged[j] == f;
        assert Ids(merged[..n])[j] == f.id;
        IrrelevantSame(cs, c, rs, f);
      }
      AllSame(merged[..n], cs, cs + [c], rs);
      EditLast(merged, cs, c, rs, pre);
    } else {
      assert c.featureId in Ids(merged[..n]) by { assert Ids(merged) == Ids(merged[..n]) + [last.id]; }
      EditOne(merged[..n], cs, c, rs);
      IrrelevantSame(cs, c, rs, last);
      EditBefore(merged, cs, c, rs, pre);
    }
  }

  lemma {:induction false} EditLast(merged: seq<Feature>, cs: seq<MergeConflict>, c: MergeConflict, rs: seq<Resolution>, pre: seq<Feature>)
    requires merged != [] && FindResolution(rs, c.featureId, c.paramName).Some?
    requires var n := |merged| - 1; var r := FindResolution(rs, c.featureId, c.paramName).value;
             && pre == ResolveAll(merged[..n], cs, rs) == ResolveAll(merged[..n], cs + [c], rs)
             && c.featureId !in Ids(pre)
             && Resolve(cs, rs, merged[n]).Some? && Resolve(cs, rs, merged[n]).value.id == c.featureId
             && Resolve(cs + [c], rs, merged[n]) == Edited(c, r, Resolve(cs, rs, merged[n]).value)
    ensures var out := ResolveAll(merged, cs, rs); var i := Find(out, c.featureId);
            0 <= i && ResolveAll(merged, cs + [c], rs)
                      == Replace(out, i, Edited(c, FindResolution(rs, c.featureId, c.paramName).value, out[i]))
  {
    hide Resolve, Edited, Find, FindResolution, Ids;
    var x := Resolve(cs, rs, merged[|merged| - 1]).value;
    FindLast(pre, x);
    assert RemoveAt(pre + [x], |pre|) == pre;
    assert pre + [] == pre;
  }

  lemma {:induction false} EditBefore(merged: seq<Feature>, cs: seq<MergeConflict>, c: MergeConflict, rs: seq<Resolution>, pre: seq<Feature>)
    requires merged != [] && FindResolution(rs, c.featureId, c.paramName).Some?
    requires var n := |merged| - 1; var r := FindResolution(rs, c.featureId, c.paramName).value; var i := Find(pre, c.featureId);
             && pre == ResolveAll(merged[..n], cs, rs) && 0 <= i
             && ResolveAll(merged[..n], cs + [c], rs) == Replace(pre, i, Edited(c, r, pre[i]))
             && Resolve(cs + [c], rs, merged[n]) == Resolve(cs, rs, merged[n])
    ensures var out := ResolveAll(merged, cs, rs); var i := Find(out, c.featureId);
            0 <= i && ResolveAll(merged, cs + [c], rs)
                      == Replace(out, i, Edited(c, FindResolution(rs, c.featureId, c.paramName).value, out[i]))
  {
    hide Resolve, Edited, FindResolution;
    var last := Resolve(cs, rs, merged[|merged| - 1]);
    var tail := if last.Some? then [last.value] else [];
    FindEarlier(pre, tail, c.featureId);
    hide Find, Replace, RemoveAt;
    ReplaceEarlier(pre, tail, Find(pre, c.featureId), Edited(c, FindResolution(rs, c.featureId, c.paramName).value, pre[Find(pre, c.featureId)]));
  }

  lemma {:induction false} ReplaceEarlier(pre: seq<Feature>, tail: seq<Feature>, i: nat, g: Option<Feature>)
    requires i < |pre|
    ensures Replace(pre + tail, i, g) == Replace(pre, i, g) + tail
  {
    if g.Some? {
      assert (pre + tail)[i := g.value] == pre[i := g.value] + tail;
    } else {
      assert RemoveAt(pre + tail, i) == RemoveAt(pre, i) + tail;
    }
  }

  /** applyResolutions performs the edit its conflict asks for, when the value chosen has the right kind. */
  lemma {:induction false} ApplyOneEdits(out: seq<Feature>, c: MergeConflict, rs: seq<Resolution>)
    requires WellFormedConflict(c) && c.kind != PositionConflict && 0 <= Find(out, c.featureId)
    requires FindResolution(rs, c.featureId, c.paramName).Some?
    ensures var i := Find(out, c.featureId); var r := FindResolution(rs, c.featureId, c.paramName).value;
            ApplyOne(out, c, rs) == if RightVariant(c, r) then Ok(Replace(out, i, Edited(c, r, out[i]))) else Thrown(BadVariant)
  {
  }

  lemma {:induction false} OwnPrefix(merged: seq<Feature>, cs: seq<MergeConflict>, n: nat)
    requires Own(merged, cs) && n < |cs|
    ensures Own(merged, cs[..n]) && AllWellFormed(cs[..n]) && Newly(cs[..n], cs[n])
    ensures WellFormedConflict(cs[n]) && cs[n].featureId in Ids(merged)
  {
    var ds := cs[..n];
    assert forall i :: 0 <= i < n ==> ds[i] == cs[i];
    assert forall d :: d in ds ==> d in cs;
    assert cs[n] in cs;
    forall d | d in ds ensures !HasKey(cs[n], d.kind, d.featureId, d.paramName) {
      var i :| 0 <= i < n && ds[i] == d;
    }
    forall d | d in ds && d.featureId == cs[n].featureId
      ensures d.kind == PositionConflict || cs[n].kind == PositionConflict || (d.kind != AddRemoveConflict && cs[n].kind != AddRemoveConflict)
    {
      assert !HasKey(cs[n], d.kind, d.featureId, d.paramName);
      assert WellFormedConflict(d) && WellFormedConflict(cs[n]);
    }
  }

  /** With well-kinded choices the loop ends in the feature-by-feature description. */
  lemma {:induction false} ApplyIsResolveAll(merged: seq<Feature>, cs: seq<MergeConflict>, rs: seq<Resolution>)
    requires Own(merged, cs) && WellKinded(cs, rs)
    ensures Apply(merged, cs, rs) == Ok(ResolveAll(merged, cs, rs))
    decreases |cs|
  {
    if cs == [] {
      NothingToResolve(merged, rs);
    } else {
      var n := |cs| - 1;
      var c := cs[n];
      OwnPrefix(merged, cs, n);
      assert forall d :: d in cs[..n] ==> d in cs;
      ApplyIsResolveAll(merged, cs[..n], rs);
      assert cs == cs[..n] + [c] && c in cs;
      hide Own, WellFormedConflict, ResolveAll, Newly, AllWellFormed, ApplyOne, FindResolution, RightVariant, Ids;
      ApplyLast(merged, cs[..n], c, rs);
    }
  }

  lemma {:induction false} ApplyLast(merged: seq<Feature>, cs: seq<MergeConflict>, c: MergeConflict, rs: seq<Resolution>)
    requires Distinct(Ids(merged)) && AllWellFormed(cs) && Newly(cs, c) && WellFormedConflict(c) && c.featureId in Ids(merged)
    requires FindResolution(rs, c.featureId, c.paramName).Some? ==> RightVariant(c, FindResolution(rs, c.featureId, c.paramName).value)
    ensures ApplyOne(ResolveAll(merged, cs, rs), c, rs) == Ok(ResolveAll(merged, cs + [c], rs))
  {
    if c.kind == PositionConflict {
      forall f | f in merged ensures Resolve(cs + [c], rs, f) == Resolve(cs, rs, f) { IrrelevantSame(cs, c, rs, f); }
      AllSame(merged, cs, cs + [c], rs);
    } else if FindResolution(rs, c.featureId, c.paramName).None? {
      forall f | f in merged ensures Resolve(cs + [c], rs, f) == Resolve(cs, rs, f) { UnansweredSame(cs, c, rs, f); }
      AllSame(merged, cs, cs + [c], rs);
    } else {
      hide Newly, AllWellFormed, WellFormedConflict, RightVariant, Resolve, Edited;
      EditOne(merged, cs, c, rs);
      ApplyOneEdits(ResolveAll(merged, cs, rs), c, rs);
    }
  }

  lemma {:induction false} NothingToResolve(merged: seq<Feature>, rs: seq<Resolution>)
    ensures ResolveAll(merged, [], rs) == merged
  {
    hide Resolve;
    if merged != [] {
      var n := |merged| - 1;
      NothingToResolve(merged[..n], rs);
      Unanswered(merged[n], rs);
      assert merged == merged[..n] + [merged[n]];
    }
  }

  lemma {:induction false} Unanswered(f: Feature, rs: seq<Resolution>)
    ensures Resolve([], rs, f) == Some(f)
  {
    assert forall p :: ResolvedParam(f, [], rs, p) == Param(f, p);
    hide ResolvedParam;
    assert ResolvedParams(f, [], rs) == f.params;
  }

  /** The call throws exactly when some answered conflict was given a custom value of the wrong kind. */
  lemma {:induction false} ThrowsIffIllKinded(merged: seq<Feature>, cs: seq<MergeConflict>, rs: seq<Resolution>)
    requires Own(merged, cs)
    ensures Apply(merged, cs, rs).Thrown? <==> !WellKinded(cs, rs)
    decreases |cs|
  {
    if WellKinded(cs, rs) {
      ApplyIsResolveAll(merged, cs, rs);
    } else {
      var n := |cs| - 1;
      OwnPrefix(merged, cs, n);
      assert cs == cs[..n] + [cs[n]];
      ThrowsIffIllKinded(merged, cs[..n], rs);
      if WellKinded(cs[..n], rs) {
        var c := cs[n];
        ApplyIsResolveAll(merged, cs[..n], rs);
        hide Own, AllWellFormed, ResolveAll;
        EditOne(merged, cs[..n], c, rs);
        ApplyOneEdits(ResolveAll(merged, cs[..n], rs), c, rs);
      }
    }
  }

  // ── Consequences ───────────────────────────────────────

  lemma {:induction false} AnswerByMembership(merged: seq<Feature>, cs: seq<MergeConflict>, ds: seq<MergeConflict>, rs: seq<Resolution>,
                                              kind: ConflictKind, id: string, p: string)
    requires Own(merged, cs) && Own(merged, ds) && forall c :: c in cs <==> c in ds
    ensures Answer(cs, rs, kind, id, p) == Answer(ds, rs, kind, id, p)
  {
    var a, b := Answer(cs, rs, kind, id, p), Answer(ds, rs, kind, id, p);
    if a.Some? && b.Some? {
      var i :| 0 <= i < |cs| && cs[i] == a.value.0;
      var j :| 0 <= j < |cs| && cs[j] == b.value.0;
      if i < j { assert !HasKey(cs[j], cs[i].kind, cs[i].featureId, cs[i].paramName); }
      if j < i { assert !HasKey(cs[i], cs[j].kind, cs[j].featureId, cs[j].paramName); }
    }
  }

  /** The outcome does not depend on the order in which the conflicts were recorded. */
  lemma {:induction false} OrderIrrelevant(merged: seq<Feature>, cs: seq<MergeConflict>, ds: seq<MergeConflict>, rs: seq<Resolution>)
    requires Own(merged, cs) && Own(merged, ds) && forall c :: c in cs <==> c in ds
    ensures Apply(merged, cs, rs).Ok? == Apply(merged, ds, rs).Ok?
    ensures Apply(merged, cs, rs).Ok? ==> Apply(merged, cs, rs) == Apply(merged, ds, rs)
  {
    hide Own, Apply, Resolve;
    ThrowsIffIllKinded(merged, cs, rs);
    ThrowsIffIllKinded(merged, ds, rs);
    if WellKinded(cs, rs) {
      ApplyIsResolveAll(merged, cs, rs);
      ApplyIsResolveAll(merged, ds, rs);
      forall f | f in merged ensures Resolve(ds, rs, f) == Resolve(cs, rs, f) { SameResolve(merged, cs, ds, rs, f); }
      AllSame(merged, cs, ds, rs);
    }
  }

  lemma {:induction false} SameResolve(merged: seq<Feature>, cs: seq<MergeConflict>, ds: seq<MergeConflict>, rs: seq<Resolution>, f: Feature)
    requires Own(merged, cs) && Own(merged, ds) && forall c :: c in cs <==> c in ds
    ensures Resolve(ds, rs, f) == Resolve(cs, rs, f)
  {
    AnswerByMembership(merged, cs, ds, rs, AddRemoveConflict, f.id, "");
    AnswerByMembership(merged, cs, ds, rs, TypeConflict, f.id, "");
    AnswerByMembership(merged, cs, ds, rs, SuppressionConflict, f.id, "");
    forall p ensures ResolvedParam(f, cs, rs, p) == ResolvedParam(f, ds, rs, p) {
      AnswerByMembership(merged, cs, ds, rs, ParamConflict, f.id, p);
    }
    hide Answer, Own, ResolvedParam;
    SameParams(f, cs, ds, rs);
  }

  /** Ids stay unique and keep their order; the features gone are those whose removal was chosen. */
  lemma {:induction false} IdsAfter(merged: seq<Feature>, cs: seq<MergeConflict>, rs: seq<Resolution>)
    requires Own(merged, cs) && Apply(merged, cs, rs).Ok?
    ensures var out := Apply(merged, cs, rs).value;
            Distinct(Ids(out)) && Ids(out) == Select(Ids(merged), Survives(cs, rs))
  {
    ThrowsIffIllKinded(merged, cs, rs);
    ApplyIsResolveAll(merged, cs, rs);
    ResolvedIds(merged, cs, rs);
    ResolvedDistinct(merged, cs, rs);
  }

  lemma {:induction false} ResolvedMember(merged: seq<Feature>, cs: seq<MergeConflict>, rs: seq<Resolution>, f: Feature)
    requires f in merged && Resolve(cs, rs, f).Some?
    ensures Resolve(cs, rs, f).value in ResolveAll(merged, cs, rs)
  {
    hide Resolve;
    if merged[|merged| - 1] != f {
      assert f in merged[..|merged| - 1] by { assert merged == merged[..|merged| - 1] + [merged[|merged| - 1]]; }
      ResolvedMember(merged[..|merged| - 1], cs, rs, f);
    }
  }

  /**
   Only facets named by an answered conflict change: a surviving feature without an answered structural conflict
   keeps its id, status and message, its type and suppression unless their conflict was answered, and every
   parameter without an answered conflict of its name.
   */
  lemma {:induction false} OnlyNamedFacetsChange(merged: seq<Feature>, cs: seq<MergeConflict>, rs: seq<Resolution>, f: Feature)
    requires Own(merged, cs) && Apply(merged, cs, rs).Ok? && f in merged
    requires Answer(cs, rs, AddRemoveConflict, f.id, "").None?
    ensures exists g :: g in Apply(merged, cs, rs).value
              && g.id == f.id && g.status == f.status && g.errorMessage == f.errorMessage
              && (Answer(cs, rs, TypeConflict, f.id, "").None? ==> g.kind == f.kind)
              && (Answer(cs, rs, SuppressionConflict, f.id, "").None? ==> g.suppressed == f.suppressed)
              && forall p :: Answer(cs, rs, ParamConflict, f.id, p).None? ==> Param(g, p) == Param(f, p)
  {
    ThrowsIffIllKinded(merged, cs, rs);
    ApplyIsResolveAll(merged, cs, rs);
    ResolvedMember(merged, cs, rs, f);
    var g := Resolve(cs, rs, f).value;
    assert forall p :: Param(g, p) == ResolvedParam(f, cs, rs, p);
  }
}
