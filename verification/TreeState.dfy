/**
 The state of a FeatureTree as a value, and each operation of feature_tree.cpp on it.
 The class in FeatureTree.dfy is proved to perform exactly these; ReplayTheory.dfy proves what they mean.
 */
module TreeState {
  import opened Wrappers
  import opened FeatureModel
  import opened TagAllocation
  import opened ReplaySpec

  datatype Tree = Tree(
    features: seq<Feature>,
    cache: map<string, NamedShape>,
    dirty: map<string, bool>,
    snapshots: map<string, Boundary>,
    rollbackIndex: int,
    counter: Counter,
    documentId: Word64)

  function Find(features: seq<Feature>, id: string): (r: int)
    ensures -1 <= r < |features|
    ensures 0 <= r ==> features[r].id == id
    ensures r == -1 ==> forall i :: 0 <= i < |features| ==> features[i].id != id
  {
    assert forall i :: 0 <= i < |features| ==> Ids(features)[i] == features[i].id;
    IndexOf(Ids(features), id)
  }

  lemma {:induction false} FirstFind(fs: seq<Feature>, id: string, i: nat)
    requires i < |fs| && fs[i].id == id && forall j :: 0 <= j < i ==> fs[j].id != id
    ensures Find(fs, id) == i
  {
    assert Ids(fs)[i] == id;
    var r := IndexOf(Ids(fs), id);
    assert forall j :: 0 <= j < r ==> Ids(fs)[j] != id by {
      assert forall j :: 0 <= j < r ==> Ids(fs)[j] == Ids(fs)[..r][j];
    }
  }

  function Cached(cache: map<string, NamedShape>, id: string): NamedShape {
    if id in cache then cache[id] else NullShape
  }

  /** markDirtyFrom */
  function Mark(features: seq<Feature>, dirty: map<string, bool>, from: nat): map<string, bool>
    requires from <= |features|
    decreases |features| - from
  {
    if from == |features| then dirty else Mark(features, dirty[features[from].id := true], from + 1)
  }

  function Add(t: Tree, f: Feature): (Tree, bool) {
    if 0 <= Find(t.features, f.id) then (t, false)
    else (t.(features := t.features + [f], dirty := t.dirty[f.id := true]), true)
  }

  function Clamp(lo: int, x: int, hi: int): int {
    var y := if x < lo then lo else x;
    if y > hi then hi else y
  }

  function InsertAt<T>(s: seq<T>, i: nat, x: T): seq<T>
    requires i <= |s|
  {
    s[..i] + [x] + s[i..]
  }

  function RemoveAt<T>(s: seq<T>, i: nat): seq<T>
    requires i < |s|
  {
    s[..i] + s[i + 1..]
  }

  function Insert(t: Tree, index: int, f: Feature): (Tree, bool) {
    if 0 <= Find(t.features, f.id) then (t, false)
    else
      var at := Clamp(0, index, |t.features|);
      var fs := InsertAt(t.features, at, f);
      (t.(features := fs, dirty := Mark(fs, t.dirty, at)), true)
  }

  function Remove(t: Tree, id: string): (Tree, bool) {
    var i := Find(t.features, id);
    if i < 0 then (t, false)
    else
      var fs := RemoveAt(t.features, i);
      (t.(features := fs, cache := t.cache - {id}, snapshots := t.snapshots - {id},
          dirty := Mark(fs, t.dirty - {id}, i)), true)
  }

  /** One feature replaced in place, everything from it on marked dirty. */
  function Edit(t: Tree, i: nat, f: Feature): Tree
    requires i < |t.features|
  {
    var fs := t.features[i := f];
    t.(features := fs, dirty := Mark(fs, t.dirty, i))
  }

  function UpdateParameter(t: Tree, id: string, name: string, v: ParamValue): Tree {
    var i := Find(t.features, id);
    if i < 0 then t
    else var f := t.features[i]; Edit(t, i, f.(params := f.params[name := v]))
  }

  function Suppress(t: Tree, id: string, on: bool): Tree {
    var i := Find(t.features, id);
    if i < 0 then t else Edit(t, i, t.features[i].(suppressed := on))
  }

  function Move(t: Tree, id: string, newIndex: int): (Tree, bool) {
    var was := Find(t.features, id);
    if was < 0 then (t, false)
    else
      var n := |t.features|;
      var at := if newIndex < 0 then 0 else newIndex;
      var at := if at >= n then n - 1 else at;
      if at == was then (t, true)
      else
        var fs := InsertAt(RemoveAt(t.features, was), at, t.features[was]);
        (t.(features := fs, dirty := Mark(fs, t.dirty, if was < at then was else at)), true)
  }

  function Retarget(r: ElementRef, was: string, now: string): ElementRef {
    if r.featureId == was then r.(featureId := now) else r
  }

  function RetargetValue(v: ParamValue, was: string, now: string): ParamValue {
    match v
    case ElemRefV(r) => ElemRefV(Retarget(r, was, now))
    case ElemRefListV(rs) => ElemRefListV(seq(|rs|, i requires 0 <= i < |rs| => Retarget(rs[i], was, now)))
    case _ => v
  }

  function RetargetFeature(f: Feature, was: string, now: string): Feature {
    f.(params := map p | p in f.params :: RetargetValue(f.params[p], was, now))
  }

  /** True when some reference of the feature names `was`. */
  predicate Names(f: Feature, was: string) {
    exists r :: r in RefsOf(f) && r.featureId == was
  }

  /** Index of the first feature from `from` on with a reference to `was`; the length when there is none. */
  function FirstNaming(fs: seq<Feature>, was: string, from: nat): (r: nat)
    requires from <= |fs|
    ensures from <= r <= |fs|
    ensures forall i :: from <= i < r ==> !Names(fs[i], was)
    ensures r < |fs| ==> Names(fs[r], was)
    decreases |fs| - from
  {
    if from == |fs| then from
    else if Names(fs[from], was) then from
    else FirstNaming(fs, was, from + 1)
  }

  function ReplaceReference(t: Tree, was: string, now: string): Tree {
    if was == "" || now == "" then t
    else
      var fs := seq(|t.features|, i requires 0 <= i < |t.features| => RetargetFeature(t.features[i], was, now));
      t.(features := fs, dirty := Mark(fs, t.dirty, FirstNaming(t.features, was, 0)))
  }

  // ── Replay ─────────────────────────────────────────────

  predicate Hidden(features: seq<Feature>, id: string) {
    var i := Find(features, id);
    0 <= i && features[i].suppressed
  }

  /** resolveReference: whatever the cache holds for the target, stale or not. */
  function LookIn(k: Kernel, t: Tree, ref: ElementRef): Option<ResolvedRef> {
    Resolve(k, Hidden(t.features, ref.featureId), Cached(t.cache, ref.featureId), ref)
  }

  function LookAllIn(k: Kernel, t: Tree, job: Job): map<ElementRef, Option<ResolvedRef>> {
    if job.Run? then map r | r in RefsOf(job.feature) :: LookIn(k, t, r) else map[]
  }

  function Stamp(f: Feature, o: Outcome): Feature {
    f.(status := o.status, errorMessage := if o.error.Some? then o.error.value else f.errorMessage)
  }

  function Settle(t: Tree, i: nat, o: Outcome): Tree
    requires i < |t.features|
  {
    var f := t.features[i];
    t.(features := t.features[i := Stamp(f, o)],
       cache := t.cache[f.id := o.shape],
       dirty := t.dirty[f.id := false],
       counter := o.after)
  }

  /** One iteration of the replayFrom loop. */
  function Step(k: Kernel, tr: Transformer, t: Tree, current: NamedShape, i: nat): (Tree, NamedShape)
    requires i < |t.features|
  {
    var f := t.features[i];
    var t := t.(snapshots := t.snapshots[f.id := SnapshotV2(t.counter, t.documentId)]);
    if !f.suppressed && (f.id in t.dirty ==> !t.dirty[f.id]) && f.id in t.cache then
      (t, t.cache[f.id])
    else
      var job := Prepare(tr, f);
      var o := Perform(k, t.documentId, job, LookAllIn(k, t, job), current, t.counter);
      (Settle(t, i, o), o.shape)
  }

  function Loop(k: Kernel, tr: Transformer, t: Tree, current: NamedShape, i: nat): (Tree, NamedShape)
    requires i <= |t.features|
    decreases |t.features| - i
  {
    if i == |t.features| then (t, current)
    else var (t', c) := Step(k, tr, t, current, i); Loop(k, tr, t', c, i + 1)
  }

  /** The shape to resume from: the last unsuppressed, OK and cached feature before `i`. */
  function Resume(t: Tree, i: nat): NamedShape
    requires i <= |t.features|
  {
    if i == 0 then NullShape
    else
      var f := t.features[i - 1];
      if !f.suppressed && f.status == OK && f.id in t.cache then t.cache[f.id]
      else Resume(t, i - 1)
  }

  function StartIndex(t: Tree, fromId: string): (i: nat)
    ensures i < |t.features| || i == 0
  {
    if fromId == "" || Find(t.features, fromId) < 0 then 0 else Find(t.features, fromId)
  }

  /** True when replayFrom starts over: at the first feature, or without a boundary to restore. */
  predicate StartsOver(t: Tree, i: nat)
    requires i < |t.features| || i == 0
  {
    i == 0 || t.features[i].id !in t.snapshots
  }

  /** The tree and index at which the replayFrom loop begins. */
  function Rewind(t: Tree, i: nat): (Tree, nat, NamedShape)
    requires i < |t.features| || i == 0
  {
    var (t, i, current) :=
      if i == 0 then (t.(counter := 0), 0, NullShape)
      else if t.features[i].id in t.snapshots then
        var s := t.snapshots[t.features[i].id];
        (t.(counter := s.counter, documentId := s.documentId), i, Resume(t, i))
      else (t.(cache := map[], snapshots := map[], counter := 0), 0, NullShape);
    (t.(dirty := Mark(t.features, t.dirty, i)), i, current)
  }

  function ReplayFrom(k: Kernel, tr: Transformer, t: Tree, fromId: string): (Tree, NamedShape) {
    var (t', i, current) := Rewind(t, StartIndex(t, fromId));
    Loop(k, tr, t', current, i)
  }

  function Forget(t: Tree): Tree {
    t.(dirty := Mark(t.features, t.dirty, 0), cache := map[], snapshots := map[], counter := 0)
  }

  function Replay(k: Kernel, tr: Transformer, t: Tree): (Tree, NamedShape) {
    ReplayFrom(k, tr, Forget(t), if t.features == [] then "" else t.features[0].id)
  }

  // ── Shape access ───────────────────────────────────────

  function SetRollback(t: Tree, index: int): Tree {
    t.(rollbackIndex := Clamp(-1, index, |t.features| - 1))
  }

  function ReplayToRollback(k: Kernel, tr: Transformer, t: Tree): (Tree, NamedShape) {
    var (t', shape) := Replay(k, tr, t);
    if t'.rollbackIndex < 0 || t'.rollbackIndex >= |t'.features| then (t', shape)
    else (t', Cached(t'.cache, t'.features[t'.rollbackIndex].id))
  }

  /** The last non-null cached shape before index `i`. */
  function LastCached(t: Tree, i: nat): NamedShape
    requires i <= |t.features|
  {
    if i == 0 then NullShape
    else if Cached(t.cache, t.features[i - 1].id).Body? then Cached(t.cache, t.features[i - 1].id)
    else LastCached(t, i - 1)
  }

  function FinalShape(t: Tree): NamedShape {
    LastCached(t, |t.features|)
  }

  function RollbackTo(t: Tree, id: string): NamedShape {
    var i := Find(t.features, id);
    if i <= 0 then NullShape else LastCached(t, i)
  }
}
