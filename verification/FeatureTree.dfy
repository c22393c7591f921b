/**
 The feature tree with its caches, as src/feature/feature_tree.cpp updates them.
 Every method is proved to perform the operation of TreeState.dfy with the same name.
 */
module FeatureTrees {
  import opened Wrappers
  import opened FeatureModel
  import opened TagAllocation
  import opened ReplaySpec
  import opened TreeState
  import opened ReplayTheory
  import opened IncrementalReplay
  import opened Namings

  class FeatureTree {
    const kernel: Kernel
    const tags: TagAllocator
    var features: seq<Feature>
    var cache: map<string, NamedShape>
    var dirty: map<string, bool>
    var snapshots: map<string, Boundary>
    var rollbackIndex: int
    var transformer: Transformer

    ghost function State(): Tree
      requires 0 <= tags.counter
      reads this, tags
    {
      Tree(features, cache, dirty, snapshots, rollbackIndex, tags.counter, tags.documentId)
    }

    ghost predicate Valid()
      reads this, tags
    {
      0 <= tags.counter && WellFormed(State())
    }

    constructor (kernel: Kernel, tags: TagAllocator)
      requires 0 <= tags.counter
      ensures Valid() && this.kernel == kernel && this.tags == tags && transformer == None
      ensures State() == Tree([], map[], map[], map[], -1, tags.counter, tags.documentId)
    {
      this.kernel, this.tags := kernel, tags;
      features, cache, dirty, snapshots, rollbackIndex, transformer := [], map[], map[], map[], -1, None;
    }

    method FindIndex(id: string) returns (r: int)
      ensures r == Find(features, id)
    {
      for i := 0 to |features|
        invariant forall j :: 0 <= j < i ==> features[j].id != id
      {
        if features[i].id == id {
          FirstFind(features, id, i);
          return i;
        }
      }
      return -1;
    }

    method MarkDirtyFrom(index: nat)
      requires index <= |features|
      modifies this`dirty
      ensures dirty == Mark(features, old(dirty), index)
    {
      var i := index;
      while i < |features|
        invariant index <= i <= |features|
        invariant Mark(features, dirty, i) == Mark(features, old(dirty), index)
      {
        dirty := dirty[features[i].id := true];
        i := i + 1;
      }
    }

    // ── Editing ──────────────────────────────────────────

    method AddFeature(feature: Feature) returns (ok: bool)
      requires Valid()
      modifies this`features, this`dirty
      ensures Valid() && (State(), ok) == Add(old(State()), feature)
    {
      var i := FindIndex(feature.id);
      if 0 <= i { return false; }
      AddIsInsert(State(), feature);
      InsertedWellFormed(State(), |features|, feature);
      features := features + [feature];
      dirty := dirty[feature.id := true];
      return true;
    }

    method InsertFeature(index: int, feature: Feature) returns (ok: bool)
      requires Valid()
      modifies this`features, this`dirty
      ensures Valid() && (State(), ok) == Insert(old(State()), index, feature)
    {
      var found := FindIndex(feature.id);
      if 0 <= found { return false; }
      var at := if index < 0 then 0 else index;
      if at > |features| { at := |features|; }
      InsertedWellFormed(State(), at, feature);
      hide WellFormed, Mark, Find;
      features := features[..at] + [feature] + features[at..];
      MarkDirtyFrom(at);
      return true;
    }

    method RemoveFeature(id: string) returns (ok: bool)
      requires Valid()
      modifies this`features, this`cache, this`dirty, this`snapshots
      ensures Valid() && (State(), ok) == Remove(old(State()), id)
    {
      var i := FindIndex(id);
      if i < 0 { return false; }
      RemovedWellFormed(State(), i);
      features := features[..i] + features[i + 1..];
      cache := cache - {id};
      dirty := dirty - {id};
      snapshots := snapshots - {id};
      MarkDirtyFrom(i);
      return true;
    }

    method SetParameter(id: string, name: string, value: ParamValue)
      requires Valid()
      modifies this`features, this`dirty
      ensures Valid() && State() == UpdateParameter(old(State()), id, name, value)
    {
      var i := FindIndex(id);
      if i < 0 { return; }
      var f := features[i];
      var g := f.(params := f.params[name := value]);
      RewrittenKeeps(State(), features[i := g], i);
      features := features[i := g];
      MarkDirtyFrom(i);
    }

    method SuppressFeature(id: string, on: bool)
      requires Valid()
      modifies this`features, this`dirty
      ensures Valid() && State() == Suppress(old(State()), id, on)
    {
      var i := FindIndex(id);
      if i < 0 { return; }
      var g := features[i].(suppressed := on);
      RewrittenKeeps(State(), features[i := g], i);
      features := features[i := g];
      MarkDirtyFrom(i);
    }

    method MoveFeature(id: string, newIndex: int) returns (ok: bool)
      requires Valid()
      modifies this`features, this`dirty
      ensures Valid() && (State(), ok) == Move(old(State()), id, newIndex)
    {
      hide Find;
      var from := FindIndex(id);
      if from < 0 { return false; }
      var n := |features|;
      var to := newIndex;
      if to < 0 { to := 0; }
      if to >= n { to := n - 1; }
      if to == from { return true; }
      MovedWellFormed(State(), from, to);
      var moved := features[from];
      hide WellFormed, Mark;
      features := features[..from] + features[from + 1..];
      features := features[..to] + [moved] + features[to..];
      assert features == MovedFeatures(old(features), from, to);
      MarkDirtyFrom(if from < to then from else to);
      assert State() == Moved(old(State()), from, to);
      return true;
    }

    /** Counts the references rewritten: every place, in every feature, that named the old id. */
    method RetargetReferences(from: string, to: string) returns (rewrites: nat)
      requires Valid()
      modifies this`features, this`dirty
      ensures Valid() && State() == ReplaceReference(old(State()), from, to)
      ensures rewrites == if from == "" || to == "" then 0 else |PlacesNaming(old(features), from)|
    {
      hide WellFormed, RetargetFeature, PlacesNaming, FirstOfNaming, Mark, ReplaceReference;
      if from == "" || to == "" { NoReplace(State(), from, to); return 0; }
      ghost var t := State();
      var first: nat;
      rewrites, first := RewriteAll(from, to);
      Retargeted(t, features, from, to, first);
      if rewrites > 0 && first < |features| { MarkDirtyFrom(first); }
    }

    /** The loop over all features; `first` is the first one changed, or the length. */
    method RewriteAll(from: string, to: string) returns (rewrites: nat, first: nat)
      modifies this`features
      ensures |features| == |old(features)| && first <= |features|
      ensures forall j :: 0 <= j < |features| ==> features[j] == RetargetFeature(old(features)[j], from, to)
      ensures FirstOfNaming(old(features), from, |features|, first)
      ensures rewrites == |PlacesNaming(old(features), from)| && (rewrites == 0 <==> first == |features|)
    {
      hide PlacesNaming, ParamPlaces, Names, RetargetValue, RetargetFeature, FirstOfNaming;
      NoFeatures(from);
      NoneNaming(from, |features|);
      var n := |features|;
      rewrites, first := 0, n;
      for i := 0 to n
        invariant |features| == n == |old(features)|
        invariant forall j :: 0 <= j < i ==> features[j] == RetargetFeature(old(features)[j], from, to)
        invariant forall j :: i <= j < n ==> features[j] == old(features)[j]
        invariant FirstOfNaming(old(features)[..i], from, n, first) && (first == n || first < i)
        invariant rewrites == |PlacesNaming(old(features)[..i], from)| && (rewrites == 0 <==> first == n)
      {
        var params, count := RewriteParams(features[i].params, from, to);
        NamesIffCounted(features[i], from);
        OneMoreFeature(old(features), i, from);
        FirstOfMore(old(features), from, n, first, i);
        RetargetedIs(features[i], params, from, to);
        features := features[i := features[i].(params := params)];
        rewrites := rewrites + count;
        if 0 < count && i < first { first := i; }
      }
      assert old(features)[..n] == old(features);
    }

    // ── Replay ───────────────────────────────────────────

    method ResolveReference(ref: ElementRef) returns (r: Option<ResolvedRef>)
      requires 0 <= tags.counter
      ensures r == LookIn(kernel, State(), ref)
    {
      if ref.featureId == "" || ref.elementName == "" { return None; }
      var i := FindIndex(ref.featureId);
      if 0 <= i && features[i].suppressed { return None; }
      if ref.featureId !in cache || cache[ref.featureId].NullShape? { return None; }
      var shape := cache[ref.featureId];
      if ref.elementName == "ROOT" {
        if ref.elementType == "Face" || ref.elementType == "Edge" || ref.elementType == "Vertex" { return None; }
        return Some(Whole(shape));
      }
      match kernel.lookup(shape, ref.elementName)
      case Some(p) => return Some(Part(p));
      case None => return None;
    }

    /** Executes one prepared feature: resolves its references, runs it, moves the allocator. */
    method Execute(feature: Feature, current: NamedShape) returns (out: ExecOutput)
      requires 0 <= tags.counter
      modifies tags`counter
      ensures out == ExecuteFeature(kernel, feature, current,
                                    map r | r in RefsOf(feature) :: LookIn(kernel, old(State()), r),
                                    old(tags.counter), tags.documentId)
      ensures tags.counter == out.counter
    {
      if feature.suppressed {
        out := ExecOutput(true, current, "", Suppressed, "", tags.counter);
        return;
      }
      var todo := RefsOf(feature);
      var refs: map<ElementRef, Option<ResolvedRef>> := map[];
      while todo != {}
        invariant tags.counter == old(tags.counter) && todo + refs.Keys == RefsOf(feature)
        invariant forall r :: r in refs ==> refs[r] == LookIn(kernel, State(), r)
        decreases todo
      {
        var r :| r in todo;
        var resolved := ResolveReference(r);
        refs := refs[r := resolved];
        todo := todo - {r};
      }
      assert refs == map r | r in RefsOf(feature) :: LookIn(kernel, State(), r);
      out := kernel.run(ExecInput(Cleared(feature), current, refs, tags.counter, tags.documentId));
      tags.counter := out.counter;
    }

    /** Writes one feature's outcome: status, message, cache entry, clean mark. */
    method Record(i: nat, shape: NamedShape, status: FeatureStatus, error: Option<string>)
      requires 0 <= tags.counter && i < |features|
      modifies this`features, this`cache, this`dirty
      ensures forall before :: State() == Settle(old(State()), i, Outcome(before, shape, status, error, tags.counter))
    {
      var f := features[i];
      features := features[i := f.(status := status, errorMessage := if error.Some? then error.value else f.errorMessage)];
      cache := cache[f.id := shape];
      dirty := dirty[f.id := false];
    }

    /** One iteration of the replay loop. */
    method ReplayOne(i: nat, current: NamedShape) returns (next: NamedShape)
      requires 0 <= tags.counter && i < |features|
      modifies this`features, this`cache, this`dirty, this`snapshots, tags`counter
      ensures 0 <= tags.counter && (State(), next) == Step(kernel, transformer, old(State()), current, i)
    {
      var f := features[i];
      var boundary := tags.TakeSnapshotV2();
      snapshots := snapshots[f.id := boundary.value];
      if f.suppressed {
        Record(i, current, Suppressed, None);
        return current;
      }
      if (f.id in dirty ==> !dirty[f.id]) && f.id in cache {
        return cache[f.id];
      }
      var target := f;
      if transformer.Some? {
        target := transformer.value(f);
        if Failed(target.status) {
          Record(i, current, target.status, Some(target.errorMessage));
          return current;
        }
      }
      RefsOfCleared(target);
      ghost var t1 := State();
      var r := Execute(target, current);
      assert (map ref | ref in RefsOf(target) :: LookIn(kernel, t1, ref)) == LookAllIn(kernel, t1, Run(f.id, Cleared(target)));
      if r.ok && r.status == OK && !r.shape.NullShape? {
        next := r.shape;
        Record(i, next, OK, Some(r.errorMessage));
      } else {
        next := current;
        if r.status == OK {
          Record(i, current, ExecutionFailed, Some(if r.ok then "Operation returned null shape" else r.resultError));
        } else {
          Record(i, current, r.status, Some(r.errorMessage));
        }
      }
    }

    method ReplayFromId(dirtyFromId: string) returns (shape: NamedShape)
      requires Valid()
      modifies this`features, this`cache, this`dirty, this`snapshots, tags`counter, tags`documentId
      ensures 0 <= tags.counter
      ensures (State(), shape) == ReplayFrom(kernel, transformer, old(State()), dirtyFromId)
      ensures Valid()
    {
      ghost var t := State();
      var start := 0;
      if dirtyFromId != "" {
        var found := FindIndex(dirtyFromId);
        if 0 <= found { start := found; }
      }
      shape := SearchResume(start);
      if start == 0 {
        tags.ResetCounterOnly();
      } else if features[start].id in snapshots {
        var restored := tags.RestoreV2(snapshots[features[start].id], true);
      } else {
        start, shape := 0, NullShape;
        cache, snapshots := map[], map[];
        tags.ResetCounterOnly();
      }
      MarkDirtyFrom(start);
      assert (State(), start, shape) == Rewind(t, StartIndex(t, dirtyFromId));
      RewindWellFormed(t, StartIndex(t, dirtyFromId));
      hide *;
      shape := ReplayRest(start, shape);
    }

    /** The backward search for the shape to resume from. */
    method SearchResume(start: nat) returns (shape: NamedShape)
      requires 0 <= tags.counter && start <= |features|
      ensures shape == Resume(State(), start)
    {
      var i: nat := start;
      while 0 < i
        invariant i <= start
        invariant Resume(State(), i) == Resume(State(), start)
      {
        var f := features[i - 1];
        if !f.suppressed && f.status == OK && f.id in cache { return cache[f.id]; }
        i := i - 1;
      }
      return NullShape;
    }

    /** The replay loop. */
    method ReplayRest(start: nat, current: NamedShape) returns (shape: NamedShape)
      requires Valid() && start <= |features|
      modifies this`features, this`cache, this`dirty, this`snapshots, tags`counter
      ensures Valid() && (State(), shape) == Loop(kernel, transformer, old(State()), current, start)
    {
      shape := current;
      var i := start;
      ghost var last := Loop(kernel, transformer, State(), current, start);
      hide Step, WellFormed;
      while i < |features|
        invariant start <= i <= |features|
        invariant Valid()
        invariant Loop(kernel, transformer, State(), shape, i) == last
      {
        StepWellFormed(kernel, transformer, State(), shape, i);
        LoopStep(kernel, transformer, State(), shape, i);
        hide Loop;
        shape := ReplayOne(i, shape);
        i := i + 1;
      }
    }

    method ReplayAll() returns (shape: NamedShape)
      requires Valid()
      modifies this`features, this`cache, this`dirty, this`snapshots, tags`counter, tags`documentId
      ensures 0 <= tags.counter
      ensures (State(), shape) == Replay(kernel, transformer, old(State()))
      ensures Valid()
    {
      MarkWellFormed(State(), 0);
      MarkDirtyFrom(0);
      cache, snapshots := map[], map[];
      tags.ResetCounterOnly();
      assert State() == Forget(old(State()));
      shape := ReplayFromId(if |features| == 0 then "" else features[0].id);
    }

    // ── Rollback and shape access ────────────────────────

    method SetRollbackIndex(index: int)
      requires Valid()
      modifies this`rollbackIndex
      ensures Valid() && State() == SetRollback(old(State()), index)
    {
      var r := index;
      if r < -1 { r := -1; }
      if r > |features| - 1 { r := |features| - 1; }
      rollbackIndex := r;
    }

    method GetShapeAt(id: string) returns (shape: NamedShape)
      ensures shape == Cached(cache, id)
    {
      if id in cache { return cache[id]; }
      return NullShape;
    }

    method ReplayUpToRollback() returns (shape: NamedShape)
      requires Valid()
      modifies this`features, this`cache, this`dirty, this`snapshots, tags`counter, tags`documentId
      ensures Valid() && (State(), shape) == ReplayToRollback(kernel, transformer, old(State()))
    {
      shape := ReplayAll();
      if rollbackIndex < 0 || features == [] || rollbackIndex >= |features| { return; }
      shape := GetShapeAt(features[rollbackIndex].id);
    }

    method GetFinalShape() returns (shape: NamedShape)
      requires Valid()
      ensures shape == FinalShape(State())
    {
      shape := SearchBack(|features|);
    }

    method RollbackToFeature(id: string) returns (shape: NamedShape)
      requires Valid()
      ensures shape == RollbackTo(State(), id)
    {
      var i := FindIndex(id);
      if i <= 0 { return NullShape; }
      shape := SearchBack(i);
    }

    method SearchBack(n: nat) returns (shape: NamedShape)
      requires Valid() && n <= |features|
      ensures shape == LastCached(State(), n)
    {
      var i: nat := n;
      while 0 < i
        invariant 0 <= i <= n
        invariant LastCached(State(), i) == LastCached(State(), n)
      {
        var id := features[i - 1].id;
        if id in cache && cache[id].Body? { return cache[id]; }
        i := i - 1;
      }
      return NullShape;
    }
  }

  // ── Facts the loops need ───────────────────────────────

  lemma {:induction false} FirstNamingIs(fs: seq<Feature>, id: string, m: nat)
    requires m <= |fs| && (m < |fs| ==> Names(fs[m], id)) && forall j :: 0 <= j < m ==> !Names(fs[j], id)
    ensures FirstNaming(fs, id, 0) == m
  {
  }

  lemma {:induction false} Retargeted(t: Tree, fs: seq<Feature>, from: string, to: string, m: nat)
    requires WellFormed(t) && from != "" && to != "" && |fs| == |t.features| && m <= |fs|
    requires forall j :: 0 <= j < |fs| ==> fs[j] == RetargetFeature(t.features[j], from, to)
    requires FirstOfNaming(t.features, from, |fs|, m)
    ensures var u := t.(features := fs, dirty := if m < |fs| then Mark(fs, t.dirty, m) else t.dirty);
            ReplaceReference(t, from, to) == u && WellFormed(u)
  {
    FirstNamingIs(t.features, from, m);
    var gs := ReplaceReference(t, from, to).features;
    assert fs == gs by { assert forall i :: 0 <= i < |fs| ==> gs[i] == RetargetFeature(t.features[i], from, to); }
    forall j | 0 <= j < m ensures fs[j] == t.features[j] { RetargetKeeps(t.features[j], from, to); }
    RewrittenKeeps(t, fs, m);
  }

  /** `first` is the first of the features that name the id, or `n` when none does. */
  ghost predicate FirstOfNaming(fs: seq<Feature>, id: string, n: nat, first: nat) {
    if first == n then forall j :: 0 <= j < |fs| ==> !Names(fs[j], id)
    else first < |fs| && Names(fs[first], id) && forall j :: 0 <= j < first ==> !Names(fs[j], id)
  }

  lemma {:induction false} RetargetedIs(f: Feature, params: map<string, ParamValue>, from: string, to: string)
    requires params == map p | p in f.params :: RetargetValue(f.params[p], from, to)
    ensures f.(params := params) == RetargetFeature(f, from, to)
  {
  }

  lemma {:induction false} NoneNaming(id: string, n: nat)
    ensures FirstOfNaming([], id, n, n)
  {
  }

  lemma {:induction false} FirstOfMore(fs: seq<Feature>, id: string, n: nat, first: nat, i: nat)
    requires i < |fs| <= n && FirstOfNaming(fs[..i], id, n, first)
    ensures FirstOfNaming(fs[..i + 1], id, n, if Names(fs[i], id) && i < first then i else first)
    ensures first != n ==> first < i
  {
    hide Names;
  }

  lemma {:induction false} RefsOfCleared(f: Feature)
    ensures RefsOf(Cleared(f)) == RefsOf(f)
  {
  }

  /** Rewrites the references of one parameter, counting those that change. */
  method RewriteValue(v: ParamValue, from: string, to: string) returns (w: ParamValue, count: nat)
    ensures w == RetargetValue(v, from, to)
    ensures count == |Positions(RefList(v), from)|
  {
    hide Positions;
    NoPositions(from);
    match v
    case ElemRefV(r) =>
      OneMorePosition([r], 0, from);
      if r.featureId == from { return ElemRefV(r.(featureId := to)), 1; }
      return v, 0;
    case ElemRefListV(rs) =>
      var out := [];
      count := 0;
      for i := 0 to |rs|
        invariant |out| == i && count == |Positions(rs[..i], from)|
        invariant forall j :: 0 <= j < i ==> out[j] == Retarget(rs[j], from, to)
      {
        OneMorePosition(rs, i, from);
        if rs[i].featureId == from {
          out, count := out + [rs[i].(featureId := to)], count + 1;
        } else {
          out := out + [rs[i]];
        }
      }
      assert rs[..|rs|] == rs;
      w := ElemRefListV(out);
    case _ =>
      return v, 0;
  }

  method RewriteParams(params: map<string, ParamValue>, from: string, to: string)
    returns (out: map<string, ParamValue>, count: nat)
    ensures out == map p | p in params :: RetargetValue(params[p], from, to)
    ensures count == |ParamPlaces(params, params.Keys, from)|
  {
    out, count := map[], 0;
    var todo := params.Keys;
    hide ParamPlaces, Positions, RetargetValue, RefList;
    assert ParamPlaces(params, {}, from) == {} by { NoParams(params, from); }
    while todo != {}
      invariant todo <= params.Keys && out.Keys == params.Keys - todo
      invariant forall p :: p in out ==> out[p] == RetargetValue(params[p], from, to)
      invariant count == |ParamPlaces(params, out.Keys, from)|
      decreases todo
    {
      var p :| p in todo;
      var w, c := RewriteValue(params[p], from, to);
      OneMoreParam(params, out.Keys, p, from);
      assert out[p := w].Keys == out.Keys + {p};
      out, count, todo := out[p := w], count + c, todo - {p};
    }
    assert out.Keys == params.Keys;
  }

  lemma {:induction false} StepWellFormed(k: Kernel, tr: Transformer, t: Tree, current: NamedShape, i: nat)
    requires WellFormed(t) && i < |t.features|
    ensures WellFormed(Step(k, tr, t, current, i).0) && |Step(k, tr, t, current, i).0.features| == |t.features|
  {
    var f := t.features[i];
    assert f in t.features;
    var t1 := t.(snapshots := t.snapshots[f.id := SnapshotV2(t.counter, t.documentId)]);
    assert WellFormed(t1);
    if f.suppressed || !(f.id in t.dirty ==> !t.dirty[f.id]) || f.id !in t.cache {
      var job := Prepare(tr, f);
      var o := ReplaySpec.Perform(k, t.documentId, job, LookAllIn(k, t1, job), current, t.counter);
      SettledWellFormed(t, i, o);
      hide WellFormed, Prepare, Perform, LookAllIn;
      assert Step(k, tr, t, current, i).0 == Settled(t, i, o);
    }
  }

  lemma {:induction false} LoopStep(k: Kernel, tr: Transformer, t: Tree, current: NamedShape, i: nat)
    requires i < |t.features| && |Step(k, tr, t, current, i).0.features| == |t.features|
    ensures Loop(k, tr, t, current, i)
            == Loop(k, tr, Step(k, tr, t, current, i).0, Step(k, tr, t, current, i).1, i + 1)
  {
  }

  lemma {:induction false} RewindWellFormed(t: Tree, i: nat)
    requires WellFormed(t) && (i < |t.features| || i == 0)
    ensures WellFormed(Rewind(t, i).0) && Rewind(t, i).0.features == t.features
  {
    MarkWellFormed(t, i);
    MarkWellFormed(t.(cache := map[], snapshots := map[]), 0);
  }
}
