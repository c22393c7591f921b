/**
 threeWayMerge as src/feature/merge.cpp computes it, in three passes over maps and vectors,
 proved to produce the merge of MergeSpec.dfy.
 */
module Merging {
  import opened Wrappers
  import opened FeatureModel
  import opened ParamJson
  import opened TagAllocation
  import opened ReplaySpec
  import opened TreeState
  import opened ReplayTheory
  import opened FeatureTrees
  import opened MergeSpec
  import opened MergeLaws

  /** `cs` lists each member of `want` once. */
  ghost predicate Lists(cs: seq<MergeConflict>, want: set<MergeConflict>) {
    (forall c :: c in cs <==> c in want) && NoRepeats(cs)
  }

  ghost predicate NoRepeats(cs: seq<MergeConflict>) {
    forall i, j :: 0 <= i < j < |cs| ==> cs[i] != cs[j]
  }

  method IndexById(fs: seq<Feature>) returns (index: map<string, nat>)
    ensures forall id :: id in index <==> id in Ids(fs)
    ensures forall id :: id in index ==> index[id] == LastIndex(Ids(fs), id) && index[id] < |fs|
  {
    index := map[];
    ghost var ids := Ids(fs);
    for i := 0 to |fs|
      invariant forall id :: id in index <==> id in ids[..i]
      invariant forall id :: id in index ==> index[id] == LastIndex(ids[..i], id) && index[id] < i
    {
      assert ids[..i + 1] == ids[..i] + [fs[i].id] && ids[..i + 1][..i] == ids[..i];
      index := index[fs[i].id := i];
    }
    assert ids[..|fs|] == ids;
  }

  /** Parameters of a feature added on both sides that differ between them. */
  method DisagreeingParams(id: string, o: Feature, t: Feature) returns (cs: seq<MergeConflict>)
    ensures Lists(cs, Differing(id, o, t))
  {
    cs := [];
    var todo := o.params.Keys + t.params.Keys;
    ghost var all := todo;
    while todo != {}
      invariant todo <= all
      invariant forall c :: c in cs <==>
        exists p :: p in all - todo && !(p in o.params && p in t.params && ValueEquals(o.params[p], t.params[p])) && c == Disagrees(id, o, t, p)
      invariant NoRepeats(cs)
      decreases todo
    {
      var p :| p in todo;
      todo := todo - {p};
      if !(p in o.params && p in t.params && ValueEquals(o.params[p], t.params[p])) {
        assert forall c :: c in cs ==> c.paramName != p;
        cs := cs + [Disagrees(id, o, t, p)];
      }
    }
  }

  /** The parameter walk of a feature present in all three trees. */
  method MergeParameters(id: string, b: Feature, o: Feature, t: Feature) returns (params: map<string, ParamValue>, cs: seq<MergeConflict>)
    ensures params == MergeContent(b, o, t).params
    ensures Lists(cs, Clashes(id, b, o, t))
  {
    params, cs := b.params, [];
    var all := b.params.Keys + o.params.Keys + t.params.Keys;
    var todo := all;
    while todo != {}
      invariant todo <= all
      invariant Walked(params, b, o, t, all, todo)
      invariant forall c :: c in cs <==>
        exists p :: p in all - todo && ParamResult(b, o, t, p).clash && c == ParamClash(id, p, Param(b, p), Param(o, p), Param(t, p))
      invariant NoRepeats(cs)
      decreases todo
    {
      var p :| p in todo;
      var outcome := MergeParam(Param(b, p), Param(o, p), Param(t, p));
      WalkOne(params, b, o, t, all, todo, p);
      todo := todo - {p};
      hide MergeParam, Walked;
      if outcome.clash {
        assert forall c :: c in cs ==> c.paramName != p;
        cs := cs + [ParamClash(id, p, Param(b, p), Param(o, p), Param(t, p))];
      } else if outcome.value.Some? {
        params := params[p := outcome.value.value];
      } else {
        params := params - {p};
      }
    }
    WalkedAll(params, b, o, t);
  }

  /** Parameters outside `todo` have their merged value; those inside still have base's. */
  ghost predicate Walked(params: map<string, ParamValue>, b: Feature, o: Feature, t: Feature, all: set<string>, todo: set<string>) {
    && (forall p :: p in params ==> p in all)
    && (forall p :: p in all - todo ==> (if p in params then Some(params[p]) else None) == ParamResult(b, o, t, p).value)
    && (forall p :: p in todo ==> (p in params <==> p in b.params) && (p in params ==> params[p] == b.params[p]))
  }

  lemma {:induction false} WalkOne(params: map<string, ParamValue>, b: Feature, o: Feature, t: Feature, all: set<string>, todo: set<string>, p: string)
    requires Walked(params, b, o, t, all, todo) && p in todo && todo <= all
    ensures var r := ParamResult(b, o, t, p);
            Walked(if r.clash then params else if r.value.Some? then params[p := r.value.value] else params - {p}, b, o, t, all, todo - {p})
  {
    if ParamResult(b, o, t, p).clash { ClashKeepsBase(b, o, t, p); }
    hide MergeParam;
  }

  lemma {:induction false} WalkedAll(params: map<string, ParamValue>, b: Feature, o: Feature, t: Feature)
    requires Walked(params, b, o, t, b.params.Keys + o.params.Keys + t.params.Keys, {})
    ensures params == MergeContent(b, o, t).params
  {
    hide MergeParam;
  }

  lemma {:induction false} ClashKeepsBase(b: Feature, o: Feature, t: Feature, p: string)
    requires ParamResult(b, o, t, p).clash
    ensures ParamResult(b, o, t, p).value == Param(b, p)
  {
  }

  lemma {:induction false} ListsConcat(cs: seq<MergeConflict>, ds: seq<MergeConflict>, want: set<MergeConflict>, want': set<MergeConflict>)
    requires Lists(cs, want) && Lists(ds, want') && want !! want'
    ensures Lists(cs + ds, want + want')
  {
    assert forall i :: 0 <= i < |cs| ==> cs[i] in cs;
    assert forall i :: 0 <= i < |ds| ==> ds[i] in ds;
  }

  /** A feature present in all three trees: type, suppression, then the parameter walk. */
  method MergePresent(id: string, b: Feature, o: Feature, t: Feature, ghost hint: int) returns (merged: Feature, cs: seq<MergeConflict>)
    ensures merged == MergeContent(b, o, t)
    ensures Lists(cs, ContentConflicts(id, Sides(Some(b), Some(o), Some(t)), hint))
  {
    merged, cs := b, [];
    ghost var want: set<MergeConflict> := {};
    if o.kind != b.kind && t.kind != b.kind {
      if o.kind == t.kind {
        merged := merged.(kind := o.kind);
      } else {
        var c := Simple(TypeConflict, id, "", StringV(b.kind), StringV(o.kind), StringV(t.kind));
        cs, want := cs + [c], want + {c};
      }
    } else if o.kind != b.kind {
      merged := merged.(kind := o.kind);
    } else if t.kind != b.kind {
      merged := merged.(kind := t.kind);
    }
    var oursChanged, theirsChanged := o.suppressed != b.suppressed, t.suppressed != b.suppressed;
    if oursChanged && theirsChanged && o.suppressed != t.suppressed {
      var c := Simple(SuppressionConflict, id, "", BoolV(b.suppressed), BoolV(o.suppressed), BoolV(t.suppressed));
      cs, want := cs + [c], want + {c};
    } else if oursChanged {
      merged := merged.(suppressed := o.suppressed);
    } else if theirsChanged {
      merged := merged.(suppressed := t.suppressed);
    }
    assert Lists(cs, want) && forall c :: c in want ==> c.kind != ParamConflict;
    assert forall c :: c in Clashes(id, b, o, t) ==> c.kind == ParamConflict;
    var params, ds := MergeParameters(id, b, o, t);
    merged := merged.(params := params);
    hide Lists, MergeParam, Clashes;
    ListsConcat(cs, ds, want, Clashes(id, b, o, t));
    cs := cs + ds;
  }

  lemma {:induction false} DifferingAreParams(id: string, o: Feature, t: Feature)
    ensures forall c :: c in Differing(id, o, t) ==> c.kind == ParamConflict
  {
  }

  /** A feature added on both sides: equal, of different types, or differing in suppression and parameters. */
  method MergeBothAdded(id: string, o: Feature, t: Feature, ghost hint: int) returns (cs: seq<MergeConflict>)
    ensures Lists(cs, ContentConflicts(id, Sides(None, Some(o), Some(t)), hint))
  {
    hide ContentEquals, Differing, Ids;
    if ContentEquals(o, t) { return []; }
    if o.kind != t.kind {
      return [Simple(TypeConflict, id, "", StringV(""), StringV(o.kind), StringV(t.kind))];
    }
    cs := [];
    if o.suppressed != t.suppressed {
      cs := [Simple(SuppressionConflict, id, "", BoolV(o.suppressed), BoolV(o.suppressed), BoolV(t.suppressed))];
    }
    ghost var want := if o.suppressed != t.suppressed then
        {Simple(SuppressionConflict, id, "", BoolV(o.suppressed), BoolV(o.suppressed), BoolV(t.suppressed))} else {};
    assert Lists(cs, want);
    var ds := DisagreeingParams(id, o, t);
    DifferingAreParams(id, o, t);
    hide Lists;
    ListsConcat(cs, ds, want, Differing(id, o, t));
    cs := cs + ds;
  }

  /** Pass 1 for one id: what survives, and the conflicts about its content. */
  method JudgeFeature(id: string, s: Sides, hint: int) returns (merged: Option<Feature>, cs: seq<MergeConflict>)
    requires s.base.Some? || s.ours.Some? || s.theirs.Some?
    ensures merged == MergedFeature(s)
    ensures Lists(cs, ContentConflicts(id, s, hint))
  {
    match s
    case Sides(None, Some(o), None) => return Some(o), [];
    case Sides(None, None, Some(t)) => return Some(t), [];
    case Sides(None, Some(o), Some(t)) =>
      cs := MergeBothAdded(id, o, t, hint);
      return Some(o), cs;
    case Sides(Some(b), None, Some(t)) =>
      if ContentEquals(b, t) { return None, []; }
      return Some(b), [AddRemove(id, s, hint)];
    case Sides(Some(b), Some(o), None) =>
      if ContentEquals(b, o) { return None, []; }
      return Some(b), [AddRemove(id, s, hint)];
    case Sides(Some(b), None, None) => return None, [];
    case Sides(Some(b), Some(o), Some(t)) =>
      var f;
      f, cs := MergePresent(id, b, o, t, hint);
      merged := Some(f);
  }

  // ── The three passes ───────────────────────────────────

  /** Every id of the three lists once, in order of first appearance. */
  method UnionOfIds(base: seq<Feature>, ours: seq<Feature>, theirs: seq<Feature>) returns (ordered: seq<string>)
    ensures Distinct(ordered)
    ensures forall id :: id in ordered <==> id in Ids(base) + Ids(ours) + Ids(theirs)
  {
    ordered := AppendUnseen([], base);
    ordered := AppendUnseen(ordered, ours);
    ordered := AppendUnseen(ordered, theirs);
  }

  method AppendUnseen(start: seq<string>, fs: seq<Feature>) returns (ordered: seq<string>)
    requires Distinct(start)
    ensures Distinct(ordered)
    ensures forall id :: id in ordered <==> id in start || id in Ids(fs)
  {
    ordered := start;
    ghost var ids := Ids(fs);
    for i := 0 to |fs|
      invariant Distinct(ordered)
      invariant forall id :: id in ordered <==> id in start || id in ids[..i]
    {
      assert ids[..i + 1] == ids[..i] + [fs[i].id];
      if fs[i].id !in ordered { ordered := ordered + [fs[i].id]; }
    }
    assert ids[..|fs|] == ids;
  }

  method LookupIn(fs: seq<Feature>, index: map<string, nat>, id: string) returns (r: Option<Feature>)
    requires forall x :: x in index <==> x in Ids(fs)
    requires forall x :: x in index ==> index[x] == LastIndex(Ids(fs), x) && index[x] < |fs|
    ensures r == Lookup(fs, id)
  {
    if id in index { return Some(fs[index[id]]); }
    return None;
  }

  /** Pass 1: the fate of every id. */
  method JudgeAll(base: seq<Feature>, ours: seq<Feature>, theirs: seq<Feature>)
    returns (mergedById: map<string, Feature>, cs: seq<MergeConflict>)
    ensures var m := Merge(base, ours, theirs);
            && (forall id :: id in mergedById <==> id in m.AllIds() && m.Keeps(id))
            && (forall id :: id in mergedById ==> m.Result(id) == Some(mergedById[id]))
            && (forall c :: c in cs <==> c.featureId in m.AllIds() && c in m.Raised(c.featureId))
            && NoRepeats(cs)
  {
    ghost var m := Merge(base, ours, theirs);
    var baseIndex := IndexById(base);
    var oursIndex := IndexById(ours);
    var theirsIndex := IndexById(theirs);
    var ordered := UnionOfIds(base, ours, theirs);
    hide ContentConflicts, MergedFeature, LastIndex;
    mergedById, cs := map[], [];
    for i := 0 to |ordered|
      invariant forall id :: id in mergedById <==> id in ordered[..i] && m.Keeps(id)
      invariant forall id :: id in mergedById ==> m.Result(id) == Some(mergedById[id])
      invariant forall c :: c in cs <==> c.featureId in ordered[..i] && c in m.Raised(c.featureId)
      invariant NoRepeats(cs)
    {
      var id := ordered[i];
      assert ordered[..i + 1] == ordered[..i] + [id] && id !in ordered[..i];
      var b := LookupIn(base, baseIndex, id);
      var o := LookupIn(ours, oursIndex, id);
      var t := LookupIn(theirs, theirsIndex, id);
      var hint := if id in baseIndex then baseIndex[id] else -1;
      assert id in m.AllIds() && m.Of(id) == Sides(b, o, t) && m.Hint(id) == hint;
      var merged, found := JudgeFeature(id, Sides(b, o, t), hint);
      RaisedHere(m, id);
      if merged.Some? { mergedById := mergedById[id := merged.value]; }
      AppendFound(cs, found, id);
      cs := cs + found;
    }
    assert ordered[..|ordered|] == ordered;
  }

  lemma {:induction false} RaisedHere(m: Merge, id: string)
    ensures forall c :: c in m.Raised(id) ==> c.featureId == id
  {
    hide ContentEquals, ValueEquals, MergeParam, Param, Merge.Of, Merge.Hint;
  }

  lemma {:induction false} AppendFound(cs: seq<MergeConflict>, found: seq<MergeConflict>, id: string)
    requires NoRepeats(cs) && NoRepeats(found)
    requires (forall c :: c in cs ==> c.featureId != id) && (forall c :: c in found ==> c.featureId == id)
    ensures NoRepeats(cs + found)
  {
    assert forall i :: 0 <= i < |cs| ==> cs[i] in cs;
    assert forall i :: 0 <= i < |found| ==> found[i] in found;
  }

  /** A side's position of each retained id among the retained ones. */
  method RelativeIndex(ghost m: Merge, side: seq<Feature>, mergedById: map<string, Feature>, retained: seq<string>)
    returns (rel: map<string, nat>)
    requires retained == m.Retained() && forall id :: id in mergedById <==> id in m.AllIds() && m.Keeps(id)
    ensures IsLastIndex(rel, m.Relative(side))
  {
    rel := map[];
    var k := 0;
    ghost var ids := Ids(side);
    ghost var keep := (id: string) => m.Keeps(id) && id in m.Retained();
    RetainedMembers(m);
    assert forall id :: id in mergedById && id in retained <==> keep(id);
    hide MergedFeature;
    assert ids[..0] == [];
    for i := 0 to |side|
      invariant k == |Select(ids[..i], keep)|
      invariant IsLastIndex(rel, Select(ids[..i], keep))
    {
      var id := side[i].id;
      assert ids[i] == id;
      SelectNext(ids, keep, i);
      if id !in mergedById || id !in retained { continue; }
      NextLastIndex(rel, Select(ids[..i], keep), id);
      rel := rel[id := k];
      k := k + 1;
    }
    assert ids[..|side|] == ids;
  }

  ghost predicate IsLastIndex(rel: map<string, nat>, ids: seq<string>) {
    (forall id :: id in rel <==> id in ids) && forall id :: id in rel ==> rel[id] == LastIndex(ids, id)
  }

  lemma {:induction false} SelectNext(ids: seq<string>, keep: string -> bool, i: nat)
    requires i < |ids|
    ensures Select(ids[..i + 1], keep) == if keep(ids[i]) then Select(ids[..i], keep) + [ids[i]] else Select(ids[..i], keep)
  {
    assert ids[..i + 1][..i] == ids[..i];
    assert Select(ids[..i], keep) + [] == Select(ids[..i], keep);
  }

  lemma {:induction false} NextLastIndex(rel: map<string, nat>, ids: seq<string>, id: string)
    requires IsLastIndex(rel, ids)
    ensures IsLastIndex(rel[id := |ids|], ids + [id])
  {
    assert (ids + [id])[..|ids|] == ids;
  }

  /** Pass 2a: the retained ids of base. */
  method RetainedIds(ghost m: Merge, base: seq<Feature>, mergedById: map<string, Feature>) returns (retained: seq<string>)
    requires base == m.base && forall id :: id in mergedById <==> id in m.AllIds() && m.Keeps(id)
    ensures retained == m.Retained()
  {
    retained := [];
    ghost var ids := Ids(base);
    ghost var keep := (id: string) => m.Keeps(id);
    for i := 0 to |base|
      invariant retained == Select(ids[..i], keep)
    {
      assert ids[i] == base[i].id && ids[i] in m.AllIds();
      SelectNext(ids, keep, i);
      if base[i].id in mergedById { retained := retained + [base[i].id]; }
    }
    assert ids[..|base|] == ids;
  }

  /** Pass 2b: features moved to different places. */
  method PositionConflicts(ghost m: Merge, retained: seq<string>, oursRel: map<string, nat>, theirsRel: map<string, nat>)
    returns (cs: seq<MergeConflict>)
    requires retained == m.Retained()
    requires IsLastIndex(oursRel, m.Relative(m.ours)) && IsLastIndex(theirsRel, m.Relative(m.theirs))
    ensures forall c :: c in cs <==> exists i: nat :: i < |retained| && m.PositionsClash(i) && c == m.PositionConflictAt(i)
    ensures NoRepeats(cs)
    ensures forall c :: c in cs ==> c.kind == PositionConflict
  {
    cs := [];
    hide Select, MergedFeature, LastIndex;
    for i := 0 to |retained|
      invariant forall c :: c in cs <==> exists j: nat :: j < i && m.PositionsClash(j) && c == m.PositionConflictAt(j)
      invariant NoRepeats(cs)
    {
      var id := retained[i];
      var oursMoved := id in oursRel && oursRel[id] != i;
      var theirsMoved := id in theirsRel && theirsRel[id] != i;
      if oursMoved && theirsMoved && oursRel[id] != theirsRel[id] {
        var c := Simple(PositionConflict, id, "", IntV(i), IntV(oursRel[id]), IntV(theirsRel[id]));
        assert m.PositionsClash(i) && c == m.PositionConflictAt(i);
        assert forall d :: d in cs ==> d.baseValue != IntV(i);
        cs := cs + [c];
      }
    }
  }

  lemma {:induction false} NewcomersNext(m: Merge, placed: seq<string>, ids: seq<string>, i: nat)
    requires i < |ids|
    ensures var before := m.Newcomers(placed, ids[..i]);
            m.Newcomers(placed, ids[..i + 1])
            == if ids[i] in placed + before || !m.Keeps(ids[i]) then before else before + [ids[i]]
  {
    assert ids[..i + 1][..i] == ids[..i];
  }

  /** Pass 2c: a side's additions, appended in its own order. */
  method AppendAdditions(ghost m: Merge, placed: seq<string>, side: seq<Feature>, mergedById: map<string, Feature>) returns (order: seq<string>)
    requires forall id :: id in mergedById <==> id in m.AllIds() && m.Keeps(id)
    requires forall id :: id in Ids(side) ==> id in m.AllIds()
    ensures order == placed + m.Newcomers(placed, Ids(side))
  {
    order := placed;
    ghost var ids := Ids(side);
    hide MergedFeature, Merge.Keeps, Merge.Result, Merge.AllIds;
    for i := 0 to |side|
      invariant order == placed + m.Newcomers(placed, ids[..i])
    {
      NewcomersNext(m, placed, ids, i);
      assert ids[i] in ids && ids[i] == side[i].id;
      hide Merge.Newcomers;
      if side[i].id in order { continue; }
      if side[i].id !in mergedById { continue; }
      order := order + [side[i].id];
    }
    assert ids[..|side|] == ids;
  }

  /** Pass 3: the features entered into the tree, up to the first id it refuses. */
  method EnterFeatures(ghost m: Merge, tree: FeatureTree, order: seq<string>, mergedById: map<string, Feature>)
    requires tree.Valid() && tree.features == []
    requires forall id :: id in order ==> id in mergedById && m.Result(id) == Some(mergedById[id]) && mergedById[id].id == id
    modifies tree
    ensures tree.Valid() && tree.features == m.Materialise(UniquePrefix(order))
    ensures tree.transformer == old(tree.transformer)
  {
    assert order[..0] == [];
    hide MergedFeature, WellFormed;
    for i := 0 to |order|
      invariant tree.Valid() && tree.transformer == old(tree.transformer)
      invariant Distinct(order[..i])
      invariant tree.features == m.Materialise(order[..i])
      invariant Ids(tree.features) == order[..i]
    {
      var id := order[i];
      ghost var before := tree.features;
      MaterialiseNext(m, order, i);
      assert id in order;
      EnterNext(before, mergedById[id], order, i);
      hide Ids, Distinct, Merge.Materialise;
      var ok := tree.AddFeature(mergedById[id]);
      if !ok { return; }
    }
    assert order[..|order|] == order;
  }

  lemma {:induction false} MaterialiseNext(m: Merge, order: seq<string>, i: nat)
    requires i < |order| && m.Keeps(order[i])
    ensures m.Materialise(order[..i + 1]) == m.Materialise(order[..i]) + [m.Result(order[i]).value]
  {
    assert order[..i + 1][..i] == order[..i];
  }

  /** The tree refuses the next feature exactly when its id was entered already. */
  lemma {:induction false} EnterNext(fs: seq<Feature>, f: Feature, order: seq<string>, i: nat)
    requires i < |order| && Ids(fs) == order[..i] && f.id == order[i] && Distinct(order[..i])
    ensures 0 <= Find(fs, f.id) ==> UniquePrefix(order) == order[..i]
    ensures Find(fs, f.id) < 0 ==> Distinct(order[..i + 1]) && Ids(fs + [f]) == order[..i + 1]
  {
    assert order[..i + 1] == order[..i] + [order[i]];
    if 0 <= Find(fs, f.id) {
      assert Ids(fs)[Find(fs, f.id)] == f.id;
      PrefixStops(order, i);
    } else {
      assert forall j :: 0 <= j < i ==> Ids(fs)[j] == fs[j].id;
      assert Ids(fs + [f]) == Ids(fs) + [f.id];
    }
  }

  lemma {:induction false} PrefixStops(order: seq<string>, i: nat)
    requires i < |order| && Distinct(order[..i]) && order[i] in order[..i]
    ensures UniquePrefix(order) == order[..i]
    decreases |order|
  {
    var j :| 0 <= j < i && order[j] == order[i];
    var shorter := order[..|order| - 1];
    assert shorter[..i] == order[..i];
    if |order| == i + 1 {
    } else {
      PrefixStops(shorter, i);
    }
  }

  /** threeWayMerge: the merged tree and every conflict, each once. */
  method ThreeWayMerge(kernel: Kernel, tags: TagAllocator, base: seq<Feature>, ours: seq<Feature>, theirs: seq<Feature>)
    returns (merged: FeatureTree, conflicts: seq<MergeConflict>)
    requires 0 <= tags.counter
    ensures fresh(merged) && merged.Valid() && merged.tags == tags && merged.transformer == None
    ensures merged.features == Merge(base, ours, theirs).Features()
    ensures forall c :: c in conflicts <==> Merge(base, ours, theirs).Reports(c)
    ensures NoRepeats(conflicts)
  {
    ghost var m := Merge(base, ours, theirs);
    var mergedById, contentConflicts := JudgeAll(base, ours, theirs);
    var retained := RetainedIds(m, base, mergedById);
    var oursRel := RelativeIndex(m, ours, mergedById, retained);
    var theirsRel := RelativeIndex(m, theirs, mergedById, retained);
    var positions := PositionConflicts(m, retained, oursRel, theirsRel);
    NoPositionsInContent(m);
    conflicts := contentConflicts + positions;
    AppendPositions(m, contentConflicts, positions);
    var order := AppendAdditions(m, retained, ours, mergedById);
    order := AppendAdditions(m, order, theirs, mergedById);
    assert order == m.Order();
    OrderKept(m);
    merged := new FeatureTree(kernel, tags);
    EnterFeatures(m, merged, order, mergedById);
  }

  lemma {:induction false} NoPositionsInContent(m: Merge)
    ensures forall id, c :: c in m.Raised(id) ==> c.kind != PositionConflict
  {
    hide ContentEquals, ValueEquals, MergeParam, Param, Merge.Of, Merge.Hint;
  }

  lemma {:induction false} AppendPositions(m: Merge, cs: seq<MergeConflict>, ps: seq<MergeConflict>)
    requires NoRepeats(cs) && NoRepeats(ps)
    requires (forall c :: c in cs ==> c.kind != PositionConflict) && (forall c :: c in ps ==> c.kind == PositionConflict)
    ensures NoRepeats(cs + ps)
  {
    assert forall i :: 0 <= i < |cs| ==> cs[i] in cs;
    assert forall i :: 0 <= i < |ps| ==> ps[i] in ps;
  }

  lemma {:induction false} OrderKept(m: Merge)
    ensures forall id :: id in m.Order() ==> id in m.AllIds() && m.Keeps(id) && m.Result(id).value.id == id
  {
    RetainedMembers(m);
    var kept := m.Retained();
    NewcomersMembers(m, kept, Ids(m.ours));
    NewcomersMembers(m, kept + m.Newcomers(kept, Ids(m.ours)), Ids(m.theirs));
    forall id | id in m.Order() ensures m.Result(id).value.id == id { ResultId(m, id); }
  }
}
