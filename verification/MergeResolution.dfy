/**
 applyResolutions on the conflicts of its own merge: such lists satisfy the hypotheses of ResolutionTheory,
 the side chosen is the side obtained, and the C API can enter the outcome into a fresh tree.
 */
module MergeResolution {
  import opened Wrappers
  import opened FeatureModel
  import opened ParamJson
  import opened TagAllocation
  import opened ReplaySpec
  import opened TreeState
  import opened FeatureTrees
  import opened MergeSpec
  import opened MergeLaws
  import opened Resolutions
  import opened ResolutionTheory

  /** A list of the conflicts a merge reports, each once, in any order. */
  ghost predicate Collected(m: Merge, cs: seq<MergeConflict>) {
    && (forall i, j :: 0 <= i < j < |cs| ==> cs[i] != cs[j])
    && (forall c :: c in cs <==> m.Reports(c))
  }

  // ── Merge conflicts are keyed ──────────────────────────

  /** What a content conflict says about the sides it was raised for. */
  predicate Describes(c: MergeConflict, id: string, s: Sides, hint: int) {
    && c.featureId == id
    && match c.kind
       case ParamConflict =>
         && s.ours.Some? && s.theirs.Some?
         && var b := if s.base.Some? then s.base.value else s.ours.value;
            c == ParamClash(id, c.paramName, Param(b, c.paramName), Param(s.ours.value, c.paramName), Param(s.theirs.value, c.paramName))
       case SuppressionConflict =>
         && s.ours.Some? && s.theirs.Some?
         && var b := if s.base.Some? then s.base.value else s.ours.value;
            c == Simple(SuppressionConflict, id, "", BoolV(b.suppressed), BoolV(s.ours.value.suppressed), BoolV(s.theirs.value.suppressed))
       case TypeConflict =>
         && s.ours.Some? && s.theirs.Some?
         && c == Simple(TypeConflict, id, "", StringV(if s.base.Some? then s.base.value.kind else ""),
                        StringV(s.ours.value.kind), StringV(s.theirs.value.kind))
       case AddRemoveConflict => s.base.Some? && s.ours.Some? != s.theirs.Some? && c == AddRemove(id, s, hint)
       case PositionConflict => false
  }

  lemma {:induction false} ConflictDescribes(id: string, s: Sides, hint: int, c: MergeConflict)
    requires c in ContentConflicts(id, s, hint)
    ensures Describes(c, id, s, hint) && MergedFeature(s).Some?
  {
    match s
    case Sides(None, Some(o), Some(t)) =>
      if c in Differing(id, o, t) { var p :| p in o.params.Keys + t.params.Keys && c == Disagrees(id, o, t, p); }
    case Sides(Some(b), Some(o), Some(t)) =>
      if c in Clashes(id, b, o, t) {
        var p :| p in ParamNames(s) && c == ParamClash(id, p, Param(b, p), Param(o, p), Param(t, p));
      }
    case _ =>
  }

  lemma {:induction false} DescribedByKey(c: MergeConflict, d: MergeConflict, id: string, s: Sides, hint: int)
    requires Describes(c, id, s, hint) && Describes(d, id, s, hint) && c.kind == d.kind && c.paramName == d.paramName
    ensures c == d
  {
  }

  lemma {:induction false} ReportedShape(m: Merge, c: MergeConflict)
    requires m.Reports(c)
    ensures c.kind != PositionConflict ==>
              c.featureId in m.AllIds() && Describes(c, c.featureId, m.Of(c.featureId), m.Hint(c.featureId)) && m.Keeps(c.featureId)
    ensures c.kind == PositionConflict ==> exists i: nat :: i < |m.Retained()| && c == m.PositionConflictAt(i)
  {
    if c.featureId in m.AllIds() && c in m.Raised(c.featureId) {
      ConflictDescribes(c.featureId, m.Of(c.featureId), m.Hint(c.featureId), c);
    }
  }

  /** A merge reports at most one conflict for each kind, feature and parameter. */
  lemma {:induction false} OneConflictPerKey(m: Merge, c: MergeConflict, d: MergeConflict)
    requires Distinct(Ids(m.base)) && m.Reports(c) && m.Reports(d) && HasKey(d, c.kind, c.featureId, c.paramName)
    ensures c == d
  {
    ReportedShape(m, c);
    ReportedShape(m, d);
    if c.kind == PositionConflict {
      RetainedMembers(m);
      var i: nat :| i < |m.Retained()| && c == m.PositionConflictAt(i);
      var j: nat :| j < |m.Retained()| && d == m.PositionConflictAt(j);
      assert m.Retained()[i] == m.Retained()[j];
    } else {
      DescribedByKey(c, d, c.featureId, m.Of(c.featureId), m.Hint(c.featureId));
    }
  }

  lemma {:induction false} ReportedWellFormed(m: Merge, c: MergeConflict)
    requires Distinct(Ids(m.base)) && m.Reports(c)
    ensures WellFormedConflict(c) && c.featureId in Ids(m.Features())
  {
    NothingRefused(m);
    ReportedShape(m, c);
    if c.kind == PositionConflict {
      var i: nat :| i < |m.Retained()| && c == m.PositionConflictAt(i);
      RetainedMembers(m);
      assert m.Retained()[i] in m.Retained();
    }
  }

  /** The conflicts of a merge meet the assumptions of ResolutionTheory, next to the features that merge produced. */
  lemma {:induction false} MergeConflictsAreOwn(m: Merge, cs: seq<MergeConflict>)
    requires Distinct(Ids(m.base)) && Collected(m, cs)
    ensures Own(m.Features(), cs)
  {
    NothingRefused(m);
    forall i, j | 0 <= i < j < |cs| ensures !HasKey(cs[j], cs[i].kind, cs[i].featureId, cs[i].paramName) {
      assert cs[i] in cs && cs[j] in cs && cs[i] != cs[j];
      hide Merge.Reports;
      if HasKey(cs[j], cs[i].kind, cs[i].featureId, cs[i].paramName) { OneConflictPerKey(m, cs[i], cs[j]); }
    }
    forall c | c in cs ensures WellFormedConflict(c) && c.featureId in Ids(m.Features()) { ReportedWellFormed(m, c); }
    forall c, d | c in cs && d in cs && c.kind == AddRemoveConflict && d.featureId == c.featureId
      ensures d.kind == AddRemoveConflict || d.kind == PositionConflict
    {
      hide Merge.Reports;
      ReportedShape(m, c);
      ReportedShape(m, d);
    }
    hide Merge.Reports, WellFormedConflict, HasKey, Merge.Features;
  }

  // ── Choices ────────────────────────────────────────────

  function SideOf(s: Sides, choice: Choice): Option<Feature> {
    match choice
    case Ours => s.ours
    case Theirs => s.theirs
    case _ => s.base
  }

  lemma {:induction false} AnswerFound(merged: seq<Feature>, cs: seq<MergeConflict>, rs: seq<Resolution>, c: MergeConflict, r: Resolution)
    requires Own(merged, cs) && c in cs && FindResolution(rs, c.featureId, c.paramName) == Some(r)
    ensures Answer(cs, rs, c.kind, c.featureId, c.paramName) == Some((c, r))
  {
    var a := Answer(cs, rs, c.kind, c.featureId, c.paramName).value;
    var i :| 0 <= i < |cs| && cs[i] == c;
    var j :| 0 <= j < |cs| && cs[j] == a.0;
    assert i == j;
  }

  lemma {:induction false} NotStructural(merged: seq<Feature>, cs: seq<MergeConflict>, rs: seq<Resolution>, c: MergeConflict)
    requires Own(merged, cs) && c in cs && c.kind != AddRemoveConflict && c.kind != PositionConflict
    ensures Answer(cs, rs, AddRemoveConflict, c.featureId, "").None?
  {
  }

  /** The facet the conflict is about has this value. */
  predicate Holds(g: Feature, c: MergeConflict, v: ParamValue) {
    && g.id == c.featureId
    && match c.kind
       case ParamConflict => c.paramName in g.params && g.params[c.paramName] == v
       case SuppressionConflict => v == BoolV(g.suppressed)
       case TypeConflict => v == StringV(g.kind)
       case _ => false
  }

  /** Among features with this one is one whose facet has the value its choice names: a recorded side's, or the custom one. */
  ghost predicate Took(out: seq<Feature>, c: MergeConflict, r: Resolution) {
    exists g :: g in out
      && (r.choice == Ours ==> Holds(g, c, c.oursValue))
      && (r.choice == Theirs ==> Holds(g, c, c.theirsValue))
      && (r.choice == Base ==> Holds(g, c, c.baseValue))
      && (r.choice == Custom ==> Holds(g, c, r.customValue))
  }

  /** The outcome holds the feature with the value that was chosen for the conflict. */
  lemma {:induction false} AnsweredOutcome(merged: seq<Feature>, cs: seq<MergeConflict>, rs: seq<Resolution>, c: MergeConflict, r: Resolution)
    requires Own(merged, cs) && Apply(merged, cs, rs).Ok? && c in cs && FindResolution(rs, c.featureId, c.paramName) == Some(r)
    requires c.kind != AddRemoveConflict && c.kind != PositionConflict
    ensures Took(Apply(merged, cs, rs).value, c, r)
  {
    ThrowsIffIllKinded(merged, cs, rs);
    ApplyIsResolveAll(merged, cs, rs);
    AnswerFound(merged, cs, rs, c, r);
    NotStructural(merged, cs, rs, c);
    assert c.featureId in Ids(merged);
    var i :| 0 <= i < |merged| && merged[i].id == c.featureId;
    var f := merged[i];
    assert RightVariant(c, r) && (c.kind != ParamConflict ==> c.paramName == "");
    hide Own, Answer, Apply, FindResolution, WellKinded, Ids;
    ResolvedMember(merged, cs, rs, f);
    var g := ResolutionTheory.Resolve(cs, rs, f).value;
    assert Param(g, c.paramName) == ResolvedParam(f, cs, rs, c.paramName);
    assert Holds(g, c, Chosen(c, r));
    hide ResolutionTheory.Resolve, ResolveAll, Holds;
  }

  /** A structural choice leaves the feature it names in the outcome, or no feature of that id; a custom one means base. */
  lemma {:induction false} StructuralOutcome(merged: seq<Feature>, cs: seq<MergeConflict>, rs: seq<Resolution>, c: MergeConflict, r: Resolution)
    requires Own(merged, cs) && Apply(merged, cs, rs).Ok? && c in cs && FindResolution(rs, c.featureId, c.paramName) == Some(r)
    requires c.kind == AddRemoveConflict
    ensures var out := Apply(merged, cs, rs).value;
            var f := if r.choice == Ours then c.oursSnapshot else if r.choice == Theirs then c.theirsSnapshot else c.baseSnapshot;
            if f.Some? then f.value in out else c.featureId !in Ids(out)
  {
    ThrowsIffIllKinded(merged, cs, rs);
    ApplyIsResolveAll(merged, cs, rs);
    AnswerFound(merged, cs, rs, c, r);
    assert c.featureId in Ids(merged) && WellFormedConflict(c);
    var i :| 0 <= i < |merged| && merged[i].id == c.featureId;
    assert ResolutionTheory.Resolve(cs, rs, merged[i]) == ChosenFeature(c, r);
    if ChosenFeature(c, r).Some? {
      ResolvedMember(merged, cs, rs, merged[i]);
    } else {
      assert AllWellFormed(cs);
      ResolvedIds(merged, cs, rs);
      SelectMembers(Ids(merged), Survives(cs, rs));
    }
  }

  /**
   Choosing a side takes that side: its feature or its absence for a structural conflict, its type, its
   suppression, and its parameter when it has one; a side without the parameter leaves the empty string.
   */
  lemma {:induction false} ChosenSideTaken(m: Merge, cs: seq<MergeConflict>, rs: seq<Resolution>, c: MergeConflict, r: Resolution)
    requires Distinct(Ids(m.base)) && Collected(m, cs) && Apply(m.Features(), cs, rs).Ok?
    requires c in cs && FindResolution(rs, c.featureId, c.paramName) == Some(r) && c.kind != PositionConflict
    requires r.choice == Ours || r.choice == Theirs || (r.choice == Base && c.featureId in Ids(m.base))
    ensures var out := Apply(m.Features(), cs, rs).value; var side := SideOf(m.Of(c.featureId), r.choice);
            if c.kind == AddRemoveConflict then
              (if side.Some? then side.value in out else c.featureId !in Ids(out))
            else
              side.Some?
              && (exists g :: g in out && g.id == c.featureId
                    && (c.kind == TypeConflict ==> g.kind == side.value.kind)
                    && (c.kind == SuppressionConflict ==> g.suppressed == side.value.suppressed)
                    && (c.kind == ParamConflict ==> Param(g, c.paramName) == Some(OrEmpty(Param(side.value, c.paramName)))))
  {
    hide *;
    MergeConflictsAreOwn(m, cs);
    CollectedReports(m, cs, c);
    ReportedShape(m, c);
    if c.kind == AddRemoveConflict {
      StructuralOutcome(m.Features(), cs, rs, c, r);
      SideSnapshot(c, m.Of(c.featureId), m.Hint(c.featureId), r.choice);
    } else {
      AnsweredOutcome(m.Features(), cs, rs, c, r);
      BaseKnown(m, c.featureId);
      FacetTaken(Apply(m.Features(), cs, rs).value, c, r, m.Of(c.featureId), m.Hint(c.featureId));
    }
  }

  lemma {:induction false} CollectedReports(m: Merge, cs: seq<MergeConflict>, c: MergeConflict)
    requires Collected(m, cs) && c in cs
    ensures m.Reports(c)
  {
  }

  lemma {:induction false} BaseKnown(m: Merge, id: string)
    ensures id in Ids(m.base) <==> m.Of(id).base.Some?
  {
  }

  lemma {:induction false} SideSnapshot(c: MergeConflict, s: Sides, hint: int, choice: Choice)
    requires Describes(c, c.featureId, s, hint) && c.kind == AddRemoveConflict && choice != Custom
    ensures SideOf(s, choice) == if choice == Ours then c.oursSnapshot else if choice == Theirs then c.theirsSnapshot else c.baseSnapshot
  {
  }

  /** The recorded value that was taken is the chosen side's own. */
  lemma {:induction false} FacetTaken(out: seq<Feature>, c: MergeConflict, r: Resolution, s: Sides, hint: int)
    requires Describes(c, c.featureId, s, hint) && Took(out, c, r) && c.kind != AddRemoveConflict
    requires r.choice == Ours || r.choice == Theirs || (r.choice == Base && s.base.Some?)
    ensures var side := SideOf(s, r.choice);
            side.Some?
            && (exists g :: g in out && g.id == c.featureId
                  && (c.kind == TypeConflict ==> g.kind == side.value.kind)
                  && (c.kind == SuppressionConflict ==> g.suppressed == side.value.suppressed)
                  && (c.kind == ParamConflict ==> Param(g, c.paramName) == Some(OrEmpty(Param(side.value, c.paramName)))))
  {
  }

  // ── The C API ──────────────────────────────────────────

  /**
   oreo_merge_result_apply_resolutions: the outcome entered into a fresh tree; null when the resolution throws or
   the tree refuses an id. On a merge's own conflicts only the first can happen.
   */
  method ApplyToNewTree(kernel: Kernel, tags: TagAllocator, merged: seq<Feature>, cs: seq<MergeConflict>, rs: seq<Resolution>)
    returns (tree: FeatureTree?)
    requires 0 <= tags.counter
    ensures tree == null <==> Apply(merged, cs, rs).Thrown? || !Distinct(Ids(Apply(merged, cs, rs).value))
    ensures tree != null ==> fresh(tree) && tree.Valid() && tree.features == Apply(merged, cs, rs).value
    ensures Own(merged, cs) ==> (tree == null <==> !WellKinded(cs, rs))
  {
    var r := ApplyResolutions(merged, cs, rs);
    if Own(merged, cs) {
      ThrowsIffIllKinded(merged, cs, rs);
      if r.Ok? { IdsAfter(merged, cs, rs); }
    }
    hide Own, WellKinded, Apply;
    if r.Thrown? { return null; }
    var fresh' := new FeatureTree(kernel, tags);
    var finalized := r.value;
    for i := 0 to |finalized|
      invariant fresh(fresh') && fresh'.Valid() && fresh'.features == finalized[..i]
      invariant Distinct(Ids(finalized[..i]))
    {
      var ok := fresh'.AddFeature(finalized[i]);
      EnteredNext(finalized, i);
      if !ok { return null; }
    }
    assert finalized[..|finalized|] == finalized;
    return fresh';
  }

  lemma {:induction false} EnteredNext(fs: seq<Feature>, i: nat)
    requires i < |fs| && Distinct(Ids(fs[..i]))
    ensures 0 <= Find(fs[..i], fs[i].id) ==> !Distinct(Ids(fs))
    ensures Find(fs[..i], fs[i].id) < 0 ==> Distinct(Ids(fs[..i + 1]))
    ensures fs[..i + 1] == fs[..i] + [fs[i]]
  {
    var j := Find(fs[..i], fs[i].id);
    if 0 <= j {
      assert Ids(fs)[j] == Ids(fs)[i];
    } else {
      assert Ids(fs[..i + 1]) == Ids(fs[..i]) + [fs[i].id];
      assert forall a :: 0 <= a < i ==> Ids(fs[..i])[a] == fs[..i][a].id;
    }
  }
}
