/**
 applyResolutions told from the resolutions themselves (src/feature/merge.cpp): which resolution decides a conflict,
 when the call throws, and what a custom choice and an edited list lead to.
 */
module ResolutionMeaning {
  import opened Wrappers
  import opened FeatureModel
  import opened ParamJson
  import opened TreeState
  import opened EditingLaws
  import opened MergeSpec
  import opened MergeLaws
  import opened Resolutions
  import opened ResolutionTheory
  import opened MergeResolution

  // ── Which resolution decides ───────────────────────────

  predicate Answers(r: Resolution, c: MergeConflict) {
    r.featureId == c.featureId && r.paramName == c.paramName
  }

  /** The resolution answers the conflict, and no later one does. */
  predicate Decides(rs: seq<Resolution>, i: int, c: MergeConflict) {
    0 <= i < |rs| && Answers(rs[i], c) && forall j :: i < j < |rs| ==> !Answers(rs[j], c)
  }

  lemma {:induction false} DecidesIff(rs: seq<Resolution>, i: int, c: MergeConflict)
    ensures Decides(rs, i, c) ==> FindResolution(rs, c.featureId, c.paramName) == Some(rs[i])
  {
    if Decides(rs, i, c) && i < |rs| - 1 {
      var init := rs[..|rs| - 1];
      assert init[i] == rs[i] && forall j :: i < j < |init| ==> init[j] == rs[j];
      DecidesIff(init, i, c);
    }
  }

  lemma {:induction false} SomeDecides(rs: seq<Resolution>, c: MergeConflict) returns (i: int)
    ensures FindResolution(rs, c.featureId, c.paramName).Some? ==> Decides(rs, i, c)
  {
    i := |rs| - 1;
    if rs != [] && !Answers(rs[i], c) {
      i := SomeDecides(rs[..|rs| - 1], c);
    }
  }

  /** Of several resolutions for one feature and parameter the last counts, and one that answers no conflict changes nothing. */
  lemma {:induction false} OnlyDecidingCount(merged: seq<Feature>, cs: seq<MergeConflict>, rs: seq<Resolution>, qs: seq<Resolution>)
    requires forall c, i :: c in cs && Decides(rs, i, c) ==> exists j :: Decides(qs, j, c) && qs[j] == rs[i]
    requires forall c, j :: c in cs && Decides(qs, j, c) ==> exists i :: Decides(rs, i, c)
    ensures Apply(merged, cs, rs) == Apply(merged, cs, qs)
  {
    if cs != [] {
      var n := |cs| - 1;
      assert cs == cs[..n] + [cs[n]];
      hide Apply, Decides, ApplyOne;
      assert forall c :: c in cs[..n] ==> c in cs;
      OnlyDecidingCount(merged, cs[..n], rs, qs);
      SameDecision(cs[n], rs, qs);
      ApplySame(merged, cs, rs, qs);
    } else {
      assert Apply(merged, [], rs) == Apply(merged, [], qs);
    }
  }

  lemma {:induction false} SameDecision(c: MergeConflict, rs: seq<Resolution>, qs: seq<Resolution>)
    requires forall i :: Decides(rs, i, c) ==> exists j :: Decides(qs, j, c) && qs[j] == rs[i]
    requires forall j :: Decides(qs, j, c) ==> exists i :: Decides(rs, i, c)
    ensures FindResolution(rs, c.featureId, c.paramName) == FindResolution(qs, c.featureId, c.paramName)
  {
    var i := SomeDecides(rs, c);
    var j := SomeDecides(qs, c);
    if Decides(rs, i, c) {
      var j' :| Decides(qs, j', c) && qs[j'] == rs[i];
      DecidesIff(rs, i, c);
      DecidesIff(qs, j', c);
    }
  }

  lemma {:induction false} ApplySame(merged: seq<Feature>, cs: seq<MergeConflict>, rs: seq<Resolution>, qs: seq<Resolution>)
    requires cs != []
    requires var n := |cs| - 1; var c := cs[n];
             && Apply(merged, cs[..n], rs) == Apply(merged, cs[..n], qs)
             && FindResolution(rs, c.featureId, c.paramName) == FindResolution(qs, c.featureId, c.paramName)
    ensures Apply(merged, cs, rs) == Apply(merged, cs, qs)
  {
    hide FindResolution;
  }

  // ── When the call throws ───────────────────────────────

  /** A custom value that cannot be a flag or a type name, where one is needed. */
  predicate Misfits(c: MergeConflict, r: Resolution) {
    r.choice == Custom
    && ((c.kind == SuppressionConflict && !r.customValue.BoolV?) || (c.kind == TypeConflict && !r.customValue.StringV?))
  }

  /** On a merge's own conflicts the call throws exactly when one of them is decided by a custom value of the wrong alternative. */
  lemma {:induction false} ThrowsIffMisfit(m: Merge, cs: seq<MergeConflict>, rs: seq<Resolution>)
    requires Distinct(Ids(m.base)) && Collected(m, cs)
    ensures Apply(m.Features(), cs, rs).Thrown? <==> exists c, i :: c in cs && Decides(rs, i, c) && Misfits(c, rs[i])
  {
    hide *;
    MergeConflictsAreOwn(m, cs);
    OwnWellFormed(m.Features(), cs);
    ThrowsIffIllKinded(m.Features(), cs, rs);
    WellKindedIff(cs, rs);
  }

  lemma {:induction false} OwnWellFormed(merged: seq<Feature>, cs: seq<MergeConflict>)
    requires Own(merged, cs)
    ensures AllWellFormed(cs)
  {
    hide WellFormedConflict;
  }

  lemma {:induction false} MisfitIff(c: MergeConflict, r: Resolution)
    requires WellFormedConflict(c)
    ensures RightVariant(c, r) <==> !Misfits(c, r)
  {
  }

  lemma {:induction false} WellKindedIff(cs: seq<MergeConflict>, rs: seq<Resolution>)
    requires AllWellFormed(cs)
    ensures !WellKinded(cs, rs) <==> exists c, i :: c in cs && Decides(rs, i, c) && Misfits(c, rs[i])
  {
    hide RightVariant, Misfits, WellFormedConflict;
    if exists c, i :: c in cs && Decides(rs, i, c) && Misfits(c, rs[i]) {
      var c, i :| c in cs && Decides(rs, i, c) && Misfits(c, rs[i]);
      DecidesIff(rs, i, c);
      MisfitIff(c, rs[i]);
    }
    if !WellKinded(cs, rs) {
      var c :| c in cs && FindResolution(rs, c.featureId, c.paramName).Some?
               && !RightVariant(c, FindResolution(rs, c.featureId, c.paramName).value);
      var i := SomeDecides(rs, c);
      DecidesIff(rs, i, c);
      MisfitIff(c, rs[i]);
    }
  }

  // ── A custom choice ────────────────────────────────────

  /**
   A custom choice puts in exactly the custom value: as the parameter, the suppression flag or the type of the
   feature the conflict names. For a structural conflict it means base's feature.
   */
  lemma {:induction false} CustomTaken(m: Merge, cs: seq<MergeConflict>, rs: seq<Resolution>, c: MergeConflict, i: int)
    requires Distinct(Ids(m.base)) && Collected(m, cs) && Apply(m.Features(), cs, rs).Ok?
    requires c in cs && Decides(rs, i, c) && rs[i].choice == Custom && c.kind != PositionConflict
    ensures var out, v := Apply(m.Features(), cs, rs).value, rs[i].customValue;
            exists g :: g in out && g.id == c.featureId
              && match c.kind
                 case ParamConflict => Param(g, c.paramName) == Some(v)
                 case SuppressionConflict => v == BoolV(g.suppressed)
                 case TypeConflict => v == StringV(g.kind)
                 case AddRemoveConflict => Lookup(m.base, c.featureId) == Some(g)
                 case PositionConflict => false
  {
    MergeConflictsAreOwn(m, cs);
    ReportedShape(m, c);
    DecidesIff(rs, i, c);
    hide Own, Apply, Collected, FindResolution, Merge.Features, Merge.Reports, Decides;
    if c.kind == AddRemoveConflict {
      StructuralOutcome(m.Features(), cs, rs, c, rs[i]);
    } else {
      AnsweredOutcome(m.Features(), cs, rs, c, rs[i]);
    }
  }

  // ── Lists edited since ─────────────────────────────────

  /** A feature put back replaces the one of its id, or goes in at the hint, or at the end when the list is too short for it. */
  lemma {:induction false} PutMeans(out: seq<Feature>, f: Feature, hint: int)
    ensures var r := PutFeature(out, f, hint);
            if Has(out, f.id) then
              exists i: nat :: i < |out| && out[i].id == f.id && (forall j :: 0 <= j < i ==> out[j].id != f.id) && r == out[i := f]
            else WithOneAt(out, r, if 0 <= hint <= |out| then hint else |out|, f)
  {
    FoundIff(out, f.id);
    if 0 <= Find(out, f.id) {
      var i: nat := Find(out, f.id);
      forall j | 0 <= j < i ensures out[j].id != f.id {
        assert Ids(out)[..i][j] == out[j].id;
      }
    } else {
      if 0 <= hint <= |out| { WithOneInserted(out, hint, f); }
    }
  }

  /** A removal takes out the feature of the id and nothing else. */
  lemma {:induction false} DropMeans(out: seq<Feature>, id: string)
    requires Distinct(Ids(out))
    ensures var r := DropFeature(out, id);
            if Has(out, id) then exists i: nat :: i < |out| && out[i].id == id && WithOneAt(r, out, i, out[i]) else r == out
  {
    FoundIff(out, id);
  }
}
