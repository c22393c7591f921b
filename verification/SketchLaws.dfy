/**
 What removal and solving do to the tables of a sketch, slot by slot (src/capi/oreo_capi.cpp).
 */
module SketchLaws {
  import opened Wrappers
  import opened FeatureModel
  import opened SketchSlots
  import opened SketchTheory
  import opened SketchDispatch

  // ── Removal ────────────────────────────────────────────

  /** The same slots, except that the one with this id is removed. */
  predicate RemovedAt<T(==)>(was: seq<Slot<T>>, now: seq<Slot<T>>, id: int) {
    |now| == |was|
    && forall i :: 0 <= i < |was| ==> now[i].value == was[i].value && (now[i].removed <==> was[i].removed || i == id)
  }

  /** The constraint may mean the entity: one of its references has the id, and may be to an entity of that table. */
  predicate MayMean(c: SketchConstraint, t: Table, id: int) {
    exists p: nat :: p < 3 && At(c, p) == id && t in TablesOf(FamilyAt(c.kind, p))
  }

  function FamilyOf(t: Table): Family {
    match t
    case Points => Point
    case Lines => Line
    case Circles => Circle
    case Arcs => Arc
    case Constraints => NoEntity
  }

  lemma {:induction false} MatchesMeans(slotFamily: Family, slotPid: int, t: Table, pid: int)
    requires t != Constraints
    ensures Matches(slotFamily, slotPid, FamilyOf(t), pid) <==> slotPid == pid && t in TablesOf(slotFamily)
  {
  }

  lemma {:induction false} MentionsMeans(c: SketchConstraint, t: Table, id: int)
    requires t != Constraints
    ensures Mentions(c, FamilyOf(t), id) <==> MayMean(c, t, id)
  {
    var fs := FamiliesFor(c.kind);
    MatchesMeans(fs.e1, c.entity1, t, id);
    MatchesMeans(fs.e2, c.entity2, t, id);
    MatchesMeans(fs.e3, c.entity3, t, id);
    hide FamiliesFor, Matches, TablesOf;
    assert FamilyAt(c.kind, 0) == fs.e1 && FamilyAt(c.kind, 1) == fs.e2 && FamilyAt(c.kind, 2) == fs.e3;
    assert At(c, 0) == c.entity1 && At(c, 1) == c.entity2 && At(c, 2) == c.entity3;
    if p: nat :| p < 3 && At(c, p) == id && t in TablesOf(FamilyAt(c.kind, p)) { assert p == 0 || p == 1 || p == 2; }
  }

  /** The slots of the entity tables, and of the constraints, before and after a removal from one table. */
  predicate RemovedFrom(s: Sketch, u: Sketch, t: Table, id: int) {
    && (if t == Points then RemovedAt(s.points, u.points, id) else u.points == s.points)
    && (if t == Lines then RemovedAt(s.lines, u.lines, id) else u.lines == s.lines)
    && (if t == Circles then RemovedAt(s.circles, u.circles, id) else u.circles == s.circles)
    && (if t == Arcs then RemovedAt(s.arcs, u.arcs, id) else u.arcs == s.arcs)
    && u.lastResult == s.lastResult
    && |u.constraints| == |s.constraints|
    && forall i :: 0 <= i < |s.constraints| ==>
         u.constraints[i].value == s.constraints[i].value
         && (u.constraints[i].removed <==> s.constraints[i].removed || MayMean(s.constraints[i].value, t, id))
  }

  /**
   Removal succeeds exactly for a live entity. It then marks that slot, and every constraint that may mean the
   entity, and changes nothing else; otherwise it changes nothing.
   */
  lemma {:induction false} RemoveMeans(s: Sketch, t: Table, id: int)
    requires t != Constraints
    ensures var (u, ok) := RemoveEntity(s, FamilyOf(t), id);
            && (ok <==> 0 <= id < |FlagsOf(s, t)| && FlagsOf(s, t)[id])
            && (if ok then RemovedFrom(s, u, t, id) else u == s)
  {
    forall i | 0 <= i < |s.constraints| ensures Mentions(s.constraints[i].value, FamilyOf(t), id) <==> MayMean(s.constraints[i].value, t, id) {
      MentionsMeans(s.constraints[i].value, t, id);
    }
    hide Mentions, MayMean;
  }

  /** A flag is true exactly for a slot not yet removed. */
  lemma {:induction false} FlagsMean(s: Sketch, i: nat)
    ensures i < |FlagsOf(s, Points)| <==> i < |s.points|
    ensures i < |s.points| ==> (FlagsOf(s, Points)[i] <==> !s.points[i].removed)
    ensures i < |FlagsOf(s, Lines)| <==> i < |s.lines|
    ensures i < |s.lines| ==> (FlagsOf(s, Lines)[i] <==> !s.lines[i].removed)
    ensures i < |FlagsOf(s, Circles)| <==> i < |s.circles|
    ensures i < |s.circles| ==> (FlagsOf(s, Circles)[i] <==> !s.circles[i].removed)
    ensures i < |FlagsOf(s, Arcs)| <==> i < |s.arcs|
    ensures i < |s.arcs| ==> (FlagsOf(s, Arcs)[i] <==> !s.arcs[i].removed)
  {
  }

  // ── Solving ────────────────────────────────────────────

  /** The constraint in this slot is handed to the solver: it is not removed and all it refers to is alive. */
  predicate HandedOver(s: Sketch, i: int) {
    0 <= i < |s.constraints| && !s.constraints[i].removed && Resolvable(s, s.constraints[i].value)
  }

  lemma {:induction false} UsableMembers(v: View, slots: seq<Slot<SketchConstraint>>)
    ensures forall i: nat :: i in Usable(v, slots) <==> i < |slots| && !slots[i].removed && Translate(v, slots[i].value).Some?
  {
    hide Translate;
    if slots != [] {
      var n := |slots| - 1;
      UsableMembers(v, slots[..n]);
      assert slots == slots[..n] + [slots[n]];
    }
  }

  /** The k-th constraint handed over is the one before which k others are. */
  lemma {:induction false} SolvedIdsAre(s: Sketch)
    ensures forall i: nat :: i in SolvedIds(s) <==> HandedOver(s, i)
    ensures forall j, k :: 0 <= j < k < |SolvedIds(s)| ==> SolvedIds(s)[j] < SolvedIds(s)[k]
  {
    var v := s.Positions();
    UsableMembers(v, s.constraints);
    UsableAscends(v, s.constraints);
    forall i: nat | i < |s.constraints|
      ensures Translate(v, s.constraints[i].value).Some? <==> Resolvable(s, s.constraints[i].value)
    {
      TranslatesIffResolvable(s, s.constraints[i].value);
    }
    hide Translate, Resolvable;
  }

  /** What the solver reported, in the ids of the user: the slot of the constraint handed over at that position. */
  predicate ReportedAs(s: Sketch, reported: seq<int>, ids: seq<int>) {
    |ids| == |reported|
    && forall k :: 0 <= k < |ids| ==>
         if 0 <= reported[k] < |SolvedIds(s)| then ids[k] == SolvedIds(s)[reported[k]] else ids[k] == reported[k]
  }

  /** A table after a solve: the removed slots and all flags as before, and as live values those returned, in order. */
  predicate SolvedTo<T(==)>(was: seq<Slot<T>>, now: seq<Slot<T>>, values: seq<T>) {
    && |now| == |was|
    && (forall i :: 0 <= i < |was| ==> now[i].removed == was[i].removed && (was[i].removed ==> now[i] == was[i]))
    && |values| == |LiveIds(Flags(was))|
    && forall k :: 0 <= k < |values| ==> now[LiveIds(Flags(was))[k]].value == values[k]
  }

  lemma {:induction false} WrittenBackMeans<T>(slots: seq<Slot<T>>, values: seq<T>)
    requires |values| == |LiveIds(Flags(slots))|
    ensures SolvedTo(slots, WrittenBack(slots, values), values)
  {
    Bijection(Flags(slots));
    hide LiveIds, LiveIndex;
  }

  /**
   A solver that refuses leaves everything but the last result, which says so. Otherwise every live entity gets the
   value returned for its position, nothing else in the tables changes, and the result is the solver's with the
   constraints it names in the ids of the user.
   */
  lemma {:induction false} SolveMeans(s: Sketch, solve: Solver)
    requires KeepsLengths(solve)
    ensures var r := solve(Compact(s.points), Compact(s.lines), Compact(s.circles), Compact(s.arcs), Translated(s));
            var u := Solve(s, solve);
            && u.constraints == s.constraints
            && (r.None? ==> u == s.(lastResult := u.lastResult) && u.lastResult == SolveResult(SolveFailed, 0, [], []))
            && (r.Some? ==>
                  && SolvedTo(s.points, u.points, r.value.points) && SolvedTo(s.lines, u.lines, r.value.lines)
                  && SolvedTo(s.circles, u.circles, r.value.circles) && SolvedTo(s.arcs, u.arcs, r.value.arcs)
                  && u.lastResult.status == r.value.result.status
                  && u.lastResult.degreesOfFreedom == r.value.result.degreesOfFreedom
                  && ReportedAs(s, r.value.result.conflicting, u.lastResult.conflicting)
                  && ReportedAs(s, r.value.result.redundant, u.lastResult.redundant))
  {
    var r := solve(Compact(s.points), Compact(s.lines), Compact(s.circles), Compact(s.arcs), Translated(s));
    Lengths(solve, s);
    if r.Some? {
      WrittenBackMeans(s.points, r.value.points);
      WrittenBackMeans(s.lines, r.value.lines);
      WrittenBackMeans(s.circles, r.value.circles);
      WrittenBackMeans(s.arcs, r.value.arcs);
      RemapMeans(s, r.value.result.conflicting);
      RemapMeans(s, r.value.result.redundant);
    }
    hide KeepsLengths, Compact, Translated, WrittenBack, SolvedTo, ReportedAs, Remap, SolvedIds, LiveIds;
  }

  lemma {:induction false} RemapMeans(s: Sketch, reported: seq<int>)
    ensures ReportedAs(s, reported, Remap(reported, SolvedIds(s)))
  {
    hide SolvedIds;
  }
}
