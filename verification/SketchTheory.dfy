/**
 What holds of a sketch through every run of its operations: ids are for life, cascading removal leaves no
 constraint dangling, and a solve touches live entities only.
 */
module SketchTheory {
  import opened Wrappers
  import opened FeatureModel
  import opened SketchSlots

  datatype Op =
    | AddPointOp(p: SketchPoint) | AddLineOp(l: SketchLine) | AddCircleOp(c: SketchCircle) | AddArcOp(a: SketchArc)
    | AddConstraintOp(k: SketchConstraint)
    | RemoveOp(f: Family, id: int) | RemoveConstraintOp(id: int)
    | SolveOp(solve: Solver)

  datatype Table = Points | Lines | Circles | Arcs | Constraints

  /** The table an operation adds a slot to. */
  function Adds(op: Op): Option<Table> {
    match op
    case AddPointOp(_) => Some(Points)
    case AddLineOp(_) => Some(Lines)
    case AddCircleOp(_) => Some(Circles)
    case AddArcOp(_) => Some(Arcs)
    case AddConstraintOp(_) => Some(Constraints)
    case _ => None
  }

  function FlagsOf(s: Sketch, t: Table): seq<bool> {
    match t
    case Points => Flags(s.points)
    case Lines => Flags(s.lines)
    case Circles => Flags(s.circles)
    case Arcs => Flags(s.arcs)
    case Constraints => Flags(s.constraints)
  }

  ghost predicate Allowed(op: Op) {
    op.SolveOp? ==> KeepsLengths(op.solve)
  }

  ghost function Perform(s: Sketch, op: Op): Sketch
    requires Allowed(op)
  {
    match op
    case AddPointOp(p) => s.(points := s.points + [Slot(p, false)])
    case AddLineOp(l) => s.(lines := s.lines + [Slot(l, false)])
    case AddCircleOp(c) => s.(circles := s.circles + [Slot(c, false)])
    case AddArcOp(a) => s.(arcs := s.arcs + [Slot(a, false)])
    case AddConstraintOp(k) => s.(constraints := s.constraints + [Slot(k, false)])
    case RemoveOp(f, id) => RemoveEntity(s, f, id).0
    case RemoveConstraintOp(id) => if CanRemove(Flags(s.constraints), id) then s.(constraints := Kill(s.constraints, id)) else s
    case SolveOp(solve) => Solve(s, solve)
  }

  ghost function Run(s: Sketch, ops: seq<Op>): Sketch
    requires forall op :: op in ops ==> Allowed(op)
  {
    if ops == [] then s else Perform(Run(s, ops[..|ops| - 1]), ops[|ops| - 1])
  }

  // ── Ids are for life ───────────────────────────────────

  /** No slot is taken away and no removed entry comes back. */
  predicate Later(was: seq<bool>, now: seq<bool>) {
    |was| <= |now| && forall i :: 0 <= i < |was| && now[i] ==> was[i]
  }

  lemma {:induction false} SolveKeepsFlags(s: Sketch, solve: Solver)
    requires KeepsLengths(solve)
    ensures forall t :: FlagsOf(Solve(s, solve), t) == FlagsOf(s, t)
    ensures Solve(s, solve).constraints == s.constraints
  {
    hide LiveIds, LiveIndex, Translated, Remap;
    Lengths(solve, s);
    forall t ensures FlagsOf(Solve(s, solve), t) == FlagsOf(s, t) {
      match t
      case Points =>
      case Lines =>
      case Circles =>
      case Arcs =>
      case Constraints =>
    }
  }

  lemma {:induction false} PerformKeepsIds(s: Sketch, op: Op, t: Table)
    requires Allowed(op)
    ensures Later(FlagsOf(s, t), FlagsOf(Perform(s, op), t))
    ensures Adds(op) == Some(t) ==> |FlagsOf(Perform(s, op), t)| == |FlagsOf(s, t)| + 1
  {
    match op
    case SolveOp(solve) => SolveKeepsFlags(s, solve); hide Solve;
    case RemoveOp(f, id) => RemoveKeepsIds(s, f, id, t);
    case RemoveConstraintOp(_) =>
    case _ =>
  }

  lemma {:induction false} RemoveKeepsIds(s: Sketch, f: Family, id: int, t: Table)
    ensures Later(FlagsOf(s, t), FlagsOf(RemoveEntity(s, f, id).0, t))
  {
    hide Mentions;
  }

  lemma {:induction false} RunKeepsIds(s: Sketch, ops: seq<Op>, m: nat, t: Table)
    requires (forall op :: op in ops ==> Allowed(op)) && m <= |ops|
    ensures Later(FlagsOf(Run(s, ops[..m]), t), FlagsOf(Run(s, ops), t))
  {
    if m == |ops| {
      assert ops[..m] == ops;
    } else {
      var n := |ops| - 1;
      assert ops[..n][..m] == ops[..m];
      RunKeepsIds(s, ops[..n], m, t);
      PerformKeepsIds(Run(s, ops[..n]), ops[n], t);
      hide Perform, FlagsOf, Adds, Later;
      LaterTwice(FlagsOf(Run(s, ops[..m]), t), FlagsOf(Run(s, ops[..n]), t), FlagsOf(Run(s, ops), t));
    }
  }

  lemma {:induction false} LaterTwice(a: seq<bool>, b: seq<bool>, c: seq<bool>)
    requires Later(a, b) && Later(b, c)
    ensures Later(a, c)
  {
  }

  /** The id an adding operation returns. */
  ghost function IssuedAt(s: Sketch, ops: seq<Op>, i: nat): nat
    requires (forall op :: op in ops ==> Allowed(op)) && i < |ops| && Adds(ops[i]).Some?
  {
    |FlagsOf(Run(s, ops[..i]), Adds(ops[i]).value)|
  }

  /** Through every run the ids issued in one table strictly increase, whatever is removed in between. */
  lemma {:induction false} IdsNeverReused(s: Sketch, ops: seq<Op>, i: nat, j: nat)
    requires (forall op :: op in ops ==> Allowed(op)) && i < j < |ops|
    requires Adds(ops[i]).Some? && Adds(ops[i]) == Adds(ops[j])
    ensures IssuedAt(s, ops, i) < IssuedAt(s, ops, j)
  {
    var t := Adds(ops[i]).value;
    assert ops[..i + 1][..i] == ops[..i] && ops[..j][..i + 1] == ops[..i + 1];
    PerformKeepsIds(Run(s, ops[..i]), ops[i], t);
    RunKeepsIds(s, ops[..j], i + 1, t);
    hide Perform, FlagsOf;
  }

  // ── References stay resolvable ─────────────────────────

  /** sketchEntityAlive, for a family a reference can have. */
  predicate EntityAlive(s: Sketch, f: Family, pid: int) {
    match f
    case NoEntity => pid == -1
    case Point => CanRemove(Flags(s.points), pid)
    case Line => CanRemove(Flags(s.lines), pid)
    case Circle => CanRemove(Flags(s.circles), pid)
    case Arc => CanRemove(Flags(s.arcs), pid)
    case AnyCurve => CanRemove(Flags(s.lines), pid) || CanRemove(Flags(s.circles), pid) || CanRemove(Flags(s.arcs), pid)
    case CircleOrArc => CanRemove(Flags(s.circles), pid) || CanRemove(Flags(s.arcs), pid)
  }

  lemma {:induction false} GetLive(flags: seq<bool>, pid: int)
    ensures Get(LiveIndices(flags), pid) == LiveIndex(flags, pid)
    ensures LiveIndex(flags, pid) >= 0 <==> CanRemove(flags, pid)
  {
  }

  lemma {:induction false} ResolvesIffAlive(s: Sketch, f: Family, pid: int)
    requires f != NoEntity
    ensures ResolveEntity(s.Positions(), f, pid) >= 0 <==> EntityAlive(s, f, pid)
  {
    GetLive(Flags(s.points), pid);
    GetLive(Flags(s.lines), pid);
    GetLive(Flags(s.circles), pid);
    GetLive(Flags(s.arcs), pid);
    hide Get, LiveIndices, LiveIndex, CanRemove;
  }

  predicate AliveOrUnused(s: Sketch, f: Family, pid: int) {
    f == NoEntity || EntityAlive(s, f, pid)
  }

  /** Every entity the constraint uses is alive. */
  predicate Resolvable(s: Sketch, c: SketchConstraint) {
    var fs := FamiliesFor(c.kind);
    AliveOrUnused(s, fs.e1, c.entity1) && AliveOrUnused(s, fs.e2, c.entity2) && AliveOrUnused(s, fs.e3, c.entity3)
  }

  lemma {:induction false} TranslatesIffResolvable(s: Sketch, c: SketchConstraint)
    ensures Translate(s.Positions(), c).Some? <==> Resolvable(s, c)
  {
    var fs := FamiliesFor(c.kind);
    if fs.e1 != NoEntity { ResolvesIffAlive(s, fs.e1, c.entity1); }
    if fs.e2 != NoEntity { ResolvesIffAlive(s, fs.e2, c.entity2); }
    if fs.e3 != NoEntity { ResolvesIffAlive(s, fs.e3, c.entity3); }
    hide FamiliesFor, ResolveEntity, EntityAlive;
  }

  predicate NoneDangling(s: Sketch) {
    forall i :: 0 <= i < |s.constraints| && !s.constraints[i].removed ==> Resolvable(s, s.constraints[i].value)
  }

  lemma {:induction false} StaysAlive(s: Sketch, op: Op, f: Family, pid: int)
    requires Allowed(op) && EntityAlive(s, f, pid)
    requires !op.RemoveOp? || !Matches(f, pid, op.f, op.id)
    ensures EntityAlive(Perform(s, op), f, pid)
  {
    match op
    case SolveOp(solve) => SolveStaysAlive(s, solve, f, pid);
    case RemoveOp(_, _) =>
    case RemoveConstraintOp(_) =>
    case _ =>
  }

  lemma {:induction false} SolveStaysAlive(s: Sketch, solve: Solver, f: Family, pid: int)
    requires KeepsLengths(solve)
    ensures EntityAlive(Solve(s, solve), f, pid) == EntityAlive(s, f, pid)
  {
    SolveKeepsFlags(s, solve);
    hide Solve, CanRemove, Flags;
    assert FlagsOf(Solve(s, solve), Points) == FlagsOf(s, Points);
    assert FlagsOf(Solve(s, solve), Lines) == FlagsOf(s, Lines);
    assert FlagsOf(Solve(s, solve), Circles) == FlagsOf(s, Circles);
    assert FlagsOf(Solve(s, solve), Arcs) == FlagsOf(s, Arcs);
  }

  lemma {:induction false} StaysResolvable(s: Sketch, op: Op, c: SketchConstraint)
    requires Allowed(op) && Resolvable(s, c) && (op.RemoveOp? ==> !Mentions(c, op.f, op.id))
    ensures Resolvable(Perform(s, op), c)
  {
    var fs := FamiliesFor(c.kind);
    if fs.e1 != NoEntity { StaysAlive(s, op, fs.e1, c.entity1); }
    if fs.e2 != NoEntity { StaysAlive(s, op, fs.e2, c.entity2); }
    if fs.e3 != NoEntity { StaysAlive(s, op, fs.e3, c.entity3); }
    hide FamiliesFor, EntityAlive, Perform, Matches;
  }

  /** A live constraint after an operation is one that was live before it and is not cascaded away, or a new one. */
  lemma {:induction false} SurvivingConstraint(s: Sketch, op: Op, i: nat)
    requires Allowed(op) && i < |Perform(s, op).constraints| && !Perform(s, op).constraints[i].removed
    ensures if i < |s.constraints| then
              !s.constraints[i].removed && s.constraints[i].value == Perform(s, op).constraints[i].value
              && (op.RemoveOp? && RemoveEntity(s, op.f, op.id).1 ==> !Mentions(s.constraints[i].value, op.f, op.id))
            else op.AddConstraintOp? && Perform(s, op).constraints[i].value == op.k
  {
    if op.SolveOp? { SolveKeepsFlags(s, op.solve); }
    hide Mentions, Solve;
  }

  /** A constraint is added only while its entities are alive. */
  ghost predicate AddsResolvable(s: Sketch, op: Op) {
    op.AddConstraintOp? ==> Resolvable(s, op.k)
  }

  lemma {:induction false} PerformKeepsResolvable(s: Sketch, op: Op)
    requires Allowed(op) && NoneDangling(s) && AddsResolvable(s, op)
    ensures NoneDangling(Perform(s, op))
  {
    var now := Perform(s, op);
    if op.RemoveOp? && !RemoveEntity(s, op.f, op.id).1 {
      assert now == s;
    } else {
      forall i: nat | i < |now.constraints| && !now.constraints[i].removed ensures Resolvable(now, now.constraints[i].value) {
        SurvivingConstraint(s, op, i);
        hide Perform, Resolvable, RemoveEntity, Mentions;
        StaysResolvable(s, op, now.constraints[i].value);
      }
    }
  }

  /** Constraints added on live entities stay resolvable through every run, because removal cascades. */
  lemma {:induction false} RunKeepsResolvable(s: Sketch, ops: seq<Op>)
    requires (forall op :: op in ops ==> Allowed(op)) && NoneDangling(s)
    requires forall i :: 0 <= i < |ops| ==> AddsResolvable(Run(s, ops[..i]), ops[i])
    ensures NoneDangling(Run(s, ops))
  {
    if ops != [] {
      var n := |ops| - 1;
      hide NoneDangling, Perform, AddsResolvable, Allowed;
      assert forall i :: 0 <= i < n ==> ops[..n][..i] == ops[..i] && ops[..n][i] == ops[i];
      RunKeepsResolvable(s, ops[..n]);
      PerformKeepsResolvable(Run(s, ops[..n]), ops[n]);
    }
  }

  /** Then a solve skips no live constraint. */
  lemma {:induction false} NothingSkipped(s: Sketch)
    requires NoneDangling(s)
    ensures SolvedIds(s) == LiveIds(Flags(s.constraints))
  {
    var v := s.Positions();
    forall i | 0 <= i < |s.constraints| && !s.constraints[i].removed ensures Translate(v, s.constraints[i].value).Some? {
      TranslatesIffResolvable(s, s.constraints[i].value);
    }
    UsableAll(v, s.constraints);
  }

  lemma {:induction false} UsableAll(v: View, slots: seq<Slot<SketchConstraint>>)
    requires forall i :: 0 <= i < |slots| && !slots[i].removed ==> Translate(v, slots[i].value).Some?
    ensures Usable(v, slots) == LiveIds(Flags(slots))
  {
    hide Translate;
    if slots != [] {
      UsableAll(v, slots[..|slots| - 1]);
      assert Flags(slots)[..|slots| - 1] == Flags(slots[..|slots| - 1]);
    }
  }

  // ── What the solver is given and what it changes ───────

  /** The solver's own check of an index against the sizes it was given. */
  predicate FamilyOk(s: Sketch, f: Family, index: int) {
    match f
    case NoEntity => index == -1
    case Point => 0 <= index < |Compact(s.points)|
    case Line => 0 <= index < |Compact(s.lines)|
    case Circle => 0 <= index < |Compact(s.circles)|
    case Arc => 0 <= index < |Compact(s.arcs)|
    case AnyCurve => 0 <= index && (index < |Compact(s.lines)| || index < |Compact(s.circles)| || index < |Compact(s.arcs)|)
    case CircleOrArc => 0 <= index && (index < |Compact(s.circles)| || index < |Compact(s.arcs)|)
  }

  predicate StandsFor(flags: seq<bool>, index: int, pid: int) {
    0 <= index < |LiveIds(flags)| && LiveIds(flags)[index] == pid
  }

  /** The position given to the solver is that of the public id, in a family the reference allows. */
  predicate NamesSame(s: Sketch, f: Family, index: int, pid: int) {
    match f
    case NoEntity => index == -1
    case Point => StandsFor(Flags(s.points), index, pid)
    case Line => StandsFor(Flags(s.lines), index, pid)
    case Circle => StandsFor(Flags(s.circles), index, pid)
    case Arc => StandsFor(Flags(s.arcs), index, pid)
    case AnyCurve => StandsFor(Flags(s.lines), index, pid) || StandsFor(Flags(s.circles), index, pid) || StandsFor(Flags(s.arcs), index, pid)
    case CircleOrArc => StandsFor(Flags(s.circles), index, pid) || StandsFor(Flags(s.arcs), index, pid)
  }

  lemma {:induction false} PositionStands(flags: seq<bool>, pid: int)
    ensures Get(LiveIndices(flags), pid) >= 0 ==> StandsFor(flags, Get(LiveIndices(flags), pid), pid)
  {
    GetLive(flags, pid);
    Bijection(flags);
    hide LiveIds;
  }

  lemma {:induction false} EntityTranslated(s: Sketch, f: Family, pid: int)
    requires TranslateEntity(s.Positions(), f, pid).Some?
    ensures var index := TranslateEntity(s.Positions(), f, pid).value; NamesSame(s, f, index, pid) && FamilyOk(s, f, index)
  {
    PositionStands(Flags(s.points), pid);
    PositionStands(Flags(s.lines), pid);
    PositionStands(Flags(s.circles), pid);
    PositionStands(Flags(s.arcs), pid);
    hide Get, LiveIndices, LiveIds, Flags;
  }

  /** Whatever a solve passes on, the solver's index check accepts: each position is that of the id written down in a family allowed there. */
  lemma {:induction false} TranslatedAccepted(s: Sketch, k: nat)
    requires k < |Translated(s)|
    ensures var c, live := s.constraints[SolvedIds(s)[k]].value, Translated(s)[k];
            var fs := FamiliesFor(c.kind);
            && live.kind == c.kind && live.value == c.value
            && NamesSame(s, fs.e1, live.entity1, c.entity1) && FamilyOk(s, fs.e1, live.entity1)
            && NamesSame(s, fs.e2, live.entity2, c.entity2) && FamilyOk(s, fs.e2, live.entity2)
            && NamesSame(s, fs.e3, live.entity3, c.entity3) && FamilyOk(s, fs.e3, live.entity3)
  {
    var c := s.constraints[SolvedIds(s)[k]].value;
    var fs := FamiliesFor(c.kind);
    EntityTranslated(s, fs.e1, c.entity1);
    EntityTranslated(s, fs.e2, c.entity2);
    EntityTranslated(s, fs.e3, c.entity3);
    hide NamesSame, FamilyOk, FamiliesFor, TranslateEntity, Sketch.Positions;
  }

  /** A solve leaves every removed slot as it was, and the view of the outcome is what the solver returned. */
  lemma {:induction false} SolveTouchesLive<T>(slots: seq<Slot<T>>, values: seq<T>)
    requires |values| == |LiveIds(Flags(slots))|
    ensures Flags(WrittenBack(slots, values)) == Flags(slots)
    ensures Compact(WrittenBack(slots, values)) == values
    ensures forall i :: 0 <= i < |slots| && slots[i].removed ==> WrittenBack(slots, values)[i] == slots[i]
  {
    Bijection(Flags(slots));
    hide LiveIds, LiveIndex;
    assert Flags(WrittenBack(slots, values)) == Flags(slots);
  }

  /** A solver that moves nothing leaves the table as it was. */
  lemma {:induction false} NothingMoved<T>(slots: seq<Slot<T>>)
    ensures WrittenBack(slots, Compact(slots)) == slots
  {
    Bijection(Flags(slots));
    hide LiveIds, LiveIndex;
  }

  lemma {:induction false} UsableAscends(v: View, slots: seq<Slot<SketchConstraint>>)
    ensures forall j, k :: 0 <= j < k < |Usable(v, slots)| ==> Usable(v, slots)[j] < Usable(v, slots)[k]
  {
    hide Translate;
    if slots != [] { UsableAscends(v, slots[..|slots| - 1]); }
  }

  /** When the solver reports distinct positions in range, the sketch reports distinct ids of live constraints. */
  lemma {:induction false} ReportsLiveIds(s: Sketch, reported: seq<int>)
    requires forall k :: 0 <= k < |reported| ==> 0 <= reported[k] < |Translated(s)|
    requires forall j, k :: 0 <= j < k < |reported| ==> reported[j] != reported[k]
    ensures var ids := Remap(reported, SolvedIds(s));
            && |ids| == |reported|
            && (forall k :: 0 <= k < |ids| ==> 0 <= ids[k] < |s.constraints| && !s.constraints[ids[k]].removed)
            && (forall j, k :: 0 <= j < k < |ids| ==> ids[j] != ids[k])
  {
    UsableAscends(s.Positions(), s.constraints);
    var u := SolvedIds(s);
    forall j, k | 0 <= j < k < |reported| ensures u[reported[j]] != u[reported[k]] {
      assert reported[j] < reported[k] || reported[k] < reported[j];
    }
    hide Translate;
  }
}
