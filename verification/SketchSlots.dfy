/**
 The slot store of a sketch (src/capi/oreo_capi.cpp): entities keep their ids for life, removed ones stay behind
 as tombstones, and the solver sees a compacted view of the live ones.
 */
module SketchSlots {
  import opened Wrappers
  import opened FeatureModel

  datatype SketchPoint = SketchPoint(x: Double, y: Double)
  datatype SketchLine = SketchLine(p1: SketchPoint, p2: SketchPoint, construction: bool)
  datatype SketchCircle = SketchCircle(center: SketchPoint, radius: Double, construction: bool)
  datatype SketchArc = SketchArc(center: SketchPoint, start: SketchPoint, end: SketchPoint, radius: Double, construction: bool)

  datatype ConstraintType =
    | Coincident | PointOnLine | PointOnCircle | Parallel | Perpendicular | Tangent | Distance | DistanceX | DistanceY
    | Angle | Radius | Equal | Symmetric | Horizontal | Vertical | Fixed | MidpointOnLine | TangentLineArc | TangentArcArc
    | TangentCircleCircle | TangentLineCircle | TangentCircleArc | PointOnArc | EqualRadius | EqualRadiusCircleArc
    | ArcLength | CoordinateX | CoordinateY | PointToLineDistance | CircleToLineDistance | PointToCircleDistance
    | CircleDiameter | Collinear | Concentric

  datatype SketchConstraint = SketchConstraint(kind: ConstraintType, entity1: int, entity2: int, entity3: int, value: Double)

  datatype Family = NoEntity | Point | Line | Circle | Arc | AnyCurve | CircleOrArc

  datatype Families = Families(e1: Family, e2: Family, e3: Family)

  /** constraintSchemaFor: the family each entity of a constraint belongs to. */
  function FamiliesFor(kind: ConstraintType): Families {
    match kind
    case Coincident | Distance | DistanceX | DistanceY => Families(Point, Point, NoEntity)
    case Symmetric => Families(Point, Point, Line)
    case PointOnLine | PointToLineDistance => Families(Point, Line, NoEntity)
    case PointOnCircle | PointToCircleDistance => Families(Point, Circle, NoEntity)
    case PointOnArc => Families(Point, Arc, NoEntity)
    case CircleToLineDistance => Families(Circle, Line, NoEntity)
    case MidpointOnLine | Parallel | Perpendicular | Angle | Equal | Collinear => Families(Line, Line, NoEntity)
    case Horizontal | Vertical => Families(Line, NoEntity, NoEntity)
    case Tangent => Families(AnyCurve, AnyCurve, NoEntity)
    case TangentLineArc => Families(Line, Arc, NoEntity)
    case TangentArcArc => Families(Arc, Arc, NoEntity)
    case TangentCircleCircle | EqualRadius | Concentric => Families(Circle, Circle, NoEntity)
    case TangentLineCircle => Families(Line, Circle, NoEntity)
    case TangentCircleArc | EqualRadiusCircleArc => Families(Circle, Arc, NoEntity)
    case Radius | CircleDiameter => Families(CircleOrArc, NoEntity, NoEntity)
    case ArcLength => Families(Arc, NoEntity, NoEntity)
    case Fixed | CoordinateX | CoordinateY => Families(Point, NoEntity, NoEntity)
  }

  datatype SolveStatus = Solved | Redundant | Conflicting | Underconstrained | SolveFailed

  datatype SolveResult = SolveResult(status: SolveStatus, degreesOfFreedom: int, conflicting: seq<int>, redundant: seq<int>)

  datatype Slot<T> = Slot(value: T, removed: bool)

  // ── Live entries of one family ─────────────────────────

  function Flags<T>(slots: seq<Slot<T>>): seq<bool> {
    seq(|slots|, i requires 0 <= i < |slots| => !slots[i].removed)
  }

  /** The ids of the live entries, ascending. */
  function LiveIds(flags: seq<bool>): (r: seq<nat>)
    ensures forall k :: 0 <= k < |r| ==> r[k] < |flags| && flags[r[k]]
  {
    if flags == [] then []
    else LiveIds(flags[..|flags| - 1]) + if flags[|flags| - 1] then [|flags| - 1] else []
  }

  /** The position of an id in the compacted view; -1 when it is dead or out of range. */
  function LiveIndex(flags: seq<bool>, pid: int): int {
    if 0 <= pid < |flags| && flags[pid] then |LiveIds(flags[..pid])| else -1
  }

  function LiveIndices(flags: seq<bool>): seq<int> {
    seq(|flags|, i requires 0 <= i < |flags| => LiveIndex(flags, i))
  }

  function Compact<T>(slots: seq<Slot<T>>): seq<T> {
    var ids := LiveIds(Flags(slots));
    seq(|ids|, k requires 0 <= k < |ids| => slots[ids[k]].value)
  }

  method CompactFamily<T>(slots: seq<Slot<T>>) returns (live: seq<T>, publicToLive: seq<int>, liveToPublic: seq<nat>)
    ensures live == Compact(slots)
    ensures publicToLive == LiveIndices(Flags(slots))
    ensures liveToPublic == LiveIds(Flags(slots))
  {
    live, publicToLive, liveToPublic := [], seq(|slots|, i => -1), [];
    ghost var flags := Flags(slots);
    for i := 0 to |slots|
      invariant |publicToLive| == |slots| && |live| == |liveToPublic|
      invariant liveToPublic == LiveIds(flags[..i])
      invariant forall k :: 0 <= k < |liveToPublic| ==> live[k] == slots[liveToPublic[k]].value
      invariant forall j :: 0 <= j < |slots| ==> publicToLive[j] == if j < i then LiveIndex(flags, j) else -1
    {
      assert flags[..i + 1][..i] == flags[..i];
      if slots[i].removed { continue; }
      publicToLive := publicToLive[i := |live|];
      liveToPublic := liveToPublic + [i];
      live := live + [slots[i].value];
    }
    assert flags[..|slots|] == flags;
  }

  // ── Resolving references ───────────────────────────────

  /** For each family, the position of every id in the compacted view. */
  datatype View = View(points: seq<int>, lines: seq<int>, circles: seq<int>, arcs: seq<int>)

  function Get(positions: seq<int>, pid: int): int {
    if 0 <= pid < |positions| then positions[pid] else -1
  }

  /** resolveEntity: among several families the first that knows the id answers. */
  function ResolveEntity(v: View, f: Family, pid: int): int {
    match f
    case NoEntity => -1
    case Point => Get(v.points, pid)
    case Line => Get(v.lines, pid)
    case Circle => Get(v.circles, pid)
    case Arc => Get(v.arcs, pid)
    case AnyCurve =>
      if Get(v.lines, pid) >= 0 then Get(v.lines, pid)
      else if Get(v.circles, pid) >= 0 then Get(v.circles, pid)
      else Get(v.arcs, pid)
    case CircleOrArc =>
      if Get(v.circles, pid) >= 0 then Get(v.circles, pid) else Get(v.arcs, pid)
  }

  function TranslateEntity(v: View, f: Family, pid: int): Option<int> {
    if f == NoEntity then Some(-1)
    else if ResolveEntity(v, f, pid) < 0 then None
    else Some(ResolveEntity(v, f, pid))
  }

  /** translateConstraint: public ids to positions in the view; None when an entity is dead. */
  function Translate(v: View, c: SketchConstraint): Option<SketchConstraint> {
    var fs := FamiliesFor(c.kind);
    var e1, e2, e3 := TranslateEntity(v, fs.e1, c.entity1), TranslateEntity(v, fs.e2, c.entity2), TranslateEntity(v, fs.e3, c.entity3);
    if e1.None? || e2.None? || e3.None? then None
    else Some(c.(entity1 := e1.value, entity2 := e2.value, entity3 := e3.value))
  }

  /** Whether a removed entity can be one the reference means. */
  predicate Covers(slotFamily: Family, f: Family) {
    || slotFamily == f
    || (slotFamily == AnyCurve && (f == Line || f == Circle || f == Arc))
    || (slotFamily == CircleOrArc && (f == Circle || f == Arc))
  }

  predicate Matches(slotFamily: Family, slotPid: int, f: Family, pid: int) {
    slotFamily != NoEntity && Covers(slotFamily, f) && slotPid == pid
  }

  predicate Mentions(c: SketchConstraint, f: Family, pid: int) {
    var fs := FamiliesFor(c.kind);
    Matches(fs.e1, c.entity1, f, pid) || Matches(fs.e2, c.entity2, f, pid) || Matches(fs.e3, c.entity3, f, pid)
  }

  /** cascadeConstraintsForRemovedEntity */
  function Cascade(slots: seq<Slot<SketchConstraint>>, f: Family, pid: int): seq<Slot<SketchConstraint>> {
    seq(|slots|, i requires 0 <= i < |slots| =>
      slots[i].(removed := slots[i].removed || Mentions(slots[i].value, f, pid)))
  }

  // ── The sketch ─────────────────────────────────────────

  datatype Sketch = Sketch(
    points: seq<Slot<SketchPoint>>,
    lines: seq<Slot<SketchLine>>,
    circles: seq<Slot<SketchCircle>>,
    arcs: seq<Slot<SketchArc>>,
    constraints: seq<Slot<SketchConstraint>>,
    lastResult: SolveResult)
  {
    /** buildLiveView, as far as ids are concerned. */
    function Positions(): View {
      View(LiveIndices(Flags(points)), LiveIndices(Flags(lines)), LiveIndices(Flags(circles)), LiveIndices(Flags(arcs)))
    }
  }

  function Kill<T>(slots: seq<Slot<T>>, id: int): seq<Slot<T>> {
    if 0 <= id < |slots| then slots[id := slots[id].(removed := true)] else slots
  }

  predicate CanRemove(flags: seq<bool>, id: int) {
    0 <= id < |flags| && flags[id]
  }

  /** removeSlotImpl on one of the four entity families; the boolean is the success code. */
  function RemoveEntity(s: Sketch, f: Family, id: int): (Sketch, bool) {
    var cs := Cascade(s.constraints, f, id);
    match f
    case Point => if CanRemove(Flags(s.points), id) then (s.(points := Kill(s.points, id), constraints := cs), true) else (s, false)
    case Line => if CanRemove(Flags(s.lines), id) then (s.(lines := Kill(s.lines, id), constraints := cs), true) else (s, false)
    case Circle => if CanRemove(Flags(s.circles), id) then (s.(circles := Kill(s.circles, id), constraints := cs), true) else (s, false)
    case Arc => if CanRemove(Flags(s.arcs), id) then (s.(arcs := Kill(s.arcs, id), constraints := cs), true) else (s, false)
    case _ => (s, false)
  }

  // ── Solving ────────────────────────────────────────────

  datatype Solution = Solution(points: seq<SketchPoint>, lines: seq<SketchLine>, circles: seq<SketchCircle>, arcs: seq<SketchArc>, result: SolveResult)

  /** The constraint solver: None when it refuses its input. */
  type Solver = (seq<SketchPoint>, seq<SketchLine>, seq<SketchCircle>, seq<SketchArc>, seq<SketchConstraint>) -> Option<Solution>

  /** The solver moves entities; it never adds or drops any. */
  ghost predicate KeepsLengths(solve: Solver) {
    forall ps, ls, cs, as', ks :: var r := solve(ps, ls, cs, as', ks);
      r.Some? ==> |r.value.points| == |ps| && |r.value.lines| == |ls| && |r.value.circles| == |cs| && |r.value.arcs| == |as'|
  }

  /** The ids of the constraints handed to the solver. */
  function SolvedIds(s: Sketch): seq<nat> {
    Usable(s.Positions(), s.constraints)
  }

  function Usable(v: View, slots: seq<Slot<SketchConstraint>>): (r: seq<nat>)
    ensures forall k :: 0 <= k < |r| ==> r[k] < |slots| && !slots[r[k]].removed && Translate(v, slots[r[k]].value).Some?
  {
    if slots == [] then []
    else
      var last := slots[|slots| - 1];
      Usable(v, slots[..|slots| - 1]) + if !last.removed && Translate(v, last.value).Some? then [|slots| - 1] else []
  }

  function Translated(s: Sketch): seq<SketchConstraint> {
    var ids := SolvedIds(s);
    seq(|ids|, k requires 0 <= k < |ids| => Translate(s.Positions(), s.constraints[ids[k]].value).value)
  }

  /** The solved values written to the live slots. */
  function WrittenBack<T>(slots: seq<Slot<T>>, values: seq<T>): seq<Slot<T>>
    requires |values| == |LiveIds(Flags(slots))|
  {
    Bijection(Flags(slots));
    seq(|slots|, i requires 0 <= i < |slots| =>
      if slots[i].removed then slots[i] else slots[i].(value := values[LiveIndex(Flags(slots), i)]))
  }

  function Remap(ids: seq<int>, toPublic: seq<nat>): seq<int> {
    seq(|ids|, k requires 0 <= k < |ids| => if 0 <= ids[k] < |toPublic| then toPublic[ids[k]] else ids[k])
  }

  function Solve(s: Sketch, solve: Solver): Sketch
    requires KeepsLengths(solve)
  {
    var r := solve(Compact(s.points), Compact(s.lines), Compact(s.circles), Compact(s.arcs), Translated(s));
    if r.None? then s.(lastResult := SolveResult(SolveFailed, 0, [], []))
    else
      var x, ids := r.value, SolvedIds(s);
      s.(points := WrittenBack(s.points, x.points), lines := WrittenBack(s.lines, x.lines),
         circles := WrittenBack(s.circles, x.circles), arcs := WrittenBack(s.arcs, x.arcs),
         lastResult := x.result.(conflicting := Remap(x.result.conflicting, ids), redundant := Remap(x.result.redundant, ids)))
  }

  // ── The compacted view is a bijection ──────────────────

  /**
   Live ids ascend through the view, and the two index maps are inverse to each other:
   a position holds the id that resolves to it, and a live id resolves to the position that holds it.
   */
  lemma {:induction false} Bijection(flags: seq<bool>)
    ensures forall j, k :: 0 <= j < k < |LiveIds(flags)| ==> LiveIds(flags)[j] < LiveIds(flags)[k]
    ensures forall k :: 0 <= k < |LiveIds(flags)| ==> LiveIndex(flags, LiveIds(flags)[k]) == k
    ensures forall i :: 0 <= i < |flags| && flags[i] ==> 0 <= LiveIndex(flags, i) < |LiveIds(flags)| && LiveIds(flags)[LiveIndex(flags, i)] == i
  {
    if flags != [] {
      var n := |flags| - 1;
      var init := flags[..n];
      Bijection(init);
      assert forall i :: 0 <= i < n ==> init[..i] == flags[..i];
      assert forall i :: 0 <= i < n ==> LiveIndex(init, i) == LiveIndex(flags, i);
      assert flags[n] ==> LiveIndex(flags, n) == |LiveIds(init)|;
      hide LiveIndex;
    }
  }

  method WriteBack<T>(slots: seq<Slot<T>>, liveToPublic: seq<nat>, values: seq<T>) returns (out: seq<Slot<T>>)
    requires liveToPublic == LiveIds(Flags(slots)) && |values| == |liveToPublic|
    ensures out == WrittenBack(slots, values)
  {
    out := slots;
    Bijection(Flags(slots));
    var flags := Flags(slots);
    hide LiveIds, LiveIndex;
    for li := 0 to |values|
      invariant |out| == |slots|
      invariant forall i :: 0 <= i < |slots| ==>
        out[i] == if !slots[i].removed && LiveIndex(flags, i) < li then slots[i].(value := values[LiveIndex(flags, i)]) else slots[i]
    {
      var p := liveToPublic[li];
      out := out[p := out[p].(value := values[li])];
    }
  }

  method RemapIds(ids: seq<int>, toPublic: seq<nat>) returns (out: seq<int>)
    ensures out == Remap(ids, toPublic)
  {
    out := ids;
    for k := 0 to |ids|
      invariant |out| == |ids|
      invariant forall j :: 0 <= j < |ids| ==> out[j] == if j < k then Remap(ids, toPublic)[j] else ids[j]
    {
      if 0 <= ids[k] < |toPublic| { out := out[k := toPublic[ids[k]]]; }
    }
  }

  // ── The class ──────────────────────────────────────────

  class OreoSketch {
    var pointSlots: seq<Slot<SketchPoint>>
    var lineSlots: seq<Slot<SketchLine>>
    var circleSlots: seq<Slot<SketchCircle>>
    var arcSlots: seq<Slot<SketchArc>>
    var constraintSlots: seq<Slot<SketchConstraint>>
    var lastResult: SolveResult

    ghost function State(): Sketch
      reads this
    {
      Sketch(pointSlots, lineSlots, circleSlots, arcSlots, constraintSlots, lastResult)
    }

    constructor ()
      ensures State() == Sketch([], [], [], [], [], SolveResult(Solved, 0, [], []))
    {
      pointSlots, lineSlots, circleSlots, arcSlots, constraintSlots := [], [], [], [], [];
      lastResult := SolveResult(Solved, 0, [], []);
    }

    method AddPoint(p: SketchPoint) returns (id: nat)
      modifies this
      ensures State() == old(State()).(points := old(pointSlots) + [Slot(p, false)]) && id == |old(pointSlots)|
    {
      pointSlots := pointSlots + [Slot(p, false)];
      return |pointSlots| - 1;
    }

    method AddLine(l: SketchLine) returns (id: nat)
      modifies this
      ensures State() == old(State()).(lines := old(lineSlots) + [Slot(l, false)]) && id == |old(lineSlots)|
    {
      lineSlots := lineSlots + [Slot(l, false)];
      return |lineSlots| - 1;
    }

    method AddCircle(c: SketchCircle) returns (id: nat)
      modifies this
      ensures State() == old(State()).(circles := old(circleSlots) + [Slot(c, false)]) && id == |old(circleSlots)|
    {
      circleSlots := circleSlots + [Slot(c, false)];
      return |circleSlots| - 1;
    }

    method AddArc(a: SketchArc) returns (id: nat)
      modifies this
      ensures State() == old(State()).(arcs := old(arcSlots) + [Slot(a, false)]) && id == |old(arcSlots)|
    {
      arcSlots := arcSlots + [Slot(a, false)];
      return |arcSlots| - 1;
    }

    method AddConstraint(c: SketchConstraint) returns (id: nat)
      modifies this
      ensures State() == old(State()).(constraints := old(constraintSlots) + [Slot(c, false)]) && id == |old(constraintSlots)|
    {
      constraintSlots := constraintSlots + [Slot(c, false)];
      return |constraintSlots| - 1;
    }

    method CascadeConstraints(f: Family, pid: int)
      modifies this`constraintSlots
      ensures constraintSlots == Cascade(old(constraintSlots), f, pid)
    {
      ghost var before := constraintSlots;
      for i := 0 to |constraintSlots|
        invariant |constraintSlots| == |before|
        invariant forall j :: 0 <= j < |before| ==> constraintSlots[j] == if j < i then Cascade(before, f, pid)[j] else before[j]
      {
        var slot := constraintSlots[i];
        if slot.removed { continue; }
        var fs := FamiliesFor(slot.value.kind);
        if Matches(fs.e1, slot.value.entity1, f, pid) || Matches(fs.e2, slot.value.entity2, f, pid) || Matches(fs.e3, slot.value.entity3, f, pid) {
          constraintSlots := constraintSlots[i := slot.(removed := true)];
        }
      }
    }

    method RemovePoint(id: int) returns (ok: bool)
      modifies this
      ensures (State(), ok) == RemoveEntity(old(State()), Point, id)
    {
      if id < 0 || id >= |pointSlots| || pointSlots[id].removed { return false; }
      pointSlots := pointSlots[id := pointSlots[id].(removed := true)];
      CascadeConstraints(Point, id);
      return true;
    }

    method RemoveLine(id: int) returns (ok: bool)
      modifies this
      ensures (State(), ok) == RemoveEntity(old(State()), Line, id)
    {
      if id < 0 || id >= |lineSlots| || lineSlots[id].removed { return false; }
      lineSlots := lineSlots[id := lineSlots[id].(removed := true)];
      CascadeConstraints(Line, id);
      return true;
    }

    method RemoveCircle(id: int) returns (ok: bool)
      modifies this
      ensures (State(), ok) == RemoveEntity(old(State()), Circle, id)
    {
      if id < 0 || id >= |circleSlots| || circleSlots[id].removed { return false; }
      circleSlots := circleSlots[id := circleSlots[id].(removed := true)];
      CascadeConstraints(Circle, id);
      return true;
    }

    method RemoveArc(id: int) returns (ok: bool)
      modifies this
      ensures (State(), ok) == RemoveEntity(old(State()), Arc, id)
    {
      if id < 0 || id >= |arcSlots| || arcSlots[id].removed { return false; }
      arcSlots := arcSlots[id := arcSlots[id].(removed := true)];
      CascadeConstraints(Arc, id);
      return true;
    }

    method RemoveConstraint(id: int) returns (ok: bool)
      modifies this
      ensures ok == CanRemove(Flags(old(constraintSlots)), id)
      ensures State() == if ok then old(State()).(constraints := Kill(old(constraintSlots), id)) else old(State())
    {
      if id < 0 || id >= |constraintSlots| || constraintSlots[id].removed { return false; }
      constraintSlots := constraintSlots[id := constraintSlots[id].(removed := true)];
      return true;
    }

    /** solveSketchSlots */
    method SolveSketch(solve: Solver) returns (status: SolveStatus)
      requires KeepsLengths(solve)
      modifies this
      ensures State() == Solve(old(State()), solve) && status == lastResult.status
    {
      ghost var before := State();
      var points, pointToLive, livePoints := CompactFamily(pointSlots);
      var lines, lineToLive, liveLines := CompactFamily(lineSlots);
      var circles, circleToLive, liveCircles := CompactFamily(circleSlots);
      var arcs, arcToLive, liveArcs := CompactFamily(arcSlots);
      var liveConstraints, liveConstraintToPublic := TranslateConstraints(View(pointToLive, lineToLive, circleToLive, arcToLive));
      hide LiveIds, Compact, KeepsLengths, Translated, SolvedIds, WrittenBack;
      var r := solve(points, lines, circles, arcs, liveConstraints);
      if r.None? {
        lastResult := SolveResult(SolveFailed, 0, [], []);
        return SolveFailed;
      }
      Lengths(solve, before);
      var solved := r.value.result;
      pointSlots := WriteBack(pointSlots, livePoints, r.value.points);
      lineSlots := WriteBack(lineSlots, liveLines, r.value.lines);
      circleSlots := WriteBack(circleSlots, liveCircles, r.value.circles);
      arcSlots := WriteBack(arcSlots, liveArcs, r.value.arcs);
      var conflicting := RemapIds(solved.conflicting, liveConstraintToPublic);
      var redundant := RemapIds(solved.redundant, liveConstraintToPublic);
      lastResult := solved.(conflicting := conflicting, redundant := redundant);
      return solved.status;
    }

    /** The loop that translates the live constraints and skips those with a dead entity. */
    method TranslateConstraints(v: View) returns (cs: seq<SketchConstraint>, toPublic: seq<nat>)
      requires v == State().Positions()
      ensures cs == Translated(State()) && toPublic == SolvedIds(State())
    {
      cs, toPublic := [], [];
      hide Translate;
      for i := 0 to |constraintSlots|
        invariant toPublic == Usable(v, constraintSlots[..i]) && |cs| == |toPublic|
        invariant forall k :: 0 <= k < |cs| ==> cs[k] == Translate(v, constraintSlots[toPublic[k]].value).value
      {
        assert constraintSlots[..i + 1][..i] == constraintSlots[..i];
        var slot := constraintSlots[i];
        if slot.removed { continue; }
        var translated := Translate(v, slot.value);
        if translated.None? { continue; }
        cs := cs + [translated.value];
        toPublic := toPublic + [i];
      }
      assert constraintSlots[..|constraintSlots|] == constraintSlots;
    }
  }

  lemma {:induction false} Lengths(solve: Solver, s: Sketch)
    requires KeepsLengths(solve)
    ensures var r := solve(Compact(s.points), Compact(s.lines), Compact(s.circles), Compact(s.arcs), Translated(s));
            r.Some? ==>
              && |r.value.points| == |LiveIds(Flags(s.points))| && |r.value.lines| == |LiveIds(Flags(s.lines))|
              && |r.value.circles| == |LiveIds(Flags(s.circles))| && |r.value.arcs| == |LiveIds(Flags(s.arcs))|
  {
  }
}
