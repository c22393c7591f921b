/**
 What the solver does with the positions it is given (src/sketch/oreo_sketch.cpp): it looks each one up in tables
 of its own choice, in its own order, so a reference that allows several families need not be read as it was meant.
 */
module SketchDispatch {
  import opened Wrappers
  import opened FeatureModel
  import opened SketchSlots
  import opened SketchTheory

  // ── The dispatch ───────────────────────────────────────

  /** For each kind of constraint and each of its positions, the tables the dispatch tries, in order. */
  function Looks(kind: ConstraintType): seq<seq<Table>> {
    match kind
    case Coincident | Distance | DistanceX | DistanceY => [[Points], [Points]]
    case PointOnLine | PointToLineDistance => [[Points], [Lines]]
    case PointOnCircle | PointToCircleDistance => [[Points], [Circles]]
    case Horizontal | Vertical => [[Lines]]
    case Parallel | Perpendicular | Angle | Equal | MidpointOnLine | Collinear => [[Lines], [Lines]]
    case Radius => [[Circles, Arcs]]
    case Tangent | TangentLineCircle => [[Lines], [Circles]]
    case Symmetric => [[Points], [Points], [Lines]]
    case Fixed | CoordinateX | CoordinateY => [[Points]]
    case TangentLineArc => [[Lines], [Arcs]]
    case TangentArcArc => [[Arcs], [Arcs]]
    case TangentCircleCircle | EqualRadius | Concentric => [[Circles], [Circles]]
    case TangentCircleArc | EqualRadiusCircleArc => [[Circles], [Arcs]]
    case PointOnArc => [[Points], [Arcs]]
    case ArcLength => [[Arcs]]
    case CircleToLineDistance => [[Circles], [Lines]]
    case CircleDiameter => [[Arcs, Circles]]
  }

  /** The first of the tables that is long enough for the index. */
  function FirstCovering(tables: seq<Table>, index: int, counts: Table -> nat): (r: Option<Table>)
    ensures r.Some? ==> r.value in tables && 0 <= index < counts(r.value)
  {
    if tables == [] then None
    else if 0 <= index < counts(tables[0]) then Some(tables[0])
    else FirstCovering(tables[1..], index, counts)
  }

  /** The table a position of a constraint is read in; None when the index is beyond all it tries. */
  function Consumed(kind: ConstraintType, position: nat, index: int, counts: Table -> nat): (r: Option<Table>)
    requires position < |Looks(kind)|
    ensures r.Some? ==> r.value in Looks(kind)[position] && 0 <= index < counts(r.value)
  {
    FirstCovering(Looks(kind)[position], index, counts)
  }

  /** The sizes of the view the solver is given. */
  function Counts(s: Sketch): Table -> nat {
    t => |LiveIds(FlagsOf(s, t))|
  }

  /** An entity, as the user knows it. */
  datatype Entity = Entity(table: Table, id: int)

  function ActsOn(s: Sketch, kind: ConstraintType, position: nat, index: int): Option<Entity>
    requires position < |Looks(kind)|
  {
    var t := Consumed(kind, position, index, Counts(s));
    if t.None? then None else Some(Entity(t.value, LiveIds(FlagsOf(s, t.value))[index]))
  }

  function At(c: SketchConstraint, position: nat): int
    requires position < 3
  {
    if position == 0 then c.entity1 else if position == 1 then c.entity2 else c.entity3
  }

  function FamilyAt(kind: ConstraintType, position: nat): Family
    requires position < 3
  {
    var fs := FamiliesFor(kind);
    if position == 0 then fs.e1 else if position == 1 then fs.e2 else fs.e3
  }

  /** The entities a constraint handed to the solver acts on; None when the dispatch drops it. */
  function Acted(s: Sketch, live: SketchConstraint): Option<seq<Entity>> {
    var n := |Looks(live.kind)|;
    if forall p :: 0 <= p < n ==> ActsOn(s, live.kind, p, At(live, p)).Some?
    then Some(seq(n, p requires 0 <= p < n => ActsOn(s, live.kind, p, At(live, p)).value))
    else None
  }

  // ── What a reference may mean ──────────────────────────

  /** The tables of a family, in the order resolveEntity asks them. */
  function TablesOf(f: Family): seq<Table> {
    match f
    case NoEntity => []
    case Point => [Points]
    case Line => [Lines]
    case Circle => [Circles]
    case Arc => [Arcs]
    case AnyCurve => [Lines, Circles, Arcs]
    case CircleOrArc => [Circles, Arcs]
  }

  predicate Alive(s: Sketch, e: Entity) {
    CanRemove(FlagsOf(s, e.table), e.id)
  }

  /** How many live slots of its table come before a live entity. */
  function Rank(s: Sketch, e: Entity): int {
    LiveIndex(FlagsOf(s, e.table), e.id)
  }

  /** The first of the tables in which the id is alive. */
  function Holder(s: Sketch, tables: seq<Table>, id: int): (r: Option<Table>)
    ensures r.Some? ==> r.value in tables && Alive(s, Entity(r.value, id))
    ensures r.None? ==> forall t :: t in tables ==> !Alive(s, Entity(t, id))
  {
    if tables == [] then None
    else if Alive(s, Entity(tables[0], id)) then Some(tables[0])
    else Holder(s, tables[1..], id)
  }

  /** The constraint's references can mean these entities: of an allowed family, alive, and with the id written down. */
  ghost predicate CanMean(s: Sketch, c: SketchConstraint, names: seq<Entity>) {
    |names| == |Looks(c.kind)| && forall p :: 0 <= p < |names| ==> MeansAt(s, c, p, names[p])
  }

  predicate MeansAt(s: Sketch, c: SketchConstraint, p: nat, e: Entity)
    requires p < 3
  {
    e.table in TablesOf(FamilyAt(c.kind, p)) && Alive(s, e) && e.id == At(c, p)
  }

  /**
   What can be read off the slots before a solve: the dispatch tries the entity's table, the table resolveEntity
   answers from ranks the id as this one does, and no table tried earlier is long enough to be taken instead.
   */
  predicate Undisturbed(s: Sketch, kind: ConstraintType, position: nat, e: Entity)
    requires position < |Looks(kind)| && position < 3
  {
    var tables := Looks(kind)[position];
    var holder := Holder(s, TablesOf(FamilyAt(kind, position)), e.id);
    && holder.Some? && Rank(s, Entity(holder.value, e.id)) == Rank(s, e)
    && InTurn(tables, e.table, Rank(s, e), Counts(s))
  }

  /** The table is tried, and every table tried before it is too short. */
  predicate InTurn(tables: seq<Table>, t: Table, index: int, counts: Table -> nat) {
    exists j :: 0 <= j < |tables| && tables[j] == t && NoneBefore(tables, j, index, counts)
  }

  predicate NoneBefore(tables: seq<Table>, j: nat, index: int, counts: Table -> nat) {
    forall i :: 0 <= i < j && i < |tables| ==> counts(tables[i]) <= index
  }

  // ── When the solver acts on what was meant ─────────────

  lemma {:induction false} ArityIs(kind: ConstraintType)
    ensures 1 <= |Looks(kind)| <= 3
    ensures forall p :: 0 <= p < 3 ==> (FamilyAt(kind, p) == NoEntity <==> |Looks(kind)| <= p)
    ensures forall p :: 0 <= p < |Looks(kind)| ==> 1 <= |Looks(kind)[p]| <= 2
    ensures forall p :: 0 <= p < |Looks(kind)| ==> |Looks(kind)[p]| == 2 ==> Looks(kind)[p][0] != Looks(kind)[p][1]
  {
  }

  lemma {:induction false} HolderOfTwo(s: Sketch, id: int)
    ensures Holder(s, [Circles, Arcs], id)
            == if Alive(s, Entity(Circles, id)) then Some(Circles) else if Alive(s, Entity(Arcs, id)) then Some(Arcs) else None
  {
    assert [Circles, Arcs][1..] == [Arcs];
    hide Alive;
  }

  lemma {:induction false} HolderOfThree(s: Sketch, id: int)
    ensures Holder(s, [Lines, Circles, Arcs], id)
            == if Alive(s, Entity(Lines, id)) then Some(Lines) else Holder(s, [Circles, Arcs], id)
  {
    assert [Lines, Circles, Arcs][1..] == [Circles, Arcs];
    hide Alive;
  }

  lemma {:induction false} PositionIsRank(s: Sketch, t: Table, id: int)
    ensures Get(LiveIndices(FlagsOf(s, t)), id) == Rank(s, Entity(t, id))
    ensures Rank(s, Entity(t, id)) >= 0 <==> Alive(s, Entity(t, id))
    ensures Rank(s, Entity(t, id)) >= -1
  {
    GetLive(FlagsOf(s, t), id);
    hide FlagsOf;
  }

  lemma {:induction false} ResolvesInHolder(s: Sketch, f: Family, id: int)
    ensures ResolveEntity(s.Positions(), f, id)
            == var holder := Holder(s, TablesOf(f), id); if holder.None? then -1 else Rank(s, Entity(holder.value, id))
  {
    PositionIsRank(s, Points, id);
    PositionIsRank(s, Lines, id);
    PositionIsRank(s, Circles, id);
    PositionIsRank(s, Arcs, id);
    HolderOfTwo(s, id);
    HolderOfThree(s, id);
    hide Get, LiveIndices, Rank, Alive;
  }

  /** Among different tables, the one taken is exactly the one no earlier table pre-empts. */
  lemma {:induction false} TakenIff(tables: seq<Table>, index: nat, counts: Table -> nat, t: Table)
    requires 1 <= |tables| <= 2 && (|tables| == 2 ==> tables[0] != tables[1])
    requires index < counts(t)
    ensures FirstCovering(tables, index, counts) == Some(t) <==> InTurn(tables, t, index, counts)
  {
    if |tables| == 2 {
      assert tables[1..] == [tables[1]] && tables == [tables[0], tables[1]];
      InTurnTwo(tables[0], tables[1], t, index, counts);
    } else {
      assert tables == [tables[0]];
      InTurnOne(tables[0], t, index, counts);
    }
    hide InTurn;
  }

  lemma {:induction false} InTurnOne(a: Table, t: Table, index: int, counts: Table -> nat)
    ensures InTurn([a], t, index, counts) <==> t == a
  {
    assert [a][0] == a && NoneBefore([a], 0, index, counts);
  }

  lemma {:induction false} InTurnTwo(a: Table, b: Table, t: Table, index: int, counts: Table -> nat)
    requires a != b
    ensures InTurn([a, b], t, index, counts) <==> t == a || (t == b && counts(a) <= index)
  {
    assert [a, b][0] == a && [a, b][1] == b && NoneBefore([a, b], 0, index, counts);
    assert NoneBefore([a, b], 1, index, counts) <==> counts(a) <= index;
  }

  lemma {:induction false} RankInView(s: Sketch, e: Entity)
    requires Alive(s, e)
    ensures 0 <= Rank(s, e) < Counts(s)(e.table) && LiveIds(FlagsOf(s, e.table))[Rank(s, e)] == e.id
  {
    Bijection(FlagsOf(s, e.table));
    hide LiveIds, LiveIndex;
  }

  lemma {:induction false} RankOfPosition(s: Sketch, t: Table, index: nat)
    requires index < Counts(s)(t)
    ensures Rank(s, Entity(t, LiveIds(FlagsOf(s, t))[index])) == index
  {
    Bijection(FlagsOf(s, t));
    hide LiveIds, LiveIndex;
  }

  /** One position: the solver acts on the entity that was meant exactly when it is undisturbed. */
  lemma {:induction false} ActsAsNamedIff(s: Sketch, kind: ConstraintType, position: nat, e: Entity)
    requires position < |Looks(kind)| && position < 3
    requires Alive(s, e) && e.table in TablesOf(FamilyAt(kind, position))
    ensures ActsOn(s, kind, position, ResolveEntity(s.Positions(), FamilyAt(kind, position), e.id)) == Some(e)
            <==> Undisturbed(s, kind, position, e)
  {
    ArityIs(kind);
    var f := FamilyAt(kind, position);
    ResolvesInHolder(s, f, e.id);
    var holder := Holder(s, TablesOf(f), e.id).value;
    RankInView(s, Entity(holder, e.id));
    RankInView(s, e);
    hide Looks, FamilyAt, TablesOf, Holder, LiveIds, LiveIndex, FlagsOf, ResolveEntity, FirstCovering, Alive, Rank, InTurn;
    var index := Rank(s, Entity(holder, e.id));
    ActsAtRank(s, kind, position, index, e);
    if index == Rank(s, e) { TakenIff(Looks(kind)[position], index, Counts(s), e.table); }
  }

  lemma {:induction false} ActsAtRank(s: Sketch, kind: ConstraintType, position: nat, index: nat, e: Entity)
    requires position < |Looks(kind)| && Alive(s, e)
    ensures ActsOn(s, kind, position, index) == Some(e)
            <==> index == Rank(s, e) && FirstCovering(Looks(kind)[position], index, Counts(s)) == Some(e.table)
  {
    RankInView(s, e);
    var taken := Consumed(kind, position, index, Counts(s));
    if taken.Some? { RankOfPosition(s, taken.value, index); }
    hide Looks, LiveIds, FlagsOf, FirstCovering, Alive, Rank;
  }

  /** A whole constraint: the solver acts on exactly the entities that were meant if and only if each is undisturbed. */
  lemma {:induction false} ConstraintActsIff(s: Sketch, c: SketchConstraint, names: seq<Entity>)
    requires CanMean(s, c, names)
    ensures Translate(s.Positions(), c).Some?
    ensures |names| <= 3
    ensures Acted(s, Translate(s.Positions(), c).value) == Some(names)
            <==> forall p :: 0 <= p < |names| ==> Undisturbed(s, c.kind, p, names[p])
  {
    ArityIs(c.kind);
    TranslatesWhatIsMeant(s, c, names);
    var live := Translate(s.Positions(), c).value;
    hide Looks, Undisturbed, ActsOn, Translate, FamilyAt, MeansAt, ResolveEntity;
    forall p | 0 <= p < |names|
      ensures ActsOn(s, c.kind, p, At(live, p)) == Some(names[p]) <==> Undisturbed(s, c.kind, p, names[p])
    {
      assert MeansAt(s, c, p, names[p]);
      MeantIff(s, c, p, names[p]);
    }
    if Acted(s, live) == Some(names) {
      forall p | 0 <= p < |names| ensures ActsOn(s, c.kind, p, At(live, p)) == Some(names[p]) {
        assert Acted(s, live).value[p] == names[p];
      }
    }
    if forall p :: 0 <= p < |names| ==> Undisturbed(s, c.kind, p, names[p]) {
      assert forall p :: 0 <= p < |names| ==> ActsOn(s, c.kind, p, At(live, p)) == Some(names[p]);
      assert Acted(s, live).value == names;
    }
  }

  lemma {:induction false} MeantIff(s: Sketch, c: SketchConstraint, p: nat, e: Entity)
    requires p < |Looks(c.kind)| && p < 3 && MeansAt(s, c, p, e)
    ensures ActsOn(s, c.kind, p, ResolveEntity(s.Positions(), FamilyAt(c.kind, p), At(c, p))) == Some(e) <==> Undisturbed(s, c.kind, p, e)
  {
    hide Looks, Undisturbed, ActsOn, FamilyAt, ResolveEntity, TablesOf, At, Alive;
    ActsAsNamedIff(s, c.kind, p, e);
  }

  lemma {:induction false} TranslatesWhatIsMeant(s: Sketch, c: SketchConstraint, names: seq<Entity>)
    requires CanMean(s, c, names)
    ensures Translate(s.Positions(), c).Some? && |names| <= 3
    ensures var live := Translate(s.Positions(), c).value;
            live.kind == c.kind
            && forall p :: 0 <= p < |names| ==> At(live, p) == ResolveEntity(s.Positions(), FamilyAt(c.kind, p), At(c, p))
  {
    ArityIs(c.kind);
    forall p | 0 <= p < 3 ensures FamilyAt(c.kind, p) == NoEntity || ResolveEntity(s.Positions(), FamilyAt(c.kind, p), At(c, p)) >= 0 {
      if p < |names| {
        assert MeansAt(s, c, p, names[p]);
        ResolvesInHolder(s, FamilyAt(c.kind, p), At(c, p));
        hide Looks, FamiliesFor, ResolveEntity, TablesOf;
      }
    }
    assert FamilyAt(c.kind, 0) == FamiliesFor(c.kind).e1 && FamilyAt(c.kind, 1) == FamiliesFor(c.kind).e2 && FamilyAt(c.kind, 2) == FamiliesFor(c.kind).e3;
    hide Looks, FamiliesFor, ResolveEntity, TablesOf, FamilyAt;
  }

  // ── Constraints of one family per position ─────────────

  predicate SingleFamilies(kind: ConstraintType) {
    kind != Tangent && kind != Radius && kind != CircleDiameter
  }

  lemma {:induction false} LooksWhereNamed(kind: ConstraintType, p: nat)
    requires SingleFamilies(kind) && p < |Looks(kind)|
    ensures p < 3 && Looks(kind)[p] == TablesOf(FamilyAt(kind, p)) && |TablesOf(FamilyAt(kind, p))| == 1
  {
  }

  /** Where every position allows one family, the solver always acts on exactly the entities the user named. */
  lemma {:induction false} SingleFamiliesAct(s: Sketch, c: SketchConstraint, names: seq<Entity>)
    requires SingleFamilies(c.kind) && CanMean(s, c, names)
    ensures Translate(s.Positions(), c).Some? && Acted(s, Translate(s.Positions(), c).value) == Some(names)
  {
    hide Looks, Undisturbed, MeansAt, Acted, Translate;
    ConstraintActsIff(s, c, names);
    forall p | 0 <= p < |names| ensures Undisturbed(s, c.kind, p, names[p]) {
      assert MeansAt(s, c, p, names[p]);
      SingleUndisturbed(s, c, p, names[p]);
    }
  }

  lemma {:induction false} SingleUndisturbed(s: Sketch, c: SketchConstraint, p: nat, e: Entity)
    requires SingleFamilies(c.kind) && p < |Looks(c.kind)| && p < 3 && MeansAt(s, c, p, e)
    ensures Undisturbed(s, c.kind, p, e)
  {
    hide Looks, FamilyAt, TablesOf, LiveIndex, Counts, Alive, Undisturbed;
    LooksWhereNamed(c.kind, p);
    var tables := TablesOf(FamilyAt(c.kind, p));
    assert tables == [e.table];
    UndisturbedInOne(s, c.kind, p, e, e.table);
  }

  /** Whatever a solve passes on with one family per position acts on the live entities whose ids were written down. */
  lemma {:induction false} PassedActs(s: Sketch, k: nat)
    requires k < |Translated(s)| && SingleFamilies(Translated(s)[k].kind)
    ensures var c := s.constraints[SolvedIds(s)[k]].value; var acted := Acted(s, Translated(s)[k]);
            acted.Some? && CanMean(s, c, acted.value)
  {
    var c := s.constraints[SolvedIds(s)[k]].value;
    TranslatesIffResolvable(s, c);
    var n := |Looks(c.kind)|;
    ArityIs(c.kind);
    forall p | 0 <= p < n ensures |TablesOf(FamilyAt(c.kind, p))| > 0 { LooksWhereNamed(c.kind, p); }
    var names := seq(n, p requires 0 <= p < n => Entity(TablesOf(FamilyAt(c.kind, p))[0], At(c, p)));
    forall p | 0 <= p < n ensures MeansAt(s, c, p, names[p]) { ResolvableAt(s, c, p); }
    SingleFamiliesAct(s, c, names);
  }

  lemma {:induction false} ResolvableAt(s: Sketch, c: SketchConstraint, p: nat)
    requires SingleFamilies(c.kind) && Resolvable(s, c) && p < |Looks(c.kind)|
    ensures p < 3 && |TablesOf(FamilyAt(c.kind, p))| > 0
    ensures MeansAt(s, c, p, Entity(TablesOf(FamilyAt(c.kind, p))[0], At(c, p)))
  {
    LooksWhereNamed(c.kind, p);
    ArityIs(c.kind);
    assert AliveOrUnused(s, FamilyAt(c.kind, p), At(c, p));
    hide Looks, FamiliesFor;
  }

  // ── The three kinds that allow several ─────────────────

  predicate SameRank(s: Sketch, holder: Option<Table>, e: Entity) {
    holder.Some? && Rank(s, Entity(holder.value, e.id)) == Rank(s, e)
  }

  lemma {:induction false} UndisturbedInOne(s: Sketch, kind: ConstraintType, position: nat, e: Entity, a: Table)
    requires position < |Looks(kind)| && position < 3 && Looks(kind)[position] == [a]
    ensures Undisturbed(s, kind, position, e)
            <==> SameRank(s, Holder(s, TablesOf(FamilyAt(kind, position)), e.id), e) && e.table == a
  {
    hide Looks, Holder, TablesOf, FamilyAt, Rank, Counts, InTurn;
    InTurnOne(a, e.table, Rank(s, e), Counts(s));
  }

  lemma {:induction false} UndisturbedInTwo(s: Sketch, kind: ConstraintType, position: nat, e: Entity, a: Table, b: Table)
    requires position < |Looks(kind)| && position < 3 && Looks(kind)[position] == [a, b] && a != b
    ensures Undisturbed(s, kind, position, e)
            <==> && SameRank(s, Holder(s, TablesOf(FamilyAt(kind, position)), e.id), e)
                 && (e.table == a || (e.table == b && Counts(s)(a) <= Rank(s, e)))
  {
    hide Looks, Holder, TablesOf, FamilyAt, Rank, Counts, InTurn;
    InTurnTwo(a, b, e.table, Rank(s, e), Counts(s));
  }

  lemma {:induction false} SeveralFamilies()
    ensures |Looks(Radius)| == 1 && Looks(Radius)[0] == TablesOf(FamilyAt(Radius, 0)) == [Circles, Arcs]
    ensures |Looks(CircleDiameter)| == 1 && Looks(CircleDiameter)[0] == [Arcs, Circles]
    ensures TablesOf(FamilyAt(CircleDiameter, 0)) == [Circles, Arcs]
    ensures |Looks(Tangent)| == 2 && Looks(Tangent)[0] == [Lines] && Looks(Tangent)[1] == [Circles]
    ensures TablesOf(FamilyAt(Tangent, 0)) == TablesOf(FamilyAt(Tangent, 1)) == [Lines, Circles, Arcs]
  {
  }

  /** The radius of a circle is always taken of that circle. */
  lemma {:induction false} RadiusOfCircle(s: Sketch, id: int)
    requires Alive(s, Entity(Circles, id))
    ensures Undisturbed(s, Radius, 0, Entity(Circles, id))
  {
    hide Looks, TablesOf, FamilyAt, Alive, Rank, Holder, Counts, Undisturbed, FlagsOf, LiveIds;
    SeveralFamilies();
    HolderOfTwo(s, id);
    UndisturbedInTwo(s, Radius, 0, Entity(Circles, id), Circles, Arcs);
  }

  /** The radius of an arc is taken of that arc exactly when no circle of its id is alive and it ranks beyond all circles. */
  lemma {:induction false} RadiusOfArc(s: Sketch, id: int)
    requires Alive(s, Entity(Arcs, id))
    ensures Undisturbed(s, Radius, 0, Entity(Arcs, id))
            <==> !Alive(s, Entity(Circles, id)) && Counts(s)(Circles) <= Rank(s, Entity(Arcs, id))
  {
    hide Looks, TablesOf, FamilyAt, Alive, Rank, Holder, Counts, Undisturbed, FlagsOf, LiveIds;
    SeveralFamilies();
    HolderOfTwo(s, id);
    UndisturbedInTwo(s, Radius, 0, Entity(Arcs, id), Circles, Arcs);
    if Alive(s, Entity(Circles, id)) { RankInView(s, Entity(Circles, id)); }
  }

  /** The diameter of a circle is taken of that circle exactly when it ranks beyond all arcs: arcs are tried first. */
  lemma {:induction false} DiameterOfCircle(s: Sketch, id: int)
    requires Alive(s, Entity(Circles, id))
    ensures Undisturbed(s, CircleDiameter, 0, Entity(Circles, id)) <==> Counts(s)(Arcs) <= Rank(s, Entity(Circles, id))
  {
    hide Looks, TablesOf, FamilyAt, Alive, Rank, Holder, Counts, Undisturbed, FlagsOf, LiveIds;
    SeveralFamilies();
    HolderOfTwo(s, id);
    UndisturbedInTwo(s, CircleDiameter, 0, Entity(Circles, id), Arcs, Circles);
  }

  /** The diameter of an arc: a live circle of its id must rank as the arc does. */
  lemma {:induction false} DiameterOfArc(s: Sketch, id: int)
    requires Alive(s, Entity(Arcs, id))
    ensures Undisturbed(s, CircleDiameter, 0, Entity(Arcs, id))
            <==> (Alive(s, Entity(Circles, id)) ==> Rank(s, Entity(Circles, id)) == Rank(s, Entity(Arcs, id)))
  {
    hide Looks, TablesOf, FamilyAt, Alive, Rank, Holder, Counts, Undisturbed, FlagsOf, LiveIds;
    SeveralFamilies();
    HolderOfTwo(s, id);
    UndisturbedInTwo(s, CircleDiameter, 0, Entity(Arcs, id), Arcs, Circles);
  }

  /** The first entity of a tangency is read as a line: always as the line that was named, and never as anything else. */
  lemma {:induction false} TangentFirst(s: Sketch, e: Entity)
    requires Alive(s, e) && e.table in [Lines, Circles, Arcs]
    ensures Undisturbed(s, Tangent, 0, e) <==> e.table == Lines
  {
    hide Looks, TablesOf, FamilyAt, Alive, Rank, Holder, Counts, Undisturbed, FlagsOf, LiveIds;
    SeveralFamilies();
    HolderOfThree(s, e.id);
    UndisturbedInOne(s, Tangent, 0, e, Lines);
  }

  /** The second is read as a circle: the one named exactly when a live line of its id ranks as the circle does. */
  lemma {:induction false} TangentSecond(s: Sketch, e: Entity)
    requires Alive(s, e) && e.table in [Lines, Circles, Arcs]
    ensures Undisturbed(s, Tangent, 1, e)
            <==> e.table == Circles && (Alive(s, Entity(Lines, e.id)) ==> Rank(s, Entity(Lines, e.id)) == Rank(s, e))
  {
    hide Looks, TablesOf, FamilyAt, Alive, Rank, Holder, Counts, Undisturbed, FlagsOf, LiveIds;
    SeveralFamilies();
    HolderOfThree(s, e.id);
    HolderOfTwo(s, e.id);
    UndisturbedInOne(s, Tangent, 1, e, Circles);
  }

  // ── When an accepted constraint is dropped ─────────────

  /** The solver's index check of a whole constraint. */
  predicate Accepted(s: Sketch, live: SketchConstraint) {
    forall p :: 0 <= p < 3 && FamilyAt(live.kind, p) != NoEntity ==> FamilyOk(s, FamilyAt(live.kind, p), At(live, p))
  }

  /** Some of the tables is long enough for the index. */
  predicate SomeCovers(tables: seq<Table>, index: int, counts: Table -> nat) {
    exists t :: t in tables && 0 <= index < counts(t)
  }

  lemma {:induction false} CoveringIff(tables: seq<Table>, index: int, counts: Table -> nat)
    ensures FirstCovering(tables, index, counts).Some? <==> SomeCovers(tables, index, counts)
  {
    if tables != [] {
      CoveringIff(tables[1..], index, counts);
      assert forall t :: t in tables <==> t == tables[0] || t in tables[1..];
    }
  }

  /** The index check of a family asks for a table of that family that is long enough. */
  lemma {:induction false} FamilyOkIff(s: Sketch, f: Family, index: int)
    requires f != NoEntity
    ensures FamilyOk(s, f, index) <==> SomeCovers(TablesOf(f), index, Counts(s))
  {
    CompactCounts(s);
    hide Compact, LiveIds, Flags, FlagsOf, Counts;
    match f
    case Point => assert Points in TablesOf(f);
    case Line => assert Lines in TablesOf(f);
    case Circle => assert Circles in TablesOf(f);
    case Arc => assert Arcs in TablesOf(f);
    case AnyCurve => assert Lines in TablesOf(f) && Circles in TablesOf(f) && Arcs in TablesOf(f);
    case CircleOrArc => assert Circles in TablesOf(f) && Arcs in TablesOf(f);
  }

  lemma {:induction false} CompactCounts(s: Sketch)
    ensures |Compact(s.points)| == Counts(s)(Points) && |Compact(s.lines)| == Counts(s)(Lines)
    ensures |Compact(s.circles)| == Counts(s)(Circles) && |Compact(s.arcs)| == Counts(s)(Arcs)
  {
    hide LiveIds, Flags;
  }

  /** Except for the plain tangency, the dispatch tries the very tables the index check allows. */
  lemma {:induction false} SameTables(kind: ConstraintType, p: nat, t: Table)
    requires kind != Tangent && p < |Looks(kind)|
    ensures p < 3 && (t in Looks(kind)[p] <==> t in TablesOf(FamilyAt(kind, p)))
  {
    if SingleFamilies(kind) {
      LooksWhereNamed(kind, p);
    } else {
      SeveralFamilies();
    }
  }

  lemma {:induction false} AcceptedActs(s: Sketch, live: SketchConstraint, p: nat)
    requires Accepted(s, live) && live.kind != Tangent && p < |Looks(live.kind)|
    ensures p < 3 && ActsOn(s, live.kind, p, At(live, p)).Some?
  {
    ArityIs(live.kind);
    hide Looks, FamilyAt, TablesOf, FamilyOk, Counts, SomeCovers;
    FamilyOkIff(s, FamilyAt(live.kind, p), At(live, p));
    CoveringIff(Looks(live.kind)[p], At(live, p), Counts(s));
    forall t ensures t in Looks(live.kind)[p] <==> t in TablesOf(FamilyAt(live.kind, p)) { SameTables(live.kind, p, t); }
    SameCover(Looks(live.kind)[p], TablesOf(FamilyAt(live.kind, p)), At(live, p), Counts(s));
  }

  lemma {:induction false} SameCover(a: seq<Table>, b: seq<Table>, index: int, counts: Table -> nat)
    requires forall t :: t in a <==> t in b
    ensures SomeCovers(a, index, counts) <==> SomeCovers(b, index, counts)
  {
  }

  lemma {:induction false} TangentActs(s: Sketch, live: SketchConstraint)
    requires live.kind == Tangent
    ensures Acted(s, live)
            == if 0 <= live.entity1 < Counts(s)(Lines) && 0 <= live.entity2 < Counts(s)(Circles)
               then Some([Entity(Lines, LiveIds(FlagsOf(s, Lines))[live.entity1]), Entity(Circles, LiveIds(FlagsOf(s, Circles))[live.entity2])])
               else None
  {
    assert |Looks(live.kind)| == 2 && Looks(live.kind)[0] == [Lines] && Looks(live.kind)[1] == [Circles];
    var first, second := ActsOn(s, Tangent, 0, live.entity1), ActsOn(s, Tangent, 1, live.entity2);
    assert FirstCovering([], live.entity1, Counts(s)) == FirstCovering([], live.entity2, Counts(s)) == None;
    assert [Lines][1..] == [] && [Circles][1..] == [];
    hide LiveIds, FlagsOf;
    assert ActsOn(s, live.kind, 0, At(live, 0)) == first && ActsOn(s, live.kind, 1, At(live, 1)) == second;
    if first.Some? && second.Some? { assert Acted(s, live).value == [first.value, second.value]; }
  }

  /**
   A constraint that passes the index check is dropped by the dispatch exactly when it is a plain tangency whose
   first index is beyond the lines or whose second is beyond the circles.
   */
  lemma {:induction false} DroppedIff(s: Sketch, live: SketchConstraint)
    requires Accepted(s, live)
    ensures Acted(s, live).None?
            <==> live.kind == Tangent && !(live.entity1 < Counts(s)(Lines) && live.entity2 < Counts(s)(Circles))
  {
    ArityIs(live.kind);
    hide Looks, ActsOn, Counts, FlagsOf, LiveIds;
    if live.kind == Tangent {
      TangentActs(s, live);
      AcceptedTangent(s, live);
    } else {
      forall p | 0 <= p < |Looks(live.kind)| ensures ActsOn(s, live.kind, p, At(live, p)).Some? { AcceptedActs(s, live, p); }
    }
  }

  lemma {:induction false} AcceptedTangent(s: Sketch, live: SketchConstraint)
    requires Accepted(s, live) && live.kind == Tangent
    ensures 0 <= live.entity1 && 0 <= live.entity2
  {
    assert FamilyAt(live.kind, 0) == AnyCurve && FamilyAt(live.kind, 1) == AnyCurve;
    assert FamilyOk(s, FamilyAt(live.kind, 0), At(live, 0)) && FamilyOk(s, FamilyAt(live.kind, 1), At(live, 1));
  }

  /** Where a stored reference lands in the view: the rank of its id in the first table that holds it. */
  function Lands(s: Sketch, c: SketchConstraint, position: nat): int
    requires position < 3
  {
    var holder := Holder(s, TablesOf(FamilyAt(c.kind, position)), At(c, position));
    if holder.None? then -1 else Rank(s, Entity(holder.value, At(c, position)))
  }

  /** Read off the stored slots: the constraints a solve passes on of which the dispatch makes nothing. */
  lemma {:induction false} SolveDropsIff(s: Sketch, k: nat)
    requires k < |Translated(s)|
    ensures var c := s.constraints[SolvedIds(s)[k]].value;
            Acted(s, Translated(s)[k]).None?
            <==> c.kind == Tangent && (Lands(s, c, 0) >= Counts(s)(Lines) || Lands(s, c, 1) >= Counts(s)(Circles))
  {
    var c, live := s.constraints[SolvedIds(s)[k]].value, Translated(s)[k];
    TranslatedAccepted(s, k);
    hide NamesSame, FamilyOk, Counts, LiveIndex, ResolveEntity, Acted, SolvedIds;
    PassedAccepted(s, c, live);
    DroppedIff(s, live);
    ResolvesInHolder(s, FamilyAt(c.kind, 0), At(c, 0));
    ResolvesInHolder(s, FamilyAt(c.kind, 1), At(c, 1));
  }

  lemma {:induction false} PassedAccepted(s: Sketch, c: SketchConstraint, live: SketchConstraint)
    requires live.kind == c.kind
    requires var fs := FamiliesFor(c.kind); FamilyOk(s, fs.e1, live.entity1) && FamilyOk(s, fs.e2, live.entity2) && FamilyOk(s, fs.e3, live.entity3)
    ensures Accepted(s, live)
  {
    hide FamilyOk, FamiliesFor;
  }

  // ── Stored constraints that are redirected ─────────────

  const ORIGIN := SketchPoint(Finite(0.0), Finite(0.0))

  function Unit(): SketchCircle {
    SketchCircle(ORIGIN, Finite(1.0), false)
  }

  function Quarter(): SketchArc {
    SketchArc(ORIGIN, ORIGIN, ORIGIN, Finite(1.0), false)
  }

  function Axis(): SketchLine {
    SketchLine(ORIGIN, ORIGIN, false)
  }

  function Nothing(): SolveResult {
    SolveResult(Solved, 0, [], [])
  }

  /** Two arcs, the first removed, and the radius of arc 1. */
  function ArcSketch(): Sketch {
    Sketch([], [], [], [Slot(Quarter(), true), Slot(Quarter(), false)],
           [Slot(SketchConstraint(Radius, 1, -1, -1, Finite(2.0)), false)], Nothing())
  }

  lemma {:induction false} SecondOnly(flags: seq<bool>)
    requires flags == [false, true]
    ensures LiveIds(flags) == [1] && LiveIndex(flags, 1) == 0 && LiveIndex(flags, 0) == -1
  {
    assert flags[..1] == [false] && LiveIds(flags[..1][..0]) == [];
    assert LiveIds(flags[..1]) == [];
  }

  lemma {:induction false} FirstOnly(flags: seq<bool>)
    requires flags == [true]
    ensures LiveIds(flags) == [0] && LiveIndex(flags, 0) == 0 && LiveIndex(flags, 1) == -1
  {
    assert LiveIds(flags[..0]) == [];
  }

  lemma {:induction false} BothLive(flags: seq<bool>)
    requires flags == [true, true]
    ensures LiveIds(flags) == [0, 1] && LiveIndex(flags, 0) == 0 && LiveIndex(flags, 1) == 1
  {
    assert flags[..1] == [true] && LiveIds(flags[..1][..0]) == [] && LiveIds(flags[..0]) == [];
    assert LiveIds(flags[..1]) == [0];
  }

  /** The radius of arc 1 is taken of arc 1; once any circle is added it is taken of that circle. */
  lemma {:induction false} AddedCircleTakesOver()
    ensures var s := ArcSketch(); var c := s.constraints[0].value; var s' := Perform(s, AddCircleOp(Unit()));
            && !s.constraints[0].removed && s'.constraints == s.constraints
            && Alive(s, Entity(Arcs, 1)) && Alive(s', Entity(Arcs, 1)) && !Alive(s', Entity(Circles, 1))
            && Translate(s.Positions(), c) == Some(c.(entity1 := 0))
            && Acted(s, c.(entity1 := 0)) == Some([Entity(Arcs, 1)])
            && Translate(s'.Positions(), c) == Some(c.(entity1 := 0))
            && Acted(s', c.(entity1 := 0)) == Some([Entity(Circles, 0)])
  {
    var s := ArcSketch();
    var c := s.constraints[0].value;
    var s' := Perform(s, AddCircleOp(Unit()));
    SecondOnly(FlagsOf(s, Arcs));
    assert FlagsOf(s', Arcs) == FlagsOf(s, Arcs);
    FirstOnly(FlagsOf(s', Circles));
    assert LiveIds(FlagsOf(s, Circles)) == [];
    assert [Circles, Arcs][1..] == [Arcs];
    hide LiveIds, FlagsOf, Perform;
    RadiusPosition(s, c);
    RadiusPosition(s', c);
    RadiusActs(s, c.(entity1 := 0));
    RadiusActs(s', c.(entity1 := 0));
  }

  lemma {:induction false} RadiusPosition(s: Sketch, c: SketchConstraint)
    requires c.kind == Radius && c.entity1 == 1 && c.entity2 == -1 && c.entity3 == -1
    requires LiveIndex(FlagsOf(s, Arcs), 1) == 0 && LiveIndex(FlagsOf(s, Circles), 1) == -1
    ensures Translate(s.Positions(), c) == Some(c.(entity1 := 0))
  {
    PositionIsRank(s, Circles, 1);
    PositionIsRank(s, Arcs, 1);
    hide LiveIds, LiveIndex, Flags, Get, LiveIndices;
  }

  lemma {:induction false} RadiusActs(s: Sketch, live: SketchConstraint)
    requires live.kind == Radius
    ensures Acted(s, live)
            == match FirstCovering([Circles, Arcs], live.entity1, Counts(s))
               case None => None
               case Some(t) => Some([Entity(t, LiveIds(FlagsOf(s, t))[live.entity1])])
  {
    assert |Looks(live.kind)| == 1 && Looks(live.kind)[0] == [Circles, Arcs];
    var acts := ActsOn(s, Radius, 0, live.entity1);
    hide LiveIds, FlagsOf, FirstCovering;
    if acts.Some? {
      assert Acted(s, live).value == [acts.value];
    } else {
      assert ActsOn(s, live.kind, 0, At(live, 0)).None?;
    }
  }

  function TwoCircles(lines: seq<Slot<SketchLine>>): Sketch {
    Sketch([], lines, [Slot(Unit(), false), Slot(Unit(), false)], [],
           [Slot(SketchConstraint(Tangent, 0, 1, -1, Finite(0.0)), false)], Nothing())
  }

  lemma {:induction false} TangentPositions(s: Sketch, c: SketchConstraint, first: nat, second: nat)
    requires c.kind == Tangent && c.entity1 == 0 && c.entity2 == 1 && c.entity3 == -1
    requires LiveIndex(FlagsOf(s, Lines), 0) == -1 && LiveIndex(FlagsOf(s, Circles), 0) == first
    requires second == if LiveIndex(FlagsOf(s, Lines), 1) >= 0 then LiveIndex(FlagsOf(s, Lines), 1) else LiveIndex(FlagsOf(s, Circles), 1)
    ensures Translate(s.Positions(), c) == Some(c.(entity1 := first, entity2 := second))
  {
    PositionIsRank(s, Lines, 0);
    PositionIsRank(s, Circles, 0);
    PositionIsRank(s, Lines, 1);
    PositionIsRank(s, Circles, 1);
    hide LiveIds, LiveIndex, Flags, Get, LiveIndices;
  }

  /** With line 0 removed and line 1 alive, the tangency of circles 0 and 1 makes line 1 tangent to circle 0. */
  lemma {:induction false} LineTakesOver()
    ensures var s := TwoCircles([Slot(Axis(), true), Slot(Axis(), false)]); var c := s.constraints[0].value;
            && Alive(s, Entity(Circles, 0)) && Alive(s, Entity(Circles, 1)) && !Alive(s, Entity(Lines, 0))
            && Translate(s.Positions(), c) == Some(c.(entity1 := 0, entity2 := 0))
            && Acted(s, c.(entity1 := 0, entity2 := 0)) == Some([Entity(Lines, 1), Entity(Circles, 0)])
  {
    var s := TwoCircles([Slot(Axis(), true), Slot(Axis(), false)]);
    var c := s.constraints[0].value;
    SecondOnly(FlagsOf(s, Lines));
    BothLive(FlagsOf(s, Circles));
    hide LiveIds, LiveIndex;
    TangentPositions(s, c, 0, 0);
    TangentActs(s, c.(entity1 := 0, entity2 := 0));
  }

  /** Without lines the same constraint passes the solver's index check and is then dropped without a word. */
  lemma {:induction false} TangencyDropped()
    ensures var s := TwoCircles([]); var c := s.constraints[0].value;
            && Alive(s, Entity(Circles, 0)) && Alive(s, Entity(Circles, 1))
            && Translate(s.Positions(), c) == Some(c)
            && Accepted(s, c) && Acted(s, c) == None
  {
    var s := TwoCircles([]);
    var c := s.constraints[0].value;
    assert LiveIds(FlagsOf(s, Lines)) == [];
    BothLive(FlagsOf(s, Circles));
    hide LiveIds, LiveIndex;
    TangentPositions(s, c, 0, 1);
    TangentActs(s, c);
  }
}
