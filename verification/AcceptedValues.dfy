/**
 Which values validation lets through, as numbers: for the inputs of a configuration (src/feature/config.cpp), and
 for the parameters of each built-in feature (src/feature/feature_schema.cpp).
 */
module AcceptedValues {
  import opened Wrappers
  import opened FeatureModel
  import opened FeatureSchemas
  import C = Config

  // ── Bounds ─────────────────────────────────────────────

  /** A bound that is not a number bounds nothing. */
  predicate AtLeast(min: Option<Double>, x: real) {
    match min
    case Some(Finite(a)) => a <= x
    case Some(PosInf) => false
    case _ => true
  }

  predicate AtMost(max: Option<Double>, x: real) {
    match max
    case Some(Finite(b)) => x <= b
    case Some(NegInf) => false
    case _ => true
  }

  predicate Coordinates(t: Triple, x: real, y: real, z: real) {
    t == Triple(Finite(x), Finite(y), Finite(z))
  }

  ghost predicate HasCoordinates(t: Triple) {
    exists x, y, z :: Coordinates(t, x, y, z)
  }

  /** A value fits an input when it has its type, is made of finite numbers, and, if it is a number, lies within both bounds. */
  lemma {:induction false} FitsIff(s: C.InputSpec, v: ParamValue)
    ensures C.Fits(s, v)
            <==> && TypeOf(v) == s.kind
                 && (v.DoubleV? ==> exists x :: v.d == Finite(x) && AtLeast(s.min, x) && AtMost(s.max, x))
                 && (v.IntV? ==> AtLeast(s.min, v.i as real) && AtMost(s.max, v.i as real))
                 && (v.VecV? ==> HasCoordinates(v.vec)) && (v.PntV? || v.DirV? ==> HasCoordinates(if v.PntV? then v.pnt else v.dir))
  {
    match v
    case DoubleV(d) => if d.Finite? { assert v.d == Finite(d.value); }
    case VecV(t) => CoordinatesOf(t);
    case PntV(t) => CoordinatesOf(t);
    case DirV(t) => CoordinatesOf(t);
    case _ =>
  }

  lemma {:induction false} CoordinatesOf(t: Triple)
    ensures HasCoordinates(t) <==> FiniteTriple(t)
  {
    if FiniteTriple(t) { assert Coordinates(t, t.x.value, t.y.value, t.z.value); }
  }

  // ── Parameters of one kind ─────────────────────────────

  /** Numbers closer to zero than this count as zero. */
  const NEGLIGIBLE: real := 0.000000000001

  predicate Number(params: map<string, ParamValue>, name: string) {
    name in params && params[name].DoubleV? && params[name].d.Finite?
  }

  predicate AboveZero(params: map<string, ParamValue>, name: string) {
    Number(params, name) && params[name].d.value > NEGLIGIBLE
  }

  predicate NotBelowZero(params: map<string, ParamValue>, name: string) {
    Number(params, name) && params[name].d.value >= 0.0
  }

  predicate AwayFromZero(params: map<string, ParamValue>, name: string) {
    Number(params, name) && (params[name].d.value > NEGLIGIBLE || params[name].d.value < -NEGLIGIBLE)
  }

  predicate Within(params: map<string, ParamValue>, name: string, bound: real) {
    Number(params, name) && -bound <= params[name].d.value <= bound
  }

  predicate AtLeastOne(params: map<string, ParamValue>, name: string) {
    name in params && params[name].IntV? && params[name].i >= 1
  }

  function Squared(t: Triple): real
    requires FiniteTriple(t)
  {
    t.x.value * t.x.value + t.y.value * t.y.value + t.z.value * t.z.value
  }

  predicate NonZeroVector(params: map<string, ParamValue>, name: string) {
    name in params && params[name].VecV? && FiniteTriple(params[name].vec) && Squared(params[name].vec) > NEGLIGIBLE * NEGLIGIBLE
  }

  predicate Extent(params: map<string, ParamValue>, name: string) {
    NonZeroVector(params, name)
    && params[name].vec.x.value > 0.0 && params[name].vec.y.value > 0.0 && params[name].vec.z.value > 0.0
  }

  predicate FinitePoint(params: map<string, ParamValue>, name: string) {
    name in params && params[name].PntV? && FiniteTriple(params[name].pnt)
  }

  predicate FiniteDirection(params: map<string, ParamValue>, name: string) {
    name in params && params[name].DirV? && FiniteTriple(params[name].dir)
  }

  predicate FiniteAxis(params: map<string, ParamValue>, name: string) {
    name in params && params[name].Ax1V? && FiniteTriple(params[name].loc) && FiniteTriple(params[name].axis)
  }

  predicate FiniteFrame(params: map<string, ParamValue>, name: string) {
    name in params && params[name].Ax2V?
    && FiniteTriple(params[name].loc) && FiniteTriple(params[name].axis) && FiniteTriple(params[name].xdir)
  }

  /** A reference to an element: of the type asked for, and then not to a whole shape. An empty type asks for none. */
  predicate PointsTo(r: ElementRef, elementType: string) {
    && r.featureId != "" && r.elementName != ""
    && (elementType != "" ==> r.elementType == elementType && r.elementName != "ROOT")
  }

  predicate OneElement(params: map<string, ParamValue>, name: string, elementType: string) {
    name in params && params[name].ElemRefV? && PointsTo(params[name].ref, elementType)
  }

  predicate SomeElements(params: map<string, ParamValue>, name: string, elementType: string) {
    name in params && params[name].ElemRefListV? && params[name].refs != []
    && forall i :: 0 <= i < |params[name].refs| ==> PointsTo(params[name].refs[i], elementType)
  }

  predicate OptionalFlag(params: map<string, ParamValue>, name: string) {
    name in params ==> params[name].BoolV?
  }

  /** The parameters of a primitive that validation lets through. */
  predicate PrimitiveAccepts(op: Operation, ps: map<string, ParamValue>) {
    match op
    case MakeBox => Extent(ps, "dimensions")
    case MakeCylinder => AboveZero(ps, "radius") && AboveZero(ps, "height")
    case MakeSphere => AboveZero(ps, "radius")
    case MakeCone => AboveZero(ps, "radius1") && NotBelowZero(ps, "radius2") && AboveZero(ps, "height")
    case MakeTorus => AboveZero(ps, "majorRadius") && AboveZero(ps, "minorRadius")
    case MakeWedge => Extent(ps, "dimensions") && NotBelowZero(ps, "ltx")
    case _ => false
  }

  /** The parameters of a core operation that validation lets through. */
  predicate CoreAccepts(op: Operation, ps: map<string, ParamValue>) {
    match op
    case Extrude => NonZeroVector(ps, "direction")
    case Revolve => FiniteAxis(ps, "axis") && Within(ps, "angle", FULL_TURN)
    case Fillet => SomeElements(ps, "edges", "Edge") && AboveZero(ps, "radius")
    case Chamfer => SomeElements(ps, "edges", "Edge") && AboveZero(ps, "distance")
    case BooleanUnion => OneElement(ps, "tool", "")
    case BooleanSubtract => OneElement(ps, "tool", "")
    case BooleanIntersect => OneElement(ps, "tool", "")
    case _ => false
  }

  /** The parameters of a loft, sweep, shell, mirror or pattern that validation lets through. */
  predicate FormedAccepts(op: Operation, ps: map<string, ParamValue>) {
    match op
    case Loft => SomeElements(ps, "profiles", "") && OptionalFlag(ps, "makeSolid")
    case Sweep => OneElement(ps, "profile", "") && OneElement(ps, "path", "")
    case Shell => SomeElements(ps, "faces", "Face") && AwayFromZero(ps, "thickness")
    case Mirror => FiniteFrame(ps, "plane")
    case LinearPattern => NonZeroVector(ps, "direction") && AtLeastOne(ps, "count") && NotBelowZero(ps, "spacing")
    case CircularPattern => FiniteAxis(ps, "axis") && AtLeastOne(ps, "count") && Within(ps, "angle", FULL_TURN)
    case _ => false
  }

  /** The parameters of a draft, hole, pocket, offset or thickening that validation lets through. */
  predicate CutAccepts(op: Operation, ps: map<string, ParamValue>) {
    match op
    case Draft => SomeElements(ps, "faces", "Face") && Within(ps, "angle", 89.0) && FiniteDirection(ps, "pullDirection")
    case Hole => OneElement(ps, "face", "Face") && FinitePoint(ps, "center") && AboveZero(ps, "diameter") && AboveZero(ps, "depth")
    case Pocket => OneElement(ps, "profile", "") && AboveZero(ps, "depth")
    case Offset => AwayFromZero(ps, "distance")
    case Thicken => AwayFromZero(ps, "thickness")
    case _ => false
  }

  /** The parameters of a remaining operation that validation lets through. */
  predicate OtherAccepts(op: Operation, ps: map<string, ParamValue>) {
    match op
    case SplitBody => FinitePoint(ps, "point") && FiniteDirection(ps, "normal")
    case VariableFillet => OneElement(ps, "edge", "Edge") && AboveZero(ps, "startRadius") && AboveZero(ps, "endRadius")
    case MakeFace => true
    case Combine => SomeElements(ps, "shapes", "")
    case Rib => FiniteDirection(ps, "direction") && AboveZero(ps, "thickness") && OneElement(ps, "profile", "")
    case _ => false
  }

  predicate Accepts(op: Operation, ps: map<string, ParamValue>) {
    match op
    case MakeBox | MakeCylinder | MakeSphere | MakeCone | MakeTorus | MakeWedge => PrimitiveAccepts(op, ps)
    case Extrude | Revolve | Fillet | Chamfer | BooleanUnion | BooleanSubtract | BooleanIntersect => CoreAccepts(op, ps)
    case Loft | Sweep | Shell | Mirror | LinearPattern | CircularPattern => FormedAccepts(op, ps)
    case Draft | Hole | Pocket | Offset | Thicken => CutAccepts(op, ps)
    case SplitBody | VariableFillet | MakeFace | Combine | Rib => OtherAccepts(op, ps)
  }

  // ── Specifications mean these ──────────────────────────

  lemma {:induction false} PositiveMeans(params: map<string, ParamValue>, name: string)
    ensures Satisfies(params, Positive(name)) <==> AboveZero(params, name)
  {
  }

  lemma {:induction false} AtLeastZeroMeans(params: map<string, ParamValue>, name: string)
    ensures Satisfies(params, AtLeastZero(name)) <==> NotBelowZero(params, name)
  {
  }

  lemma {:induction false} NonZeroMeans(params: map<string, ParamValue>, name: string)
    ensures Satisfies(params, NonZero(name)) <==> AwayFromZero(params, name)
  {
  }

  lemma {:induction false} TurnMeans(params: map<string, ParamValue>, name: string)
    ensures Satisfies(params, Turn(name)) <==> Within(params, name, FULL_TURN)
  {
  }

  lemma {:induction false} CountMeans(params: map<string, ParamValue>, name: string)
    ensures Satisfies(params, Count(name)) <==> AtLeastOne(params, name)
  {
  }

  lemma {:induction false} BetweenMeans(params: map<string, ParamValue>, name: string, bound: real)
    ensures Satisfies(params, Between(name, Some(Finite(-bound)), Some(Finite(bound)))) <==> Within(params, name, bound)
  {
  }

  lemma {:induction false} VectorMeans(params: map<string, ParamValue>, name: string)
    ensures Satisfies(params, Spec(name, TVec)) <==> NonZeroVector(params, name)
  {
  }

  lemma {:induction false} ExtentMeans(params: map<string, ParamValue>, name: string)
    ensures Satisfies(params, Spec(name, TVec).(positive := true)) <==> Extent(params, name)
  {
  }

  lemma {:induction false} PointMeans(params: map<string, ParamValue>, name: string)
    ensures Satisfies(params, Spec(name, TPnt)) <==> FinitePoint(params, name)
  {
  }

  lemma {:induction false} DirectionMeans(params: map<string, ParamValue>, name: string)
    ensures Satisfies(params, Spec(name, TDir)) <==> FiniteDirection(params, name)
  {
  }

  lemma {:induction false} AxisMeans(params: map<string, ParamValue>, name: string)
    ensures Satisfies(params, Spec(name, TAx1)) <==> FiniteAxis(params, name)
  {
  }

  lemma {:induction false} FrameMeans(params: map<string, ParamValue>, name: string)
    ensures Satisfies(params, Spec(name, TAx2)) <==> FiniteFrame(params, name)
  {
  }

  lemma {:induction false} FlagMeans(params: map<string, ParamValue>, name: string)
    ensures Satisfies(params, Spec(name, TBool).(required := false)) <==> OptionalFlag(params, name)
  {
  }

  lemma {:induction false} ReferenceMeans(params: map<string, ParamValue>, name: string, elementType: string)
    requires elementType == "" || elementType == "Edge" || elementType == "Face"
    ensures Satisfies(params, Reference(name, elementType)) <==> OneElement(params, name, elementType)
  {
  }

  lemma {:induction false} ReferencesMean(params: map<string, ParamValue>, name: string, elementType: string)
    requires elementType == "" || elementType == "Edge" || elementType == "Face"
    ensures Satisfies(params, References(name, elementType)) <==> SomeElements(params, name, elementType)
  {
  }

  predicate AllSatisfied(params: map<string, ParamValue>, specs: seq<ParamSpec>) {
    forall i :: 0 <= i < |specs| ==> Satisfies(params, specs[i])
  }

  lemma {:induction false} One(params: map<string, ParamValue>, a: ParamSpec)
    ensures AllSatisfied(params, [a]) <==> Satisfies(params, a)
  {
    hide Satisfies;
    assert [a][0] == a;
  }

  lemma {:induction false} Two(params: map<string, ParamValue>, a: ParamSpec, b: ParamSpec)
    ensures AllSatisfied(params, [a, b]) <==> Satisfies(params, a) && Satisfies(params, b)
  {
    hide Satisfies;
    assert [a, b][0] == a && [a, b][1] == b;
  }

  lemma {:induction false} Three(params: map<string, ParamValue>, a: ParamSpec, b: ParamSpec, c: ParamSpec)
    ensures AllSatisfied(params, [a, b, c]) <==> Satisfies(params, a) && Satisfies(params, b) && Satisfies(params, c)
  {
    hide Satisfies;
    assert [a, b, c][0] == a && [a, b, c][1] == b && [a, b, c][2] == c;
  }

  lemma {:induction false} Four(params: map<string, ParamValue>, a: ParamSpec, b: ParamSpec, c: ParamSpec, d: ParamSpec)
    ensures AllSatisfied(params, [a, b, c, d]) <==> Satisfies(params, a) && Satisfies(params, b) && Satisfies(params, c) && Satisfies(params, d)
  {
    hide Satisfies;
    assert [a, b, c, d][0] == a && [a, b, c, d][1] == b && [a, b, c, d][2] == c && [a, b, c, d][3] == d;
  }

  lemma {:induction false} Nothing(params: map<string, ParamValue>)
    ensures AllSatisfied(params, [])
  {
  }

  lemma {:induction false} PrimitiveAccepted(op: Operation, params: map<string, ParamValue>)
    requires op == MakeBox || op == MakeCylinder || op == MakeSphere || op == MakeCone || op == MakeTorus || op == MakeWedge
    ensures AllSatisfied(params, PrimitiveSpecs(op)) <==> PrimitiveAccepts(op, params)
  {
    hide Satisfies, AllSatisfied, Spec, Between, AtLeastZero, Positive, NonZero, Reference, References, Turn, Count,
         AboveZero, NotBelowZero, AwayFromZero, Within, AtLeastOne, NonZeroVector, Extent, FinitePoint, FiniteDirection, FiniteAxis,
         FiniteFrame, OneElement, SomeElements, OptionalFlag;
    match op
    case MakeBox =>
      One(params, Spec("dimensions", TVec).(positive := true));
      ExtentMeans(params, "dimensions");
    case MakeCylinder =>
      Two(params, Positive("radius"), Positive("height"));
      PositiveMeans(params, "radius"); PositiveMeans(params, "height");
    case MakeSphere =>
      One(params, Positive("radius"));
      PositiveMeans(params, "radius");
    case MakeCone =>
      Three(params, Positive("radius1"), AtLeastZero("radius2"), Positive("height"));
      PositiveMeans(params, "radius1"); AtLeastZeroMeans(params, "radius2"); PositiveMeans(params, "height");
    case MakeTorus =>
      Two(params, Positive("majorRadius"), Positive("minorRadius"));
      PositiveMeans(params, "majorRadius"); PositiveMeans(params, "minorRadius");
    case MakeWedge =>
      Two(params, Spec("dimensions", TVec).(positive := true), AtLeastZero("ltx"));
      ExtentMeans(params, "dimensions"); AtLeastZeroMeans(params, "ltx");
  }

  lemma {:induction false} CoreAccepted(op: Operation, params: map<string, ParamValue>)
    requires op == Extrude || op == Revolve || op == Fillet || op == Chamfer || op == BooleanUnion || op == BooleanSubtract || op == BooleanIntersect
    ensures AllSatisfied(params, CoreSpecs(op)) <==> CoreAccepts(op, params)
  {
    hide Satisfies, AllSatisfied, Spec, Between, AtLeastZero, Positive, NonZero, Reference, References, Turn, Count,
         AboveZero, NotBelowZero, AwayFromZero, Within, AtLeastOne, NonZeroVector, Extent, FinitePoint, FiniteDirection, FiniteAxis,
         FiniteFrame, OneElement, SomeElements, OptionalFlag;
    match op
    case Extrude =>
      One(params, Spec("direction", TVec));
      VectorMeans(params, "direction");
    case Revolve =>
      Two(params, Spec("axis", TAx1), Turn("angle"));
      AxisMeans(params, "axis"); TurnMeans(params, "angle");
    case Fillet =>
      Two(params, References("edges", "Edge"), Positive("radius"));
      ReferencesMean(params, "edges", "Edge"); PositiveMeans(params, "radius");
    case Chamfer =>
      Two(params, References("edges", "Edge"), Positive("distance"));
      ReferencesMean(params, "edges", "Edge"); PositiveMeans(params, "distance");
    case BooleanUnion =>
      One(params, Reference("tool", ""));
      ReferenceMeans(params, "tool", "");
    case BooleanSubtract =>
      One(params, Reference("tool", ""));
      ReferenceMeans(params, "tool", "");
    case BooleanIntersect =>
      One(params, Reference("tool", ""));
      ReferenceMeans(params, "tool", "");
  }

  lemma {:induction false} FormedAccepted(op: Operation, params: map<string, ParamValue>)
    requires op == Loft || op == Sweep || op == Shell || op == Mirror || op == LinearPattern || op == CircularPattern
    ensures AllSatisfied(params, FormedSpecs(op)) <==> FormedAccepts(op, params)
  {
    hide Satisfies, AllSatisfied, Spec, Between, AtLeastZero, Positive, NonZero, Reference, References, Turn, Count,
         AboveZero, NotBelowZero, AwayFromZero, Within, AtLeastOne, NonZeroVector, Extent, FinitePoint, FiniteDirection, FiniteAxis,
         FiniteFrame, OneElement, SomeElements, OptionalFlag;
    match op
    case Loft =>
      Two(params, References("profiles", ""), Spec("makeSolid", TBool).(required := false));
      ReferencesMean(params, "profiles", ""); FlagMeans(params, "makeSolid");
    case Sweep =>
      Two(params, Reference("profile", ""), Reference("path", ""));
      ReferenceMeans(params, "profile", ""); ReferenceMeans(params, "path", "");
    case Shell =>
      Two(params, References("faces", "Face"), NonZero("thickness"));
      ReferencesMean(params, "faces", "Face"); NonZeroMeans(params, "thickness");
    case Mirror =>
      One(params, Spec("plane", TAx2));
      FrameMeans(params, "plane");
    case LinearPattern =>
      Three(params, Spec("direction", TVec), Count("count"), AtLeastZero("spacing"));
      VectorMeans(params, "direction"); CountMeans(params, "count"); AtLeastZeroMeans(params, "spacing");
    case CircularPattern =>
      Three(params, Spec("axis", TAx1), Count("count"), Turn("angle"));
      AxisMeans(params, "axis"); CountMeans(params, "count"); TurnMeans(params, "angle");
  }

  lemma {:induction false} CutAccepted(op: Operation, params: map<string, ParamValue>)
    requires op == Draft || op == Hole || op == Pocket || op == Offset || op == Thicken
    ensures AllSatisfied(params, CutSpecs(op)) <==> CutAccepts(op, params)
  {
    hide Satisfies, AllSatisfied, Spec, Between, AtLeastZero, Positive, NonZero, Reference, References, Turn, Count,
         AboveZero, NotBelowZero, AwayFromZero, Within, AtLeastOne, NonZeroVector, Extent, FinitePoint, FiniteDirection, FiniteAxis,
         FiniteFrame, OneElement, SomeElements, OptionalFlag;
    match op
    case Draft =>
      Three(params, References("faces", "Face"), Between("angle", Some(Finite(-89.0)), Some(Finite(89.0))), Spec("pullDirection", TDir));
      ReferencesMean(params, "faces", "Face"); BetweenMeans(params, "angle", 89.0); DirectionMeans(params, "pullDirection");
    case Hole =>
      Four(params, Reference("face", "Face"), Spec("center", TPnt), Positive("diameter"), Positive("depth"));
      ReferenceMeans(params, "face", "Face"); PointMeans(params, "center"); PositiveMeans(params, "diameter"); PositiveMeans(params, "depth");
    case Pocket =>
      Two(params, Reference("profile", ""), Positive("depth"));
      ReferenceMeans(params, "profile", ""); PositiveMeans(params, "depth");
    case Offset =>
      One(params, NonZero("distance"));
      NonZeroMeans(params, "distance");
    case Thicken =>
      One(params, NonZero("thickness"));
      NonZeroMeans(params, "thickness");
  }

  lemma {:induction false} OtherAccepted(op: Operation, params: map<string, ParamValue>)
    requires op == SplitBody || op == VariableFillet || op == MakeFace || op == Combine || op == Rib
    ensures AllSatisfied(params, OtherSpecs(op)) <==> OtherAccepts(op, params)
  {
    hide Satisfies, AllSatisfied, Spec, Between, AtLeastZero, Positive, NonZero, Reference, References, Turn, Count,
         AboveZero, NotBelowZero, AwayFromZero, Within, AtLeastOne, NonZeroVector, Extent, FinitePoint, FiniteDirection, FiniteAxis,
         FiniteFrame, OneElement, SomeElements, OptionalFlag;
    match op
    case SplitBody =>
      Two(params, Spec("point", TPnt), Spec("normal", TDir));
      PointMeans(params, "point"); DirectionMeans(params, "normal");
    case VariableFillet =>
      Three(params, Reference("edge", "Edge"), Positive("startRadius"), Positive("endRadius"));
      ReferenceMeans(params, "edge", "Edge"); PositiveMeans(params, "startRadius"); PositiveMeans(params, "endRadius");
    case MakeFace => Nothing(params);
    case Combine =>
      One(params, References("shapes", ""));
      ReferencesMean(params, "shapes", "");
    case Rib =>
      Three(params, Spec("direction", TDir), Positive("thickness"), Reference("profile", ""));
      DirectionMeans(params, "direction"); PositiveMeans(params, "thickness"); ReferenceMeans(params, "profile", "");
  }

  /** A type's specifications are met exactly by the parameters it accepts. */
  lemma {:induction false} AcceptedIff(op: Operation, params: map<string, ParamValue>)
    ensures AllSatisfied(params, SpecsOf(op)) <==> Accepts(op, params)
  {
    hide AllSatisfied, PrimitiveSpecs, PrimitiveAccepts, CoreSpecs, CoreAccepts, FormedSpecs, FormedAccepts, CutSpecs, CutAccepts, OtherSpecs, OtherAccepts;
    match op
    case MakeBox | MakeCylinder | MakeSphere | MakeCone | MakeTorus | MakeWedge => PrimitiveAccepted(op, params);
    case Extrude | Revolve | Fillet | Chamfer | BooleanUnion | BooleanSubtract | BooleanIntersect => CoreAccepted(op, params);
    case Loft | Sweep | Shell | Mirror | LinearPattern | CircularPattern => FormedAccepted(op, params);
    case Draft | Hole | Pocket | Offset | Thicken => CutAccepted(op, params);
    case SplitBody | VariableFillet | MakeFace | Combine | Rib => OtherAccepted(op, params);
  }

  // ── Type names ─────────────────────────────────────────

  /** The type a feature of the operation carries. */
  function TypeName(op: Operation): string {
    match op
    case MakeBox => "MakeBox"
    case MakeCylinder => "MakeCylinder"
    case MakeSphere => "MakeSphere"
    case MakeCone => "MakeCone"
    case MakeTorus => "MakeTorus"
    case MakeWedge => "MakeWedge"
    case Extrude => "Extrude"
    case Revolve => "Revolve"
    case Fillet => "Fillet"
    case Chamfer => "Chamfer"
    case BooleanUnion => "BooleanUnion"
    case BooleanSubtract => "BooleanSubtract"
    case BooleanIntersect => "BooleanIntersect"
    case Loft => "Loft"
    case Sweep => "Sweep"
    case Shell => "Shell"
    case Mirror => "Mirror"
    case LinearPattern => "LinearPattern"
    case CircularPattern => "CircularPattern"
    case Draft => "Draft"
    case Hole => "Hole"
    case Pocket => "Pocket"
    case Offset => "Offset"
    case Thicken => "Thicken"
    case SplitBody => "SplitBody"
    case VariableFillet => "VariableFillet"
    case MakeFace => "MakeFace"
    case Combine => "Combine"
    case Rib => "Rib"
  }

  lemma {:induction false} PrimitiveNames()
    ensures TypeName(MakeBox) == "MakeBox"
    ensures TypeName(MakeCylinder) == "MakeCylinder"
    ensures TypeName(MakeSphere) == "MakeSphere"
    ensures TypeName(MakeCone) == "MakeCone"
    ensures TypeName(MakeTorus) == "MakeTorus"
    ensures TypeName(MakeWedge) == "MakeWedge"
  {
  }

  lemma {:induction false} PrimitiveNamed(kind: string, op: Operation)
    requires Registered(kind) == Some(op) && (op == MakeBox || op == MakeCylinder || op == MakeSphere || op == MakeCone || op == MakeTorus || op == MakeWedge)
    ensures kind == TypeName(op)
  {
    PrimitiveNames();
    hide TypeName;
  }

  lemma {:induction false} CoreNames()
    ensures TypeName(Extrude) == "Extrude"
    ensures TypeName(Revolve) == "Revolve"
    ensures TypeName(Fillet) == "Fillet"
    ensures TypeName(Chamfer) == "Chamfer"
    ensures TypeName(BooleanUnion) == "BooleanUnion"
    ensures TypeName(BooleanSubtract) == "BooleanSubtract"
    ensures TypeName(BooleanIntersect) == "BooleanIntersect"
  {
  }

  lemma {:induction false} CoreNamed(kind: string, op: Operation)
    requires Registered(kind) == Some(op) && (op == Extrude || op == Revolve || op == Fillet || op == Chamfer || op == BooleanUnion || op == BooleanSubtract || op == BooleanIntersect)
    ensures kind == TypeName(op)
  {
    CoreNames();
    hide TypeName;
  }

  lemma {:induction false} FormedNames()
    ensures TypeName(Loft) == "Loft"
    ensures TypeName(Sweep) == "Sweep"
    ensures TypeName(Shell) == "Shell"
    ensures TypeName(Mirror) == "Mirror"
    ensures TypeName(LinearPattern) == "LinearPattern"
    ensures TypeName(CircularPattern) == "CircularPattern"
  {
  }

  lemma {:induction false} FormedNamed(kind: string, op: Operation)
    requires Registered(kind) == Some(op) && (op == Loft || op == Sweep || op == Shell || op == Mirror || op == LinearPattern || op == CircularPattern)
    ensures kind == TypeName(op)
  {
    FormedNames();
    hide TypeName;
  }

  lemma {:induction false} CutNames()
    ensures TypeName(Draft) == "Draft"
    ensures TypeName(Hole) == "Hole"
    ensures TypeName(Pocket) == "Pocket"
    ensures TypeName(Offset) == "Offset"
    ensures TypeName(Thicken) == "Thicken"
  {
  }

  lemma {:induction false} CutNamed(kind: string, op: Operation)
    requires Registered(kind) == Some(op) && (op == Draft || op == Hole || op == Pocket || op == Offset || op == Thicken)
    ensures kind == TypeName(op)
  {
    CutNames();
    hide TypeName;
  }

  lemma {:induction false} OtherNames()
    ensures TypeName(SplitBody) == "SplitBody"
    ensures TypeName(VariableFillet) == "VariableFillet"
    ensures TypeName(MakeFace) == "MakeFace"
    ensures TypeName(Combine) == "Combine"
    ensures TypeName(Rib) == "Rib"
  {
  }

  lemma {:induction false} OtherNamed(kind: string, op: Operation)
    requires Registered(kind) == Some(op) && (op == SplitBody || op == VariableFillet || op == MakeFace || op == Combine || op == Rib)
    ensures kind == TypeName(op)
  {
    OtherNames();
    hide TypeName;
  }

  lemma {:induction false} RegisteredName(kind: string, op: Operation)
    requires Registered(kind) == Some(op)
    ensures kind == TypeName(op)
  {
    hide Registered, TypeName;
    match op
    case MakeBox | MakeCylinder | MakeSphere | MakeCone | MakeTorus | MakeWedge => PrimitiveNamed(kind, op);
    case Extrude | Revolve | Fillet | Chamfer | BooleanUnion | BooleanSubtract | BooleanIntersect => CoreNamed(kind, op);
    case Loft | Sweep | Shell | Mirror | LinearPattern | CircularPattern => FormedNamed(kind, op);
    case Draft | Hole | Pocket | Offset | Thicken => CutNamed(kind, op);
    case SplitBody | VariableFillet | MakeFace | Combine | Rib => OtherNamed(kind, op);
  }

  lemma {:induction false} NamesRegistered(op: Operation)
    ensures Registered(TypeName(op)).Some?
  {
  }

  /** Length, first and last but one letter tell the type names apart. */
  function Told(op: Operation): (int, char, char) {
    match op
    case MakeBox => (7, 'M', 'o')
    case MakeCylinder => (12, 'M', 'e')
    case MakeSphere => (10, 'M', 'r')
    case MakeCone => (8, 'M', 'n')
    case MakeTorus => (9, 'M', 'u')
    case MakeWedge => (9, 'M', 'g')
    case Extrude => (7, 'E', 'd')
    case Revolve => (7, 'R', 'v')
    case Fillet => (6, 'F', 'e')
    case Chamfer => (7, 'C', 'e')
    case BooleanUnion => (12, 'B', 'o')
    case BooleanSubtract => (15, 'B', 'c')
    case BooleanIntersect => (16, 'B', 'c')
    case Loft => (4, 'L', 'f')
    case Sweep => (5, 'S', 'e')
    case Shell => (5, 'S', 'l')
    case Mirror => (6, 'M', 'o')
    case LinearPattern => (13, 'L', 'r')
    case CircularPattern => (15, 'C', 'r')
    case Draft => (5, 'D', 'f')
    case Hole => (4, 'H', 'l')
    case Pocket => (6, 'P', 'e')
    case Offset => (6, 'O', 'e')
    case Thicken => (7, 'T', 'e')
    case SplitBody => (9, 'S', 'd')
    case VariableFillet => (14, 'V', 'e')
    case MakeFace => (8, 'M', 'c')
    case Combine => (7, 'C', 'n')
    case Rib => (3, 'R', 'i')
  }

  lemma {:induction false} NamesTold(op: Operation)
    ensures var s := TypeName(op); |s| >= 3 && Told(op) == (|s|, s[0], s[|s| - 2])
  {
  }

  lemma {:induction false} ToldApart(a: Operation, b: Operation)
    requires Told(a) == Told(b)
    ensures a == b
  {
  }

  /** Every built-in feature is registered under its own type name, and nothing else is. */
  lemma {:induction false} RegisteredIff(kind: string, op: Operation)
    ensures Registered(kind) == Some(op) <==> kind == TypeName(op)
  {
    hide *;
    if Registered(kind) == Some(op) { RegisteredName(kind, op); }
    if kind == TypeName(op) {
      NamesRegistered(op);
      RegisteredName(kind, Registered(kind).value);
      NamesTold(op);
      NamesTold(Registered(kind).value);
      ToldApart(op, Registered(kind).value);
    }
  }

  /** Validation accepts exactly the features of a built-in type whose parameters are what that type needs. */
  lemma {:induction false} ValidatesIff(f: Feature)
    ensures Validates(f) <==> exists op :: f.kind == TypeName(op) && Accepts(op, f.params)
  {
    forall op ensures Registered(f.kind) == Some(op) <==> f.kind == TypeName(op) { RegisteredIff(f.kind, op); }
    forall op ensures AllSatisfied(f.params, SpecsOf(op)) <==> Accepts(op, f.params) { AcceptedIff(op, f.params); }
    hide Registered, TypeName, Accepts, SpecsOf, Satisfies;
  }

  // ── References looked up ───────────────────────────────

  /** The parameters under which a feature of the operation refers to others. */
  function RefNames(op: Operation): set<string> {
    match op
    case BooleanUnion | BooleanSubtract | BooleanIntersect => {"tool"}
    case Fillet | Chamfer => {"edges"}
    case Shell | Draft => {"faces"}
    case Hole => {"face"}
    case Pocket | Rib => {"profile"}
    case VariableFillet => {"edge"}
    case Combine => {"shapes"}
    case Loft => {"profiles"}
    case Sweep => {"profile", "path"}
    case _ => {}
  }

  predicate Under(name: string, params: map<string, ParamValue>, r: ElementRef) {
    name in params && r in RefsIn(params[name])
  }

  /** The reference is given under one of the names. */
  predicate GivenUnder(names: set<string>, params: map<string, ParamValue>, r: ElementRef) {
    exists name :: name in names && Under(name, params, r)
  }

  lemma {:induction false} UnderOne(name: string, params: map<string, ParamValue>, r: ElementRef)
    ensures GivenUnder({name}, params, r) <==> Under(name, params, r)
  {
    hide Under;
    assert name in {name};
  }

  lemma {:induction false} UnderTwo(a: string, b: string, params: map<string, ParamValue>, r: ElementRef)
    ensures GivenUnder({a, b}, params, r) <==> Under(a, params, r) || Under(b, params, r)
  {
    hide Under;
    assert a in {a, b} && b in {a, b};
  }

  lemma {:induction false} OneLookedUp(params: map<string, ParamValue>, name: string, elementType: string, r: ElementRef)
    requires OneElement(params, name, elementType)
    ensures r == RefAt(params, name) <==> Under(name, params, r)
    ensures r == RefAt(params, name) <==> GivenUnder({name}, params, r)
  {
    UnderOne(name, params, r);
  }

  lemma {:induction false} SomeLookedUp(params: map<string, ParamValue>, name: string, elementType: string, r: ElementRef)
    requires SomeElements(params, name, elementType)
    ensures r in RefsAt(params, name) <==> GivenUnder({name}, params, r)
  {
    UnderOne(name, params, r);
  }

  /** A branch looks up exactly the references its feature gives under those names. */
  lemma {:induction false} LooksUpGiven(op: Operation, params: map<string, ParamValue>, r: ElementRef)
    requires Accepts(op, params)
    ensures r in Lookups(op, params) <==> GivenUnder(RefNames(op), params, r)
  {
    hide AboveZero, NotBelowZero, AwayFromZero, Within, FinitePoint, FiniteDirection, SomeElements, OneElement, RefAt, RefsAt, RefsIn,
         OptionalFlag, GivenUnder, Under;
    match op
    case BooleanUnion | BooleanSubtract | BooleanIntersect => OneLookedUp(params, "tool", "", r);
    case Fillet | Chamfer => SomeLookedUp(params, "edges", "Edge", r);
    case Shell | Draft => SomeLookedUp(params, "faces", "Face", r);
    case Hole => OneLookedUp(params, "face", "Face", r);
    case Pocket | Rib => OneLookedUp(params, "profile", "", r);
    case VariableFillet => OneLookedUp(params, "edge", "Edge", r);
    case Combine => SomeLookedUp(params, "shapes", "", r);
    case Loft => SomeLookedUp(params, "profiles", "", r);
    case Sweep =>
      OneLookedUp(params, "profile", "", r);
      OneLookedUp(params, "path", "", r);
      UnderTwo("profile", "path", params, r);
    case _ => assert !GivenUnder({}, params, r) by { NotUnderNone(params, r); }
  }

  lemma {:induction false} NotUnderNone(params: map<string, ParamValue>, r: ElementRef)
    ensures !GivenUnder({}, params, r)
  {
  }

  // ── Execution ──────────────────────────────────────────

  /** Validation lets the feature through as this operation, and a loft has at least two profiles. */
  predicate Ready(op: Operation, f: Feature) {
    f.kind == TypeName(op) && Accepts(op, f.params) && (op == Loft ==> |f.params["profiles"].refs| >= 2)
  }

  /** The boolean operations need whole shapes; all others take any resolved reference. */
  ghost predicate AllResolve(op: Operation, f: Feature, w: World) {
    forall r :: GivenUnder(RefNames(op), f.params, r) ==>
      w.lookup(r) == WholeShape || (w.lookup(r) == SubShape && op !in {BooleanUnion, BooleanSubtract, BooleanIntersect})
  }

  lemma {:induction false} AllResolveIff(op: Operation, f: Feature, w: World)
    requires Accepts(op, f.params)
    ensures AllUsable(op, Lookups(op, f.params), w) <==> AllResolve(op, f, w)
  {
    var refs := Lookups(op, f.params);
    forall r ensures r in refs <==> GivenUnder(RefNames(op), f.params, r) { LooksUpGiven(op, f.params, r); }
    hide Lookups, GivenUnder, RefNames, Accepts;
    forall r ensures Usable(op, w.lookup(r))
                     <==> w.lookup(r) == WholeShape || (w.lookup(r) == SubShape && op !in {BooleanUnion, BooleanSubtract, BooleanIntersect}) { }
    hide Usable;
    if AllUsable(op, refs, w) {
      forall r | r in refs ensures Usable(op, w.lookup(r)) { var i :| 0 <= i < |refs| && refs[i] == r; }
    }
  }

  lemma {:induction false} OneTypeName(f: Feature, op: Operation, other: Operation)
    requires f.kind == TypeName(op) == TypeName(other)
    ensures op == other
  {
    RegisteredIff(f.kind, op);
    RegisteredIff(f.kind, other);
    hide Registered, TypeName;
  }

  lemma {:induction false} ReadyExit(f: Feature, w: World, op: Operation)
    requires f.kind == TypeName(op)
    ensures Validates(f) <==> Accepts(op, f.params)
    ensures Dispatched(f.kind) == Some(op)
    ensures ExitOf(f, w) == Runs <==> Ready(op, f) && AllResolve(op, f, w)
    ensures ExitOf(f, w) == Broken <==> Ready(op, f) && !AllResolve(op, f, w)
  {
    RegisteredIff(f.kind, op);
    SameNames(f.kind);
    ValidatesIff(f);
    forall other | f.kind == TypeName(other) ensures other == op { OneTypeName(f, op, other); }
    FetchNeverBreaks(f);
    if Validates(f) {
      DispatchIsTypeSafe(f, w);
      AllResolveIff(op, f, w);
      if op == Loft { LoftProfiles(f.params); }
    }
    hide Validates, Registered, Dispatched, GetsOf, Checks, Lookups, Fetch, RefsAt, AllUsable, TypeName, AllResolve, Accepts;
  }

  lemma {:induction false} LoftProfiles(params: map<string, ParamValue>)
    requires Accepts(Loft, params)
    ensures "profiles" in params && params["profiles"].ElemRefListV? && RefsAt(params, "profiles") == params["profiles"].refs
  {
  }

  /**
   executeFeature told from the feature: it ends well exactly when the feature has a built-in type and the parameters
   that type needs, every reference it gives resolves, and geometry succeeds; a reference that does not resolve is the
   only broken reference; everything else is a failed execution.
   */
  lemma {:induction false} ExecutesIff(f: Feature, w: World)
    requires !f.suppressed
    ensures var (status, ok) := StatusAfter(f, w);
            && (status == OK <==> exists op :: Ready(op, f) && AllResolve(op, f, w) && w.succeeds(op, f.params))
            && (status == BrokenReference <==> exists op :: Ready(op, f) && !AllResolve(op, f, w))
            && (status == OK || status == BrokenReference || status == ExecutionFailed) && (ok <==> status == OK)
  {
    ValidatesIff(f);
    forall op | f.kind == TypeName(op) { ReadyExit(f, w, op); }
    FetchNeverBreaks(f);
    hide Validates, Dispatched, TypeName, Accepts, AllResolve;
    if ExitOf(f, w) == Runs || ExitOf(f, w) == Broken {
      assert Validates(f) by { ExitValidates(f, w); }
      var op :| f.kind == TypeName(op) && Accepts(op, f.params);
      assert Ready(op, f);
    }
    hide ExitOf;
  }

  lemma {:induction false} ExitValidates(f: Feature, w: World)
    ensures ExitOf(f, w) != Rejected ==> Validates(f)
  {
  }
}
