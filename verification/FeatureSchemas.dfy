/**
 The parameter schemas of the built-in features and their validation (src/feature/feature_schema.cpp), and the
 dispatch that relies on them (src/feature/feature.cpp). Geometry and reference lookup are parameters.
 */
module FeatureSchemas {
  import opened Wrappers
  import opened FeatureModel

  datatype Operation =
    | MakeBox | MakeCylinder | MakeSphere | MakeCone | MakeTorus | MakeWedge
    | Extrude | Revolve | Fillet | Chamfer | BooleanUnion | BooleanSubtract | BooleanIntersect
    | Loft | Sweep | Shell | Mirror | LinearPattern | CircularPattern | Draft | Hole | Pocket | Offset | Thicken
    | SplitBody | VariableFillet | MakeFace | Combine | Rib

  // ── Specifications of parameters ───────────────────────

  datatype ParamSpec = ParamSpec(
    name: string,
    kind: ParamType,
    required: bool,
    min: Option<Double>,
    max: Option<Double>,
    nonZero: bool,
    positive: bool,
    vecNonZero: bool,
    refKind: string,
    listNonEmpty: bool)

  function Spec(name: string, kind: ParamType): (r: ParamSpec)
    ensures r.name == name && r.kind == kind && r.required
  {
    ParamSpec(name, kind, true, None, None, false, false, true, "", true)
  }

  function Between(name: string, min: Option<Double>, max: Option<Double>): (r: ParamSpec)
    ensures r.name == name && r.kind == TDouble && r.required
  {
    Spec(name, TDouble).(min := min, max := max)
  }

  function AtLeastZero(name: string): (r: ParamSpec)
    ensures r.name == name && r.kind == TDouble && r.required
  {
    Between(name, Some(Finite(0.0)), None)
  }

  function Positive(name: string): (r: ParamSpec)
    ensures r.name == name && r.kind == TDouble && r.required
  {
    AtLeastZero(name).(nonZero := true)
  }

  function NonZero(name: string): (r: ParamSpec)
    ensures r.name == name && r.kind == TDouble && r.required
  {
    Spec(name, TDouble).(nonZero := true)
  }

  function Reference(name: string, refKind: string): (r: ParamSpec)
    ensures r.name == name && r.kind == TElemRef && r.required
  {
    Spec(name, TElemRef).(refKind := refKind)
  }

  function References(name: string, refKind: string): (r: ParamSpec)
    ensures r.name == name && r.kind == TElemRefList && r.required
  {
    Spec(name, TElemRefList).(refKind := refKind)
  }

  const FULL_TURN: real := 6.283185307179586

  function Turn(name: string): (r: ParamSpec)
    ensures r.name == name && r.kind == TDouble && r.required
  {
    Between(name, Some(Finite(-FULL_TURN)), Some(Finite(FULL_TURN)))
  }

  function Count(name: string): (r: ParamSpec)
    ensures r.name == name && r.kind == TInt && r.required
  {
    Spec(name, TInt).(min := Some(Finite(1.0)))
  }

  /** Primitives. */
  function PrimitiveSpecs(op: Operation): seq<ParamSpec> {
    match op
    case MakeBox => [Spec("dimensions", TVec).(positive := true)]
    case MakeCylinder => [Positive("radius"), Positive("height")]
    case MakeSphere => [Positive("radius")]
    case MakeCone => [Positive("radius1"), AtLeastZero("radius2"), Positive("height")]
    case MakeTorus => [Positive("majorRadius"), Positive("minorRadius")]
    case MakeWedge => [Spec("dimensions", TVec).(positive := true), AtLeastZero("ltx")]
    case _ => []
  }

  /** Core operations. */
  function CoreSpecs(op: Operation): seq<ParamSpec> {
    match op
    case Extrude => [Spec("direction", TVec)]
    case Revolve => [Spec("axis", TAx1), Turn("angle")]
    case Fillet => [References("edges", "Edge"), Positive("radius")]
    case Chamfer => [References("edges", "Edge"), Positive("distance")]
    case BooleanUnion => [Reference("tool", "")]
    case BooleanSubtract => [Reference("tool", "")]
    case BooleanIntersect => [Reference("tool", "")]
    case _ => []
  }

  /** Lofts, sweeps, shells and patterns. */
  function FormedSpecs(op: Operation): seq<ParamSpec> {
    match op
    case Loft => [References("profiles", ""), Spec("makeSolid", TBool).(required := false)]
    case Sweep => [Reference("profile", ""), Reference("path", "")]
    case Shell => [References("faces", "Face"), NonZero("thickness")]
    case Mirror => [Spec("plane", TAx2)]
    case LinearPattern => [Spec("direction", TVec), Count("count"), AtLeastZero("spacing")]
    case CircularPattern => [Spec("axis", TAx1), Count("count"), Turn("angle")]
    case _ => []
  }

  /** Drafts, holes, pockets and offsets. */
  function CutSpecs(op: Operation): seq<ParamSpec> {
    match op
    case Draft => [References("faces", "Face"), Between("angle", Some(Finite(-89.0)), Some(Finite(89.0))), Spec("pullDirection", TDir)]
    case Hole => [Reference("face", "Face"), Spec("center", TPnt), Positive("diameter"), Positive("depth")]
    case Pocket => [Reference("profile", ""), Positive("depth")]
    case Offset => [NonZero("distance")]
    case Thicken => [NonZero("thickness")]
    case _ => []
  }

  /** The remaining operations. */
  function OtherSpecs(op: Operation): seq<ParamSpec> {
    match op
    case SplitBody => [Spec("point", TPnt), Spec("normal", TDir)]
    case VariableFillet => [Reference("edge", "Edge"), Positive("startRadius"), Positive("endRadius")]
    case Combine => [References("shapes", "")]
    case Rib => [Spec("direction", TDir), Positive("thickness"), Reference("profile", "")]
    case _ => []
  }

  /** The registration table. */
  function SpecsOf(op: Operation): seq<ParamSpec> {
    match op
    case MakeBox | MakeCylinder | MakeSphere | MakeCone | MakeTorus | MakeWedge => PrimitiveSpecs(op)
    case Extrude | Revolve | Fillet | Chamfer | BooleanUnion | BooleanSubtract | BooleanIntersect => CoreSpecs(op)
    case Loft | Sweep | Shell | Mirror | LinearPattern | CircularPattern => FormedSpecs(op)
    case Draft | Hole | Pocket | Offset | Thicken => CutSpecs(op)
    case SplitBody | VariableFillet | MakeFace | Combine | Rib => OtherSpecs(op)
  }

  /** The registered type names, in registration order. */
  function Registered(kind: string): Option<Operation> {
    if kind == "MakeBox" then Some(MakeBox)
    else if kind == "MakeCylinder" then Some(MakeCylinder)
    else if kind == "MakeSphere" then Some(MakeSphere)
    else if kind == "MakeCone" then Some(MakeCone)
    else if kind == "MakeTorus" then Some(MakeTorus)
    else if kind == "MakeWedge" then Some(MakeWedge)
    else if kind == "Extrude" then Some(Extrude)
    else if kind == "Revolve" then Some(Revolve)
    else if kind == "Fillet" then Some(Fillet)
    else if kind == "Chamfer" then Some(Chamfer)
    else if kind == "BooleanUnion" then Some(BooleanUnion)
    else if kind == "BooleanSubtract" then Some(BooleanSubtract)
    else if kind == "BooleanIntersect" then Some(BooleanIntersect)
    else if kind == "Loft" then Some(Loft)
    else if kind == "Sweep" then Some(Sweep)
    else if kind == "Shell" then Some(Shell)
    else if kind == "Mirror" then Some(Mirror)
    else if kind == "LinearPattern" then Some(LinearPattern)
    else if kind == "CircularPattern" then Some(CircularPattern)
    else if kind == "Draft" then Some(Draft)
    else if kind == "Hole" then Some(Hole)
    else if kind == "Pocket" then Some(Pocket)
    else if kind == "Offset" then Some(Offset)
    else if kind == "Thicken" then Some(Thicken)
    else if kind == "SplitBody" then Some(SplitBody)
    else if kind == "VariableFillet" then Some(VariableFillet)
    else if kind == "MakeFace" then Some(MakeFace)
    else if kind == "Combine" then Some(Combine)
    else if kind == "Rib" then Some(Rib)
    else None
  }

  // ── Validation ─────────────────────────────────────────

  const EPSILON: real := 0.000000000001

  predicate FinitePlace(v: ParamValue) {
    match v
    case Ax1V(loc, axis) => FiniteTriple(loc) && FiniteTriple(axis)
    case Ax2V(loc, axis, xdir) => FiniteTriple(loc) && FiniteTriple(axis) && FiniteTriple(xdir)
    case PlnV(loc, axis, xdir) => FiniteTriple(loc) && FiniteTriple(axis) && FiniteTriple(xdir)
    case _ => true
  }

  /** validateNumeric */
  predicate MeetsNumeric(s: ParamSpec, x: Double) {
    && x.Finite?
    && !(s.min.Some? && Lt(x, s.min.value)) && !(s.max.Some? && Lt(s.max.value, x))
    && !(s.nonZero && -EPSILON <= x.value <= EPSILON)
  }

  predicate MeetsVector(s: ParamSpec, t: Triple) {
    && FiniteTriple(t)
    && !(s.vecNonZero && t.x.value * t.x.value + t.y.value * t.y.value + t.z.value * t.z.value <= EPSILON * EPSILON)
    && !(s.positive && (t.x.value <= 0.0 || t.y.value <= 0.0 || t.z.value <= 0.0))
  }

  predicate IsSubShapeKind(refKind: string) {
    refKind == "Face" || refKind == "Edge" || refKind == "Vertex"
  }

  /** checkElementRef */
  predicate MeetsReference(s: ParamSpec, r: ElementRef) {
    && r.featureId != "" && r.elementName != ""
    && !(r.elementName == "ROOT" && IsSubShapeKind(s.refKind))
    && (s.refKind == "" || r.elementType == s.refKind)
  }

  /** validateOne */
  predicate Meets(s: ParamSpec, v: ParamValue) {
    && TypeOf(v) == s.kind
    && match v
       case DoubleV(d) => MeetsNumeric(s, d)
       case IntV(i) => MeetsNumeric(s, Finite(i as real))
       case VecV(t) => MeetsVector(s, t)
       case PntV(t) => FiniteTriple(t)
       case DirV(t) => FiniteTriple(t)
       case ElemRefV(r) => MeetsReference(s, r)
       case ElemRefListV(rs) => !(s.listNonEmpty && rs == []) && forall i :: 0 <= i < |rs| ==> MeetsReference(s, rs[i])
       case ConfigRefV(_) => false
       case _ => FinitePlace(v)
  }

  predicate Satisfies(params: map<string, ParamValue>, s: ParamSpec) {
    if s.name in params then Meets(s, params[s.name]) else !s.required
  }

  /** validateFeature accepts the feature. */
  predicate Validates(f: Feature) {
    var op := Registered(f.kind);
    op.Some? && forall i :: 0 <= i < |SpecsOf(op.value)| ==> Satisfies(f.params, SpecsOf(op.value)[i])
  }

  /** Stops at the first violation and marks the feature as failed. */
  method ValidateFeature(f: Feature) returns (ok: bool, out: Feature)
    ensures ok == Validates(f)
    ensures if ok then out == f else out.status == ExecutionFailed && SameContent(out, f)
  {
    hide Registered, SpecsOf, Satisfies;
    var op := Registered(f.kind);
    if op.None? { return false, f.(status := ExecutionFailed, errorMessage := "Unknown feature type: '" + f.kind + "'"); }
    var specs := SpecsOf(op.value);
    for i := 0 to |specs|
      invariant forall j :: 0 <= j < i ==> Satisfies(f.params, specs[j])
    {
      var ok := ValidateParam(f.params, specs[i]);
      if !ok { return false, f.(status := ExecutionFailed, errorMessage := specs[i].name); }
    }
    return true, f;
  }

  method ValidateParam(params: map<string, ParamValue>, s: ParamSpec) returns (ok: bool)
    ensures ok == Satisfies(params, s)
  {
    if s.name !in params { return !s.required; }
    var v := params[s.name];
    if TypeOf(v) != s.kind { return false; }
    if v.ElemRefListV? {
      if s.listNonEmpty && v.refs == [] { return false; }
      for i := 0 to |v.refs|
        invariant forall j :: 0 <= j < i ==> MeetsReference(s, v.refs[j])
      {
        if !MeetsReference(s, v.refs[i]) { return false; }
      }
      return true;
    }
    return Meets(s, v);
  }

  // ── Dispatch ───────────────────────────────────────────

  /** A typed read of a parameter that throws when it is missing or of another alternative. */
  datatype Get = Get(name: string, kind: ParamType)

  /** The typed reads of each branch of executeFeature, in order. */
  function GetsOf(op: Operation): seq<Get> {
    match op
    case Extrude => [Get("direction", TVec)]
    case Revolve => [Get("axis", TAx1), Get("angle", TDouble)]
    case Fillet => [Get("edges", TElemRefList), Get("radius", TDouble)]
    case Chamfer => [Get("edges", TElemRefList), Get("distance", TDouble)]
    case BooleanUnion => [Get("tool", TElemRef)]
    case BooleanSubtract => [Get("tool", TElemRef)]
    case BooleanIntersect => [Get("tool", TElemRef)]
    case Shell => [Get("faces", TElemRefList), Get("thickness", TDouble)]
    case Mirror => [Get("plane", TAx2)]
    case LinearPattern => [Get("direction", TVec), Get("count", TInt), Get("spacing", TDouble)]
    case CircularPattern => [Get("axis", TAx1), Get("count", TInt), Get("angle", TDouble)]
    case Draft => [Get("faces", TElemRefList), Get("angle", TDouble), Get("pullDirection", TDir)]
    case Hole => [Get("face", TElemRef), Get("center", TPnt), Get("diameter", TDouble), Get("depth", TDouble)]
    case Pocket => [Get("depth", TDouble)]
    case Offset => [Get("distance", TDouble)]
    case Thicken => [Get("thickness", TDouble)]
    case SplitBody => [Get("point", TPnt), Get("normal", TDir)]
    case VariableFillet => [Get("edge", TElemRef), Get("startRadius", TDouble), Get("endRadius", TDouble)]
    case MakeFace => []
    case Combine => []
    case Loft => [Get("profiles", TElemRefList)]
    case Sweep => [Get("profile", TElemRef), Get("path", TElemRef)]
    case Rib => [Get("direction", TDir), Get("thickness", TDouble)]
    case MakeBox => [Get("dimensions", TVec)]
    case MakeCylinder => [Get("radius", TDouble), Get("height", TDouble)]
    case MakeSphere => [Get("radius", TDouble)]
    case MakeCone => [Get("radius1", TDouble), Get("radius2", TDouble), Get("height", TDouble)]
    case MakeTorus => [Get("majorRadius", TDouble), Get("minorRadius", TDouble)]
    case MakeWedge => [Get("dimensions", TVec), Get("ltx", TDouble)]
  }

  /** The type names of the branches, in the order they are tried. */
  function Dispatched(kind: string): Option<Operation> {
    if kind == "Extrude" then Some(Extrude)
    else if kind == "Revolve" then Some(Revolve)
    else if kind == "Fillet" then Some(Fillet)
    else if kind == "Chamfer" then Some(Chamfer)
    else if kind == "BooleanUnion" then Some(BooleanUnion)
    else if kind == "BooleanSubtract" then Some(BooleanSubtract)
    else if kind == "BooleanIntersect" then Some(BooleanIntersect)
    else if kind == "Shell" then Some(Shell)
    else if kind == "Mirror" then Some(Mirror)
    else if kind == "LinearPattern" then Some(LinearPattern)
    else if kind == "CircularPattern" then Some(CircularPattern)
    else if kind == "Draft" then Some(Draft)
    else if kind == "Hole" then Some(Hole)
    else if kind == "Pocket" then Some(Pocket)
    else if kind == "Offset" then Some(Offset)
    else if kind == "Thicken" then Some(Thicken)
    else if kind == "SplitBody" then Some(SplitBody)
    else if kind == "VariableFillet" then Some(VariableFillet)
    else if kind == "MakeFace" then Some(MakeFace)
    else if kind == "Combine" then Some(Combine)
    else if kind == "Loft" then Some(Loft)
    else if kind == "Sweep" then Some(Sweep)
    else if kind == "Rib" then Some(Rib)
    else if kind == "MakeBox" then Some(MakeBox)
    else if kind == "MakeCylinder" then Some(MakeCylinder)
    else if kind == "MakeSphere" then Some(MakeSphere)
    else if kind == "MakeCone" then Some(MakeCone)
    else if kind == "MakeTorus" then Some(MakeTorus)
    else if kind == "MakeWedge" then Some(MakeWedge)
    else None
  }

  /** How a branch ends before geometry is called. */
  datatype Exit = Runs | Rejected | MissingParameter | WrongType | NoProfile | NoShapes | TooFewProfiles | UnknownType | Broken

  function Fetch(params: map<string, ParamValue>, gets: seq<Get>): Exit {
    if gets == [] then Runs
    else if gets[0].name !in params then MissingParameter
    else if TypeOf(params[gets[0].name]) != gets[0].kind then WrongType
    else Fetch(params, gets[1..])
  }

  function RefAt(params: map<string, ParamValue>, name: string): ElementRef {
    if name in params && params[name].ElemRefV? then params[name].ref else ElementRef("", "", "")
  }

  function RefsAt(params: map<string, ParamValue>, name: string): seq<ElementRef> {
    if name in params && params[name].ElemRefListV? then params[name].refs else []
  }

  predicate IsNull(r: ElementRef) {
    r.featureId == "" || r.elementName == ""
  }

  /** The checks a branch makes on what it has read. */
  function Checks(op: Operation, params: map<string, ParamValue>): Exit {
    match op
    case Pocket => if IsNull(RefAt(params, "profile")) then NoProfile else Runs
    case Rib => if IsNull(RefAt(params, "profile")) then NoProfile else Runs
    case Combine => if RefsAt(params, "shapes") == [] then NoShapes else Runs
    case Loft => if |RefsAt(params, "profiles")| < 2 then TooFewProfiles else Runs
    case _ => Runs
  }

  /** The references a branch looks up, in order. */
  function Lookups(op: Operation, params: map<string, ParamValue>): seq<ElementRef> {
    match op
    case Fillet => RefsAt(params, "edges")
    case Chamfer => RefsAt(params, "edges")
    case BooleanUnion => [RefAt(params, "tool")]
    case BooleanSubtract => [RefAt(params, "tool")]
    case BooleanIntersect => [RefAt(params, "tool")]
    case Shell => RefsAt(params, "faces")
    case Draft => RefsAt(params, "faces")
    case Hole => [RefAt(params, "face")]
    case Pocket => [RefAt(params, "profile")]
    case VariableFillet => [RefAt(params, "edge")]
    case Combine => RefsAt(params, "shapes")
    case Loft => RefsAt(params, "profiles")
    case Sweep => [RefAt(params, "profile"), RefAt(params, "path")]
    case Rib => [RefAt(params, "profile")]
    case _ => []
  }

  datatype Found = Unresolved | SubShape | WholeShape

  /** Reference lookup and geometry, as far as the dispatch depends on them. */
  datatype World = World(lookup: ElementRef -> Found, succeeds: (Operation, map<string, ParamValue>) -> bool)

  predicate Usable(op: Operation, found: Found) {
    if op == BooleanUnion || op == BooleanSubtract || op == BooleanIntersect then found == WholeShape else found != Unresolved
  }

  predicate AllUsable(op: Operation, refs: seq<ElementRef>, w: World) {
    forall i :: 0 <= i < |refs| ==> Usable(op, w.lookup(refs[i]))
  }

  /** How executeFeature ends for a feature that is not suppressed. */
  function ExitOf(f: Feature, w: World): Exit {
    if !Validates(f) then Rejected
    else match Dispatched(f.kind)
      case None => UnknownType
      case Some(op) =>
        var fetched := Fetch(f.params, GetsOf(op));
        if fetched != Runs then fetched
        else if Checks(op, f.params) != Runs then Checks(op, f.params)
        else if !AllUsable(op, Lookups(op, f.params), w) then Broken
        else Runs
  }

  /** executeFeature: the status left on the feature, and whether a shape came out. */
  function StatusAfter(f: Feature, w: World): (FeatureStatus, bool) {
    if f.suppressed then (Suppressed, true)
    else match ExitOf(f, w)
      case Runs => if w.succeeds(Dispatched(f.kind).value, f.params) then (OK, true) else (ExecutionFailed, false)
      case Broken => (BrokenReference, false)
      case _ => (ExecutionFailed, false)
  }

  /** The status is set step by step as the branch advances. */
  method ExecuteFeature(f: Feature, w: World) returns (out: Feature, ok: bool)
    ensures (out.status, ok) == StatusAfter(f, w) && SameContent(out, f)
  {
    hide Dispatched, Registered, Validates, GetsOf, Lookups, Checks;
    out := f.(status := OK, errorMessage := "");
    if f.suppressed { return out.(status := Suppressed), true; }
    var valid, checked := ValidateFeature(out);
    SameParamsValidate(out, f);
    if !valid { return checked, false; }
    var op := Dispatched(f.kind);
    if op.None? { return out.(status := ExecutionFailed, errorMessage := "Unknown feature type: " + f.kind), false; }
    FetchNeverBreaks(f);
    var fetched := FetchAll(f.params, GetsOf(op.value));
    if fetched != Runs { return out.(status := ExecutionFailed), false; }
    if Checks(op.value, f.params) != Runs { return out.(status := ExecutionFailed), false; }
    var refs := Lookups(op.value, f.params);
    for i := 0 to |refs|
      invariant forall j :: 0 <= j < i ==> Usable(op.value, w.lookup(refs[j]))
    {
      if !Usable(op.value, w.lookup(refs[i])) { return out.(status := BrokenReference), false; }
    }
    if !w.succeeds(op.value, f.params) { return out.(status := ExecutionFailed), false; }
    return out, true;
  }

  lemma {:induction false} SameParamsValidate(f: Feature, g: Feature)
    requires f.kind == g.kind && f.params == g.params
    ensures Validates(f) == Validates(g)
  {
    hide SpecsOf, Registered;
  }

  method FetchAll(params: map<string, ParamValue>, gets: seq<Get>) returns (e: Exit)
    ensures e == Fetch(params, gets)
  {
    for i := 0 to |gets|
      invariant Fetch(params, gets) == Fetch(params, gets[i..])
    {
      if gets[i].name !in params { return MissingParameter; }
      if TypeOf(params[gets[i].name]) != gets[i].kind { return WrongType; }
    }
    return Runs;
  }

  // ── Type safety ────────────────────────────────────────

  /** The registry and the dispatch know the same names, although each lists them in its own order. */
  lemma {:induction false} SameNames(kind: string)
    ensures Registered(kind) == Dispatched(kind)
  {
  }

  /** Some required specification promises this read. */
  predicate Declared(specs: seq<ParamSpec>, g: Get) {
    exists i :: 0 <= i < |specs| && specs[i].name == g.name && specs[i].kind == g.kind && specs[i].required
  }

  predicate AllDeclared(specs: seq<ParamSpec>, gets: seq<Get>) {
    forall k :: 0 <= k < |gets| ==> Declared(specs, gets[k])
  }

  lemma {:induction false} DeclaredAt(specs: seq<ParamSpec>, g: Get, i: nat)
    requires i < |specs| && specs[i].name == g.name && specs[i].kind == g.kind && specs[i].required
    ensures Declared(specs, g)
  {
  }

  /** Each read of a branch is of a parameter its schema requires, with the same type. */
  lemma {:induction false} GetsDeclared(op: Operation)
    ensures AllDeclared(SpecsOf(op), GetsOf(op))
  {
    hide SpecsOf, GetsOf, Declared;
    var gets := GetsOf(op);
    GetsOfLength(op);
    forall k | 0 <= k < |gets| ensures Declared(SpecsOf(op), gets[k]) {
      if k == 0 { FirstDeclared(op); } else if k == 1 { SecondDeclared(op); } else if op == Hole { HoleDeclared(); } else { ThirdDeclared(op); }
    }
  }

  lemma {:induction false} GetsOfLength(op: Operation)
    ensures |GetsOf(op)| <= 4
  {
  }

  predicate Early(op: Operation) {
    op.MakeBox? || op.MakeCylinder? || op.MakeSphere? || op.MakeCone? || op.MakeTorus? || op.MakeWedge?
    || op.Extrude? || op.Revolve? || op.Fillet? || op.Chamfer? || op.BooleanUnion? || op.BooleanSubtract? || op.BooleanIntersect?
  }

  lemma {:induction false} FirstEarly(op: Operation)
    requires Early(op)
    ensures Declared(SpecsOf(op), GetsOf(op)[0])
  {
    hide FormedSpecs, CutSpecs, OtherSpecs, Spec, Between, AtLeastZero, Positive, NonZero, Reference, References, Turn, Count;
    DeclaredAt(SpecsOf(op), GetsOf(op)[0], 0);
  }

  lemma {:induction false} FirstLate(op: Operation)
    requires !Early(op) && |GetsOf(op)| > 0
    ensures Declared(SpecsOf(op), GetsOf(op)[0])
  {
    hide PrimitiveSpecs, CoreSpecs, Spec, Between, AtLeastZero, Positive, NonZero, Reference, References, Turn, Count;
    DeclaredAt(SpecsOf(op), GetsOf(op)[0], if op == Pocket then 1 else 0);
  }

  lemma {:induction false} FirstDeclared(op: Operation)
    requires |GetsOf(op)| > 0
    ensures Declared(SpecsOf(op), GetsOf(op)[0])
  {
    hide SpecsOf, GetsOf, Declared;
    if Early(op) { FirstEarly(op); } else { FirstLate(op); }
  }

  lemma {:induction false} SecondDeclared(op: Operation)
    requires |GetsOf(op)| > 1
    ensures Declared(SpecsOf(op), GetsOf(op)[1])
  {
    hide Spec, Between, AtLeastZero, Positive, NonZero, Reference, References, Turn, Count;
    DeclaredAt(SpecsOf(op), GetsOf(op)[1], 1);
  }

  lemma {:induction false} ThirdDeclared(op: Operation)
    requires |GetsOf(op)| > 2 && op != Hole
    ensures Declared(SpecsOf(op), GetsOf(op)[2]) && |GetsOf(op)| == 3
  {
    hide Spec, Between, AtLeastZero, Positive, NonZero, Reference, References, Turn, Count;
    DeclaredAt(SpecsOf(op), GetsOf(op)[2], 2);
  }

  lemma {:induction false} HoleDeclared()
    ensures Declared(SpecsOf(Hole), GetsOf(Hole)[2]) && Declared(SpecsOf(Hole), GetsOf(Hole)[3])
  {
    hide Spec, Between, AtLeastZero, Positive, NonZero, Reference, References, Turn, Count;
    DeclaredAt(SpecsOf(Hole), GetsOf(Hole)[2], 2);
    DeclaredAt(SpecsOf(Hole), GetsOf(Hole)[3], 3);
  }

  lemma {:induction false} FetchRuns(params: map<string, ParamValue>, specs: seq<ParamSpec>, gets: seq<Get>)
    requires forall i :: 0 <= i < |specs| ==> Satisfies(params, specs[i])
    requires AllDeclared(specs, gets)
    ensures Fetch(params, gets) == Runs
  {
    if gets != [] {
      assert Declared(specs, gets[0]);
      var i :| 0 <= i < |specs| && specs[i].name == gets[0].name && specs[i].kind == gets[0].kind && specs[i].required;
      assert Satisfies(params, specs[i]);
      assert forall k :: 0 <= k < |gets[1..]| ==> gets[1..][k] == gets[k + 1];
      FetchRuns(params, specs, gets[1..]);
    }
  }

  /** The checks repeated in the branches hold by validation, except the number of profiles of a loft. */
  lemma {:induction false} ChecksPass(op: Operation, params: map<string, ParamValue>)
    requires forall i :: 0 <= i < |SpecsOf(op)| ==> Satisfies(params, SpecsOf(op)[i])
    ensures Checks(op, params) == if op == Loft && |RefsAt(params, "profiles")| < 2 then TooFewProfiles else Runs
  {
    hide Satisfies, RefsAt, RefAt, IsNull, Between, AtLeastZero, Positive, NonZero, Turn, Count;
    match op
    case Pocket => assert Satisfies(params, SpecsOf(op)[0]); ProfilePresent(params, SpecsOf(op)[0]);
    case Rib => assert Satisfies(params, SpecsOf(op)[2]); ProfilePresent(params, SpecsOf(op)[2]);
    case Combine => assert SpecsOf(op)[0] == References("shapes", ""); ShapesPresent(params);
    case _ =>
  }

  lemma {:induction false} ProfilePresent(params: map<string, ParamValue>, s: ParamSpec)
    requires Satisfies(params, s) && s.required && s.name == "profile" && s.kind == TElemRef
    ensures !IsNull(RefAt(params, "profile"))
  {
  }

  lemma {:induction false} ShapesPresent(params: map<string, ParamValue>)
    requires Satisfies(params, References("shapes", ""))
    ensures RefsAt(params, "shapes") != []
  {
  }

  /**
   Once validation accepts a feature, no typed read can miss: the missing-parameter, wrong-type, unknown-type and
   empty-input exits are unreachable. What remains is a loft of fewer than two profiles, a reference that does not
   resolve, or geometry.
   */
  lemma {:induction false} DispatchIsTypeSafe(f: Feature, w: World)
    requires Validates(f)
    ensures Dispatched(f.kind).Some?
    ensures var op := Dispatched(f.kind).value;
            ExitOf(f, w) == if op == Loft && |RefsAt(f.params, "profiles")| < 2 then TooFewProfiles
                            else if !AllUsable(op, Lookups(op, f.params), w) then Broken
                            else Runs
  {
    SameNames(f.kind);
    hide Registered, Dispatched;
    var op := Registered(f.kind).value;
    GetsDeclared(op);
    FetchRuns(f.params, SpecsOf(op), GetsOf(op));
    ChecksPass(op, f.params);
    hide SpecsOf, GetsOf, Lookups, Checks, Satisfies;
  }

  /** A shape comes out exactly when the status left is OK or Suppressed, and a failed status otherwise. */
  lemma {:induction false} StatusDiscipline(f: Feature, w: World)
    ensures var (status, ok) := StatusAfter(f, w);
            && (ok <==> status == OK || status == Suppressed)
            && (!ok <==> Failed(status))
            && (status == Suppressed <==> f.suppressed)
            && (status == BrokenReference ==> Validates(f))
  {
    hide Validates, Dispatched, GetsOf, Checks, Lookups, Fetch;
    FetchNeverBreaks(f);
  }

  lemma {:induction false} FetchNeverBreaks(f: Feature)
    ensures forall gets :: Fetch(f.params, gets) != Broken
    ensures forall op :: Checks(op, f.params) != Broken && Checks(op, f.params) != Rejected
  {
    forall gets ensures Fetch(f.params, gets) != Broken { FetchOutcome(f.params, gets); }
  }

  lemma {:induction false} FetchOutcome(params: map<string, ParamValue>, gets: seq<Get>)
    ensures Fetch(params, gets) == Runs || Fetch(params, gets) == MissingParameter || Fetch(params, gets) == WrongType
  {
    if gets != [] { FetchOutcome(params, gets[1..]); }
  }
}
