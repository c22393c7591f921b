/**
 Configuration inputs of a part studio and the substitution of ConfigRef placeholders
 (src/feature/config.h, src/feature/config.cpp).
 */
module Config {
  import opened Wrappers
  import opened FeatureModel
  import opened StringOrder

  datatype InputSpec = InputSpec(
    name: string,
    kind: ParamType,
    default: ParamValue,
    description: string,
    min: Option<Double>,
    max: Option<Double>)

  predicate InRange(min: Option<Double>, max: Option<Double>, d: Double) {
    !(min.Some? && Lt(d, min.value)) && !(max.Some? && Lt(max.value, d))
  }

  /** checkValueAgainstSpec: the value has the declared type, is finite, and lies within the bounds. */
  predicate Fits(spec: InputSpec, v: ParamValue) {
    && TypeOf(v) == spec.kind
    && match v
       case DoubleV(d) => d.Finite? && InRange(spec.min, spec.max, d)
       case IntV(i) => InRange(spec.min, spec.max, Finite(i as real))
       case VecV(t) => FiniteTriple(t)
       case PntV(t) => FiniteTriple(t)
       case DirV(t) => FiniteTriple(t)
       case _ => true
  }

  predicate LegalKind(k: ParamType) {
    !k.TElemRef? && !k.TElemRefList? && !k.TConfigRef?
  }

  function InputNames(inputs: seq<InputSpec>): seq<string> {
    seq(|inputs|, i requires 0 <= i < |inputs| => inputs[i].name)
  }

  function FindSpec(inputs: seq<InputSpec>, name: string): (r: Option<InputSpec>)
    ensures r.Some? ==> r.value in inputs && r.value.name == name
    ensures r.None? ==> forall s :: s in inputs ==> s.name != name
  {
    if inputs == [] then None
    else if inputs[0].name == name then Some(inputs[0])
    else FindSpec(inputs[1..], name)
  }

  /** What every schema built by addInput satisfies. */
  ghost predicate WellFormedSchema(inputs: seq<InputSpec>) {
    && Distinct(InputNames(inputs))
    && forall s :: s in inputs ==> s.name != "" && LegalKind(s.kind) && Fits(s, s.default)
  }

  predicate Admissible(inputs: seq<InputSpec>, s: InputSpec) {
    s.name != "" && FindSpec(inputs, s.name).None? && LegalKind(s.kind) && Fits(s, s.default)
  }

  /** validateConfig: every value bound to a declared input fits it; unknown names are ignored. */
  ghost predicate ValidConfig(inputs: seq<InputSpec>, values: map<string, ParamValue>) {
    forall s :: s in inputs && s.name in values ==> Fits(s, values[s.name])
  }

  // ── Substitution ───────────────────────────────────────

  /** A placeholder that no input answers. */
  predicate Unanswered(inputs: seq<InputSpec>, v: ParamValue) {
    v.ConfigRefV? && (v.name == "" || FindSpec(inputs, v.name).None?)
  }

  function Substitute(inputs: seq<InputSpec>, values: map<string, ParamValue>, v: ParamValue): ParamValue {
    if !v.ConfigRefV? || Unanswered(inputs, v) then v
    else if v.name in values then values[v.name]
    else FindSpec(inputs, v.name).value.default
  }

  function Complaint(param: string, v: ParamValue): string {
    if v.ConfigRefV? && v.name != "" then
      "ConfigRef '" + v.name + "' on param '" + param + "' does not match any config input in the studio schema"
    else "ConfigRef has empty name on param '" + param + "'"
  }

  function UnansweredParams(inputs: seq<InputSpec>, params: map<string, ParamValue>): set<string> {
    set p | p in params && Unanswered(inputs, params[p])
  }

  /**
   resolveConfigRefs: parameters are visited in key order; the first unanswered placeholder stops
   the substitution and marks the copy as a broken reference.
   */
  function ResolveRefs(f: Feature, inputs: seq<InputSpec>, values: map<string, ParamValue>): Feature {
    var bad := UnansweredParams(inputs, f.params);
    if bad == {} then
      f.(params := map p | p in f.params :: Substitute(inputs, values, f.params[p]))
    else
      var stop := Least(bad);
      f.(params := map p | p in f.params :: if Less(p, stop) then Substitute(inputs, values, f.params[p]) else f.params[p],
         status := BrokenReference,
         errorMessage := Complaint(stop, f.params[stop]))
  }

  class ConfigSchema {
    var inputs: seq<InputSpec>

    ghost predicate Valid()
      reads this
    {
      WellFormedSchema(inputs)
    }

    constructor ()
      ensures Valid() && inputs == []
    {
      inputs := [];
    }

    method Find(name: string) returns (r: Option<InputSpec>)
      ensures r == FindSpec(inputs, name)
    {
      for i := 0 to |inputs|
        invariant FindSpec(inputs, name) == FindSpec(inputs[i..], name)
      {
        if inputs[i].name == name { return Some(inputs[i]); }
      }
      return None;
    }

    method AddInput(spec: InputSpec) returns (ok: bool)
      requires Valid()
      modifies this
      ensures Valid()
      ensures ok == Admissible(old(inputs), spec)
      ensures inputs == if ok then old(inputs) + [spec] else old(inputs)
    {
      if spec.name == "" { return false; }
      var found := Find(spec.name);
      if found.Some? { return false; }
      if !LegalKind(spec.kind) { return false; }
      if !Fits(spec, spec.default) { return false; }
      AddKeepsSchema(inputs, spec);
      inputs := inputs + [spec];
      return true;
    }
  }

  lemma {:induction false} AddKeepsSchema(inputs: seq<InputSpec>, s: InputSpec)
    requires WellFormedSchema(inputs) && Admissible(inputs, s)
    ensures WellFormedSchema(inputs + [s])
  {
    var names := InputNames(inputs + [s]);
    assert forall i :: 0 <= i < |inputs| ==> names[i] == InputNames(inputs)[i] && inputs[i] in inputs;
  }

  class ConfigValue {
    var values: map<string, ParamValue>

    constructor ()
      ensures values == map[]
    {
      values := map[];
    }

    /** Stores a value only when the schema declares the name and the value fits. */
    method Set(schema: ConfigSchema, name: string, v: ParamValue) returns (ok: bool)
      modifies this
      ensures ok == (FindSpec(schema.inputs, name).Some? && Fits(FindSpec(schema.inputs, name).value, v))
      ensures values == if ok then old(values)[name := v] else old(values)
      ensures schema.Valid() && ValidConfig(schema.inputs, old(values)) ==> ValidConfig(schema.inputs, values)
    {
      var spec := schema.Find(name);
      if spec.None? { return false; }
      if !Fits(spec.value, v) { return false; }
      SetKeepsConfig(schema.inputs, values, name, v);
      values := values[name := v];
      return true;
    }

    method FillDefaults(schema: ConfigSchema)
      requires schema.Valid()
      modifies this
      ensures forall n :: n in values <==> n in InputNames(schema.inputs)
      ensures forall i :: 0 <= i < |schema.inputs| ==>
        schema.inputs[i].name in values && values[schema.inputs[i].name] == schema.inputs[i].default
      ensures ValidConfig(schema.inputs, values)
    {
      values := map[];
      var inputs := schema.inputs;
      ghost var names := InputNames(inputs);
      for i := 0 to |inputs|
        invariant forall n :: n in values <==> n in names[..i]
        invariant forall j :: 0 <= j < i ==> names[j] in values && values[names[j]] == inputs[j].default
      {
        assert inputs[i].name == names[i] && names[..i + 1] == names[..i] + [names[i]];
        values := values[inputs[i].name := inputs[i].default];
      }
      assert names[..|inputs|] == names;
      DefaultsFit(inputs, values);
    }
  }

  lemma {:induction false} DefaultsFit(inputs: seq<InputSpec>, values: map<string, ParamValue>)
    requires WellFormedSchema(inputs)
    requires forall j :: 0 <= j < |inputs| ==> InputNames(inputs)[j] in values && values[InputNames(inputs)[j]] == inputs[j].default
    ensures ValidConfig(inputs, values)
    ensures forall i :: 0 <= i < |inputs| ==> inputs[i].name in values && values[inputs[i].name] == inputs[i].default
  {
    forall i | 0 <= i < |inputs| ensures inputs[i].name in values && values[inputs[i].name] == inputs[i].default {
      assert InputNames(inputs)[i] == inputs[i].name;
    }
    forall s | s in inputs && s.name in values ensures Fits(s, values[s.name]) {
      var i :| 0 <= i < |inputs| && inputs[i] == s;
    }
  }

  lemma {:induction false} FindSpecUnique(inputs: seq<InputSpec>, s: InputSpec)
    requires Distinct(InputNames(inputs)) && s in inputs
    ensures FindSpec(inputs, s.name) == Some(s)
  {
    var r := FindSpec(inputs, s.name).value;
    var i :| 0 <= i < |inputs| && inputs[i] == s;
    var j :| 0 <= j < |inputs| && inputs[j] == r;
    assert InputNames(inputs)[i] == InputNames(inputs)[j];
  }

  lemma {:induction false} SetKeepsConfig(inputs: seq<InputSpec>, values: map<string, ParamValue>, name: string, v: ParamValue)
    requires FindSpec(inputs, name).Some? && Fits(FindSpec(inputs, name).value, v)
    ensures WellFormedSchema(inputs) && ValidConfig(inputs, values) ==> ValidConfig(inputs, values[name := v])
  {
    if WellFormedSchema(inputs) && ValidConfig(inputs, values) {
      forall s | s in inputs && s.name in values[name := v] ensures Fits(s, values[name := v][s.name]) {
        if s.name == name { FindSpecUnique(inputs, s); }
      }
    }
  }

  /** Stops at the first declared input whose bound value does not fit. */
  method ValidateConfig(inputs: seq<InputSpec>, values: map<string, ParamValue>) returns (ok: bool)
    ensures ok <==> ValidConfig(inputs, values)
  {
    for i := 0 to |inputs|
      invariant forall j :: 0 <= j < i && inputs[j].name in values ==> Fits(inputs[j], values[inputs[j].name])
    {
      if inputs[i].name in values && !Fits(inputs[i], values[inputs[i].name]) { return false; }
    }
    return true;
  }

  /** The substitution loop, in key order. */
  method ResolveConfigRefs(feature: Feature, inputs: seq<InputSpec>, values: map<string, ParamValue>) returns (out: Feature)
    ensures out == ResolveRefs(feature, inputs, values)
  {
    out := feature;
    var todo := feature.params.Keys;
    while todo != {}
      invariant todo <= feature.params.Keys
      invariant out == feature.(params := out.params)
      invariant Substituted(feature.params, inputs, values, todo, out.params)
      invariant forall p, q :: p in feature.params.Keys - todo && q in todo ==> Less(p, q)
      decreases todo
    {
      var p := Least(todo);
      var v := feature.params[p];
      hide Least, ResolveRefs;
      if Unanswered(inputs, v) {
        StopsAtLeast(feature, inputs, todo, p);
        StoppedParams(feature.params, inputs, values, todo, p, out.params);
        out := out.(status := BrokenReference, errorMessage := Complaint(p, v));
        ResolveRefsStopped(feature, inputs, values, p);
        return;
      }
      out := out.(params := out.params[p := Substitute(inputs, values, v)]);
      todo := todo - {p};
    }
    assert UnansweredParams(inputs, feature.params) == {};
    assert out.params == map p | p in feature.params :: Substitute(inputs, values, feature.params[p]);
  }

  /** Outside `todo` every parameter was answered and substituted; inside it none was touched. */
  ghost predicate Substituted(params: map<string, ParamValue>, inputs: seq<InputSpec>, values: map<string, ParamValue>,
                              todo: set<string>, out: map<string, ParamValue>)
  {
    && out.Keys == params.Keys
    && (forall p :: p in params.Keys - todo ==> !Unanswered(inputs, params[p]) && out[p] == Substitute(inputs, values, params[p]))
    && (forall p :: p in params && p in todo ==> out[p] == params[p])
  }

  lemma {:induction false} StoppedParams(params: map<string, ParamValue>, inputs: seq<InputSpec>, values: map<string, ParamValue>,
                      todo: set<string>, p: string, out: map<string, ParamValue>)
    requires IsLeast(todo, p) && todo <= params.Keys && Substituted(params, inputs, values, todo, out)
    requires forall a, b :: a in params.Keys - todo && b in todo ==> Less(a, b)
    ensures out == map q | q in params :: if Less(q, p) then Substitute(inputs, values, params[q]) else params[q]
  {
    forall q | q in params ensures Less(q, p) <==> q !in todo { LessTotal(p, q); }
  }

  lemma {:induction false} ResolveRefsStopped(f: Feature, inputs: seq<InputSpec>, values: map<string, ParamValue>, p: string)
    requires UnansweredParams(inputs, f.params) != {} && Least(UnansweredParams(inputs, f.params)) == p
    ensures ResolveRefs(f, inputs, values)
            == f.(params := map q | q in f.params :: if Less(q, p) then Substitute(inputs, values, f.params[q]) else f.params[q],
                  status := BrokenReference, errorMessage := Complaint(p, f.params[p]))
  {
  }

  lemma {:induction false} StopsAtLeast(f: Feature, inputs: seq<InputSpec>, todo: set<string>, p: string)
    requires todo <= f.params.Keys && IsLeast(todo, p) && Unanswered(inputs, f.params[p])
    requires forall q :: q in f.params.Keys - todo ==> !Unanswered(inputs, f.params[q])
    ensures UnansweredParams(inputs, f.params) != {} && Least(UnansweredParams(inputs, f.params)) == p
  {
    var bad := UnansweredParams(inputs, f.params);
    assert p in bad && IsLeast(bad, p);
    LeastUnique(bad, p, Least(bad));
  }

  // ── What a successful substitution guarantees ──────────

  /**
   Against a well-formed schema and a valid configuration, a substitution that does not end in a broken
   reference leaves no placeholder, keeps every parameter name, and puts in the value configured for the input, or
   its default where none is; either fits the input.
   */
  lemma {:induction false} ResolvedIsConcrete(f: Feature, inputs: seq<InputSpec>, values: map<string, ParamValue>, p: string)
    requires WellFormedSchema(inputs) && ValidConfig(inputs, values)
    requires UnansweredParams(inputs, f.params) == {} && p in f.params
    ensures var g := ResolveRefs(f, inputs, values);
            && g.params.Keys == f.params.Keys
            && !g.params[p].ConfigRefV?
            && (f.params[p].ConfigRefV? ==>
                  exists s :: s in inputs && s.name == f.params[p].name && Fits(s, g.params[p]) && TypeOf(g.params[p]) == s.kind
                              && g.params[p] == if s.name in values then values[s.name] else s.default)
            && (!f.params[p].ConfigRefV? ==> g.params[p] == f.params[p])
  {
    var v := f.params[p];
    assert p !in UnansweredParams(inputs, f.params);
    if v.ConfigRefV? {
      var s := FindSpec(inputs, v.name).value;
      assert s in inputs && Fits(s, Substitute(inputs, values, v));
    }
  }

  /** The substitution changes nothing but parameters, and status and message when it fails. */
  lemma {:induction false} ResolvedStatus(f: Feature, inputs: seq<InputSpec>, values: map<string, ParamValue>)
    ensures var g := ResolveRefs(f, inputs, values);
            && g.id == f.id && g.kind == f.kind && g.suppressed == f.suppressed
            && (UnansweredParams(inputs, f.params) == {} ==> g.status == f.status && g.errorMessage == f.errorMessage)
            && (UnansweredParams(inputs, f.params) != {} ==> g.status == BrokenReference)
  {
  }
}
