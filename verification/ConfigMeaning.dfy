/**
 What a configuration decides (src/feature/config.cpp, src/feature/part_studio.cpp): the value each placeholder is
 given, what an execution asks of the geometry kernel, and exactly which configurations execute alike.
 */
module ConfigMeaning {
  import opened Wrappers
  import opened FeatureModel
  import opened TagAllocation
  import opened ReplaySpec
  import opened TreeState
  import opened ReplayTheory
  import opened ReplayMeaning
  import opened Config
  import opened PartStudios
  import opened PartStudioTheory
  import opened StringOrder

  // ── Inputs ─────────────────────────────────────────────

  /** A schema takes an input exactly with a new name, a type that is neither reference nor placeholder, and a default that fits. */
  lemma {:induction false} AdmissibleIff(inputs: seq<InputSpec>, s: InputSpec)
    ensures Admissible(inputs, s)
            <==> && s.name != "" && !(exists t :: t in inputs && t.name == s.name)
                 && s.kind in {TDouble, TInt, TBool, TString, TVec, TPnt, TDir, TAx1, TAx2, TPln} && Fits(s, s.default)
  {
    hide Fits;
  }

  // ── The value of an input ──────────────────────────────

  /** The configured value of the input, or its default where the configuration is silent. */
  ghost predicate IsEffective(inputs: seq<InputSpec>, values: Values, name: string, v: ParamValue) {
    if name in values then v == values[name]
    else exists s :: s in inputs && s.name == name && v == s.default
  }

  /** The placeholder names an input of the schema. */
  ghost predicate Named(inputs: seq<InputSpec>, v: ParamValue) {
    v.ConfigRefV? && exists s :: s in inputs && s.name == v.name
  }

  /** Every placeholder names an input. */
  ghost predicate AllNamed(inputs: seq<InputSpec>, params: map<string, ParamValue>) {
    forall p :: p in params && params[p].ConfigRefV? ==> Named(inputs, params[p])
  }

  lemma {:induction false} UnansweredIff(inputs: seq<InputSpec>, params: map<string, ParamValue>, p: string)
    requires WellFormedSchema(inputs)
    ensures p in UnansweredParams(inputs, params) <==> p in params && params[p].ConfigRefV? && !Named(inputs, params[p])
  {
  }

  lemma {:induction false} AllNamedIff(inputs: seq<InputSpec>, params: map<string, ParamValue>)
    requires WellFormedSchema(inputs)
    ensures AllNamed(inputs, params) <==> UnansweredParams(inputs, params) == {}
  {
    forall p ensures p in UnansweredParams(inputs, params) <==> p in params && params[p].ConfigRefV? && !Named(inputs, params[p]) {
      UnansweredIff(inputs, params, p);
    }
    hide UnansweredParams, Named;
  }

  /** What stands for a value after substitution: its effective value for a placeholder, itself otherwise. */
  ghost predicate StandsFor(inputs: seq<InputSpec>, values: Values, v: ParamValue, w: ParamValue) {
    if v.ConfigRefV? then IsEffective(inputs, values, v.name, w) else w == v
  }

  lemma {:induction false} SubstituteMeans(inputs: seq<InputSpec>, values: Values, v: ParamValue)
    requires v.ConfigRefV? ==> !Unanswered(inputs, v)
    ensures StandsFor(inputs, values, v, Substitute(inputs, values, v))
  {
  }

  /** An input has one effective value. */
  lemma {:induction false} EffectiveUnique(inputs: seq<InputSpec>, values: Values, name: string, v: ParamValue, w: ParamValue)
    requires WellFormedSchema(inputs) && IsEffective(inputs, values, name, v) && IsEffective(inputs, values, name, w)
    ensures v == w
  {
    if name !in values {
      var s :| s in inputs && s.name == name && v == s.default;
      var s' :| s' in inputs && s'.name == name && w == s'.default;
      FindSpecUnique(inputs, s);
      FindSpecUnique(inputs, s');
    }
  }

  // ── Substitution ───────────────────────────────────────

  /** `g` is `f` with every placeholder replaced by the effective value of its input. */
  ghost predicate Concrete(inputs: seq<InputSpec>, values: Values, f: Feature, g: Feature) {
    && g == f.(params := g.params) && g.params.Keys == f.params.Keys
    && forall p :: p in f.params ==> StandsFor(inputs, values, f.params[p], g.params[p])
  }

  /** When every placeholder names an input, the substitution gives each the value configured, or the default. */
  lemma {:induction false} ResolvedMeans(f: Feature, inputs: seq<InputSpec>, values: Values)
    requires WellFormedSchema(inputs) && AllNamed(inputs, f.params)
    ensures Concrete(inputs, values, f, ResolveRefs(f, inputs, values))
  {
    AllNamedIff(inputs, f.params);
    forall p | p in f.params ensures StandsFor(inputs, values, f.params[p], Substitute(inputs, values, f.params[p])) {
      assert p !in UnansweredParams(inputs, f.params);
      SubstituteMeans(inputs, values, f.params[p]);
    }
    hide StandsFor, Substitute, Least;
  }

  lemma {:induction false} ConcreteUnique(inputs: seq<InputSpec>, values: Values, f: Feature, g: Feature, h: Feature)
    requires WellFormedSchema(inputs) && Concrete(inputs, values, f, g) && Concrete(inputs, values, f, h)
    ensures g == h
  {
    forall p | p in f.params ensures g.params[p] == h.params[p] {
      if f.params[p].ConfigRefV? { EffectiveUnique(inputs, values, f.params[p].name, g.params[p], h.params[p]); }
    }
    assert g.params == h.params;
  }

  /** Alphabetical order, character by character, a prefix before what it begins. */
  ghost predicate Alphabetical(a: string, b: string) {
    exists k: nat :: k <= |a| && k < |b| && a[..k] == b[..k] && (k == |a| || a[k] < b[k])
  }

  lemma {:induction false} LessMeans(a: string, b: string)
    ensures Less(a, b) <==> Alphabetical(a, b)
  {
    if Less(a, b) {
      if |a| == 0 {
        assert a[..0] == b[..0];
      } else if a[0] < b[0] {
        assert a[..0] == b[..0];
      } else {
        LessMeans(a[1..], b[1..]);
        var k: nat :| k <= |a[1..]| && k < |b[1..]| && a[1..][..k] == b[1..][..k] && (k == |a[1..]| || a[1..][k] < b[1..][k]);
        assert a[..k + 1] == [a[0]] + a[1..][..k] && b[..k + 1] == [b[0]] + b[1..][..k];
      }
    }
    if Alphabetical(a, b) && |a| > 0 {
      var k: nat :| k <= |a| && k < |b| && a[..k] == b[..k] && (k == |a| || a[k] < b[k]);
      if k > 0 {
        assert a[0] == a[..k][0] == b[0];
        assert a[1..][..k - 1] == a[..k][1..] && b[1..][..k - 1] == b[..k][1..];
        LessMeans(a[1..], b[1..]);
      }
    }
  }

  /** The message for a placeholder no input answers. */
  predicate Names(message: string, p: string, name: string) {
    message == if name == "" then "ConfigRef has empty name on param '" + p + "'"
               else "ConfigRef '" + name + "' on param '" + p + "' does not match any config input in the studio schema"
  }

  /**
   Otherwise the alphabetically first placeholder without an input stops the substitution: the copy is a broken
   reference naming it, with the parameters before it substituted and those after it left alone.
   */
  lemma {:induction false} StoppedMeans(f: Feature, inputs: seq<InputSpec>, values: Values, stop: string)
    requires WellFormedSchema(inputs)
    requires stop in f.params && f.params[stop].ConfigRefV? && !Named(inputs, f.params[stop])
    requires forall p :: p in f.params && Alphabetical(p, stop) && f.params[p].ConfigRefV? ==> Named(inputs, f.params[p])
    ensures var g := ResolveRefs(f, inputs, values);
            && g == f.(params := g.params, status := BrokenReference, errorMessage := g.errorMessage)
            && Names(g.errorMessage, stop, f.params[stop].name)
            && g.params.Keys == f.params.Keys
            && forall p :: p in f.params ==>
                 if Alphabetical(p, stop) then StandsFor(inputs, values, f.params[p], g.params[p]) else g.params[p] == f.params[p]
  {
    var bad := UnansweredParams(inputs, f.params);
    forall p ensures p in bad <==> p in f.params && f.params[p].ConfigRefV? && !Named(inputs, f.params[p]) { UnansweredIff(inputs, f.params, p); }
    forall p ensures Less(p, stop) <==> Alphabetical(p, stop) { LessMeans(p, stop); }
    forall p | p in bad ensures p == stop || Less(stop, p) { LessTotal(p, stop); }
    assert IsLeast(bad, stop);
    LeastUnique(bad, stop, Least(bad));
    forall p | p in f.params && Less(p, stop) ensures StandsFor(inputs, values, f.params[p], Substitute(inputs, values, f.params[p])) {
      assert p !in bad;
      SubstituteMeans(inputs, values, f.params[p]);
    }
    hide StandsFor, Substitute, Least, Less, Alphabetical, UnansweredParams, Named;
    ResolveRefsStopped(f, inputs, values, stop);
  }

  // ── Execution ──────────────────────────────────────────

  /** The features whose last run failed, in tree order. */
  ghost predicate FailedOf(fs: seq<Feature>, broken: seq<Feature>) {
    exists at: seq<nat> ::
      && |at| == |broken|
      && (forall n :: 0 <= n < |at| ==> at[n] < |fs| && fs[at[n]] == broken[n])
      && (forall m, n :: 0 <= m < n < |at| ==> at[m] < at[n])
      && (forall i :: 0 <= i < |fs| ==> (i in at <==> fs[i].status == BrokenReference || fs[i].status == ExecutionFailed))
  }

  lemma {:induction false} BrokenAre(fs: seq<Feature>) returns (at: seq<nat>)
    ensures |at| == |Broken(fs)|
    ensures forall n :: 0 <= n < |at| ==> at[n] < |fs| && fs[at[n]] == Broken(fs)[n]
    ensures forall m, n :: 0 <= m < n < |at| ==> at[m] < at[n]
    ensures forall i :: 0 <= i < |fs| ==> (i in at <==> fs[i].status == BrokenReference || fs[i].status == ExecutionFailed)
  {
    at := [];
    if fs != [] {
      var last := |fs| - 1;
      at := BrokenAre(fs[..last]);
      if Failed(fs[last].status) { at := at + [last]; }
    }
  }

  /** A rejected configuration touches nothing; otherwise the outputs are read off the replayed tree. */
  lemma {:induction false} ExecuteReports(k: Kernel, t: Tree, inputs: seq<InputSpec>, values: Values)
    requires WellFormed(t)
    ensures var (u, o) := Execute(k, t, inputs, values);
            if !ValidConfig(inputs, values) then u == t && o == Outputs(StudioFailed, NullShape, [])
            else
              && u == Replay(k, Substitution(inputs, values), t).0
              && o.finalShape == ShapeBefore(u, |u.features|)
              && FailedOf(u.features, o.broken)
              && (o.status == StudioFailed <==> o.finalShape == NullShape)
              && (o.status == Partial <==> o.finalShape != NullShape && o.broken != [])
  {
    var tr := Substitution(inputs, values);
    ReplayedShape(k, tr, t);
    var (u, shape) := Replay(k, tr, t);
    ReportMeans(u.features, shape);
    hide Replay, ValidConfig, WellFormed, Report, FailedOf, ShapeBefore;
  }

  lemma {:induction false} ReplayedShape(k: Kernel, tr: Transformer, t: Tree)
    requires WellFormed(t)
    ensures var (u, shape) := Replay(k, tr, t); shape == ShapeBefore(u, |u.features|)
  {
    var outs := Outcomes(k, t.documentId, Jobs(tr, t.features));
    assert UniqueIds(t.features) && outs[..|outs|] == outs;
    hide *;
    ReplayIsRecursion(k, tr, t);
    ShapeIs(t, outs, |outs|);
  }

  lemma {:induction false} ReportMeans(fs: seq<Feature>, shape: NamedShape)
    ensures var o := Report(fs, shape);
            && o.finalShape == shape && FailedOf(fs, o.broken)
            && (o.status == StudioFailed <==> shape == NullShape)
            && (o.status == Partial <==> shape != NullShape && o.broken != [])
  {
    var at := BrokenAre(fs);
    hide Broken;
  }

  /**
   In an execution an unsuppressed feature with a placeholder no input answers is refused as a broken reference, and
   one that enters as failed keeps that failure; every other one is run with each placeholder replaced by the
   effective value of its input.
   */
  lemma {:induction false} ExecutedFeature(k: Kernel, t: Tree, inputs: seq<InputSpec>, values: Values, i: nat)
    requires WellFormed(t) && WellFormedSchema(inputs) && ValidConfig(inputs, values) && i < |t.features|
    ensures var u := Execute(k, t, inputs, values).0; var f := t.features[i];
            && |u.features| == |t.features|
            && (!f.suppressed && !AllNamed(inputs, f.params) ==>
                  u.features[i].status == BrokenReference && Cached(u.cache, f.id) == ShapeBefore(u, i) && CounterAt(u, i + 1) == CounterAt(u, i))
            && (!f.suppressed && AllNamed(inputs, f.params) && Failed(f.status) ==>
                  Stored(u, i, f.status, f.errorMessage, ShapeBefore(u, i), CounterAt(u, i)))
            && (!f.suppressed && AllNamed(inputs, f.params) && !Failed(f.status) ==>
                  exists g, x :: Concrete(inputs, values, f, g) && Given(k, u, i, g, x) && StoredAnswer(u, i, k.run(x)))
  {
    var tr := Substitution(inputs, values);
    var f := t.features[i];
    var g := Target(tr, f);
    assert g == ResolveRefs(f, inputs, values);
    ReplayedFeature(k, tr, t, i);
    ResolvedStatus(f, inputs, values);
    AllNamedIff(inputs, f.params);
    if AllNamed(inputs, f.params) { ResolvedMeans(f, inputs, values); }
    hide Replay, WellFormed, ResolveRefs, AllNamed, UnansweredParams, Concrete, Given, StoredAnswer, ValidConfig;
    assert Execute(k, t, inputs, values).0 == Replay(k, tr, t).0;
    assert SameContent(Replay(k, tr, t).0.features[i], f);
    SameIdOf(Replay(k, tr, t).0.features[i], f);
  }

  lemma {:induction false} SameIdOf(f: Feature, g: Feature)
    requires SameContent(f, g)
    ensures f.id == g.id
  {
    assert Cleared(f).id == f.id && Cleared(g).id == g.id;
  }

  // ── Which configurations execute alike ─────────────────

  /** The feature reaches the geometry kernel. */
  ghost predicate Runs(inputs: seq<InputSpec>, f: Feature) {
    !f.suppressed && !Failed(f.status) && AllNamed(inputs, f.params)
  }

  /** Every input that a feature reaching the kernel refers to has the same value under both. */
  ghost predicate AgreeWhereRead(inputs: seq<InputSpec>, fs: seq<Feature>, v: Values, w: Values) {
    forall f, p, a :: f in fs && Runs(inputs, f) && p in f.params && f.params[p].ConfigRefV? ==>
      (IsEffective(inputs, v, f.params[p].name, a) ==> IsEffective(inputs, w, f.params[p].name, a))
  }

  lemma {:induction false} PreparedAlike(inputs: seq<InputSpec>, v: Values, w: Values, f: Feature)
    requires WellFormedSchema(inputs)
    requires Runs(inputs, f) ==> ResolveRefs(f, inputs, v) == ResolveRefs(f, inputs, w)
    ensures Prepare(Substitution(inputs, v), f) == Prepare(Substitution(inputs, w), f)
  {
    AllNamedIff(inputs, f.params);
    ResolvedStatus(f, inputs, v);
    ResolvedStatus(f, inputs, w);
    if !AllNamed(inputs, f.params) {
      var stop := Least(UnansweredParams(inputs, f.params));
      ResolveRefsStopped(f, inputs, v, stop);
      ResolveRefsStopped(f, inputs, w, stop);
    }
    hide ResolveRefs, AllNamed, UnansweredParams, Least, Complaint;
  }

  lemma {:induction false} ResolvedAlike(inputs: seq<InputSpec>, fs: seq<Feature>, v: Values, w: Values, f: Feature)
    requires WellFormedSchema(inputs) && AgreeWhereRead(inputs, fs, v, w) && f in fs && Runs(inputs, f)
    ensures ResolveRefs(f, inputs, v) == ResolveRefs(f, inputs, w)
  {
    var g := ResolveRefs(f, inputs, v);
    ResolvedMeans(f, inputs, v);
    ResolvedMeans(f, inputs, w);
    hide ResolveRefs;
    assert Concrete(inputs, w, f, g);
    ConcreteUnique(inputs, w, f, g, ResolveRefs(f, inputs, w));
  }

  lemma {:induction false} AgreeingExecuteAlike(k: Kernel, t: Tree, inputs: seq<InputSpec>, v: Values, w: Values)
    requires WellFormed(t) && WellFormedSchema(inputs) && ValidConfig(inputs, v) && ValidConfig(inputs, w)
    requires AgreeWhereRead(inputs, t.features, v, w)
    ensures Execute(k, t, inputs, v) == Execute(k, t, inputs, w)
  {
    var tr, tr' := Substitution(inputs, v), Substitution(inputs, w);
    forall i | 0 <= i < |t.features| ensures Prepare(tr, t.features[i]) == Prepare(tr', t.features[i]) {
      if Runs(inputs, t.features[i]) { ResolvedAlike(inputs, t.features, v, w, t.features[i]); }
      PreparedAlike(inputs, v, w, t.features[i]);
    }
    hide Prepare, ResolveRefs, AgreeWhereRead;
    assert Jobs(tr, t.features) == Jobs(tr', t.features);
    ReplayIsRecursion(k, tr, t);
    ReplayIsRecursion(k, tr', t);
    hide Replay, Outcomes, FullTree, Reached, Jobs, ValidConfig, WellFormed;
  }

  /** Makes a body of this feature, and of no other. */
  function Only(g: Feature): Kernel {
    Kernel((x: ExecInput) => if x.feature == g then ExecOutput(true, Body(1), "", OK, "", x.counter)
                             else ExecOutput(false, NullShape, "", ExecutionFailed, "", x.counter),
           (s, n) => None)
  }

  lemma {:induction false} OnlyOutcome(doc: Word64, jobs: seq<Job>, i: nat, g: Feature)
    requires i < |jobs| && jobs[i].Run? && !jobs[i].feature.suppressed && jobs[i].feature == Cleared(jobs[i].feature)
    ensures Outcomes(Only(g), doc, jobs)[i].status == if jobs[i].feature == g then OK else ExecutionFailed
  {
    OutcomeAt(Only(g), doc, jobs, i);
  }

  lemma {:induction false} RunIsPrepared(inputs: seq<InputSpec>, values: Values, f: Feature)
    requires WellFormedSchema(inputs) && Runs(inputs, f)
    ensures var job := Prepare(Substitution(inputs, values), f);
            job.Run? && job.feature == Cleared(ResolveRefs(f, inputs, values)) && !job.feature.suppressed
            && job.feature == Cleared(job.feature)
  {
    AllNamedIff(inputs, f.params);
    ResolvedStatus(f, inputs, values);
    hide ResolveRefs;
  }

  lemma {:induction false} BrokenIff(k: Kernel, t: Tree, inputs: seq<InputSpec>, values: Values, i: nat)
    requires WellFormed(t) && ValidConfig(inputs, values) && i < |t.features|
    ensures var outs := Outcomes(k, t.documentId, Jobs(Substitution(inputs, values), t.features));
            (exists f :: f in Execute(k, t, inputs, values).1.broken && f.id == t.features[i].id) <==> Failed(outs[i].status)
  {
    var outs := Outcomes(k, t.documentId, Jobs(Substitution(inputs, values), t.features));
    assert UniqueIds(t.features);
    ExecuteIsRecursion(k, t, inputs, values);
    var fs := Execute(k, t, inputs, values).0.features;
    hide Execute, Outcomes, Jobs, FullTree, ValidConfig, WellFormed, Broken;
    assert fs[i] in fs && fs[i].id == t.features[i].id;
    BrokenMembers(fs, fs[i]);
    forall f | f in Broken(fs) && f.id == t.features[i].id ensures f == fs[i] {
      BrokenMembers(fs, f);
      var j :| 0 <= j < |fs| && fs[j] == f;
      assert fs[j].id == t.features[j].id;
    }
  }

  lemma {:induction false} DifferingShows(t: Tree, inputs: seq<InputSpec>, v: Values, w: Values, i: nat)
    requires WellFormed(t) && WellFormedSchema(inputs) && ValidConfig(inputs, v) && ValidConfig(inputs, w)
    requires i < |t.features| && Runs(inputs, t.features[i])
    requires ResolveRefs(t.features[i], inputs, v).params != ResolveRefs(t.features[i], inputs, w).params
    ensures exists k :: Execute(k, t, inputs, v).1 != Execute(k, t, inputs, w).1
  {
    var f := t.features[i];
    var g, h := Cleared(ResolveRefs(f, inputs, v)), Cleared(ResolveRefs(f, inputs, w));
    assert g != h by { assert g.params != h.params; }
    var k := Only(g);
    var jobs, jobs' := Jobs(Substitution(inputs, v), t.features), Jobs(Substitution(inputs, w), t.features);
    assert jobs[i] == Prepare(Substitution(inputs, v), f) && jobs'[i] == Prepare(Substitution(inputs, w), f);
    RunIsPrepared(inputs, v, f);
    RunIsPrepared(inputs, w, f);
    hide *;
    OnlyOutcome(t.documentId, jobs, i, g);
    OnlyOutcome(t.documentId, jobs', i, g);
    BrokenIff(k, t, inputs, v, i);
    BrokenIff(k, t, inputs, w, i);
    assert Failed(ExecutionFailed) && !Failed(OK) by { FailedAre(); }
    assert Execute(k, t, inputs, v).1 != Execute(k, t, inputs, w).1;
  }

  lemma {:induction false} FailedAre()
    ensures Failed(ExecutionFailed) && !Failed(OK)
  {
  }

  /**
   Two configurations of one studio give the same outputs under every geometry kernel exactly when they agree on
   the effective value of every input read by a feature that reaches the kernel.
   */
  lemma {:induction false} SameOutputsIff(t: Tree, inputs: seq<InputSpec>, v: Values, w: Values)
    requires WellFormed(t) && WellFormedSchema(inputs) && ValidConfig(inputs, v) && ValidConfig(inputs, w)
    ensures (forall k :: Execute(k, t, inputs, v).1 == Execute(k, t, inputs, w).1) <==> AgreeWhereRead(inputs, t.features, v, w)
  {
    if AgreeWhereRead(inputs, t.features, v, w) {
      forall k ensures Execute(k, t, inputs, v).1 == Execute(k, t, inputs, w).1 { AgreeingExecuteAlike(k, t, inputs, v, w); }
    } else {
      var f, p, a :| f in t.features && Runs(inputs, f) && p in f.params && f.params[p].ConfigRefV?
                     && IsEffective(inputs, v, f.params[p].name, a) && !IsEffective(inputs, w, f.params[p].name, a);
      var i :| 0 <= i < |t.features| && t.features[i] == f;
      ResolvedMeans(f, inputs, v);
      ResolvedMeans(f, inputs, w);
      EffectiveUnique(inputs, v, f.params[p].name, a, ResolveRefs(f, inputs, v).params[p]);
      hide Execute, WellFormed, WellFormedSchema, ValidConfig, ResolveRefs, Runs;
      DifferingShows(t, inputs, v, w, i);
    }
  }
}
