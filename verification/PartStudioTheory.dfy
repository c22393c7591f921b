/**
 When PartStudio::execute is a pure function.  A stored failure is sticky: resolveConfigRefs copies the
 stored status and replayFrom refuses a copy whose status is a failure, so a feature that failed once is
 never executed again.  Execution is pure exactly when there is no such feature.
 */
module PartStudioTheory {
  import opened Wrappers
  import opened FeatureModel
  import opened TagAllocation
  import opened ReplaySpec
  import opened TreeState
  import opened ReplayTheory
  import opened ReplayShapes
  import opened ReplayWitnesses
  import opened Config
  import opened PartStudios
  import opened StringOrder

  /** The feature would be refused because of a status left by an earlier run. */
  predicate Sticky(inputs: seq<InputSpec>, f: Feature) {
    !f.suppressed && Failed(f.status) && UnansweredParams(inputs, f.params) == {}
  }

  ghost predicate NoneSticky(inputs: seq<InputSpec>, fs: seq<Feature>) {
    forall i :: 0 <= i < |fs| ==> !Sticky(inputs, fs[i])
  }

  /** The same tree, never executed. */
  function Pristine(t: Tree): Tree {
    t.(features := seq(|t.features|, i requires 0 <= i < |t.features| => Untouched(t.features[i])))
  }

  function Untouched(f: Feature): Feature {
    f.(status := NotExecuted, errorMessage := "")
  }

  lemma {:induction false} PristineWellFormed(t: Tree)
    requires WellFormed(t)
    ensures WellFormed(Pristine(t)) && SameContents(t.features, Pristine(t).features)
    ensures Pristine(t).documentId == t.documentId
    ensures forall inputs :: NoneSticky(inputs, Pristine(t).features)
  {
    SameIds(t.features, Pristine(t).features);
  }

  /** Without a sticky feature the jobs of an execution depend on content alone. */
  lemma {:induction false} PrepareIsPure(inputs: seq<InputSpec>, values: Values, f: Feature, g: Feature)
    requires SameContent(f, g) && !Sticky(inputs, f) && !Sticky(inputs, g)
    ensures Prepare(Substitution(inputs, values), f) == Prepare(Substitution(inputs, values), g)
  {
    assert Cleared(f).params == Cleared(g).params && Cleared(f).suppressed == Cleared(g).suppressed;
    assert Cleared(f).id == Cleared(g).id && Cleared(f).kind == Cleared(g).kind;
    ResolvedStatus(f, inputs, values);
    ResolvedStatus(g, inputs, values);
    hide Least;
    var f', g' := ResolveRefs(f, inputs, values), ResolveRefs(g, inputs, values);
    if UnansweredParams(inputs, f.params) != {} {
      assert f'.errorMessage == g'.errorMessage;
    } else {
      assert Cleared(f') == Cleared(g');
    }
  }

  lemma {:induction false} JobsArePure(inputs: seq<InputSpec>, values: Values, fs: seq<Feature>, gs: seq<Feature>)
    requires SameContents(fs, gs) && NoneSticky(inputs, fs) && NoneSticky(inputs, gs)
    ensures Jobs(Substitution(inputs, values), fs) == Jobs(Substitution(inputs, values), gs)
  {
    forall i | 0 <= i < |fs| ensures Prepare(Substitution(inputs, values), fs[i]) == Prepare(Substitution(inputs, values), gs[i]) {
      assert SameContent(fs[i], gs[i]);
      PrepareIsPure(inputs, values, fs[i], gs[i]);
    }
  }

  /** Equal results: shape, status, and the broken features with their statuses and messages. */
  lemma {:induction false} BrokenAgree(fs: seq<Feature>, gs: seq<Feature>)
    requires |fs| == |gs| && forall i :: 0 <= i < |fs| ==> SameResult(fs[i], gs[i]) && (fs[i].suppressed ==> !Failed(fs[i].status))
    ensures Broken(fs) == Broken(gs)
  {
    if fs != [] {
      var n := |fs| - 1;
      BrokenAgree(fs[..n], gs[..n]);
      assert SameResult(fs[n], gs[n]);
    }
  }

  /** What a stamped feature looks like, given the job it was stamped for. */
  lemma {:induction false} StampOfJob(k: Kernel, doc: Word64, jobs: seq<Job>, i: nat)
    requires i < |jobs|
    ensures var o := Outcomes(k, doc, jobs)[i];
            && (jobs[i].Skip? ==> o.status == Suppressed)
            && (!jobs[i].Skip? ==> o.error.Some?)
            && (jobs[i].Refuse? ==> o.status == jobs[i].status)
  {
    OutcomeAt(k, doc, jobs, i);
  }

  lemma {:induction false} StampsAgreeOn(k: Kernel, doc: Word64, tr: Transformer, fs: seq<Feature>, f: Feature, g: Feature, i: nat)
    requires i < |fs| && f == fs[i] && SameContent(f, g)
    ensures var o := Outcomes(k, doc, Jobs(tr, fs))[i];
            SameResult(Stamp(f, o), Stamp(g, o)) && (f.suppressed ==> !Failed(Stamp(f, o).status))
  {
    StampOfJob(k, doc, Jobs(tr, fs), i);
    assert Jobs(tr, fs)[i] == Prepare(tr, f);
    assert Cleared(f).suppressed == Cleared(g).suppressed && Cleared(f).params == Cleared(g).params;
    assert Cleared(f).id == Cleared(g).id && Cleared(f).kind == Cleared(g).kind;
  }

  /**
   Two trees with the same content, none of whose features is sticky, execute alike under the same schema,
   configuration and document, whatever ran before: outputs, caches, boundaries (so identities) and counter.
   */
  lemma {:induction false} ExecuteIsPure(k: Kernel, t: Tree, u: Tree, inputs: seq<InputSpec>, values: Values)
    requires WellFormed(t) && WellFormed(u) && SameContents(t.features, u.features) && t.documentId == u.documentId
    requires NoneSticky(inputs, t.features) && NoneSticky(inputs, u.features) && ValidConfig(inputs, values)
    ensures var (t', o) := Execute(k, t, inputs, values); var (u', o') := Execute(k, u, inputs, values);
            && o == o' && t'.cache == u'.cache && t'.snapshots == u'.snapshots && t'.counter == u'.counter
            && SameContents(t'.features, u'.features)
  {
    var tr := Substitution(inputs, values);
    JobsArePure(inputs, values, t.features, u.features);
    ReplayIsRecursion(k, tr, t);
    ReplayIsRecursion(k, tr, u);
    SameContentsIds(t.features, u.features);
    ExecutedAgree(k, tr, t, u);
    hide ById, Broken, Outcomes, Jobs, WellFormed, Reached, Replay, SameContents, Ids, ValidConfig, NoneSticky;
  }

  lemma {:induction false} ExecutedAgree(k: Kernel, tr: Transformer, t: Tree, u: Tree)
    requires SameContents(t.features, u.features) && Jobs(tr, t.features) == Jobs(tr, u.features)
    ensures var outs := Outcomes(k, t.documentId, Jobs(tr, t.features));
            && |outs| == |t.features| == |u.features|
            && SameContents(FullTree(t, outs).features, FullTree(u, outs).features)
            && Broken(FullTree(t, outs).features) == Broken(FullTree(u, outs).features)
  {
    var outs := Outcomes(k, t.documentId, Jobs(tr, t.features));
    hide FullTree;
    FullFeatures(t, outs);
    FullFeatures(u, outs);
    var fs, gs := FullTree(t, outs).features, FullTree(u, outs).features;
    forall i | 0 <= i < |fs|
      ensures SameResult(fs[i], gs[i]) && SameContent(fs[i], gs[i]) && (fs[i].suppressed ==> !Failed(fs[i].status))
    {
      assert SameContent(t.features[i], u.features[i]);
      StampsAgreeOn(k, t.documentId, tr, t.features, t.features[i], u.features[i], i);
    }
    hide SameResult, SameContent;
    BrokenAgree(fs, gs);
  }

  // ── The converse: one sticky feature is enough ─────────

  lemma {:induction false} BrokenMembers(fs: seq<Feature>, f: Feature)
    ensures f in Broken(fs) <==> f in fs && Failed(f.status)
  {
    if fs != [] {
      var n := |fs| - 1;
      BrokenMembers(fs[..n], f);
      assert fs == fs[..n] + [fs[n]];
    }
  }

  /** A sticky feature ends with the failure it came with, whatever the geometry would have done. */
  lemma {:induction false} StickyStaysBroken(k: Kernel, t: Tree, inputs: seq<InputSpec>, values: Values, i: nat)
    requires WellFormed(t) && ValidConfig(inputs, values) && i < |t.features| && Sticky(inputs, t.features[i])
    ensures exists f :: f in Execute(k, t, inputs, values).1.broken && f.id == t.features[i].id
  {
    var tr := Substitution(inputs, values);
    var jobs := Jobs(tr, t.features);
    var outs := Outcomes(k, t.documentId, jobs);
    ReplayIsRecursion(k, tr, t);
    FullFeatures(t, outs);
    ResolvedStatus(t.features[i], inputs, values);
    assert jobs[i] == Prepare(tr, t.features[i]);
    StampOfJob(k, t.documentId, jobs, i);
    hide FullTree, Reached, Replay, ValidConfig, WellFormed, Outcomes;
    var f := FullTree(t, outs).features[i];
    assert f in FullTree(t, outs).features;
    BrokenMembers(FullTree(t, outs).features, f);
  }

  /** An execution under a valid configuration is the recursion of ReplaySpec. */
  lemma {:induction false} ExecuteIsRecursion(k: Kernel, t: Tree, inputs: seq<InputSpec>, values: Values)
    requires WellFormed(t) && ValidConfig(inputs, values)
    ensures var outs := Outcomes(k, t.documentId, Jobs(Substitution(inputs, values), t.features));
            var (t', o) := Execute(k, t, inputs, values);
            && |outs| == |t.features| == |t'.features|
            && t' == FullTree(t, outs) && WellFormed(t')
            && o.broken == Broken(t'.features)
            && forall i :: 0 <= i < |outs| ==> t'.features[i] == Stamp(t.features[i], outs[i])
  {
    var tr := Substitution(inputs, values);
    ReplayIsRecursion(k, tr, t);
    FullFeatures(t, Outcomes(k, t.documentId, Jobs(tr, t.features)));
    hide FullTree, Replay, Outcomes, Jobs, Broken, ValidConfig, WellFormed;
  }

  lemma {:induction false} PristineSucceeds(t: Tree, inputs: seq<InputSpec>, values: Values, i: nat)
    requires i < |t.features| && Sticky(inputs, t.features[i])
    ensures Outcomes(Numbering(), t.documentId, Jobs(Substitution(inputs, values), Pristine(t).features))[i].status == OK
  {
    var u := Pristine(t);
    var jobs := Jobs(Substitution(inputs, values), u.features);
    ResolvedStatus(u.features[i], inputs, values);
    assert jobs[i] == Prepare(Substitution(inputs, values), u.features[i]);
    OutcomeAt(Numbering(), u.documentId, jobs, i);
  }

  lemma {:induction false} StampedOk(us: seq<Feature>, fs: seq<Feature>, outs: seq<Outcome>, i: nat)
    requires UniqueIds(us) && |us| == |fs| == |outs| && i < |us| && outs[i].status == OK
    requires forall j :: 0 <= j < |us| ==> fs[j] == Stamp(us[j], outs[j])
    ensures forall f :: f in Broken(fs) ==> f.id != us[i].id
  {
    forall f | f in Broken(fs) ensures f.id != us[i].id {
      BrokenMembers(fs, f);
      var j :| 0 <= j < |fs| && fs[j] == f;
      assert j != i;
    }
  }

  /** On a tree never executed, with geometry that always succeeds, a feature with its placeholders answered is not broken. */
  lemma {:induction false} PristineRuns(t: Tree, inputs: seq<InputSpec>, values: Values, i: nat)
    requires WellFormed(t) && ValidConfig(inputs, values) && i < |t.features| && Sticky(inputs, t.features[i])
    ensures forall f :: f in Execute(Numbering(), Pristine(t), inputs, values).1.broken ==> f.id != t.features[i].id
  {
    var u := Pristine(t);
    PristineWellFormed(t);
    assert u.features[i].id == t.features[i].id && UniqueIds(u.features) && |u.features| == |t.features|;
    hide *;
    PristineSucceeds(t, inputs, values, i);
    ExecuteIsRecursion(Numbering(), u, inputs, values);
    StampedOk(u.features, Execute(Numbering(), u, inputs, values).0.features,
              Outcomes(Numbering(), u.documentId, Jobs(Substitution(inputs, values), u.features)), i);
  }

  /**
   Execution gives, for every geometry, the result it gives on the same tree never executed, exactly when no
   feature is sticky: no unsuppressed feature whose placeholders are all answered carries a failure at entry.
   */
  lemma {:induction false} ExecutePureIffNoneSticky(t: Tree, inputs: seq<InputSpec>, values: Values)
    requires WellFormed(t) && ValidConfig(inputs, values)
    ensures (forall k :: Execute(k, t, inputs, values).1 == Execute(k, Pristine(t), inputs, values).1)
            <==> NoneSticky(inputs, t.features)
  {
    PristineWellFormed(t);
    if NoneSticky(inputs, t.features) {
      forall k ensures Execute(k, t, inputs, values).1 == Execute(k, Pristine(t), inputs, values).1 {
        ExecuteIsPure(k, t, Pristine(t), inputs, values);
      }
    } else {
      var i :| 0 <= i < |t.features| && Sticky(inputs, t.features[i]);
      hide Execute, WellFormed, NoneSticky, Sticky;
      StickyStaysBroken(Numbering(), t, inputs, values, i);
      PristineRuns(t, inputs, values, i);
      assert Execute(Numbering(), t, inputs, values).1 != Execute(Numbering(), Pristine(t), inputs, values).1;
    }
  }

  // ── Runs of executions ─────────────────────────────────

  ghost function After(k: Kernel, t: Tree, inputs: seq<InputSpec>, configs: seq<Values>): Tree {
    if configs == [] then t
    else Execute(k, After(k, t, inputs, configs[..|configs| - 1]), inputs, configs[|configs| - 1]).0
  }

  /** Each of the features still has a placeholder that no input answers. */
  ghost predicate OnlyUnanswered(inputs: seq<InputSpec>, broken: seq<Feature>) {
    forall f :: f in broken ==> UnansweredParams(inputs, f.params) != {}
  }

  /** Whatever an execution of the run reports as broken is broken for lack of an input. */
  ghost predicate NeverFails(k: Kernel, t: Tree, inputs: seq<InputSpec>, configs: seq<Values>) {
    forall i :: 0 <= i < |configs| ==> OnlyUnanswered(inputs, Execute(k, After(k, t, inputs, configs[..i]), inputs, configs[i]).1.broken)
  }

  /** One execution changes no id, type, parameter or suppression flag, and keeps the tree well formed. */
  lemma {:induction false} ExecuteKeepsContent(k: Kernel, t: Tree, inputs: seq<InputSpec>, values: Values)
    requires WellFormed(t)
    ensures var t' := Execute(k, t, inputs, values).0;
            WellFormed(t') && SameContents(t'.features, t.features) && t'.documentId == t.documentId
  {
    if ValidConfig(inputs, values) {
      ExecuteIsRecursion(k, t, inputs, values);
      var outs := Outcomes(k, t.documentId, Jobs(Substitution(inputs, values), t.features));
      assert FullTree(t, outs).documentId == t.documentId;
      hide Execute, FullTree, WellFormed, ValidConfig, Outcomes, Jobs, Broken;
      StampedContents(t.features, Execute(k, t, inputs, values).0.features, outs);
    }
  }

  lemma {:induction false} StampedContents(fs: seq<Feature>, gs: seq<Feature>, outs: seq<Outcome>)
    requires |fs| == |gs| == |outs| && forall i :: 0 <= i < |fs| ==> gs[i] == Stamp(fs[i], outs[i])
    ensures SameContents(gs, fs)
  {
  }

  lemma {:induction false} SuppressedNotFailed(k: Kernel, t: Tree, inputs: seq<InputSpec>, values: Values, i: nat)
    requires WellFormed(t) && ValidConfig(inputs, values) && i < |t.features|
    ensures var f := Execute(k, t, inputs, values).0.features; |f| == |t.features| && (f[i].suppressed ==> !Failed(f[i].status))
  {
    ExecuteIsRecursion(k, t, inputs, values);
    StampOfJob(k, t.documentId, Jobs(Substitution(inputs, values), t.features), i);
    assert Jobs(Substitution(inputs, values), t.features)[i] == Prepare(Substitution(inputs, values), t.features[i]);
    hide Execute, WellFormed, ValidConfig, Outcomes, Broken;
  }

  /** After an execution a feature is sticky exactly when it is reported broken although all its placeholders are answered. */
  lemma {:induction false} StickyAfterIff(k: Kernel, t: Tree, inputs: seq<InputSpec>, values: Values, i: nat)
    requires WellFormed(t) && ValidConfig(inputs, values) && i < |t.features|
    ensures var (t', o) := Execute(k, t, inputs, values);
            && |t'.features| == |t.features|
            && (Sticky(inputs, t'.features[i]) <==> t'.features[i] in o.broken && UnansweredParams(inputs, t.features[i].params) == {})
  {
    ExecuteIsRecursion(k, t, inputs, values);
    SuppressedNotFailed(k, t, inputs, values, i);
    var fs := Execute(k, t, inputs, values).0.features;
    hide Execute, WellFormed, ValidConfig, Outcomes, Jobs, Broken, UnansweredParams;
    assert fs[i] in fs;
    BrokenMembers(fs, fs[i]);
  }

  /** So an execution leaves something sticky exactly when it reports a feature that lacks no input. */
  lemma {:induction false} StickyLeftIff(k: Kernel, t: Tree, inputs: seq<InputSpec>, values: Values)
    requires WellFormed(t) && ValidConfig(inputs, values)
    ensures var (t', o) := Execute(k, t, inputs, values);
            NoneSticky(inputs, t'.features) <==> OnlyUnanswered(inputs, o.broken)
  {
    hide *;
    ExecuteIsRecursion(k, t, inputs, values);
    var fs := Execute(k, t, inputs, values).0.features;
    forall i | 0 <= i < |fs|
      ensures Sticky(inputs, fs[i]) <==> fs[i] in Broken(fs) && UnansweredParams(inputs, fs[i].params) == {}
    {
      StickyAfterIff(k, t, inputs, values, i);
      StampKeepsParams(t.features[i], Outcomes(k, t.documentId, Jobs(Substitution(inputs, values), t.features))[i]);
    }
    StickyMembers(inputs, fs);
  }

  lemma {:induction false} StampKeepsParams(f: Feature, o: Outcome)
    ensures Stamp(f, o).params == f.params
  {
  }

  lemma {:induction false} StickyMembers(inputs: seq<InputSpec>, fs: seq<Feature>)
    requires forall i :: 0 <= i < |fs| ==> (Sticky(inputs, fs[i]) <==> fs[i] in Broken(fs) && UnansweredParams(inputs, fs[i].params) == {})
    ensures NoneSticky(inputs, fs) <==> OnlyUnanswered(inputs, Broken(fs))
  {
    hide Broken, Sticky, UnansweredParams;
    forall f | f in Broken(fs) ensures f in fs { BrokenMembers(fs, f); }
    if NoneSticky(inputs, fs) {
      forall f | f in Broken(fs) ensures UnansweredParams(inputs, f.params) != {} {
        var i :| 0 <= i < |fs| && fs[i] == f;
        assert !Sticky(inputs, fs[i]);
      }
    }
    if OnlyUnanswered(inputs, Broken(fs)) {
      forall i | 0 <= i < |fs| ensures !Sticky(inputs, fs[i]) { assert fs[i] in fs; }
    }
  }

  lemma {:induction false} RunKeepsContent(k: Kernel, t: Tree, inputs: seq<InputSpec>, configs: seq<Values>)
    requires WellFormed(t)
    ensures var u := After(k, t, inputs, configs);
            WellFormed(u) && SameContents(u.features, t.features) && u.documentId == t.documentId
    decreases |configs|
  {
    if configs != [] {
      var n := |configs| - 1;
      var v := After(k, t, inputs, configs[..n]);
      RunKeepsContent(k, t, inputs, configs[..n]);
      ExecuteKeepsContent(k, v, inputs, configs[n]);
      hide Execute, WellFormed;
      ContentsTransitive(After(k, t, inputs, configs).features, v.features, t.features);
    }
  }

  /**
   After any run of executions ending in one under a valid configuration, the next execution is what it would
   have been on the tree never executed, for every geometry, exactly when each feature last reported broken
   has a placeholder that no input answers.
   */
  lemma {:induction false} RunPureIff(k: Kernel, t: Tree, inputs: seq<InputSpec>, configs: seq<Values>, values: Values)
    requires WellFormed(t) && configs != [] && ValidConfig(inputs, configs[|configs| - 1]) && ValidConfig(inputs, values)
    ensures var n := |configs| - 1;
            var u := After(k, t, inputs, configs);
            var last := Execute(k, After(k, t, inputs, configs[..n]), inputs, configs[n]).1;
            (forall k' :: Execute(k', u, inputs, values).1 == Execute(k', Pristine(t), inputs, values).1)
            <==> OnlyUnanswered(inputs, last.broken)
  {
    var n := |configs| - 1;
    var u := After(k, t, inputs, configs);
    hide Execute, WellFormed, OnlyUnanswered, NoneSticky, ValidConfig, Pristine;
    RunKeepsContent(k, t, inputs, configs[..n]);
    RunKeepsContent(k, t, inputs, configs);
    StickyLeftIff(k, After(k, t, inputs, configs[..n]), inputs, configs[n]);
    ExecutePureIffNoneSticky(u, inputs, values);
    SamePristine(u, t);
    PristineWellFormed(u);
    PristineWellFormed(t);
    forall k' ensures Execute(k', Pristine(u), inputs, values).1 == Execute(k', Pristine(t), inputs, values).1 {
      ExecuteIsPure(k', Pristine(u), Pristine(t), inputs, values);
    }
  }

  lemma {:induction false} SamePristine(u: Tree, t: Tree)
    requires SameContents(u.features, t.features)
    ensures SameContents(Pristine(u).features, Pristine(t).features)
  {
    forall i | 0 <= i < |t.features| ensures SameContent(Pristine(u).features[i], Pristine(t).features[i]) {
      assert SameContent(u.features[i], t.features[i]);
    }
  }

  /**
   Over any run of executions none of which reports a broken feature that lacks no input, the stored features
   keep their content and a further execution gives what it would have given before the run.
   */
  lemma {:induction false} RunsStayPure(k: Kernel, t: Tree, inputs: seq<InputSpec>, configs: seq<Values>, values: Values)
    requires WellFormed(t) && NoneSticky(inputs, t.features) && NeverFails(k, t, inputs, configs) && ValidConfig(inputs, values)
    ensures var u := After(k, t, inputs, configs);
            && WellFormed(u) && NoneSticky(inputs, u.features) && SameContents(u.features, t.features) && u.documentId == t.documentId
            && Execute(k, u, inputs, values).1 == Execute(k, t, inputs, values).1
    decreases |configs|
  {
    var u := After(k, t, inputs, configs);
    RunKeepsContent(k, t, inputs, configs);
    if configs != [] {
      var n := |configs| - 1;
      forall i | 0 <= i < n ensures configs[..n][i] == configs[i] && configs[..n][..i] == configs[..i] { }
      RunsStayPure(k, t, inputs, configs[..n], values);
      if ValidConfig(inputs, configs[n]) { StickyLeftIff(k, After(k, t, inputs, configs[..n]), inputs, configs[n]); }
    }
    hide WellFormed, Execute, After, NeverFails;
    ExecuteIsPure(k, u, t, inputs, values);
  }

  lemma {:induction false} ContentsTransitive(fs: seq<Feature>, gs: seq<Feature>, hs: seq<Feature>)
    requires SameContents(fs, gs) && SameContents(gs, hs)
    ensures SameContents(fs, hs)
  {
    forall i | 0 <= i < |fs| ensures SameContent(fs[i], hs[i]) {
      assert SameContent(fs[i], gs[i]) && SameContent(gs[i], hs[i]);
    }
  }

  // ── An execution that changes the next one ─────────────

  function Size(d: real): Values {
    map["size" := DoubleV(Finite(d))]
  }

  function SizeInputs(): seq<InputSpec> {
    [InputSpec("size", TDouble, DoubleV(Finite(1.0)), "", None, None)]
  }

  /** One feature whose radius is the input "size". */
  function Ball(): Tree {
    var f := Feature("ball", "MakeSphere", map["radius" := ConfigRefV("size")], false, NotExecuted, "");
    Tree([f], map[], map["ball" := true], map[], -1, 0, 0)
  }

  predicate HasRadius(f: Feature) {
    f.params == map["radius" := DoubleV(Finite(1.0))]
  }

  /** Makes a body of radius 1, and fails for every other. */
  function Picky(): Kernel {
    Kernel((x: ExecInput) =>
             if HasRadius(x.feature) then ExecOutput(true, Body(1), "", OK, "", x.counter)
             else ExecOutput(false, NullShape, "no such ball", ExecutionFailed, "no such ball", x.counter),
           (s, n) => None)
  }

  lemma {:induction false} BallResolved(f: Feature, d: real)
    requires f.params == map["radius" := ConfigRefV("size")]
    ensures UnansweredParams(SizeInputs(), f.params) == {}
    ensures ResolveRefs(f, SizeInputs(), Size(d)) == f.(params := map["radius" := DoubleV(Finite(d))])
    ensures ValidConfig(SizeInputs(), Size(d))
  {
    assert FindSpec(SizeInputs(), "size") == Some(SizeInputs()[0]);
    assert !Unanswered(SizeInputs(), ConfigRefV("size"));
    assert UnansweredParams(SizeInputs(), f.params) == {};
  }

  lemma {:induction false} BallOutcome(d: real)
    ensures var outs := Outcomes(Picky(), 0, Jobs(Substitution(SizeInputs(), Size(d)), Ball().features));
            |outs| == 1 && outs[0].status == (if d == 1.0 then OK else ExecutionFailed)
            && outs[0].shape == (if d == 1.0 then Body(1) else NullShape)
  {
    var f := Ball().features[0];
    var jobs := Jobs(Substitution(SizeInputs(), Size(d)), Ball().features);
    BallResolved(f, d);
    assert jobs[0] == Run("ball", Cleared(f.(params := map["radius" := DoubleV(Finite(d))])));
    RadiusIs(d);
    OutcomeAt(Picky(), 0, jobs, 0);
  }

  lemma {:induction false} RadiusIs(d: real)
    ensures map["radius" := DoubleV(Finite(d))] == map["radius" := DoubleV(Finite(1.0))] <==> d == 1.0
  {
    assert map["radius" := DoubleV(Finite(d))]["radius"] == DoubleV(Finite(d));
    assert map["radius" := DoubleV(Finite(1.0))]["radius"] == DoubleV(Finite(1.0));
  }

  /** The fresh tree executes well at size 1; after an execution at size 2 it no longer does. */
  lemma {:induction false} ExecuteSticks()
    ensures var k := Picky(); var t := Ball(); var t' := Execute(k, t, SizeInputs(), Size(2.0)).0;
            && WellFormed(t) && ValidConfig(SizeInputs(), Size(1.0)) && ValidConfig(SizeInputs(), Size(2.0))
            && NoneSticky(SizeInputs(), t.features)
            && Execute(k, t, SizeInputs(), Size(1.0)).1.status == StudioOk
            && |t'.features| == 1 && Sticky(SizeInputs(), t'.features[0])
            && Execute(k, t', SizeInputs(), Size(1.0)).1.broken != []
  {
    hide *;
    BallSucceeds();
    BallFails();
    var t' := Execute(Picky(), Ball(), SizeInputs(), Size(2.0)).0;
    StickyStaysBroken(Picky(), t', SizeInputs(), Size(1.0), 0);
  }

  lemma {:induction false} BallFails()
    ensures WellFormed(Ball()) && ValidConfig(SizeInputs(), Size(2.0)) && NoneSticky(SizeInputs(), Ball().features)
    ensures var t' := Execute(Picky(), Ball(), SizeInputs(), Size(2.0)).0;
            WellFormed(t') && |t'.features| == 1 && Sticky(SizeInputs(), t'.features[0])
  {
    var k, t := Picky(), Ball();
    assert WellFormed(t);
    BallResolved(t.features[0], 2.0);
    BallOutcome(2.0);
    ExecuteIsRecursion(k, t, SizeInputs(), Size(2.0));
    hide Execute, WellFormed, ValidConfig, Outcomes, UnansweredParams, Picky, Size, SizeInputs, Broken, FullTree;
  }

  lemma {:induction false} BallSucceeds()
    ensures WellFormed(Ball()) && ValidConfig(SizeInputs(), Size(1.0))
    ensures Execute(Picky(), Ball(), SizeInputs(), Size(1.0)).1.status == StudioOk
  {
    var k, t := Picky(), Ball();
    assert WellFormed(t);
    BallResolved(t.features[0], 1.0);
    BallOutcome(1.0);
    ReplayIsRecursion(k, Substitution(SizeInputs(), Size(1.0)), t);
    var outs := Outcomes(k, t.documentId, Jobs(Substitution(SizeInputs(), Size(1.0)), t.features));
    FullFeatures(t, outs);
    var fs := FullTree(t, outs).features;
    hide Outcomes, FullTree, WellFormed, ValidConfig, Replay, Picky;
    assert Broken(fs[..0]) == [];
  }
}
