/**
 The dispatch of FeatureSchemas.dfy as the executor of a replay: the references a branch looks up are among those
 replay resolves for it, so the status a replay records can be read off the feature and what came before it.
 */
module KernelDispatch {
  import opened Wrappers
  import opened FeatureModel
  import opened TagAllocation
  import R = ReplaySpec
  import T = TreeState
  import I = IncrementalReplay
  import opened FeatureSchemas

  /** What the dispatch learns from a resolved reference. */
  function FoundAs(r: Option<R.ResolvedRef>): Found {
    match r
    case None => Unresolved
    case Some(Whole(_)) => WholeShape
    case Some(Part(_)) => SubShape
  }

  /** The world of one execution: the references replay resolved, and whether the geometry of this call succeeds. */
  function WorldOf(x: R.ExecInput, succeeds: R.ExecInput -> bool): World {
    World((r: ElementRef) => if r in x.refs then FoundAs(x.refs[r]) else Unresolved, (op, params) => succeeds(x))
  }

  /** A kernel whose executor ends as the dispatch does; shapes, messages and counters are free. */
  ghost predicate Dispatches(k: R.Kernel, succeeds: R.ExecInput -> bool) {
    forall x: R.ExecInput :: !x.feature.suppressed ==>
      (k.run(x).status, k.run(x).ok) == StatusAfter(x.feature, WorldOf(x, succeeds))
  }

  function Dispatching(succeeds: R.ExecInput -> bool, lookup: (R.NamedShape, string) -> Option<R.SubShape>): R.Kernel {
    R.Kernel((x: R.ExecInput) =>
               var (status, ok) := StatusAfter(x.feature, WorldOf(x, succeeds));
               R.ExecOutput(ok, if ok then R.Body(0) else R.NullShape, "", status, "", x.counter),
             lookup)
  }

  /** Every choice of which geometry calls succeed has such a kernel. */
  lemma {:induction false} DispatchingDispatches(succeeds: R.ExecInput -> bool, lookup: (R.NamedShape, string) -> Option<R.SubShape>)
    ensures Dispatches(Dispatching(succeeds, lookup), succeeds)
  {
    hide StatusAfter, WorldOf;
  }

  // ── The executor of the replay is the dispatch ─────────

  lemma {:induction false} SameStatus(f: Feature, w: World)
    ensures StatusAfter(Cleared(f), w) == StatusAfter(f, w)
  {
    SameParamsValidate(Cleared(f), f);
    hide Validates, Dispatched, GetsOf, Checks, Lookups, Fetch;
  }

  /** Under such a kernel executeFeature, prelude included, leaves the status the dispatch leaves. */
  lemma {:induction false} ExecutorsAgree(k: R.Kernel, succeeds: R.ExecInput -> bool, f: Feature, current: R.NamedShape,
                                          refs: map<ElementRef, Option<R.ResolvedRef>>, counter: Counter, doc: Word64)
    requires Dispatches(k, succeeds)
    ensures var o := R.ExecuteFeature(k, f, current, refs, counter, doc);
            (o.status, o.ok) == StatusAfter(f, WorldOf(R.ExecInput(Cleared(f), current, refs, counter, doc), succeeds))
  {
    var x := R.ExecInput(Cleared(f), current, refs, counter, doc);
    SameStatus(f, WorldOf(x, succeeds));
    hide StatusAfter;
    if f.suppressed {
      assert StatusAfter(f, WorldOf(x, succeeds)) == (Suppressed, true) by { SuppressedStatus(f, WorldOf(x, succeeds)); }
    } else {
      assert !x.feature.suppressed;
    }
  }

  lemma {:induction false} SuppressedStatus(f: Feature, w: World)
    requires f.suppressed
    ensures StatusAfter(f, w) == (Suppressed, true)
  {
  }

  // ── A branch looks up only what it carries ─────────────

  lemma {:induction false} FetchedAt(params: map<string, ParamValue>, gets: seq<Get>, k: nat)
    requires Fetch(params, gets) == Runs && k < |gets|
    ensures gets[k].name in params && TypeOf(params[gets[k].name]) == gets[k].kind
  {
    if k > 0 { FetchedAt(params, gets[1..], k - 1); }
  }

  lemma {:induction false} RefCarried(f: Feature, name: string)
    requires name in f.params && f.params[name].ElemRefV?
    ensures RefAt(f.params, name) in RefsOf(f)
  {
    assert RefAt(f.params, name) in RefsIn(f.params[name]);
  }

  lemma {:induction false} RefsCarried(f: Feature, name: string)
    ensures forall r :: r in RefsAt(f.params, name) ==> r in RefsOf(f)
  {
    forall r | r in RefsAt(f.params, name) ensures r in RefsOf(f) { assert r in RefsIn(f.params[name]); }
  }

  /** Every reference a branch looks up is one the feature carries, hence one that replay has resolved for it. */
  lemma {:induction false} LookupsCarried(f: Feature, op: Operation, r: ElementRef)
    requires Fetch(f.params, GetsOf(op)) == Runs && Checks(op, f.params) == Runs
    requires r in Lookups(op, f.params)
    ensures r in RefsOf(f)
  {
    hide RefsOf, Fetch, RefAt, RefsAt;
    match op
    case BooleanUnion => FetchedAt(f.params, GetsOf(op), 0); RefCarried(f, "tool");
    case BooleanSubtract => FetchedAt(f.params, GetsOf(op), 0); RefCarried(f, "tool");
    case BooleanIntersect => FetchedAt(f.params, GetsOf(op), 0); RefCarried(f, "tool");
    case Hole => FetchedAt(f.params, GetsOf(op), 0); RefCarried(f, "face");
    case VariableFillet => FetchedAt(f.params, GetsOf(op), 0); RefCarried(f, "edge");
    case Sweep =>
      FetchedAt(f.params, GetsOf(op), 0);
      FetchedAt(f.params, GetsOf(op), 1);
      RefCarried(f, "profile");
      RefCarried(f, "path");
    case Pocket => NotNullPresent(f.params, "profile"); RefCarried(f, "profile");
    case Rib => NotNullPresent(f.params, "profile"); RefCarried(f, "profile");
    case Fillet => RefsCarried(f, "edges");
    case Chamfer => RefsCarried(f, "edges");
    case Shell => RefsCarried(f, "faces");
    case Draft => RefsCarried(f, "faces");
    case Combine => RefsCarried(f, "shapes");
    case Loft => RefsCarried(f, "profiles");
    case _ =>
  }

  lemma {:induction false} NotNullPresent(params: map<string, ParamValue>, name: string)
    requires !IsNull(RefAt(params, name))
    ensures name in params && params[name].ElemRefV?
  {
  }

  // ── What a replay reports ──────────────────────────────

  /** Some reference the branch looks up is not usable, judged by the results of the features before it. */
  ghost predicate LooksUpUnusable(k: R.Kernel, jobs: seq<R.Job>, outs: seq<R.Outcome>, op: Operation, f: Feature)
    requires |jobs| == |outs|
  {
    exists i :: 0 <= i < |Lookups(op, f.params)| && !Usable(op, FoundAs(R.Look(k, jobs, outs, Lookups(op, f.params)[i])))
  }

  lemma {:induction false} ExitIs(f: Feature, w: World)
    ensures ExitOf(f, w) == Broken
            <==> && Validates(f) && Dispatched(f.kind).Some?
                 && var op := Dispatched(f.kind).value;
                    !(op == Loft && |RefsAt(f.params, "profiles")| < 2) && !AllUsable(op, Lookups(op, f.params), w)
  {
    FetchNeverBreaks(f);
    if Validates(f) { DispatchIsTypeSafe(f, w); }
    hide Validates, Dispatched, GetsOf, Checks, Lookups, Fetch, RefsAt, AllUsable;
  }

  lemma {:induction false} PassedChecks(f: Feature, w: World)
    requires Validates(f) && Dispatched(f.kind).Some?
    requires !(Dispatched(f.kind).value == Loft && |RefsAt(f.params, "profiles")| < 2)
    ensures Fetch(f.params, GetsOf(Dispatched(f.kind).value)) == Runs && Checks(Dispatched(f.kind).value, f.params) == Runs
  {
    DispatchIsTypeSafe(f, w);
    FetchNeverBreaks(f);
    FetchOutcome(f.params, GetsOf(Dispatched(f.kind).value));
    hide Validates, Dispatched, GetsOf, Checks, Lookups, Fetch, RefsAt, AllUsable;
    assert ExitOf(f, w) == Runs || ExitOf(f, w) == Broken;
  }

  /** The world of the replay's input answers the branch's lookups as the recursion does. */
  lemma {:induction false} UsableInReplay(k: R.Kernel, jobs: seq<R.Job>, outs: seq<R.Outcome>, f: Feature, op: Operation,
                                          job: R.Job, x: R.ExecInput, succeeds: R.ExecInput -> bool)
    requires |jobs| == |outs| && job == R.Run(f.id, Cleared(f)) && x.refs == R.LookAll(k, jobs, outs, job)
    requires Fetch(f.params, GetsOf(op)) == Runs && Checks(op, f.params) == Runs
    ensures AllUsable(op, Lookups(op, f.params), WorldOf(x, succeeds)) <==> !LooksUpUnusable(k, jobs, outs, op, f)
  {
    assert RefsOf(Cleared(f)) == RefsOf(f);
    var refs := Lookups(op, f.params);
    var w := WorldOf(x, succeeds);
    forall i | 0 <= i < |refs| ensures w.lookup(refs[i]) == FoundAs(R.Look(k, jobs, outs, refs[i])) {
      LookupsCarried(f, op, refs[i]);
      hide Lookups, Fetch, GetsOf, Checks, RefsOf, R.Look;
    }
    hide Lookups, Fetch, GetsOf, Checks, RefsOf, R.Look, R.LookAll, Usable;
  }

  /**
   In a replay a feature ends as a broken reference exactly when it is not suppressed, its schema accepts it, it is
   no loft of fewer than two profiles, and some reference its branch looks up is unusable among the earlier results.
   */
  lemma {:induction false} BrokenReferenceIff(k: R.Kernel, succeeds: R.ExecInput -> bool, t: T.Tree, i: nat)
    requires Dispatches(k, succeeds) && i < |t.features|
    ensures var f := t.features[i]; var jobs, outs := R.Jobs(None, t.features), I.Outs(k, t);
            outs[i].status == BrokenReference
            <==> && !f.suppressed && Validates(f) && Dispatched(f.kind).Some?
                 && var op := Dispatched(f.kind).value;
                    !(op == Loft && |RefsAt(f.params, "profiles")| < 2) && LooksUpUnusable(k, jobs[..i], outs[..i], op, f)
  {
    var f := t.features[i];
    var jobs, outs := R.Jobs(None, t.features), I.Outs(k, t);
    R.OutcomeAt(k, t.documentId, jobs, i);
    assert jobs[i] == R.Prepare(None, f);
    hide Validates, Dispatched, GetsOf, Checks, Lookups, Fetch, RefsAt, AllUsable, LooksUpUnusable, StatusAfter, R.LookAll, I.Outs, R.Outcomes;
    if !f.suppressed {
      var refs := R.LookAll(k, jobs[..i], outs[..i], jobs[i]);
      var current, counter := R.LastShape(outs[..i]), R.LastCounter(outs[..i]);
      var x := R.ExecInput(Cleared(f), current, refs, counter, t.documentId);
      ExecutorsAgree(k, succeeds, Cleared(f), current, refs, counter, t.documentId);
      SameStatus(f, WorldOf(x, succeeds));
      assert Cleared(Cleared(f)) == Cleared(f);
      BrokenStatusIff(f, WorldOf(x, succeeds));
      ExitIs(f, WorldOf(x, succeeds));
      if Validates(f) && Dispatched(f.kind).Some? && !(Dispatched(f.kind).value == Loft && |RefsAt(f.params, "profiles")| < 2) {
        PassedChecks(f, WorldOf(x, succeeds));
        UsableInReplay(k, jobs[..i], outs[..i], f, Dispatched(f.kind).value, jobs[i], x, succeeds);
      }
    }
  }

  lemma {:induction false} BrokenStatusIff(f: Feature, w: World)
    requires !f.suppressed
    ensures StatusAfter(f, w).0 == BrokenReference <==> ExitOf(f, w) == Broken
  {
    hide ExitOf, Dispatched;
  }
}
