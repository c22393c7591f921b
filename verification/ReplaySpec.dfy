/**
 What a full replay means, without any cache: a left-to-right recursion over the features.
 This is the reference against which feature_tree.cpp is proved.
 */
module ReplaySpec {
  import opened Wrappers
  import opened FeatureModel
  import opened TagAllocation

  datatype NamedShape = NullShape | Body(geometry: int)

  datatype SubShape = SubShape(kind: string, index: int, geometry: int)

  datatype ResolvedRef = Whole(shape: NamedShape) | Part(part: SubShape)

  /** All that executeFeature may look at. */
  datatype ExecInput = ExecInput(
    feature: Feature,
    current: NamedShape,
    refs: map<ElementRef, Option<ResolvedRef>>,
    counter: Counter,
    documentId: Word64)

  /** `ok`, `shape` and `resultError` are the OperationResult; the rest is written to the feature and the allocator. */
  datatype ExecOutput = ExecOutput(
    ok: bool,
    shape: NamedShape,
    resultError: string,
    status: FeatureStatus,
    errorMessage: string,
    counter: Counter)

  /** The geometry library: deterministic, otherwise arbitrary. */
  datatype Kernel = Kernel(
    run: ExecInput -> ExecOutput,
    lookup: (NamedShape, string) -> Option<SubShape>)

  type Transformer = Option<Feature -> Feature>

  /** The prelude of executeFeature: status reset, suppressed features pass through (feature.cpp). */
  function ExecuteFeature(k: Kernel, f: Feature, current: NamedShape,
                          refs: map<ElementRef, Option<ResolvedRef>>, counter: Counter, doc: Word64): ExecOutput
  {
    if f.suppressed then ExecOutput(true, current, "", Suppressed, "", counter)
    else k.run(ExecInput(Cleared(f), current, refs, counter, doc))
  }

  /** resolveReference, given whether the target is suppressed and what the cache holds for it. */
  function Resolve(k: Kernel, hidden: bool, cached: NamedShape, ref: ElementRef): Option<ResolvedRef> {
    if ref.featureId == "" || ref.elementName == "" then None
    else if hidden then None
    else if cached.NullShape? then None
    else if ref.elementName == "ROOT" then
      if ref.elementType == "Face" || ref.elementType == "Edge" || ref.elementType == "Vertex" then None
      else Some(Whole(cached))
    else match k.lookup(cached, ref.elementName)
      case Some(p) => Some(Part(p))
      case None => None
  }

  /** What one feature asks for: execution of `feature`, or a refusal before it. */
  datatype Job =
    | Skip(id: string)
    | Refuse(id: string, status: FeatureStatus, error: string)
    | Run(id: string, feature: Feature)

  function Prepare(t: Transformer, f: Feature): Job {
    if f.suppressed then Skip(f.id)
    else if t.None? then Run(f.id, Cleared(f))
    else
      var g := t.value(f);
      if Failed(g.status) then Refuse(f.id, g.status, g.errorMessage) else Run(f.id, Cleared(g))
  }

  function Jobs(t: Transformer, fs: seq<Feature>): seq<Job> {
    seq(|fs|, i requires 0 <= i < |fs| => Prepare(t, fs[i]))
  }

  function JobIds(jobs: seq<Job>): seq<string> {
    seq(|jobs|, i requires 0 <= i < |jobs| => jobs[i].id)
  }

  /** The tree after one feature. `error` is None when the stored message is left alone. */
  datatype Outcome = Outcome(
    before: Counter,
    shape: NamedShape,
    status: FeatureStatus,
    error: Option<string>,
    after: Counter)

  /** The acceptance rule: ok, status OK and non-null, else the previous shape goes on. */
  function Accept(before: Counter, current: NamedShape, r: ExecOutput): Outcome {
    if r.ok && r.status == OK && !r.shape.NullShape? then
      Outcome(before, r.shape, OK, Some(r.errorMessage), r.counter)
    else if r.status == OK then
      Outcome(before, current, ExecutionFailed,
              Some(if r.ok then "Operation returned null shape" else r.resultError), r.counter)
    else
      Outcome(before, current, r.status, Some(r.errorMessage), r.counter)
  }

  function Perform(k: Kernel, doc: Word64, job: Job, refs: map<ElementRef, Option<ResolvedRef>>,
                   current: NamedShape, counter: Counter): (o: Outcome)
    ensures o.before == counter
    ensures o.status == OK || o.shape == current
    ensures o.shape == current || o.shape.Body?
  {
    match job
    case Skip(_) => Outcome(counter, current, Suppressed, None, counter)
    case Refuse(_, status, error) => Outcome(counter, current, status, Some(error), counter)
    case Run(_, f) => Accept(counter, current, ExecuteFeature(k, f, current, refs, counter, doc))
  }

  /** A reference looks only at features already replayed. */
  function Look(k: Kernel, jobs: seq<Job>, outs: seq<Outcome>, ref: ElementRef): Option<ResolvedRef>
    requires |jobs| == |outs|
  {
    var j := IndexOf(JobIds(jobs), ref.featureId);
    if j < 0 then Resolve(k, false, NullShape, ref)
    else Resolve(k, jobs[j].Skip?, outs[j].shape, ref)
  }

  function LookAll(k: Kernel, jobs: seq<Job>, outs: seq<Outcome>, job: Job): map<ElementRef, Option<ResolvedRef>>
    requires |jobs| == |outs|
  {
    if job.Run? then map r | r in RefsOf(job.feature) :: Look(k, jobs, outs, r) else map[]
  }

  function LastShape(outs: seq<Outcome>): NamedShape {
    if outs == [] then NullShape else outs[|outs| - 1].shape
  }

  function LastCounter(outs: seq<Outcome>): Counter {
    if outs == [] then 0 else outs[|outs| - 1].after
  }

  /** Full replay: one outcome per feature. */
  function Outcomes(k: Kernel, doc: Word64, jobs: seq<Job>): (outs: seq<Outcome>)
    ensures |outs| == |jobs|
  {
    if jobs == [] then []
    else
      var n := |jobs| - 1;
      var prior := Outcomes(k, doc, jobs[..n]);
      prior + [Perform(k, doc, jobs[n], LookAll(k, jobs[..n], prior, jobs[n]), LastShape(prior), LastCounter(prior))]
  }

  /** The first features' outcomes do not depend on what follows them. */
  lemma {:induction false} OutcomesPrefix(k: Kernel, doc: Word64, jobs: seq<Job>, i: nat)
    requires i <= |jobs|
    ensures Outcomes(k, doc, jobs)[..i] == Outcomes(k, doc, jobs[..i])
    decreases |jobs|
  {
    var n := |jobs| - 1;
    if i == |jobs| {
      assert jobs[..i] == jobs;
    } else {
      OutcomesPrefix(k, doc, jobs[..n], i);
      assert jobs[..n][..i] == jobs[..i];
    }
  }

  /** Each outcome is one step from the outcomes before it. */
  lemma {:induction false} OutcomeAt(k: Kernel, doc: Word64, jobs: seq<Job>, i: nat)
    requires i < |jobs|
    ensures var prior := Outcomes(k, doc, jobs)[..i];
            prior == Outcomes(k, doc, jobs[..i])
            && Outcomes(k, doc, jobs)[i]
               == Perform(k, doc, jobs[i], LookAll(k, jobs[..i], prior, jobs[i]), LastShape(prior), LastCounter(prior))
  {
    OutcomesPrefix(k, doc, jobs, i);
    OutcomesPrefix(k, doc, jobs, i + 1);
    assert jobs[..i + 1][..i] == jobs[..i];
    assert Outcomes(k, doc, jobs)[i] == Outcomes(k, doc, jobs)[..i + 1][i];
  }

  /** Stored statuses and messages are not read when no transformer is installed. */
  lemma {:induction false} JobsOfContents(fs: seq<Feature>, gs: seq<Feature>)
    requires SameContents(fs, gs)
    ensures Jobs(None, fs) == Jobs(None, gs)
  {
    forall i | 0 <= i < |fs| ensures Jobs(None, fs)[i] == Jobs(None, gs)[i] {
      assert SameContent(fs[i], gs[i]);
      assert Cleared(fs[i]).id == Cleared(gs[i]).id && Cleared(fs[i]).suppressed == Cleared(gs[i]).suppressed;
    }
  }
}
