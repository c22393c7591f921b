/**
 A full replay read off the tree it leaves (src/feature/feature_tree.cpp): what the geometry kernel was asked for
 each feature, in terms of the results stored for the features before it, and what was stored in return.
 */
module ReplayMeaning {
  import opened Wrappers
  import opened FeatureModel
  import opened TagAllocation
  import opened ReplaySpec
  import opened TreeState
  import opened ReplayTheory
  import opened ReplayShapes

  // ── Resolving a reference ──────────────────────────────

  /** A reference of these types never means a whole shape. */
  predicate OfSubShape(ref: ElementRef) {
    ref.elementType in {"Face", "Edge", "Vertex"}
  }

  /** `found` is what the reference means on the body `s`: its named part, or all of it under the name ROOT. */
  ghost predicate MeansOn(k: Kernel, ref: ElementRef, s: NamedShape, found: ResolvedRef) {
    && ref.featureId != "" && ref.elementName != "" && s.Body?
    && match found
       case Part(p) => ref.elementName != "ROOT" && k.lookup(s, ref.elementName) == Some(p)
       case Whole(w) => ref.elementName == "ROOT" && !OfSubShape(ref) && w == s
  }

  lemma {:induction false} ResolveMeans(k: Kernel, hidden: bool, cached: NamedShape, ref: ElementRef, found: ResolvedRef)
    ensures Resolve(k, hidden, cached, ref) == Some(found) <==> !hidden && MeansOn(k, ref, cached, found)
  {
  }

  /**
   resolveReference answers with a part or a whole shape exactly when no suppressed feature has the id, the cache
   holds a body for it, and that is what the reference means on that body; in all other cases it answers nothing.
   */
  lemma {:induction false} ResolvedIff(k: Kernel, t: Tree, ref: ElementRef, found: ResolvedRef)
    requires WellFormed(t)
    ensures LookIn(k, t, ref) == Some(found)
            <==> && !(exists f :: f in t.features && f.id == ref.featureId && f.suppressed)
                 && ref.featureId in t.cache && MeansOn(k, ref, t.cache[ref.featureId], found)
  {
    ResolveMeans(k, Hidden(t.features, ref.featureId), Cached(t.cache, ref.featureId), ref, found);
    if f :| f in t.features && f.id == ref.featureId {
      var i :| 0 <= i < |t.features| && t.features[i] == f;
      FindAt(t.features, i);
    }
    hide Resolve;
  }

  // ── Reading a replayed tree ────────────────────────────

  /** The shape stored for the feature before the i-th. */
  function ShapeBefore(u: Tree, i: nat): NamedShape
    requires i <= |u.features|
  {
    if i == 0 then NullShape else Cached(u.cache, u.features[i - 1].id)
  }

  /** The counter stored for the i-th feature; after the last one, that of the tree. */
  function CounterAt(u: Tree, i: nat): int
    requires i <= |u.features|
  {
    if i == |u.features| then u.counter
    else if u.features[i].id in u.snapshots then u.snapshots[u.features[i].id].counter
    else -1
  }

  /** The reference is to an unsuppressed feature before the i-th, and `found` is what it means on that one's shape. */
  ghost predicate MeansBefore(k: Kernel, u: Tree, i: nat, ref: ElementRef, found: ResolvedRef)
    requires i <= |u.features|
  {
    exists j :: 0 <= j < i && u.features[j].id == ref.featureId && !u.features[j].suppressed
                && MeansOn(k, ref, Cached(u.cache, ref.featureId), found)
  }

  /** What the kernel is given to execute `f` as the i-th feature. */
  ghost predicate Given(k: Kernel, u: Tree, i: nat, f: Feature, x: ExecInput)
    requires i < |u.features|
  {
    && x.feature == f.(status := OK, errorMessage := "")
    && x.current == ShapeBefore(u, i)
    && x.counter == CounterAt(u, i) && x.documentId == u.documentId
    && x.refs.Keys == RefsOf(f)
    && forall r, found :: r in x.refs ==> (x.refs[r] == Some(found) <==> MeansBefore(k, u, i, r, found))
  }

  /** What is stored for the i-th feature. */
  predicate Stored(u: Tree, i: nat, status: FeatureStatus, error: string, shape: NamedShape, counter: int)
    requires i < |u.features|
  {
    && u.features[i].status == status && u.features[i].errorMessage == error
    && u.features[i].id in u.cache && u.cache[u.features[i].id] == shape
    && CounterAt(u, i + 1) == counter
  }

  /** The answer of the kernel, as it is stored: a body made without complaint, or a failure over the shape before. */
  predicate StoredAnswer(u: Tree, i: nat, r: ExecOutput)
    requires i < |u.features|
  {
    if r.ok && r.status == OK && r.shape.Body? then Stored(u, i, OK, r.errorMessage, r.shape, r.counter)
    else if r.ok && r.status == OK then Stored(u, i, ExecutionFailed, "Operation returned null shape", ShapeBefore(u, i), r.counter)
    else if r.status == OK then Stored(u, i, ExecutionFailed, r.resultError, ShapeBefore(u, i), r.counter)
    else Stored(u, i, r.status, r.errorMessage, ShapeBefore(u, i), r.counter)
  }

  /** The feature the transformer makes of the stored one. */
  function Target(tr: Transformer, f: Feature): Feature {
    if tr.None? then f else tr.value(f)
  }

  // ── The parts of a replayed tree ───────────────────────

  lemma {:induction false} ByIdAt<V>(ids: seq<string>, vals: seq<V>, i: nat)
    requires |ids| == |vals| && Distinct(ids) && i < |ids|
    ensures ids[i] in ById(ids, vals) && ById(ids, vals)[ids[i]] == vals[i]
  {
    IndexOfDistinct(ids, i);
  }

  lemma {:induction false} FullTreeAt(t: Tree, outs: seq<Outcome>, i: nat)
    requires UniqueIds(t.features) && |outs| == |t.features| && i < |outs|
    ensures var u := FullTree(t, outs); var id := t.features[i].id;
            && |u.features| == |outs| && u.features[i] == Stamp(t.features[i], outs[i])
            && id in u.cache && u.cache[id] == outs[i].shape
            && id in u.snapshots && u.snapshots[id] == SnapshotV2(outs[i].before, t.documentId)
  {
    var ids := Ids(t.features);
    assert Distinct(ids);
    ByIdAt(ids, Shapes(outs), i);
    ByIdAt(ids, Boundaries(outs, t.documentId), i);
    hide ById;
  }

  lemma {:induction false} CounterIs(k: Kernel, t: Tree, jobs: seq<Job>, i: nat)
    requires UniqueIds(t.features) && |jobs| == |t.features| && i <= |jobs|
    ensures var outs := Outcomes(k, t.documentId, jobs); CounterAt(FullTree(t, outs), i) == LastCounter(outs[..i])
  {
    var outs := Outcomes(k, t.documentId, jobs);
    if i < |jobs| {
      FullTreeAt(t, outs, i);
      OutcomeAt(k, t.documentId, jobs, i);
      hide Outcomes, FullTree, Perform, LookAll;
    } else {
      assert outs[..i] == outs;
    }
  }

  lemma {:induction false} ShapeIs(t: Tree, outs: seq<Outcome>, i: nat)
    requires UniqueIds(t.features) && |outs| == |t.features| && i <= |outs|
    ensures |FullTree(t, outs).features| == |outs| && ShapeBefore(FullTree(t, outs), i) == LastShape(outs[..i])
  {
    if i > 0 { FullTreeAt(t, outs, i - 1); }
  }

  /** The recursion's lookup among the first outcomes is the meaning of the reference in the tree left. */
  lemma {:induction false} LookMeans(k: Kernel, t: Tree, jobs: seq<Job>, outs: seq<Outcome>, i: nat, ref: ElementRef, found: ResolvedRef)
    requires UniqueIds(t.features) && JobsMatch(t, jobs) && |outs| == |jobs| && i <= |jobs|
    ensures |FullTree(t, outs).features| == |outs|
    ensures Look(k, jobs[..i], outs[..i], ref) == Some(found) <==> MeansBefore(k, FullTree(t, outs), i, ref, found)
  {
    var u := FullTree(t, outs);
    var ids := JobIds(jobs[..i]);
    var j := IndexOf(ids, ref.featureId);
    forall m | 0 <= m < i
      ensures ids[m] == t.features[m].id == u.features[m].id && u.features[m].suppressed == jobs[m].Skip?
      ensures Cached(u.cache, t.features[m].id) == outs[m].shape
    {
      FullTreeAt(t, outs, m);
      assert jobs[..i][m] == jobs[m];
    }
    hide FullTree, MeansOn;
    if j < 0 {
      ResolveMeans(k, false, NullShape, ref, found);
      assert forall m :: 0 <= m < i ==> ids[m] != ref.featureId;
      assert !MeansOn(k, ref, NullShape, found) by { NothingOnNull(k, ref, found); }
    } else {
      ResolveMeans(k, jobs[j].Skip?, outs[j].shape, ref, found);
      assert forall m :: 0 <= m < i && u.features[m].id == ref.featureId ==> m == j;
    }
    hide Resolve;
  }

  lemma {:induction false} NothingOnNull(k: Kernel, ref: ElementRef, found: ResolvedRef)
    ensures !MeansOn(k, ref, NullShape, found)
  {
  }

  lemma {:induction false} GivenInReplay(k: Kernel, t: Tree, jobs: seq<Job>, i: nat, f: Feature)
    requires UniqueIds(t.features) && JobsMatch(t, jobs) && i < |jobs| && jobs[i] == Run(t.features[i].id, Cleared(f))
    ensures var outs := Outcomes(k, t.documentId, jobs); var u := FullTree(t, outs);
            |u.features| == |outs|
            && Given(k, u, i, f, ExecInput(Cleared(f), LastShape(outs[..i]), LookAll(k, jobs[..i], outs[..i], jobs[i]),
                                           LastCounter(outs[..i]), t.documentId))
  {
    var outs := Outcomes(k, t.documentId, jobs);
    var refs := LookAll(k, jobs[..i], outs[..i], jobs[i]);
    CounterIs(k, t, jobs, i);
    ShapeIs(t, outs, i);
    assert RefsOf(Cleared(f)) == RefsOf(f);
    assert refs.Keys == RefsOf(f);
    forall r, found | r in refs ensures refs[r] == Some(found) <==> MeansBefore(k, FullTree(t, outs), i, r, found) {
      LookMeans(k, t, jobs, outs, i, r, found);
    }
    assert FullTree(t, outs).documentId == t.documentId;
    hide Outcomes, FullTree, LookAll, MeansBefore;
  }

  lemma {:induction false} OutcomeStored(k: Kernel, t: Tree, jobs: seq<Job>, i: nat)
    requires UniqueIds(t.features) && |jobs| == |t.features| && i < |jobs|
    ensures var outs := Outcomes(k, t.documentId, jobs); var u, o := FullTree(t, outs), outs[i];
            && |u.features| == |outs| && SameContent(u.features[i], t.features[i])
            && u.features[i].suppressed == t.features[i].suppressed
            && Stored(u, i, o.status, if o.error.Some? then o.error.value else t.features[i].errorMessage, o.shape, o.after)
            && o.before == CounterAt(u, i) && LastShape(outs[..i]) == ShapeBefore(u, i)
  {
    var outs := Outcomes(k, t.documentId, jobs);
    FullTreeAt(t, outs, i);
    CounterIs(k, t, jobs, i);
    CounterIs(k, t, jobs, i + 1);
    ShapeIs(t, outs, i);
    OutcomeAt(k, t.documentId, jobs, i);
    assert outs[..i + 1][i] == outs[i];
    hide Outcomes, FullTree, LookAll;
  }

  /** The acceptance rule on the kernel's answer, as it reads in the tree. */
  lemma {:induction false} AnswerStored(u: Tree, i: nat, r: ExecOutput, before: Counter, o: Outcome)
    requires i < |u.features| && o == Accept(before, ShapeBefore(u, i), r)
    requires Stored(u, i, o.status, if o.error.Some? then o.error.value else "", o.shape, o.after)
    ensures StoredAnswer(u, i, r)
  {
    hide Stored;
  }

  // ── Main result ────────────────────────────────────────

  /**
   After a full replay each feature keeps its content, and stores: for a suppressed one, the shape and counter
   before it; for one the transformer hands over as failed or suppressed, that status over the same shape and
   counter; for any other, the kernel's answer to exactly the input of `Given`.
   */
  lemma {:induction false} ReplayedFeature(k: Kernel, tr: Transformer, t: Tree, i: nat)
    requires WellFormed(t) && i < |t.features|
    ensures var u := Replay(k, tr, t).0; var f := Target(tr, t.features[i]);
            && |u.features| == |t.features| && SameContent(u.features[i], t.features[i])
            && if t.features[i].suppressed then
                 Stored(u, i, Suppressed, t.features[i].errorMessage, ShapeBefore(u, i), CounterAt(u, i))
               else if tr.Some? && Failed(f.status) then
                 Stored(u, i, f.status, f.errorMessage, ShapeBefore(u, i), CounterAt(u, i))
               else if f.suppressed then
                 Stored(u, i, Suppressed, "", ShapeBefore(u, i), CounterAt(u, i))
               else exists x :: Given(k, u, i, f, x) && StoredAnswer(u, i, k.run(x))
  {
    var jobs := Jobs(tr, t.features);
    var outs := Outcomes(k, t.documentId, jobs);
    var f := Target(tr, t.features[i]);
    assert jobs[i] == Prepare(tr, t.features[i]);
    assert UniqueIds(t.features);
    hide *;
    ReplayIsRecursion(k, tr, t);
    JobsMatchPrepared(tr, t);
    OutcomeStored(k, t, jobs, i);
    var u, o := FullTree(t, outs), outs[i];
    OutcomeAt(k, t.documentId, jobs, i);
    PreparedIs(tr, t.features[i]);
    if jobs[i].Run? {
      var x := ExecInput(Cleared(f), LastShape(outs[..i]), LookAll(k, jobs[..i], outs[..i], jobs[i]), LastCounter(outs[..i]), t.documentId);
      PerformRuns(k, t.documentId, jobs[i], x);
      if !f.suppressed {
        GivenInReplay(k, t, jobs, i, f);
        AnswerStored(u, i, k.run(x), LastCounter(outs[..i]), o);
      }
    } else {
      PerformRefuses(k, t.documentId, jobs[i], LookAll(k, jobs[..i], outs[..i], jobs[i]), LastShape(outs[..i]), LastCounter(outs[..i]));
    }
  }

  lemma {:induction false} PreparedIs(tr: Transformer, f: Feature)
    ensures var g := Target(tr, f);
            Prepare(tr, f) == if f.suppressed then Skip(f.id)
                              else if tr.Some? && Failed(g.status) then Refuse(f.id, g.status, g.errorMessage)
                              else Run(f.id, Cleared(g))
  {
  }

  lemma {:induction false} PerformRuns(k: Kernel, doc: Word64, job: Job, x: ExecInput)
    requires job.Run? && job.feature == x.feature == Cleared(x.feature) && x.documentId == doc
    ensures Perform(k, doc, job, x.refs, x.current, x.counter)
            == if x.feature.suppressed then Outcome(x.counter, x.current, Suppressed, Some(""), x.counter)
               else Accept(x.counter, x.current, k.run(x))
    ensures Accept(x.counter, x.current, k.run(x)).error.Some?
  {
  }

  lemma {:induction false} PerformRefuses(k: Kernel, doc: Word64, job: Job, refs: map<ElementRef, Option<ResolvedRef>>, current: NamedShape, counter: Counter)
    requires !job.Run?
    ensures Perform(k, doc, job, refs, current, counter)
            == if job.Skip? then Outcome(counter, current, Suppressed, None, counter)
               else Outcome(counter, current, job.status, Some(job.error), counter)
  {
  }
}
