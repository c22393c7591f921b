/**
 Incremental replay against full replay without any assumption on where references point:
 exactly when replayFrom is replay for every kernel that gives the full replay its outcomes.
 */
module IncrementalExact {
  import opened Wrappers
  import opened FeatureModel
  import opened TagAllocation
  import opened ReplaySpec
  import opened TreeState
  import opened ReplayTheory
  import opened IncrementalReplay

  /** `k'` looks names up as `k` does and gives a full replay of `t` the same outcomes. */
  ghost predicate AgreesOnFull(k: Kernel, k': Kernel, t: Tree) {
    k'.lookup == k.lookup && Outs(k', t) == Outs(k, t)
  }

  /** replayFrom is replay, whatever the kernel answers to inputs a full replay never gives it. */
  ghost predicate AlwaysFull(k: Kernel, t: Tree, fromId: string) {
    forall k' :: AgreesOnFull(k, k', t) ==> ReplayFrom(k', None, t, fromId) == Replay(k', None, t)
  }

  /**
   What a caller can check: the cache is dropped because no boundary is found, or counting starts at a
   right boundary and no remaining reference resolves against the leftover of a feature not yet replayed.
   */
  ghost predicate Exact(k: Kernel, t: Tree, i: nat)
    requires i < |t.features| || i == 0
  {
    || (i > 0 && t.features[i].id !in t.snapshots)
    || ((i == 0 || Fresh(k, t, i)) && NothingStale(k, t, Jobs(None, t.features), i, |t.features|))
  }

  lemma {:induction false} ExactTransfers(k: Kernel, k': Kernel, t: Tree, i: nat)
    requires AgreesOnFull(k, k', t) && i <= |t.features|
    ensures Clean(k', t, i) == Clean(k, t, i) && Fresh(k', t, i) == Fresh(k, t, i)
    ensures NothingStale(k', t, Jobs(None, t.features), i, |t.features|) == NothingStale(k, t, Jobs(None, t.features), i, |t.features|)
  {
    hide Outs;
    forall f: Feature, g: Feature ensures Sees(k', f, g, t.cache) == Sees(k, f, g, t.cache) {
      assert forall r :: Resolve(k', false, Cached(t.cache, g.id), r) == Resolve(k, false, Cached(t.cache, g.id), r);
    }
    hide Sees;
  }

  lemma {:induction false} ExactSuffices(k: Kernel, t: Tree, fromId: string)
    requires WellFormed(t)
    requires var i := StartIndex(t, fromId); Clean(k, t, i) && Exact(k, t, i)
    ensures ReplayFrom(k, None, t, fromId) == Replay(k, None, t)
  {
    hide WellFormed, Clean, NothingStale, ReplayFrom, Replay;
    var i := StartIndex(t, fromId);
    if i > 0 && t.features[i].id !in t.snapshots {
      FromNothing(k, t, fromId);
    } else {
      IncrementalIffFresh(k, t, fromId);
    }
  }

  // ── A leftover that is seen can be told ────────────────

  /** The kernel that answers `o` to `x` and is `k` otherwise. */
  function Altered(k: Kernel, x: ExecInput, o: ExecOutput): Kernel {
    Kernel(y => if y == x then o else k.run(y), k.lookup)
  }

  function InputAt(k: Kernel, doc: Word64, jobs: seq<Job>, outs: seq<Outcome>, p: nat): ExecInput
    requires p < |jobs| == |outs| && jobs[p].Run?
  {
    ExecInput(Cleared(jobs[p].feature), LastShape(outs[..p]), LookAll(k, jobs[..p], outs[..p], jobs[p]), LastCounter(outs[..p]), doc)
  }

  ghost predicate NeverAsked(k: Kernel, doc: Word64, jobs: seq<Job>, outs: seq<Outcome>, x: ExecInput)
    requires |jobs| == |outs|
  {
    forall p :: 0 <= p < |jobs| && jobs[p].Run? ==> InputAt(k, doc, jobs, outs, p) != x
  }

  lemma {:induction false} PerformAltered(k: Kernel, doc: Word64, job: Job, x: ExecInput, o: ExecOutput,
                                          refs: map<ElementRef, Option<ResolvedRef>>, current: NamedShape, counter: Counter)
    requires job.Run? ==> ExecInput(Cleared(job.feature), current, refs, counter, doc) != x
    ensures Perform(Altered(k, x, o), doc, job, refs, current, counter) == Perform(k, doc, job, refs, current, counter)
  {
  }

  lemma {:induction false} LookAllAltered(k: Kernel, x: ExecInput, o: ExecOutput, jobs: seq<Job>, outs: seq<Outcome>, job: Job)
    requires |jobs| == |outs|
    ensures LookAll(Altered(k, x, o), jobs, outs, job) == LookAll(k, jobs, outs, job)
  {
  }

  /** Changing the answer to an input that is never asked changes nothing. */
  lemma {:induction false} AlteredOutcomes(k: Kernel, doc: Word64, jobs: seq<Job>, x: ExecInput, o: ExecOutput)
    requires NeverAsked(k, doc, jobs, Outcomes(k, doc, jobs), x)
    ensures Outcomes(Altered(k, x, o), doc, jobs) == Outcomes(k, doc, jobs)
    decreases |jobs|
  {
    if jobs != [] {
      var n := |jobs| - 1;
      var outs := Outcomes(k, doc, jobs);
      OutcomesPrefix(k, doc, jobs, n);
      var prior := outs[..n];
      assert prior == Outcomes(k, doc, jobs[..n]);
      hide LookAll, Perform;
      forall p | 0 <= p < n && jobs[..n][p].Run? ensures InputAt(k, doc, jobs[..n], prior, p) != x {
        assert jobs[..n][..p] == jobs[..p] && prior[..p] == outs[..p];
        assert InputAt(k, doc, jobs[..n], prior, p) == InputAt(k, doc, jobs, outs, p);
      }
      AlteredOutcomes(k, doc, jobs[..n], x, o);
      LookAllAltered(k, x, o, jobs[..n], prior, jobs[n]);
      assert jobs[n].Run? ==> InputAt(k, doc, jobs, outs, n) != x;
      PerformAltered(k, doc, jobs[n], x, o, LookAll(k, jobs[..n], prior, jobs[n]), LastShape(prior), LastCounter(prior));
    }
  }

  /** The first feature that sees a leftover. */
  lemma {:induction false} FirstLeak(k: Kernel, t: Tree, jobs: seq<Job>, i: nat, n: nat) returns (j: nat)
    requires n <= |jobs| == |t.features| && !NothingStale(k, t, jobs, i, n)
    ensures i <= j < n && NothingStale(k, t, jobs, i, j)
    ensures jobs[j].Run? && exists m :: j <= m < |jobs| && Sees(k, jobs[j].feature, t.features[m], t.cache)
  {
    if n == 0 || NothingStale(k, t, jobs, i, n - 1) {
      j := n - 1;
    } else {
      j := FirstLeak(k, t, jobs, i, n - 1);
    }
  }

  lemma {:induction false} SettledToKeeps(t: Tree, outs: seq<Outcome>, i: nat, n: nat)
    requires UniqueIds(t.features) && i <= n <= |t.features| && n <= |outs|
    ensures var t' := SettledTo(t, outs, i, n);
            && |t'.features| == |t.features|
            && (forall m :: 0 <= m < |t.features| ==> t'.features[m].id == t.features[m].id && t'.features[m].suppressed == t.features[m].suppressed)
            && (forall m :: n <= m < |t.features| ==> Cached(t'.cache, t.features[m].id) == Cached(t.cache, t.features[m].id))
    decreases n - i
  {
    if i < n { SettledToKeeps(Settled(t, i, outs[i]), outs, i + 1, n); }
  }

  lemma {:induction false} LoopKeepsFeature(k: Kernel, tr: Transformer, t: Tree, current: NamedShape, i: nat, j: nat)
    requires j < i <= |t.features|
    ensures var t' := Loop(k, tr, t, current, i).0; |t'.features| == |t.features| && t'.features[j] == t.features[j]
    decreases |t.features| - i
  {
    if i < |t.features| {
      var (t1, c1) := Step(k, tr, t, current, i);
      hide Perform, LookAllIn, Prepare;
      LoopKeepsFeature(k, tr, t1, c1, i + 1, j);
    }
  }

  /** The input the loop gives feature `j` when it reaches it in tree `u`. */
  function LeakedInput(k: Kernel, u: Tree, jobs: seq<Job>, outs: seq<Outcome>, j: nat): ExecInput
    requires j < |jobs| == |outs| && jobs[j].Run?
  {
    ExecInput(Cleared(jobs[j].feature), LastShape(outs[..j]), LookAllIn(k, u, jobs[j]), LastCounter(outs[..j]), u.documentId)
  }

  /** A full replay never gives the kernel an input with a leftover in it. */
  lemma {:induction false} LeakIsNew(k: Kernel, t: Tree, u: Tree, jobs: seq<Job>, outs: seq<Outcome>, j: nat, m: nat)
    requires UniqueIds(t.features) && jobs == Jobs(None, t.features) && j <= m < |jobs| == |outs| && jobs[j].Run?
    requires Sees(k, jobs[j].feature, t.features[m], t.cache)
    requires |u.features| == |t.features| && u.documentId == t.documentId
    requires forall n :: 0 <= n < |t.features| ==> u.features[n].id == t.features[n].id && u.features[n].suppressed == t.features[n].suppressed
    requires Cached(u.cache, t.features[m].id) == Cached(t.cache, t.features[m].id)
    ensures NeverAsked(k, t.documentId, jobs, outs, LeakedInput(k, u, jobs, outs, j))
  {
    var x := LeakedInput(k, u, jobs, outs, j);
    forall p | 0 <= p < |jobs| && jobs[p].Run? ensures InputAt(k, t.documentId, jobs, outs, p) != x {
      if p == j {
        RefsDiffer(k, t, u, jobs, outs, j, m);
      } else {
        assert InputAt(k, t.documentId, jobs, outs, p).feature.id == t.features[p].id;
        assert x.feature.id == t.features[j].id;
      }
    }
  }

  lemma {:induction false} RefsDiffer(k: Kernel, t: Tree, u: Tree, jobs: seq<Job>, outs: seq<Outcome>, j: nat, m: nat)
    requires UniqueIds(t.features) && jobs == Jobs(None, t.features) && j <= m < |jobs| == |outs| && jobs[j].Run?
    requires Sees(k, jobs[j].feature, t.features[m], t.cache)
    requires |u.features| == |t.features|
    requires forall n :: 0 <= n < |t.features| ==> u.features[n].id == t.features[n].id && u.features[n].suppressed == t.features[n].suppressed
    requires Cached(u.cache, t.features[m].id) == Cached(t.cache, t.features[m].id)
    ensures LookAllIn(k, u, jobs[j]) != LookAll(k, jobs[..j], outs[..j], jobs[j])
  {
    var id := t.features[m].id;
    var r :| r in RefsOf(jobs[j].feature) && r.featureId == id && Resolve(k, false, Cached(t.cache, id), r).Some?;
    assert u.features[m].id == id;
    FindAt(u.features, m);
    assert LookIn(k, u, r).Some?;
    var ids := JobIds(jobs[..j]);
    forall n | 0 <= n < j ensures ids[n] != id { assert ids[n] == t.features[n].id; }
    assert IndexOf(ids, id) < 0;
    assert Look(k, jobs[..j], outs[..j], r) == None;
    assert LookAllIn(k, u, jobs[j])[r].Some? && LookAll(k, jobs[..j], outs[..j], jobs[j])[r].None?;
  }

  /** Where the loop of replayFrom stands before its first iteration. */
  lemma {:induction false} BeginReached(k: Kernel, t: Tree, i: nat)
    requires WellFormed(t) && (i < |t.features| || i == 0) && Clean(k, t, i)
    requires i == 0 || (t.features[i].id in t.snapshots && Fresh(k, t, i))
    ensures var (t1, start, current) := Rewind(t, i);
            && start == i && t1.features == t.features && t1.cache == t.cache && t1.documentId == t.documentId
            && Reached(None, t1, Jobs(None, t.features), Outs(k, t), current, i)
  {
    if i == 0 {
      StartIsReached(k, None, t.(counter := 0));
    } else {
      RewoundIsReached(k, t, Outs(k, t), i);
    }
    hide Reached, Mark, Resume, Outcomes, Clean, WellFormed;
  }

  function Told(o: Outcome): ExecOutput {
    var e := (if o.error.Some? then o.error.value else "") + "!";
    ExecOutput(false, NullShape, "", ExecutionFailed, e, o.after)
  }

  /** The step that sees the leftover leaves another message than a full replay does. */
  lemma {:induction false} LeakyStep(k: Kernel, t: Tree, jobs: seq<Job>, outs: seq<Outcome>, current: NamedShape, j: nat)
    requires Reached(None, t, jobs, outs, current, j) && j < |jobs| && jobs[j].Run?
    requires outs[j].error.Some?
    requires k.run(LeakedInput(k, t, jobs, outs, j)) == Told(outs[j])
    ensures var t' := Step(k, None, t, current, j).0;
            |t'.features| == |t.features| && t'.features[j].errorMessage == outs[j].error.value + "!"
  {
    var f := t.features[j];
    assert Prepare(None, f) == jobs[j];
    var t1 := t.(snapshots := t.snapshots[f.id := SnapshotV2(t.counter, t.documentId)]);
    assert LookAllIn(k, t1, jobs[j]) == LookAllIn(k, t, jobs[j]) by { hide RefsOf; }
    hide RefsOf, LookAllIn, Find;
  }

  /** Full replay of an unsuppressed feature writes its message. */
  lemma {:induction false} RunWrites(k: Kernel, t: Tree, j: nat)
    requires UniqueIds(t.features) && j < |t.features| && Jobs(None, t.features)[j].Run?
    ensures var o := Outs(k, t)[j];
            o.error.Some? && FullTree(t, Outs(k, t)).features[j].errorMessage == o.error.value
  {
    OutcomeAt(k, t.documentId, Jobs(None, t.features), j);
    hide LookAll, ById, Shapes, Boundaries;
  }

  lemma {:induction false} LeakShows(k: Kernel, t: Tree, fromId: string)
    requires WellFormed(t)
    requires var i := StartIndex(t, fromId);
             && Clean(k, t, i) && (i == 0 || (t.features[i].id in t.snapshots && Fresh(k, t, i)))
             && !NothingStale(k, t, Jobs(None, t.features), i, |t.features|)
    ensures !AlwaysFull(k, t, fromId)
  {
    var i := StartIndex(t, fromId);
    var jobs := Jobs(None, t.features);
    var outs := Outs(k, t);
    var j := FirstLeak(k, t, jobs, i, |jobs|);
    var m :| j <= m < |jobs| && Sees(k, jobs[j].feature, t.features[m], t.cache);
    var (t1, start, current) := Rewind(t, i);
    BeginReached(k, t, i);
    assert UniqueIds(t1.features) && j <= |outs|;
    SettledToKeeps(t1, outs, i, j);
    assert NothingStale(k, t1, jobs, i, j);
    LeakShowsAt(k, t, t1, current, fromId, i, j, m);
  }

  lemma {:induction false} LeakShowsAt(k: Kernel, t: Tree, t1: Tree, current: NamedShape, fromId: string, i: nat, j: nat, m: nat)
    requires WellFormed(t) && i == StartIndex(t, fromId) && Rewind(t, i) == (t1, i, current)
    requires t1.features == t.features && t1.cache == t.cache && t1.documentId == t.documentId
    requires var jobs := Jobs(None, t.features); var outs := Outs(k, t);
             && Reached(None, t1, jobs, outs, current, i)
             && i <= j <= m < |jobs| && NothingStale(k, t1, jobs, i, j) && jobs[j].Run?
             && Sees(k, jobs[j].feature, t.features[m], t.cache)
    ensures !AlwaysFull(k, t, fromId)
  {
    var jobs := Jobs(None, t.features);
    var outs := Outs(k, t);
    assert UniqueIds(t.features) && |t.features| == |jobs| == |outs|;
    OutsIs(k, t);
    hide *;
    var u := SettledTo(t1, outs, i, j);
    SettledToKeeps(t1, outs, i, j);
    LoopReaches(k, None, t1, jobs, outs, current, i, j);
    LeakIsNew(k, t, u, jobs, outs, j, m);
    var x := LeakedInput(k, u, jobs, outs, j);
    var k' := Altered(k, x, Told(outs[j]));
    AlteredOutcomes(k, t.documentId, jobs, x, Told(outs[j]));
    AlteredAgrees(k, x, Told(outs[j]), t);
    StaleAltered(k, x, Told(outs[j]), t1, jobs, i, j);
    AlteredAnswers(k, x, Told(outs[j]), u, jobs, outs, j);
    AlteredDiffers(k', t, t1, current, fromId, i, j);
    NotAlways(k, k', t, fromId);
  }

  lemma {:induction false} NotAlways(k: Kernel, k': Kernel, t: Tree, fromId: string)
    requires AgreesOnFull(k, k', t) && ReplayFrom(k', None, t, fromId) != Replay(k', None, t)
    ensures !AlwaysFull(k, t, fromId)
  {
    hide AgreesOnFull, ReplayFrom, Replay;
  }

  lemma {:induction false} AlteredAgrees(k: Kernel, x: ExecInput, o: ExecOutput, t: Tree)
    requires Outcomes(Altered(k, x, o), t.documentId, Jobs(None, t.features)) == Outs(k, t)
    ensures AgreesOnFull(k, Altered(k, x, o), t)
  {
    hide Outcomes;
  }

  lemma {:induction false} AlteredAnswers(k: Kernel, x: ExecInput, o: ExecOutput, u: Tree, jobs: seq<Job>, outs: seq<Outcome>, j: nat)
    requires j < |jobs| == |outs| && jobs[j].Run? && x == LeakedInput(k, u, jobs, outs, j)
    ensures Altered(k, x, o).run(LeakedInput(Altered(k, x, o), u, jobs, outs, j)) == o
  {
    assert LookAllIn(Altered(k, x, o), u, jobs[j]) == LookAllIn(k, u, jobs[j]);
  }

  lemma {:induction false} StaleAltered(k: Kernel, x: ExecInput, o: ExecOutput, t: Tree, jobs: seq<Job>, i: nat, n: nat)
    requires n <= |jobs| == |t.features| && NothingStale(k, t, jobs, i, n)
    ensures NothingStale(Altered(k, x, o), t, jobs, i, n)
  {
    forall j, m | i <= j < n && j <= m < |jobs| && jobs[j].Run?
      ensures !Sees(Altered(k, x, o), jobs[j].feature, t.features[m], t.cache)
    {
      assert !Sees(k, jobs[j].feature, t.features[m], t.cache);
    }
  }

  lemma {:induction false} AlteredDiffers(k: Kernel, t: Tree, t1: Tree, current: NamedShape, fromId: string, i: nat, j: nat)
    requires WellFormed(t) && i == StartIndex(t, fromId) && Rewind(t, i) == (t1, i, current)
    requires t1.features == t.features && t1.documentId == t.documentId
    requires var jobs := Jobs(None, t.features); var outs := Outs(k, t);
             && Reached(None, t1, jobs, outs, current, i)
             && i <= j < |jobs| && NothingStale(k, t1, jobs, i, j) && jobs[j].Run?
             && k.run(LeakedInput(k, SettledTo(t1, outs, i, j), jobs, outs, j)) == Told(outs[j])
    ensures ReplayFrom(k, None, t, fromId) != Replay(k, None, t)
  {
    var jobs := Jobs(None, t.features);
    var outs := Outs(k, t);
    var u := SettledTo(t1, outs, i, j);
    assert UniqueIds(t.features) && j < |t.features| == |jobs| == |outs|;
    hide *;
    FromRewound(k, t, t1, current, fromId, i);
    RunWrites(k, t, j);
    OutsIs(k, t);
    LoopReaches(k, None, t1, jobs, outs, current, i, j);
    LeakyLoop(k, u, jobs, outs, j);
    ReplayIsRecursion(k, None, t);
    Longer(outs[j].error.value);
  }

  lemma {:induction false} FromRewound(k: Kernel, t: Tree, t1: Tree, current: NamedShape, fromId: string, i: nat)
    requires i == StartIndex(t, fromId) && Rewind(t, i) == (t1, i, current)
    requires t1.features == t.features
    ensures i <= |t1.features| && ReplayFrom(k, None, t, fromId) == Loop(k, None, t1, current, i)
  {
    hide Rewind, StartIndex, Loop;
  }

  lemma {:induction false} LeakyLoop(k: Kernel, u: Tree, jobs: seq<Job>, outs: seq<Outcome>, j: nat)
    requires |outs| == |jobs| && j < |jobs| && Reached(None, u, jobs, outs, LastShape(outs[..j]), j) && jobs[j].Run?
    requires outs[j].error.Some?
    requires k.run(LeakedInput(k, u, jobs, outs, j)) == Told(outs[j])
    ensures j <= |u.features|
    ensures var t' := Loop(k, None, u, LastShape(outs[..j]), j).0;
            j < |t'.features| && t'.features[j].errorMessage == outs[j].error.value + "!"
  {
    var c := LastShape(outs[..j]);
    assert j < |u.features|;
    hide *;
    LeakyStep(k, u, jobs, outs, c, j);
    var (t2, c2) := Step(k, None, u, c, j);
    LoopUnfolds(k, u, c, j);
    LoopKeepsFeature(k, None, t2, c2, j + 1, j);
  }

  lemma {:induction false} Longer(e: string)
    ensures e + "!" != e
  {
    assert |e + "!"| == |e| + 1;
  }

  lemma {:induction false} OutsIs(k: Kernel, t: Tree)
    ensures Outs(k, t) == Outcomes(k, t.documentId, Jobs(None, t.features))
  {
  }

  lemma {:induction false} LoopUnfolds(k: Kernel, t: Tree, current: NamedShape, j: nat)
    requires j < |t.features|
    ensures var (t', c) := Step(k, None, t, current, j);
            |t'.features| == |t.features| && Loop(k, None, t, current, j) == Loop(k, None, t', c, j + 1)
  {
  }

  /**
   replayFrom is replay, for every kernel that gives the full replay of this tree its outcomes, exactly when
   the condition holds: each way of missing it is shown by some such kernel.
   */
  lemma {:induction false} AlwaysFullIffExact(k: Kernel, t: Tree, fromId: string)
    requires WellFormed(t) && Clean(k, t, StartIndex(t, fromId))
    ensures AlwaysFull(k, t, fromId) <==> Exact(k, t, StartIndex(t, fromId))
  {
    var i := StartIndex(t, fromId);
    hide WellFormed, Clean, NothingStale, ReplayFrom, Replay, StartIndex, Outs;
    if Exact(k, t, i) {
      forall k' | AgreesOnFull(k, k', t) ensures ReplayFrom(k', None, t, fromId) == Replay(k', None, t) {
        ExactTransfers(k, k', t, i);
        ExactSuffices(k', t, fromId);
      }
    } else if i > 0 && !Fresh(k, t, i) {
      FromStale(k, t, fromId);
      assert AgreesOnFull(k, k, t);
    } else {
      LeakShows(k, t, fromId);
    }
  }

  // ── Every run of edits ─────────────────────────────────

  /** The index replayFrom resolves the first dirty feature's id to. */
  function DirtyStart(t: Tree): nat
    requires FirstDirty(t, 0) < |t.features|
  {
    StartIndex(t, t.features[FirstDirty(t, 0)].id)
  }

  /** Refreshing is full replay: nothing is dirty, or the condition holds where replayFrom starts. */
  ghost predicate Refreshable(k: Kernel, t: Tree) {
    FirstDirty(t, 0) == |t.features| || Exact(k, t, DirtyStart(t))
  }

  lemma {:induction false} StartIsClean(k: Kernel, t: Tree)
    requires Settling(k, t) && FirstDirty(t, 0) < |t.features|
    ensures WellFormed(t) && DirtyStart(t) <= FirstDirty(t, 0) && Clean(k, t, DirtyStart(t))
  {
    FindAt(t.features, FirstDirty(t, 0));
    CleanBefore(k, t, DirtyStart(t));
  }

  lemma {:induction false} SettlesWhenWellFormed(k: Kernel, t: Tree)
    requires WellFormed(t)
    ensures Settling(k, Replay(k, None, t).0) && Apply(k, t, ReplayOp) == Replay(k, None, t).0
  {
    hide WellFormed, Replay;
    ReplaySound(k, t);
  }

  lemma {:induction false} RemoveIs(t: Tree, id: string)
    ensures var i := Find(t.features, id); Remove(t, id).0 == if i < 0 then t else Removed(t, i)
  {
    hide Mark, RemoveAt, Find;
  }

  lemma {:induction false} RemoveSettles(k: Kernel, t: Tree, id: string)
    requires Settling(k, t)
    ensures Settling(k, Apply(k, t, RemoveOp(id)))
  {
    hide Settling, Remove, Removed, FirstDirty, Outs, Find;
    RemoveIs(t, id);
    var i := Find(t.features, id);
    if 0 <= i { RemovedSettles(k, t, i); }
  }

  /** The index a move clamps to. */
  function Target(t: Tree, index: int): int {
    var lifted := if index < 0 then 0 else index;
    if lifted >= |t.features| then |t.features| - 1 else lifted
  }

  lemma {:induction false} MoveIs(t: Tree, id: string, index: int)
    ensures var was := Find(t.features, id);
            Move(t, id, index).0
            == if was < 0 || was == Target(t, index) then t else Moved(t, was, Target(t, index))
  {
    hide Mark, InsertAt, RemoveAt, Find;
  }

  lemma {:induction false} MoveSettles(k: Kernel, t: Tree, id: string, index: int)
    requires Settling(k, t)
    ensures Settling(k, Apply(k, t, MoveOp(id, index)))
  {
    hide Settling, Move, Moved, FirstDirty, Outs, Find;
    MoveIs(t, id, index);
    var was := Find(t.features, id);
    if 0 <= was && was != Target(t, index) { MovedSettles(k, t, was, Target(t, index)); }
  }

  lemma {:induction false} InsertSettles(k: Kernel, t: Tree, f: Feature, at: nat)
    requires Settling(k, t) && at <= |t.features| && Find(t.features, f.id) < 0
    ensures Settling(k, Inserted(t, at, f))
  {
    InsertedSettles(k, t, at, f);
    hide Settling, Inserted;
  }

  lemma {:induction false} EditedSettles(k: Kernel, t: Tree, i: nat, f: Feature)
    requires Settling(k, t) && i < |t.features| && f.id == t.features[i].id
    ensures Settling(k, Edit(t, i, f))
  {
    RewrittenSettles(k, t, t.features[i := f], i);
    assert Edit(t, i, f) == Rewritten(t, t.features[i := f], i);
    hide Settling;
  }

  lemma {:induction false} RetargetSettles(k: Kernel, t: Tree, a: string, b: string)
    requires Settling(k, t)
    ensures Settling(k, Apply(k, t, ReplaceOp(a, b)))
  {
    if a != "" && b != "" {
      ReplaceReferenceIs(t, a, b);
      hide Settling, ReplaceReference;
      RewrittenSettles(k, t, ReplaceReference(t, a, b).features, FirstNaming(t.features, a, 0));
    }
  }

  lemma {:induction false} AddSettles(k: Kernel, t: Tree, f: Feature)
    requires Settling(k, t)
    ensures Settling(k, Apply(k, t, AddOp(f)))
  {
    if Find(t.features, f.id) < 0 {
      AddIsInsert(t, f);
      InsertSettles(k, t, f, |t.features|);
    }
    hide Settling, Inserted;
  }

  lemma {:induction false} InsertOpSettles(k: Kernel, t: Tree, index: int, f: Feature)
    requires Settling(k, t)
    ensures Settling(k, Apply(k, t, InsertOp(index, f)))
  {
    if Find(t.features, f.id) < 0 {
      InsertIs(t, index, f);
      InsertSettles(k, t, f, Clamp(0, index, |t.features|));
    }
    hide Settling, Inserted;
  }

  lemma {:induction false} InsertIs(t: Tree, index: int, f: Feature)
    requires Find(t.features, f.id) < 0
    ensures Insert(t, index, f).0 == Inserted(t, Clamp(0, index, |t.features|), f)
  {
  }

  lemma {:induction false} UpdateSettles(k: Kernel, t: Tree, id: string, name: string, v: ParamValue)
    requires Settling(k, t)
    ensures Settling(k, Apply(k, t, UpdateOp(id, name, v)))
  {
    var i := Find(t.features, id);
    hide Settling, Edit, Find;
    if 0 <= i { EditedSettles(k, t, i, t.features[i].(params := t.features[i].params[name := v])); }
  }

  lemma {:induction false} SuppressSettles(k: Kernel, t: Tree, id: string, on: bool)
    requires Settling(k, t)
    ensures Settling(k, Apply(k, t, SuppressOp(id, on)))
  {
    var i := Find(t.features, id);
    hide Settling, Edit, Find;
    if 0 <= i { EditedSettles(k, t, i, t.features[i].(suppressed := on)); }
  }

  lemma {:induction false} RefreshSettles(k: Kernel, t: Tree)
    requires Settling(k, t) && Refreshable(k, t)
    ensures Settling(k, Apply(k, t, RefreshOp))
  {
    hide Settling, WellFormed, Exact, Replay, ReplayFrom, FirstDirty;
    if FirstDirty(t, 0) < |t.features| {
      StartIsClean(k, t);
      ExactSuffices(k, t, t.features[FirstDirty(t, 0)].id);
      SettlesWhenWellFormed(k, t);
    }
  }

  /** Every edit, removals and moves included, and every full replay keeps the clean part settled. */
  lemma {:induction false} ApplySettles(k: Kernel, t: Tree, op: Op)
    requires Settling(k, t)
    requires op.RefreshOp? ==> Refreshable(k, t)
    ensures Settling(k, Apply(k, t, op))
  {
    assert WellFormed(t);
    hide *;
    match op
    case AddOp(f) => AddSettles(k, t, f);
    case InsertOp(i, f) => InsertOpSettles(k, t, i, f);
    case UpdateOp(id, name, v) => UpdateSettles(k, t, id, name, v);
    case SuppressOp(id, on) => SuppressSettles(k, t, id, on);
    case ReplaceOp(a, b) => RetargetSettles(k, t, a, b);
    case RemoveOp(id) => RemoveSettles(k, t, id);
    case MoveOp(id, i) => MoveSettles(k, t, id, i);
    case ReplayOp => SettlesWhenWellFormed(k, t);
    case RefreshOp => RefreshSettles(k, t);
  }

  /** The run refreshes only where that is full replay. */
  ghost predicate Careful(k: Kernel, t: Tree, ops: seq<Op>) {
    forall i :: 0 <= i < |ops| && ops[i].RefreshOp? ==> Refreshable(k, After(k, t, ops[..i]))
  }

  /** Removals and moves included. */
  lemma {:induction false} RunSettles(k: Kernel, t: Tree, ops: seq<Op>)
    requires Settling(k, t) && Careful(k, t, ops)
    ensures Settling(k, After(k, t, ops))
  {
    if ops != [] {
      var n := |ops| - 1;
      hide Settling, Refreshable, Apply;
      forall i | 0 <= i < n ensures ops[..n][i] == ops[i] && ops[..n][..i] == ops[..i] { }
      RunSettles(k, t, ops[..n]);
      ApplySettles(k, After(k, t, ops[..n]), ops[n]);
    }
  }

  /**
   After any run of edits from the empty tree, removals and moves in any place and number included, replaying
   from the first dirty feature is full replay if and only if the condition holds; with references that point
   backwards, if and only if it starts over or finds the boundary reached after the clean features.
   */
  lemma {:induction false} AfterEveryRun(k: Kernel, doc: Word64, ops: seq<Op>)
    requires Careful(k, Empty(doc), ops)
    requires var t := After(k, Empty(doc), ops); FirstDirty(t, 0) < |t.features|
    ensures var t := After(k, Empty(doc), ops); var id := t.features[FirstDirty(t, 0)].id; var i := DirtyStart(t);
            && (AlwaysFull(k, t, id) <==> Exact(k, t, i))
            && (Exact(k, t, i) ==> ReplayFrom(k, None, t, id) == Replay(k, None, t))
            && (RefsBackward(t.features) ==>
                (ReplayFrom(k, None, t, id) == Replay(k, None, t) <==> StartsOver(t, i) || Fresh(k, t, i)))
  {
    hide Settling, WellFormed, FirstDirty, Exact, Replay, ReplayFrom, AlwaysFull, Clean, RefsBackward, Fresh, StartsOver;
    EmptySettles(k, doc);
    RunSettles(k, Empty(doc), ops);
    var t := After(k, Empty(doc), ops);
    var id := t.features[FirstDirty(t, 0)].id;
    StartIsClean(k, t);
    AlwaysFullIffExact(k, t, id);
    if Exact(k, t, DirtyStart(t)) { ExactSuffices(k, t, id); }
    if RefsBackward(t.features) {
      BackwardHidesNothing(k, t, DirtyStart(t));
      IncrementalIffFresh(k, t, id);
    }
  }

  lemma {:induction false} EmptySettles(k: Kernel, doc: Word64)
    ensures Settling(k, Empty(doc))
  {
    EmptySound(k, doc);
  }
}
