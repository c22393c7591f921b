/**
 What the operations of TreeState.dfy mean: full replay is the recursion of ReplaySpec.dfy
 whatever the tree held before, and incremental replay is full replay exactly when the
 restored allocator boundary is fresh.
 */
module ReplayTheory {
  import opened Wrappers
  import opened FeatureModel
  import opened TagAllocation
  import opened ReplaySpec
  import opened TreeState

  // ── Well-formed trees ──────────────────────────────────

  function IdSet(fs: seq<Feature>): set<string> {
    set f | f in fs :: f.id
  }

  ghost predicate UniqueIds(fs: seq<Feature>) {
    forall i, j :: 0 <= i < j < |fs| ==> fs[i].id != fs[j].id
  }

  /** What every operation keeps: unique ids, and no bookkeeping for a feature that is gone. */
  ghost predicate WellFormed(t: Tree) {
    && UniqueIds(t.features)
    && t.cache.Keys <= IdSet(t.features)
    && t.snapshots.Keys <= IdSet(t.features)
    && t.dirty.Keys == IdSet(t.features)
  }

  lemma {:induction false} FindAt(fs: seq<Feature>, i: nat)
    requires UniqueIds(fs) && i < |fs|
    ensures Find(fs, fs[i].id) == i
  {
  }

  lemma {:induction false} MarkSpec(fs: seq<Feature>, dirty: map<string, bool>, from: nat)
    requires from <= |fs|
    ensures var m := Mark(fs, dirty, from);
            && m.Keys == dirty.Keys + IdSet(fs[from..])
            && (forall i :: from <= i < |fs| ==> fs[i].id in m && m[fs[i].id])
            && (forall id :: id in dirty && id !in IdSet(fs[from..]) ==> m[id] == dirty[id])
    decreases |fs| - from
  {
    if from < |fs| {
      MarkSpec(fs, dirty[fs[from].id := true], from + 1);
      assert fs[from..] == [fs[from]] + fs[from + 1..];
    }
  }

  // ── The settled part of a tree ─────────────────────────

  /** The first `i` features carry exactly the results and boundaries of `outs`. */
  ghost predicate Done(t: Tree, outs: seq<Outcome>, i: nat)
    requires i <= |t.features| && i <= |outs|
  {
    forall j :: 0 <= j < i ==> DoneAt(t, outs[j], j)
  }

  predicate DoneAt(t: Tree, o: Outcome, j: nat)
    requires j < |t.features|
  {
    var f := t.features[j];
    && Stamp(f, o) == f
    && f.id in t.cache && t.cache[f.id] == o.shape
    && f.id in t.snapshots && t.snapshots[f.id] == SnapshotV2(o.before, t.documentId)
  }

  /** Everything from `i` on is marked dirty, nothing before it. */
  ghost predicate DirtyFrom(t: Tree, i: nat) {
    forall j :: 0 <= j < |t.features| ==>
      t.features[j].id in t.dirty && t.dirty[t.features[j].id] == (j >= i)
  }

  /**
   No feature from `i` up to `n` has a reference that resolves against the leftover result of a feature
   not yet replayed. References to earlier features, or to nothing, always satisfy this.
   */
  ghost predicate NothingStale(k: Kernel, t: Tree, jobs: seq<Job>, i: nat, n: nat)
    requires n <= |jobs| == |t.features|
  {
    forall j, m :: i <= j < n && j <= m < |jobs| && jobs[j].Run? ==>
      !Sees(k, jobs[j].feature, t.features[m], t.cache)
  }

  /** Some reference to `target` resolves against what the cache holds for it. */
  predicate Sees(k: Kernel, f: Feature, target: Feature, cache: map<string, NamedShape>) {
    && !target.suppressed
    && exists r :: r in RefsOf(f) && r.featureId == target.id && Resolve(k, false, Cached(cache, target.id), r).Some?
  }

  ghost predicate JobsMatch(t: Tree, jobs: seq<Job>) {
    |jobs| == |t.features| && forall j :: 0 <= j < |jobs| ==>
      jobs[j].id == t.features[j].id && jobs[j].Skip? == t.features[j].suppressed
  }

  /** Job `j` is what feature `j` asks for, for every feature still to be replayed. */
  ghost predicate Pending(tr: Transformer, t: Tree, jobs: seq<Job>, i: nat) {
    && JobsMatch(t, jobs)
    && forall j :: i <= j < |jobs| ==> jobs[j] == Prepare(tr, t.features[j])
  }

  ghost predicate AtBoundary(t: Tree, outs: seq<Outcome>, current: NamedShape, i: nat) {
    && i <= |outs| == |t.features|
    && current == LastShape(outs[..i])
    && t.counter == LastCounter(outs[..i])
  }

  /** The loop's state when it reaches feature `i`, the features before it having results `outs[..i]`. */
  ghost predicate Reached(tr: Transformer, t: Tree, jobs: seq<Job>, outs: seq<Outcome>, current: NamedShape, i: nat) {
    && WellFormed(t)
    && Pending(tr, t, jobs, i)
    && AtBoundary(t, outs, current, i)
    && Done(t, outs, i)
    && DirtyFrom(t, i)
  }

  /** A reference resolved through the live cache gives what the recursion gives. */
  lemma {:induction false} LookAgrees(k: Kernel, t: Tree, jobs: seq<Job>, outs: seq<Outcome>, i: nat, ref: ElementRef)
    requires WellFormed(t) && JobsMatch(t, jobs) && |outs| == |jobs| && i < |jobs|
    requires Done(t, outs, i) && NothingStale(k, t, jobs, i, i + 1)
    requires jobs[i].Run? && ref in RefsOf(jobs[i].feature)
    ensures LookIn(k, t, ref) == Look(k, jobs[..i], outs[..i], ref)
  {
    var at := Find(t.features, ref.featureId);
    var ids := JobIds(jobs[..i]);
    var j := IndexOf(ids, ref.featureId);
    assert forall m :: 0 <= m < i ==> ids[m] == t.features[m].id;
    if at < 0 {
      assert ref.featureId !in t.cache;
      assert j < 0;
    } else if at < i {
      assert ids[at] == ref.featureId;
      IndexOfDistinct(ids, at);
      assert DoneAt(t, outs[at], at);
    } else {
      assert forall m :: 0 <= m < i ==> t.features[m].id != ref.featureId;
      assert j < 0;
      assert !Sees(k, jobs[i].feature, t.features[at], t.cache);
    }
  }

  /** One iteration settles one feature more, with the result the recursion gives. */
  lemma {:induction false} StepSettles(k: Kernel, tr: Transformer, t: Tree, jobs: seq<Job>, outs: seq<Outcome>, current: NamedShape, i: nat)
    requires Reached(tr, t, jobs, outs, current, i) && i < |jobs| && NothingStale(k, t, jobs, i, i + 1)
    requires outs[i] == Perform(k, t.documentId, jobs[i], LookAll(k, jobs[..i], outs[..i], jobs[i]),
                                LastShape(outs[..i]), LastCounter(outs[..i]))
    ensures Step(k, tr, t, current, i) == (Settled(t, i, outs[i]), outs[i].shape)
  {
    var f := t.features[i];
    assert Prepare(tr, f) == jobs[i];
    RefsAgree(k, t, jobs, outs, i);
    hide Resolve, LookIn, Look, LookAll, LookAllIn, RefsOf, Done, Find, Outcomes, NothingStale;
  }

  lemma {:induction false} RefsAgree(k: Kernel, t: Tree, jobs: seq<Job>, outs: seq<Outcome>, i: nat)
    requires WellFormed(t) && JobsMatch(t, jobs) && |outs| == |jobs| && i < |jobs|
    requires Done(t, outs, i) && NothingStale(k, t, jobs, i, i + 1)
    ensures LookAllIn(k, t.(snapshots := t.snapshots[t.features[i].id := SnapshotV2(t.counter, t.documentId)]), jobs[i])
            == LookAll(k, jobs[..i], outs[..i], jobs[i])
  {
    var t1 := t.(snapshots := t.snapshots[t.features[i].id := SnapshotV2(t.counter, t.documentId)]);
    if jobs[i].Run? {
      forall r | r in RefsOf(jobs[i].feature)
        ensures LookIn(k, t1, r) == Look(k, jobs[..i], outs[..i], r)
      {
        LookAgrees(k, t, jobs, outs, i, r);
      }
      hide RefsOf, Look, LookIn;
      assert LookAllIn(k, t1, jobs[i]) == LookAll(k, jobs[..i], outs[..i], jobs[i]);
    }
  }

  /** The tree after feature `i` is settled with outcome `o`. */
  function Settled(t: Tree, i: nat, o: Outcome): Tree
    requires i < |t.features|
  {
    Settle(t.(snapshots := t.snapshots[t.features[i].id := SnapshotV2(t.counter, t.documentId)]), i, o)
  }

  lemma {:induction false} SettledWellFormed(t: Tree, i: nat, o: Outcome)
    requires WellFormed(t) && i < |t.features|
    ensures WellFormed(Settled(t, i, o))
  {
    SameIds(t.features, Settled(t, i, o).features);
    assert t.features[i] in t.features;
  }

  lemma {:induction false} SettledDone(t: Tree, outs: seq<Outcome>, i: nat)
    requires UniqueIds(t.features) && i < |t.features| && i < |outs|
    requires Done(t, outs, i) && outs[i].before == t.counter
    ensures Done(Settled(t, i, outs[i]), outs, i + 1)
  {
    forall j | 0 <= j < i + 1 ensures DoneAt(Settled(t, i, outs[i]), outs[j], j) {
      if j < i { assert DoneAt(t, outs[j], j); }
    }
  }

  lemma {:induction false} SettledDirty(t: Tree, i: nat, o: Outcome)
    requires UniqueIds(t.features) && i < |t.features| && DirtyFrom(t, i)
    ensures DirtyFrom(Settled(t, i, o), i + 1)
  {
  }

  lemma {:induction false} SettledNothingStale(k: Kernel, t: Tree, jobs: seq<Job>, i: nat, n: nat, o: Outcome)
    requires UniqueIds(t.features) && i < |t.features| && n <= |jobs| == |t.features| && NothingStale(k, t, jobs, i, n)
    ensures NothingStale(k, Settled(t, i, o), jobs, i + 1, n)
  {
    var t' := Settled(t, i, o);
    forall j, m | i + 1 <= j < n && j <= m < |jobs| && jobs[j].Run? ensures !Sees(k, jobs[j].feature, t'.features[m], t'.cache) {
      assert !Sees(k, jobs[j].feature, t.features[m], t.cache);
      assert t'.features[m].id == t.features[m].id && Cached(t'.cache, t.features[m].id) == Cached(t.cache, t.features[m].id);
    }
  }

  lemma {:induction false} SettledPending(tr: Transformer, t: Tree, jobs: seq<Job>, i: nat, o: Outcome)
    requires i < |t.features| && Pending(tr, t, jobs, i)
    ensures Pending(tr, Settled(t, i, o), jobs, i + 1)
  {
  }

  lemma {:induction false} SettledAtBoundary(t: Tree, outs: seq<Outcome>, current: NamedShape, i: nat)
    requires i < |t.features| && AtBoundary(t, outs, current, i)
    ensures AtBoundary(Settled(t, i, outs[i]), outs, outs[i].shape, i + 1)
  {
    assert outs[..i + 1] == outs[..i] + [outs[i]];
  }

  lemma {:induction false} SettleReaches(tr: Transformer, t: Tree, jobs: seq<Job>, outs: seq<Outcome>, current: NamedShape, i: nat)
    requires Reached(tr, t, jobs, outs, current, i) && i < |jobs|
    requires outs[i].before == t.counter
    ensures Reached(tr, Settled(t, i, outs[i]), jobs, outs, outs[i].shape, i + 1)
  {
    assert |jobs| == |t.features| == |outs| && UniqueIds(t.features);
    hide *;
    SettledWellFormed(t, i, outs[i]);
    SettledPending(tr, t, jobs, i, outs[i]);
    SettledAtBoundary(t, outs, current, i);
    SettledDone(t, outs, i);
    SettledDirty(t, i, outs[i]);
  }

  lemma {:induction false} SameIds(fs: seq<Feature>, gs: seq<Feature>)
    requires |fs| == |gs| && forall i :: 0 <= i < |fs| ==> fs[i].id == gs[i].id
    ensures IdSet(fs) == IdSet(gs)
  {
    forall id ensures id in IdSet(fs) <==> id in IdSet(gs) {
      if id in IdSet(fs) { var i :| 0 <= i < |fs| && fs[i].id == id; assert gs[i] in gs; }
      if id in IdSet(gs) { var i :| 0 <= i < |gs| && gs[i].id == id; assert fs[i] in fs; }
    }
  }

  /** `gs` is `fs` with the outcomes from `i` up to `n` written to it. */
  ghost predicate Stamped(fs: seq<Feature>, gs: seq<Feature>, outs: seq<Outcome>, i: nat, n: nat) {
    |gs| == |fs| == |outs| && forall j :: 0 <= j < |fs| ==> gs[j] == if i <= j < n then Stamp(fs[j], outs[j]) else fs[j]
  }

  lemma {:induction false} StampedStep(t: Tree, gs: seq<Feature>, outs: seq<Outcome>, i: nat, n: nat)
    requires i < n <= |t.features| == |outs|
    requires Stamped(Settled(t, i, outs[i]).features, gs, outs, i + 1, n)
    ensures Stamped(t.features, gs, outs, i, n)
  {
  }

  /** The tree after the features from `i` up to `n` are settled. */
  function SettledTo(t: Tree, outs: seq<Outcome>, i: nat, n: nat): Tree
    requires i <= n <= |t.features| && n <= |outs|
    decreases n - i
  {
    if i == n then t else SettledTo(Settled(t, i, outs[i]), outs, i + 1, n)
  }

  /** From any reached state the loop settles every further feature up to the first that sees a leftover. */
  lemma {:induction false} LoopReaches(k: Kernel, tr: Transformer, t: Tree, jobs: seq<Job>, outs: seq<Outcome>, current: NamedShape, i: nat, n: nat)
    requires outs == Outcomes(k, t.documentId, jobs)
    requires Reached(tr, t, jobs, outs, current, i)
    requires i <= n <= |jobs| && NothingStale(k, t, jobs, i, n)
    ensures n <= |outs| == |t.features|
    ensures var t' := SettledTo(t, outs, i, n);
            && |t'.features| == |t.features|
            && Loop(k, tr, t, current, i) == Loop(k, tr, t', LastShape(outs[..n]), n)
            && Reached(tr, t', jobs, outs, LastShape(outs[..n]), n)
            && Stamped(t.features, t'.features, outs, i, n)
            && t'.documentId == t.documentId && t'.rollbackIndex == t.rollbackIndex
    decreases n - i
  {
    assert n <= |t.features| == |jobs| == |outs| && current == LastShape(outs[..i]) && UniqueIds(t.features);
    hide Reached, Outcomes, Settled, Loop, Stamped, NothingStale, UniqueIds, LastShape;
    if i < n {
      var t1 := Settled(t, i, outs[i]);
      NothingStaleShorter(k, t, jobs, i, n, i + 1);
      OneStepReaches(k, tr, t, jobs, outs, current, i);
      SettledNothingStale(k, t, jobs, i, n, outs[i]);
      LoopReaches(k, tr, t1, jobs, outs, outs[i].shape, i + 1, n);
      StampedStep(t, SettledTo(t1, outs, i + 1, n).features, outs, i, n);
    } else {
      NothingStamped(t.features, outs, i);
    }
  }

  lemma {:induction false} LoopTurn(k: Kernel, tr: Transformer, t: Tree, current: NamedShape, i: nat)
    requires i < |t.features|
    ensures var (t1, c) := Step(k, tr, t, current, i);
            |t1.features| == |t.features| && Loop(k, tr, t, current, i) == Loop(k, tr, t1, c, i + 1)
  {
  }

  lemma {:induction false} NothingStamped(fs: seq<Feature>, outs: seq<Outcome>, i: nat)
    requires |fs| == |outs|
    ensures Stamped(fs, fs, outs, i, i)
  {
  }

  /** One turn of the loop. */
  lemma {:induction false} OneStepReaches(k: Kernel, tr: Transformer, t: Tree, jobs: seq<Job>, outs: seq<Outcome>, current: NamedShape, i: nat)
    requires outs == Outcomes(k, t.documentId, jobs)
    requires Reached(tr, t, jobs, outs, current, i)
    requires i < |jobs| && NothingStale(k, t, jobs, i, i + 1)
    ensures i < |t.features| == |jobs| == |outs|
    ensures var t1 := Settled(t, i, outs[i]);
            && |t1.features| == |t.features| && t1.documentId == t.documentId && t1.rollbackIndex == t.rollbackIndex
            && Loop(k, tr, t, current, i) == Loop(k, tr, t1, outs[i].shape, i + 1)
            && Reached(tr, t1, jobs, outs, outs[i].shape, i + 1)
  {
    assert |t.features| == |jobs| == |outs|;
    hide Reached, Outcomes, Step, Settled, Perform, NothingStale, Loop, LookAll, LastCounter, LastShape, IndexOf;
    LoopTurn(k, tr, t, current, i);
    OutcomeAt(k, t.documentId, jobs, i);
    StepSettles(k, tr, t, jobs, outs, current, i);
    BoundaryCounter(tr, t, jobs, outs, current, i);
    SettleReaches(tr, t, jobs, outs, current, i);
    SettledKeeps(t, i, outs[i]);
  }

  /** When none does, the loop settles everything. */
  lemma {:induction false} LoopFinishes(k: Kernel, tr: Transformer, t: Tree, jobs: seq<Job>, outs: seq<Outcome>, current: NamedShape, i: nat)
    requires outs == Outcomes(k, t.documentId, jobs)
    requires Reached(tr, t, jobs, outs, current, i)
    requires i <= |jobs| && NothingStale(k, t, jobs, i, |jobs|)
    ensures |jobs| == |outs| == |t.features|
    ensures var t' := SettledTo(t, outs, i, |outs|);
            && Loop(k, tr, t, current, i) == (t', LastShape(outs))
            && Reached(tr, t', jobs, outs, LastShape(outs), |jobs|)
            && Stamped(t.features, t'.features, outs, i, |outs|)
            && t'.documentId == t.documentId && t'.rollbackIndex == t.rollbackIndex
  {
    hide Reached, Outcomes, Step, NothingStale, LastShape, SettledTo;
    LoopReaches(k, tr, t, jobs, outs, current, i, |jobs|);
    assert outs[..|jobs|] == outs;
  }

  lemma {:induction false} NothingStaleShorter(k: Kernel, t: Tree, jobs: seq<Job>, i: nat, n: nat, n': nat)
    requires n' <= n <= |jobs| == |t.features| && NothingStale(k, t, jobs, i, n)
    ensures NothingStale(k, t, jobs, i, n')
  {
  }

  lemma {:induction false} BoundaryCounter(tr: Transformer, t: Tree, jobs: seq<Job>, outs: seq<Outcome>, current: NamedShape, i: nat)
    requires Reached(tr, t, jobs, outs, current, i)
    ensures i <= |outs| && t.counter == LastCounter(outs[..i])
  {
  }

  lemma {:induction false} SettledKeeps(t: Tree, i: nat, o: Outcome)
    requires i < |t.features|
    ensures Settled(t, i, o).documentId == t.documentId && Settled(t, i, o).rollbackIndex == t.rollbackIndex
    ensures |Settled(t, i, o).features| == |t.features|
  {
  }

  // ── Full replay ────────────────────────────────────────

  /** The values of `vals` keyed by the ids at the same positions. */
  ghost function ById<V>(ids: seq<string>, vals: seq<V>): map<string, V>
    requires |ids| == |vals|
  {
    map id | id in ids :: vals[IndexOf(ids, id)]
  }

  lemma {:induction false} ByIdUnique<V>(ids: seq<string>, vals: seq<V>, m: map<string, V>)
    requires |ids| == |vals|
    requires forall id :: id in m ==> id in ids
    requires forall i :: 0 <= i < |ids| ==> ids[i] in m && m[ids[i]] == vals[i]
    ensures m == ById(ids, vals)
  {
  }

  ghost function Shapes(outs: seq<Outcome>): seq<NamedShape> {
    seq(|outs|, i requires 0 <= i < |outs| => outs[i].shape)
  }

  ghost function Boundaries(outs: seq<Outcome>, doc: Word64): seq<Boundary> {
    seq(|outs|, i requires 0 <= i < |outs| => SnapshotV2(outs[i].before, doc))
  }

  ghost function AllClean(n: nat): seq<bool> {
    seq(n, i => false)
  }

  /** The tree a full replay leaves, written without loops or caches. */
  ghost function FullTree(t: Tree, outs: seq<Outcome>): Tree
    requires |outs| == |t.features|
  {
    var n := |outs|;
    var ids := Ids(t.features);
    Tree(
      seq(n, i requires 0 <= i < n => Stamp(t.features[i], outs[i])),
      ById(ids, Shapes(outs)),
      ById(ids, AllClean(n)),
      ById(ids, Boundaries(outs, t.documentId)),
      t.rollbackIndex,
      LastCounter(outs),
      t.documentId)
  }

  /** A tree settled to the end is the full tree. */
  lemma {:induction false} SettledIsFull(tr: Transformer, t: Tree, t': Tree, jobs: seq<Job>, outs: seq<Outcome>, c: NamedShape)
    requires Reached(tr, t', jobs, outs, c, |jobs|) && Stamped(t.features, t'.features, outs, 0, |outs|)
    requires t'.documentId == t.documentId && t'.rollbackIndex == t.rollbackIndex
    ensures t' == FullTree(t, outs) && c == LastShape(outs)
  {
    assert outs[..|outs|] == outs;
    assert t'.features == FullTree(t, outs).features;
    assert WellFormed(t') && Done(t', outs, |outs|) && DirtyFrom(t', |outs|) && Ids(t'.features) == Ids(t.features);
    SettledMaps(t', outs);
  }

  lemma {:induction false} IdSetIsIds(fs: seq<Feature>)
    ensures forall id :: id in IdSet(fs) <==> id in Ids(fs)
  {
    forall id ensures id in IdSet(fs) <==> id in Ids(fs) {
      if id in IdSet(fs) { var i :| 0 <= i < |fs| && fs[i].id == id; assert Ids(fs)[i] == id; }
      if id in Ids(fs) { var i :| 0 <= i < |fs| && Ids(fs)[i] == id; assert fs[i] in fs; }
    }
  }

  lemma {:induction false} SettledEntry(t: Tree, outs: seq<Outcome>, i: nat)
    requires i < |outs| == |t.features| && Done(t, outs, |outs|) && DirtyFrom(t, |outs|)
    ensures var id := Ids(t.features)[i];
            && id in t.cache && t.cache[id] == outs[i].shape
            && id in t.snapshots && t.snapshots[id] == SnapshotV2(outs[i].before, t.documentId)
            && id in t.dirty && !t.dirty[id]
  {
    assert DoneAt(t, outs[i], i);
  }

  lemma {:induction false} SettledKeys(t: Tree)
    requires WellFormed(t)
    ensures forall id :: id in t.cache || id in t.snapshots || id in t.dirty ==> id in Ids(t.features)
  {
    IdSetIsIds(t.features);
    hide IdSet, Ids;
  }

  lemma {:induction false} SettledCache(t: Tree, outs: seq<Outcome>)
    requires |outs| == |t.features| && WellFormed(t) && Done(t, outs, |outs|) && DirtyFrom(t, |outs|)
    ensures t.cache == ById(Ids(t.features), Shapes(outs))
  {
    var ids, vals := Ids(t.features), Shapes(outs);
    forall i | 0 <= i < |ids| ensures ids[i] in t.cache && t.cache[ids[i]] == vals[i] { SettledEntry(t, outs, i); }
    SettledKeys(t);
    hide *;
    ByIdUnique(ids, vals, t.cache);
  }

  lemma {:induction false} SettledMarks(t: Tree, outs: seq<Outcome>)
    requires |outs| == |t.features| && WellFormed(t) && Done(t, outs, |outs|) && DirtyFrom(t, |outs|)
    ensures t.dirty == ById(Ids(t.features), AllClean(|outs|))
  {
    var ids, vals := Ids(t.features), AllClean(|outs|);
    forall i | 0 <= i < |ids| ensures ids[i] in t.dirty && t.dirty[ids[i]] == vals[i] { SettledEntry(t, outs, i); }
    SettledKeys(t);
    hide *;
    ByIdUnique(ids, vals, t.dirty);
  }

  lemma {:induction false} SettledSnapshots(t: Tree, outs: seq<Outcome>)
    requires |outs| == |t.features| && WellFormed(t) && Done(t, outs, |outs|) && DirtyFrom(t, |outs|)
    ensures t.snapshots == ById(Ids(t.features), Boundaries(outs, t.documentId))
  {
    var ids, vals := Ids(t.features), Boundaries(outs, t.documentId);
    forall i | 0 <= i < |ids| ensures ids[i] in t.snapshots && t.snapshots[ids[i]] == vals[i] { SettledEntry(t, outs, i); }
    SettledKeys(t);
    hide *;
    ByIdUnique(ids, vals, t.snapshots);
  }

  lemma {:induction false} SettledMaps(t: Tree, outs: seq<Outcome>)
    requires |outs| == |t.features| && WellFormed(t) && Done(t, outs, |outs|) && DirtyFrom(t, |outs|)
    ensures var full := FullTree(t, outs);
            t.cache == full.cache && t.dirty == full.dirty && t.snapshots == full.snapshots
  {
    SettledCache(t, outs);
    SettledMarks(t, outs);
    SettledSnapshots(t, outs);
    hide Done, DirtyFrom, WellFormed, Ids, Shapes, Boundaries, AllClean, ById;
  }

  lemma {:induction false} MarkWellFormed(t: Tree, from: nat)
    requires WellFormed(t) && from <= |t.features|
    ensures WellFormed(t.(dirty := Mark(t.features, t.dirty, from)))
  {
    MarkSpec(t.features, t.dirty, from);
    forall id | id in IdSet(t.features[from..]) ensures id in IdSet(t.features) {
      var f :| f in t.features[from..] && f.id == id;
    }
  }

  lemma {:induction false} JobsMatchPrepared(tr: Transformer, t: Tree)
    ensures Pending(tr, t, Jobs(tr, t.features), 0)
  {
  }

  /** With an empty cache, or without a forward reference, nothing stale can be seen. */
  lemma {:induction false} EmptyCacheHidesNothing(k: Kernel, t: Tree, jobs: seq<Job>, i: nat)
    requires |jobs| == |t.features| && t.cache == map[]
    ensures NothingStale(k, t, jobs, i, |jobs|)
  {
  }

  lemma {:induction false} MarkAllDirty(t: Tree)
    requires WellFormed(t)
    ensures DirtyFrom(t.(dirty := Mark(t.features, t.dirty, 0)), 0)
  {
    MarkSpec(t.features, t.dirty, 0);
  }

  lemma {:induction false} StartIsReached(k: Kernel, tr: Transformer, t: Tree)
    requires WellFormed(t) && t.counter == 0
    ensures var t1 := t.(dirty := Mark(t.features, t.dirty, 0)); var jobs := Jobs(tr, t.features);
            Reached(tr, t1, jobs, Outcomes(k, t.documentId, jobs), NullShape, 0)
  {
    MarkWellFormed(t, 0);
    MarkAllDirty(t);
    JobsMatchPrepared(tr, t.(dirty := Mark(t.features, t.dirty, 0)));
  }

  /** A run that starts over is a full replay. */
  lemma {:induction false} StartOver(k: Kernel, tr: Transformer, t: Tree)
    requires WellFormed(t) && t.counter == 0 && NothingStale(k, t, Jobs(tr, t.features), 0, |t.features|)
    ensures var outs := Outcomes(k, t.documentId, Jobs(tr, t.features));
            && Loop(k, tr, t.(dirty := Mark(t.features, t.dirty, 0)), NullShape, 0) == (FullTree(t, outs), LastShape(outs))
            && Reached(tr, FullTree(t, outs), Jobs(tr, t.features), outs, LastShape(outs), |outs|)
  {
    var t1 := t.(dirty := Mark(t.features, t.dirty, 0));
    assert |Jobs(tr, t.features)| == |t.features| && NothingStale(k, t1, Jobs(tr, t.features), 0, |t.features|);
    hide *;
    var jobs := Jobs(tr, t.features);
    var outs := Outcomes(k, t.documentId, jobs);
    StartIsReached(k, tr, t);
    LoopFinishes(k, tr, t1, jobs, outs, NullShape, 0);
    SettledIsFull(tr, t, SettledTo(t1, outs, 0, |outs|), jobs, outs, LastShape(outs));
  }

  /**
   Full replay is the recursion: the result, the cache, the statuses, the boundaries and the final
   counter depend on the feature list and the document alone, whatever the tree held before.
   */
  lemma {:induction false} ReplayIsRecursion(k: Kernel, tr: Transformer, t: Tree)
    requires WellFormed(t)
    ensures var outs := Outcomes(k, t.documentId, Jobs(tr, t.features));
            && Replay(k, tr, t) == (FullTree(t, outs), LastShape(outs))
            && Reached(tr, FullTree(t, outs), Jobs(tr, t.features), outs, LastShape(outs), |outs|)
  {
    var t0 := Forget(t);
    MarkWellFormed(t, 0);
    var jobs := Jobs(tr, t.features);
    EmptyCacheHidesNothing(k, t0, jobs, 0);
    StartOver(k, tr, t0);
    if t.features != [] { FindAt(t.features, 0); }
    assert StartIndex(t0, if t.features == [] then "" else t.features[0].id) == 0;
  }
}
