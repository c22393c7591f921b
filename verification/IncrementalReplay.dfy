/**
 Incremental replay (replayFrom at the first dirty feature) against full replay,
 over every run of edits.
 */
module IncrementalReplay {
  import opened Wrappers
  import opened FeatureModel
  import opened TagAllocation
  import opened ReplaySpec
  import opened TreeState
  import opened ReplayTheory

  /** What a full replay of the present feature list would record. */
  ghost function Outs(k: Kernel, t: Tree): (outs: seq<Outcome>)
    ensures |outs| == |t.features|
  {
    Outcomes(k, t.documentId, Jobs(None, t.features))
  }

  /** The boundary replayFrom would restore at feature `i` is the one full replay reaches there. */
  ghost predicate Fresh(k: Kernel, t: Tree, i: nat)
    requires i <= |t.features|
  {
    i < |t.features| && t.features[i].id in t.snapshots ==>
      t.snapshots[t.features[i].id] == SnapshotV2(LastCounter(Outs(k, t)[..i]), t.documentId)
  }

  /** The first `i` features are settled: nothing before `i` needs replaying. */
  ghost predicate Clean(k: Kernel, t: Tree, i: nat)
    requires i <= |t.features|
  {
    Done(t, Outs(k, t), i) && forall j :: 0 <= j < i ==> t.features[j].id in t.dirty && !t.dirty[t.features[j].id]
  }

  /** Every reference points to an earlier feature or to none in the tree. */
  ghost predicate RefsBackward(fs: seq<Feature>) {
    forall j, m :: 0 <= j <= m < |fs| ==> !Names(fs[j], fs[m].id)
  }

  lemma {:induction false} BackwardHidesNothing(k: Kernel, t: Tree, i: nat)
    requires RefsBackward(t.features)
    ensures NothingStale(k, t, Jobs(None, t.features), i, |t.features|)
  {
    var jobs := Jobs(None, t.features);
    forall j, m | i <= j < |jobs| && j <= m < |jobs| && jobs[j].Run? ensures !Sees(k, jobs[j].feature, t.features[m], t.cache) {
      assert RefsOf(Cleared(t.features[j])) == RefsOf(t.features[j]);
      assert !Names(t.features[j], t.features[m].id);
    }
  }

  /** The backward search for a shape to resume from finds the shape the recursion carries. */
  lemma {:induction false} ResumeIsLast(k: Kernel, t: Tree, outs: seq<Outcome>, i: nat)
    requires i <= |t.features| && outs == Outs(k, t) && Done(t, outs, i)
    ensures Resume(t, i) == LastShape(outs[..i])
  {
    if i > 0 {
      var jobs := Jobs(None, t.features);
      OutcomeAt(k, t.documentId, jobs, i - 1);
      ResumeIsLast(k, t, outs, i - 1);
      assert DoneAt(t, outs[i - 1], i - 1);
      assert jobs[i - 1] == Prepare(None, t.features[i - 1]);
      assert outs[..i][i - 1] == outs[i - 1];
      assert outs[..i][..i - 1] == outs[..i - 1];
    }
  }

  // ── When incremental replay is full replay ─────────────

  lemma {:induction false} LoopKeepsBoundaries(k: Kernel, tr: Transformer, t: Tree, current: NamedShape, i: nat, id: string)
    requires i <= |t.features| && id in t.snapshots
    requires forall j :: i <= j < |t.features| ==> t.features[j].id != id
    ensures var t' := Loop(k, tr, t, current, i).0; id in t'.snapshots && t'.snapshots[id] == t.snapshots[id]
    decreases |t.features| - i
  {
    if i < |t.features| {
      var (t1, c1) := Step(k, tr, t, current, i);
      LoopKeepsBoundaries(k, tr, t1, c1, i + 1, id);
    }
  }

  /** Whatever state the loop starts from, the boundary it records at its first feature is the one it was given. */
  lemma {:induction false} FirstBoundary(k: Kernel, tr: Transformer, t: Tree, current: NamedShape, i: nat)
    requires UniqueIds(t.features) && i < |t.features|
    ensures var id := t.features[i].id; var t' := Loop(k, tr, t, current, i).0;
            id in t'.snapshots && t'.snapshots[id] == SnapshotV2(t.counter, t.documentId)
  {
    var (t1, c1) := Step(k, tr, t, current, i);
    LoopKeepsBoundaries(k, tr, t1, c1, i + 1, t.features[i].id);
  }

  lemma {:induction false} MarkTail(t: Tree, i: nat)
    requires WellFormed(t) && i <= |t.features|
    requires forall j :: 0 <= j < i ==> t.features[j].id in t.dirty && !t.dirty[t.features[j].id]
    ensures DirtyFrom(t.(dirty := Mark(t.features, t.dirty, i)), i)
  {
    MarkSpec(t.features, t.dirty, i);
    forall j | 0 <= j < i ensures t.features[j].id !in IdSet(t.features[i..]) {
      assert forall f :: f in t.features[i..] ==> f.id != t.features[j].id;
    }
  }

  /** The tree at which replayFrom's loop begins when it restores a fresh boundary. */
  function Rewound(t: Tree, counter: Counter, i: nat): Tree
    requires i <= |t.features|
  {
    t.(counter := counter, dirty := Mark(t.features, t.dirty, i))
  }

  lemma {:induction false} RewoundIsReached(k: Kernel, t: Tree, outs: seq<Outcome>, i: nat)
    requires WellFormed(t) && 0 < i < |t.features| && Clean(k, t, i) && outs == Outs(k, t)
    ensures Reached(None, Rewound(t, LastCounter(outs[..i]), i), Jobs(None, t.features), outs, Resume(t, i), i)
  {
    var t1 := Rewound(t, LastCounter(outs[..i]), i);
    assert WellFormed(t1) by { MarkWellFormed(t.(counter := LastCounter(outs[..i])), i); }
    assert DirtyFrom(t1, i) by { MarkTail(t.(counter := LastCounter(outs[..i])), i); }
    assert Done(t1, outs, i) by {
      forall j | 0 <= j < i ensures DoneAt(t1, outs[j], j) { assert DoneAt(t, outs[j], j); }
    }
    assert Pending(None, t1, Jobs(None, t.features), i) by { JobsMatchPrepared(None, t1); }
    hide Done, Mark, Clean, WellFormed, DirtyFrom, Outs, Pending;
    assert AtBoundary(t1, outs, Resume(t, i), i) by { ResumeIsLast(k, t, outs, i); }
  }

  /** Resuming at a fresh boundary gives the full tree. */
  lemma {:induction false} ResumeFresh(k: Kernel, t: Tree, i: nat)
    requires WellFormed(t) && 0 < i < |t.features| && Clean(k, t, i)
    requires NothingStale(k, t, Jobs(None, t.features), i, |t.features|)
    ensures var outs := Outs(k, t);
            Loop(k, None, Rewound(t, LastCounter(outs[..i]), i), Resume(t, i), i) == (FullTree(t, outs), LastShape(outs))
  {
    var jobs := Jobs(None, t.features);
    var outs := Outs(k, t);
    var t1 := Rewound(t, LastCounter(outs[..i]), i);
    assert Done(t, outs, i) && outs == Outcomes(k, t1.documentId, jobs) && NothingStale(k, t1, jobs, i, |jobs|);
    RewoundIsReached(k, t, outs, i);
    hide *;
    LoopFinishes(k, None, t1, jobs, outs, Resume(t, i), i);
    RewoundKeeps(t, LastCounter(outs[..i]), i);
    var t' := SettledTo(t1, outs, i, |outs|);
    StampedPrefix(t, t'.features, outs, i);
    SettledIsFull(None, t, t', jobs, outs, LastShape(outs));
  }

  lemma {:induction false} RewoundKeeps(t: Tree, counter: Counter, i: nat)
    requires i <= |t.features|
    ensures var t1 := Rewound(t, counter, i);
            && t1.features == t.features && t1.cache == t.cache
            && t1.documentId == t.documentId && t1.rollbackIndex == t.rollbackIndex
  {
  }

  /** The settled features already carry their stamps. */
  lemma {:induction false} StampedPrefix(t: Tree, gs: seq<Feature>, outs: seq<Outcome>, i: nat)
    requires i <= |t.features| == |outs| && Done(t, outs, i) && Stamped(t.features, gs, outs, i, |outs|)
    ensures Stamped(t.features, gs, outs, 0, |outs|)
  {
    forall j | 0 <= j < i ensures gs[j] == Stamp(t.features[j], outs[j]) {
      assert DoneAt(t, outs[j], j);
    }
  }

  /**
   replayFrom(id) leaves the same tree and returns the same shape as replay(), identities included,
   exactly when it starts over or the boundary it restores is fresh.
   */
  lemma {:induction false} IncrementalIffFresh(k: Kernel, t: Tree, fromId: string)
    requires WellFormed(t)
    requires var i := StartIndex(t, fromId); Clean(k, t, i) && NothingStale(k, t, Jobs(None, t.features), i, |t.features|)
    ensures var i := StartIndex(t, fromId);
            ReplayFrom(k, None, t, fromId) == Replay(k, None, t) <==> StartsOver(t, i) || Fresh(k, t, i)
  {
    var i := StartIndex(t, fromId);
    if i == 0 {
      FromTheStart(k, t, fromId);
    } else if t.features[i].id !in t.snapshots {
      FromNothing(k, t, fromId);
    } else if Fresh(k, t, i) {
      FromFresh(k, t, fromId);
    } else {
      FromStale(k, t, fromId);
    }
  }

  lemma {:induction false} FromTheStart(k: Kernel, t: Tree, fromId: string)
    requires WellFormed(t) && StartIndex(t, fromId) == 0 && NothingStale(k, t, Jobs(None, t.features), 0, |t.features|)
    ensures ReplayFrom(k, None, t, fromId) == Replay(k, None, t)
  {
    ReplayIsRecursion(k, None, t);
    StartOver(k, None, t.(counter := 0));
    hide Loop, FullTree, Outcomes, WellFormed, Reached, NothingStale, Mark;
  }

  lemma {:induction false} FromNothing(k: Kernel, t: Tree, fromId: string)
    requires WellFormed(t)
    requires var i := StartIndex(t, fromId); 0 < i && t.features[i].id !in t.snapshots
    ensures ReplayFrom(k, None, t, fromId) == Replay(k, None, t)
  {
    var t0 := t.(cache := map[], snapshots := map[], counter := 0);
    EmptyCacheHidesNothing(k, t0, Jobs(None, t.features), 0);
    assert WellFormed(t0);
    hide Loop, FullTree, Outcomes, WellFormed, Reached, NothingStale, Mark, Replay;
    ReplayIsRecursion(k, None, t);
    StartOver(k, None, t0);
  }

  lemma {:induction false} FromFresh(k: Kernel, t: Tree, fromId: string)
    requires WellFormed(t)
    requires var i := StartIndex(t, fromId); 0 < i && t.features[i].id in t.snapshots && Fresh(k, t, i)
    requires var i := StartIndex(t, fromId); Clean(k, t, i) && NothingStale(k, t, Jobs(None, t.features), i, |t.features|)
    ensures ReplayFrom(k, None, t, fromId) == Replay(k, None, t)
  {
    ReplayIsRecursion(k, None, t);
    ResumeFresh(k, t, StartIndex(t, fromId));
    hide Loop, FullTree, Outcomes, WellFormed, Reached, NothingStale, Mark, Resume, Clean;
  }

  /** A stale boundary shows: replayFrom records it again, full replay records another. */
  lemma {:induction false} FromStale(k: Kernel, t: Tree, fromId: string)
    requires WellFormed(t)
    requires var i := StartIndex(t, fromId); 0 < i && t.features[i].id in t.snapshots && !Fresh(k, t, i)
    ensures ReplayFrom(k, None, t, fromId) != Replay(k, None, t)
  {
    var i := StartIndex(t, fromId);
    ReplayIsRecursion(k, None, t);
    var s := t.snapshots[t.features[i].id];
    var t1 := t.(counter := s.counter, documentId := s.documentId, dirty := Mark(t.features, t.dirty, i));
    FirstBoundary(k, None, t1, Resume(t, i), i);
    FullBoundary(k, t, i);
    hide Loop, FullTree, Outcomes, WellFormed, Reached, Mark, Resume;
  }

  lemma {:induction false} FullBoundary(k: Kernel, t: Tree, i: nat)
    requires UniqueIds(t.features) && i < |t.features|
    ensures var id := t.features[i].id; var full := FullTree(t, Outs(k, t));
            id in full.snapshots && full.snapshots[id] == SnapshotV2(LastCounter(Outs(k, t)[..i]), t.documentId)
  {
    OutcomeAt(k, t.documentId, Jobs(None, t.features), i);
    var ids := Ids(t.features);
    assert ids[i] == t.features[i].id;
    IndexOfDistinct(ids, i);
  }

  // ── Runs of edits ──────────────────────────────────────

  datatype Op =
    | AddOp(f: Feature)
    | InsertOp(index: int, f: Feature)
    | UpdateOp(id: string, name: string, v: ParamValue)
    | SuppressOp(id: string, on: bool)
    | ReplaceOp(from: string, to: string)
    | RemoveOp(id: string)
    | MoveOp(id: string, index: int)
    | ReplayOp
    | RefreshOp

  function IsDirty(t: Tree, i: nat): bool
    requires i < |t.features|
  {
    t.features[i].id in t.dirty && t.dirty[t.features[i].id]
  }

  /** The first dirty feature from `i` on; the length when there is none. */
  function FirstDirty(t: Tree, i: nat): (r: nat)
    requires i <= |t.features|
    ensures i <= r <= |t.features|
    ensures forall j :: i <= j < r ==> !IsDirty(t, j)
    ensures r < |t.features| ==> IsDirty(t, r)
    decreases |t.features| - i
  {
    if i == |t.features| || IsDirty(t, i) then i else FirstDirty(t, i + 1)
  }

  /** replayFrom at the first dirty feature; nothing to do when there is none. */
  function Refresh(k: Kernel, t: Tree): Tree {
    var i := FirstDirty(t, 0);
    if i == |t.features| then t else ReplayFrom(k, None, t, t.features[i].id).0
  }

  function Apply(k: Kernel, t: Tree, op: Op): Tree {
    match op
    case AddOp(f) => Add(t, f).0
    case InsertOp(i, f) => Insert(t, i, f).0
    case UpdateOp(id, name, v) => UpdateParameter(t, id, name, v)
    case SuppressOp(id, on) => Suppress(t, id, on)
    case ReplaceOp(a, b) => ReplaceReference(t, a, b)
    case RemoveOp(id) => Remove(t, id).0
    case MoveOp(id, i) => Move(t, id, i).0
    case ReplayOp => Replay(k, None, t).0
    case RefreshOp => Refresh(k, t)
  }

  /** What every edit keeps: the features before the first dirty one are settled. */
  ghost predicate Settling(k: Kernel, t: Tree) {
    WellFormed(t) && Clean(k, t, FirstDirty(t, 0))
  }

  /** Settled up to the first dirty feature, and the boundary there is fresh. */
  ghost predicate Sound(k: Kernel, t: Tree) {
    Settling(k, t) && Fresh(k, t, FirstDirty(t, 0))
  }

  /** `t'` keeps what `t` holds for a clean feature. */
  predicate Keeps(t: Tree, t': Tree, id: string) {
    && (id in t.cache ==> id in t'.cache && t'.cache[id] == t.cache[id])
    && (id in t.snapshots ==> id in t'.snapshots && t'.snapshots[id] == t.snapshots[id])
    && (id in t.dirty && !t.dirty[id] ==> id in t'.dirty && !t'.dirty[id])
  }

  lemma {:induction false} OutsTransfer(k: Kernel, t: Tree, t': Tree, i: nat)
    requires i <= |t.features| && i <= |t'.features|
    requires t'.features[..i] == t.features[..i] && t'.documentId == t.documentId
    ensures Outs(k, t')[..i] == Outs(k, t)[..i]
  {
    var jobs, jobs' := Jobs(None, t.features), Jobs(None, t'.features);
    OutcomesPrefix(k, t.documentId, jobs, i);
    OutcomesPrefix(k, t.documentId, jobs', i);
    assert jobs[..i] == jobs'[..i] by {
      forall j | 0 <= j < i ensures jobs[j] == jobs'[j] {
        assert t'.features[..i][j] == t.features[..i][j];
      }
    }
  }

  /** Settled features stay settled when only later features change. */
  lemma {:induction false} CleanTransfers(k: Kernel, t: Tree, t': Tree, i: nat)
    requires i <= |t.features| && i <= |t'.features| && Clean(k, t, i)
    requires t'.features[..i] == t.features[..i] && t'.documentId == t.documentId
    requires forall j :: 0 <= j < i ==> Keeps(t, t', t.features[j].id)
    ensures Clean(k, t', i) && Outs(k, t')[..i] == Outs(k, t)[..i]
  {
    OutsTransfer(k, t, t', i);
    var outs, outs' := Outs(k, t), Outs(k, t');
    hide Outs;
    forall j | 0 <= j < i ensures DoneAt(t', outs'[j], j) {
      assert DoneAt(t, outs[j], j);
      assert outs'[..i][j] == outs[..i][j];
      assert t'.features[..i][j] == t.features[..i][j];
    }
  }

  lemma {:induction false} FirstDirtyIs(t: Tree, p: nat)
    requires p <= |t.features|
    requires forall j :: 0 <= j < p ==> !IsDirty(t, j)
    requires p < |t.features| ==> IsDirty(t, p)
    ensures FirstDirty(t, 0) == p
  {
  }

  /** An edit whose first change is at `m` leaves the tree settled before `m` and before the first dirty feature. */
  lemma {:induction false} EditSettles(k: Kernel, t: Tree, t': Tree, m: nat)
    requires Settling(k, t) && WellFormed(t') && t'.documentId == t.documentId
    requires m <= |t.features| && m <= |t'.features| && t'.features[..m] == t.features[..m]
    requires forall j :: 0 <= j < m ==> Keeps(t, t', t.features[j].id)
    requires var p := if m < FirstDirty(t, 0) then m else FirstDirty(t, 0);
             p < |t'.features| ==> IsDirty(t', p)
    ensures var p := if m < FirstDirty(t, 0) then m else FirstDirty(t, 0);
            && FirstDirty(t', 0) == p && Settling(k, t')
            && Outs(k, t')[..p] == Outs(k, t)[..p]
  {
    var p := if m < FirstDirty(t, 0) then m else FirstDirty(t, 0);
    assert t'.features[..p] == t.features[..p] by {
      assert t'.features[..m][..p] == t'.features[..p];
      assert t.features[..m][..p] == t.features[..p];
    }
    forall j | 0 <= j < p ensures !IsDirty(t', j) {
      assert t'.features[..p][j] == t.features[..p][j];
      assert Keeps(t, t', t.features[j].id);
    }
    FirstDirtyIs(t', p);
    assert Clean(k, t, p);
    CleanTransfers(k, t, t', p);
  }

  /** A settled feature's recorded boundary is fresh. */
  lemma {:induction false} CleanIsFresh(k: Kernel, t: Tree, p: nat)
    requires Sound(k, t) && p <= FirstDirty(t, 0)
    ensures Fresh(k, t, p)
  {
    if p < FirstDirty(t, 0) {
      assert DoneAt(t, Outs(k, t)[p], p);
      OutcomeAt(k, t.documentId, Jobs(None, t.features), p);
    }
  }

  lemma {:induction false} MarkKeeps(t: Tree, dirty: map<string, bool>, fs: seq<Feature>, m: nat)
    requires m <= |fs| && m <= |t.features| && fs[..m] == t.features[..m] && UniqueIds(fs)
    requires forall j :: 0 <= j < m ==> (t.features[j].id in t.dirty ==> t.features[j].id in dirty && dirty[t.features[j].id] == t.dirty[t.features[j].id])
    ensures var d := Mark(fs, dirty, m);
            && (forall j :: 0 <= j < m ==> t.features[j].id in t.dirty ==> t.features[j].id in d && d[t.features[j].id] == t.dirty[t.features[j].id])
            && (forall j :: m <= j < |fs| ==> fs[j].id in d && d[fs[j].id])
  {
    MarkSpec(fs, dirty, m);
    forall j | 0 <= j < m ensures t.features[j].id !in IdSet(fs[m..]) {
      assert fs[..m][j] == t.features[..m][j];
      assert forall f :: f in fs[m..] ==> f.id != fs[j].id;
    }
  }

  /** The tree with its features rewritten in place from `m` on. */
  function Rewritten(t: Tree, fs: seq<Feature>, m: nat): Tree
    requires m <= |fs|
  {
    t.(features := fs, dirty := Mark(fs, t.dirty, m))
  }

  lemma {:induction false} RewrittenKeeps(t: Tree, fs: seq<Feature>, m: nat)
    requires WellFormed(t) && m <= |fs| == |t.features| && fs[..m] == t.features[..m]
    requires forall j :: 0 <= j < |fs| ==> fs[j].id == t.features[j].id
    ensures var t' := Rewritten(t, fs, m);
            && WellFormed(t')
            && (forall j :: 0 <= j < m ==> Keeps(t, t', t.features[j].id))
            && (forall j :: 0 <= j < |fs| && (m <= j || IsDirty(t, j)) ==> IsDirty(t', j))
  {
    SameIds(t.features, fs);
    MarkWellFormed(t.(features := fs), m);
    MarkKeeps(t, t.dirty, fs, m);
  }

  lemma {:induction false} RewrittenSettles(k: Kernel, t: Tree, fs: seq<Feature>, m: nat)
    requires Settling(k, t) && m <= |fs| == |t.features| && fs[..m] == t.features[..m]
    requires forall j :: 0 <= j < |fs| ==> fs[j].id == t.features[j].id
    ensures var t' := Rewritten(t, fs, m);
            var p := if m < FirstDirty(t, 0) then m else FirstDirty(t, 0);
            && FirstDirty(t', 0) == p && Settling(k, t') && Outs(k, t')[..p] == Outs(k, t)[..p]
  {
    RewrittenKeeps(t, fs, m);
    hide Settling, Clean, Mark, Keeps, Outs, WellFormed, IsDirty;
    EditSettles(k, t, Rewritten(t, fs, m), m);
  }

  /** Rewriting features in place, dirty from the first change on, keeps the tree sound. */
  lemma {:induction false} RewrittenKeepsSound(k: Kernel, t: Tree, fs: seq<Feature>, m: nat)
    requires Sound(k, t) && m <= |fs| == |t.features| && fs[..m] == t.features[..m]
    requires forall j :: 0 <= j < |fs| ==> fs[j].id == t.features[j].id
    ensures Sound(k, Rewritten(t, fs, m))
  {
    RewrittenSettles(k, t, fs, m);
    var p := if m < FirstDirty(t, 0) then m else FirstDirty(t, 0);
    CleanIsFresh(k, t, p);
    hide Settling, Outs, Mark, FirstDirty;
  }

  lemma {:induction false} RetargetKeeps(f: Feature, from: string, to: string)
    requires !Names(f, from)
    ensures RetargetFeature(f, from, to) == f
  {
    forall p | p in f.params ensures RetargetValue(f.params[p], from, to) == f.params[p] {
      assert forall r :: r in RefsIn(f.params[p]) ==> r in RefsOf(f);
      match f.params[p]
      case ElemRefListV(rs) =>
        forall j | 0 <= j < |rs| ensures Retarget(rs[j], from, to) == rs[j] { assert rs[j] in RefsIn(f.params[p]); }
        assert RetargetValue(f.params[p], from, to).refs == rs;
      case _ =>
    }
    assert RetargetFeature(f, from, to).params == f.params;
  }

  lemma {:induction false} NoReplace(t: Tree, from: string, to: string)
    requires from == "" || to == ""
    ensures ReplaceReference(t, from, to) == t
  {
  }

  lemma {:induction false} ReplaceReferenceIs(t: Tree, from: string, to: string)
    requires from != "" && to != ""
    ensures var fs := ReplaceReference(t, from, to).features; var m := FirstNaming(t.features, from, 0);
            && m <= |fs| == |t.features| && fs[..m] == t.features[..m]
            && (forall j :: 0 <= j < |fs| ==> fs[j].id == t.features[j].id)
            && ReplaceReference(t, from, to) == Rewritten(t, fs, m)
  {
    var fs := ReplaceReference(t, from, to).features;
    var m := FirstNaming(t.features, from, 0);
    forall i | 0 <= i < m ensures fs[i] == t.features[i] { RetargetKeeps(t.features[i], from, to); }
  }

  lemma {:induction false} ReplaceReferenceSound(k: Kernel, t: Tree, from: string, to: string)
    requires Sound(k, t)
    ensures Sound(k, ReplaceReference(t, from, to))
  {
    if from != "" && to != "" {
      ReplaceReferenceIs(t, from, to);
      hide Sound, ReplaceReference, Rewritten;
      RewrittenKeepsSound(k, t, ReplaceReference(t, from, to).features, FirstNaming(t.features, from, 0));
    }
  }

  // ── Inserting ──────────────────────────────────────────

  lemma {:induction false} InsertedIds(fs: seq<Feature>, a: nat, f: Feature)
    requires UniqueIds(fs) && a <= |fs| && forall i :: 0 <= i < |fs| ==> fs[i].id != f.id
    ensures UniqueIds(InsertAt(fs, a, f)) && IdSet(InsertAt(fs, a, f)) == IdSet(fs) + {f.id}
  {
    var gs := InsertAt(fs, a, f);
    assert gs[a] == f;
    forall g | g in fs ensures g in gs {
      var i :| 0 <= i < |fs| && fs[i] == g;
      assert gs[if i < a then i else i + 1] == g;
    }
  }

  function Inserted(t: Tree, a: nat, f: Feature): Tree
    requires a <= |t.features|
  {
    var fs := InsertAt(t.features, a, f);
    t.(features := fs, dirty := Mark(fs, t.dirty, a))
  }

  lemma {:induction false} TailIds(fs: seq<Feature>, a: nat)
    requires a <= |fs|
    ensures IdSet(fs[a..]) <= IdSet(fs)
    ensures a < |fs| ==> fs[a].id in IdSet(fs[a..])
  {
    assert forall f :: f in fs[a..] ==> f in fs;
    assert a < |fs| ==> fs[a..][0] == fs[a];
  }

  lemma {:induction false} InsertedWellFormed(t: Tree, a: nat, f: Feature)
    requires WellFormed(t) && a <= |t.features| && forall i :: 0 <= i < |t.features| ==> t.features[i].id != f.id
    ensures WellFormed(Inserted(t, a, f)) && f.id !in t.snapshots && f.id !in t.cache
  {
    var fs := InsertAt(t.features, a, f);
    assert f.id !in IdSet(t.features);
    InsertedIds(t.features, a, f);
    hide UniqueIds, InsertAt;
    assert fs[a].id == f.id by { assert InsertAt(t.features, a, f)[a] == f by { InsertedAt(t.features, a, f); } }
    assert |fs| == |t.features| + 1 by { InsertedAt(t.features, a, f); }
    MarkSpec(fs, t.dirty, a);
    TailIds(fs, a);
    hide IdSet;
  }

  lemma {:induction false} InsertedAt(fs: seq<Feature>, a: nat, f: Feature)
    requires a <= |fs|
    ensures var gs := InsertAt(fs, a, f);
            && |gs| == |fs| + 1 && gs[a] == f && gs[..a] == fs[..a]
            && (forall i :: a <= i < |fs| ==> gs[i + 1] == fs[i])
  {
  }

  lemma {:induction false} InsertedKeeps(t: Tree, a: nat, f: Feature)
    requires WellFormed(t) && a <= |t.features| && forall i :: 0 <= i < |t.features| ==> t.features[i].id != f.id
    ensures var t' := Inserted(t, a, f);
            && |t'.features| == |t.features| + 1 && t'.features[..a] == t.features[..a] && t'.features[a] == f
            && (forall j :: 0 <= j < a ==> Keeps(t, t', t.features[j].id))
            && (forall j :: 0 <= j < a && IsDirty(t, j) ==> IsDirty(t', j))
            && IsDirty(t', a)
  {
    var fs := InsertAt(t.features, a, f);
    InsertedIds(t.features, a, f);
    InsertedAt(t.features, a, f);
    MarkKeeps(t, t.dirty, fs, a);
    assert forall j :: 0 <= j < a ==> fs[..a][j] == t.features[..a][j];
    hide IdSet, InsertAt, UniqueIds, Mark;
  }

  lemma {:induction false} InsertedSettles(k: Kernel, t: Tree, a: nat, f: Feature)
    requires Settling(k, t) && a <= |t.features| && forall i :: 0 <= i < |t.features| ==> t.features[i].id != f.id
    ensures var t' := Inserted(t, a, f);
            var p := if a < FirstDirty(t, 0) then a else FirstDirty(t, 0);
            && FirstDirty(t', 0) == p && Settling(k, t') && Outs(k, t')[..p] == Outs(k, t)[..p]
  {
    InsertedWellFormed(t, a, f);
    InsertedKeeps(t, a, f);
    var t' := Inserted(t, a, f);
    var p := if a < FirstDirty(t, 0) then a else FirstDirty(t, 0);
    assert p < a ==> t'.features[..a][p] == t.features[..a][p];
    hide Clean, Mark, Keeps, Outs, WellFormed, InsertAt, Inserted;
    EditSettles(k, t, t', a);
  }

  lemma {:induction false} InsertedSound(k: Kernel, t: Tree, a: nat, f: Feature)
    requires Sound(k, t) && a <= |t.features| && forall i :: 0 <= i < |t.features| ==> t.features[i].id != f.id
    ensures Sound(k, Inserted(t, a, f))
  {
    InsertedWellFormed(t, a, f);
    InsertedKeeps(t, a, f);
    InsertedSettles(k, t, a, f);
    var t' := Inserted(t, a, f);
    var p := if a < FirstDirty(t, 0) then a else FirstDirty(t, 0);
    CleanIsFresh(k, t, p);
    assert p < a ==> t'.features[..a][p] == t.features[..a][p];
    hide Clean, Mark, Keeps, Outs, WellFormed, InsertAt, Settling, FirstDirty;
  }

  lemma {:induction false} AddIsInsert(t: Tree, f: Feature)
    requires Find(t.features, f.id) < 0
    ensures Add(t, f).0 == Inserted(t, |t.features|, f)
  {
    var n := |t.features|;
    var fs := InsertAt(t.features, n, f);
    assert fs == t.features + [f];
    assert Mark(fs, t.dirty, n) == Mark(fs, t.dirty[fs[n].id := true], n + 1);
  }

  // ── Replaying ──────────────────────────────────────────

  lemma {:induction false} FullTreeOuts(k: Kernel, t: Tree)
    ensures Outs(k, FullTree(t, Outs(k, t))) == Outs(k, t)
  {
    var t' := FullTree(t, Outs(k, t));
    forall i | 0 <= i < |t.features| ensures SameContent(t.features[i], t'.features[i]) { }
    JobsOfContents(t.features, t'.features);
  }

  lemma {:induction false} SettledToTheEnd(k: Kernel, t: Tree)
    requires WellFormed(t) && Done(t, Outs(k, t), |t.features|) && DirtyFrom(t, |t.features|)
    ensures Sound(k, t) && FirstDirty(t, 0) == |t.features|
  {
    FirstDirtyIs(t, |t.features|);
  }

  /** After a full replay everything is settled. */
  lemma {:induction false} FullTreeSound(k: Kernel, t: Tree)
    requires WellFormed(t)
    ensures var t' := FullTree(t, Outs(k, t)); Sound(k, t') && FirstDirty(t', 0) == |t'.features| && Outs(k, t') == Outs(k, t)
  {
    var t' := FullTree(t, Outs(k, t));
    ReplayIsRecursion(k, None, t);
    FullTreeOuts(k, t);
    assert WellFormed(t') && Done(t', Outs(k, t), |t'.features|) && DirtyFrom(t', |t'.features|);
    hide Done, WellFormed, DirtyFrom, FullTree, Sound, FirstDirty;
    SettledToTheEnd(k, t');
  }

  lemma {:induction false} ReplaySound(k: Kernel, t: Tree)
    requires WellFormed(t)
    ensures Sound(k, Replay(k, None, t).0)
  {
    ReplayIsRecursion(k, None, t);
    FullTreeSound(k, t);
  }

  lemma {:induction false} CleanBefore(k: Kernel, t: Tree, i: nat)
    requires Settling(k, t) && i <= FirstDirty(t, 0)
    ensures Clean(k, t, i)
  {
  }

  /** On a sound tree with backward references, refreshing at the first dirty feature is full replay. */
  lemma {:induction false} RefreshIsReplay(k: Kernel, t: Tree)
    requires Sound(k, t) && RefsBackward(t.features) && FirstDirty(t, 0) < |t.features|
    ensures ReplayFrom(k, None, t, t.features[FirstDirty(t, 0)].id) == Replay(k, None, t)
    ensures Refresh(k, t) == Replay(k, None, t).0
  {
    var i := FirstDirty(t, 0);
    var id := t.features[i].id;
    FindAt(t.features, i);
    var start := StartIndex(t, id);
    assert start == i || start == 0;
    CleanBefore(k, t, start);
    BackwardHidesNothing(k, t, start);
    IncrementalIffFresh(k, t, id);
  }

  // ── Removing and moving: settled, but the boundary may be stale ──

  function Removed(t: Tree, i: nat): Tree
    requires i < |t.features|
  {
    var id := t.features[i].id;
    var fs := RemoveAt(t.features, i);
    t.(features := fs, cache := t.cache - {id}, snapshots := t.snapshots - {id}, dirty := Mark(fs, t.dirty - {id}, i))
  }

  lemma {:induction false} RemovedIds(fs: seq<Feature>, i: nat)
    requires UniqueIds(fs) && i < |fs|
    ensures UniqueIds(RemoveAt(fs, i)) && IdSet(RemoveAt(fs, i)) == IdSet(fs) - {fs[i].id}
  {
    var gs := RemoveAt(fs, i);
    forall id | id in IdSet(fs) - {fs[i].id} ensures id in IdSet(gs) {
      var j :| 0 <= j < |fs| && fs[j].id == id;
      assert gs[if j < i then j else j - 1] == fs[j];
    }
    forall g | g in gs ensures g in fs && g.id != fs[i].id {
      var j :| 0 <= j < |gs| && gs[j] == g;
      assert g == fs[if j < i then j else j + 1];
    }
  }

  lemma {:induction false} RemovedWellFormed(t: Tree, i: nat)
    requires WellFormed(t) && i < |t.features|
    ensures WellFormed(Removed(t, i))
  {
    var fs := RemoveAt(t.features, i);
    RemovedIds(t.features, i);
    MarkSpec(fs, t.dirty - {t.features[i].id}, i);
    TailIds(fs, i);
    hide IdSet, UniqueIds, RemoveAt;
  }

  lemma {:induction false} RemovedAt(fs: seq<Feature>, i: nat)
    requires i < |fs|
    ensures var gs := RemoveAt(fs, i);
            && |gs| == |fs| - 1 && gs[..i] == fs[..i] && (i < |gs| ==> gs[i] == fs[i + 1])
  {
  }

  lemma {:induction false} RemovedKeeps(t: Tree, i: nat)
    requires WellFormed(t) && i < |t.features|
    ensures var t' := Removed(t, i);
            && |t'.features| == |t.features| - 1 && t'.features[..i] == t.features[..i]
            && (i < |t'.features| ==> t'.features[i] == t.features[i + 1] && IsDirty(t', i))
            && (forall j :: 0 <= j < i ==> Keeps(t, t', t.features[j].id))
            && (forall j :: 0 <= j < i && IsDirty(t, j) ==> IsDirty(t', j))
  {
    var fs := RemoveAt(t.features, i);
    RemovedIds(t.features, i);
    RemovedAt(t.features, i);
    forall j | 0 <= j < i ensures t.features[j].id != t.features[i].id && fs[j] == t.features[j] {
      assert fs[..i][j] == t.features[..i][j];
    }
    RemovedEntries(t, fs, i);
  }

  lemma {:induction false} RemovedEntries(t: Tree, fs: seq<Feature>, i: nat)
    requires i < |t.features| && i <= |fs| && UniqueIds(fs) && fs[..i] == t.features[..i]
    requires forall j :: 0 <= j < i ==> t.features[j].id != t.features[i].id && fs[j] == t.features[j]
    ensures var id := t.features[i].id;
            var t' := Tree(fs, t.cache - {id}, Mark(fs, t.dirty - {id}, i), t.snapshots - {id}, t.rollbackIndex, t.counter, t.documentId);
            && (forall j :: 0 <= j < i ==> Keeps(t, t', t.features[j].id))
            && (forall j :: 0 <= j < i && IsDirty(t, j) ==> IsDirty(t', j))
            && (i < |fs| ==> IsDirty(t', i))
  {
    hide UniqueIds, Mark;
    MarkKeeps(t, t.dirty - {t.features[i].id}, fs, i);
  }

  lemma {:induction false} RemovedSettles(k: Kernel, t: Tree, i: nat)
    requires Settling(k, t) && i < |t.features|
    ensures var t' := Removed(t, i);
            var p := if i < FirstDirty(t, 0) then i else FirstDirty(t, 0);
            && FirstDirty(t', 0) == p && Settling(k, t') && Outs(k, t')[..p] == Outs(k, t)[..p]
  {
    var t' := Removed(t, i);
    var p := if i < FirstDirty(t, 0) then i else FirstDirty(t, 0);
    assert WellFormed(t);
    hide Clean, Mark, Keeps, Outs, WellFormed, Removed, Settling, FirstDirty;
    RemovedWellFormed(t, i);
    RemovedKeeps(t, i);
    assert p < i ==> t'.features[..i][p] == t.features[..i][p];
    DirtyAt(t);
    RemovedDocument(t, i);
    EditSettles(k, t, t', i);
  }

  lemma {:induction false} DirtyAt(t: Tree)
    ensures FirstDirty(t, 0) < |t.features| ==> IsDirty(t, FirstDirty(t, 0))
  {
  }

  lemma {:induction false} RemovedDocument(t: Tree, i: nat)
    requires i < |t.features|
    ensures Removed(t, i).documentId == t.documentId
  {
  }

  /** Boundaries follow one another. */
  lemma {:induction false} Boundary(k: Kernel, t: Tree, i: nat)
    requires i < |t.features|
    ensures Outs(k, t)[i].before == LastCounter(Outs(k, t)[..i])
    ensures i > 0 ==> Outs(k, t)[i].before == Outs(k, t)[i - 1].after
  {
    OutcomeAt(k, t.documentId, Jobs(None, t.features), i);
  }

  /** Where a settled tree is cut by an edit at `m`. */
  function CutAt(t: Tree, m: nat): (p: nat)
    ensures p <= m && p <= |t.features|
  {
    if m < FirstDirty(t, 0) then m else FirstDirty(t, 0)
  }

  /** replayFrom(id), the feature standing at `p`, starts over or restores what is reached after the `p` settled ones. */
  ghost predicate RightBoundary(k: Kernel, t: Tree, id: string, p: nat)
    requires p <= |t.features|
  {
    id == "" || p == 0 || (id in t.snapshots ==> t.snapshots[id] == SnapshotV2(LastCounter(Outs(k, t)[..p]), t.documentId))
  }

  /** What replayFrom does where a settled tree `t` was cut at `p`, by the boundary `t` held. */
  lemma {:induction false} CutThenReplayFrom(k: Kernel, t: Tree, t': Tree, p: nat, id: string)
    requires Settling(k, t') && FirstDirty(t', 0) == p < |t'.features| && RefsBackward(t'.features) && id == t'.features[p].id
    requires p <= |t.features| && Outs(k, t')[..p] == Outs(k, t)[..p] && t'.documentId == t.documentId
    requires id in t'.snapshots <==> id in t.snapshots
    requires id in t.snapshots ==> t'.snapshots[id] == t.snapshots[id]
    ensures ReplayFrom(k, None, t', id) == Replay(k, None, t') <==> RightBoundary(k, t, id, p)
  {
    FindAt(t'.features, p);
    var i := StartIndex(t', id);
    assert i == if id == "" then 0 else p;
    CleanBefore(k, t', i);
    BackwardHidesNothing(k, t', i);
    IncrementalIffFresh(k, t', id);
    hide ReplayFrom, Replay, Settling, RefsBackward, NothingStale, Outs, Clean;
  }

  lemma {:induction false} RemovedBoundary(k: Kernel, t: Tree, i: nat)
    requires WellFormed(t) && i + 1 < |t.features| && Clean(k, t, i + 2)
    ensures var id := t.features[i + 1].id; var t' := Removed(t, i);
            id in t'.snapshots && t'.snapshots[id] == SnapshotV2(Outs(k, t)[i].after, t'.documentId)
  {
    Boundary(k, t, i + 1);
    assert DoneAt(t, Outs(k, t)[i + 1], i + 1);
    assert t.features[i + 1].id != t.features[i].id;
  }

  lemma {:induction false} RemovedFound(t: Tree, i: nat, p: nat)
    requires WellFormed(t) && i < |t.features| && p <= i && p + 1 < |t.features|
    ensures var at := if p < i then p else i + 1; var id := t.features[at].id;
            && p < |Removed(t, i).features| && Removed(t, i).features[p].id == id
            && Removed(t, i).documentId == t.documentId
            && (id in Removed(t, i).snapshots <==> id in t.snapshots)
            && (id in t.snapshots ==> Removed(t, i).snapshots[id] == t.snapshots[id])
  {
    RemovedAt(t.features, i);
    if p < i { assert Removed(t, i).features[..i][p] == t.features[..i][p]; }
    hide Mark;
  }

  /**
   Removing any feature and replaying from the first dirty one is full replay exactly when that one stands
   first, or has no boundary, or has the boundary reached after the settled features before it.
   */
  lemma {:induction false} RemoveThenReplayFrom(k: Kernel, t: Tree, i: nat)
    requires Settling(k, t) && i < |t.features| && CutAt(t, i) + 1 < |t.features|
    requires RefsBackward(Removed(t, i).features)
    ensures Remove(t, t.features[i].id) == (Removed(t, i), true)
    ensures var p := CutAt(t, i); var id := t.features[if p < i then p else i + 1].id;
            && FirstDirty(Removed(t, i), 0) == p < |Removed(t, i).features| && Removed(t, i).features[p].id == id
            && (ReplayFrom(k, None, Removed(t, i), id) == Replay(k, None, Removed(t, i)) <==> RightBoundary(k, t, id, p))
  {
    var p := CutAt(t, i);
    var id := t.features[if p < i then p else i + 1].id;
    FindAt(t.features, i);
    RemovedSettles(k, t, i);
    RemovedFound(t, i, p);
    hide Outs, Clean, RefsBackward, WellFormed, Mark, Settling, FirstDirty, ReplayFrom, Replay, RightBoundary, Removed;
    CutThenReplayFrom(k, t, Removed(t, i), p, id);
  }

  /** A settled feature's boundary is right at `p` exactly when it is the one reached there. */
  lemma {:induction false} SettledBoundary(k: Kernel, t: Tree, at: nat, p: nat)
    requires Settling(k, t) && at < FirstDirty(t, 0) && p < FirstDirty(t, 0)
    ensures RightBoundary(k, t, t.features[at].id, p)
            <==> t.features[at].id == "" || p == 0 || Outs(k, t)[at].before == Outs(k, t)[p].before
  {
    CleanBefore(k, t, at + 1);
    assert DoneAt(t, Outs(k, t)[at], at);
    Boundary(k, t, p);
    hide Outs, Clean, WellFormed, Settling, FirstDirty;
  }

  /** In a settled part of the tree: exactly when the removed feature was the first or had consumed no identity. */
  lemma {:induction false} RemoveSettledThenReplayFrom(k: Kernel, t: Tree, i: nat)
    requires Settling(k, t) && i + 1 < FirstDirty(t, 0)
    requires RefsBackward(Removed(t, i).features)
    ensures ReplayFrom(k, None, Removed(t, i), t.features[i + 1].id) == Replay(k, None, Removed(t, i))
            <==> t.features[i + 1].id == "" || i == 0 || Outs(k, t)[i].after == Outs(k, t)[i].before
  {
    hide Outs, RefsBackward, ReplayFrom, Replay, Settling, Removed, FirstDirty, RightBoundary;
    assert CutAt(t, i) == i;
    RemoveThenReplayFrom(k, t, i);
    SettledBoundary(k, t, i + 1, i);
    Boundary(k, t, i + 1);
  }

  function MovedFeatures(fs: seq<Feature>, from: nat, to: nat): seq<Feature>
    requires from < |fs| && to < |fs|
  {
    InsertAt(RemoveAt(fs, from), to, fs[from])
  }

  function Moved(t: Tree, from: nat, to: nat): Tree
    requires from < |t.features| && to < |t.features|
  {
    Rewritten(t, MovedFeatures(t.features, from, to), if from < to then from else to)
  }

  lemma {:induction false} MovedIds(fs: seq<Feature>, from: nat, to: nat)
    requires UniqueIds(fs) && from < |fs| && to < |fs|
    ensures UniqueIds(MovedFeatures(fs, from, to)) && IdSet(MovedFeatures(fs, from, to)) == IdSet(fs)
  {
    RemovedIds(fs, from);
    var gs := RemoveAt(fs, from);
    forall i | 0 <= i < |gs| ensures gs[i].id != fs[from].id {
      assert gs[i] == fs[if i < from then i else i + 1];
    }
    InsertedIds(gs, to, fs[from]);
    assert fs[from] in fs;
  }

  lemma {:induction false} MovedAt(fs: seq<Feature>, from: nat, to: nat)
    requires from < |fs| && to < |fs| && from != to
    ensures var gs := MovedFeatures(fs, from, to); var m := if from < to then from else to;
            && |gs| == |fs| && gs[..m] == fs[..m] && gs[m] == fs[if from < to then from + 1 else from]
  {
  }

  lemma {:induction false} MovedWellFormed(t: Tree, from: nat, to: nat)
    requires WellFormed(t) && from < |t.features| && to < |t.features| && from != to
    ensures WellFormed(Moved(t, from, to))
  {
    var fs := MovedFeatures(t.features, from, to);
    var m := if from < to then from else to;
    MovedIds(t.features, from, to);
    MovedAt(t.features, from, to);
    hide MovedFeatures, UniqueIds, IdSet;
    MarkWellFormed(t.(features := fs), m);
  }

  lemma {:induction false} MovedKeeps(t: Tree, from: nat, to: nat)
    requires WellFormed(t) && from < |t.features| && to < |t.features| && from != to
    ensures var t' := Moved(t, from, to); var m := if from < to then from else to;
            && IsDirty(t', m)
            && (forall j :: 0 <= j < m ==> Keeps(t, t', t.features[j].id))
            && (forall j :: 0 <= j < m && IsDirty(t, j) ==> IsDirty(t', j))
  {
    var fs := MovedFeatures(t.features, from, to);
    var m := if from < to then from else to;
    MovedIds(t.features, from, to);
    MovedAt(t.features, from, to);
    forall j | 0 <= j < m ensures fs[j] == t.features[j] { assert fs[..m][j] == t.features[..m][j]; }
    hide MovedFeatures, UniqueIds, IdSet, WellFormed, Mark;
    MarkKeeps(t, t.dirty, fs, m);
  }

  lemma {:induction false} MovedSettles(k: Kernel, t: Tree, from: nat, to: nat)
    requires Settling(k, t) && from < |t.features| && to < |t.features| && from != to
    ensures var t' := Moved(t, from, to); var m := if from < to then from else to;
            var p := if m < FirstDirty(t, 0) then m else FirstDirty(t, 0);
            && FirstDirty(t', 0) == p && Settling(k, t') && Outs(k, t')[..p] == Outs(k, t)[..p]
  {
    var t' := Moved(t, from, to);
    var m := if from < to then from else to;
    var p := if m < FirstDirty(t, 0) then m else FirstDirty(t, 0);
    MovedAt(t.features, from, to);
    MovedWellFormed(t, from, to);
    MovedKeeps(t, from, to);
    assert p < m ==> t'.features[..m][p] == t.features[..m][p];
    hide Clean, Mark, Keeps, Outs, WellFormed, MovedFeatures;
    EditSettles(k, t, t', m);
  }

  /** The same for a move: the feature now standing at the first dirty place keeps the boundary it had. */
  lemma {:induction false} MoveThenReplayFrom(k: Kernel, t: Tree, from: nat, to: nat)
    requires Settling(k, t) && from < |t.features| && to < |t.features| && from != to
    requires RefsBackward(Moved(t, from, to).features)
    ensures Move(t, t.features[from].id, to) == (Moved(t, from, to), true)
    ensures var m := if from < to then from else to; var p := CutAt(t, m);
            var id := t.features[if p < m then p else if from < to then from + 1 else from].id;
            && FirstDirty(Moved(t, from, to), 0) == p < |Moved(t, from, to).features| && Moved(t, from, to).features[p].id == id
            && (ReplayFrom(k, None, Moved(t, from, to), id) == Replay(k, None, Moved(t, from, to)) <==> RightBoundary(k, t, id, p))
  {
    var m := if from < to then from else to;
    var p := CutAt(t, m);
    var id := t.features[if p < m then p else if from < to then from + 1 else from].id;
    MovedIs(t, from, to);
    hide Outs, Clean, RefsBackward, WellFormed, Mark, MovedFeatures, Settling, FirstDirty, ReplayFrom, Replay, RightBoundary, Move;
    MovedSettles(k, t, from, to);
    MovedFound(t, from, to, p);
    CutThenReplayFrom(k, t, Moved(t, from, to), p, id);
  }

  lemma {:induction false} MovedIs(t: Tree, from: nat, to: nat)
    requires UniqueIds(t.features) && from < |t.features| && to < |t.features| && from != to
    ensures Move(t, t.features[from].id, to) == (Moved(t, from, to), true)
    ensures Moved(t, from, to).snapshots == t.snapshots && Moved(t, from, to).documentId == t.documentId
  {
    FindAt(t.features, from);
    hide Mark, InsertAt, RemoveAt, Find;
  }

  lemma {:induction false} MovedFound(t: Tree, from: nat, to: nat, p: nat)
    requires from < |t.features| && to < |t.features| && from != to
    requires p <= if from < to then from else to
    ensures var m := if from < to then from else to;
            && p < |Moved(t, from, to).features|
            && Moved(t, from, to).features[p].id == t.features[if p < m then p else if from < to then from + 1 else from].id
  {
    MovedAt(t.features, from, to);
    var m := if from < to then from else to;
    if p < m { assert Moved(t, from, to).features[..m][p] == t.features[..m][p]; }
    hide Mark, MovedFeatures;
  }

  /** Among settled features: the boundary recorded for the feature now at the smaller place must be the one reached there. */
  lemma {:induction false} MoveSettledThenReplayFrom(k: Kernel, t: Tree, from: nat, to: nat)
    requires Settling(k, t) && from < FirstDirty(t, 0) && to < FirstDirty(t, 0) && from != to
    requires RefsBackward(Moved(t, from, to).features)
    ensures var m := if from < to then from else to; var at := if from < to then from + 1 else from;
            ReplayFrom(k, None, Moved(t, from, to), t.features[at].id) == Replay(k, None, Moved(t, from, to))
            <==> t.features[at].id == "" || m == 0
                 || (if from < to then Outs(k, t)[from].after else Outs(k, t)[from].before) == Outs(k, t)[m].before
  {
    var m := if from < to then from else to;
    var at := if from < to then from + 1 else from;
    hide Outs, RefsBackward, ReplayFrom, Replay, Settling, Moved, FirstDirty, RightBoundary;
    assert CutAt(t, m) == m;
    MoveThenReplayFrom(k, t, from, to);
    SettledBoundary(k, t, at, m);
    if from < to { Boundary(k, t, at); }
  }

  // ── Every run ──────────────────────────────────────────

  ghost predicate Structural(op: Op) {
    op.RemoveOp? || op.MoveOp?
  }

  /** Every operation but removal and move keeps the tree sound. */
  lemma {:induction false} ApplySound(k: Kernel, t: Tree, op: Op)
    requires Sound(k, t) && !Structural(op)
    requires op.RefreshOp? ==> RefsBackward(t.features)
    ensures Sound(k, Apply(k, t, op))
  {
    hide Sound;
    match op
    case AddOp(f) =>
      if Find(t.features, f.id) < 0 { AddIsInsert(t, f); InsertedSound(k, t, |t.features|, f); }
    case InsertOp(i, f) =>
      if Find(t.features, f.id) < 0 { InsertedSound(k, t, Clamp(0, i, |t.features|), f); }
    case UpdateOp(id, name, v) =>
      var i := Find(t.features, id);
      if 0 <= i {
        var f := t.features[i].(params := t.features[i].params[name := v]);
        RewrittenKeepsSound(k, t, t.features[i := f], i);
      }
    case SuppressOp(id, on) =>
      var i := Find(t.features, id);
      if 0 <= i { RewrittenKeepsSound(k, t, t.features[i := t.features[i].(suppressed := on)], i); }
    case ReplaceOp(a, b) => ReplaceReferenceSound(k, t, a, b);
    case ReplayOp => SoundIsWellFormed(k, t); ReplaySound(k, t);
    case RefreshOp =>
      if FirstDirty(t, 0) < |t.features| { SoundIsWellFormed(k, t); RefreshIsReplay(k, t); ReplaySound(k, t); }
  }

  lemma {:induction false} SoundIsWellFormed(k: Kernel, t: Tree)
    requires Sound(k, t)
    ensures WellFormed(t)
  {
  }

  function Empty(doc: Word64): Tree {
    Tree([], map[], map[], map[], -1, 0, doc)
  }

  lemma {:induction false} EmptySound(k: Kernel, doc: Word64)
    ensures Sound(k, Empty(doc))
  {
  }

  function After(k: Kernel, t: Tree, ops: seq<Op>): Tree {
    if ops == [] then t else Apply(k, After(k, t, ops[..|ops| - 1]), ops[|ops| - 1])
  }

  /** The run neither removes nor moves, and refreshes only while references point backwards. */
  ghost predicate Admissible(k: Kernel, t: Tree, ops: seq<Op>) {
    forall i :: 0 <= i < |ops| ==>
      !Structural(ops[i]) && (ops[i].RefreshOp? ==> RefsBackward(After(k, t, ops[..i]).features))
  }

  lemma {:induction false} RunSound(k: Kernel, t: Tree, ops: seq<Op>)
    requires Sound(k, t) && Admissible(k, t, ops)
    ensures Sound(k, After(k, t, ops))
  {
    if ops != [] {
      var n := |ops| - 1;
      forall i | 0 <= i < n ensures ops[..n][i] == ops[i] && ops[..n][..i] == ops[..i] { }
      RunSound(k, t, ops[..n]);
      ApplySound(k, After(k, t, ops[..n]), ops[n]);
    }
  }

  /**
   After any admissible run from the empty tree, replaying from the first dirty feature leaves the same
   tree, and returns the same shape, as replaying everything: caches, statuses, boundaries, final counter.
   */
  lemma {:induction false} IncrementalEqualsFull(k: Kernel, doc: Word64, ops: seq<Op>)
    requires Admissible(k, Empty(doc), ops)
    requires var t := After(k, Empty(doc), ops); RefsBackward(t.features) && FirstDirty(t, 0) < |t.features|
    ensures var t := After(k, Empty(doc), ops);
            ReplayFrom(k, None, t, t.features[FirstDirty(t, 0)].id) == Replay(k, None, t)
  {
    EmptySound(k, doc);
    RunSound(k, Empty(doc), ops);
    RefreshIsReplay(k, After(k, Empty(doc), ops));
  }
}
