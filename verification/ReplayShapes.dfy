/**
 What a replayed tree shows: history does not matter, prefixes are stable, and every way of
 asking for a shape answers with the replay of the corresponding prefix.
 */
module ReplayShapes {
  import opened Wrappers
  import opened FeatureModel
  import opened TagAllocation
  import opened ReplaySpec
  import opened TreeState
  import opened ReplayTheory

  /** Equal in everything but the message left on a suppressed feature. */
  predicate SameResult(f: Feature, g: Feature) {
    && SameContent(f, g)
    && f.status == g.status
    && (!f.suppressed ==> f == g)
  }

  lemma {:induction false} StampsAgree(k: Kernel, doc: Word64, fs: seq<Feature>, f: Feature, g: Feature, i: nat)
    requires i < |fs| && f == fs[i] && SameContent(f, g)
    ensures var o := Outcomes(k, doc, Jobs(None, fs))[i]; SameResult(Stamp(f, o), Stamp(g, o))
  {
    var jobs := Jobs(None, fs);
    OutcomeAt(k, doc, jobs, i);
    assert jobs[i] == Prepare(None, f);
    assert Cleared(f).suppressed == Cleared(g).suppressed && Cleared(f).params == Cleared(g).params;
    assert Cleared(f).id == Cleared(g).id && Cleared(f).kind == Cleared(g).kind;
  }

  lemma {:induction false} SameContentsIds(fs: seq<Feature>, gs: seq<Feature>)
    requires SameContents(fs, gs)
    ensures Ids(fs) == Ids(gs)
  {
    forall i | 0 <= i < |fs| ensures fs[i].id == gs[i].id {
      assert SameContent(fs[i], gs[i]);
      assert Cleared(fs[i]).id == Cleared(gs[i]).id;
    }
  }

  /** Two trees with the same content and document replay alike, whatever else they hold. */
  lemma {:induction false} ReplayForgetsHistory(k: Kernel, t: Tree, u: Tree)
    requires WellFormed(t) && WellFormed(u)
    requires SameContents(t.features, u.features) && t.documentId == u.documentId
    ensures var (t', s) := Replay(k, None, t); var (u', s') := Replay(k, None, u);
            && s == s'
            && t'.cache == u'.cache && t'.snapshots == u'.snapshots && t'.dirty == u'.dirty && t'.counter == u'.counter
            && |t'.features| == |u'.features|
            && forall i :: 0 <= i < |t'.features| ==> SameResult(t'.features[i], u'.features[i])
  {
    hide *;
    ReplayIsRecursion(k, None, t);
    ReplayIsRecursion(k, None, u);
    JobsOfContents(t.features, u.features);
    FullTreesAgree(k, t, u);
  }

  lemma {:induction false} FullTreesAgree(k: Kernel, t: Tree, u: Tree)
    requires SameContents(t.features, u.features) && t.documentId == u.documentId
    ensures var outs := Outcomes(k, t.documentId, Jobs(None, t.features));
            |outs| == |t.features| == |u.features| && var t', u' := FullTree(t, outs), FullTree(u, outs);
            && t'.cache == u'.cache && t'.snapshots == u'.snapshots && t'.dirty == u'.dirty && t'.counter == u'.counter
            && |t'.features| == |u'.features|
            && forall i :: 0 <= i < |t'.features| ==> SameResult(t'.features[i], u'.features[i])
  {
    SameContentsIds(t.features, u.features);
    var outs := Outcomes(k, t.documentId, Jobs(None, t.features));
    assert |t.features| == |u.features|;
    forall i | 0 <= i < |t.features|
      ensures SameResult(Stamp(t.features[i], outs[i]), Stamp(u.features[i], outs[i]))
    {
      assert SameContent(t.features[i], u.features[i]);
      StampsAgree(k, t.documentId, t.features, t.features[i], u.features[i], i);
    }
    hide SameContents, SameResult, Ids, ById, Outcomes, Jobs, Stamp, Shapes, Boundaries, AllClean, LastCounter;
  }

  lemma {:induction false} FullCache(t: Tree, outs: seq<Outcome>, i: nat)
    requires UniqueIds(t.features) && |outs| == |t.features| && i < |outs|
    ensures Cached(FullTree(t, outs).cache, t.features[i].id) == outs[i].shape
    ensures FullTree(t, outs).features[i].id == t.features[i].id
  {
    assert Ids(t.features)[i] == t.features[i].id;
    IndexOfDistinct(Ids(t.features), i);
  }

  /** Searching back for a non-null cached shape finds the shape the recursion carries. */
  lemma {:induction false} LastCachedIsLast(k: Kernel, t: Tree, jobs: seq<Job>, outs: seq<Outcome>, i: nat)
    requires UniqueIds(t.features) && |jobs| == |t.features| && outs == Outcomes(k, t.documentId, jobs) && i <= |outs|
    ensures LastCached(FullTree(t, outs), i) == LastShape(outs[..i])
  {
    if i > 0 {
      FullCache(t, outs, i - 1);
      LastCachedIsLast(k, t, jobs, outs, i - 1);
      OutcomeAt(k, t.documentId, jobs, i - 1);
      assert outs[..i][i - 1] == outs[i - 1];
    }
  }

  /**
   Replaying only the first `i` features gives exactly what the full replay holds for them, and its
   result is the shape found by looking back from position `i`.
   */
  lemma {:induction false} PrefixReplay(k: Kernel, tr: Transformer, t: Tree, u: Tree, i: nat)
    requires WellFormed(t) && WellFormed(u) && t.documentId == u.documentId
    requires i <= |t.features| && u.features == t.features[..i]
    ensures var (t', s) := Replay(k, tr, t); var (u', s') := Replay(k, tr, u);
            && |t'.features| == |t.features| && |u'.features| == i
            && u'.features == t'.features[..i]
            && (forall j :: 0 <= j < i ==> Cached(t'.cache, t.features[j].id) == Cached(u'.cache, t.features[j].id))
            && s' == LastCached(t', i)
            && (i > 0 ==> s' == Cached(t'.cache, t.features[i - 1].id))
  {
    var jobs := Jobs(tr, t.features);
    var outs := Outcomes(k, t.documentId, jobs);
    assert UniqueIds(t.features) && UniqueIds(u.features);
    assert Jobs(tr, u.features) == jobs[..i];
    hide *;
    ReplayIsRecursion(k, tr, t);
    ReplayIsRecursion(k, tr, u);
    OutcomesPrefix(k, t.documentId, jobs, i);
    LastCachedIsLast(k, t, jobs, outs, i);
    PrefixTree(t, u, outs, i);
  }

  lemma {:induction false} FullFeatures(t: Tree, outs: seq<Outcome>)
    requires |outs| == |t.features|
    ensures |FullTree(t, outs).features| == |t.features|
    ensures forall i :: 0 <= i < |t.features| ==> FullTree(t, outs).features[i] == Stamp(t.features[i], outs[i])
  {
    hide ById;
  }

  lemma {:induction false} PrefixTree(t: Tree, u: Tree, outs: seq<Outcome>, i: nat)
    requires UniqueIds(t.features) && UniqueIds(u.features) && |outs| == |t.features|
    requires i <= |t.features| && u.features == t.features[..i]
    ensures var t', u' := FullTree(t, outs), FullTree(u, outs[..i]);
            && |t'.features| == |t.features| && |u'.features| == i
            && u'.features == t'.features[..i]
            && (forall j :: 0 <= j < i ==> Cached(t'.cache, t.features[j].id) == Cached(u'.cache, t.features[j].id))
            && (i > 0 ==> LastShape(outs[..i]) == Cached(t'.cache, t.features[i - 1].id))
  {
    hide FullTree, UniqueIds;
    FullFeatures(t, outs);
    FullFeatures(u, outs[..i]);
    forall j | 0 <= j < i
      ensures Cached(FullTree(t, outs).cache, t.features[j].id) == Cached(FullTree(u, outs[..i]).cache, t.features[j].id)
    {
      FullCache(t, outs, j);
      FullCache(u, outs[..i], j);
      assert u.features[j] == t.features[j];
    }
    if i > 0 { FullCache(t, outs, i - 1); }
  }

  /** getFinalShape, after a replay, is the shape the replay returned. */
  lemma {:induction false} FinalShapeIsResult(k: Kernel, tr: Transformer, t: Tree)
    requires WellFormed(t)
    ensures FinalShape(Replay(k, tr, t).0) == Replay(k, tr, t).1
  {
    assert t.features[..|t.features|] == t.features;
    PrefixReplay(k, tr, t, t, |t.features|);
  }

  /** rollbackTo, after a replay, is the replay of the features before the one named. */
  lemma {:induction false} RollbackToIsPrefix(k: Kernel, tr: Transformer, t: Tree, u: Tree, i: nat)
    requires WellFormed(t) && WellFormed(u) && t.documentId == u.documentId
    requires i < |t.features| && u.features == t.features[..i]
    ensures RollbackTo(Replay(k, tr, t).0, t.features[i].id) == Replay(k, tr, u).1
  {
    PrefixReplay(k, tr, t, u, i);
    ReplayIsRecursion(k, tr, t);
    var outs := Outcomes(k, t.documentId, Jobs(tr, t.features));
    forall j | 0 <= j < |t.features| ensures FullTree(t, outs).features[j].id == t.features[j].id { FullCache(t, outs, j); }
    FindAt(FullTree(t, outs).features, i);
  }

  /** replayToRollback is the replay of the features up to and including the marker, or of all without one. */
  lemma {:induction false} RollbackIsPrefix(k: Kernel, tr: Transformer, t: Tree, u: Tree)
    requires WellFormed(t) && WellFormed(u) && t.documentId == u.documentId
    requires var n := |t.features|; var r := t.rollbackIndex;
             u.features == if 0 <= r < n then t.features[..r + 1] else t.features
    ensures ReplayToRollback(k, tr, t).1 == Replay(k, tr, u).1
  {
    var n, r := |t.features|, t.rollbackIndex;
    ReplayKeepsIds(k, tr, t);
    hide WellFormed, Replay, LastCached, Cached;
    if 0 <= r < n {
      ShapeAtPrefix(k, tr, t, u, r);
    } else {
      ReplayKeepsContent(k, tr, t, u);
    }
  }

  lemma {:induction false} ShapeAtPrefix(k: Kernel, tr: Transformer, t: Tree, u: Tree, r: nat)
    requires WellFormed(t) && WellFormed(u) && t.documentId == u.documentId
    requires r < |t.features| && u.features == t.features[..r + 1]
    ensures Cached(Replay(k, tr, t).0.cache, t.features[r].id) == Replay(k, tr, u).1
  {
    hide WellFormed, Replay, LastCached, Cached;
    PrefixReplay(k, tr, t, u, r + 1);
  }

  lemma {:induction false} ReplayKeepsIds(k: Kernel, tr: Transformer, t: Tree)
    requires WellFormed(t)
    ensures var t' := Replay(k, tr, t).0;
            && t'.rollbackIndex == t.rollbackIndex && |t'.features| == |t.features|
            && forall i :: 0 <= i < |t.features| ==> t'.features[i].id == t.features[i].id
  {
    hide WellFormed, Replay;
    ReplayIsRecursion(k, tr, t);
    FullFeatures(t, Outcomes(k, t.documentId, Jobs(tr, t.features)));
    hide FullTree;
  }

  lemma {:induction false} ReplayKeepsContent(k: Kernel, tr: Transformer, t: Tree, u: Tree)
    requires WellFormed(t) && WellFormed(u) && t.documentId == u.documentId && u.features == t.features
    ensures Replay(k, tr, t).1 == Replay(k, tr, u).1
  {
    ReplayIsRecursion(k, tr, t);
    ReplayIsRecursion(k, tr, u);
  }
}
