/**
 Concrete trees on which incremental replay returns a different shape from full replay:
 after a removal, and with a reference that points forward.
 */
module ReplayWitnesses {
  import opened Wrappers
  import opened FeatureModel
  import opened TagAllocation
  import opened ReplaySpec
  import opened TreeState
  import opened ReplayTheory
  import opened IncrementalReplay
  import opened ReplayShapes

  function Next(c: Counter): Counter {
    if c == INT64_MAX then c else c + 1
  }

  /** Every feature succeeds, consumes one identity, and its geometry carries it. */
  function Numbering(): Kernel {
    Kernel((x: ExecInput) => ExecOutput(true, Body(Next(x.counter)), "", OK, "", Next(x.counter)), (s, n) => None)
  }

  function Plain(id: string): Feature {
    Feature(id, "MakeFace", map[], false, NotExecuted, "")
  }

  function Three(): Tree {
    var fs := [Plain("a"), Plain("b"), Plain("c")];
    Tree(fs, map[], map["a" := true, "b" := true, "c" := true], map[], -1, 0, 0)
  }

  lemma {:induction false} NumberedAt(jobs: seq<Job>, i: nat)
    requires i < |jobs| && jobs[i].Run? && !jobs[i].feature.suppressed
    ensures var outs := Outcomes(Numbering(), 0, jobs); var c := LastCounter(outs[..i]);
            outs[i] == Outcome(c, Body(Next(c)), OK, Some(""), Next(c))
  {
    OutcomeAt(Numbering(), 0, jobs, i);
  }

  lemma {:induction false} Numbered(fs: seq<Feature>)
    requires 2 <= |fs| <= 3 && forall i :: 0 <= i < |fs| ==> !fs[i].suppressed
    ensures var outs := Outcomes(Numbering(), 0, Jobs(None, fs));
            && (forall i :: 0 <= i < |fs| ==> outs[i] == Outcome(i, Body(i + 1), OK, Some(""), i + 1))
            && LastShape(outs) == Body(|fs|)
  {
    var jobs := Jobs(None, fs);
    var outs := Outcomes(Numbering(), 0, jobs);
    NumberedAt(jobs, 0);
    NumberedAt(jobs, 1);
    assert outs[..1][0] == outs[0];
    if |fs| == 3 {
      NumberedAt(jobs, 2);
      assert outs[..2][1] == outs[1];
    }
  }

  /** The loop at its last feature returns the next identity. */
  lemma {:induction false} LastStep(t: Tree, current: NamedShape)
    requires |t.features| > 0
    requires var f := t.features[|t.features| - 1]; !f.suppressed && f.id in t.dirty && t.dirty[f.id]
    ensures Loop(Numbering(), None, t, current, |t.features| - 1).1 == Body(Next(t.counter))
  {
    var n := |t.features|;
    var (t', c) := Step(Numbering(), None, t, current, n - 1);
    assert Loop(Numbering(), None, t', c, n) == (t', c);
  }

  lemma {:induction false} ThreeReplayed()
    ensures var t := Replay(Numbering(), None, Three()).0;
            && Sound(Numbering(), t) && FirstDirty(t, 0) == 3 == |t.features|
            && t.features[0].id == "a" && t.features[1].id == "b" && t.features[2].id == "c"
            && (forall i :: 0 <= i < 3 ==> !t.features[i].suppressed)
            && t.documentId == 0 && Outs(Numbering(), t)[1].after == 2
  {
    var k := Numbering();
    var t := Three();
    assert WellFormed(t);
    Numbered(t.features);
    ReplayIsRecursion(k, None, t);
    var outs := Outs(k, t);
    FullFeatures(t, outs);
    assert outs[1].after == 2;
    hide ById, Replay, Reached, Three, Outcomes, WellFormed, Outs, Sound, FirstDirty, FullTree;
    FullTreeSound(k, t);
  }

  lemma {:induction false} RemovedSecond(t: Tree)
    requires Sound(Numbering(), t) && FirstDirty(t, 0) == 3 == |t.features| && t.documentId == 0
    requires t.features[0].id == "a" && t.features[1].id == "b" && t.features[2].id == "c"
    requires forall i :: 0 <= i < 3 ==> !t.features[i].suppressed
    requires Outs(Numbering(), t)[1].after == 2
    ensures var u := Remove(t, "b").0;
            && WellFormed(u) && |u.features| == 2 && u.documentId == 0
            && !u.features[0].suppressed && !u.features[1].suppressed && u.features[1].id == "c" && IsDirty(u, 1)
            && "c" in u.snapshots && u.snapshots["c"] == SnapshotV2(2, 0)
  {
    var k := Numbering();
    SoundIsWellFormed(k, t);
    CleanBefore(k, t, 3);
    FindAt(t.features, 1);
    assert Remove(t, "b").0 == Removed(t, 1);
    hide Outs, Clean, Sound;
    RemovedBoundary(k, t, 1);
    RemovedWellFormed(t, 1);
    RemovedKeeps(t, 1);
    assert Removed(t, 1).features[..1][0] == t.features[..1][0];
  }

  /** After replaying a, b, c, removing b and replaying from c returns identity 3 where full replay returns 2. */
  lemma {:induction false} RemovalShiftsIdentity()
    ensures var k := Numbering();
            var t := Remove(Replay(k, None, Three()).0, "b").0;
            ReplayFrom(k, None, t, "c").1 == Body(3) && Replay(k, None, t).1 == Body(2)
  {
    hide *;
    var k := Numbering();
    ThreeReplayed();
    var u := Remove(Replay(k, None, Three()).0, "b").0;
    RemovedSecond(Replay(k, None, Three()).0);
    RestoresTwo(u);
    Numbered(u.features);
    ReplayIsRecursion(k, None, u);
  }

  lemma {:induction false} RestoresTwo(u: Tree)
    requires WellFormed(u) && |u.features| == 2 && u.features[1].id == "c" && !u.features[1].suppressed && IsDirty(u, 1)
    requires "c" in u.snapshots && u.snapshots["c"] == SnapshotV2(2, 0)
    ensures ReplayFrom(Numbering(), None, u, "c").1 == Body(3)
  {
    FindAt(u.features, 1);
    MarkSpec(u.features, u.dirty, 1);
    LastStep(u.(counter := 2, documentId := 0, dirty := Mark(u.features, u.dirty, 1)), Resume(u, 1));
  }

  // ── A forward reference ────────────────────────────────

  function ToB(): ElementRef {
    ElementRef("b", "ROOT", "")
  }

  function Resolves(refs: map<ElementRef, Option<ResolvedRef>>): bool {
    ToB() in refs && refs[ToB()].Some?
  }

  /** The geometry of a BooleanUnion tells whether its reference to b resolved; any other feature passes its input on. */
  function Peeking(): Kernel {
    Kernel((x: ExecInput) =>
             ExecOutput(true, if x.feature.kind == "BooleanUnion" then Body(if Resolves(x.refs) then 1 else 0) else x.current,
                        "", OK, "", x.counter),
           (s, n) => None)
  }

  /** `a` refers to `b`, which follows it. */
  function Forward(): Tree {
    var a := Feature("a", "BooleanUnion", map["tool" := ElemRefV(ToB())], false, NotExecuted, "");
    Tree([a, Plain("b")], map[], map["a" := true, "b" := true], map[], -1, 0, 0)
  }

  lemma {:induction false} ForwardOuts(fs: seq<Feature>)
    requires LikeForward(fs)
    ensures var outs := Outcomes(Peeking(), 0, Jobs(None, fs));
            |outs| == 2 && outs[0].shape == Body(0) && LastShape(outs) == outs[1].shape == Body(0)
  {
    var k := Peeking();
    var jobs := Jobs(None, fs);
    OutcomeAt(k, 0, jobs, 0);
    OutcomeAt(k, 0, jobs, 1);
    var outs := Outcomes(k, 0, jobs);
    assert JobIds(jobs[..0]) == [];
    assert !Resolves(LookAll(k, jobs[..0], outs[..0], jobs[0]));
    assert outs[..1][0] == outs[0];
  }

  /** What the stored features look like after any replay of Forward(). */
  predicate LikeForward(fs: seq<Feature>) {
    && |fs| == 2
    && fs[0].id == "a" && fs[0].kind == "BooleanUnion" && fs[0].params == map["tool" := ElemRefV(ToB())] && !fs[0].suppressed
    && fs[1].id == "b" && fs[1].kind == "MakeFace" && !fs[1].suppressed
  }

  lemma {:induction false} StepAtA(t: Tree)
    requires LikeForward(t.features) && Cached(t.cache, "b").Body? && "a" in t.dirty && t.dirty["a"]
    ensures Step(Peeking(), None, t, NullShape, 0).1 == Body(1)
    ensures var t1 := Step(Peeking(), None, t, NullShape, 0).0;
            LikeForward(t1.features) && ("b" in t.dirty && t.dirty["b"] ==> "b" in t1.dirty && t1.dirty["b"])
  {
    var f := t.features[0];
    FindAt(t.features, 1);
    assert ToB() in RefsIn(f.params["tool"]);
    var t0 := t.(snapshots := t.snapshots["a" := SnapshotV2(t.counter, t.documentId)]);
    assert LookIn(Peeking(), t0, ToB()) == Some(Whole(t.cache["b"]));
    var job := Prepare(None, f);
    assert ToB() in RefsOf(job.feature);
    assert Resolves(LookAllIn(Peeking(), t0, job));
  }

  lemma {:induction false} StepAtB(t: Tree, current: NamedShape)
    requires LikeForward(t.features) && current.Body? && "b" in t.dirty && t.dirty["b"]
    ensures Loop(Peeking(), None, t, current, 1).1 == current
  {
    var (t1, c) := Step(Peeking(), None, t, current, 1);
    assert Loop(Peeking(), None, t1, c, 2) == (t1, c);
  }

  lemma {:induction false} BothSteps(t: Tree)
    requires LikeForward(t.features) && Cached(t.cache, "b").Body?
    requires "a" in t.dirty && t.dirty["a"] && "b" in t.dirty && t.dirty["b"]
    ensures Loop(Peeking(), None, t, NullShape, 0).1 == Body(1)
  {
    assert |t.features| == 2;
    StepAtA(t);
    hide Step, LikeForward, Cached, Peeking;
    StepAtB(Step(Peeking(), None, t, NullShape, 0).0, Body(1));
  }

  /** Seen from the live cache of a replayed tree, b is there, so a's reference resolves. */
  lemma {:induction false} SeesAhead(t: Tree)
    requires LikeForward(t.features) && Cached(t.cache, "b").Body?
    ensures ReplayFrom(Peeking(), None, t, "a").1 == Body(1)
  {
    MarkSpec(t.features, t.dirty, 0);
    FindAt(t.features, 0);
    assert t.features[1].id == "b";
    BothSteps(t.(counter := 0, dirty := Mark(t.features, t.dirty, 0)));
    hide Loop, Mark;
  }

  /** Replaying again from the first feature resolves the forward reference that full replay leaves unresolved. */
  lemma {:induction false} ForwardReferenceLeaks()
    ensures var k := Peeking(); var t := Replay(k, None, Forward()).0;
            ReplayFrom(k, None, t, "a").1 == Body(1) && Replay(k, None, t).1 == Body(0)
  {
    var k := Peeking();
    ForwardReplayed();
    hide *;
    var t := Replay(k, None, Forward()).0;
    SeesAhead(t);
    ReplayIsRecursion(k, None, t);
    ForwardOuts(t.features);
  }

  lemma {:induction false} ForwardReplayed()
    ensures var t := Replay(Peeking(), None, Forward()).0;
            && WellFormed(t) && LikeForward(t.features) && Cached(t.cache, "b").Body? && t.documentId == 0
  {
    var k := Peeking();
    var t0 := Forward();
    assert WellFormed(t0);
    ForwardOuts(t0.features);
    ReplayIsRecursion(k, None, t0);
    var outs := Outs(k, t0);
    FullFeatures(t0, outs);
    FullCache(t0, outs, 1);
    hide Replay, ById;
  }
}
