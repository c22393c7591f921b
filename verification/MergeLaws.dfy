/**
 Laws of the three-way merge, over all inputs: each facet is an exact diff3, the merge is symmetric on
 the base's ids, the merged list has a simple shape, and edits that do not meet never conflict.
 */
module MergeLaws {
  import opened Wrappers
  import opened FeatureModel
  import opened ParamJson
  import opened MergeSpec

  // ── diff3 ──────────────────────────────────────────────

  /** The textbook three-way rule; None when both sides changed differently. */
  function Diff3<T(==)>(base: T, ours: T, theirs: T): Option<T> {
    if ours == base then Some(theirs)
    else if theirs == base then Some(ours)
    else if ours == theirs then Some(ours)
    else None
  }

  /** The diff3 value, or base where diff3 has none. */
  function Diff3OrBase<T(==)>(base: T, ours: T, theirs: T): T {
    if Diff3(base, ours, theirs).Some? then Diff3(base, ours, theirs).value else base
  }

  function CanonOf(v: Option<ParamValue>): Option<ParamValue> {
    if v.Some? then Some(Canon(v.value)) else None
  }

  /** A feature's content with every parameter in canonical form. */
  function CanonContent(f: Feature): Feature {
    f.(params := map p | p in f.params :: Canon(f.params[p]), status := OK, errorMessage := "")
  }

  predicate NoNaN(f: Feature) {
    forall p :: p in f.params ==> Comparable(f.params[p])
  }

  predicate ComparableOpt(v: Option<ParamValue>) {
    v.Some? ==> Comparable(v.value)
  }

  lemma {:induction false} EqualsSymmetric(a: ParamValue, b: ParamValue)
    ensures ValueEquals(a, b) == ValueEquals(b, a)
  {
    ValueEqualsIsCanonical(a, b);
    ValueEqualsIsCanonical(b, a);
    if Canon(a) == Canon(b) { CanonComparable(a, b); }
  }

  lemma {:induction false} CanonComparable(a: ParamValue, b: ParamValue)
    requires Canon(a) == Canon(b)
    ensures Comparable(a) == Comparable(b)
  {
  }

  lemma {:induction false} ChangedIffCanon(b: Option<ParamValue>, x: Option<ParamValue>)
    requires ComparableOpt(b) || ComparableOpt(x)
    ensures Changed(b, x) <==> CanonOf(b) != CanonOf(x)
  {
    if b.Some? && x.Some? {
      ValueEqualsIsCanonical(b.value, x.value);
      if Canon(b.value) == Canon(x.value) { CanonComparable(b.value, x.value); }
    }
  }

  lemma {:induction false} AgreeIffCanon(o: Option<ParamValue>, t: Option<ParamValue>)
    requires ComparableOpt(o) || ComparableOpt(t)
    ensures Agree(o, t) <==> CanonOf(o) == CanonOf(t)
  {
    ChangedIffCanon(o, t);
  }

  /** One parameter is merged by diff3 on canonical values; a clash keeps base's own value. */
  lemma {:induction false} ParamIsDiff3(b: Option<ParamValue>, o: Option<ParamValue>, t: Option<ParamValue>)
    requires ComparableOpt(b) && ComparableOpt(o) && ComparableOpt(t)
    ensures var r := MergeParam(b, o, t); var d := Diff3(CanonOf(b), CanonOf(o), CanonOf(t));
            && (r.clash <==> d.None?)
            && CanonOf(r.value) == Diff3OrBase(CanonOf(b), CanonOf(o), CanonOf(t))
            && (r.clash ==> r.value == b)
  {
    ChangedIffCanon(b, o);
    ChangedIffCanon(b, t);
    AgreeIffCanon(o, t);
    hide Changed, Agree, CanonOf;
  }

  lemma {:induction false} MergedParam(b: Feature, o: Feature, t: Feature, p: string)
    ensures Param(MergeContent(b, o, t), p) == ParamResult(b, o, t, p).value
  {
    if p !in ParamNames(Sides(Some(b), Some(o), Some(t))) {
      assert Param(b, p) == None && Param(o, p) == None && Param(t, p) == None;
    }
  }

  lemma {:induction false} ClashRaised(id: string, b: Feature, o: Feature, t: Feature, hint: int, p: string)
    ensures (exists c :: c in ContentConflicts(id, Sides(Some(b), Some(o), Some(t)), hint) && c.kind == ParamConflict && c.paramName == p)
            <==> ParamResult(b, o, t, p).clash
    ensures ParamResult(b, o, t, p).clash ==>
              ParamClash(id, p, Param(b, p), Param(o, p), Param(t, p)) in ContentConflicts(id, Sides(Some(b), Some(o), Some(t)), hint)
  {
    var s := Sides(Some(b), Some(o), Some(t));
    if ParamResult(b, o, t, p).clash {
      assert p in ParamNames(s) by {
        assert Param(b, p).Some? || Param(o, p).Some? || Param(t, p).Some?;
      }
      assert ParamClash(id, p, Param(b, p), Param(o, p), Param(t, p)) in ContentConflicts(id, s, hint);
    }
  }

  lemma {:induction false} KindRaised(id: string, b: Feature, o: Feature, t: Feature, hint: int)
    ensures (exists c :: c in ContentConflicts(id, Sides(Some(b), Some(o), Some(t)), hint) && c.kind == TypeConflict)
            <==> Diff3(b.kind, o.kind, t.kind).None?
    ensures !exists c :: c in ContentConflicts(id, Sides(Some(b), Some(o), Some(t)), hint) && c.kind == SuppressionConflict
  {
    if Diff3(b.kind, o.kind, t.kind).None? {
      assert Simple(TypeConflict, id, "", StringV(b.kind), StringV(o.kind), StringV(t.kind))
             in ContentConflicts(id, Sides(Some(b), Some(o), Some(t)), hint);
    }
  }

  /**
   A feature present in all three trees holds, facet by facet, the diff3 value with no conflict, or the
   base value with a conflict of that facet; suppression always has a diff3 value.
   */
  lemma {:induction false} FeatureIsDiff3(m: Merge, id: string, b: Feature, o: Feature, t: Feature)
    requires m.Of(id) == Sides(Some(b), Some(o), Some(t)) && NoNaN(b) && NoNaN(o) && NoNaN(t)
    ensures m.Keeps(id)
    ensures var r := m.Result(id).value;
            && r.id == b.id
            && r.kind == Diff3OrBase(b.kind, o.kind, t.kind)
            && Diff3(b.suppressed, o.suppressed, t.suppressed) == Some(r.suppressed)
            && forall p :: CanonOf(Param(r, p)) == Diff3OrBase(CanonOf(Param(b, p)), CanonOf(Param(o, p)), CanonOf(Param(t, p)))
    ensures (exists c :: c in m.Raised(id) && c.kind == TypeConflict) <==> Diff3(b.kind, o.kind, t.kind).None?
    ensures forall p :: (exists c :: c in m.Raised(id) && c.kind == ParamConflict && c.paramName == p)
                        <==> Diff3(CanonOf(Param(b, p)), CanonOf(Param(o, p)), CanonOf(Param(t, p))).None?
    ensures forall c :: c in m.Raised(id) ==> c.kind == TypeConflict || c.kind == ParamConflict
  {
    var r := m.Result(id).value;
    var hint := m.Hint(id);
    assert r.kind == Diff3OrBase(b.kind, o.kind, t.kind);
    assert Diff3(b.suppressed, o.suppressed, t.suppressed) == Some(r.suppressed);
    KindRaised(id, b, o, t, hint);
    forall p
      ensures CanonOf(Param(r, p)) == Diff3OrBase(CanonOf(Param(b, p)), CanonOf(Param(o, p)), CanonOf(Param(t, p)))
      ensures (exists c :: c in m.Raised(id) && c.kind == ParamConflict && c.paramName == p)
              <==> Diff3(CanonOf(Param(b, p)), CanonOf(Param(o, p)), CanonOf(Param(t, p))).None?
    {
      MergedParam(b, o, t, p);
      ParamIsDiff3(Param(b, p), Param(o, p), Param(t, p));
      ClashRaised(id, b, o, t, hint, p);
      hide MergeContent, ContentConflicts, Diff3, MergeParam, CanonOf;
    }
  }

  /** Two booleans cannot both differ from a third and from each other: only features new on both sides can clash on suppression. */
  lemma {:induction false} SuppressionClashIsNew(m: Merge, id: string, c: MergeConflict)
    requires c in m.Raised(id) && c.kind == SuppressionConflict
    ensures id !in Ids(m.base) && id in Ids(m.ours) && id in Ids(m.theirs)
  {
  }

  // ── Symmetry ───────────────────────────────────────────

  function Swap(m: Merge): Merge {
    Merge(m.base, m.theirs, m.ours)
  }

  function Mirror(c: MergeConflict): MergeConflict {
    c.(oursValue := c.theirsValue, theirsValue := c.oursValue, oursSnapshot := c.theirsSnapshot, theirsSnapshot := c.oursSnapshot)
  }

  lemma {:induction false} AgreeSymmetric(o: Option<ParamValue>, t: Option<ParamValue>)
    ensures Agree(o, t) == Agree(t, o)
    ensures Agree(o, t) ==> CanonOf(o) == CanonOf(t)
  {
    if o.Some? && t.Some? {
      EqualsSymmetric(o.value, t.value);
      ValueEqualsIsCanonical(o.value, t.value);
    }
  }

  lemma {:induction false} ParamSymmetric(b: Option<ParamValue>, o: Option<ParamValue>, t: Option<ParamValue>)
    ensures var r, r' := MergeParam(b, o, t), MergeParam(b, t, o);
            r.clash == r'.clash && CanonOf(r.value) == CanonOf(r'.value)
  {
    AgreeSymmetric(o, t);
  }

  /** Swapping the sides mirrors the content conflicts of every id of base. */
  lemma {:induction false} ConflictsMirror(m: Merge, id: string, c: MergeConflict)
    requires id in Ids(m.base)
    ensures c in m.Raised(id) <==> Mirror(c) in Swap(m).Raised(id)
  {
    MirrorOneWay(m, id, c);
    MirrorOneWay(Swap(m), id, Mirror(c));
    assert Mirror(Mirror(c)) == c && Swap(Swap(m)) == m;
  }

  lemma {:induction false} MirrorOneWay(m: Merge, id: string, c: MergeConflict)
    requires id in Ids(m.base)
    ensures c in m.Raised(id) ==> Mirror(c) in Swap(m).Raised(id)
  {
    var s := m.Of(id);
    if c in m.Raised(id) && s.ours.Some? && s.theirs.Some? && c.kind == ParamConflict {
      var b, o, t := s.base.value, s.ours.value, s.theirs.value;
      var p :| p in ParamNames(s) && ParamResult(b, o, t, p).clash && c == ParamClash(id, p, Param(b, p), Param(o, p), Param(t, p));
      ParamSymmetric(Param(b, p), Param(o, p), Param(t, p));
      ClashRaised(id, b, t, o, m.Hint(id), p);
    }
  }

  /** Swapping the sides leaves the surviving content of every id of base unchanged, up to canonical encoding. */
  lemma {:induction false} ResultsMirror(m: Merge, id: string)
    requires id in Ids(m.base)
    ensures m.Keeps(id) == Swap(m).Keeps(id)
    ensures m.Keeps(id) ==> CanonContent(m.Result(id).value) == CanonContent(Swap(m).Result(id).value)
  {
    var s := m.Of(id);
    if s.ours.Some? && s.theirs.Some? {
      ContentsMirror(s.base.value, s.ours.value, s.theirs.value);
    }
  }

  lemma {:induction false} ContentsMirror(b: Feature, o: Feature, t: Feature)
    ensures CanonContent(MergeContent(b, o, t)) == CanonContent(MergeContent(b, t, o))
  {
    var f, g := MergeContent(b, o, t), MergeContent(b, t, o);
    assert f.kind == g.kind && f.suppressed == g.suppressed;
    forall p ensures CanonOf(Param(f, p)) == CanonOf(Param(g, p)) {
      MergedParam(b, o, t, p);
      MergedParam(b, t, o, p);
      ParamSymmetric(Param(b, p), Param(o, p), Param(t, p));
    }
    SameCanonParams(f, g);
  }

  lemma {:induction false} SameCanonParams(f: Feature, g: Feature)
    requires forall p :: CanonOf(Param(f, p)) == CanonOf(Param(g, p))
    ensures CanonContent(f).params == CanonContent(g).params
  {
    forall p ensures p in f.params <==> p in g.params {
      assert CanonOf(Param(f, p)) == CanonOf(Param(g, p));
    }
    forall p | p in f.params ensures Canon(f.params[p]) == Canon(g.params[p]) {
      assert CanonOf(Param(f, p)) == CanonOf(Param(g, p));
    }
  }

  // ── Selecting ids ──────────────────────────────────────

  lemma {:induction false} SelectMembers(ids: seq<string>, keep: string -> bool)
    ensures forall id :: id in Select(ids, keep) <==> id in ids && keep(id)
  {
    if ids != [] {
      var n := |ids| - 1;
      SelectMembers(ids[..n], keep);
      assert ids == ids[..n] + [ids[n]];
    }
  }

  lemma {:induction false} SelectSame(ids: seq<string>, p: string -> bool, q: string -> bool)
    requires forall id :: id in ids ==> p(id) == q(id)
    ensures Select(ids, p) == Select(ids, q)
  {
    if ids != [] { SelectSame(ids[..|ids| - 1], p, q); }
  }

  function Both(p: string -> bool, q: string -> bool): string -> bool {
    (id: string) => p(id) && q(id)
  }

  lemma {:induction false} SelectTwice(ids: seq<string>, p: string -> bool, q: string -> bool)
    ensures Select(Select(ids, p), q) == Select(ids, Both(p, q))
  {
    if ids != [] {
      var n := |ids| - 1;
      SelectTwice(ids[..n], p, q);
      var before := Select(ids[..n], p);
      assert before + [] == before;
      assert (before + [ids[n]])[..|before|] == before;
      assert Select(before, q) + [] == Select(before, q);
    }
  }

  lemma {:induction false} SelectDistinct(ids: seq<string>, keep: string -> bool)
    requires Distinct(ids)
    ensures Distinct(Select(ids, keep))
  {
    if ids != [] {
      var n := |ids| - 1;
      SelectDistinct(ids[..n], keep);
      SelectMembers(ids[..n], keep);
      assert forall i :: 0 <= i < n ==> ids[..n][i] != ids[n];
      assert ids[n] !in ids[..n];
      var before := Select(ids[..n], keep);
      assert ids[n] !in before;
      assert forall i :: 0 <= i < |before| ==> before[i] in before;
    }
  }

  lemma {:induction false} LastIndexDistinct(ids: seq<string>, i: nat)
    requires Distinct(ids) && i < |ids|
    ensures LastIndex(ids, ids[i]) == i
  {
    var r := LastIndex(ids, ids[i]);
    assert ids[i] in ids;
  }

  // ── The merged list ────────────────────────────────────

  lemma {:induction false} LookupIn(fs: seq<Feature>, f: Feature)
    requires Distinct(Ids(fs)) && f in fs
    ensures Lookup(fs, f.id) == Some(f)
  {
    var i :| 0 <= i < |fs| && fs[i] == f;
    assert Ids(fs)[i] == f.id;
    LastIndexDistinct(Ids(fs), i);
  }

  lemma {:induction false} NewcomersMembers(m: Merge, placed: seq<string>, ids: seq<string>)
    ensures forall id :: id in m.Newcomers(placed, ids) <==> id in ids && id !in placed && m.Keeps(id)
    ensures Distinct(m.Newcomers(placed, ids))
  {
    if ids != [] {
      var n := |ids| - 1;
      NewcomersMembers(m, placed, ids[..n]);
      assert ids == ids[..n] + [ids[n]];
      var before := m.Newcomers(placed, ids[..n]);
      assert forall i :: 0 <= i < |before| ==> before[i] in before;
    }
  }

  lemma {:induction false} DistinctConcat(a: seq<string>, b: seq<string>)
    requires Distinct(a) && Distinct(b) && forall id :: id in a ==> id !in b
    ensures Distinct(a + b)
  {
    assert forall i :: 0 <= i < |a| ==> a[i] in a;
    assert forall i :: 0 <= i < |b| ==> b[i] in b;
  }

  lemma {:induction false} RetainedMembers(m: Merge)
    ensures forall id :: id in m.Retained() <==> id in Ids(m.base) && m.Keeps(id)
    ensures Distinct(Ids(m.base)) ==> Distinct(m.Retained())
  {
    var keep := (id: string) => m.Keeps(id);
    SelectMembers(Ids(m.base), keep);
    if Distinct(Ids(m.base)) { SelectDistinct(Ids(m.base), keep); }
  }

  /** Unique ids in base are enough for the merged order to list every kept id exactly once. */
  lemma {:induction false} OrderDistinct(m: Merge)
    requires Distinct(Ids(m.base))
    ensures Distinct(m.Order())
    ensures forall id :: id in m.Order() <==> id in m.AllIds() && m.Keeps(id)
  {
    RetainedMembers(m);
    var kept := m.Retained();
    NewcomersMembers(m, kept, Ids(m.ours));
    DistinctConcat(kept, m.Newcomers(kept, Ids(m.ours)));
    var withOurs := kept + m.Newcomers(kept, Ids(m.ours));
    NewcomersMembers(m, withOurs, Ids(m.theirs));
    DistinctConcat(withOurs, m.Newcomers(withOurs, Ids(m.theirs)));
  }

  lemma {:induction false} ResultId(m: Merge, id: string)
    requires id in m.AllIds() && m.Keeps(id)
    ensures m.Result(id).value.id == id
  {
  }

  lemma {:induction false} MaterialisedIds(m: Merge, ids: seq<string>)
    requires forall id :: id in ids ==> id in m.AllIds() && m.Keeps(id)
    ensures Ids(m.Materialise(ids)) == ids
    ensures forall f :: f in m.Materialise(ids) ==> m.Result(f.id) == Some(f)
  {
    if ids != [] {
      var n := |ids| - 1;
      MaterialisedIds(m, ids[..n]);
      assert ids == ids[..n] + [ids[n]];
      ResultId(m, ids[n]);
      assert Ids(m.Materialise(ids)) == Ids(m.Materialise(ids[..n])) + [ids[n]];
    }
  }

  /** With unique ids in base the tree refuses no feature: the merged list is the whole order, each id with its result. */
  lemma {:induction false} NothingRefused(m: Merge)
    requires Distinct(Ids(m.base))
    ensures Ids(m.Features()) == m.Order() && Distinct(Ids(m.Features()))
    ensures forall f :: f in m.Features() ==> m.Result(f.id) == Some(f)
    ensures forall id :: id in Ids(m.Features()) <==> id in m.AllIds() && m.Keeps(id)
  {
    OrderDistinct(m);
    MaterialisedIds(m, m.Order());
  }

  /** A base id is dropped exactly when both sides removed it, or one did and the other left its content equal to base. */
  lemma {:induction false} DroppedIff(m: Merge, id: string)
    requires id in Ids(m.base)
    ensures var b := Lookup(m.base, id).value;
            !m.Keeps(id) <==>
              (id !in Ids(m.ours) || id !in Ids(m.theirs))
              && (id in Ids(m.ours) ==> ContentEquals(b, Lookup(m.ours, id).value))
              && (id in Ids(m.theirs) ==> ContentEquals(b, Lookup(m.theirs, id).value))
  {
  }

  lemma {:induction false} NewAlwaysKept(m: Merge, id: string)
    requires id !in Ids(m.base) && (id in Ids(m.ours) || id in Ids(m.theirs))
    ensures m.Keeps(id) && m.Result(id) == if id in Ids(m.ours) then Lookup(m.ours, id) else Lookup(m.theirs, id)
  {
  }

  function IsNew(known: seq<string>): string -> bool {
    (id: string) => id !in known
  }

  lemma {:induction false} NewcomersAreSelected(m: Merge, placed: seq<string>, ids: seq<string>, seen: seq<string>)
    requires Distinct(ids)
    requires forall id :: id in ids ==> ((id !in placed && m.Keeps(id)) <==> id !in seen)
    ensures m.Newcomers(placed, ids) == Select(ids, IsNew(seen))
  {
    if ids != [] {
      var n := |ids| - 1;
      assert forall i :: 0 <= i < n ==> ids[..n][i] == ids[i];
      assert ids[n] !in ids[..n];
      NewcomersAreSelected(m, placed, ids[..n], seen);
      NewcomersMembers(m, placed, ids[..n]);
      assert m.Newcomers(placed, ids[..n]) + [] == m.Newcomers(placed, ids[..n]);
    }
  }

  /**
   For unique ids the merged list is: the retained ids of base in base order, then the ids new in ours in
   ours order, then the ids new in theirs and not in ours, in theirs order.
   */
  lemma {:induction false} MergedListCharacterised(m: Merge)
    requires Distinct(Ids(m.base)) && Distinct(Ids(m.ours)) && Distinct(Ids(m.theirs))
    ensures Ids(m.Features())
            == m.Retained()
               + Select(Ids(m.ours), IsNew(Ids(m.base)))
               + Select(Ids(m.theirs), IsNew(Ids(m.base) + Ids(m.ours)))
  {
    NothingRefused(m);
    RetainedMembers(m);
    var kept := m.Retained();
    forall id | id in Ids(m.ours) ensures (id !in kept && m.Keeps(id)) <==> id !in Ids(m.base) {
      if id !in Ids(m.base) { NewAlwaysKept(m, id); }
    }
    NewcomersAreSelected(m, kept, Ids(m.ours), Ids(m.base));
    NewcomersMembers(m, kept, Ids(m.ours));
    var withOurs := kept + m.Newcomers(kept, Ids(m.ours));
    forall id | id in Ids(m.theirs) ensures (id !in withOurs && m.Keeps(id)) <==> id !in Ids(m.base) + Ids(m.ours) {
      if id !in Ids(m.base) { NewAlwaysKept(m, id); }
    }
    NewcomersAreSelected(m, withOurs, Ids(m.theirs), Ids(m.base) + Ids(m.ours));
  }

  // ── Positions ──────────────────────────────────────────

  /** The features both lists have stand in the same order in both. */
  ghost predicate SameOrder(base: seq<Feature>, side: seq<Feature>) {
    Select(Ids(base), IsIn(Ids(side))) == Select(Ids(side), IsIn(Ids(base)))
  }

  function IsIn(ids: seq<string>): string -> bool {
    (id: string) => id in ids
  }

  ghost predicate NoAddRemove(m: Merge) {
    forall id, c :: id in Ids(m.base) && c in m.Raised(id) ==> c.kind != AddRemoveConflict
  }

  lemma {:induction false} RetainedOnBothSides(m: Merge, id: string)
    requires NoAddRemove(m) && id in m.Retained()
    ensures id in Ids(m.ours) && id in Ids(m.theirs) && id in Ids(m.base)
  {
    RetainedMembers(m);
    var s := m.Of(id);
    assert s.ours.None? || s.theirs.None? ==> AddRemove(id, s, m.Hint(id)) in m.Raised(id);
  }

  /** A side that keeps base's order shows the retained ids exactly as base does. */
  lemma {:induction false} RelativeIsRetained(m: Merge, side: seq<Feature>)
    requires SameOrder(m.base, side) && forall id :: id in m.Retained() ==> id in Ids(side) && id in Ids(m.base)
    ensures m.Relative(side) == m.Retained()
  {
    var r := m.Retained();
    RetainedMembers(m);
    SelectTwice(Ids(side), IsIn(Ids(m.base)), IsIn(r));
    SelectTwice(Ids(m.base), IsIn(Ids(side)), IsIn(r));
    SelectSame(Ids(side), (id: string) => m.Keeps(id) && id in m.Retained(), Both(IsIn(Ids(m.base)), IsIn(r)));
    SelectSame(Ids(m.base), (id: string) => m.Keeps(id), Both(IsIn(Ids(side)), IsIn(r)));
  }

  /**
   No position conflict arises when base's ids are unique, no side removed what the other modified,
   and at least one side left the order of the features it shares with base alone.
   */
  lemma {:induction false} OneSidedReorderNeverClashes(m: Merge, i: nat)
    requires Distinct(Ids(m.base)) && NoAddRemove(m) && i < |m.Retained()|
    requires SameOrder(m.base, m.ours) || SameOrder(m.base, m.theirs)
    ensures !m.PositionsClash(i)
  {
    RetainedMembers(m);
    forall id | id in m.Retained() ensures id in Ids(m.ours) && id in Ids(m.theirs) && id in Ids(m.base) {
      RetainedOnBothSides(m, id);
    }
    if SameOrder(m.base, m.ours) { RelativeIsRetained(m, m.ours); } else { RelativeIsRetained(m, m.theirs); }
    LastIndexDistinct(m.Retained(), i);
  }

  // ── Edits that do not meet ─────────────────────────────

  /** No facet of a feature was edited on both sides. */
  predicate DisjointEdits(s: Sides) {
    match s
    case Sides(None, Some(o), Some(t)) => ContentEquals(o, t)
    case Sides(Some(b), None, Some(t)) => ContentEquals(b, t)
    case Sides(Some(b), Some(o), None) => ContentEquals(b, o)
    case Sides(Some(b), Some(o), Some(t)) =>
      && (o.kind == b.kind || t.kind == b.kind)
      && (o.suppressed == b.suppressed || t.suppressed == b.suppressed)
      && forall p :: p in ParamNames(s) ==> !Changed(Param(b, p), Param(o, p)) || !Changed(Param(b, p), Param(t, p))
    case _ => true
  }

  lemma {:induction false} DisjointNeverClash(m: Merge, id: string)
    requires DisjointEdits(m.Of(id))
    ensures m.Raised(id) == {}
  {
  }

  /** Edits that touch no common facet merge without any conflict while at most one side reorders shared features. */
  lemma {:induction false} DisjointEditsMergeCleanly(m: Merge)
    requires Distinct(Ids(m.base))
    requires forall id :: id in m.AllIds() ==> DisjointEdits(m.Of(id))
    requires SameOrder(m.base, m.ours) || SameOrder(m.base, m.theirs)
    ensures forall c :: !m.Reports(c)
  {
    forall id | id in m.AllIds() ensures m.Raised(id) == {} { DisjointNeverClash(m, id); }
    assert NoAddRemove(m);
    forall i: nat | i < |m.Retained()| ensures !m.PositionsClash(i) { OneSidedReorderNeverClashes(m, i); }
  }

  lemma {:induction false} EqualsItself(f: Feature)
    requires NoNaN(f)
    ensures ContentEquals(f, f)
    ensures forall p :: !Changed(Param(f, p), Param(f, p))
  {
    forall p | p in f.params ensures ValueEquals(f.params[p], f.params[p]) { ValueEqualsIsCanonical(f.params[p], f.params[p]); }
  }

  lemma {:induction false} SameOrderAsItself(fs: seq<Feature>)
    ensures SameOrder(fs, fs)
  {
  }

  ghost predicate AllNoNaN(fs: seq<Feature>) {
    forall f :: f in fs ==> NoNaN(f)
  }

  /** merge(base, ours, base): no conflict, and by id exactly ours, up to canonical encoding. */
  lemma {:induction false} OnlyOursChanged(base: seq<Feature>, ours: seq<Feature>)
    requires Distinct(Ids(base)) && AllNoNaN(base)
    ensures var m := Merge(base, ours, base);
            && (forall c :: !m.Reports(c))
            && forall id :: id in m.AllIds() ==>
                 (m.Keeps(id) <==> id in Ids(ours))
                 && (m.Keeps(id) ==> CanonContent(m.Result(id).value) == CanonContent(Lookup(ours, id).value))
  {
    var m := Merge(base, ours, base);
    forall id | id in m.AllIds()
      ensures DisjointEdits(m.Of(id))
      ensures m.Keeps(id) <==> id in Ids(ours)
      ensures m.Keeps(id) ==> CanonContent(m.Result(id).value) == CanonContent(Lookup(ours, id).value)
    {
      var s := m.Of(id);
      if s.base.Some? {
        EqualsItself(s.base.value);
        if s.ours.Some? { UnchangedTheirs(s.base.value, s.ours.value); }
      }
    }
    SameOrderAsItself(base);
    DisjointEditsMergeCleanly(m);
  }

  lemma {:induction false} UnchangedTheirs(b: Feature, o: Feature)
    requires NoNaN(b) && b.id == o.id
    ensures CanonContent(MergeContent(b, o, b)) == CanonContent(o)
  {
    var f := MergeContent(b, o, b);
    EqualsItself(b);
    forall p ensures CanonOf(Param(f, p)) == CanonOf(Param(o, p)) {
      MergedParam(b, o, b, p);
      ChangedIffCanon(Param(b, p), Param(o, p));
    }
    SameCanonParams(f, o);
  }

  /** merge(base, base, theirs): no conflict, and by id exactly theirs, up to canonical encoding. */
  lemma {:induction false} OnlyTheirsChanged(base: seq<Feature>, theirs: seq<Feature>)
    requires Distinct(Ids(base)) && AllNoNaN(base)
    ensures var m := Merge(base, base, theirs);
            && (forall c :: !m.Reports(c))
            && forall id :: id in m.AllIds() ==>
                 (m.Keeps(id) <==> id in Ids(theirs))
                 && (m.Keeps(id) ==> CanonContent(m.Result(id).value) == CanonContent(Lookup(theirs, id).value))
  {
    var m := Merge(base, base, theirs);
    forall id | id in m.AllIds()
      ensures DisjointEdits(m.Of(id))
      ensures m.Keeps(id) <==> id in Ids(theirs)
      ensures m.Keeps(id) ==> CanonContent(m.Result(id).value) == CanonContent(Lookup(theirs, id).value)
    {
      var s := m.Of(id);
      if s.base.Some? {
        EqualsItself(s.base.value);
        if s.theirs.Some? {
          UnchangedTheirs(s.base.value, s.theirs.value);
          ContentsMirror(s.base.value, s.theirs.value, s.base.value);
        }
      }
    }
    SameOrderAsItself(base);
    DisjointEditsMergeCleanly(m);
  }

  /** merge(base, x, x): no conflict, and by id exactly x, up to canonical encoding. */
  lemma {:induction false} BothChangedAlike(base: seq<Feature>, x: seq<Feature>)
    requires AllNoNaN(base) && AllNoNaN(x)
    ensures var m := Merge(base, x, x);
            && (forall c :: !m.Reports(c))
            && forall id :: id in m.AllIds() ==>
                 (m.Keeps(id) <==> id in Ids(x))
                 && (m.Keeps(id) ==> CanonContent(m.Result(id).value) == CanonContent(Lookup(x, id).value))
  {
    var m := Merge(base, x, x);
    forall id | id in m.AllIds()
      ensures m.Raised(id) == {}
      ensures m.Keeps(id) <==> id in Ids(x)
      ensures m.Keeps(id) ==> CanonContent(m.Result(id).value) == CanonContent(Lookup(x, id).value)
    {
      var s := m.Of(id);
      if s.ours.Some? {
        EqualsItself(s.ours.value);
        if s.base.Some? { SameOnBothSides(id, s.base.value, s.ours.value, m.Hint(id)); }
      }
    }
  }

  lemma {:induction false} SameOnBothSides(id: string, b: Feature, x: Feature, hint: int)
    requires NoNaN(b) && NoNaN(x) && b.id == x.id
    ensures CanonContent(MergeContent(b, x, x)) == CanonContent(x)
    ensures ContentConflicts(id, Sides(Some(b), Some(x), Some(x)), hint) == {}
  {
    var f := MergeContent(b, x, x);
    forall p
      ensures CanonOf(Param(f, p)) == CanonOf(Param(x, p))
      ensures !ParamResult(b, x, x, p).clash
    {
      MergedParam(b, x, x, p);
      ParamIsDiff3(Param(b, p), Param(x, p), Param(x, p));
    }
    SameCanonParams(f, x);
  }
}
