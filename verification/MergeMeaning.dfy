/**
 The conflicts of a three-way merge, told from the three lists alone (src/feature/merge.cpp): for every id and every
 case of presence, which conflicts are raised, and what values each of them records.
 */
module MergeMeaning {
  import opened Wrappers
  import opened FeatureModel
  import opened ParamJson
  import opened MergeSpec
  import opened MergeLaws

  // ── Differences ────────────────────────────────────────

  /** Not both absent, and not two values that are written alike; a value holding NaN differs from every value. */
  predicate Differ(a: Option<ParamValue>, b: Option<ParamValue>) {
    (a.Some? || b.Some?) && !(a.Some? && b.Some? && Comparable(a.value) && Canon(a.value) == Canon(b.value))
  }

  /** No facet differs. */
  ghost predicate Alike(f: Feature, g: Feature) {
    f.kind == g.kind && f.suppressed == g.suppressed && forall p :: !Differ(Param(f, p), Param(g, p))
  }

  lemma {:induction false} SameKeys(a: map<string, ParamValue>, b: map<string, ParamValue>)
    requires |a| == |b| && forall p :: p in a ==> p in b
    ensures a.Keys == b.Keys
  {
    SubsetOfSize(a.Keys, b.Keys);
  }

  lemma {:induction false} SubsetOfSize(s: set<string>, t: set<string>)
    requires s <= t && |s| == |t|
    ensures s == t
  {
    forall x | x in t ensures x in s {
      if x !in s { SubsetSize(s, t - {x}); }
    }
  }

  lemma {:induction false} SubsetSize(s: set<string>, t: set<string>)
    requires s <= t
    ensures |s| <= |t|
    decreases |s|
  {
    if x :| x in s { SubsetSize(s - {x}, t - {x}); }
  }

  lemma {:induction false} ChangedIffDiffer(a: Option<ParamValue>, b: Option<ParamValue>)
    ensures Changed(a, b) <==> Differ(a, b)
    ensures Agree(a, b) <==> !Differ(a, b)
  {
    if a.Some? && b.Some? { ValueEqualsIsCanonical(a.value, b.value); }
  }

  /** Two features count as equal exactly when no facet differs. */
  lemma {:induction false} ContentEqualsIff(f: Feature, g: Feature)
    ensures ContentEquals(f, g) <==> Alike(f, g)
  {
    forall p ensures Differ(Param(f, p), Param(g, p))
                     <==> (p in f.params || p in g.params) && !(p in f.params && p in g.params && ValueEquals(f.params[p], g.params[p]))
    {
      if p in f.params && p in g.params { ValueEqualsIsCanonical(f.params[p], g.params[p]); }
    }
    hide ValueEquals, Differ;
    if ContentEquals(f, g) { SameKeys(f.params, g.params); }
    if Alike(f, g) {
      forall p ensures p in f.params <==> p in g.params { assert !Differ(Param(f, p), Param(g, p)); }
      assert f.params.Keys == g.params.Keys;
      assert |f.params| == |f.params.Keys| == |g.params.Keys| == |g.params|;
    }
  }

  // ── Recorded conflicts ─────────────────────────────────

  /** A conflict over one facet: its three values and nothing else. */
  function Over(kind: ConflictKind, id: string, p: string, b: ParamValue, o: ParamValue, t: ParamValue): MergeConflict {
    MergeConflict(kind, id, p, b, o, t, None, None, None, -1)
  }

  /** What stands in the record for a parameter that a side lacks. */
  const MISSING: ParamValue := StringV("")

  function Recorded(v: Option<ParamValue>): ParamValue {
    match v
    case Some(x) => x
    case None => MISSING
  }

  function OverParam(id: string, p: string, b: Option<ParamValue>, o: Option<ParamValue>, t: Option<ParamValue>): MergeConflict {
    Over(ParamConflict, id, p, Recorded(b), Recorded(o), Recorded(t))
  }

  lemma {:induction false} NamedByEither(o: Feature, t: Feature, p: string)
    ensures p in o.params.Keys + t.params.Keys <==> Param(o, p).Some? || Param(t, p).Some?
  {
  }

  lemma {:induction false} DifferingMeans(id: string, o: Feature, t: Feature, c: MergeConflict)
    ensures c in Differing(id, o, t)
            <==> exists p :: Differ(Param(o, p), Param(t, p)) && c == OverParam(id, p, Param(o, p), Param(o, p), Param(t, p))
  {
    forall p ensures Differ(Param(o, p), Param(t, p))
                     <==> p in o.params.Keys + t.params.Keys && !(p in o.params && p in t.params && ValueEquals(o.params[p], t.params[p]))
    {
      if p in o.params && p in t.params { ValueEqualsIsCanonical(o.params[p], t.params[p]); }
    }
    forall p ensures Disagrees(id, o, t, p) == OverParam(id, p, Param(o, p), Param(o, p), Param(t, p)) { }
    hide ValueEquals, Differ, Disagrees, OverParam;
    if c in Differing(id, o, t) {
      var p :| p in o.params.Keys + t.params.Keys
               && !(p in o.params && p in t.params && ValueEquals(o.params[p], t.params[p])) && c == Disagrees(id, o, t, p);
      assert Differ(Param(o, p), Param(t, p));
    }
    if p :| Differ(Param(o, p), Param(t, p)) && c == OverParam(id, p, Param(o, p), Param(o, p), Param(t, p)) {
      assert c == Disagrees(id, o, t, p);
    }
  }

  lemma {:induction false} ClashesMean(id: string, b: Feature, o: Feature, t: Feature, c: MergeConflict)
    ensures c in Clashes(id, b, o, t)
            <==> exists p :: Differ(Param(b, p), Param(o, p)) && Differ(Param(b, p), Param(t, p)) && Differ(Param(o, p), Param(t, p))
                             && c == OverParam(id, p, Param(b, p), Param(o, p), Param(t, p))
  {
    forall p ensures Differ(Param(b, p), Param(o, p)) && Differ(Param(b, p), Param(t, p)) && Differ(Param(o, p), Param(t, p))
                     <==> ParamResult(b, o, t, p).clash
    {
      ChangedIffDiffer(Param(b, p), Param(o, p));
      ChangedIffDiffer(Param(b, p), Param(t, p));
      ChangedIffDiffer(Param(o, p), Param(t, p));
      hide Differ, Changed, Agree, Param;
    }
    forall p ensures ParamClash(id, p, Param(b, p), Param(o, p), Param(t, p)) == OverParam(id, p, Param(b, p), Param(o, p), Param(t, p)) { }
    var names := ParamNames(Sides(Some(b), Some(o), Some(t)));
    forall p | Differ(Param(b, p), Param(o, p)) ensures p in names { assert Param(b, p).Some? || Param(o, p).Some?; }
    hide Differ, ParamResult, ParamClash, OverParam, Param, ParamNames;
  }

  // ── One id ─────────────────────────────────────────────

  /**
   An id added on both sides keeps ours. Features of different types raise a type conflict and nothing else;
   otherwise the flags raise a suppression conflict exactly when they differ, and a parameter one exactly when it
   differs, each with both values recorded and ours in the place of base's.
   */
  lemma {:induction false} BothAddedRaises(m: Merge, id: string, o: Feature, t: Feature, c: MergeConflict)
    requires m.Of(id) == Sides(None, Some(o), Some(t))
    ensures m.Result(id) == Some(o)
    ensures c in m.Raised(id)
            <==> if o.kind != t.kind then c == Over(TypeConflict, id, "", StringV(""), StringV(o.kind), StringV(t.kind))
                 else
                   || (o.suppressed != t.suppressed
                       && c == Over(SuppressionConflict, id, "", BoolV(o.suppressed), BoolV(o.suppressed), BoolV(t.suppressed)))
                   || (exists p :: Differ(Param(o, p), Param(t, p)) && c == OverParam(id, p, Param(o, p), Param(o, p), Param(t, p)))
  {
    ContentEqualsIff(o, t);
    DifferingMeans(id, o, t, c);
    hide ContentEquals, Differing, Differ, OverParam;
  }

  /** So nothing is raised for it exactly when the two features are written alike. */
  lemma {:induction false} BothAddedQuietIff(m: Merge, id: string, o: Feature, t: Feature)
    requires m.Of(id) == Sides(None, Some(o), Some(t)) && NoNaN(o) && NoNaN(t)
    ensures m.Raised(id) == {} <==> CanonContent(o) == CanonContent(t)
  {
    assert o.id == id && t.id == id;
    AlikeIffCanon(o, t);
    ContentEqualsIff(o, t);
    hide ContentEquals, CanonContent, NoNaN;
    if !Alike(o, t) && o.kind == t.kind && o.suppressed == t.suppressed {
      var p :| Differ(Param(o, p), Param(t, p));
      BothAddedRaises(m, id, o, t, OverParam(id, p, Param(o, p), Param(o, p), Param(t, p)));
    }
  }

  lemma {:induction false} AlikeIffCanon(f: Feature, g: Feature)
    requires f.id == g.id && NoNaN(f) && NoNaN(g)
    ensures Alike(f, g) <==> CanonContent(f) == CanonContent(g)
  {
    forall p ensures Differ(Param(f, p), Param(g, p)) <==> CanonOf(Param(f, p)) != CanonOf(Param(g, p)) { }
    if Alike(f, g) { SameCanonParams(f, g); }
    if CanonContent(f) == CanonContent(g) {
      assert CanonContent(f).kind == f.kind && CanonContent(g).kind == g.kind;
      assert CanonContent(f).suppressed == f.suppressed && CanonContent(g).suppressed == g.suppressed;
      forall p ensures CanonOf(Param(f, p)) == CanonOf(Param(g, p)) {
        assert p in f.params <==> p in CanonContent(f).params;
        assert p in g.params <==> p in CanonContent(g).params;
      }
    }
  }

  /** An id of all three lists raises a type conflict exactly when the three types are different, and a parameter conflict exactly when its three values are. */
  lemma {:induction false} PresentRaises(m: Merge, id: string, b: Feature, o: Feature, t: Feature, c: MergeConflict)
    requires m.Of(id) == Sides(Some(b), Some(o), Some(t))
    ensures c in m.Raised(id)
            <==> || (b.kind != o.kind && b.kind != t.kind && o.kind != t.kind
                     && c == Over(TypeConflict, id, "", StringV(b.kind), StringV(o.kind), StringV(t.kind)))
                 || (exists p :: Differ(Param(b, p), Param(o, p)) && Differ(Param(b, p), Param(t, p)) && Differ(Param(o, p), Param(t, p))
                                 && c == OverParam(id, p, Param(b, p), Param(o, p), Param(t, p)))
  {
    ClashesMean(id, b, o, t, c);
    hide Clashes, Differ, OverParam;
  }

  /** The mark left for a side in a structural conflict. */
  function Mark(side: Option<Feature>): ParamValue {
    match side
    case Some(_) => StringV("<modified>")
    case None => StringV("<removed>")
  }

  /**
   A base id that one side removed goes silently when the other side left its content alone; when the other side
   changed it, base's feature stays, with one structural conflict holding the three features and its place in base.
   */
  lemma {:induction false} RemovedRaises(m: Merge, id: string, b: Feature, o: Option<Feature>, t: Option<Feature>)
    requires m.Of(id) == Sides(Some(b), o, t) && o.Some? != t.Some?
    ensures var kept := if o.Some? then o.value else t.value;
            if Alike(b, kept) then m.Raised(id) == {} && m.Result(id) == None
            else
              && m.Result(id) == Some(b)
              && exists i :: 0 <= i < |m.base| && m.base[i].id == id && (forall j :: i < j < |m.base| ==> m.base[j].id != id)
                   && m.Raised(id) == {MergeConflict(AddRemoveConflict, id, "", StringV(""), Mark(o), Mark(t), Some(b), o, t, i)}
  {
    ContentEqualsIff(b, if o.Some? then o.value else t.value);
    LastIndexIsLast(Ids(m.base), id);
    hide ContentEquals, Alike;
    assert Ids(m.base)[m.Hint(id)] == m.base[m.Hint(id)].id;
    forall j | m.Hint(id) < j < |m.base| ensures m.base[j].id != id { assert Ids(m.base)[j] == m.base[j].id; }
  }

  lemma {:induction false} LastIndexIsLast(ids: seq<string>, id: string)
    ensures forall j :: LastIndex(ids, id) < j < |ids| ==> ids[j] != id
  {
    if ids != [] && ids[|ids| - 1] != id {
      LastIndexIsLast(ids[..|ids| - 1], id);
      forall j | LastIndex(ids, id) < j < |ids| ensures ids[j] != id { if j < |ids| - 1 { assert ids[..|ids| - 1][j] == ids[j]; } }
    }
  }

  /** An id added on one side alone is kept as it is, one removed by both is gone, and neither raises anything. */
  lemma {:induction false} OtherwiseQuiet(m: Merge, id: string)
    requires var s := m.Of(id); (s.base.None? && (s.ours.None? || s.theirs.None?)) || (s.ours.None? && s.theirs.None?)
    ensures m.Raised(id) == {}
    ensures var s := m.Of(id); m.Result(id) == if s.base.Some? then None else if s.ours.Some? then s.ours else s.theirs
  {
  }

  // ── Positions ──────────────────────────────────────────

  /** The surviving ids of base that stand before the id in a list. */
  function StandBefore(m: Merge, fs: seq<Feature>, id: string): set<string> {
    set x | x in Ids(fs) && x in Ids(m.base) && m.Keeps(x) && LastIndex(Ids(fs), x) < LastIndex(Ids(fs), id)
  }

  function SelectedBefore(ids: seq<string>, keep: string -> bool, id: string): set<string> {
    set x | x in ids && keep(x) && LastIndex(ids, x) < LastIndex(ids, id)
  }

  lemma {:induction false} EarlierIndex(ids: seq<string>, id: string)
    requires ids != [] && Distinct(ids) && id in ids && id != ids[|ids| - 1]
    ensures id in ids[..|ids| - 1] && LastIndex(ids, id) == LastIndex(ids[..|ids| - 1], id) < |ids| - 1
  {
  }

  /** The place of an id among the selected ones is the number of selected ones before it. */
  lemma {:induction false} PlaceIsCount(ids: seq<string>, keep: string -> bool, id: string)
    requires Distinct(ids) && id in ids && keep(id)
    ensures LastIndex(Select(ids, keep), id) == |SelectedBefore(ids, keep, id)|
  {
    var n := |ids| - 1;
    var before, last := ids[..n], ids[n];
    assert ids == before + [last];
    assert last !in before by { assert forall j :: 0 <= j < n ==> before[j] != last; }
    assert Distinct(before);
    SelectMembers(before, keep);
    if id == last {
      var s := SelectedBefore(ids, keep, id);
      forall x ensures x in s <==> x in Select(before, keep) { if x in before { EarlierIndex(ids, x); } }
      SelectDistinct(before, keep);
      SizeOfDistinct(Select(before, keep), s);
    } else {
      EarlierIndex(ids, id);
      PlaceIsCount(before, keep, id);
      forall x ensures x in SelectedBefore(ids, keep, id) <==> x in SelectedBefore(before, keep, id) { if x in before { EarlierIndex(ids, x); } }
      assert SelectedBefore(ids, keep, id) == SelectedBefore(before, keep, id);
      assert id in Select(before, keep);
      LastIndexAppended(Select(before, keep), if keep(last) then [last] else [], id);
    }
  }

  lemma {:induction false} LastIndexAppended(ids: seq<string>, tail: seq<string>, id: string)
    requires |tail| <= 1 && id !in tail
    ensures LastIndex(ids + tail, id) == LastIndex(ids, id)
  {
    if tail == [] { assert ids + tail == ids; } else { assert (ids + tail)[..|ids|] == ids; }
  }

  lemma {:induction false} SizeOfDistinct(ids: seq<string>, s: set<string>)
    requires Distinct(ids) && forall x :: x in s <==> x in ids
    ensures |s| == |ids|
    decreases |ids|
  {
    if ids == [] {
      assert s == {};
    } else {
      var n := |ids| - 1;
      assert ids == ids[..n] + [ids[n]];
      assert ids[n] !in ids[..n] by { assert forall j :: 0 <= j < n ==> ids[..n][j] != ids[n]; }
      SizeOfDistinct(ids[..n], s - {ids[n]});
    }
  }

  lemma {:induction false} RetainedPlace(m: Merge, id: string)
    requires Distinct(Ids(m.base)) && id in Ids(m.base) && m.Keeps(id)
    ensures LastIndex(m.Retained(), id) == |StandBefore(m, m.base, id)|
  {
    var keep := (x: string) => m.Keeps(x);
    PlaceIsCount(Ids(m.base), keep, id);
    assert SelectedBefore(Ids(m.base), keep, id) == StandBefore(m, m.base, id);
  }

  lemma {:induction false} RelativePlace(m: Merge, side: seq<Feature>, id: string)
    requires Distinct(Ids(side)) && id in Ids(side) && id in Ids(m.base) && m.Keeps(id)
    ensures LastIndex(m.Relative(side), id) == |StandBefore(m, side, id)|
  {
    var keep := (x: string) => m.Keeps(x) && x in m.Retained();
    RetainedMembers(m);
    PlaceIsCount(Ids(side), keep, id);
    hide LastIndex, MergedFeature;
    assert SelectedBefore(Ids(side), keep, id) == StandBefore(m, side, id);
  }

  lemma {:induction false} RelativeMembers(m: Merge, side: seq<Feature>, id: string)
    ensures id in m.Relative(side) <==> id in Ids(side) && id in Ids(m.base) && m.Keeps(id)
  {
    RetainedMembers(m);
    SelectMembers(Ids(side), (x: string) => m.Keeps(x) && x in m.Retained());
    hide MergedFeature;
  }

  /**
   With unique ids, a position conflict is reported exactly for a surviving feature of all three lists before which
   three different numbers of surviving base features stand, and records those numbers.
   */
  lemma {:induction false} PositionReportedIff(m: Merge, c: MergeConflict)
    requires Distinct(Ids(m.base)) && Distinct(Ids(m.ours)) && Distinct(Ids(m.theirs)) && c.kind == PositionConflict
    ensures m.Reports(c)
            <==> exists id :: id in Ids(m.base) && id in Ids(m.ours) && id in Ids(m.theirs) && m.Keeps(id)
                   && var b, o, t := |StandBefore(m, m.base, id)|, |StandBefore(m, m.ours, id)|, |StandBefore(m, m.theirs, id)|;
                      b != o && b != t && o != t && c == Over(PositionConflict, id, "", IntV(b), IntV(o), IntV(t))
  {
    var r := m.Retained();
    RetainedMembers(m);
    NoPositionRaised(m, c);
    forall i: nat | i < |r| ensures m.PositionsClash(i) && c == m.PositionConflictAt(i) <==> ClashAt(m, r[i], c) {
      assert r[i] in r;
      LastIndexDistinct(r, i);
      ClashMeans(m, i, c);
    }
    hide Merge.PositionsClash, Merge.PositionConflictAt, Merge.Raised, StandBefore, MergedFeature, LastIndex;
    if id :| ClashAt(m, id, c) {
      assert id in r;
      var i: nat :| i < |r| && r[i] == id;
      assert m.PositionsClash(i) && c == m.PositionConflictAt(i);
    }
  }

  ghost predicate ClashAt(m: Merge, id: string, c: MergeConflict) {
    id in Ids(m.base) && id in Ids(m.ours) && id in Ids(m.theirs) && m.Keeps(id)
    && var b, o, t := |StandBefore(m, m.base, id)|, |StandBefore(m, m.ours, id)|, |StandBefore(m, m.theirs, id)|;
       b != o && b != t && o != t && c == Over(PositionConflict, id, "", IntV(b), IntV(o), IntV(t))
  }

  lemma {:induction false} ClashMeans(m: Merge, i: nat, c: MergeConflict)
    requires Distinct(Ids(m.base)) && Distinct(Ids(m.ours)) && Distinct(Ids(m.theirs)) && i < |m.Retained()|
    requires var id := m.Retained()[i]; id in Ids(m.base) && m.Keeps(id) && LastIndex(m.Retained(), id) == i
    ensures m.PositionsClash(i) && c == m.PositionConflictAt(i) <==> ClashAt(m, m.Retained()[i], c)
  {
    var id := m.Retained()[i];
    RetainedPlace(m, id);
    RelativeMembers(m, m.ours, id);
    RelativeMembers(m, m.theirs, id);
    if id in Ids(m.ours) { RelativePlace(m, m.ours, id); }
    if id in Ids(m.theirs) { RelativePlace(m, m.theirs, id); }
    hide StandBefore, LastIndex, Merge.Relative, Merge.Retained, Merge.Keeps;
  }

  lemma {:induction false} NoPositionRaised(m: Merge, c: MergeConflict)
    requires c.kind == PositionConflict
    ensures c !in m.Raised(c.featureId)
  {
    hide ContentEquals, ValueEquals, MergeParam, Param, Merge.Of, Merge.Hint;
  }
}
