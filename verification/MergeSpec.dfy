/**
 Three-way merge of feature lists (src/feature/merge.cpp) as functions: what becomes of each id,
 which conflicts are raised, and in which order the survivors stand.
 */
module MergeSpec {
  import opened Wrappers
  import opened FeatureModel
  import opened ParamJson

  datatype ConflictKind = ParamConflict | SuppressionConflict | AddRemoveConflict | PositionConflict | TypeConflict

  datatype MergeConflict = MergeConflict(
    kind: ConflictKind,
    featureId: string,
    paramName: string,
    baseValue: ParamValue,
    oursValue: ParamValue,
    theirsValue: ParamValue,
    baseSnapshot: Option<Feature>,
    oursSnapshot: Option<Feature>,
    theirsSnapshot: Option<Feature>,
    insertIndexHint: int)

  /** featureContentEquals */
  predicate ContentEquals(a: Feature, b: Feature) {
    && a.kind == b.kind
    && a.suppressed == b.suppressed
    && |a.params| == |b.params|
    && forall p :: p in a.params ==> p in b.params && ValueEquals(a.params[p], b.params[p])
  }

  /** One feature as the three trees have it. */
  datatype Sides = Sides(base: Option<Feature>, ours: Option<Feature>, theirs: Option<Feature>)

  function Param(f: Feature, p: string): Option<ParamValue> {
    if p in f.params then Some(f.params[p]) else None
  }

  // ── One parameter ──────────────────────────────────────

  predicate Changed(base: Option<ParamValue>, side: Option<ParamValue>) {
    if base.None? then side.Some? else side.None? || !ValueEquals(base.value, side.value)
  }

  predicate Agree(ours: Option<ParamValue>, theirs: Option<ParamValue>) {
    (ours.None? && theirs.None?) || (ours.Some? && theirs.Some? && ValueEquals(ours.value, theirs.value))
  }

  /** mergeOneParam: the value kept (None when the parameter goes) and whether the sides clash. */
  datatype ParamOutcome = ParamOutcome(value: Option<ParamValue>, clash: bool)

  function MergeParam(base: Option<ParamValue>, ours: Option<ParamValue>, theirs: Option<ParamValue>): ParamOutcome {
    if !Changed(base, ours) && !Changed(base, theirs) then ParamOutcome(base, false)
    else if !Changed(base, theirs) then ParamOutcome(ours, false)
    else if !Changed(base, ours) then ParamOutcome(theirs, false)
    else if Agree(ours, theirs) then ParamOutcome(ours, false)
    else ParamOutcome(base, true)
  }

  function ParamNames(s: Sides): set<string> {
    (if s.base.Some? then s.base.value.params.Keys else {})
    + (if s.ours.Some? then s.ours.value.params.Keys else {})
    + (if s.theirs.Some? then s.theirs.value.params.Keys else {})
  }

  function ParamResult(b: Feature, o: Feature, t: Feature, p: string): ParamOutcome {
    MergeParam(Param(b, p), Param(o, p), Param(t, p))
  }

  // ── One feature ────────────────────────────────────────

  /** Type and suppression: the side that changed, if only one did or both agree; else base. */
  function MergeFacet<T(==)>(base: T, ours: T, theirs: T): T {
    if ours != base && theirs != base then (if ours == theirs then ours else base)
    else if ours != base then ours
    else theirs
  }

  function MergeContent(b: Feature, o: Feature, t: Feature): Feature {
    b.(kind := MergeFacet(b.kind, o.kind, t.kind),
       suppressed := MergeFacet(b.suppressed, o.suppressed, t.suppressed),
       params := map p | p in ParamNames(Sides(Some(b), Some(o), Some(t))) && ParamResult(b, o, t, p).value.Some?
                   :: ParamResult(b, o, t, p).value.value)
  }

  function MergedFeature(s: Sides): Option<Feature> {
    match s
    case Sides(None, Some(o), _) => Some(o)
    case Sides(None, None, t) => t
    case Sides(Some(b), None, Some(t)) => if ContentEquals(b, t) then None else Some(b)
    case Sides(Some(b), Some(o), None) => if ContentEquals(b, o) then None else Some(b)
    case Sides(Some(b), None, None) => None
    case Sides(Some(b), Some(o), Some(t)) => Some(MergeContent(b, o, t))
  }

  function OrEmpty(v: Option<ParamValue>): ParamValue {
    if v.Some? then v.value else StringV("")
  }

  function Simple(kind: ConflictKind, id: string, p: string, b: ParamValue, o: ParamValue, t: ParamValue): MergeConflict {
    MergeConflict(kind, id, p, b, o, t, None, None, None, -1)
  }

  function ParamClash(id: string, p: string, b: Option<ParamValue>, o: Option<ParamValue>, t: Option<ParamValue>): MergeConflict {
    Simple(ParamConflict, id, p, OrEmpty(b), OrEmpty(o), OrEmpty(t))
  }

  function AddRemove(id: string, s: Sides, hint: int): MergeConflict {
    MergeConflict(AddRemoveConflict, id, "", StringV(""),
                  StringV(if s.ours.Some? then "<modified>" else "<removed>"),
                  StringV(if s.theirs.Some? then "<modified>" else "<removed>"),
                  s.base, s.ours, s.theirs, hint)
  }

  function Disagrees(id: string, o: Feature, t: Feature, p: string): MergeConflict {
    ParamClash(id, p, Param(o, p), Param(o, p), Param(t, p))
  }

  /** Parameters of a feature added on both sides that are missing on one or differ. */
  function Differing(id: string, o: Feature, t: Feature): set<MergeConflict> {
    set p | p in o.params.Keys + t.params.Keys
            && !(p in o.params && p in t.params && ValueEquals(o.params[p], t.params[p])) :: Disagrees(id, o, t, p)
  }

  /** Parameters of a feature present everywhere that both sides changed differently. */
  function Clashes(id: string, b: Feature, o: Feature, t: Feature): set<MergeConflict> {
    set p | p in ParamNames(Sides(Some(b), Some(o), Some(t))) && ParamResult(b, o, t, p).clash
      :: ParamClash(id, p, Param(b, p), Param(o, p), Param(t, p))
  }

  /** Every conflict about the content of one feature. */
  function ContentConflicts(id: string, s: Sides, hint: int): set<MergeConflict> {
    match s
    case Sides(None, Some(o), Some(t)) =>
      if ContentEquals(o, t) then {}
      else if o.kind != t.kind then {Simple(TypeConflict, id, "", StringV(""), StringV(o.kind), StringV(t.kind))}
      else
        (if o.suppressed != t.suppressed then
           {Simple(SuppressionConflict, id, "", BoolV(o.suppressed), BoolV(o.suppressed), BoolV(t.suppressed))}
         else {})
        + Differing(id, o, t)
    case Sides(Some(b), None, Some(t)) => if ContentEquals(b, t) then {} else {AddRemove(id, s, hint)}
    case Sides(Some(b), Some(o), None) => if ContentEquals(b, o) then {} else {AddRemove(id, s, hint)}
    case Sides(Some(b), Some(o), Some(t)) =>
      (if o.kind != b.kind && t.kind != b.kind && o.kind != t.kind then
         {Simple(TypeConflict, id, "", StringV(b.kind), StringV(o.kind), StringV(t.kind))}
       else {})
      + (if o.suppressed != b.suppressed && t.suppressed != b.suppressed && o.suppressed != t.suppressed then
           {Simple(SuppressionConflict, id, "", BoolV(b.suppressed), BoolV(o.suppressed), BoolV(t.suppressed))}
         else {})
      + Clashes(id, b, o, t)
    case _ => {}
  }

  // ── The three lists ────────────────────────────────────

  /** Index of the last occurrence, -1 when absent: what indexById keeps. */
  function LastIndex(ids: seq<string>, id: string): (r: int)
    ensures -1 <= r < |ids|
    ensures 0 <= r ==> ids[r] == id
    ensures r == -1 <==> id !in ids
  {
    if ids == [] then -1
    else if ids[|ids| - 1] == id then |ids| - 1
    else LastIndex(ids[..|ids| - 1], id)
  }

  function Lookup(fs: seq<Feature>, id: string): (r: Option<Feature>)
    ensures r.Some? ==> r.value.id == id && r.value in fs
    ensures r.None? <==> id !in Ids(fs)
  {
    var i := LastIndex(Ids(fs), id);
    if i < 0 then None else (assert Ids(fs)[i] == fs[i].id; Some(fs[i]))
  }

  datatype Merge = Merge(base: seq<Feature>, ours: seq<Feature>, theirs: seq<Feature>)
  {
    function Of(id: string): Sides {
      Sides(Lookup(base, id), Lookup(ours, id), Lookup(theirs, id))
    }

    /** The feature that survives under this id, if any. */
    function Result(id: string): Option<Feature> {
      MergedFeature(Of(id))
    }

    predicate Keeps(id: string) {
      Result(id).Some?
    }

    function Hint(id: string): int {
      LastIndex(Ids(base), id)
    }

    function Raised(id: string): set<MergeConflict> {
      ContentConflicts(id, Of(id), Hint(id))
    }

    function AllIds(): seq<string> {
      Ids(base) + Ids(ours) + Ids(theirs)
    }

    /** The base ids that survive, in base order. */
    function Retained(): seq<string> {
      Select(Ids(base), (id: string) => Keeps(id))
    }

    /** A side's ids among the retained ones, in that side's order. */
    function Relative(side: seq<Feature>): seq<string> {
      Select(Ids(side), (id: string) => Keeps(id) && id in Retained())
    }

    /** The retained ids, then new ids of ours, then the remaining new ids of theirs. */
    function Order(): seq<string> {
      var kept := Retained();
      var withOurs := kept + Newcomers(kept, Ids(ours));
      withOurs + Newcomers(withOurs, Ids(theirs))
    }

    /** Ids kept and not yet placed, each once. */
    function Newcomers(placed: seq<string>, ids: seq<string>): seq<string> {
      if ids == [] then []
      else
        var before := Newcomers(placed, ids[..|ids| - 1]);
        var id := ids[|ids| - 1];
        if id in placed || id in before || !Keeps(id) then before else before + [id]
    }

    predicate Moved(relative: seq<string>, i: nat)
      requires i < |Retained()|
    {
      Retained()[i] in relative && LastIndex(relative, Retained()[i]) != i
    }

    predicate PositionsClash(i: nat)
      requires i < |Retained()|
    {
      var o, t := Relative(ours), Relative(theirs);
      Moved(o, i) && Moved(t, i) && LastIndex(o, Retained()[i]) != LastIndex(t, Retained()[i])
    }

    function PositionConflictAt(i: nat): MergeConflict
      requires i < |Retained()|
    {
      var id := Retained()[i];
      Simple(PositionConflict, id, "", IntV(i), IntV(LastIndex(Relative(ours), id)), IntV(LastIndex(Relative(theirs), id)))
    }

    /** Every conflict the merge reports. */
    ghost predicate Reports(c: MergeConflict) {
      (c.featureId in AllIds() && c in Raised(c.featureId))
      || exists i: nat :: i < |Retained()| && PositionsClash(i) && c == PositionConflictAt(i)
    }

    /** The features entered into the merged tree: up to the first id the tree refuses. */
    function Features(): seq<Feature> {
      Materialise(UniquePrefix(Order()))
    }

    function Materialise(ids: seq<string>): seq<Feature> {
      if ids == [] then []
      else
        var last := Result(ids[|ids| - 1]);
        Materialise(ids[..|ids| - 1]) + if last.Some? then [last.value] else []
    }
  }

  function Select(ids: seq<string>, keep: string -> bool): seq<string> {
    if ids == [] then []
    else Select(ids[..|ids| - 1], keep) + if keep(ids[|ids| - 1]) then [ids[|ids| - 1]] else []
  }

  /** The longest prefix without a repeated id. */
  function UniquePrefix(ids: seq<string>): seq<string> {
    if Distinct(ids) then ids else UniquePrefix(ids[..|ids| - 1])
  }
}
