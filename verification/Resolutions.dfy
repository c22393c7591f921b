/**
 applyResolutions (src/feature/merge.cpp): the user's choices worked into the merged feature list,
 conflict by conflict, and what the outcome is for the conflicts a merge reports.
 */
module Resolutions {
  import opened Wrappers
  import opened FeatureModel
  import opened ParamJson
  import opened TreeState
  import opened MergeSpec
  import opened MergeLaws

  datatype Choice = Ours | Theirs | Base | Custom

  datatype Resolution = Resolution(featureId: string, paramName: string, choice: Choice, customValue: ParamValue)

  /** The exception of std::get on a value of another alternative. */
  datatype BadVariant = BadVariant

  type Outcome = Result<seq<Feature>, BadVariant>

  /** The last resolution given for a feature and parameter. */
  function FindResolution(rs: seq<Resolution>, id: string, p: string): (r: Option<Resolution>)
    ensures r.Some? ==> r.value in rs && r.value.featureId == id && r.value.paramName == p
    ensures r.None? ==> forall x :: x in rs ==> !(x.featureId == id && x.paramName == p)
  {
    if rs == [] then None
    else
      var last := rs[|rs| - 1];
      if last.featureId == id && last.paramName == p then Some(last)
      else (assert rs == rs[..|rs| - 1] + [last]; FindResolution(rs[..|rs| - 1], id, p))
  }

  function Chosen(c: MergeConflict, r: Resolution): ParamValue {
    match r.choice
    case Ours => c.oursValue
    case Theirs => c.theirsValue
    case Base => c.baseValue
    case Custom => r.customValue
  }

  /** The feature a structural choice asks for; None to remove it. Custom falls back to Base. */
  function ChosenFeature(c: MergeConflict, r: Resolution): Option<Feature> {
    match r.choice
    case Ours => c.oursSnapshot
    case Theirs => c.theirsSnapshot
    case _ => c.baseSnapshot
  }

  function DropFeature(out: seq<Feature>, id: string): seq<Feature> {
    var i := Find(out, id);
    if i < 0 then out else RemoveAt(out, i)
  }

  function PutFeature(out: seq<Feature>, f: Feature, hint: int): seq<Feature> {
    var i := Find(out, f.id);
    if 0 <= i then out[i := f]
    else if hint < 0 || hint > |out| then out + [f]
    else InsertAt(out, hint, f)
  }

  /** One conflict worked into the list. */
  function ApplyOne(out: seq<Feature>, c: MergeConflict, rs: seq<Resolution>): Outcome {
    var r := FindResolution(rs, c.featureId, c.paramName);
    var i := Find(out, c.featureId);
    if r.None? then Ok(out)
    else match c.kind
      case ParamConflict =>
        if i < 0 then Ok(out)
        else Ok(out[i := out[i].(params := out[i].params[c.paramName := Chosen(c, r.value)])])
      case SuppressionConflict =>
        if i < 0 then Ok(out)
        else if !Chosen(c, r.value).BoolV? then Thrown(BadVariant)
        else Ok(out[i := out[i].(suppressed := Chosen(c, r.value).b)])
      case TypeConflict =>
        if i < 0 then Ok(out)
        else if !Chosen(c, r.value).StringV? then Thrown(BadVariant)
        else Ok(out[i := out[i].(kind := Chosen(c, r.value).s)])
      case AddRemoveConflict =>
        var f := ChosenFeature(c, r.value);
        if f.None? then Ok(DropFeature(out, c.featureId)) else Ok(PutFeature(out, f.value, c.insertIndexHint))
      case PositionConflict => Ok(out)
  }

  function Apply(merged: seq<Feature>, cs: seq<MergeConflict>, rs: seq<Resolution>): Outcome {
    if cs == [] then Ok(merged)
    else
      match Apply(merged, cs[..|cs| - 1], rs)
      case Thrown(e) => Thrown(e)
      case Ok(out) => ApplyOne(out, cs[|cs| - 1], rs)
  }

  /** The resolution loop, on a working copy edited in place. */
  method ApplyResolutions(merged: seq<Feature>, conflicts: seq<MergeConflict>, resolutions: seq<Resolution>) returns (r: Outcome)
    ensures r == Apply(merged, conflicts, resolutions)
  {
    var byKey := IndexResolutions(resolutions);
    var out := merged;
    for n := 0 to |conflicts|
      invariant Apply(merged, conflicts[..n], resolutions) == Ok(out)
    {
      var c := conflicts[n];
      ApplyNext(merged, conflicts, resolutions, n);
      hide Apply;
      if (c.featureId, c.paramName) !in byKey { continue; }
      var res := byKey[(c.featureId, c.paramName)];
      var i := FindFeature(out, c.featureId);
      match c.kind {
        case ParamConflict =>
          if 0 <= i { out := out[i := out[i].(params := out[i].params[c.paramName := Chosen(c, res)])]; }
        case SuppressionConflict =>
          if 0 <= i {
            var v := Chosen(c, res);
            if !v.BoolV? { ThrownStays(merged, conflicts, resolutions, n + 1); return Thrown(BadVariant); }
            out := out[i := out[i].(suppressed := v.b)];
          }
        case TypeConflict =>
          if 0 <= i {
            var v := Chosen(c, res);
            if !v.StringV? { ThrownStays(merged, conflicts, resolutions, n + 1); return Thrown(BadVariant); }
            out := out[i := out[i].(kind := v.s)];
          }
        case AddRemoveConflict =>
          var f := ChosenFeature(c, res);
          if f.Some? {
            var at := FindFeature(out, f.value.id);
            if 0 <= at { out := out[at := f.value]; }
            else if c.insertIndexHint < 0 || c.insertIndexHint > |out| { out := out + [f.value]; }
            else { out := out[..c.insertIndexHint] + [f.value] + out[c.insertIndexHint..]; }
          } else if 0 <= i {
            out := out[..i] + out[i + 1..];
          }
        case PositionConflict =>
      }
    }
    assert conflicts[..|conflicts|] == conflicts;
    return Ok(out);
  }

  method IndexResolutions(rs: seq<Resolution>) returns (byKey: map<(string, string), Resolution>)
    ensures forall id, p :: (id, p) in byKey <==> FindResolution(rs, id, p).Some?
    ensures forall id, p :: (id, p) in byKey ==> FindResolution(rs, id, p) == Some(byKey[(id, p)])
  {
    byKey := map[];
    for i := 0 to |rs|
      invariant forall id, p :: (id, p) in byKey <==> FindResolution(rs[..i], id, p).Some?
      invariant forall id, p :: (id, p) in byKey ==> FindResolution(rs[..i], id, p) == Some(byKey[(id, p)])
    {
      assert rs[..i + 1][..i] == rs[..i];
      byKey := byKey[(rs[i].featureId, rs[i].paramName) := rs[i]];
    }
    assert rs[..|rs|] == rs;
  }

  method FindFeature(out: seq<Feature>, id: string) returns (r: int)
    ensures r == Find(out, id)
  {
    for i := 0 to |out|
      invariant forall j :: 0 <= j < i ==> out[j].id != id
    {
      if out[i].id == id { FirstFind(out, id, i); return i; }
    }
    return -1;
  }

  lemma {:induction false} ApplyNext(merged: seq<Feature>, cs: seq<MergeConflict>, rs: seq<Resolution>, n: nat)
    requires n < |cs| && Apply(merged, cs[..n], rs).Ok?
    ensures Apply(merged, cs[..n + 1], rs) == ApplyOne(Apply(merged, cs[..n], rs).value, cs[n], rs)
  {
    assert cs[..n + 1][..n] == cs[..n];
  }

  lemma {:induction false} ThrownStays(merged: seq<Feature>, cs: seq<MergeConflict>, rs: seq<Resolution>, n: nat)
    requires n <= |cs| && Apply(merged, cs[..n], rs).Thrown?
    ensures Apply(merged, cs, rs) == Thrown(BadVariant)
    decreases |cs|
  {
    if n == |cs| {
      assert cs[..n] == cs;
      assert Apply(merged, cs, rs).error.BadVariant?;
    } else {
      assert cs[..|cs| - 1][..n] == cs[..n];
      ThrownStays(merged, cs[..|cs| - 1], rs, n);
    }
  }
}
