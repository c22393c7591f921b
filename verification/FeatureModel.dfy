/**
 Features, their parameters, and the geometry kernel as an uninterpreted executor
 (src/feature/feature.h).

 Only finite doubles carry a number; NaN and the infinities are kept apart because
 the validators look for them.
 */
module FeatureModel {
  import opened Wrappers

  datatype Double = Finite(value: real) | PosInf | NegInf | NaN

  datatype Triple = Triple(x: Double, y: Double, z: Double)

  datatype ElementRef = ElementRef(featureId: string, elementName: string, elementType: string)

  /** The variant of feature.h, alternative by alternative. */
  datatype ParamValue =
    | DoubleV(d: Double)
    | IntV(i: int)
    | BoolV(b: bool)
    | StringV(s: string)
    | VecV(vec: Triple)
    | PntV(pnt: Triple)
    | DirV(dir: Triple)
    | Ax1V(loc: Triple, axis: Triple)
    | Ax2V(loc: Triple, axis: Triple, xdir: Triple)
    | PlnV(loc: Triple, axis: Triple, xdir: Triple)
    | ElemRefV(ref: ElementRef)
    | ElemRefListV(refs: seq<ElementRef>)
    | ConfigRefV(name: string)

  /** The discriminators of feature_schema.h, in variant order. */
  datatype ParamType =
    | TDouble | TInt | TBool | TString | TVec | TPnt | TDir | TAx1 | TAx2 | TPln
    | TElemRef | TElemRefList | TConfigRef

  function TypeOf(v: ParamValue): ParamType {
    match v
    case DoubleV(_) => TDouble
    case IntV(_) => TInt
    case BoolV(_) => TBool
    case StringV(_) => TString
    case VecV(_) => TVec
    case PntV(_) => TPnt
    case DirV(_) => TDir
    case Ax1V(_, _) => TAx1
    case Ax2V(_, _, _) => TAx2
    case PlnV(_, _, _) => TPln
    case ElemRefV(_) => TElemRef
    case ElemRefListV(_) => TElemRefList
    case ConfigRefV(_) => TConfigRef
  }

  /** IEEE less-than: false whenever NaN is involved. */
  predicate Lt(a: Double, b: Double) {
    match (a, b)
    case (Finite(x), Finite(y)) => x < y
    case (Finite(_), PosInf) => true
    case (NegInf, Finite(_)) => true
    case (NegInf, PosInf) => true
    case (_, _) => false
  }

  predicate FiniteTriple(t: Triple) {
    t.x.Finite? && t.y.Finite? && t.z.Finite?
  }

  datatype FeatureStatus = OK | BrokenReference | ExecutionFailed | Suppressed | NotExecuted

  datatype Feature = Feature(
    id: string,
    kind: string,
    params: map<string, ParamValue>,
    suppressed: bool,
    status: FeatureStatus,
    errorMessage: string)

  /** True for the two statuses that getBrokenFeatures reports. */
  predicate Failed(s: FeatureStatus) {
    s == BrokenReference || s == ExecutionFailed
  }

  /** A feature with the result of its last execution forgotten. */
  function Cleared(f: Feature): Feature {
    f.(status := OK, errorMessage := "")
  }

  /** Equal in everything the user edits: id, type, parameters, suppression. */
  predicate SameContent(f: Feature, g: Feature) {
    Cleared(f) == Cleared(g)
  }

  predicate SameContents(fs: seq<Feature>, gs: seq<Feature>) {
    |fs| == |gs| && forall i :: 0 <= i < |fs| ==> SameContent(fs[i], gs[i])
  }

  function Ids(fs: seq<Feature>): seq<string> {
    seq(|fs|, i requires 0 <= i < |fs| => fs[i].id)
  }

  predicate Distinct(ids: seq<string>) {
    forall i, j :: 0 <= i < j < |ids| ==> ids[i] != ids[j]
  }

  /** Index of the first occurrence, -1 when absent (feature_tree.cpp, findIndex). */
  function IndexOf(ids: seq<string>, id: string): (r: int)
    ensures -1 <= r < |ids|
    ensures 0 <= r ==> ids[r] == id && id !in ids[..r]
    ensures r == -1 <==> id !in ids
  {
    if |ids| == 0 then -1
    else
      var r := IndexOf(ids[..|ids| - 1], id);
      if 0 <= r then (assert ids[..|ids| - 1][..r] == ids[..r]; r)
      else if ids[|ids| - 1] == id then |ids| - 1
      else -1
  }

  lemma {:induction false} IndexOfDistinct(ids: seq<string>, i: nat)
    requires Distinct(ids) && i < |ids|
    ensures IndexOf(ids, ids[i]) == i
  {
  }

  /** The references a parameter carries. */
  function RefsIn(v: ParamValue): set<ElementRef> {
    match v
    case ElemRefV(r) => {r}
    case ElemRefListV(rs) => set r | r in rs
    case _ => {}
  }

  function RefsOf(f: Feature): set<ElementRef> {
    set p, r | p in f.params && r in RefsIn(f.params[p]) :: r
  }
}
