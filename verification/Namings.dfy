/**
 The places at which a feature list names one of its features: what replaceReference counts.
 */
module Namings {
  import opened FeatureModel
  import opened TreeState

  function RefList(v: ParamValue): seq<ElementRef> {
    match v
    case ElemRefV(r) => [r]
    case ElemRefListV(rs) => rs
    case _ => []
  }

  /** The positions of the references to the feature. */
  function Positions(rs: seq<ElementRef>, id: string): set<nat> {
    set i: nat | i < |rs| && rs[i].featureId == id
  }

  datatype Place = Place(param: string, position: nat)

  function PlacesAt(params: map<string, ParamValue>, p: string, id: string): set<Place>
    requires p in params
  {
    set i | i in Positions(RefList(params[p]), id) :: Place(p, i)
  }

  function ParamPlaces(params: map<string, ParamValue>, names: set<string>, id: string): set<Place> {
    set p, x | p in names && p in params && x in PlacesAt(params, p, id) :: x
  }

  /** A reference to the feature: in which feature, under which parameter, and where in its list. */
  datatype Naming = Naming(feature: nat, place: Place)

  function PlacesNaming(fs: seq<Feature>, id: string): set<Naming> {
    if fs == [] then {}
    else
      var n := |fs| - 1;
      PlacesNaming(fs[..n], id) + set x | x in ParamPlaces(fs[n].params, fs[n].params.Keys, id) :: Naming(n, x)
  }

  /** Which places those are. */
  lemma {:induction false} NamesAt(fs: seq<Feature>, id: string, k: nat, p: string, i: nat)
    ensures Naming(k, Place(p, i)) in PlacesNaming(fs, id)
            <==> k < |fs| && p in fs[k].params && i < |RefList(fs[k].params[p])| && RefList(fs[k].params[p])[i].featureId == id
  {
    if fs != [] {
      var n := |fs| - 1;
      NamesAt(fs[..n], id, k, p, i);
      PlaceIn(fs[n].params, p, i, id);
      hide ParamPlaces;
    }
  }

  lemma {:induction false} PlaceIn(params: map<string, ParamValue>, p: string, i: nat, id: string)
    ensures Place(p, i) in ParamPlaces(params, params.Keys, id)
            <==> p in params && i < |RefList(params[p])| && RefList(params[p])[i].featureId == id
  {
    if p in params && i in Positions(RefList(params[p]), id) { assert Place(p, i) in PlacesAt(params, p, id); }
    if Place(p, i) in ParamPlaces(params, params.Keys, id) {
      var q :| q in params && Place(p, i) in PlacesAt(params, q, id);
    }
  }

  lemma {:induction false} CountAtParam(positions: set<nat>, p: string)
    ensures |set i | i in positions :: Place(p, i)| == |positions|
    decreases |positions|
  {
    if positions != {} {
      var i :| i in positions;
      CountAtParam(positions - {i}, p);
      assert (set j | j in positions :: Place(p, j)) == (set j | j in positions - {i} :: Place(p, j)) + {Place(p, i)};
    }
  }

  lemma {:induction false} CountInFeature(places: set<Place>, k: nat)
    ensures |set x | x in places :: Naming(k, x)| == |places|
    decreases |places|
  {
    if places != {} {
      var x :| x in places;
      CountInFeature(places - {x}, k);
      assert (set y | y in places :: Naming(k, y)) == (set y | y in places - {x} :: Naming(k, y)) + {Naming(k, x)};
    }
  }

  lemma {:induction false} NoPositions(id: string)
    ensures Positions([], id) == {}
  {
  }

  lemma {:induction false} OneMorePosition(rs: seq<ElementRef>, i: nat, id: string)
    requires i < |rs|
    ensures |Positions(rs[..i + 1], id)| == |Positions(rs[..i], id)| + if rs[i].featureId == id then 1 else 0
    ensures i == 0 ==> rs[..0] == []
    ensures i + 1 == |rs| ==> rs[..i + 1] == rs
  {
    var was, now := Positions(rs[..i], id), Positions(rs[..i + 1], id);
    var here: set<nat> := if rs[i].featureId == id then {i} else {};
    forall j: nat ensures j in now <==> j in was + here {
      if j < i { assert rs[..i + 1][j] == rs[..i][j]; }
    }
    assert now == was + here && was !! here;
  }

  lemma {:induction false} NoParams(params: map<string, ParamValue>, id: string)
    ensures ParamPlaces(params, {}, id) == {}
  {
  }

  lemma {:induction false} OneMoreParam(params: map<string, ParamValue>, names: set<string>, p: string, id: string)
    requires p in params && p !in names
    ensures |ParamPlaces(params, names + {p}, id)| == |ParamPlaces(params, names, id)| + |Positions(RefList(params[p]), id)|
  {
    CountAtParam(Positions(RefList(params[p]), id), p);
    forall q, x | q in params && x in PlacesAt(params, q, id) ensures x.param == q { }
    hide Positions, PlacesAt;
    assert ParamPlaces(params, names + {p}, id) == ParamPlaces(params, names, id) + PlacesAt(params, p, id);
    assert ParamPlaces(params, names, id) !! PlacesAt(params, p, id);
    assert PlacesAt(params, p, id) == set i | i in Positions(RefList(params[p]), id) :: Place(p, i) by { PlacesAtIs(params, p, id); }
  }

  lemma {:induction false} PlacesAtIs(params: map<string, ParamValue>, p: string, id: string)
    requires p in params
    ensures PlacesAt(params, p, id) == set i | i in Positions(RefList(params[p]), id) :: Place(p, i)
  {
  }

  lemma {:induction false} NoFeatures(id: string)
    ensures PlacesNaming([], id) == {}
  {
  }

  lemma {:induction false} NamingBefore(fs: seq<Feature>, id: string, x: Naming)
    requires x in PlacesNaming(fs, id)
    ensures x.feature < |fs|
  {
    if fs != [] && x in PlacesNaming(fs[..|fs| - 1], id) { NamingBefore(fs[..|fs| - 1], id, x); }
  }

  lemma {:induction false} OneMoreFeature(fs: seq<Feature>, n: nat, id: string)
    requires n < |fs|
    ensures |PlacesNaming(fs[..n + 1], id)| == |PlacesNaming(fs[..n], id)| + |ParamPlaces(fs[n].params, fs[n].params.Keys, id)|
    ensures n == 0 ==> fs[..0] == []
  {
    var places := ParamPlaces(fs[n].params, fs[n].params.Keys, id);
    CountInFeature(places, n);
    var here := set x | x in places :: Naming(n, x);
    assert fs[..n + 1][..n] == fs[..n];
    hide ParamPlaces;
    assert PlacesNaming(fs[..n + 1], id) == PlacesNaming(fs[..n], id) + here;
    forall x | x in PlacesNaming(fs[..n], id) ensures x !in here { NamingBefore(fs[..n], id, x); }
    assert PlacesNaming(fs[..n], id) !! here;
  }

  lemma {:induction false} NamesIffCounted(f: Feature, id: string)
    ensures Names(f, id) <==> |ParamPlaces(f.params, f.params.Keys, id)| > 0
  {
    var places := ParamPlaces(f.params, f.params.Keys, id);
    if Names(f, id) {
      var r :| r in RefsOf(f) && r.featureId == id;
      var p :| p in f.params && r in RefsIn(f.params[p]);
      var i :| 0 <= i < |RefList(f.params[p])| && RefList(f.params[p])[i] == r;
      assert Place(p, i) in PlacesAt(f.params, p, id);
      assert Place(p, i) in places;
    }
    if |places| > 0 {
      var x :| x in places;
      var p :| p in f.params && x in PlacesAt(f.params, p, id);
      var i :| i in Positions(RefList(f.params[p]), id) && x == Place(p, i);
      var r := RefList(f.params[p])[i];
      assert r in RefsIn(f.params[p]);
      assert r in RefsOf(f);
    }
  }
}
