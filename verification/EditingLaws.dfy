/**
 What each edit of a feature tree does to the list, read off the tree it leaves (src/feature/feature_tree.cpp):
 what changed, what did not, which features are dirty, and which edit undoes which.
 */
module EditingLaws {
  import opened Wrappers
  import opened FeatureModel
  import opened TagAllocation
  import opened ReplaySpec
  import opened TreeState
  import opened ReplayTheory
  import opened IncrementalReplay
  import opened Namings

  // ── Marks ──────────────────────────────────────────────

  /** Dirty are the features from `at` on and those that were dirty before. */
  ghost predicate DirtyOnlyFrom(was: map<string, bool>, u: Tree, at: int) {
    forall i :: 0 <= i < |u.features| ==>
      var id := u.features[i].id;
      id in u.dirty && (u.dirty[id] <==> i >= at || (id in was && was[id]))
  }

  /** Everything but the features and their marks is as it was. */
  predicate SameBookkeeping(t: Tree, u: Tree) {
    && u.cache == t.cache && u.snapshots == t.snapshots && u.rollbackIndex == t.rollbackIndex
    && u.counter == t.counter && u.documentId == t.documentId
  }

  lemma {:induction false} MarkedFrom(u: Tree, was: map<string, bool>, at: nat)
    requires at <= |u.features| && UniqueIds(u.features) && u.dirty == Mark(u.features, was, at)
    requires forall i :: 0 <= i < at ==> u.features[i].id in was
    ensures DirtyOnlyFrom(was, u, at)
  {
    MarkSpec(u.features, was, at);
    forall i | 0 <= i < at ensures u.features[i].id !in IdSet(u.features[at..]) {
      assert forall f :: f in u.features[at..] ==> f.id != u.features[i].id;
    }
  }

  lemma {:induction false} KnownIds(t: Tree, i: nat)
    requires WellFormed(t) && i < |t.features|
    ensures t.features[i].id in t.dirty
  {
    assert t.features[i] in t.features;
  }

  // ── Inserting, removing, moving ────────────────────────

  /** The place an index stands for: the nearest one in a list of `n` places. */
  predicate Nearest(index: int, n: nat, at: int) {
    0 <= at < n && (index < 0 ==> at == 0) && (index >= n ==> at == n - 1) && (0 <= index < n ==> at == index)
  }

  /** `fs` is `gs` with one more feature, `f` at `at`. */
  predicate WithOneAt(gs: seq<Feature>, fs: seq<Feature>, at: int, f: Feature) {
    0 <= at < |fs| && fs[at] == f && fs[..at] + fs[at + 1..] == gs
  }

  predicate Has(fs: seq<Feature>, id: string) {
    exists i :: 0 <= i < |fs| && fs[i].id == id
  }

  lemma {:induction false} FoundIff(fs: seq<Feature>, id: string)
    ensures 0 <= Find(fs, id) <==> Has(fs, id)
  {
  }

  lemma {:induction false} InsertedMeans(t: Tree, at: nat, f: Feature)
    requires WellFormed(t) && at <= |t.features| && !Has(t.features, f.id)
    ensures var u := Inserted(t, at, f);
            && WellFormed(u) && UniqueIds(u.features)
            && WithOneAt(t.features, u.features, at, f) && SameBookkeeping(t, u) && DirtyOnlyFrom(t.dirty, u, at)
  {
    var u := Inserted(t, at, f);
    InsertedWellFormed(t, at, f);
    InsertedAt(t.features, at, f);
    WithOneInserted(t.features, at, f);
    assert UniqueIds(u.features) && u.features[..at] == t.features[..at];
    hide InsertAt, Mark, UniqueIds, WithOneAt;
    forall i: nat | i < at ensures u.features[i].id in t.dirty {
      assert u.features[..at][i] == t.features[..at][i];
      KnownIds(t, i);
    }
    hide WellFormed;
    MarkedFrom(u, t.dirty, at);
  }

  /** A feature is taken exactly when its id is new, at the nearest place to the index asked for. */
  lemma {:induction false} InsertMeans(t: Tree, index: int, f: Feature) returns (at: int)
    requires WellFormed(t)
    ensures var (u, ok) := Insert(t, index, f);
            && (ok <==> !Has(t.features, f.id)) && (!ok ==> u == t)
            && (ok ==> Nearest(index, |t.features| + 1, at) && WithOneAt(t.features, u.features, at, f)
                       && SameBookkeeping(t, u) && DirtyOnlyFrom(t.dirty, u, at))
  {
    at := if index < 0 then 0 else if index > |t.features| then |t.features| else index;
    FoundIff(t.features, f.id);
    hide WellFormed, InsertAt, Mark, Find, Has, DirtyOnlyFrom, WithOneAt;
    if Find(t.features, f.id) < 0 {
      InsertedMeans(t, at, f);
      assert Insert(t, index, f).0 == Inserted(t, at, f);
    }
  }

  /** Adding is inserting at the end. */
  lemma {:induction false} AddMeans(t: Tree, f: Feature)
    ensures Add(t, f) == Insert(t, |t.features|, f)
  {
    hide InsertAt, Mark, Find;
    if Find(t.features, f.id) < 0 { AddIsInsert(t, f); }
  }

  lemma {:induction false} RemovedMeans(t: Tree, at: nat)
    requires WellFormed(t) && at < |t.features|
    ensures var u, id := Removed(t, at), t.features[at].id;
            && WithOneAt(u.features, t.features, at, t.features[at])
            && u.cache == t.cache - {id} && u.snapshots == t.snapshots - {id}
            && u.rollbackIndex == t.rollbackIndex && u.counter == t.counter && u.documentId == t.documentId
            && id !in u.dirty && DirtyOnlyFrom(t.dirty, u, at)
  {
    var u, id := Removed(t, at), t.features[at].id;
    RemovedIds(t.features, at);
    RemovedAt(t.features, at);
    RemovedWellFormed(t, at);
    assert id !in IdSet(u.features) && u.dirty.Keys == IdSet(u.features);
    forall i: nat | i < at ensures u.features[i].id in t.dirty - {id} {
      assert u.features[..at][i] == t.features[..at][i];
      KnownIds(t, i);
    }
    hide Mark, WellFormed, IdSet;
    MarkedFrom(u, t.dirty - {id}, at);
    assert DirtyOnlyFrom(t.dirty - {id}, u, at);
  }

  /** Removal takes out the feature and its three entries, and marks what follows it. */
  lemma {:induction false} RemoveMeans(t: Tree, id: string) returns (at: int)
    requires WellFormed(t)
    ensures var (u, ok) := Remove(t, id);
            && (ok <==> Has(t.features, id)) && (!ok ==> u == t)
            && (ok ==> 0 <= at < |t.features| && t.features[at].id == id && WithOneAt(u.features, t.features, at, t.features[at])
                       && u.cache == t.cache - {id} && u.snapshots == t.snapshots - {id}
                       && u.rollbackIndex == t.rollbackIndex && u.counter == t.counter && u.documentId == t.documentId
                       && id !in u.dirty && DirtyOnlyFrom(t.dirty, u, at))
  {
    at := Find(t.features, id);
    FoundIff(t.features, id);
    hide WellFormed, RemoveAt, Mark, Find, Has, DirtyOnlyFrom, WithOneAt;
    if 0 <= at {
      RemovedMeans(t, at);
      assert Remove(t, id).0 == Removed(t, at);
    }
  }

  /** Removing what was just inserted restores the list and all bookkeeping but the marks. */
  lemma {:induction false} RemoveUndoesInsert(t: Tree, index: int, f: Feature)
    requires WellFormed(t) && !Has(t.features, f.id)
    ensures var (u, ok) := Remove(Insert(t, index, f).0, f.id); ok && u.features == t.features && SameBookkeeping(t, u)
  {
    hide *;
    var at := InsertMeans(t, index, f);
    var v := Insert(t, index, f).0;
    InsertIsWellFormed(t, index, f);
    var from := RemoveMeans(v, f.id);
    WithOneHas(t.features, v.features, at, f);
    OnePlace(v.features, at, from);
    WithOneTwice(t.features, Remove(v, f.id).0.features, v.features, at, f, v.features[from]);
    NewIdUnknown(t, f.id);
    BookkeepingBack(t, v, Remove(v, f.id).0, f.id);
  }

  lemma {:induction false} BookkeepingBack(t: Tree, v: Tree, u: Tree, id: string)
    requires SameBookkeeping(t, v) && id !in t.cache && id !in t.snapshots
    requires u.cache == v.cache - {id} && u.snapshots == v.snapshots - {id}
    requires u.rollbackIndex == v.rollbackIndex && u.counter == v.counter && u.documentId == v.documentId
    ensures SameBookkeeping(t, u)
  {
    assert t.cache - {id} == t.cache && t.snapshots - {id} == t.snapshots;
  }

  lemma {:induction false} WithOneHas(gs: seq<Feature>, fs: seq<Feature>, at: int, f: Feature)
    requires WithOneAt(gs, fs, at, f)
    ensures 0 <= at < |fs| && fs[at] == f && |fs| == |gs| + 1 && Has(fs, f.id)
  {
  }

  lemma {:induction false} WithOneTwice(gs: seq<Feature>, hs: seq<Feature>, fs: seq<Feature>, at: int, f: Feature, g: Feature)
    requires WithOneAt(gs, fs, at, f) && WithOneAt(hs, fs, at, g)
    ensures gs == hs
  {
  }

  lemma {:induction false} OnePlace(fs: seq<Feature>, i: int, j: int)
    requires UniqueIds(fs) && 0 <= i < |fs| && 0 <= j < |fs| && fs[i].id == fs[j].id
    ensures i == j
  {
  }

  lemma {:induction false} InsertIsWellFormed(t: Tree, index: int, f: Feature)
    requires WellFormed(t) && !Has(t.features, f.id)
    ensures WellFormed(Insert(t, index, f).0) && UniqueIds(Insert(t, index, f).0.features)
  {
    FoundIff(t.features, f.id);
    hide WellFormed, InsertAt, Mark, Find, Has;
    InsertedMeans(t, Clamp(0, index, |t.features|), f);
  }

  lemma {:induction false} NewIdUnknown(t: Tree, id: string)
    requires WellFormed(t) && !Has(t.features, id)
    ensures id !in t.cache && id !in t.snapshots
  {
  }

  lemma {:induction false} MovedMeans(t: Tree, was: nat, at: nat)
    requires WellFormed(t) && was < |t.features| && at < |t.features| && was != at
    ensures var u := Moved(t, was, at);
            && WellFormed(u) && UniqueIds(u.features)
            && WithOneAt(RemoveAt(t.features, was), u.features, at, t.features[was])
            && SameBookkeeping(t, u) && DirtyOnlyFrom(t.dirty, u, if was < at then was else at)
  {
    var u, m := Moved(t, was, at), if was < at then was else at;
    MovedWellFormed(t, was, at);
    assert UniqueIds(u.features);
    hide UniqueIds;
    MovedAt(t.features, was, at);
    WithOneInserted(RemoveAt(t.features, was), at, t.features[was]);
    hide InsertAt, RemoveAt, Mark;
    forall i: nat | i < m ensures u.features[i].id in t.dirty {
      assert u.features[..m][i] == t.features[..m][i];
      KnownIds(t, i);
    }
    hide MovedFeatures, WellFormed, WithOneAt;
    MarkedFrom(u, t.dirty, m);
  }

  lemma {:induction false} WithOneInserted(gs: seq<Feature>, at: nat, f: Feature)
    requires at <= |gs|
    ensures WithOneAt(gs, InsertAt(gs, at, f), at, f)
  {
    var fs := InsertAt(gs, at, f);
    assert fs[..at] == gs[..at] && fs[at + 1..] == gs[at..];
  }

  lemma {:induction false} MoveIs(t: Tree, id: string, index: int, at: int)
    requires at == if index < 0 then 0 else if index >= |t.features| then |t.features| - 1 else index
    ensures var was := Find(t.features, id);
            Move(t, id, index) == if was < 0 then (t, false) else if was == at then (t, true) else (Moved(t, was, at), true)
  {
    hide Mark, InsertAt, RemoveAt, Find;
  }

  /** A move takes the feature to the nearest place to the index asked for and leaves the others in their order. */
  lemma {:induction false} MoveMeans(t: Tree, id: string, index: int) returns (was: int, at: int)
    requires WellFormed(t)
    ensures var (u, ok) := Move(t, id, index);
            && WellFormed(u) && UniqueIds(u.features) && |u.features| == |t.features|
            && (ok <==> Has(t.features, id)) && (!ok ==> u == t)
            && (ok ==> 0 <= was < |t.features| && t.features[was].id == id && Nearest(index, |t.features|, at)
                       && WithOneAt(t.features[..was] + t.features[was + 1..], u.features, at, t.features[was])
                       && SameBookkeeping(t, u)
                       && if at == was then u == t else DirtyOnlyFrom(t.dirty, u, if was < at then was else at))
  {
    was := Find(t.features, id);
    at := if index < 0 then 0 else if index >= |t.features| then |t.features| - 1 else index;
    FoundIff(t.features, id);
    MoveIs(t, id, index, at);
    assert UniqueIds(t.features);
    if 0 <= was {
      assert Nearest(index, |t.features|, at);
      TakenOut(t.features, was);
    }
    hide *;
    if 0 <= was && at != was {
      MovedMeans(t, was, at);
      WithOneHas(RemoveAt(t.features, was), Moved(t, was, at).features, at, t.features[was]);
    } else if 0 <= was {
      UnmovedKeeps(t);
    }
  }

  lemma {:induction false} TakenOut(fs: seq<Feature>, i: nat)
    requires i < |fs|
    ensures RemoveAt(fs, i) == fs[..i] + fs[i + 1..] && |RemoveAt(fs, i)| == |fs| - 1
    ensures WithOneAt(RemoveAt(fs, i), fs, i, fs[i])
  {
  }

  lemma {:induction false} UnmovedKeeps(t: Tree)
    ensures SameBookkeeping(t, t)
  {
  }

  /** Moving a feature back to where it stood restores the list. */
  lemma {:induction false} MoveBack(t: Tree, id: string, index: int, was: nat)
    requires WellFormed(t) && was < |t.features| && t.features[was].id == id
    ensures Move(Move(t, id, index).0, id, was).0.features == t.features
  {
    var u := Move(t, id, index).0;
    assert UniqueIds(t.features) && Has(t.features, id);
    hide *;
    var from, at := MoveMeans(t, id, index);
    OnePlace(t.features, was, from);
    MovedHere(t.features[..was] + t.features[was + 1..], u.features, at, t.features[was]);
    var from', at' := MoveMeans(u, id, was);
    OnePlace(u.features, at, from');
    NearestItself(was, |t.features|, at');
    Restored(t.features, u.features, Move(u, id, was).0.features, was, at);
  }

  lemma {:induction false} MovedHere(gs: seq<Feature>, fs: seq<Feature>, at: int, f: Feature)
    requires WithOneAt(gs, fs, at, f)
    ensures 0 <= at < |fs| && fs[at] == f && Has(fs, f.id)
  {
  }

  lemma {:induction false} NearestItself(index: nat, n: nat, at: int)
    requires Nearest(index, n, at) && index < n
    ensures at == index
  {
  }

  lemma {:induction false} Restored(fs: seq<Feature>, gs: seq<Feature>, hs: seq<Feature>, was: nat, at: nat)
    requires was < |fs| == |hs| && at < |gs| && WithOneAt(fs[..was] + fs[was + 1..], gs, at, fs[was])
    requires WithOneAt(gs[..at] + gs[at + 1..], hs, was, gs[at])
    ensures hs == fs
  {
    SplitAt(hs, fs, was);
  }

  lemma {:induction false} SplitAt(a: seq<Feature>, b: seq<Feature>, i: nat)
    requires i < |a| && i < |b| && a[i] == b[i] && a[..i] + a[i + 1..] == b[..i] + b[i + 1..]
    ensures a == b
  {
    assert a[..i] == (a[..i] + a[i + 1..])[..i] && b[..i] == (b[..i] + b[i + 1..])[..i];
    assert a[i + 1..] == (a[..i] + a[i + 1..])[i..] && b[i + 1..] == (b[..i] + b[i + 1..])[i..];
    assert a == a[..i] + [a[i]] + a[i + 1..] && b == b[..i] + [b[i]] + b[i + 1..];
  }

  // ── Edits in place ─────────────────────────────────────

  /** Only the i-th feature may differ. */
  predicate OnlyAt(fs: seq<Feature>, gs: seq<Feature>, i: nat) {
    |fs| == |gs| && forall j :: 0 <= j < |fs| && j != i ==> gs[j] == fs[j]
  }

  lemma {:induction false} EditMeans(t: Tree, i: nat, g: Feature)
    requires WellFormed(t) && i < |t.features| && g.id == t.features[i].id
    ensures var u := Edit(t, i, g);
            OnlyAt(t.features, u.features, i) && u.features[i] == g && SameBookkeeping(t, u) && DirtyOnlyFrom(t.dirty, u, i)
  {
    var u := Edit(t, i, g);
    forall j: nat | j < i ensures u.features[j].id in t.dirty { KnownIds(t, j); }
    assert UniqueIds(u.features);
    hide WellFormed, Mark;
    MarkedFrom(u, t.dirty, i);
  }

  /** The feature of this id has exactly the parameter written, and nothing else differs; an unknown id changes nothing. */
  lemma {:induction false} UpdateParameterMeans(t: Tree, id: string, name: string, v: ParamValue)
    requires WellFormed(t)
    ensures var u := UpdateParameter(t, id, name, v);
            && (!Has(t.features, id) ==> u == t)
            && forall i: nat :: i < |t.features| && t.features[i].id == id ==>
                 && OnlyAt(t.features, u.features, i) && SameBookkeeping(t, u) && DirtyOnlyFrom(t.dirty, u, i)
                 && var f, g := t.features[i], u.features[i];
                    && g == f.(params := g.params) && g.params.Keys == f.params.Keys + {name}
                    && g.params[name] == v && forall p :: p in f.params && p != name ==> g.params[p] == f.params[p]
  {
    forall i: nat | i < |t.features| && t.features[i].id == id
      ensures Find(t.features, id) == i
    {
      FindAt(t.features, i);
    }
    var i := Find(t.features, id);
    if 0 <= i {
      EditMeans(t, i, t.features[i].(params := t.features[i].params[name := v]));
      hide Edit, WellFormed, DirtyOnlyFrom, OnlyAt;
    }
  }

  /** The feature of this id has exactly the flag written, and nothing else differs; an unknown id changes nothing. */
  lemma {:induction false} SuppressMeans(t: Tree, id: string, on: bool)
    requires WellFormed(t)
    ensures var u := Suppress(t, id, on);
            && (!Has(t.features, id) ==> u == t)
            && forall i: nat :: i < |t.features| && t.features[i].id == id ==>
                 && OnlyAt(t.features, u.features, i) && SameBookkeeping(t, u) && DirtyOnlyFrom(t.dirty, u, i)
                 && u.features[i].suppressed == on && u.features[i] == t.features[i].(suppressed := u.features[i].suppressed)
  {
    forall i: nat | i < |t.features| && t.features[i].id == id
      ensures Find(t.features, id) == i
    {
      FindAt(t.features, i);
    }
    var i := Find(t.features, id);
    if 0 <= i {
      EditMeans(t, i, t.features[i].(suppressed := on));
      hide Edit, WellFormed, DirtyOnlyFrom, OnlyAt;
    }
  }

  // ── Retargeting ────────────────────────────────────────

  /** Equal but for the parameter values; the parameter names are equal too. */
  predicate SameButValues(f: Feature, g: Feature) {
    g == f.(params := g.params) && g.params.Keys == f.params.Keys
  }

  /** Equal but for the features that references name: the same alternative, and place by place the same element. */
  predicate SameButNames(v: ParamValue, w: ParamValue) {
    && w.ElemRefV? == v.ElemRefV? && w.ElemRefListV? == v.ElemRefListV?
    && (RefList(v) == [] ==> w == v)
    && |RefList(w)| == |RefList(v)|
    && forall q :: 0 <= q < |RefList(v)| ==> RefList(w)[q] == RefList(v)[q].(featureId := RefList(w)[q].featureId)
  }

  lemma {:induction false} RetargetedValue(v: ParamValue, was: string, now: string)
    ensures var w := RetargetValue(v, was, now);
            && SameButNames(v, w)
            && forall q :: 0 <= q < |RefList(v)| ==>
                 RefList(w)[q].featureId == if RefList(v)[q].featureId == was then now else RefList(v)[q].featureId
  {
  }

  lemma {:induction false} RetargetedFeature(f: Feature, was: string, now: string)
    ensures SameButValues(f, RetargetFeature(f, was, now))
    ensures forall p :: p in f.params ==> RetargetFeature(f, was, now).params[p] == RetargetValue(f.params[p], was, now)
  {
  }

  /** The reference at one place of the list, where there is one. */
  predicate IsPlace(fs: seq<Feature>, x: Naming) {
    x.feature < |fs| && x.place.param in fs[x.feature].params && x.place.position < |RefList(fs[x.feature].params[x.place.param])|
  }

  function RefAtPlace(fs: seq<Feature>, x: Naming): ElementRef
    requires IsPlace(fs, x)
  {
    RefList(fs[x.feature].params[x.place.param])[x.place.position]
  }

  lemma {:induction false} PlacesAre(fs: seq<Feature>, id: string, x: Naming)
    ensures x in PlacesNaming(fs, id) <==> IsPlace(fs, x) && RefAtPlace(fs, x).featureId == id
  {
    NamesAt(fs, id, x.feature, x.place.param, x.place.position);
    assert x == Naming(x.feature, Place(x.place.param, x.place.position));
  }

  /**
   Retargeting writes the new id at exactly the places that named the old one. No other place changes, nor any
   element name or type, list length, parameter without references, or other property of a feature.
   */
  lemma {:induction false} RetargetMeans(t: Tree, was: string, now: string)
    requires WellFormed(t) && was != "" && now != ""
    ensures var u := ReplaceReference(t, was, now);
            && |u.features| == |t.features|
            && (forall i :: 0 <= i < |t.features| ==> SameButValues(t.features[i], u.features[i]))
            && (forall i, p :: 0 <= i < |t.features| && p in t.features[i].params ==>
                  SameButNames(t.features[i].params[p], u.features[i].params[p]))
            && (forall x :: IsPlace(u.features, x) <==> IsPlace(t.features, x))
            && (forall x :: IsPlace(t.features, x) ==>
                  RefAtPlace(u.features, x).featureId
                  == if x in PlacesNaming(t.features, was) then now else RefAtPlace(t.features, x).featureId)
  {
    var u := ReplaceReference(t, was, now);
    hide FirstNaming, Mark, PlacesNaming, RetargetValue, RetargetFeature;
    forall i | 0 <= i < |t.features|
      ensures SameButValues(t.features[i], u.features[i])
      ensures forall p :: p in t.features[i].params ==> u.features[i].params[p] == RetargetValue(t.features[i].params[p], was, now)
    {
      assert u.features[i] == RetargetFeature(t.features[i], was, now);
      RetargetedFeature(t.features[i], was, now);
    }
    hide ReplaceReference;
    forall i, p | 0 <= i < |t.features| && p in t.features[i].params
      ensures SameButNames(t.features[i].params[p], u.features[i].params[p])
    {
      RetargetedValue(t.features[i].params[p], was, now);
    }
    forall x | IsPlace(t.features, x)
      ensures RefAtPlace(u.features, x).featureId
              == if x in PlacesNaming(t.features, was) then now else RefAtPlace(t.features, x).featureId
    {
      RetargetedValue(t.features[x.feature].params[x.place.param], was, now);
      PlacesAre(t.features, was, x);
    }
  }

  /** So afterwards the old id is named nowhere, and the new one where either was. */
  lemma {:induction false} RetargetMovesPlaces(t: Tree, was: string, now: string)
    requires WellFormed(t) && was != "" && now != "" && was != now
    ensures var u := ReplaceReference(t, was, now);
            && PlacesNaming(u.features, was) == {}
            && PlacesNaming(u.features, now) == PlacesNaming(t.features, now) + PlacesNaming(t.features, was)
  {
    var u := ReplaceReference(t, was, now);
    RetargetMeans(t, was, now);
    hide ReplaceReference, PlacesNaming, IsPlace, RefAtPlace;
    forall x
      ensures x !in PlacesNaming(u.features, was)
      ensures x in PlacesNaming(u.features, now) <==> x in PlacesNaming(t.features, now) || x in PlacesNaming(t.features, was)
    {
      PlacesAre(u.features, was, x);
      PlacesAre(u.features, now, x);
      PlacesAre(t.features, now, x);
      PlacesAre(t.features, was, x);
    }
  }

  /** Dirty afterwards are the features from the first that named the old id; everything else in the tree stays. */
  lemma {:induction false} RetargetMarks(t: Tree, was: string, now: string) returns (at: int)
    requires WellFormed(t) && was != "" && now != ""
    ensures var u := ReplaceReference(t, was, now);
            && SameBookkeeping(t, u) && 0 <= at <= |t.features| && DirtyOnlyFrom(t.dirty, u, at)
            && (forall x :: x in PlacesNaming(t.features, was) ==> at <= x.feature)
            && (at < |t.features| ==> exists x :: x in PlacesNaming(t.features, was) && x.feature == at)
  {
    var u := ReplaceReference(t, was, now);
    at := FirstNaming(t.features, was, 0);
    ReplaceReferenceIs(t, was, now);
    forall i: nat | i < at ensures u.features[i].id in t.dirty { KnownIds(t, i); }
    assert UniqueIds(u.features);
    hide FirstNaming, Mark, WellFormed, RetargetFeature;
    MarkedFrom(u, t.dirty, at);
    hide ReplaceReference;
    forall x | x in PlacesNaming(t.features, was) ensures at <= x.feature {
      PlaceNames(t.features, was, x);
    }
    if at < |t.features| { var x := SomePlace(t.features, was, at); }
  }

  lemma {:induction false} PlaceNames(fs: seq<Feature>, id: string, x: Naming)
    requires x in PlacesNaming(fs, id)
    ensures x.feature < |fs| && Names(fs[x.feature], id)
  {
    PlacesAre(fs, id, x);
    var f, r := fs[x.feature], RefAtPlace(fs, x);
    assert r in RefsIn(f.params[x.place.param]);
    assert r in RefsOf(f);
  }

  lemma {:induction false} SomePlace(fs: seq<Feature>, id: string, i: nat) returns (x: Naming)
    requires i < |fs| && Names(fs[i], id)
    ensures x in PlacesNaming(fs, id) && x.feature == i
  {
    var r :| r in RefsOf(fs[i]) && r.featureId == id;
    var p :| p in fs[i].params && r in RefsIn(fs[i].params[p]);
    var q: nat :| q < |RefList(fs[i].params[p])| && RefList(fs[i].params[p])[q] == r;
    x := Naming(i, Place(p, q));
    PlacesAre(fs, id, x);
  }

  // ── Searching back ─────────────────────────────────────

  /** The feature's result may be resumed from. */
  predicate Resumable(t: Tree, j: int) {
    0 <= j < |t.features| && !t.features[j].suppressed && t.features[j].status == OK && t.features[j].id in t.cache
  }

  /** The shape to resume from is that of the last resumable feature before the place, and null without one. */
  lemma {:induction false} ResumeMeans(t: Tree, i: nat)
    requires i <= |t.features|
    ensures (exists j :: 0 <= j < i && Resumable(t, j) && Resume(t, i) == t.cache[t.features[j].id]
                         && forall m :: j < m < i ==> !Resumable(t, m))
            || ((forall m :: 0 <= m < i ==> !Resumable(t, m)) && Resume(t, i) == NullShape)
  {
    if i > 0 {
      if Resumable(t, i - 1) { assert Resume(t, i) == t.cache[t.features[i - 1].id]; } else { ResumeMeans(t, i - 1); }
    }
  }

  predicate HasBody(t: Tree, j: int) {
    0 <= j < |t.features| && t.features[j].id in t.cache && t.cache[t.features[j].id].Body?
  }

  /** Asking for the last shape before a place finds the last cached body there, and null without one. */
  lemma {:induction false} LastCachedMeans(t: Tree, i: nat)
    requires i <= |t.features|
    ensures (exists j :: 0 <= j < i && HasBody(t, j) && LastCached(t, i) == t.cache[t.features[j].id]
                         && forall m :: j < m < i ==> !HasBody(t, m))
            || ((forall m :: 0 <= m < i ==> !HasBody(t, m)) && LastCached(t, i) == NullShape)
  {
    if i > 0 {
      if HasBody(t, i - 1) { assert LastCached(t, i) == t.cache[t.features[i - 1].id]; } else { LastCachedMeans(t, i - 1); }
    }
  }

  /** Where replayFrom begins: at a feature after the first that has a boundary, with that boundary and the cache; else afresh. */
  lemma {:induction false} ReplayFromBegins(k: Kernel, tr: Transformer, t: Tree, fromId: string, i: nat)
    requires WellFormed(t) && (i < |t.features| || i == 0)
    requires if Has(t.features, fromId) && fromId != "" then t.features[i].id == fromId else i == 0
    ensures ReplayFrom(k, tr, t, fromId)
            == if i > 0 && t.features[i].id in t.snapshots then
                 var s := t.snapshots[t.features[i].id];
                 Loop(k, tr, t.(counter := s.counter, documentId := s.documentId, dirty := Mark(t.features, t.dirty, i)), Resume(t, i), i)
               else
                 Loop(k, tr, t.(counter := 0, dirty := Mark(t.features, t.dirty, 0), cache := if i == 0 then t.cache else map[],
                                snapshots := if i == 0 then t.snapshots else map[]), NullShape, 0)
  {
    if Has(t.features, fromId) && fromId != "" { FindAt(t.features, i); }
    hide Mark, Resume, Loop;
  }

  /** The marker ends at the nearest place to the index asked for, before the first feature and on the last one included. */
  lemma {:induction false} SetRollbackMeans(t: Tree, index: int)
    ensures var u := SetRollback(t, index);
            Nearest(index + 1, |t.features| + 1, u.rollbackIndex + 1) && u == t.(rollbackIndex := u.rollbackIndex)
  {
  }

  /** getFinalShape looks back from the end, rollbackTo from the feature named; an unknown one shows nothing. */
  lemma {:induction false} RollbackToMeans(t: Tree, id: string)
    requires WellFormed(t)
    ensures FinalShape(t) == LastCached(t, |t.features|)
    ensures !Has(t.features, id) ==> RollbackTo(t, id) == NullShape
    ensures forall i: nat :: i < |t.features| && t.features[i].id == id ==> RollbackTo(t, id) == LastCached(t, i)
  {
    forall i: nat | i < |t.features| && t.features[i].id == id ensures Find(t.features, id) == i { FindAt(t.features, i); }
  }
}
