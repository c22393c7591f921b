/**
 When the order of the one side that changed is the order of the merge. Base order wins, so a reordering or an
 insertion before a base feature, made on one side only, is not adopted.
 */
module MergeOrder {
  import opened Wrappers
  import opened FeatureModel
  import opened ParamJson
  import opened MergeSpec
  import opened MergeLaws

  /** Every feature base does not have stands after every feature it has. */
  ghost predicate NewLast(base: seq<Feature>, side: seq<Feature>) {
    forall i, j :: 0 <= i < j < |Ids(side)| && Ids(side)[j] in Ids(base) ==> Ids(side)[i] in Ids(base)
  }

  /** What the side removed from base carries no NaN, so that its removal is noticed as one. */
  ghost predicate RemovedComparable(base: seq<Feature>, side: seq<Feature>) {
    forall id :: id in Ids(base) && id !in Ids(side) ==> NoNaN(Lookup(base, id).value)
  }

  // ── Selecting ──────────────────────────────────────────

  lemma {:induction false} SelectAll(ids: seq<string>, p: string -> bool)
    requires forall id :: id in ids ==> p(id)
    ensures Select(ids, p) == ids
  {
    if ids != [] {
      SelectAll(ids[..|ids| - 1], p);
      assert ids == ids[..|ids| - 1] + [ids[|ids| - 1]];
    }
  }

  lemma {:induction false} SelectNone(ids: seq<string>, p: string -> bool)
    requires forall id :: id in ids ==> !p(id)
    ensures Select(ids, p) == []
  {
    if ids != [] { SelectNone(ids[..|ids| - 1], p); }
  }

  lemma {:induction false} SelectConcat(a: seq<string>, b: seq<string>, p: string -> bool)
    ensures Select(a + b, p) == Select(a, p) + Select(b, p)
  {
    if b == [] {
      assert a + b == a;
    } else {
      var n := |b| - 1;
      assert (a + b)[..|a + b| - 1] == a + b[..n];
      SelectConcat(a, b[..n], p);
    }
  }

  /** A list is its known ids followed by its new ones exactly when no new id stands before a known one. */
  lemma {:induction false} KnownThenNew(ids: seq<string>, known: seq<string>)
    ensures ids == Select(ids, IsIn(known)) + Select(ids, IsNew(known))
            <==> forall i, j :: 0 <= i < j < |ids| && ids[j] in known ==> ids[i] in known
  {
    SelectMembers(ids, IsIn(known));
    SelectMembers(ids, IsNew(known));
    var a, b := Select(ids, IsIn(known)), Select(ids, IsNew(known));
    assert (forall i :: 0 <= i < |a| ==> a[i] in a) && (forall i :: 0 <= i < |b| ==> b[i] in b);
    if forall i, j :: 0 <= i < j < |ids| && ids[j] in known ==> ids[i] in known {
      Grouped(ids, known);
    }
  }

  lemma {:induction false} Grouped(ids: seq<string>, known: seq<string>)
    requires forall i, j :: 0 <= i < j < |ids| && ids[j] in known ==> ids[i] in known
    ensures ids == Select(ids, IsIn(known)) + Select(ids, IsNew(known))
  {
    if ids != [] {
      var n := |ids| - 1;
      var init := ids[..n];
      assert ids == init + [ids[n]];
      if ids[n] in known {
        assert forall i :: 0 <= i < |ids| ==> ids[i] in known;
        SelectAll(ids, IsIn(known));
        SelectNone(ids, IsNew(known));
      } else {
        Grouped(init, known);
        assert Select(ids, IsIn(known)) == Select(init, IsIn(known)) + [];
        assert Select(ids, IsNew(known)) == Select(init, IsNew(known)) + [ids[n]];
      }
    }
  }

  // ── One side changed ───────────────────────────────────

  /** Base ids kept, then new ids: that is the side's own list exactly when order, place and removals agree. */
  lemma {:induction false} ListIsSideIff(base: seq<Feature>, side: seq<Feature>, keep: string -> bool)
    requires forall id :: id in Ids(base) && id in Ids(side) ==> keep(id)
    ensures Select(Ids(base), keep) + Select(Ids(side), IsNew(Ids(base))) == Ids(side)
            <==> && SameOrder(base, side) && NewLast(base, side)
                 && forall id :: id in Ids(base) && id !in Ids(side) ==> !keep(id)
  {
    var b, s := Ids(base), Ids(side);
    var kept, added := Select(b, keep), Select(s, IsNew(b));
    SelectMembers(b, keep);
    SelectMembers(s, IsNew(b));
    KnownThenNew(s, b);
    hide Ids, Select;
    if kept + added == s {
      forall id | id in b && id !in s ensures !keep(id) { assert id in kept ==> id in kept + added; }
      SelectSame(b, keep, IsIn(s));
      SelectConcat(kept, added, IsIn(b));
      SelectAll(kept, IsIn(b));
      SelectNone(added, IsIn(b));
    }
    if SameOrder(base, side) && NewLast(base, side) && forall id :: id in b && id !in s ==> !keep(id) {
      SelectSame(b, keep, IsIn(s));
    }
  }

  lemma {:induction false} EqualToItselfIff(f: Feature)
    ensures ContentEquals(f, f) <==> NoNaN(f)
  {
    forall p | p in f.params ensures ValueEquals(f.params[p], f.params[p]) <==> Comparable(f.params[p]) {
      ValueEqualsIsCanonical(f.params[p], f.params[p]);
    }
  }

  lemma {:induction false} KeptIff(m: Merge, id: string)
    requires id in Ids(m.base)
    requires (m.theirs == m.base && id !in Ids(m.ours)) || (m.ours == m.base && id !in Ids(m.theirs))
    ensures m.Keeps(id) <==> !NoNaN(Lookup(m.base, id).value)
  {
    DroppedIff(m, id);
    EqualToItselfIff(Lookup(m.base, id).value);
    hide ContentEquals, NoNaN;
  }

  lemma {:induction false} OneSideList(m: Merge, side: seq<Feature>)
    requires Distinct(Ids(m.base)) && Distinct(Ids(side))
    requires (m.theirs == m.base && m.ours == side) || (m.ours == m.base && m.theirs == side)
    ensures Ids(m.Features()) == Select(Ids(m.base), (id: string) => m.Keeps(id)) + Select(Ids(side), IsNew(Ids(m.base)))
  {
    hide Ids, Select, Merge.Features, Merge.Keeps, Merge.Retained, Distinct;
    MergedListCharacterised(m);
    RetainedIs(m);
    var b, s := Ids(m.base), Ids(side);
    if m.theirs == m.base && m.ours == side {
      SelectNone(b, IsNew(b + s));
      Padded(m.Retained(), Select(s, IsNew(b)));
    } else {
      SelectNone(b, IsNew(b));
      SelectSame(s, IsNew(b + b), IsNew(b));
      Padded(m.Retained(), Select(s, IsNew(b)));
    }
  }

  lemma {:induction false} RetainedIs(m: Merge)
    ensures m.Retained() == Select(Ids(m.base), (id: string) => m.Keeps(id))
  {
    hide Select, Ids, Merge.Keeps;
  }

  lemma {:induction false} Padded(a: seq<string>, b: seq<string>)
    ensures a + [] == a && a + b + [] == a + b
  {
  }

  lemma {:induction false} OneSideOrderIff(m: Merge, side: seq<Feature>)
    requires Distinct(Ids(m.base)) && Distinct(Ids(side))
    requires (m.theirs == m.base && m.ours == side) || (m.ours == m.base && m.theirs == side)
    ensures Ids(m.Features()) == Ids(side)
            <==> SameOrder(m.base, side) && NewLast(m.base, side) && RemovedComparable(m.base, side)
  {
    OneSideList(m, side);
    var keep := (id: string) => m.Keeps(id);
    forall id | id in Ids(m.base) && id in Ids(side) ensures keep(id) { DroppedIff(m, id); }
    forall id | id in Ids(m.base) && id !in Ids(side) ensures keep(id) <==> !NoNaN(Lookup(m.base, id).value) { KeptIff(m, id); }
    hide NoNaN, SameOrder, NewLast, Select, Ids, Merge.Features, Lookup;
    ListIsSideIff(m.base, side, keep);
  }

  /** merge(base, ours, base) lists the features as ours does if and only if base order and place at the end are kept. */
  lemma {:induction false} OursOrderIff(base: seq<Feature>, ours: seq<Feature>)
    requires Distinct(Ids(base)) && Distinct(Ids(ours))
    ensures Ids(Merge(base, ours, base).Features()) == Ids(ours)
            <==> SameOrder(base, ours) && NewLast(base, ours) && RemovedComparable(base, ours)
  {
    hide *;
    OneSideOrderIff(Merge(base, ours, base), ours);
  }

  /** The same for merge(base, base, theirs). */
  lemma {:induction false} TheirsOrderIff(base: seq<Feature>, theirs: seq<Feature>)
    requires Distinct(Ids(base)) && Distinct(Ids(theirs))
    ensures Ids(Merge(base, base, theirs).Features()) == Ids(theirs)
            <==> SameOrder(base, theirs) && NewLast(base, theirs) && RemovedComparable(base, theirs)
  {
    hide *;
    OneSideOrderIff(Merge(base, base, theirs), theirs);
  }

  // ── Both sides changed alike ───────────────────────────

  lemma {:induction false} BothSidesList(base: seq<Feature>, x: seq<Feature>)
    requires Distinct(Ids(base)) && Distinct(Ids(x))
    ensures var m := Merge(base, x, x);
            Ids(m.Features()) == Select(Ids(base), (id: string) => m.Keeps(id)) + Select(Ids(x), IsNew(Ids(base)))
  {
    hide Ids, Select, Merge.Features, Merge.Keeps, Merge.Retained, Distinct;
    var m := Merge(base, x, x);
    MergedListCharacterised(m);
    RetainedIs(m);
    SelectNone(Ids(x), IsNew(Ids(base) + Ids(x)));
    Padded(m.Retained(), Select(Ids(x), IsNew(Ids(base))));
  }

  /** Even an order both sides agree on comes out only if it keeps base order and has the new features last. */
  lemma {:induction false} AgreedOrderIff(base: seq<Feature>, x: seq<Feature>)
    requires Distinct(Ids(base)) && Distinct(Ids(x))
    ensures Ids(Merge(base, x, x).Features()) == Ids(x) <==> SameOrder(base, x) && NewLast(base, x)
  {
    var m := Merge(base, x, x);
    BothSidesList(base, x);
    var keep := (id: string) => m.Keeps(id);
    forall id | id in Ids(base) ensures keep(id) <==> id in Ids(x) { DroppedIff(m, id); }
    hide NoNaN, SameOrder, NewLast, Select, Ids, Merge.Features, Lookup;
    ListIsSideIff(base, x, keep);
  }

  // ── At three inputs ────────────────────────────────────

  function Bare(id: string): Feature {
    Feature(id, "MakeFace", map[], false, NotExecuted, "")
  }

  lemma {:induction false} TwoIds(x: string, y: string)
    ensures Ids([Bare(x), Bare(y)]) == [x, y] && Ids([Bare(x)]) == [x]
  {
  }

  /** Swapping two features on one side, with nothing changed on the other, leaves them in base order. */
  lemma {:induction false} ReorderNotAdopted()
    ensures var base, ours := [Bare("x"), Bare("y")], [Bare("y"), Bare("x")];
            && Distinct(Ids(base)) && Distinct(Ids(ours))
            && Ids(Merge(base, ours, base).Features()) == Ids(base) != Ids(ours)
  {
    var base, ours := [Bare("x"), Bare("y")], [Bare("y"), Bare("x")];
    TwoIds("x", "y");
    TwoIds("y", "x");
    var m := Merge(base, ours, base);
    OneSideList(m, ours);
    SelectNone(Ids(ours), IsNew(Ids(base)));
    forall id | id in Ids(base) ensures m.Keeps(id) { DroppedIff(m, id); }
    SelectAll(Ids(base), (id: string) => m.Keeps(id));
    hide Merge.Features, Select;
    assert ["x", "y"] + [] == ["x", "y"] && ["x", "y"][0] != ["y", "x"][0];
  }

  /** Swapping them on both sides does not move them either, and no conflict is reported. */
  lemma {:induction false} AgreedMoveNotAdopted()
    ensures var base, x := [Bare("x"), Bare("y")], [Bare("y"), Bare("x")]; var m := Merge(base, x, x);
            && Distinct(Ids(base)) && Distinct(Ids(x))
            && Ids(m.Features()) == Ids(base) != Ids(x) && forall c :: !m.Reports(c)
  {
    var base, x := [Bare("x"), Bare("y")], [Bare("y"), Bare("x")];
    TwoIds("x", "y");
    TwoIds("y", "x");
    var m := Merge(base, x, x);
    BothChangedAlike(base, x);
    BothSidesList(base, x);
    SelectNone(Ids(x), IsNew(Ids(base)));
    forall id | id in Ids(base) ensures m.Keeps(id) { DroppedIff(m, id); }
    SelectAll(Ids(base), (id: string) => m.Keeps(id));
    hide Merge.Features, Select, Merge.Reports;
    assert ["x", "y"] + [] == ["x", "y"] && ["x", "y"][0] != ["y", "x"][0];
  }

  /** A feature inserted in front on one side ends up last. */
  lemma {:induction false} InsertionNotAdopted()
    ensures var base, ours := [Bare("x")], [Bare("n"), Bare("x")];
            && Distinct(Ids(base)) && Distinct(Ids(ours))
            && Ids(Merge(base, ours, base).Features()) == ["x", "n"] != Ids(ours)
  {
    var base, ours := [Bare("x")], [Bare("n"), Bare("x")];
    TwoIds("n", "x");
    TwoIds("x", "n");
    assert Distinct(Ids(base)) && Distinct(Ids(ours));
    hide Ids, Distinct, Merge.Features, Select;
    var m := Merge(base, ours, base);
    OneSideList(m, ours);
    assert "x" in Ids(base) && "x" in Ids(ours);
    DroppedIff(m, "x");
    SelectAll(Ids(base), (id: string) => m.Keeps(id));
    NewInFront();
    assert ["x"] + ["n"] == ["x", "n"] && ["n", "x"][0] != ["x", "n"][0];
  }

  lemma {:induction false} NewInFront()
    ensures Select(["n", "x"], IsNew(["x"])) == ["n"]
  {
    assert ["n", "x"][..1] == ["n"] && ["n"][..0] == [];
    assert Select(["n"], IsNew(["x"])) == ["n"];
  }
}
