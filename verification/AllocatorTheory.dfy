/**
 Safety of identity allocation over every interleaving of the allocator's operations,
 of the document registry, and of the OCCT tag map.
 */
module AllocatorTheory {
  import opened Wrappers
  import opened TagAllocation

  datatype Op =
    | NextOp
    | RangeOp(n: Int64)
    | SeedOp(start: Int64)
    | SetDocumentOp(id: Word64)
    | SnapshotOp
    | RestoreOp(s: SnapshotV2)

  /** An allocator, the registry, every identity handed out so far, and whether an overflow was thrown. */
  datatype World = World(a: Allocator, reg: Registry, issued: seq<ShapeIdentity>, overflowed: bool)

  function Members(r: Range): seq<ShapeIdentity>
    requires r.first.counter <= r.lastExclusive.counter
  {
    seq(r.lastExclusive.counter - r.first.counter,
        i requires 0 <= i < r.lastExclusive.counter - r.first.counter => ShapeIdentity(r.first.documentId, r.first.counter + i))
  }

  function Perform(w: World, op: Op): World {
    match op
    case NextOp =>
      var (a, r) := Next(w.a);
      if r.Thrown? then w.(a := a, overflowed := true) else w.(a := a, issued := w.issued + [r.value])
    case RangeOp(n) =>
      var (a, r) := AllocateRange(w.a, n);
      if r.Thrown? then w.(a := a, overflowed := w.overflowed || r.error.OverflowError?)
      else w.(a := a, issued := w.issued + Members(r.value))
    case SeedOp(v) => w.(a := Seed(w.a, v).0)
    case SetDocumentOp(id) => var (a, reg, r) := SetDocumentId(w.a, w.reg, id); w.(a := a, reg := reg)
    case SnapshotOp => w
    case RestoreOp(s) => w.(a := Restore(w.a, s, false).0)
  }

  function Run(w: World, ops: seq<Op>): World {
    if ops == [] then w else Perform(Run(w, ops[..|ops| - 1]), ops[|ops| - 1])
  }

  function Fresh(): World {
    World(Allocator(0, 0, map[], 1), map[], [], false)
  }

  /** Counters rise strictly in the order of issue, from 1, and never past the allocator's own. */
  ghost predicate Rising(w: World) {
    && 0 <= w.a.counter
    && (forall i :: 0 <= i < |w.issued| ==> 1 <= w.issued[i].counter <= w.a.counter)
    && (forall i, j :: 0 <= i < j < |w.issued| ==> w.issued[i].counter < w.issued[j].counter)
  }

  lemma {:induction false} RangeKeepsRising(w: World, n: Int64)
    requires Rising(w) && AllocateRange(w.a, n).1.Ok?
    ensures Rising(Perform(w, RangeOp(n)))
  {
    hide Wrap64;
    var r := AllocateRange(w.a, n).1.value;
    var m := Members(r);
    assert |m| == n && r.first.counter == w.a.counter + 1;
    forall i | 0 <= i < |m| ensures m[i].counter == w.a.counter + 1 + i { }
    assert AllocateRange(w.a, n).0.counter == w.a.counter + n;
  }

  lemma {:induction false} PerformKeepsRising(w: World, op: Op)
    requires Rising(w) && !Perform(w, op).overflowed
    ensures Rising(Perform(w, op))
  {
    hide Wrap64;
    match op
    case RangeOp(n) => if AllocateRange(w.a, n).1.Ok? { RangeKeepsRising(w, n); }
    case _ =>
  }

  lemma {:induction false} OverflowStays(w: World, op: Op)
    requires w.overflowed
    ensures Perform(w, op).overflowed
  {
  }

  /**
   In every interleaving without forced restores, before the first overflow error, all identities issued
   are pairwise distinct, even by counter alone, with counters between 1 and INT64_MAX.
   */
  lemma {:induction false} IssuedDistinct(ops: seq<Op>)
    requires !Run(Fresh(), ops).overflowed
    ensures var issued := Run(Fresh(), ops).issued;
            && (forall i :: 0 <= i < |issued| ==> 1 <= issued[i].counter <= INT64_MAX)
            && (forall i, j :: 0 <= i < j < |issued| ==> issued[i] != issued[j] && issued[i].counter < issued[j].counter)
    ensures Rising(Run(Fresh(), ops))
  {
    if ops != [] {
      var w := Run(Fresh(), ops[..|ops| - 1]);
      if w.overflowed { OverflowStays(w, ops[|ops| - 1]); }
      IssuedDistinct(ops[..|ops| - 1]);
      PerformKeepsRising(w, ops[|ops| - 1]);
    }
  }

  /** After an overflow the guarantee is gone: an unforced restore goes back to counters already issued. */
  lemma {:induction false} OverflowAllowsReissue()
    ensures var w := Run(Fresh(), [NextOp, RestoreOp(SnapshotV2(INT64_MAX, 0)), NextOp, RestoreOp(SnapshotV2(0, 0)), NextOp]);
            w.overflowed && w.issued == [ShapeIdentity(0, 1), ShapeIdentity(0, 1)]
  {
    var ops := [NextOp, RestoreOp(SnapshotV2(INT64_MAX, 0)), NextOp, RestoreOp(SnapshotV2(0, 0)), NextOp];
    var w0 := Fresh();
    RunAppend(w0, [], NextOp);
    RunAppend(w0, ops[..1], ops[1]);
    RunAppend(w0, ops[..2], ops[2]);
    RunAppend(w0, ops[..3], ops[3]);
    RunAppend(w0, ops[..4], ops[4]);
    assert [] + [NextOp] == ops[..1] && ops[..1] + [ops[1]] == ops[..2] && ops[..2] + [ops[2]] == ops[..3];
    assert ops[..3] + [ops[3]] == ops[..4] && ops[..4] + [ops[4]] == ops;
    hide Run;
    var w2 := Run(w0, ops[..2]);
    assert w2.a.counter == INT64_MAX && w2.issued == [ShapeIdentity(0, 1)];
    var w3 := Run(w0, ops[..3]);
    assert w3.a.counter == -TWO63 && w3.overflowed && w3.issued == w2.issued;
  }

  lemma {:induction false} RunAppend(w: World, ops: seq<Op>, op: Op)
    ensures Run(w, ops + [op]) == Perform(Run(w, ops), op)
  {
    assert (ops + [op])[..|ops|] == ops;
  }

  // ── The registry ───────────────────────────────────────

  /** Any sequence of registrations; refused ones change nothing. */
  function Registrations(reg: Registry, ids: seq<Word64>): Registry {
    if ids == [] then reg
    else
      var before := Registrations(reg, ids[..|ids| - 1]);
      match Register(before, ids[|ids| - 1])
      case Ok(r) => r
      case Thrown(_) => before
  }

  /** A document once admitted stays admitted. */
  lemma {:induction false} AdmittedStays(reg: Registry, ids: seq<Word64>, id: Word64)
    requires Admitted(reg, id)
    ensures Admitted(Registrations(reg, ids), id)
  {
    if ids != [] { AdmittedStays(reg, ids[..|ids| - 1], id); }
  }

  /** A registration is refused exactly when another admitted document has the same low 32 bits. */
  lemma {:induction false} RefusedIffCollides(reg: Registry, id: Word64)
    requires forall low :: low in reg ==> Low32(reg[low]) == low
    ensures Register(reg, id).Thrown? <==> exists other: Word64 :: Admitted(reg, other) && other != id && Low32(other) == Low32(id)
    ensures Register(reg, id).Ok? ==> Admitted(Register(reg, id).value, id)
    ensures Register(reg, id).Ok? ==> var reg' := Register(reg, id).value; forall low :: low in reg' ==> Low32(reg'[low]) == low
  {
    if Register(reg, id).Thrown? {
      var other := reg[Low32(id)];
      assert Admitted(reg, other) && other != id && Low32(other) == Low32(id);
    }
  }

  // ── OCCT tags ──────────────────────────────────────────

  /** The map is injective and every tag in it was handed out before the next one. */
  ghost predicate TagsInjective(a: Allocator) {
    && 1 <= a.nextOcctTag
    && (forall x :: x in a.occtTags ==> 1 <= a.occtTags[x] < a.nextOcctTag)
    && (forall x, y :: x in a.occtTags && y in a.occtTags && x != y ==> a.occtTags[x] != a.occtTags[y])
  }

  function Convert(a: Allocator, ids: seq<ShapeIdentity>): Allocator {
    if ids == [] then a else ToOcctTag(Convert(a, ids[..|ids| - 1]), ids[|ids| - 1]).0
  }

  /** What the `i`-th conversion returned. */
  function Tag(a: Allocator, ids: seq<ShapeIdentity>, i: nat): Result<Int32, Exception>
    requires i < |ids|
  {
    ToOcctTag(Convert(a, ids[..i]), ids[i]).1
  }

  lemma {:induction false} ConvertStep(a: Allocator, id: ShapeIdentity)
    requires TagsInjective(a) && a.nextOcctTag < INT32_MAX
    ensures var (a', r) := ToOcctTag(a, id);
            && TagsInjective(a')
            && (forall x :: x in a.occtTags ==> x in a'.occtTags && a'.occtTags[x] == a.occtTags[x])
            && a'.nextOcctTag <= a.nextOcctTag + 1
            && (id.counter != 0 && !PassesThrough(id) ==> r.Ok? && id in a'.occtTags && a'.occtTags[id] == r.value)
  {
  }

  lemma {:induction false} ConvertKeeps(a: Allocator, ids: seq<ShapeIdentity>, m: nat)
    requires TagsInjective(a) && m <= |ids| && a.nextOcctTag + |ids| <= INT32_MAX
    ensures var b, c := Convert(a, ids[..m]), Convert(a, ids);
            && TagsInjective(c) && c.nextOcctTag <= a.nextOcctTag + |ids|
            && TagsInjective(b) && b.nextOcctTag <= a.nextOcctTag + m
            && (forall x :: x in b.occtTags ==> x in c.occtTags && c.occtTags[x] == b.occtTags[x])
    decreases |ids|
  {
    if |ids| > 0 {
      var n := |ids| - 1;
      if m == |ids| {
        assert ids[..m] == ids;
        ConvertKeeps(a, ids[..n], n);
        assert ids[..n][..n] == ids[..n];
      } else {
        ConvertKeeps(a, ids[..n], m);
        assert ids[..n][..m] == ids[..m];
      }
      ConvertStep(Convert(a, ids[..n]), ids[n]);
    }
  }

  /**
   Within one allocator, and short of 2^31 conversions, two conversions of mapped identities give the
   same tag exactly when the identities are the same: the tags are stable and injective.
   */
  lemma {:induction false} TagsStableAndInjective(a: Allocator, ids: seq<ShapeIdentity>, i: nat, j: nat)
    requires TagsInjective(a) && a.nextOcctTag + |ids| <= INT32_MAX && i <= j < |ids|
    requires ids[i].counter != 0 && ids[j].counter != 0 && !PassesThrough(ids[i]) && !PassesThrough(ids[j])
    ensures Tag(a, ids, i).Ok? && Tag(a, ids, j).Ok?
    ensures Tag(a, ids, i) == Tag(a, ids, j) <==> ids[i] == ids[j]
  {
    ConvertKeeps(a, ids, i);
    ConvertKeeps(a, ids, j);
    ConvertStep(Convert(a, ids[..i]), ids[i]);
    ConvertStep(Convert(a, ids[..j]), ids[j]);
    if i < j {
      assert ids[..i + 1][..i] == ids[..i];
      ConvertKeeps(a, ids[..j], i + 1);
      assert ids[..j][..i + 1] == ids[..i + 1];
    }
  }
}
