/**
 What the allocator hands out, number by number (src/core/tag_allocator.h, src/core/shape_identity.h): the identities
 of a run, the tags of a run of conversions, and the digits of the written form.
 */
module AllocatorLaws {
  import opened Wrappers
  import opened TagAllocation
  import opened AllocatorTheory
  import opened IdentityCodec
  import opened Arithmetic

  // ── Identities ─────────────────────────────────────────

  /** The `n` identities of a document that follow a counter. */
  function Following(documentId: Word64, counter: nat, n: nat): seq<ShapeIdentity>
    requires counter + n <= INT64_MAX
  {
    seq(n, i requires 0 <= i < n => ShapeIdentity(documentId, counter + 1 + i))
  }

  /** How many identities an operation asks for. */
  function Asked(op: Op): nat {
    match op
    case NextOp => 1
    case RangeOp(n) => if n > 0 then n else 0
    case _ => 0
  }

  function AskedIn(ops: seq<Op>): nat {
    if ops == [] then 0 else AskedIn(ops[..|ops| - 1]) + Asked(ops[|ops| - 1])
  }

  predicate OnlyIssues(ops: seq<Op>) {
    forall i :: 0 <= i < |ops| ==> ops[i].NextOp? || ops[i].RangeOp?
  }

  /** One request: the identities that follow the counter, unless they run past the last one (for a range, past the one before it). */
  lemma {:induction false} RequestMeans(w: World, op: Op)
    requires (op.NextOp? || op.RangeOp?) && 0 <= w.a.counter && !w.overflowed
    ensures var w' := Perform(w, op); var end := w.a.counter + Asked(op);
            && (w'.overflowed <==> Asked(op) > 0 && end > (if op.NextOp? then INT64_MAX else INT64_MAX - 1))
            && (!w'.overflowed ==> w' == w.(a := w.a.(counter := end), issued := w.issued + Following(w.a.documentId, w.a.counter, Asked(op))))
  {
    if op.RangeOp? && AllocateRange(w.a, op.n).1.Ok? {
      assert Members(AllocateRange(w.a, op.n).1.value) == Following(w.a.documentId, w.a.counter, op.n);
    }
    assert w.issued + [] == w.issued;
  }

  /**
   A run of requests without overflow hands out, under the document the allocator has, exactly as many identities
   as were asked for, with consecutive counters.
   */
  lemma {:induction false} RunMeans(w: World, ops: seq<Op>)
    requires OnlyIssues(ops) && 0 <= w.a.counter && !w.overflowed && !Run(w, ops).overflowed
    ensures w.a.counter + AskedIn(ops) <= INT64_MAX
    ensures Run(w, ops) == w.(a := w.a.(counter := w.a.counter + AskedIn(ops)),
                              issued := w.issued + Following(w.a.documentId, w.a.counter, AskedIn(ops)))
  {
    if ops == [] {
      assert w.issued + [] == w.issued;
    } else {
      var n := |ops| - 1;
      var v := Run(w, ops[..n]);
      if v.overflowed { OverflowStays(v, ops[n]); }
      RunMeans(w, ops[..n]);
      assert Run(w, ops) == Perform(v, ops[n]) && AskedIn(ops) == AskedIn(ops[..n]) + Asked(ops[n]);
      hide Perform, Run, Following, AskedIn, Asked;
      OneMoreRequest(w, v, ops[n], AskedIn(ops[..n]));
    }
  }

  lemma {:induction false} OneMoreRequest(w: World, v: World, op: Op, n: nat)
    requires (op.NextOp? || op.RangeOp?) && 0 <= w.a.counter && w.a.counter + n <= INT64_MAX && !w.overflowed
    requires v == w.(a := w.a.(counter := w.a.counter + n), issued := w.issued + Following(w.a.documentId, w.a.counter, n))
    requires !Perform(v, op).overflowed
    ensures var m := n + Asked(op);
            && w.a.counter + m <= INT64_MAX
            && Perform(v, op) == w.(a := w.a.(counter := w.a.counter + m), issued := w.issued + Following(w.a.documentId, w.a.counter, m))
  {
    RequestMeans(v, op);
    hide Perform, Following, Asked;
    FollowingSplit(w.a.documentId, w.a.counter, n, Asked(op));
    Regroup(w.issued, Following(w.a.documentId, w.a.counter, n), Following(w.a.documentId, v.a.counter, Asked(op)));
  }

  lemma {:induction false} Regroup(x: seq<ShapeIdentity>, y: seq<ShapeIdentity>, z: seq<ShapeIdentity>)
    ensures x + y + z == x + (y + z)
  {
  }

  lemma {:induction false} FollowingSplit(documentId: Word64, counter: nat, m: nat, n: nat)
    requires counter + m + n <= INT64_MAX
    ensures Following(documentId, counter, m) + Following(documentId, counter + m, n) == Following(documentId, counter, m + n)
  {
  }

  /** The document is set exactly before the first identity, to none or to one that collides with no admitted document. */
  lemma {:induction false} SetDocumentMeans(a: Allocator, reg: Registry, id: Word64)
    ensures var (b, reg', r) := SetDocumentId(a, reg, id);
            && (r.Ok? <==> a.counter == 0 && (id == 0 || Low32(id) !in reg || reg[Low32(id)] == id))
            && (if r.Ok? then b == a.(documentId := id) && reg' == if id == 0 then reg else reg[Low32(id) := id]
                else b == a && reg' == reg && r == Thrown(LogicError))
  {
    if id != 0 && Low32(id) in reg && reg[Low32(id)] == id { assert reg[Low32(id) := id] == reg; }
  }

  /** A snapshot restores the counter and document it was taken at; unforced, only where the counter does not go back. */
  lemma {:induction false} SnapshotRestores(a: Allocator, b: Allocator, force: bool)
    requires Snapshot(a).Ok?
    ensures var (c, r) := Restore(b, Snapshot(a).value, force);
            && (r.Ok? <==> force || b.counter <= a.counter)
            && (if r.Ok? then c == b.(counter := a.counter, documentId := a.documentId) else c == b && r == Thrown(LogicError))
  {
  }

  /** A foreign snapshot is refused when its counter is no counter, or lies behind an unforced allocator; refusals change nothing. */
  lemma {:induction false} RestoreRefusesIff(b: Allocator, s: SnapshotV2, force: bool)
    ensures var (c, r) := Restore(b, s, force);
            && (r == Thrown(InvalidArgument) <==> s.counter > INT64_MAX)
            && (r == Thrown(LogicError) <==> !force && b.counter > s.counter && s.counter <= INT64_MAX)
            && (r.Thrown? ==> c == b) && (r.Ok? ==> c.counter == s.counter && c.documentId == s.documentId)
  {
  }

  /** Seeding before the first identity moves the first one issued to just after the seed. */
  lemma {:induction false} SeedMovesFirst(a: Allocator, start: Int64)
    ensures var (b, r) := Seed(a, start);
            && (r.Ok? <==> a.counter == 0 && start >= 0) && (r.Thrown? ==> b == a)
            && (r.Ok? && start < INT64_MAX ==> Next(b).1 == Ok(ShapeIdentity(a.documentId, start + 1)))
  {
  }

  // ── Tags ───────────────────────────────────────────────

  /** The identity is given a tag of its own: it belongs to a document, or its counter is too large for a tag. */
  predicate Mapped(id: ShapeIdentity) {
    id.counter != 0 && (id.documentId != 0 || id.counter > INT32_MAX)
  }

  function MappedIn(ids: seq<ShapeIdentity>): set<ShapeIdentity> {
    set id | id in ids && Mapped(id)
  }

  predicate NoTags(a: Allocator) {
    a.occtTags == map[] && a.nextOcctTag == 1
  }

  lemma {:induction false} TagsSoFar(a: Allocator, ids: seq<ShapeIdentity>)
    requires NoTags(a) && |ids| < INT32_MAX
    ensures var b := Convert(a, ids);
            && b.occtTags.Keys == MappedIn(ids) && b.nextOcctTag == |MappedIn(ids)| + 1 && |MappedIn(ids)| <= |ids|
  {
    if ids != [] {
      var n := |ids| - 1;
      TagsSoFar(a, ids[..n]);
      assert ids == ids[..n] + [ids[n]];
      var before := MappedIn(ids[..n]);
      if Mapped(ids[n]) {
        assert MappedIn(ids) == before + {ids[n]};
      } else {
        assert MappedIn(ids) == before;
      }
    }
  }

  lemma {:induction false} TagStays(a: Allocator, ids: seq<ShapeIdentity>, m: nat, id: ShapeIdentity)
    requires NoTags(a) && |ids| < INT32_MAX && m <= |ids| && id in Convert(a, ids[..m]).occtTags
    ensures id in Convert(a, ids).occtTags && Convert(a, ids).occtTags[id] == Convert(a, ids[..m]).occtTags[id]
    decreases |ids|
  {
    if m == |ids| {
      assert ids[..m] == ids;
    } else {
      var n := |ids| - 1;
      assert ids[..n][..m] == ids[..m];
      TagStays(a, ids[..n], m, id);
    }
  }

  /**
   From a fresh map, single-document identities pass as their own counter, the null one is refused, and a mapped
   one gets the number of different mapped identities converted up to its first conversion.
   */
  lemma {:induction false} TagMeans(a: Allocator, ids: seq<ShapeIdentity>, first: nat, i: nat)
    requires NoTags(a) && first <= i < |ids| < INT32_MAX && ids[first] == ids[i] && ids[i] !in ids[..first]
    ensures Tag(a, ids, i) == if ids[i].counter == 0 then Thrown(InvalidArgument)
                              else if Mapped(ids[i]) then Ok(|MappedIn(ids[..first])| + 1)
                              else Ok(ids[i].counter)
  {
    var id := ids[i];
    if Mapped(id) {
      TagsSoFar(a, ids[..first]);
      assert id !in Convert(a, ids[..first]).occtTags;
      if first < i {
        FirstTag(a, ids[..first], id);
        assert ids[..first] + [id] == ids[..first + 1] == ids[..i][..first + 1];
        hide Convert, ToOcctTag;
        TagStays(a, ids[..i], first + 1, id);
        TagKnown(Convert(a, ids[..i]), id);
      }
    }
  }

  lemma {:induction false} FirstTag(a: Allocator, ids: seq<ShapeIdentity>, id: ShapeIdentity)
    requires NoTags(a) && |ids| + 1 < INT32_MAX && Mapped(id) && id !in ids
    ensures var b := Convert(a, ids + [id]); id in b.occtTags && b.occtTags[id] == |MappedIn(ids)| + 1
  {
    TagsSoFar(a, ids);
    assert (ids + [id])[..|ids|] == ids;
  }

  lemma {:induction false} TagKnown(b: Allocator, id: ShapeIdentity)
    requires Mapped(id) && id in b.occtTags
    ensures ToOcctTag(b, id).1 == Ok(b.occtTags[id])
  {
  }

  /** The tags are used up exactly when a new mapped identity finds no positive one left. */
  lemma {:induction false} TagsRunOut(a: Allocator, id: ShapeIdentity)
    ensures ToOcctTag(a, id).1 == Thrown(OverflowError) <==> Mapped(id) && id !in a.occtTags && a.nextOcctTag <= 0
  {
  }

  // ── Written forms ──────────────────────────────────────

  lemma {:induction false} DigitAt(v: nat, n: nat, k: nat)
    requires k < n
    ensures DigitValue(Digits(v, n)[k]) == Some(v / Pow16(n - 1 - k) % 16)
  {
    if k == n - 1 {
      assert Pow16(0) == 1 && v / 1 == v;
    } else {
      DigitAt(v / 16, n - 1, k);
      DivideTwice(v, Pow16(n - 2 - k));
    }
  }

  lemma {:induction false} DivideTwice(v: nat, p: nat)
    requires p > 0
    ensures v / 16 / p == v / (16 * p)
  {
    var q, r := v / 16 / p, v / 16 % p;
    assert v / 16 == q * p + r;
    var rest := 16 * r + v % 16;
    assert v == 16 * (q * p + r) + v % 16;
    assert 16 * (q * p) == (16 * p) * q;
    assert v == (16 * p) * q + rest && 0 <= rest < 16 * p;
    Quotient(v, 16 * p, q, rest);
  }

  /** The text is the document and then the counter, sixteen digits each, the most significant first. */
  lemma {:induction false} HexPlaces(id: ShapeIdentity, k: nat)
    requires k < 16
    ensures |ToHex(id)| == 33 && ToHex(id)[16] == '.'
    ensures DigitValue(ToHex(id)[k]) == Some(id.documentId / Pow16(15 - k) % 16)
    ensures DigitValue(ToHex(id)[17 + k]) == Some(id.counter / Pow16(15 - k) % 16)
  {
    DigitAt(id.documentId, 16, k);
    DigitAt(id.counter, 16, k);
  }

  /** The scalar holds the low half of the document above the counter; what cannot be written is refused by name. */
  lemma {:induction false} EncodeMeans(id: ShapeIdentity)
    ensures Encode(id) == Thrown(InvalidArgument) <==> id.counter == 0
    ensures Encode(id) == Thrown(OverflowError)
            <==> id.counter > (if id.documentId == 0 then INT64_MAX else UINT32_MAX)
    ensures Encode(id).Ok? && id.documentId == 0 ==> Encode(id).value == id.counter
    ensures Encode(id).Ok? && id.documentId != 0 ==>
              Unsigned(Encode(id).value) / TWO32 == id.documentId % TWO32 && Unsigned(Encode(id).value) % TWO32 == id.counter
  {
    if Encode(id).Ok? && id.documentId != 0 { EncodedHalves(id); }
  }

  /** The reader loses the document exactly when the scalar has an upper half and no document is given to complete it. */
  lemma {:induction false} DecodeMeans(scalar: Int64, hint: Word64)
    ensures var u := Unsigned(scalar);
            && (Decode(scalar, hint) == Thrown(InvalidArgument) <==> u >= TWO32 && hint != 0 && hint % TWO32 != u / TWO32)
            && (Decode(scalar, hint).Ok? ==>
                  var d := Decode(scalar, hint).value;
                  && (d.downgraded <==> u >= TWO32 && hint == 0)
                  && d.id == ShapeIdentity(if d.downgraded then u / TWO32 else hint, if u >= TWO32 then u % TWO32 else u))
  {
  }
}
