/**
 Several allocators in one process: they share the document registry and nothing else. When the 64-bit scalars
 of the identities they hand out are pairwise different.
 */
module SharedRegistry {
  import opened Wrappers
  import opened TagAllocation
  import opened AllocatorTheory
  import opened IdentityCodec

  /** One allocator, what it has handed out, and whether it threw an overflow. */
  datatype Member = Member(a: Allocator, issued: seq<ShapeIdentity>, overflowed: bool)

  datatype Process = Process(reg: Registry, members: seq<Member>)

  /** An operation of the allocator with this number. */
  datatype Act = Act(who: nat, op: Op)

  function Seen(p: Process, i: nat): World
    requires i < |p.members|
  {
    World(p.members[i].a, p.reg, p.members[i].issued, p.members[i].overflowed)
  }

  function Do(p: Process, act: Act): Process
    requires act.who < |p.members|
  {
    var w := Perform(Seen(p, act.who), act.op);
    Process(w.reg, p.members[act.who := Member(w.a, w.issued, w.overflowed)])
  }

  predicate InRange(n: nat, acts: seq<Act>) {
    forall k :: 0 <= k < |acts| ==> acts[k].who < n
  }

  function Start(n: nat): Process {
    Process(map[], seq(n, i => Member(Allocator(0, 0, map[], 1), [], false)))
  }

  function After(n: nat, acts: seq<Act>): (p: Process)
    requires InRange(n, acts)
    ensures |p.members| == n
  {
    if acts == [] then Start(n) else Do(After(n, acts[..|acts| - 1]), acts[|acts| - 1])
  }

  /** A document that may be used for scalars: none, or one the registry admitted. */
  predicate Known(reg: Registry, documentId: Word64) {
    documentId == 0 || Admitted(reg, documentId)
  }

  /** Restored snapshots name documents this process knows; restoreV2 itself does not ask the registry. */
  ghost predicate RestoresKnown(n: nat, acts: seq<Act>)
    requires InRange(n, acts)
  {
    forall k :: 0 <= k < |acts| && acts[k].op.RestoreOp? ==> Known(After(n, acts[..k]).reg, acts[k].op.s.documentId)
  }

  ghost predicate NoOverflow(p: Process) {
    forall i :: 0 <= i < |p.members| ==> !p.members[i].overflowed
  }

  /** The documents of an allocator and of all it has issued are known, and its counters rise. */
  ghost predicate Tame(reg: Registry, m: Member) {
    && Known(reg, m.a.documentId)
    && (forall k :: 0 <= k < |m.issued| ==> Known(reg, m.issued[k].documentId))
    && (!m.overflowed ==> Rising(World(m.a, reg, m.issued, m.overflowed)))
  }

  ghost predicate AllTame(p: Process) {
    forall i :: 0 <= i < |p.members| ==> Tame(p.reg, p.members[i])
  }

  lemma {:induction false} RegistryGrows(w: World, op: Op, id: Word64)
    requires Known(w.reg, id)
    ensures Known(Perform(w, op).reg, id)
  {
  }

  lemma {:induction false} IssuedKnown(w: World, op: Op)
    requires Known(w.reg, w.a.documentId) && forall k :: 0 <= k < |w.issued| ==> Known(w.reg, w.issued[k].documentId)
    requires op.RestoreOp? ==> Known(w.reg, op.s.documentId)
    ensures var w' := Perform(w, op);
            Known(w'.reg, w'.a.documentId) && forall k :: 0 <= k < |w'.issued| ==> Known(w'.reg, w'.issued[k].documentId)
  {
    hide Wrap64;
  }

  lemma {:induction false} TameElsewhere(reg: Registry, reg': Registry, m: Member)
    requires Tame(reg, m) && forall id: Word64 :: Known(reg, id) ==> Known(reg', id)
    ensures Tame(reg', m)
  {
  }

  lemma {:induction false} DoKeepsTame(p: Process, act: Act)
    requires AllTame(p) && act.who < |p.members|
    requires act.op.RestoreOp? ==> Known(p.reg, act.op.s.documentId)
    ensures AllTame(Do(p, act))
  {
    var w := Seen(p, act.who);
    var w' := Perform(w, act.op);
    assert Tame(p.reg, p.members[act.who]);
    IssuedKnown(w, act.op);
    if w.overflowed { OverflowStays(w, act.op); }
    if !w'.overflowed { PerformKeepsRising(w, act.op); }
    forall id: Word64 | Known(w.reg, id) ensures Known(w'.reg, id) { RegistryGrows(w, act.op, id); }
    hide Perform, Rising, Known;
    assert Tame(w'.reg, Member(w'.a, w'.issued, w'.overflowed));
    forall i | 0 <= i < |p.members| && i != act.who ensures Tame(w'.reg, p.members[i]) { TameElsewhere(p.reg, w'.reg, p.members[i]); }
  }

  lemma {:induction false} RunTame(n: nat, acts: seq<Act>)
    requires InRange(n, acts) && RestoresKnown(n, acts)
    ensures AllTame(After(n, acts))
  {
    if acts != [] {
      var m := |acts| - 1;
      assert forall k :: 0 <= k < m ==> acts[..m][k] == acts[k] && acts[..m][..k] == acts[..k];
      RunTame(n, acts[..m]);
      DoKeepsTame(After(n, acts[..m]), acts[m]);
    }
  }

  /** The identity the `k`-th issue of allocator `i` handed out, and that it has a multi-document scalar. */
  predicate Encoded(p: Process, i: nat, k: nat) {
    i < |p.members| && k < |p.members[i].issued| && p.members[i].issued[k].documentId != 0 && Encode(p.members[i].issued[k]).Ok?
  }

  function IssuedBy(p: Process, i: nat, k: nat): ShapeIdentity
    requires Encoded(p, i, k)
  {
    p.members[i].issued[k]
  }

  /**
   In every interleaving before an overflow, two issues of any two allocators have equal scalars exactly when they
   are one and the same issue, or were made by different allocators under one document at the same count.
   */
  lemma {:induction false} ScalarsAcrossAllocators(n: nat, acts: seq<Act>, i: nat, k: nat, j: nat, l: nat)
    requires InRange(n, acts) && RestoresKnown(n, acts)
    requires var p := After(n, acts); NoOverflow(p) && Encoded(p, i, k) && Encoded(p, j, l)
    ensures var p := After(n, acts); var x, y := IssuedBy(p, i, k), IssuedBy(p, j, l);
            Encode(x) == Encode(y)
            <==> (i == j && k == l) || (i != j && x.documentId == y.documentId && x.counter == y.counter)
  {
    RunTame(n, acts);
    var p := After(n, acts);
    var x, y := IssuedBy(p, i, k), IssuedBy(p, j, l);
    assert Tame(p.reg, p.members[i]) && Tame(p.reg, p.members[j]);
    ScalarsEqualIff(x, y);
    hide Encode;
    assert Low32(x.documentId) == Low32(y.documentId) ==> x.documentId == y.documentId;
  }

  // ── A document of one's own ────────────────────────────

  /** The document an operation may move its allocator to. */
  function DocumentOf(op: Op): Option<Word64> {
    match op
    case SetDocumentOp(id) => Some(id)
    case RestoreOp(s) => Some(s.documentId)
    case _ => None
  }

  /** No document is one allocator at the start, or one that an operation on the allocator names. */
  ghost predicate NamedBy(acts: seq<Act>, i: nat, documentId: Word64) {
    documentId == 0 || exists k :: 0 <= k < |acts| && acts[k].who == i && DocumentOf(acts[k].op) == Some(documentId)
  }

  /** Operations on different allocators never name the same document. */
  ghost predicate OwnDocuments(acts: seq<Act>) {
    forall a, b :: 0 <= a < |acts| && 0 <= b < |acts| && acts[a].who != acts[b].who
                   && DocumentOf(acts[a].op).Some? && DocumentOf(acts[a].op) == DocumentOf(acts[b].op)
      ==> DocumentOf(acts[a].op) == Some(0)
  }

  ghost predicate MemberNamed(acts: seq<Act>, i: nat, m: Member) {
    NamedBy(acts, i, m.a.documentId) && forall k :: 0 <= k < |m.issued| ==> NamedBy(acts, i, m.issued[k].documentId)
  }

  /** One operation keeps an allocator's document or moves it to the one named, and issues under the one it had. */
  lemma {:induction false} PerformDocuments(w: World, op: Op)
    ensures var w' := Perform(w, op);
            && (w'.a.documentId == w.a.documentId || DocumentOf(op) == Some(w'.a.documentId))
            && |w.issued| <= |w'.issued| && w'.issued[..|w.issued|] == w.issued
            && forall k :: |w.issued| <= k < |w'.issued| ==> w'.issued[k].documentId == w.a.documentId
  {
    hide Wrap64;
  }

  lemma {:induction false} NamedLater(acts: seq<Act>, act: Act, i: nat, documentId: Word64)
    requires NamedBy(acts, i, documentId)
    ensures NamedBy(acts + [act], i, documentId)
  {
    if documentId != 0 {
      var k :| 0 <= k < |acts| && acts[k].who == i && DocumentOf(acts[k].op) == Some(documentId);
      assert (acts + [act])[k] == acts[k];
    }
  }

  lemma {:induction false} MemberNamedNext(p: Process, acts: seq<Act>, act: Act, i: nat)
    requires act.who < |p.members| && i < |p.members| && MemberNamed(acts, i, p.members[i])
    ensures MemberNamed(acts + [act], i, Do(p, act).members[i])
  {
    var m, m' := p.members[i], Do(p, act).members[i];
    NamedLater(acts, act, i, m.a.documentId);
    forall k | 0 <= k < |m.issued| ensures NamedBy(acts + [act], i, m.issued[k].documentId) { NamedLater(acts, act, i, m.issued[k].documentId); }
    if act.who == i {
      PerformDocuments(Seen(p, i), act.op);
      assert (acts + [act])[|acts|] == act;
      hide Perform, NamedBy;
      assert NamedBy(acts + [act], i, m'.a.documentId) by { if m'.a.documentId != m.a.documentId { NamedHere(acts, act, m'.a.documentId); } }
      forall k | 0 <= k < |m'.issued| ensures NamedBy(acts + [act], i, m'.issued[k].documentId) {
        if k < |m.issued| { assert m'.issued[..|m.issued|][k] == m.issued[k]; }
      }
    }
  }

  lemma {:induction false} NamedHere(acts: seq<Act>, act: Act, documentId: Word64)
    requires DocumentOf(act.op) == Some(documentId)
    ensures NamedBy(acts + [act], act.who, documentId)
  {
    assert (acts + [act])[|acts|] == act;
  }

  lemma {:induction false} RunNamed(n: nat, acts: seq<Act>)
    requires InRange(n, acts)
    ensures forall i :: 0 <= i < n ==> MemberNamed(acts, i, After(n, acts).members[i])
  {
    if acts != [] {
      var m := |acts| - 1;
      assert acts == acts[..m] + [acts[m]];
      AfterAppend(n, acts[..m], acts[m]);
      RunNamed(n, acts[..m]);
      hide Do, MemberNamed, After;
      forall i | 0 <= i < n ensures MemberNamed(acts, i, After(n, acts).members[i]) {
        MemberNamedNext(After(n, acts[..m]), acts[..m], acts[m], i);
      }
    }
  }

  /** Where every allocator has documents of its own, no scalar is issued twice, by whichever allocators, in any run before an overflow. */
  lemma {:induction false} NoScalarTwice(n: nat, acts: seq<Act>, i: nat, k: nat, j: nat, l: nat)
    requires InRange(n, acts) && RestoresKnown(n, acts) && OwnDocuments(acts)
    requires var p := After(n, acts); NoOverflow(p) && Encoded(p, i, k) && Encoded(p, j, l)
    requires i != j || k != l
    ensures var p := After(n, acts); Encode(IssuedBy(p, i, k)) != Encode(IssuedBy(p, j, l))
  {
    ScalarsAcrossAllocators(n, acts, i, k, j, l);
    RunNamed(n, acts);
    var p := After(n, acts);
    var x, y := IssuedBy(p, i, k), IssuedBy(p, j, l);
    assert MemberNamed(acts, i, p.members[i]) && MemberNamed(acts, j, p.members[j]);
    assert NamedBy(acts, i, x.documentId) && NamedBy(acts, j, y.documentId);
    hide Encode, After, RestoresKnown, NoOverflow, MemberNamed;
    if i != j { NamedApart(acts, i, j, x.documentId, y.documentId); }
  }

  lemma {:induction false} NamedApart(acts: seq<Act>, i: nat, j: nat, d: Word64, e: Word64)
    requires OwnDocuments(acts) && i != j && d != 0 && NamedBy(acts, i, d) && NamedBy(acts, j, e)
    ensures d != e
  {
  }

  lemma {:induction false} AfterAppend(n: nat, acts: seq<Act>, act: Act)
    requires InRange(n, acts + [act])
    ensures InRange(n, acts) && act.who < n && After(n, acts + [act]) == Do(After(n, acts), act)
  {
    assert (acts + [act])[|acts|] == act && (acts + [act])[..|acts|] == acts;
    assert forall k :: 0 <= k < |acts| ==> acts[k] == (acts + [act])[k];
  }

  function Pair(reg: Registry, a: Allocator, x: seq<ShapeIdentity>, b: Allocator, y: seq<ShapeIdentity>): Process {
    Process(reg, [Member(a, x, false), Member(b, y, false)])
  }

  lemma {:induction false} TwoStart()
    ensures Start(2) == Pair(map[], Allocator(0, 0, map[], 1), [], Allocator(0, 0, map[], 1), [])
  {
  }

  lemma {:induction false} Assigned()
    ensures var start, seven := Allocator(0, 0, map[], 1), Allocator(0, 7, map[], 1);
            var p := Do(Pair(map[], start, [], start, []), Act(0, SetDocumentOp(7)));
            p == Pair(map[7 := 7], seven, [], start, []) && Do(p, Act(1, SetDocumentOp(7))) == Pair(map[7 := 7], seven, [], seven, [])
  {
  }

  lemma {:induction false} Issued()
    ensures var seven, one := Allocator(0, 7, map[], 1), Allocator(1, 7, map[], 1); var id := ShapeIdentity(7, 1);
            var p := Do(Pair(map[7 := 7], seven, [], seven, []), Act(0, NextOp));
            p == Pair(map[7 := 7], one, [id], seven, []) && Do(p, Act(1, NextOp)) == Pair(map[7 := 7], one, [id], one, [id])
  {
    var seven, id := Allocator(0, 7, map[], 1), ShapeIdentity(7, 1);
    var w := World(seven, map[7 := 7], [], false);
    assert Perform(w, NextOp).issued == [id];
    assert Perform(w, NextOp) == World(Allocator(1, 7, map[], 1), map[7 := 7], [id], false);
  }

  /** The second case does happen: the registry admits a document again for another allocator. */
  lemma {:induction false} SharedDocumentRepeats()
    ensures var acts := [Act(0, SetDocumentOp(7)), Act(1, SetDocumentOp(7)), Act(0, NextOp), Act(1, NextOp)];
            && InRange(2, acts) && RestoresKnown(2, acts)
            && var p := After(2, acts);
               NoOverflow(p) && p.members[0].issued == p.members[1].issued == [ShapeIdentity(7, 1)]
  {
    var acts := [Act(0, SetDocumentOp(7)), Act(1, SetDocumentOp(7)), Act(0, NextOp), Act(1, NextOp)];
    assert acts == acts[..3] + [acts[3]] && acts[..3] == acts[..2] + [acts[2]] && acts[..2] == acts[..1] + [acts[1]] && acts[..1] == [] + [acts[0]];
    assert InRange(2, acts) && InRange(2, acts[..3]) && InRange(2, acts[..2]) && InRange(2, acts[..1]);
    assert After(2, []) == Start(2);
    hide After, Do, Perform, Start;
    TwoStart();
    Assigned();
    Issued();
    AfterAppend(2, [], acts[0]);
    AfterAppend(2, acts[..1], acts[1]);
    AfterAppend(2, acts[..2], acts[2]);
    AfterAppend(2, acts[..3], acts[3]);
  }
}
