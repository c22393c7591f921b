/**
 Identities, their allocator and the process-wide document registry
 (src/core/shape_identity.h, src/core/tag_allocator.h).
 Words are mathematical integers; wrap-around is written out where the source has it.
 */
module TagAllocation {
  import opened Wrappers

  const INT32_MAX: int := 0x7FFF_FFFF
  const UINT32_MAX: int := 0xFFFF_FFFF
  const INT64_MAX: int := 0x7FFF_FFFF_FFFF_FFFF
  const TWO32: int := 0x1_0000_0000
  const TWO63: int := 0x8000_0000_0000_0000
  const TWO64: int := 0x1_0000_0000_0000_0000

  type Word64 = w: int | 0 <= w <= 0xFFFF_FFFF_FFFF_FFFF
  type Int64 = i: int | -0x8000_0000_0000_0000 <= i <= 0x7FFF_FFFF_FFFF_FFFF
  type Int32 = i: int | -0x8000_0000 <= i <= 0x7FFF_FFFF

  /** A counter that has not overflowed. */
  type Counter = c: int | 0 <= c <= 0x7FFF_FFFF_FFFF_FFFF

  datatype ShapeIdentity = ShapeIdentity(documentId: Word64, counter: Word64)

  datatype SnapshotV2 = SnapshotV2(counter: Word64, documentId: Word64)

  /** A snapshot an allocator can have taken. */
  type Boundary = s: SnapshotV2 | s.counter <= 0x7FFF_FFFF_FFFF_FFFF witness SnapshotV2(0, 0)

  /** The exceptions of tag_allocator.h and shape_identity_v1.cpp. */
  datatype Exception = InvalidArgument | LogicError | OverflowError

  function Wrap64(x: int): (r: Int64)
    ensures -TWO63 <= x < TWO63 ==> r == x
    ensures TWO63 <= x < TWO64 ==> r == x - TWO64
  {
    (x + TWO63) % TWO64 - TWO63
  }

  function Wrap32(x: int): (r: Int32)
    ensures -0x8000_0000 <= x < 0x8000_0000 ==> r == x
  {
    (x + 0x8000_0000) % TWO32 - 0x8000_0000
  }

  function Low32(w: Word64): (r: int)
    ensures 0 <= r < TWO32
  {
    w % TWO32
  }

  // ── The document registry ──────────────────────────────

  /** low 32 bits -> the one document admitted with them */
  type Registry = map<int, Word64>

  function Register(reg: Registry, id: Word64): Result<Registry, Exception> {
    if Low32(id) !in reg then Ok(reg[Low32(id) := id])
    else if reg[Low32(id)] != id then Thrown(LogicError)
    else Ok(reg)
  }

  /** A document this process has admitted. */
  predicate Admitted(reg: Registry, id: Word64) {
    Low32(id) in reg && reg[Low32(id)] == id
  }

  // ── The allocator ──────────────────────────────────────

  datatype Allocator = Allocator(counter: Int64, documentId: Word64, occtTags: map<ShapeIdentity, Int32>, nextOcctTag: Int32)

  function Next(a: Allocator): (Allocator, Result<ShapeIdentity, Exception>) {
    (a.(counter := Wrap64(a.counter + 1)),
     if a.counter < 0 || a.counter == INT64_MAX then Thrown(OverflowError)
     else Ok(ShapeIdentity(a.documentId, a.counter + 1)))
  }

  /** A closed-open range of counters in one document. */
  datatype Range = Range(first: ShapeIdentity, lastExclusive: ShapeIdentity)

  function AllocateRange(a: Allocator, n: Int64): (Allocator, Result<Range, Exception>) {
    if n <= 0 then (a, Thrown(InvalidArgument))
    else
      (a.(counter := Wrap64(a.counter + n)),
       if a.counter < 0 || a.counter > INT64_MAX - n - 1 then Thrown(OverflowError)
       else Ok(Range(ShapeIdentity(a.documentId, a.counter + 1), ShapeIdentity(a.documentId, a.counter + n + 1))))
  }

  function Seed(a: Allocator, start: Int64): (Allocator, Result<(), Exception>) {
    if a.counter != 0 then (a, Thrown(LogicError))
    else if start < 0 then (a, Thrown(InvalidArgument))
    else (a.(counter := start), Ok(()))
  }

  function SetDocumentId(a: Allocator, reg: Registry, id: Word64): (Allocator, Registry, Result<(), Exception>) {
    if a.counter != 0 then (a, reg, Thrown(LogicError))
    else if id == 0 then (a.(documentId := 0), reg, Ok(()))
    else match Register(reg, id)
      case Thrown(e) => (a, reg, Thrown(e))
      case Ok(reg') => (a.(documentId := id), reg', Ok(()))
  }

  function Snapshot(a: Allocator): Result<Boundary, Exception> {
    if a.counter < 0 then Thrown(LogicError) else Ok(SnapshotV2(a.counter, a.documentId))
  }

  function Restore(a: Allocator, s: SnapshotV2, force: bool): (Allocator, Result<(), Exception>) {
    if s.counter > INT64_MAX then (a, Thrown(InvalidArgument))
    else if !force && a.counter > s.counter then (a, Thrown(LogicError))
    else (a.(counter := s.counter, documentId := s.documentId), Ok(()))
  }

  predicate PassesThrough(id: ShapeIdentity) {
    id.documentId == 0 && id.counter <= INT32_MAX
  }

  function ToOcctTag(a: Allocator, id: ShapeIdentity): (Allocator, Result<Int32, Exception>) {
    if id.counter == 0 then (a, Thrown(InvalidArgument))
    else if PassesThrough(id) then (a, Ok(id.counter))
    else if id in a.occtTags then (a, Ok(a.occtTags[id]))
    else
      var next := a.nextOcctTag;
      var a := a.(nextOcctTag := Wrap32(next + 1));
      if next <= 0 then (a, Thrown(OverflowError))
      else (a.(occtTags := a.occtTags[id := next]), Ok(next))
  }

  /** The process-global registry, shared by every allocator. */
  class DocumentRegistry {
    var entries: Registry

    constructor ()
      ensures entries == map[]
    {
      entries := map[];
    }

    method RegisterDocumentId(id: Word64) returns (r: Result<(), Exception>)
      modifies this
      ensures r.Ok? <==> Register(old(entries), id).Ok?
      ensures r.Ok? ==> entries == Register(old(entries), id).value && Admitted(entries, id)
      ensures r.Thrown? ==> entries == old(entries) && r.error == LogicError
    {
      var low := Low32(id);
      if low !in entries {
        entries := entries[low := id];
        return Ok(());
      }
      if entries[low] != id { return Thrown(LogicError); }
      return Ok(());
    }
  }

  class TagAllocator {
    var counter: Int64
    var documentId: Word64
    var occtTags: map<ShapeIdentity, Int32>
    var nextOcctTag: Int32

    ghost function State(): Allocator
      reads this
    {
      Allocator(counter, documentId, occtTags, nextOcctTag)
    }

    constructor ()
      ensures State() == Allocator(0, 0, map[], 1)
    {
      counter, documentId, occtTags, nextOcctTag := 0, 0, map[], 1;
    }

    method NextShapeIdentity() returns (r: Result<ShapeIdentity, Exception>)
      modifies this`counter
      ensures (State(), r) == Next(old(State()))
    {
      var prev := counter;
      counter := Wrap64(counter + 1);
      if prev < 0 || prev == INT64_MAX { return Thrown(OverflowError); }
      var s := prev + 1;
      return Ok(ShapeIdentity(documentId, s));
    }

    method AllocateRangeV2(n: Int64) returns (r: Result<Range, Exception>)
      modifies this`counter
      ensures (State(), r) == AllocateRange(old(State()), n)
    {
      if n <= 0 { return Thrown(InvalidArgument); }
      var prev := counter;
      counter := Wrap64(counter + n);
      if prev < 0 || prev > INT64_MAX - n - 1 { return Thrown(OverflowError); }
      return Ok(Range(ShapeIdentity(documentId, prev + 1), ShapeIdentity(documentId, prev + n + 1)));
    }

    method ResetCounterOnly()
      modifies this`counter
      ensures counter == 0
    {
      counter := 0;
    }

    method SeedCounter(start: Int64) returns (r: Result<(), Exception>)
      modifies this`counter
      ensures (State(), r) == Seed(old(State()), start)
    {
      if counter != 0 { return Thrown(LogicError); }
      if start < 0 { return Thrown(InvalidArgument); }
      counter := start;
      return Ok(());
    }

    method AssignDocumentId(registry: DocumentRegistry, id: Word64) returns (r: Result<(), Exception>)
      modifies this`documentId, registry
      ensures (State(), registry.entries, r) == SetDocumentId(old(State()), old(registry.entries), id)
    {
      if counter != 0 { return Thrown(LogicError); }
      if id != 0 {
        var admitted := registry.RegisterDocumentId(id);
        if admitted.Thrown? { return Thrown(admitted.error); }
      }
      documentId := id;
      return Ok(());
    }

    method TakeSnapshotV2() returns (r: Result<Boundary, Exception>)
      ensures r == Snapshot(State())
    {
      if counter < 0 { return Thrown(LogicError); }
      return Ok(SnapshotV2(counter, documentId));
    }

    method RestoreV2(s: SnapshotV2, force: bool) returns (r: Result<(), Exception>)
      modifies this`counter, this`documentId
      ensures (State(), r) == Restore(old(State()), s, force)
    {
      if s.counter > INT64_MAX { return Thrown(InvalidArgument); }
      if !force && counter > s.counter { return Thrown(LogicError); }
      counter := s.counter;
      documentId := s.documentId;
      return Ok(());
    }

    method OcctTag(id: ShapeIdentity) returns (r: Result<Int32, Exception>)
      modifies this`occtTags, this`nextOcctTag
      ensures (State(), r) == ToOcctTag(old(State()), id)
    {
      if id.counter == 0 { return Thrown(InvalidArgument); }
      if PassesThrough(id) { return Ok(id.counter); }
      if id in occtTags { return Ok(occtTags[id]); }
      var next := nextOcctTag;
      nextOcctTag := Wrap32(nextOcctTag + 1);
      if next <= 0 { return Thrown(OverflowError); }
      occtTags := occtTags[id := next];
      return Ok(next);
    }
  }
}
