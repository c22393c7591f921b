/**
 The schema registry (src/core/schema.cpp): registered migrations, their hashed mirror, and the walk that
 carries a document from its version to the current one.
 */
module SchemaRegistries {
  import opened Wrappers
  import opened TagAllocation
  import opened ParamJson
  import opened SchemaVersions

  datatype SchemaError =
    | Frozen | Duplicate
    | MissingHeader | MalformedVersion | TypeMismatch | UnknownType | FutureMajor
    | Cycle | NoPath | StepLimit | MigratorFailed

  type Migrator = Json -> Result<Json, SchemaError>

  datatype Migration = Migration(kind: string, source: Version, target: Version, migrate: Migrator)

  // ── Headers ────────────────────────────────────────────

  function VersionToJson(v: Version): Json {
    JObject(map["major" := JInt(v.major), "minor" := JInt(v.minor), "patch" := JInt(v.patch)])
  }

  /** Integers only; a number outside the width of an int is truncated. */
  function VersionFromJson(j: Json): Option<Version> {
    if j.JObject? && {"major", "minor", "patch"} <= j.fields.Keys
       && j.fields["major"].JInt? && j.fields["minor"].JInt? && j.fields["patch"].JInt?
    then Some(Version(Wrap32(j.fields["major"].i), Wrap32(j.fields["minor"].i), Wrap32(j.fields["patch"].i)))
    else None
  }

  datatype Header = Header(kind: string, version: Version)

  predicate HasHeader(data: Json) {
    && data.JObject?
    && "_schema" in data.fields && data.fields["_schema"].JString?
    && "_version" in data.fields && data.fields["_version"].JObject?
  }

  /** readHeader */
  function ReadHeader(data: Json): Result<Header, SchemaError> {
    if !HasHeader(data) then Thrown(MissingHeader)
    else
      var v := VersionFromJson(data.fields["_version"]);
      if v.None? then Thrown(MalformedVersion) else Ok(Header(data.fields["_schema"].s, v.value))
  }

  /** The kernel version a header names, read even where the rest of the header is missing; empty without one. */
  function KernelVersionIn(data: Json): string {
    if data.JObject? && "_kernelVersion" in data.fields && data.fields["_kernelVersion"].JString?
    then data.fields["_kernelVersion"].s else ""
  }

  // ── The walk ───────────────────────────────────────────

  predicate SameFrom(m: Migration, kind: string, v: Version) {
    m.kind == kind && m.source == v
  }

  /** The migration that starts at this version, by a scan of the registrations; -1 when there is none. */
  function Scan(ms: seq<Migration>, kind: string, v: Version): (r: int)
    ensures -1 <= r < |ms|
    ensures 0 <= r ==> SameFrom(ms[r], kind, v) && forall i :: 0 <= i < r ==> !SameFrom(ms[i], kind, v)
    ensures r == -1 ==> forall i :: 0 <= i < |ms| ==> !SameFrom(ms[i], kind, v)
  {
    if ms == [] then -1
    else
      var r := Scan(ms[..|ms| - 1], kind, v);
      if 0 <= r then r else if SameFrom(ms[|ms| - 1], kind, v) then |ms| - 1 else -1
  }

  datatype WalkEnd = Arrived | Stuck | Cycled | OutOfSteps

  /** Where the walk from `v` ends, given the versions visited and the steps left. */
  function Walk(ms: seq<Migration>, kind: string, v: Version, goal: Version, visited: set<string>, steps: nat): WalkEnd
    decreases steps
  {
    if v == goal then Arrived
    else if steps == 0 then OutOfSteps
    else if v.ToString() in visited then Cycled
    else
      var i := Scan(ms, kind, v);
      if i < 0 then Stuck else Walk(ms, kind, ms[i].target, goal, visited + {v.ToString()}, steps - 1)
  }

  /** The migrated document is stamped with the version reached, if it still has a version field. */
  function Stamp(doc: Json, v: Version): Json {
    if doc.JObject? && "_version" in doc.fields then JObject(doc.fields["_version" := VersionToJson(v)]) else doc
  }

  function MigrateFrom(ms: seq<Migration>, kind: string, doc: Json, v: Version, goal: Version, visited: set<string>, steps: nat)
    : Result<Json, SchemaError>
    decreases steps
  {
    if v == goal then Ok(doc)
    else if steps == 0 then Thrown(StepLimit)
    else if v.ToString() in visited then Thrown(Cycle)
    else
      var i := Scan(ms, kind, v);
      if i < 0 then Thrown(NoPath)
      else
        match ms[i].migrate(doc)
        case Thrown(e) => Thrown(e)
        case Ok(d) => MigrateFrom(ms, kind, Stamp(d, ms[i].target), ms[i].target, goal, visited + {v.ToString()}, steps - 1)
  }

  datatype Registry = Registry(current: map<string, Version>, migrations: seq<Migration>, maxSteps: nat, frozen: bool)
  {
    function CanLoad(kind: string, v: Version): bool {
      kind in current && (current[kind].CanLoad(v) || Walk(migrations, kind, v, current[kind], {}, maxSteps) == Arrived)
    }

    function Migrate(kind: string, data: Json): Result<Json, SchemaError> {
      match ReadHeader(data)
      case Thrown(e) => Thrown(e)
      case Ok(h) =>
        if h.kind != kind then Thrown(TypeMismatch)
        else if kind !in current then Thrown(UnknownType)
        else if current[kind].CanLoad(h.version) then Ok(data)
        else if h.version.major > current[kind].major then Thrown(FutureMajor)
        else MigrateFrom(migrations, kind, data, h.version, current[kind], {}, maxSteps)
    }

    function Register(m: Migration): Result<Registry, SchemaError> {
      if frozen then Thrown(Frozen)
      else if 0 <= Scan(migrations, m.kind, m.source) then Thrown(Duplicate)
      else Ok(this.(migrations := migrations + [m]))
    }

    function Unregister(kind: string, v: Version): Result<(Registry, bool), SchemaError> {
      if frozen then Thrown(Frozen)
      else
        var i := Scan(migrations, kind, v);
        if i < 0 then Ok((this, false))
        else Ok((this.(migrations := migrations[..i] + migrations[i + 1..]), true))
    }
  }

  // ── The class ──────────────────────────────────────────

  ghost predicate OnePerSource(ms: seq<Migration>) {
    forall i, j :: 0 <= i < j < |ms| ==> !SameFrom(ms[j], ms[i].kind, ms[i].source)
  }

  /** The hashed mirror answers every lookup as a scan of the registrations would. */
  ghost predicate Mirrors(ms: seq<Migration>, byKey: map<string, Migrator>, targets: map<string, Version>) {
    forall kind, v :: LookupAgrees(ms, byKey, targets, kind, v)
  }

  ghost predicate LookupAgrees(ms: seq<Migration>, byKey: map<string, Migrator>, targets: map<string, Version>, kind: string, v: Version) {
    var i, key := Scan(ms, kind, v), ComposeKey(kind, v);
    if i < 0 then key !in byKey && key !in targets
    else key in byKey && key in targets && byKey[key] == ms[i].migrate && targets[key] == ms[i].target
  }

  lemma {:induction false} ScanAppended(ms: seq<Migration>, m: Migration, kind: string, v: Version)
    ensures Scan(ms + [m], kind, v)
            == if 0 <= Scan(ms, kind, v) then Scan(ms, kind, v) else if SameFrom(m, kind, v) then |ms| else -1
  {
    assert (ms + [m])[..|ms|] == ms;
  }

  lemma {:induction false} MirrorsAppended(ms: seq<Migration>, byKey: map<string, Migrator>, targets: map<string, Version>, m: Migration)
    requires OnePerSource(ms) && Mirrors(ms, byKey, targets) && Scan(ms, m.kind, m.source) < 0
    ensures var key := ComposeKey(m.kind, m.source);
            OnePerSource(ms + [m]) && Mirrors(ms + [m], byKey[key := m.migrate], targets[key := m.target])
  {
    var key := ComposeKey(m.kind, m.source);
    var ns, byKey', targets' := ms + [m], byKey[key := m.migrate], targets[key := m.target];
    hide ComposeKey, Scan;
    forall kind, v ensures LookupAgrees(ns, byKey', targets', kind, v) {
      assert LookupAgrees(ms, byKey, targets, kind, v);
      AgreesAppended(ms, byKey, targets, m, kind, v);
    }
    hide LookupAgrees;
  }

  lemma {:induction false} AgreesAppended(ms: seq<Migration>, byKey: map<string, Migrator>, targets: map<string, Version>,
                                          m: Migration, kind: string, v: Version)
    requires LookupAgrees(ms, byKey, targets, kind, v) && Scan(ms, m.kind, m.source) < 0
    ensures var key := ComposeKey(m.kind, m.source);
            LookupAgrees(ms + [m], byKey[key := m.migrate], targets[key := m.target], kind, v)
  {
    ScanAppended(ms, m, kind, v);
    hide ComposeKey, Scan;
    if ComposeKey(kind, v) == ComposeKey(m.kind, m.source) { ComposeKeyInjective(kind, v, m.kind, m.source); }
  }

  lemma {:induction false} ScanUnique(ms: seq<Migration>, kind: string, v: Version, i: nat)
    requires OnePerSource(ms) && i < |ms| && SameFrom(ms[i], kind, v)
    ensures Scan(ms, kind, v) == i
  {
  }

  lemma {:induction false} ScanRemoved(ms: seq<Migration>, at: nat, kind: string, v: Version)
    requires OnePerSource(ms) && at < |ms|
    ensures var r := Scan(ms[..at] + ms[at + 1..], kind, v); var was := Scan(ms, kind, v);
            if was < 0 || was == at then r < 0 else 0 <= r && (ms[..at] + ms[at + 1..])[r] == ms[was]
  {
    var ns := ms[..at] + ms[at + 1..];
    var was, r := Scan(ms, kind, v), Scan(ns, kind, v);
    assert forall i :: 0 <= i < |ns| ==> ns[i] == ms[if i < at then i else i + 1];
    if 0 <= was && was != at {
      assert ns[if was < at then was else was - 1] == ms[was];
    }
    if 0 <= r { ScanUnique(ms, kind, v, if r < at then r else r + 1); }
  }

  lemma {:induction false} MirrorsRemoved(ms: seq<Migration>, byKey: map<string, Migrator>, targets: map<string, Version>, at: nat)
    requires OnePerSource(ms) && Mirrors(ms, byKey, targets) && at < |ms|
    ensures var key := ComposeKey(ms[at].kind, ms[at].source); var ns := ms[..at] + ms[at + 1..];
            OnePerSource(ns) && Mirrors(ns, byKey - {key}, targets - {key})
  {
    var key, ns := ComposeKey(ms[at].kind, ms[at].source), ms[..at] + ms[at + 1..];
    var byKey', targets' := byKey - {key}, targets - {key};
    hide ComposeKey;
    assert forall i :: 0 <= i < |ns| ==> ns[i] == ms[if i < at then i else i + 1];
    forall kind, v ensures LookupAgrees(ns, byKey', targets', kind, v) {
      assert LookupAgrees(ms, byKey, targets, kind, v);
      ScanRemoved(ms, at, kind, v);
      if ComposeKey(kind, v) == key { ComposeKeyInjective(kind, v, ms[at].kind, ms[at].source); }
      ScanUnique(ms, ms[at].kind, ms[at].source, at);
    }
  }

  const CURRENT_VERSIONS: map<string, Version> := map[
    "oreo.feature_tree" := Version(2, 0, 0), "oreo.feature" := Version(1, 0, 0), "oreo.element_map" := Version(1, 0, 0),
    "oreo.named_shape" := Version(1, 0, 0), "oreo.part_studio" := Version(2, 0, 0), "oreo.workspace" := Version(1, 0, 0),
    "oreo.merge_result" := Version(1, 0, 0), "oreo.tolerance" := Version(1, 0, 0), "oreo.unit_system" := Version(1, 0, 0),
    "oreo.kernel_context" := Version(1, 0, 0)]

  /** The built-in migration: the document with a new version. */
  function VersionBump(to: Version): Migrator {
    (j: Json) =>
      match j
      case JObject(f) => Ok(JObject(f["_version" := VersionToJson(to)]))
      case JNull => Ok(JObject(map["_version" := VersionToJson(to)]))
      case _ => Thrown(MigratorFailed)
  }

  function Builtin(kind: string): Migration {
    Migration(kind, Version(1, 0, 0), Version(2, 0, 0), VersionBump(Version(2, 0, 0)))
  }

  /** The two built-in migrations are registered one after the other. */
  lemma {:induction false} BuiltinsRegister(current: map<string, Version>)
    ensures var a, b := Builtin("oreo.feature_tree"), Builtin("oreo.part_studio");
            && Registry(current, [], 256, false).Register(a) == Ok(Registry(current, [a], 256, false))
            && Registry(current, [a], 256, false).Register(b) == Ok(Registry(current, [a, b], 256, false))
  {
    var a, b := Builtin("oreo.feature_tree"), Builtin("oreo.part_studio");
    assert "oreo.feature_tree"[5] != "oreo.part_studio"[5];
    assert a.kind != b.kind;
    hide VersionBump, Builtin;
    assert [] + [a] == [a] && [a] + [b] == [a, b];
    assert !SameFrom(a, b.kind, b.source);
  }

  class SchemaRegistry {
    const currentVersions: map<string, Version>
    var migrations: seq<Migration>
    var migrationMap: map<string, Migrator>
    var migrationTo: map<string, Version>
    var maxMigrationSteps: nat
    var frozen: bool
    var loadedFromKernelVersion: string

    ghost function State(): Registry
      reads this
    {
      Registry(currentVersions, migrations, maxMigrationSteps, frozen)
    }

    ghost predicate Valid()
      reads this
    {
      OnePerSource(migrations) && Mirrors(migrations, migrationMap, migrationTo)
    }

    constructor ()
      ensures Valid()
      ensures State() == Registry(CURRENT_VERSIONS, [Builtin("oreo.feature_tree"), Builtin("oreo.part_studio")], 256, false)
      ensures loadedFromKernelVersion == ""
    {
      currentVersions := CURRENT_VERSIONS;
      loadedFromKernelVersion := "";
      migrations, migrationMap, migrationTo, maxMigrationSteps, frozen := [], map[], map[], 256, false;
      new;
      BuiltinsRegister(currentVersions);
      assert Valid() && State() == Registry(currentVersions, [], 256, false);
      hide Mirrors, OnePerSource, VersionBump, Builtin, Registry.Register, Scan, SameFrom;
      var first := RegisterMigration(Builtin("oreo.feature_tree"));
      var second := RegisterMigration(Builtin("oreo.part_studio"));
    }

    method RegisterMigration(m: Migration) returns (r: Result<(), SchemaError>)
      requires Valid()
      modifies this`migrations, this`migrationMap, this`migrationTo
      ensures Valid()
      ensures match old(State()).Register(m)
              case Thrown(e) => r == Thrown(e) && State() == old(State())
              case Ok(s) => r == Ok(()) && State() == s
    {
      hide Mirrors;
      if frozen { return Thrown(Frozen); }
      for i := 0 to |migrations|
        invariant forall j :: 0 <= j < i ==> !SameFrom(migrations[j], m.kind, m.source)
      {
        if SameFrom(migrations[i], m.kind, m.source) { return Thrown(Duplicate); }
      }
      MirrorsAppended(migrations, migrationMap, migrationTo, m);
      var key := ComposeKey(m.kind, m.source);
      migrations := migrations + [m];
      migrationMap := migrationMap[key := m.migrate];
      migrationTo := migrationTo[key := m.target];
      return Ok(());
    }

    method UnregisterMigration(kind: string, source: Version) returns (r: Result<bool, SchemaError>)
      requires Valid()
      modifies this`migrations, this`migrationMap, this`migrationTo
      ensures Valid()
      ensures match old(State()).Unregister(kind, source)
              case Thrown(e) => r == Thrown(e) && State() == old(State())
              case Ok(s) => r == Ok(s.1) && State() == s.0
    {
      hide Mirrors;
      if frozen { return Thrown(Frozen); }
      var at := 0;
      while at < |migrations| && !SameFrom(migrations[at], kind, source)
        invariant 0 <= at <= |migrations|
        invariant forall j :: 0 <= j < at ==> !SameFrom(migrations[j], kind, source)
      {
        at := at + 1;
      }
      if at == |migrations| { return Ok(false); }
      ScanUnique(migrations, kind, source, at);
      MirrorsRemoved(migrations, migrationMap, migrationTo, at);
      migrations := migrations[..at] + migrations[at + 1..];
      var key := ComposeKey(kind, source);
      migrationMap := migrationMap - {key};
      migrationTo := migrationTo - {key};
      return Ok(true);
    }

    method SetMaxMigrationSteps(steps: nat) returns (r: Result<(), SchemaError>)
      requires Valid()
      modifies this`maxMigrationSteps
      ensures Valid()
      ensures if frozen then r == Thrown(Frozen) && State() == old(State())
              else r == Ok(()) && State() == old(State()).(maxSteps := steps)
    {
      hide Mirrors;
      if frozen { return Thrown(Frozen); }
      maxMigrationSteps := steps;
      return Ok(());
    }

    method Freeze()
      requires Valid()
      modifies this`frozen
      ensures Valid() && State() == old(State()).(frozen := true)
    {
      hide Mirrors;
      frozen := true;
    }

    method CanLoad(kind: string, version: Version) returns (r: bool)
      requires Valid()
      ensures r == State().CanLoad(kind, version)
    {
      if kind !in currentVersions { return false; }
      var current := currentVersions[kind];
      if current.CanLoad(version) { return true; }
      hide Scan, Version.ToString, ComposeKey, OnePerSource;
      var ver, visited, stepsRemaining := version, {}, maxMigrationSteps;
      while ver != current && stepsRemaining > 0
        invariant Walk(migrations, kind, ver, current, visited, stepsRemaining)
                  == Walk(migrations, kind, version, current, {}, maxMigrationSteps)
        decreases stepsRemaining
      {
        stepsRemaining := stepsRemaining - 1;
        var text := ver.ToString();
        if text in visited { return false; }
        visited := visited + {text};
        var mk := ComposeKey(kind, ver);
        assert LookupAgrees(migrations, migrationMap, migrationTo, kind, ver);
        if mk !in migrationTo { return false; }
        ver := migrationTo[mk];
      }
      return ver == current;
    }

    /** The kernel version is remembered before the header is judged, unless its version cannot be read at all. */
    method Migrate(kind: string, data: Json) returns (r: Result<Json, SchemaError>)
      requires Valid()
      modifies this`loadedFromKernelVersion
      ensures Valid() && State() == old(State()) && r == State().Migrate(kind, data)
      ensures loadedFromKernelVersion
              == if ReadHeader(data) == Thrown(MalformedVersion) then old(loadedFromKernelVersion) else KernelVersionIn(data)
    {
      var header := ReadHeader(data);
      hide Mirrors, OnePerSource, ReadHeader, MigrateFrom;
      if header == Thrown(MalformedVersion) { return Thrown(MalformedVersion); }
      loadedFromKernelVersion := KernelVersionIn(data);
      if header.Thrown? { return Thrown(header.error); }
      if header.value.kind != kind { return Thrown(TypeMismatch); }
      if kind !in currentVersions { return Thrown(UnknownType); }
      var current := currentVersions[kind];
      if current.CanLoad(header.value.version) { return Ok(data); }
      if header.value.version.major > current.major { return Thrown(FutureMajor); }
      r := MigrateAlong(kind, data, header.value.version, current);
    }

    /** The loop of migrate, from a version that is neither loadable nor too new. */
    method MigrateAlong(kind: string, data: Json, version: Version, current: Version) returns (r: Result<Json, SchemaError>)
      requires Valid()
      ensures r == MigrateFrom(migrations, kind, data, version, current, {}, maxMigrationSteps)
    {
      hide Scan, Version.ToString, ComposeKey, OnePerSource, VersionToJson;
      var result, ver, visited, stepsRemaining := data, version, {}, maxMigrationSteps;
      while ver != current && stepsRemaining > 0
        invariant MigrateFrom(migrations, kind, result, ver, current, visited, stepsRemaining)
                  == MigrateFrom(migrations, kind, data, version, current, {}, maxMigrationSteps)
        decreases stepsRemaining
      {
        stepsRemaining := stepsRemaining - 1;
        var text := ver.ToString();
        if text in visited { return Thrown(Cycle); }
        visited := visited + {text};
        var mk := ComposeKey(kind, ver);
        assert LookupAgrees(migrations, migrationMap, migrationTo, kind, ver);
        if mk !in migrationMap { return Thrown(NoPath); }
        var migrated := migrationMap[mk](result);
        if migrated.Thrown? { return Thrown(migrated.error); }
        result := migrated.value;
        ver := migrationTo[mk];
        if result.JObject? && "_version" in result.fields {
          result := JObject(result.fields["_version" := VersionToJson(ver)]);
        }
      }
      if ver != current { return Thrown(StepLimit); }
      return Ok(result);
    }
  }
}
