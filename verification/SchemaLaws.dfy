/**
 What the schema registry does to documents (src/core/schema.h, src/core/schema.cpp): which versions are compatible,
 which migrators a document passes through and with what result, and what the built-in registry loads.
 */
module SchemaLaws {
  import opened Wrappers
  import T = TagAllocation
  import opened ParamJson
  import opened SchemaVersions
  import opened SchemaRegistries
  import opened SchemaTheory

  // ── Compatible versions ────────────────────────────────

  /** A version loads its own and every older minor of its major, whatever the patch, and nothing else. */
  lemma {:induction false} CompatibleIff(v: Version, w: Version)
    ensures v.CanLoad(w) <==> exists minor: T.Int32 :: minor <= v.minor && w == Version(v.major, minor, w.patch)
  {
    if v.CanLoad(w) { assert w == Version(v.major, w.minor, w.patch); }
  }

  // ── Headers ────────────────────────────────────────────

  /** An int read from a JSON integer: the one of 32 bits that differs from it by a multiple of 2^32. */
  ghost predicate ReadAs(j: Json, i: T.Int32) {
    j.JInt? && exists k: int :: j.i == i + k * T.TWO32
  }

  lemma {:induction false} WrapMeans(x: int, i: T.Int32)
    ensures T.Wrap32(x) == i <==> exists k: int :: x == i + k * T.TWO32
  {
    if T.Wrap32(x) == i {
      var q := (x + 0x8000_0000) / T.TWO32;
      assert x == i + q * T.TWO32;
    }
    if k: int :| x == i + k * T.TWO32 {
      assert x + 0x8000_0000 == (i + 0x8000_0000) + k * T.TWO32;
      Shifted(i + 0x8000_0000, k);
    }
  }

  lemma {:induction false} Shifted(r: int, k: int)
    requires 0 <= r < T.TWO32
    ensures (r + k * T.TWO32) % T.TWO32 == r
  {
  }

  /** A header is read exactly from an object with a type name and an object of three integers. */
  lemma {:induction false} HeaderReadIff(data: Json, kind: string, v: Version)
    ensures ReadHeader(data) == Ok(Header(kind, v))
            <==> && data.JObject? && "_schema" in data.fields && data.fields["_schema"] == JString(kind)
                 && "_version" in data.fields && data.fields["_version"].JObject?
                 && var f := data.fields["_version"].fields;
                    && "major" in f && ReadAs(f["major"], v.major)
                    && "minor" in f && ReadAs(f["minor"], v.minor)
                    && "patch" in f && ReadAs(f["patch"], v.patch)
  {
    if HasHeader(data) {
      var f := data.fields["_version"].fields;
      if "major" in f && f["major"].JInt? { WrapMeans(f["major"].i, v.major); }
      if "minor" in f && f["minor"].JInt? { WrapMeans(f["minor"].i, v.minor); }
      if "patch" in f && f["patch"].JInt? { WrapMeans(f["patch"].i, v.patch); }
      hide T.Wrap32;
    }
  }

  // ── Registering ────────────────────────────────────────

  /** A migration is refused exactly by a frozen registry or next to one of the same type and source. */
  lemma {:induction false} RegisterMeans(r: Registry, m: Migration)
    ensures r.Register(m) == if r.frozen then Thrown(Frozen)
                             else if exists i :: 0 <= i < |r.migrations| && SameFrom(r.migrations[i], m.kind, m.source) then Thrown(Duplicate)
                             else Ok(r.(migrations := r.migrations + [m]))
  {
  }

  /** Removing what was just registered restores the registry. */
  lemma {:induction false} UnregisterUndoes(r: Registry, m: Migration)
    requires r.Register(m).Ok?
    ensures r.Register(m).value.Unregister(m.kind, m.source) == Ok((r, true))
  {
    var ms := r.migrations + [m];
    ScanAppended(r.migrations, m, m.kind, m.source);
    assert ms[..|r.migrations|] + ms[|r.migrations| + 1..] == r.migrations;
    hide Scan;
  }

  /** Without a migration of that type and source nothing is removed. */
  lemma {:induction false} UnregisterUnknown(r: Registry, kind: string, v: Version)
    requires !r.frozen && forall i :: 0 <= i < |r.migrations| ==> !SameFrom(r.migrations[i], kind, v)
    ensures r.Unregister(kind, v) == Ok((r, false))
  {
  }

  // ── The documents along a chain of migrations ──────────

  /** The same document but for its version, which is written anew where there is one. */
  predicate Restamped(d: Json, e: Json, v: Version) {
    if d.JObject? && "_version" in d.fields then
      && e.JObject? && e.fields.Keys == d.fields.Keys
      && e.fields["_version"] == JObject(map["major" := JInt(v.major), "minor" := JInt(v.minor), "patch" := JInt(v.patch)])
      && forall k :: k in d.fields && k != "_version" ==> e.fields[k] == d.fields[k]
    else e == d
  }

  /** One registered migration leads from the first document and version to the second. */
  ghost predicate Leads(ms: seq<Migration>, kind: string, d: Json, v: Version, e: Json, w: Version) {
    exists i :: 0 <= i < |ms| && ms[i].kind == kind && ms[i].source == v && ms[i].target == w
                && ms[i].migrate(d).Ok? && Restamped(ms[i].migrate(d).value, e, w)
  }

  /** Documents and versions one migration apart from each other. */
  ghost predicate Trail(ms: seq<Migration>, kind: string, docs: seq<Json>, vs: seq<Version>) {
    |docs| == |vs| > 0 && forall k :: 0 <= k < |vs| - 1 ==> Leads(ms, kind, docs[k], vs[k], docs[k + 1], vs[k + 1])
  }

  /** A trail from one document and version to another. */
  ghost predicate Passage(ms: seq<Migration>, kind: string, docs: seq<Json>, vs: seq<Version>, d: Json, v: Version, e: Json, w: Version) {
    Trail(ms, kind, docs, vs) && docs[0] == d && vs[0] == v && docs[|docs| - 1] == e && vs[|vs| - 1] == w
  }

  lemma {:induction false} StampMeans(d: Json, v: Version)
    ensures Restamped(d, Stamp(d, v), v)
    ensures forall e :: Restamped(d, e, v) ==> e == Stamp(d, v)
  {
    forall e | Restamped(d, e, v) ensures e == Stamp(d, v) {
      if d.JObject? && "_version" in d.fields { assert e.fields == Stamp(d, v).fields; }
    }
  }

  lemma {:induction false} LeadsIff(ms: seq<Migration>, kind: string, d: Json, v: Version, e: Json, w: Version)
    requires OnePerSource(ms)
    ensures var i := Scan(ms, kind, v);
            Leads(ms, kind, d, v, e, w)
            <==> 0 <= i && ms[i].target == w && ms[i].migrate(d).Ok? && e == Stamp(ms[i].migrate(d).value, w)
  {
    var i := Scan(ms, kind, v);
    if j :| 0 <= j < |ms| && ms[j].kind == kind && ms[j].source == v && ms[j].target == w
            && ms[j].migrate(d).Ok? && Restamped(ms[j].migrate(d).value, e, w) {
      ScanUnique(ms, kind, v, j);
      StampMeans(ms[j].migrate(d).value, w);
    }
    if 0 <= i && ms[i].migrate(d).Ok? { StampMeans(ms[i].migrate(d).value, w); }
    hide Restamped, Stamp, Scan, OnePerSource;
  }

  /** A migration that succeeds has passed the document along such a trail, from the version it names to the goal. */
  lemma {:induction false} MigratedAlong(ms: seq<Migration>, kind: string, doc: Json, v: Version, goal: Version, visited: set<string>, steps: nat)
    returns (docs: seq<Json>, vs: seq<Version>)
    requires OnePerSource(ms) && MigrateFrom(ms, kind, doc, v, goal, visited, steps).Ok?
    ensures Trail(ms, kind, docs, vs) && docs[0] == doc && vs[0] == v
    ensures vs[|vs| - 1] == goal && goal !in vs[..|vs| - 1] && |vs| - 1 <= steps
    ensures MigrateFrom(ms, kind, doc, v, goal, visited, steps) == Ok(docs[|docs| - 1])
    decreases steps
  {
    docs, vs := [doc], [v];
    if v != goal {
      var i := Scan(ms, kind, v);
      var w := ms[i].target;
      var d := Stamp(ms[i].migrate(doc).value, w);
      LeadsIff(ms, kind, doc, v, d, w);
      hide Version.ToString, Scan, Stamp, Leads, OnePerSource, Trail;
      var ds, ws := MigratedAlong(ms, kind, d, w, goal, visited + {v.ToString()}, steps - 1);
      hide MigrateFrom;
      TrailLonger(ms, kind, doc, v, ds, ws);
      docs, vs := [doc] + ds, [v] + ws;
    }
  }

  lemma {:induction false} TrailLonger(ms: seq<Migration>, kind: string, doc: Json, v: Version, ds: seq<Json>, ws: seq<Version>)
    requires Trail(ms, kind, ds, ws) && Leads(ms, kind, doc, v, ds[0], ws[0])
    ensures var docs, vs := [doc] + ds, [v] + ws;
            && Trail(ms, kind, docs, vs) && docs[0] == doc && vs[0] == v
            && vs[|vs| - 1] == ws[|ws| - 1] && docs[|docs| - 1] == ds[|ds| - 1] && vs[..|vs| - 1] == [v] + ws[..|ws| - 1]
  {
    var docs, vs := [doc] + ds, [v] + ws;
    hide Leads;
    forall k | 0 <= k < |vs| - 1 ensures Leads(ms, kind, docs[k], vs[k], docs[k + 1], vs[k + 1]) {
      if k > 0 { assert Leads(ms, kind, ds[k - 1], ws[k - 1], ds[k], ws[k]); }
    }
  }

  lemma {:induction false} PrefixGrows(vs: seq<Version>, n: nat)
    requires 0 < n <= |vs| && NoRepeats(vs[..n])
    ensures vs[..n] == vs[..n - 1] + [vs[n - 1]] && NoRepeats(vs[..n - 1]) && vs[n - 1] !in vs[..n - 1]
  {
    var before := vs[..n - 1];
    assert forall j :: 0 <= j < n - 1 ==> before[j] == vs[..n][j];
    assert vs[..n][n - 1] == vs[n - 1];
  }

  lemma {:induction false} OneLink(ms: seq<Migration>, kind: string, d: Json, v: Version, e: Json, w: Version, goal: Version,
                                   path: seq<Version>, steps: nat)
    requires OnePerSource(ms) && Leads(ms, kind, d, v, e, w) && v != goal && v !in path && steps > 0
    ensures MigrateFrom(ms, kind, d, v, goal, Texts(path), steps) == MigrateFrom(ms, kind, e, w, goal, Texts(path + [v]), steps - 1)
  {
    TextMet(path, v);
    TextsGrow(path, v);
    LeadsIff(ms, kind, d, v, e, w);
    hide Version.ToString, Scan, Stamp, Leads, OnePerSource, Texts;
  }

  /** Migrating is following the trail, as long as it repeats no version and misses the goal. */
  lemma {:induction false} TrailFollowed(ms: seq<Migration>, kind: string, docs: seq<Json>, vs: seq<Version>, goal: Version, n: nat, steps: nat)
    requires OnePerSource(ms) && Trail(ms, kind, docs, vs) && n < |vs| && n <= steps
    requires NoRepeats(vs[..n]) && goal !in vs[..n]
    ensures MigrateFrom(ms, kind, docs[0], vs[0], goal, {}, steps) == MigrateFrom(ms, kind, docs[n], vs[n], goal, Texts(vs[..n]), steps - n)
  {
    hide OnePerSource, MigrateFrom, Leads, NoRepeats;
    if n == 0 {
      assert Texts(vs[..0]) == {};
    } else {
      var m := n - 1;
      PrefixGrows(vs, n);
      TrailFollowed(ms, kind, docs, vs, goal, m, steps);
      assert vs[m] != goal by { assert vs[..n][m] == vs[m]; }
      assert Leads(ms, kind, docs[m], vs[m], docs[m + 1], vs[m + 1]);
      OneLink(ms, kind, docs[m], vs[m], docs[n], vs[n], goal, vs[..m], steps - m);
    }
  }

  /**
   With one migration for each type and source, a document that is neither compatible nor of a later major comes out
   as the last one of a trail exactly when that trail starts at it, repeats no version, first meets the current one
   at its end, and is no longer than the cap.
   */
  lemma {:induction false} MigratesIffTrail(r: Registry, kind: string, data: Json, out: Json)
    requires OnePerSource(r.migrations) && ReadHeader(data).Ok? && ReadHeader(data).value.kind == kind && kind in r.current
    requires var v := ReadHeader(data).value.version; !r.current[kind].CanLoad(v) && v.major <= r.current[kind].major
    ensures r.Migrate(kind, data) == Ok(out)
            <==> exists docs, vs :: Passage(r.migrations, kind, docs, vs, data, ReadHeader(data).value.version, out, r.current[kind])
                                    && NoRepeats(vs) && |vs| - 1 <= r.maxSteps
  {
    var ms, v, goal := r.migrations, ReadHeader(data).value.version, r.current[kind];
    assert r.Migrate(kind, data) == MigrateFrom(ms, kind, data, v, goal, {}, r.maxSteps);
    hide Registry.Migrate, ReadHeader, Version.CanLoad, Leads, OnePerSource, MigrateFrom;
    if r.Migrate(kind, data) == Ok(out) {
      var docs, vs := MigratedAlong(ms, kind, data, v, goal, {}, r.maxSteps);
      ArrivedWithoutRepeats(ms, kind, docs, vs, goal, r.maxSteps);
      assert Passage(ms, kind, docs, vs, data, v, out, goal);
    }
    if docs, vs :| Passage(ms, kind, docs, vs, data, v, out, goal) && NoRepeats(vs) && |vs| - 1 <= r.maxSteps {
      var n := |vs| - 1;
      assert goal !in vs[..n] by { assert forall j :: 0 <= j < n ==> vs[j] != vs[n]; }
      assert NoRepeats(vs[..n]);
      TrailFollowed(ms, kind, docs, vs, goal, n, r.maxSteps);
      AtGoal(ms, kind, docs[n], goal, Texts(vs[..n]), r.maxSteps - n);
    }
  }

  lemma {:induction false} AtGoal(ms: seq<Migration>, kind: string, d: Json, goal: Version, visited: set<string>, steps: nat)
    ensures MigrateFrom(ms, kind, d, goal, goal, visited, steps) == Ok(d)
  {
  }

  lemma {:induction false} Repeated(ms: seq<Migration>, kind: string, d: Json, v: Version, goal: Version, path: seq<Version>, steps: nat)
    requires v != goal && MigrateFrom(ms, kind, d, v, goal, Texts(path), steps).Ok?
    ensures v !in path
  {
    TextMet(path, v);
    hide Version.ToString, Scan, Stamp, Texts;
  }

  lemma {:induction false} OneMoreVersion(vs: seq<Version>, n: nat)
    requires n < |vs| && NoRepeats(vs[..n]) && vs[n] !in vs[..n]
    ensures NoRepeats(vs[..n + 1])
  {
    assert vs[..n + 1] == vs[..n] + [vs[n]];
  }

  /** A repeated version on the way would have been a cycle, and the migration would have failed. */
  lemma {:induction false} NoCycleMet(ms: seq<Migration>, kind: string, docs: seq<Json>, vs: seq<Version>, goal: Version, steps: nat, n: nat)
    requires OnePerSource(ms) && Trail(ms, kind, docs, vs) && n <= |vs| - 1 <= steps
    requires goal !in vs[..|vs| - 1] && MigrateFrom(ms, kind, docs[0], vs[0], goal, {}, steps).Ok?
    ensures NoRepeats(vs[..n])
  {
    hide *;
    MissedSoFar(vs, goal, n);
    if n > 0 {
      var m := n - 1;
      NoCycleMet(ms, kind, docs, vs, goal, steps, m);
      TrailLengths(ms, kind, docs, vs);
      MissedSoFar(vs, goal, m);
      TrailFollowed(ms, kind, docs, vs, goal, m, steps);
      Repeated(ms, kind, docs[m], vs[m], goal, vs[..m], steps - m);
      OneMoreVersion(vs, m);
    }
  }

  lemma {:induction false} MissedSoFar(vs: seq<Version>, goal: Version, n: nat)
    requires n <= |vs| - 1 && goal !in vs[..|vs| - 1]
    ensures goal !in vs[..n] && (n < |vs| - 1 ==> vs[n] != goal)
    ensures n == 0 ==> NoRepeats(vs[..n])
  {
    assert forall j :: 0 <= j < |vs| - 1 ==> vs[j] == vs[..|vs| - 1][j];
    assert forall x :: x in vs[..n] ==> x in vs[..|vs| - 1];
  }

  lemma {:induction false} ArrivedWithoutRepeats(ms: seq<Migration>, kind: string, docs: seq<Json>, vs: seq<Version>, goal: Version, steps: nat)
    requires OnePerSource(ms) && Trail(ms, kind, docs, vs) && |vs| - 1 <= steps
    requires vs[|vs| - 1] == goal && goal !in vs[..|vs| - 1] && MigrateFrom(ms, kind, docs[0], vs[0], goal, {}, steps).Ok?
    ensures NoRepeats(vs)
  {
    var last := |vs| - 1;
    NoCycleMet(ms, kind, docs, vs, goal, steps, last);
    OneMoreVersion(vs, last);
    assert vs[..last + 1] == vs;
  }

  lemma {:induction false} TrailLengths(ms: seq<Migration>, kind: string, docs: seq<Json>, vs: seq<Version>)
    requires Trail(ms, kind, docs, vs)
    ensures |docs| == |vs| > 0
  {
  }

  /** A migrator's own error ends the migration with that error. */
  lemma {:induction false} MigratorErrorShows(r: Registry, kind: string, data: Json, docs: seq<Json>, vs: seq<Version>, i: nat)
    requires OnePerSource(r.migrations) && ReadHeader(data).Ok? && ReadHeader(data).value.kind == kind && kind in r.current
    requires var v := ReadHeader(data).value.version; !r.current[kind].CanLoad(v) && v.major <= r.current[kind].major
    requires Trail(r.migrations, kind, docs, vs) && docs[0] == data && vs[0] == ReadHeader(data).value.version
    requires NoRepeats(vs) && r.current[kind] !in vs && |vs| <= r.maxSteps
    requires i < |r.migrations| && SameFrom(r.migrations[i], kind, vs[|vs| - 1]) && r.migrations[i].migrate(docs[|docs| - 1]).Thrown?
    ensures r.Migrate(kind, data) == Thrown(r.migrations[i].migrate(docs[|docs| - 1]).error)
  {
    var ms, goal, n := r.migrations, r.current[kind], |vs| - 1;
    assert NoRepeats(vs[..n]) && goal !in vs[..n];
    TrailFollowed(ms, kind, docs, vs, goal, n, r.maxSteps);
    TextMet(vs[..n], vs[n]);
    assert vs[n] !in vs[..n] by { assert forall j :: 0 <= j < n ==> vs[j] != vs[n]; }
    ScanUnique(ms, kind, vs[n], i);
    hide ReadHeader, Version.CanLoad, Trail, OnePerSource, Scan, Texts, Version.ToString, NoRepeats;
  }

  // ── The built-in registry ──────────────────────────────

  function BuiltIn(): Registry {
    Registry(CURRENT_VERSIONS, [Builtin("oreo.feature_tree"), Builtin("oreo.part_studio")], 256, false)
  }

  lemma {:induction false} BuiltInScan(kind: string, v: Version)
    ensures var i := Scan(BuiltIn().migrations, kind, v);
            if v != Version(1, 0, 0) then i < 0
            else (kind == "oreo.feature_tree" ==> i == 0) && (kind == "oreo.part_studio" ==> i == 1)
                 && (kind != "oreo.feature_tree" && kind != "oreo.part_studio" ==> i < 0)
  {
    var ms := BuiltIn().migrations;
    assert "oreo.feature_tree"[5] != "oreo.part_studio"[5];
    assert ms[0] == Builtin("oreo.feature_tree") && ms[1] == Builtin("oreo.part_studio");
    hide VersionBump;
  }

  /** Feature trees and part studios load at major 2 without a minor and at exactly 1.0.0; a 1.0.1 has no way up. */
  lemma {:induction false} BuiltInLoadsIff(kind: string, v: Version)
    requires kind == "oreo.feature_tree" || kind == "oreo.part_studio"
    ensures BuiltIn().CanLoad(kind, v) <==> v == Version(1, 0, 0) || (v.major == 2 && v.minor <= 0)
  {
    var ms := BuiltIn().migrations;
    var goal := Version(2, 0, 0);
    assert CURRENT_VERSIONS[kind] == goal by { CurrentOf(kind); }
    BuiltInScan(kind, v);
    hide VersionBump, Scan, Version.ToString;
    if v == Version(1, 0, 0) {
      var i := Scan(ms, kind, v);
      assert ms[i].target == goal;
      assert Walk(ms, kind, goal, goal, {} + {v.ToString()}, 255) == Arrived;
      assert Walk(ms, kind, v, goal, {}, 256) == Arrived;
    } else if v != goal {
      assert Walk(ms, kind, v, goal, {}, 256) == Stuck;
    }
  }

  lemma {:induction false} CurrentOf(kind: string)
    requires kind == "oreo.feature_tree" || kind == "oreo.part_studio"
    ensures kind in CURRENT_VERSIONS && CURRENT_VERSIONS[kind] == Version(2, 0, 0)
  {
  }

  /** A 1.0.0 document of theirs comes out with nothing but its version changed, to 2.0.0. */
  lemma {:induction false} BuiltInMigrates(kind: string, data: Json)
    requires kind == "oreo.feature_tree" || kind == "oreo.part_studio"
    requires ReadHeader(data) == Ok(Header(kind, Version(1, 0, 0)))
    ensures BuiltIn().Migrate(kind, data).Ok? && Restamped(data, BuiltIn().Migrate(kind, data).value, Version(2, 0, 0))
  {
    var r, v, goal := BuiltIn(), Version(1, 0, 0), Version(2, 0, 0);
    CurrentOf(kind);
    BuiltInScan(kind, v);
    var i := Scan(r.migrations, kind, v);
    assert data.JObject? && "_version" in data.fields;
    var d := JObject(data.fields["_version" := VersionToJson(goal)]);
    assert r.migrations[i].migrate(data) == Ok(d) && r.migrations[i].target == goal;
    assert Stamp(d, goal) == d;
    hide VersionBump, Scan, Version.ToString, ReadHeader, Stamp;
    AtGoal(r.migrations, kind, d, goal, {} + {v.ToString()}, 255);
    assert MigrateFrom(r.migrations, kind, data, v, goal, {}, 256) == Ok(d);
  }
}
