/**
 What the walk of the schema registry decides: which versions can be brought to the current one, that canLoad and
 migrate agree, and that neither the cycle check nor a sufficient step cap ever changes the answer.
 */
module SchemaTheory {
  import opened Wrappers
  import opened ParamJson
  import opened SchemaVersions
  import opened SchemaRegistries

  /** The version `n` migrations after `v`, if that many are registered in a chain. */
  function Chain(ms: seq<Migration>, kind: string, v: Version, n: nat): Option<Version> {
    if n == 0 then Some(v)
    else
      var before := Chain(ms, kind, v, n - 1);
      if before.None? then None
      else var i := Scan(ms, kind, before.value); if i < 0 then None else Some(ms[i].target)
  }

  ghost predicate Reaches(ms: seq<Migration>, kind: string, v: Version, goal: Version, limit: nat) {
    exists n: nat :: n <= limit && Chain(ms, kind, v, n) == Some(goal)
  }

  // ── Chains ─────────────────────────────────────────────

  lemma {:induction false} ChainEnded(ms: seq<Migration>, kind: string, v: Version, i: nat, n: nat)
    requires Chain(ms, kind, v, i).None? && i <= n
    ensures Chain(ms, kind, v, n).None?
  {
    if i < n { ChainEnded(ms, kind, v, i, n - 1); }
  }

  lemma {:induction false} ChainShift(ms: seq<Migration>, kind: string, v: Version, i: nat, j: nat, d: nat)
    requires Chain(ms, kind, v, i) == Chain(ms, kind, v, j)
    ensures Chain(ms, kind, v, i + d) == Chain(ms, kind, v, j + d)
  {
    hide Chain;
    if d > 0 {
      ChainShift(ms, kind, v, i, j, d - 1);
      ChainNext(ms, kind, v, i + d);
      ChainNext(ms, kind, v, j + d);
    }
  }

  lemma {:induction false} ChainNext(ms: seq<Migration>, kind: string, v: Version, n: nat)
    requires n > 0
    ensures var before := Chain(ms, kind, v, n - 1);
            Chain(ms, kind, v, n)
            == if before.None? || Scan(ms, kind, before.value) < 0 then None else Some(ms[Scan(ms, kind, before.value)].target)
  {
    hide Scan;
  }

  /** A chain that comes back to a version meets only versions it has met already. */
  lemma {:induction false} ChainRepeats(ms: seq<Migration>, kind: string, v: Version, j: nat, i: nat, goal: Version, n: nat)
    requires j < i && Chain(ms, kind, v, j) == Chain(ms, kind, v, i)
    requires forall k: nat :: k < i ==> Chain(ms, kind, v, k) != Some(goal)
    ensures Chain(ms, kind, v, n) != Some(goal)
  {
    hide Chain;
    if n >= i {
      ChainShift(ms, kind, v, i, j, n - i);
      ChainRepeats(ms, kind, v, j, i, goal, n - (i - j));
    }
  }

  lemma {:induction false} Pigeonhole(s: seq<int>, n: nat) returns (i: nat, j: nat)
    requires |s| > n && forall k :: 0 <= k < |s| ==> 0 <= s[k] < n
    ensures i < j < |s| && s[i] == s[j]
    decreases n
  {
    var m := |s| - 1;
    if k: nat :| k < m && s[k] == s[m] {
      return k, m;
    }
    assert s[m] < n;
    var t := seq(m, k requires 0 <= k < m => if s[k] == n - 1 then s[m] else s[k]);
    assert s[0] == s[m] ==> m == 0;
    i, j := Pigeonhole(t, n - 1);
  }

  /** More chain links than migrations repeat a version. */
  lemma {:induction false} LongChainRepeats(ms: seq<Migration>, kind: string, v: Version, n: nat) returns (i: nat, j: nat)
    requires n > |ms| && Chain(ms, kind, v, n).Some?
    ensures i < j < n && Chain(ms, kind, v, i) == Chain(ms, kind, v, j)
  {
    forall k: nat | k < n ensures Chain(ms, kind, v, k).Some? && 0 <= Scan(ms, kind, Chain(ms, kind, v, k).value) {
      if Chain(ms, kind, v, k + 1).None? { ChainEnded(ms, kind, v, k + 1, n); }
    }
    hide Chain;
    var s := seq(n, k requires 0 <= k < n => Scan(ms, kind, Chain(ms, kind, v, k).value));
    i, j := Pigeonhole(s, |ms|);
  }

  /** What a chain reaches at all, it reaches within as many steps as there are migrations. */
  lemma {:induction false} ShortChain(ms: seq<Migration>, kind: string, v: Version, goal: Version, n: nat)
    requires Chain(ms, kind, v, n) == Some(goal)
    ensures Reaches(ms, kind, v, goal, |ms|)
  {
    if n > |ms| {
      var i, j := LongChainRepeats(ms, kind, v, n);
      ChainShift(ms, kind, v, j, i, n - j);
      ShortChain(ms, kind, v, goal, n - (j - i));
    }
  }

  // ── The walk follows the chain ─────────────────────────

  /** The versions of `path` follow each other from `start`, and `v` comes next. */
  ghost predicate OnChain(ms: seq<Migration>, kind: string, start: Version, path: seq<Version>, v: Version) {
    (forall k: nat :: k < |path| ==> Chain(ms, kind, start, k) == Some(path[k])) && Chain(ms, kind, start, |path|) == Some(v)
  }

  ghost predicate NoRepeats(path: seq<Version>) {
    forall j, k :: 0 <= j < k < |path| ==> path[j] != path[k]
  }

  function Texts(path: seq<Version>): set<string> {
    set v | v in path :: v.ToString()
  }

  lemma {:induction false} TextMet(path: seq<Version>, v: Version)
    ensures v.ToString() in Texts(path) <==> v in path
  {
    if v.ToString() in Texts(path) {
      var w :| w in path && w.ToString() == v.ToString();
      ToStringInjective(w, v);
    }
  }

  lemma {:induction false} TextsGrow(path: seq<Version>, v: Version)
    ensures Texts(path + [v]) == Texts(path) + {v.ToString()}
  {
    hide Version.ToString;
  }

  lemma {:induction false} WalkOn(ms: seq<Migration>, kind: string, start: Version, path: seq<Version>, v: Version)
    requires OnChain(ms, kind, start, path, v) && 0 <= Scan(ms, kind, v)
    ensures OnChain(ms, kind, start, path + [v], ms[Scan(ms, kind, v)].target)
    ensures NoRepeats(path) && v !in path ==> NoRepeats(path + [v])
  {
    assert Chain(ms, kind, start, |path| + 1) == Some(ms[Scan(ms, kind, v)].target);
    hide Scan, Chain;
  }

  lemma {:induction false} NeverArrives(ms: seq<Migration>, kind: string, start: Version, goal: Version, path: seq<Version>, v: Version, limit: nat)
    requires OnChain(ms, kind, start, path, v) && goal !in path && v != goal
    requires v in path || Scan(ms, kind, v) < 0
    ensures !Reaches(ms, kind, start, goal, limit)
  {
    var i := |path|;
    if v in path {
      var j: nat :| j < i && path[j] == v;
      forall n: nat ensures Chain(ms, kind, start, n) != Some(goal) { ChainRepeats(ms, kind, start, j, i, goal, n); }
    } else {
      assert Chain(ms, kind, start, i + 1).None?;
      hide Chain;
      forall n: nat ensures Chain(ms, kind, start, n) != Some(goal) {
        if n > i { ChainEnded(ms, kind, start, i + 1, n); }
      }
    }
  }

  /** The visited set never refuses a chain that would arrive, nor lets one through that would not. */
  lemma {:induction false} WalkArrivesIff(ms: seq<Migration>, kind: string, start: Version, goal: Version,
                                          path: seq<Version>, v: Version, steps: nat)
    requires OnChain(ms, kind, start, path, v) && goal !in path
    ensures Walk(ms, kind, v, goal, Texts(path), steps) == Arrived <==> Reaches(ms, kind, start, goal, |path| + steps)
    decreases steps
  {
    TextMet(path, v);
    hide Version.ToString, Scan, Texts, Chain;
    if v == goal {
      assert Reaches(ms, kind, start, goal, |path| + steps);
    } else if steps == 0 {
    } else if v in path || Scan(ms, kind, v) < 0 {
      NeverArrives(ms, kind, start, goal, path, v, |path| + steps);
    } else {
      WalkOn(ms, kind, start, path, v);
      TextsGrow(path, v);
      hide OnChain, Reaches;
      WalkArrivesIff(ms, kind, start, goal, path + [v], ms[Scan(ms, kind, v)].target, steps - 1);
    }
  }

  /** The walk runs out of steps only when it was given no more of them than there are migrations. */
  lemma {:induction false} WalkExhausts(ms: seq<Migration>, kind: string, start: Version, goal: Version,
                                        path: seq<Version>, v: Version, steps: nat)
    requires OnChain(ms, kind, start, path, v) && NoRepeats(path)
    ensures Walk(ms, kind, v, goal, Texts(path), steps) == OutOfSteps ==> |path| + steps <= |ms|
    decreases steps
  {
    TextMet(path, v);
    hide Version.ToString, Scan, Texts, Chain;
    if v != goal && steps == 0 && |path| > |ms| {
      var j, k := LongChainRepeats(ms, kind, start, |path|);
    } else if v != goal && steps > 0 && v !in path && 0 <= Scan(ms, kind, v) {
      WalkOn(ms, kind, start, path, v);
      TextsGrow(path, v);
      hide OnChain;
      WalkExhausts(ms, kind, start, goal, path + [v], ms[Scan(ms, kind, v)].target, steps - 1);
    }
  }

  /** The first `n` links of the chain exist, start from different versions, and nowhere meet the goal. */
  ghost predicate LongWalk(ms: seq<Migration>, kind: string, start: Version, goal: Version, n: nat) {
    && (forall k: nat :: k <= n ==> Chain(ms, kind, start, k).Some? && Chain(ms, kind, start, k) != Some(goal))
    && (forall j: nat, k: nat :: j < k < n ==> Chain(ms, kind, start, j) != Chain(ms, kind, start, k))
  }

  lemma {:induction false} WalkOutIff(ms: seq<Migration>, kind: string, start: Version, goal: Version,
                                      path: seq<Version>, v: Version, steps: nat)
    requires OnChain(ms, kind, start, path, v) && NoRepeats(path) && goal !in path
    ensures Walk(ms, kind, v, goal, Texts(path), steps) == OutOfSteps <==> LongWalk(ms, kind, start, goal, |path| + steps)
    decreases steps
  {
    TextMet(path, v);
    hide Version.ToString, Scan, Texts;
    var i := |path|;
    if v == goal {
      assert Chain(ms, kind, start, i) == Some(goal);
    } else if steps == 0 {
      ShortWalk(ms, kind, start, goal, path, v);
    } else if v in path {
      var j: nat :| j < i && path[j] == v;
      assert Chain(ms, kind, start, j) == Chain(ms, kind, start, i);
    } else if Scan(ms, kind, v) < 0 {
      assert Chain(ms, kind, start, i + 1).None?;
    } else {
      WalkOn(ms, kind, start, path, v);
      TextsGrow(path, v);
      hide OnChain, LongWalk, Chain;
      WalkOutIff(ms, kind, start, goal, path + [v], ms[Scan(ms, kind, v)].target, steps - 1);
    }
  }

  lemma {:induction false} ShortWalk(ms: seq<Migration>, kind: string, start: Version, goal: Version, path: seq<Version>, v: Version)
    requires OnChain(ms, kind, start, path, v) && NoRepeats(path) && goal !in path && v != goal
    ensures LongWalk(ms, kind, start, goal, |path|)
  {
    hide Chain;
    forall k: nat | k <= |path| ensures Chain(ms, kind, start, k).Some? && Chain(ms, kind, start, k) != Some(goal) {
      if k < |path| { assert Chain(ms, kind, start, k) == Some(path[k]); }
    }
    forall j: nat, k: nat | j < k < |path| ensures Chain(ms, kind, start, j) != Chain(ms, kind, start, k) {
      assert Chain(ms, kind, start, j) == Some(path[j]) && Chain(ms, kind, start, k) == Some(path[k]);
    }
  }

  /** Migrating is the same walk, as long as no migrator throws. */
  ghost predicate Total(ms: seq<Migration>) {
    forall i, doc :: 0 <= i < |ms| ==> ms[i].migrate(doc).Ok?
  }

  lemma {:induction false} MigrateFollowsWalk(ms: seq<Migration>, kind: string, doc: Json, v: Version, goal: Version, visited: set<string>, steps: nat)
    requires Total(ms)
    ensures match Walk(ms, kind, v, goal, visited, steps)
            case Arrived => MigrateFrom(ms, kind, doc, v, goal, visited, steps).Ok?
            case Stuck => MigrateFrom(ms, kind, doc, v, goal, visited, steps) == Thrown(NoPath)
            case Cycled => MigrateFrom(ms, kind, doc, v, goal, visited, steps) == Thrown(Cycle)
            case OutOfSteps => MigrateFrom(ms, kind, doc, v, goal, visited, steps) == Thrown(StepLimit)
    decreases steps
  {
    hide Version.ToString, VersionToJson;
    var i := Scan(ms, kind, v);
    hide Scan;
    if v != goal && steps > 0 && v.ToString() !in visited && 0 <= i {
      var d := ms[i].migrate(doc).value;
      MigrateFollowsWalk(ms, kind, Stamp(d, ms[i].target), ms[i].target, goal, visited + {v.ToString()}, steps - 1);
    }
  }

  // ── Main results ───────────────────────────────────────

  /** canLoad: compatible, or some chain of at most `maxSteps` migrations leads to the current version. */
  lemma {:induction false} CanLoadIffReachable(r: Registry, kind: string, v: Version)
    ensures r.CanLoad(kind, v)
            <==> kind in r.current && (r.current[kind].CanLoad(v) || Reaches(r.migrations, kind, v, r.current[kind], r.maxSteps))
  {
    if kind in r.current {
      assert Texts([]) == {};
      WalkArrivesIff(r.migrations, kind, v, r.current[kind], [], v, r.maxSteps);
    }
  }

  /** With total migrators, migrate succeeds exactly when canLoad says so and the document is not of a later major. */
  lemma {:induction false} MigrateIffCanLoad(r: Registry, kind: string, data: Json)
    requires Total(r.migrations) && ReadHeader(data).Ok? && ReadHeader(data).value.kind == kind
    ensures var v := ReadHeader(data).value.version;
            r.Migrate(kind, data).Ok? <==> r.CanLoad(kind, v) && v.major <= r.current[kind].major
  {
    hide ReadHeader, Total;
    var v := ReadHeader(data).value.version;
    if kind in r.current { MigrateFollowsWalk(r.migrations, kind, data, v, r.current[kind], {}, r.maxSteps); }
  }

  /** Every cap of at least the number of migrations gives the answer of every other. */
  lemma {:induction false} CapIrrelevant(r: Registry, kind: string, v: Version, cap: nat)
    requires r.maxSteps >= |r.migrations| && cap >= |r.migrations|
    ensures r.CanLoad(kind, v) == r.(maxSteps := cap).CanLoad(kind, v)
  {
    CanLoadIffReachable(r, kind, v);
    CanLoadIffReachable(r.(maxSteps := cap), kind, v);
    if kind in r.current {
      var ms, goal := r.migrations, r.current[kind];
      forall n: nat | Chain(ms, kind, v, n) == Some(goal) ensures Reaches(ms, kind, v, goal, |ms|) { ShortChain(ms, kind, v, goal, n); }
    }
  }

  /**
   The step limit is reported exactly when the document is judged worth migrating and its first maxSteps chain
   links exist, start from different versions and miss the current one.
   */
  lemma {:induction false} StepLimitIff(r: Registry, kind: string, data: Json)
    requires Total(r.migrations)
    ensures r.Migrate(kind, data) == Thrown(StepLimit)
            <==> && ReadHeader(data).Ok? && ReadHeader(data).value.kind == kind && kind in r.current
                 && var v := ReadHeader(data).value.version;
                    && !r.current[kind].CanLoad(v) && v.major <= r.current[kind].major
                    && LongWalk(r.migrations, kind, v, r.current[kind], r.maxSteps)
  {
    HeaderErrors(data);
    hide ReadHeader, Total, MigrateFrom, Walk, Version.CanLoad, LongWalk;
    if ReadHeader(data).Ok? && kind in r.current {
      var v := ReadHeader(data).value.version;
      MigrateFollowsWalk(r.migrations, kind, data, v, r.current[kind], {}, r.maxSteps);
      assert Texts([]) == {};
      WalkOutIff(r.migrations, kind, v, r.current[kind], [], v, r.maxSteps);
    }
  }

  lemma {:induction false} HeaderErrors(data: Json)
    ensures ReadHeader(data).Thrown? ==> ReadHeader(data).error == MissingHeader || ReadHeader(data).error == MalformedVersion
  {
  }

  /** A cap above the number of migrations is never the reason for a failure. */
  lemma {:induction false} StepLimitUnreachable(r: Registry, kind: string, data: Json)
    requires Total(r.migrations) && r.maxSteps > |r.migrations|
    ensures r.Migrate(kind, data) != Thrown(StepLimit)
  {
    if ReadHeader(data).Ok? && kind in r.current {
      var v := ReadHeader(data).value.version;
      hide ReadHeader, Total, MigrateFrom, Walk;
      MigrateFollowsWalk(r.migrations, kind, data, v, r.current[kind], {}, r.maxSteps);
      assert Texts([]) == {};
      WalkExhausts(r.migrations, kind, v, r.current[kind], [], v, r.maxSteps);
    }
  }

  /** At the number of migrations itself the error still occurs: a migration onto its own source. */
  lemma {:induction false} StepLimitAtTheBound(migrate: Migrator, doc: Json)
    requires migrate(doc).Ok?
    ensures var ms := [Migration("t", Version(1, 0, 0), Version(1, 0, 0), migrate)];
            MigrateFrom(ms, "t", doc, Version(1, 0, 0), Version(2, 0, 0), {}, |ms|) == Thrown(StepLimit)
  {
    var ms := [Migration("t", Version(1, 0, 0), Version(1, 0, 0), migrate)];
    assert SameFrom(ms[0], "t", Version(1, 0, 0));
    assert Scan(ms, "t", Version(1, 0, 0)) == 0;
    var d := Stamp(migrate(doc).value, Version(1, 0, 0));
    assert MigrateFrom(ms, "t", d, Version(1, 0, 0), Version(2, 0, 0), {} + {Version(1, 0, 0).ToString()}, 0) == Thrown(StepLimit);
  }

  // ── Headers of migrated documents ──────────────────────

  /** A migrator that leaves the header in place. */
  ghost predicate KeepsHeader(m: Migrator) {
    forall doc :: HasHeader(doc) && m(doc).Ok? ==> HasHeader(m(doc).value) && m(doc).value.fields["_schema"] == doc.fields["_schema"]
  }

  lemma {:induction false} StampedHeader(doc: Json, v: Version)
    requires HasHeader(doc)
    ensures ReadHeader(Stamp(doc, v)) == Ok(Header(doc.fields["_schema"].s, v)) && Stamp(doc, v).fields["_schema"] == doc.fields["_schema"]
  {
    var fields := VersionToJson(v).fields;
    assert fields.Keys == {"major", "minor", "patch"};
  }

  lemma {:induction false} OneMigration(m: Migration, kind: string, doc: Json, v: Version)
    requires KeepsHeader(m.migrate) && ReadHeader(doc) == Ok(Header(kind, v)) && m.migrate(doc).Ok?
    ensures ReadHeader(Stamp(m.migrate(doc).value, m.target)) == Ok(Header(kind, m.target))
  {
    assert HasHeader(doc);
    StampedHeader(m.migrate(doc).value, m.target);
  }

  lemma {:induction false} MigratedFromHeader(ms: seq<Migration>, kind: string, doc: Json, v: Version, goal: Version, visited: set<string>, steps: nat)
    requires forall i :: 0 <= i < |ms| ==> KeepsHeader(ms[i].migrate)
    requires ReadHeader(doc) == Ok(Header(kind, v))
    ensures var r := MigrateFrom(ms, kind, doc, v, goal, visited, steps); r.Ok? ==> ReadHeader(r.value) == Ok(Header(kind, goal))
    decreases steps
  {
    var i := Scan(ms, kind, v);
    hide Version.ToString, Scan, ReadHeader, KeepsHeader, Stamp;
    if v != goal && steps > 0 && v.ToString() !in visited && 0 <= i && ms[i].migrate(doc).Ok? {
      var d := ms[i].migrate(doc).value;
      OneMigration(ms[i], kind, doc, v);
      MigratedFromHeader(ms, kind, Stamp(d, ms[i].target), ms[i].target, goal, visited + {v.ToString()}, steps - 1);
    }
  }

  /** A successful migrate returns a compatible document untouched, and any other with the current version. */
  lemma {:induction false} MigratedIsCurrent(r: Registry, kind: string, data: Json)
    requires forall i :: 0 <= i < |r.migrations| ==> KeepsHeader(r.migrations[i].migrate)
    requires r.Migrate(kind, data).Ok?
    ensures var v := ReadHeader(data).value.version; var out := r.Migrate(kind, data).value;
            if r.current[kind].CanLoad(v) then out == data else ReadHeader(out) == Ok(Header(kind, r.current[kind]))
  {
    hide ReadHeader;
    var v := ReadHeader(data).value.version;
    assert ReadHeader(data) == Ok(Header(kind, v));
    MigratedFromHeader(r.migrations, kind, data, v, r.current[kind], {}, r.maxSteps);
  }
}
