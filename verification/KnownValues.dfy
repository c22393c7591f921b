/**
 Values that are known from outside: the published vectors of FNV-1a, splitmix64 and xoshiro256**, the bytes of a small
 schema, and a written workspace (src/core/rng.h, src/feature/config.cpp, src/feature/workspace.cpp).
 */
module KnownValues {
  import opened Wrappers
  import opened FeatureModel
  import opened TagAllocation
  import opened Config
  import R = Rng
  import F = Fingerprints
  import A = Arithmetic
  import J = ParamJson
  import W = WorkspaceJson
  import V = SchemaVersions

  // ── The hash ───────────────────────────────────────────

  lemma {:induction false} FoldOne(h: Word64, bytes: seq<F.Byte>, b: F.Byte)
    ensures F.Fold(h, bytes + [b]) == F.FnvStep(F.Fold(h, bytes), b)
  {
    assert (bytes + [b])[..|bytes|] == bytes;
    hide F.FnvStep;
  }

  /** FNV-1a of the empty text, of "a" and of "fo". */
  lemma {:induction false} FnvVectors()
    ensures F.Fold(F.FNV_OFFSET, []) == 0xcbf29ce484222325
    ensures F.Fold(F.FNV_OFFSET, [97]) == 0xaf63dc4c8601ec8c
    ensures F.Fold(F.FNV_OFFSET, [102, 111]) == 0x08985907b541d342
  {
    StepVectors();
    FoldOne(F.FNV_OFFSET, [], 97);
    FoldOne(F.FNV_OFFSET, [], 102);
    FoldOne(F.FNV_OFFSET, [102], 111);
    hide F.FnvStep, F.Fold;
    assert [] + [97] == [97] && [] + [102] == [102] && [102] + [111] == [102, 111];
    assert F.Fold(F.FNV_OFFSET, []) == F.FNV_OFFSET by { FoldNone(); }
  }

  lemma {:induction false} FoldNone()
    ensures F.Fold(F.FNV_OFFSET, []) == F.FNV_OFFSET
  {
  }

  lemma {:induction false} StepVectors()
    ensures F.FnvStep(0xcbf29ce484222325, 97) == 0xaf63dc4c8601ec8c
    ensures F.FnvStep(0xcbf29ce484222325, 102) == 0xaf63db4c8601ead9
    ensures F.FnvStep(0xaf63db4c8601ead9, 111) == 0x08985907b541d342
  {
    XorOfA();
    XorOfF();
    XorOfO();
    hide F.XorByte;
  }

  lemma {:induction false} XorOfA()
    ensures F.XorByte(37, 97) == 68
  {
    assert F.Xor(0, 0, 1) == 0;
    assert F.Xor(0, 1, 2) == 1;
    assert F.Xor(1, 3, 3) == 2;
    assert F.Xor(2, 6, 4) == 4;
    assert F.Xor(4, 12, 5) == 8;
    assert F.Xor(9, 24, 6) == 17;
    assert F.Xor(18, 48, 7) == 34;
  }

  lemma {:induction false} XorOfF()
    ensures F.XorByte(37, 102) == 67
  {
    assert F.Xor(0, 0, 1) == 0;
    assert F.Xor(0, 1, 2) == 1;
    assert F.Xor(1, 3, 3) == 2;
    assert F.Xor(2, 6, 4) == 4;
    assert F.Xor(4, 12, 5) == 8;
    assert F.Xor(9, 25, 6) == 16;
    assert F.Xor(18, 51, 7) == 33;
  }

  lemma {:induction false} XorOfO()
    ensures F.XorByte(217, 111) == 182
  {
    assert F.Xor(1, 0, 1) == 1;
    assert F.Xor(3, 1, 2) == 2;
    assert F.Xor(6, 3, 3) == 5;
    assert F.Xor(13, 6, 4) == 11;
    assert F.Xor(27, 13, 5) == 22;
    assert F.Xor(54, 27, 6) == 45;
    assert F.Xor(108, 55, 7) == 91;
  }

  // ── The bytes ──────────────────────────────────────────

  function Pow256(n: nat): (r: nat)
    ensures r > 0
  {
    if n == 0 then 1 else 256 * Pow256(n - 1)
  }

  /** The bytes of a word, the least significant first. */
  lemma {:induction false} ByteAt(v: nat, n: nat, k: nat)
    requires k < n
    ensures F.LittleEndian(v, n)[k] == v / Pow256(k) % 256
  {
    if k == 0 {
      assert v / 1 == v;
    } else {
      ByteAt(v / 256, n - 1, k - 1);
      DivideTwice(v, Pow256(k - 1));
    }
  }

  lemma {:induction false} DivideTwice(v: nat, p: nat)
    requires p > 0
    ensures v / 256 / p == v / (256 * p)
  {
    var q, r := v / 256 / p, v / 256 % p;
    var rest := 256 * r + v % 256;
    assert v / 256 == q * p + r;
    assert v == 256 * (q * p + r) + v % 256;
    assert 256 * (q * p) == q * (256 * p);
    A.Quotient(v, 256 * p, q, rest);
  }

  /** A word below 256. */
  function Small(b: F.Byte): seq<F.Byte> {
    [b, 0, 0, 0, 0, 0, 0, 0]
  }

  lemma {:induction false} SmallWord(b: F.Byte)
    ensures F.U64(b) == Small(b)
  {
    var w := F.U64(b);
    forall k: nat | k < 8 ensures w[k] == b / Pow256(k) % 256 { ByteAt(b, 8, k); }
    forall k: nat | 0 < k < 8 ensures w[k] == 0 { BelowPower(b, k); }
    assert w[0] == b;
  }

  lemma {:induction false} BelowPower(b: F.Byte, k: nat)
    requires k > 0
    ensures b / Pow256(k) == 0
  {
    assert Pow256(k) == 256 * Pow256(k - 1);
    A.Quotient(b, Pow256(k), 0, b);
  }

  /** The stream of a schema with one input: its format, count, name, type, bounds and default, in this order. */
  lemma {:induction false} OneInput(bits: F.Bits, min: Double, default: Double, description: string)
    ensures F.Stream(bits, [InputSpec("x", TDouble, DoubleV(default), description, Some(min), None)])
            == Small(1) + Small(1)
               + (Small(1) + ['x' as int] + Small(0) + (Small(1) + F.U64(bits(min))) + Small(0) + (Small(0) + F.U64(bits(default))))
  {
    SmallWord(0);
    SmallWord(1);
    hide F.LittleEndian, F.U64, Small;
    var s := InputSpec("x", TDouble, DoubleV(default), description, Some(min), None);
    assert F.Chars("x") == ['x' as int];
    assert F.Inputs(bits, [s]) == F.Input(bits, s) + F.Inputs(bits, []) == F.Input(bits, s);
  }

  // ── The generator ──────────────────────────────────────

  /** splitmix64 from 1234567. */
  lemma {:induction false} SplitMixVector()
    ensures R.Mix(R.Advance(1234567)) == 6457827717110365317
    ensures R.Mix(R.Advance(R.Advance(1234567))) == 3203168211198807973
  {
  }

  /** The four words a seed of 1234567 draws are the first four of splitmix64. */
  lemma {:induction false} SeedVector()
    ensures R.After(1234567, 0) == R.State(6457827717110365317, 3203168211198807973, 9817491932198370423, 4593380528125082431)
  {
    R.GuardNeverTaken(1234567);
  }

  /** xoshiro256** from the state 1, 2, 3, 4: the first four words. */
  lemma {:induction false} XoshiroVector()
    ensures var s0 := R.State(1, 2, 3, 4); var s1 := R.Step(s0); var s2 := R.Step(s1); var s3 := R.Step(s2);
            && R.Scramble(s0.s1) == 11520 && R.Scramble(s1.s1) == 0
            && R.Scramble(s2.s1) == 1509978240 && R.Scramble(s3.s1) == 1215971899390074240
  {
  }

  // ── Written documents ──────────────────────────────────

  function Text(s: string): J.Json { J.JString(s) }
  function Number(x: real): J.Json { J.JFloat(Finite(x)) }

  /** A frame as it stands in a document: its type, origin, axis and x-direction. */
  lemma {:induction false} FrameWritten()
    ensures J.ToJson(Ax2V(Triple(Finite(1.0), Finite(2.0), Finite(3.0)), Triple(Finite(4.0), Finite(5.0), Finite(6.0)),
                          Triple(Finite(7.0), Finite(8.0), Finite(9.0))))
            == J.JObject(map["type" := Text("ax2"), "px" := Number(1.0), "py" := Number(2.0), "pz" := Number(3.0),
                             "dx" := Number(4.0), "dy" := Number(5.0), "dz" := Number(6.0),
                             "xx" := Number(7.0), "xy" := Number(8.0), "xz" := Number(9.0)])
  {
    var loc, axis, xdir := Triple(Finite(1.0), Finite(2.0), Finite(3.0)), Triple(Finite(4.0), Finite(5.0), Finite(6.0)),
                           Triple(Finite(7.0), Finite(8.0), Finite(9.0));
    var want := map["type" := Text("ax2"), "px" := Number(1.0), "py" := Number(2.0), "pz" := Number(3.0),
                    "dx" := Number(4.0), "dy" := Number(5.0), "dz" := Number(6.0)];
    assert J.AxisFields("ax2", loc, axis) == want;
    assert J.XDirFields(xdir) == map["xx" := Number(7.0), "xy" := Number(8.0), "xz" := Number(9.0)];
  }

  /** A workspace with one suppressed sphere, as it is written. */
  lemma {:induction false} WorkspaceWritten()
    ensures var f := Feature("f1", "MakeSphere", map["radius" := DoubleV(Finite(2.0))], true, OK, "");
            var sphere := J.JObject(map["id" := Text("f1"), "type" := Text("MakeSphere"), "suppressed" := J.JBool(true),
                                        "params" := J.JObject(map["radius" := Number(2.0)])]);
            W.ToDocument(W.State("branch", "main", [f], 0, [], -1), 7)
            == J.JObject(map["_schema" := Text("oreo.workspace"),
                             "_version" := J.JObject(map["major" := J.JInt(1), "minor" := J.JInt(0), "patch" := J.JInt(0)]),
                             "_kernelVersion" := Text("0.9.0"), "name" := Text("branch"), "parentName" := Text("main"),
                             "documentId" := Text("7"), "features" := J.JArray([sphere]), "rollbackIndex" := J.JInt(0),
                             "baseSnapshot" := J.JArray([]), "baseRollbackIndex" := J.JInt(-1)])
  {
    var f := Feature("f1", "MakeSphere", map["radius" := DoubleV(Finite(2.0))], true, OK, "");
    assert W.ParamsToJson(f.params) == map["radius" := Number(2.0)];
    assert W.FeaturesToJson([f]) == [W.FeatureToJson(f)];
    assert W.FeaturesToJson([]) == [];
    assert V.Decimal(7) == "7";
  }
}
