/**
 The deterministic generator (src/core/rng.h): splitmix64 seeding and the xoshiro256** step.
 Words are 64-bit vectors, so every operation wraps as in the source.
 */
module Rng {

  const GAMMA: bv64 := 0x9E3779B97F4A7C15

  // ── splitmix64 ─────────────────────────────────────────

  function Shift30(z: bv64): bv64 { z ^ (z >> 30) }
  function Shift27(z: bv64): bv64 { z ^ (z >> 27) }
  function Shift31(z: bv64): bv64 { z ^ (z >> 31) }
  function Times1(z: bv64): bv64 { z * 0xBF58476D1CE4E5B9 }
  function Times2(z: bv64): bv64 { z * 0x94D049BB133111EB }

  function Unshift30(z: bv64): bv64 { z ^ (z >> 30) ^ (z >> 60) }
  function Unshift27(z: bv64): bv64 { z ^ (z >> 27) ^ (z >> 54) }
  function Unshift31(z: bv64): bv64 { z ^ (z >> 31) ^ (z >> 62) }
  function Untimes1(z: bv64): bv64 { z * 0x96DE1B173F119089 }
  function Untimes2(z: bv64): bv64 { z * 0x319642B2D24D8EC3 }

  /** The output mix of splitmix64. */
  function Mix(z: bv64): bv64 {
    Shift31(Times2(Shift27(Times1(Shift30(z)))))
  }

  /** The mix undone: each xor-shift and each odd multiplication has an inverse. */
  function Unmix(y: bv64): bv64 {
    Unshift30(Untimes1(Unshift27(Untimes2(Unshift31(y)))))
  }

  lemma {:induction false} Shift30Word(z: bv64)
    ensures Unshift30(z ^ (z >> 30)) == z && Shift30(z ^ (z >> 30) ^ (z >> 60)) == z
  {
  }

  lemma {:induction false} Shift30Undone(z: bv64)
    ensures Unshift30(Shift30(z)) == z
  {
    Shift30Word(z);
    hide Unshift30;
  }

  lemma {:induction false} Shift30Redone(z: bv64)
    ensures Shift30(Unshift30(z)) == z
  {
    Shift30Word(z);
    hide Shift30;
  }

  lemma {:induction false} Shift27Word(z: bv64)
    ensures Unshift27(z ^ (z >> 27)) == z && Shift27(z ^ (z >> 27) ^ (z >> 54)) == z
  {
  }

  lemma {:induction false} Shift27Undone(z: bv64)
    ensures Unshift27(Shift27(z)) == z
  {
    Shift27Word(z);
    hide Unshift27;
  }

  lemma {:induction false} Shift27Redone(z: bv64)
    ensures Shift27(Unshift27(z)) == z
  {
    Shift27Word(z);
    hide Shift27;
  }

  lemma {:induction false} Shift31Word(z: bv64)
    ensures Unshift31(z ^ (z >> 31)) == z && Shift31(z ^ (z >> 31) ^ (z >> 62)) == z
  {
  }

  lemma {:induction false} Shift31Undone(z: bv64)
    ensures Unshift31(Shift31(z)) == z
  {
    Shift31Word(z);
    hide Unshift31;
  }

  lemma {:induction false} Shift31Redone(z: bv64)
    ensures Shift31(Unshift31(z)) == z
  {
    Shift31Word(z);
    hide Shift31;
  }

  lemma {:induction false} Times1Word(z: bv64)
    ensures Untimes1(z * 0xBF58476D1CE4E5B9) == z && Times1(z * 0x96DE1B173F119089) == z
  {
  }

  lemma {:induction false} Times1Undone(z: bv64)
    ensures Untimes1(Times1(z)) == z
  {
    Times1Word(z);
    hide Untimes1;
  }

  lemma {:induction false} Times1Redone(z: bv64)
    ensures Times1(Untimes1(z)) == z
  {
    Times1Word(z);
    hide Times1;
  }

  lemma {:induction false} Times2Word(z: bv64)
    ensures Untimes2(z * 0x94D049BB133111EB) == z && Times2(z * 0x319642B2D24D8EC3) == z
  {
  }

  lemma {:induction false} Times2Undone(z: bv64)
    ensures Untimes2(Times2(z)) == z
  {
    Times2Word(z);
    hide Untimes2;
  }

  lemma {:induction false} Times2Redone(z: bv64)
    ensures Times2(Untimes2(z)) == z
  {
    Times2Word(z);
    hide Times2;
  }

  /** The mix is a bijection on 64-bit words. */
  lemma {:induction false} MixBijective(z: bv64)
    ensures Unmix(Mix(z)) == z
    ensures Mix(Unmix(z)) == z
  {
    hide Shift30, Shift27, Shift31, Times1, Times2, Unshift30, Unshift27, Unshift31, Untimes1, Untimes2;
    Shift30Undone(z);
    Times1Undone(Shift30(z));
    Shift27Undone(Times1(Shift30(z)));
    Times2Undone(Shift27(Times1(Shift30(z))));
    Shift31Undone(Times2(Shift27(Times1(Shift30(z)))));
    Shift31Redone(z);
    Times2Redone(Unshift31(z));
    Shift27Redone(Untimes2(Unshift31(z)));
    Times1Redone(Unshift27(Untimes2(Unshift31(z))));
    Shift30Redone(Untimes1(Unshift27(Untimes2(Unshift31(z)))));
  }

  lemma {:induction false} MixInjective(x: bv64, y: bv64)
    requires Mix(x) == Mix(y)
    ensures x == y
  {
    MixBijective(x);
    MixBijective(y);
    hide Mix, Unmix;
  }

  // ── The state ──────────────────────────────────────────

  datatype State = State(s0: bv64, s1: bv64, s2: bv64, s3: bv64)

  predicate IsZero(s: State) {
    s.s0 | s.s1 | s.s2 | s.s3 == 0
  }

  function Advance(state: bv64): bv64 {
    state + GAMMA
  }

  /** The four words reseed draws before its guard. */
  function Drawn(seed: bv64): State {
    var t0 := Advance(seed);
    var t1 := Advance(t0);
    var t2 := Advance(t1);
    var t3 := Advance(t2);
    State(Mix(t0), Mix(t1), Mix(t2), Mix(t3))
  }

  /** reseed: the drawn words, with a guard against the all-zero state. */
  function Reseeded(seed: bv64): State {
    if IsZero(Drawn(seed)) then Drawn(seed).(s0 := GAMMA) else Drawn(seed)
  }

  lemma {:induction false} ZeroWords(s: State)
    ensures IsZero(s) <==> s.s0 == 0 && s.s1 == 0 && s.s2 == 0 && s.s3 == 0
  {
  }

  lemma {:induction false} AdvanceMoves(x: bv64)
    ensures Advance(x) != x
  {
  }

  lemma {:induction false} AdvanceInjective(x: bv64, y: bv64)
    requires x != y
    ensures Advance(x) != Advance(y)
  {
  }

  lemma {:induction false} TwoAdvances(x: bv64)
    ensures Advance(x + GAMMA) != x && Advance(x + GAMMA + GAMMA) != x
  {
  }

  lemma {:induction false} AdvanceTwice(x: bv64)
    ensures Advance(Advance(x)) != x && Advance(Advance(Advance(x))) != x
  {
    TwoAdvances(x);
    AdvanceIs(x);
    AdvanceIs(x + GAMMA);
    hide Advance;
  }

  lemma {:induction false} AdvanceIs(x: bv64)
    ensures Advance(x) == x + GAMMA
  {
  }

  /** The guard of reseed is never taken: whatever the seed, the four words are pairwise different. */
  lemma {:induction false} GuardNeverTaken(seed: bv64)
    ensures !IsZero(Drawn(seed)) && Reseeded(seed) == Drawn(seed)
    ensures var d := Drawn(seed); d.s0 != d.s1 && d.s0 != d.s2 && d.s0 != d.s3 && d.s1 != d.s2 && d.s1 != d.s3 && d.s2 != d.s3
  {
    ZeroWords(Drawn(seed));
    hide Mix, IsZero, Advance;
    var t0 := Advance(seed);
    var t1 := Advance(t0);
    var t2 := Advance(t1);
    var t3 := Advance(t2);
    AdvanceMoves(t0); AdvanceMoves(t1); AdvanceMoves(t2);
    AdvanceTwice(t0); AdvanceTwice(t1);
    MixDiffers(t0, t1); MixDiffers(t0, t2); MixDiffers(t0, t3);
    MixDiffers(t1, t2); MixDiffers(t1, t3); MixDiffers(t2, t3);
  }

  lemma {:induction false} MixDiffers(x: bv64, y: bv64)
    requires x != y
    ensures Mix(x) != Mix(y)
  {
    hide Mix;
    if Mix(x) == Mix(y) { MixInjective(x, y); }
  }

  /** Different seeds start from different states. */
  lemma {:induction false} SeedsDiffer(x: bv64, y: bv64)
    requires x != y
    ensures Reseeded(x) != Reseeded(y)
  {
    hide Mix, IsZero, Advance;
    GuardNeverTaken(x);
    GuardNeverTaken(y);
    AdvanceInjective(x, y);
    MixDiffers(Advance(x), Advance(y));
  }

  // ── The step ───────────────────────────────────────────

  function Xor(x: bv64, y: bv64): bv64 { x ^ y }
  function Shl17(x: bv64): bv64 { x << 17 }
  function Rotl45(x: bv64): bv64 { (x << 45) | (x >> 19) }

  /** rotl(x * 5, 7) * 9 */
  function Scramble(x: bv64): bv64 {
    var y := x * 5;
    ((y << 7) | (y >> 57)) * 9
  }

  function Step(s: State): State {
    var x2 := Xor(s.s2, s.s0);
    var x3 := Xor(s.s3, s.s1);
    State(Xor(s.s0, x3), Xor(s.s1, x2), Xor(x2, Shl17(s.s1)), Rotl45(x3))
  }

  function Rotl19(x: bv64): bv64 { (x << 19) | (x >> 45) }

  /** Undoes x ^ (x << 17). */
  function Unshift17(y: bv64): bv64 { y ^ (y << 17) ^ (y << 34) ^ (y << 51) }

  /** The state before a step. */
  function Back(s: State): State {
    var x3 := Rotl19(s.s3);
    var s0 := Xor(s.s0, x3);
    var s1 := Unshift17(Xor(s.s1, s.s2));
    var x2 := Xor(s.s1, s1);
    State(s0, s1, Xor(x2, s0), Xor(x3, s1))
  }

  lemma {:induction false} RotationWord(x: bv64)
    ensures Rotl19((x << 45) | (x >> 19)) == x && Rotl45((x << 19) | (x >> 45)) == x
  {
  }

  lemma {:induction false} RotationUndone(x: bv64)
    ensures Rotl19(Rotl45(x)) == x
  {
    RotationWord(x);
    hide Rotl19;
  }

  lemma {:induction false} RotationRedone(x: bv64)
    ensures Rotl45(Rotl19(x)) == x
  {
    RotationWord(x);
    hide Rotl45;
  }

  lemma {:induction false} XorIs(x: bv64, y: bv64)
    ensures Xor(x, y) == x ^ y
  {
  }

  lemma {:induction false} XorCancels(x: bv64, y: bv64)
    ensures Xor(x ^ y, y) == x && Xor(x, x ^ y) == y
  {
  }

  lemma {:induction false} XorOfThree(x: bv64, y: bv64, z: bv64)
    ensures Xor(x ^ y, z) == x ^ y ^ z && Xor(x, y ^ z) == x ^ y ^ z
  {
  }

  /** Exclusive-or cancels and associates. */
  lemma {:induction false} XorLaws(x: bv64, y: bv64, z: bv64)
    ensures Xor(Xor(x, y), y) == x && Xor(x, Xor(x, y)) == y && Xor(Xor(x, y), z) == Xor(x, Xor(y, z)) && Xor(x, y) == Xor(y, x)
  {
    XorIs(x, y);
    XorIs(y, x);
    XorIs(y, z);
    XorCancels(x, y);
    XorOfThree(x, y, z);
    hide Xor;
  }

  lemma {:induction false} UnshiftWord(x: bv64)
    ensures Unshift17(x ^ (x << 17)) == x
  {
  }

  lemma {:induction false} UnshiftUndone(x: bv64)
    ensures Unshift17(Xor(x, Shl17(x))) == x
  {
    UnshiftWord(x);
    XorShl(x);
    hide Unshift17, Xor, Shl17;
  }

  lemma {:induction false} XorShl(x: bv64)
    ensures Xor(x, Shl17(x)) == x ^ (x << 17)
  {
    ShlIs(x);
    XorIs(x, x << 17);
    hide Xor, Shl17;
  }

  lemma {:induction false} ShlIs(x: bv64)
    ensures Shl17(x) == x << 17
  {
  }

  lemma {:induction false} UnshiftRedone(y: bv64)
    ensures Xor(Unshift17(y), Shl17(Unshift17(y))) == y
  {
    UnshiftIs(y);
    ShlOfUnshift(y);
    XorOfUnshift(y);
    hide Unshift17, Xor, Shl17;
  }

  lemma {:induction false} UnshiftIs(y: bv64)
    ensures Unshift17(y) == y ^ (y << 17) ^ (y << 34) ^ (y << 51)
  {
  }

  lemma {:induction false} ShlOfUnshift(y: bv64)
    ensures Shl17(y ^ (y << 17) ^ (y << 34) ^ (y << 51)) == (y << 17) ^ (y << 34) ^ (y << 51)
  {
  }

  lemma {:induction false} XorOfUnshift(y: bv64)
    ensures Xor(y ^ (y << 17) ^ (y << 34) ^ (y << 51), (y << 17) ^ (y << 34) ^ (y << 51)) == y
  {
  }

  lemma {:induction false} BackUndoesStep(s: State)
    ensures Back(Step(s)) == s
  {
    hide Xor, Shl17, Rotl45, Rotl19, Unshift17;
    var x2, x3 := Xor(s.s2, s.s0), Xor(s.s3, s.s1);
    var t := Shl17(s.s1);
    RotationUndone(x3);
    XorLaws(s.s0, x3, 0);
    XorLaws(s.s2, s.s0, 0);
    XorLaws(s.s3, s.s1, 0);
    XorLaws(s.s1, x2, Xor(x2, t));
    XorLaws(x2, t, 0);
    UnshiftUndone(s.s1);
    XorLaws(s.s1, Xor(s.s1, x2), 0);
    XorLaws(Xor(s.s1, x2), s.s1, 0);
  }

  lemma {:induction false} StepUndoesBack(s: State)
    ensures Step(Back(s)) == s
  {
    hide Xor, Shl17, Rotl45, Rotl19, Unshift17;
    var x3, s1 := Rotl19(s.s3), Unshift17(Xor(s.s1, s.s2));
    var s0, x2 := Xor(s.s0, x3), Xor(s.s1, s1);
    RotationRedone(s.s3);
    XorLaws(x2, s0, 0);
    XorLaws(x3, s1, 0);
    XorLaws(s.s0, x3, 0);
    XorLaws(s.s1, s1, Shl17(s1));
    XorLaws(s1, s.s1, 0);
    UnshiftRedone(Xor(s.s1, s.s2));
    XorLaws(s.s1, s.s2, 0);
  }

  /** The step is a bijection on 256-bit states. */
  lemma {:induction false} StepBijective(s: State)
    ensures Back(Step(s)) == s && Step(Back(s)) == s
  {
    BackUndoesStep(s);
    StepUndoesBack(s);
    hide Step, Back;
  }

  function After(seed: bv64, n: nat): State {
    if n == 0 then Reseeded(seed) else Step(After(seed, n - 1))
  }

  lemma {:induction false} BackOfZero()
    ensures Back(State(0, 0, 0, 0)) == State(0, 0, 0, 0)
  {
  }

  lemma {:induction false} OnlyZeroStepsToZero(s: State)
    requires IsZero(Step(s))
    ensures IsZero(s)
  {
    BackUndoesStep(s);
    ZeroWords(Step(s));
    ZeroWords(s);
    BackOfZero();
    hide Step, Back, IsZero;
  }

  /** From every seed, no run of draws ever reaches the all-zero state. */
  lemma {:induction false} NeverZero(seed: bv64, n: nat)
    ensures !IsZero(After(seed, n))
  {
    GuardNeverTaken(seed);
    hide IsZero, Step, Reseeded, Drawn;
    if n > 0 {
      NeverZero(seed, n - 1);
      if IsZero(After(seed, n)) { OnlyZeroStepsToZero(After(seed, n - 1)); }
    }
  }

  /** Generators with different seeds are in different states after any number of draws. */
  lemma {:induction false} StreamsNeverMerge(x: bv64, y: bv64, n: nat)
    requires x != y
    ensures After(x, n) != After(y, n)
  {
    hide Step, Reseeded, Back;
    if n == 0 {
      SeedsDiffer(x, y);
    } else {
      StreamsNeverMerge(x, y, n - 1);
      BackUndoesStep(After(x, n - 1));
      BackUndoesStep(After(y, n - 1));
    }
  }

  // ── The class ──────────────────────────────────────────

  /** splitmix64: the advanced state, and the word drawn from it. */
  method SplitMix64(state: bv64) returns (advanced: bv64, z: bv64)
    ensures advanced == Advance(state) && z == Mix(advanced)
  {
    hide Shift30, Shift27, Shift31, Times1, Times2, Advance;
    advanced := Advance(state);
    z := advanced;
    z := Times1(Shift30(z));
    z := Times2(Shift27(z));
    z := Shift31(z);
  }

  class DeterministicRng {
    const s: array<bv64>

    ghost predicate Valid()
    {
      s.Length == 4
    }

    ghost function Words(): State
      requires Valid()
      reads s
    {
      State(s[0], s[1], s[2], s[3])
    }

    constructor (seed: bv64)
      ensures Valid() && fresh(s) && Words() == After(seed, 0)
    {
      s := new bv64[4];
      new;
      Reseed(seed);
    }

    method Reseed(seed: bv64)
      requires Valid()
      modifies s
      ensures Words() == After(seed, 0)
    {
      hide Mix, Advance, IsZero;
      var state, z0 := SplitMix64(seed);
      var z1, z2, z3;
      state, z1 := SplitMix64(state);
      state, z2 := SplitMix64(state);
      state, z3 := SplitMix64(state);
      s[0], s[1], s[2], s[3] := z0, z1, z2, z3;
      if IsZero(State(s[0], s[1], s[2], s[3])) { s[0] := GAMMA; }
    }

    method Next() returns (result: bv64)
      requires Valid()
      modifies s
      ensures result == Scramble(old(Words()).s1) && Words() == Step(old(Words()))
    {
      hide Scramble, Xor, Shl17, Rotl45;
      result := Scramble(s[1]);
      var t := Shl17(s[1]);
      s[2] := Xor(s[2], s[0]);
      s[3] := Xor(s[3], s[1]);
      s[1] := Xor(s[1], s[2]);
      s[0] := Xor(s[0], s[3]);
      s[2] := Xor(s[2], t);
      s[3] := Rotl45(s[3]);
    }
  }
}
