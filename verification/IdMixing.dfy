/**
 Id generation of the leaf: every 64-bit id word mixes the device key plus a draw counter and
 then combines the result with a word from the random source. The mixing step is a bijection
 on 64-bit words, and everything the leaf promises about its ids on a device with
 weak entropy follows from that.

 The `Raw` lemmas state bit-vector identities on plain expressions, where the solver
 normalises both sides; the `Undo` lemmas lift them to the named steps.
 */
module IdMixing {

  const GAMMA: bv64 := 0x9e3779b97f4a7c15

  // The five invertible steps that follow the addition of GAMMA, each with its inverse.

  function Fold30(z: bv64): bv64 { z ^ (z >> 30) }
  function Unfold30(y: bv64): bv64 { y ^ (y >> 30) ^ (y >> 60) }

  function Fold27(z: bv64): bv64 { z ^ (z >> 27) }
  function Unfold27(y: bv64): bv64 { y ^ (y >> 27) ^ (y >> 54) }

  function Fold31(z: bv64): bv64 { z ^ (z >> 31) }
  function Unfold31(y: bv64): bv64 { y ^ (y >> 31) ^ (y >> 62) }

  function Scale1(z: bv64): bv64 { z * 0xbf58476d1ce4e5b9 }
  function Unscale1(y: bv64): bv64 { y * 0x96de1b173f119089 }

  function Scale2(z: bv64): bv64 { z * 0x94d049bb133111eb }
  function Unscale2(y: bv64): bv64 { y * 0x319642b2d24d8ec3 }

  function Splitmix64(x: bv64): bv64 {
    Fold31(Scale2(Fold27(Scale1(Fold30(x + GAMMA)))))
  }

  function Unmix64(y: bv64): bv64 {
    Unfold30(Unscale1(Unfold27(Unscale2(Unfold31(y))))) - GAMMA
  }

  lemma RawFold30(z: bv64)
    ensures (z ^ (z >> 30)) ^ ((z ^ (z >> 30)) >> 30) ^ ((z ^ (z >> 30)) >> 60) == z
    ensures (z ^ (z >> 30) ^ (z >> 60)) ^ ((z ^ (z >> 30) ^ (z >> 60)) >> 30) == z
  {}

  lemma Undo30(z: bv64)
    ensures Unfold30(Fold30(z)) == z && Fold30(Unfold30(z)) == z
  {
    calc {
      Unfold30(Fold30(z));
      { assert Fold30(z) == z ^ (z >> 30); }
      Unfold30(z ^ (z >> 30));
      (z ^ (z >> 30)) ^ ((z ^ (z >> 30)) >> 30) ^ ((z ^ (z >> 30)) >> 60);
      { RawFold30(z); }
      z;
    }
    calc {
      Fold30(Unfold30(z));
      { assert Unfold30(z) == z ^ (z >> 30) ^ (z >> 60); }
      Fold30(z ^ (z >> 30) ^ (z >> 60));
      (z ^ (z >> 30) ^ (z >> 60)) ^ ((z ^ (z >> 30) ^ (z >> 60)) >> 30);
      { RawFold30(z); }
      z;
    }
  }

  lemma RawFold27(z: bv64)
    ensures (z ^ (z >> 27)) ^ ((z ^ (z >> 27)) >> 27) ^ ((z ^ (z >> 27)) >> 54) == z
    ensures (z ^ (z >> 27) ^ (z >> 54)) ^ ((z ^ (z >> 27) ^ (z >> 54)) >> 27) == z
  {}

  lemma Undo27(z: bv64)
    ensures Unfold27(Fold27(z)) == z && Fold27(Unfold27(z)) == z
  {
    calc {
      Unfold27(Fold27(z));
      { assert Fold27(z) == z ^ (z >> 27); }
      Unfold27(z ^ (z >> 27));
      (z ^ (z >> 27)) ^ ((z ^ (z >> 27)) >> 27) ^ ((z ^ (z >> 27)) >> 54);
      { RawFold27(z); }
      z;
    }
    calc {
      Fold27(Unfold27(z));
      { assert Unfold27(z) == z ^ (z >> 27) ^ (z >> 54); }
      Fold27(z ^ (z >> 27) ^ (z >> 54));
      (z ^ (z >> 27) ^ (z >> 54)) ^ ((z ^ (z >> 27) ^ (z >> 54)) >> 27);
      { RawFold27(z); }
      z;
    }
  }

  lemma RawFold31(z: bv64)
    ensures (z ^ (z >> 31)) ^ ((z ^ (z >> 31)) >> 31) ^ ((z ^ (z >> 31)) >> 62) == z
    ensures (z ^ (z >> 31) ^ (z >> 62)) ^ ((z ^ (z >> 31) ^ (z >> 62)) >> 31) == z
  {}

  lemma Undo31(z: bv64)
    ensures Unfold31(Fold31(z)) == z && Fold31(Unfold31(z)) == z
  {
    calc {
      Unfold31(Fold31(z));
      { assert Fold31(z) == z ^ (z >> 31); }
      Unfold31(z ^ (z >> 31));
      (z ^ (z >> 31)) ^ ((z ^ (z >> 31)) >> 31) ^ ((z ^ (z >> 31)) >> 62);
      { RawFold31(z); }
      z;
    }
    calc {
      Fold31(Unfold31(z));
      { assert Unfold31(z) == z ^ (z >> 31) ^ (z >> 62); }
      Fold31(z ^ (z >> 31) ^ (z >> 62));
      (z ^ (z >> 31) ^ (z >> 62)) ^ ((z ^ (z >> 31) ^ (z >> 62)) >> 31);
      { RawFold31(z); }
      z;
    }
  }

  lemma RawScale1(z: bv64)
    ensures z * 0xbf58476d1ce4e5b9 * 0x96de1b173f119089 == z
    ensures z * 0x96de1b173f119089 * 0xbf58476d1ce4e5b9 == z
  {}

  lemma Undo1(z: bv64)
    ensures Unscale1(Scale1(z)) == z && Scale1(Unscale1(z)) == z
  {
    calc {
      Unscale1(Scale1(z));
      { assert Scale1(z) == z * 0xbf58476d1ce4e5b9; }
      Unscale1(z * 0xbf58476d1ce4e5b9);
      z * 0xbf58476d1ce4e5b9 * 0x96de1b173f119089;
      { RawScale1(z); }
      z;
    }
    calc {
      Scale1(Unscale1(z));
      { assert Unscale1(z) == z * 0x96de1b173f119089; }
      Scale1(z * 0x96de1b173f119089);
      z * 0x96de1b173f119089 * 0xbf58476d1ce4e5b9;
      { RawScale1(z); }
      z;
    }
  }

  lemma RawScale2(z: bv64)
    ensures z * 0x94d049bb133111eb * 0x319642b2d24d8ec3 == z
    ensures z * 0x319642b2d24d8ec3 * 0x94d049bb133111eb == z
  {}

  lemma Undo2(z: bv64)
    ensures Unscale2(Scale2(z)) == z && Scale2(Unscale2(z)) == z
  {
    calc {
      Unscale2(Scale2(z));
      { assert Scale2(z) == z * 0x94d049bb133111eb; }
      Unscale2(z * 0x94d049bb133111eb);
      z * 0x94d049bb133111eb * 0x319642b2d24d8ec3;
      { RawScale2(z); }
      z;
    }
    calc {
      Scale2(Unscale2(z));
      { assert Unscale2(z) == z * 0x319642b2d24d8ec3; }
      Scale2(z * 0x319642b2d24d8ec3);
      z * 0x319642b2d24d8ec3 * 0x94d049bb133111eb;
      { RawScale2(z); }
      z;
    }
  }

  lemma AddThenSubtract(x: bv64)
    ensures x + GAMMA - GAMMA == x && x - GAMMA + GAMMA == x
  {}

  /** splitmix64 is a bijection on 64-bit words: Unmix64 is its two-sided inverse. */
  lemma SplitmixIsBijective(x: bv64)
    ensures Unmix64(Splitmix64(x)) == x
    ensures Splitmix64(Unmix64(x)) == x
  {
    hide Fold30, Unfold30, Scale1, Unscale1, Fold27, Unfold27, Scale2, Unscale2, Fold31, Unfold31;
    AddThenSubtract(x);
    var a := Fold30(x + GAMMA);
    var b := Fold27(Scale1(a));
    Undo31(Scale2(b)); Undo2(b); Undo27(Scale1(a)); Undo1(a); Undo30(x + GAMMA);
    var c := Unscale2(Unfold31(x));
    var d := Unscale1(Unfold27(c));
    AddThenSubtract(Unfold30(d));
    Undo30(d); Undo1(Unfold27(c)); Undo27(c); Undo2(Unfold31(x)); Undo31(x);
  }

  lemma SplitmixIsInjective(x: bv64, y: bv64)
    ensures Splitmix64(x) == Splitmix64(y) <==> x == y
  {
    hide *;
    SplitmixIsBijective(x);
    SplitmixIsBijective(y);
  }

  // Word arithmetic under names, so that the proofs below can treat it equationally.

  function Plus(a: bv64, b: bv64): bv64 { a + b }
  function Minus(a: bv64, b: bv64): bv64 { a - b }
  function Xor(a: bv64, b: bv64): bv64 { a ^ b }
  function Succ(c: bv64): bv64 { c + 1 }

  lemma SuccDiffers(c: bv64)
    ensures Succ(c) != c
  {}

  lemma XorTwice(a: bv64, r: bv64)
    ensures Xor(Xor(a, r), r) == a
  {
    calc {
      Xor(Xor(a, r), r);
      { assert Xor(a, r) == a ^ r; }
      Xor(a ^ r, r);
      a ^ r ^ r;
      a;
    }
  }

  lemma PlusCommutes(a: bv64, b: bv64)
    ensures Plus(a, b) == Plus(b, a)
  {}

  lemma PlusThenMinus(a: bv64, k: bv64)
    ensures Minus(Plus(a, k), k) == a
  {
    calc {
      Minus(Plus(a, k), k);
      { assert Plus(a, k) == a + k; }
      Minus(a + k, k);
      a + k - k;
      a;
    }
  }

  lemma PlusCancels(a: bv64, b: bv64, k: bv64)
    ensures Plus(a, k) == Plus(b, k) <==> a == b
    ensures Plus(k, a) == Plus(k, b) <==> a == b
  {
    hide Plus, Minus;
    PlusThenMinus(a, k); PlusThenMinus(b, k);
    PlusCommutes(a, k); PlusCommutes(b, k);
  }

  /** One id word, from the device key, the draw counter and the word the random source returned. */
  function IdWord(deviceKey: bv64, counter: bv64, random: bv64): bv64 {
    Xor(Splitmix64(Plus(deviceKey, counter)), random)
  }

  lemma SameWordSameInput(key1: bv64, i: bv64, key2: bv64, j: bv64, random: bv64)
    ensures IdWord(key1, i, random) == IdWord(key2, j, random) <==> Plus(key1, i) == Plus(key2, j)
  {
    hide Splitmix64, Plus, Xor;
    XorTwice(Splitmix64(Plus(key1, i)), random);
    XorTwice(Splitmix64(Plus(key2, j)), random);
    SplitmixIsInjective(Plus(key1, i), Plus(key2, j));
  }

  /** With a random source stuck on one word, two draws of one leaf agree only when the counter is the same. */
  lemma StuckSourceStillGivesDistinctWords(deviceKey: bv64, i: bv64, j: bv64, stuck: bv64)
    ensures IdWord(deviceKey, i, stuck) == IdWord(deviceKey, j, stuck) <==> i == j
  {
    hide *;
    SameWordSameInput(deviceKey, i, deviceKey, j, stuck);
    PlusCancels(i, j, deviceKey);
  }

  /**
   A fleet that shares one random sequence: whatever word the source gives for a draw,
   two devices get the same id word from it exactly when their device keys are equal.
   */
  lemma SharedSourceSeparatesDevices(key1: bv64, key2: bv64, counter: bv64, random: bv64)
    ensures IdWord(key1, counter, random) == IdWord(key2, counter, random) <==> key1 == key2
  {
    hide *;
    SameWordSameInput(key1, counter, key2, counter, random);
    PlusCancels(key1, key2, counter);
  }

  // ---------------------------------------------------------------- What the random source adds

  lemma RawXorCancels(a: bv64, r1: bv64, r2: bv64)
    ensures (a ^ r1) ^ (a ^ r2) == r1 ^ r2
  {}

  lemma XorCancels(a: bv64, r1: bv64, r2: bv64)
    ensures Xor(Xor(a, r1), Xor(a, r2)) == Xor(r1, r2)
  {
    calc {
      Xor(Xor(a, r1), Xor(a, r2));
      { assert Xor(a, r1) == a ^ r1 && Xor(a, r2) == a ^ r2; }
      Xor(a ^ r1, a ^ r2);
      (a ^ r1) ^ (a ^ r2);
      { RawXorCancels(a, r1, r2); }
      r1 ^ r2;
      Xor(r1, r2);
    }
  }

  lemma XorCommutes(a: bv64, b: bv64)
    ensures Xor(a, b) == Xor(b, a)
  {}

  /** The random word passes through: with one key and counter, two id words differ as their random words do. */
  lemma RandomPassesThrough(deviceKey: bv64, counter: bv64, r1: bv64, r2: bv64)
    ensures Xor(IdWord(deviceKey, counter, r1), IdWord(deviceKey, counter, r2)) == Xor(r1, r2)
    ensures IdWord(deviceKey, counter, r1) == IdWord(deviceKey, counter, r2) <==> r1 == r2
  {
    hide Splitmix64, Plus, Xor;
    var a := Splitmix64(Plus(deviceKey, counter));
    XorCancels(a, r1, r2);
    XorTwice(r1, a);
    XorTwice(r2, a);
    XorCommutes(a, r1);
    XorCommutes(a, r2);
  }

  /** Every word comes from exactly one random word, so a uniform source gives uniform ids. */
  lemma EveryWordOnce(deviceKey: bv64, counter: bv64, w: bv64, random: bv64)
    ensures IdWord(deviceKey, counter, random) == w <==> random == Xor(w, Splitmix64(Plus(deviceKey, counter)))
  {
    hide Splitmix64, Plus, Xor;
    var a := Splitmix64(Plus(deviceKey, counter));
    XorCommutes(a, random);
    XorTwice(random, a);
    XorTwice(w, a);
  }

  /** Key and counter are added: a device whose key is one higher is one draw ahead. */
  lemma OneKeyAhead(deviceKey: bv64, counter: bv64, random: bv64)
    ensures IdWord(Plus(deviceKey, 1), counter, random) == IdWord(deviceKey, Succ(counter), random)
  {
    hide Splitmix64, Xor;
    PlusShift(deviceKey, counter);
  }

  lemma PlusShift(a: bv64, b: bv64)
    ensures Plus(Plus(a, 1), b) == Plus(a, Succ(b))
  {
    calc {
      Plus(Plus(a, 1), b);
      { assert Plus(a, 1) == a + 1; }
      Plus(a + 1, b);
      a + 1 + b;
      a + (b + 1);
      Plus(a, b + 1);
      { assert Succ(b) == b + 1; }
      Plus(a, Succ(b));
    }
  }

  /** The published first output of the generator seeded with 0. */
  lemma KnownAnswer()
    ensures Splitmix64(0) == 0xe220_a839_7b1d_cdaf
  {
  }

  // ---------------------------------------------------------------- Ids as bytes

  /** The eight bytes store_be64 writes, most significant first. */
  function BigEndian(w: bv64): (bytes: seq<bv64>)
    ensures |bytes| == 8
  {
    [(w >> 56) & 0xff, (w >> 48) & 0xff, (w >> 40) & 0xff, (w >> 32) & 0xff,
     (w >> 24) & 0xff, (w >> 16) & 0xff, (w >> 8) & 0xff, w & 0xff]
  }

  function FromBigEndian(b: seq<bv64>): bv64
    requires |b| == 8
  {
    (b[0] << 56) | (b[1] << 48) | (b[2] << 40) | (b[3] << 32) |
    (b[4] << 24) | (b[5] << 16) | (b[6] << 8) | b[7]
  }

  lemma RawBigEndian(w: bv64)
    ensures (((w >> 56) & 0xff) << 56) | (((w >> 48) & 0xff) << 48) | (((w >> 40) & 0xff) << 40) |
            (((w >> 32) & 0xff) << 32) | (((w >> 24) & 0xff) << 24) | (((w >> 16) & 0xff) << 16) |
            (((w >> 8) & 0xff) << 8) | (w & 0xff) == w
  {}

  /** No byte of an id word is lost, so an id is all zero only if its word is 0. */
  lemma BigEndianRoundTrip(w: bv64)
    ensures FromBigEndian(BigEndian(w)) == w
    ensures BigEndian(w) == seq(8, _ => 0) <==> w == 0
  {
    RawBigEndian(w);
  }

  // ---------------------------------------------------------------- The generator

  /** The id half of the leaf state, with a random source that always returns the same word. */
  class Generator {
    const deviceKey: bv64
    const stuck: bv64
    var counter: bv64

    constructor (deviceKey: bv64, stuck: bv64)
      ensures this.deviceKey == deviceKey && this.stuck == stuck && counter == 0
    {
      this.deviceKey := deviceKey;
      this.stuck := stuck;
      counter := 0;
    }

    /** One word, given the word the random source returns for the draw. */
    method NextIdWord(random: bv64) returns (w: bv64)
      modifies this
      ensures w == IdWord(deviceKey, old(counter), random)
      ensures counter == Succ(old(counter))
    {
      w := IdWord(deviceKey, counter, random);
      counter := Succ(counter);
    }

    /** Ends within two draws, with a word that is not 0. */
    method NewSpanId() returns (w: bv64, ghost draws: nat)
      modifies this
      ensures w != 0
      ensures draws == 1 || draws == 2
      ensures counter == if draws == 1 then Succ(old(counter)) else Succ(Succ(old(counter)))
      ensures draws == 2 <==> IdWord(deviceKey, old(counter), stuck) == 0
      ensures w == IdWord(deviceKey, if draws == 1 then old(counter) else Succ(old(counter)), stuck)
    {
      hide IdWord, Succ;
      w := 0;
      draws := 0;
      while w == 0
        invariant 0 <= draws <= 2
        invariant draws == 0 ==> counter == old(counter) && w == 0
        invariant draws == 1 ==> counter == Succ(old(counter)) && w == IdWord(deviceKey, old(counter), stuck)
        invariant draws == 2 ==> counter == Succ(Succ(old(counter))) && w != 0
        invariant draws == 2 ==> w == IdWord(deviceKey, Succ(old(counter)), stuck)
        invariant draws == 2 ==> IdWord(deviceKey, old(counter), stuck) == 0
        decreases 2 - draws
      {
        w := NextIdWord(stuck);
        if draws == 1 {
          SuccDiffers(old(counter));
          StuckSourceStillGivesDistinctWords(deviceKey, old(counter), Succ(old(counter)), stuck);
        }
        draws := draws + 1;
      }
    }

    /** Ends in one round of two draws, and the two words are never both 0. */
    method NewTraceId() returns (hi: bv64, lo: bv64)
      modifies this
      ensures hi == IdWord(deviceKey, old(counter), stuck)
      ensures lo == IdWord(deviceKey, Succ(old(counter)), stuck)
      ensures counter == Succ(Succ(old(counter)))
      ensures hi != lo
    {
      hide IdWord, Succ;
      hi, lo := 0, 0;
      ghost var rounds := 0;
      while hi == 0 && lo == 0
        invariant rounds == 0 ==> counter == old(counter) && hi == 0 && lo == 0
        invariant 0 <= rounds <= 1
        invariant rounds == 1 ==> counter == Succ(Succ(old(counter))) && hi != lo
        invariant rounds == 1 ==> hi == IdWord(deviceKey, old(counter), stuck)
        invariant rounds == 1 ==> lo == IdWord(deviceKey, Succ(old(counter)), stuck)
        decreases 1 - rounds
      {
        hi := NextIdWord(stuck);
        lo := NextIdWord(stuck);
        SuccDiffers(old(counter));
        StuckSourceStillGivesDistinctWords(deviceKey, old(counter), Succ(old(counter)), stuck);
        rounds := rounds + 1;
      }
    }
  }
}
