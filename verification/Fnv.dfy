/** FNV-1a, 64 bits (draft-eastlake-fnv, section 2), as both recorders use it. */
module Fnv {
  import opened Bytes

  const OFFSET: u64 := 0xcbf29ce484222325
  const PRIME: u64 := 0x100000001b3
  // PRIME * INVERSE is 1 modulo 2^64; see PrimeInverse.
  const INVERSE: u64 := 0xce965057aff6957b

  /** Bitwise exclusive or, bit by bit. */
  function Xor(a: nat, b: nat): nat
    decreases a + b
  {
    if a == 0 && b == 0 then 0 else 2 * Xor(a / 2, b / 2) + (a % 2 + b % 2) % 2
  }

  lemma {:induction false} XorCommutes(a: nat, b: nat)
    ensures Xor(a, b) == Xor(b, a)
    decreases a + b
  {
    if a + b > 0 {
      XorCommutes(a / 2, b / 2);
    }
  }

  lemma {:induction false} XorUnfold(a: nat, b: nat)
    ensures Xor(a, b) / 2 == Xor(a / 2, b / 2)
    ensures Xor(a, b) % 2 == (a % 2 + b % 2) % 2
  {
  }

  lemma {:induction false} XorUndoes(a: nat, b: nat)
    ensures Xor(Xor(a, b), b) == a
    decreases a + b
  {
    if a + b > 0 {
      var x := Xor(a, b);
      XorUnfold(a, b);
      XorUnfold(x, b);
      XorUndoes(a / 2, b / 2);
      ParityUndoes(a, b, x);
      assert Xor(x, b) == 2 * (a / 2) + a % 2;
    }
  }

  lemma {:induction false} ParityUndoes(a: nat, b: nat, x: nat)
    requires x % 2 == (a % 2 + b % 2) % 2
    ensures (x % 2 + b % 2) % 2 == a % 2
  {
  }

  function Pow2(k: nat): nat {
    if k == 0 then 1 else 2 * Pow2(k - 1)
  }

  lemma {:induction false} XorBound(a: nat, b: nat, k: nat)
    requires a < Pow2(k) && b < Pow2(k)
    ensures Xor(a, b) < Pow2(k)
    decreases k
  {
    if k > 0 {
      XorUnfold(a, b);
      XorBound(a / 2, b / 2, k - 1);
    }
  }

  lemma {:induction false} Pow2OfBytes(k: nat)
    ensures Pow2(8 * k) == Pow256(k)
  {
    if k > 0 {
      var j := 8 * (k - 1);
      assert Pow2(j + 2) == 4 * Pow2(j);
      assert Pow2(j + 4) == 4 * Pow2(j + 2);
      assert Pow2(j + 6) == 4 * Pow2(j + 4);
      assert Pow2(j + 8) == 4 * Pow2(j + 6);
      Pow2OfBytes(k - 1);
    }
  }

  lemma {:induction false} XorFits(a: u64, b: u64)
    ensures Xor(a, b) < TWO64
  {
    Widths();
    Pow2OfBytes(8);
    XorBound(a, b, 64);
  }

  /** One byte: xor, then a wrapping multiplication by the prime. */
  function Step(h: u64, b: byte): u64 {
    (Xor(h, b) * PRIME) % TWO64
  }

  function FoldWith<S>(step: (S, byte) -> S, h: S, s: seq<byte>): S {
    if s == [] then h else FoldWith(step, step(h, s[0]), s[1..])
  }

  function Fold(h: u64, s: seq<byte>): u64 {
    FoldWith(Step, h, s)
  }

  function Hash(s: seq<byte>): u64 {
    Fold(OFFSET, s)
  }

  lemma {:induction false} FoldWithConcat<S>(step: (S, byte) -> S, h: S, s: seq<byte>, t: seq<byte>)
    ensures FoldWith(step, h, s + t) == FoldWith(step, FoldWith(step, h, s), t)
  {
    if s == [] {
      assert s + t == t;
    } else {
      assert (s + t)[1..] == s[1..] + t;
      FoldWithConcat(step, step(h, s[0]), s[1..], t);
    }
  }

  lemma {:induction false} FoldConcat(h: u64, s: seq<byte>, t: seq<byte>)
    ensures Fold(h, s + t) == Fold(Fold(h, s), t)
  {
    FoldWithConcat(Step, h, s, t);
  }

  lemma {:induction false} FoldOne(h: u64, b: byte)
    ensures Fold(h, [b]) == Step(h, b)
  {
    assert [b][1..] == [];
    assert FoldWith(Step, h, [b]) == FoldWith(Step, Step(h, b), []);
  }

  // ----- the function meant

  /** Bit `i` of a number, the lowest being bit 0. */
  function Bit(a: nat, i: nat): nat {
    if i == 0 then a % 2 else Bit(a / 2, i - 1)
  }

  /** A bit of the exclusive or is set when exactly one of the two bits is. */
  lemma {:induction false} XorBit(a: nat, b: nat, i: nat)
    ensures Bit(Xor(a, b), i) == if Bit(a, i) == Bit(b, i) then 0 else 1
  {
    XorUnfold(a, b);
    if i > 0 {
      XorBit(a / 2, b / 2, i - 1);
    }
  }

  lemma {:induction false} XorZero(a: nat)
    ensures Xor(a, 0) == a
  {
    if a > 0 {
      XorZero(a / 2);
    }
  }

  lemma {:induction false} XorHalves(a: nat, b: nat, x: nat, a2: nat, b2: nat)
    requires a2 / 2 == a && b2 / 2 == b && Xor(a, b) == x && a2 + b2 > 0
    ensures Xor(a2, b2) == 2 * x + (a2 % 2 + b2 % 2) % 2
  {
  }

  lemma {:induction false} XorShift(a: nat, b: nat, x: nat, i: nat, j: nat) returns (a2: nat, b2: nat, x2: nat)
    requires a > 0 && Xor(a, b) == x && i < 2 && j < 2
    ensures a2 == 2 * a + i && b2 == 2 * b + j && x2 == 2 * x + (if i == j then 0 else 1) && Xor(a2, b2) == x2
  {
    a2, b2 := 2 * a + i, 2 * b + j;
    XorHalves(a, b, x, a2, b2);
    x2 := Xor(a2, b2);
  }

  lemma {:induction false} LowBits(top: nat) returns (x: nat)
    requires top > 0
    ensures Xor(128 * top + 0x25, 0x61) == x == 128 * top + 0x44
  {
    XorZero(top);
    var a: nat, c: nat;
    a, c, x := top, 0, top;
    a, c, x := XorShift(a, c, x, 0, 1);
    a, c, x := XorShift(a, c, x, 1, 1);
    a, c, x := XorShift(a, c, x, 0, 0);
    a, c, x := XorShift(a, c, x, 0, 0);
    a, c, x := XorShift(a, c, x, 1, 0);
    a, c, x := XorShift(a, c, x, 0, 0);
    a, c, x := XorShift(a, c, x, 1, 1);
  }

  lemma {:induction false} StepOfA(h: u64, b: byte)
    requires h == 0xcbf29ce484222325 && b == 0x61
    ensures Step(h, b) == 0xaf63dc4c8601ec8c
  {
    var x := LowBits(114812351869895750);
    RemainderIs(x * PRIME, 875948729822, 0xaf63dc4c8601ec8c);
  }

  lemma {:induction false} HashOne(h: u64, b: byte)
    requires h == OFFSET
    ensures Hash([]) == h && Hash([b]) == Step(h, b)
  {
    FoldOne(OFFSET, b);
  }

  /** The test vectors of the draft for the empty text and for the letter a. */
  lemma {:induction false} KnownAnswers(h: u64, b: byte)
    requires h == 0xcbf29ce484222325 && b == 0x61
    ensures Hash([]) == h && Hash([b]) == 0xaf63dc4c8601ec8c
  {
    StepOfA(h, b);
    HashOne(h, b);
  }

  // ----- a step, and so a fold, is a bijection on states

  function Unstep(h: u64, b: byte): nat {
    Xor((h * INVERSE) % TWO64, b)
  }

  lemma {:induction false} PrimeInverse()
    ensures (PRIME * INVERSE) % TWO64 == 1
  {
  }

  /** Multiplying by the prime and then by its inverse gives the number back, and vice versa. */
  lemma {:induction false} MulUndoes(x: u64)
    ensures (((x * PRIME) % TWO64) * INVERSE) % TWO64 == x
    ensures (((x * INVERSE) % TWO64) * PRIME) % TWO64 == x
  {
    ghost var q := (PRIME * INVERSE) / TWO64;
    assert PRIME * INVERSE == 1 + q * TWO64;
    ghost var k := (x * PRIME) / TWO64;
    RemainderIs(((x * PRIME) % TWO64) * INVERSE, x * q - k * INVERSE, x);
    ghost var m := (x * INVERSE) / TWO64;
    RemainderIs(((x * INVERSE) % TWO64) * PRIME, x * q - m * PRIME, x);
  }

  lemma {:induction false} RemainderIs(a: int, q: int, r: u64)
    requires a == q * TWO64 + r
    ensures a % TWO64 == r
  {
  }

  lemma {:induction false} UnstepFits(h: u64, b: byte)
    ensures Unstep(h, b) < TWO64
  {
    XorFits((h * INVERSE) % TWO64, b);
  }

  /** Every byte permutes the 64-bit states: Unstep undoes Step on both sides. */
  lemma {:induction false} StepIsBijective(h: u64, b: byte)
    ensures Unstep(Step(h, b), b) == h
    ensures Unstep(h, b) < TWO64 && Step(Unstep(h, b), b) == h
  {
    UnstepFits(h, b);
    XorFits(h, b);
    MulUndoes(Xor(h, b));
    XorUndoes(h, b);
    MulUndoes(h);
    XorUndoes((h * INVERSE) % TWO64, b);
  }

  lemma {:induction false} StepInjectiveInByte(h: u64, b: byte, c: byte)
    requires Step(h, b) == Step(h, c)
    ensures b == c
  {
    XorFits(h, b);
    XorFits(h, c);
    MulUndoes(Xor(h, b));
    MulUndoes(Xor(h, c));
    XorCommutes(h, b);
    XorCommutes(h, c);
    XorUndoes(b, h);
    XorUndoes(c, h);
  }

  lemma {:induction false} FoldWithInjective<S(!new)>(step: (S, byte) -> S, h: S, g: S, s: seq<byte>)
    requires forall x, y, b :: step(x, b) == step(y, b) ==> x == y
    ensures FoldWith(step, h, s) == FoldWith(step, g, s) <==> h == g
  {
    if s != [] {
      FoldWithInjective(step, step(h, s[0]), step(g, s[0]), s[1..]);
    }
  }

  /** Streams with a common suffix collide only if they already collided before it. */
  lemma {:induction false} CommonSuffix(h: u64, g: u64, s: seq<byte>)
    ensures Fold(h, s) == Fold(g, s) <==> h == g
  {
    forall x, y, b | Step(x, b) == Step(y, b) ensures x == y {
      StepIsBijective(x, b);
      StepIsBijective(y, b);
    }
    FoldWithInjective(Step, h, g, s);
  }

  /** For every suffix and every final hash exactly one state leads there. */
  lemma {:induction false} EveryHashReached(target: u64, s: seq<byte>) returns (h: u64)
    ensures Fold(h, s) == target
    ensures forall g: u64 :: Fold(g, s) == target ==> g == h
  {
    if s == [] {
      h := target;
    } else {
      var g := EveryHashReached(target, s[1..]);
      StepIsBijective(g, s[0]);
      h := Unstep(g, s[0]);
    }
    forall g: u64 ensures Fold(g, s) == target ==> g == h {
      CommonSuffix(g, h, s);
    }
  }

  /** Two streams of equal length that differ in exactly one byte never collide. */
  lemma {:induction false} OneByteNeverCollides(h: u64, s: seq<byte>, b: byte, c: byte, t: seq<byte>)
    requires b != c
    ensures Fold(h, s + [b] + t) != Fold(h, s + [c] + t)
  {
    FoldConcat(h, s + [b], t);
    FoldConcat(h, s + [c], t);
    FoldConcat(h, s, [b]);
    FoldConcat(h, s, [c]);
    FoldOne(Fold(h, s), b);
    FoldOne(Fold(h, s), c);
    if Fold(h, s + [b]) == Fold(h, s + [c]) {
      StepInjectiveInByte(Fold(h, s), b, c);
    }
    CommonSuffix(Fold(h, s + [b]), Fold(h, s + [c]), t);
  }

  // ----- the recorders' loops

  /** The running hash of the Rust recorder. */
  class Fnv64 {
    var state: u64

    constructor ()
      ensures state == OFFSET
    {
      state := OFFSET;
    }

    method Byte(b: byte)
      modifies this
      ensures state == Fold(old(state), [b])
    {
      FoldOne(state, b);
      var x := Xor(state, b);
      state := (x * PRIME) % TWO64;
    }

    method Slice(s: seq<byte>)
      modifies this
      ensures state == Fold(old(state), s)
    {
      for i := 0 to |s|
        invariant state == Fold(old(state), s[..i])
      {
        FoldConcat(old(state), s[..i], [s[i]]);
        assert s[..i + 1] == s[..i] + [s[i]];
        Byte(s[i]);
      }
      assert s[..|s|] == s;
    }

    method U32(v: u32)
      modifies this
      ensures state == Fold(old(state), Le(v, 4))
    {
      Slice(Le(v, 4));
    }

    method U64(v: u64)
      modifies this
      ensures state == Fold(old(state), Le(v, 8))
    {
      Slice(Le(v, 8));
    }

    method Str(s: seq<byte>)
      modifies this
      ensures state == Fold(old(state), Le(|s|, 8) + s)
    {
      FoldConcat(state, Le(|s|, 8), s);
      Slice(Le(|s|, 8));
      Slice(s);
    }
  }

  /** The writer's own unrolled loop over the canonical input bytes. */
  method ContentHash(s: seq<byte>) returns (h: u64)
    ensures h == Hash(s)
  {
    h := OFFSET;
    for i := 0 to |s|
      invariant h == Fold(OFFSET, s[..i])
    {
      FoldConcat(OFFSET, s[..i], [s[i]]);
      assert s[..i + 1] == s[..i] + [s[i]];
      FoldOne(h, s[i]);
      h := (Xor(h, s[i]) * PRIME) % TWO64;
    }
    assert s[..|s|] == s;
  }
}
