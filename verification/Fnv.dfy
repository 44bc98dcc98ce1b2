/** FNV-1a 64 as a sequence of reversible steps on 64-bit states. */
module Fnv {
  import opened Text

  const MODULUS := 0x1_0000_0000_0000_0000
  const OFFSET: u64 := 0xcbf29ce484222325
  const PRIME := 0x0000_0100_0000_01b3

  type u64 = x: int | 0 <= x < 0x1_0000_0000_0000_0000

  /** Exclusive or, bit by bit. */
  function Xor(a: nat, b: nat): nat
    decreases a + b
  {
    if a == 0 && b == 0 then 0
    else (if a % 2 == b % 2 then 0 else 1) + 2 * Xor(a / 2, b / 2)
  }

  lemma {:induction false} XorCancels(a: nat, b: nat)
    ensures Xor(Xor(a, b), b) == a
    decreases a + b
  {
    if a != 0 || b != 0 {
      XorCancels(a / 2, b / 2);
      var x := Xor(a, b);
      assert x / 2 == Xor(a / 2, b / 2);
      assert x % 2 == if a % 2 == b % 2 then 0 else 1;
    }
  }

  lemma {:induction false} XorCommutes(a: nat, b: nat)
    ensures Xor(a, b) == Xor(b, a)
    decreases a + b
  {
    if a != 0 || b != 0 {
      XorCommutes(a / 2, b / 2);
    }
  }

  function Pow2(k: nat): nat { if k == 0 then 1 else 2 * Pow2(k - 1) }

  lemma {:induction false} XorFits(a: nat, b: nat, k: nat)
    requires a < Pow2(k) && b < Pow2(k)
    ensures Xor(a, b) < Pow2(k)
    decreases a + b
  {
    if a != 0 || b != 0 {
      XorFits(a / 2, b / 2, k - 1);
    }
  }

  lemma {:induction false} Pow2Doubles(k: nat, n: nat)
    requires Pow2(k) == n
    ensures Pow2(2 * k) == n * n
  {
    Pow2Adds(k, k);
  }

  lemma {:induction false} Pow2Adds(a: nat, b: nat)
    ensures Pow2(a + b) == Pow2(a) * Pow2(b)
  {
    if a > 0 {
      Pow2Adds(a - 1, b);
    }
  }

  lemma Pow2Of64()
    ensures Pow2(64) == MODULUS
  {
    assert Pow2(1) == 2;
    Pow2Doubles(1, 2);
    Pow2Doubles(2, 4);
    Pow2Doubles(4, 16);
    Pow2Doubles(8, 256);
    Pow2Doubles(16, 0x1_0000);
    Pow2Doubles(32, 0x1_0000_0000);
  }

  /** One round: exclusive or with the byte, then a wrapping multiplication by the prime. */
  function HashByte(state: u64, b: byte): u64 {
    (Xor(state, b) * PRIME) % MODULUS
  }

  function Fnv1a(state: u64, bytes: seq<byte>): u64
    decreases |bytes|
  {
    if bytes == [] then state else Fnv1a(HashByte(state, bytes[0]), bytes[1..])
  }

  lemma {:induction false} Fnv1aAppend(state: u64, a: seq<byte>, b: seq<byte>)
    ensures Fnv1a(state, a + b) == Fnv1a(Fnv1a(state, a), b)
    decreases |a|
  {
    if a == [] {
      assert a + b == b;
    } else {
      assert (a + b)[1..] == a[1..] + b;
      Fnv1aAppend(HashByte(state, a[0]), a[1..], b);
    }
  }

  /// Reference values

  /** A byte changes the last eight bits only. */
  lemma {:induction false} XorOfHigh(high: nat, a: nat, b: nat, k: nat)
    requires a < Pow2(k) && b < Pow2(k)
    ensures Xor(high * Pow2(k) + a, b) == high * Pow2(k) + Xor(a, b)
    decreases k
  {
    if k == 0 {
      XorZero(high);
    } else {
      var x := high * Pow2(k) + a;
      assert x == 2 * (high * Pow2(k - 1)) + a;
      assert x / 2 == high * Pow2(k - 1) + a / 2 && x % 2 == a % 2;
      XorOfHigh(high, a / 2, b / 2, k - 1);
    }
  }

  lemma {:induction false} XorZero(a: nat)
    ensures Xor(a, 0) == a
  {
    if a != 0 {
      XorZero(a / 2);
    }
  }

  /** The bit in place `k`, the last one being in place 0. */
  function Bit(a: nat, k: nat): nat { if k == 0 then a % 2 else Bit(a / 2, k - 1) }

  /** Each bit of the result says whether the bits in its place differ. */
  lemma {:induction false} XorBits(a: nat, b: nat, k: nat)
    ensures Bit(Xor(a, b), k) == if Bit(a, k) == Bit(b, k) then 0 else 1
    decreases k
  {
    XorStep(a, b, Xor(a / 2, b / 2));
    if k > 0 {
      XorBits(a / 2, b / 2, k - 1);
    }
  }

  lemma NothingToXor()
    ensures Xor(0, 0) == 0
  {}

  lemma XorStep(a: nat, b: nat, half: nat)
    requires Xor(a / 2, b / 2) == half
    ensures Xor(a, b) == (if a % 2 == b % 2 then 0 else 1) + 2 * half
  {
    NothingToXor();
  }

  lemma XorOfA(low: nat, b: nat)
    requires low == 0x25 && b == 97
    ensures Xor(low, b) == 0x44
  {
    var l1, b1 := low / 2, b / 2;
    var l2, b2 := l1 / 2, b1 / 2;
    var l3, b3 := l2 / 2, b2 / 2;
    var l4, b4 := l3 / 2, b3 / 2;
    var l5, b5 := l4 / 2, b4 / 2;
    var l6, b6 := l5 / 2, b5 / 2;
    var l7, b7 := l6 / 2, b6 / 2;
    var l8, b8 := l7 / 2, b7 / 2;
    assert l1 == 18 && b1 == 48 && l2 == 9 && b2 == 24 && l3 == 4 && b3 == 12 && l4 == 2 && b4 == 6 && l5 == 1 && b5 == 3 && l6 == 0 && b6 == 1 && l7 == 0 && b7 == 0 && l8 == 0 && b8 == 0;
    XorZero(l8);
    XorStep(l7, b7, 0);
    XorStep(l6, b6, 0);
    XorStep(l5, b5, 1);
    XorStep(l4, b4, 2);
    XorStep(l3, b3, 4);
    XorStep(l2, b2, 8);
    XorStep(l1, b1, 17);
    XorStep(low, b, 34);
  }

  /** The published value for the text "a" under the published offset. */
  lemma ReferenceValue(state: u64, b: byte)
    requires state == 0xcbf29ce484222325 && b == 97
    ensures OFFSET == state && HashByte(state, b) == 0xaf63dc4c8601ec8c
  {
    var high, low := state / 256, state % 256;
    assert Pow2(8) == 256 && state == high * 256 + low && low == 0x25;
    XorOfHigh(high, low, b, 8);
    XorOfA(low, b);
    MixedA(Xor(state, b));
  }

  lemma MixedA(x: nat)
    requires x == 0xcbf29ce484222344
    ensures (x * PRIME) % MODULUS == 0xaf63dc4c8601ec8c
  {}

  /** The byte is mixed in before the multiplication. */
  lemma RoundOnZero(b: byte)
    ensures HashByte(0, b) == b * PRIME
  {
    XorCommutes(0, b);
    XorZero(b);
  }

  // PRIME * INVERSE == 1 + CARRY * MODULUS: the prime is odd, so it has an inverse modulo 2^64.
  const INVERSE := 0xce965057aff6957b
  const CARRY := 0xce9650590f

  lemma InverseUndoesPrime(x: u64)
    ensures (((x * PRIME) % MODULUS) * INVERSE) % MODULUS == x
    ensures (((x * INVERSE) % MODULUS) * PRIME) % MODULUS == x
  {
    assert PRIME * INVERSE == 1 + CARRY * MODULUS;
    var q, p := (x * PRIME) / MODULUS, (x * INVERSE) / MODULUS;
    SameResidue(((x * PRIME) % MODULUS) * INVERSE, x, x * CARRY - q * INVERSE);
    SameResidue(((x * INVERSE) % MODULUS) * PRIME, x, x * CARRY - p * PRIME);
  }

  lemma SameResidue(y: int, x: u64, k: int)
    requires y == x + MODULUS * k
    ensures y % MODULUS == x
  {}

  /** The state a round started from. */
  function UnhashByte(state: u64, b: byte): nat { Xor((state * INVERSE) % MODULUS, b) }

  /** For each byte, a round is a bijection on 64-bit states, and it is injective in the byte. */
  lemma HashByteIsBijective(s: u64, b: byte)
    ensures UnhashByte(HashByte(s, b), b) == s
    ensures UnhashByte(s, b) < MODULUS && HashByte(UnhashByte(s, b), b) == s
  {
    Pow2Of64();
    XorFits(s, b, 64);
    InverseUndoesPrime(Xor(s, b));
    XorCancels(s, b);
    XorFits((s * INVERSE) % MODULUS, b, 64);
    InverseUndoesPrime(s);
    XorCancels((s * INVERSE) % MODULUS, b);
  }

  lemma HashByteIsInjectiveInByte(s: u64, a: byte, b: byte)
    requires HashByte(s, a) == HashByte(s, b)
    ensures a == b
  {
    Pow2Of64();
    XorFits(s, a, 64);
    XorFits(s, b, 64);
    InverseUndoesPrime(Xor(s, a));
    InverseUndoesPrime(Xor(s, b));
    XorCommutes(s, a);
    XorCommutes(s, b);
    XorCancels(a, s);
    XorCancels(b, s);
  }

  lemma {:induction false} Fnv1aIsInjectiveInState(s: u64, t: u64, bytes: seq<byte>)
    requires Fnv1a(s, bytes) == Fnv1a(t, bytes)
    ensures s == t
    decreases |bytes|
  {
    if bytes != [] {
      Fnv1aIsInjectiveInState(HashByte(s, bytes[0]), HashByte(t, bytes[0]), bytes[1..]);
      HashByteIsBijective(s, bytes[0]);
      HashByteIsBijective(t, bytes[0]);
    }
  }

  /** Changing exactly one byte of a stream always changes the hash. */
  lemma OneByteChangeIsDetected(state: u64, bytes: seq<byte>, i: nat, b: byte)
    requires i < |bytes| && bytes[i] != b
    ensures Fnv1a(state, bytes) != Fnv1a(state, bytes[i := b])
  {
    var pre, post := bytes[..i], bytes[i + 1..];
    assert bytes == pre + ([bytes[i]] + post) && bytes[i := b] == pre + ([b] + post);
    Fnv1aAppend(state, pre, [bytes[i]] + post);
    Fnv1aAppend(state, pre, [b] + post);
    var s := Fnv1a(state, pre);
    assert ([bytes[i]] + post)[1..] == post && ([b] + post)[1..] == post;
    if Fnv1a(state, bytes) == Fnv1a(state, bytes[i := b]) {
      Fnv1aIsInjectiveInState(HashByte(s, bytes[i]), HashByte(s, b), post);
      HashByteIsInjectiveInByte(s, bytes[i], b);
    }
  }
}
