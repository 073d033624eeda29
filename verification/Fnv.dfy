/** FNV-1a and the four-block digest of `src/types.rs`; section 2 of
    draft-eastlake-fnv. */
module Fnv {
  import opened Octets
  import Hex

  const OFFSET: u64 := 0xcbf29ce484222325
  const PRIME: int := 0x100000001b3
  const PRIME_INVERSE: int := 0xce965057aff6957b

  /** Exclusive or of two numbers, bit by bit. */
  function Xor(a: nat, b: nat): nat {
    if a == 0 && b == 0 then 0
    else 2 * Xor(a / 2, b / 2) + (if a % 2 == b % 2 then 0 else 1)
  }

  lemma {:induction false} XorInvolutive(a: nat, b: nat)
    ensures Xor(Xor(a, b), b) == a
    decreases a + b
  {
    if a != 0 || b != 0 {
      XorInvolutive(a / 2, b / 2);
      var x := Xor(a, b);
      assert x / 2 == Xor(a / 2, b / 2);
      assert x % 2 == if a % 2 == b % 2 then 0 else 1;
    }
  }

  function Bit(n: nat, i: nat): bool {
    if i == 0 then n % 2 == 1 else Bit(n / 2, i - 1)
  }

  /** A bit of the result is set exactly when the bits of the operands differ. */
  lemma {:induction false} XorBits(a: nat, b: nat, i: nat)
    ensures Bit(Xor(a, b), i) <==> Bit(a, i) != Bit(b, i)
  {
    var x := Xor(a, b);
    if a != 0 || b != 0 {
      assert x / 2 == Xor(a / 2, b / 2);
      assert x % 2 == if a % 2 == b % 2 then 0 else 1;
    }
    if i > 0 { XorBits(a / 2, b / 2, i - 1); }
  }

  lemma {:induction false} XorZero(a: nat)
    ensures Xor(a, 0) == a
  {
    if a != 0 { XorZero(a / 2); }
  }

  function Pow2(k: nat): nat {
    if k == 0 then 1 else 2 * Pow2(k - 1)
  }

  lemma {:induction false} XorBound(a: nat, b: nat, k: nat)
    requires a < Pow2(k) && b < Pow2(k)
    ensures Xor(a, b) < Pow2(k)
  {
    if k > 0 { XorBound(a / 2, b / 2, k - 1); }
  }

  lemma {:induction false} Pow2Pow16(k: nat)
    ensures Pow2(4 * k) == Hex.Pow16(k)
  {
    if k > 0 {
      Pow2Pow16(k - 1);
      assert Pow2(4 * k - 1) == 2 * Pow2(4 * k - 2);
      assert Pow2(4 * k - 3) == 2 * Pow2(4 * k - 4);
    }
  }

  lemma Pow2Is64Bits()
    ensures Pow2(64) == TWO64 == Hex.Pow16(16)
  {
    Pow2Pow16(16);
    assert Hex.Pow16(4) == 0x1_0000;
    assert Hex.Pow16(8) == 0x1_0000_0000;
    assert Hex.Pow16(12) == 0x1_0000_0000_0000;
  }

  /** What a `u64` keeps of a product. */
  function Low64(n: nat): u64 { n % 0x1_0000_0000_0000_0000 }

  /** `hash ^= byte; hash = hash.wrapping_mul(PRIME)`. */
  function Step(h: u64, b: byte): u64 {
    Low64(Xor(h, b as int) * PRIME)
  }

  /** The step that undoes `Step`. */
  function Unstep(h: u64, b: byte): nat {
    Xor(Low64(h * PRIME_INVERSE), b as int)
  }

  lemma Low64Exact(n: nat, x: u64, q: int)
    requires n == x + 0x1_0000_0000_0000_0000 * q
    ensures Low64(n) == x
  {
  }

  /** Multiplying by one of two numbers whose product is 1 modulo 2^64 undoes
      multiplying by the other. */
  lemma MultiplyInverse(x: u64)
    ensures Low64(Low64(x * PRIME) * PRIME_INVERSE) == x
    ensures Low64(Low64(x * PRIME_INVERSE) * PRIME) == x
  {
    UndoProduct(x, x * PRIME, PRIME, PRIME_INVERSE);
    UndoProduct(x, x * PRIME_INVERSE, PRIME_INVERSE, PRIME);
  }

  lemma UndoProduct(x: u64, product: nat, a: nat, b: nat)
    requires (a == PRIME && b == PRIME_INVERSE) || (a == PRIME_INVERSE && b == PRIME)
    requires product == x * a
    ensures Low64(Low64(product) * b) == x
  {
    var m, k := 0x1_0000_0000_0000_0000, 0xce9650590f;
    var q := product / m;
    var y := Low64(product);
    assert y == product - q * m;
    if a == PRIME {
      assert product * 0xce965057aff6957b == x * (k * m + 1);
      assert y * 0xce965057aff6957b == x + m * (x * k - q * 0xce965057aff6957b);
      Low64Exact(y * b, x, x * k - q * 0xce965057aff6957b);
    } else {
      assert product * 0x100000001b3 == x * (k * m + 1);
      assert y * 0x100000001b3 == x + m * (x * k - q * 0x100000001b3);
      Low64Exact(y * b, x, x * k - q * 0x100000001b3);
    }
  }

  /** Every step is a bijection of the 64-bit state: `Unstep` is its inverse on
      both sides. */
  lemma StepInvertible(h: u64, b: byte)
    ensures Unstep(Step(h, b), b) == h
    ensures Unstep(h, b) < TWO64 && Step(Unstep(h, b), b) == h
  {
    Pow2Is64Bits();
    XorBound(h, b as int, 64);
    MultiplyInverse(Xor(h, b as int));
    XorInvolutive(h, b as int);
    var x := Low64(h * PRIME_INVERSE);
    XorBound(x, b as int, 64);
    XorInvolutive(x, b as int);
    MultiplyInverse(h);
  }

  /** From one state, different bytes lead to different states. */
  lemma StepSeparatesBytes(h: u64, a: byte, b: byte)
    requires Step(h, a) == Step(h, b)
    ensures a == b
  {
    Pow2Is64Bits();
    XorBound(h, a as int, 64);
    XorBound(h, b as int, 64);
    MultiplyInverse(Xor(h, a as int));
    MultiplyInverse(Xor(h, b as int));
    XorInvolutive(a as int, h);
    XorInvolutive(b as int, h);
    XorCommutes(h, a as int);
    XorCommutes(h, b as int);
  }

  lemma {:induction false} XorCommutes(a: nat, b: nat)
    ensures Xor(a, b) == Xor(b, a)
    decreases a + b
  {
    if a != 0 || b != 0 { XorCommutes(a / 2, b / 2); }
  }

  function FnvFrom(h: u64, bytes: Bytes): u64 {
    if bytes == [] then h else Step(FnvFrom(h, bytes[..|bytes| - 1]), bytes[|bytes| - 1])
  }

  function HashHex(bytes: Bytes): Bytes {
    Hex.Padded(FnvFrom(OFFSET, bytes), 16)
  }

  lemma {:induction false} FnvConcat(h: u64, p: Bytes, s: Bytes)
    ensures FnvFrom(h, p + s) == FnvFrom(FnvFrom(h, p), s)
  {
    if s == [] {
      assert p + s == p;
    } else {
      assert (p + s)[..|p + s| - 1] == p + s[..|s| - 1];
      FnvConcat(h, p, s[..|s| - 1]);
    }
  }

  lemma {:induction false} SuffixInjective(g: u64, h: u64, s: Bytes)
    requires FnvFrom(g, s) == FnvFrom(h, s)
    ensures g == h
  {
    if s != [] {
      var p, b := s[..|s| - 1], s[|s| - 1];
      StepInvertible(FnvFrom(g, p), b);
      StepInvertible(FnvFrom(h, p), b);
      SuffixInjective(g, h, p);
    }
  }

  /** Inputs of equal length that differ in exactly one byte have different
      hashes, hence different hexadecimal forms. */
  lemma OneByteSeparation(x: Bytes, y: Bytes, i: nat)
    requires |x| == |y| && i < |x| && x[i] != y[i]
    requires forall j :: 0 <= j < |x| && j != i ==> x[j] == y[j]
    ensures HashHex(x) != HashHex(y)
  {
    var p, s := x[..i], x[i + 1..];
    assert y[..i] == p && y[i + 1..] == s;
    assert x == (p + [x[i]]) + s && y == (p + [y[i]]) + s;
    if HashHex(x) == HashHex(y) {
      Pow2Is64Bits();
      Hex.PaddedInjective(FnvFrom(OFFSET, x), FnvFrom(OFFSET, y), 16);
      FnvConcat(OFFSET, p + [x[i]], s);
      FnvConcat(OFFSET, p + [y[i]], s);
      SuffixInjective(FnvFrom(OFFSET, p + [x[i]]), FnvFrom(OFFSET, p + [y[i]]), s);
      assert (p + [x[i]])[..i] == p && (p + [y[i]])[..i] == p;
      StepSeparatesBytes(FnvFrom(OFFSET, p), x[i], y[i]);
    }
  }

  /** The published hashes of the empty text and of "a". */
  lemma KnownHashes()
    ensures FnvFrom(OFFSET, []) == 0xcbf29ce484222325
    ensures FnvFrom(OFFSET, "a") == 0xaf63dc4c8601ec8c
  {
    XorWithA();
    Init([], 'a');
    assert ([] + ['a']) == "a";
  }

  lemma XorWithA()
    ensures Xor(0xcbf29ce484222325, 97) == 0xcbf29ce484222344
  {
    XorZero(0x197e539c9084446);
    assert Xor(0x32fca739210888c, 1) == 0x32fca739210888d;
    assert Xor(0x65f94e724211119, 3) == 0x65f94e72421111a;
    assert Xor(0xcbf29ce48422232, 6) == 0xcbf29ce48422234;
    assert Xor(0x197e539c90844464, 12) == 0x197e539c90844468;
    assert Xor(0x32fca739210888c9, 24) == 0x32fca739210888d1;
    assert Xor(0x65f94e7242111192, 48) == 0x65f94e72421111a2;
  }

  /** The printed hash shows every digit of the 64-bit state, the last one last. */
  lemma HashDigits(bytes: Bytes, i: nat)
    requires i < 16
    ensures |HashHex(bytes)| == 16
    ensures HashHex(bytes)[15 - i] == "0123456789abcdef"[Hex.Shift16(FnvFrom(OFFSET, bytes), i) % 16]
  {
    Hex.PaddedDigits(FnvFrom(OFFSET, bytes), 16, i);
  }

  method Fnv64Hex(bytes: Bytes) returns (out: Bytes)
    ensures out == HashHex(bytes)
  {
    var hash := OFFSET;
    for i := 0 to |bytes|
      invariant hash == FnvFrom(OFFSET, bytes[..i])
    {
      hash := Step(hash, bytes[i]);
      assert bytes[..i + 1][..i] == bytes[..i];
    }
    assert bytes[..|bytes|] == bytes;
    out := Hex.Padded(hash, 16);
  }

  const SALTS: seq<byte> := "0123"

  /** The four 16-character blocks come from the four salted inputs, and no two
      of them are equal, whatever the input. */
  method PseudoSha256Hex(bytes: Bytes) returns (out: Bytes)
    ensures |out| == 64
    ensures SALTS == "0123"
    ensures forall i :: 0 <= i < 4 ==> out[16 * i..16 * i + 16] == HashHex([SALTS[i]] + bytes)
    ensures forall i, j :: 0 <= i < j < 4 ==> out[16 * i..16 * i + 16] != out[16 * j..16 * j + 16]
  {
    out := [];
    for k := 0 to 4
      invariant |out| == 16 * k
      invariant forall i :: 0 <= i < k ==> out[16 * i..16 * i + 16] == HashHex([SALTS[i]] + bytes)
    {
      var payload := [SALTS[k]] + bytes;
      var block := Fnv64Hex(payload);
      ghost var before := out;
      out := out + block;
      forall i | 0 <= i < k + 1
        ensures out[16 * i..16 * i + 16] == HashHex([SALTS[i]] + bytes)
      {
        if i < k { assert out[16 * i..16 * i + 16] == before[16 * i..16 * i + 16]; }
      }
    }
    forall i, j | 0 <= i < j < 4
      ensures out[16 * i..16 * i + 16] != out[16 * j..16 * j + 16]
    {
      OneByteSeparation([SALTS[i]] + bytes, [SALTS[j]] + bytes, 0);
    }
  }
}
