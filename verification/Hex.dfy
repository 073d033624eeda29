/** The hexadecimal codec of `src/types.rs`; section 8 of RFC 4648. */
module Hex {
  import opened Octets

  type nibble = n: int | 0 <= n < 16

  /** One lower-case hexadecimal digit. */
  function Digit(n: nibble): byte {
    if n < 10 then (48 + n) as char else (87 + n) as char
  }

  /** `char::to_digit(16)`: both cases are accepted. */
  function DigitValue(c: byte): Option<nibble> {
    if '0' <= c <= '9' then Some(c as int - 48)
    else if 'a' <= c <= 'f' then Some(c as int - 87)
    else if 'A' <= c <= 'F' then Some(c as int - 55)
    else None
  }

  function Lower(c: byte): byte {
    if 'A' <= c <= 'Z' then (c as int + 32) as char else c
  }

  /** `to_ascii_lowercase`. */
  function ToLower(s: Bytes): (r: Bytes)
    ensures |r| == |s|
  {
    seq(|s|, i requires 0 <= i < |s| => Lower(s[i]))
  }

  function Encode(bs: Bytes): (r: Bytes)
    ensures |r| == 2 * |bs|
    ensures forall c :: c in r ==> '0' <= c <= '9' || 'a' <= c <= 'f'
  {
    if bs == [] then []
    else
      var b := bs[|bs| - 1] as int;
      Encode(bs[..|bs| - 1]) + [Digit(b / 16), Digit(b % 16)]
  }

  function Decode(s: Bytes): Option<Bytes> {
    if |s| % 2 != 0 then None
    else if s == [] then Some([])
    else
      var init :- Decode(s[..|s| - 2]);
      var hi: int :- DigitValue(s[|s| - 2]);
      var lo: int :- DigitValue(s[|s| - 1]);
      Some(init + [(16 * hi + lo) as char])
  }

  const LOWER: Bytes := "0123456789abcdef"

  /** The digit printed for each value. */
  lemma DigitTable(n: nibble)
    ensures Digit(n) == "0123456789abcdef"[n]
  {
  }

  /** The two digits of every octet, high before low. */
  lemma {:induction false} EncodeDigits(bs: Bytes, i: nat)
    requires i < |bs|
    ensures Encode(bs)[2 * i] == LOWER[bs[i] as int / 16]
    ensures Encode(bs)[2 * i + 1] == LOWER[bs[i] as int % 16]
  {
    hide Digit;
    var p, b := bs[..|bs| - 1], bs[|bs| - 1] as int;
    if i < |p| {
      EncodeDigits(p, i);
      assert Encode(bs)[..|Encode(p)|] == Encode(p);
    } else {
      DigitTable(b / 16);
      DigitTable(b % 16);
    }
  }

  predicate WellFormed(s: Bytes) {
    |s| % 2 == 0 &&
    forall i :: 0 <= i < |s| ==> '0' <= s[i] <= '9' || 'a' <= s[i] <= 'f' || 'A' <= s[i] <= 'F'
  }

  lemma DigitRoundTrip(n: nibble)
    ensures DigitValue(Digit(n)) == Some(n)
  {
  }

  lemma {:induction false} DecodeEncode(bs: Bytes)
    ensures Decode(Encode(bs)) == Some(bs)
  {
    hide Digit, DigitValue;
    if bs != [] {
      var p, b := bs[..|bs| - 1], bs[|bs| - 1] as int;
      DecodeEncode(p);
      DigitRoundTrip(b / 16);
      DigitRoundTrip(b % 16);
      assert Encode(bs)[..|Encode(bs)| - 2] == Encode(p);
      Snoc(bs);
    }
  }

  lemma EncodeInjective(a: Bytes, b: Bytes)
    requires Encode(a) == Encode(b)
    ensures a == b
  {
    DecodeEncode(a);
    DecodeEncode(b);
  }

  lemma DigitIsLower(c: byte)
    requires DigitValue(c).Some?
    ensures Digit(DigitValue(c).value) == Lower(c)
  {
  }

  lemma ToLowerPair(s: Bytes)
    requires |s| >= 2
    ensures ToLower(s) == ToLower(s[..|s| - 2]) + [Lower(s[|s| - 2]), Lower(s[|s| - 1])]
  {
  }

  lemma {:induction false} EncodeDecode(s: Bytes)
    requires Decode(s).Some?
    ensures Encode(Decode(s).value) == ToLower(s)
  {
    hide DigitValue, Digit, Lower, ToLower;
    if s != [] {
      var hi, lo := DigitValue(s[|s| - 2]), DigitValue(s[|s| - 1]);
      EncodeDecode(s[..|s| - 2]);
      var h: int, l: int := hi.value, lo.value;
      Init(Decode(s[..|s| - 2]).value, (16 * h + l) as char);
      DigitIsLower(s[|s| - 2]);
      DigitIsLower(s[|s| - 1]);
      ToLowerPair(s);
    } else {
      assert ToLower([]) == [];
    }
  }

  /** Decoding succeeds exactly on the even-length strings of hex digits. */
  lemma {:induction false} DecodeDomain(s: Bytes)
    ensures Decode(s).Some? <==> WellFormed(s)
    ensures Decode(s).Some? ==> 2 * |Decode(s).value| == |s|
  {
    if |s| % 2 == 0 && s != [] {
      var p := s[..|s| - 2];
      DecodeDomain(p);
      assert forall i :: 0 <= i < |p| ==> p[i] == s[i];
    }
  }

  method HexEncode(bytes: Bytes) returns (out: Bytes)
    ensures out == Encode(bytes)
  {
    out := [];
    for i := 0 to |bytes|
      invariant out == Encode(bytes[..i])
    {
      var b := bytes[i] as int;
      out := out + [Digit(b / 16), Digit(b % 16)];
      assert bytes[..i + 1][..i] == bytes[..i];
    }
    assert bytes[..|bytes|] == bytes;
  }

  method HexDecode(value: Bytes) returns (r: Option<Bytes>)
    ensures r == Decode(value)
  {
    if |value| % 2 != 0 { return None; }
    var out := [];
    var i := 0;
    while i < |value|
      invariant 0 <= i <= |value| && i % 2 == 0
      invariant Decode(value[..i]) == Some(out)
    {
      var hi, lo := DigitValue(value[i]), DigitValue(value[i + 1]);
      if hi.None? || lo.None? {
        DecodeDomain(value);
        return None;
      }
      var h: int, l: int := hi.value, lo.value;
      out := out + [(16 * h + l) as char];
      assert value[..i + 2][..i] == value[..i];
      i := i + 2;
    }
    assert value[..|value|] == value;
    r := Some(out);
  }

  // ---- Fixed-width numerals (`{:016x}`) -----------------------------------

  /** The last `k` hexadecimal digits of `n`, padded with zeros. */
  function Padded(n: nat, k: nat): (r: Bytes)
    ensures |r| == k
  {
    if k == 0 then [] else Padded(n / 16, k - 1) + [Digit(n % 16)]
  }

  function Pow16(k: nat): nat {
    if k == 0 then 1 else 16 * Pow16(k - 1)
  }

  /** What is left of `n` without its last `i` hexadecimal digits. */
  function Shift16(n: nat, i: nat): nat {
    if i == 0 then n else Shift16(n / 16, i - 1)
  }

  /** Counted from the right, each character is the hexadecimal digit of its
      place. */
  lemma {:induction false} PaddedDigits(n: nat, k: nat, i: nat)
    requires i < k
    ensures Padded(n, k)[k - 1 - i] == LOWER[Shift16(n, i) % 16]
  {
    hide Digit;
    if i == 0 {
      DigitTable(n % 16);
    } else {
      PaddedDigits(n / 16, k - 1, i - 1);
      assert Padded(n, k)[..k - 1] == Padded(n / 16, k - 1);
    }
  }

  lemma {:induction false} PaddedInjective(m: nat, n: nat, k: nat)
    requires m < Pow16(k) && n < Pow16(k)
    requires Padded(m, k) == Padded(n, k)
    ensures m == n
  {
    if k > 0 {
      assert Padded(m, k)[..k - 1] == Padded(m / 16, k - 1);
      assert Padded(n, k)[..k - 1] == Padded(n / 16, k - 1);
      assert Padded(m, k)[k - 1] == Padded(n, k)[k - 1];
      PaddedInjective(m / 16, n / 16, k - 1);
    }
  }
}
