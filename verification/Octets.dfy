/**
 * Octet strings, machine integers and the text primitives shared by every
 * canonical encoding of the crate.
 *
 * A Rust `String` is its UTF-8 octets, so text and binary data have the same
 * type here and `as_bytes` is the identity.  An octet is a character below
 * U+0100, which lets ASCII literals be written as Dafny string literals.
 */
module Octets {

  type byte = c: char | c as int < 256
  type Bytes = seq<byte>

  const TWO32: int := 0x1_0000_0000
  const TWO64: int := 0x1_0000_0000_0000_0000

  type u16 = n: int | 0 <= n < 0x1_0000
  type u32 = n: int | 0 <= n < TWO32
  type u64 = n: int | 0 <= n < TWO64

  datatype Option<+T> = None | Some(value: T) {
    predicate IsFailure() { None? }
    function PropagateFailure<U>(): Option<U> requires None? { None }
    function Extract(): T requires Some? { value }
  }

  lemma Snoc<T>(s: seq<T>)
    requires s != []
    ensures s == s[..|s| - 1] + [s[|s| - 1]]
  {
  }

  lemma Init<T>(s: seq<T>, x: T)
    ensures (s + [x])[..|s|] == s
  {
  }

  // ---- Cutting a text at a delimiter -------------------------------------

  /** The part of `s` before the first `d` (all of `s` when there is none). */
  function Before(d: byte, s: Bytes): Bytes {
    if s == [] || s[0] == d then [] else [s[0]] + Before(d, s[1..])
  }

  /** The part of `s` after the first `d`. */
  function After(d: byte, s: Bytes): (r: Bytes)
    ensures s != [] ==> |r| < |s|
  {
    if s == [] then [] else if s[0] == d then s[1..] else After(d, s[1..])
  }

  /** The part of `s` before the last `d`. */
  function BeforeLast(d: byte, s: Bytes): Bytes {
    if s == [] then []
    else if s[|s| - 1] == d then s[..|s| - 1]
    else BeforeLast(d, s[..|s| - 1])
  }

  /** The part of `s` after the last `d` (all of `s` when there is none). */
  function AfterLast(d: byte, s: Bytes): Bytes {
    if s == [] || s[|s| - 1] == d then [] else AfterLast(d, s[..|s| - 1]) + [s[|s| - 1]]
  }

  lemma {:induction false} CutFirst(d: byte, a: Bytes, x: Bytes)
    requires d !in a
    ensures Before(d, a + [d] + x) == a
    ensures After(d, a + [d] + x) == x
  {
    var s := a + [d] + x;
    if a == [] {
      assert s[1..] == x;
    } else {
      assert s[1..] == a[1..] + [d] + x;
      CutFirst(d, a[1..], x);
    }
  }

  lemma {:induction false} CutLast(d: byte, x: Bytes, a: Bytes)
    requires d !in a
    ensures BeforeLast(d, x + [d] + a) == x
    ensures AfterLast(d, x + [d] + a) == a
  {
    var s := x + [d] + a;
    if a == [] {
      assert s[..|s| - 1] == x;
    } else {
      var n := |a| - 1;
      assert s[..|s| - 1] == x + [d] + a[..n];
      CutLast(d, x, a[..n]);
    }
  }

  /** A text that holds the delimiter is put together from its two parts. */
  lemma {:induction false} Rejoin(d: byte, s: Bytes)
    requires d in s
    ensures s == Before(d, s) + [d] + After(d, s)
  {
    if s[0] != d {
      Rejoin(d, s[1..]);
      assert s == [s[0]] + s[1..];
    }
  }

  /** A delimiter absent from both heads makes the split unambiguous. */
  lemma SplitFirst(d: byte, a: Bytes, x: Bytes, b: Bytes, y: Bytes)
    requires d !in a && d !in b
    requires a + [d] + x == b + [d] + y
    ensures a == b && x == y
  {
    CutFirst(d, a, x);
    CutFirst(d, b, y);
  }

  /** A delimiter absent from both tails makes the split unambiguous. */
  lemma SplitLast(d: byte, x: Bytes, a: Bytes, y: Bytes, b: Bytes)
    requires d !in a && d !in b
    requires x + [d] + a == y + [d] + b
    ensures a == b && x == y
  {
    CutLast(d, x, a);
    CutLast(d, y, b);
  }

  // ---- Decimal printing ---------------------------------------------------

  /** `n.to_string()` for an unsigned integer. */
  function Decimal(n: nat): (r: Bytes)
    ensures r != []
    ensures forall c :: c in r ==> '0' <= c <= '9'
  {
    var digit: byte := (n % 10 + 48) as char;
    if n < 10 then [digit] else Decimal(n / 10) + [digit]
  }

  /** The number a digit string denotes, read left to right. */
  function DecimalValue(s: Bytes): int {
    if s == [] then 0 else 10 * DecimalValue(s[..|s| - 1]) + (s[|s| - 1] as int - 48)
  }

  lemma {:induction false} DecimalRoundTrip(n: nat)
    ensures DecimalValue(Decimal(n)) == n
  {
    if n < 10 {
      assert Decimal(n)[..0] == [];
    } else {
      assert Decimal(n)[..|Decimal(n)| - 1] == Decimal(n / 10);
      DecimalRoundTrip(n / 10);
    }
  }

  /** What is left of `n` without its last `i` decimal digits. */
  function Shift10(n: nat, i: nat): nat {
    if i == 0 then n else Shift10(n / 10, i - 1)
  }

  /** Counted from the right, each character is the decimal digit of its place,
      and the first is not a zero unless it is alone. */
  lemma {:induction false} DecimalDigits(n: nat, i: nat)
    requires i < |Decimal(n)|
    ensures Decimal(n)[|Decimal(n)| - 1 - i] as int == '0' as int + Shift10(n, i) % 10
    ensures |Decimal(n)| > 1 ==> Decimal(n)[0] != '0'
  {
    if n >= 10 {
      var q := Decimal(n / 10);
      assert Decimal(n)[..|q|] == q;
      assert Decimal(n)[0] == q[0];
      DecimalDigits(n / 10, if i > 0 then i - 1 else 0);
      FirstDigit(n / 10);
    }
  }

  lemma FirstDigit(n: nat)
    requires n > 0
    ensures |Decimal(n)| == 1 ==> Decimal(n)[0] != '0'
  {
  }

  lemma DecimalInjective(m: nat, n: nat)
    requires Decimal(m) == Decimal(n)
    ensures m == n
  {
    DecimalRoundTrip(m);
    DecimalRoundTrip(n);
  }

  // ---- Orders: of tier ids, and of texts (`Ord` of `str`) -----------------

  predicate TierOrder(a: u16, b: u16) { a <= b }

  predicate LexLeq(a: Bytes, b: Bytes) {
    a == [] || (b != [] && (a[0] < b[0] || (a[0] == b[0] && LexLeq(a[1..], b[1..]))))
  }

  lemma {:induction false} LexTotal(a: Bytes, b: Bytes)
    ensures LexLeq(a, b) || LexLeq(b, a)
    ensures LexLeq(a, b) && LexLeq(b, a) ==> a == b
  {
    if a != [] && b != [] && a[0] == b[0] {
      LexTotal(a[1..], b[1..]);
      assert a == [a[0]] + a[1..] && b == [b[0]] + b[1..];
    }
  }

  /** `a` is a prefix of `b`, or has the smaller octet where they first differ. */
  ghost predicate Precedes(a: Bytes, b: Bytes) {
    a <= b || exists i :: 0 <= i < |a| && i < |b| && a[..i] == b[..i] && a[i] < b[i]
  }

  /** The order compares octet by octet, upwards. */
  lemma {:induction false} LexIsOctetOrder(a: Bytes, b: Bytes)
    ensures LexLeq(a, b) <==> Precedes(a, b)
  {
    assert forall i :: 0 < i <= |a| && i <= |b| ==> a[..i][0] == a[0] && b[..i][0] == b[0];
    if a == [] {
      assert a <= b;
    } else if b != [] && a[0] == b[0] {
      LexIsOctetOrder(a[1..], b[1..]);
      if Precedes(a[1..], b[1..]) { PrecedesCons(a, b); }
      if Precedes(a, b) { PrecedesTail(a, b); }
    } else if b != [] && a[0] < b[0] {
      assert a[..0] == b[..0];
    }
  }

  lemma PrecedesCons(a: Bytes, b: Bytes)
    requires a != [] && b != [] && a[0] == b[0] && Precedes(a[1..], b[1..])
    ensures Precedes(a, b)
  {
    assert a == [a[0]] + a[1..] && b == [b[0]] + b[1..];
    if !(a[1..] <= b[1..]) {
      var i :| 0 <= i < |a[1..]| && i < |b[1..]| && a[1..][..i] == b[1..][..i] && a[1..][i] < b[1..][i];
      assert a[..i + 1] == [a[0]] + a[1..][..i] && b[..i + 1] == [b[0]] + b[1..][..i];
      assert a[i + 1] < b[i + 1];
    }
  }

  lemma PrecedesTail(a: Bytes, b: Bytes)
    requires a != [] && b != [] && a[0] == b[0] && Precedes(a, b)
    ensures Precedes(a[1..], b[1..])
  {
    if a <= b {
      assert a[1..] <= b[1..];
    } else {
      var i :| 0 <= i < |a| && i < |b| && a[..i] == b[..i] && a[i] < b[i];
      assert a[1..][..i - 1] == a[..i][1..] && b[1..][..i - 1] == b[..i][1..];
      assert a[1..][i - 1] < b[1..][i - 1];
    }
  }

  lemma {:induction false} LexTransitive(a: Bytes, b: Bytes, c: Bytes)
    requires LexLeq(a, b) && LexLeq(b, c)
    ensures LexLeq(a, c)
  {
    if a != [] && a[0] == b[0] == c[0] {
      LexTransitive(a[1..], b[1..], c[1..]);
    }
  }
}
