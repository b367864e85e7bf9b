/**
 * Fixed-width integers and Go byte strings.
 *
 * Go strings are immutable byte sequences and `<` on them compares bytes
 * lexicographically, so a Go string is modelled as `seq<byte>` and its order
 * as `BytesLess`.
 */
module Primitives {

  const TwoTo8: int := 0x100
  const TwoTo63: int := 0x8000_0000_0000_0000
  const TwoTo64: int := 0x1_0000_0000_0000_0000

  type byte = b: int | 0 <= b < TwoTo8
  type uint64 = x: int | 0 <= x < TwoTo64
  type int64 = x: int | -TwoTo63 <= x < TwoTo63

  /** Go's two's-complement wrap-around of an int64 result. */
  function WrapInt64(x: int): (r: int64)
    ensures -TwoTo63 <= x < TwoTo63 ==> r == x
    ensures (r - x) % TwoTo64 == 0
  {
    (x + TwoTo63) % TwoTo64 - TwoTo63
  }

  /** Go's `a - b` on int64 operands. */
  function SubInt64(a: int64, b: int64): (r: int64)
    ensures -TwoTo63 <= a - b < TwoTo63 ==> r == a - b
    ensures a - b < -TwoTo63 ==> r == a - b + TwoTo64
  {
    WrapInt64(a - b)
  }

  /** The bytes of an ASCII text, for writing byte-string constants. */
  function Ascii(s: string): (r: seq<byte>)
    requires forall i :: 0 <= i < |s| ==> s[i] as int < 128
    ensures |r| == |s|
    ensures forall i :: 0 <= i < |s| ==> r[i] == s[i] as int
  {
    seq(|s|, i requires 0 <= i < |s| => s[i] as int)
  }

  /** Go's `a < b` on strings: byte-wise lexicographic order. */
  predicate BytesLess(a: seq<byte>, b: seq<byte>)
    decreases |a|
  {
    if |a| == 0 then |b| > 0
    else if |b| == 0 then false
    else if a[0] != b[0] then a[0] < b[0]
    else BytesLess(a[1..], b[1..])
  }

  lemma {:induction false} BytesLessIrreflexive(a: seq<byte>)
    ensures !BytesLess(a, a)
    decreases |a|
  {
    if |a| > 0 {
      BytesLessIrreflexive(a[1..]);
    }
  }

  lemma {:induction false} BytesLessTransitive(a: seq<byte>, b: seq<byte>, c: seq<byte>)
    requires BytesLess(a, b) && BytesLess(b, c)
    ensures BytesLess(a, c)
    decreases |a|
  {
    if |a| > 0 && a[0] == b[0] && b[0] == c[0] {
      BytesLessTransitive(a[1..], b[1..], c[1..]);
    }
  }

  /** Distinct byte strings are always ordered one way or the other. */
  lemma {:induction false} BytesLessTotal(a: seq<byte>, b: seq<byte>)
    ensures a == b || BytesLess(a, b) || BytesLess(b, a)
    decreases |a|
  {
    if |a| > 0 && |b| > 0 && a[0] == b[0] {
      BytesLessTotal(a[1..], b[1..]);
      if a[1..] == b[1..] {
        assert a == [a[0]] + a[1..] && b == [b[0]] + b[1..];
      }
    }
  }

  lemma {:induction false} BytesLessAsymmetric(a: seq<byte>, b: seq<byte>)
    requires BytesLess(a, b)
    ensures !BytesLess(b, a)
    decreases |a|
  {
    if |a| > 0 && a[0] == b[0] {
      BytesLessAsymmetric(a[1..], b[1..]);
    }
  }
}
