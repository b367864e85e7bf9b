/**
 * A metric (a name and its labels), its canonical rendering
 * `name{labels}` and its fingerprint, the 64-bit FNV-1a hash of that
 * rendering.
 */
module Metrics {
  import opened Primitives
  import opened Labels

  const OpenBrace: byte := 123   // '{'
  const CloseBrace: byte := 125  // '}'

  /** FNV-1a 64-bit offset basis and prime. */
  const FnvOffset64: uint64 := 14695981039346656037
  const FnvPrime64: uint64 := 1099511628211

  datatype Metric = Metric(name: seq<byte>, labels: seq<Label>)

  /** Metric.String: `name{` then the canonical labels then `}`. */
  function Render(m: Metric): (r: seq<byte>)
    ensures |r| == |m.name| + |Canonical(m.labels)| + 2
    ensures r[..|m.name|] == m.name
    ensures r[|m.name|] == OpenBrace && r[|r| - 1] == CloseBrace
    ensures r[|m.name| + 1..|r| - 1] == Canonical(m.labels)
  {
    m.name + [OpenBrace] + Canonical(m.labels) + [CloseBrace]
  }

  /** The inverse of FnvPrime64 modulo 2^64 (the prime is odd, so it has one). */
  const FnvPrimeInverse64: uint64 := 14886173955864302971

  /** Multiplying by the prime and then by its inverse, modulo 2^64, gives x back. */
  lemma MulPrimeInverse(x: int, p: int, q: int)
    requires 0 <= x < TwoTo64
    requires (p == FnvPrime64 && q == FnvPrimeInverse64) || (p == FnvPrimeInverse64 && q == FnvPrime64)
    ensures ((x * p) % TwoTo64 * q) % TwoTo64 == x
  {
    var k := (x * p) / TwoTo64;
    var y := (x * p) % TwoTo64;
    assert x * p == k * TwoTo64 + y;
    assert p * q == 1 + 887285111055 * TwoTo64;
    calc {
      y * q;
      (x * p - k * TwoTo64) * q;
      x * (p * q) - k * q * TwoTo64;
      x + (x * 887285111055 - k * q) * TwoTo64;
    }
  }

  function Pow2(n: nat): nat {
    if n == 0 then 1 else 2 * Pow2(n - 1)
  }

  /** Bitwise exclusive or of two naturals, lowest bit first. */
  function XorBits(a: nat, b: nat): nat
    decreases a + b
  {
    if a == 0 && b == 0 then 0 else (a % 2 + b % 2) % 2 + 2 * XorBits(a / 2, b / 2)
  }

  /** The exclusive or of two n-bit numbers has n bits. */
  lemma {:induction false} XorBitsBound(a: nat, b: nat, n: nat)
    requires a < Pow2(n) && b < Pow2(n)
    ensures XorBits(a, b) < Pow2(n)
    decreases n
  {
    if n > 0 && (a > 0 || b > 0) {
      XorBitsBound(a / 2, b / 2, n - 1);
    }
  }

  /** One bit of exclusive or, applied twice. */
  lemma XorBitTwice(x: nat, y: nat)
    requires x < 2 && y < 2
    ensures ((x + y) % 2 + y) % 2 == x
  {
  }

  /** The recursive step of XorBits, including at zero. */
  lemma XorBitsStep(a: nat, b: nat)
    ensures XorBits(a, b) == (a % 2 + b % 2) % 2 + 2 * XorBits(a / 2, b / 2)
  {
  }

  /** Xoring b in twice gives a back. */
  lemma {:induction false} XorBitsTwice(a: nat, b: nat)
    ensures XorBits(XorBits(a, b), b) == a
    decreases a + b
  {
    if a > 0 || b > 0 {
      var bit := (a % 2 + b % 2) % 2;
      var rest := XorBits(a / 2, b / 2);
      var r := XorBits(a, b);
      XorBitsStep(a, b);
      assert r % 2 == bit && r / 2 == rest;
      XorBitsStep(r, b);
      XorBitsTwice(a / 2, b / 2);
      XorBitTwice(a % 2, b % 2);
    }
  }

  /** Go's `a ^ b` on two bytes. */
  function XorByte(a: byte, b: byte): byte {
    assert Pow2(8) == 256;
    XorBitsBound(a, b, 8);
    XorBits(a, b)
  }

  /**
   * Go's `h ^ uint64(b)`: the byte only meets the low eight bits of the
   * state, so the higher bits are kept and the low byte is xored.
   */
  function Xor(h: uint64, b: byte): uint64 {
    (h / 256) * 256 + XorByte(h % 256, b)
  }

  /** Xoring the same byte twice gives the state back. */
  lemma XorTwice(h: uint64, b: byte)
    ensures Xor(Xor(h, b), b) == h
  {
    var k := h / 256;
    var c := XorByte(h % 256, b);
    var x := k * 256 + c;
    assert x / 256 == k && x % 256 == c;
    XorBitsTwice(h % 256, b);
  }

  /** One FNV-1a round: xor the byte into the low bits, multiply modulo 2^64. */
  function FnvStep(h: uint64, b: byte): (r: uint64)
    ensures FnvUnstep(r, b) == h
  {
    MulPrimeInverse(Xor(h, b), FnvPrime64, FnvPrimeInverse64);
    XorTwice(h, b);
    (Xor(h, b) * FnvPrime64) % TwoTo64
  }

  /** A round undone: multiply by the inverse prime, then xor the byte out again. */
  function FnvUnstep(r: uint64, b: byte): uint64 {
    Xor((r * FnvPrimeInverse64) % TwoTo64, b)
  }

  /** Undoing a round and redoing it gives the state back: each round is a bijection. */
  lemma FnvRedo(r: uint64, b: byte)
    ensures FnvStep(FnvUnstep(r, b), b) == r
  {
    var y := (r * FnvPrimeInverse64) % TwoTo64;
    XorTwice(y, b);
    MulPrimeInverse(r, FnvPrimeInverse64, FnvPrime64);
  }

  /** The FNV-1a state after writing the bytes of data, in order, from state h. */
  function Fnv1a(h: uint64, data: seq<byte>): (r: uint64)
    ensures FnvUndo(r, data) == h
    decreases |data|
  {
    if data == [] then h else Fnv1a(FnvStep(h, data[0]), data[1..])
  }

  /** The state before data was written, recovered from the state after it. */
  function FnvUndo(r: uint64, data: seq<byte>): uint64
    decreases |data|
  {
    if data == [] then r else FnvUnstep(FnvUndo(r, data[1..]), data[0])
  }

  /** Redoing the rounds of data from the undone state gives r back. */
  lemma {:induction false} FnvUndoRedo(r: uint64, data: seq<byte>)
    ensures Fnv1a(FnvUndo(r, data), data) == r
    decreases |data|
  {
    if data != [] {
      FnvRedo(FnvUndo(r, data[1..]), data[0]);
      FnvUndoRedo(r, data[1..]);
    }
  }

  /** Hashing the same bytes from two different states never collides. */
  lemma FnvStatesDiffer(h1: uint64, h2: uint64, data: seq<byte>)
    requires h1 != h2
    ensures Fnv1a(h1, data) != Fnv1a(h2, data)
  {
  }

  /**
   * Metric.Fingerprint: the FNV-1a 64 hash of the rendering, so undoing the
   * rendering's rounds from the fingerprint leads back to the offset basis.
   */
  function Fingerprint(m: Metric): (r: uint64)
    ensures FnvUndo(r, Render(m)) == FnvOffset64
  {
    Fnv1a(FnvOffset64, Render(m))
  }

  /** The low byte of the offset basis, 0x25, xored with `a` (97) is 0x44. */
  lemma XorBitsOfOffsetAndA()
    ensures XorBits(37, 97) == 68
  {
    assert XorBits(0, 1) == 1;
    assert XorBits(1, 3) == 2;
    assert XorBits(2, 6) == 4;
    assert XorBits(4, 12) == 8;
    assert XorBits(9, 24) == 17;
    assert XorBits(18, 48) == 34;
  }

  /** The offset basis xored with `a`: only the low byte changes, from 0x25 to 0x44. */
  lemma XorOfOffsetAndA()
    ensures Xor(FnvOffset64, 97) == 0xcbf29ce484222344
  {
    assert FnvOffset64 % 256 == 37 && FnvOffset64 / 256 * 256 == 0xcbf29ce484222300;
    XorBitsOfOffsetAndA();
    assert XorByte(37, 97) == 68;
  }

  /**
   * Known answer of FNV-1a 64: the hash of the one-byte string "a" is
   * 0xaf63dc4c8601ec8c.
   */
  lemma FnvOfA()
    ensures Fnv1a(FnvOffset64, [97]) == 0xaf63dc4c8601ec8c
  {
    XorOfOffsetAndA();
    var x := Xor(FnvOffset64, 97);
    assert x * FnvPrime64 == 0xcbf29ce484222344 * 1099511628211;
    assert FnvStep(FnvOffset64, 97) == 0xaf63dc4c8601ec8c;
    assert [97][1..] == [];
  }

  /** Writing a + b hashes a first, then continues from that state with b. */
  lemma {:induction false} FnvConcat(h: uint64, a: seq<byte>, b: seq<byte>)
    ensures Fnv1a(h, a + b) == Fnv1a(Fnv1a(h, a), b)
    decreases |a|
  {
    if a != [] {
      assert (a + b)[1..] == a[1..] + b;
      assert (a + b)[0] == a[0];
      FnvConcat(FnvStep(h, a[0]), a[1..], b);
    } else {
      assert a + b == b;
    }
  }

  /** The hash is a left fold: the last byte is the last round. */
  lemma FnvSnoc(h: uint64, a: seq<byte>, c: byte)
    ensures Fnv1a(h, a + [c]) == FnvStep(Fnv1a(h, a), c)
  {
    FnvConcat(h, a, [c]);
    assert [c][1..] == [];
  }

  /** Equal names and label multisets render, and so hash, the same. */
  lemma FingerprintPermutationInvariant(m1: Metric, m2: Metric)
    requires m1.name == m2.name && multiset(m1.labels) == multiset(m2.labels)
    ensures Render(m1) == Render(m2)
    ensures Fingerprint(m1) == Fingerprint(m2)
  {
    CanonicalPermutationInvariant(m1.labels, m2.labels);
  }

  /**
   * Two metrics of one name whose labels differ only in the value of the
   * label that sorts last render differently.
   */
  lemma RenderSeparatesValues(n: seq<byte>, h: Label, r1: Label, r2: Label)
    requires BytesLess(h.name, r1.name) && r1.name == r2.name && r1.value != r2.value
    ensures Render(Metric(n, [r1, h])) != Render(Metric(n, [r2, h]))
  {
    StringOrdersByName(h, r1);
    StringOrdersByName(h, r2);
    var p := Pair(h) + [Comma];
    assert Pair(r1)[|r1.name| + 1..] == r1.value;
    assert Pair(r2)[|r2.name| + 1..] == r2.value;
    assert (p + Pair(r1))[|p|..] == Pair(r1);
    assert (p + Pair(r2))[|p|..] == Pair(r2);
    assert Canonical([r1, h]) != Canonical([r2, h]);
  }

  /** The cases of metric_test.go: two labels given in order, and no labels. */
  lemma RenderOfTestMetric(m: Metric, h: Label, r: Label)
    requires h == Label(Ascii("host"), Ascii("A")) && r == Label(Ascii("region"), Ascii("us"))
    requires m == Metric(Ascii("cpu_total"), [h, r])
    ensures Render(m) == Ascii("cpu_total") + Ascii("{") + Ascii("host=A,region=us") + Ascii("}")
  {
    StringOfTwoLabelsInOrder(h, r);
    assert Ascii("{") == [OpenBrace] && Ascii("}") == [CloseBrace];
  }

  lemma RenderOfEmptyLabels(m: Metric)
    requires m == Metric(Ascii("cpu_total"), [])
    ensures Render(m) == Ascii("cpu_total") + Ascii("{}")
  {
    StringOfEmptyAndSingle();
    assert Ascii("{}") == [OpenBrace, CloseBrace];
  }

  /** The near-miss pair of metric_test.go renders differently. */
  lemma RenderOfNearMissPair(h: Label, tw: Label, en: Label)
    requires h == Label(Ascii("host"), Ascii("A"))
    requires tw == Label(Ascii("region"), Ascii("tw")) && en == Label(Ascii("region"), Ascii("en"))
    ensures Render(Metric(Ascii("cpu_total"), [tw, h])) != Render(Metric(Ascii("cpu_total"), [en, h]))
  {
    assert BytesLess(h.name, tw.name);
    assert tw.value[0] != en.value[0];
    RenderSeparatesValues(Ascii("cpu_total"), h, tw, en);
  }
}
