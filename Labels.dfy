/**
 * Label lists (pkg/model/label.go): the (Name, Value) order, the sorted copy
 * and the canonical `name=value,...` rendering that metric fingerprints hash.
 */
module Labels {
  import opened Primitives

  const Comma: byte := 44   // ','
  const Equals: byte := 61  // '='

  datatype Label = Label(name: seq<byte>, value: seq<byte>)

  /** Labels.Less: by name, and by value when the names are equal. */
  predicate Less(x: Label, y: Label) {
    if x.name != y.name then BytesLess(x.name, y.name) else BytesLess(x.value, y.value)
  }

  lemma LessIrreflexive(x: Label)
    ensures !Less(x, x)
  {
    BytesLessIrreflexive(x.value);
  }

  lemma LessAsymmetric(x: Label, y: Label)
    requires Less(x, y)
    ensures !Less(y, x)
  {
    if x.name != y.name {
      BytesLessAsymmetric(x.name, y.name);
    } else {
      BytesLessAsymmetric(x.value, y.value);
    }
  }

  lemma LessTransitive(x: Label, y: Label, z: Label)
    requires Less(x, y) && Less(y, z)
    ensures Less(x, z)
  {
    if x.name != y.name && y.name != z.name {
      BytesLessTransitive(x.name, y.name, z.name);
      if x.name == z.name {
        BytesLessAsymmetric(y.name, z.name);
      }
    } else if x.name == y.name && y.name == z.name {
      BytesLessTransitive(x.value, y.value, z.value);
    }
  }

  /** Two different labels are always ordered: Less is a strict total order. */
  lemma LessTotal(x: Label, y: Label)
    ensures x == y || Less(x, y) || Less(y, x)
  {
    BytesLessTotal(x.name, y.name);
    BytesLessTotal(x.value, y.value);
  }

  /** "x sorts no later than y", the relation sort.Sort establishes between neighbours. */
  lemma NotLessTransitive(x: Label, y: Label, z: Label)
    requires !Less(y, x) && !Less(z, y)
    ensures !Less(z, x)
  {
    LessTotal(x, y);
    LessTotal(y, z);
    if x != y && y != z {
      LessTransitive(x, y, z);
      LessAsymmetric(x, z);
    }
  }

  /** The element at k is not Less than its predecessor. */
  predicate InOrderAt(s: seq<Label>, k: nat)
    requires 0 < k < |s|
  {
    !Less(s[k], s[k - 1])
  }

  /** Go's sort.IsSorted for this Less: no element is Less than its predecessor. */
  predicate IsSorted(s: seq<Label>) {
    forall k :: 0 < k < |s| ==> InOrderAt(s, k)
  }

  lemma {:induction false} SortedAt(s: seq<Label>, p: nat, q: nat)
    requires IsSorted(s) && p < q < |s|
    ensures !Less(s[q], s[p])
    decreases q - p
  {
    assert InOrderAt(s, q);
    if q > p + 1 {
      SortedAt(s, p, q - 1);
      NotLessTransitive(s[p], s[q - 1], s[q]);
    }
  }

  /** No element of a sorted list is Less than its head. */
  lemma SortedHeadIsLeast(s: seq<Label>, x: Label)
    requires IsSorted(s) && x in multiset(s)
    ensures s != [] && !Less(x, s[0])
  {
    var k :| 0 <= k < |s| && s[k] == x;
    if k > 0 {
      SortedAt(s, 0, k);
    } else {
      LessIrreflexive(x);
    }
  }

  lemma SortedTail(s: seq<Label>)
    requires IsSorted(s) && s != []
    ensures IsSorted(s[1..])
  {
    forall k | 0 < k < |s| - 1
      ensures InOrderAt(s[1..], k)
    {
      assert InOrderAt(s, k + 1);
    }
  }

  /** Prepending an element that is not greater than the head keeps a list sorted. */
  lemma SortedCons(x: Label, s: seq<Label>)
    requires IsSorted(s) && (s != [] ==> !Less(s[0], x))
    ensures IsSorted([x] + s)
  {
    var r := [x] + s;
    forall k | 0 < k < |r|
      ensures InOrderAt(r, k)
    {
      if k > 1 {
        assert InOrderAt(s, k - 1);
      }
    }
  }

  lemma MultisetTail(s: seq<Label>)
    requires s != []
    ensures multiset(s[1..]) == multiset(s) - multiset{s[0]}
  {
    assert s == [s[0]] + s[1..];
  }

  /** There is only one sorted arrangement of a multiset of labels. */
  lemma {:induction false} SortedUnique(s: seq<Label>, t: seq<Label>)
    requires IsSorted(s) && IsSorted(t) && multiset(s) == multiset(t)
    ensures s == t
    decreases |s|
  {
    assert |s| == |multiset(s)| == |multiset(t)| == |t|;
    if s != [] {
      assert s[0] in multiset(s) && t[0] in multiset(t);
      SortedHeadIsLeast(t, s[0]);
      SortedHeadIsLeast(s, t[0]);
      LessTotal(s[0], t[0]);
      MultisetTail(s);
      MultisetTail(t);
      SortedTail(s);
      SortedTail(t);
      SortedUnique(s[1..], t[1..]);
      assert s == [s[0]] + s[1..] && t == [t[0]] + t[1..];
    }
  }

  /** Inserts x before the first element that is not Less than x. */
  function Insert(x: Label, s: seq<Label>): (r: seq<Label>)
    requires IsSorted(s)
    ensures IsSorted(r)
    ensures multiset(r) == multiset(s) + multiset{x}
    ensures r != [] && (r[0] == x || (s != [] && r[0] == s[0]))
    decreases |s|
  {
    if s == [] then [x]
    else if Less(s[0], x) then
      SortedTail(s);
      var rest := Insert(x, s[1..]);
      assert !Less(rest[0], s[0]) by {
        if rest[0] == x {
          LessAsymmetric(s[0], x);
        } else {
          assert InOrderAt(s, 1);
        }
      }
      SortedCons(s[0], rest);
      MultisetTail(s);
      [s[0]] + rest
    else
      LessTotal(s[0], x);
      SortedCons(x, s);
      [x] + s
  }

  /** The sorted copy of l that Labels.Sorted returns, as a value. */
  function SortedLabels(l: seq<Label>): (r: seq<Label>)
    ensures IsSorted(r)
    ensures multiset(r) == multiset(l)
    decreases |l|
  {
    if l == [] then []
    else
      MultisetTail(l);
      Insert(l[0], SortedLabels(l[1..]))
  }

  /** Labels.Swap, on the array that Sorted sorts. */
  method Swap(a: array<Label>, i: nat, j: nat)
    requires i < a.Length && j < a.Length
    modifies a
    ensures a[..] == old(a[..])[i := old(a[j])][j := old(a[i])]
    ensures multiset(a[..]) == old(multiset(a[..]))
  {
    a[i], a[j] := a[j], a[i];
  }

  /** What swapping a[j - 1] and a[j] does to the insertion-sort invariant. */
  lemma SwapStep(b: seq<Label>, c: seq<Label>, i: nat, j: nat)
    requires 0 < j <= i < |b|
    requires c == b[j - 1 := b[j]][j := b[j - 1]]
    requires Less(b[j], b[j - 1])
    requires forall k :: 0 < k <= i && k != j ==> InOrderAt(b, k)
    requires j < i ==> !Less(b[j + 1], b[j - 1])
    ensures forall k :: 0 < k <= i && k != j - 1 ==> InOrderAt(c, k)
    ensures 0 < j - 1 ==> !Less(c[j], c[j - 2])
    ensures c[i + 1..] == b[i + 1..]
  {
    LessAsymmetric(b[j], b[j - 1]);
    forall k | 0 < k <= i && k != j - 1
      ensures InOrderAt(c, k)
    {
      if k != j && k != j + 1 {
        assert InOrderAt(b, k);
      }
    }
    if 0 < j - 1 {
      assert InOrderAt(b, j - 1);
    }
  }

  /** Two sequences with the same multiset and the same tail from n on agree in multiset before n. */
  lemma PrefixMultiset(s: seq<Label>, t: seq<Label>, n: nat)
    requires n <= |s| == |t| && s[n..] == t[n..] && multiset(s) == multiset(t)
    ensures multiset(s[..n]) == multiset(t[..n])
  {
    assert s == s[..n] + s[n..];
    assert t == t[..n] + t[n..];
    assert multiset(s) == multiset(s[..n]) + multiset(s[n..]);
    assert multiset(t) == multiset(t[..n]) + multiset(t[n..]);
    assert multiset(s[..n]) == multiset(s) - multiset(s[n..]);
    assert multiset(t[..n]) == multiset(t) - multiset(t[n..]);
  }

  /** Once a[j] stops moving, the first i + 1 slots are sorted. */
  lemma InsertLastDone(s: seq<Label>, i: nat, j: nat)
    requires j <= i < |s|
    requires forall k :: 0 < k <= i && k != j ==> InOrderAt(s, k)
    requires j > 0 ==> !Less(s[j], s[j - 1])
    ensures IsSorted(s[..i + 1])
  {
    var done := s[..i + 1];
    forall k | 0 < k < |done|
      ensures InOrderAt(done, k)
    {
      assert InOrderAt(s, k);
    }
  }

  /**
   * One pass of the insertion sort: moves a[i] left, by Swaps, past every
   * predecessor it is Less than.
   */
  method InsertLast(a: array<Label>, i: nat)
    requires i < a.Length && IsSorted(a[..i])
    modifies a
    ensures IsSorted(a[..i + 1])
    ensures multiset(a[..]) == old(multiset(a[..]))
    ensures a[i + 1..] == old(a[i + 1..])
    ensures multiset(a[..i + 1]) == old(multiset(a[..i + 1]))
  {
    forall k | 0 < k < i
      ensures InOrderAt(a[..], k)
    {
      assert InOrderAt(a[..i], k);
    }
    var j := i;
    while j > 0 && Less(a[j], a[j - 1])
      invariant 0 <= j <= i
      invariant forall k :: 0 < k <= i && k != j ==> InOrderAt(a[..], k)
      invariant 0 < j < i ==> !Less(a[j + 1], a[j - 1])
      invariant multiset(a[..]) == old(multiset(a[..]))
      invariant a[i + 1..] == old(a[i + 1..])
    {
      ghost var before := a[..];
      Swap(a, j - 1, j);
      SwapStep(before, a[..], i, j);
      j := j - 1;
    }
    PrefixMultiset(old(a[..]), a[..], i + 1);
    InsertLastDone(a[..], i, j);
  }

  /**
   * Labels.Sorted: copies l into a fresh array and sorts the copy in place,
   * so l itself is never changed. The result is the unique sorted
   * permutation of l, whatever sorting algorithm produced it.
   */
  method Sorted(l: seq<Label>) returns (r: seq<Label>)
    ensures |r| == |l|
    ensures multiset(r) == multiset(l)
    ensures IsSorted(r)
  {
    var sorted := new Label[|l|](k requires 0 <= k < |l| => l[k]);
    assert sorted[..] == l;
    var i := 0;
    while i < sorted.Length
      invariant 0 <= i <= sorted.Length
      invariant IsSorted(sorted[..i])
      invariant multiset(sorted[..]) == multiset(l)
    {
      InsertLast(sorted, i);
      i := i + 1;
    }
    r := sorted[..];
    assert sorted[..sorted.Length] == r;
    assert |r| == |multiset(r)| == |multiset(l)| == |l|;
  }

  /** One label rendered as `name=value`. */
  function Pair(x: Label): seq<byte> {
    x.name + [Equals] + x.value
  }

  /** The pairs of ls, in order, separated by `,`. */
  function Join(ls: seq<Label>): seq<byte>
    decreases |ls|
  {
    if ls == [] then []
    else Join(ls[..|ls| - 1]) + (if |ls| > 1 then [Comma] else []) + Pair(ls[|ls| - 1])
  }

  /** `,name=value` for each label of xs, in order. */
  function Separated(xs: seq<Label>): seq<byte>
    decreases |xs|
  {
    if xs == [] then [] else [Comma] + Pair(xs[0]) + Separated(xs[1..])
  }

  lemma {:induction false} SeparatedSnoc(xs: seq<Label>, y: Label)
    ensures Separated(xs + [y]) == Separated(xs) + [Comma] + Pair(y)
    decreases |xs|
  {
    if xs != [] {
      assert (xs + [y])[1..] == xs[1..] + [y];
      SeparatedSnoc(xs[1..], y);
    }
  }

  /**
   * A non-empty join starts with the first pair and has a separator before
   * each further pair only: no leading or trailing `,`.
   */
  lemma {:induction false} JoinShape(ls: seq<Label>)
    requires ls != []
    ensures Join(ls) == Pair(ls[0]) + Separated(ls[1..])
    decreases |ls|
  {
    if |ls| > 1 {
      var init := ls[..|ls| - 1];
      JoinShape(init);
      assert init[1..] + [ls[|ls| - 1]] == ls[1..];
      SeparatedSnoc(init[1..], ls[|ls| - 1]);
    }
  }

  /** Each pair has at least its `=`, and neighbours are separated by a `,`. */
  lemma {:induction false} JoinLength(ls: seq<Label>)
    ensures |Join(ls)| >= 2 * |ls| - 1
    ensures ls == [] <==> Join(ls) == []
    decreases |ls|
  {
    if ls != [] {
      JoinLength(ls[..|ls| - 1]);
      assert |Pair(ls[|ls| - 1])| >= 1;
    }
  }

  /**
   * Labels.String as a value: the sorted labels joined. It is empty exactly
   * for no labels and otherwise holds a `=` per label and a `,` between each
   * two, so it is at least 2n - 1 bytes long.
   */
  function Canonical(l: seq<Label>): (r: seq<byte>)
    ensures r == [] <==> l == []
    ensures |r| >= 2 * |l| - 1
  {
    var sorted := SortedLabels(l);
    assert |sorted| == |multiset(sorted)| == |multiset(l)| == |l|;
    JoinLength(sorted);
    Join(sorted)
  }

  lemma JoinSnoc(ls: seq<Label>, x: Label)
    ensures Join(ls + [x]) == Join(ls) + (if ls != [] then [Comma] else []) + Pair(x)
  {
    var lx := ls + [x];
    assert lx[..|lx| - 1] == ls && lx[|lx| - 1] == x;
  }

  /**
   * Labels.String: sorts a copy, then writes `name=value` pairs into a
   * builder with `,` before every pair but the first.
   */
  method String(l: seq<Label>) returns (r: seq<byte>)
    ensures r == Canonical(l)
    ensures l == [] ==> r == []
  {
    var sorted := Sorted(l);
    r := [];
    var i := 0;
    while i < |sorted|
      invariant 0 <= i <= |sorted|
      invariant r == Join(sorted[..i])
    {
      ghost var before := r;
      if i > 0 {
        r := r + [Comma];
      }
      r := r + sorted[i].name;
      r := r + [Equals];
      r := r + sorted[i].value;
      assert r == before + (if i > 0 then [Comma] else []) + Pair(sorted[i]);
      JoinSnoc(sorted[..i], sorted[i]);
      assert sorted[..i + 1] == sorted[..i] + [sorted[i]];
      i := i + 1;
    }
    assert sorted[..|sorted|] == sorted;
    SortedUnique(sorted, SortedLabels(l));
  }

  /** Reordering the labels does not change their rendering. */
  lemma CanonicalPermutationInvariant(l1: seq<Label>, l2: seq<Label>)
    requires multiset(l1) == multiset(l2)
    ensures Canonical(l1) == Canonical(l2)
  {
    SortedUnique(SortedLabels(l1), SortedLabels(l2));
  }

  /** Labels.String of any arrangement is the join of its sorted arrangement. */
  lemma CanonicalOfSorted(l: seq<Label>, ls: seq<Label>)
    requires IsSorted(ls) && multiset(ls) == multiset(l)
    ensures Canonical(l) == Join(ls)
  {
    SortedUnique(SortedLabels(l), ls);
  }

  lemma JoinTwo(a: Label, b: Label)
    ensures Join([a, b]) == Pair(a) + [Comma] + Pair(b)
  {
    JoinSnoc([a], b);
    assert [a] + [b] == [a, b];
  }

  lemma JoinThree(a: Label, b: Label, c: Label)
    ensures Join([a, b, c]) == Pair(a) + [Comma] + Pair(b) + [Comma] + Pair(c)
  {
    JoinSnoc([a, b], c);
    JoinTwo(a, b);
    assert [a, b] + [c] == [a, b, c];
  }

  /** Two labels given in the wrong order are rendered by name. */
  lemma StringOrdersByName(h: Label, r: Label)
    requires BytesLess(h.name, r.name)
    ensures Canonical([r, h]) == Pair(h) + [Comma] + Pair(r)
  {
    BytesLessIrreflexive(h.name);
    LessAsymmetric(h, r);
    assert InOrderAt([h, r], 1);
    assert multiset([h, r]) == multiset([r, h]);
    CanonicalOfSorted([r, h], [h, r]);
    JoinTwo(h, r);
  }

  /** A repeated name is kept, and its labels are ordered by value. */
  lemma StringKeepsRepeatedName(x: Label, a: Label, r: Label)
    requires x.name == a.name && BytesLess(a.value, x.value) && BytesLess(x.name, r.name)
    ensures Canonical([x, a, r]) == Pair(a) + [Comma] + Pair(x) + [Comma] + Pair(r)
  {
    BytesLessIrreflexive(x.name);
    LessAsymmetric(a, x);
    LessAsymmetric(x, r);
    var ls := [a, x, r];
    assert InOrderAt(ls, 1) && InOrderAt(ls, 2);
    assert multiset(ls) == multiset([x, a, r]);
    CanonicalOfSorted([x, a, r], ls);
    JoinThree(a, x, r);
  }

  /** The cases of label_test.go: empty labels, and a single label. */
  lemma StringOfEmptyAndSingle()
    ensures Canonical([]) == []
    ensures Canonical([Label(Ascii("host"), Ascii("A"))]) == Ascii("host=A")
  {
    assert Ascii("host") + [Equals] + Ascii("A") == Ascii("host=A");
  }

  /** The case of label_test.go with two labels, given out of order. */
  lemma StringOfTwoLabels(h: Label, r: Label)
    requires h == Label(Ascii("host"), Ascii("A")) && r == Label(Ascii("region"), Ascii("us"))
    ensures Canonical([r, h]) == Ascii("host=A,region=us")
  {
    assert BytesLess(h.name, r.name);
    StringOrdersByName(h, r);
  }

  /** The case of label_test.go with two labels, in the test's own order. */
  lemma StringOfTwoLabelsInOrder(h: Label, r: Label)
    requires h == Label(Ascii("host"), Ascii("A")) && r == Label(Ascii("region"), Ascii("us"))
    ensures Canonical([h, r]) == Ascii("host=A,region=us")
  {
    StringOfTwoLabels(h, r);
    TwoLabelsEitherOrder(h, r);
  }

  lemma TwoLabelsEitherOrder(a: Label, b: Label)
    ensures Canonical([a, b]) == Canonical([b, a])
  {
    assert multiset([a, b]) == multiset([b, a]);
    CanonicalPermutationInvariant([a, b], [b, a]);
  }

  /** The case of label_test.go with the name `host` twice. */
  lemma StringOfRepeatedName(x: Label, a: Label, r: Label)
    requires x == Label(Ascii("host"), Ascii("X")) && a == Label(Ascii("host"), Ascii("A"))
    requires r == Label(Ascii("region"), Ascii("us"))
    ensures Canonical([x, a, r]) == Ascii("host=A,host=X,region=us")
  {
    assert BytesLess(a.value, x.value);
    assert BytesLess(x.name, r.name);
    StringKeepsRepeatedName(x, a, r);
  }
}
