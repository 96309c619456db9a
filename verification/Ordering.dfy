/** Sorting of sets by a strict total order, and the order of strings and pairs by code points. */
module Ordering {

  /** A strict total order. */
  ghost predicate Total<T(!new)>(less: (T, T) -> bool) {
    && (forall a, b :: less(a, b) ==> !less(b, a))
    && (forall a, b :: a != b ==> less(a, b) || less(b, a))
    && (forall a, b, c :: less(a, b) && less(b, c) ==> less(a, c))
  }

  ghost predicate Ascending<T(!new)>(less: (T, T) -> bool, s: seq<T>) {
    forall i, j :: 0 <= i < j < |s| ==> less(s[i], s[j])
  }

  /** `s` lists `elements` once each, in ascending order. */
  ghost predicate Sorts<T(!new)>(less: (T, T) -> bool, elements: set<T>, s: seq<T>) {
    Ascending(less, s) && forall x :: x in elements <==> x in s
  }

  /** There is only one such list. */
  lemma {:induction false} SortsOnce<T(!new)>(less: (T, T) -> bool, elements: set<T>, s: seq<T>, t: seq<T>)
    requires Total(less) && Sorts(less, elements, s) && Sorts(less, elements, t)
    ensures s == t
    decreases |s|
  {
    EmptyTogether(s, t);
    if s != [] {
      FirstIsLeast(less, s, t);
      SortsRest(less, elements, s);
      SortsRest(less, elements, t);
      SortsOnce(less, elements - {s[0]}, s[1..], t[1..]);
      assert s == [s[0]] + s[1..] && t == [t[0]] + t[1..];
    }
  }

  lemma EmptyTogether<T(!new)>(s: seq<T>, t: seq<T>)
    requires forall x :: x in s <==> x in t
    ensures s == [] <==> t == []
  {
    if s != [] { assert s[0] in s; }
    if t != [] { assert t[0] in t; }
  }

  lemma FirstIsLeast<T(!new)>(less: (T, T) -> bool, s: seq<T>, t: seq<T>)
    requires Total(less) && Ascending(less, s) && Ascending(less, t) && s != [] && t != []
    requires forall x :: x in s <==> x in t
    ensures s[0] == t[0]
  {
    assert s[0] in s && t[0] in t;
    var i :| 0 <= i < |t| && t[i] == s[0];
    var j :| 0 <= j < |s| && s[j] == t[0];
  }

  lemma SortsRest<T(!new)>(less: (T, T) -> bool, elements: set<T>, s: seq<T>)
    requires Total(less) && Sorts(less, elements, s) && s != []
    ensures Sorts(less, elements - {s[0]}, s[1..])
  {
    forall x
      ensures x in elements - {s[0]} <==> x in s[1..]
    {
      if x in s[1..] {
        var i :| 0 <= i < |s[1..]| && s[1..][i] == x;
        assert less(s[0], s[i + 1]);
      }
    }
  }

  /** `x` placed at `i`. */
  function Placed<T>(s: seq<T>, i: nat, x: T): (r: seq<T>)
    requires i <= |s|
    ensures |r| == |s| + 1
    ensures forall j :: 0 <= j < |r| ==> r[j] == if j < i then s[j] else if j == i then x else s[j - 1]
  {
    s[..i] + [x] + s[i..]
  }

  lemma PlacedAscends<T(!new)>(less: (T, T) -> bool, s: seq<T>, i: nat, x: T)
    requires Total(less) && Ascending(less, s) && i <= |s|
    requires (forall j :: 0 <= j < i ==> less(s[j], x)) && (forall j :: i <= j < |s| ==> less(x, s[j]))
    ensures Ascending(less, Placed(s, i, x))
  {
  }

  lemma PlacedElements<T(!new)>(s: seq<T>, i: nat, x: T)
    requires i <= |s|
    ensures forall y :: y in Placed(s, i, x) <==> y in s || y == x
  {
    assert s == s[..i] + s[i..];
  }

  /** Puts a new element in its place. */
  method Insert<T(!new, ==)>(less: (T, T) -> bool, s: seq<T>, x: T) returns (r: seq<T>)
    requires Total(less) && Ascending(less, s) && x !in s
    ensures Ascending(less, r) && forall y :: y in r <==> y in s || y == x
  {
    var i := 0;
    while i < |s| && less(s[i], x)
      invariant 0 <= i <= |s|
      invariant forall j :: 0 <= j < i ==> less(s[j], x)
    {
      i := i + 1;
    }
    forall j | i <= j < |s|
      ensures less(x, s[j])
    {
      assert s[i] != x && less(x, s[i]);
    }
    PlacedAscends(less, s, i, x);
    PlacedElements(s, i, x);
    r := Placed(s, i, x);
  }

  method Sort<T(!new, ==)>(less: (T, T) -> bool, elements: set<T>) returns (r: seq<T>)
    requires Total(less)
    ensures Sorts(less, elements, r)
  {
    r := [];
    var left := elements;
    while left != {}
      invariant left <= elements && Ascending(less, r)
      invariant forall x :: x in r <==> x in elements - left
      decreases |left|
    {
      var x :| x in left;
      r := Insert(less, r, x);
      left := left - {x};
    }
  }

  // ------------------------------------------------------------ string order

  predicate Less(a: string, b: string) {
    b != [] && (a == [] || a[0] < b[0] || (a[0] == b[0] && Less(a[1..], b[1..])))
  }

  lemma {:induction false} LessAsymmetric(a: string, b: string)
    requires Less(a, b)
    ensures !Less(b, a)
  {
    if a != [] && a[0] == b[0] { LessAsymmetric(a[1..], b[1..]); }
  }

  lemma {:induction false} LessConnex(a: string, b: string)
    requires a != b
    ensures Less(a, b) || Less(b, a)
  {
    if a != [] && b != [] && a[0] == b[0] {
      assert a == [a[0]] + a[1..] && b == [b[0]] + b[1..];
      LessConnex(a[1..], b[1..]);
    }
  }

  lemma {:induction false} LessTransitive(a: string, b: string, c: string)
    requires Less(a, b) && Less(b, c)
    ensures Less(a, c)
  {
    if a != [] && a[0] == b[0] && b[0] == c[0] { LessTransitive(a[1..], b[1..], c[1..]); }
  }

  lemma LessTotal()
    ensures Total(Less)
  {
    forall a, b | Less(a, b) ensures !Less(b, a) { LessAsymmetric(a, b); }
    forall a: string, b: string | a != b ensures Less(a, b) || Less(b, a) { LessConnex(a, b); }
    forall a, b, c | Less(a, b) && Less(b, c) ensures Less(a, c) { LessTransitive(a, b, c); }
  }

  /** The strings agree before place `i`, where the first one ends or has the smaller character. */
  ghost predicate LessAt(a: string, b: string, i: nat) {
    i <= |a| && i < |b| && a[..i] == b[..i] && (i == |a| || a[i] < b[i])
  }

  lemma {:induction false} LessHasPlace(a: string, b: string) returns (i: nat)
    requires Less(a, b)
    ensures LessAt(a, b, i)
  {
    if a == [] || a[0] < b[0] {
      i := 0;
    } else {
      var j := LessHasPlace(a[1..], b[1..]);
      LessAtShift(a, b, j);
      i := j + 1;
    }
  }

  lemma LessAtShift(a: string, b: string, i: nat)
    requires a != [] && b != [] && a[0] == b[0]
    ensures LessAt(a[1..], b[1..], i) <==> LessAt(a, b, i + 1)
  {
    if i + 1 <= |a| && i + 1 <= |b| {
      assert a[..i + 1] == [a[0]] + a[1..][..i] && b[..i + 1] == [b[0]] + b[1..][..i];
      assert a[1..][..i] == a[..i + 1][1..] && b[1..][..i] == b[..i + 1][1..];
    }
  }

  lemma {:induction false} PlaceMakesLess(a: string, b: string, i: nat)
    requires LessAt(a, b, i)
    ensures Less(a, b)
  {
    if i > 0 {
      assert a[0] == a[..i][0] && b[0] == b[..i][0];
      LessAtShift(a, b, i - 1);
      PlaceMakesLess(a[1..], b[1..], i - 1);
    }
  }

  /** The order is by the first difference, and a string comes after its own beginnings. */
  lemma LessIff(a: string, b: string)
    ensures Less(a, b) <==> exists i: nat :: LessAt(a, b, i)
  {
    if Less(a, b) { var i := LessHasPlace(a, b); }
    forall i: nat | LessAt(a, b, i)
      ensures Less(a, b)
    {
      PlaceMakesLess(a, b, i);
    }
  }

  /** Pairs go by their first components, and by the second ones when these are equal. */
  lemma PairLessIff(a: string, b: string, c: string, d: string)
    ensures PairLess((a, b), (c, d)) <==> Less(a, c) || (a == c && Less(b, d))
  {
  }

  predicate PairLess(a: (string, string), b: (string, string)) {
    Less(a.0, b.0) || (a.0 == b.0 && Less(a.1, b.1))
  }

  lemma PairsTotal<A(!new), B(!new)>(first: (A, A) -> bool, second: (B, B) -> bool, less: ((A, B), (A, B)) -> bool)
    requires Total(first) && Total(second)
    requires forall a, b :: less(a, b) <==> first(a.0, b.0) || (a.0 == b.0 && second(a.1, b.1))
    ensures Total(less)
  {
  }

  lemma PairLessTotal()
    ensures Total(PairLess)
  {
    LessTotal();
    PairsTotal(Less, Less, PairLess);
  }
}
