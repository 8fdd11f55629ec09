/** The byte order of strings, and sorting by it. */
module StringOrder {
  import opened Wrappers

  function CompareChars(x: char, y: char): Ordering {
    CompareInt(x as int, y as int)
  }

  /** Byte order of UTF-8 text, which is the order of its code points. */
  function CompareCodePoints(a: string, b: string): Ordering {
    if a == [] || b == [] then CompareInt(|a|, |b|)
    else CompareChars(a[0], b[0]).Then(CompareCodePoints(a[1..], b[1..]))
  }

  lemma {:induction false} CodePointLaws(a: string, b: string, c: string)
    ensures CompareCodePoints(b, a) == CompareCodePoints(a, b).Reverse()
    ensures CompareCodePoints(a, b) == Equal <==> a == b
    ensures Chains(CompareCodePoints(a, b), CompareCodePoints(b, c), CompareCodePoints(a, c))
    decreases |a| + |b| + |c|
  {
    if a != [] && b != [] {
      var c' := if c == [] then c else c[1..];
      CodePointLaws(a[1..], b[1..], c');
      assert a == [a[0]] + a[1..] && b == [b[0]] + b[1..];
    }
  }

  /** The first difference decides, by code point; and a text comes before its extensions. */
  lemma {:induction false} FirstDifferenceDecides(a: string, b: string, p: nat)
    requires p <= |a| && p <= |b| && a[..p] == b[..p]
    ensures p == |a| && p < |b| ==> CompareCodePoints(a, b) == Less
    ensures p < |a| && p < |b| && (a[p] as int) < (b[p] as int) ==> CompareCodePoints(a, b) == Less
  {
    if p > 0 {
      assert a[0] == a[..p][0] == b[..p][0] == b[0];
      assert a[1..][..p - 1] == a[..p][1..] && b[1..][..p - 1] == b[..p][1..];
      FirstDifferenceDecides(a[1..], b[1..], p - 1);
    }
  }

  /** Strictly ascending, hence without duplicates. */
  ghost predicate Ascending(xs: seq<string>) {
    forall i, j :: 0 <= i < j < |xs| ==> CompareCodePoints(xs[i], xs[j]) == Less
  }

  /** Insert a new string into an ascending sequence. */
  function InsertString(x: string, xs: seq<string>): seq<string> {
    if xs == [] || CompareCodePoints(x, xs[0]) == Less then [x] + xs
    else [xs[0]] + InsertString(x, xs[1..])
  }

  lemma {:induction false} InsertStringContents(x: string, xs: seq<string>, y: string)
    ensures y in InsertString(x, xs) <==> y == x || y in xs
  {
    if !(xs == [] || CompareCodePoints(x, xs[0]) == Less) {
      InsertStringContents(x, xs[1..], y);
      assert xs == [xs[0]] + xs[1..];
    }
  }

  lemma {:induction false} InsertKeepsAscending(x: string, xs: seq<string>)
    requires Ascending(xs) && x !in xs
    ensures Ascending(InsertString(x, xs))
  {
    var r := InsertString(x, xs);
    if xs == [] {
    } else if CompareCodePoints(x, xs[0]) == Less {
      forall j | 0 <= j < |xs| ensures CompareCodePoints(x, xs[j]) == Less {
        CodePointLaws(x, xs[0], xs[j]);
      }
    } else {
      InsertKeepsAscending(x, xs[1..]);
      CodePointLaws(xs[0], x, x);
      forall j | 0 < j < |r| ensures CompareCodePoints(r[0], r[j]) == Less {
        InsertStringContents(x, xs[1..], r[j]);
        assert r[j] == InsertString(x, xs[1..])[j - 1];
        assert r[j] in InsertString(x, xs[1..]);
      }
      assert forall i, j :: 0 < i < j < |r| ==>
          r[i] == InsertString(x, xs[1..])[i - 1] && r[j] == InsertString(x, xs[1..])[j - 1];
    }
  }

  /** The strings of a set in ascending order. */
  method SortStrings(strings: set<string>) returns (sorted: seq<string>)
    ensures Ascending(sorted) && (forall x :: x in sorted <==> x in strings)
  {
    var rest := strings;
    sorted := [];
    while rest != {}
      invariant Ascending(sorted) && rest <= strings
      invariant forall x :: x in sorted <==> x in strings - rest
      decreases |rest|
    {
      var x :| x in rest;
      InsertKeepsAscending(x, sorted);
      forall y ensures y in InsertString(x, sorted) <==> y == x || y in sorted {
        InsertStringContents(x, sorted, y);
      }
      sorted := InsertString(x, sorted);
      rest := rest - {x};
    }
  }
}
