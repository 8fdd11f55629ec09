/**
 * The natural string comparison of the archive browser (`natural_cmp`): case-insensitive, with runs of
 * decimal digits compared as numbers.
 */
module NaturalOrder {
  import opened Wrappers
  import opened Decimal
  import opened StringOrder

  // ---------------------------------------------------------------------------------------------
  // Case folding
  // ---------------------------------------------------------------------------------------------

  /** `char::to_lowercase` beyond ASCII, a table of the standard library; a missing character maps to itself. */
  datatype CaseTable = CaseTable(beyondAscii: map<char, string>)

  predicate IsAsciiChar(c: char) {
    (c as int) < 128
  }

  predicate IsAscii(s: string) {
    forall i :: 0 <= i < |s| ==> IsAsciiChar(s[i])
  }

  function AsciiLower(c: char): char {
    if 'A' <= c <= 'Z' then ((c as int) + 32) as char else c
  }

  /** Each of the twenty-six capitals becomes its small letter, and nothing else changes. */
  lemma CapitalsAreLowered(k: nat)
    requires k < 128
    ensures AsciiLower(k as char) == if 65 <= k < 91 then ('a' as int + (k - 65)) as char else k as char
    ensures AsciiLower('A') == 'a' && AsciiLower('Z') == 'z'
  {
  }

  function AsciiFold(s: string): (r: string)
    ensures |r| == |s| && forall i :: 0 <= i < |s| ==> r[i] == AsciiLower(s[i])
  {
    seq(|s|, i requires 0 <= i < |s| => AsciiLower(s[i]))
  }

  function LowerChar(table: CaseTable, c: char): string {
    if IsAsciiChar(c) then [AsciiLower(c)]
    else if c in table.beyondAscii then table.beyondAscii[c]
    else [c]
  }

  /** The character stream `s.chars().flat_map(char::to_lowercase)`. */
  function Fold(table: CaseTable, s: string): string {
    if s == [] then [] else LowerChar(table, s[0]) + Fold(table, s[1..])
  }

  lemma {:induction false} FoldOfAscii(table: CaseTable, s: string)
    requires IsAscii(s)
    ensures Fold(table, s) == AsciiFold(s)
  {
    if s != [] {
      FoldOfAscii(table, s[1..]);
      assert AsciiFold(s) == [AsciiLower(s[0])] + AsciiFold(s[1..]);
    }
  }

  // ---------------------------------------------------------------------------------------------
  // The order
  // ---------------------------------------------------------------------------------------------

  /** Where the run of digits that covers position `i` of `s` ends; `i` itself if there is no digit. */
  function RunEnd(s: string, i: nat): (e: nat)
    requires i <= |s|
    ensures i <= e <= |s| && (e < |s| ==> !IsDigit(s[e]))
    ensures forall k :: i <= k < e ==> IsDigit(s[k])
    ensures i < |s| && IsDigit(s[i]) ==> i < e
    decreases |s| - i
  {
    if i == |s| || !IsDigit(s[i]) then i else RunEnd(s, i + 1)
  }

  lemma RunEndUnique(s: string, i: nat, e: nat)
    requires i <= e <= |s| && (e < |s| ==> !IsDigit(s[e]))
    requires forall k :: i <= k < e ==> IsDigit(s[k])
    ensures RunEnd(s, i) == e
  {
  }

  function Run(s: string, i: nat): (run: string)
    requires i <= |s|
    ensures AllDigits(run)
  {
    s[i..RunEnd(s, i)]
  }

  /** Two runs of digits, by unbounded decimal value and then by length. */
  function CompareRuns(x: string, y: string): Ordering
    requires AllDigits(x) && AllDigits(y)
  {
    CompareInt(Value(x), Value(y)).Then(CompareInt(|x|, |y|))
  }

  /** The natural order on folded text, from position `i` of `a` and position `j` of `b`. */
  function CompareText(a: string, i: nat, b: string, j: nat): Ordering
    requires i <= |a| && j <= |b|
    decreases |a| - i
  {
    if i == |a| || j == |b| then CompareInt(|a| - i, |b| - j)
    else if IsDigit(a[i]) && IsDigit(b[j]) then
      CompareRuns(Run(a, i), Run(b, j)).Then(CompareText(a, RunEnd(a, i), b, RunEnd(b, j)))
    else CompareChars(a[i], b[j]).Then(CompareText(a, i + 1, b, j + 1))
  }

  function NaturalCompare(table: CaseTable, left: string, right: string): Ordering {
    CompareText(Fold(table, left), 0, Fold(table, right), 0)
  }

  lemma {:induction false} TextReversal(a: string, i: nat, b: string, j: nat)
    requires i <= |a| && j <= |b|
    ensures CompareText(b, j, a, i) == CompareText(a, i, b, j).Reverse()
    decreases |a| - i
  {
    if i < |a| && j < |b| {
      if IsDigit(a[i]) && IsDigit(b[j]) {
        TextReversal(a, RunEnd(a, i), b, RunEnd(b, j));
      } else {
        TextReversal(a, i + 1, b, j + 1);
      }
    }
  }

  lemma EqualRuns(x: string, y: string)
    requires AllDigits(x) && AllDigits(y)
    ensures CompareRuns(x, y) == Equal <==> x == y
  {
    if CompareRuns(x, y) == Equal {
      SameLengthSameValue(x, y);
    }
  }

  /** Two texts are equal from i and j on exactly when they agree on a first piece and are equal after it. */
  lemma SplitEquality(a: string, i: nat, i': nat, b: string, j: nat, j': nat)
    requires i <= i' <= |a| && j <= j' <= |b| && i' - i == j' - j
    ensures a[i..] == b[j..] <==> a[i..i'] == b[j..j'] && a[i'..] == b[j'..]
  {
    assert a[i..] == a[i..i'] + a[i'..] && b[j..] == b[j..j'] + b[j'..];
  }

  lemma DigitCaseEqual(a: string, i: nat, b: string, j: nat)
    requires i < |a| && j < |b| && IsDigit(a[i]) && IsDigit(b[j])
    ensures a[i..] == b[j..] <==> Run(a, i) == Run(b, j) && a[RunEnd(a, i)..] == b[RunEnd(b, j)..]
  {
    var e, f := RunEnd(a, i), RunEnd(b, j);
    if e - i == f - j {
      SplitEquality(a, i, e, b, j, f);
    }
  }

  lemma {:induction false} TextEqual(a: string, i: nat, b: string, j: nat)
    requires i <= |a| && j <= |b|
    ensures CompareText(a, i, b, j) == Equal <==> a[i..] == b[j..]
    decreases |a| - i
  {
    if i < |a| && j < |b| {
      if IsDigit(a[i]) && IsDigit(b[j]) {
        TextEqual(a, RunEnd(a, i), b, RunEnd(b, j));
        EqualRuns(Run(a, i), Run(b, j));
        DigitCaseEqual(a, i, b, j);
      } else {
        TextEqual(a, i + 1, b, j + 1);
        SplitEquality(a, i, i + 1, b, j, j + 1);
        assert a[i..i + 1] == [a[i]] && b[j..j + 1] == [b[j]];
      }
    } else {
      assert |a[i..]| == |a| - i && |b[j..]| == |b| - j;
    }
  }

  lemma {:induction false} TextChains(a: string, i: nat, b: string, j: nat, c: string, k: nat)
    requires i <= |a| && j <= |b| && k <= |c|
    ensures Chains(CompareText(a, i, b, j), CompareText(b, j, c, k), CompareText(a, i, c, k))
    decreases |a| - i
  {
    if i < |a| && j < |b| && k < |c| {
      if IsDigit(a[i]) && IsDigit(b[j]) && IsDigit(c[k]) {
        TextChains(a, RunEnd(a, i), b, RunEnd(b, j), c, RunEnd(c, k));
      } else {
        TextChains(a, i + 1, b, j + 1, c, k + 1);
      }
    }
  }

  /** The comparison is a total preorder whose ties are exactly the texts that fold to the same characters. */
  lemma NaturalOrderLaws(table: CaseTable, a: string, b: string, c: string)
    ensures NaturalCompare(table, b, a) == NaturalCompare(table, a, b).Reverse()
    ensures NaturalCompare(table, a, b) == Equal <==> Fold(table, a) == Fold(table, b)
    ensures Chains(NaturalCompare(table, a, b), NaturalCompare(table, b, c), NaturalCompare(table, a, c))
  {
    var x, y, z := Fold(table, a), Fold(table, b), Fold(table, c);
    TextReversal(x, 0, y, 0);
    TextEqual(x, 0, y, 0);
    assert x[0..] == x && y[0..] == y;
    TextChains(x, 0, y, 0, z, 0);
  }

  /**
   * After a common prefix that does not cut a number, two different runs of digits decide the comparison: by
   * value and then by length.
   */
  lemma {:induction false} AlignedRunsDecide(a: string, b: string, i: nat, p: nat)
    requires i <= p < |a| && p < |b| && a[..p] == b[..p]
    requires IsDigit(a[p]) && IsDigit(b[p]) && (p == 0 || !IsDigit(a[p - 1]))
    requires Run(a, p) != Run(b, p)
    ensures var x, y := Run(a, p), Run(b, p);
      && (CompareText(a, i, b, i) == Less <==> Value(x) < Value(y) || (Value(x) == Value(y) && |x| < |y|))
      && (CompareText(a, i, b, i) == Greater <==> Value(x) > Value(y) || (Value(x) == Value(y) && |x| > |y|))
      && CompareText(a, i, b, i) != Equal
    decreases p - i
  {
    if i == p {
      EqualRuns(Run(a, p), Run(b, p));
    } else {
      assert forall k :: 0 <= k < p ==> a[k] == a[..p][k] == b[k];
      if IsDigit(a[i]) {
        assert RunEnd(a, i) < p;
        RunEndUnique(b, i, RunEnd(a, i));
        assert Run(a, i) == Run(b, i);
        AlignedRunsDecide(a, b, RunEnd(a, i), p);
      } else {
        AlignedRunsDecide(a, b, i + 1, p);
      }
    }
  }

  /**
   * After a common prefix two different characters decide the comparison by code point, unless both are digits or one
   * of them continues a number that the other ends.
   */
  lemma {:induction false} CharactersDecide(a: string, b: string, i: nat, p: nat)
    requires i <= p < |a| && p < |b| && a[..p] == b[..p] && a[p] != b[p]
    requires if p == 0 || !IsDigit(a[p - 1]) then !(IsDigit(a[p]) && IsDigit(b[p]))
             else !IsDigit(a[p]) && !IsDigit(b[p])
    ensures CompareText(a, i, b, i) == if (a[p] as int) < (b[p] as int) then Less else Greater
    decreases p - i
  {
    assert forall k :: 0 <= k < p ==> a[k] == a[..p][k] == b[k];
    if i < p {
      if IsDigit(a[i]) {
        RunBeforeCharacter(a, b, i, p);
        CharactersDecide(a, b, RunEnd(a, i), p);
      } else {
        CharactersDecide(a, b, i + 1, p);
      }
    }
  }

  lemma RunBeforeCharacter(a: string, b: string, i: nat, p: nat)
    requires i < p < |a| && p < |b| && a[..p] == b[..p] && IsDigit(a[i])
    requires !IsDigit(a[p - 1]) || (!IsDigit(a[p]) && !IsDigit(b[p]))
    ensures i < RunEnd(a, i) <= p && RunEnd(b, i) == RunEnd(a, i) && Run(a, i) == Run(b, i) && IsDigit(b[i])
  {
    var e := RunEnd(a, i);
    assert forall k :: 0 <= k < p ==> a[k] == a[..p][k] == b[k];
    assert e <= p;
    RunEndUnique(b, i, e);
  }

  /** A text comes before every longer one that starts with it, also where the longer one continues a number. */
  lemma {:induction false} PrefixComesFirst(a: string, b: string, i: nat)
    requires i <= |a| < |b| && b[..|a|] == a
    ensures CompareText(a, i, b, i) == Less
    decreases |a| - i
  {
    if i < |a| {
      assert a[i] == b[..|a|][i] == b[i];
      if IsDigit(a[i]) {
        PrefixOfRun(a, b, i);
        if RunEnd(a, i) == RunEnd(b, i) {
          PrefixComesFirst(a, b, RunEnd(a, i));
        }
      } else {
        PrefixComesFirst(a, b, i + 1);
      }
    }
  }

  lemma PrefixOfRun(a: string, b: string, i: nat)
    requires i < |a| < |b| && b[..|a|] == a && IsDigit(a[i])
    ensures if RunEnd(a, i) == RunEnd(b, i) then Run(a, i) == Run(b, i)
            else CompareRuns(Run(a, i), Run(b, i)) == Less
  {
    var e, f := RunEnd(a, i), RunEnd(b, i);
    assert forall k :: 0 <= k < |a| ==> a[k] == b[..|a|][k] == b[k];
    if e < |a| {
      RunEndUnique(b, i, e);
    } else if f > e {
      assert Run(b, i) == Run(a, i) + b[e..f];
      ExtensionIsLarger(Run(a, i), b[e..f]);
    }
  }

  lemma ExtensionIsLarger(x: string, y: string)
    requires AllDigits(x) && AllDigits(y) && y != []
    ensures AllDigits(x + y) && CompareRuns(x, x + y) == Less
  {
    ValueOfConcat(x, y);
    assert Value(x) <= Value(x) * Pow10(|y|);
  }

  // ---------------------------------------------------------------------------------------------
  // The two loops
  // ---------------------------------------------------------------------------------------------

  /**
   * The digit-run block both loops contain: skip the zeros, walk the digits in pairs remembering the first
   * difference, count what is left, and order by significant length, first difference and total length.
   */
  method CompareDigitRuns(left: string, start: nat, right: string, start': nat)
    returns (ordering: Ordering, i: nat, j: nat)
    requires start < |left| && IsDigit(left[start]) && start' < |right| && IsDigit(right[start'])
    ensures i == RunEnd(left, start) && j == RunEnd(right, start')
    ensures ordering == CompareRuns(Run(left, start), Run(right, start'))
  {
    i := SkipZeros(left, start);
    j := SkipZeros(right, start');
    var leftZeros, rightZeros := i - start, j - start';
    ghost var p, q := i, j;
    var firstDiff, common;
    firstDiff, common, i, j := WalkPairs(left, i, right, j);
    ghost var i', j' := i, j;
    var leftLen, rightLen;
    leftLen, i := CountDigits(left, p, common, i);
    rightLen, j := CountDigits(right, q, common, j);
    RunParts(left, start, p, i);
    RunParts(right, start', q, j);
    SignificantOrder(left[p..i], right[q..j]);
    assert leftLen == rightLen ==> i == i' && j == j';
    ordering := CompareInt(leftLen, rightLen).Then(firstDiff)
                .Then(CompareInt(leftLen + leftZeros, rightLen + rightZeros));
  }

  method WalkPairs(left: string, p: nat, right: string, q: nat)
    returns (firstDiff: Ordering, count: nat, i: nat, j: nat)
    requires p <= |left| && q <= |right|
    ensures i == p + count <= |left| && j == q + count <= |right|
    ensures AllDigits(left[p..i]) && AllDigits(right[q..j])
    ensures firstDiff == CompareInt(Value(left[p..i]), Value(right[q..j]))
    ensures !(i < |left| && IsDigit(left[i]) && j < |right| && IsDigit(right[j]))
  {
    firstDiff, count, i, j := Equal, 0, p, q;
    while i < |left| && j < |right| && IsDigit(left[i]) && IsDigit(right[j])
      invariant i == p + count <= |left| && j == q + count <= |right|
      invariant AllDigits(left[p..i]) && AllDigits(right[q..j])
      invariant firstDiff == CompareInt(Value(left[p..i]), Value(right[q..j]))
    {
      ValueStep(left, p, i);
      ValueStep(right, q, j);
      if firstDiff == Equal && left[i] != right[j] {
        firstDiff := CompareChars(left[i], right[j]);
      }
      count, i, j := count + 1, i + 1, j + 1;
    }
  }

  method SkipZeros(s: string, start: nat) returns (i: nat)
    requires start <= |s|
    ensures start <= i <= |s| && (i < |s| ==> s[i] != '0')
    ensures forall k :: start <= k < i ==> s[k] == '0'
  {
    i := start;
    while i < |s| && s[i] == '0'
      invariant start <= i <= |s|
      invariant forall k :: start <= k < i ==> s[k] == '0'
    {
      i := i + 1;
    }
  }

  method CountDigits(s: string, ghost from: nat, counted: nat, start: nat) returns (count: nat, i: nat)
    requires from <= start <= |s| && counted == start - from && AllDigits(s[from..start])
    ensures start <= i <= |s| && count == i - from && AllDigits(s[from..i])
    ensures i < |s| ==> !IsDigit(s[i])
    ensures i == start || (start < |s| && IsDigit(s[start]))
  {
    count, i := counted, start;
    assert forall k :: from <= k < start ==> s[from..start][k - from] == s[k];
    while i < |s| && IsDigit(s[i])
      invariant start <= i <= |s| && count == i - from
      invariant forall k :: from <= k < i ==> IsDigit(s[k])
    {
      count, i := count + 1, i + 1;
    }
  }

  lemma ValueStep(s: string, p: nat, i: nat)
    requires p <= i < |s| && AllDigits(s[p..i]) && IsDigit(s[i])
    ensures AllDigits(s[p..i + 1]) && Value(s[p..i + 1]) == 10 * Value(s[p..i]) + DigitValue(s[i])
  {
    assert s[p..i + 1] == s[p..i] + [s[i]];
    assert s[p..i + 1][..i - p] == s[p..i];
  }

  /** A run of digits is its zeros followed by its significant digits, and the zeros do not count. */
  lemma RunParts(s: string, start: nat, mid: nat, end: nat)
    requires start <= mid <= end <= |s|
    requires forall k :: start <= k < mid ==> s[k] == '0'
    requires AllDigits(s[mid..end]) && (end < |s| ==> !IsDigit(s[end]))
    ensures RunEnd(s, start) == end
    ensures Value(Run(s, start)) == Value(s[mid..end])
  {
    assert forall k :: mid <= k < end ==> s[mid..end][k - mid] == s[k];
    RunEndUnique(s, start, end);
    assert Run(s, start) == s[start..mid] + s[mid..end];
    ZerosHaveNoValue(s[start..mid]);
    ValueOfConcat(s[start..mid], s[mid..end]);
  }

  lemma SignificantOrder(x: string, y: string)
    requires AllDigits(x) && AllDigits(y) && (x != [] ==> x[0] != '0') && (y != [] ==> y[0] != '0')
    ensures |x| < |y| ==> Value(x) < Value(y)
    ensures |y| < |x| ==> Value(y) < Value(x)
  {
    if |x| < |y| {
      LongerIsLarger(x, y);
    } else if |y| < |x| {
      LongerIsLarger(y, x);
    }
  }

  /** Folding leaves digits alone, so a run of digits is the same run in the folded text. */
  lemma RunsSurviveFolding(s: string, i: nat)
    requires i <= |s|
    ensures RunEnd(AsciiFold(s), i) == RunEnd(s, i)
    ensures Run(AsciiFold(s), i) == Run(s, i)
  {
    RunEndUnique(AsciiFold(s), i, RunEnd(s, i));
  }

  /** `natural_cmp_ascii`: two byte indices, lower-casing on the fly. */
  method NaturalCmpAscii(left: string, right: string) returns (ordering: Ordering)
    ensures ordering == CompareText(AsciiFold(left), 0, AsciiFold(right), 0)
  {
    ghost var a, b := AsciiFold(left), AsciiFold(right);
    var i, j := 0, 0;
    while i < |left| && j < |right|
      invariant i == j && i <= |left| && j <= |right|
      invariant CompareText(a, 0, b, 0) == CompareText(a, i, b, j)
    {
      if IsDigit(left[i]) && IsDigit(right[j]) {
        RunsSurviveFolding(left, i);
        RunsSurviveFolding(right, j);
        ordering, i, j := CompareDigitRuns(left, i, right, j);
        if ordering != Equal {
          return;
        }
      } else {
        ordering := CompareChars(AsciiLower(left[i]), AsciiLower(right[j]));
        if ordering != Equal {
          return;
        }
        i, j := i + 1, j + 1;
      }
    }
    ordering := CompareInt(|left|, |right|);
  }

  /** The loop of `natural_cmp` over two peekable streams of folded characters. */
  method NaturalCmpStreams(left: string, right: string) returns (ordering: Ordering)
    ensures ordering == CompareText(left, 0, right, 0)
  {
    var i: nat, j: nat := 0, 0;
    while true
      invariant i <= |left| && j <= |right|
      invariant CompareText(left, 0, right, 0) == CompareText(left, i, right, j)
      decreases |left| - i
    {
      if i == |left| && j == |right| {
        return Equal;
      } else if i == |left| {
        return Less;
      } else if j == |right| {
        return Greater;
      } else if IsDigit(left[i]) && IsDigit(right[j]) {
        ordering, i, j := CompareDigitRuns(left, i, right, j);
        if ordering != Equal {
          return;
        }
      } else {
        ordering := CompareChars(left[i], right[j]);
        i, j := i + 1, j + 1;
        if ordering != Equal {
          return;
        }
      }
    }
  }

  /** `natural_cmp`: the byte loop on two ASCII strings, the character loop otherwise, with one meaning. */
  method NaturalCmp(table: CaseTable, left: string, right: string) returns (ordering: Ordering)
    ensures ordering == NaturalCompare(table, left, right)
  {
    if IsAscii(left) && IsAscii(right) {
      FoldOfAscii(table, left);
      FoldOfAscii(table, right);
      ordering := NaturalCmpAscii(left, right);
    } else {
      ordering := NaturalCmpStreams(Fold(table, left), Fold(table, right));
    }
  }
}
