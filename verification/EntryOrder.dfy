/** The order of an archive listing: `compare_entries_by_sort` and the timestamp parser it rests on. */
module EntryOrder {
  import opened Wrappers
  import opened Decimal
  import opened StringOrder
  import opened NaturalOrder
  import opened ArchiveTypes

  // ---------------------------------------------------------------------------------------------
  // Timestamps
  // ---------------------------------------------------------------------------------------------

  const I128_MIN := -0x8000_0000_0000_0000_0000_0000_0000_0000
  const I128_MAX := 0x7FFF_FFFF_FFFF_FFFF_FFFF_FFFF_FFFF_FFFF

  function CheckedI128(n: int): Option<int> {
    if I128_MIN <= n <= I128_MAX then Some(n) else None
  }

  function Signed(negative: bool, magnitude: nat): int {
    if negative then 0 - magnitude else magnitude
  }

  predicate IsSign(s: string) {
    s != [] && (s[0] == '-' || s[0] == '+')
  }

  /** `str::parse::<i128>`: an optional sign, at least one digit, and no overflow. */
  function ParseI128(s: string): Option<int> {
    var digits := if IsSign(s) then s[1..] else s;
    if digits == [] || !AllDigits(digits) then None
    else CheckedI128(Signed(s[0] == '-', Value(digits)))
  }

  /** The position of the first point in `s`, or its length. */
  function PointAt(s: string): (i: nat)
    ensures i <= |s| && (i < |s| ==> s[i] == '.') && '.' !in s[..i]
  {
    if s == [] || s[0] == '.' then 0
    else
      var i := 1 + PointAt(s[1..]);
      assert s[..i] == [s[0]] + s[1..][..i - 1];
      i
  }

  function Zeros(n: nat): (s: string)
    ensures |s| == n && AllDigits(s) && forall i :: 0 <= i < n ==> s[i] == '0'
  {
    seq(n, i => '0')
  }

  /** A decimal numeral of seconds with at most nine fractional digits, cut at its point. */
  datatype Stamp = Stamp(negative: bool, seconds: string, fraction: string)

  predicate WellFormed(stamp: Stamp) {
    stamp.seconds != [] && AllDigits(stamp.seconds) && AllDigits(stamp.fraction) && |stamp.fraction| <= 9
  }

  function CutStamp(value: string): Stamp {
    var point := PointAt(value);
    var seconds := value[..point];
    Stamp(seconds != [] && seconds[0] == '-', if IsSign(seconds) then seconds[1..] else seconds,
          if point < |value| then value[point + 1..] else [])
  }

  /** The digits of a stamp read as one numeral, padded to nine fractional digits. */
  function Magnitude(stamp: Stamp): nat
    requires WellFormed(stamp)
  {
    Value(stamp.seconds + stamp.fraction + Zeros(9 - |stamp.fraction|))
  }

  /** The value of a stamp in nanoseconds, if it is a numeral and fits 128 bits. */
  function StampNanos(stamp: Stamp): Option<int> {
    if WellFormed(stamp) then CheckedI128(Signed(stamp.negative, Magnitude(stamp))) else None
  }

  /**
   * The instant a timestamp denotes, in nanoseconds: the numeral of all its digits with its sign, so "-0.5" is
   * half a second before the epoch. None when it is not such a numeral, or too large.
   */
  function EpochNanos(value: string): Option<int> {
    StampNanos(CutStamp(value))
  }

  /** `parse_epoch_timestamp`. */
  method ParseEpochTimestamp(value: string) returns (nanos: Option<int>)
    ensures nanos == EpochNanos(value)
  {
    var point := PointAt(value);
    var seconds := value[..point];
    var fraction := if point < |value| then value[point + 1..] else [];
    var negative := seconds != [] && seconds[0] == '-';
    ghost var stamp := CutStamp(value);
    assert stamp.negative == negative && stamp.fraction == fraction;
    ParsedSeconds(value);
    var parsed := ParseI128(seconds);
    if parsed == None {
      return None;
    }
    if |fraction| > 9 || !AllDigits(fraction) {
      return None;
    }
    var nanoseconds := FractionNanos(fraction);
    NanosInSteps(stamp, parsed.value, nanoseconds);
    nanos := AddNanos(parsed.value, negative, nanoseconds);
  }

  /** The two checked operations that follow the parsing. */
  method AddNanos(seconds: int, negative: bool, nanoseconds: nat) returns (nanos: Option<int>)
    requires nanoseconds < 1_000_000_000 && (if negative then seconds <= 0 else seconds >= 0)
    ensures nanos == CheckedI128(seconds * 1_000_000_000 + Signed(negative, nanoseconds))
  {
    var scaled := CheckedI128(seconds * 1_000_000_000);
    if scaled == None {
      return None;
    }
    nanos := CheckedI128(scaled.value + Signed(negative, nanoseconds));
  }

  /** Parsing the text before the point yields the signed seconds of the stamp, or there is no such stamp. */
  lemma ParsedSeconds(value: string)
    ensures var stamp, parsed := CutStamp(value), ParseI128(value[..PointAt(value)]);
      && (parsed == None ==> StampNanos(stamp) == None)
      && (parsed.Some? ==> stamp.seconds != [] && AllDigits(stamp.seconds)
                           && parsed.value == Signed(stamp.negative, Value(stamp.seconds)))
  {
    SecondsOverflow(CutStamp(value));
  }

  lemma SecondsOverflow(stamp: Stamp)
    ensures WellFormed(stamp) && CheckedI128(Signed(stamp.negative, Value(stamp.seconds))) == None ==>
        StampNanos(stamp) == None
  {
    if WellFormed(stamp) {
      MagnitudeParts(stamp);
    }
  }

  lemma NanosInSteps(stamp: Stamp, parsed: int, nanoseconds: nat)
    requires WellFormed(stamp) && parsed == Signed(stamp.negative, Value(stamp.seconds))
    requires nanoseconds == Value(stamp.fraction + Zeros(9 - |stamp.fraction|))
    ensures nanoseconds < 1_000_000_000
    ensures StampNanos(stamp) == CheckedI128(parsed * 1_000_000_000 + Signed(stamp.negative, nanoseconds))
  {
    MagnitudeParts(stamp);
  }

  /** The scaling loop: ten times for every fractional digit missing from nine. */
  method FractionNanos(fraction: string) returns (nanoseconds: nat)
    requires AllDigits(fraction) && |fraction| <= 9
    ensures nanoseconds == Value(fraction + Zeros(9 - |fraction|))
  {
    nanoseconds := Value(fraction);
    assert fraction + Zeros(0) == fraction;
    for i := |fraction| to 9
      invariant nanoseconds == Value(fraction + Zeros(i - |fraction|))
    {
      assert (fraction + Zeros(i + 1 - |fraction|))[..i] == fraction + Zeros(i - |fraction|);
      nanoseconds := 10 * nanoseconds;
    }
  }

  lemma MagnitudeParts(stamp: Stamp)
    requires WellFormed(stamp)
    ensures var rest := Value(stamp.fraction + Zeros(9 - |stamp.fraction|));
      Magnitude(stamp) == Value(stamp.seconds) * 1_000_000_000 + rest && rest < 1_000_000_000
  {
    var tail := stamp.fraction + Zeros(9 - |stamp.fraction|);
    assert stamp.seconds + stamp.fraction + Zeros(9 - |stamp.fraction|) == stamp.seconds + tail;
    ValueOfConcat(stamp.seconds, tail);
    ValueBelowPower(tail);
    PowersOfTen();
  }

  lemma PowersOfTen()
    ensures Pow10(1) == 10 && Pow10(8) == 100_000_000 && Pow10(9) == 1_000_000_000
  {
    assert Pow10(3) == 1000;
    assert Pow10(6) == 1000_000;
  }

  function NumeralText(sign: string, seconds: string, point: bool, fraction: string): string {
    sign + seconds + if point then "." + fraction else ""
  }

  /** A decimal numeral of seconds: a sign or none, digits, and perhaps a point with at most nine more. */
  predicate IsNumeral(sign: string, seconds: string, point: bool, fraction: string) {
    && (sign == "" || sign == "-" || sign == "+")
    && seconds != [] && AllDigits(seconds) && AllDigits(fraction) && |fraction| <= 9 && (!point ==> fraction == [])
  }

  lemma {:induction false} PointOfNumeral(head: string, tail: string)
    requires '.' !in head && (tail == [] || tail[0] == '.')
    ensures PointAt(head + tail) == |head|
  {
    if head == [] {
      assert head + tail == tail;
    } else {
      assert (head + tail)[1..] == head[1..] + tail;
      PointOfNumeral(head[1..], tail);
    }
  }

  lemma CutAt(head: string, tail: string)
    requires '.' !in head && (tail == [] || tail[0] == '.')
    ensures CutStamp(head + tail) == Stamp(head != [] && head[0] == '-', if IsSign(head) then head[1..] else head,
                                           if tail == [] then [] else tail[1..])
  {
    PointOfNumeral(head, tail);
    assert (head + tail)[..|head|] == head;
    assert tail != [] ==> (head + tail)[|head| + 1..] == tail[1..];
  }

  lemma DigitsHaveNoPoint(sign: string, seconds: string)
    requires (sign == "" || sign == "-" || sign == "+") && AllDigits(seconds) && seconds != []
    ensures var head := sign + seconds;
      && '.' !in head && head != [] && (head[0] == '-' <==> sign == "-")
      && seconds == if IsSign(head) then head[1..] else head
  {
    assert !IsDigit('.') && !IsDigit('-') && !IsDigit('+');
    assert sign == "" ==> sign + seconds == seconds;
  }

  lemma CutOfNumeral(sign: string, seconds: string, point: bool, fraction: string)
    requires IsNumeral(sign, seconds, point, fraction)
    ensures CutStamp(NumeralText(sign, seconds, point, fraction)) == Stamp(sign == "-", seconds, fraction)
  {
    var tail := if point then "." + fraction else "";
    DigitsHaveNoPoint(sign, seconds);
    CutAt(sign + seconds, tail);
    assert point ==> tail[1..] == fraction;
  }

  /** What digits before and after the point amount to, in nanoseconds. */
  function NanosOf(seconds: string, fraction: string): nat
    requires AllDigits(seconds) && AllDigits(fraction) && |fraction| <= 9
  {
    Value(seconds) * 1_000_000_000 + Value(fraction) * Pow10(9 - |fraction|)
  }

  lemma PaddedFraction(fraction: string, zeros: string)
    requires AllDigits(fraction) && forall i :: 0 <= i < |zeros| ==> zeros[i] == '0'
    ensures AllDigits(zeros) && Value(fraction + zeros) == Value(fraction) * Pow10(|zeros|)
  {
    ZerosHaveNoValue(zeros);
    ValueOfConcat(fraction, zeros);
  }

  lemma MagnitudeIsNanos(stamp: Stamp)
    requires WellFormed(stamp)
    ensures Magnitude(stamp) == NanosOf(stamp.seconds, stamp.fraction)
  {
    MagnitudeParts(stamp);
    PaddedFraction(stamp.fraction, Zeros(9 - |stamp.fraction|));
  }

  /** A numeral denotes its seconds and its fraction in nanoseconds, both with its sign, as far as 128 bits reach. */
  lemma InstantOfNumeral(sign: string, seconds: string, point: bool, fraction: string)
    requires IsNumeral(sign, seconds, point, fraction)
    ensures EpochNanos(NumeralText(sign, seconds, point, fraction))
        == CheckedI128(if sign == "-" then 0 - NanosOf(seconds, fraction) else NanosOf(seconds, fraction))
  {
    CutOfNumeral(sign, seconds, point, fraction);
    MagnitudeIsNanos(Stamp(sign == "-", seconds, fraction));
  }

  /** The text is what the cut took apart. */
  lemma CutLosesNothing(text: string) returns (sign: string, point: bool)
    ensures sign == "" || sign == "-" || sign == "+"
    ensures var stamp := CutStamp(text);
      text == NumeralText(sign, stamp.seconds, point, stamp.fraction) && (!point ==> stamp.fraction == [])
  {
    var at := PointAt(text);
    var head := text[..at];
    sign := if IsSign(head) then [head[0]] else "";
    point := at < |text|;
    var seconds := if IsSign(head) then head[1..] else head;
    assert head == sign + seconds;
    if point {
      assert text == head + ("." + text[at + 1..]);
    } else {
      assert text == head + "";
    }
  }

  /** Nothing else denotes an instant. */
  lemma OnlyNumeralsAreInstants(text: string) returns (sign: string, seconds: string, point: bool, fraction: string)
    requires EpochNanos(text).Some?
    ensures IsNumeral(sign, seconds, point, fraction) && text == NumeralText(sign, seconds, point, fraction)
  {
    sign, point := CutLosesNothing(text);
    seconds, fraction := CutStamp(text).seconds, CutStamp(text).fraction;
  }

  lemma HalfSecondCut()
    ensures CutStamp("-0.5") == Stamp(true, "0", "5")
  {
    var value := "-0.5";
    assert value[..2] == "-0" && value[3..] == "5";
    assert PointAt(value) == 2 by {
      assert value[1..] == "0.5" && value[1..][1..] == ".5";
    }
    assert "-0"[1..] == "0";
  }

  lemma SingleDigits()
    ensures Value("0") == 0 && Value("5") == 5 && Value("1") == 1 && Value("9") == 9
  {
    assert "0"[..0] == "" && "5"[..0] == "" && "1"[..0] == "" && "9"[..0] == "";
  }

  /** Half a second before the epoch keeps its sign although its whole seconds are zero. */
  lemma HalfSecondBeforeEpoch()
    ensures EpochNanos("-0.5") == Some(-500_000_000)
  {
    HalfSecondCut();
    MagnitudeParts(Stamp(true, "0", "5"));
    ValueOfConcat("5", Zeros(8));
    ZerosHaveNoValue(Zeros(8));
    SingleDigits();
    PowersOfTen();
  }

  // ---------------------------------------------------------------------------------------------
  // Comparing values
  // ---------------------------------------------------------------------------------------------

  /** An absent value sorts after every present one. */
  function CompareOptional(left: Option<int>, right: Option<int>): Ordering {
    match (left, right)
    case (Some(l), Some(r)) => CompareInt(l, r)
    case (None, None) => Equal
    case (None, Some(_)) => Greater
    case (Some(_), None) => Less
  }

  function CompareOptionalText(table: CaseTable, left: Option<string>, right: Option<string>): Ordering {
    match (left, right)
    case (Some(l), Some(r)) => NaturalCompare(table, l, r)
    case (None, None) => Equal
    case (None, Some(_)) => Greater
    case (Some(_), None) => Less
  }

  function CompareStamps(left: string, right: string): Ordering {
    match (EpochNanos(left), EpochNanos(right))
    case (Some(l), Some(r)) => CompareInt(l, r)
    case _ => CompareCodePoints(left, right)
  }

  function CompareOptionalStamps(left: Option<string>, right: Option<string>): Ordering {
    match (left, right)
    case (Some(l), Some(r)) => CompareStamps(l, r)
    case (None, None) => Equal
    case (None, Some(_)) => Greater
    case (Some(_), None) => Less
  }

  /** `Option::zip` of the unpacked and the packed size. */
  function Ratio(metadata: Metadata): Option<(u64, u64)> {
    match (metadata.size, metadata.compressedSize)
    case (Some(size), Some(packed)) => Some((size, packed))
    case _ => None
  }

  function SaturatingMul(x: nat, y: nat): nat {
    if x * y > U64_MAX then U64_MAX else x * y
  }

  function CompareRatios(left: (u64, u64), right: (u64, u64)): Ordering {
    CompareInt(SaturatingMul(left.1, right.0), SaturatingMul(right.1, left.0))
  }

  function CompareOptionalRatios(left: Option<(u64, u64)>, right: Option<(u64, u64)>): Ordering {
    match (left, right)
    case (Some(l), Some(r)) => CompareRatios(l, r)
    case (None, None) => Equal
    case (None, Some(_)) => Greater
    case (Some(_), None) => Less
  }

  // ---------------------------------------------------------------------------------------------
  // Which timestamps and which ratios can be sorted
  // ---------------------------------------------------------------------------------------------

  /** A text that is no timestamp stands, as text, between two timestamps that do not increase. */
  predicate Misfit(p: string, u: string, q: string) {
    && EpochNanos(p).Some? && EpochNanos(u) == None && EpochNanos(q).Some?
    && CompareCodePoints(p, u) == Less && CompareCodePoints(u, q) == Less && EpochNanos(p).value >= EpochNanos(q).value
  }

  predicate SomeMisfit(a: string, b: string, c: string) {
    Misfit(a, b, c) || Misfit(c, b, a) || Misfit(b, a, c) || Misfit(c, a, b) || Misfit(a, c, b) || Misfit(b, c, a)
  }

  ghost predicate StampsAgree(stamps: set<string>) {
    forall p, u, q :: p in stamps && u in stamps && q in stamps ==> !Misfit(p, u, q)
  }

  ghost predicate StampsChain(stamps: set<string>) {
    forall a, b, c :: a in stamps && b in stamps && c in stamps
      ==> Chains(CompareStamps(a, b), CompareStamps(b, c), CompareStamps(a, c))
  }

  lemma FirstIsNoStamp(a: string, b: string, c: string)
    requires !SomeMisfit(a, b, c) && EpochNanos(a) == None
    ensures Chains(CompareStamps(a, b), CompareStamps(b, c), CompareStamps(a, c))
  {
    CodePointLaws(a, b, c);
    CodePointLaws(c, a, b);
    CodePointLaws(b, a, c);
  }

  lemma LastIsNoStamp(a: string, b: string, c: string)
    requires !SomeMisfit(a, b, c) && EpochNanos(c) == None
    ensures Chains(CompareStamps(a, b), CompareStamps(b, c), CompareStamps(a, c))
  {
    CodePointLaws(a, b, c);
    CodePointLaws(a, c, b);
    CodePointLaws(b, c, a);
  }

  lemma MiddleIsNoStamp(a: string, b: string, c: string)
    requires !SomeMisfit(a, b, c) && EpochNanos(a).Some? && EpochNanos(b) == None && EpochNanos(c).Some?
    ensures Chains(CompareStamps(a, b), CompareStamps(b, c), CompareStamps(a, c))
  {
    CodePointLaws(a, b, c);
    CodePointLaws(c, b, a);
  }

  lemma StampTripleChains(a: string, b: string, c: string)
    requires !SomeMisfit(a, b, c)
    ensures Chains(CompareStamps(a, b), CompareStamps(b, c), CompareStamps(a, c))
  {
    if EpochNanos(a) == None {
      FirstIsNoStamp(a, b, c);
    } else if EpochNanos(c) == None {
      LastIsNoStamp(a, b, c);
    } else if EpochNanos(b) == None {
      MiddleIsNoStamp(a, b, c);
    }
  }

  lemma AgreeingTexts(stamps: set<string>, a: string, b: string, c: string)
    requires StampsAgree(stamps) && a in stamps && b in stamps && c in stamps
    ensures !SomeMisfit(a, b, c)
  {
  }

  lemma MisfitDoesNotChain(p: string, u: string, q: string)
    requires Misfit(p, u, q)
    ensures !Chains(CompareStamps(p, u), CompareStamps(u, q), CompareStamps(p, q))
  {
  }

  /** The timestamp comparison is transitive on a set of texts exactly when there is no misfit among them. */
  lemma StampsChainIff(stamps: set<string>)
    ensures StampsChain(stamps) <==> StampsAgree(stamps)
  {
    if StampsAgree(stamps) {
      forall a, b, c | a in stamps && b in stamps && c in stamps
        ensures Chains(CompareStamps(a, b), CompareStamps(b, c), CompareStamps(a, c))
      {
        AgreeingTexts(stamps, a, b, c);
        StampTripleChains(a, b, c);
      }
    } else {
      var p, u, q :| p in stamps && u in stamps && q in stamps && Misfit(p, u, q);
      MisfitDoesNotChain(p, u, q);
    }
  }

  lemma WholeMagnitude(seconds: string)
    requires AllDigits(seconds) && seconds != []
    ensures Magnitude(Stamp(false, seconds, [])) == Value(seconds) * 1_000_000_000
  {
    MagnitudeParts(Stamp(false, seconds, []));
    assert [] + Zeros(9) == Zeros(9);
    ZerosHaveNoValue(Zeros(9));
  }

  lemma WholeSeconds(value: string)
    requires AllDigits(value) && value != [] && Value(value) < 1_000_000_000
    ensures EpochNanos(value) == Some(Value(value) * 1_000_000_000)
  {
    WholeSecondsCut(value);
    WholeMagnitude(value);
  }

  lemma WholeSecondsCut(value: string)
    requires AllDigits(value) && value != []
    ensures CutStamp(value) == Stamp(false, value, [])
  {
    assert PointAt(value) == |value|;
    assert value[..|value|] == value;
    assert IsDigit(value[0]);
  }

  lemma NineAndTen()
    ensures EpochNanos("9") == Some(9_000_000_000) && EpochNanos("10") == Some(10_000_000_000)
  {
    SingleDigits();
    assert "10"[..1] == "1";
    WholeSeconds("9");
    WholeSeconds("10");
  }

  lemma OneXIsNoStamp()
    ensures EpochNanos("1x") == None
  {
    assert "1x"[1] == 'x';
    assert PointAt("1x") == 2 && "1x"[..2] == "1x";
    assert CutStamp("1x").seconds == "1x" && !IsDigit("1x"[1]);
  }

  /** "9" < "10" < "1x" < "9": a text that is no timestamp breaks the order of the numbers around it. */
  lemma MixedStampsCycle()
    ensures CompareStamps("9", "10") == Less && CompareStamps("10", "1x") == Less && CompareStamps("1x", "9") == Less
    ensures !StampsChain({"9", "10", "1x"})
  {
    NineAndTen();
    OneXIsNoStamp();
    assert "10"[1..] == "0" && "1x"[1..] == "x" && CompareCodePoints("0", "x") == Less;
    assert Chains(CompareStamps("9", "10"), CompareStamps("10", "1x"), CompareStamps("9", "1x")) ==>
        CompareStamps("9", "1x") == Less;
    CodePointLaws("9", "1x", "9");
  }

  /** Two ratios compare equal when their cross products are equal, or when both saturate. */
  predicate RatioTied(r: (u64, u64), s: (u64, u64)) {
    r.1 * s.0 == s.1 * r.0 || (r.1 * s.0 >= U64_MAX && s.1 * r.0 >= U64_MAX)
  }

  /** The first ratio is smaller, and its cross product does not saturate. */
  predicate RatioBefore(r: (u64, u64), s: (u64, u64)) {
    r.1 * s.0 < s.1 * r.0 && r.1 * s.0 < U64_MAX
  }

  lemma RatioOutcomes(r: (u64, u64), s: (u64, u64))
    ensures CompareRatios(r, s) == Equal <==> RatioTied(r, s)
    ensures CompareRatios(r, s) == Less <==> RatioBefore(r, s)
    ensures CompareRatios(r, s) == Greater <==> RatioBefore(s, r)
  {
  }

  /** The comparison of two ratios is that of the fractions, unless different cross products both saturate. */
  predicate ExactPair(r: (u64, u64), s: (u64, u64)) {
    r.1 * s.0 == s.1 * r.0 || r.1 * s.0 < U64_MAX || s.1 * r.0 < U64_MAX
  }

  lemma RatioExactIff(r: (u64, u64), s: (u64, u64))
    ensures CompareRatios(r, s) == CompareInt(r.1 * s.0, s.1 * r.0) <==> ExactPair(r, s)
  {
  }

  /** Not both sizes of an entry are zero, unless every two entries tie. */
  ghost predicate RatiosComparable(ratios: set<(u64, u64)>) {
    (0, 0) !in ratios || forall r, s :: r in ratios && s in ratios ==> r.1 * s.0 == s.1 * r.0
  }

  ghost predicate RatiosChain(ratios: set<(u64, u64)>) {
    forall a, b, c :: a in ratios && b in ratios && c in ratios
      ==> Chains(CompareRatios(a, b), CompareRatios(b, c), CompareRatios(a, c))
  }

  lemma ProductMonotone(x: nat, y: nat, z: nat)
    ensures x <= y ==> x * z <= y * z
    ensures z > 0 && x * z <= y * z ==> x <= y
  {
    if x <= y {
      assert (y - x) * z >= 0;
    } else if z > 0 {
      assert (x - y) * z > 0;
    }
  }

  /** Comparing fractions by cross products is transitive through any (s, p) other than (0, 0). */
  lemma CrossLeqTransitive(s: nat, p: nat, s': nat, p': nat, s'': nat, p'': nat)
    requires p * s' <= p' * s && p' * s'' <= p'' * s'
    requires s' > 0 || p' > 0
    ensures p * s'' <= p'' * s
  {
    if s' > 0 {
      ProductMonotone(p * s', p' * s, s'');
      ProductMonotone(p' * s'', p'' * s', s);
      assert (p * s'') * s' == (p * s') * s'' <= (p' * s) * s'' == (p' * s'') * s <= (p'' * s') * s == (p'' * s) * s';
      ProductMonotone(p * s'', p'' * s, s');
    } else {
      assert p'' * s' == 0;
      assert p' * s'' <= 0;
      if s'' > 0 {
        ProductMonotone(1, p', s'');
      }
      assert s'' == 0;
      assert p * s'' == 0;
    }
  }

  /** No third ratio tells two tied ones apart. */
  ghost predicate TiesAgree(ratios: set<(u64, u64)>) {
    forall a, b, c :: a in ratios && b in ratios && c in ratios && RatioTied(a, b) ==>
      (RatioBefore(a, c) <==> RatioBefore(b, c)) && (RatioBefore(c, a) <==> RatioBefore(c, b))
  }

  lemma BeforeExcludes(r: (u64, u64), s: (u64, u64))
    requires RatioBefore(r, s)
    ensures !RatioBefore(s, r) && !RatioTied(r, s) && !RatioTied(s, r)
    ensures r.0 > 0 && s.1 > 0
  {
    assert s.1 * r.0 > 0;
  }

  /** Two steps up are a step up: were the ends tied, the middle would tell them apart. */
  lemma BeforeIsTransitive(ratios: set<(u64, u64)>, a: (u64, u64), b: (u64, u64), c: (u64, u64))
    requires TiesAgree(ratios) && a in ratios && b in ratios && c in ratios
    requires RatioBefore(a, b) && RatioBefore(b, c)
    ensures RatioBefore(a, c)
  {
    BeforeExcludes(a, b);
    BeforeExcludes(b, c);
    CrossLeqTransitive(a.0, a.1, b.0, b.1, c.0, c.1);
    assert RatioTied(a, c) ==> (RatioBefore(a, b) <==> RatioBefore(c, b));
  }

  lemma RatioTripleChains(ratios: set<(u64, u64)>, a: (u64, u64), b: (u64, u64), c: (u64, u64))
    requires TiesAgree(ratios) && a in ratios && b in ratios && c in ratios
    ensures Chains(CompareRatios(a, b), CompareRatios(b, c), CompareRatios(a, c))
  {
    RatioOutcomes(a, b);
    RatioOutcomes(b, c);
    RatioOutcomes(a, c);
    if RatioBefore(a, b) && RatioBefore(b, c) {
      BeforeIsTransitive(ratios, a, b, c);
    } else if RatioBefore(c, b) && RatioBefore(b, a) {
      BeforeIsTransitive(ratios, c, b, a);
    }
  }

  /**
   * The ratio comparison is transitive on a set exactly when no ratio tells two tied ones apart, ties being equal
   * cross products and pairs of products that both saturate.
   */
  lemma RatiosChainIff(ratios: set<(u64, u64)>)
    ensures RatiosChain(ratios) <==> TiesAgree(ratios)
  {
    if TiesAgree(ratios) {
      forall a, b, c | a in ratios && b in ratios && c in ratios
        ensures Chains(CompareRatios(a, b), CompareRatios(b, c), CompareRatios(a, c))
      {
        RatioTripleChains(ratios, a, b, c);
      }
    }
    if RatiosChain(ratios) {
      forall a, b, c | a in ratios && b in ratios && c in ratios && RatioTied(a, b)
        ensures (RatioBefore(a, c) <==> RatioBefore(b, c)) && (RatioBefore(c, a) <==> RatioBefore(c, b))
      {
        assert Chains(CompareRatios(a, b), CompareRatios(b, c), CompareRatios(a, c));
        RatioOutcomes(a, b);
        RatioOutcomes(b, c);
        RatioOutcomes(a, c);
      }
    }
  }

  /** With exact comparisons only, ties disagree exactly around an entry with both sizes zero. */
  lemma ExactRatiosChainIff(ratios: set<(u64, u64)>)
    requires forall r, s :: r in ratios && s in ratios ==> ExactPair(r, s)
    ensures RatiosChain(ratios) <==> RatiosComparable(ratios)
  {
    RatiosChainIff(ratios);
    if RatiosComparable(ratios) {
      forall a, b, c | a in ratios && b in ratios && c in ratios && RatioTied(a, b)
        ensures (RatioBefore(a, c) <==> RatioBefore(b, c)) && (RatioBefore(c, a) <==> RatioBefore(c, b))
      {
        if (0, 0) !in ratios {
          assert ExactPair(a, b) && ExactPair(a, c) && ExactPair(b, c) && ExactPair(c, a) && ExactPair(c, b);
          ExactTieAgrees(a, b, c);
          ExactTieAgrees(b, a, c);
        }
      }
    }
    if RatiosChain(ratios) && (0, 0) in ratios {
      forall r, s | r in ratios && s in ratios
        ensures r.1 * s.0 == s.1 * r.0
      {
        assert Chains(CompareRatios(r, (0, 0)), CompareRatios((0, 0), s), CompareRatios(r, s));
        assert ExactPair(r, s);
        RatioExactIff(r, s);
      }
    }
  }

  lemma ExactTieAgrees(a: (u64, u64), b: (u64, u64), c: (u64, u64))
    requires a != (0, 0) && b != (0, 0) && a.1 * b.0 == b.1 * a.0
    requires ExactPair(a, c) && ExactPair(b, c)
    ensures RatioBefore(a, c) ==> RatioBefore(b, c)
    ensures RatioBefore(c, a) ==> RatioBefore(c, b)
  {
    if b.1 * c.0 >= c.1 * b.0 {
      CrossLeqTransitive(c.0, c.1, b.0, b.1, a.0, a.1);
    }
    if b.1 * c.0 <= c.1 * b.0 {
      CrossLeqTransitive(a.0, a.1, b.0, b.1, c.0, c.1);
    }
  }

  /** Saturated products lose the order: the first ratio is half the second, and both tie with their neighbour. */
  lemma SaturationLosesOrder()
    ensures var a, b, c: (u64, u64) := (0x100_0000_0000, 0x100_0000_0000), (0x100_0000_0000, 0x200_0000_0000),
        (0x400, 0x800);
      CompareRatios(a, b) == Equal && CompareRatios(b, c) == Equal && CompareRatios(a, c) == Less
  {
  }

  // ---------------------------------------------------------------------------------------------
  // The order of entries
  // ---------------------------------------------------------------------------------------------

  datatype SortKey =
    | BySize | ByCompressedSize | ByModified | ByCreated | ByAccessed | ByMode | ByUid | ByGid | ByKind | ByRatio
    | ByEncrypted | BySolid | ByCompression | ByCrc | ByComment | ByLinkTarget | ByAttributes | ByOwner | ByGroup
    | ByDiagnostics | ByName

  /** The sort key a request names; every unknown name sorts by name. */
  function ParseSortKey(key: string): SortKey {
    if key == "size" then BySize
    else if key == "compressedSize" then ByCompressedSize
    else if key == "modified" then ByModified
    else if key == "created" then ByCreated
    else if key == "accessed" then ByAccessed
    else if key == "mode" then ByMode
    else if key == "uid" then ByUid
    else if key == "gid" then ByGid
    else if key == "kind" then ByKind
    else if key == "ratio" then ByRatio
    else if key == "encrypted" then ByEncrypted
    else if key == "solid" then BySolid
    else if key == "method" then ByCompression
    else if key == "crc" then ByCrc
    else if key == "comment" then ByComment
    else if key == "linkTarget" then ByLinkTarget
    else if key == "attributes" then ByAttributes
    else if key == "owner" then ByOwner
    else if key == "group" then ByGroup
    else if key == "metadataDiagnostics" then ByDiagnostics
    else ByName
  }

  /** The text by which a request asks for a key. */
  function KeyName(key: SortKey): string {
    match key
    case BySize => "size"
    case ByCompressedSize => "compressedSize"
    case ByModified => "modified"
    case ByCreated => "created"
    case ByAccessed => "accessed"
    case ByMode => "mode"
    case ByUid => "uid"
    case ByGid => "gid"
    case ByKind => "kind"
    case ByRatio => "ratio"
    case ByEncrypted => "encrypted"
    case BySolid => "solid"
    case ByCompression => "method"
    case ByCrc => "crc"
    case ByComment => "comment"
    case ByLinkTarget => "linkTarget"
    case ByAttributes => "attributes"
    case ByOwner => "owner"
    case ByGroup => "group"
    case ByDiagnostics => "metadataDiagnostics"
    case ByName => "name"
  }

  lemma NumberNames(key: SortKey, text: string)
    requires key == BySize || key == ByCompressedSize || key == ByMode || key == ByUid || key == ByGid
    ensures ParseSortKey(text) == key <==> text == KeyName(key)
  {
  }

  lemma OtherNames(key: SortKey, text: string)
    requires key == ByKind || key == ByRatio || key == ByEncrypted || key == BySolid || key == ByDiagnostics
    ensures ParseSortKey(text) == key <==> text == KeyName(key)
  {
  }

  lemma StampNames(key: SortKey, text: string)
    requires IsStampKey(key)
    ensures ParseSortKey(text) == key <==> text == KeyName(key)
  {
  }

  lemma TextNames(key: SortKey, text: string)
    requires key == ByCompression || key == ByCrc || key == ByComment || key == ByLinkTarget
    ensures ParseSortKey(text) == key <==> text == KeyName(key)
  {
  }

  lemma LastNames(key: SortKey, text: string)
    requires key == ByAttributes || key == ByOwner || key == ByGroup
    ensures ParseSortKey(text) == key <==> text == KeyName(key)
  {
  }

  lemma ParseNames(key: SortKey, text: string)
    requires key != ByName
    ensures ParseSortKey(text) == key <==> text == KeyName(key)
  {
    match key
    case BySize | ByCompressedSize | ByMode | ByUid | ByGid => NumberNames(key, text);
    case ByKind | ByRatio | ByEncrypted | BySolid | ByDiagnostics => OtherNames(key, text);
    case ByModified | ByCreated | ByAccessed => StampNames(key, text);
    case ByCompression | ByCrc | ByComment | ByLinkTarget => TextNames(key, text);
    case ByAttributes | ByOwner | ByGroup => LastNames(key, text);
  }

  /** A text asks for a key exactly when it is its name; a text that names none asks for the order by name. */
  lemma ParseInvertsKeyName(key: SortKey, text: string)
    ensures key != ByName ==> (ParseSortKey(text) == key <==> text == KeyName(key))
    ensures ParseSortKey(text) == ByName <==> forall other :: other != ByName ==> KeyName(other) != text
    ensures ParseSortKey(KeyName(key)) == key
  {
    forall other | other != ByName ensures ParseSortKey(text) == other <==> text == KeyName(other) {
      ParseNames(other, text);
    }
    if ParseSortKey(text) != ByName {
      ParseNames(ParseSortKey(text), text);
    }
    if key != ByName {
      ParseNames(key, KeyName(key));
    }
  }

  function KindRank(kind: EntryKind): nat {
    match kind
    case Directory => 0
    case File => 1
    case Symlink => 2
    case Hardlink => 3
    case Special => 4
  }

  function Flag(value: Option<bool>): Option<int> {
    match value
    case None => None
    case Some(b) => Some(if b then 1 else 0)
  }

  function DiagnosticCount(metadata: Metadata): Option<int> {
    if metadata.diagnostics == [] then None else Some(|metadata.diagnostics|)
  }

  /** What follows the last slash of a path. */
  function ArchiveName(path: string): string {
    if path == [] then path
    else if path[|path| - 1] == '/' then []
    else ArchiveName(path[..|path| - 1]) + [path[|path| - 1]]
  }

  lemma {:induction false} NameFollowsLastSlash(path: string)
    ensures var name := ArchiveName(path);
      && '/' !in name && |name| <= |path| && path[|path| - |name|..] == name
      && (|name| < |path| ==> path[|path| - |name| - 1] == '/')
  {
    if path != [] && path[|path| - 1] != '/' {
      NameFollowsLastSlash(path[..|path| - 1]);
    }
  }

  function IntValue(key: SortKey, entry: ArchiveEntry): Option<int> {
    var metadata := entry.metadata;
    match key
    case BySize => metadata.size
    case ByCompressedSize => metadata.compressedSize
    case ByMode => metadata.mode
    case ByUid => metadata.uid
    case ByGid => metadata.gid
    case ByKind => Some(KindRank(entry.kind))
    case ByEncrypted => Flag(metadata.encrypted)
    case BySolid => Flag(metadata.solid)
    case _ => DiagnosticCount(metadata)
  }

  function TextValue(key: SortKey, entry: ArchiveEntry): Option<string> {
    var metadata := entry.metadata;
    match key
    case ByCompression => metadata.compression
    case ByCrc => metadata.crc
    case ByComment => metadata.comment
    case ByLinkTarget => metadata.linkTarget
    case ByAttributes => metadata.attributes
    case ByOwner => metadata.owner
    case ByGroup => metadata.group
    case _ => Some(ArchiveName(entry.path))
  }

  function StampValue(key: SortKey, entry: ArchiveEntry): Option<string> {
    match key
    case ByCreated => entry.metadata.created
    case ByAccessed => entry.metadata.accessed
    case _ => entry.metadata.modified
  }

  predicate IsStampKey(key: SortKey) {
    key == ByModified || key == ByCreated || key == ByAccessed
  }

  predicate IsTextKey(key: SortKey) {
    match key
    case ByCompression | ByCrc | ByComment | ByLinkTarget | ByAttributes | ByOwner | ByGroup | ByName => true
    case _ => false
  }

  function CompareValues(table: CaseTable, key: SortKey, left: ArchiveEntry, right: ArchiveEntry): Ordering {
    if IsStampKey(key) then CompareOptionalStamps(StampValue(key, left), StampValue(key, right))
    else if IsTextKey(key) then CompareOptionalText(table, TextValue(key, left), TextValue(key, right))
    else if key == ByRatio then CompareOptionalRatios(Ratio(left.metadata), Ratio(right.metadata))
    else CompareOptional(IntValue(key, left), IntValue(key, right))
  }

  function DirectoriesFirst(left: ArchiveEntry, right: ArchiveEntry): Ordering {
    CompareInt(if right.kind == Directory then 1 else 0, if left.kind == Directory then 1 else 0)
  }

  function CompareNames(table: CaseTable, left: ArchiveEntry, right: ArchiveEntry): Ordering {
    NaturalCompare(table, ArchiveName(left.path), ArchiveName(right.path))
  }

  function ColumnOrder(
      table: CaseTable, key: SortKey, ascending: bool, left: ArchiveEntry, right: ArchiveEntry): Ordering
  {
    var values := CompareValues(table, key, left, right);
    if ascending then values else values.Reverse()
  }

  /** `compare_entries_by_sort`. */
  function CompareEntries(
      table: CaseTable, key: SortKey, ascending: bool, left: ArchiveEntry, right: ArchiveEntry): Ordering
  {
    DirectoriesFirst(left, right)
    .Then(ColumnOrder(table, key, ascending, left, right))
    .Then(CompareNames(table, left, right))
    .Then(CompareCodePoints(left.path, right.path))
  }

  function StampsOf(key: SortKey, entries: set<ArchiveEntry>): set<string> {
    set e | e in entries && StampValue(key, e).Some? :: StampValue(key, e).value
  }

  function RatiosOf(entries: set<ArchiveEntry>): set<(u64, u64)> {
    set e | e in entries && Ratio(e.metadata).Some? :: Ratio(e.metadata).value
  }

  /** When a key's values are ordered by the comparison; only timestamps and ratios can fail to be. */
  ghost predicate ValuesSortable(key: SortKey, entries: set<ArchiveEntry>) {
    && (IsStampKey(key) ==> StampsAgree(StampsOf(key, entries)))
    && (key == ByRatio ==> TiesAgree(RatiosOf(entries)))
  }

  function Folders(entries: set<ArchiveEntry>): set<ArchiveEntry> {
    set e | e in entries && e.kind == Directory
  }

  /** Values are compared among folders and among the other entries only. */
  ghost predicate Sortable(key: SortKey, entries: set<ArchiveEntry>) {
    ValuesSortable(key, Folders(entries)) && ValuesSortable(key, entries - Folders(entries))
  }

  lemma StampValueChains(key: SortKey, entries: set<ArchiveEntry>, a: ArchiveEntry, b: ArchiveEntry, c: ArchiveEntry)
    requires StampsAgree(StampsOf(key, entries)) && a in entries && b in entries && c in entries
    ensures var x, y, z := StampValue(key, a), StampValue(key, b), StampValue(key, c);
      Chains(CompareOptionalStamps(x, y), CompareOptionalStamps(y, z), CompareOptionalStamps(x, z))
  {
    var x, y, z := StampValue(key, a), StampValue(key, b), StampValue(key, c);
    if x.Some? && y.Some? && z.Some? {
      AgreeingTexts(StampsOf(key, entries), x.value, y.value, z.value);
      StampTripleChains(x.value, y.value, z.value);
    }
  }

  lemma TextValueChains(table: CaseTable, x: Option<string>, y: Option<string>, z: Option<string>)
    ensures Chains(CompareOptionalText(table, x, y), CompareOptionalText(table, y, z), CompareOptionalText(table, x, z))
  {
    if x.Some? && y.Some? && z.Some? {
      NaturalOrderLaws(table, x.value, y.value, z.value);
    }
  }

  lemma RatioValueChains(entries: set<ArchiveEntry>, a: ArchiveEntry, b: ArchiveEntry, c: ArchiveEntry)
    requires TiesAgree(RatiosOf(entries)) && a in entries && b in entries && c in entries
    ensures var x, y, z := Ratio(a.metadata), Ratio(b.metadata), Ratio(c.metadata);
      Chains(CompareOptionalRatios(x, y), CompareOptionalRatios(y, z), CompareOptionalRatios(x, z))
  {
    var x, y, z := Ratio(a.metadata), Ratio(b.metadata), Ratio(c.metadata);
    if x.Some? && y.Some? && z.Some? {
      RatioTripleChains(RatiosOf(entries), x.value, y.value, z.value);
    }
  }

  lemma ValueChains(
      table: CaseTable, key: SortKey, entries: set<ArchiveEntry>, a: ArchiveEntry, b: ArchiveEntry, c: ArchiveEntry)
    requires ValuesSortable(key, entries) && a in entries && b in entries && c in entries
    ensures Chains(CompareValues(table, key, a, b), CompareValues(table, key, b, c), CompareValues(table, key, a, c))
  {
    if IsStampKey(key) {
      StampValueChains(key, entries, a, b, c);
    } else if IsTextKey(key) {
      TextValueChains(table, TextValue(key, a), TextValue(key, b), TextValue(key, c));
    } else if key == ByRatio {
      RatioValueChains(entries, a, b, c);
    }
  }

  lemma StampReversal(x: Option<string>, y: Option<string>)
    ensures CompareOptionalStamps(y, x) == CompareOptionalStamps(x, y).Reverse()
  {
    if x.Some? && y.Some? {
      CodePointLaws(x.value, y.value, []);
    }
  }

  lemma OptionalTextReversal(table: CaseTable, x: Option<string>, y: Option<string>)
    ensures CompareOptionalText(table, y, x) == CompareOptionalText(table, x, y).Reverse()
  {
    if x.Some? && y.Some? {
      NaturalOrderLaws(table, x.value, y.value, []);
    }
  }

  lemma ValueReversal(table: CaseTable, key: SortKey, a: ArchiveEntry, b: ArchiveEntry)
    ensures CompareValues(table, key, b, a) == CompareValues(table, key, a, b).Reverse()
  {
    if IsStampKey(key) {
      StampReversal(StampValue(key, a), StampValue(key, b));
    } else if IsTextKey(key) {
      OptionalTextReversal(table, TextValue(key, a), TextValue(key, b));
    }
  }

  /** Swapping two entries reverses their comparison, and only entries with the same path tie. */
  lemma EntryReversal(table: CaseTable, key: SortKey, ascending: bool, a: ArchiveEntry, b: ArchiveEntry)
    ensures CompareEntries(table, key, ascending, b, a) == CompareEntries(table, key, ascending, a, b).Reverse()
    ensures CompareEntries(table, key, ascending, a, b) == Equal ==> a.path == b.path
  {
    ValueReversal(table, key, a, b);
    NaturalOrderLaws(table, ArchiveName(a.path), ArchiveName(b.path), []);
    CodePointLaws(a.path, b.path, []);
  }

  lemma ColumnChains(
      table: CaseTable, key: SortKey, ascending: bool, entries: set<ArchiveEntry>, a: ArchiveEntry, b: ArchiveEntry,
      c: ArchiveEntry)
    requires Sortable(key, entries) && a in entries && b in entries && c in entries
    requires (a.kind == Directory <==> b.kind == Directory) && (b.kind == Directory <==> c.kind == Directory)
    ensures Chains(ColumnOrder(table, key, ascending, a, b), ColumnOrder(table, key, ascending, b, c),
        ColumnOrder(table, key, ascending, a, c))
  {
    ValueChains(table, key, if a.kind == Directory then Folders(entries) else entries - Folders(entries), a, b, c);
  }

  /** Folders first and ties broken by name and path, three entries chain if their column does. */
  lemma EntryTripleChains(
      table: CaseTable, key: SortKey, ascending: bool, a: ArchiveEntry, b: ArchiveEntry, c: ArchiveEntry)
    requires DirectoriesFirst(a, b) == Equal && DirectoriesFirst(b, c) == Equal ==>
               Chains(ColumnOrder(table, key, ascending, a, b), ColumnOrder(table, key, ascending, b, c),
                      ColumnOrder(table, key, ascending, a, c))
    ensures Chains(CompareEntries(table, key, ascending, a, b), CompareEntries(table, key, ascending, b, c),
                   CompareEntries(table, key, ascending, a, c))
  {
    var d, d', d'' := DirectoriesFirst(a, b), DirectoriesFirst(b, c), DirectoriesFirst(a, c);
    var v, v', v'' := ColumnOrder(table, key, ascending, a, b), ColumnOrder(table, key, ascending, b, c),
        ColumnOrder(table, key, ascending, a, c);
    var n, n', n'' := CompareNames(table, a, b), CompareNames(table, b, c), CompareNames(table, a, c);
    ThenChains(d, d', d'', v, v', v'');
    NaturalOrderLaws(table, ArchiveName(a.path), ArchiveName(b.path), ArchiveName(c.path));
    ThenChains(d.Then(v), d'.Then(v'), d''.Then(v''), n, n', n'');
    CodePointLaws(a.path, b.path, c.path);
    ThenChains(d.Then(v).Then(n), d'.Then(v').Then(n'), d''.Then(v'').Then(n''),
               CompareCodePoints(a.path, b.path), CompareCodePoints(b.path, c.path), CompareCodePoints(a.path, c.path));
  }

  lemma EntryChains(
      table: CaseTable, key: SortKey, ascending: bool, entries: set<ArchiveEntry>, a: ArchiveEntry, b: ArchiveEntry,
      c: ArchiveEntry)
    requires Sortable(key, entries) && a in entries && b in entries && c in entries
    ensures Chains(CompareEntries(table, key, ascending, a, b), CompareEntries(table, key, ascending, b, c),
        CompareEntries(table, key, ascending, a, c))
  {
    if DirectoriesFirst(a, b) == Equal && DirectoriesFirst(b, c) == Equal {
      ColumnChains(table, key, ascending, entries, a, b, c);
    }
    EntryTripleChains(table, key, ascending, a, b, c);
  }

  /**
   * The strict order the listing is sorted by: on sortable entries with distinct paths exactly one of a < b,
   * b < a holds for different a and b, and < is transitive, for every key in both directions.
   */
  lemma SortIsStrictTotalOrder(
      table: CaseTable, key: SortKey, ascending: bool, entries: set<ArchiveEntry>, a: ArchiveEntry, b: ArchiveEntry,
      c: ArchiveEntry)
    requires Sortable(key, entries) && a in entries && b in entries && c in entries
    requires forall x, y :: x in entries && y in entries && x.path == y.path ==> x == y
    ensures CompareEntries(table, key, ascending, a, b) == Equal <==> a == b
    ensures CompareEntries(table, key, ascending, a, b) == Less
        <==> CompareEntries(table, key, ascending, b, a) == Greater
    ensures (CompareEntries(table, key, ascending, a, b) == Less && CompareEntries(table, key, ascending, b, c) == Less
             ==> CompareEntries(table, key, ascending, a, c) == Less)
  {
    EntryReversal(table, key, ascending, a, b);
    EntryReversal(table, key, ascending, a, a);
    EntryChains(table, key, ascending, entries, a, b, c);
  }

  // ---------------------------------------------------------------------------------------------
  // Exactly when entries can be sorted by a timestamp
  // ---------------------------------------------------------------------------------------------

  ghost predicate TransitiveAt(
      table: CaseTable, key: SortKey, ascending: bool, a: ArchiveEntry, b: ArchiveEntry, c: ArchiveEntry)
  {
    CompareEntries(table, key, ascending, a, b) == Less && CompareEntries(table, key, ascending, b, c) == Less ==>
      CompareEntries(table, key, ascending, a, c) == Less
  }

  /** What the comparison owes entries to be sorted by it. */
  ghost predicate Transitive(table: CaseTable, key: SortKey, ascending: bool, entries: set<ArchiveEntry>) {
    forall a, b, c {:trigger TransitiveAt(table, key, ascending, a, b, c)} ::
      a in entries && b in entries && c in entries ==> TransitiveAt(table, key, ascending, a, b, c)
  }

  /** Of three folders, or three other entries, the second has a text that is no timestamp, between two that are. */
  predicate BetweenStamps(key: SortKey, p: ArchiveEntry, u: ArchiveEntry, q: ArchiveEntry) {
    var x, y, z := StampValue(key, p), StampValue(key, u), StampValue(key, q);
    && DirectoriesFirst(p, u) == Equal && DirectoriesFirst(u, q) == Equal && x.Some? && y.Some? && z.Some?
    && EpochNanos(x.value).Some? && EpochNanos(y.value) == None && EpochNanos(z.value).Some?
    && CompareCodePoints(x.value, y.value) == Less && CompareCodePoints(y.value, z.value) == Less
  }

  ghost predicate StampFits(
      table: CaseTable, key: SortKey, ascending: bool, p: ArchiveEntry, u: ArchiveEntry, q: ArchiveEntry)
  {
    BetweenStamps(key, p, u, q) ==> CompareEntries(table, key, ascending, p, q) == if ascending then Less else Greater
  }

  /** Entries with a text between their timestamps that is none are themselves ordered as the texts are. */
  ghost predicate StampsFit(table: CaseTable, key: SortKey, ascending: bool, entries: set<ArchiveEntry>) {
    forall p, u, q {:trigger StampFits(table, key, ascending, p, u, q)} ::
      p in entries && u in entries && q in entries ==> StampFits(table, key, ascending, p, u, q)
  }

  lemma BetweenOrders(
      table: CaseTable, key: SortKey, ascending: bool, p: ArchiveEntry, u: ArchiveEntry, q: ArchiveEntry)
    requires IsStampKey(key) && BetweenStamps(key, p, u, q)
    ensures CompareEntries(table, key, ascending, p, u) == if ascending then Less else Greater
    ensures CompareEntries(table, key, ascending, u, q) == if ascending then Less else Greater
  {
  }

  lemma TransitiveFits(
      table: CaseTable, key: SortKey, ascending: bool, p: ArchiveEntry, u: ArchiveEntry, q: ArchiveEntry)
    requires IsStampKey(key)
    requires TransitiveAt(table, key, ascending, p, u, q) && TransitiveAt(table, key, ascending, q, u, p)
    ensures StampFits(table, key, ascending, p, u, q)
  {
    if BetweenStamps(key, p, u, q) {
      BetweenOrders(table, key, ascending, p, u, q);
      EntryReversal(table, key, ascending, p, u);
      EntryReversal(table, key, ascending, u, q);
      EntryReversal(table, key, ascending, p, q);
    }
  }

  /** The text of the second entry is at odds with the timestamps of the two others. */
  predicate MisfitAt(key: SortKey, p: ArchiveEntry, u: ArchiveEntry, q: ArchiveEntry) {
    var x, y, z := StampValue(key, p), StampValue(key, u), StampValue(key, q);
    x.Some? && y.Some? && z.Some? && Misfit(x.value, y.value, z.value)
  }

  predicate NoMisfit(key: SortKey, a: ArchiveEntry, b: ArchiveEntry, c: ArchiveEntry) {
    && !MisfitAt(key, a, b, c) && !MisfitAt(key, c, b, a) && !MisfitAt(key, b, a, c)
    && !MisfitAt(key, c, a, b) && !MisfitAt(key, a, c, b) && !MisfitAt(key, b, c, a)
  }

  lemma NoMisfitChains(
      table: CaseTable, key: SortKey, ascending: bool, a: ArchiveEntry, b: ArchiveEntry, c: ArchiveEntry)
    requires IsStampKey(key) && NoMisfit(key, a, b, c)
    ensures TransitiveAt(table, key, ascending, a, b, c)
  {
    var x, y, z := StampValue(key, a), StampValue(key, b), StampValue(key, c);
    if x.Some? && y.Some? && z.Some? {
      StampTripleChains(x.value, y.value, z.value);
    }
    assert Chains(CompareOptionalStamps(x, y), CompareOptionalStamps(y, z), CompareOptionalStamps(x, z));
    EntryTripleChains(table, key, ascending, a, b, c);
  }

  predicate SameGroup(a: ArchiveEntry, b: ArchiveEntry, c: ArchiveEntry) {
    (a.kind == Directory <==> b.kind == Directory) && (b.kind == Directory <==> c.kind == Directory)
  }

  lemma MisfitIsBetween(key: SortKey, p: ArchiveEntry, u: ArchiveEntry, q: ArchiveEntry)
    requires SameGroup(p, u, q) && MisfitAt(key, p, u, q)
    ensures BetweenStamps(key, p, u, q)
  {
  }

  /** The entries of a misfit are ordered all the same, if they fit. */
  lemma MisfitIsOrdered(
      table: CaseTable, key: SortKey, ascending: bool, p: ArchiveEntry, u: ArchiveEntry, q: ArchiveEntry)
    requires IsStampKey(key) && SameGroup(p, u, q) && MisfitAt(key, p, u, q)
        && StampFits(table, key, ascending, p, u, q)
    ensures TransitiveAt(table, key, ascending, p, u, q) && TransitiveAt(table, key, ascending, q, u, p)
    ensures TransitiveAt(table, key, ascending, u, p, q) && TransitiveAt(table, key, ascending, u, q, p)
    ensures TransitiveAt(table, key, ascending, p, q, u) && TransitiveAt(table, key, ascending, q, p, u)
  {
    MisfitIsBetween(key, p, u, q);
    BetweenOrders(table, key, ascending, p, u, q);
    EntryReversal(table, key, ascending, p, u);
    EntryReversal(table, key, ascending, u, q);
    EntryReversal(table, key, ascending, p, q);
  }

  lemma FittingIsTransitive(
      table: CaseTable, key: SortKey, ascending: bool, entries: set<ArchiveEntry>, a: ArchiveEntry, b: ArchiveEntry,
      c: ArchiveEntry)
    requires IsStampKey(key) && StampsFit(table, key, ascending, entries) && a in entries && b in entries
        && c in entries
    ensures TransitiveAt(table, key, ascending, a, b, c)
  {
    assert StampFits(table, key, ascending, a, b, c) && StampFits(table, key, ascending, c, b, a);
    assert StampFits(table, key, ascending, b, a, c) && StampFits(table, key, ascending, c, a, b);
    assert StampFits(table, key, ascending, a, c, b) && StampFits(table, key, ascending, b, c, a);
    if !SameGroup(a, b, c) {
      EntryTripleChains(table, key, ascending, a, b, c);
    } else if NoMisfit(key, a, b, c) {
      NoMisfitChains(table, key, ascending, a, b, c);
    } else if MisfitAt(key, a, b, c) {
      MisfitIsOrdered(table, key, ascending, a, b, c);
    } else if MisfitAt(key, c, b, a) {
      MisfitIsOrdered(table, key, ascending, c, b, a);
    } else if MisfitAt(key, b, a, c) {
      MisfitIsOrdered(table, key, ascending, b, a, c);
    } else if MisfitAt(key, c, a, b) {
      MisfitIsOrdered(table, key, ascending, c, a, b);
    } else if MisfitAt(key, a, c, b) {
      MisfitIsOrdered(table, key, ascending, a, c, b);
    } else {
      MisfitIsOrdered(table, key, ascending, b, c, a);
    }
  }

  /** The comparison by a timestamp is transitive on entries exactly when they fit in that sense. */
  lemma StampsTransitiveIff(table: CaseTable, key: SortKey, ascending: bool, entries: set<ArchiveEntry>)
    requires IsStampKey(key)
    ensures Transitive(table, key, ascending, entries) <==> StampsFit(table, key, ascending, entries)
  {
    if Transitive(table, key, ascending, entries) {
      forall p, u, q | p in entries && u in entries && q in entries ensures StampFits(table, key, ascending, p, u, q) {
        assert TransitiveAt(table, key, ascending, p, u, q) && TransitiveAt(table, key, ascending, q, u, p);
        TransitiveFits(table, key, ascending, p, u, q);
      }
    }
    if StampsFit(table, key, ascending, entries) {
      forall a, b, c | a in entries && b in entries && c in entries
        ensures TransitiveAt(table, key, ascending, a, b, c)
      {
        FittingIsTransitive(table, key, ascending, entries, a, b, c);
      }
    }
  }

  // ---------------------------------------------------------------------------------------------
  // What each column sorts by
  // ---------------------------------------------------------------------------------------------

  /** A present value sorts before an absent one, and a smaller before a larger. */
  predicate Smaller(x: Option<int>, y: Option<int>) {
    x.Some? && (y.None? || x.value < y.value)
  }

  predicate SmallerText(table: CaseTable, x: Option<string>, y: Option<string>) {
    x.Some? && (y.None? || NaturalCompare(table, x.value, y.value) == Less)
  }

  /** By instant where both texts are timestamps, and as text otherwise. */
  predicate Earlier(x: Option<string>, y: Option<string>) {
    x.Some? &&
    (y.None? ||
     (if EpochNanos(x.value).Some? && EpochNanos(y.value).Some?
      then EpochNanos(x.value).value < EpochNanos(y.value).value
      else CompareCodePoints(x.value, y.value) == Less))
  }

  predicate HasRatio(x: Metadata) {
    x.size.Some? && x.compressedSize.Some?
  }

  /** By the fraction of compressed size and size, as long as its cross product does not saturate. */
  predicate SmallerRatio(x: Metadata, y: Metadata) {
    HasRatio(x) &&
    (HasRatio(y) ==>
       && x.compressedSize.value * y.size.value < y.compressedSize.value * x.size.value
       && x.compressedSize.value * y.size.value < U64_MAX)
  }

  /** False before true, and both before an absent value. */
  predicate FalseFirst(x: Option<bool>, y: Option<bool>) {
    x.Some? && (y.None? || (!x.value && y.value))
  }

  /** Folders, then files, symbolic links, hard links and special entries. */
  predicate KindBefore(x: EntryKind, y: EntryKind) {
    match y
    case Directory => false
    case File => x == Directory
    case Symlink => x == Directory || x == File
    case Hardlink => x != Hardlink && x != Special
    case Special => x != Special
  }

  /** What each column puts first when it ascends. */
  predicate ColumnBefore(table: CaseTable, key: SortKey, a: ArchiveEntry, b: ArchiveEntry) {
    var x, y := a.metadata, b.metadata;
    match key
    case BySize => Smaller(x.size, y.size)
    case ByCompressedSize => Smaller(x.compressedSize, y.compressedSize)
    case ByModified => Earlier(x.modified, y.modified)
    case ByCreated => Earlier(x.created, y.created)
    case ByAccessed => Earlier(x.accessed, y.accessed)
    case ByMode => Smaller(x.mode, y.mode)
    case ByUid => Smaller(x.uid, y.uid)
    case ByGid => Smaller(x.gid, y.gid)
    case ByKind => KindBefore(a.kind, b.kind)
    case ByRatio => SmallerRatio(x, y)
    case ByEncrypted => FalseFirst(x.encrypted, y.encrypted)
    case BySolid => FalseFirst(x.solid, y.solid)
    case ByCompression => SmallerText(table, x.compression, y.compression)
    case ByCrc => SmallerText(table, x.crc, y.crc)
    case ByComment => SmallerText(table, x.comment, y.comment)
    case ByLinkTarget => SmallerText(table, x.linkTarget, y.linkTarget)
    case ByAttributes => SmallerText(table, x.attributes, y.attributes)
    case ByOwner => SmallerText(table, x.owner, y.owner)
    case ByGroup => SmallerText(table, x.group, y.group)
    case ByDiagnostics => x.diagnostics != [] && (y.diagnostics == [] || |x.diagnostics| < |y.diagnostics|)
    case ByName => NaturalCompare(table, ArchiveName(a.path), ArchiveName(b.path)) == Less
  }

  lemma StampsBefore(x: Option<string>, y: Option<string>)
    ensures CompareOptionalStamps(x, y) == Less <==> Earlier(x, y)
  {
  }

  lemma TextBefore(table: CaseTable, x: Option<string>, y: Option<string>)
    ensures CompareOptionalText(table, x, y) == Less <==> SmallerText(table, x, y)
  {
  }

  lemma RatiosBefore(x: Metadata, y: Metadata)
    ensures CompareOptionalRatios(Ratio(x), Ratio(y)) == Less <==> SmallerRatio(x, y)
  {
    if Ratio(x).Some? && Ratio(y).Some? {
      RatioOutcomes(Ratio(x).value, Ratio(y).value);
    }
  }

  lemma IntsBefore(x: Option<int>, y: Option<int>)
    ensures CompareOptional(x, y) == Less <==> Smaller(x, y)
  {
  }

  lemma ValuesBefore(table: CaseTable, key: SortKey, a: ArchiveEntry, b: ArchiveEntry)
    ensures CompareValues(table, key, a, b) == Less <==> ColumnBefore(table, key, a, b)
  {
    if IsStampKey(key) {
      StampsBefore(StampValue(key, a), StampValue(key, b));
    } else if IsTextKey(key) {
      TextBefore(table, TextValue(key, a), TextValue(key, b));
    } else if key == ByRatio {
      RatiosBefore(a.metadata, b.metadata);
    } else {
      IntsBefore(IntValue(key, a), IntValue(key, b));
    }
  }

  /** Where the column says nothing: by name, then by path. */
  predicate NameBefore(table: CaseTable, a: ArchiveEntry, b: ArchiveEntry) {
    var names := NaturalCompare(table, ArchiveName(a.path), ArchiveName(b.path));
    names == Less || (names == Equal && CompareCodePoints(a.path, b.path) == Less)
  }

  /**
   * Every column, in both directions: folders come first; within them, and within the rest, the column decides, with
   * absent values last when it ascends; and what it leaves open the name and then the path decide in either direction.
   */
  lemma ColumnDecides(table: CaseTable, key: SortKey, ascending: bool, a: ArchiveEntry, b: ArchiveEntry)
    ensures CompareEntries(table, key, ascending, a, b) == Less <==>
              || (a.kind == Directory && b.kind != Directory)
              || ((a.kind == Directory <==> b.kind == Directory)
                  && (if ascending then ColumnBefore(table, key, a, b) else ColumnBefore(table, key, b, a)))
              || ((a.kind == Directory <==> b.kind == Directory)
                  && !ColumnBefore(table, key, a, b) && !ColumnBefore(table, key, b, a) && NameBefore(table, a, b))
  {
    ValuesBefore(table, key, a, b);
    ValuesBefore(table, key, b, a);
    ValueReversal(table, key, a, b);
  }
}
