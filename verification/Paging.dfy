/**
 * Cursor-paged listings of the archive index: the pages of `children` and `search_index`, and the cursors that
 * connect them.
 */
module Paging {
  import opened Wrappers
  import opened Decimal
  import opened ArchiveTypes
  import opened PathKeys

  const DEFAULT_ARCHIVE_PAGE_SIZE := 200
  const MAX_ARCHIVE_PAGE_SIZE := 512

  datatype PageError = InvalidCursor | OutOfRange

  // ---------------------------------------------------------------------------------------------
  // Cursors
  // ---------------------------------------------------------------------------------------------

  function HexDigit(n: nat): char
    requires n < 16
  {
    if n < 10 then '0' + (n as char) else 'a' + ((n - 10) as char)
  }

  /** `format!("{:0width$x}")` for a number of at most `width` hexadecimal digits. */
  function Hex(n: nat, width: nat): (s: string)
    ensures |s| == width && ':' !in s
  {
    if width == 0 then [] else Hex(n / 16, width - 1) + [HexDigit(n % 16)]
  }

  /** The hash of session, scope and revision; any function to 64 bits. */
  type Signer = (string, string, string) -> u64

  datatype Scope = Scope(session: string, listing: string, revision: string)

  function Signature(sign: Signer, scope: Scope): string {
    Hex(sign(scope.session, scope.listing, scope.revision), 16)
  }

  /** `encode_cursor`. */
  function EncodeCursor(sign: Signer, scope: Scope, offset: nat): string {
    "v1" + ":" + (Signature(sign, scope) + ":" + ToDecimal(offset))
  }

  /** `decode_cursor`. */
  function DecodeCursor(sign: Signer, scope: Scope, cursor: Option<string>): (offset: Result<nat, PageError>)
    ensures offset.Ok? ==> offset.value <= U64_MAX
  {
    match cursor
    case None => Ok(0)
    case Some(text) =>
      var parts := Split(text, {':'});
      if |parts| == 3 && parts[0] == "v1" && parts[1] == Signature(sign, scope) && ParseUnsigned(parts[2]).Some?
      then Ok(ParseUnsigned(parts[2]).value)
      else Err(InvalidCursor)
  }

  lemma SplitCursor(first: string, second: string, third: string)
    requires ':' !in first && ':' !in second && ':' !in third
    ensures Split(first + ":" + (second + ":" + third), {':'}) == [first, second, third]
  {
    SplitAtSeparator(first, ':', second + ":" + third, {':'});
    SplitAtSeparator(second, ':', third, {':'});
    SplitPiece(first, {':'});
    SplitPiece(second, {':'});
    SplitPiece(third, {':'});
  }

  lemma DecimalHasNoColon(n: nat)
    ensures ':' !in ToDecimal(n)
  {
    assert !IsDigit(':');
  }

  /** A cursor decodes to the offset it was made from, in the scope it was made for. */
  lemma CursorRoundTrip(sign: Signer, scope: Scope, offset: nat)
    requires offset <= U64_MAX
    ensures DecodeCursor(sign, scope, Some(EncodeCursor(sign, scope, offset))) == Ok(offset)
  {
    DecimalHasNoColon(offset);
    SplitCursor("v1", Signature(sign, scope), ToDecimal(offset));
    ParseInvertsToDecimal(offset);
  }

  lemma {:induction false} HexInjective(m: nat, n: nat, width: nat)
    requires Hex(m, width) == Hex(n, width) && m < Power16(width) && n < Power16(width)
    ensures m == n
  {
    if width > 0 {
      var a, b := Hex(m / 16, width - 1), Hex(n / 16, width - 1);
      assert a == (a + [HexDigit(m % 16)])[..width - 1] && b == (b + [HexDigit(n % 16)])[..width - 1];
      HexInjective(m / 16, n / 16, width - 1);
    }
  }

  function Power16(n: nat): nat {
    if n == 0 then 1 else 16 * Power16(n - 1)
  }

  lemma SixtyFourBits()
    ensures Power16(16) == U64_MAX + 1
  {
    assert Power16(4) == 0x1_0000;
    assert Power16(8) == 0x1_0000_0000;
    assert Power16(12) == 0x1_0000_0000_0000;
  }

  /** A cursor of one scope is refused in another unless their signatures collide. */
  lemma ForeignCursorRefused(sign: Signer, scope: Scope, other: Scope, offset: nat)
    requires offset <= U64_MAX
    ensures DecodeCursor(sign, other, Some(EncodeCursor(sign, scope, offset))).Ok?
            <==> (sign(scope.session, scope.listing, scope.revision)
                  == sign(other.session, other.listing, other.revision))
  {
    DecimalHasNoColon(offset);
    SplitCursor("v1", Signature(sign, scope), ToDecimal(offset));
    ParseInvertsToDecimal(offset);
    SixtyFourBits();
    if Signature(sign, scope) == Signature(sign, other) {
      HexInjective(sign(scope.session, scope.listing, scope.revision),
          sign(other.session, other.listing, other.revision), 16);
    }
  }

  /** Exactly the texts with the right tag, the right signature and an unsigned number are accepted. */
  lemma AcceptedCursors(sign: Signer, scope: Scope, text: string, offset: nat)
    ensures DecodeCursor(sign, scope, Some(text)) == Ok(offset)
            <==> exists number :: ':' !in number && ParseUnsigned(number) == Some(offset)
                   && text == "v1" + ":" + (Signature(sign, scope) + ":" + number)
  {
    forall number | ':' !in number
      ensures Split("v1" + ":" + (Signature(sign, scope) + ":" + number), {':'})
          == ["v1", Signature(sign, scope), number]
    {
      SplitCursor("v1", Signature(sign, scope), number);
    }
    var parts := Split(text, {':'});
    if DecodeCursor(sign, scope, Some(text)) == Ok(offset) {
      JoinsBack(text);
      var number := parts[2];
      assert JoinAll(parts) == parts[0] + ":" + JoinAll(parts[1..]);
      assert JoinAll(parts[1..]) == parts[1] + ":" + JoinAll(parts[1..][1..]);
      assert parts[1..][1..] == [number];
      assert text == "v1" + ":" + (Signature(sign, scope) + ":" + number);
    }
  }

  function JoinAll(parts: seq<string>): string
    requires parts != []
  {
    if |parts| == 1 then parts[0] else parts[0] + ":" + JoinAll(parts[1..])
  }

  /** Splitting at colons loses nothing, and no piece holds one. */
  lemma {:induction false} JoinsBack(text: string)
    ensures JoinAll(Split(text, {':'})) == text
    ensures forall i :: 0 <= i < |Split(text, {':'})| ==> ':' !in Split(text, {':'})[i]
  {
    if text != [] {
      JoinsBack(text[1..]);
      var rest := Split(text[1..], {':'});
      assert text == [text[0]] + text[1..];
      if text[0] == ':' {
        assert ([[]] + rest)[1..] == rest;
      } else {
        assert ([[text[0]] + rest[0]] + rest[1..])[1..] == rest[1..];
      }
    }
  }

  // ---------------------------------------------------------------------------------------------
  // Pages
  // ---------------------------------------------------------------------------------------------

  datatype Page = Page(entries: seq<ArchiveEntry>, nextCursor: Option<string>, complete: bool, childCount: nat)

  function PageSize(limit: Option<nat>): (size: nat)
    ensures limit == None ==> size == 200
    ensures limit.Some? && 1 <= limit.value <= 512 ==> size == limit.value
    ensures limit == Some(0) ==> size == 1
    ensures limit.Some? && limit.value > 512 ==> size == 512
  {
    var wanted := if limit.Some? then limit.value else DEFAULT_ARCHIVE_PAGE_SIZE;
    if wanted < 1 then 1 else if wanted > MAX_ARCHIVE_PAGE_SIZE then MAX_ARCHIVE_PAGE_SIZE else wanted
  }

  /** The paging both commands apply to their sorted entries. */
  function PageOf(
      sign: Signer, scope: Scope, sorted: seq<ArchiveEntry>, cursor: Option<string>,
      limit: Option<nat>): (page: Result<Page, PageError>)
    ensures page == Err(InvalidCursor) <==> DecodeCursor(sign, scope, cursor).Err?
    ensures page == Err(OutOfRange)
        <==> DecodeCursor(sign, scope, cursor).Ok? && DecodeCursor(sign, scope, cursor).value > |sorted|
  {
    match DecodeCursor(sign, scope, cursor)
    case Err(error) => Err(error)
    case Ok(offset) =>
      if offset > |sorted| then Err(OutOfRange)
      else
        var end := PageEnd(|sorted|, offset, limit);
        Ok(Page(sorted[offset..end],
                if end < |sorted| then Some(EncodeCursor(sign, scope, end)) else None,
                end == |sorted|, |sorted|))
  }

  /** `offset.saturating_add(limit).min(total_count)`. */
  function PageEnd(total: nat, offset: nat, limit: Option<nat>): (end: nat)
    requires offset <= total && offset <= U64_MAX
    ensures offset <= end <= total
    ensures offset < total <= U64_MAX ==> offset < end
  {
    var end := SaturatingAdd(offset, PageSize(limit));
    if end < total then end else total
  }

  /** What a client has collected: the entries, and the cursor it still holds unless the listing is complete. */
  datatype Walk = Walk(entries: seq<ArchiveEntry>, cursor: Option<string>) | Refused(error: PageError)

  function Prepend(entries: seq<ArchiveEntry>, walk: Walk): Walk {
    match walk
    case Walk(rest, cursor) => Walk(entries + rest, cursor)
    case Refused(error) => Refused(error)
  }

  /** Follow the cursors from `cursor`, one limit per page, until the listing is complete or the limits run out. */
  function Follow(
      sign: Signer, scope: Scope, sorted: seq<ArchiveEntry>, cursor: Option<string>, limits: seq<Option<nat>>): Walk
    decreases |limits|
  {
    if limits == [] then Walk([], cursor)
    else
      match PageOf(sign, scope, sorted, cursor, limits[0])
      case Err(error) => Refused(error)
      case Ok(page) =>
        if page.nextCursor == None then Walk(page.entries, None)
        else Prepend(page.entries, Follow(sign, scope, sorted, page.nextCursor, limits[1..]))
  }

  /**
   * A page starts where its cursor points, holds as many entries as were asked for unless the listing ends sooner,
   * and hands over a cursor to where it ends.
   */
  lemma PageAdvances(
      sign: Signer, scope: Scope, sorted: seq<ArchiveEntry>, cursor: Option<string>, offset: nat, limit: Option<nat>)
    returns (end: nat)
    requires |sorted| <= U64_MAX && offset <= |sorted| && DecodeCursor(sign, scope, cursor) == Ok(offset)
    ensures offset <= end <= |sorted| && (offset < |sorted| ==> offset < end)
    ensures end == |sorted| || end - offset == PageSize(limit)
    ensures end - offset <= PageSize(limit)
    ensures PageOf(sign, scope, sorted, cursor, limit).Ok?
    ensures var page := PageOf(sign, scope, sorted, cursor, limit).value;
      && page.entries == sorted[offset..end]
      && (page.nextCursor == None <==> end == |sorted|)
      && (page.nextCursor.Some? ==> DecodeCursor(sign, scope, page.nextCursor) == Ok(end))
      && (page.complete <==> end == |sorted|) && page.childCount == |sorted|
  {
    end := PageEnd(|sorted|, offset, limit);
    CursorRoundTrip(sign, scope, end);
  }

  lemma SplitSlice(sorted: seq<ArchiveEntry>, offset: nat, end: nat)
    requires offset <= end <= |sorted|
    ensures sorted[offset..end] + sorted[end..] == sorted[offset..]
    ensures end == |sorted| ==> sorted[offset..end] == sorted[offset..]
  {
  }

  lemma {:induction false} FollowFrom(
      sign: Signer, scope: Scope, sorted: seq<ArchiveEntry>, cursor: Option<string>, offset: nat,
      limits: seq<Option<nat>>)
    requires |sorted| <= U64_MAX && offset <= |sorted|
    requires DecodeCursor(sign, scope, cursor) == Ok(offset)
    requires |limits| >= 1 && |limits| >= |sorted| - offset
    ensures Follow(sign, scope, sorted, cursor, limits) == Walk(sorted[offset..], None)
    decreases |limits|
  {
    var end := PageAdvances(sign, scope, sorted, cursor, offset, limits[0]);
    var page := PageOf(sign, scope, sorted, cursor, limits[0]).value;
    if page.nextCursor == None {
      SplitSlice(sorted, offset, end);
    } else {
      FollowFrom(sign, scope, sorted, page.nextCursor, end, limits[1..]);
      SplitSlice(sorted, offset, end);
    }
  }

  /**
   * On an unchanged listing, following the cursors from the first page with any limits visits every entry once, in
   * order, and ends: the pages concatenate to the sorted listing after at most as many pages as it has entries.
   */
  lemma PagesPartitionListing(sign: Signer, scope: Scope, sorted: seq<ArchiveEntry>, limits: seq<Option<nat>>)
    requires |sorted| <= U64_MAX && |limits| >= 1 && |limits| >= |sorted|
    ensures Follow(sign, scope, sorted, None, limits) == Walk(sorted, None)
  {
    FollowFrom(sign, scope, sorted, None, 0, limits);
    assert sorted[0..] == sorted;
  }
}
