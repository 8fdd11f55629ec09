/** The sorted, paged answers of an archive session: `children` and `search_index`. */
module Browsing {
  import opened Wrappers
  import opened NaturalOrder
  import opened ArchiveTypes
  import opened EntryOrder
  import opened PathKeys
  import opened TreeIndex
  import opened ArchiveIndexing
  import opened Paging

  ghost predicate DistinctPaths(entries: set<ArchiveEntry>) {
    forall x, y :: x in entries && y in entries && x.path == y.path ==> x == y
  }

  /** `sorted` lists the entries strictly ascending: each once, in the order of the key. */
  ghost predicate SortedListing(
      table: CaseTable, key: SortKey, ascending: bool, entries: set<ArchiveEntry>, sorted: seq<ArchiveEntry>)
  {
    && (forall e :: e in sorted <==> e in entries)
    && (forall i, j :: 0 <= i < j < |sorted| ==> CompareEntries(table, key, ascending, sorted[i], sorted[j]) == Less)
  }

  /** There is only one sorted listing, so it does not matter which correct sort produces it. */
  lemma {:induction false} SortedListingUnique(
      table: CaseTable, key: SortKey, ascending: bool, entries: set<ArchiveEntry>, xs: seq<ArchiveEntry>,
      ys: seq<ArchiveEntry>)
    requires SortedListing(table, key, ascending, entries, xs) && SortedListing(table, key, ascending, entries, ys)
    ensures xs == ys
    decreases |xs|
  {
    assert xs != [] ==> xs[0] in entries && xs[0] in ys;
    assert ys != [] ==> ys[0] in entries && ys[0] in xs;
    if xs != [] {
      FirstsAgree(table, key, ascending, entries, xs, ys);
      TailIsSorted(table, key, ascending, entries, xs);
      TailIsSorted(table, key, ascending, entries, ys);
      SortedListingUnique(table, key, ascending, entries - {xs[0]}, xs[1..], ys[1..]);
    }
  }

  lemma FirstsAgree(
      table: CaseTable, key: SortKey, ascending: bool, entries: set<ArchiveEntry>, xs: seq<ArchiveEntry>,
      ys: seq<ArchiveEntry>)
    requires SortedListing(table, key, ascending, entries, xs) && SortedListing(table, key, ascending, entries, ys)
    requires xs != [] && ys != []
    ensures xs[0] == ys[0]
  {
    assert xs[0] in ys && ys[0] in xs;
    var i, j :| 0 <= i < |xs| && xs[i] == ys[0] && 0 <= j < |ys| && ys[j] == xs[0];
    EntryReversal(table, key, ascending, xs[0], ys[0]);
  }

  lemma TailIsSorted(table: CaseTable, key: SortKey, ascending: bool, entries: set<ArchiveEntry>, xs: seq<ArchiveEntry>)
    requires SortedListing(table, key, ascending, entries, xs) && xs != []
    ensures SortedListing(table, key, ascending, entries - {xs[0]}, xs[1..])
  {
    EntryReversal(table, key, ascending, xs[0], xs[0]);
    assert xs == [xs[0]] + xs[1..];
    forall i | 0 <= i < |xs[1..]| ensures xs[1..][i] != xs[0] {
      assert CompareEntries(table, key, ascending, xs[0], xs[i + 1]) == Less;
    }
  }

  // ---------------------------------------------------------------------------------------------
  // Sorting
  // ---------------------------------------------------------------------------------------------

  function InsertEntry(
      table: CaseTable, key: SortKey, ascending: bool, x: ArchiveEntry, xs: seq<ArchiveEntry>): seq<ArchiveEntry>
  {
    if xs == [] || CompareEntries(table, key, ascending, x, xs[0]) == Less then [x] + xs
    else [xs[0]] + InsertEntry(table, key, ascending, x, xs[1..])
  }

  lemma {:induction false} InsertEntryContents(
      table: CaseTable, key: SortKey, ascending: bool, x: ArchiveEntry, xs: seq<ArchiveEntry>, y: ArchiveEntry)
    ensures y in InsertEntry(table, key, ascending, x, xs) <==> y == x || y in xs
    ensures |InsertEntry(table, key, ascending, x, xs)| == |xs| + 1
  {
    if !(xs == [] || CompareEntries(table, key, ascending, x, xs[0]) == Less) {
      InsertEntryContents(table, key, ascending, x, xs[1..], y);
      assert xs == [xs[0]] + xs[1..];
    }
  }

  lemma SortableIsTransitive(table: CaseTable, key: SortKey, ascending: bool, entries: set<ArchiveEntry>)
    requires Sortable(key, entries)
    ensures Transitive(table, key, ascending, entries)
  {
    forall a, b, c | a in entries && b in entries && c in entries ensures TransitiveAt(table, key, ascending, a, b, c) {
      EntryChains(table, key, ascending, entries, a, b, c);
    }
  }

  ghost predicate AscendingEntries(table: CaseTable, key: SortKey, ascending: bool, xs: seq<ArchiveEntry>) {
    forall i, j :: 0 <= i < j < |xs| ==> CompareEntries(table, key, ascending, xs[i], xs[j]) == Less
  }

  lemma HeadPrecedes(
      table: CaseTable, key: SortKey, ascending: bool, entries: set<ArchiveEntry>, x: ArchiveEntry,
      xs: seq<ArchiveEntry>)
    requires Transitive(table, key, ascending, entries) && x in entries && (forall e :: e in xs ==> e in entries)
    requires AscendingEntries(table, key, ascending, xs) && xs != []
        && CompareEntries(table, key, ascending, x, xs[0]) == Less
    ensures AscendingEntries(table, key, ascending, [x] + xs)
  {
    forall j | 0 <= j < |xs| ensures CompareEntries(table, key, ascending, x, xs[j]) == Less {
      assert xs[0] in xs && xs[j] in xs;
      assert TransitiveAt(table, key, ascending, x, xs[0], xs[j]);
    }
  }

  lemma TailAscends(table: CaseTable, key: SortKey, ascending: bool, xs: seq<ArchiveEntry>)
    requires AscendingEntries(table, key, ascending, xs) && xs != []
    ensures AscendingEntries(table, key, ascending, xs[1..])
  {
  }

  lemma ConsAscends(table: CaseTable, key: SortKey, ascending: bool, x: ArchiveEntry, xs: seq<ArchiveEntry>)
    requires AscendingEntries(table, key, ascending, xs)
    requires forall e :: e in xs ==> CompareEntries(table, key, ascending, x, e) == Less
    ensures AscendingEntries(table, key, ascending, [x] + xs)
  {
    forall j | 0 <= j < |xs| ensures CompareEntries(table, key, ascending, x, xs[j]) == Less {
      assert xs[j] in xs;
    }
  }

  lemma {:induction false} InsertEntrySorted(
      table: CaseTable, key: SortKey, ascending: bool, entries: set<ArchiveEntry>, x: ArchiveEntry,
      xs: seq<ArchiveEntry>)
    requires Transitive(table, key, ascending, entries) && DistinctPaths(entries) && x in entries
        && (forall e :: e in xs ==> e in entries)
    requires AscendingEntries(table, key, ascending, xs) && x !in xs
    ensures AscendingEntries(table, key, ascending, InsertEntry(table, key, ascending, x, xs))
  {
    if xs == [] {
    } else if CompareEntries(table, key, ascending, x, xs[0]) == Less {
      HeadPrecedes(table, key, ascending, entries, x, xs);
    } else {
      assert xs[0] in xs && xs == [xs[0]] + xs[1..];
      assert xs[0].path != x.path;
      TailAscends(table, key, ascending, xs);
      InsertEntrySorted(table, key, ascending, entries, x, xs[1..]);
      HeadStaysFirst(table, key, ascending, x, xs);
      ConsAscends(table, key, ascending, xs[0], InsertEntry(table, key, ascending, x, xs[1..]));
    }
  }

  lemma HeadStaysFirst(table: CaseTable, key: SortKey, ascending: bool, x: ArchiveEntry, xs: seq<ArchiveEntry>)
    requires xs != [] && AscendingEntries(table, key, ascending, xs)
    requires x.path != xs[0].path && CompareEntries(table, key, ascending, x, xs[0]) != Less
    ensures forall e :: e in InsertEntry(table, key, ascending, x, xs[1..]) ==>
        CompareEntries(table, key, ascending, xs[0], e) == Less
  {
    EntryReversal(table, key, ascending, xs[0], x);
    forall e | e in InsertEntry(table, key, ascending, x, xs[1..])
      ensures CompareEntries(table, key, ascending, xs[0], e) == Less
    {
      InsertEntryContents(table, key, ascending, x, xs[1..], e);
    }
  }

  /** `sort_by` with the entry comparison: a permutation always, and sorted wherever the comparison is transitive. */
  method SortEntries(table: CaseTable, key: SortKey, ascending: bool, entries: set<ArchiveEntry>)
    returns (sorted: seq<ArchiveEntry>)
    ensures |sorted| == |entries| && forall e :: e in sorted <==> e in entries
    ensures Transitive(table, key, ascending, entries) && DistinctPaths(entries) ==>
        SortedListing(table, key, ascending, entries, sorted)
  {
    var rest := entries;
    sorted := [];
    while rest != {}
      invariant rest <= entries && |sorted| == |entries| - |rest| && forall e :: e in sorted <==> e in entries - rest
      invariant Transitive(table, key, ascending, entries) && DistinctPaths(entries) ==>
          AscendingEntries(table, key, ascending, sorted)
      decreases |rest|
    {
      var x :| x in rest;
      if Transitive(table, key, ascending, entries) && DistinctPaths(entries) {
        InsertEntrySorted(table, key, ascending, entries, x, sorted);
      }
      forall y ensures y in InsertEntry(table, key, ascending, x, sorted) <==> y == x || y in sorted {
        InsertEntryContents(table, key, ascending, x, sorted, y);
      }
      InsertEntryContents(table, key, ascending, x, sorted, x);
      sorted := InsertEntry(table, key, ascending, x, sorted);
      rest := rest - {x};
    }
  }

  /** Conversely, entries that can be listed in ascending order are compared transitively. */
  lemma SortedIsTransitive(
      table: CaseTable, key: SortKey, ascending: bool, entries: set<ArchiveEntry>, sorted: seq<ArchiveEntry>)
    requires SortedListing(table, key, ascending, entries, sorted)
    ensures Transitive(table, key, ascending, entries)
  {
    forall a, b, c | a in entries && b in entries && c in entries ensures TransitiveAt(table, key, ascending, a, b, c) {
      var i :| 0 <= i < |sorted| && sorted[i] == a;
      var j :| 0 <= j < |sorted| && sorted[j] == b;
      var k :| 0 <= k < |sorted| && sorted[k] == c;
      EntryReversal(table, key, ascending, a, b);
      EntryReversal(table, key, ascending, b, c);
    }
  }

  // ---------------------------------------------------------------------------------------------
  // Children
  // ---------------------------------------------------------------------------------------------

  /** What a request may leave open is filled in by its defaults. */
  datatype ListRequest = ListRequest(sortKey: Option<string>, sortAscending: Option<bool>, limit: Option<nat>,
      cursor: Option<string>) {
    function Key(): string {
      if sortKey.Some? then sortKey.value else "name"
    }

    function Ascending(): bool {
      if sortAscending.Some? then sortAscending.value else true
    }
  }

  function ScopeText(listing: string, request: ListRequest): string {
    listing + "\0" + request.Key() + "\0" + (if request.Ascending() then "true" else "false")
  }

  /** What a request sorts by, and in which direction. */
  lemma RequestedOrder(request: ListRequest, key: SortKey)
    ensures request.sortKey == None ==> ParseSortKey(request.Key()) == ByName
    ensures request.sortKey == Some(KeyName(key)) ==> ParseSortKey(request.Key()) == key
    ensures request.Ascending() <==> request.sortAscending != Some(false)
  {
    ParseInvertsKeyName(key, request.Key());
  }

  /** The text after the last NUL, and with it everything before, is determined. */
  lemma SplitAtLastNul(s: string, t: string, u: string, v: string)
    requires s + "\0" + t == u + "\0" + v && '\0' !in t && '\0' !in v
    ensures s == u && t == v
  {
    var text := s + "\0" + t;
    assert text[|s|] == '\0' && text[|u|] == '\0';
    assert forall k :: |s| < k < |text| ==> text[k] == t[k - |s| - 1];
    assert forall k :: |u| < k < |text| ==> text[k] == v[k - |u| - 1];
    assert text[..|s|] == s && text[..|u|] == u;
    assert text[|s| + 1..] == t && text[|u| + 1..] == v;
  }

  /** Cursors are made for one listing in one order: the scope of a page tells all three apart. */
  lemma ScopesDiffer(listing: string, request: ListRequest, other: string, asked: ListRequest)
    requires '\0' !in request.Key() && '\0' !in asked.Key()
    ensures ScopeText(listing, request) == ScopeText(other, asked)
        <==> listing == other && request.Key() == asked.Key() && request.Ascending() == asked.Ascending()
  {
    if ScopeText(listing, request) == ScopeText(other, asked) {
      SplitAtLastNul(listing + "\0" + request.Key(), if request.Ascending() then "true" else "false",
                     other + "\0" + asked.Key(), if asked.Ascending() then "true" else "false");
      assert "true"[0] != "false"[0];
      SplitAtLastNul(listing, request.Key(), other, asked.Key());
    }
  }

  /** The indexed entries whose parent is `folder`. */
  ghost function EntriesIn(entries: Entries, folder: string): set<ArchiveEntry> {
    set q | q in entries && Parent(q) == folder :: entries[q]
  }

  /** A list of exactly these entries, each once, and sorted wherever the comparison is transitive on them. */
  ghost predicate IsListing(
      table: CaseTable, request: ListRequest, entries: set<ArchiveEntry>, list: seq<ArchiveEntry>)
  {
    var key, ascending := ParseSortKey(request.Key()), request.Ascending();
    && |list| == |entries| && (forall e :: e in list <==> e in entries)
    && (Transitive(table, key, ascending, entries) ==> SortedListing(table, key, ascending, entries, list))
  }

  /** The page is cut from such a list. */
  ghost predicate PageOfListing(
    table: CaseTable, sign: Signer, scope: Scope, request: ListRequest, entries: set<ArchiveEntry>,
    page: Result<Page, PageError>)
  {
    exists list :: IsListing(table, request, entries, list)
        && page == PageOf(sign, scope, list, request.cursor, request.limit)
  }

  /** `children`, from the point where the session's index is locked. */
  method ChildrenPage(
      table: CaseTable, sign: Signer, index: ArchiveIndex, session: string, revision: string, parentPath: string,
      request: ListRequest)
    returns (page: Result<Page, PageError>)
    requires index.Valid()
    ensures var folder := NormalizeArchivePath(parentPath);
      PageOfListing(table, sign, Scope(session, ScopeText(folder, request), revision), request,
          EntriesIn(index.entries, folder), page)
  {
    var folder := NormalizeArchivePath(parentPath);
    var children := set q | q in Listing(index.entries, index.children, folder) :: index.entries[q];
    ListingIsExact(index.entries, index.children, folder);
    assert children == EntriesIn(index.entries, folder);
    IndexedPathsDistinct(index.entries, index.children, children);
    var sorted := SortEntries(table, ParseSortKey(request.Key()), request.Ascending(), children);
    assert IsListing(table, request, children, sorted);
    page := PageOf(sign, Scope(session, ScopeText(folder, request), revision), sorted, request.cursor, request.limit);
  }

  lemma IndexedPathsDistinct(entries: Entries, children: Children, chosen: set<ArchiveEntry>)
    requires Indexed(entries, children) && forall e :: e in chosen ==> exists q :: q in entries && entries[q] == e
    ensures DistinctPaths(chosen)
  {
    forall q | q in entries ensures entries[q].path == q {
      assert IndexedAt(entries, children, q);
    }
  }

  // ---------------------------------------------------------------------------------------------
  // Following the cursors of a listing that does not change
  // ---------------------------------------------------------------------------------------------

  function CursorBefore(pages: seq<Page>, k: nat): Option<string>
    requires k <= |pages|
  {
    if k == 0 then None else pages[k - 1].nextCursor
  }

  function Concat(pages: seq<Page>): seq<ArchiveEntry> {
    if pages == [] then [] else Concat(pages[..|pages| - 1]) + pages[|pages| - 1].entries
  }

  /** The pages a client receives for one request, each asked for with the cursor of the one before. */
  ghost predicate PageChain(
    table: CaseTable, sign: Signer, scope: Scope, request: ListRequest, entries: set<ArchiveEntry>, pages: seq<Page>,
    limits: seq<Option<nat>>)
  {
    && |limits| == |pages|
    && (forall k :: 0 <= k < |pages| - 1 ==> pages[k].nextCursor.Some?)
    && forall k :: 0 <= k < |pages| ==>
         PageOfListing(table, sign, scope, request.(cursor := CursorBefore(pages, k), limit := limits[k]), entries,
             Ok(pages[k]))
  }

  lemma CursorsOfFront(pages: seq<Page>, n: nat)
    requires n < |pages|
    ensures forall k :: 0 <= k <= n ==> CursorBefore(pages[..n], k) == CursorBefore(pages, k)
  {
  }

  lemma ExtendPrefix(sorted: seq<ArchiveEntry>, start: nat, m: nat)
    requires start <= m <= |sorted|
    ensures sorted[..start] + sorted[start..m] == sorted[..m]
  {
  }

  lemma {:induction false} ChainCovers(
      sign: Signer, scope: Scope, sorted: seq<ArchiveEntry>, pages: seq<Page>, limits: seq<Option<nat>>)
    returns (m: nat)
    requires |sorted| <= U64_MAX && |limits| == |pages|
    requires forall k :: 0 <= k < |pages| - 1 ==> pages[k].nextCursor.Some?
    requires forall k :: 0 <= k < |pages| ==>
        Ok(pages[k]) == PageOf(sign, scope, sorted, CursorBefore(pages, k), limits[k])
    ensures m <= |sorted| && Concat(pages) == sorted[..m]
    ensures pages == [] || pages[|pages| - 1].nextCursor.Some? ==>
        DecodeCursor(sign, scope, CursorBefore(pages, |pages|)) == Ok(m)
    ensures pages != [] && pages[|pages| - 1].nextCursor == None ==> m == |sorted|
  {
    if pages == [] {
      m := 0;
    } else {
      var n := |pages| - 1;
      var front := pages[..n];
      CursorsOfFront(pages, n);
      var start := ChainCovers(sign, scope, sorted, front, limits[..n]);
      m := PageAdvances(sign, scope, sorted, CursorBefore(pages, n), start, limits[n]);
      ExtendPrefix(sorted, start, m);
    }
  }

  lemma SamePages(
      table: CaseTable, sign: Signer, scope: Scope, request: ListRequest, entries: set<ArchiveEntry>,
      sorted: seq<ArchiveEntry>, page: Page)
    requires SortedListing(table, ParseSortKey(request.Key()), request.Ascending(), entries, sorted)
    requires PageOfListing(table, sign, scope, request, entries, Ok(page))
    ensures Ok(page) == PageOf(sign, scope, sorted, request.cursor, request.limit)
  {
    var other :| IsListing(table, request, entries, other)
        && Ok(page) == PageOf(sign, scope, other, request.cursor, request.limit);
    SortedIsTransitive(table, ParseSortKey(request.Key()), request.Ascending(), entries, sorted);
    SortedListingUnique(table, ParseSortKey(request.Key()), request.Ascending(), entries, sorted, other);
  }

  lemma SameChain(
      table: CaseTable, sign: Signer, scope: Scope, request: ListRequest, entries: set<ArchiveEntry>,
      sorted: seq<ArchiveEntry>, pages: seq<Page>, limits: seq<Option<nat>>)
    requires SortedListing(table, ParseSortKey(request.Key()), request.Ascending(), entries, sorted)
    requires PageChain(table, sign, scope, request, entries, pages, limits)
    ensures forall k :: 0 <= k < |pages| ==>
        Ok(pages[k]) == PageOf(sign, scope, sorted, CursorBefore(pages, k), limits[k])
  {
    forall k | 0 <= k < |pages| ensures Ok(pages[k]) == PageOf(sign, scope, sorted, CursorBefore(pages, k), limits[k]) {
      var asked := request.(cursor := CursorBefore(pages, k), limit := limits[k]);
      assert PageOfListing(table, sign, scope, asked, entries, Ok(pages[k]));
      SamePages(table, sign, scope, asked, entries, sorted, pages[k]);
    }
  }

  /**
   * Pages fetched one after the other from an unchanged index, with any limits, until no cursor is returned,
   * concatenate to the sorted listing of the folder or search: every entry once, in order.
   */
  lemma PagesMakeTheListing(
    table: CaseTable, sign: Signer, scope: Scope, request: ListRequest, entries: set<ArchiveEntry>,
    sorted: seq<ArchiveEntry>, pages: seq<Page>, limits: seq<Option<nat>>)
    requires SortedListing(table, ParseSortKey(request.Key()), request.Ascending(), entries, sorted)
        && |sorted| <= U64_MAX
    requires PageChain(table, sign, scope, request, entries, pages, limits)
    requires pages != [] && pages[|pages| - 1].nextCursor == None
    ensures Concat(pages) == sorted
  {
    SameChain(table, sign, scope, request, entries, sorted, pages, limits);
    var m := ChainCovers(sign, scope, sorted, pages, limits);
    assert sorted[..|sorted|] == sorted;
  }

  // ---------------------------------------------------------------------------------------------
  // Search
  // ---------------------------------------------------------------------------------------------

  predicate OccursAt(haystack: string, i: nat, needle: string) {
    i + |needle| <= |haystack| && haystack[i..i + |needle|] == needle
  }

  predicate Contains(haystack: string, needle: string) {
    exists i :: 0 <= i <= |haystack| && OccursAt(haystack, i, needle)
  }

  predicate WindowAt(haystack: string, i: nat, needle: string) {
    i + |needle| <= |haystack| && forall k :: i <= k < i + |needle| ==> AsciiLower(haystack[k]) == needle[k - i]
  }

  /** `windows(n).any(…)`: some window equals the needle once its own bytes are lower-cased. */
  predicate WindowMatches(haystack: string, needle: string) {
    exists i :: 0 <= i <= |haystack| && WindowAt(haystack, i, needle)
  }

  /** `case_insensitive_contains`; `lower` is `str::to_lowercase`, used only when some text is not ASCII. */
  predicate CaseInsensitiveContains(lower: string -> string, haystack: string, needle: string) {
    if needle == [] then true
    else if ByteLength(haystack) < ByteLength(needle) then false
    else if IsAscii(haystack) && IsAscii(needle) then WindowMatches(haystack, needle)
    else Contains(lower(haystack), needle)
  }

  lemma {:induction false} AsciiByteLength(s: string)
    requires IsAscii(s)
    ensures ByteLength(s) == |s|
  {
    if s != [] {
      AsciiByteLength(s[1..]);
    }
  }

  /** On ASCII text the search is substring search in the folded path. */
  lemma AsciiSearch(lower: string -> string, haystack: string, needle: string)
    requires IsAscii(haystack) && IsAscii(needle)
    ensures CaseInsensitiveContains(lower, haystack, needle) <==> Contains(AsciiFold(haystack), needle)
  {
    AsciiByteLength(haystack);
    AsciiByteLength(needle);
    forall i | 0 <= i <= |haystack|
      ensures WindowAt(haystack, i, needle) <==> OccursAt(AsciiFold(haystack), i, needle)
    {
      WindowIsOccurrence(haystack, i, needle);
    }
    if needle == [] {
      assert OccursAt(AsciiFold(haystack), 0, needle);
    }
  }

  /**
   * Where lower-casing extends ASCII folding, one rule covers all texts: a search finds a path exactly when its
   * lowered text contains the query and the query is not the longer of the two in bytes.
   */
  lemma SearchIsSubstring(lower: string -> string, haystack: string, needle: string)
    requires forall s :: IsAscii(s) ==> lower(s) == AsciiFold(s)
    ensures CaseInsensitiveContains(lower, haystack, needle)
        <==> Contains(lower(haystack), needle) && ByteLength(needle) <= ByteLength(haystack)
  {
    if needle == [] {
      assert OccursAt(lower(haystack), 0, needle);
    } else if IsAscii(haystack) && IsAscii(needle) {
      AsciiSearch(lower, haystack, needle);
      AsciiByteLength(haystack);
      AsciiByteLength(needle);
    }
  }

  /** The bound on bytes is felt: a capital I with a dot is longer lowered, and is not found by its own lowered text. */
  lemma LongerLowercaseIsMissed(lower: string -> string)
    requires lower(['\U{130}']) == ['i', '\U{307}']
    ensures Contains(lower(['\U{130}']), lower(['\U{130}']))
    ensures !CaseInsensitiveContains(lower, ['\U{130}'], lower(['\U{130}']))
  {
    assert OccursAt(lower(['\U{130}']), 0, lower(['\U{130}']));
    assert ByteLength(['\U{130}']) == 2;
    assert ['i', '\U{307}'][1..] == ['\U{307}'] && ByteLength(['\U{307}']) == 2;
  }

  lemma WindowIsOccurrence(haystack: string, i: nat, needle: string)
    ensures WindowAt(haystack, i, needle) <==> OccursAt(AsciiFold(haystack), i, needle)
  {
    var folded := AsciiFold(haystack);
    if OccursAt(folded, i, needle) {
      assert forall k :: i <= k < i + |needle| ==> folded[k] == folded[i..i + |needle|][k - i];
    }
  }

  ghost function Matching(lower: string -> string, entries: Entries, query: string): set<ArchiveEntry> {
    set q | q in entries && CaseInsensitiveContains(lower, entries[q].path, query) :: entries[q]
  }

  /** A search finds the indexed entries whose whole path, lowered, contains the query, within the bound on bytes. */
  lemma SearchFinds(lower: string -> string, entries: Entries, query: string, q: string)
    requires (forall s :: IsAscii(s) ==> lower(s) == AsciiFold(s)) && forall p :: p in entries ==> entries[p].path == p
    requires q in entries
    ensures entries[q] in Matching(lower, entries, query)
        <==> Contains(lower(q), query) && ByteLength(query) <= ByteLength(q)
  {
    SearchIsSubstring(lower, q, query);
  }

  /** `search_index`; `trim` is `str::trim`. */
  method SearchPage(
      table: CaseTable, trim: string -> string, lower: string -> string, sign: Signer, index: ArchiveIndex,
      session: string,
                    revision: string, query: string, request: ListRequest)
    returns (page: Result<Page, PageError>)
    requires index.Valid()
    ensures var normalized := lower(trim(query));
      PageOfListing(table, sign, Scope(session, ScopeText("?search=" + normalized, request), revision), request,
                    Matching(lower, index.entries, normalized), page)
  {
    var normalized := lower(trim(query));
    var matching := set q | q in index.entries
        && (normalized == [] || CaseInsensitiveContains(lower, index.entries[q].path, normalized)) :: index.entries[q];
    assert matching == Matching(lower, index.entries, normalized);
    IndexedPathsDistinct(index.entries, index.children, matching);
    var sorted := SortEntries(table, ParseSortKey(request.Key()), request.Ascending(), matching);
    assert IsListing(table, request, matching, sorted);
    page := PageOf(sign, Scope(session, ScopeText("?search=" + normalized, request), revision), sorted, request.cursor,
        request.limit);
  }
}
