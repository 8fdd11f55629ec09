/**
 * Dragging entries out of an archive: the answer of the cached index (`drag_entries`, `drag_all_entries`) and the
 * answer of a fresh listing (`native_drag_items_from_listing`), and where the two agree.
 */
module DragSelection {
  import opened Wrappers
  import opened StringOrder
  import opened ArchiveTypes
  import opened PathKeys
  import opened TreeIndex
  import opened ArchiveIndexing

  datatype DragError = NotFound(missing: string) | Unsupported | NothingDraggable

  predicate DraggableEntry(entry: ArchiveEntry) {
    entry.kind == File || entry.kind == Directory
  }

  predicate DraggableListed(entry: BrowserEntry) {
    entry.kind == PlainFile || entry.kind == Folder
  }

  function EntryPath(entry: ArchiveEntry): string {
    entry.path
  }

  function ListedPath(entry: BrowserEntry): string {
    entry.path
  }

  function KeyOf(entry: BrowserEntry): string {
    ArchiveEntryKey(entry.path)
  }

  // ---------------------------------------------------------------------------------------------
  // What the index holds after a whole listing
  // ---------------------------------------------------------------------------------------------

  /** The last entry with the key `q`. */
  ghost predicate LastOf(listing: seq<BrowserEntry>, q: string, i: int) {
    0 <= i < |listing| && KeyOf(listing[i]) == q && forall j :: i < j < |listing| ==> KeyOf(listing[j]) != q
  }

  /** A folder the listing only implies: some entry lies beneath it. */
  ghost predicate ImpliedFolder(listing: seq<BrowserEntry>, path: string) {
    exists i :: 0 <= i < |listing| && KeyIsWithin(KeyOf(listing[i]), path)
  }

  ghost predicate Listed(listing: seq<BrowserEntry>, path: string) {
    exists i :: 0 <= i < |listing| && KeyOf(listing[i]) == path
  }

  /** At a listed path the last entry of its key, elsewhere a folder exactly where the listing implies one. */
  ghost predicate IndexesAt(entries: Entries, listing: seq<BrowserEntry>, q: string) {
    if q == [] then q !in entries
    else
      && (forall i :: LastOf(listing, q, i) ==> q in entries && Represents(entries[q], listing[i]))
      && (!Listed(listing, q) ==> (q in entries <==> IsKey(q) && ImpliedFolder(listing, q)))
      && (!Listed(listing, q) && q in entries ==> IsBareFolder(entries[q], q))
  }

  /** An insertion leaves every other path as it was, and creates the folders above the inserted one. */
  lemma InsertedContents(entries: Entries, entry: BrowserEntry, q: string)
    requires KeyOf(entry) != []
    ensures var after := Inserted(entries, entry, true); var key := KeyOf(entry);
      && key in after && Represents(after[key], entry)
      && (q != key ==> (q in after <==> q in entries || (IsKey(q) && KeyIsWithin(key, q))))
      && (q != key && q in after ==> if q in entries then after[q] == entries[q] else IsBareFolder(after[q], q))
  {
    NormalizationsAgree(entry.path);
    DtoRepresents(entry);
    FolderEntryIsBare(q);
    FoldersAlongContents(entries, Segments(entry.path), FolderDepth(entry), q);
    if q != KeyOf(entry) {
      AncestorsOfEntry(entry, q);
    }
  }

  /**
   * A refused insertion still leaves the folders above the entry, and a folder in its own place if the entry was one;
   * everything else is as it was.
   */
  lemma RefusedInsertionLeaves(entries: Entries, entry: BrowserEntry, q: string)
    requires KeyOf(entry) != []
    ensures var after := Inserted(entries, entry, false); var key := KeyOf(entry);
      && (q in after <==> q in entries || (IsKey(q) && KeyIsWithin(key, q) && (q != key || entry.kind == Folder)))
      && (q in after ==> if q in entries then after[q] == entries[q] else IsBareFolder(after[q], q))
  {
    FolderEntryIsBare(q);
    FoldersAlongContents(entries, Segments(entry.path), FolderDepth(entry), q);
    if q != KeyOf(entry) {
      AncestorsOfEntry(entry, q);
    } else {
      OwnFolder(entry);
    }
  }

  lemma OwnFolder(entry: BrowserEntry)
    requires KeyOf(entry) != []
    ensures IsKey(KeyOf(entry)) && KeyIsWithin(KeyOf(entry), KeyOf(entry))
    ensures (exists k :: 1 <= k <= FolderDepth(entry) && KeyOf(entry) == Prefix(Segments(entry.path), k))
            <==> entry.kind == Folder
  {
    var segments := Segments(entry.path);
    SegmentsAreClean(entry.path);
    KeyRoundTrip(entry.path);
    assert segments[..|segments|] == segments && KeyOf(entry) == Prefix(segments, |segments|);
    if k :| 1 <= k <= FolderDepth(entry) && KeyOf(entry) == Prefix(segments, k) {
      PrefixIsKey(segments, k);
    }
  }

  /** The prefixes an insertion creates are the keys above the entry. */
  lemma AncestorsOfEntry(entry: BrowserEntry, q: string)
    requires KeyOf(entry) != [] && q != KeyOf(entry)
    ensures (exists k :: 1 <= k <= FolderDepth(entry) && q == Prefix(Segments(entry.path), k))
            <==> IsKey(q) && KeyIsWithin(KeyOf(entry), q)
  {
    if k :| 1 <= k <= FolderDepth(entry) && q == Prefix(Segments(entry.path), k) {
      PrefixIsAbove(entry, k);
    }
    if IsKey(q) && KeyIsWithin(KeyOf(entry), q) {
      var k := AboveIsPrefix(entry, q);
    }
  }

  lemma PrefixIsAbove(entry: BrowserEntry, k: nat)
    requires 1 <= k <= |Segments(entry.path)|
    ensures var q := Prefix(Segments(entry.path), k); IsKey(q) && KeyIsWithin(KeyOf(entry), q)
  {
    SegmentsAreClean(entry.path);
    KeyRoundTrip(entry.path);
    PrefixIsKey(Segments(entry.path), k);
    PrefixGivesWithin(KeyOf(entry), Prefix(Segments(entry.path), k));
  }

  lemma AboveIsPrefix(entry: BrowserEntry, q: string) returns (k: nat)
    requires IsKey(q) && KeyIsWithin(KeyOf(entry), q) && q != KeyOf(entry)
    ensures 1 <= k <= FolderDepth(entry) && q == Prefix(Segments(entry.path), k)
  {
    var segments := Segments(entry.path);
    KeyRoundTrip(entry.path);
    WithinGivesPrefix(KeyOf(entry), q);
    KeyRoundTrip(q);
    k := |Segments(q)|;
    assert q == Join(Segments(q)) && KeyOf(entry) == Join(segments);
    assert Segments(q) == segments[..k] && Segments(q) != segments;
  }

  /**
   * After any listing has been inserted, the index holds at every listed path the last entry of its key, and besides
   * them exactly the folders that some entry lies beneath. Entries of the archive's root are skipped.
   */
  lemma {:induction false} IndexContents(listing: seq<BrowserEntry>, q: string)
    ensures IndexesAt(InsertedAll(map[], listing), listing, q)
  {
    if listing != [] {
      var n := |listing| - 1;
      var before := InsertedAll(map[], listing[..n]);
      IndexContents(listing[..n], q);
      NormalizationsAgree(listing[n].path);
      if KeyOf(listing[n]) != [] {
        InsertedContents(before, listing[n], q);
      }
      IndexGrows(before, InsertedAll(map[], listing), listing, q);
    }
  }

  /** What one insertion does at one path. */
  ghost predicate GrownAt(before: Entries, after: Entries, last: BrowserEntry, q: string) {
    if KeyOf(last) == [] then after == before
    else if q == KeyOf(last) then q in after && Represents(after[q], last)
    else
      && (q in after <==> q in before || (IsKey(q) && KeyIsWithin(KeyOf(last), q)))
      && (q in after ==> if q in before then after[q] == before[q] else IsBareFolder(after[q], q))
  }

  lemma IndexGrows(before: Entries, after: Entries, listing: seq<BrowserEntry>, q: string)
    requires listing != [] && IndexesAt(before, listing[..|listing| - 1], q)
    requires GrownAt(before, after, listing[|listing| - 1], q)
    ensures IndexesAt(after, listing, q)
  {
    ListingGrows(listing, q);
    forall i | LastOf(listing, q, i) && q != [] ensures q in after && Represents(after[q], listing[i]) {
      LastEntryIsHeld(before, after, listing, q, i);
    }
  }

  lemma LastEntryIsHeld(before: Entries, after: Entries, listing: seq<BrowserEntry>, q: string, i: nat)
    requires LastOf(listing, q, i) && q != [] && IndexesAt(before, listing[..|listing| - 1], q)
    requires GrownAt(before, after, listing[|listing| - 1], q)
    ensures q in after && Represents(after[q], listing[i])
  {
    LastOfGrows(listing, q, i);
  }

  lemma LastOfGrows(listing: seq<BrowserEntry>, q: string, i: int)
    requires LastOf(listing, q, i)
    ensures var n := |listing| - 1;
      if KeyOf(listing[n]) == q then i == n else i < n && LastOf(listing[..n], q, i) && listing[..n][i] == listing[i]
  {
    var n := |listing| - 1;
    assert i < n ==> listing[..n][i] == listing[i];
  }

  /** What a listing says about a path, from what its front and its last entry say. */
  lemma ListingGrows(listing: seq<BrowserEntry>, q: string)
    requires listing != []
    ensures var front, last := listing[..|listing| - 1], listing[|listing| - 1];
      && (Listed(listing, q) <==> Listed(front, q) || KeyOf(last) == q)
      && (ImpliedFolder(listing, q) <==> ImpliedFolder(front, q) || KeyIsWithin(KeyOf(last), q))
  {
    ListedGrows(listing, q);
    ImpliedGrows(listing, q);
  }

  lemma ListedGrows(listing: seq<BrowserEntry>, q: string)
    requires listing != []
    ensures Listed(listing, q) <==> Listed(listing[..|listing| - 1], q) || KeyOf(listing[|listing| - 1]) == q
  {
    var front := listing[..|listing| - 1];
    if Listed(front, q) {
      var i :| 0 <= i < |front| && KeyOf(front[i]) == q;
      assert KeyOf(listing[i]) == q;
    }
    if Listed(listing, q) && KeyOf(listing[|front|]) != q {
      var i :| 0 <= i < |listing| && KeyOf(listing[i]) == q;
      assert front[i] == listing[i];
    }
  }

  lemma ImpliedGrows(listing: seq<BrowserEntry>, q: string)
    requires listing != []
    ensures ImpliedFolder(listing, q)
            <==> ImpliedFolder(listing[..|listing| - 1], q) || KeyIsWithin(KeyOf(listing[|listing| - 1]), q)
  {
    var front := listing[..|listing| - 1];
    if ImpliedFolder(front, q) {
      var i :| 0 <= i < |front| && KeyIsWithin(KeyOf(front[i]), q);
      assert KeyIsWithin(KeyOf(listing[i]), q);
    }
    if ImpliedFolder(listing, q) && !KeyIsWithin(KeyOf(listing[|front|]), q) {
      var i :| 0 <= i < |listing| && KeyIsWithin(KeyOf(listing[i]), q);
      assert front[i] == listing[i];
    }
  }

  lemma {:induction false} LastExists(listing: seq<BrowserEntry>, q: string) returns (i: nat)
    requires Listed(listing, q)
    ensures LastOf(listing, q, i)
    decreases |listing|
  {
    var n := |listing| - 1;
    if KeyOf(listing[n]) == q {
      i := n;
    } else {
      ListedGrows(listing, q);
      i := LastExists(listing[..n], q);
    }
  }

  /** What the index holds at a listed path. */
  lemma IndexedEntry(listing: seq<BrowserEntry>, q: string, i: nat)
    requires LastOf(listing, q, i) && q != []
    ensures q in InsertedAll(map[], listing) && Represents(InsertedAll(map[], listing)[q], listing[i])
  {
    IndexContents(listing, q);
  }

  // ---------------------------------------------------------------------------------------------
  // The two answers
  // ---------------------------------------------------------------------------------------------

  /** Whether a path set chooses a path: by covering it, or, as exclusions, by not covering it. */
  predicate Chosen(paths: ArchivePathSet, within: bool, path: string) {
    paths.Covers(path) == within
  }

  /** A request is the path itself or lies above it. */
  ghost predicate Reached(requested: seq<string>, path: string) {
    exists i :: 0 <= i < |requested| && KeyIsWithin(ArchiveEntryKey(path), ArchiveEntryKey(requested[i]))
  }

  lemma CoveredIsReached(requested: seq<string>, path: string)
    ensures NewPathSet(requested).Covers(path) <==> Reached(requested, path)
  {
    var paths := NewPathSet(requested);
    assert forall i :: 0 <= i < |requested| ==> paths.keys[i] == ArchiveEntryKey(requested[i]);
  }

  /** The draggable indexed paths a path set chooses. */
  function CachedSet(entries: Entries, paths: ArchivePathSet, within: bool): set<string> {
    set q | q in entries && DraggableEntry(entries[q]) && Chosen(paths, within, q)
  }

  ghost predicate DirectLink(entries: Entries, request: string) {
    var key := NormalizeArchivePath(request);
    key in entries && !DraggableEntry(entries[key])
  }

  ghost predicate CoversIndexed(entries: Entries, root: string) {
    exists q :: q in entries && KeyIsWithin(ArchiveEntryKey(q), root)
  }

  /** `missing` is the first request that covers nothing. */
  ghost predicate FirstMissing(entries: Entries, requested: seq<string>, missing: string) {
    exists i :: 0 <= i < |requested| && missing == requested[i]
        && !CoversIndexed(entries, ArchiveEntryKey(requested[i]))
      && forall j :: 0 <= j < i ==> CoversIndexed(entries, ArchiveEntryKey(requested[j]))
  }

  ghost predicate NoDirectLinks(entries: Entries, requested: seq<string>) {
    forall i :: 0 <= i < |requested| ==> !DirectLink(entries, requested[i])
  }

  ghost predicate AllCovered(entries: Entries, requested: seq<string>) {
    forall i :: 0 <= i < |requested| ==> CoversIndexed(entries, ArchiveEntryKey(requested[i]))
  }

  ghost predicate CachedOk(entries: Entries, requested: seq<string>) {
    NoDirectLinks(entries, requested) && AllCovered(entries, requested)
        && CachedSet(entries, NewPathSet(requested), true) != {}
  }

  ghost predicate PathsAreKeys(entries: Entries) {
    forall q :: q in entries ==> entries[q].path == q
  }

  /** An answer: the entries of some indexed paths, in ascending path order. */
  ghost predicate ListsPaths(entries: Entries, list: seq<ArchiveEntry>, paths: set<string>) {
    && Ascending(seq(|list|, i requires 0 <= i < |list| => list[i].path))
    && (forall i :: 0 <= i < |list| ==>
        list[i].path in paths && list[i].path in entries && list[i] == entries[list[i].path])
    && (forall q :: q in paths ==> exists i :: 0 <= i < |list| && list[i].path == q)
  }

  /** What an answer of the index holds: the indexed files and folders that are reached, or that are not. */
  ghost predicate HoldsReached(entries: Entries, list: seq<ArchiveEntry>, requested: seq<string>, within: bool) {
    forall e :: e in list <==>
      && e.path in entries && entries[e.path] == e && (e.kind == File || e.kind == Directory)
      && Reached(requested, e.path) == within
  }

  lemma AnswerHolds(entries: Entries, list: seq<ArchiveEntry>, requested: seq<string>, within: bool)
    requires PathsAreKeys(entries)
    requires ListsPaths(entries, list, CachedSet(entries, NewPathSet(requested), within))
    ensures HoldsReached(entries, list, requested, within)
  {
    forall e
      ensures e in list <==>
        && e.path in entries && entries[e.path] == e && (e.kind == File || e.kind == Directory)
        && Reached(requested, e.path) == within
    {
      CoveredIsReached(requested, e.path);
      if e.path in CachedSet(entries, NewPathSet(requested), within) {
        var i :| 0 <= i < |list| && list[i].path == e.path;
      }
    }
  }

  /** A request that names something in the index that is no file and no folder. */
  ghost predicate NamesLink(entries: Entries, request: string) {
    var key := NormalizeArchivePath(request);
    key in entries && entries[key].kind != File && entries[key].kind != Directory
  }

  /** Collect and sort by path. */
  method SortedByPath(entries: Entries, paths: set<string>) returns (list: seq<ArchiveEntry>)
    requires PathsAreKeys(entries) && paths <= entries.Keys
    ensures ListsPaths(entries, list, paths)
  {
    var sorted := SortStrings(paths);
    list := seq(|sorted|, i requires 0 <= i < |sorted| && sorted[i] in entries => entries[sorted[i]]);
    assert seq(|list|, i requires 0 <= i < |list| => list[i].path) == sorted;
  }

  /** `HashMap::values`, in whatever order. */
  method Values(entries: Entries) returns (values: seq<ArchiveEntry>)
    requires PathsAreKeys(entries)
    ensures forall e :: e in values <==> e.path in entries && entries[e.path] == e
  {
    var rest := entries.Keys;
    values := [];
    while rest != {}
      invariant rest <= entries.Keys
      invariant forall e :: e in values <==> e.path in entries.Keys - rest && entries[e.path] == e
      decreases |rest|
    {
      var q :| q in rest;
      values := values + [entries[q]];
      rest := rest - {q};
    }
  }

  lemma MatchedValues(entries: Entries, values: seq<ArchiveEntry>, root: string)
    requires PathsAreKeys(entries)
    requires forall e :: e in values <==> e.path in entries && entries[e.path] == e
    ensures RequestMatched(root, values, EntryPath) <==> CoversIndexed(entries, root)
  {
    if CoversIndexed(entries, root) {
      var q :| q in entries && KeyIsWithin(ArchiveEntryKey(q), root);
      assert entries[q] in values;
      var i :| 0 <= i < |values| && values[i] == entries[q];
      assert KeyIsWithin(ArchiveEntryKey(EntryPath(values[i])), root);
    }
    if RequestMatched(root, values, EntryPath) {
      var i :| 0 <= i < |values| && KeyIsWithin(ArchiveEntryKey(EntryPath(values[i])), root);
      assert values[i] in values;
    }
  }

  /** The first loop of `drag_entries`: refuse a request that names a link or a special entry. */
  method RefuseLinks(entries: Entries, requested: seq<string>) returns (refused: bool)
    ensures refused <==> !NoDirectLinks(entries, requested)
    ensures refused <==> exists i :: 0 <= i < |requested| && NamesLink(entries, requested[i])
  {
    for n := 0 to |requested|
      invariant forall i :: 0 <= i < n ==> !DirectLink(entries, requested[i]) && !NamesLink(entries, requested[i])
    {
      var key := NormalizeArchivePath(requested[n]);
      if key in entries && entries[key].kind == File {
        continue;
      }
      if key in entries && entries[key].kind != Directory {
        assert DirectLink(entries, requested[n]) && NamesLink(entries, requested[n]);
        return true;
      }
    }
    return false;
  }

  /** The selection over the indexed entries, before it is filtered by kind. */
  method SelectIndexed(entries: Entries, requested: seq<string>) returns (selection: Result<seq<ArchiveEntry>, string>)
    requires PathsAreKeys(entries)
    ensures selection.Ok? <==> AllCovered(entries, requested)
    ensures selection.Ok? ==> forall e :: e in selection.value <==>
              e.path in entries && entries[e.path] == e && NewPathSet(requested).Covers(e.path)
    ensures selection.Err? ==> FirstMissing(entries, requested, selection.error)
  {
    var values := Values(entries);
    var paths := NewPathSet(requested);
    selection := Select(paths, values, EntryPath);
    forall i | 0 <= i < |requested|
      ensures RequestMatched(paths.keys[i], values, EntryPath)
          <==> CoversIndexed(entries, ArchiveEntryKey(requested[i]))
    {
      MatchedValues(entries, values, paths.keys[i]);
    }
    if selection.Ok? {
      forall e ensures e in selection.value <==> e in values && paths.Covers(EntryPath(e)) {
        CoveredContents(paths, values, EntryPath, e);
      }
    }
  }

  lemma ChosenIsCachedSet(entries: Entries, paths: ArchivePathSet, selected: seq<ArchiveEntry>)
    requires PathsAreKeys(entries)
    requires forall e :: e in selected <==> e.path in entries && entries[e.path] == e && paths.Covers(e.path)
    ensures (set e | e in selected && DraggableEntry(e) :: e.path) == CachedSet(entries, paths, true)
  {
    forall q | q in CachedSet(entries, paths, true) ensures entries[q] in selected && entries[q].path == q {
    }
  }

  /** `drag_entries` once a ready session of an archive that is not listed on demand has been found. */
  method DragEntries(entries: Entries, requested: seq<string>) returns (answer: Result<seq<ArchiveEntry>, DragError>)
    requires PathsAreKeys(entries)
    ensures answer.Ok? <==> CachedOk(entries, requested)
    ensures answer.Ok? ==> ListsPaths(entries, answer.value, CachedSet(entries, NewPathSet(requested), true))
    ensures answer.Ok? ==> HoldsReached(entries, answer.value, requested, true) && answer.value != []
    ensures answer == Err(Unsupported) <==> exists i :: 0 <= i < |requested| && NamesLink(entries, requested[i])
    ensures answer.Err? && answer.error.NotFound?
        <==> NoDirectLinks(entries, requested) && !AllCovered(entries, requested)
    ensures answer.Err? && answer.error.NotFound? ==> FirstMissing(entries, requested, answer.error.missing)
  {
    var refused := RefuseLinks(entries, requested);
    if refused {
      return Err(Unsupported);
    }
    var selection := SelectIndexed(entries, requested);
    if selection.Err? {
      return Err(NotFound(selection.error));
    }
    var chosen := set e | e in selection.value && DraggableEntry(e) :: e.path;
    ChosenIsCachedSet(entries, NewPathSet(requested), selection.value);
    if chosen == {} {
      return Err(NothingDraggable);
    }
    var list := SortedByPath(entries, chosen);
    AnswerHolds(entries, list, requested, true);
    return Ok(list);
  }

  /** `drag_all_entries` for such a session. */
  method DragAllEntries(entries: Entries, excluded: seq<string>) returns (list: seq<ArchiveEntry>)
    requires PathsAreKeys(entries)
    ensures ListsPaths(entries, list, CachedSet(entries, NewPathSet(excluded), false))
    ensures HoldsReached(entries, list, excluded, false)
  {
    list := SortedByPath(entries, CachedSet(entries, NewPathSet(excluded), false));
    AnswerHolds(entries, list, excluded, false);
  }

  // ---------------------------------------------------------------------------------------------

  /** The entries of a listing a filter keeps, in listing order. */
  function DraggedFrom(listing: seq<BrowserEntry>, paths: ArchivePathSet, within: bool): seq<BrowserEntry> {
    if listing == [] then []
    else
      var last := listing[|listing| - 1];
      DraggedFrom(listing[..|listing| - 1], paths, within)
      + (if DraggableListed(last) && Chosen(paths, within, last.path) then [last] else [])
  }

  lemma {:induction false} DraggedContents(
      listing: seq<BrowserEntry>, paths: ArchivePathSet, within: bool, e: BrowserEntry)
    ensures e in DraggedFrom(listing, paths, within)
        <==> e in listing && DraggableListed(e) && Chosen(paths, within, e.path)
  {
    if listing != [] {
      DraggedContents(listing[..|listing| - 1], paths, within, e);
      assert listing == listing[..|listing| - 1] + [listing[|listing| - 1]];
    }
  }

  ghost predicate CoversListed(listing: seq<BrowserEntry>, root: string) {
    exists i :: 0 <= i < |listing| && KeyIsWithin(KeyOf(listing[i]), root)
  }

  ghost predicate LinkSelected(listing: seq<BrowserEntry>, paths: ArchivePathSet) {
    exists i :: 0 <= i < |listing| && !DraggableListed(listing[i]) && paths.Covers(listing[i].path)
        && paths.Contains(listing[i].path)
  }

  ghost predicate AllListed(listing: seq<BrowserEntry>, requested: seq<string>) {
    forall i :: 0 <= i < |requested| ==> CoversListed(listing, ArchiveEntryKey(requested[i]))
  }

  /** `missing` is the first request that covers nothing listed. */
  ghost predicate FirstUnlisted(listing: seq<BrowserEntry>, requested: seq<string>, missing: string) {
    exists i :: 0 <= i < |requested| && missing == requested[i] && !CoversListed(listing, ArchiveEntryKey(requested[i]))
      && forall j :: 0 <= j < i ==> CoversListed(listing, ArchiveEntryKey(requested[j]))
  }

  /** A request names a listed entry that is no plain file and no folder. */
  ghost predicate NamesListedLink(listing: seq<BrowserEntry>, request: string) {
    exists i :: 0 <= i < |listing| && listing[i].kind != PlainFile && listing[i].kind != Folder
        && KeyOf(listing[i]) == ArchiveEntryKey(request) && KeyOf(listing[i]) != []
  }

  lemma LinkSelectedIff(listing: seq<BrowserEntry>, requested: seq<string>)
    ensures LinkSelected(listing, NewPathSet(requested))
            <==> exists k :: 0 <= k < |requested| && NamesListedLink(listing, requested[k])
  {
    var paths := NewPathSet(requested);
    if LinkSelected(listing, paths) {
      var i :| 0 <= i < |listing| && !DraggableListed(listing[i]) && paths.Covers(listing[i].path)
          && paths.Contains(listing[i].path);
      var k :| 0 <= k < |requested| && paths.keys[k] == KeyOf(listing[i]);
      assert NamesListedLink(listing, requested[k]);
    }
    if k :| 0 <= k < |requested| && NamesListedLink(listing, requested[k]) {
      var i :| 0 <= i < |listing| && listing[i].kind != PlainFile && listing[i].kind != Folder
          && KeyOf(listing[i]) == ArchiveEntryKey(requested[k]) && KeyOf(listing[i]) != [];
      assert paths.keys[k] == KeyOf(listing[i]) && KeyIsWithin(KeyOf(listing[i]), paths.keys[k]);
    }
  }

  /** What an answer of a listing holds: the listed plain files and folders that are reached. */
  ghost predicate HoldsListed(listing: seq<BrowserEntry>, answer: seq<BrowserEntry>, requested: seq<string>) {
    forall e :: e in answer <==> e in listing && (e.kind == PlainFile || e.kind == Folder) && Reached(requested, e.path)
  }

  lemma ListedAnswerHolds(listing: seq<BrowserEntry>, requested: seq<string>)
    ensures HoldsListed(listing, DraggedFrom(listing, NewPathSet(requested), true), requested)
  {
    var answer := DraggedFrom(listing, NewPathSet(requested), true);
    forall e
      ensures e in answer <==>
        e in listing && (e.kind == PlainFile || e.kind == Folder) && Reached(requested, e.path)
    {
      DraggedContents(listing, NewPathSet(requested), true, e);
      CoveredIsReached(requested, e.path);
    }
  }

  ghost predicate RelistOk(listing: seq<BrowserEntry>, requested: seq<string>) {
    && AllListed(listing, requested)
    && !LinkSelected(listing, NewPathSet(requested))
    && DraggedFrom(listing, NewPathSet(requested), true) != []
  }

  /** The selection over a fresh listing, before it is filtered by kind. */
  method SelectListed(listing: seq<BrowserEntry>, requested: seq<string>)
    returns (selection: Result<seq<BrowserEntry>, string>)
    ensures selection.Ok? <==> AllListed(listing, requested)
    ensures selection.Ok? ==> selection.value == CoveredEntries(NewPathSet(requested), listing, ListedPath)
    ensures selection.Err? ==> FirstUnlisted(listing, requested, selection.error)
  {
    var paths := NewPathSet(requested);
    selection := Select(paths, listing, ListedPath);
    assert forall i :: 0 <= i < |requested| ==>
      (RequestMatched(paths.keys[i], listing, ListedPath) <==> CoversListed(listing, ArchiveEntryKey(requested[i])));
  }

  /** The selection of `native_drag_items_from_listing` for explicit requests. */
  method DragFromListing(listing: seq<BrowserEntry>, requested: seq<string>)
    returns (answer: Result<seq<BrowserEntry>, DragError>)
    ensures answer.Ok? <==> RelistOk(listing, requested)
    ensures answer.Ok? ==> answer.value == DraggedFrom(listing, NewPathSet(requested), true)
    ensures answer.Ok? ==> HoldsListed(listing, answer.value, requested) && answer.value != []
    ensures answer.Err? && answer.error.NotFound? <==> !AllListed(listing, requested)
    ensures answer.Err? && answer.error.NotFound? ==> FirstUnlisted(listing, requested, answer.error.missing)
    ensures answer == Err(Unsupported)
        <==> AllListed(listing, requested) && exists k :: 0 <= k < |requested| && NamesListedLink(listing, requested[k])
  {
    var paths := NewPathSet(requested);
    var selection := SelectListed(listing, requested);
    if selection.Err? {
      return Err(NotFound(selection.error));
    }
    var selected := selection.value;
    LinkAmongSelected(listing, paths);
    LinkSelectedIff(listing, requested);
    if exists e :: e in selected && !DraggableListed(e) && paths.Contains(e.path) {
      return Err(Unsupported);
    }
    var dragged := OnlyDraggable(selected);
    FiltersCommute(listing, paths);
    ListedAnswerHolds(listing, requested);
    return if dragged == [] then Err(NothingDraggable) else Ok(dragged);
  }

  lemma LinkAmongSelected(listing: seq<BrowserEntry>, paths: ArchivePathSet)
    ensures var covered := CoveredEntries(paths, listing, ListedPath);
      LinkSelected(listing, paths) <==> exists e :: e in covered && !DraggableListed(e) && paths.Contains(e.path)
  {
    var covered := CoveredEntries(paths, listing, ListedPath);
    forall e ensures e in covered <==> e in listing && paths.Covers(e.path) {
      CoveredContents(paths, listing, ListedPath, e);
    }
    if LinkSelected(listing, paths) {
      var i :| 0 <= i < |listing| && !DraggableListed(listing[i]) && paths.Covers(listing[i].path)
          && paths.Contains(listing[i].path);
      assert listing[i] in covered;
    }
  }

  function OnlyDraggable(entries: seq<BrowserEntry>): seq<BrowserEntry> {
    if entries == [] then []
    else
      var last := entries[|entries| - 1];
      OnlyDraggable(entries[..|entries| - 1]) + (if DraggableListed(last) then [last] else [])
  }

  /** Filtering the selection by kind is filtering the listing by selection and kind. */
  lemma {:induction false} FiltersCommute(listing: seq<BrowserEntry>, paths: ArchivePathSet)
    ensures OnlyDraggable(CoveredEntries(paths, listing, ListedPath)) == DraggedFrom(listing, paths, true)
  {
    if listing != [] {
      FiltersCommute(listing[..|listing| - 1], paths);
      var covered := CoveredEntries(paths, listing[..|listing| - 1], ListedPath);
      var last := listing[|listing| - 1];
      assert (covered + [last])[..|covered|] == covered && covered + [] == covered;
    }
  }

  // ---------------------------------------------------------------------------------------------
  // Agreement
  // ---------------------------------------------------------------------------------------------

  /** What a fresh listing drags out: folders only when `files` alone are not asked for. */
  predicate Taken(files: bool, kind: BrowserKind) {
    kind == PlainFile || (kind == Folder && !files)
  }

  /** What the index drags out, by the kind of the entry it was given: copies of files as well. */
  predicate Kept(files: bool, kind: BrowserKind) {
    kind == FileCopy || Taken(files, kind)
  }

  /** The keys of the cached answer, or of the files in it. */
  function CachedAnswer(entries: Entries, paths: ArchivePathSet, within: bool, files: bool): set<string> {
    set q | q in CachedSet(entries, paths, within) && (files ==> entries[q].kind == File)
  }

  /** The keys of the answer of a fresh listing, or of the files in it. */
  function ListedAnswer(listing: seq<BrowserEntry>, paths: ArchivePathSet, within: bool, files: bool): set<string> {
    set e | e in DraggedFrom(listing, paths, within) && Taken(files, e.kind) :: KeyOf(e)
  }

  ghost predicate TakenAt(listing: seq<BrowserEntry>, q: string, files: bool) {
    exists i :: 0 <= i < |listing| && KeyOf(listing[i]) == q && Taken(files, listing[i].kind)
  }

  ghost predicate ReplacedByOther(listing: seq<BrowserEntry>, q: string, files: bool) {
    exists i :: LastOf(listing, q, i) && !Kept(files, listing[i].kind)
  }

  /**
   * Entries the two answers treat differently: one without a name, which the index has no place for; the copy of a
   * file, if it is the last of its key and the listing takes nothing else there; and one that is replaced by a last
   * entry which the index does not drag out.
   */
  ghost predicate Differs(listing: seq<BrowserEntry>, i: nat, files: bool)
    requires i < |listing|
  {
    var q, kind := KeyOf(listing[i]), listing[i].kind;
    if q == [] then Taken(files, kind)
    else if kind == FileCopy then LastOf(listing, q, i) && !TakenAt(listing, q, files)
    else Taken(files, kind) && ReplacedByOther(listing, q, files)
  }

  ghost predicate DifferingAt(listing: seq<BrowserEntry>, q: string, files: bool) {
    exists i :: 0 <= i < |listing| && KeyOf(listing[i]) == q && Differs(listing, i, files)
  }

  ghost predicate DifferingChosen(listing: seq<BrowserEntry>, paths: ArchivePathSet, within: bool, files: bool) {
    exists i :: 0 <= i < |listing| && Differs(listing, i, files) && Chosen(paths, within, listing[i].path)
  }

  lemma ChosenByKey(paths: ArchivePathSet, within: bool, path: string)
    ensures Chosen(paths, within, ArchiveEntryKey(path)) <==> Chosen(paths, within, path)
  {
    KeyRoundTrip(path);
  }

  lemma CachedKeyIff(listing: seq<BrowserEntry>, paths: ArchivePathSet, within: bool, files: bool, q: string, i: nat)
    requires LastOf(listing, q, i) && q != []
    ensures q in CachedAnswer(InsertedAll(map[], listing), paths, within, files)
            <==> Kept(files, listing[i].kind) && Chosen(paths, within, q)
  {
    IndexedEntry(listing, q, i);
  }

  lemma ListedKeyIff(listing: seq<BrowserEntry>, paths: ArchivePathSet, within: bool, files: bool, q: string)
    ensures q in ListedAnswer(listing, paths, within, files) <==> TakenAt(listing, q, files) && Chosen(paths, within, q)
  {
    if q in ListedAnswer(listing, paths, within, files) {
      var e :| e in DraggedFrom(listing, paths, within) && Taken(files, e.kind) && KeyOf(e) == q;
      DraggedContents(listing, paths, within, e);
      ChosenByKey(paths, within, e.path);
      var i :| 0 <= i < |listing| && listing[i] == e;
      assert TakenAt(listing, q, files);
    }
    if TakenAt(listing, q, files) && Chosen(paths, within, q) {
      var i :| 0 <= i < |listing| && KeyOf(listing[i]) == q && Taken(files, listing[i].kind);
      DraggedContents(listing, paths, within, listing[i]);
      ChosenByKey(paths, within, listing[i].path);
    }
  }

  lemma DifferingIff(listing: seq<BrowserEntry>, q: string, files: bool, i: nat)
    requires LastOf(listing, q, i) && q != []
    ensures DifferingAt(listing, q, files) <==> (Kept(files, listing[i].kind) <==> !TakenAt(listing, q, files))
  {
    if Kept(files, listing[i].kind) && !TakenAt(listing, q, files) {
      assert Differs(listing, i, files);
    } else if !Kept(files, listing[i].kind) && TakenAt(listing, q, files) {
      var j :| 0 <= j < |listing| && KeyOf(listing[j]) == q && Taken(files, listing[j].kind);
      assert Differs(listing, j, files);
    }
  }

  /** A listed path is in both answers or in neither, exactly unless it is chosen and has an entry that differs. */
  lemma ListedPathAgreesIff(listing: seq<BrowserEntry>, paths: ArchivePathSet, within: bool, files: bool, q: string)
    requires Listed(listing, q)
    ensures (q in CachedAnswer(InsertedAll(map[], listing), paths, within, files)
        <==> q in ListedAnswer(listing, paths, within, files))
            <==> !(Chosen(paths, within, q) && DifferingAt(listing, q, files))
  {
    ListedKeyIff(listing, paths, within, files, q);
    if q == [] {
      IndexContents(listing, q);
      assert TakenAt(listing, q, files) <==> DifferingAt(listing, q, files);
    } else {
      var i := LastExists(listing, q);
      CachedKeyIff(listing, paths, within, files, q, i);
      DifferingIff(listing, q, files, i);
    }
  }

  /** A path that is not listed is in the cached answer exactly if it is a chosen folder the listing implies. */
  lemma ExtraFoldersAreImplied(listing: seq<BrowserEntry>, paths: ArchivePathSet, within: bool, files: bool, q: string)
    requires !Listed(listing, q)
    ensures q !in ListedAnswer(listing, paths, within, files)
    ensures q in CachedAnswer(InsertedAll(map[], listing), paths, within, files)
            <==> !files && q != [] && IsKey(q) && ImpliedFolder(listing, q) && Chosen(paths, within, q)
  {
    IndexContents(listing, q);
    ListedKeyIff(listing, paths, within, files, q);
  }

  lemma DifferingChosenIff(listing: seq<BrowserEntry>, paths: ArchivePathSet, within: bool, files: bool)
    ensures DifferingChosen(listing, paths, within, files)
            <==> exists q :: Listed(listing, q) && Chosen(paths, within, q) && DifferingAt(listing, q, files)
  {
    if DifferingChosen(listing, paths, within, files) {
      var i :| 0 <= i < |listing| && Differs(listing, i, files) && Chosen(paths, within, listing[i].path);
      ChosenByKey(paths, within, listing[i].path);
      assert Listed(listing, KeyOf(listing[i])) && DifferingAt(listing, KeyOf(listing[i]), files);
    }
    if q :| Listed(listing, q) && Chosen(paths, within, q) && DifferingAt(listing, q, files) {
      var i :| 0 <= i < |listing| && KeyOf(listing[i]) == q && Differs(listing, i, files);
      ChosenByKey(paths, within, listing[i].path);
    }
  }

  /** The chosen folders that the listing implies without listing them. */
  ghost predicate Extra(listing: seq<BrowserEntry>, paths: ArchivePathSet, within: bool, files: bool, q: string) {
    !Listed(listing, q) && !files && q != [] && IsKey(q) && ImpliedFolder(listing, q) && Chosen(paths, within, q)
  }

  ghost predicate AgreesAt(listing: seq<BrowserEntry>, paths: ArchivePathSet, within: bool, files: bool, q: string) {
    q in CachedAnswer(InsertedAll(map[], listing), paths, within, files)
    <==> q in ListedAnswer(listing, paths, within, files) || Extra(listing, paths, within, files, q)
  }

  lemma AgreesAtIff(listing: seq<BrowserEntry>, paths: ArchivePathSet, within: bool, files: bool, q: string)
    ensures AgreesAt(listing, paths, within, files, q)
            <==> !(Listed(listing, q) && Chosen(paths, within, q) && DifferingAt(listing, q, files))
  {
    if Listed(listing, q) {
      ListedPathAgreesIff(listing, paths, within, files, q);
    } else {
      ExtraFoldersAreImplied(listing, paths, within, files, q);
    }
  }

  /**
   * The whole difference between the two answers: exactly when no entry that differs is chosen, the cached answer is
   * the listed one and, besides it, the chosen folders that the listing implies without listing them.
   */
  lemma AnswersDifferByImpliedFolders(listing: seq<BrowserEntry>, paths: ArchivePathSet, within: bool, files: bool)
    ensures (forall q :: AgreesAt(listing, paths, within, files, q))
            <==> !DifferingChosen(listing, paths, within, files)
  {
    DifferingChosenIff(listing, paths, within, files);
    forall q ensures AgreesAt(listing, paths, within, files, q)
        <==> !(Listed(listing, q) && Chosen(paths, within, q) && DifferingAt(listing, q, files))
    {
      AgreesAtIff(listing, paths, within, files, q);
    }
  }

  /**
   * The index and a fresh listing drag out the same files, for a selection and for everything but some exclusions,
   * exactly when no entry is chosen that they treat differently.
   */
  lemma FilesAgreeIff(listing: seq<BrowserEntry>, paths: ArchivePathSet, within: bool)
    ensures CachedAnswer(InsertedAll(map[], listing), paths, within, true) == ListedAnswer(listing, paths, within, true)
            <==> !DifferingChosen(listing, paths, within, true)
  {
    AnswersDifferByImpliedFolders(listing, paths, within, true);
    var cached := CachedAnswer(InsertedAll(map[], listing), paths, within, true);
    var listed := ListedAnswer(listing, paths, within, true);
    assert forall q :: AgreesAt(listing, paths, within, true, q) <==> (q in cached <==> q in listed);
  }

  /** A request covers an indexed path exactly when it covers a listed one. */
  lemma CoverageAgrees(listing: seq<BrowserEntry>, request: string)
    ensures CoversIndexed(InsertedAll(map[], listing), ArchiveEntryKey(request))
        <==> CoversListed(listing, ArchiveEntryKey(request))
  {
    var entries, root := InsertedAll(map[], listing), ArchiveEntryKey(request);
    if CoversListed(listing, root) {
      var i :| 0 <= i < |listing| && KeyIsWithin(KeyOf(listing[i]), root);
      var last := LastExists(listing, KeyOf(listing[i]));
      IndexedEntry(listing, KeyOf(listing[i]), last);
      KeyRoundTrip(listing[i].path);
      assert CoversIndexed(entries, root);
    }
    if CoversIndexed(entries, root) {
      var q :| q in entries && KeyIsWithin(ArchiveEntryKey(q), root);
      IndexContents(listing, q);
      if Listed(listing, q) {
        var i :| 0 <= i < |listing| && KeyOf(listing[i]) == q;
        KeyRoundTrip(listing[i].path);
      } else {
        var i :| 0 <= i < |listing| && KeyIsWithin(KeyOf(listing[i]), q);
        WithinIsTransitive(KeyOf(listing[i]), q, root);
      }
    }
  }

  lemma WithinIsTransitive(key: string, middle: string, root: string)
    requires KeyIsWithin(key, middle) && KeyIsWithin(middle, root)
    ensures KeyIsWithin(key, root)
  {
    assert key[..|middle|] == middle && middle[..|root|] == root;
    assert key[..|root|] == root;
  }

  /** A request that names an indexed link selects the listed one. */
  lemma DirectLinkSelects(listing: seq<BrowserEntry>, requested: seq<string>, i: nat)
    requires i < |requested| && DirectLink(InsertedAll(map[], listing), requested[i])
    ensures LinkSelected(listing, NewPathSet(requested))
  {
    var key := ArchiveEntryKey(requested[i]);
    NormalizationsAgree(requested[i]);
    IndexContents(listing, key);
    var k := LastExists(listing, key);
    IndexedEntry(listing, key, k);
    assert NewPathSet(requested).keys[i] == KeyOf(listing[k]) && KeyIsWithin(KeyOf(listing[k]), KeyOf(listing[k]));
  }

  /** A request that covers something listed and names no link is itself in the cached answer. */
  lemma RequestIsCached(listing: seq<BrowserEntry>, requested: seq<string>, i: nat)
    requires i < |requested| && CoversListed(listing, ArchiveEntryKey(requested[i]))
    requires !DirectLink(InsertedAll(map[], listing), requested[i])
    ensures ArchiveEntryKey(requested[i]) in CachedSet(InsertedAll(map[], listing), NewPathSet(requested), true)
  {
    var entries, key := InsertedAll(map[], listing), ArchiveEntryKey(requested[i]);
    NormalizationsAgree(requested[i]);
    KeyRoundTrip(requested[i]);
    IndexContents(listing, key);
    if Listed(listing, key) {
      var k := LastExists(listing, key);
      IndexedEntry(listing, key, k);
    }
    assert key in entries;
    assert NewPathSet(requested).keys[i] == key && KeyIsWithin(key, key);
  }

  /**
   * Whenever a fresh listing answers an explicit selection, so does the index, with the same files unless some differ.
   */
  lemma RelistImpliesCached(listing: seq<BrowserEntry>, requested: seq<string>)
    requires RelistOk(listing, requested)
    ensures CachedOk(InsertedAll(map[], listing), requested)
    ensures CachedAnswer(InsertedAll(map[], listing), NewPathSet(requested), true, true)
            == ListedAnswer(listing, NewPathSet(requested), true, true)
            <==> !DifferingChosen(listing, NewPathSet(requested), true, true)
  {
    var entries, paths := InsertedAll(map[], listing), NewPathSet(requested);
    forall i | 0 <= i < |requested|
      ensures CoversIndexed(entries, ArchiveEntryKey(requested[i])) && !DirectLink(entries, requested[i])
    {
      CoverageAgrees(listing, requested[i]);
      if DirectLink(entries, requested[i]) {
        DirectLinkSelects(listing, requested, i);
      }
    }
    var e := DraggedFrom(listing, paths, true)[0];
    DraggedContents(listing, paths, true, e);
    RequestIsCached(listing, requested, 0);
    FilesAgreeIff(listing, paths, true);
  }

  /** No covered entry is the copy of a file or shares its key with another entry. */
  ghost predicate CoveredPlainly(listing: seq<BrowserEntry>, paths: ArchivePathSet) {
    && (forall i :: 0 <= i < |listing| && paths.Covers(listing[i].path) ==> listing[i].kind != FileCopy)
    && (forall i, j :: 0 <= i < j < |listing| && paths.Covers(listing[i].path) ==>
        KeyOf(listing[i]) != KeyOf(listing[j]))
  }

  /** What the index then holds for a covered entry is that entry. */
  lemma CoveredEntry(listing: seq<BrowserEntry>, paths: ArchivePathSet, i: nat)
    requires CoveredPlainly(listing, paths) && i < |listing| && paths.Covers(listing[i].path)
    ensures KeyOf(listing[i]) != [] && LastOf(listing, KeyOf(listing[i]), i) && listing[i].kind != FileCopy
  {
  }

  /**
   * Where no covered entry is a copy or shares its key, the index answers where a fresh listing refuses only if
   * everything it drags out is a folder the listing implies.
   */
  lemma CachedWithoutRelist(listing: seq<BrowserEntry>, requested: seq<string>, q: string)
    requires CoveredPlainly(listing, NewPathSet(requested))
    requires CachedOk(InsertedAll(map[], listing), requested) && !RelistOk(listing, requested)
    requires q in CachedSet(InsertedAll(map[], listing), NewPathSet(requested), true)
    ensures IsBareFolder(InsertedAll(map[], listing)[q], q) && !Listed(listing, q) && ImpliedFolder(listing, q)
  {
    NothingDraggedFromListing(listing, requested);
    IndexContents(listing, q);
    if Listed(listing, q) {
      ListedIsDragged(listing, NewPathSet(requested), q);
    }
  }

  lemma ListedIsDragged(listing: seq<BrowserEntry>, paths: ArchivePathSet, q: string)
    requires CoveredPlainly(listing, paths)
    requires q in CachedSet(InsertedAll(map[], listing), paths, true) && Listed(listing, q)
    ensures DraggedFrom(listing, paths, true) != []
  {
    IndexContents(listing, q);
    var i := LastExists(listing, q);
    IndexedEntry(listing, q, i);
    ChosenByKey(paths, true, listing[i].path);
    DraggedContents(listing, paths, true, listing[i]);
  }

  lemma NothingDraggedFromListing(listing: seq<BrowserEntry>, requested: seq<string>)
    requires CoveredPlainly(listing, NewPathSet(requested))
    requires CachedOk(InsertedAll(map[], listing), requested) && !RelistOk(listing, requested)
    ensures DraggedFrom(listing, NewPathSet(requested), true) == []
  {
    forall i | 0 <= i < |requested| ensures CoversListed(listing, ArchiveEntryKey(requested[i])) {
      CoverageAgrees(listing, requested[i]);
    }
    NoLinkSelected(listing, requested);
  }

  lemma NoLinkSelected(listing: seq<BrowserEntry>, requested: seq<string>)
    requires CoveredPlainly(listing, NewPathSet(requested)) && NoDirectLinks(InsertedAll(map[], listing), requested)
    ensures !LinkSelected(listing, NewPathSet(requested))
  {
    var paths := NewPathSet(requested);
    if LinkSelected(listing, paths) {
      var k :| 0 <= k < |listing| && !DraggableListed(listing[k]) && paths.Covers(listing[k].path)
          && paths.Contains(listing[k].path);
      var i :| 0 <= i < |requested| && paths.keys[i] == KeyOf(listing[k]);
      CoveredEntry(listing, paths, k);
      LinkIsDirect(listing, k, requested[i]);
    }
  }

  lemma LinkIsDirect(listing: seq<BrowserEntry>, k: nat, request: string)
    requires LastOf(listing, ArchiveEntryKey(request), k) && ArchiveEntryKey(request) != []
    requires !DraggableListed(listing[k]) && listing[k].kind != FileCopy
    ensures DirectLink(InsertedAll(map[], listing), request)
  {
    IndexedEntry(listing, ArchiveEntryKey(request), k);
    NormalizationsAgree(request);
  }
}
