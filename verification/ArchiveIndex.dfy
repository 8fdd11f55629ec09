/** The archive index of one browsing session: `ArchiveIndex`, filled entry by entry from a listing. */
module ArchiveIndexing {
  import opened Wrappers
  import opened ArchiveTypes
  import opened PathKeys
  import opened TreeIndex

  const MAX_ARCHIVE_INDEX_ENTRIES := 500_000
  const MAX_ARCHIVE_INDEX_METADATA_BYTES := 256 * 1024 * 1024

  datatype InsertError = TooManyEntries | MetadataLimit

  function UpperHexDigit(n: nat): char
    requires n < 16
  {
    if n < 10 then '0' + (n as char) else 'A' + ((n - 10) as char)
  }

  /** `format!("{:0width$X}")` for a number of at most `width` hexadecimal digits. */
  function UpperHex(n: nat, width: nat): (text: string)
    ensures |text| == width
  {
    if width == 0 then [] else UpperHex(n / 16, width - 1) + [UpperHexDigit(n % 16)]
  }

  function CrcText(crc: Option<u32>): Option<string> {
    match crc
    case None => None
    case Some(n) => Some(UpperHex(n, 8))
  }

  function Dto(entry: BrowserEntry): ArchiveEntry {
    ArchiveEntry(
      NormalizeArchivePath(entry.path), MapKind(entry.kind),
      Metadata(entry.size, entry.compressedSize, entry.modified, entry.mode, entry.diagnostics, entry.encrypted,
               entry.compression, CrcText(entry.crc), entry.comment, entry.created, entry.accessed, entry.solid,
               entry.linkTarget, entry.attributes, entry.uid, entry.gid, entry.owner, entry.group))
  }

  // What an entry of the index says, in terms of the listed one.

  predicate KindMatches(stored: EntryKind, listed: BrowserKind) {
    && (stored == File <==> listed == PlainFile || listed == FileCopy)
    && (stored == Directory <==> listed == Folder)
    && (stored == Symlink <==> listed == SymbolicLink)
    && (stored == Hardlink <==> listed == HardLink)
    && (stored == Special <==> listed == SpecialFile)
  }

  /** The number a text of upper-case hexadecimal digits denotes, if it is one. */
  function ParseUpperHex(text: string): Option<nat> {
    if text == [] then Some(0)
    else
      var last, front := text[|text| - 1], ParseUpperHex(text[..|text| - 1]);
      if front.None? then None
      else if '0' <= last <= '9' then Some(16 * front.value + (last - '0') as nat)
      else if 'A' <= last <= 'F' then Some(16 * front.value + 10 + (last - 'A') as nat)
      else None
  }

  /** A checksum is shown as eight upper-case hexadecimal digits. */
  predicate CrcMatches(stored: Option<string>, listed: Option<u32>) {
    && (stored.Some? <==> listed.Some?)
    && (listed.Some? ==> stored.Some? && |stored.value| == 8 && ParseUpperHex(stored.value) == Some(listed.value))
  }

  predicate MetadataMatches(stored: Metadata, listed: BrowserEntry) {
    && stored.size == listed.size && stored.compressedSize == listed.compressedSize
    && stored.modified == listed.modified && stored.created == listed.created && stored.accessed == listed.accessed
    && stored.mode == listed.mode && stored.attributes == listed.attributes
    && stored.uid == listed.uid && stored.gid == listed.gid && stored.owner == listed.owner
    && stored.group == listed.group && stored.encrypted == listed.encrypted && stored.solid == listed.solid
    && stored.compression == listed.compression && CrcMatches(stored.crc, listed.crc)
    && stored.comment == listed.comment && stored.linkTarget == listed.linkTarget
    && stored.diagnostics == listed.diagnostics
  }

  /** The index shows the listed entry under its key. */
  predicate Represents(stored: ArchiveEntry, listed: BrowserEntry) {
    && stored.path == ArchiveEntryKey(listed.path)
    && KindMatches(stored.kind, listed.kind) && MetadataMatches(stored.metadata, listed)
  }

  /** A folder nobody listed: its path, and nothing known about it. */
  predicate IsBareFolder(stored: ArchiveEntry, path: string) {
    var m := stored.metadata;
    && stored.path == path && stored.kind == Directory && m.diagnostics == []
    && m.size == None && m.compressedSize == None && m.modified == None && m.created == None && m.accessed == None
    && m.mode == None && m.attributes == None && m.uid == None && m.gid == None && m.owner == None && m.group == None
    && m.encrypted == None && m.solid == None && m.compression == None && m.crc == None && m.comment == None
    && m.linkTarget == None
  }

  function Power16(n: nat): nat {
    if n == 0 then 1 else 16 * Power16(n - 1)
  }

  lemma {:induction false} ParseInvertsUpperHex(n: nat, width: nat)
    requires n < Power16(width)
    ensures ParseUpperHex(UpperHex(n, width)) == Some(n)
    decreases width
  {
    if width > 0 {
      ParseInvertsUpperHex(n / 16, width - 1);
      assert UpperHex(n, width)[..width - 1] == UpperHex(n / 16, width - 1);
    }
  }

  lemma DtoRepresents(entry: BrowserEntry)
    ensures Represents(Dto(entry), entry)
  {
    NormalizationsAgree(entry.path);
    if entry.crc.Some? {
      assert Power16(4) == 0x1_0000;
      assert Power16(8) == 0x1_0000_0000;
      ParseInvertsUpperHex(entry.crc.value, 8);
    }
  }

  lemma FolderEntryIsBare(path: string)
    ensures IsBareFolder(FolderEntry(path), path)
  {
  }

  /** How deep `ensure_ancestors` creates folders: a directory's own path counts as one. */
  function FolderDepth(entry: BrowserEntry): nat {
    var n := |Segments(entry.path)|;
    if entry.kind == Folder then n else if n == 0 then 0 else n - 1
  }

  function EntryGrowth(entry: BrowserEntry): nat {
    SaturatingAdd(SaturatingAdd(ByteLength(NormalizeArchivePath(entry.path)), 128),
        DiagnosticBytes(entry.diagnostics))
  }

  /** The entries after the ancestors of `entry` have been created. */
  function WithAncestors(entries: Entries, entry: BrowserEntry): Entries {
    FoldersAlong(entries, Segments(entry.path), FolderDepth(entry))
  }

  /** The child links after the path of `entry` has been linked. */
  function WithLinks(children: Children, entry: BrowserEntry): Children {
    LinkAlong(children, Segments(entry.path), |Segments(entry.path)|)
  }

  /** The entries after an insertion: the ancestors, and the entry itself if it was admitted. */
  function Inserted(entries: Entries, entry: BrowserEntry, admitted: bool): Entries {
    var grown := WithAncestors(entries, entry);
    if admitted then grown[Dto(entry).path := Dto(entry)] else grown
  }

  /** What an insertion adds to the estimate: the entry, and everything its ancestors add to the index. */
  ghost function Growth(entries: Entries, children: Children, entry: BrowserEntry): int {
    EntryWeight(Dto(entry))
        + IndexWeight(WithAncestors(entries, entry), WithLinks(children, entry)) - IndexWeight(entries, children)
  }

  /** The entries after an accepted insertion, which skips an empty path. */
  function InsertedOne(entries: Entries, entry: BrowserEntry): Entries {
    if NormalizeArchivePath(entry.path) == [] then entries else Inserted(entries, entry, true)
  }

  /** The entries after a whole listing has been inserted without refusal. */
  function InsertedAll(entries: Entries, listing: seq<BrowserEntry>): Entries {
    if listing == [] then entries
    else InsertedOne(InsertedAll(entries, listing[..|listing| - 1]), listing[|listing| - 1])
  }

  datatype Tree = Tree(entries: Entries, children: Children)

  /** One insertion, accepted or refused: a refusal for the metadata limit still leaves the links and the folders. */
  function Grown(tree: Tree, entry: BrowserEntry, refusal: Option<InsertError>): Tree {
    if refusal == Some(TooManyEntries) || NormalizeArchivePath(entry.path) == [] then tree
    else Tree(Inserted(tree.entries, entry, refusal.None?), WithLinks(tree.children, entry))
  }

  /** The counts an index keeps of everything it was offered. */
  datatype Tally = Tally(entryCount: nat, totalBytes: nat, hasTotal: bool)

  const NO_ENTRIES := Tally(0, 0, false)

  function Tallied(tally: Tally, entry: BrowserEntry): Tally {
    var count := SaturatingAdd(tally.entryCount, 1);
    if count > MAX_ARCHIVE_INDEX_ENTRIES || entry.size.None? then tally.(entryCount := count)
    else Tally(count, SaturatingAdd(tally.totalBytes, entry.size.value), true)
  }

  /** All that decides what becomes of the next entry. */
  datatype Filling = Filling(tree: Tree, tally: Tally, estimate: int)

  ghost function EstimateWith(f: Filling, entry: BrowserEntry): int {
    Saturate(f.estimate + Growth(f.tree.entries, f.tree.children, entry))
  }

  /** Why an insertion is refused: for the count, or, unless the path is empty, for the metadata it would add. */
  ghost function Refusal(f: Filling, entry: BrowserEntry): Option<InsertError> {
    if Tallied(f.tally, entry).entryCount > MAX_ARCHIVE_INDEX_ENTRIES then Some(TooManyEntries)
    else if NormalizeArchivePath(entry.path) != [] && EstimateWith(f, entry) > MAX_ARCHIVE_INDEX_METADATA_BYTES
    then Some(MetadataLimit)
    else None
  }

  lemma RefusalIsAnswered(f: Filling, entry: BrowserEntry, result: Result<(), InsertError>)
    requires result == Err(TooManyEntries) <==> Tallied(f.tally, entry).entryCount > MAX_ARCHIVE_INDEX_ENTRIES
    requires result != Err(TooManyEntries) ==>
        (result.Ok? <==> NormalizeArchivePath(entry.path) == []
                         || EstimateWith(f, entry) <= MAX_ARCHIVE_INDEX_METADATA_BYTES)
    ensures result.Ok? <==> Refusal(f, entry).None?
    ensures result.Err? ==> Refusal(f, entry) == Some(result.error)
  {
    if result.Err? {
      match result.error
      case TooManyEntries =>
      case MetadataLimit =>
    }
  }

  ghost function Filled(f: Filling, entry: BrowserEntry): Filling {
    var refusal := Refusal(f, entry);
    Filling(Grown(f.tree, entry, refusal), Tallied(f.tally, entry),
            if refusal == Some(TooManyEntries) || NormalizeArchivePath(entry.path) == [] then f.estimate
            else EstimateWith(f, entry))
  }

  /** One insertion after the other, refused or not. */
  ghost function FilledBy(f: Filling, listing: seq<BrowserEntry>): Filling {
    if listing == [] then f else Filled(FilledBy(f, listing[..|listing| - 1]), listing[|listing| - 1])
  }

  lemma FilledStep(f: Filling, listing: seq<BrowserEntry>, n: nat)
    requires n < |listing|
    ensures FilledBy(f, listing[..n + 1]) == Filled(FilledBy(f, listing[..n]), listing[n])
  {
    assert listing[..n + 1][..n] == listing[..n];
  }

  /** Why the `n`-th entry is refused once those before it have been offered. */
  ghost function RefusalAt(f: Filling, listing: seq<BrowserEntry>, n: nat): Option<InsertError>
    requires n < |listing|
  {
    Refusal(FilledBy(f, listing[..n]), listing[n])
  }

  /** None of the first `n` entries is refused. */
  ghost predicate NoneRefused(f: Filling, listing: seq<BrowserEntry>, n: nat)
    requires n <= |listing|
  {
    forall k :: 0 <= k < n ==> RefusalAt(f, listing, k).None?
  }

  lemma NoneRefusedStep(f: Filling, listing: seq<BrowserEntry>, n: nat)
    requires n < |listing|
    ensures NoneRefused(f, listing, n + 1)
        <==> NoneRefused(f, listing, n) && Refusal(FilledBy(f, listing[..n]), listing[n]).None?
  {
    assert RefusalAt(f, listing, n) == Refusal(FilledBy(f, listing[..n]), listing[n]);
  }

  /** Every entry counts, and where none is refused all of them are in the index. */
  lemma {:induction false} FilledContents(f: Filling, listing: seq<BrowserEntry>, n: nat)
    requires n <= |listing|
    ensures FilledBy(f, listing[..n]).tally == TalliedAll(f.tally, listing[..n])
    ensures NoneRefused(f, listing, n) ==>
              FilledBy(f, listing[..n]).tree.entries == InsertedAll(f.tree.entries, listing[..n])
  {
    if n > 0 {
      FilledContents(f, listing, n - 1);
      FilledStep(f, listing, n - 1);
      NoneRefusedStep(f, listing, n - 1);
      assert listing[..n][..n - 1] == listing[..n - 1] && listing[..n][n - 1] == listing[n - 1];
    }
  }

  lemma {:induction false} FilledCount(f: Filling, listing: seq<BrowserEntry>)
    ensures f.tally.entryCount + |listing| <= U64_MAX ==>
              FilledBy(f, listing).tally.entryCount == f.tally.entryCount + |listing|
    ensures listing != [] && RefusalAt(f, listing, |listing| - 1).None? ==>
              FilledBy(f, listing).tally.entryCount <= MAX_ARCHIVE_INDEX_ENTRIES
  {
    if listing != [] {
      FilledCount(f, listing[..|listing| - 1]);
    }
  }

  /** The sizes a listing reports, added up. */
  function KnownSizes(listing: seq<BrowserEntry>): nat {
    if listing == [] then 0
    else
      var last := listing[|listing| - 1];
      KnownSizes(listing[..|listing| - 1]) + if last.size.Some? then last.size.value else 0
  }

  function TalliedAll(tally: Tally, listing: seq<BrowserEntry>): Tally {
    if listing == [] then tally
    else Tallied(TalliedAll(tally, listing[..|listing| - 1]), listing[|listing| - 1])
  }

  /** Within the limit the counts are the number of entries and the sum of the sizes that are known, if any is. */
  lemma {:induction false} TallyOfListing(tally: Tally, listing: seq<BrowserEntry>)
    requires tally.entryCount + |listing| <= MAX_ARCHIVE_INDEX_ENTRIES && tally.totalBytes <= U64_MAX
    ensures var after := TalliedAll(tally, listing);
      && after.entryCount == tally.entryCount + |listing|
      && after.totalBytes == Saturate(tally.totalBytes + KnownSizes(listing))
      && (after.hasTotal <==> tally.hasTotal || exists i :: 0 <= i < |listing| && listing[i].size.Some?)
    ensures var shown := StatisticsOf(TalliedAll(NO_ENTRIES, listing));
      tally == NO_ENTRIES ==>
        && shown.entryCount == |listing|
        && (shown.totalBytes.Some? <==> exists i :: 0 <= i < |listing| && listing[i].size.Some?)
        && (shown.totalBytes.Some? ==> shown.totalBytes.value == Saturate(KnownSizes(listing)))
  {
    if listing != [] {
      var n := |listing| - 1;
      TallyOfListing(tally, listing[..n]);
      assert forall i :: 0 <= i < n ==> listing[..n][i] == listing[i];
      assert (exists i :: 0 <= i < |listing| && listing[i].size.Some?)
        <==> (exists i :: 0 <= i < n && listing[..n][i].size.Some?) || listing[n].size.Some?;
    }
  }

  datatype Statistics = Statistics(entryCount: nat, totalBytes: Option<nat>)

  function StatisticsOf(tally: Tally): Statistics {
    Statistics(tally.entryCount, if tally.hasTotal then Some(tally.totalBytes) else None)
  }

  function Saturate(n: int): int {
    if n > U64_MAX then U64_MAX else n
  }

  class ArchiveIndex {
    var entries: Entries
    var children: Children
    var loadedDirectories: set<string>
    var entryCount: nat
    var totalBytes: nat
    var hasTotal: bool
    var estimatedMetadataBytes: nat

    /** What every insertion keeps, accepted or refused. */
    ghost predicate Valid()
      reads this
    {
      WellLinked(children) && Indexed(entries, children)
    }

    /** What every accepted insertion keeps: the estimate covers the contents and respects both limits. */
    ghost predicate WithinBudget()
      reads this
    {
      && IndexWeight(entries, children) <= estimatedMetadataBytes <= MAX_ARCHIVE_INDEX_METADATA_BYTES
      && entryCount <= MAX_ARCHIVE_INDEX_ENTRIES
    }

    /** The entry is in the index under its key, as it was listed. */
    ghost predicate ShowsEntry(entry: BrowserEntry)
      reads this`entries
    {
      var key := ArchiveEntryKey(entry.path);
      key in entries && Represents(entries[key], entry)
    }

    function Counts(): Tally
      reads this
    {
      Tally(entryCount, totalBytes, hasTotal)
    }

    function Contents(): Tree
      reads this
    {
      Tree(entries, children)
    }

    ghost function Progress(): Filling
      reads this
    {
      Filling(Contents(), Counts(), estimatedMetadataBytes)
    }

    constructor ()
      ensures Valid() && WithinBudget()
      ensures entries == map[] && Counts() == NO_ENTRIES
      ensures children == map[[] := {}] && loadedDirectories == {} && estimatedMetadataBytes == 0
    {
      entries := map[];
      children := map[[] := {}];
      loadedDirectories := {};
      entryCount := 0;
      totalBytes := 0;
      hasTotal := false;
      estimatedMetadataBytes := 0;
      new;
      assert EntryWeights(entries) == map[] && LinkWeights(children) == map[];
    }

    ghost function Weight(): nat
      reads this
    {
      IndexWeight(entries, children)
    }

    /** Add a child link; the growth is zero if it was there. */
    method LinkChild(parent: string, current: string) returns (growth: nat)
      requires WellLinked(children) && IsKey(current) && current != [] && Parent(current) == parent
      modifies this`children
      ensures children == AddLink(old(children), parent, current) && WellLinked(children)
      ensures growth == Saturate(Weight() - old(Weight())) && old(Weight()) <= Weight()
    {
      AddLinkWeight(children, parent, current);
      LinkKeepsWellLinked(children, parent, current);
      var insertedChild := current !in LinksOf(children, parent);
      if insertedChild {
        children := children[parent := LinksOf(children, parent) + {current}];
      } else {
        assert LinksOf(children, parent) + {current} == children[parent];
        assert AddLink(children, parent, current) == children;
      }
      growth := if insertedChild then SaturatingAdd(ByteLength(current), 32) else 0;
    }

    /** Create a folder where the walk passes a path that is not indexed. */
    method CreateFolder(current: string) returns (growth: nat)
      modifies this`entries
      ensures entries == AddFolder(old(entries), current)
      ensures growth == Saturate(Weight() - old(Weight())) && old(Weight()) <= Weight()
    {
      growth := 0;
      if current !in entries {
        PutEntryWeight(entries, current, FolderEntry(current));
        growth := SaturatingAdd(ByteLength(current), 128);
        entries := entries[current := FolderEntry(current)];
      }
    }

    /** One turn of the loop of `ensure_ancestors`. */
    method ExtendBranch(parent: string, segments: seq<string>, k: nat, depth: nat)
      returns (current: string, growth: nat)
      requires Clean(segments) && k < |segments| && parent == Prefix(segments, k) && WellLinked(children)
      modifies this`entries, this`children
      ensures current == Prefix(segments, k + 1)
      ensures children == AddLink(old(children), parent, current) && WellLinked(children)
      ensures entries == if k < depth then AddFolder(old(entries), current) else old(entries)
      ensures growth == Saturate(Weight() - old(Weight())) && old(Weight()) <= Weight()
    {
      current := if parent == [] then segments[k] else parent + "/" + segments[k];
      PrefixStep(segments, k);
      PrefixIsKey(segments, k + 1);
      growth := LinkChild(parent, current);
      if k < depth {
        var folderGrowth := CreateFolder(current);
        growth := SaturatingAdd(growth, folderGrowth);
      }
    }

    /**
     * `ensure_ancestors`: link every prefix of the path to its parent, create the missing folders down to `depth`,
     * and return the weight of what was added.
     */
    method EnsureAncestors(path: string, depth: nat, ghost source: seq<string>) returns (growth: nat)
      requires Clean(source) && source != [] && path == Join(source) && depth <= |source|
      requires WellLinked(children)
      modifies this`entries, this`children
      ensures children == LinkAlong(old(children), source, |source|)
      ensures entries == FoldersAlong(old(entries), source, depth)
      ensures growth == Saturate(Weight() - old(Weight())) && old(Weight()) <= Weight()
    {
      SplitOfJoin(source);
      growth := LinkSegments(Split(path, {'/'}), depth);
    }

    /** The loop of `ensure_ancestors`. */
    method LinkSegments(segments: seq<string>, depth: nat) returns (growth: nat)
      requires Clean(segments) && segments != [] && depth <= |segments| && WellLinked(children)
      modifies this`entries, this`children
      ensures children == LinkAlong(old(children), segments, |segments|)
      ensures entries == FoldersAlong(old(entries), segments, depth)
      ensures growth == Saturate(Weight() - old(Weight())) && old(Weight()) <= Weight()
    {
      var parent: string := [];
      growth := 0;
      ghost var start, linked, weight := entries, children, Weight();
      for k := 0 to |segments|
        invariant parent == Prefix(segments, k)
        invariant children == LinkAlong(linked, segments, k) && WellLinked(children)
        invariant entries == FoldersAlong(start, segments, Min(k, depth))
        invariant growth == Saturate(Weight() - weight) && weight <= Weight()
      {
        GrowthUnfolds(start, linked, segments, k, depth);
        var stepGrowth;
        parent, stepGrowth := ExtendBranch(parent, segments, k, depth);
        growth := SaturatingAdd(growth, stepGrowth);
      }
    }

    /** `ArchiveIndex::insert`. */
    method Insert(entry: BrowserEntry) returns (result: Result<(), InsertError>)
      requires Valid()
      modifies this
      ensures Valid()
      ensures loadedDirectories == old(loadedDirectories)
      ensures Counts() == Tallied(old(Counts()), entry)
      ensures result == Err(TooManyEntries) <==> entryCount > MAX_ARCHIVE_INDEX_ENTRIES
      ensures result == Err(TooManyEntries) || NormalizeArchivePath(entry.path) == [] ==>
                entries == old(entries) && children == old(children)
                    && estimatedMetadataBytes == old(estimatedMetadataBytes)
      ensures result != Err(TooManyEntries) && NormalizeArchivePath(entry.path) == [] ==> result.Ok?
      ensures result != Err(TooManyEntries) && NormalizeArchivePath(entry.path) != [] ==>
                && children == WithLinks(old(children), entry)
                && entries == Inserted(old(entries), entry, result.Ok?)
                && estimatedMetadataBytes
                    == Saturate(old(estimatedMetadataBytes) + Growth(old(entries), old(children), entry))
                && (result.Ok? <==> estimatedMetadataBytes <= MAX_ARCHIVE_INDEX_METADATA_BYTES)
      ensures result.Ok? && ArchiveEntryKey(entry.path) != [] ==> ShowsEntry(entry)
      ensures old(WithinBudget()) && result.Ok? ==> WithinBudget()
    {
      entryCount := SaturatingAdd(entryCount, 1);
      if entryCount > MAX_ARCHIVE_INDEX_ENTRIES {
        return Err(TooManyEntries);
      }
      if entry.size.Some? {
        totalBytes := SaturatingAdd(totalBytes, entry.size.value);
        hasTotal := true;
      }
      var path := NormalizeArchivePath(entry.path);
      NormalizationsAgree(entry.path);
      if path == [] {
        return Ok(());
      }
      var admitted := InsertAt(path, entry);
      return if admitted then Ok(()) else Err(MetadataLimit);
    }

    /** An insertion as the visitor of the indexing worker sees it. */
    method InsertNext(entry: BrowserEntry) returns (result: Result<(), InsertError>)
      requires Valid()
      modifies this
      ensures Valid() && Counts() == Tallied(old(Counts()), entry) && loadedDirectories == old(loadedDirectories)
      ensures result == Err(TooManyEntries) <==> entryCount > MAX_ARCHIVE_INDEX_ENTRIES
      ensures result.Ok? <==> Refusal(old(Progress()), entry).None?
      ensures result.Err? ==> Refusal(old(Progress()), entry) == Some(result.error)
      ensures Progress() == Filled(old(Progress()), entry)
      ensures old(WithinBudget()) && result.Ok? ==> WithinBudget()
    {
      ghost var before := Progress();
      result := Insert(entry);
      RefusalIsAnswered(before, entry, result);
    }

    /** The visitor of the indexing worker: insert entry by entry and stop at the first refusal. */
    method InsertEach(listing: seq<BrowserEntry>) returns (result: Result<(), InsertError>, ghost stopped: nat)
      requires Valid()
      modifies this
      ensures Valid()
      ensures stopped <= |listing| && (result.Ok? <==> stopped == |listing|)
      ensures NoneRefused(old(Progress()), listing, stopped)
      ensures result.Ok? ==> Progress() == FilledBy(old(Progress()), listing)
      ensures result.Err? ==> RefusalAt(old(Progress()), listing, stopped) == Some(result.error)
                              && Progress() == FilledBy(old(Progress()), listing[..stopped + 1])
      ensures result.Ok? && old(WithinBudget()) ==> WithinBudget()
    {
      ghost var before := Progress();
      assert listing[..0] == [];
      for n := 0 to |listing|
        invariant Valid()
        invariant Progress() == FilledBy(before, listing[..n])
        invariant NoneRefused(before, listing, n)
        invariant old(WithinBudget()) ==> WithinBudget()
      {
        FilledStep(before, listing, n);
        NoneRefusedStep(before, listing, n);
        result := InsertNext(listing[n]);
        if result.Err? {
          stopped := n;
          return;
        }
      }
      assert listing[..|listing|] == listing;
      result, stopped := Ok(()), |listing|;
    }

    /** The same, and what an unrefused listing leaves. */
    method IndexListing(listing: seq<BrowserEntry>) returns (result: Result<(), InsertError>, ghost stopped: nat)
      requires Valid()
      modifies this
      ensures Valid()
      ensures stopped <= |listing| && (result.Ok? <==> stopped == |listing|)
      ensures NoneRefused(old(Progress()), listing, stopped)
      ensures result.Err? ==> RefusalAt(old(Progress()), listing, stopped) == Some(result.error)
                              && Progress() == FilledBy(old(Progress()), listing[..stopped + 1])
      ensures result.Ok? ==> entries == InsertedAll(old(entries), listing)
      ensures result.Ok? && old(WithinBudget()) ==> WithinBudget()
      ensures result.Ok? ==> Counts() == TalliedAll(old(Counts()), listing)
      ensures result.Ok? && old(entryCount) + |listing| <= U64_MAX ==> entryCount == old(entryCount) + |listing|
      ensures result.Ok? && listing != [] ==> entryCount <= MAX_ARCHIVE_INDEX_ENTRIES
    {
      ghost var before := Progress();
      result, stopped := InsertEach(listing);
      if result.Ok? {
        assert listing[..|listing|] == listing;
        FilledContents(before, listing, |listing|);
        FilledCount(before, listing);
      }
    }

    /** `statistics`. */
    method CurrentStatistics() returns (statistics: Statistics)
      ensures statistics == StatisticsOf(Counts())
    {
      var total := if hasTotal then Some(totalBytes) else None;
      return Statistics(entryCount, total);
    }

    /**
     * Loading one directory of an on-demand archive, once: the index grows by every entry, refusals are ignored, and
     * the directory is marked and listed.
     */
    method LoadDirectory(directory: string, listing: seq<BrowserEntry>)
      requires Valid()
      modifies this
      ensures Valid()
      ensures loadedDirectories == old(loadedDirectories) + {directory}
      ensures directory in old(loadedDirectories) ==> Progress() == old(Progress())
      ensures directory !in old(loadedDirectories) ==>
                var filled := FilledBy(old(Progress()), listing);
                && entries == filled.tree.entries && Counts() == filled.tally
                && estimatedMetadataBytes == filled.estimate
                && children == filled.tree.children[directory := LinksOf(filled.tree.children, directory)]
    {
      if directory !in loadedDirectories {
        for n := 0 to |listing|
          invariant Valid() && loadedDirectories == old(loadedDirectories)
          invariant Progress() == FilledBy(old(Progress()), listing[..n])
        {
          FilledStep(old(Progress()), listing, n);
          var _ := InsertNext(listing[n]);
        }
        assert listing[..|listing|] == listing;
        loadedDirectories := loadedDirectories + {directory};
        var before := children;
        children := children[directory := LinksOf(children, directory)];
        EmptyFolderKeepsShape(entries, before, directory);
      }
    }

    /** The part of `insert` past the count and the empty-path test. */
    method InsertAt(path: string, entry: BrowserEntry) returns (admitted: bool)
      requires Valid() && path == NormalizeArchivePath(entry.path) && path != []
      modifies this`entries, this`children, this`estimatedMetadataBytes
      ensures Valid()
      ensures children == WithLinks(old(children), entry)
      ensures entries == Inserted(old(entries), entry, admitted)
      ensures admitted <==> estimatedMetadataBytes <= MAX_ARCHIVE_INDEX_METADATA_BYTES
      ensures admitted ==> ShowsEntry(entry)
      ensures estimatedMetadataBytes
          == Saturate(old(estimatedMetadataBytes) + Growth(old(entries), old(children), entry))
      ensures admitted && old(Weight() <= estimatedMetadataBytes) ==> Weight() <= estimatedMetadataBytes
    {
      EntryPath(entry);
      NormalizationsAgree(entry.path);
      DtoRepresents(entry);
      ghost var start, linked := entries, children;
      var ancestorGrowth := EnsureAncestors(path, FolderDepth(entry), Segments(entry.path));
      assert entries == WithAncestors(start, entry) && children == WithLinks(linked, entry);
      GrowthAddsUp(start, linked, entry, estimatedMetadataBytes, ancestorGrowth);
      admitted := StoreEntry(path, entry, ancestorGrowth);
      InsertedShape(start, linked, entry);
    }

    /** The end of `insert`: the entry is stored where the grown estimate is still within the limit. */
    method StoreEntry(path: string, entry: BrowserEntry, ancestorGrowth: nat) returns (admitted: bool)
      modifies this`entries, this`estimatedMetadataBytes
      ensures entries == if admitted then old(entries)[path := Dto(entry)] else old(entries)
      ensures admitted <==> estimatedMetadataBytes <= MAX_ARCHIVE_INDEX_METADATA_BYTES
      ensures estimatedMetadataBytes
          == SaturatingAdd(SaturatingAdd(old(estimatedMetadataBytes), EntryGrowth(entry)), ancestorGrowth)
    {
      estimatedMetadataBytes := SaturatingAdd(estimatedMetadataBytes, EntryGrowth(entry));
      estimatedMetadataBytes := SaturatingAdd(estimatedMetadataBytes, ancestorGrowth);
      admitted := estimatedMetadataBytes <= MAX_ARCHIVE_INDEX_METADATA_BYTES;
      if admitted {
        entries := entries[path := Dto(entry)];
      }
    }
  }

  lemma GrowthUnfolds(entries: Entries, children: Children, segments: seq<string>, k: nat, depth: nat)
    requires k < |segments|
    ensures LinkAlong(children, segments, k + 1)
        == AddLink(LinkAlong(children, segments, k), Prefix(segments, k), Prefix(segments, k + 1))
    ensures var grown := FoldersAlong(entries, segments, Min(k, depth));
      FoldersAlong(entries, segments, Min(k + 1, depth))
      == if k < depth then AddFolder(grown, Prefix(segments, k + 1)) else grown
  {
  }

  lemma EmptyFolderKeepsShape(entries: Entries, children: Children, directory: string)
    requires WellLinked(children) && Indexed(entries, children)
    ensures WellLinked(children[directory := LinksOf(children, directory)])
    ensures Indexed(entries, children[directory := LinksOf(children, directory)])
  {
    var after := children[directory := LinksOf(children, directory)];
    forall q | q in entries ensures IndexedAt(entries, after, q) {
      assert IndexedAt(entries, children, q);
    }
  }

  lemma LinkKeepsWellLinked(children: Children, parent: string, child: string)
    requires WellLinked(children) && IsKey(child) && child != [] && Parent(child) == parent
    ensures WellLinked(AddLink(children, parent, child))
  {
  }

  lemma GrowthAddsUp(entries: Entries, children: Children, entry: BrowserEntry, estimate: nat, ancestorGrowth: nat)
    requires IndexWeight(entries, children) <= IndexWeight(WithAncestors(entries, entry), WithLinks(children, entry))
    requires ancestorGrowth
             == Saturate(IndexWeight(WithAncestors(entries, entry), WithLinks(children, entry))
                         - IndexWeight(entries, children))
    ensures SaturatingAdd(SaturatingAdd(estimate, EntryGrowth(entry)), ancestorGrowth)
        == Saturate(estimate + Growth(entries, children, entry))
    ensures IndexWeight(Inserted(entries, entry, true), WithLinks(children, entry))
            <= IndexWeight(entries, children) + Growth(entries, children, entry)
  {
    PutEntryWeight(WithAncestors(entries, entry), Dto(entry).path, Dto(entry));
  }

  lemma EntryPath(entry: BrowserEntry)
    ensures Clean(Segments(entry.path)) && NormalizeArchivePath(entry.path) == Join(Segments(entry.path))
    ensures NormalizeArchivePath(entry.path) != [] ==>
        Segments(entry.path) != [] && FolderDepth(entry) <= |Segments(entry.path)|
  {
    NormalizationsAgree(entry.path);
    SegmentsAreClean(entry.path);
    JoinedIsKey(Segments(entry.path));
  }

  /** After the ancestors are in place the tree is well formed with or without the entry itself. */
  lemma InsertedShape(entries: Entries, children: Children, entry: BrowserEntry)
    requires WellLinked(children) && Indexed(entries, children) && Segments(entry.path) != []
    ensures WellLinked(WithLinks(children, entry))
    ensures Indexed(Inserted(entries, entry, false), WithLinks(children, entry))
    ensures Indexed(Inserted(entries, entry, true), WithLinks(children, entry))
  {
    var segments := Segments(entry.path);
    var n := |segments|;
    SegmentsAreClean(entry.path);
    NormalizationsAgree(entry.path);
    GrowthKeepsShape(entries, children, segments, n, FolderDepth(entry));
    assert segments[..n] == segments;
    PrefixIsKey(segments, n);
    PrefixIsKey(segments, n - 1);
    FoldersAlongContents(entries, segments, FolderDepth(entry), Prefix(segments, n - 1));
    PutKeepsShape(WithAncestors(entries, entry), WithLinks(children, entry), Dto(entry).path, Dto(entry));
  }
}
