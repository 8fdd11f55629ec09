/**
 * Archive path keys and path-set selection (`archive_selection.rs`, and `normalize_archive_path` of the index).
 */
module PathKeys {
  import opened Wrappers

  const SLASHES := {'/', '\\'}

  // ---------------------------------------------------------------------------------------------
  // Splitting, filtering and joining
  // ---------------------------------------------------------------------------------------------

  /** `str::split`: the pieces between separators, at least one. */
  function Split(s: string, separators: set<char>): (pieces: seq<string>)
    ensures pieces != []
  {
    if s == [] then [[]]
    else
      var rest := Split(s[1..], separators);
      if s[0] in separators then [[]] + rest
      else [[s[0]] + rest[0]] + rest[1..]
  }

  predicate IsSegment(piece: string) {
    piece != [] && piece != "."
  }

  function Keep(pieces: seq<string>): seq<string> {
    if pieces == [] then []
    else if IsSegment(pieces[0]) then [pieces[0]] + Keep(pieces[1..])
    else Keep(pieces[1..])
  }

  /** `segments.join("/")`. */
  function Join(segments: seq<string>): string {
    if segments == [] then []
    else if |segments| == 1 then segments[0]
    else segments[0] + "/" + Join(segments[1..])
  }

  function Replace(s: string, from: char, to: char): string {
    if s == [] then [] else [if s[0] == from then to else s[0]] + Replace(s[1..], from, to)
  }

  /** `normalize_archive_path`. */
  function NormalizeArchivePath(path: string): string {
    Join(Keep(Split(Replace(path, '\\', '/'), {'/'})))
  }

  function Segments(path: string): seq<string> {
    Keep(Split(path, SLASHES))
  }

  /** `archive_entry_key`. */
  function ArchiveEntryKey(path: string): string {
    Join(Segments(path))
  }

  lemma {:induction false} SplitAfterReplace(path: string)
    ensures Split(Replace(path, '\\', '/'), {'/'}) == Split(path, SLASHES)
  {
    if path != [] {
      SplitAfterReplace(path[1..]);
    }
  }

  /** The two normalisations of the source are the same function. */
  lemma NormalizationsAgree(path: string)
    ensures NormalizeArchivePath(path) == ArchiveEntryKey(path)
  {
    SplitAfterReplace(path);
  }

  // ---------------------------------------------------------------------------------------------
  // Keys
  // ---------------------------------------------------------------------------------------------

  predicate NoSlash(piece: string) {
    forall i :: 0 <= i < |piece| ==> piece[i] !in SLASHES
  }

  predicate Clean(segments: seq<string>) {
    forall i :: 0 <= i < |segments| ==> IsSegment(segments[i]) && NoSlash(segments[i])
  }

  /** The canonical keys: the fixed points of the normalisation. */
  predicate IsKey(path: string) {
    ArchiveEntryKey(path) == path
  }

  lemma {:induction false} PiecesHaveNoSlash(s: string)
    ensures forall i :: 0 <= i < |Split(s, SLASHES)| ==> NoSlash(Split(s, SLASHES)[i])
  {
    if s != [] {
      PiecesHaveNoSlash(s[1..]);
    }
  }

  lemma {:induction false} KeepIsClean(pieces: seq<string>)
    requires forall i :: 0 <= i < |pieces| ==> NoSlash(pieces[i])
    ensures Clean(Keep(pieces))
  {
    if pieces != [] {
      KeepIsClean(pieces[1..]);
    }
  }

  lemma SegmentsAreClean(path: string)
    ensures Clean(Segments(path))
  {
    PiecesHaveNoSlash(path);
    KeepIsClean(Split(path, SLASHES));
  }

  lemma {:induction false} SplitAtSeparator(s: string, c: char, t: string, separators: set<char>)
    requires c in separators
    ensures Split(s + [c] + t, separators) == Split(s, separators) + Split(t, separators)
  {
    if s == [] {
      assert (s + [c] + t)[1..] == t;
    } else {
      assert (s + [c] + t)[1..] == s[1..] + [c] + t;
      SplitAtSeparator(s[1..], c, t, separators);
    }
  }

  lemma {:induction false} SplitPiece(piece: string, separators: set<char>)
    requires forall i :: 0 <= i < |piece| ==> piece[i] !in separators
    ensures Split(piece, separators) == [piece]
  {
    if piece != [] {
      SplitPiece(piece[1..], separators);
      assert [piece[0]] + piece[1..] == piece;
    }
  }

  lemma {:induction false} KeepOfConcat(s: seq<string>, t: seq<string>)
    ensures Keep(s + t) == Keep(s) + Keep(t)
  {
    if s == [] {
      assert s + t == t;
    } else {
      assert (s + t)[1..] == s[1..] + t;
      KeepOfConcat(s[1..], t);
    }
  }

  /** Segments of two texts joined by a slash are the segments of the one followed by those of the other. */
  lemma SegmentsAtSlash(s: string, t: string)
    ensures Segments(s + "/" + t) == Segments(s) + Segments(t)
  {
    SplitAtSeparator(s, '/', t, SLASHES);
    KeepOfConcat(Split(s, SLASHES), Split(t, SLASHES));
  }

  lemma SegmentsOfSegment(segment: string)
    requires IsSegment(segment) && NoSlash(segment)
    ensures Segments(segment) == [segment]
  {
    SplitPiece(segment, SLASHES);
    assert Keep([segment]) == [segment] + Keep([segment][1..]);
  }

  /**
   * What the segments of a path are: those before and after any slash or backslash, and of a text without either
   * itself, unless it is empty or a single point.
   */
  lemma SegmentLaws(s: string, c: char, t: string)
    requires c == '/' || c == '\\'
    ensures Segments(s + [c] + t) == Segments(s) + Segments(t)
    ensures '/' !in s && '\\' !in s ==> Segments(s) == if s == "" || s == "." then [] else [s]
  {
    SplitAtSeparator(s, c, t, SLASHES);
    KeepOfConcat(Split(s, SLASHES), Split(t, SLASHES));
    if '/' !in s && '\\' !in s {
      SplitPiece(s, SLASHES);
      assert [s][1..] == [] && Keep([]) == [];
    }
  }

  /** Splitting inverts joining on clean segment lists. */
  lemma {:induction false} SegmentsOfJoin(segments: seq<string>)
    requires Clean(segments)
    ensures Segments(Join(segments)) == segments
  {
    if segments == [] {
      assert Split([], SLASHES) == [[]];
      assert Keep(Split([], SLASHES)) == Keep([[]][1..]);
    } else if |segments| == 1 {
      SegmentsOfSegment(segments[0]);
    } else {
      SegmentsOfSegment(segments[0]);
      SegmentsOfJoin(segments[1..]);
      SegmentsAtSlash(segments[0], Join(segments[1..]));
    }
  }

  /** `path.split('/')` yields the segments of a key. */
  lemma {:induction false} SplitOfJoin(segments: seq<string>)
    requires Clean(segments) && segments != []
    ensures Split(Join(segments), {'/'}) == segments
  {
    SplitPiece(segments[0], {'/'});
    if |segments| > 1 {
      SplitOfJoin(segments[1..]);
      SplitAtSeparator(segments[0], '/', Join(segments[1..]), {'/'});
    }
  }

  /** Normalising yields a key, and joining inverts splitting on keys. */
  lemma KeyRoundTrip(path: string)
    ensures IsKey(ArchiveEntryKey(path))
    ensures Segments(ArchiveEntryKey(path)) == Segments(path)
    ensures IsKey(path) ==> Join(Segments(path)) == path
  {
    SegmentsAreClean(path);
    SegmentsOfJoin(Segments(path));
  }

  lemma JoinedIsKey(segments: seq<string>)
    requires Clean(segments)
    ensures IsKey(Join(segments)) && Segments(Join(segments)) == segments
    ensures Join(segments) == [] <==> segments == []
  {
    SegmentsOfJoin(segments);
  }

  lemma {:induction false} JoinOfConcat(s: seq<string>, t: seq<string>)
    requires s != [] && t != []
    ensures Join(s + t) == Join(s) + "/" + Join(t)
  {
    if |s| == 1 {
      assert (s + t)[1..] == t;
    } else {
      assert (s + t)[1..] == s[1..] + t;
      JoinOfConcat(s[1..], t);
      assert s[0] + "/" + (Join(s[1..]) + "/" + Join(t)) == s[0] + "/" + Join(s[1..]) + "/" + Join(t);
    }
  }

  /** `key_is_within`. */
  predicate KeyIsWithin(key: string, root: string) {
    root != [] && root <= key && (|key| == |root| || key[|root|] == '/')
  }

  lemma WithinGivesPrefix(key: string, root: string)
    requires IsKey(key) && IsKey(root) && KeyIsWithin(key, root)
    ensures Segments(root) != [] && Segments(root) <= Segments(key)
  {
    KeyRoundTrip(root);
    if |key| > |root| {
      assert key == root + "/" + key[|root| + 1..];
      SegmentsAtSlash(root, key[|root| + 1..]);
    } else {
      assert key == root;
    }
  }

  lemma PrefixGivesWithin(key: string, root: string)
    requires IsKey(key) && IsKey(root) && Segments(root) != [] && Segments(root) <= Segments(key)
    ensures KeyIsWithin(key, root)
  {
    var r, k := Segments(root), Segments(key);
    SegmentsAreClean(root);
    JoinedIsKey(r);
    assert root == Join(r) && key == Join(k);
    if r != k {
      assert k == r + k[|r|..];
      JoinOfConcat(r, k[|r|..]);
      assert key == root + ("/" + Join(k[|r|..]));
    }
  }

  /** On keys, the textual test says that the root's segments are a non-empty prefix of the key's. */
  lemma WithinIsSegmentPrefix(key: string, root: string)
    requires IsKey(key) && IsKey(root)
    ensures KeyIsWithin(key, root) <==> Segments(root) != [] && Segments(root) <= Segments(key)
  {
    if KeyIsWithin(key, root) {
      WithinGivesPrefix(key, root);
    } else if Segments(root) != [] && Segments(root) <= Segments(key) {
      PrefixGivesWithin(key, root);
    }
  }

  // ---------------------------------------------------------------------------------------------
  // Path sets
  // ---------------------------------------------------------------------------------------------

  /** A set of requested archive paths, each covering itself and every entry beneath it. */
  datatype ArchivePathSet = ArchivePathSet(requested: seq<string>, keys: seq<string>) {
    predicate Contains(path: string) {
      ArchiveEntryKey(path) in keys
    }

    predicate Covers(path: string) {
      exists i :: 0 <= i < |keys| && KeyIsWithin(ArchiveEntryKey(path), keys[i])
    }
  }

  function NewPathSet(paths: seq<string>): (paths': ArchivePathSet)
    ensures |paths'.keys| == |paths'.requested| && paths'.requested == paths
    ensures forall i :: 0 <= i < |paths| ==> paths'.keys[i] == ArchiveEntryKey(paths[i])
  {
    ArchivePathSet(paths, seq(|paths|, i requires 0 <= i < |paths| => ArchiveEntryKey(paths[i])))
  }

  /** The entries of a listing the set covers, in listing order. */
  function CoveredEntries<E>(paths: ArchivePathSet, entries: seq<E>, pathOf: E -> string): seq<E> {
    if entries == [] then []
    else
      var last := entries[|entries| - 1];
      CoveredEntries(paths, entries[..|entries| - 1], pathOf) + (if paths.Covers(pathOf(last)) then [last] else [])
  }

  ghost predicate RequestMatched<E>(root: string, entries: seq<E>, pathOf: E -> string) {
    exists i :: 0 <= i < |entries| && KeyIsWithin(ArchiveEntryKey(pathOf(entries[i])), root)
  }

  lemma {:induction false} CoveredContents<E>(paths: ArchivePathSet, entries: seq<E>, pathOf: E -> string, e: E)
    ensures e in CoveredEntries(paths, entries, pathOf) <==> e in entries && paths.Covers(pathOf(e))
  {
    if entries != [] {
      CoveredContents(paths, entries[..|entries| - 1], pathOf, e);
      assert entries == entries[..|entries| - 1] + [entries[|entries| - 1]];
    }
  }

  /**
   * `ArchivePathSet::select`: the covered entries in listing order, each occurrence once, or the first request
   * that covers nothing.
   */
  method Select<E>(paths: ArchivePathSet, entries: seq<E>, pathOf: E -> string)
    returns (selection: Result<seq<E>, string>)
    requires |paths.requested| == |paths.keys|
    ensures match selection
            case Ok(selected) =>
              && selected == CoveredEntries(paths, entries, pathOf)
              && forall k :: 0 <= k < |paths.keys| ==> RequestMatched(paths.keys[k], entries, pathOf)
            case Err(missing) =>
              exists k :: 0 <= k < |paths.keys| && missing == paths.requested[k]
                  && !RequestMatched(paths.keys[k], entries, pathOf)
                && forall j :: 0 <= j < k ==> RequestMatched(paths.keys[j], entries, pathOf)
  {
    var matched := new bool[|paths.keys|](_ => false);
    var selected: seq<E> := [];
    assert entries[..0] == [];
    for n := 0 to |entries|
      invariant selected == CoveredEntries(paths, entries[..n], pathOf)
      invariant forall k :: 0 <= k < |paths.keys| ==>
          (matched[k] <==> RequestMatched(paths.keys[k], entries[..n], pathOf))
    {
      var key := ArchiveEntryKey(pathOf(entries[n]));
      var covered := MarkRoots(paths.keys, key, matched);
      if covered {
        selected := selected + [entries[n]];
      }
      assert entries[..n + 1][..n] == entries[..n];
      forall k | 0 <= k < |paths.keys|
        ensures RequestMatched(paths.keys[k], entries[..n + 1], pathOf)
                <==> RequestMatched(paths.keys[k], entries[..n], pathOf) || KeyIsWithin(key, paths.keys[k])
      {
        MatchedStep(paths.keys[k], entries, n, pathOf);
      }
    }
    assert entries[..|entries|] == entries;
    for k := 0 to |paths.keys|
      invariant forall j :: 0 <= j < k ==> RequestMatched(paths.keys[j], entries, pathOf)
    {
      if !matched[k] {
        return Err(paths.requested[k]);
      }
    }
    return Ok(selected);
  }

  /** The inner loop of `select`: mark every root that covers the key, and say whether there is one. */
  method MarkRoots(keys: seq<string>, key: string, matched: array<bool>) returns (covered: bool)
    requires matched.Length == |keys|
    modifies matched
    ensures covered <==> exists k :: 0 <= k < |keys| && KeyIsWithin(key, keys[k])
    ensures forall k :: 0 <= k < |keys| ==> matched[k] == (old(matched[k]) || KeyIsWithin(key, keys[k]))
  {
    covered := false;
    for k := 0 to |keys|
      invariant covered <==> exists j :: 0 <= j < k && KeyIsWithin(key, keys[j])
      invariant forall j :: 0 <= j < k ==> matched[j] == (old(matched[j]) || KeyIsWithin(key, keys[j]))
      invariant forall j :: k <= j < |keys| ==> matched[j] == old(matched[j])
    {
      if KeyIsWithin(key, keys[k]) {
        matched[k] := true;
        covered := true;
      }
    }
  }

  lemma MatchedStep<E>(root: string, entries: seq<E>, n: nat, pathOf: E -> string)
    requires n < |entries|
    ensures RequestMatched(root, entries[..n + 1], pathOf)
            <==> RequestMatched(root, entries[..n], pathOf) || KeyIsWithin(ArchiveEntryKey(pathOf(entries[n])), root)
  {
    if RequestMatched(root, entries[..n], pathOf) {
      var i :| 0 <= i < n && KeyIsWithin(ArchiveEntryKey(pathOf(entries[..n][i])), root);
      assert entries[..n + 1][i] == entries[..n][i];
    }
    if KeyIsWithin(ArchiveEntryKey(pathOf(entries[n])), root) {
      assert entries[..n + 1][n] == entries[n];
    }
    if RequestMatched(root, entries[..n + 1], pathOf) {
      var i :| 0 <= i < n + 1 && KeyIsWithin(ArchiveEntryKey(pathOf(entries[..n + 1][i])), root);
      if i < n {
        assert entries[..n + 1][i] == entries[..n][i];
      }
    }
  }
}
