/**
 * The tree an archive index grows while paths are inserted: child links, synthesised folders and their
 * metadata weight, as functions of the maps the index keeps.
 */
module TreeIndex {
  import opened ArchiveTypes
  import opened PathKeys

  type Entries = map<string, ArchiveEntry>
  type Children = map<string, set<string>>

  function LinksOf(children: Children, parent: string): set<string> {
    if parent in children then children[parent] else {}
  }

  function FolderEntry(path: string): ArchiveEntry {
    ArchiveEntry(path, Directory, NO_METADATA)
  }

  /** The path of the first `k` segments; the root for none. */
  function Prefix(segments: seq<string>, k: nat): string
    requires k <= |segments|
  {
    Join(segments[..k])
  }

  function Parent(path: string): string {
    var segments := Segments(path);
    if segments == [] then [] else Join(segments[..|segments| - 1])
  }

  lemma PrefixIsKey(segments: seq<string>, k: nat)
    requires Clean(segments) && k <= |segments|
    ensures IsKey(Prefix(segments, k)) && Segments(Prefix(segments, k)) == segments[..k]
    ensures Prefix(segments, k) == [] <==> k == 0
    ensures k > 0 ==> Parent(Prefix(segments, k)) == Prefix(segments, k - 1)
  {
    JoinedIsKey(segments[..k]);
    if k > 0 {
      assert segments[..k][..k - 1] == segments[..k - 1];
    }
  }

  /** How the loop of `ensure_ancestors` extends the parent path by one segment. */
  lemma PrefixStep(segments: seq<string>, k: nat)
    requires Clean(segments) && k < |segments|
    ensures Prefix(segments, k + 1)
            == if Prefix(segments, k) == [] then segments[k] else Prefix(segments, k) + "/" + segments[k]
  {
    PrefixIsKey(segments, k);
    assert segments[..k + 1] == segments[..k] + [segments[k]];
    if k > 0 {
      JoinOfConcat(segments[..k], [segments[k]]);
    }
  }

  // ---------------------------------------------------------------------------------------------
  // Growing the tree along a path
  // ---------------------------------------------------------------------------------------------

  function AddLink(children: Children, parent: string, child: string): Children {
    children[parent := LinksOf(children, parent) + {child}]
  }

  /** The links from the root along the first `k` segments, added. */
  function LinkAlong(children: Children, segments: seq<string>, k: nat): Children
    requires k <= |segments|
  {
    if k == 0 then children
    else AddLink(LinkAlong(children, segments, k - 1), Prefix(segments, k - 1), Prefix(segments, k))
  }

  function AddFolder(entries: Entries, path: string): Entries {
    if path in entries then entries else entries[path := FolderEntry(path)]
  }

  /** The missing folders among the first `k` prefixes, added. */
  function FoldersAlong(entries: Entries, segments: seq<string>, k: nat): Entries
    requires k <= |segments|
  {
    if k == 0 then entries else AddFolder(FoldersAlong(entries, segments, k - 1), Prefix(segments, k))
  }

  function Min(x: nat, y: nat): nat {
    if x < y then x else y
  }

  // ---------------------------------------------------------------------------------------------
  // The shape of the tree
  // ---------------------------------------------------------------------------------------------

  /** Every child link goes from the parent of a key to that key. */
  ghost predicate WellLinked(children: Children) {
    forall p, q :: p in children && q in children[p] ==> IsKey(q) && q != [] && Parent(q) == p
  }

  ghost predicate IndexedAt(entries: Entries, children: Children, q: string)
    requires q in entries
  {
    && IsKey(q) && q != [] && entries[q].path == q
    && q in LinksOf(children, Parent(q))
    && (Parent(q) == [] || Parent(q) in entries)
  }

  /** Every indexed path is a key linked from its parent, and its parent is indexed or the root. */
  ghost predicate Indexed(entries: Entries, children: Children) {
    forall q {:trigger IndexedAt(entries, children, q)} :: q in entries ==> IndexedAt(entries, children, q)
  }

  lemma AddLinkKeepsShape(entries: Entries, children: Children, parent: string, child: string)
    requires WellLinked(children) && Indexed(entries, children)
    requires IsKey(child) && child != [] && Parent(child) == parent
    ensures WellLinked(AddLink(children, parent, child)) && Indexed(entries, AddLink(children, parent, child))
    ensures child in LinksOf(AddLink(children, parent, child), parent)
  {
    forall q | q in entries ensures IndexedAt(entries, AddLink(children, parent, child), q) {
      assert IndexedAt(entries, children, q);
    }
  }

  lemma PutKeepsShape(entries: Entries, children: Children, path: string, entry: ArchiveEntry)
    requires Indexed(entries, children) && IsKey(path) && path != [] && entry.path == path
    requires path in LinksOf(children, Parent(path)) && (Parent(path) == [] || Parent(path) in entries)
    ensures Indexed(entries[path := entry], children)
  {
    var after := entries[path := entry];
    forall q | q in after ensures IndexedAt(after, children, q) {
      if q != path {
        assert IndexedAt(entries, children, q);
      }
    }
  }

  /** What growing along a path leaves in the entries: the old ones untouched, and a folder at every new prefix. */
  lemma {:induction false} FoldersAlongContents(entries: Entries, segments: seq<string>, k: nat, q: string)
    requires k <= |segments|
    ensures var grown := FoldersAlong(entries, segments, k);
      && (q in grown <==> q in entries || exists i :: 1 <= i <= k && q == Prefix(segments, i))
      && (q in grown ==> grown[q] == if q in entries then entries[q] else FolderEntry(q))
  {
    if k > 0 {
      FoldersAlongContents(entries, segments, k - 1, q);
    }
  }

  lemma {:induction false} LinkAlongContents(children: Children, segments: seq<string>, k: nat, p: string, q: string)
    requires k <= |segments|
    ensures q in LinksOf(LinkAlong(children, segments, k), p)
            <==> || q in LinksOf(children, p)
                 || exists i :: 0 <= i < k && p == Prefix(segments, i) && q == Prefix(segments, i + 1)
  {
    if k > 0 {
      LinkAlongContents(children, segments, k - 1, p, q);
    }
  }

  /** One step of the growth: the link, and the folder unless the path ends here. */
  lemma GrowStep(entries: Entries, children: Children, parent: string, child: string, addFolder: bool)
    requires WellLinked(children) && Indexed(entries, children)
    requires IsKey(child) && child != [] && Parent(child) == parent
    requires addFolder ==> parent == [] || parent in entries
    ensures WellLinked(AddLink(children, parent, child))
    ensures Indexed(if addFolder then AddFolder(entries, child) else entries, AddLink(children, parent, child))
  {
    AddLinkKeepsShape(entries, children, parent, child);
    if addFolder && child !in entries {
      PutKeepsShape(entries, AddLink(children, parent, child), child, FolderEntry(child));
    }
  }

  lemma {:induction false} GrowthKeepsShape(
      entries: Entries, children: Children, segments: seq<string>, k: nat, depth: nat)
    requires WellLinked(children) && Indexed(entries, children) && Clean(segments) && k <= |segments|
    ensures WellLinked(LinkAlong(children, segments, k))
    ensures Indexed(FoldersAlong(entries, segments, Min(k, depth)), LinkAlong(children, segments, k))
  {
    if k > 0 {
      GrowthKeepsShape(entries, children, segments, k - 1, depth);
      PrefixIsKey(segments, k);
      PrefixIsKey(segments, k - 1);
      FoldersAlongContents(entries, segments, Min(k - 1, depth), Prefix(segments, k - 1));
      GrowStep(FoldersAlong(entries, segments, Min(k - 1, depth)), LinkAlong(children, segments, k - 1),
               Prefix(segments, k - 1), Prefix(segments, k), k <= depth);
    }
  }

  /** The child listing of a folder: its links, less those whose path is not indexed. */
  function Listing(entries: Entries, children: Children, folder: string): set<string> {
    set q | q in LinksOf(children, folder) && q in entries
  }

  /** The listing of every folder is exactly the set of indexed paths whose parent it is. */
  lemma ListingIsExact(entries: Entries, children: Children, folder: string)
    requires WellLinked(children) && Indexed(entries, children)
    ensures Listing(entries, children, folder) == set q | q in entries && Parent(q) == folder
  {
    forall q | q in entries && Parent(q) == folder ensures q in LinksOf(children, folder) {
      assert IndexedAt(entries, children, q);
    }
  }

  lemma {:induction false} PrefixesAreIndexed(
      entries: Entries, children: Children, segments: seq<string>, n: nat, k: nat)
    requires Indexed(entries, children) && Clean(segments) && 1 <= k <= n <= |segments|
    requires Prefix(segments, n) in entries
    ensures Prefix(segments, k) in entries
  {
    if k < n {
      PrefixIsKey(segments, n);
      PrefixIsKey(segments, n - 1);
      assert IndexedAt(entries, children, Prefix(segments, n));
      PrefixesAreIndexed(entries, children, segments, n - 1, k);
    }
  }

  /** Every proper ancestor of an indexed path is indexed. */
  lemma AncestorsAreIndexed(entries: Entries, children: Children, path: string, k: nat)
    requires Indexed(entries, children) && path in entries && 1 <= k <= |Segments(path)|
    ensures Prefix(Segments(path), k) in entries
  {
    var segments := Segments(path);
    SegmentsAreClean(path);
    assert IndexedAt(entries, children, path);
    assert segments[..|segments|] == segments;
    PrefixesAreIndexed(entries, children, segments, |segments|, k);
  }

  ghost predicate IsChain(children: Children, chain: seq<string>) {
    forall i :: 0 <= i < |chain| - 1 ==> chain[i + 1] in LinksOf(children, chain[i])
  }

  /** Every indexed path is reached from the root by child links, through indexed paths only. */
  lemma ReachableFromRoot(entries: Entries, children: Children, path: string) returns (chain: seq<string>)
    requires Indexed(entries, children) && path in entries
    ensures |chain| >= 2 && chain[0] == [] && chain[|chain| - 1] == path && IsChain(children, chain)
    ensures forall i :: 1 <= i < |chain| ==> chain[i] in entries
  {
    var segments := Segments(path);
    SegmentsAreClean(path);
    assert IndexedAt(entries, children, path);
    KeyRoundTrip(path);
    chain := seq(|segments| + 1, i requires 0 <= i <= |segments| => Prefix(segments, i));
    assert segments[..|segments|] == segments;
    forall i | 1 <= i < |chain|
      ensures chain[i] in entries && chain[i] in LinksOf(children, chain[i - 1])
    {
      AncestorsAreIndexed(entries, children, path, i);
      PrefixIsKey(segments, i);
      assert IndexedAt(entries, children, chain[i]);
    }
  }

  // ---------------------------------------------------------------------------------------------
  // Weights
  // ---------------------------------------------------------------------------------------------

  /** `str::len`: the length of the UTF-8 encoding. */
  function ByteLength(s: string): nat {
    if s == [] then 0
    else
      var c := s[0] as int;
      ByteLength(s[1..]) + (if c < 0x80 then 1 else if c < 0x800 then 2 else if c < 0x10000 then 3 else 4)
  }

  function DiagnosticBytes(diagnostics: seq<string>): nat {
    if diagnostics == [] then 0 else ByteLength(diagnostics[0]) + DiagnosticBytes(diagnostics[1..])
  }

  function EntryWeight(entry: ArchiveEntry): nat {
    ByteLength(entry.path) + 128 + DiagnosticBytes(entry.metadata.diagnostics)
  }

  function LinkWeight(child: string): nat {
    ByteLength(child) + 32
  }

  /** The sum of a finite table of weights. */
  ghost function Total(weights: map<string, nat>): nat
    decreases |weights|
  {
    if weights == map[] then 0
    else
      var k :| k in weights;
      weights[k] + Total(weights - {k})
  }

  lemma {:induction false} TotalAdd(weights: map<string, nat>, k: string, w: nat)
    requires k !in weights
    ensures Total(weights[k := w]) == Total(weights) + w
    decreases |weights|
  {
    var more := weights[k := w];
    var pick :| pick in more && Total(more) == more[pick] + Total(more - {pick});
    if pick == k {
      assert more - {k} == weights;
    } else {
      var rest := weights - {pick};
      assert more - {pick} == rest[k := w];
      TotalAdd(rest, k, w);
      TotalAdd(rest, pick, weights[pick]);
      assert rest[pick := weights[pick]] == weights;
    }
  }

  lemma TotalUpdate(weights: map<string, nat>, k: string, w: nat)
    ensures Total(weights[k := w]) == Total(weights) + w - (if k in weights then weights[k] else 0)
  {
    if k in weights {
      var rest := weights - {k};
      TotalAdd(rest, k, weights[k]);
      TotalAdd(rest, k, w);
      assert rest[k := weights[k]] == weights;
      assert rest[k := w] == weights[k := w];
    } else {
      TotalAdd(weights, k, w);
    }
  }

  ghost function EntryWeights(entries: Entries): map<string, nat> {
    map q | q in entries :: EntryWeight(entries[q])
  }

  ghost function Linked(children: Children): set<string> {
    set p, q | p in children && q in children[p] :: q
  }

  ghost function LinkWeights(children: Children): map<string, nat> {
    map q | q in Linked(children) :: LinkWeight(q)
  }

  /** What the index holds: every indexed path with its diagnostics, and every child link. */
  ghost function IndexWeight(entries: Entries, children: Children): nat {
    Total(EntryWeights(entries)) + Total(LinkWeights(children))
  }

  lemma AddLinkWeight(children: Children, parent: string, child: string)
    requires WellLinked(children) && Parent(child) == parent
    ensures Total(LinkWeights(AddLink(children, parent, child)))
            == Total(LinkWeights(children)) + (if child in LinksOf(children, parent) then 0 else LinkWeight(child))
  {
    var after := AddLink(children, parent, child);
    assert Linked(after) == Linked(children) + {child} by {
      assert child in after[parent];
      forall q | q in Linked(children) ensures q in Linked(after) {
        var p :| p in children && q in children[p];
        assert q in after[p];
      }
    }
    if child in LinksOf(children, parent) {
      assert LinkWeights(after) == LinkWeights(children);
    } else {
      assert child !in Linked(children);
      TotalAdd(LinkWeights(children), child, LinkWeight(child));
      assert LinkWeights(after) == LinkWeights(children)[child := LinkWeight(child)];
    }
  }

  lemma PutEntryWeight(entries: Entries, path: string, entry: ArchiveEntry)
    ensures Total(EntryWeights(entries[path := entry]))
            == Total(EntryWeights(entries))
                + EntryWeight(entry) - (if path in entries then EntryWeight(entries[path]) else 0)
  {
    TotalUpdate(EntryWeights(entries), path, EntryWeight(entry));
    assert EntryWeights(entries[path := entry]) == EntryWeights(entries)[path := EntryWeight(entry)];
  }
}
