/** The archive entries a listing yields and the ones the index keeps. */
module ArchiveTypes {
  import opened Wrappers

  type u32 = n: nat | n < 0x1_0000_0000
  type u64 = n: nat | n <= U64_MAX

  datatype EntryKind = File | Directory | Symlink | Hardlink | Special

  /** What `ArchiveEntryDto` says about an entry besides its path and kind. */
  datatype Metadata = Metadata(
    size: Option<u64>, compressedSize: Option<u64>, modified: Option<string>, mode: Option<u64>,
    diagnostics: seq<string>, encrypted: Option<bool>, compression: Option<string>, crc: Option<string>,
    comment: Option<string>, created: Option<string>, accessed: Option<string>, solid: Option<bool>,
    linkTarget: Option<string>, attributes: Option<string>, uid: Option<u64>, gid: Option<u64>,
    owner: Option<string>, group: Option<string>)

  datatype ArchiveEntry = ArchiveEntry(path: string, kind: EntryKind, metadata: Metadata)

  /** The kinds a listing reports; `FileCopy` is stored as a file. */
  datatype BrowserKind = PlainFile | FileCopy | Folder | SymbolicLink | HardLink | SpecialFile

  /** An entry as a listing reports it; the checksum is a number here, and a text in the index. */
  datatype BrowserEntry = BrowserEntry(
    path: string, kind: BrowserKind, size: Option<u64>, compressedSize: Option<u64>, modified: Option<string>,
    mode: Option<u64>, diagnostics: seq<string>, encrypted: Option<bool>, compression: Option<string>,
    crc: Option<u32>, comment: Option<string>, created: Option<string>, accessed: Option<string>, solid: Option<bool>,
    linkTarget: Option<string>, attributes: Option<string>, uid: Option<u64>, gid: Option<u64>,
    owner: Option<string>, group: Option<string>)

  /** `map_browser_entry_kind`. */
  function MapKind(kind: BrowserKind): EntryKind {
    match kind
    case PlainFile | FileCopy => File
    case Folder => Directory
    case SymbolicLink => Symlink
    case HardLink => Hardlink
    case SpecialFile => Special
  }

  const NO_METADATA := Metadata(None, None, None, None, [], None, None, None, None, None, None, None, None, None, None,
      None, None, None)
}
