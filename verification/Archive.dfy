/** Extracting an archive below a destination directory. `root` is the destination's cleaned text
    path, which the checks on names work with, and `base` the directory it physically is. */
module Archive {
  import opened Common
  import opened Text
  import opened FileTree

  // ----- Checks on names -----

  /** filepath.Clean of an absolute path whose first components, `stack`, are already clean. */
  function Clean(stack: Path, parts: seq<string>): Path
    decreases |parts|
  {
    if parts == [] then stack
    else if parts[0] == "" || parts[0] == "." then Clean(stack, parts[1..])
    else if parts[0] == ".." then Clean(Parent(stack), parts[1..])
    else Clean(stack + [parts[0]], parts[1..])
  }

  function Slashes(name: string): string {
    seq(|name|, i requires 0 <= i < |name| => if name[i] == '\\' then '/' else name[i])
  }

  predicate IsLetter(c: char) { 'a' <= c <= 'z' || 'A' <= c <= 'Z' }

  /** archivePathIsAbsolute, drive letters included. */
  predicate AbsoluteName(name: string) {
    var n := Slashes(name);
    "/" <= name || "/" <= n || (|n| >= 2 && IsLetter(n[0]) && n[1] == ':')
  }

  /** filepath.Rel, when it does not climb out of `root`. */
  function Below(root: Path, target: Path): Option<seq<string>> {
    if root <= target then Some(target[|root|..]) else None
  }

  /** The entry's place below the destination, unless its name is absolute or climbs out. */
  function SafeArchivePath(root: Path, name: string): Option<seq<string>> {
    if AbsoluteName(name) then None else Below(root, Clean(root, Split(Slashes(name), '/')))
  }

  predicate SymlinkAllowed(root: Path, rel: seq<string>, linkname: string) {
    !AbsoluteName(linkname) && Below(root, Clean(Parent(root + rel), Split(Slashes(linkname), '/'))).Some?
  }

  lemma {:induction false} CleanIsProper(stack: Path, parts: seq<string>)
    requires Proper(stack)
    ensures Proper(Clean(stack, parts))
    decreases |parts|
  {
    if parts != [] {
      CleanIsProper(stack, parts[1..]);
      CleanIsProper(Parent(stack), parts[1..]);
      if parts[0] != "" && parts[0] != "." && parts[0] != ".." { CleanIsProper(stack + [parts[0]], parts[1..]); }
    }
  }

  /** Whatever name an entry carries, the place it gets names only things below the destination. */
  lemma SafePathsAreProper(root: Path, name: string)
    requires Proper(root) && SafeArchivePath(root, name).Some?
    ensures Proper(SafeArchivePath(root, name).value)
  {
    var target := Clean(root, Split(Slashes(name), '/'));
    CleanIsProper(root, Split(Slashes(name), '/'));
    var rel := target[|root|..];
    forall i | 0 <= i < |rel| ensures rel[i] == target[|root| + i] {}
  }

  predicate NoDotDot(parts: seq<string>) { forall i :: 0 <= i < |parts| ==> parts[i] != ".." }

  lemma {:induction false} CleanOfPlain(stack: Path, parts: seq<string>)
    requires NoDotDot(parts)
    ensures stack <= Clean(stack, parts)
    decreases |parts|
  {
    if parts != [] {
      assert NoDotDot(parts[1..]);
      CleanOfPlain(stack, parts[1..]);
      CleanOfPlain(stack + [parts[0]], parts[1..]);
    }
  }

  /** No ordinary name is refused: a relative name without ".." always gets a place. */
  lemma OrdinaryNamesAreAccepted(root: Path, name: string)
    requires !AbsoluteName(name)
    requires NoDotDot(Split(Slashes(name), '/'))
    ensures SafeArchivePath(root, name).Some?
  {
    CleanOfPlain(root, Split(Slashes(name), '/'));
  }

  // ----- Extraction -----

  datatype ExtractError =
    | UnsafePath | ThroughSymlink | AlreadyExists | UnsafeSymlink | SystemError | TooMuch | CorruptArchive

  /** rejectArchiveSymlinkComponents, from component `i` on. */
  function RejectFrom(fs: FS, base: Path, rel: seq<string>, i: nat): Option<ExtractError>
    requires i <= |rel|
    decreases |rel| - i
  {
    if i == |rel| then None
    else
      match Lstat(fs, base, rel[..i + 1])
      case NotExist => RejectFrom(fs, base, rel, i + 1)
      case StatError => Some(SystemError)
      case Found(node) => if node.Symlink? then Some(ThroughSymlink) else RejectFrom(fs, base, rel, i + 1)
  }

  datatype Kind = Directory | Regular | SymbolicLink | HardLink | Other | Corrupt

  /** How the system calls for one entry turn out. */
  datatype Fate = Fate(mkdir: seq<string> -> bool, readable: bool, opens: bool, copied: nat, closes: bool, links: bool)

  datatype Entry = Entry(kind: Kind, name: string, linkname: string, data: Bytes, fate: Fate)

  const MAX_ENTRIES := 100000
  const MAX_BYTES := 100 * 1024 * 1024 * 1024

  datatype Written = Written(fs: FS, bytes: nat, error: Option<ExtractError>)

  /** The regular-file branch: existing targets are refused unless overwriting. */
  function ExtractFile(fs: FS, base: Path, rel: seq<string>, data: Bytes, overwrite: bool, fate: Fate): Written {
    if !overwrite && Lstat(fs, base, rel).Found? then Written(fs, 0, Some(AlreadyExists))
    else
      // The parent of the destination itself is a directory that exists.
      var (fs1, ok) := if rel == [] then (fs, true) else MkdirAll(fs, base, Parent(rel), fate.mkdir);
      if !ok || !fate.readable || !fate.opens then Written(fs1, 0, Some(SystemError))
      else
        var (fs2, inode) := OpenTrunc(fs1, base, rel);
        if inode.None? then Written(fs2, 0, Some(SystemError))
        else
          var n := if fate.copied < |data| then fate.copied else |data|;
          Written(WriteInode(fs2, inode.value, data[..n]), n,
                  if fate.copied < |data| || !fate.closes then Some(SystemError) else None)
  }

  /** One entry of a tar archive, after its name was checked. */
  function ExtractTarEntry(fs: FS, base: Path, root: Path, rel: seq<string>, e: Entry, overwrite: bool): Written {
    match e.kind
    case Directory =>
      var (fs1, ok) := MkdirAll(fs, base, rel, e.fate.mkdir);
      Written(fs1, 0, if ok then None else Some(SystemError))
    case Regular => ExtractFile(fs, base, rel, e.data, overwrite, e.fate)
    case SymbolicLink =>
      if !SymlinkAllowed(root, rel, e.linkname) then Written(fs, 0, Some(UnsafeSymlink))
      else if !e.fate.links then Written(fs, 0, Some(SystemError))
      else
        var (fs1, ok) := MakeSymlink(fs, base, rel, e.linkname);
        Written(fs1, 0, if ok then None else Some(SystemError))
    case HardLink =>
      var from := SafeArchivePath(root, e.linkname);
      if from.None? then Written(fs, 0, Some(UnsafePath))
      else if RejectFrom(fs, base, from.value, 0).Some? then Written(fs, 0, RejectFrom(fs, base, from.value, 0))
      else if !e.fate.links then Written(fs, 0, Some(SystemError))
      else
        var (fs1, ok) := MakeLink(fs, base, from.value, rel);
        Written(fs1, 0, if ok then None else Some(SystemError))
    case Other => Written(fs, 0, None)
    case Corrupt => Written(fs, 0, Some(CorruptArchive))
  }

  datatype Extraction = Extraction(fs: FS, count: nat, total: nat, error: Option<ExtractError>)

  /** extractTAR, continuing with what was counted so far. */
  function ExtractTar(fs: FS, base: Path, root: Path, entries: seq<Entry>, overwrite: bool, count: nat, total: nat)
    : Extraction
    decreases |entries|
  {
    if entries == [] then Extraction(fs, count, total, None)
    else
      var e := entries[0];
      if e.kind.Corrupt? then Extraction(fs, count, total, Some(CorruptArchive))
      else
        var rel := SafeArchivePath(root, e.name);
        if rel.None? then Extraction(fs, count, total, Some(UnsafePath))
        else if RejectFrom(fs, base, rel.value, 0).Some? then
          Extraction(fs, count, total, RejectFrom(fs, base, rel.value, 0))
        else if e.kind.Other? then ExtractTar(fs, base, root, entries[1..], overwrite, count, total)
        else
          var w := ExtractTarEntry(fs, base, root, rel.value, e, overwrite);
          if w.error.Some? then Extraction(w.fs, count, total + w.bytes, w.error)
          else if count + 1 > MAX_ENTRIES || total + w.bytes > MAX_BYTES then
            Extraction(w.fs, count + 1, total + w.bytes, Some(TooMuch))
          else ExtractTar(w.fs, base, root, entries[1..], overwrite, count + 1, total + w.bytes)
  }

  /** extractZIP: every entry is a directory or is written as a regular file. */
  function ExtractZip(fs: FS, base: Path, root: Path, entries: seq<Entry>, overwrite: bool, count: nat, total: nat)
    : Extraction
    decreases |entries|
  {
    if entries == [] then Extraction(fs, count, total, None)
    else
      var e := entries[0];
      var rel := SafeArchivePath(root, e.name);
      if rel.None? then Extraction(fs, count, total, Some(UnsafePath))
      else if RejectFrom(fs, base, rel.value, 0).Some? then
        Extraction(fs, count, total, RejectFrom(fs, base, rel.value, 0))
      else if e.kind.Directory? then
        var (fs1, ok) := MkdirAll(fs, base, rel.value, e.fate.mkdir);
        if ok then ExtractZip(fs1, base, root, entries[1..], overwrite, count, total)
        else Extraction(fs1, count, total, Some(SystemError))
      else
        var w := ExtractFile(fs, base, rel.value, e.data, overwrite, e.fate);
        if w.error.Some? then Extraction(w.fs, count, total, w.error)
        else if count + 1 > MAX_ENTRIES || total + w.bytes > MAX_BYTES then
          Extraction(w.fs, count + 1, total + w.bytes, Some(TooMuch))
        else ExtractZip(w.fs, base, root, entries[1..], overwrite, count + 1, total + w.bytes)
  }
}
