/** What a successful extraction leaves behind: every entry, in its place, with its contents. */
module ArchiveComplete {
  import opened Common
  import opened Text
  import opened FileTree
  import opened Archive
  import opened ArchiveSafety

  /** A file at a place, with these contents. */
  ghost predicate Holds(fs: FS, p: Path, data: Bytes) {
    IsFile(fs, p) && fs.nodes[p].inode in fs.contents && fs.contents[fs.nodes[p].inode] == data
  }

  /** The entry is there: a directory, a file with exactly its data, a symbolic link whose text was
      allowed, or another name of the file it links to. */
  ghost predicate InPlace(fs: FS, base: Path, root: Path, e: Entry) {
    var rel := SafeArchivePath(root, e.name);
    rel.Some? &&
    match e.kind
    case Directory => IsDir(fs, base + rel.value)
    case Regular => Holds(fs, base + rel.value, e.data)
    case SymbolicLink =>
      && base + rel.value in fs.nodes && fs.nodes[base + rel.value] == Symlink(e.linkname)
      && SymlinkAllowed(root, rel.value, e.linkname)
    case HardLink =>
      var from := SafeArchivePath(root, e.linkname);
      && from.Some? && base + from.value in fs.nodes && base + rel.value in fs.nodes
      && fs.nodes[base + rel.value] == fs.nodes[base + from.value]
    case Other => true
    case Corrupt => false
  }

  /** The same for a ZIP entry, which is a directory or is written as a file. */
  ghost predicate InZipPlace(fs: FS, base: Path, root: Path, e: Entry) {
    var rel := SafeArchivePath(root, e.name);
    rel.Some? && if e.kind.Directory? then IsDir(fs, base + rel.value) else Holds(fs, base + rel.value, e.data)
  }

  // ----- Single calls -----

  lemma MkdirAllMakes(fs: FS, base: Path, rel: seq<string>, works: seq<string> -> bool)
    requires Good(fs, base) && Proper(rel) && NoSymlinkOnTheWay(fs, base, rel)
    requires MkdirAll(fs, base, rel, works).1
    ensures IsDir(MkdirAll(fs, base, rel, works).0, base + rel)
  {
    hide Good, Confined, Resolve, NoSymlinkOnTheWay, Proper, OnlyDirsAdded;
    if StatFollow(fs, base, rel).Found? {
      PlainTarget(fs, base, rel, true);
    } else {
      PrefixPlain(fs, base, rel);
      MkdirAllConfined(fs, base, Parent(rel), works, false);
      var fs1 := MkdirAll(fs, base, Parent(rel), works).0;
      ConfinedGood(fs, fs1, base, false);
      OnlyDirsPlain(fs, fs1, base, Parent(rel), rel);
      MadeIsThere(fs1, base, rel, works(rel));
    }
  }

  lemma MadeIsThere(fs: FS, base: Path, rel: seq<string>, works: bool)
    requires Good(fs, base) && Proper(rel) && NoSymlinkOnTheWay(fs, base, rel)
    ensures var (b, made) := Mkdir(fs, base, rel, works);
            made || Lstat(b, base, rel) == Found(Dir) ==> IsDir(b, base + rel)
  {
    hide Good, Confined, Resolve, NoSymlinkOnTheWay, Proper;
    var (b, made) := Mkdir(fs, base, rel, works);
    if made {
      PlainTarget(fs, base, rel, false);
    } else if Lstat(b, base, rel) == Found(Dir) {
      PlainTarget(fs, base, rel, false);
    }
  }

  lemma FileIsWritten(fs: FS, base: Path, rel: seq<string>, data: Bytes, overwrite: bool, fate: Fate)
    requires Good(fs, base) && Proper(rel) && NoSymlinkOnTheWay(fs, base, rel)
    requires ExtractFile(fs, base, rel, data, overwrite, fate).error.None?
    ensures Holds(ExtractFile(fs, base, rel, data, overwrite, fate).fs, base + rel, data)
  {
    hide Good, Confined, Resolve, NoSymlinkOnTheWay, Proper, MkdirAll, OpenTrunc;
    PrefixPlain(fs, base, rel);
    MkdirAllConfined(fs, base, Parent(rel), fate.mkdir, overwrite);
    var fs1 := if rel == [] then fs else MkdirAll(fs, base, Parent(rel), fate.mkdir).0;
    ConfinedRefl(fs, base, overwrite);
    ConfinedGood(fs, fs1, base, overwrite);
    if rel != [] { OnlyDirsPlain(fs, fs1, base, Parent(rel), rel); }
    if !overwrite { AbsentTarget(fs, fs1, base, rel); }
    OpenConfined(fs1, base, rel, overwrite);
    var (fs2, inode) := OpenTrunc(fs1, base, rel);
    assert inode.Some? && data[..|data|] == data;
    assert ExtractFile(fs, base, rel, data, overwrite, fate).fs == WriteInode(fs2, inode.value, data);
  }

  lemma LinksAreMade(fs: FS, base: Path, rel: seq<string>, from: seq<string>, text: string)
    requires Good(fs, base) && Proper(rel) && NoSymlinkOnTheWay(fs, base, rel)
    requires Proper(from) && NoSymlinkOnTheWay(fs, base, from)
    ensures MakeSymlink(fs, base, rel, text).1 ==>
              var b := MakeSymlink(fs, base, rel, text).0; base + rel in b.nodes && b.nodes[base + rel] == Symlink(text)
    ensures MakeLink(fs, base, from, rel).1 ==>
              var b := MakeLink(fs, base, from, rel).0;
              base + rel in b.nodes && base + from in b.nodes && b.nodes[base + rel] == b.nodes[base + from]
  {
    hide Good, Resolve, NoSymlinkOnTheWay, Proper;
    if Resolve(fs, base, rel, false, MAX_SYMLINKS).At? { PlainTarget(fs, base, rel, false); }
    if Resolve(fs, base, from, false, MAX_SYMLINKS).At? { PlainTarget(fs, base, from, false); }
  }

  lemma EmptyIsPlain(fs: FS, base: Path)
    ensures Proper([]) && NoSymlinkOnTheWay(fs, base, [])
  {}

  // ----- One entry -----

  /** An entry that was extracted without an error is in its place, whether or not it overwrote. */
  lemma EntryIsInPlace(fs: FS, base: Path, root: Path, rel: seq<string>, e: Entry, overwrite: bool)
    requires Good(fs, base) && Proper(root) && Proper(rel) && NoSymlinkOnTheWay(fs, base, rel)
    requires SafeArchivePath(root, e.name) == Some(rel) && !e.kind.Other?
    requires ExtractTarEntry(fs, base, root, rel, e, overwrite).error.None?
    ensures InPlace(ExtractTarEntry(fs, base, root, rel, e, overwrite).fs, base, root, e)
  {
    hide Good, Confined, Resolve, NoSymlinkOnTheWay, Proper, MkdirAll, MakeSymlink, MakeLink, ExtractFile, Holds,
         SafeArchivePath, RejectFrom, SymlinkAllowed;
    match e.kind
    case Directory => MkdirAllMakes(fs, base, rel, e.fate.mkdir);
    case Regular => FileIsWritten(fs, base, rel, e.data, overwrite, e.fate);
    case SymbolicLink =>
      EmptyIsPlain(fs, base);
      LinksAreMade(fs, base, rel, [], e.linkname);
    case HardLink =>
      var from := SafeArchivePath(root, e.linkname).value;
      SafePathsAreProper(root, e.linkname);
      GoodBase(fs, base);
      CheckedPathsArePlain(fs, base, from);
      LinksAreMade(fs, base, rel, from, "");
    case Corrupt =>
  }

  /** What is in place stays in place under steps that keep every name and every file. */
  lemma InPlaceStays(a: FS, b: FS, base: Path, root: Path, e: Entry)
    requires Confined(a, b, base, false)
    ensures InPlace(a, base, root, e) ==> InPlace(b, base, root, e)
    ensures InZipPlace(a, base, root, e) ==> InZipPlace(b, base, root, e)
  {
    hide Good, SafeArchivePath, SymlinkAllowed, OutsideKept;
  }

  // ----- Whole archives -----

  /** A TAR extraction that succeeds without overwriting has put every entry in its place: later
      entries never disturb earlier ones. */
  lemma {:induction false} ExtractedTarIsComplete(fs: FS, base: Path, root: Path, entries: seq<Entry>,
                                              count: nat, total: nat)
    requires Good(fs, base) && Proper(root)
    requires ExtractTar(fs, base, root, entries, false, count, total).error.None?
    ensures forall i :: 0 <= i < |entries| ==>
              InPlace(ExtractTar(fs, base, root, entries, false, count, total).fs, base, root, entries[i])
    decreases |entries|
  {
    hide Good, Confined, Proper, NoSymlinkOnTheWay, RejectFrom, SafeArchivePath, ExtractTarEntry, InPlace;
    if entries != [] {
      var e, rest := entries[0], entries[1..];
      var rel := SafeArchivePath(root, e.name).value;
      SafePathsAreProper(root, e.name);
      GoodBase(fs, base);
      CheckedPathsArePlain(fs, base, rel);
      if e.kind.Other? {
        OthersAreInPlace(ExtractTar(fs, base, root, rest, false, count, total).fs, base, root, e);
        ExtractedTarIsComplete(fs, base, root, rest, count, total);
      } else {
        TarEntryConfined(fs, base, root, rel, e, false);
        EntryIsInPlace(fs, base, root, rel, e, false);
        var w := ExtractTarEntry(fs, base, root, rel, e, false);
        ConfinedGood(fs, w.fs, base, false);
        ExtractedTarIsComplete(w.fs, base, root, rest, count + 1, total + w.bytes);
        TarStaysInside(w.fs, base, root, rest, false, count + 1, total + w.bytes);
        InPlaceStays(w.fs, ExtractTar(w.fs, base, root, rest, false, count + 1, total + w.bytes).fs, base, root, e);
      }
      forall i | 0 < i < |entries| ensures entries[i] == rest[i - 1] {}
    }
  }

  lemma OthersAreInPlace(fs: FS, base: Path, root: Path, e: Entry)
    requires e.kind.Other? && SafeArchivePath(root, e.name).Some?
    ensures InPlace(fs, base, root, e)
  {}

  lemma ZipEntryIsInPlace(fs: FS, base: Path, root: Path, rel: seq<string>, e: Entry)
    requires Good(fs, base) && Proper(rel) && NoSymlinkOnTheWay(fs, base, rel) && SafeArchivePath(root, e.name) == Some(rel)
    ensures e.kind.Directory? && MkdirAll(fs, base, rel, e.fate.mkdir).1 ==>
              InZipPlace(MkdirAll(fs, base, rel, e.fate.mkdir).0, base, root, e)
    ensures !e.kind.Directory? && ExtractFile(fs, base, rel, e.data, false, e.fate).error.None? ==>
              InZipPlace(ExtractFile(fs, base, rel, e.data, false, e.fate).fs, base, root, e)
  {
    hide Good, NoSymlinkOnTheWay, Proper, MkdirAll, ExtractFile, SafeArchivePath;
    if e.kind.Directory? && MkdirAll(fs, base, rel, e.fate.mkdir).1 { MkdirAllMakes(fs, base, rel, e.fate.mkdir); }
    if !e.kind.Directory? && ExtractFile(fs, base, rel, e.data, false, e.fate).error.None? {
      FileIsWritten(fs, base, rel, e.data, false, e.fate);
    }
  }

  lemma {:induction false} ExtractedZipIsComplete(fs: FS, base: Path, root: Path, entries: seq<Entry>,
                                              count: nat, total: nat)
    requires Good(fs, base) && Proper(root)
    requires ExtractZip(fs, base, root, entries, false, count, total).error.None?
    ensures forall i :: 0 <= i < |entries| ==>
              InZipPlace(ExtractZip(fs, base, root, entries, false, count, total).fs, base, root, entries[i])
    decreases |entries|
  {
    hide Good, Confined, Proper, NoSymlinkOnTheWay, RejectFrom, SafeArchivePath, MkdirAll, ExtractFile, InZipPlace;
    if entries != [] {
      var e, rest := entries[0], entries[1..];
      var rel := SafeArchivePath(root, e.name).value;
      SafePathsAreProper(root, e.name);
      GoodBase(fs, base);
      CheckedPathsArePlain(fs, base, rel);
      ZipEntryIsInPlace(fs, base, root, rel, e);
      var b, c, t := fs, count, total;
      if e.kind.Directory? {
        MkdirAllConfined(fs, base, rel, e.fate.mkdir, false);
        b := MkdirAll(fs, base, rel, e.fate.mkdir).0;
      } else {
        ExtractFileConfined(fs, base, rel, e.data, false, e.fate);
        var w := ExtractFile(fs, base, rel, e.data, false, e.fate);
        b, c, t := w.fs, count + 1, total + w.bytes;
      }
      ConfinedGood(fs, b, base, false);
      ExtractedZipIsComplete(b, base, root, rest, c, t);
      ZipStaysInside(b, base, root, rest, false, c, t);
      InPlaceStays(b, ExtractZip(b, base, root, rest, false, c, t).fs, base, root, e);
      forall i | 0 < i < |entries| ensures entries[i] == rest[i - 1] {}
    }
  }
}
