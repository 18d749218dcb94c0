/** The extraction loops as they are written, over a filesystem that is changed in place. */
module ArchiveExtract {
  import opened Common
  import opened Text
  import opened FileTree
  import opened Archive
  import A = Archive

  class Disk {
    var fs: FS

    constructor (fs: FS)
      ensures this.fs == fs
    {
      this.fs := fs;
    }

    /** rejectArchiveSymlinkComponents. */
    method RejectSymlinkComponents(base: Path, rel: seq<string>) returns (error: Option<ExtractError>)
      ensures error == RejectFrom(fs, base, rel, 0)
    {
      var i := 0;
      while i < |rel|
        invariant i <= |rel|
        invariant RejectFrom(fs, base, rel, 0) == RejectFrom(fs, base, rel, i)
      {
        match Lstat(fs, base, rel[..i + 1]) {
          case NotExist =>
          case StatError => return Some(SystemError);
          case Found(node) => if node.Symlink? { return Some(ThroughSymlink); }
        }
        i := i + 1;
      }
      return None;
    }

    method ExtractTar(base: Path, root: Path, entries: seq<Entry>, overwrite: bool)
      returns (count: nat, total: nat, error: Option<ExtractError>)
      modifies this
      ensures Extraction(fs, count, total, error) == A.ExtractTar(old(fs), base, root, entries, overwrite, 0, 0)
    {
      hide ExtractTarEntry, ExtractFile, MkdirAll, RejectFrom, SafeArchivePath;
      count, total, error := 0, 0, None;
      var i := 0;
      while i < |entries|
        invariant i <= |entries|
        invariant A.ExtractTar(old(fs), base, root, entries, overwrite, 0, 0)
                  == A.ExtractTar(fs, base, root, entries[i..], overwrite, count, total)
      {
        var e := entries[i];
        assert entries[i..][0] == e && entries[i..][1..] == entries[i + 1..];
        if e.kind == Corrupt { return count, total, Some(CorruptArchive); }
        var rel := SafeArchivePath(root, e.name);
        if rel == None { return count, total, Some(UnsafePath); }
        var rejected := RejectSymlinkComponents(base, rel.value);
        if rejected != None { return count, total, rejected; }
        if e.kind != Other {
          var w := ExtractTarEntry(fs, base, root, rel.value, e, overwrite);
          fs := w.fs;
          total := total + w.bytes;
          if w.error != None { return count, total, w.error; }
          count := count + 1;
          if count > MAX_ENTRIES || total > MAX_BYTES { return count, total, Some(TooMuch); }
        }
        i := i + 1;
      }
    }

    method ExtractZip(base: Path, root: Path, entries: seq<Entry>, overwrite: bool)
      returns (count: nat, total: nat, error: Option<ExtractError>)
      modifies this
      ensures Extraction(fs, count, total, error) == A.ExtractZip(old(fs), base, root, entries, overwrite, 0, 0)
    {
      hide ExtractTarEntry, ExtractFile, MkdirAll, RejectFrom, SafeArchivePath;
      count, total, error := 0, 0, None;
      var i := 0;
      while i < |entries|
        invariant i <= |entries|
        invariant A.ExtractZip(old(fs), base, root, entries, overwrite, 0, 0)
                  == A.ExtractZip(fs, base, root, entries[i..], overwrite, count, total)
      {
        var e := entries[i];
        assert entries[i..][0] == e && entries[i..][1..] == entries[i + 1..];
        var rel := SafeArchivePath(root, e.name);
        if rel == None { return count, total, Some(UnsafePath); }
        var rejected := RejectSymlinkComponents(base, rel.value);
        if rejected != None { return count, total, rejected; }
        if e.kind == Directory {
          var (made, ok) := MkdirAll(fs, base, rel.value, e.fate.mkdir);
          fs := made;
          if !ok { return count, total, Some(SystemError); }
        } else {
          var w := ExtractFile(fs, base, rel.value, e.data, overwrite, e.fate);
          fs := w.fs;
          if w.error != None { return count, total, w.error; }
          total := total + w.bytes;
          count := count + 1;
          if count > MAX_ENTRIES || total > MAX_BYTES { return count, total, Some(TooMuch); }
        }
        i := i + 1;
      }
    }
  }
}
