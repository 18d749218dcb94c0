/** Which archives are extracted: what the component check refuses, where named entries land, and that
    an archive of ordinary entries succeeds. */
module ArchiveAccepts {
  import opened Common
  import opened Text
  import opened FileTree
  import opened Archive
  import opened ArchiveSafety
  import opened ArchiveComplete
  import opened ArchiveNames

  // ----- The component check -----

  /** No symbolic link among the components, and no file before the last. */
  ghost predicate Clear(fs: FS, base: Path, rel: seq<string>) {
    forall k :: 0 < k <= |rel| ==> !IsSymlink(fs, base + rel[..k]) && (k < |rel| ==> !IsFile(fs, base + rel[..k]))
  }

  lemma {:induction false} ResolveClear(fs: FS, root: Path, rel: seq<string>, budget: nat)
    requires IsDir(fs, root) && Proper(rel) && Clear(fs, root, rel)
    ensures var w := Resolve(fs, root, rel, false, budget); w.Missing? || w == At(root + rel)
    decreases |rel|
  {
    if rel == [] {
      assert root + rel == root;
    } else {
      var p := root + [rel[0]];
      assert p == root + rel[..1];
      if |rel| > 1 && p in fs.nodes {
        forall k | 0 < k <= |rel[1..]|
          ensures !IsSymlink(fs, p + rel[1..][..k]) && (k < |rel[1..]| ==> !IsFile(fs, p + rel[1..][..k]))
        {
          assert p + rel[1..][..k] == root + rel[..k + 1];
        }
        ResolveClear(fs, p, rel[1..], budget);
        assert p + rel[1..] == root + rel;
      }
    }
  }

  lemma ParentOfLonger(base: Path, rel: seq<string>)
    requires rel != []
    ensures Parent(base + rel) == base + rel[..|rel| - 1] && base + rel != []
  {}

  /** Along a clear path, Lstat sees what is there. */
  lemma LstatSees(fs: FS, base: Path, rel: seq<string>)
    requires Tree(fs) && IsDir(fs, base) && Proper(rel) && rel != [] && Clear(fs, base, rel)
    ensures Lstat(fs, base, rel) == if base + rel in fs.nodes then Found(fs.nodes[base + rel]) else NotExist
  {
    if base + rel in fs.nodes {
      ParentOfLonger(base, rel);
      NamesReachTheirNode(fs, base, rel, false, MAX_SYMLINKS);
    } else {
      ResolveClear(fs, base, rel, MAX_SYMLINKS);
    }
  }

  lemma {:induction false} ResolveThroughFile(fs: FS, root: Path, rel: seq<string>, budget: nat)
    requires Tree(fs) && Proper(rel) && |rel| > 1 && IsFile(fs, root + rel[..|rel| - 1])
    ensures Resolve(fs, root, rel, false, budget).NotDir?
    decreases |rel|
  {
    hide Tree;
    var p, file := root + [rel[0]], root + rel[..|rel| - 1];
    AboveIsDir(fs, file, root);
    if |rel| == 2 {
      assert p == file;
      assert rel[1..][1..] == [];
    } else {
      AboveIsDir(fs, file, p);
      assert p + rel[1..][..|rel| - 2] == file;
      assert Proper(rel[1..]);
      ResolveThroughFile(fs, p, rel[1..], budget);
    }
  }

  lemma AboveIsDir(fs: FS, p: Path, q: Path)
    requires Tree(fs) && p in fs.nodes && q <= p && q != p
    ensures IsDir(fs, q)
  {
    AncestorIsDir(fs, Parent(p), |q|);
    assert Parent(p)[..|q|] == q;
  }

  ghost predicate SomeSymlink(fs: FS, base: Path, rel: seq<string>) {
    exists k :: 0 < k <= |rel| && IsSymlink(fs, base + rel[..k])
  }

  lemma {:induction false} RejectFromExactly(fs: FS, base: Path, rel: seq<string>, i: nat)
    requires Tree(fs) && IsDir(fs, base) && Proper(rel) && i <= |rel| && Clear(fs, base, rel[..i])
    ensures RejectFrom(fs, base, rel, i) == None <==> Clear(fs, base, rel)
    ensures RejectFrom(fs, base, rel, i) == Some(ThroughSymlink) <==> SomeSymlink(fs, base, rel)
    decreases |rel| - i
  {
    hide Tree, Lstat, Proper;
    if i == |rel| {
      assert rel[..i] == rel;
    } else {
      var next := rel[..i + 1];
      assert next[..i] == rel[..i];
      assert Proper(next) by { PrefixProper(rel, i + 1); }
      if i > 0 && IsFile(fs, base + rel[..i]) {
        FileOnTheWay(fs, base, rel, i);
      } else if IsSymlink(fs, base + next) {
        SymlinksAreSeen(fs, base, next);
      } else {
        ClearMore(fs, base, rel, i);
        LstatSees(fs, base, next);
        RejectFromExactly(fs, base, rel, i + 1);
      }
    }
  }

  lemma PrefixProper(rel: seq<string>, k: nat)
    requires Proper(rel) && k <= |rel|
    ensures Proper(rel[..k])
  {}

  lemma ClearMore(fs: FS, base: Path, rel: seq<string>, i: nat)
    requires i < |rel| && Clear(fs, base, rel[..i]) && !IsSymlink(fs, base + rel[..i + 1])
    requires i > 0 ==> !IsFile(fs, base + rel[..i])
    ensures Clear(fs, base, rel[..i + 1])
  {
    var next := rel[..i + 1];
    forall k | 0 < k <= |next|
      ensures !IsSymlink(fs, base + next[..k]) && (k < |next| ==> !IsFile(fs, base + next[..k]))
    {
      assert next[..k] == rel[..k];
      if k <= i { assert rel[..i][..k] == rel[..k]; }
    }
  }

  lemma NothingBelowFile(fs: FS, base: Path, rel: seq<string>, i: nat, k: nat)
    requires Tree(fs) && i < k <= |rel| && IsFile(fs, base + rel[..i])
    ensures base + rel[..k] !in fs.nodes
  {
    hide Tree;
    var p, q := base + rel[..k], base + rel[..i];
    if p in fs.nodes {
      assert p[..|q|] == q;
      AboveIsDir(fs, p, q);
    }
  }

  /** Nothing is below a file, and looking there is an error. */
  lemma FileOnTheWay(fs: FS, base: Path, rel: seq<string>, i: nat)
    requires Tree(fs) && Proper(rel) && 0 < i < |rel| && IsFile(fs, base + rel[..i]) && Clear(fs, base, rel[..i])
    ensures RejectFrom(fs, base, rel, i) == Some(SystemError) && !Clear(fs, base, rel) && !SomeSymlink(fs, base, rel)
  {
    hide Tree, Resolve, Proper;
    var next := rel[..i + 1];
    assert next[..i] == rel[..i];
    PrefixProper(rel, i + 1);
    ResolveThroughFile(fs, base, next, MAX_SYMLINKS);
    forall k | 0 < k <= |rel| ensures !IsSymlink(fs, base + rel[..k]) {
      if k <= i {
        assert rel[..i][..k] == rel[..k];
      } else {
        NothingBelowFile(fs, base, rel, i, k);
      }
    }
  }

  /** The check lets a path through exactly when no component of it is a symbolic link and none but the last
      is a file, and it reports a symbolic link exactly when there is one. */
  lemma RejectedExactly(fs: FS, base: Path, rel: seq<string>)
    requires Tree(fs) && IsDir(fs, base) && Proper(rel)
    ensures RejectFrom(fs, base, rel, 0) == None <==> Clear(fs, base, rel)
    ensures RejectFrom(fs, base, rel, 0) == Some(ThroughSymlink) <==> SomeSymlink(fs, base, rel)
  {
    RejectFromExactly(fs, base, rel, 0);
  }

  // ----- Where named entries land -----

  /** The entry, seen at the place its name says. */
  ghost predicate Landed(fs: FS, base: Path, rel: seq<string>, e: Entry) {
    match e.kind
    case Directory => IsDir(fs, base + rel)
    case Regular => Holds(fs, base + rel, e.data)
    case SymbolicLink => base + rel in fs.nodes && fs.nodes[base + rel] == Symlink(e.linkname)
    case HardLink =>
      (forall from :: Plain(from) && e.linkname == Joined(from) ==>
        base + from in fs.nodes && base + rel in fs.nodes && fs.nodes[base + rel] == fs.nodes[base + from])
    case Other => true
    case Corrupt => false
  }

  lemma InPlaceLanded(fs: FS, base: Path, root: Path, e: Entry, rel: seq<string>)
    requires InPlace(fs, base, root, e) && Plain(rel) && e.name == Joined(rel)
    ensures Landed(fs, base, rel, e)
  {
    hide SafeArchivePath, Plain, Joined, Holds, SymlinkAllowed;
    PlainNamesAreTheirPlace(root, rel);
    forall from | Plain(from) && e.linkname == Joined(from) ensures SafeArchivePath(root, e.linkname) == Some(from) {
      PlainNamesAreTheirPlace(root, from);
    }
  }

  /** After a successful TAR extraction an entry named by components is below the destination at exactly
      those components. */
  lemma TarLandsAsNamed(fs: FS, base: Path, root: Path, entries: seq<Entry>, i: nat, rel: seq<string>)
    requires Good(fs, base) && Proper(root) && i < |entries| && Plain(rel) && entries[i].name == Joined(rel)
    requires ExtractTar(fs, base, root, entries, false, 0, 0).error.None?
    ensures Landed(ExtractTar(fs, base, root, entries, false, 0, 0).fs, base, rel, entries[i])
  {
    hide Good, Proper, Plain, Joined, ExtractTar, InPlace, Landed;
    ExtractedTarIsComplete(fs, base, root, entries, 0, 0);
    InPlaceLanded(ExtractTar(fs, base, root, entries, false, 0, 0).fs, base, root, entries[i], rel);
  }

  /** The same for ZIP. */
  lemma ZipLandsAsNamed(fs: FS, base: Path, root: Path, entries: seq<Entry>, i: nat, rel: seq<string>)
    requires Good(fs, base) && Proper(root) && i < |entries| && Plain(rel) && entries[i].name == Joined(rel)
    requires ExtractZip(fs, base, root, entries, false, 0, 0).error.None?
    ensures var b := ExtractZip(fs, base, root, entries, false, 0, 0).fs;
            if entries[i].kind.Directory? then IsDir(b, base + rel) else Holds(b, base + rel, entries[i].data)
  {
    hide Good, Proper, Plain, Joined, ExtractZip, Holds, SafeArchivePath;
    ExtractedZipIsComplete(fs, base, root, entries, 0, 0);
    PlainNamesAreTheirPlace(root, rel);
    assert InZipPlace(ExtractZip(fs, base, root, entries, false, 0, 0).fs, base, root, entries[i]);
  }

  // ----- Ordinary archives -----

  /** Every location on the way is a directory or not there yet. */
  ghost predicate Room(fs: FS, base: Path, rel: seq<string>) {
    forall k :: 0 < k <= |rel| ==> base + rel[..k] !in fs.nodes || IsDir(fs, base + rel[..k])
  }

  lemma RoomIsPlain(fs: FS, base: Path, rel: seq<string>)
    requires Room(fs, base, rel)
    ensures Clear(fs, base, rel) && NoSymlinkOnTheWay(fs, base, rel)
    ensures rel != [] ==> Room(fs, base, Parent(rel))
  {
    if rel != [] { assert forall k :: 0 < k <= |Parent(rel)| ==> Parent(rel)[..k] == rel[..k]; }
  }

  lemma {:induction false} MkdirAllWorks(fs: FS, base: Path, rel: seq<string>, works: seq<string> -> bool)
    requires Good(fs, base) && Proper(rel) && Room(fs, base, rel) && forall r :: works(r)
    ensures MkdirAll(fs, base, rel, works).1
    decreases |rel|
  {
    hide Good, Resolve, Proper, OnlyDirsAdded, Room, Clear, NoSymlinkOnTheWay, Tree;
    RoomIsPlain(fs, base, rel);
    GoodBase(fs, base);
    if rel == [] {
      FollowEmpty(fs, base);
    } else if base + rel in fs.nodes {
      assert IsDir(fs, base + rel) by { LastOfRoom(fs, base, rel); }
      FollowFinds(fs, base, rel);
    } else {
      if StatFollow(fs, base, rel).Found? { PlainTarget(fs, base, rel, true); }
      PrefixPlain(fs, base, rel);
      MkdirAllWorks(fs, base, Parent(rel), works);
      MkdirAllConfined(fs, base, Parent(rel), works, false);
      MkdirAllMakes(fs, base, Parent(rel), works);
      var fs1 := MkdirAll(fs, base, Parent(rel), works).0;
      ConfinedGood(fs, fs1, base, false);
      GoodBase(fs1, base);
      NotAmongPrefixes(fs, fs1, base, rel);
      NamesReachTheirNode(fs1, base, rel, false, MAX_SYMLINKS);
    }
  }

  lemma FollowEmpty(fs: FS, base: Path)
    requires IsDir(fs, base)
    ensures StatFollow(fs, base, []) == Found(Dir)
  {}

  lemma LastOfRoom(fs: FS, base: Path, rel: seq<string>)
    requires Room(fs, base, rel) && rel != [] && base + rel in fs.nodes
    ensures IsDir(fs, base + rel)
  {
    assert rel[..|rel|] == rel;
  }

  lemma FollowFinds(fs: FS, base: Path, rel: seq<string>)
    requires Tree(fs) && Proper(rel) && rel != [] && IsDir(fs, base + rel)
    ensures StatFollow(fs, base, rel) == Found(Dir)
  {
    ParentOfLonger(base, rel);
    NamesReachTheirNode(fs, base, rel, true, MAX_SYMLINKS);
  }

  lemma NotAmongPrefixes(fs: FS, fs1: FS, base: Path, rel: seq<string>)
    requires rel != [] && base + rel !in fs.nodes && OnlyDirsAdded(fs, fs1, base, Parent(rel))
    ensures base + rel !in fs1.nodes
  {
    assert |base + rel| > |base + Parent(rel)|;
  }

  predicate Fine(fate: Fate, length: nat) {
    fate.readable && fate.opens && fate.copied >= length && fate.closes
  }

  /** A file is written where there is room for its directories and nothing in its place. */
  lemma FileWorks(fs: FS, base: Path, rel: seq<string>, data: Bytes, fate: Fate)
    requires Good(fs, base) && Proper(rel) && rel != [] && Room(fs, base, Parent(rel)) && base + rel !in fs.nodes
    requires Fine(fate, |data|) && forall r :: fate.mkdir(r)
    ensures var w := ExtractFile(fs, base, rel, data, false, fate); w.error == None && w.bytes == |data|
    ensures forall p :: p in ExtractFile(fs, base, rel, data, false, fate).fs.nodes && p !in fs.nodes ==>
              p == base + rel
              || (p <= base + Parent(rel) && IsDir(ExtractFile(fs, base, rel, data, false, fate).fs, p))
  {
    hide Good, Resolve, Proper, Room, Clear, NoSymlinkOnTheWay, Tree, MkdirAll, Confined;
    RoomForFile(fs, base, rel);
    GoodBase(fs, base);
    LstatSees(fs, base, rel);
    PrefixPlain(fs, base, rel);
    MkdirAllWorks(fs, base, Parent(rel), fate.mkdir);
    MkdirAllConfined(fs, base, Parent(rel), fate.mkdir, false);
    MkdirAllMakes(fs, base, Parent(rel), fate.mkdir);
    var fs1 := MkdirAll(fs, base, Parent(rel), fate.mkdir).0;
    ConfinedGood(fs, fs1, base, false);
    GoodBase(fs1, base);
    NotAmongPrefixes(fs, fs1, base, rel);
    NamesReachTheirNode(fs1, base, rel, true, MAX_SYMLINKS);
  }

  lemma RoomForFile(fs: FS, base: Path, rel: seq<string>)
    requires rel != [] && Room(fs, base, Parent(rel)) && base + rel !in fs.nodes
    ensures Clear(fs, base, rel) && NoSymlinkOnTheWay(fs, base, rel)
  {
    forall k | 0 < k <= |rel| ensures !IsSymlink(fs, base + rel[..k]) && !IsFile(fs, base + rel[..k]) {
      if k < |rel| { assert Parent(rel)[..k] == rel[..k]; } else { assert rel[..k] == rel; }
    }
  }

  /** There is room for the entry, and for a file nothing in its place. */
  ghost predicate Free(fs: FS, base: Path, e: Entry, rel: seq<string>) {
    if e.kind.Directory? then Room(fs, base, rel)
    else rel != [] && Room(fs, base, Parent(rel)) && base + rel !in fs.nodes
  }

  /** A directory or file named by components, whose system calls go through. */
  ghost predicate Ordinary(e: Entry, rel: seq<string>) {
    && Plain(rel) && e.name == Joined(rel) && (e.kind.Directory? || e.kind.Regular?)
    && (forall r :: e.fate.mkdir(r)) && (e.kind.Regular? ==> Fine(e.fate, |e.data|))
  }

  /** No file stands in the way of another entry, or at its place. */
  ghost predicate Apart(entries: seq<Entry>, rels: seq<seq<string>>)
    requires |entries| == |rels|
  {
    forall i, j :: 0 <= i < |entries| && 0 <= j < |entries| && i != j && entries[i].kind.Regular? ==> !(rels[i] <= rels[j])
  }

  ghost predicate AllOrdinary(fs: FS, base: Path, entries: seq<Entry>, rels: seq<seq<string>>) {
    && |entries| == |rels| && Apart(entries, rels)
    && forall i :: 0 <= i < |entries| ==> Ordinary(entries[i], rels[i]) && Free(fs, base, entries[i], rels[i])
  }

  /** What a TAR extraction counts: every entry of a known kind, and the bytes of its regular files. */
  function TarCount(entries: seq<Entry>): nat {
    if entries == [] then 0 else (if entries[0].kind.Other? then 0 else 1) + TarCount(entries[1..])
  }

  function TarVolume(entries: seq<Entry>): nat {
    if entries == [] then 0 else (if entries[0].kind.Regular? then |entries[0].data| else 0) + TarVolume(entries[1..])
  }

  /** What a ZIP extraction counts: everything that is no directory. */
  function ZipCount(entries: seq<Entry>): nat {
    if entries == [] then 0 else (if entries[0].kind.Directory? then 0 else 1) + ZipCount(entries[1..])
  }

  function ZipVolume(entries: seq<Entry>): nat {
    if entries == [] then 0 else (if entries[0].kind.Directory? then 0 else |entries[0].data|) + ZipVolume(entries[1..])
  }

  /** A file counts as extracted only when nothing failed, and then with all its bytes. */
  lemma FileFaultsAreReported(fs: FS, base: Path, rel: seq<string>, data: Bytes, overwrite: bool, fate: Fate)
    requires ExtractFile(fs, base, rel, data, overwrite, fate).error.None?
    ensures Fine(fate, |data|) && ExtractFile(fs, base, rel, data, overwrite, fate).bytes == |data|
  {
    hide Resolve, MkdirAll, OpenTrunc, Lstat;
  }

  lemma EntryFaultsAreReported(fs: FS, base: Path, root: Path, rel: seq<string>, e: Entry, overwrite: bool)
    requires ExtractTarEntry(fs, base, root, rel, e, overwrite).error.None?
    ensures e.kind.Regular? ==> Fine(e.fate, |e.data|)
    ensures ExtractTarEntry(fs, base, root, rel, e, overwrite).bytes == if e.kind.Regular? then |e.data| else 0
  {
    hide ExtractFile, MkdirAll, MakeSymlink, MakeLink, Fine, SafeArchivePath, RejectFrom, SymlinkAllowed;
    if e.kind.Regular? { FileFaultsAreReported(fs, base, rel, e.data, overwrite, e.fate); }
  }

  /** A TAR extraction that succeeds counted right and kept within the limits. */
  lemma {:induction false} TarCountsRight(fs: FS, base: Path, root: Path, entries: seq<Entry>, overwrite: bool,
                                          count: nat, total: nat)
    requires ExtractTar(fs, base, root, entries, overwrite, count, total).error.None?
    requires count <= MAX_ENTRIES && total <= MAX_BYTES
    ensures var x := ExtractTar(fs, base, root, entries, overwrite, count, total);
            && x.count == count + TarCount(entries) <= MAX_ENTRIES
            && x.total == total + TarVolume(entries) <= MAX_BYTES
    decreases |entries|
  {
    hide SafeArchivePath, RejectFrom, ExtractTarEntry;
    if entries != [] {
      var e := entries[0];
      if e.kind.Other? {
        TarCountsRight(fs, base, root, entries[1..], overwrite, count, total);
      } else {
        var rel := SafeArchivePath(root, e.name).value;
        var w := ExtractTarEntry(fs, base, root, rel, e, overwrite);
        EntryFaultsAreReported(fs, base, root, rel, e, overwrite);
        TarCountsRight(w.fs, base, root, entries[1..], overwrite, count + 1, total + w.bytes);
      }
    }
  }

  /** The same for ZIP. */
  lemma {:induction false} ZipCountsRight(fs: FS, base: Path, root: Path, entries: seq<Entry>, overwrite: bool,
                                          count: nat, total: nat)
    requires ExtractZip(fs, base, root, entries, overwrite, count, total).error.None?
    requires count <= MAX_ENTRIES && total <= MAX_BYTES
    ensures var x := ExtractZip(fs, base, root, entries, overwrite, count, total);
            && x.count == count + ZipCount(entries) <= MAX_ENTRIES
            && x.total == total + ZipVolume(entries) <= MAX_BYTES
    decreases |entries|
  {
    hide SafeArchivePath, RejectFrom, ExtractFile, MkdirAll;
    if entries != [] {
      var e := entries[0];
      var rel := SafeArchivePath(root, e.name).value;
      if e.kind.Directory? {
        ZipCountsRight(MkdirAll(fs, base, rel, e.fate.mkdir).0, base, root, entries[1..], overwrite, count, total);
      } else {
        var w := ExtractFile(fs, base, rel, e.data, overwrite, e.fate);
        FileFaultsAreReported(fs, base, rel, e.data, overwrite, e.fate);
        ZipCountsRight(w.fs, base, root, entries[1..], overwrite, count + 1, total + w.bytes);
      }
    }
  }

  /** What one ordinary entry adds: directories on its way, and its file. */
  ghost predicate AddsOnly(a: FS, b: FS, base: Path, e: Entry, rel: seq<string>) {
    forall p :: p in b.nodes && p !in a.nodes ==>
      p <= base + rel && (IsDir(b, p) || (p == base + rel && e.kind.Regular?))
  }

  lemma StillFree(a: FS, b: FS, base: Path, done: Entry, at: seq<string>, e: Entry, rel: seq<string>)
    requires Grown(a, b, base) && AddsOnly(a, b, base, done, at) && Free(a, base, e, rel)
    requires done.kind.Regular? ==> !(at <= rel)
    requires !e.kind.Directory? ==> !(rel <= at)
    ensures Free(b, base, e, rel)
  {
    var way := if e.kind.Directory? then rel else Parent(rel);
    forall k | 0 < k <= |way| ensures base + way[..k] !in b.nodes || IsDir(b, base + way[..k]) {
      var q := base + way[..k];
      if q in b.nodes && q !in a.nodes && q == base + at {
        assert q[|base|..] == way[..k] && (base + at)[|base|..] == at;
        assert way[..k] <= rel;
      }
    }
    BelowBase(base, rel, at);
  }

  lemma BelowBase(base: Path, a: seq<string>, b: seq<string>)
    ensures base + a <= base + b ==> a <= b
  {
    if base + a <= base + b {
      forall i | 0 <= i < |a| ensures a[i] == b[i] { assert (base + a)[|base| + i] == (base + b)[|base| + i]; }
    }
  }

  /** One ordinary entry is extracted. */
  lemma EntryWorks(fs: FS, base: Path, root: Path, e: Entry, rel: seq<string>)
    requires Good(fs, base) && Ordinary(e, rel) && Free(fs, base, e, rel)
    ensures SafeArchivePath(root, e.name) == Some(rel) && Proper(rel) && RejectFrom(fs, base, rel, 0) == None
    ensures NoSymlinkOnTheWay(fs, base, rel)
    ensures e.kind.Directory? ==> MkdirAll(fs, base, rel, e.fate.mkdir).1
                                  && AddsOnly(fs, MkdirAll(fs, base, rel, e.fate.mkdir).0, base, e, rel)
    ensures e.kind.Regular? ==> var w := ExtractFile(fs, base, rel, e.data, false, e.fate);
                                w.error == None && w.bytes == |e.data| && AddsOnly(fs, w.fs, base, e, rel)
  {
    hide Good, Resolve, Room, Clear, NoSymlinkOnTheWay, Tree, MkdirAll, Confined, Joined, SafeArchivePath, RejectFrom,
         ExtractFile, Fine, Proper;
    assert Proper(rel) by { PlainIsProper(rel); }
    PlainNamesAreTheirPlace(root, rel);
    GoodBase(fs, base);
    if e.kind.Directory? {
      RoomIsPlain(fs, base, rel);
      MkdirAllWorks(fs, base, rel, e.fate.mkdir);
      MkdirAllConfined(fs, base, rel, e.fate.mkdir, false);
    } else {
      RoomForFile(fs, base, rel);
      FileWorks(fs, base, rel, e.data, e.fate);
      assert base + Parent(rel) <= base + rel;
    }
    RejectedExactly(fs, base, rel);
  }

  lemma PlainIsProper(rel: seq<string>)
    requires Plain(rel)
    ensures Proper(rel)
  {}

  lemma RestIsOrdinary(a: FS, b: FS, base: Path, entries: seq<Entry>, rels: seq<seq<string>>)
    requires entries != [] && AllOrdinary(a, base, entries, rels) && Grown(a, b, base)
    requires AddsOnly(a, b, base, entries[0], rels[0])
    ensures AllOrdinary(b, base, entries[1..], rels[1..])
  {
    hide Ordinary, Free, Grown, AddsOnly;
    forall i | 0 <= i < |entries[1..]|
      ensures Ordinary(entries[1..][i], rels[1..][i]) && Free(b, base, entries[1..][i], rels[1..][i])
    {
      assert entries[1..][i] == entries[i + 1] && rels[1..][i] == rels[i + 1];
      assert Ordinary(entries[i + 1], rels[i + 1]);
      OrdinaryKind(entries[i + 1], rels[i + 1]);
      StillFree(a, b, base, entries[0], rels[0], entries[i + 1], rels[i + 1]);
    }
  }

  lemma OrdinaryKind(e: Entry, rel: seq<string>)
    requires Ordinary(e, rel)
    ensures e.kind.Directory? || e.kind.Regular?
  {}

  /** An archive of directories and files named by components, none in the way of another and with room for
      all of them in the tree, is extracted, every entry of it, within the limits and without faults. */
  lemma {:induction false} TarAccepts(fs: FS, base: Path, root: Path, entries: seq<Entry>, rels: seq<seq<string>>,
                                      count: nat, total: nat)
    requires Good(fs, base) && Proper(root) && AllOrdinary(fs, base, entries, rels)
    requires count + TarCount(entries) <= MAX_ENTRIES && total + TarVolume(entries) <= MAX_BYTES
    ensures ExtractTar(fs, base, root, entries, false, count, total).error == None
    decreases |entries|
  {
    hide Good, Confined, Proper, NoSymlinkOnTheWay, RejectFrom, SafeArchivePath, MkdirAll, ExtractFile, Ordinary, Free,
         AddsOnly, AllOrdinary, Grown;
    if entries != [] {
      FirstIsOrdinary(fs, base, entries, rels);
      var e, rel := entries[0], rels[0];
      OrdinaryKind(e, rel);
      EntryWorks(fs, base, root, e, rel);
      TarEntryConfined(fs, base, root, rel, e, false);
      var w := ExtractTarEntry(fs, base, root, rel, e, false);
      ConfinedGrows(fs, w.fs, base);
      RestIsOrdinary(fs, w.fs, base, entries, rels);
      TarAccepts(w.fs, base, root, entries[1..], rels[1..], count + 1, total + w.bytes);
    }
  }

  lemma FirstIsOrdinary(fs: FS, base: Path, entries: seq<Entry>, rels: seq<seq<string>>)
    requires entries != [] && AllOrdinary(fs, base, entries, rels)
    ensures |rels| == |entries| && Ordinary(entries[0], rels[0]) && Free(fs, base, entries[0], rels[0])
  {}

  lemma ConfinedGrows(a: FS, b: FS, base: Path)
    requires Confined(a, b, base, false)
    ensures Good(b, base) && Grown(a, b, base)
  {}

  /** The same for ZIP, which counts files only. */
  lemma {:induction false} ZipAccepts(fs: FS, base: Path, root: Path, entries: seq<Entry>, rels: seq<seq<string>>,
                                      count: nat, total: nat)
    requires Good(fs, base) && Proper(root) && AllOrdinary(fs, base, entries, rels)
    requires count + ZipCount(entries) <= MAX_ENTRIES && total + ZipVolume(entries) <= MAX_BYTES
    ensures ExtractZip(fs, base, root, entries, false, count, total).error == None
    decreases |entries|
  {
    hide Good, Confined, Proper, NoSymlinkOnTheWay, RejectFrom, SafeArchivePath, MkdirAll, ExtractFile, Ordinary, Free,
         AddsOnly, AllOrdinary, Grown;
    if entries != [] {
      FirstIsOrdinary(fs, base, entries, rels);
      var e, rel := entries[0], rels[0];
      OrdinaryKind(e, rel);
      EntryWorks(fs, base, root, e, rel);
      var b, c, t := fs, count, total;
      if e.kind.Directory? {
        MkdirAllConfined(fs, base, rel, e.fate.mkdir, false);
        b := MkdirAll(fs, base, rel, e.fate.mkdir).0;
      } else {
        ExtractFileConfined(fs, base, rel, e.data, false, e.fate);
        var w := ExtractFile(fs, base, rel, e.data, false, e.fate);
        b, c, t := w.fs, count + 1, total + w.bytes;
      }
      ConfinedGrows(fs, b, base);
      RestIsOrdinary(fs, b, base, entries, rels);
      ZipAccepts(b, base, root, entries[1..], rels[1..], c, t);
    }
  }
}
