/** Where an extraction can write, over every entry list and every initial tree. */
module ArchiveSafety {
  import opened Common
  import opened Text
  import opened FileTree
  import opened Archive

  /** No hard link has one name inside the destination and one outside. */
  ghost predicate NoCrossingLinks(fs: FS, base: Path) {
    forall p, q :: IsFile(fs, p) && IsFile(fs, q) && fs.nodes[p].inode == fs.nodes[q].inode ==>
      (base <= p <==> base <= q)
  }

  ghost predicate Good(fs: FS, base: Path) { Tree(fs) && IsDir(fs, base) && NoCrossingLinks(fs, base) }

  /** Every name stays what it was, and new names appear only inside. */
  ghost predicate Grown(a: FS, b: FS, base: Path) {
    && (forall p :: p in a.nodes ==> p in b.nodes && b.nodes[p] == a.nodes[p])
    && (forall p :: p in b.nodes && p !in a.nodes ==> base <= p)
    && a.next <= b.next && (forall i :: i in a.contents ==> i in b.contents)
  }

  /** Files that have a name outside keep their contents. */
  ghost predicate OutsideKept(a: FS, b: FS, base: Path) {
    forall p :: IsFile(a, p) && !(base <= p) && a.nodes[p].inode in a.contents ==>
      a.nodes[p].inode in b.contents && b.contents[a.nodes[p].inode] == a.contents[a.nodes[p].inode]
  }

  /** Every file that existed keeps its contents. */
  ghost predicate AllKept(a: FS, b: FS) {
    forall i :: i in a.contents ==> i in b.contents && b.contents[i] == a.contents[i]
  }

  /** What one step of an extraction may do. */
  ghost predicate Confined(a: FS, b: FS, base: Path, overwrite: bool) {
    Good(b, base) && Grown(a, b, base) && OutsideKept(a, b, base) && (!overwrite ==> AllKept(a, b))
  }

  lemma ConfinedTrans(a: FS, b: FS, c: FS, base: Path, overwrite: bool)
    requires Good(a, base) && Confined(a, b, base, overwrite) && Confined(b, c, base, overwrite)
    ensures Confined(a, c, base, overwrite)
  {
    forall p | IsFile(a, p) && !(base <= p) && a.nodes[p].inode in a.contents
      ensures a.nodes[p].inode in c.contents && c.contents[a.nodes[p].inode] == a.contents[a.nodes[p].inode]
    {
      assert IsFile(b, p);
    }
  }

  lemma ConfinedRefl(a: FS, base: Path, overwrite: bool)
    requires Good(a, base)
    ensures Confined(a, a, base, overwrite)
  {}

  // ----- The name checks keep resolution below the destination -----

  lemma SymlinksAreSeen(fs: FS, base: Path, rel: seq<string>)
    requires Tree(fs) && IsDir(fs, base) && Proper(rel) && rel != [] && IsSymlink(fs, base + rel)
    ensures Lstat(fs, base, rel).Found? && Lstat(fs, base, rel).node.Symlink?
  {
    assert Parent(base + rel) == base + rel[..|rel| - 1];
    NamesReachTheirNode(fs, base, rel, false, MAX_SYMLINKS);
  }

  lemma {:induction false} RejectFindsSymlinks(fs: FS, base: Path, rel: seq<string>, i: nat)
    requires Tree(fs) && IsDir(fs, base) && Proper(rel) && i <= |rel|
    requires RejectFrom(fs, base, rel, i).None?
    ensures forall k :: i < k <= |rel| ==> !IsSymlink(fs, base + rel[..k])
    decreases |rel| - i
  {
    hide Tree, Lstat;
    if i < |rel| {
      RejectFindsSymlinks(fs, base, rel, i + 1);
      if IsSymlink(fs, base + rel[..i + 1]) { SymlinksAreSeen(fs, base, rel[..i + 1]); }
    }
  }

  lemma CheckedPathsArePlain(fs: FS, base: Path, rel: seq<string>)
    requires Tree(fs) && IsDir(fs, base) && Proper(rel) && RejectFrom(fs, base, rel, 0).None?
    ensures NoSymlinkOnTheWay(fs, base, rel)
  {
    RejectFindsSymlinks(fs, base, rel, 0);
  }

  // ----- System calls -----

  /** A new name inside, for a new directory, link or file. */
  ghost predicate Adds(a: FS, b: FS, p: Path, node: Node) {
    && p !in a.nodes && p != [] && IsDir(a, Parent(p)) && b.nodes == a.nodes[p := node]
    && (if node.File? && node.inode == a.next
        then b.contents == a.contents[a.next := []] && b.next == a.next + 1
        else b.contents == a.contents && b.next == a.next)
  }

  lemma AddingKeepsTree(a: FS, b: FS, p: Path, node: Node)
    requires Tree(a) && Adds(a, b, p, node)
    requires node.File? ==> node.inode == a.next || exists q :: IsFile(a, q) && a.nodes[q] == node
    ensures Tree(b)
  {
    forall q | q in b.nodes && q != [] ensures IsDir(b, Parent(q)) {
      if q != p { assert IsDir(a, Parent(q)); }
    }
    assert forall q :: IsFile(b, q) && q != p ==> IsFile(a, q);
  }

  lemma AddingKeepsLinks(a: FS, b: FS, base: Path, p: Path, node: Node)
    requires Tree(a) && NoCrossingLinks(a, base) && Adds(a, b, p, node) && base <= p
    requires node.File? ==> node.inode == a.next || exists q :: base <= q && IsFile(a, q) && a.nodes[q] == node
    ensures NoCrossingLinks(b, base)
  {
    FreshInodes(a);
    hide Tree;
    forall q, r | IsFile(b, q) && IsFile(b, r) && b.nodes[q].inode == b.nodes[r].inode
      ensures base <= q <==> base <= r
    {
      if q != p { assert IsFile(a, q); }
      if r != p { assert IsFile(a, r); }
    }
  }

  lemma NewNameConfined(a: FS, b: FS, base: Path, p: Path, node: Node, overwrite: bool)
    requires Good(a, base) && base <= p && Adds(a, b, p, node)
    requires node.File? ==> node.inode == a.next || exists q :: base <= q && IsFile(a, q) && a.nodes[q] == node
    ensures Confined(a, b, base, overwrite)
  {
    hide Tree, NoCrossingLinks, Adds, Grown, OutsideKept, AllKept;
    FreshInodes(a);
    AddingGrows(a, b, base, p, node);
    AddingKeepsLinks(a, b, base, p, node);
    AddingKeepsTree(a, b, p, node);
  }

  lemma AddingGrows(a: FS, b: FS, base: Path, p: Path, node: Node)
    requires Adds(a, b, p, node) && base <= p && a.next !in a.contents
    ensures Grown(a, b, base) && OutsideKept(a, b, base) && AllKept(a, b)
    ensures IsDir(a, base) ==> IsDir(b, base)
  {}

  lemma FreshInodes(a: FS)
    requires Tree(a)
    ensures forall q :: IsFile(a, q) ==> a.nodes[q].inode != a.next
    ensures a.next !in a.contents
  {}

  /** A location that resolution yields has a directory for parent. */
  lemma {:induction false} ReachedParentIsDir(fs: FS, root: Path, rel: seq<string>, follow: bool, budget: nat)
    requires Proper(rel) && NoSymlinkOnTheWay(fs, root, rel) && rel != []
    requires Resolve(fs, root, rel, follow, budget).At?
    ensures IsDir(fs, root + Parent(rel))
    decreases |rel|
  {
    var p := root + [rel[0]];
    assert p == root + rel[..1];
    if |rel| == 1 {
      assert root + Parent(rel) == root;
    } else {
      forall i | 0 < i <= |rel[1..]| ensures !IsSymlink(fs, p + rel[1..][..i]) {
        assert p + rel[1..][..i] == root + rel[..i + 1];
      }
      ReachedParentIsDir(fs, p, rel[1..], follow, budget);
      assert p + Parent(rel[1..]) == root + Parent(rel);
    }
  }

  /** Where a checked path leads, when it leads anywhere. */
  lemma PlainTarget(fs: FS, base: Path, rel: seq<string>, follow: bool)
    requires Good(fs, base) && Proper(rel) && NoSymlinkOnTheWay(fs, base, rel)
    requires Resolve(fs, base, rel, follow, MAX_SYMLINKS).At?
    ensures Resolve(fs, base, rel, follow, MAX_SYMLINKS).path == base + rel && base <= base + rel
    ensures base + rel !in fs.nodes ==> base + rel != base && IsDir(fs, Parent(base + rel))
  {
    hide Good, Resolve;
    PlainPathsStay(fs, base, rel, follow, MAX_SYMLINKS);
    assert IsDir(fs, base) by { GoodBase(fs, base); }
    if base + rel !in fs.nodes {
      assert base + [] == base;
      ReachedParentIsDir(fs, base, rel, follow, MAX_SYMLINKS);
      assert Parent(base + rel) == base + Parent(rel);
    }
  }

  lemma GoodBase(fs: FS, base: Path)
    requires Good(fs, base)
    ensures Tree(fs) && IsDir(fs, base)
  {}

  lemma ConfinedGood(a: FS, b: FS, base: Path, overwrite: bool)
    requires Confined(a, b, base, overwrite)
    ensures Good(b, base)
  {}

  lemma MkdirConfined(fs: FS, base: Path, rel: seq<string>, works: bool, overwrite: bool)
    requires Good(fs, base) && Proper(rel) && NoSymlinkOnTheWay(fs, base, rel)
    ensures Confined(fs, Mkdir(fs, base, rel, works).0, base, overwrite)
    ensures var b := Mkdir(fs, base, rel, works).0;
            b == fs || (b == fs.(nodes := fs.nodes[base + rel := Dir]) && base + rel !in fs.nodes)
  {
    hide Good, Confined, Resolve, NoSymlinkOnTheWay;
    var b := Mkdir(fs, base, rel, works).0;
    if b != fs {
      PlainTarget(fs, base, rel, false);
      NewNameConfined(fs, b, base, base + rel, Dir, overwrite);
    } else {
      ConfinedRefl(fs, base, overwrite);
    }
  }

  /** MkdirAll makes directories on the way, and nothing else. */
  ghost predicate OnlyDirsAdded(a: FS, b: FS, base: Path, rel: seq<string>) {
    && b.contents == a.contents && b.next == a.next
    && (forall p :: p in a.nodes ==> p in b.nodes && b.nodes[p] == a.nodes[p])
    && (forall p :: p in b.nodes && p !in a.nodes ==> b.nodes[p].Dir? && p <= base + rel)
  }

  lemma OnlyDirsPlain(a: FS, b: FS, base: Path, rel: seq<string>, longer: seq<string>)
    requires OnlyDirsAdded(a, b, base, rel) && NoSymlinkOnTheWay(a, base, longer)
    ensures NoSymlinkOnTheWay(b, base, longer)
  {}

  lemma PrefixPlain(fs: FS, base: Path, rel: seq<string>)
    requires Proper(rel) && NoSymlinkOnTheWay(fs, base, rel)
    ensures Proper(Parent(rel)) && NoSymlinkOnTheWay(fs, base, Parent(rel))
  {
    assert forall i :: 0 < i <= |Parent(rel)| ==> Parent(rel)[..i] == rel[..i];
  }

  lemma OnlyDirsStep(a: FS, b: FS, c: FS, base: Path, rel: seq<string>)
    requires rel != [] && OnlyDirsAdded(a, b, base, Parent(rel))
    requires c == b || (c == b.(nodes := b.nodes[base + rel := Dir]) && (base + rel in b.nodes ==> b.nodes[base + rel] == Dir))
    ensures OnlyDirsAdded(a, c, base, rel)
  {}

  lemma OnlyDirsRefl(a: FS, base: Path, rel: seq<string>)
    ensures OnlyDirsAdded(a, a, base, rel)
  {}

  lemma {:induction false} MkdirAllConfined(fs: FS, base: Path, rel: seq<string>, works: seq<string> -> bool, overwrite: bool)
    requires Good(fs, base) && Proper(rel) && NoSymlinkOnTheWay(fs, base, rel)
    ensures Confined(fs, MkdirAll(fs, base, rel, works).0, base, overwrite)
    ensures OnlyDirsAdded(fs, MkdirAll(fs, base, rel, works).0, base, rel)
    decreases |rel|
  {
    hide Good, Confined, Resolve, Lstat, NoSymlinkOnTheWay, Proper, Mkdir, StatFollow, OnlyDirsAdded;
    ConfinedRefl(fs, base, overwrite);
    OnlyDirsRefl(fs, base, rel);
    if !StatFollow(fs, base, rel).Found? && rel != [] {
      PrefixPlain(fs, base, rel);
      MkdirAllConfined(fs, base, Parent(rel), works, overwrite);
      var fs1 := MkdirAll(fs, base, Parent(rel), works).0;
      ConfinedGood(fs, fs1, base, overwrite);
      OnlyDirsPlain(fs, fs1, base, Parent(rel), rel);
      MkdirConfined(fs1, base, rel, works(rel), overwrite);
      ConfinedTrans(fs, fs1, Mkdir(fs1, base, rel, works(rel)).0, base, overwrite);
      OnlyDirsStep(fs, fs1, fs1, base, rel);
      OnlyDirsStep(fs, fs1, Mkdir(fs1, base, rel, works(rel)).0, base, rel);
    }
  }

  /** A file may be created or, when overwriting, emptied: only below the destination. */
  lemma OpenConfined(fs: FS, base: Path, rel: seq<string>, overwrite: bool)
    requires Good(fs, base) && Proper(rel) && NoSymlinkOnTheWay(fs, base, rel)
    requires overwrite || base + rel !in fs.nodes
    ensures var (b, inode) := OpenTrunc(fs, base, rel);
            && Confined(fs, b, base, overwrite)
            && (inode.Some? ==> IsFile(b, base + rel) && b.nodes[base + rel].inode == inode.value)
            && (inode.Some? && !overwrite ==> inode.value !in fs.contents)
  {
    hide Confined, Resolve, NoSymlinkOnTheWay, NoCrossingLinks;
    var (b, inode) := OpenTrunc(fs, base, rel);
    if Resolve(fs, base, rel, true, MAX_SYMLINKS).At? {
      PlainTarget(fs, base, rel, true);
      if base + rel !in fs.nodes {
        NewNameConfined(fs, b, base, base + rel, File(fs.next), overwrite);
      } else if fs.nodes[base + rel].File? {
        WriteConfined(fs, base, base + rel, []);
      } else {
        ConfinedRefl(fs, base, overwrite);
      }
    } else {
      ConfinedRefl(fs, base, overwrite);
    }
  }

  /** Writing to a file that has a name inside changes no file that has a name outside. */
  lemma WriteConfined(fs: FS, base: Path, p: Path, data: Bytes)
    requires Good(fs, base) && base <= p && IsFile(fs, p)
    ensures Confined(fs, WriteInode(fs, fs.nodes[p].inode, data), base, true)
  {}

  lemma ExtractFileConfined(fs: FS, base: Path, rel: seq<string>, data: Bytes, overwrite: bool, fate: Fate)
    requires Good(fs, base) && Proper(rel) && NoSymlinkOnTheWay(fs, base, rel)
    ensures Confined(fs, ExtractFile(fs, base, rel, data, overwrite, fate).fs, base, overwrite)
  {
    hide Good, Confined, Resolve, NoSymlinkOnTheWay, Proper, MkdirAll, OpenTrunc;
    ConfinedRefl(fs, base, overwrite);
    if overwrite || !Lstat(fs, base, rel).Found? {
      PrefixPlain(fs, base, rel);
      MkdirAllConfined(fs, base, Parent(rel), fate.mkdir, overwrite);
      var fs1 := if rel == [] then fs else MkdirAll(fs, base, Parent(rel), fate.mkdir).0;
      ConfinedGood(fs, fs1, base, overwrite);
      if rel != [] { OnlyDirsPlain(fs, fs1, base, Parent(rel), rel); }
      if !overwrite { AbsentTarget(fs, fs1, base, rel); }
      OpenConfined(fs1, base, rel, overwrite);
      var (fs2, inode) := OpenTrunc(fs1, base, rel);
      ConfinedTrans(fs, fs1, fs2, base, overwrite);
      if inode.Some? {
        var n := if fate.copied < |data| then fate.copied else |data|;
        ConfinedGood(fs1, fs2, base, overwrite);
        WriteNewConfined(fs1, fs2, base, base + rel, data[..n], overwrite);
        ConfinedTrans(fs, fs1, WriteInode(fs2, inode.value, data[..n]), base, overwrite);
      }
    }
  }

  /** Lstat having found nothing, the place is still free after its parents were made. */
  lemma AbsentTarget(fs: FS, fs1: FS, base: Path, rel: seq<string>)
    requires Good(fs, base) && Proper(rel) && NoSymlinkOnTheWay(fs, base, rel) && !Lstat(fs, base, rel).Found?
    requires if rel == [] then fs1 == fs else OnlyDirsAdded(fs, fs1, base, Parent(rel))
    ensures base + rel !in fs1.nodes
  {
    hide Resolve, NoCrossingLinks, NoSymlinkOnTheWay;
    if rel == [] {
      assert base + rel == base;
      RootResolves(fs, base);
    } else if base + rel in fs.nodes {
      assert Parent(base + rel) == base + rel[..|rel| - 1];
      NamesReachTheirNode(fs, base, rel, false, MAX_SYMLINKS);
    }
  }

  lemma RootResolves(fs: FS, base: Path)
    ensures Resolve(fs, base, [], false, MAX_SYMLINKS) == At(base)
  {}

  /** Filling a file just opened. */
  lemma WriteNewConfined(a: FS, b: FS, base: Path, p: Path, data: Bytes, overwrite: bool)
    requires Good(a, base) && Confined(a, b, base, overwrite) && base <= p && IsFile(b, p)
    requires !overwrite ==> b.nodes[p].inode !in a.contents
    ensures Confined(a, WriteInode(b, b.nodes[p].inode, data), base, overwrite)
  {
    var c := WriteInode(b, b.nodes[p].inode, data);
    WriteConfined(b, base, p, data);
    assert Good(c, base);
    forall q | IsFile(a, q) && !(base <= q) && a.nodes[q].inode in a.contents
      ensures a.nodes[q].inode in c.contents && c.contents[a.nodes[q].inode] == a.contents[a.nodes[q].inode]
    {
      assert IsFile(b, q);
    }
  }

  lemma SymlinkConfined(fs: FS, base: Path, rel: seq<string>, text: string, overwrite: bool)
    requires Good(fs, base) && Proper(rel) && NoSymlinkOnTheWay(fs, base, rel)
    ensures Confined(fs, MakeSymlink(fs, base, rel, text).0, base, overwrite)
  {
    hide Good, Confined, Resolve, NoSymlinkOnTheWay;
    var b := MakeSymlink(fs, base, rel, text).0;
    if b != fs {
      PlainTarget(fs, base, rel, false);
      NewNameConfined(fs, b, base, base + rel, Symlink(text), overwrite);
    } else {
      ConfinedRefl(fs, base, overwrite);
    }
  }

  lemma LinkConfined(fs: FS, base: Path, from: seq<string>, to: seq<string>, overwrite: bool)
    requires Good(fs, base) && Proper(to) && NoSymlinkOnTheWay(fs, base, to)
    requires Proper(from) && NoSymlinkOnTheWay(fs, base, from)
    ensures Confined(fs, MakeLink(fs, base, from, to).0, base, overwrite)
  {
    hide Confined, Resolve, NoSymlinkOnTheWay, NoCrossingLinks;
    var b := MakeLink(fs, base, from, to).0;
    if b != fs {
      PlainTarget(fs, base, to, false);
      PlainTarget(fs, base, from, false);
      var node := fs.nodes[base + from];
      assert node.File? ==> node.inode != fs.next;
      NewNameConfined(fs, b, base, base + to, node, overwrite);
    } else {
      ConfinedRefl(fs, base, overwrite);
    }
  }

  // ----- Whole extractions -----

  lemma TarEntryConfined(fs: FS, base: Path, root: Path, rel: seq<string>, e: Entry, overwrite: bool)
    requires Good(fs, base) && Proper(root) && Proper(rel) && NoSymlinkOnTheWay(fs, base, rel)
    ensures Confined(fs, ExtractTarEntry(fs, base, root, rel, e, overwrite).fs, base, overwrite)
  {
    hide Good, Confined, Resolve, NoSymlinkOnTheWay, Proper, MkdirAll, MakeSymlink, MakeLink, ExtractFile,
         SafeArchivePath, RejectFrom, SymlinkAllowed;
    ConfinedRefl(fs, base, overwrite);
    match e.kind
    case Directory => MkdirAllConfined(fs, base, rel, e.fate.mkdir, overwrite);
    case Regular => ExtractFileConfined(fs, base, rel, e.data, overwrite, e.fate);
    case SymbolicLink => SymlinkConfined(fs, base, rel, e.linkname, overwrite);
    case HardLink =>
      var from := SafeArchivePath(root, e.linkname);
      if from.Some? && RejectFrom(fs, base, from.value, 0).None? {
        SafePathsAreProper(root, e.linkname);
        GoodBase(fs, base);
        CheckedPathsArePlain(fs, base, from.value);
        LinkConfined(fs, base, from.value, rel, overwrite);
      }
    case Other =>
    case Corrupt =>
  }

  /** Over every archive and every tree in which no hard link crosses the destination's border:
      extraction changes nothing outside the destination and creates no crossing link; and when
      it does not overwrite, every file that existed keeps its contents. Whether it succeeds, is
      refused, or fails half way makes no difference. */
  lemma {:induction false} TarStaysInside(fs: FS, base: Path, root: Path, entries: seq<Entry>, overwrite: bool,
                                          count: nat, total: nat)
    requires Good(fs, base) && Proper(root)
    ensures Confined(fs, ExtractTar(fs, base, root, entries, overwrite, count, total).fs, base, overwrite)
    decreases |entries|
  {
    hide Good, Confined, Proper, NoSymlinkOnTheWay, RejectFrom, SafeArchivePath, ExtractTarEntry;
    ConfinedRefl(fs, base, overwrite);
    if entries != [] && SafeArchivePath(root, entries[0].name).Some? {
      var e, rel := entries[0], SafeArchivePath(root, entries[0].name).value;
      if RejectFrom(fs, base, rel, 0).None? {
        SafePathsAreProper(root, e.name);
        GoodBase(fs, base);
        CheckedPathsArePlain(fs, base, rel);
        TarEntryConfined(fs, base, root, rel, e, overwrite);
        var w := ExtractTarEntry(fs, base, root, rel, e, overwrite);
        ConfinedGood(fs, w.fs, base, overwrite);
        TarStaysInside(fs, base, root, entries[1..], overwrite, count, total);
        TarStaysInside(w.fs, base, root, entries[1..], overwrite, count + 1, total + w.bytes);
        ConfinedTrans(fs, w.fs, ExtractTar(w.fs, base, root, entries[1..], overwrite, count + 1, total + w.bytes).fs,
                      base, overwrite);
      }
    }
  }

  /** One entry of a ZIP archive: confined, and the last one or followed by the rest. */
  lemma ZipStep(fs: FS, base: Path, root: Path, entries: seq<Entry>, overwrite: bool, count: nat, total: nat)
    returns (b: FS, c: nat, t: nat)
    requires Good(fs, base) && Proper(root) && entries != []
    ensures Confined(fs, b, base, overwrite)
    ensures var after := ExtractZip(fs, base, root, entries, overwrite, count, total).fs;
            after == b || after == ExtractZip(b, base, root, entries[1..], overwrite, c, t).fs
  {
    hide Good, Confined, Proper, NoSymlinkOnTheWay, RejectFrom, SafeArchivePath, MkdirAll, ExtractFile;
    ConfinedRefl(fs, base, overwrite);
    var e, rel := entries[0], SafeArchivePath(root, entries[0].name);
    b, c, t := fs, count, total;
    if rel.Some? && RejectFrom(fs, base, rel.value, 0).None? {
      SafePathsAreProper(root, e.name);
      GoodBase(fs, base);
      CheckedPathsArePlain(fs, base, rel.value);
      if e.kind.Directory? {
        MkdirAllConfined(fs, base, rel.value, e.fate.mkdir, overwrite);
        b := MkdirAll(fs, base, rel.value, e.fate.mkdir).0;
      } else {
        ExtractFileConfined(fs, base, rel.value, e.data, overwrite, e.fate);
        var w := ExtractFile(fs, base, rel.value, e.data, overwrite, e.fate);
        b, c, t := w.fs, count + 1, total + w.bytes;
      }
    }
  }

  lemma {:induction false} ZipStaysInside(fs: FS, base: Path, root: Path, entries: seq<Entry>, overwrite: bool,
                                          count: nat, total: nat)
    requires Good(fs, base) && Proper(root)
    ensures Confined(fs, ExtractZip(fs, base, root, entries, overwrite, count, total).fs, base, overwrite)
    decreases |entries|
  {
    hide Good, Confined, Proper;
    if entries == [] {
      ConfinedRefl(fs, base, overwrite);
    } else {
      hide ExtractZip;
      var b, c, t := ZipStep(fs, base, root, entries, overwrite, count, total);
      ConfinedGood(fs, b, base, overwrite);
      ZipStaysInside(b, base, root, entries[1..], overwrite, c, t);
      ConfinedTrans(fs, b, ExtractZip(b, base, root, entries[1..], overwrite, c, t).fs, base, overwrite);
    }
  }

  predicate SameContents(a: FS, b: FS, i: Inode) { i in a.contents && i in b.contents && b.contents[i] == a.contents[i] }

  /** The same, in the words of one location: a location outside names after any extraction what
      it named before, with the contents it had. */
  lemma NothingOutsideChanges(fs: FS, base: Path, root: Path, entries: seq<Entry>, overwrite: bool, p: Path)
    requires Good(fs, base) && Proper(root) && !(base <= p)
    ensures var b := ExtractTar(fs, base, root, entries, overwrite, 0, 0).fs;
            && (p in b.nodes <==> p in fs.nodes)
            && (p in fs.nodes ==> b.nodes[p] == fs.nodes[p])
            && (IsFile(fs, p) ==> SameContents(fs, b, fs.nodes[p].inode))
  {
    hide ExtractTar;
    TarStaysInside(fs, base, root, entries, overwrite, 0, 0);
  }

  /** Without overwriting, every location that existed, inside or outside, is untouched. */
  lemma NothingThatExistedChanges(fs: FS, base: Path, root: Path, entries: seq<Entry>, p: Path)
    requires Good(fs, base) && Proper(root) && p in fs.nodes
    ensures var b := ExtractTar(fs, base, root, entries, false, 0, 0).fs;
            && p in b.nodes && b.nodes[p] == fs.nodes[p]
            && (IsFile(fs, p) ==> SameContents(fs, b, fs.nodes[p].inode))
  {
    hide ExtractTar;
    TarStaysInside(fs, base, root, entries, false, 0, 0);
  }
}
