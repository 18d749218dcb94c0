/** A filesystem tree with directories, symbolic links and hard links, and the system calls the
    archive code makes. Paths are resolved the way the kernel does it, following symbolic links. */
module FileTree {
  import opened Common
  import opened Text

  /** A physical location: the components below "/". */
  type Path = seq<string>
  type Inode = nat

  datatype Node = Dir | File(inode: Inode) | Symlink(text: string)

  datatype FS = FS(nodes: map<Path, Node>, contents: map<Inode, Bytes>, next: Inode)

  const MAX_SYMLINKS := 40

  /** Where a path leads: a location whose parent is a directory, or why there is none. */
  datatype Walk = At(path: Path) | Missing | NotDir | TooManyLinks

  predicate IsDir(fs: FS, p: Path) { p in fs.nodes && fs.nodes[p].Dir? }
  predicate IsSymlink(fs: FS, p: Path) { p in fs.nodes && fs.nodes[p].Symlink? }
  predicate IsFile(fs: FS, p: Path) { p in fs.nodes && fs.nodes[p].File? }

  function Parent(p: Path): Path { if p == [] then [] else p[..|p| - 1] }

  /** Resolves `rest` from directory `cur`; the last component is followed only if `follow`. */
  function Resolve(fs: FS, cur: Path, rest: seq<string>, follow: bool, budget: nat): Walk
    decreases budget, |rest|
  {
    if rest == [] then At(cur)
    else if cur !in fs.nodes then Missing
    else if !fs.nodes[cur].Dir? then NotDir
    else if rest[0] == "" || rest[0] == "." then Resolve(fs, cur, rest[1..], follow, budget)
    else if rest[0] == ".." then Resolve(fs, Parent(cur), rest[1..], follow, budget)
    else
      var p := cur + [rest[0]];
      if IsSymlink(fs, p) && (|rest| > 1 || follow) then
        if budget == 0 then TooManyLinks
        else
          var text := fs.nodes[p].text;
          Resolve(fs, if "/" <= text then [] else cur, Split(text, '/') + rest[1..], follow, budget - 1)
      else if |rest| == 1 then At(p)
      else if p !in fs.nodes then Missing
      else Resolve(fs, p, rest[1..], follow, budget)
  }

  // ----- System calls on paths below a directory `root` -----

  datatype Stat = Found(node: Node) | NotExist | StatError

  function StatAt(fs: FS, w: Walk): Stat {
    match w
    case At(p) => if p in fs.nodes then Found(fs.nodes[p]) else NotExist
    case Missing => NotExist
    case NotDir => StatError
    case TooManyLinks => StatError
  }

  function Lstat(fs: FS, root: Path, rel: seq<string>): Stat {
    StatAt(fs, Resolve(fs, root, rel, false, MAX_SYMLINKS))
  }

  function StatFollow(fs: FS, root: Path, rel: seq<string>): Stat {
    StatAt(fs, Resolve(fs, root, rel, true, MAX_SYMLINKS))
  }

  /** mkdir; `works` says whether the call meets no device fault. */
  function Mkdir(fs: FS, root: Path, rel: seq<string>, works: bool): (FS, bool) {
    var w := Resolve(fs, root, rel, false, MAX_SYMLINKS);
    if !works || !w.At? || w.path in fs.nodes then (fs, false)
    else (fs.(nodes := fs.nodes[w.path := Dir]), true)
  }

  /** os.MkdirAll: missing parents first. A path that cannot be made is fine if it is a directory. */
  function MkdirAll(fs: FS, root: Path, rel: seq<string>, works: seq<string> -> bool): (FS, bool)
    decreases |rel|
  {
    var found := StatFollow(fs, root, rel);
    if found.Found? then (fs, found.node.Dir?)
    else if rel == [] then (fs, false)
    else
      var (fs1, ok) := MkdirAll(fs, root, rel[..|rel| - 1], works);
      if !ok then (fs1, false)
      else
        var (fs2, made) := Mkdir(fs1, root, rel, works(rel));
        (fs2, made || Lstat(fs2, root, rel) == Found(Dir))
  }

  /** open with O_CREATE|O_TRUNC|O_WRONLY: the inode opened, emptied. */
  function OpenTrunc(fs: FS, root: Path, rel: seq<string>): (FS, Option<Inode>) {
    var w := Resolve(fs, root, rel, true, MAX_SYMLINKS);
    if !w.At? then (fs, None)
    else if w.path in fs.nodes then
      match fs.nodes[w.path]
      case File(i) => (fs.(contents := fs.contents[i := []]), Some(i))
      case _ => (fs, None)
    else
      (fs.(nodes := fs.nodes[w.path := File(fs.next)], contents := fs.contents[fs.next := []], next := fs.next + 1),
       Some(fs.next))
  }

  function WriteInode(fs: FS, i: Inode, data: Bytes): FS {
    fs.(contents := fs.contents[i := data])
  }

  function MakeSymlink(fs: FS, root: Path, rel: seq<string>, text: string): (FS, bool) {
    var w := Resolve(fs, root, rel, false, MAX_SYMLINKS);
    if !w.At? || w.path in fs.nodes then (fs, false)
    else (fs.(nodes := fs.nodes[w.path := Symlink(text)]), true)
  }

  /** link: neither end is followed, directories cannot be linked. */
  function MakeLink(fs: FS, root: Path, from: seq<string>, to: seq<string>): (FS, bool) {
    var source := Resolve(fs, root, from, false, MAX_SYMLINKS);
    var w := Resolve(fs, root, to, false, MAX_SYMLINKS);
    if !source.At? || !w.At? || source.path !in fs.nodes || fs.nodes[source.path].Dir? || w.path in fs.nodes
    then (fs, false)
    else (fs.(nodes := fs.nodes[w.path := fs.nodes[source.path]]), true)
  }

  // ----- Well-formed trees -----

  ghost predicate Tree(fs: FS) {
    && (forall p :: p in fs.nodes && p != [] ==> IsDir(fs, Parent(p)))
    && (forall p :: IsFile(fs, p) ==> fs.nodes[p].inode in fs.contents)
    && (forall i :: i in fs.contents ==> i < fs.next)
  }

  /** Components that name something: not empty, not "." and not "..". */
  predicate Proper(rel: seq<string>) {
    forall i :: 0 <= i < |rel| ==> rel[i] != "" && rel[i] != "." && rel[i] != ".."
  }

  ghost predicate NoSymlinkOnTheWay(fs: FS, root: Path, rel: seq<string>) {
    forall i :: 0 < i <= |rel| ==> !IsSymlink(fs, root + rel[..i])
  }

  /** Without symbolic links on the way, a path below `root` can lead nowhere else. */
  lemma {:induction false} PlainPathsStay(fs: FS, root: Path, rel: seq<string>, follow: bool, budget: nat)
    requires Proper(rel) && NoSymlinkOnTheWay(fs, root, rel)
    ensures Resolve(fs, root, rel, follow, budget).At? ==> Resolve(fs, root, rel, follow, budget).path == root + rel
    ensures Resolve(fs, root, rel, follow, budget) != TooManyLinks
    decreases |rel|
  {
    if rel != [] {
      var p := root + [rel[0]];
      assert p == root + rel[..1];
      forall i | 0 < i <= |rel[1..]| ensures !IsSymlink(fs, p + rel[1..][..i]) {
        assert p + rel[1..][..i] == root + rel[..i + 1];
      }
      PlainPathsStay(fs, p, rel[1..], follow, budget);
      assert p + rel[1..] == root + rel;
    } else {
      assert root + rel == root;
    }
  }

  /** In a tree, a location whose parent is a directory is reached by its own name. */
  lemma {:induction false} NamesReachTheirNode(fs: FS, root: Path, rel: seq<string>, follow: bool, budget: nat)
    requires Tree(fs) && Proper(rel) && rel != [] && IsDir(fs, root + rel[..|rel| - 1])
    requires !follow || !IsSymlink(fs, root + rel)
    ensures Resolve(fs, root, rel, follow, budget) == At(root + rel)
    decreases |rel|
  {
    hide Tree;
    var p := root + [rel[0]];
    var parent := root + rel[..|rel| - 1];
    assert IsDir(fs, root) by {
      AncestorIsDir(fs, parent, |root|);
      assert parent[..|root|] == root;
    }
    if |rel| == 1 {
      assert p == root + rel;
    } else {
      assert IsDir(fs, p) by {
        AncestorIsDir(fs, parent, |root| + 1);
        assert parent[..|root| + 1] == p;
      }
      assert p + rel[1..] == root + rel;
      assert p + rel[1..][..|rel| - 2] == parent;
      assert Proper(rel[1..]);
      NamesReachTheirNode(fs, p, rel[1..], follow, budget);
      assert Resolve(fs, root, rel, follow, budget) == Resolve(fs, p, rel[1..], follow, budget);
    }
  }

  lemma {:induction false} AncestorIsDir(fs: FS, p: Path, n: nat)
    requires Tree(fs) && IsDir(fs, p) && n <= |p|
    ensures IsDir(fs, p[..n])
    decreases |p|
  {
    if n < |p| {
      AncestorIsDir(fs, Parent(p), n);
      assert Parent(p)[..n] == p[..n];
    } else {
      assert p[..n] == p;
    }
  }
}
