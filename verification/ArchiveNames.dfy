/** What a name in an archive means: which place below the destination each text stands for. */
module ArchiveNames {
  import opened Common
  import opened Text
  import opened FileTree
  import opened Archive

  /** Components with a slash between each two. */
  function Joined(parts: seq<string>): string {
    if parts == [] then "" else if |parts| == 1 then parts[0] else parts[0] + ['/'] + Joined(parts[1..])
  }

  predicate NoSlash(part: string) { '/' !in part && '\\' !in part }

  predicate NoSlashes(parts: seq<string>) { forall i :: 0 <= i < |parts| ==> NoSlash(parts[i]) }

  predicate DrivePrefix(part: string) { |part| >= 2 && IsLetter(part[0]) && part[1] == ':' }

  /** Components an archive can name directly. */
  predicate Plain(rel: seq<string>) {
    Proper(rel) && NoSlashes(rel) && (rel != [] ==> !DrivePrefix(rel[0]))
  }

  // ----- Absolute names -----

  /** A name is absolute exactly when it starts with a slash of either kind or with a drive letter. */
  lemma AbsoluteExactly(name: string)
    ensures AbsoluteName(name) <==> (name != "" && (name[0] == '/' || name[0] == '\\')) || DrivePrefix(name)
  {
    if name != "" { assert Slashes(name)[0] == if name[0] == '\\' then '/' else name[0]; }
    if |name| >= 2 { assert Slashes(name)[1] == if name[1] == '\\' then '/' else name[1]; }
  }

  /** Backslashes are slashes. */
  lemma BackslashesAreSlashes(root: Path, name: string, other: string)
    requires Slashes(name) == Slashes(other)
    ensures SafeArchivePath(root, name) == SafeArchivePath(root, other)
  {
    assert "/" <= name ==> "/" <= Slashes(name);
    assert "/" <= other ==> "/" <= Slashes(other);
  }

  // ----- Joining and splitting -----

  lemma {:induction false} JoinedSplits(parts: seq<string>)
    requires parts != [] && forall i :: 0 <= i < |parts| ==> '/' !in parts[i]
    ensures Split(Joined(parts), '/') == parts
    decreases |parts|
  {
    hide Split;
    if |parts| == 1 {
      SplitNone(parts[0], '/');
    } else {
      assert forall i :: 0 <= i < |parts[1..]| ==> parts[1..][i] == parts[i + 1];
      JoinedSplits(parts[1..]);
      SplitFirst(parts[0], '/', Joined(parts[1..]));
      assert parts == [parts[0]] + parts[1..];
    }
  }

  lemma SplitNone(s: string, c: char)
    requires c !in s
    ensures Split(s, c) == [s]
  {}

  lemma {:induction false} JoinedHasNoBackslash(parts: seq<string>)
    requires NoSlashes(parts)
    ensures '\\' !in Joined(parts)
    decreases |parts|
  {
    if parts != [] {
      assert forall i :: 0 <= i < |parts[1..]| ==> parts[1..][i] == parts[i + 1];
      assert NoSlash(parts[0]);
      JoinedHasNoBackslash(parts[1..]);
    }
  }

  lemma SlashesOfPlain(name: string)
    requires '\\' !in name
    ensures Slashes(name) == name
  {}

  lemma JoinedStarts(parts: seq<string>)
    requires parts != [] && parts[0] != ""
    ensures var name := Joined(parts);
            && name != "" && name[0] == parts[0][0]
            && (|name| >= 2 && name[1] == ':' ==> |parts[0]| >= 2 && parts[0][1] == ':')
  {}

  /** The components of a joined name. */
  lemma PartsOfJoined(parts: seq<string>)
    requires parts != [] && NoSlashes(parts)
    ensures Split(Slashes(Joined(parts)), '/') == parts
  {
    forall i | 0 <= i < |parts| ensures '/' !in parts[i] { assert NoSlash(parts[i]); }
    JoinedSplits(parts);
    JoinedHasNoBackslash(parts);
    SlashesOfPlain(Joined(parts));
  }

  // ----- Cleaning -----

  lemma {:induction false} CleanAfter(stack: Path, a: seq<string>, b: seq<string>)
    ensures Clean(stack, a + b) == Clean(Clean(stack, a), b)
    decreases |a|
  {
    if a == [] {
      assert a + b == b;
    } else {
      assert (a + b)[0] == a[0] && (a + b)[1..] == a[1..] + b;
      CleanAfter(stack, a[1..], b);
      CleanAfter(Parent(stack), a[1..], b);
      CleanAfter(stack + [a[0]], a[1..], b);
    }
  }

  lemma {:induction false} CleanOfProper(stack: Path, parts: seq<string>)
    requires Proper(parts)
    ensures Clean(stack, parts) == stack + parts
    decreases |parts|
  {
    if parts == [] {
      assert stack + parts == stack;
    } else {
      assert Proper(parts[1..]);
      CleanOfProper(stack + [parts[0]], parts[1..]);
      assert stack + [parts[0]] + parts[1..] == stack + parts;
    }
  }

  function Ups(k: nat): seq<string> { seq(k, i => "..") }

  /** `k` levels up, and no further than the top. */
  function Above(p: Path, k: nat): Path { if k >= |p| then [] else p[..|p| - k] }

  lemma {:induction false} CleanOfUps(stack: Path, k: nat)
    ensures Clean(stack, Ups(k)) == Above(stack, k)
    decreases k
  {
    if k > 0 {
      assert Ups(k)[1..] == Ups(k - 1);
      CleanOfUps(Parent(stack), k - 1);
    }
  }

  // ----- Where a name leads -----

  /** A name made of components that name something stands for exactly those components, in their order. */
  lemma PlainNamesAreTheirPlace(root: Path, rel: seq<string>)
    requires Plain(rel)
    ensures SafeArchivePath(root, Joined(rel)) == Some(rel)
  {
    AbsoluteExactly(Joined(rel));
    if rel == [] {
      assert Slashes("") == "" && Split("", '/') == [""];
      assert Clean(root, [""]) == Clean(root, [""][1..]) == root;
      assert root[|root|..] == [];
    } else {
      JoinedStarts(rel);
      assert NoSlash(rel[0]);
      PartsOfJoined(rel);
      CleanOfProper(root, rel);
      assert (root + rel)[|root|..] == rel;
    }
  }

  /** A component that is empty or "." changes nothing, wherever it stands. */
  lemma DotsChangeNothing(root: Path, name: string, other: string, a: seq<string>, dot: string, b: seq<string>)
    requires !AbsoluteName(name) && !AbsoluteName(other) && (dot == "" || dot == ".")
    requires Split(Slashes(name), '/') == a + [dot] + b && Split(Slashes(other), '/') == a + b
    ensures SafeArchivePath(root, name) == SafeArchivePath(root, other)
  {
    CleanAfter(root, a, [dot] + b);
    CleanAfter(root, a, b);
    assert a + [dot] + b == a + ([dot] + b) && ([dot] + b)[1..] == b;
  }

  /** A component followed by ".." drops out, wherever the two stand. */
  lemma UpUndoesDown(root: Path, name: string, other: string, a: seq<string>, down: string, b: seq<string>)
    requires !AbsoluteName(name) && !AbsoluteName(other) && Proper([down])
    requires Split(Slashes(name), '/') == a + [down, ".."] + b && Split(Slashes(other), '/') == a + b
    ensures SafeArchivePath(root, name) == SafeArchivePath(root, other)
  {
    var tail := [down, ".."] + b;
    CleanAfter(root, a, tail);
    CleanAfter(root, a, b);
    assert a + [down, ".."] + b == a + tail;
    DownAndUp(Clean(root, a), down, b);
    hide Clean, Slashes, Split;
  }

  lemma DownAndUp(stack: Path, down: string, b: seq<string>)
    requires Proper([down])
    ensures Clean(stack, [down, ".."] + b) == Clean(stack, b)
  {
    var tail := [down, ".."] + b;
    assert [down][0] != "" && [down][0] != "." && [down][0] != "..";
    assert tail[1..][1..] == b && tail[1..][0] == "..";
    assert Clean(stack, tail) == Clean(stack + [down], tail[1..]);
    assert Parent(stack + [down]) == stack;
  }

  /** A name that climbs first leads `rel` below the place `k` levels above the destination, and is refused
      exactly when that is not in the destination. */
  lemma ClimbingNames(root: Path, name: string, k: nat, rel: seq<string>)
    requires !AbsoluteName(name) && Proper(rel) && Split(Slashes(name), '/') == Ups(k) + rel
    ensures var target := Above(root, k) + rel;
            SafeArchivePath(root, name) == if root <= target then Some(target[|root|..]) else None
  {
    CleanAfter(root, Ups(k), rel);
    CleanOfUps(root, k);
    CleanOfProper(Above(root, k), rel);
  }

  /** A link that climbs `k` levels from its own directory and then goes down `to` is allowed exactly when
      that is in the destination; so climbing no further than the destination always is. */
  lemma LinksAllowedExactly(root: Path, rel: seq<string>, linkname: string, k: nat, to: seq<string>)
    requires Proper(to) && Split(Slashes(linkname), '/') == Ups(k) + to
    ensures SymlinkAllowed(root, rel, linkname)
            <==> !AbsoluteName(linkname) && root <= Above(Parent(root + rel), k) + to
    ensures !AbsoluteName(linkname) && k < |rel| ==> SymlinkAllowed(root, rel, linkname)
  {
    var dir := Parent(root + rel);
    CleanAfter(dir, Ups(k), to);
    CleanOfUps(dir, k);
    CleanOfProper(Above(dir, k), to);
    if k < |rel| {
      assert Above(dir, k) == root + rel[..|rel| - 1 - k];
      assert root + rel[..|rel| - 1 - k] + to == root + (rel[..|rel| - 1 - k] + to);
    }
  }
}
