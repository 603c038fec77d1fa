/** A file tree with symbolic links, and the resolution of the links along a path. */
module FileTree {
  import opened PathNames

  /** `Unreadable` is what cannot be looked at, for a reason other than being absent. */
  datatype Node = Directory | Regular | Special | Link(target: string) | Unreadable

  /** The tree, by physical path; the root itself is always a directory. */
  type Tree = map<Path, Node>

  const MAX_LINKS: nat := 255

  predicate IsDirectory(t: Tree, p: Path) {
    p == [] || (p in t && t[p].Directory?)
  }

  /** The path of something other than a link. */
  predicate Physical(t: Tree, p: Path) {
    IsDirectory(t, p) || (p in t && (t[p].Regular? || t[p].Special?))
  }

  ghost predicate WellFormed(t: Tree) {
    forall p :: p in t ==> p != [] && IsClean(p) && IsDirectory(t, Parent(p))
  }

  /** The end of a walk along `todo` from a directory, and the links followed so far. */
  datatype Walked = At(path: Path, links: nat) | Missing | Broken

  function Walk(t: Tree, dir: Path, todo: seq<string>, links: nat): Walked
    requires links <= MAX_LINKS
    decreases MAX_LINKS - links, |todo|
  {
    if todo == [] then At(dir, links)
    else if todo[0] == "" || todo[0] == "." then Walk(t, dir, todo[1..], links)
    else if todo[0] == ".." then Walk(t, Parent(dir), todo[1..], links)
    else
      var next := dir + [todo[0]];
      if next !in t then Missing
      else
        match t[next]
        case Directory => Walk(t, next, todo[1..], links)
        case Regular => if todo[1..] != [] then Broken else At(next, links)
        case Special => if todo[1..] != [] then Broken else At(next, links)
        case Unreadable => Broken
        case Link(target) =>
          if links == MAX_LINKS then Broken
          else Walk(t, LinkBase(dir, target), Split(target) + todo[1..], links + 1)
  }

  /** Where the target of a link in `dir` starts. */
  function LinkBase(dir: Path, target: string): Path {
    if target != "" && target[0] == '/' then [] else dir
  }

  datatype Outcome = Found(path: Path) | NotExist | Failed

  /** The physical path a path stands for. */
  function EvalSymlinks(t: Tree, p: Path): Outcome {
    match Walk(t, [], p, 0)
    case At(path, _) => Found(path)
    case Missing => NotExist
    case Broken => Failed
  }

  /** A walk ends at something that exists and is no link. */
  lemma {:induction false} WalkEndsPhysical(t: Tree, dir: Path, todo: seq<string>, links: nat)
    requires WellFormed(t) && IsDirectory(t, dir) && links <= MAX_LINKS
    ensures Walk(t, dir, todo, links).At? ==>
      Physical(t, Walk(t, dir, todo, links).path) && Walk(t, dir, todo, links).links <= MAX_LINKS
    decreases MAX_LINKS - links, |todo|
  {
    if todo != [] {
      if todo[0] == "" || todo[0] == "." {
        WalkEndsPhysical(t, dir, todo[1..], links);
      } else if todo[0] == ".." {
        WalkEndsPhysical(t, Parent(dir), todo[1..], links);
      } else {
        var next := dir + [todo[0]];
        if next in t {
          if t[next].Directory? {
            WalkEndsPhysical(t, next, todo[1..], links);
          } else if t[next].Link? && links < MAX_LINKS {
            var target := t[next].target;
            WalkEndsPhysical(t, LinkBase(dir, target), Split(target) + todo[1..], links + 1);
          }
        }
      }
    }
  }

  /** Walking along two lists of parts is walking along one after the other. */
  lemma {:induction false} WalkInTwo(t: Tree, dir: Path, a: seq<string>, b: seq<string>, links: nat)
    requires WellFormed(t) && IsDirectory(t, dir) && links <= MAX_LINKS && b != []
    ensures WalkInTwoHolds(t, dir, a, b, links)
    decreases MAX_LINKS - links, |a|
  {
    hide WellFormed, LinkBase, Split;
    var todo := a + b;
    if a == [] {
      assert todo == b;
    } else {
      assert todo[0] == a[0] && todo[1..] == a[1..] + b;
      if a[0] == "" || a[0] == "." {
        WalkInTwo(t, dir, a[1..], b, links);
      } else if a[0] == ".." {
        DirectoryAbove(t, dir);
        WalkInTwo(t, Parent(dir), a[1..], b, links);
      } else {
        WalkNameInTwo(t, dir, a, b, links);
      }
    }
  }

  lemma {:induction false} WalkNameInTwo(
      t: Tree, dir: Path, a: seq<string>, b: seq<string>, links: nat)
    requires WellFormed(t) && IsDirectory(t, dir) && links <= MAX_LINKS && b != []
    requires a != [] && a[0] != "" && a[0] != "." && a[0] != ".."
    ensures WalkInTwoHolds(t, dir, a, b, links)
    decreases MAX_LINKS - links, |a|, 0
  {
    hide WellFormed, LinkBase, Split;
    var next, rest := dir + [a[0]], a[1..];
    assert (a + b)[0] == a[0] && (a + b)[1..] == rest + b;
    if next in t {
      match t[next] {
        case Directory =>
          WalkInTwo(t, next, rest, b, links);
        case Link(target) =>
          if links < MAX_LINKS {
            DirectoryAbove(t, dir);
            WalkInTwo(t, LinkBase(dir, target), Split(target) + rest, b, links + 1);
            assert (Split(target) + rest) + b == Split(target) + (rest + b);
          }
        case Regular =>
        case Special =>
        case Unreadable =>
      }
    }
  }

  lemma DirectoryAbove(t: Tree, dir: Path)
    requires WellFormed(t) && IsDirectory(t, dir)
    ensures IsDirectory(t, Parent(dir))
    ensures forall target :: IsDirectory(t, LinkBase(dir, target))
  {
  }

  ghost predicate WalkInTwoHolds(t: Tree, dir: Path, a: seq<string>, b: seq<string>, links: nat)
    requires links <= MAX_LINKS
  {
    Walk(t, dir, a + b, links) ==
      match Walk(t, dir, a, links)
      case At(path, n) =>
        if IsDirectory(t, path) && n <= MAX_LINKS then Walk(t, path, b, n) else Broken
      case Missing => Missing
      case Broken => Broken
  }

  lemma {:induction false} WalkToDirectory(t: Tree, dir: Path, c: string, links: nat)
    requires WellFormed(t) && links <= MAX_LINKS
    ensures IsDirectory(t, dir + [c]) ==> Walk(t, dir, [c], links) == At(dir + [c], links)
  {
    if IsDirectory(t, dir + [c]) {
      assert (dir + [c])[|dir|] == c && c in dir + [c];
      assert [c][1..] == [];
    }
  }

  /** What precedes a name of a physical path is a directory. */
  lemma {:induction false} PhysicalPrefix(t: Tree, p: Path, k: nat)
    requires WellFormed(t) && Physical(t, p) && k < |p|
    ensures IsDirectory(t, p[..k])
    decreases |p|
  {
    if k < |p| - 1 {
      PhysicalPrefix(t, p[..|p| - 1], k);
      assert p[..|p| - 1][..k] == p[..k];
    }
  }

  /** A physical path stands for itself. */
  lemma {:induction false} PhysicalIsFixed(t: Tree, p: Path)
    requires WellFormed(t) && Physical(t, p)
    ensures EvalSymlinks(t, p) == Found(p) && IsClean(p)
  {
    WalkPhysical(t, p, 0);
    assert p[..0] == [] && p[0..] == p;
  }

  lemma {:induction false} WalkPhysical(t: Tree, p: Path, k: nat)
    requires WellFormed(t) && Physical(t, p) && k <= |p|
    ensures Walk(t, p[..k], p[k..], 0) == At(p, 0)
    decreases |p| - k
  {
    if k < |p| {
      assert IsClean(p) && p[k] in p;
      assert p[k..][0] == p[k] && p[k..][1..] == p[k + 1..] && p[..k] + [p[k]] == p[..k + 1];
      if k + 1 < |p| {
        PhysicalPrefix(t, p, k + 1);
      } else {
        assert p[..k + 1] == p;
      }
      WalkPhysical(t, p, k + 1);
    } else {
      assert p[..k] == p && p[k..] == [];
    }
  }

  // ---------- Trees without links ----------

  ghost predicate HasNoLinks(t: Tree) {
    forall p :: p in t ==> !t[p].Link?
  }

  /**
   Without links, walking along parts that may be empty, "." or ".." ends where the cleaned
   path says.
   */
  lemma {:induction false} WalkIsCleaned(t: Tree, dir: Path, parts: seq<string>, q: Path)
    requires WellFormed(t) && HasNoLinks(t) && IsDirectory(t, dir) && IsClean(dir)
    requires forall c <- parts :: '/' !in c
    requires Walk(t, dir, parts, 0) == At(q, 0)
    ensures Cleaned(dir, parts) == q
    decreases |parts|
  {
    if parts != [] {
      var rest := parts[1..];
      if parts[0] == "" || parts[0] == "." {
        WalkIsCleaned(t, dir, rest, q);
      } else if parts[0] == ".." {
        DirectoryAbove(t, dir);
        WalkIsCleaned(t, Parent(dir), rest, q);
      } else if t[dir + [parts[0]]].Directory? {
        WalkIsCleaned(t, dir + [parts[0]], rest, q);
      } else {
        assert rest == [];
      }
    }
  }

  /** So the cleaned path leads there too. */
  lemma {:induction false} CleanedLeadsThere(t: Tree, parts: seq<string>, q: Path)
    requires WellFormed(t) && HasNoLinks(t)
    requires forall c <- parts :: '/' !in c
    requires EvalSymlinks(t, parts) == Found(q)
    ensures EvalSymlinks(t, Cleaned([], parts)) == Found(q)
  {
    WalkKeepsCount(t, [], parts, 0);
    WalkIsCleaned(t, [], parts, q);
    WalkEndsPhysical(t, [], parts, 0);
    PhysicalIsFixed(t, q);
  }

  lemma {:induction false} WalkKeepsCount(t: Tree, dir: Path, todo: seq<string>, links: nat)
    requires HasNoLinks(t) && links <= MAX_LINKS
    ensures Walk(t, dir, todo, links).At? ==> Walk(t, dir, todo, links).links == links
    decreases |todo|
  {
    if todo != [] {
      var rest := todo[1..];
      if todo[0] == "" || todo[0] == "." {
        WalkKeepsCount(t, dir, rest, links);
      } else if todo[0] == ".." {
        WalkKeepsCount(t, Parent(dir), rest, links);
      } else if dir + [todo[0]] in t && t[dir + [todo[0]]].Directory? {
        WalkKeepsCount(t, dir + [todo[0]], rest, links);
      }
    }
  }

  /** A name that is missing from a directory of the path. */
  ghost predicate BreaksOff(t: Tree, p: Path, from: nat) {
    exists m :: from <= m < |p| && IsDirectory(t, p[..m]) && p[..m + 1] !in t
  }

  /** Without links a path stands for itself if it exists, and is absent if it breaks off. */
  lemma {:induction false} WithoutLinksExactly(t: Tree, p: Path)
    requires WellFormed(t) && HasNoLinks(t) && IsClean(p)
    ensures forall q :: EvalSymlinks(t, p) == Found(q) <==> Physical(t, p) && q == p
    ensures EvalSymlinks(t, p) == NotExist <==> BreaksOff(t, p, 0)
  {
    assert p[..0] == [] && p[0..] == p;
    WalkWithoutLinks(t, p, 0);
  }

  lemma {:induction false} WalkWithoutLinks(t: Tree, p: Path, k: nat)
    requires WellFormed(t) && HasNoLinks(t) && IsClean(p)
    requires k <= |p| && IsDirectory(t, p[..k])
    ensures var w := Walk(t, p[..k], p[k..], 0);
      && (w.At? <==> Physical(t, p)) && (w.At? ==> w.path == p)
      && (w.Missing? <==> BreaksOff(t, p, k))
    decreases |p| - k
  {
    hide WellFormed, Physical, IsClean;
    if k == |p| {
      assert p[..k] == p && p[k..] == [];
      DirectoryIsPhysical(t, p);
    } else {
      var next := p[..k + 1];
      NameOf(p, k);
      assert p[k..][0] == p[k] && p[k..][1..] == p[k + 1..] && p[..k] + [p[k]] == next;
      BreaksOffLater(t, p, k);
      if IsDirectory(t, next) {
        WalkWithoutLinks(t, p, k + 1);
      } else {
        PhysicalNext(t, p, k);
        assert k + 1 == |p| ==> next == p;
      }
    }
  }

  lemma NameOf(p: Path, k: nat)
    requires IsClean(p) && k < |p|
    ensures IsName(p[k])
  {
  }

  lemma DirectoryIsPhysical(t: Tree, p: Path)
    requires IsDirectory(t, p)
    ensures Physical(t, p)
  {
  }

  lemma {:induction false} BreaksOffLater(t: Tree, p: Path, k: nat)
    requires k < |p| && IsDirectory(t, p[..k])
    ensures BreaksOff(t, p, k) <==> p[..k + 1] !in t || BreaksOff(t, p, k + 1)
  {
    if BreaksOff(t, p, k) && p[..k + 1] in t {
      var m :| k <= m < |p| && IsDirectory(t, p[..m]) && p[..m + 1] !in t;
      assert m != k;
    }
  }

  /** A path goes on only below a directory. */
  lemma {:induction false} PhysicalNext(t: Tree, p: Path, k: nat)
    requires WellFormed(t) && HasNoLinks(t) && k < |p| && !IsDirectory(t, p[..k + 1])
    ensures Physical(t, p) <==> k + 1 == |p| && p in t && !t[p].Unreadable?
    ensures forall m :: k < m <= |p| ==> !IsDirectory(t, p[..m])
  {
    assert k + 1 == |p| ==> p[..k + 1] == p;
    if Physical(t, p) && k + 1 < |p| {
      PhysicalPrefix(t, p, k + 1);
    }
    forall m | k < m <= |p|
      ensures !IsDirectory(t, p[..m])
    {
      if k + 1 < m {
        assert p[..m][..k + 1] == p[..k + 1];
        if IsDirectory(t, p[..m]) {
          PhysicalPrefix(t, p[..m], k + 1);
        }
      }
    }
  }

  // ---------- Links ----------

  /** A link to an absolute path stands for that path. */
  lemma {:induction false} AbsoluteLink(t: Tree, d: Path, c: string, names: Path, links: nat)
    requires WellFormed(t) && IsDirectory(t, d) && IsName(c) && IsClean(names) && names != []
    requires d + [c] in t && t[d + [c]] == Link(Render(names)) && links < 255
    ensures Walk(t, d, [c], links) == Walk(t, [], names, links + 1)
  {
    hide Split, WellFormed, IsDirectory;
    SplitSpelled("", names);
    assert "" + Spelled(names) == Spelled(names) == Render(names);
    var parts := [""] + names;
    assert parts[0] == "" && parts[1..] == names && parts + [] == parts;
    assert [c][0] == c && [c][1..] == [];
    assert Walk(t, d, [c], links) == Walk(t, [], Split(Render(names)) + [], links + 1);
  }

  /** A link to a relative path stands for that path taken from the link's own directory. */
  lemma {:induction false} RelativeLink(t: Tree, d: Path, c: string, names: Path, links: nat)
    requires WellFormed(t) && IsDirectory(t, d) && IsName(c) && IsClean(names) && names != []
    requires d + [c] in t && t[d + [c]] == Link(Relative(names)) && links < 255
    ensures Walk(t, d, [c], links) == Walk(t, d, names, links + 1)
  {
    SplitRelative(names);
    assert [c][1..] == [] && names + [] == names;
  }

  /** After 255 links no other is followed. */
  lemma {:induction false} TooManyLinks(t: Tree, d: Path, c: string)
    requires IsName(c) && d + [c] in t && t[d + [c]].Link?
    ensures Walk(t, d, [c], 255) == Broken
  {
    assert [c][0] == c;
  }

  /** A link to itself cannot be resolved. */
  lemma {:induction false} LoopFails(t: Tree, c: string)
    requires IsName(c) && [c] in t && t[[c]] == Link(c)
    ensures EvalSymlinks(t, [c]) == Failed
  {
    assert IsClean([c]);
    SplitRelative([c]);
    assert Relative([c]) == c;
    LoopWalk(t, c, 0);
  }

  lemma {:induction false} LoopWalk(t: Tree, c: string, links: nat)
    requires IsName(c) && [c] in t && t[[c]] == Link(c) && Split(c) == [c] && c[0] != '/'
    requires links <= MAX_LINKS
    ensures Walk(t, [], [c], links) == Broken
    decreases MAX_LINKS - links
  {
    assert [] + [c] == [c] && [c][1..] == [] && [c] + [] == [c];
    if links < MAX_LINKS {
      LoopWalk(t, c, links + 1);
    }
  }
}
