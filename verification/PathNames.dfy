/** Absolute paths as lists of names, and their spelling. */
module PathNames {

  type Path = seq<string>

  predicate IsName(c: string) {
    c != "" && c != "." && c != ".." && '/' !in c
  }

  predicate IsClean(p: Path) {
    forall c <- p :: IsName(c)
  }

  function Parent(p: Path): Path {
    if p == [] then [] else p[..|p| - 1]
  }

  /** The parts of a spelling between its separators. */
  function Split(s: string): (r: seq<string>)
    ensures |r| > 0 && forall c <- r :: '/' !in c
  {
    if s == "" then [""]
    else
      var r := Split(s[1..]);
      if s[0] == '/' then [""] + r else [[s[0]] + r[0]] + r[1..]
  }

  /** Continues a clean path with parts that may be empty, "." or "..". */
  function Cleaned(p: Path, parts: seq<string>): (r: Path)
    requires IsClean(p) && forall c <- parts :: '/' !in c
    ensures IsClean(r)
    decreases |parts|
  {
    if parts == [] then p
    else if parts[0] == "" || parts[0] == "." then Cleaned(p, parts[1..])
    else if parts[0] == ".." then Cleaned(Parent(p), parts[1..])
    else Cleaned(p + [parts[0]], parts[1..])
  }

  function Spelled(p: Path): string {
    if p == [] then "" else "/" + p[0] + Spelled(p[1..])
  }

  /** The spelling of a path; the root is "/". */
  function Render(p: Path): string {
    if p == [] then "/" else Spelled(p)
  }

  /** Whether `path` is spelled as `root`, or as something beneath it. */
  predicate SpelledWithin(root: string, path: string) {
    || path == root
    || (if root != "" && root[|root| - 1] == '/' then root else root + "/") <= path
  }

  /** The separator-aware test on spellings is the prefix test on names. */
  lemma {:induction false} WithinIsPrefix(root: Path, path: Path)
    requires IsClean(root) && IsClean(path)
    ensures SpelledWithin(Render(root), Render(path)) <==> root <= path
  {
    if root != [] {
      SpelledEnds(root);
      SpelledBeneath(root, path);
      if Render(path) == Render(root) {
        assert path != [];
        SpelledInjective(root, path);
      }
      if root <= path && root != path {
        assert Render(root) + "/" <= Render(path);
      }
    } else if path != [] {
      assert Render(path)[0] == '/';
    }
  }

  lemma {:induction false} SpelledEnds(p: Path)
    requires IsClean(p) && p != []
    ensures |Spelled(p)| > 1 && Spelled(p)[|Spelled(p)| - 1] != '/'
    decreases |p|
  {
    assert p[0] in p;
    if |p| > 1 {
      SpelledEnds(p[1..]);
    } else {
      assert p[1..] == [];
      assert p[0][|p[0]| - 1] in p[0];
    }
  }

  /** The position of the first separator, or the length. */
  function FirstSlash(s: string): (n: nat)
    ensures n <= |s| && (n < |s| ==> s[n] == '/')
  {
    if s == "" || s[0] == '/' then 0 else 1 + FirstSlash(s[1..])
  }

  lemma {:induction false} NameEnds(a: string, x: string)
    requires '/' !in a && (x == "" || x[0] == '/')
    ensures FirstSlash(a + x) == |a|
    decreases |a|
  {
    if a == "" {
      assert a + x == x;
    } else {
      assert a[0] in a;
      assert (a + x)[1..] == a[1..] + x;
      NameEnds(a[1..], x);
    }
  }

  lemma {:induction false} FirstSlashOfPrefix(s: string, t: string)
    requires s <= t && (FirstSlash(s) < |s| || s == t)
    ensures FirstSlash(s) == FirstSlash(t)
    decreases |s|
  {
    if s != "" && s[0] != '/' {
      FirstSlashOfPrefix(s[1..], t[1..]);
    }
  }

  /** Two names that start the same text and are followed by a separator or the end agree. */
  lemma {:induction false} SameFirst(a: string, x: string, b: string, y: string)
    requires '/' !in a && '/' !in b
    requires x == "" || x[0] == '/'
    requires y == "" || y[0] == '/'
    requires a + x <= b + y && (x == "" ==> a + x == b + y)
    ensures a == b && x <= y
  {
    NameEnds(a, x);
    NameEnds(b, y);
    FirstSlashOfPrefix(a + x, b + y);
    assert a == (a + x)[..|a|] && b == (b + y)[..|b|];
    AfterText(a, x, y);
  }

  lemma {:induction false} SpelledInjective(a: Path, b: Path)
    requires IsClean(a) && IsClean(b) && Spelled(a) == Spelled(b)
    ensures a == b
    decreases |a|
  {
    if a != [] && b != [] {
      assert a[0] in a && b[0] in b;
      assert Spelled(a)[1..] == a[0] + Spelled(a[1..]);
      assert Spelled(b)[1..] == b[0] + Spelled(b[1..]);
      SameFirst(a[0], Spelled(a[1..]), b[0], Spelled(b[1..]));
      SameFirst(b[0], Spelled(b[1..]), a[0], Spelled(a[1..]));
      SpelledInjective(a[1..], b[1..]);
      assert a == [a[0]] + a[1..] && b == [b[0]] + b[1..];
    }
  }

  lemma {:induction false} SpelledBeneath(root: Path, path: Path)
    requires IsClean(root) && IsClean(path) && root != []
    ensures Spelled(root) + "/" <= Spelled(path) <==> root < path
    decreases |root|
  {
    if path != [] {
      assert root[0] in root && path[0] in path;
      var x, y := Spelled(root[1..]) + "/", Spelled(path[1..]);
      assert Spelled(root) + "/" == "/" + (root[0] + x);
      assert Spelled(path) == "/" + (path[0] + y);
      AfterSlash(root[0] + x, path[0] + y);
      if root[0] + x <= path[0] + y {
        SameFirst(root[0], x, path[0], y);
      }
      if root[0] == path[0] {
        AfterText(root[0], x, y);
      }
      assert root == [root[0]] + root[1..] && path == [path[0]] + path[1..];
      if |root| == 1 {
        assert Spelled(root[1..]) == "";
        assert "/" <= y <==> path[1..] != [];
      } else {
        SpelledBeneath(root[1..], path[1..]);
      }
    }
  }

  lemma {:induction false} AfterSlash(a: string, b: string)
    ensures "/" + a <= "/" + b <==> a <= b
  {
    AfterText("/", a, b);
  }

  lemma {:induction false} AfterText(t: string, a: string, b: string)
    ensures t + a <= t + b <==> a <= b
  {
    assert (t + a)[|t|..] == a && (t + b)[|t|..] == b;
    if t + a <= t + b {
      assert t + a == (t + b)[..|t| + |a|];
      assert a == b[..|a|];
    }
    if a <= b {
      assert b == a + b[|a|..];
      assert t + b == (t + a) + b[|a|..];
    }
  }

  /** Cleaning the spelling of a clean path gives the path back. */
  lemma {:induction false} CleanedSpelling(p: Path)
    requires IsClean(p)
    ensures Cleaned([], Split(Render(p))) == p
  {
    if p == [] {
      assert Split("/") == ["", ""];
    } else {
      SplitSpelled("", p);
      assert "" + Spelled(p) == Spelled(p);
      CleanedNames([], p);
    }
  }

  lemma {:induction false} SplitSpelled(a: string, p: Path)
    requires '/' !in a && forall c <- p :: '/' !in c
    ensures Split(a + Spelled(p)) == [a] + p
    decreases |p|, |a|
  {
    if a != "" {
      assert a[0] in a && (a + Spelled(p))[1..] == a[1..] + Spelled(p);
      SplitSpelled(a[1..], p);
      assert [a[0]] + a[1..] == a;
    } else if p != [] {
      assert p[0] in p;
      assert (a + Spelled(p))[1..] == p[0] + Spelled(p[1..]);
      SplitSpelled(p[0], p[1..]);
    }
  }

  lemma {:induction false} CleanedNames(p: Path, names: Path)
    requires IsClean(p) && IsClean(names)
    ensures Cleaned(p, names) == p + names
    decreases |names|
  {
    if names != [] {
      assert names[0] in names;
      CleanedNames(p + [names[0]], names[1..]);
    }
  }

  /** What one more part does to a path: ".." removes the last name, and nothing at the root. */
  lemma {:induction false} CleanedLast(p: Path, parts: seq<string>, c: string)
    requires IsClean(p) && '/' !in c && forall part <- parts :: '/' !in part
    ensures var q := Cleaned(p, parts);
      Cleaned(p, parts + [c]) ==
        if c == "" || c == "." then q
        else if c == ".." then (if q == [] then [] else q[..|q| - 1])
        else q + [c]
    decreases |parts|
  {
    if parts == [] {
      assert parts + [c] == [c] && [c][1..] == [];
    } else {
      var rest := parts[1..];
      assert (parts + [c])[1..] == rest + [c] && (parts + [c])[0] == parts[0];
      if parts[0] == "" || parts[0] == "." {
        CleanedLast(p, rest, c);
      } else if parts[0] == ".." {
        CleanedLast(Parent(p), rest, c);
      } else {
        CleanedLast(p + [parts[0]], rest, c);
      }
    }
  }

  /** Parts with separators between them. */
  function Joined(parts: seq<string>): string
    requires parts != []
  {
    if |parts| == 1 then parts[0] else parts[0] + "/" + Joined(parts[1..])
  }

  lemma {:induction false} SplitJoins(s: string)
    ensures Joined(Split(s)) == s
    decreases |s|
  {
    if s != "" {
      SplitJoins(s[1..]);
      var r := Split(s[1..]);
      if s[0] == '/' {
        assert ([""] + r)[1..] == r;
        assert "" + "/" + Joined(r) == s;
      } else {
        var first := [s[0]] + r[0];
        assert ([first] + r[1..])[1..] == r[1..];
        assert |r| > 1 ==> first + "/" + Joined(r[1..]) == [s[0]] + (r[0] + "/" + Joined(r[1..]));
        assert s == [s[0]] + s[1..];
      }
    }
  }

  /** The spelling of names without a leading separator. */
  function Relative(names: Path): string
    requires names != []
  {
    names[0] + Spelled(names[1..])
  }

  lemma {:induction false} SplitRelative(names: Path)
    requires IsClean(names) && names != []
    ensures Split(Relative(names)) == names
    ensures Relative(names) != "" && Relative(names)[0] != '/'
  {
    assert names[0] in names && forall c <- names[1..] :: c in names;
    assert Relative(names)[0] == names[0][0] && names[0][0] in names[0];
    SplitSpelled(names[0], names[1..]);
  }
}
