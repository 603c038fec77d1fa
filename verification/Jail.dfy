/** The jail: which paths of a request may be read. */
module Jail {
  import opened Common
  import opened FileTree
  import opened PathNames

  type Evaluator = Path -> Outcome

  /** The absolute, cleaned form of a requested path; None without a working directory. */
  function Absolute(cwd: Option<Path>, p: string): (r: Option<Path>)
    requires cwd.Some? ==> IsClean(cwd.value)
    ensures r.Some? ==> IsClean(r.value)
  {
    if p != "" && p[0] == '/' then Some(Cleaned([], Split(p)))
    else if cwd.Some? then Some(Cleaned(cwd.value, Split(p)))
    else None
  }

  predicate Acceptable(cwd: Option<Path>, p: string)
    requires cwd.Some? ==> IsClean(cwd.value)
  {
    '\0' !in p && p != "" && Absolute(cwd, p).Some?
  }

  /** A relative request is the working directory followed by its names. */
  lemma {:induction false} RelativeRequest(cwd: Path, names: Path)
    requires IsClean(cwd) && IsClean(names) && names != []
    ensures Absolute(Some(cwd), Relative(names)) == Some(cwd + names)
    ensures Absolute(None, Relative(names)) == None
  {
    SplitRelative(names);
    CleanedNames(cwd, names);
  }

  /** An absolute one is its own names, whatever the working directory. */
  lemma {:induction false} AbsoluteRequest(cwd: Option<Path>, names: Path)
    requires (cwd.Some? ==> IsClean(cwd.value)) && IsClean(names)
    ensures Absolute(cwd, Render(names)) == Some(names)
  {
    CleanedSpelling(names);
  }

  // ---------- The longest existing prefix ----------

  /** The first `k` names of `p` are the most that are not reported absent. */
  ghost predicate IsLongest(eval: Evaluator, p: Path, k: nat) {
    && k <= |p| && eval(p[..k]) != NotExist
    && forall j | k < j <= |p| :: eval(p[..j]) == NotExist
  }

  /** The first `k` names resolved and the others after them; whether there are no others. */
  function ResolvedAt(eval: Evaluator, p: Path, k: nat): Option<(Path, bool)>
    requires k <= |p|
  {
    match eval(p[..k])
    case Found(q) => Some((q + p[k..], k == |p|))
    case NotExist => None
    case Failed => None
  }

  /**
   `r` resolves `p`: the longest existing prefix resolved, then the missing names in order,
   and whether none is missing; None if the prefix cannot be resolved.
   */
  ghost predicate IsResolution(eval: Evaluator, p: Path, r: Option<(Path, bool)>) {
    || (exists k: nat :: IsLongest(eval, p, k) && r == ResolvedAt(eval, p, k))
    || ((forall k: nat :: !IsLongest(eval, p, k)) && r == Some((p, false)))
  }

  method ResolveExisting(eval: Evaluator, p: Path) returns (r: Option<(Path, bool)>)
    ensures IsResolution(eval, p, r)
  {
    var e := eval(p);
    assert p[..|p|] == p && p[|p|..] == [];
    if e != NotExist {
      assert IsLongest(eval, p, |p|);
      r := if e.Found? then Some((e.path, true)) else None;
      assert e.Found? ==> e.path + [] == e.path;
      return;
    }
    var dir, missing := p, [];
    while true
      invariant |dir| <= |p| && dir == p[..|dir|] && missing == p[|dir|..]
      invariant forall j | |dir| <= j <= |p| :: eval(p[..j]) == NotExist
      decreases |dir|
    {
      if dir == [] {
        return Some((p, false));
      }
      missing := [dir[|dir| - 1]] + missing;
      dir := Parent(dir);
      assert dir == p[..|dir|];
      e := eval(dir);
      if e != NotExist {
        assert IsLongest(eval, p, |dir|);
        r := if e.Found? then Some((e.path + missing, false)) else None;
        assert missing == p[|dir|..] && |dir| < |p|;
        assert r == ResolvedAt(eval, p, |dir|);
        return;
      }
    }
  }

  lemma ResolutionOfLongest(
      eval: Evaluator, p: Path, r: Option<(Path, bool)>, k: nat)
    requires IsResolution(eval, p, r) && IsLongest(eval, p, k)
    ensures r == ResolvedAt(eval, p, k)
  {
  }

  // ---------- The jail ----------

  datatype Answer = Inside(path: Path) | Outside | Absent | Rejected

  ghost predicate EvaluatesCleanly(eval: Evaluator) {
    forall p :: eval(p).Found? ==> IsClean(eval(p).path)
  }

  datatype JailSet = JailSet(roots: seq<Path>) {

    ghost predicate Holds(path: Path) {
      exists root <- roots :: root <= path
    }

    /** Compares spellings, as the source does; the result is about names. */
    method Contains(path: Path) returns (b: bool)
      requires IsClean(path) && forall root <- roots :: IsClean(root)
      ensures b <==> Holds(path)
    {
      hide SpelledWithin, Render;
      for i := 0 to |roots|
        invariant forall k :: 0 <= k < i ==> !(roots[k] <= path)
      {
        WithinIsPrefix(roots[i], path);
        if SpelledWithin(Render(roots[i]), Render(path)) {
          return true;
        }
      }
      return false;
    }

    /** What a resolution means for a request. */
    ghost function Judge(r: Option<(Path, bool)>): Answer {
      match r
      case None => Rejected
      case Some((path, isThere)) =>
        if !Holds(path) then Outside else if isThere then Inside(path) else Absent
    }

    method Resolve(eval: Evaluator, cwd: Option<Path>, p: string) returns (a: Answer)
      requires EvaluatesCleanly(eval) && forall root <- roots :: IsClean(root)
      requires cwd.Some? ==> IsClean(cwd.value)
      ensures !Acceptable(cwd, p) ==> a == Rejected
      ensures Acceptable(cwd, p) ==>
        exists r :: IsResolution(eval, Absolute(cwd, p).value, r) && a == Judge(r)
    {
      if '\0' in p {
        return Rejected;
      }
      if p == "" {
        return Rejected;
      }
      var abs := Absolute(cwd, p);
      if abs.None? {
        return Rejected;
      }
      var r := ResolveExisting(eval, abs.value);
      if r.None? {
        return Rejected;
      }
      ResolutionIsClean(eval, abs.value, r);
      var inside := Contains(r.value.0);
      if !inside {
        return Outside;
      }
      if !r.value.1 {
        return Absent;
      }
      return Inside(r.value.0);
    }

    /** A regular file to which links lead the request, at or below a root; nothing else. */
    method ResolveFile(t: Tree, cwd: Option<Path>, p: string) returns (file: Option<Path>)
      requires WellFormed(t) && RootsAreDirectories(t, this)
      requires cwd.Some? ==> IsClean(cwd.value)
      ensures forall q :: file == Some(q) <==>
        && Acceptable(cwd, p) && EvalSymlinks(t, Absolute(cwd, p).value) == Found(q) && Holds(q)
        && q in t && t[q].Regular?
    {
      hide EvalSymlinks, WellFormed, IsResolution, Holds;
      LinksClean(t);
      RootsClean(t, this);
      var a := Resolve(Links(t), cwd, p);
      if Acceptable(cwd, p) {
        ghost var r :| IsResolution(Links(t), Absolute(cwd, p).value, r) && a == Judge(r);
        JudgementIsRight(t, this, Absolute(cwd, p).value, r);
      }
      if !a.Inside? {
        return None;
      }
      if !(a.path in t && t[a.path].Regular?) {
        return None;
      }
      return Some(a.path);
    }
  }

  lemma {:induction false} ResolutionIsClean(eval: Evaluator, p: Path, r: Option<(Path, bool)>)
    requires IsResolution(eval, p, r) && EvaluatesCleanly(eval) && IsClean(p)
    ensures r.Some? ==> IsClean(r.value.0)
  {
    if exists k: nat :: IsLongest(eval, p, k) {
      var k: nat :| IsLongest(eval, p, k);
      ResolutionOfLongest(eval, p, r, k);
    }
  }

  /** None unless every root exists and is a directory. */
  method NewJailSet(t: Tree, cwd: Option<Path>, paths: seq<string>) returns (r: Option<JailSet>)
    requires cwd.Some? ==> IsClean(cwd.value)
    ensures r.Some? <==> paths != [] && forall p <- paths :: RootOf(t, cwd, p).Some?
    ensures r.Some? ==> RootsAreDirectories(t, r.value) && |r.value.roots| == |paths|
    ensures r.Some? ==> forall i :: 0 <= i < |paths| ==> RootOf(t, cwd, paths[i]) == Some(r.value.roots[i])
  {
    if |paths| == 0 {
      return None;
    }
    var roots: seq<Path> := [];
    for i := 0 to |paths|
      invariant |roots| == i
      invariant forall k :: 0 <= k < i ==> RootOf(t, cwd, paths[k]) == Some(roots[k])
    {
      assert paths[i] in paths;
      var abs := Absolute(cwd, paths[i]);
      if abs.None? {
        return None;
      }
      var e := EvalSymlinks(t, abs.value);
      if !e.Found? {
        return None;
      }
      if !IsDirectory(t, e.path) {
        return None;
      }
      roots := roots + [e.path];
    }
    return Some(JailSet(roots));
  }

  /** The directory a root is given as. */
  function RootOf(t: Tree, cwd: Option<Path>, p: string): Option<Path>
    requires cwd.Some? ==> IsClean(cwd.value)
  {
    var abs :- Absolute(cwd, p);
    match EvalSymlinks(t, abs)
    case Found(q) => if IsDirectory(t, q) then Some(q) else None
    case NotExist => None
    case Failed => None
  }

  // ---------- The jail on a file tree ----------

  function Links(t: Tree): Evaluator {
    p => EvalSymlinks(t, p)
  }

  ghost predicate RootsAreDirectories(t: Tree, jail: JailSet) {
    forall root <- jail.roots :: IsDirectory(t, root)
  }

  lemma RootsClean(t: Tree, jail: JailSet)
    requires WellFormed(t) && RootsAreDirectories(t, jail)
    ensures forall root <- jail.roots :: IsClean(root)
  {
  }

  lemma {:induction false} LinksClean(t: Tree)
    requires WellFormed(t)
    ensures EvaluatesCleanly(Links(t))
  {
    forall p | Links(t)(p).Found?
      ensures IsClean(Links(t)(p).path)
    {
      WalkEndsPhysical(t, [], p, 0);
    }
  }

  /**
   An answer is a path exactly when links lead the request to that path and it is at or
   below a root; it then exists and is no link.  A path reported absent is so, and what
   exists of it is at or below a root.
   */
  lemma {:induction false} JudgementIsRight(t: Tree, jail: JailSet, p: Path, r: Option<(Path, bool)>)
    requires WellFormed(t) && RootsAreDirectories(t, jail)
    requires IsResolution(Links(t), p, r)
    ensures forall q :: jail.Judge(r) == Inside(q) <==> EvalSymlinks(t, p) == Found(q) && jail.Holds(q)
    ensures jail.Judge(r).Inside? ==> Physical(t, jail.Judge(r).path)
    ensures jail.Judge(r).Absent? ==> EvalSymlinks(t, p) == NotExist && ExistingPartInside(t, jail, p)
    ensures EvalSymlinks(t, p) == Failed ==> jail.Judge(r) == Rejected
  {
    hide EvalSymlinks, WellFormed;
    var eval := Links(t);
    var k := LongestExists(t, p);
    ResolutionOfLongest(eval, p, r, k);
    assert p[..|p|] == p && p[|p|..] == [];
    if eval(p[..k]).Found? {
      var q := eval(p[..k]).path;
      if k == |p| {
        assert q + p[k..] == q;
        FoundIsPhysical(t, p);
      } else if jail.Holds(q + p[k..]) {
        AbsentInside(t, jail, p, k, q);
      }
    }
  }

  /** The longest part of `p` that exists resolves to a path at or below a root. */
  ghost predicate ExistingPartInside(t: Tree, jail: JailSet, p: Path) {
    exists k: nat :: k < |p| && ResolvesInside(t, jail, p[..k])
      && EvalSymlinks(t, p[..k + 1]) == NotExist
  }

  ghost predicate ResolvesInside(t: Tree, jail: JailSet, p: Path) {
    EvalSymlinks(t, p).Found? && jail.Holds(EvalSymlinks(t, p).path)
  }

  lemma {:induction false} FoundIsPhysical(t: Tree, p: Path)
    requires WellFormed(t)
    ensures EvalSymlinks(t, p).Found? ==> Physical(t, EvalSymlinks(t, p).path)
  {
    WalkEndsPhysical(t, [], p, 0);
  }

  lemma {:induction false} LongestExists(t: Tree, p: Path) returns (k: nat)
    ensures IsLongest(Links(t), p, k)
  {
    k := |p|;
    while EvalSymlinks(t, p[..k]) == NotExist
      invariant k <= |p|
      invariant forall j | k < j <= |p| :: EvalSymlinks(t, p[..j]) == NotExist
      decreases k
    {
      assert p[..0] == [];
      k := k - 1;
    }
  }

  /** Missing names cannot complete the path of a root: only what exists can be inside. */
  lemma {:induction false} AbsentInside(t: Tree, jail: JailSet, p: Path, k: nat, q: Path)
    requires WellFormed(t) && RootsAreDirectories(t, jail) && k < |p|
    requires EvalSymlinks(t, p[..k]) == Found(q) && EvalSymlinks(t, p[..k + 1]) == NotExist
    requires jail.Holds(q + p[k..])
    ensures ExistingPartInside(t, jail, p)
  {
    hide EvalSymlinks, WellFormed, IsDirectory, Physical;
    var root :| root in jail.roots && root <= q + p[k..];
    assert p[..k] + [p[k]] == p[..k + 1];
    NextIsNoDirectory(t, p[..k], p[k], q);
    if |root| > |q| {
      LongerPrefix(root, q, p[k..]);
      DirectoryPrefix(t, root, |q| + 1);
    }
    assert root == (q + p[k..])[..|root|];
    assert root == q[..|root|];
    assert ResolvesInside(t, jail, p[..k]);
  }

  lemma LongerPrefix(root: Path, q: Path, rest: Path)
    requires root <= q + rest && |root| > |q|
    ensures rest != [] && root[..|q| + 1] == q + [rest[0]]
  {
  }

  lemma {:induction false} DirectoryPrefix(t: Tree, p: Path, k: nat)
    requires WellFormed(t) && IsDirectory(t, p) && k <= |p|
    ensures IsDirectory(t, p[..k])
  {
    if k < |p| {
      PhysicalPrefix(t, p, k);
    } else {
      assert p[..k] == p;
    }
  }

  lemma {:induction false} NextIsNoDirectory(t: Tree, p: Path, c: string, q: Path)
    requires WellFormed(t)
    requires EvalSymlinks(t, p) == Found(q) && EvalSymlinks(t, p + [c]) == NotExist
    ensures !IsDirectory(t, q + [c])
  {
    WalkInTwo(t, [], p, [c], 0);
    WalkEndsPhysical(t, [], p, 0);
    WalkToDirectory(t, q, c, Walk(t, [], p, 0).links);
  }

  /** A path that was answered is answered again for its own spelling. */
  lemma {:induction false} AnswerIsStable(
      t: Tree, jail: JailSet, cwd: Option<Path>, q: Path, r: Option<(Path, bool)>)
    requires WellFormed(t) && RootsAreDirectories(t, jail)
    requires cwd.Some? ==> IsClean(cwd.value)
    requires Physical(t, q) && jail.Holds(q)
    requires Absolute(cwd, Render(q)).Some? ==> IsResolution(Links(t), Absolute(cwd, Render(q)).value, r)
    ensures Absolute(cwd, Render(q)) == Some(q) && jail.Judge(r) == Inside(q)
  {
    PhysicalIsFixed(t, q);
    CleanedSpelling(q);
    JudgementIsRight(t, jail, q, r);
  }
}
