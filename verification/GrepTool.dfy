/**
 The grep tool: matches are appended to a bounded buffer as files are scanned; the result is
 that of collecting every match first and cutting afterwards.
 */
module GrepTool {
  import opened Common
  import opened Chars
  import opened Numbers
  import opened Utf8
  import opened Capping
  import opened LineScanner

  const GREP_DEFAULT_MATCHES := 1000
  const GREP_MAX_MATCHES := 100000

  /** A regular file; None as content when it cannot be opened. */
  datatype File = File(path: seq<Byte>, content: Option<seq<Byte>>) {

    /** The lines searched: those the scanner yields, an error after them being ignored. */
    function Searched(): seq<seq<Byte>> {
      if content.None? then [] else Scanned(content.value)
    }
  }

  type Pattern = seq<Byte> -> bool

  const SLASH: Byte := 0x2F
  const COLON: Byte := 0x3A
  const SPACE: Byte := 0x20

  function Decimal(n: nat): seq<Byte> {
    var t := NatText(n);
    seq(|t|, i requires 0 <= i < |t| => ((t[i] as int - '0' as int) + 0x30) as Byte)
  }

  /** "path:line: text" and a newline. */
  function Format(path: seq<Byte>, line: nat, text: seq<Byte>): (r: seq<Byte>)
    ensures path <= r && |r| > |path|
  {
    path + [COLON] + Decimal(line) + [COLON, SPACE] + text + [NEWLINE]
  }

  /** The digits of a number as bytes, without leading zeros. */
  lemma {:induction false} DecimalExactly(n: nat)
    ensures var d := Decimal(n);
      && |d| > 0 && (|d| > 1 ==> d[0] != 0x30)
      && (forall b <- d :: 0x30 <= b <= 0x39)
      && AllDigits(seq(|d|, i requires 0 <= i < |d| => DIGITS[d[i] as int - 0x30]))
      && DigitsValue(seq(|d|, i requires 0 <= i < |d| => DIGITS[d[i] as int - 0x30])) == n
  {
    var d, t := Decimal(n), NatText(n);
    DigitsValueOfNatText(n);
    assert forall i :: 0 <= i < |t| ==> IsDigit(t[i]);
    forall i | 0 <= i < |d|
      ensures 0x30 <= d[i] <= 0x39 && DIGITS[d[i] as int - 0x30] == t[i]
    {
      assert t[i] in DIGITS by {
        ClassesExactly(t[i]);
      }
      DigitAt(d[i] as int - 0x30);
    }
    assert seq(|d|, i requires 0 <= i < |d| => DIGITS[d[i] as int - 0x30]) == t;
  }

  lemma {:induction false} DigitAt(k: int)
    requires 0 <= k < 10
    ensures DIGITS[k] as int == '0' as int + k
  {
    assert DIGITS[k] == ('0' as int + k) as char;
  }

  /** A match reads: path, colon, line number, colon, space, text, newline. */
  lemma {:induction false} FormatExactly(path: seq<Byte>, line: nat, text: seq<Byte>)
    ensures var r, d, m := Format(path, line, text), |path| + 1, |path| + 1 + |Decimal(line)|;
      && |r| == m + 3 + |text|
      && r[..|path|] == path && r[|path|] == 0x3A
      && r[d..m] == Decimal(line) && r[m] == 0x3A && r[m + 1] == 0x20
      && r[m + 2..m + 2 + |text|] == text && r[m + 2 + |text|] == 0x0A
  {
    hide Decimal;
    var r := Format(path, line, text);
    assert r == path + ([COLON] + (Decimal(line) + ([COLON, SPACE] + (text + [NEWLINE]))));
  }

  // ---------- Collecting everything ----------

  /** The formatted matches among the lines of a file. */
  function FileMatches(re: Pattern, path: seq<Byte>, lines: seq<seq<Byte>>): seq<seq<Byte>> {
    if lines == [] then []
    else
      var n := |lines|;
      FileMatches(re, path, lines[..n - 1])
      + if re(lines[n - 1]) then [Format(path, n, lines[n - 1])] else []
  }

  /** The formatted matches of the files, in order. */
  function AllMatches(re: Pattern, files: seq<File>): seq<seq<Byte>> {
    if files == [] then []
    else
      var n := |files| - 1;
      AllMatches(re, files[..n]) + FileMatches(re, files[n].path, files[n].Searched())
  }

  /** Collect all matches, take the first ones, cap the text. */
  function Reference(all: seq<seq<Byte>>, maxMatches: nat, maxOutput: int): (seq<Byte>, bool) {
    var text := Concat(if |all| <= maxMatches then all else all[..maxMatches]);
    (Capped(text, maxOutput).0, |all| > maxMatches || !Fits(text, maxOutput))
  }

  // ---------- Scanning ----------

  /** Every match starts with the slash of an absolute path. */
  ghost predicate Absolute(all: seq<seq<Byte>>) {
    forall i :: 0 <= i < |all| ==> all[i] != [] && all[i][0] == SLASH
  }

  /** The buffer holds the first `matches` of `seen`, and was within the cap before the last. */
  ghost predicate Holds(
    b: seq<Byte>, matches: nat, seen: seq<seq<Byte>>, maxMatches: nat, maxOutput: int)
  {
    && matches <= |seen| && matches <= maxMatches
    && b == Concat(seen[..matches])
    && (maxOutput >= 0 && matches > 0 ==> |Concat(seen[..matches - 1])| < maxOutput)
  }

  /** A cap has been reached, and `seen` has a match beyond it. */
  ghost predicate Full(
    b: seq<Byte>, matches: nat, seen: seq<seq<Byte>>, maxMatches: nat, maxOutput: int)
  {
    && Holds(b, matches, seen, maxMatches, maxOutput)
    && matches < |seen|
    && (matches == maxMatches || (maxOutput >= 0 && |b| >= maxOutput))
  }

  lemma {:induction false} ConcatGrows(all: seq<seq<Byte>>, m: nat, n: nat)
    requires m <= n <= |all|
    ensures Concat(all[..m]) <= Concat(all[..n])
    decreases n
  {
    if m < n {
      ConcatGrows(all, m, n - 1);
      assert all[..n][..n - 1] == all[..n - 1];
    }
  }

  lemma {:induction false} ConcatNext(all: seq<seq<Byte>>, m: nat)
    requires m < |all|
    ensures Concat(all[..m + 1]) == Concat(all[..m]) + all[m]
  {
    assert all[..m + 1][..m] == all[..m];
  }

  /** Stopping at a cap gives what collecting everything gives. */
  lemma {:induction false} FullIsReference(
      b: seq<Byte>, matches: nat, seen: seq<seq<Byte>>, all: seq<seq<Byte>>,
      maxMatches: nat, maxOutput: int)
    requires Full(b, matches, seen, maxMatches, maxOutput) && seen <= all && Absolute(all)
    ensures (Capped(b, maxOutput).0, true) == Reference(all, maxMatches, maxOutput)
  {
    var n := if |all| <= maxMatches then |all| else maxMatches;
    var text := Concat(all[..n]);
    assert all[..|all|] == all;
    assert seen[..matches] == all[..matches];
    if matches < maxMatches {
      ConcatNext(all, matches);
      ConcatGrows(all, matches, n);
      ConcatGrows(all, matches + 1, n);
      assert |text| > |b| && text[|b|] == (b + all[matches])[|b|] == all[matches][0] == SLASH;
      if |b| > maxOutput {
        CappedOfLonger(b, text, maxOutput);
      } else {
        assert CutAt(text, maxOutput) == maxOutput;
        assert text[..maxOutput] == b;
      }
    }
  }

  /** Having seen every match without reaching a cap gives that too. */
  lemma {:induction false} HoldsIsReference(
      b: seq<Byte>, matches: nat, all: seq<seq<Byte>>, maxMatches: nat, maxOutput: int)
    requires Holds(b, matches, all, maxMatches, maxOutput) && matches == |all|
    ensures Capped(b, maxOutput) == Reference(all, maxMatches, maxOutput)
  {
    assert all[..|all|] == all;
  }

  /** The state shared by the scans of all files. */
  class Search {
    const re: Pattern
    const maxMatches: nat
    const maxOutput: int
    var b: seq<Byte>
    var matches: nat
    var truncated: bool
    /** The formatted matches met so far, the one that stopped the scan included. */
    ghost var seen: seq<seq<Byte>>

    ghost predicate Valid()
      reads this
    {
      if truncated then Full(b, matches, seen, maxMatches, maxOutput)
      else Holds(b, matches, seen, maxMatches, maxOutput) && matches == |seen|
    }

    constructor (re: Pattern, maxMatches: nat, maxOutput: int)
      ensures Valid() && !truncated && seen == []
      ensures this.re == re && this.maxMatches == maxMatches && this.maxOutput == maxOutput
    {
      this.re, this.maxMatches, this.maxOutput := re, maxMatches, maxOutput;
      b, matches, truncated, seen := [], 0, false, [];
    }

    /** The buffer is at most one formatted match over the cap. */
    ghost predicate BufferBound()
      reads this
    {
      |b| <= maxOutput || exists m <- seen :: |b| < maxOutput + |m|
    }

    /** Scans one file; a stopped scan has met a prefix of its matches. */
    method ScanFile(f: File) returns (stop: bool)
      requires Valid() && !truncated
      modifies this
      ensures Valid() && stop == truncated
      ensures old(seen) <= seen <= old(seen) + FileMatches(re, f.path, f.Searched())
      ensures !stop ==> seen == old(seen) + FileMatches(re, f.path, f.Searched())
    {
      hide *;
      NothingFound(re, f);
      if f.content.None? {
        return false;
      }
      var sc := new LineScanner.Scanner(f.content.value);
      ghost var all := f.Searched();
      var line: nat := 0;
      while true
        invariant fresh(sc) && line <= |all| && sc.Coming() == all[line..]
        invariant Valid() && !truncated
        invariant seen == old(seen) + FileMatches(re, f.path, all[..line])
        decreases |all| - line
      {
        var next := sc.Scan();
        if next.None? {
          break;
        }
        var text := next.value;
        FileMatchesNext(re, f.path, all, line);
        line := line + 1;
        if re(text) {
          stop := Found(Format(f.path, line, text));
          if stop {
            return;
          }
        }
      }
      assert all[..line] == all;
      return false;
    }

    /** A match: recorded, unless a cap has been reached. */
    method Found(m: seq<Byte>) returns (stop: bool)
      requires Valid() && !truncated
      modifies this
      ensures Valid() && stop == truncated && seen == old(seen) + [m]
    {
      hide *;
      if matches >= maxMatches {
        Stop(m);
        return true;
      }
      if maxOutput >= 0 && |b| >= maxOutput {
        Stop(m);
        return true;
      }
      Append(m);
      return false;
    }

    method Append(m: seq<Byte>)
      requires Valid() && !truncated && matches < maxMatches && (maxOutput >= 0 ==> |b| < maxOutput)
      modifies this
      ensures Valid() && !truncated && seen == old(seen) + [m]
    {
      ConcatNext(seen + [m], |seen|);
      assert (seen + [m])[..|seen|] == seen == seen[..|seen|];
      assert (seen + [m])[..|seen| + 1] == seen + [m];
      b := b + m;
      matches := matches + 1;
      seen := seen + [m];
    }

    method Stop(ghost m: seq<Byte>)
      requires Valid() && !truncated
      requires matches >= maxMatches || (maxOutput >= 0 && |b| >= maxOutput)
      modifies this
      ensures Valid() && truncated && seen == old(seen) + [m] && b == old(b)
    {
      assert (seen + [m])[..matches] == seen[..matches];
      assert matches > 0 ==> (seen + [m])[..matches - 1] == seen[..matches - 1];
      truncated := true;
      seen := seen + [m];
    }

    /** In every reachable state the live buffer is bounded. */
    lemma {:induction false} BufferBounded()
      requires Valid()
      ensures maxOutput >= 0 ==> BufferBound()
    {
      if maxOutput >= 0 && matches > 0 {
        ConcatNext(seen, matches - 1);
        assert seen[matches - 1] in seen;
      }
    }
  }

  lemma NothingFound(re: Pattern, f: File)
    ensures f.Searched() == if f.content.None? then [] else Scanned(f.content.value)
    ensures FileMatches(re, f.path, []) == []
  {
  }

  lemma {:induction false} FileMatchesNext(
      re: Pattern, path: seq<Byte>, lines: seq<seq<Byte>>, n: nat)
    requires n < |lines|
    ensures FileMatches(re, path, lines[..n + 1]) == FileMatches(re, path, lines[..n])
         + if re(lines[n]) then [Format(path, n + 1, lines[n])] else []
    ensures FileMatches(re, path, lines[..n + 1]) <= FileMatches(re, path, lines)
    decreases |lines| - n
  {
    assert lines[..n + 1][..n] == lines[..n];
    if n + 1 < |lines| {
      FileMatchesNext(re, path, lines, n + 1);
    } else {
      assert lines[..n + 1] == lines;
    }
  }

  lemma {:induction false} AllMatchesGrow(re: Pattern, files: seq<File>, m: nat)
    requires m < |files|
    ensures AllMatches(re, files[..m]) + FileMatches(re, files[m].path, files[m].Searched())
         == AllMatches(re, files[..m + 1])
    ensures AllMatches(re, files[..m + 1]) <= AllMatches(re, files)
    decreases |files| - m
  {
    assert files[..m + 1][..m] == files[..m];
    if m + 1 < |files| {
      AllMatchesGrow(re, files, m + 1);
      assert files[..m + 2][..m + 1] == files[..m + 1];
    } else {
      assert files[..m + 1] == files;
    }
  }

  lemma {:induction false} MatchesAbsolute(re: Pattern, files: seq<File>)
    requires forall f <- files :: f.path != [] && f.path[0] == SLASH
    ensures Absolute(AllMatches(re, files))
    decreases |files|
  {
    if files != [] {
      var n := |files| - 1;
      MatchesAbsolute(re, files[..n]);
      assert files[n] in files;
      FileMatchesAbsolute(re, files[n].path, files[n].Searched());
    }
  }

  lemma {:induction false} FileMatchesAbsolute(re: Pattern, path: seq<Byte>, lines: seq<seq<Byte>>)
    requires path != [] && path[0] == SLASH
    ensures Absolute(FileMatches(re, path, lines))
    decreases |lines|
  {
    if lines != [] {
      FileMatchesAbsolute(re, path, lines[..|lines| - 1]);
    }
  }

  /** Searches the files of a tree in walking order; their paths are absolute. */
  method Grep(re: Pattern, files: seq<File>, requested: int, maxOutput: int)
    returns (out: seq<Byte>, truncated: bool)
    requires forall f <- files :: f.path != [] && f.path[0] == SLASH
    ensures var maxMatches :=
              if requested <= 0 then 1000 else if requested < 100000 then requested else 100000;
            (out, truncated) == Reference(AllMatches(re, files), maxMatches, maxOutput)
  {
    var maxMatches := ClampLimit(requested, GREP_DEFAULT_MATCHES, GREP_MAX_MATCHES);
    ghost var all := AllMatches(re, files);
    MatchesAbsolute(re, files);
    var s := new Search(re, maxMatches, maxOutput);
    for i := 0 to |files|
      invariant s.Valid() && !s.truncated && s.seen == AllMatches(re, files[..i])
    {
      AllMatchesGrow(re, files, i);
      var stop := s.ScanFile(files[i]);
      if stop {
        FullIsReference(s.b, s.matches, s.seen, all, maxMatches, maxOutput);
        var cut;
        out, cut := CapOutput(s.b, maxOutput);
        return out, true;
      }
    }
    assert files[..|files|] == files;
    HoldsIsReference(s.b, s.matches, all, maxMatches, maxOutput);
    out, truncated := CapOutput(s.b, maxOutput);
  }
}
