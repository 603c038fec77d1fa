/**
 What the grep tool is for: finding the matches among all lines of the files.  The scan of a
 file ends silently at a line that is too long, so this holds exactly up to such lines.
 */
module GrepLaws {
  import opened Common
  import opened Utf8
  import opened Capping
  import opened LineScanner
  import opened GrepTool

  function AllLines(f: File): seq<seq<Byte>> {
    if f.content.None? then [] else Lines(f.content.value)
  }

  /** No line of the file is too long for the scanner. */
  predicate FileFits(f: File) {
    f.content.None? || LinesFit(f.content.value)
  }

  /** The formatted matches among all lines of the files, in order. */
  function EveryMatch(re: Pattern, files: seq<File>): seq<seq<Byte>> {
    if files == [] then []
    else
      var n := |files| - 1;
      EveryMatch(re, files[..n]) + FileMatches(re, files[n].path, AllLines(files[n]))
  }

  lemma {:induction false} SearchedIsPrefix(f: File)
    ensures f.Searched() <= AllLines(f)
    ensures f.Searched() == AllLines(f) <==> FileFits(f)
  {
  }

  // ---------- One file ----------

  /** A match after the first lines is one more, so the matches are more exactly with one. */
  lemma {:induction false} MatchesOfMore(re: Pattern, path: seq<Byte>, some: seq<seq<Byte>>, all: seq<seq<Byte>>)
    requires some <= all
    ensures |FileMatches(re, path, some)| <= |FileMatches(re, path, all)|
    ensures FileMatches(re, path, some) == FileMatches(re, path, all) <==>
            forall k :: |some| <= k < |all| ==> !re(all[k])
    ensures |FileMatches(re, path, some)| == |FileMatches(re, path, all)| <==>
            forall k :: |some| <= k < |all| ==> !re(all[k])
    decreases |all|
  {
    if some != all {
      var n := |all| - 1;
      var before := all[..n];
      MatchesOfMore(re, path, some, before);
      assert forall k :: |some| <= k < n ==> before[k] == all[k];
    }
  }

  /** The scan misses a match exactly when one stands at or after a line that is too long. */
  lemma {:induction false} MissedExactly(re: Pattern, f: File)
    ensures FileMatches(re, f.path, f.Searched()) == FileMatches(re, f.path, AllLines(f)) <==>
            forall k :: |f.Searched()| <= k < |AllLines(f)| ==> !re(AllLines(f)[k])
  {
    SearchedIsPrefix(f);
    MatchesOfMore(re, f.path, f.Searched(), AllLines(f));
  }

  // ---------- All files ----------

  lemma {:induction false} FittingFiles(re: Pattern, files: seq<File>)
    requires forall f <- files :: FileFits(f)
    ensures AllMatches(re, files) == EveryMatch(re, files)
    decreases |files|
  {
    hide FileFits, AllLines;
    if files != [] {
      var n := |files| - 1;
      assert files[n] in files;
      SearchedIsPrefix(files[n]);
      FittingFiles(re, files[..n]);
    }
  }

  /** A pattern that matches every line. */
  function Any(): (re: Pattern)
    ensures forall line :: re(line)
  {
    _ => true
  }

  /** Counted over the pattern that every line matches, a line too long always shows. */
  lemma {:induction false} MatchesCounted(files: seq<File>)
    ensures |AllMatches(Any(), files)| <= |EveryMatch(Any(), files)|
    ensures |AllMatches(Any(), files)| == |EveryMatch(Any(), files)| ==> forall f <- files :: FileFits(f)
    decreases |files|
  {
    hide FileFits, AllLines, FileMatches, Any;
    if files != [] {
      var n := |files| - 1;
      MatchesCounted(files[..n]);
      FileCounted(files[n]);
      assert files == files[..n] + [files[n]];
    }
  }

  lemma {:induction false} FileCounted(f: File)
    ensures |FileMatches(Any(), f.path, f.Searched())| <= |FileMatches(Any(), f.path, AllLines(f))|
    ensures |FileMatches(Any(), f.path, f.Searched())| == |FileMatches(Any(), f.path, AllLines(f))|
            ==> FileFits(f)
  {
    hide FileFits, AllLines, FileMatches, Any;
    SearchedIsPrefix(f);
    MatchesOfMore(Any(), f.path, f.Searched(), AllLines(f));
    if f.Searched() != AllLines(f) {
      var k := |f.Searched()|;
      assert k < |AllLines(f)| && Any()(AllLines(f)[k]);
    }
  }

  /** Every pattern finds all its matches exactly when no line of any file is too long. */
  lemma {:induction false} SearchExactly(files: seq<File>)
    ensures (forall re: Pattern :: AllMatches(re, files) == EveryMatch(re, files)) <==>
            forall f <- files :: FileFits(f)
  {
    hide FileFits, AllMatches, EveryMatch;
    if forall f <- files :: FileFits(f) {
      forall re: Pattern
        ensures AllMatches(re, files) == EveryMatch(re, files)
      {
        FittingFiles(re, files);
      }
    } else {
      MatchesCounted(files);
      assert AllMatches(Any(), files) != EveryMatch(Any(), files);
    }
  }

  /** Then `Grep` returns the output and flag of the matches among all lines. */
  lemma {:induction false} FittingResult(re: Pattern, files: seq<File>, maxMatches: nat, maxOutput: int)
    requires forall f <- files :: FileFits(f)
    ensures Reference(AllMatches(re, files), maxMatches, maxOutput)
         == Reference(EveryMatch(re, files), maxMatches, maxOutput)
  {
    FittingFiles(re, files);
  }

  // ---------- An input on which a match is missed ----------

  function LongLine(): (s: seq<Byte>)
    ensures |s| == 1024 * 1024 && NEWLINE !in s && DropCR(s) == s
  {
    seq(SCAN_LINE_CAP, _ => 0x62)
  }

  /** One line of 1 MiB that matches: nothing is shown, and nothing is said to be missing. */
  lemma {:induction false} LongLineMissed(path: seq<Byte>)
    ensures var files := [File(path, Some(LongLine()))];
      && Reference(AllMatches(Any(), files), 1000, -1) == ([], false)
      && Reference(EveryMatch(Any(), files), 1000, -1) == (Format(path, 1, LongLine()), false)
  {
    hide LongLine, Format, Lines, Any;
    var s := LongLine();
    var f := File(path, Some(s));
    NoTerminatedLines(s);
    LineEndAt(s, []);
    assert s + [] == s;
    assert f.Searched() == [] && AllLines(f) == [s];
    assert [f][..0] == [] && [s][..0] == [];
    assert FileMatches(Any(), path, [s]) == [Format(path, 1, s)];
    assert EveryMatch(Any(), [f]) == [Format(path, 1, s)];
    assert [Format(path, 1, s)][..0] == [];
    assert Concat([Format(path, 1, s)]) == Format(path, 1, s);
  }
}
