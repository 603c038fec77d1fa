/**
 What the tail tool is for: showing the last lines of a file.  When its result is exactly
 those lines, and inputs on which it is not.
 */
module TailLaws {
  import opened Common
  import opened Utf8
  import opened Capping
  import opened LineScanner
  import opened TailTool

  /** The text of the last `n` lines of a file. */
  function LastLines(content: seq<Byte>, n: nat): seq<Byte> {
    Unlines(LastN(Lines(content), n))
  }

  /** The tool shows the last requested lines of the whole file, all of them. */
  predicate ShowsLastLines(content: seq<Byte>, size: Option<nat>, requested: int, maxOutput: int) {
    var r := TailResult(content, size, requested, maxOutput);
    r.Some? && r.value.0 == LastLines(content, LineCount(requested))
  }

  /** What is read ends where the file ends. */
  predicate ReachesEnd(length: nat, size: Option<nat>) {
    length <= Start(size) + TAIL_MAX_SCAN
  }

  /** What is read starts with the file, or has a line more than is asked for. */
  predicate HoldsEnough(content: seq<Byte>, size: Option<nat>, n: nat) {
    Start(size) == 0 || |Lines(Window(content, size))| > n || content == []
  }

  /** No line read is too long, enough lines are read, and their text is within the cap. */
  predicate Suits(content: seq<Byte>, size: Option<nat>, requested: int, maxOutput: int) {
    var n := LineCount(requested);
    && LinesFit(Window(content, size))
    && HoldsEnough(content, size, n)
    && Fits(LastLines(content, n), maxOutput)
  }

  // ---------- The lines chosen ----------

  lemma {:induction false} WindowAtEnd(content: seq<Byte>, size: Option<nat>)
    requires ReachesEnd(|content|, size)
    ensures var w, start := Window(content, size), Start(size);
      && (w != [] ==> start <= |content| && content == content[..start] + w && Lines(w) != [])
      && (w == [] ==> Lines(w) == [])
      && (start == 0 ==> w == content)
  {
  }

  lemma SuffixLast<T>(chosen: seq<T>, all: seq<T>, n: nat)
    requires IsSuffix(chosen, all) || chosen == all || chosen == []
    ensures IsSuffix(LastN(chosen, n), all)
    ensures |chosen| >= n || chosen == all ==> LastN(chosen, n) == LastN(all, n)
  {
  }

  /**
   When the window reaches the end of the file, the lines chosen are the last ones of the
   whole file, none of them in part; with enough lines in the window they are the last `n`.
   */
  lemma {:induction false} ChosenIsSuffix(content: seq<Byte>, size: Option<nat>, n: nat)
    requires ReachesEnd(|content|, size)
    ensures IsSuffix(Chosen(content, size, n), Lines(content))
    ensures HoldsEnough(content, size, n) ==> Chosen(content, size, n) == LastN(Lines(content), n)
  {
    hide Lines, LastN, IsSuffix;
    var w := Window(content, size);
    var all := Lines(content);
    WindowAtEnd(content, size);
    EmptyHasNoLines();
    if w == [] {
      SuffixLast([], all, n);
    } else if Start(size) > 0 {
      LinesFromMiddle(content[..Start(size)], w);
      SuffixLast(Lines(w)[1..], all, n);
    } else {
      SuffixLast(all, all, n);
    }
  }

  /** Without enough lines in the window fewer are chosen than the file has to show. */
  lemma {:induction false} TooFewChosen(content: seq<Byte>, size: Option<nat>, n: nat)
    requires ReachesEnd(|content|, size) && n > 0 && !HoldsEnough(content, size, n)
    ensures |Chosen(content, size, n)| < |LastN(Lines(content), n)|
  {
    hide Lines;
    var w := Window(content, size);
    WindowAtEnd(content, size);
    LinesTail(content);
    if w != [] {
      LinesAfterMore(content[..Start(size)], w);
    }
  }

  // ---------- Comparing texts by their newlines ----------

  function CountNewlines(s: seq<Byte>): nat {
    if s == [] then 0
    else CountNewlines(s[..|s| - 1]) + if s[|s| - 1] == NEWLINE then 1 else 0
  }

  lemma {:induction false} CountAppend(s: seq<Byte>, t: seq<Byte>)
    ensures CountNewlines(s + t) == CountNewlines(s) + CountNewlines(t)
    decreases |t|
  {
    if t == [] {
      assert s + t == s;
    } else {
      CountAppend(s, t[..|t| - 1]);
      assert (s + t)[..|s + t| - 1] == s + t[..|t| - 1];
    }
  }

  lemma {:induction false} CountNone(s: seq<Byte>)
    requires NEWLINE !in s
    ensures CountNewlines(s) == 0
    decreases |s|
  {
    if s != [] {
      CountNone(s[..|s| - 1]);
    }
  }

  lemma {:induction false} CountOfUnlines(lines: seq<seq<Byte>>)
    requires forall l <- lines :: NEWLINE !in l
    ensures CountNewlines(Unlines(lines)) == |lines|
    decreases |lines|
  {
    if lines != [] {
      var n := |lines| - 1;
      var before, line := Unlines(lines[..n]), lines[n];
      CountOfUnlines(lines[..n]);
      CountNone(line);
      CountAppend(before, line);
      CountAppend(before + line, [NEWLINE]);
      assert CountNewlines([NEWLINE]) == 1 by {
        assert [NEWLINE][..0] == [];
      }
    }
  }

  /** What a cap leaves of some lines is never the text of more lines. */
  lemma {:induction false} CappedIsNotMore(few: seq<seq<Byte>>, many: seq<seq<Byte>>, max: int)
    requires |few| < |many|
    requires forall l <- few :: NEWLINE !in l
    requires forall l <- many :: NEWLINE !in l
    ensures Capped(Unlines(few), max).0 != Unlines(many)
  {
    hide Unlines;
    var text, out := Unlines(few), Capped(Unlines(few), max).0;
    CountOfUnlines(few);
    CountOfUnlines(many);
    assert text == out + text[|out|..];
    CountAppend(out, text[|out|..]);
  }

  /** A cap leaves a text as it is exactly when the text is within it. */
  lemma CappedIsWhole(text: seq<Byte>, max: int)
    ensures Capped(text, max).0 == text <==> Fits(text, max)
    ensures Fits(text, max) ==> !Capped(text, max).1
  {
  }

  // ---------- When the result is right ----------

  /**
   When the window reaches the end of the file, the tool shows its last lines exactly when
   no line is too long, the window holds enough lines, and their text is within the cap.
   */
  lemma {:induction false} ShowsExactly(
      content: seq<Byte>, size: Option<nat>, requested: int, maxOutput: int)
    requires ReachesEnd(|content|, size)
    ensures ShowsLastLines(content, size, requested, maxOutput) <==>
            Suits(content, size, requested, maxOutput)
    ensures ShowsLastLines(content, size, requested, maxOutput) ==>
            !TailResult(content, size, requested, maxOutput).value.1
  {
    hide Lines, LinesFit, Unlines, Capped, HoldsEnough, ReachesEnd, Chosen, LastN, Fits;
    var n := LineCount(requested);
    var chosen, last := Chosen(content, size, n), LastN(Lines(content), n);
    if HoldsEnough(content, size, n) {
      ChosenIsSuffix(content, size, n);
      CappedIsWhole(Unlines(chosen), maxOutput);
    } else {
      TooFewChosen(content, size, n);
      ChosenHaveNoNewline(content, size, n);
      CappedIsNotMore(chosen, last, maxOutput);
    }
  }

  lemma {:induction false} ChosenHaveNoNewline(content: seq<Byte>, size: Option<nat>, n: nat)
    ensures forall l <- Chosen(content, size, n) :: NEWLINE !in l
    ensures forall l <- LastN(Lines(content), n) :: NEWLINE !in l
  {
    hide Lines, Window;
    LinesHaveNoNewline(Window(content, size));
    LinesHaveNoNewline(content);
  }

  /** Of a file whose size is reported, the last 8 MiB are read. */
  lemma {:induction false} ReportedWindow(content: seq<Byte>)
    ensures var w := Window(content, Some(|content|));
      && content == content[..|content| - |w|] + w
      && |w| == if |content| <= 8 * 1024 * 1024 then |content| else 8 * 1024 * 1024
  {
  }

  /** For a file whose size is reported: the whole condition, with nothing else assumed. */
  lemma {:induction false} ReportedExactly(content: seq<Byte>, requested: int, maxOutput: int)
    ensures var n, w := LineCount(requested), Window(content, Some(|content|));
      ShowsLastLines(content, Some(|content|), requested, maxOutput) <==>
        && LinesFit(w)
        && (|content| <= TAIL_MAX_SCAN || |Lines(w)| > n)
        && Fits(LastLines(content, n), maxOutput)
  {
    hide Lines, LinesFit, ShowsLastLines, LastLines, Fits, Window;
    ShowsExactly(content, Some(|content|), requested, maxOutput);
  }

  // ---------- Inputs on which it is not ----------

  const LETTER_A: Byte := 0x61
  const LETTER_B: Byte := 0x62

  /** The cap keeps the beginning: of two short lines the newest is the one lost. */
  lemma {:induction false} NewestLineLost()
    ensures var content := [LETTER_A, NEWLINE, LETTER_B, NEWLINE];
      && TailResult(content, Some(4), 2, 2) == Some(([LETTER_A, NEWLINE], true))
      && LastLines(content, 2) == content
      && !ShowsLastLines(content, Some(4), 2, 2)
  {
    var content := [LETTER_A, NEWLINE, LETTER_B, NEWLINE];
    var raw := [[LETTER_A], [LETTER_B]];
    TwoLines(raw, content);
    LinesFitOf(raw);
    assert content[..2] == [LETTER_A, NEWLINE];
    assert CutAt(content, 2) == 2;
  }

  lemma OwnLine(line: seq<Byte>)
    requires line != [] && line[|line| - 1] != CARRIAGE_RETURN
    ensures DropCR(line) == line
  {
  }

  lemma {:induction false} TwoLines(raw: seq<seq<Byte>>, content: seq<Byte>)
    requires raw == [[LETTER_A], [LETTER_B]] && content == [LETTER_A, NEWLINE, LETTER_B, NEWLINE]
    ensures Unlines(raw) == content && Lines(content) == raw
  {
    hide Lines, DropCR;
    UnlinesFirst(raw);
    assert raw[1..] == [[LETTER_B]];
    OneLine([LETTER_B]);
    assert Unlines(raw) == content == content + [];
    LinesOfText(raw, []);
    OwnLine([LETTER_A]);
    OwnLine([LETTER_B]);
    assert Stripped(raw) == raw;
  }

  /** Lines that are short enough and hold no newline fit the scanner. */
  lemma {:induction false} LinesFitOf(raw: seq<seq<Byte>>)
    requires forall l <- raw :: NEWLINE !in l && |l| < SCAN_LINE_CAP
    ensures LinesFit(Unlines(raw))
    decreases |raw|
  {
    if raw != [] {
      var others := Unlines(raw[1..]);
      UnlinesFirst(raw);
      assert raw[0] in raw;
      assert Unlines(raw) == raw[0] + ([NEWLINE] + others);
      LineEndAt(raw[0], [NEWLINE] + others);
      assert AfterLine(Unlines(raw)) == others;
      LinesFitOf(raw[1..]);
    }
  }

  /** Lines of 1023 letters, 1 KiB each with their newlines. */
  function KiloLine(): (l: seq<Byte>)
    ensures |l| == 1023 && NEWLINE !in l && DropCR(l) == l
  {
    seq(1023, _ => LETTER_B)
  }

  function KiloLines(n: nat): (raw: seq<seq<Byte>>)
    ensures |raw| == n && forall l <- raw :: l == KiloLine()
  {
    seq(n, _ => KiloLine())
  }

  lemma {:induction false} KiloText(n: nat)
    ensures |Unlines(KiloLines(n))| == 1024 * n
    ensures Lines(Unlines(KiloLines(n))) == KiloLines(n)
    ensures LinesFit(Unlines(KiloLines(n)))
  {
    hide KiloLine, Lines, DropCR;
    KiloLength(n);
    LinesFitOf(KiloLines(n));
    LinesOfText(KiloLines(n), []);
    assert Unlines(KiloLines(n)) + [] == Unlines(KiloLines(n));
    assert Stripped(KiloLines(n)) == KiloLines(n);
  }

  lemma {:induction false} KiloLength(n: nat)
    ensures |Unlines(KiloLines(n))| == 1024 * n
    decreases n
  {
    hide KiloLine;
    if n > 0 {
      KiloLength(n - 1);
      assert KiloLines(n)[..n - 1] == KiloLines(n - 1);
    }
  }

  lemma {:induction false} UnlinesAppend(a: seq<seq<Byte>>, b: seq<seq<Byte>>)
    ensures Unlines(a + b) == Unlines(a) + Unlines(b)
    decreases |b|
  {
    if b == [] {
      assert a + b == a;
    } else {
      UnlinesAppend(a, b[..|b| - 1]);
      assert (a + b)[..|a + b| - 1] == a + b[..|b| - 1];
    }
  }

  /** Of a 9 MiB file of 1 KiB lines, 9216 in all, 8191 are shown when all are asked for. */
  lemma {:induction false} LongRequestCutShort()
    ensures var content := Unlines(KiloLines(9216));
      && |content| == 9 * 0x10_0000 && |Lines(content)| == 9216
      && LineCount(10000) == 10000
      && TailResult(content, Some(|content|), 10000, -1)
         == Some((Unlines(KiloLines(8191)), false))
      && !ShowsLastLines(content, Some(|content|), 10000, -1)
  {
    hide KiloLine, KiloLines, Lines, LinesFit, Unlines;
    var content, w := Unlines(KiloLines(9216)), Unlines(KiloLines(8192));
    KiloText(9216);
    KiloText(8192);
    KiloLength(1024);
    KiloLength(8191);
    KiloSplit(1024, 8192);
    UnlinesAppend(KiloLines(1024), KiloLines(8192));
    assert content[1024 * 1024..] == w;
    assert Window(content, Some(|content|)) == w;
    KiloTail(8192);
    assert Chosen(content, Some(|content|), 10000) == KiloLines(8191);
    assert |LastLines(content, 10000)| == |content| != |Unlines(KiloLines(8191))|;
  }

  lemma KiloSplit(m: nat, n: nat)
    ensures KiloLines(m + n) == KiloLines(m) + KiloLines(n)
  {
  }

  lemma KiloTail(n: nat)
    requires n > 0
    ensures KiloLines(n)[1..] == KiloLines(n - 1)
  {
  }

  function Newlines(n: nat): seq<Byte> {
    seq(n, _ => NEWLINE)
  }

  /** A file whose last line is missed when the window ends before the file does. */
  function LateLine(length: nat): seq<Byte>
    requires length > 0
  {
    Newlines(length - 1) + [LETTER_B]
  }

  lemma {:induction false} UnlinesOfEmpty(n: nat)
    ensures Unlines(seq(n, _ => [])) == Newlines(n)
    decreases n
  {
    if n > 0 {
      var raw: seq<seq<Byte>> := seq(n, _ => []);
      UnlinesOfEmpty(n - 1);
      assert raw[..n - 1] == seq(n - 1, _ => []);
    }
  }

  lemma {:induction false} LinesOfNewlines(n: nat, rest: seq<Byte>)
    requires rest == [] || rest == [LETTER_B]
    ensures Lines(Newlines(n) + rest) == seq(n, _ => []) + if rest == [] then [] else [rest]
  {
    var raw: seq<seq<Byte>> := seq(n, _ => []);
    UnlinesOfEmpty(n);
    LinesOfText(raw, rest);
    assert Stripped(raw) == raw;
  }

  lemma {:induction false} LateLineMissed(length: nat, size: Option<nat>)
    requires !ReachesEnd(length, size)
    ensures var content := LateLine(length);
      && |content| == length && Suits(content, size, 1, -1)
      && TailResult(content, size, 1, -1) == Some(([NEWLINE], false))
      && LastLines(content, 1) == [LETTER_B, NEWLINE]
  {
    hide Lines, LinesFit;
    var content := LateLine(length);
    var w := Window(content, size);
    assert w == Newlines(TAIL_MAX_SCAN) == Newlines(TAIL_MAX_SCAN) + [];
    LinesOfNewlines(TAIL_MAX_SCAN, []);
    LinesOfNewlines(length - 1, [LETTER_B]);
    UnlinesOfEmpty(TAIL_MAX_SCAN);
    var empty: seq<seq<Byte>> := seq(TAIL_MAX_SCAN, _ => []);
    LinesFitOf(empty);
    assert LinesFit(w);
    assert Chosen(content, size, 1) == [[]];
    assert LastN(Lines(content), 1) == [[LETTER_B]];
    OneLine([]);
    OneLine([LETTER_B]);
    assert Unlines([[]]) == [NEWLINE];
  }

  lemma {:induction false} OneLine(line: seq<Byte>)
    ensures Unlines([line]) == line + [NEWLINE]
  {
    assert [line][..0] == [];
    assert [] + line + [NEWLINE] == line + [NEWLINE];
  }

  /**
   Every request the other conditions allow is answered right, for all files of a length,
   exactly when the window reaches their end; it does for every file whose size is reported.
   */
  lemma {:induction false} WindowExactly(length: nat, size: Option<nat>)
    ensures (forall content, requested, maxOutput |
               |content| == length && Suits(content, size, requested, maxOutput) ::
               ShowsLastLines(content, size, requested, maxOutput))
            <==> ReachesEnd(length, size)
    ensures size == Some(length) ==> ReachesEnd(length, size)
  {
    hide Suits;
    if ReachesEnd(length, size) {
      hide ShowsLastLines;
      forall content, requested, maxOutput |
        |content| == length && Suits(content, size, requested, maxOutput)
        ensures ShowsLastLines(content, size, requested, maxOutput)
      {
        ShowsExactly(content, size, requested, maxOutput);
      }
    } else {
      LateLineMissed(length, size);
      assert !ShowsLastLines(LateLine(length), size, 1, -1);
    }
  }
}
