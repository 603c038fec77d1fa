/** Reading a file line by line with a bounded line length, as `bufio.Scanner` does. */
module LineScanner {
  import opened Common
  import opened Utf8

  /** A line this long, its newline excluded, ends the scan with an error. */
  const SCAN_LINE_CAP: nat := 0x10_0000

  const NEWLINE: Byte := 0x0A
  const CARRIAGE_RETURN: Byte := 0x0D

  /** The position of the first newline, or the length. */
  function LineEnd(s: seq<Byte>): (n: nat)
    ensures n <= |s| && (n < |s| ==> s[n] == NEWLINE)
    ensures forall k :: 0 <= k < n ==> s[k] != NEWLINE
  {
    if s == [] || s[0] == NEWLINE then 0 else 1 + LineEnd(s[1..])
  }

  function AfterLine(s: seq<Byte>): (r: seq<Byte>)
    ensures s != [] ==> |r| < |s|
  {
    if LineEnd(s) < |s| then s[LineEnd(s) + 1..] else []
  }

  function DropCR(line: seq<Byte>): (r: seq<Byte>)
    ensures line != [] && line[|line| - 1] == 0x0D ==> line == r + [0x0D]
    ensures line == [] || line[|line| - 1] != 0x0D ==> line == r
  {
    if line != [] && line[|line| - 1] == CARRIAGE_RETURN then line[..|line| - 1] else line
  }

  /** The lines of a text: newline terminated, except possibly the last, which is not empty. */
  function Lines(s: seq<Byte>): seq<seq<Byte>>
    decreases |s|
  {
    if s == [] then [] else [DropCR(s[..LineEnd(s)])] + Lines(AfterLine(s))
  }

  /** No line is too long for the scanner. */
  predicate LinesFit(s: seq<Byte>)
    decreases |s|
  {
    s == [] || (LineEnd(s) < SCAN_LINE_CAP && LinesFit(AfterLine(s)))
  }

  /** The lines the scanner yields: those before the first that is too long. */
  function Scanned(s: seq<Byte>): (r: seq<seq<Byte>>)
    ensures r <= Lines(s)
    ensures LinesFit(s) <==> r == Lines(s)
    decreases |s|
  {
    if s == [] || LineEnd(s) >= SCAN_LINE_CAP then []
    else [DropCR(s[..LineEnd(s)])] + Scanned(AfterLine(s))
  }

  /** Lines with their newlines, one after another. */
  function Unlines(lines: seq<seq<Byte>>): seq<Byte> {
    if lines == [] then [] else Unlines(lines[..|lines| - 1]) + lines[|lines| - 1] + [NEWLINE]
  }

  function Stripped(raw: seq<seq<Byte>>): seq<seq<Byte>> {
    seq(|raw|, i requires 0 <= i < |raw| => DropCR(raw[i]))
  }

  /**
   What the lines of a text are: for terminated lines `raw` and an unterminated rest, one
   line each, without a trailing carriage return; an empty rest is no line.
   */
  lemma {:induction false} LinesOfText(raw: seq<seq<Byte>>, rest: seq<Byte>)
    requires forall l <- raw :: NEWLINE !in l
    requires NEWLINE !in rest
    ensures Lines(Unlines(raw) + rest) == Stripped(raw) + if rest == [] then [] else [DropCR(rest)]
    decreases |raw|
  {
    hide *;
    if raw == [] {
      NoTerminatedLines(rest);
      NoLines();
      assert [] + rest == rest;
    } else {
      var others := Unlines(raw[1..]) + rest;
      UnlinesFirst(raw);
      assert raw[0] in raw;
      assert Unlines(raw) + rest == raw[0] + ([NEWLINE] + others);
      FirstTerminatedLine(raw[0], others);
      LinesOfText(raw[1..], rest);
      StrippedFirst(raw);
    }
  }

  lemma NoLines()
    ensures Stripped([]) == [] && Unlines([]) == []
  {
  }

  lemma StrippedFirst(raw: seq<seq<Byte>>)
    requires raw != []
    ensures Stripped(raw) == [DropCR(raw[0])] + Stripped(raw[1..])
  {
  }

  lemma {:induction false} NoTerminatedLines(rest: seq<Byte>)
    requires NEWLINE !in rest
    ensures Lines(rest) == if rest == [] then [] else [DropCR(rest)]
  {
    LineEndAt(rest, []);
    assert rest + [] == rest && rest[..|rest|] == rest;
  }

  lemma {:induction false} FirstTerminatedLine(line: seq<Byte>, others: seq<Byte>)
    requires NEWLINE !in line
    ensures Lines(line + ([NEWLINE] + others)) == [DropCR(line)] + Lines(others)
  {
    hide DropCR;
    var text := line + ([NEWLINE] + others);
    LineEndAt(line, [NEWLINE] + others);
    assert text[..|line|] == line && text[|line| + 1..] == others;
  }

  lemma {:induction false} UnlinesFirst(lines: seq<seq<Byte>>)
    requires lines != []
    ensures Unlines(lines) == lines[0] + [NEWLINE] + Unlines(lines[1..])
    decreases |lines|
  {
    if |lines| > 1 {
      UnlinesFirst(lines[..|lines| - 1]);
      assert lines[..|lines| - 1][1..] == lines[1..][..|lines| - 2];
    }
  }

  lemma {:induction false} LineEndAt(line: seq<Byte>, after: seq<Byte>)
    requires NEWLINE !in line && (after == [] || after[0] == NEWLINE)
    ensures LineEnd(line + after) == |line|
    decreases |line|
  {
    if line != [] {
      LineEndAt(line[1..], after);
      assert (line + after)[1..] == line[1..] + after;
    }
  }

  lemma {:induction false} LinesHaveNoNewline(s: seq<Byte>)
    ensures forall l <- Lines(s) :: NEWLINE !in l
    decreases |s|
  {
    if s != [] {
      assert NEWLINE !in s[..LineEnd(s)];
      LinesHaveNoNewline(AfterLine(s));
    }
  }

  class Scanner {
    var rest: seq<Byte>
    var failed: bool

    constructor (s: seq<Byte>)
      ensures Coming() == Scanned(s) && Fits() == LinesFit(s) && !failed
    {
      rest, failed := s, false;
    }

    /** The lines still to come. */
    ghost function Coming(): seq<seq<Byte>>
      reads this
    {
      if failed then [] else Scanned(rest)
    }

    /** Whether the scan will reach the end. */
    ghost predicate Fits()
      reads this
    {
      !failed && LinesFit(rest)
    }

    method Scan() returns (line: Option<seq<Byte>>)
      modifies this
      ensures old(Coming()) == (match line case Some(l) => [l] + Coming() case None => [])
      ensures Fits() == old(Fits())
      ensures line.None? ==> Coming() == [] && failed == !Fits()
    {
      if failed || rest == [] {
        return None;
      }
      var n := LineEnd(rest);
      if n >= SCAN_LINE_CAP {
        failed := true;
        return None;
      }
      line := Some(DropCR(rest[..n]));
      rest := AfterLine(rest);
    }
  }

  // ---------- Starting in the middle ----------

  ghost predicate IsSuffix<T>(a: seq<T>, b: seq<T>) {
    |a| <= |b| && a == b[|b| - |a|..]
  }

  /**
   Reading from the middle of a text and dropping the first, possibly partial, line gives
   the last lines of the whole text.
   */
  lemma {:induction false} LinesFromMiddle(before: seq<Byte>, after: seq<Byte>)
    requires after != []
    ensures IsSuffix(Lines(after)[1..], Lines(before + after))
    decreases |before|
  {
    hide Lines;
    var all := before + after;
    if before == [] {
      assert all == after;
      LinesTail(after);
    } else {
      LinesTail(all);
      AfterLineOfPrefix(before, after);
      if LineEnd(before) < |before| {
        LinesFromMiddle(AfterLine(before), after);
      } else {
        LinesTail(after);
      }
    }
  }

  /** Text put before another loses none of its lines. */
  lemma {:induction false} LinesAfterMore(before: seq<Byte>, after: seq<Byte>)
    ensures |Lines(before + after)| >= |Lines(after)|
    decreases |before|
  {
    hide Lines, LineEnd;
    var all := before + after;
    if before == [] {
      assert all == after;
    } else if after == [] {
      EmptyHasNoLines();
    } else {
      LinesTail(all);
      LinesTail(after);
      AfterLineOfPrefix(before, after);
      if LineEnd(before) < |before| {
        LinesAfterMore(AfterLine(before), after);
      }
    }
  }

  lemma {:induction false} AfterLineOfPrefix(before: seq<Byte>, after: seq<Byte>)
    requires before != []
    ensures AfterLine(before + after)
         == if LineEnd(before) < |before| then AfterLine(before) + after else AfterLine(after)
  {
    LineEndOfPrefix(before, after);
  }

  lemma EmptyHasNoLines()
    ensures Lines([]) == []
  {
  }

  lemma {:induction false} LinesTail(s: seq<Byte>)
    requires s != []
    ensures Lines(s) != [] && Lines(s)[1..] == Lines(AfterLine(s))
  {
  }

  lemma {:induction false} LineEndOfPrefix(before: seq<Byte>, after: seq<Byte>)
    ensures LineEnd(before + after)
         == if LineEnd(before) < |before| then LineEnd(before) else |before| + LineEnd(after)
    decreases |before|
  {
    if before == [] {
      assert before + after == after;
    } else {
      LineEndOfPrefix(before[1..], after);
      assert (before + after)[1..] == before[1..] + after;
    }
  }
}
