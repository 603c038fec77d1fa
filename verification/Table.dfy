/** Rendering of query results as an aligned text table (tool_db.go); text is a list of runes. */
module Table {

  /** A scanned value; `Other` carries its default formatting. */
  datatype Value = Null | Bytes(text: string) | Text(text: string) | Other(text: string)

  function ReplaceAll(s: string, c: char, d: char): (r: string)
    ensures |r| == |s|
    ensures forall i :: 0 <= i < |s| ==> r[i] == if s[i] == c then d else s[i]
  {
    seq(|s|, i requires 0 <= i < |s| => if s[i] == c then d else s[i])
  }

  predicate IsBreak(c: char) {
    c == '\n' || c == '\r' || c == '\t'
  }

  /** One line: line breaks and tabs become spaces, nothing else changes. */
  function FormatCell(v: Value): (r: string)
    ensures v.Null? ==> r == "NULL"
    ensures !v.Null? ==> |r| == |v.text|
    ensures !v.Null? ==> forall i :: 0 <= i < |r| ==> r[i] == if IsBreak(v.text[i]) then ' ' else v.text[i]
    ensures forall c <- r :: !IsBreak(c)
  {
    if v.Null? then "NULL"
    else ReplaceAll(ReplaceAll(ReplaceAll(v.text, '\n', ' '), '\r', ' '), '\t', ' ')
  }

  // ---------- What a table looks like ----------

  function Max(a: nat, b: nat): nat {
    if a < b then b else a
  }

  /** The widest cell of column `j`, its header included; rows may lack it. */
  function Width(cols: seq<string>, rows: seq<seq<string>>, j: nat): (w: nat)
    requires j < |cols|
    ensures w >= |cols[j]| && forall r <- rows :: j < |r| ==> w >= |r[j]|
    ensures w == |cols[j]| || exists r <- rows :: j < |r| && w == |r[j]|
  {
    if rows == [] then |cols[j]|
    else
      var n := |rows| - 1;
      var w := Width(cols, rows[..n], j);
      assert rows == rows[..n] + [rows[n]];
      if j < |rows[n]| then Max(w, |rows[n][j]|) else w
  }

  function Widths(cols: seq<string>, rows: seq<seq<string>>): (w: seq<nat>)
    ensures |w| == |cols|
  {
    seq(|cols|, j requires 0 <= j < |cols| => Width(cols, rows, j))
  }

  function Repeat(c: char, n: nat): (r: string)
    ensures |r| == n && forall i :: 0 <= i < n ==> r[i] == c
  {
    seq(n, i => c)
  }

  function Padding(cell: string, width: nat): string {
    if |cell| < width then Repeat(' ', width - |cell|) else ""
  }

  /** The text of the first `n` cells of a row: all but the last of the row are padded. */
  function Row(cells: seq<string>, widths: seq<nat>, n: nat): string
    requires n <= |cells| <= |widths| + 1
  {
    if n == 0 then ""
    else
      Row(cells, widths, n - 1)
      + (if n > 1 then "  " else "") + cells[n - 1]
      + if n < |cells| then Padding(cells[n - 1], widths[n - 1]) else ""
  }

  function Rule(widths: seq<nat>): (r: seq<string>)
    ensures |r| == |widths| && forall j :: 0 <= j < |r| ==> |r[j]| == widths[j]
  {
    seq(|widths|, j requires 0 <= j < |widths| => Repeat('-', widths[j]))
  }

  /** No row can be written that is longer than the header by more than one cell. */
  predicate Writable(cols: seq<string>, rows: seq<seq<string>>) {
    forall r <- rows :: |r| <= |cols| + 1
  }

  /** The cells of every line: header, rule, rows. */
  function CellLines(cols: seq<string>, rows: seq<seq<string>>): (r: seq<seq<string>>)
    requires Writable(cols, rows)
    ensures |r| == |rows| + 2 && Writable(cols, r)
  {
    [cols, Rule(Widths(cols, rows))] + rows
  }

  /** The first `n` lines, each ended by a newline. */
  function Written(cellLines: seq<seq<string>>, widths: seq<nat>, n: nat): string
    requires n <= |cellLines| && forall r <- cellLines :: |r| <= |widths| + 1
  {
    if n == 0 then ""
    else
      var cells := cellLines[n - 1];
      Written(cellLines, widths, n - 1) + Row(cells, widths, |cells|) + "\n"
  }

  // ---------- Writing a table ----------

  class Builder {
    var text: string

    constructor ()
      ensures text == ""
    {
      text := "";
    }

    method Write(s: string)
      modifies this
      ensures text == old(text) + s
    {
      text := text + s;
    }
  }

  lemma {:induction false} RowNext(text: string, cells: seq<string>, widths: seq<nat>, i: nat)
    requires i < |cells| <= |widths| + 1
    ensures text + Row(cells, widths, i + 1) ==
      text + Row(cells, widths, i) + (if i > 0 then "  " else "") + cells[i]
      + if i + 1 < |cells| then Padding(cells[i], widths[i]) else ""
  {
    var row := Row(cells, widths, i);
    var sep := if i > 0 then "  " else "";
    var pad := if i + 1 < |cells| then Padding(cells[i], widths[i]) else "";
    assert Row(cells, widths, i + 1) == row + sep + cells[i] + pad;
    assert text + (row + sep + cells[i] + pad) == text + row + sep + cells[i] + pad;
  }

  lemma RowOfNone(text: string, cells: seq<string>, widths: seq<nat>)
    requires |cells| <= |widths| + 1
    ensures text == text + Row(cells, widths, 0)
  {
  }

  method WriteTableRow(b: Builder, cells: seq<string>, widths: array<nat>)
    requires |cells| <= widths.Length + 1
    modifies b
    ensures b.text == old(b.text) + Row(cells, widths[..], |cells|) + "\n"
  {
    hide Row;
    ghost var w, was := widths[..], b.text;
    RowOfNone(was, cells, w);
    for i := 0 to |cells|
      invariant b.text == was + Row(cells, w, i) && widths[..] == w
    {
      RowNext(was, cells, w, i);
      if i > 0 {
        b.Write("  ");
      }
      b.Write(cells[i]);
      if i < |cells| - 1 {
        var pad := widths[i] - |cells[i]|;
        if pad > 0 {
          b.Write(Repeat(' ', pad));
        }
      }
    }
    b.Write("\n");
  }

  /** Raises the widths to those of one more row's cells; further cells are ignored. */
  method Widen(widths: array<nat>, r: seq<string>)
    modifies widths
    ensures forall j :: 0 <= j < widths.Length ==>
      widths[j] == if j < |r| then Max(old(widths[j]), |r[j]|) else old(widths[j])
  {
    for i := 0 to |r|
      invariant forall j :: 0 <= j < widths.Length ==>
        widths[j] == if j < i then Max(old(widths[j]), |r[j]|) else old(widths[j])
    {
      var w := |r[i]|;
      if i < widths.Length && w > widths[i] {
        widths[i] := w;
      }
    }
  }

  method MeasureColumns(cols: seq<string>, rows: seq<seq<string>>) returns (widths: array<nat>)
    ensures fresh(widths) && widths[..] == Widths(cols, rows)
  {
    widths := new nat[|cols|];
    for i := 0 to |cols|
      invariant forall j :: 0 <= j < i ==> widths[j] == |cols[j]|
    {
      widths[i] := |cols[i]|;
    }
    for k := 0 to |rows|
      invariant forall j :: 0 <= j < |cols| ==> widths[j] == Width(cols, rows[..k], j)
    {
      assert rows[..k + 1][..k] == rows[..k];
      Widen(widths, rows[k]);
    }
    assert rows[..|rows|] == rows;
  }

  /** Writes the next of the table's lines. */
  method WriteLine(b: Builder, cells: seq<string>, widths: array<nat>,
                   ghost lines: seq<seq<string>>, ghost n: nat)
    requires n < |lines| && lines[n] == cells && forall r <- lines :: |r| <= widths.Length + 1
    requires b.text == Written(lines, widths[..], n)
    modifies b
    ensures b.text == Written(lines, widths[..], n + 1)
  {
    hide Row;
    assert cells in lines;
    WriteTableRow(b, cells, widths);
  }

  lemma Lines(cols: seq<string>, rows: seq<seq<string>>)
    requires Writable(cols, rows)
    ensures var lines := CellLines(cols, rows);
      && |lines| == |rows| + 2 && lines[0] == cols && lines[1] == Rule(Widths(cols, rows))
      && (forall i :: 0 <= i < |rows| ==> lines[i + 2] == rows[i])
      && (forall r <- lines :: |r| <= |cols| + 1)
      && Written(lines, Widths(cols, rows), 0) == ""
  {
  }

  method RenderTable(cols: seq<string>, rows: seq<seq<string>>) returns (text: string)
    requires cols != [] ==> Writable(cols, rows)
    ensures text ==
      if cols == [] then ""
      else Written(CellLines(cols, rows), Widths(cols, rows), |rows| + 2)
  {
    hide *;
    if |cols| == 0 {
      return "";
    }
    var widths := MeasureColumns(cols, rows);
    ghost var lines, w := CellLines(cols, rows), Widths(cols, rows);
    Lines(cols, rows);
    var b := new Builder();
    WriteLine(b, cols, widths, lines, 0);
    var seps := seq(|cols|, j requires 0 <= j < |cols| => "");
    for i := 0 to |cols|
      invariant |seps| == |cols| && forall j :: 0 <= j < i ==> seps[j] == Repeat('-', w[j])
    {
      seps := seps[i := Repeat('-', widths[i])];
    }
    RuleOf(seps, w);
    WriteLine(b, seps, widths, lines, 1);
    for i := 0 to |rows|
      invariant b.text == Written(lines, w, i + 2) && widths[..] == w
    {
      WriteLine(b, rows[i], widths, lines, i + 2);
    }
    return b.text;
  }

  lemma RuleOf(seps: seq<string>, w: seq<nat>)
    requires |seps| == |w| && forall j :: 0 <= j < |w| ==> seps[j] == Repeat('-', w[j])
    ensures seps == Rule(w)
  {
  }

  // ---------- Alignment ----------

  /** Where column `j` starts: the earlier widths and two spaces after each. */
  function Offset(widths: seq<nat>, j: nat): nat
    requires j <= |widths|
  {
    if j == 0 then 0 else Offset(widths, j - 1) + widths[j - 1] + 2
  }

  predicate FitsWidths(cells: seq<string>, widths: seq<nat>) {
    |cells| == |widths| && forall j :: 0 <= j < |cells| ==> |cells[j]| <= widths[j]
  }

  /** Cell `j` starts at its column's offset and only spaces follow it up to the next. */
  ghost predicate AlignedAt(line: string, cells: seq<string>, widths: seq<nat>, j: nat)
    requires j < |cells| == |widths|
  {
    var start, end := Offset(widths, j), Offset(widths, j) + |cells[j]|;
    && end <= |line| && line[start..end] == cells[j]
    && (j + 1 < |cells| ==>
          && Offset(widths, j + 1) <= |line|
          && forall k :: end <= k < Offset(widths, j + 1) ==> line[k] == ' ')
    && (j + 1 == |cells| ==> |line| == end)
  }

  ghost predicate Aligned(line: string, cells: seq<string>, widths: seq<nat>)
    requires |cells| == |widths|
  {
    forall j :: 0 <= j < |cells| ==> AlignedAt(line, cells, widths, j)
  }

  lemma {:induction false} RowLength(cells: seq<string>, widths: seq<nat>, n: nat)
    requires FitsWidths(cells, widths) && 0 < n < |cells|
    ensures |Row(cells, widths, n)| + 2 == Offset(widths, n)
    decreases n
  {
    if n > 1 {
      RowLength(cells, widths, n - 1);
    }
  }

  lemma {:induction false} RowGrows(cells: seq<string>, widths: seq<nat>, m: nat, n: nat)
    requires m <= n <= |cells| == |widths|
    ensures Row(cells, widths, m) <= Row(cells, widths, n)
    decreases n
  {
    if m < n {
      RowGrows(cells, widths, m, n - 1);
    }
  }

  lemma {:induction false} RowAligned(cells: seq<string>, widths: seq<nat>)
    requires FitsWidths(cells, widths)
    ensures Aligned(Row(cells, widths, |cells|), cells, widths)
  {
    forall j | 0 <= j < |cells|
      ensures AlignedAt(Row(cells, widths, |cells|), cells, widths, j)
    {
      CellAligned(cells, widths, j);
    }
  }

  lemma {:induction false} CellAligned(cells: seq<string>, widths: seq<nat>, j: nat)
    requires FitsWidths(cells, widths) && j < |cells| == |widths|
    ensures AlignedAt(Row(cells, widths, |cells|), cells, widths, j)
  {
    hide *;
    var line := Row(cells, widths, |cells|);
    var before := RowBefore(cells, widths, j);
    if j + 1 < |cells| {
      var spaces := SpacesAfter(cells, widths, j);
      RowGrows(cells, widths, j + 2, |cells|);
      CellThenSpaces(line, before, cells[j], spaces);
      InnerAligned(line, cells, widths, j, before, spaces);
    } else {
      LastAligned(cells, widths, before);
    }
  }

  /** What is written before a cell reaches to its column's offset. */
  lemma {:induction false} RowBefore(cells: seq<string>, widths: seq<nat>, j: nat) returns (before: string)
    requires FitsWidths(cells, widths) && j < |cells|
    ensures before == Row(cells, widths, j) + if j > 0 then "  " else ""
    ensures |before| == Offset(widths, j)
  {
    before := Row(cells, widths, j) + if j > 0 then "  " else "";
    if j > 0 {
      RowLength(cells, widths, j);
    }
  }

  lemma {:induction false} SpacesAfter(cells: seq<string>, widths: seq<nat>, j: nat) returns (spaces: string)
    requires FitsWidths(cells, widths) && j + 1 < |cells|
    ensures |cells[j]| + |spaces| == widths[j] + 2 && forall c <- spaces :: c == ' '
    ensures Row(cells, widths, j) + (if j > 0 then "  " else "") + cells[j] + spaces
         <= Row(cells, widths, j + 2)
  {
    spaces := Padding(cells[j], widths[j]) + "  ";
    var before := Row(cells, widths, j) + if j > 0 then "  " else "";
    var next := Row(cells, widths, j + 2);
    assert Row(cells, widths, j + 1) == before + cells[j] + Padding(cells[j], widths[j]);
    assert next == Row(cells, widths, j + 1) + "  " + cells[j + 1]
                   + (next[|Row(cells, widths, j + 1)| + 2 + |cells[j + 1]|..]);
    assert before + cells[j] + spaces == Row(cells, widths, j + 1) + "  ";
  }

  lemma InnerAligned(
      line: string, cells: seq<string>, widths: seq<nat>, j: nat, before: string, spaces: string)
    requires FitsWidths(cells, widths) && j + 1 < |cells|
    requires |before| == Offset(widths, j) && |cells[j]| + |spaces| == widths[j] + 2
    requires before + cells[j] + spaces <= line
    requires line[|before|..|before| + |cells[j]|] == cells[j]
    requires forall k :: |before| + |cells[j]| <= k < |before| + |cells[j]| + |spaces| ==> line[k] == ' '
    ensures AlignedAt(line, cells, widths, j)
  {
  }

  lemma {:induction false} LastAligned(cells: seq<string>, widths: seq<nat>, before: string)
    requires FitsWidths(cells, widths) && cells != []
    requires var j := |cells| - 1;
      before == Row(cells, widths, j) + (if j > 0 then "  " else "") && |before| == Offset(widths, j)
    ensures AlignedAt(Row(cells, widths, |cells|), cells, widths, |cells| - 1)
  {
    assert Row(cells, widths, |cells|) == before + cells[|cells| - 1];
  }

  lemma {:induction false} CellThenSpaces(line: string, before: string, cell: string, spaces: string)
    requires before + cell + spaces <= line && forall c <- spaces :: c == ' '
    ensures line[|before|..|before| + |cell|] == cell
    ensures forall k :: |before| + |cell| <= k < |before| + |cell| + |spaces| ==> line[k] == ' '
  {
    var t := before + cell + spaces;
    assert t == line[..|t|];
    forall k | |before| + |cell| <= k < |t|
      ensures line[k] == ' '
    {
      var c := spaces[k - |before| - |cell|];
      assert c in spaces && line[k] == t[k] == c;
    }
  }

  /** In every line of a rectangular table the cells of a column start at the same offset. */
  lemma {:induction false} TableAligned(cols: seq<string>, rows: seq<seq<string>>)
    requires forall r <- rows :: |r| == |cols|
    ensures forall cells <- CellLines(cols, rows) ::
      |cells| == |cols| && Aligned(Row(cells, Widths(cols, rows), |cells|), cells, Widths(cols, rows))
  {
    var w := Widths(cols, rows);
    forall cells <- CellLines(cols, rows)
      ensures |cells| == |cols| && Aligned(Row(cells, w, |cells|), cells, w)
    {
      assert FitsWidths(cells, w);
      RowAligned(cells, w);
    }
  }

  // ---------- Lines ----------

  /** The newline-terminated lines of a text. */
  function LinesOf(s: string): (r: seq<string>)
    ensures |r| > 0
  {
    if s == "" then [""]
    else
      var r := LinesOf(s[..|s| - 1]);
      if s[|s| - 1] == '\n' then r + [""] else r[..|r| - 1] + [r[|r| - 1] + [s[|s| - 1]]]
  }

  /** More text without a newline extends the last line. */
  lemma {:induction false} LinesOfMore(s: string, more: string)
    requires '\n' !in more
    ensures var r := LinesOf(s);
            LinesOf(s + more) == r[..|r| - 1] + [r[|r| - 1] + more]
    decreases |more|
  {
    hide LinesOf;
    var r := LinesOf(s);
    var before, last := r[..|r| - 1], r[|r| - 1];
    if more == "" {
      assert s + more == s && last + more == last;
      assert r == before + [last];
    } else {
      var n := |more| - 1;
      assert more[n] in more;
      LinesOfMore(s, more[..n]);
      LinesOfOneMore(s + more[..n], more[n]);
      assert s + more[..n] + [more[n]] == s + more;
      assert last + more[..n] + [more[n]] == last + more;
      assert (before + [last + more[..n]])[..|r| - 1] == before;
    }
  }

  lemma {:induction false} LinesOfOneMore(s: string, c: char)
    requires c != '\n'
    ensures var r := LinesOf(s);
            LinesOf(s + [c]) == r[..|r| - 1] + [r[|r| - 1] + [c]]
  {
    assert (s + [c])[..|s|] == s;
  }

  lemma {:induction false} LinesOfLine(s: string, line: string)
    requires '\n' !in line
    ensures var r := LinesOf(s);
            LinesOf(s + line + "\n") == r[..|r| - 1] + [r[|r| - 1] + line] + [""]
  {
    LinesOfMore(s, line);
    assert (s + line + "\n")[..|s + line|] == s + line;
  }

  /** A table of cells without newlines has one line for each list of cells. */
  lemma {:induction false} LinesOfWritten(cellLines: seq<seq<string>>, widths: seq<nat>, n: nat)
    requires n <= |cellLines| && forall r <- cellLines :: |r| <= |widths| + 1
    requires forall r <- cellLines :: forall c <- r :: '\n' !in c
    ensures |LinesOf(Written(cellLines, widths, n))| == n + 1
    ensures LinesOf(Written(cellLines, widths, n))[n] == ""
    ensures forall k :: 0 <= k < n ==>
      LinesOf(Written(cellLines, widths, n))[k] == Row(cellLines[k], widths, |cellLines[k]|)
    decreases n
  {
    hide LinesOf, Row;
    if n == 0 {
      NoLines();
    } else {
      var cells := cellLines[n - 1];
      var row := Row(cells, widths, |cells|);
      var before := Written(cellLines, widths, n - 1);
      LinesOfWritten(cellLines, widths, n - 1);
      assert cells in cellLines;
      RowHasNoNewline(cells, widths, |cells|);
      LinesOfLine(before, row);
    }
  }

  lemma NoLines()
    ensures LinesOf("") == [""]
  {
  }

  lemma {:induction false} RowHasNoNewline(cells: seq<string>, widths: seq<nat>, n: nat)
    requires n <= |cells| <= |widths| + 1
    requires forall c <- cells :: '\n' !in c
    ensures '\n' !in Row(cells, widths, n)
    decreases n
  {
    if n > 0 {
      assert cells[n - 1] in cells;
      RowHasNoNewline(cells, widths, n - 1);
    }
  }

  /** With newline-free headers and formatted cells: the header, the rule, and one line a row. */
  lemma {:induction false} TableLines(cols: seq<string>, rows: seq<seq<string>>)
    requires Writable(cols, rows)
    requires forall c <- cols :: '\n' !in c
    requires forall r <- rows :: forall c <- r :: '\n' !in c
    ensures var lines := LinesOf(Written(CellLines(cols, rows), Widths(cols, rows), |rows| + 2));
            |lines| == |rows| + 3 && lines[|rows| + 2] == ""
  {
    var w := Widths(cols, rows);
    forall r <- CellLines(cols, rows), c <- r
      ensures '\n' !in c
    {
      if r == Rule(w) {
        var j :| 0 <= j < |r| && r[j] == c;
        assert c == Repeat('-', w[j]);
      }
    }
    LinesOfWritten(CellLines(cols, rows), w, |rows| + 2);
  }
}
