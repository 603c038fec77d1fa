/** The tail tool: a ring buffer over the end of a file. */
module TailTool {
  import opened Common
  import opened Utf8
  import opened Capping
  import opened LineScanner

  const TAIL_DEFAULT_LINES := 100
  const TAIL_MAX_LINES := 10000
  /** At most this many bytes are read from the end of a file. */
  const TAIL_MAX_SCAN: nat := 0x80_0000

  function LastN<T>(s: seq<T>, n: nat): seq<T> {
    if |s| <= n then s else s[|s| - n..]
  }

  /** Where reading starts, for the size the file is reported to have, if any. */
  function Start(size: Option<nat>): nat {
    if size.Some? && size.value > TAIL_MAX_SCAN then size.value - TAIL_MAX_SCAN else 0
  }

  /** What is read of a file with this content. */
  function Window(content: seq<Byte>, size: Option<nat>): seq<Byte> {
    var start := Start(size);
    var rest := if start <= |content| then content[start..] else [];
    if |rest| <= TAIL_MAX_SCAN then rest else rest[..TAIL_MAX_SCAN]
  }

  function Skipped(lines: seq<seq<Byte>>, skip: bool): seq<seq<Byte>> {
    if skip && lines != [] then lines[1..] else lines
  }

  /** The lines to choose from: not the first when reading starts inside the file. */
  function Whole(lines: seq<seq<Byte>>, size: Option<nat>): seq<seq<Byte>> {
    Skipped(lines, Start(size) > 0)
  }

  /** `count` items have been written round the ring; it holds the last of them. */
  ghost predicate Rings<T>(ring: seq<T>, items: seq<T>) {
    && |ring| > 0
    && forall k :: 0 <= k < |items| && |items| - |ring| <= k ==> ring[k % |ring|] == items[k]
  }

  /** Positions that share a place of the ring are at least one turn apart. */
  lemma {:induction false} SamePlace(j: nat, k: nat, n: nat)
    requires n > 0 && j <= k && j % n == k % n
    ensures j == k || j + n <= k
  {
    var d := k / n - j / n;
    assert k - j == n * d;
    assert d >= 1 ==> n * d >= n;
    assert d <= 0 ==> n * d <= 0;
  }

  lemma {:induction false} RingsNext<T>(ring: seq<T>, items: seq<T>, x: T)
    requires Rings(ring, items)
    ensures Rings(ring[|items| % |ring| := x], items + [x])
  {
    var n := |ring|;
    forall k | 0 <= k <= |items| && |items| + 1 - n <= k
      ensures ring[|items| % n := x][k % n] == (items + [x])[k]
    {
      if k % n == |items| % n {
        SamePlace(k, |items|, n);
      }
    }
  }

  lemma NothingRings<T>(ring: seq<T>)
    requires |ring| > 0
    ensures Rings(ring, [])
  {
  }

  lemma SkippedCases(lines: seq<seq<Byte>>)
    ensures Skipped(lines, false) == lines
    ensures lines == [] ==> Skipped(lines, true) == []
    ensures lines != [] ==> Skipped(lines, true) == lines[1..]
  {
  }

  /** Fills the ring; reports how many lines went round it, or None for a line too long. */
  method Fill(ring: array<seq<Byte>>, w: seq<Byte>, skip: bool)
    returns (count: Option<nat>, ghost kept: seq<seq<Byte>>)
    requires ring.Length > 0
    modifies ring
    ensures count.Some? <==> LinesFit(w)
    ensures count.Some? ==> count.value == |kept| && Rings(ring[..], kept)
    ensures count.Some? ==> kept == Skipped(Lines(w), skip)
  {
    hide *;
    var dropFirst := skip;
    var sc := new Scanner(w);
    var n: nat := 0;
    kept := [];
    NothingRings(ring[..]);
    SkippedCases([]);
    SkippedCases(Scanned(w));
    while true
      invariant sc.Fits() == LinesFit(w) && fresh(sc)
      invariant dropFirst ==> skip && kept == [] && sc.Coming() == Scanned(w)
      invariant !dropFirst ==>
        kept + sc.Coming() == Skipped(Scanned(w), skip)
      invariant |kept| == n && Rings(ring[..], kept)
      decreases |sc.Coming()|
    {
      var line := sc.Scan();
      if line.None? {
        break;
      }
      if dropFirst {
        dropFirst := false;
        continue;
      }
      RingsNext(ring[..], kept, line.value);
      ring[n % ring.Length] := line.value;
      kept := kept + [line.value];
      n := n + 1;
    }
    if sc.failed {
      return None, kept;
    }
    return Some(n), kept;
  }

  /** The last lines that went round the ring, oldest first. */
  method Drain(ring: array<seq<Byte>>, count: nat, ghost kept: seq<seq<Byte>>)
    returns (b: seq<Byte>)
    requires |kept| == count && Rings(ring[..], kept)
    ensures b == Unlines(LastN(kept, ring.Length))
  {
    var lines := ring.Length;
    var n := if count < lines then count else lines;
    var first := count - n;
    b := [];
    for i := 0 to n
      invariant b == Unlines(kept[first..first + i])
    {
      assert ring[..][(first + i) % lines] == kept[first + i];
      assert kept[first..first + i + 1][..i] == kept[first..first + i];
      b := b + ring[(first + i) % lines] + [NEWLINE];
    }
    assert kept[first..first + n] == LastN(kept, lines);
  }

  /** The number of lines a request asks for. */
  function LineCount(requested: int): (n: nat)
    ensures n == if requested <= 0 then 100 else if requested <= 10000 then requested else 10000
  {
    ClampLimit(requested, TAIL_DEFAULT_LINES, TAIL_MAX_LINES)
  }

  /** The last `n` of the lines to choose from. */
  function Chosen(content: seq<Byte>, size: Option<nat>, n: nat): seq<seq<Byte>> {
    LastN(Whole(Lines(Window(content, size)), size), n)
  }

  /** The text and the truncation flag for a request; None when a line is too long. */
  function TailResult(content: seq<Byte>, size: Option<nat>, requested: int, maxOutput: int)
    : Option<(seq<Byte>, bool)>
  {
    if !LinesFit(Window(content, size)) then None
    else Some(Capped(Unlines(Chosen(content, size, LineCount(requested))), maxOutput))
  }

  /**
   The last requested lines of what the scanner reads, in order, each ended by a newline,
   within the output cap; None when a line is too long.
   */
  method Tail(content: seq<Byte>, size: Option<nat>, requested: int, maxOutput: int)
    returns (r: Option<(seq<Byte>, bool)>)
    ensures r == TailResult(content, size, requested, maxOutput)
  {
    hide Lines, LinesFit, Unlines, Capped, Rings;
    var lines: nat := LineCount(requested);
    var ring := new seq<Byte>[lines](_ => []);
    var count, kept := Fill(ring, Window(content, size), Start(size) > 0);
    if count.None? {
      return None;
    }
    var b := Drain(ring, count.value, kept);
    var out, cut := CapOutput(b, maxOutput);
    return Some((out, cut));
  }
}
