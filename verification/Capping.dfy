/** Output truncation (util.go) and its use by the journal tool. */
module Capping {
  import opened Common
  import opened Numbers
  import opened Utf8

  // ---------- capOutput ----------

  /** The last position up to `i` that is 0 or starts a character. */
  function CutAt(s: seq<Byte>, i: nat): (c: nat)
    requires i < |s|
    ensures c <= i && (c == 0 || RuneStart(s[c]))
    ensures forall k :: c < k <= i ==> !RuneStart(s[k])
  {
    if i > 0 && !RuneStart(s[i]) then CutAt(s, i - 1) else i
  }

  predicate Fits(s: seq<Byte>, max: int) {
    max < 0 || |s| <= max
  }

  /** The output kept under a cap, and whether it was truncated. */
  function Capped(s: seq<Byte>, max: int): (seq<Byte>, bool) {
    if Fits(s, max) then (s, false) else (s[..CutAt(s, max)], true)
  }

  method CapOutput(s: seq<Byte>, max: int) returns (out: seq<Byte>, truncated: bool)
    ensures (out, truncated) == Capped(s, max)
  {
    if max < 0 || |s| <= max {
      return s, false;
    }
    var cut := max;
    while cut > 0 && !RuneStart(s[cut])
      invariant 0 <= cut <= max && CutAt(s, cut) == CutAt(s, max)
    {
      cut := cut - 1;
    }
    return s[..cut], true;
  }

  /**
   For valid UTF-8 the kept output is the longest valid prefix within the cap, at most three
   bytes short of it, and truncation is reported exactly when something is missing.
   */
  lemma {:induction false} CappedIsLongestPrefix(s: seq<Byte>, max: nat)
    requires Valid(s)
    ensures var (out, truncated) := Capped(s, max);
      && out <= s && |out| <= max && Valid(out)
      && (forall n :: |out| < n <= max && n <= |s| ==> !Valid(s[..n]))
      && (truncated <==> |s| > max)
      && (truncated ==> |out| + 3 >= max)
      && (!truncated ==> out == s)
  {
    if |s| > max {
      var c := CutAt(s, max);
      ValidPrefix(s, c);
      assert c == 0 ==> s[..c] == [];
      forall n | c < n <= max
        ensures !Valid(s[..n])
      {
        ValidPrefix(s, n);
      }
      var j := StartNearby(s, max);
      assert j <= c;
    }
  }

  /** The cap looks at no byte past the first it excludes. */
  lemma {:induction false} CappedOfLonger(s: seq<Byte>, t: seq<Byte>, max: nat)
    requires s <= t && |s| > max
    ensures Capped(t, max) == Capped(s, max)
  {
    CutOfLonger(s, t, max);
    assert s == t[..|s|];
    assert t[..CutAt(t, max)] == s[..CutAt(s, max)];
  }

  lemma CutOfLonger(s: seq<Byte>, t: seq<Byte>, i: nat)
    requires s <= t && i < |s|
    ensures CutAt(t, i) == CutAt(s, i)
    decreases i
  {
  }

  function ClampLimit(requested: int, def: int, max: int): (r: int)
    ensures r <= max
    ensures 0 < requested <= max ==> r == requested
    ensures requested <= 0 && def <= max ==> r == def
    ensures 0 < requested && max < requested ==> r == max
    ensures requested <= 0 && def > max ==> r == max
    ensures def > 0 && max > 0 ==> r > 0
  {
    var n := if requested <= 0 then def else requested;
    if n > max then max else n
  }

  // ---------- capWriter ----------

  /** The first bytes of a stream within a capacity; a negative one is no limit. */
  function Kept(stream: seq<Byte>, cap: int): seq<Byte> {
    if Fits(stream, cap) then stream else stream[..cap]
  }

  class CapWriter {
    var buf: seq<Byte>
    const cap: int
    var dropped: bool
    /** Everything written so far. */
    ghost var stream: seq<Byte>

    ghost predicate Valid()
      reads this
    {
      buf == Kept(stream, cap) && dropped == !Fits(stream, cap)
    }

    constructor (cap: int)
      ensures Valid() && this.cap == cap && stream == []
    {
      this.cap, buf, dropped, stream := cap, [], false, [];
    }

    method Write(p: seq<Byte>) returns (n: nat)
      requires Valid()
      modifies this
      ensures Valid() && n == |p|
      ensures stream == old(stream) + p
    {
      stream := stream + p;
      if cap >= 0 {
        var room := cap - |buf|;
        if room < |p| {
          if room > 0 {
            buf := buf + p[..room];
          }
          dropped := true;
          return |p|;
        }
      }
      buf := buf + p;
      return |p|;
    }
  }

  // ---------- The journal tool ----------

  const UTF_MAX := 4

  /** Two's complement wrap-around of a 64-bit addition. */
  function Wrap64(v: int): (r: int)
    ensures InInt64(r)
    ensures InInt64(v) ==> r == v
    ensures (v - r) % 0x1_0000_0000_0000_0000 == 0
  {
    (v + 0x8000_0000_0000_0000) % 0x1_0000_0000_0000_0000 - 0x8000_0000_0000_0000
  }

  function Concat(chunks: seq<seq<Byte>>): seq<Byte> {
    if chunks == [] then [] else Concat(chunks[..|chunks| - 1]) + chunks[|chunks| - 1]
  }

  /** Runs the command whose standard output arrives in `chunks`; None when it fails. */
  method RunJournalctl(chunks: seq<seq<Byte>>, succeeds: bool, maxOutput: int)
    returns (r: Option<(seq<Byte>, bool)>)
    requires InInt64(maxOutput)
    ensures r.Some? <==> succeeds
    ensures r.Some? ==>
      var cap := if maxOutput >= 0 then Wrap64(maxOutput + UTF_MAX) else maxOutput;
      r.value == (Kept(Concat(chunks), cap), !Fits(Concat(chunks), cap))
  {
    var stdoutCap := maxOutput;
    if stdoutCap >= 0 {
      stdoutCap := Wrap64(stdoutCap + UTF_MAX);
    }
    var stdout := new CapWriter(stdoutCap);
    for i := 0 to |chunks|
      invariant stdout.Valid() && stdout.stream == Concat(chunks[..i])
    {
      assert chunks[..i + 1][..i] == chunks[..i];
      var _ := stdout.Write(chunks[i]);
    }
    assert chunks[..|chunks|] == chunks;
    if !succeeds {
      return None;
    }
    return Some((stdout.buf, stdout.dropped));
  }

  /** Collecting under a cap of `max + 4`, wrapped, and capping again loses nothing. */
  lemma {:induction false} TwoCaps(stream: seq<Byte>, max: int)
    requires InInt64(max) && |stream| <= MAX_INT64
    ensures var cap := if max >= 0 then Wrap64(max + UTF_MAX) else max;
            var (out, truncated) := Capped(Kept(stream, cap), max);
            (out, !Fits(stream, cap) || truncated) == Capped(stream, max)
  {
    var cap := if max >= 0 then Wrap64(max + UTF_MAX) else max;
    if max >= 0 && !Fits(stream, cap) {
      assert cap == max + UTF_MAX;
      CappedOfLonger(stream[..cap], stream, max);
    }
  }

  /** The result is that of buffering the whole stream and capping it once. */
  method Journal(chunks: seq<seq<Byte>>, succeeds: bool, maxOutput: int)
    returns (r: Option<(seq<Byte>, bool)>)
    requires InInt64(maxOutput) && |Concat(chunks)| <= MAX_INT64
    ensures r == if succeeds then Some(Capped(Concat(chunks), maxOutput)) else None
  {
    var collected :- RunJournalctl(chunks, succeeds, maxOutput);
    var capped, trunc := CapOutput(collected.0, maxOutput);
    TwoCaps(Concat(chunks), maxOutput);
    return Some((capped, collected.1 || trunc));
  }
}
