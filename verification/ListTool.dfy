/**
 The list tool: a bounded max-heap keeps the smallest names of a directory read in batches.
 */
module ListTool {
  import opened Common
  import opened Names
  import opened Utf8
  import Capping

  const MAX_LIST_ENTRIES: nat := 10000

  function Parent(i: nat): nat {
    if i == 0 then 0 else (i - 1) / 2
  }

  /** No name is above its parent, except possibly the one at `hole`. */
  ghost predicate HeapExcept(s: seq<string>, hole: int) {
    forall i :: 0 < i < |s| && i != hole ==> AtMost(s[i], s[Parent(i)])
  }

  /** Only the name at `i` may be below a child of its, and its children fit its parent. */
  ghost predicate HeapBelow(s: seq<string>, i: nat) {
    && i < |s|
    && (forall k :: 0 < k < |s| && Parent(k) != i ==> AtMost(s[k], s[Parent(k)]))
    && forall k :: 0 < k < |s| && Parent(k) == i && i > 0 ==> AtMost(s[k], s[Parent(i)])
  }

  ghost predicate MaxHeap(s: seq<string>) {
    forall i :: 0 < i < |s| ==> AtMost(s[i], s[Parent(i)])
  }

  lemma {:induction false} RootIsLargest(s: seq<string>, i: nat)
    requires MaxHeap(s) && i < |s|
    ensures AtMost(s[i], s[0])
    decreases i
  {
    if i > 0 {
      RootIsLargest(s, Parent(i));
      AtMostTransitive(s[i], s[Parent(i)], s[0]);
    } else {
      LessTotal(s[0], s[0]);
    }
  }

  function Swapped(s: seq<string>, i: nat, j: nat): (r: seq<string>)
    requires i < |s| && j < |s|
    ensures |r| == |s| && multiset(r) == multiset(s)
    ensures r[i] == s[j] && r[j] == s[i]
    ensures forall k :: 0 <= k < |s| && k != i && k != j ==> r[k] == s[k]
  {
    s[i := s[j]][j := s[i]]
  }

  class NameHeap {
    var names: seq<string>

    constructor ()
      ensures names == []
    {
      names := [];
    }

    /** Moves the name at `start` up to its place. */
    method Up(start: nat)
      requires start < |names| && HeapExcept(names, start)
      requires forall i :: 0 < i < |names| && Parent(i) == start && start > 0 ==>
        AtMost(names[i], names[Parent(start)])
      modifies this
      ensures MaxHeap(names) && multiset(names) == multiset(old(names)) && |names| == |old(names)|
    {
      var j: nat := start;
      while true
        invariant j < |names| == |old(names)| && multiset(names) == multiset(old(names))
        invariant HeapExcept(names, j)
        invariant forall i :: 0 < i < |names| && Parent(i) == j && j > 0 ==>
          AtMost(names[i], names[Parent(j)])
        decreases j
      {
        var i := Parent(j);
        if i == j || !Less(names[i], names[j]) {
          break;
        }
        ghost var before := names;
        names := Swapped(names, i, j);
        UpStep(before, names, i, j);
        j := i;
      }
    }

    /** Moves the name at `start` down to its place; reports whether it moved. */
    method Down(start: nat) returns (moved: bool)
      requires HeapBelow(names, start)
      modifies this
      ensures MaxHeap(names) && multiset(names) == multiset(old(names)) && |names| == |old(names)|
    {
      hide MaxHeap, HeapBelow, Less, AtMost;
      var i := start;
      assert i < |names| by { BelowInRange(names, i); }
      while true
        invariant i < |names| == |old(names)| && multiset(names) == multiset(old(names))
        invariant HeapBelow(names, i)
        decreases |names| - i
      {
        var j := 2 * i + 1;
        if j >= |names| {
          LeafIsHeap(names, i);
          break;
        }
        if j + 1 < |names| && Less(names[j], names[j + 1]) {
          j := j + 1;
        }
        LargerChild(names, i, j);
        if !Less(names[i], names[j]) {
          ChildrenInOrder(names, i, j);
          break;
        }
        ghost var before := names;
        names := Swapped(names, i, j);
        DownStep(before, names, i, j);
        i := j;
      }
      return i > start;
    }

    method Push(x: string)
      requires MaxHeap(names)
      modifies this
      ensures MaxHeap(names) && multiset(names) == multiset(old(names)) + multiset{x}
      ensures |names| == |old(names)| + 1
    {
      names := names + [x];
      Up(|names| - 1);
    }

    /** Puts `x` in place of the largest name. */
    method ReplaceRoot(x: string)
      requires MaxHeap(names) && names != []
      modifies this
      ensures MaxHeap(names)
      ensures multiset(names) == multiset(old(names)) - multiset{old(names)[0]} + multiset{x}
      ensures |names| == |old(names)|
    {
      names := names[0 := x];
      Fix();
    }

    /** Restores the order after the root was overwritten. */
    method Fix()
      requires HeapBelow(names, 0)
      modifies this
      ensures MaxHeap(names) && multiset(names) == multiset(old(names)) && |names| == |old(names)|
    {
      var moved := Down(0);
      if !moved {
        Up(0);
      }
    }
  }

  lemma {:induction false} UpStep(s: seq<string>, r: seq<string>, i: nat, j: nat)
    requires 0 < j < |s| && i == Parent(j) && r == Swapped(s, i, j)
    requires HeapExcept(s, j) && Less(s[i], s[j])
    requires forall k :: 0 < k < |s| && Parent(k) == j ==> AtMost(s[k], s[i])
    ensures HeapExcept(r, i)
    ensures forall k :: 0 < k < |r| && Parent(k) == i && i > 0 ==> AtMost(r[k], r[Parent(i)])
  {
    LessTotal(s[i], s[j]);
    forall k | 0 < k < |r| && k != i
      ensures AtMost(r[k], r[Parent(k)])
      ensures Parent(k) == i && i > 0 ==> AtMost(r[k], r[Parent(i)])
    {
      if Parent(k) == i && k != j {
        AtMostTransitive(s[k], s[i], s[j]);
      }
      if Parent(k) == i && i > 0 {
        assert AtMost(s[i], s[Parent(i)]);
        if k != j {
          AtMostTransitive(s[k], s[i], s[Parent(i)]);
        }
      }
    }
  }

  lemma BelowInRange(s: seq<string>, i: nat)
    requires HeapBelow(s, i)
    ensures i < |s|
  {
  }

  lemma {:induction false} LeafIsHeap(s: seq<string>, i: nat)
    requires HeapBelow(s, i) && 2 * i + 1 >= |s|
    ensures MaxHeap(s)
  {
    assert forall k :: 0 < k < |s| ==> Parent(k) != i;
  }

  /** `j` is the child of `i` with the larger name. */
  ghost predicate IsLargerChild(s: seq<string>, i: nat, j: nat) {
    i < j < |s| && Parent(j) == i && forall k :: 0 < k < |s| && Parent(k) == i ==> AtMost(s[k], s[j])
  }

  lemma {:induction false} LargerChild(s: seq<string>, i: nat, j: nat)
    requires 2 * i + 1 <= j <= 2 * i + 2 && j < |s|
    requires j == 2 * i + 1 && j + 1 < |s| ==> !Less(s[j], s[j + 1])
    requires j == 2 * i + 2 ==> Less(s[j - 1], s[j])
    ensures IsLargerChild(s, i, j)
  {
    LessTotal(s[j], s[j]);
    LessTotal(s[j - 1], s[j]);
    assert forall k :: 0 < k < |s| && Parent(k) == i ==> k == 2 * i + 1 || k == 2 * i + 2;
  }

  lemma {:induction false} ChildrenInOrder(s: seq<string>, i: nat, j: nat)
    requires HeapBelow(s, i) && IsLargerChild(s, i, j) && !Less(s[i], s[j])
    ensures MaxHeap(s)
  {
    forall k | 0 < k < |s| && Parent(k) == i
      ensures AtMost(s[k], s[i])
    {
      AtMostTransitive(s[k], s[j], s[i]);
    }
  }

  lemma {:induction false} DownStep(s: seq<string>, r: seq<string>, i: nat, j: nat)
    requires HeapBelow(s, i) && IsLargerChild(s, i, j) && r == Swapped(s, i, j) && Less(s[i], s[j])
    ensures HeapBelow(r, j)
  {
    LessTotal(s[i], s[j]);
    forall k | 0 < k < |r| && Parent(k) != j
      ensures AtMost(r[k], r[Parent(k)])
    {
      if k == i {
        assert AtMost(s[j], s[Parent(i)]);
      }
    }
    forall k | 0 < k < |r| && Parent(k) == j
      ensures AtMost(r[k], r[i])
    {
      assert k != i && k != j;
      assert AtMost(s[k], s[j]);
    }
  }

  // ---------- Scanning a directory ----------

  predicate Hidden(name: string) {
    name != "" && name[0] == '.'
  }

  /** A hidden name starts with a dot. */
  lemma {:induction false} HiddenExactly(name: string)
    ensures Hidden(name) <==> exists rest :: name == "." + rest
  {
    if Hidden(name) {
      assert name == "." + name[1..];
    }
  }

  /** The names that are listed, in the order they are read. */
  function Visible(names: seq<string>, all: bool): seq<string> {
    if names == [] then []
    else
      var rest := Visible(names[..|names| - 1], all);
      if !all && Hidden(names[|names| - 1]) then rest else rest + [names[|names| - 1]]
  }

  /** Name by name: a hidden one is left out unless all are asked for, the others stay. */
  lemma {:induction false} VisibleByName(a: seq<string>, b: seq<string>, name: string, all: bool)
    ensures Visible(a + b, all) == Visible(a, all) + Visible(b, all)
    ensures Visible([name], all) == if all || !Hidden(name) then [name] else []
    decreases |b|
  {
    assert [name][..0] == [];
    if b == [] {
      assert a + b == a;
    } else {
      VisibleByName(a, b[..|b| - 1], name, all);
      assert (a + b)[..|a + b| - 1] == a + b[..|b| - 1];
    }
  }

  function Flatten(batches: seq<seq<string>>): seq<string> {
    if batches == [] then [] else Flatten(batches[..|batches| - 1]) + batches[|batches| - 1]
  }

  /** The heap holds the smallest of the `seen` names; `rest` are the others. */
  ghost predicate Keeps(
    kept: seq<string>, rest: seq<string>, seen: seq<string>, limit: nat, truncated: bool)
  {
    && MaxHeap(kept) && |kept| <= limit
    && multiset(seen) == multiset(kept) + multiset(rest)
    && (forall x, y :: x in multiset(kept) && y in multiset(rest) ==> AtMost(x, y))
    && (|kept| < limit ==> rest == [])
    && (truncated <==> rest != [])
  }

  lemma {:induction false} KeepsPushed(
      kept: seq<string>, kept': seq<string>, seen: seq<string>, limit: nat, truncated: bool, x: string)
    requires Keeps(kept, [], seen, limit, truncated) && |kept| < limit
    requires MaxHeap(kept') && multiset(kept') == multiset(kept) + multiset{x} && |kept'| == |kept| + 1
    ensures Keeps(kept', [], seen + [x], limit, truncated)
  {
  }

  /** The largest kept name moves out when a smaller one arrives. */
  lemma {:induction false} KeepsReplaced(
      kept: seq<string>, kept': seq<string>, rest: seq<string>, seen: seq<string>, limit: nat,
      truncated: bool, x: string)
    requires Keeps(kept, rest, seen, limit, truncated) && |kept| == limit > 0 && Less(x, kept[0])
    requires MaxHeap(kept') && |kept'| == |kept|
    requires multiset(kept') == multiset(kept) - multiset{kept[0]} + multiset{x}
    ensures Keeps(kept', rest + [kept[0]], seen + [x], limit, true)
  {
    assert kept[0] in multiset(kept);
    forall a, y | a in multiset(kept') && y in multiset(rest + [kept[0]])
      ensures AtMost(a, y)
    {
      LessTotal(x, kept[0]);
      if a in multiset(kept) {
        var i :| 0 <= i < |kept| && kept[i] == a;
        RootIsLargest(kept, i);
      }
      assert AtMost(a, kept[0]);
      if y in multiset(rest) {
        AtMostTransitive(a, kept[0], y);
      }
    }
    assert multiset(rest + [kept[0]]) == multiset(rest) + multiset{kept[0]};
    assert multiset(seen + [x]) == multiset(seen) + multiset{x};
  }

  lemma {:induction false} KeepsSkipped(
      kept: seq<string>, rest: seq<string>, seen: seq<string>, limit: nat, truncated: bool, x: string)
    requires Keeps(kept, rest, seen, limit, truncated) && |kept| == limit > 0 && !Less(x, kept[0])
    ensures Keeps(kept, rest + [x], seen + [x], limit, true)
  {
    forall a, y | a in multiset(kept) && y in multiset(rest + [x])
      ensures AtMost(a, y)
    {
      if y !in multiset(rest) {
        assert y == x;
        var i :| 0 <= i < |kept| && kept[i] == a;
        RootIsLargest(kept, i);
        AtMostTransitive(a, kept[0], x);
      }
    }
    assert multiset(rest + [x]) == multiset(rest) + multiset{x};
    assert multiset(seen + [x]) == multiset(seen) + multiset{x};
  }

  method KeepName(kept: NameHeap, limit: nat, name: string, was: bool,
                  ghost rest: seq<string>, ghost seen: seq<string>)
    returns (truncated: bool, ghost rest': seq<string>)
    requires limit > 0 && Keeps(kept.names, rest, seen, limit, was)
    modifies kept
    ensures Keeps(kept.names, rest', seen + [name], limit, truncated)
  {
    hide Keeps;
    ghost var before := kept.names;
    KeepsFacts(before, rest, seen, limit, was);
    if |kept.names| < limit {
      kept.Push(name);
      KeepsPushed(before, kept.names, seen, limit, was, name);
      return was, [];
    } else if Less(name, kept.names[0]) {
      kept.ReplaceRoot(name);
      KeepsReplaced(before, kept.names, rest, seen, limit, was, name);
      return true, rest + [before[0]];
    } else {
      KeepsSkipped(before, rest, seen, limit, was, name);
      return true, rest + [name];
    }
  }

  lemma KeepsNothing(limit: nat)
    ensures Keeps([], [], [], limit, false)
  {
  }

  lemma KeepsFacts(kept: seq<string>, rest: seq<string>, seen: seq<string>, limit: nat, truncated: bool)
    requires Keeps(kept, rest, seen, limit, truncated)
    ensures MaxHeap(kept) && |kept| <= limit && (|kept| < limit ==> rest == [])
  {
  }

  /**
   Reads all batches. The names returned are the first `limit` of all visible names in
   sorted order, whatever the order and batching; truncation means there were more.
   */
  method Scan(batches: seq<seq<string>>, all: bool, limit: nat)
    returns (names: seq<string>, truncated: bool)
    requires limit > 0
    ensures var sorted := Sort(Visible(Flatten(batches), all));
            && names == (if |sorted| <= limit then sorted else sorted[..limit])
            && (truncated <==> |sorted| > limit)
    ensures forall i, j :: 0 <= i < j < |names| ==> !Before(names[j], names[i])
  {
    hide Keeps, Sort, Sorted, Before, Less, AtMost, MaxHeap, Hidden;
    var kept := new NameHeap();
    truncated := false;
    ghost var rest: seq<string> := [];
    KeepsNothing(limit);
    for b := 0 to |batches|
      invariant Keeps(kept.names, rest, Visible(Flatten(batches[..b]), all), limit, truncated)
    {
      ghost var read := Flatten(batches[..b]);
      var batch := batches[b];
      assert read + batch[..0] == read;
      for e := 0 to |batch|
        invariant Keeps(kept.names, rest, Visible(read + batch[..e], all), limit, truncated)
      {
        var name := batch[e];
        assert (read + batch[..e + 1])[..|read| + e] == read + batch[..e];
        if !all && Hidden(name) {
          continue;
        }
        truncated, rest := KeepName(kept, limit, name, truncated, rest, Visible(read + batch[..e], all));
      }
      assert batches[..b + 1][..b] == batches[..b];
      assert batch[..|batch|] == batch;
    }
    assert batches[..|batches|] == batches;
    names := SortNames(kept.names);
    ScanResult(kept.names, rest, Visible(Flatten(batches), all), limit, truncated);
    SortSorts(kept.names);
    SortedExactly(names);
  }

  method SortNames(s: seq<string>) returns (r: seq<string>)
    ensures r == Sort(s)
  {
    r := [];
    for i := |s| downto 0
      invariant r == Sort(s[i..])
    {
      assert s[i..][0] == s[i] && s[i..][1..] == s[i + 1..];
      r := Insert(s[i], r);
    }
  }

  lemma {:induction false} ScanResult(
      kept: seq<string>, rest: seq<string>, seen: seq<string>, limit: nat, truncated: bool)
    requires Keeps(kept, rest, seen, limit, truncated)
    ensures Sort(kept) == if |seen| <= limit then Sort(seen) else Sort(seen)[..limit]
    ensures truncated <==> |seen| > limit
  {
    SortSplits(kept, rest, seen);
    assert |multiset(seen)| == |multiset(kept)| + |multiset(rest)|;
    if rest == [] {
      assert multiset(seen) == multiset(kept);
      assert Sort(seen)[..|seen|] == Sort(seen);
    }
  }

  // ---------- The whole tool ----------

  /** One line per name that still can be looked at, in order. */
  function Lines(names: seq<string>, stat: string -> Option<seq<Byte>>): seq<Byte> {
    if names == [] then []
    else
      var before := Lines(names[..|names| - 1], stat);
      match stat(names[|names| - 1])
      case Some(line) => before + line
      case None => before
  }

  /** The lines of the names stand in the order of the names; a name that is gone has none. */
  lemma {:induction false} LinesByName(
      a: seq<string>, b: seq<string>, name: string, stat: string -> Option<seq<Byte>>)
    ensures Lines(a + b, stat) == Lines(a, stat) + Lines(b, stat)
    ensures Lines([name], stat) == if stat(name).Some? then stat(name).value else []
    decreases |b|
  {
    assert [name][..0] == [];
    if b == [] {
      assert a + b == a;
    } else {
      LinesByName(a, b[..|b| - 1], name, stat);
      assert (a + b)[..|a + b| - 1] == a + b[..|b| - 1];
    }
  }

  /** `stat` renders a name's line, or is None for a name that is gone. */
  method List(batches: seq<seq<string>>, readFails: bool, all: bool,
              stat: string -> Option<seq<Byte>>, maxOutput: int)
    returns (r: Option<(seq<Byte>, bool)>)
    ensures r.Some? <==> !readFails
    ensures r.Some? ==>
      var sorted := Sort(Visible(Flatten(batches), all));
      var kept := if |sorted| <= 10000 then sorted else sorted[..10000];
      var (out, cut) := Capping.Capped(Lines(kept, stat), maxOutput);
      r.value == (out, |sorted| > 10000 || cut)
  {
    hide Sort, Visible, Flatten, Capping.Capped;
    var names, truncated := Scan(batches, all, MAX_LIST_ENTRIES);
    if readFails {
      return None;
    }
    var b: seq<Byte> := [];
    for i := 0 to |names|
      invariant b == Lines(names[..i], stat)
    {
      assert names[..i + 1][..i] == names[..i];
      match stat(names[i]) {
        case Some(line) => b := b + line;
        case None =>
      }
    }
    assert names[..|names|] == names;
    var out, cut := Capping.CapOutput(b, maxOutput);
    return Some((out, truncated || cut));
  }
}
