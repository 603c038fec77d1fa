/** Bytes and UTF-8 well-formedness, as in section 4 of RFC 3629. */
module Utf8 {
  newtype Byte = b: int | 0 <= b < 256

  predicate Tail(b: Byte) {
    0x80 <= b <= 0xBF
  }

  /** The length of the UTF-8 character `s` starts with; 0 when there is none. */
  function CharLength(s: seq<Byte>): (n: nat)
    ensures n <= 4 && n <= |s|
  {
    if |s| >= 1 && s[0] <= 0x7F then 1
    else if |s| >= 2 && 0xC2 <= s[0] <= 0xDF && Tail(s[1]) then 2
    else if |s| >= 3 && Tail(s[2])
      && (|| (s[0] == 0xE0 && 0xA0 <= s[1] <= 0xBF)
          || (0xE1 <= s[0] <= 0xEC && Tail(s[1]))
          || (s[0] == 0xED && 0x80 <= s[1] <= 0x9F)
          || (0xEE <= s[0] <= 0xEF && Tail(s[1]))) then 3
    else if |s| >= 4 && Tail(s[2]) && Tail(s[3])
      && (|| (s[0] == 0xF0 && 0x90 <= s[1] <= 0xBF)
          || (0xF1 <= s[0] <= 0xF3 && Tail(s[1]))
          || (s[0] == 0xF4 && 0x80 <= s[1] <= 0x8F)) then 4
    else 0
  }

  predicate Valid(s: seq<Byte>) {
    s == [] || (CharLength(s) > 0 && Valid(s[CharLength(s)..]))
  }

  /** A byte that is not the continuation of a character. */
  predicate RuneStart(b: Byte) {
    !Tail(b)
  }

  /** The bytes of a character after its first are continuations; the first is not. */
  lemma CharBytes(s: seq<Byte>)
    ensures var n := CharLength(s);
            n > 0 ==> RuneStart(s[0]) && forall i :: 0 < i < n ==> Tail(s[i])
  {
  }

  /** A character needs all its bytes, and no more. */
  lemma CharOfPrefix(s: seq<Byte>, i: nat)
    requires i <= |s| && CharLength(s) > 0
    ensures CharLength(s[..i]) == if i < CharLength(s) then 0 else CharLength(s)
  {
  }

  /** In valid text, the valid prefixes end where a character starts, or at the end. */
  lemma {:induction false} ValidPrefix(s: seq<Byte>, i: nat)
    requires Valid(s) && i <= |s|
    ensures Valid(s[..i]) <==> i == |s| || RuneStart(s[i])
    decreases |s|
  {
    if s != [] {
      var n := CharLength(s);
      CharBytes(s);
      CharOfPrefix(s, i);
      if i == 0 {
      } else if i < n {
        assert s[..i] != [];
      } else {
        ValidPrefix(s[n..], i - n);
        assert s[n..][..i - n] == s[..i][n..];
        assert i < |s| ==> s[n..][i - n] == s[i];
      }
    }
  }

  /** In valid text a character starts at most three bytes before any position. */
  lemma {:induction false} StartNearby(s: seq<Byte>, i: nat) returns (j: nat)
    requires Valid(s) && i < |s|
    ensures j <= i <= j + 3 && RuneStart(s[j])
    decreases |s|
  {
    var n := CharLength(s);
    CharBytes(s);
    if i < n {
      j := 0;
    } else {
      var k := StartNearby(s[n..], i - n);
      j := k + n;
      assert s[n..][k] == s[j];
    }
  }

  // ---------- Valid text is encoded code points ----------

  /** A code point that is no surrogate. */
  predicate IsScalar(cp: int) {
    0 <= cp <= 0x10FFFF && !(0xD800 <= cp <= 0xDFFF)
  }

  function Continuation(bits: int): (b: Byte)
    requires 0 <= bits < 64
    ensures Tail(b) && b as int == 0x80 + bits
  {
    (0x80 + bits) as Byte
  }

  /** The bits of a code point, most significant first, six to a continuation byte. */
  function Encode(cp: int): seq<Byte>
    requires IsScalar(cp)
  {
    if cp < 0x80 then [cp as Byte]
    else if cp < 0x800 then [(0xC0 + cp / 64) as Byte, Continuation(cp % 64)]
    else if cp < 0x1_0000 then
      [(0xE0 + cp / 4096) as Byte, Continuation(cp / 64 % 64), Continuation(cp % 64)]
    else
      [(0xF0 + cp / 26_2144) as Byte, Continuation(cp / 4096 % 64), Continuation(cp / 64 % 64),
       Continuation(cp % 64)]
  }

  lemma {:induction false} EncodedIsChar(cp: int, rest: seq<Byte>)
    requires IsScalar(cp)
    ensures CharLength(Encode(cp) + rest) == |Encode(cp)|
  {
    var s := Encode(cp) + rest;
    assert forall i :: 0 <= i < |Encode(cp)| ==> s[i] == Encode(cp)[i];
  }

  lemma {:induction false} CharIsEncoded(s: seq<Byte>) returns (cp: int)
    requires CharLength(s) > 0
    ensures IsScalar(cp) && Encode(cp) == s[..CharLength(s)]
  {
    hide Encode;
    var n := CharLength(s);
    if n == 1 {
      cp := OneByte(s[0]);
    } else if n == 2 {
      cp := TwoBytes(s[0], s[1]);
    } else if n == 3 {
      cp := ThreeBytes(s[0], s[1], s[2]);
    } else {
      cp := FourBytes(s[0], s[1], s[2], s[3]);
    }
  }

  lemma {:induction false} OneByte(a: Byte) returns (cp: int)
    requires a <= 0x7F
    ensures IsScalar(cp) && Encode(cp) == [a]
  {
    cp := a as int;
  }

  lemma {:induction false} TwoBytes(a: Byte, b: Byte) returns (cp: int)
    requires 0xC2 <= a <= 0xDF && Tail(b)
    ensures IsScalar(cp) && Encode(cp) == [a, b]
  {
    cp := (a as int - 0xC0) * 64 + (b as int - 0x80);
  }

  lemma {:induction false} ThreeBytes(a: Byte, b: Byte, c: Byte) returns (cp: int)
    requires 0xE0 <= a <= 0xEF && Tail(b) && Tail(c)
    requires (a == 0xE0 ==> b >= 0xA0) && (a == 0xED ==> b <= 0x9F)
    ensures IsScalar(cp) && Encode(cp) == [a, b, c]
  {
    var x, y, z := a as int - 0xE0, b as int - 0x80, c as int - 0x80;
    cp := x * 4096 + y * 64 + z;
    assert cp / 64 == x * 64 + y;
  }

  lemma {:induction false} FourBytes(a: Byte, b: Byte, c: Byte, d: Byte) returns (cp: int)
    requires 0xF0 <= a <= 0xF4 && Tail(b) && Tail(c) && Tail(d)
    requires (a == 0xF0 ==> b >= 0x90) && (a == 0xF4 ==> b <= 0x8F)
    ensures IsScalar(cp) && Encode(cp) == [a, b, c, d]
  {
    var x, y, z, w := a as int - 0xF0, b as int - 0x80, c as int - 0x80, d as int - 0x80;
    cp := x * 26_2144 + y * 4096 + z * 64 + w;
    assert cp / 64 == x * 4096 + y * 64 + z;
    assert cp / 4096 == x * 64 + y;
  }

  function EncodeAll(cps: seq<int>): seq<Byte>
    requires forall cp <- cps :: IsScalar(cp)
  {
    if cps == [] then [] else Encode(cps[0]) + EncodeAll(cps[1..])
  }

  lemma {:induction false} EncodedIsValid(cps: seq<int>)
    requires forall cp <- cps :: IsScalar(cp)
    ensures Valid(EncodeAll(cps))
    decreases |cps|
  {
    if cps != [] {
      var rest := EncodeAll(cps[1..]);
      EncodedIsChar(cps[0], rest);
      EncodedIsValid(cps[1..]);
      assert (Encode(cps[0]) + rest)[|Encode(cps[0])|..] == rest;
    }
  }

  lemma {:induction false} ValidIsEncoded(s: seq<Byte>) returns (cps: seq<int>)
    requires Valid(s)
    ensures forall cp <- cps :: IsScalar(cp)
    ensures EncodeAll(cps) == s
    decreases |s|
  {
    cps := [];
    if s != [] {
      var n := CharLength(s);
      var cp := CharIsEncoded(s);
      var rest := ValidIsEncoded(s[n..]);
      cps := [cp] + rest;
      assert cps[1..] == rest && s == s[..n] + s[n..];
    }
  }
}
