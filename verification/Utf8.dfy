/** `Buffer.toString()`: UTF-8 decoding that replaces every maximal ill-formed part by U+FFFD (The Unicode Standard,
    section 3.9), and what decoding a text piece by piece loses. */
module Utf8 {

  type Byte = b: int | 0 <= b < 256

  const REPLACEMENT: char := '\U{FFFD}'

  /** How many more bytes a first byte asks for; none after an ASCII byte and after one that begins nothing. */
  function Need(lead: Byte): nat {
    if 0xC2 <= lead <= 0xDF then 1 else if 0xE0 <= lead <= 0xEF then 2 else if 0xF0 <= lead <= 0xF4 then 3 else 0
  }

  predicate Continuation(b: Byte) { 0x80 <= b <= 0xBF }

  /** The second byte has a narrower range after some first bytes: no overlong form, no surrogate, nothing past
      U+10FFFF. */
  predicate Second(lead: Byte, b: Byte) {
    && Continuation(b)
    && (lead == 0xE0 ==> b >= 0xA0) && (lead == 0xED ==> b <= 0x9F)
    && (lead == 0xF0 ==> b >= 0x90) && (lead == 0xF4 ==> b <= 0x8F)
  }

  /** Byte k goes on with the character that the bytes before it began. */
  predicate Joins(s: seq<Byte>, k: nat)
    requires k < |s|
  {
    0 < k <= Need(s[0]) && if k == 1 then Second(s[0], s[1]) else Continuation(s[k])
  }

  /** How many bytes the first character takes, or the first ill-formed part. */
  function Span(s: seq<Byte>): (n: nat)
    requires s != []
    ensures 0 < n <= |s|
    ensures n < |s| ==> !Joins(s, n)
    ensures forall i :: 0 < i < n ==> Joins(s, i)
  {
    if |s| == 1 || !Joins(s, 1) then 1
    else if |s| == 2 || !Joins(s, 2) then 2
    else if |s| == 3 || !Joins(s, 3) then 3
    else 4
  }

  /** The character that the first n bytes, its span, stand for. */
  function CharOf(s: seq<Byte>, n: nat): char
    requires 0 < n <= |s| && forall i :: 0 < i < n ==> Joins(s, i)
  {
    if n != Need(s[0]) + 1 || (n == 1 && s[0] >= 0x80) then REPLACEMENT
    else if n == 1 then s[0] as char
    else
      assert Joins(s, 1);
      if n == 2 then Two(s[0], s[1])
      else
        assert Joins(s, 2);
        if n == 3 then Three(s[0], s[1], s[2])
        else assert Joins(s, 3); Four(s[0], s[1], s[2], s[3])
  }

  function Two(a: int, b: int): char
    requires 0xC2 <= a <= 0xDF && 0x80 <= b <= 0xBF
  {
    ((a - 0xC0) * 64 + (b - 0x80)) as char
  }

  function Three(a: int, b: int, c: int): char
    requires 0xE0 <= a <= 0xEF && 0x80 <= b <= 0xBF && 0x80 <= c <= 0xBF && (a == 0xED ==> b <= 0x9F)
  {
    ((a - 0xE0) * 4096 + (b - 0x80) * 64 + (c - 0x80)) as char
  }

  function Four(a: int, b: int, c: int, d: int): char
    requires 0xF0 <= a <= 0xF4 && 0x80 <= b <= 0xBF && 0x80 <= c <= 0xBF && 0x80 <= d <= 0xBF
    requires (a == 0xF0 ==> b >= 0x90) && (a == 0xF4 ==> b <= 0x8F)
  {
    ((a - 0xF0) * 262144 + (b - 0x80) * 4096 + (c - 0x80) * 64 + (d - 0x80)) as char
  }

  function Decode(s: seq<Byte>): string {
    if s == [] then [] else [CharOf(s, Span(s))] + Decode(s[Span(s)..])
  }

  /** The bytes of the character the text breaks off in, if it does. */
  function Pending(s: seq<Byte>): seq<Byte> {
    if s == [] then []
    else if Span(s) < |s| then Pending(s[Span(s)..])
    else if |s| <= Need(s[0]) then s
    else []
  }

  /** `b` goes on with the character that `a` breaks off in. */
  predicate Splits(a: seq<Byte>, b: seq<Byte>) {
    b != [] && Joins(Pending(a) + b, |Pending(a)|)
  }

  // ---------------------------------------------------------------------------------------------
  // Decoding in two pieces.

  /** Bytes that follow do not change the first span, unless they go on with it. */
  lemma SpanOfPrefix(a: seq<Byte>, b: seq<Byte>)
    requires a != [] && (Span(a) < |a| || b == [] || !Joins(a + b, |a|))
    ensures Span(a + b) == Span(a)
  {
    var s, n := a + b, Span(a);
    forall i | 0 < i < |a| ensures Joins(s, i) <==> Joins(a, i) {}
  }

  lemma CharOfPrefix(a: seq<Byte>, b: seq<Byte>, n: nat)
    requires 0 < n <= |a| && forall i :: 0 < i < n ==> Joins(a, i)
    ensures forall i :: 0 < i < n ==> Joins(a + b, i)
    ensures CharOf(a + b, n) == CharOf(a, n)
  {
    forall i | 0 < i < n ensures Joins(a + b, i) { assert Joins(a, i); }
  }

  /** A whole decoded in two pieces is the same text, unless the cut is inside a character: then it is a longer one. */
  ghost predicate InTwo(a: seq<Byte>, b: seq<Byte>) {
    if Splits(a, b) then |Decode(a + b)| < |Decode(a)| + |Decode(b)| else Decode(a + b) == Decode(a) + Decode(b)
  }

  lemma {:induction false} DecodeInTwo(a: seq<Byte>, b: seq<Byte>)
    ensures InTwo(a, b)
    decreases |a|
  {
    if a == [] {
      assert a + b == b;
    } else if Span(a) < |a| {
      DecodeInTwo(a[Span(a)..], b);
      InTwoAfter(a, b);
    } else if Splits(a, b) {
      CutInside(a, b);
    } else {
      CutBetween(a, b);
    }
  }

  lemma FirstCharacter(a: seq<Byte>, b: seq<Byte>)
    requires a != [] && (Span(a) < |a| || b == [] || !Joins(a + b, |a|))
    ensures Decode(a + b) == [CharOf(a, Span(a))] + Decode(a[Span(a)..] + b)
  {
    SpanOfPrefix(a, b);
    CharOfPrefix(a, b, Span(a));
    assert (a + b)[Span(a)..] == a[Span(a)..] + b;
  }

  lemma InTwoAfter(a: seq<Byte>, b: seq<Byte>)
    requires a != [] && Span(a) < |a| && InTwo(a[Span(a)..], b)
    ensures InTwo(a, b)
  {
    FirstCharacter(a, b);
    assert Pending(a) == Pending(a[Span(a)..]);
  }

  lemma CutBetween(a: seq<Byte>, b: seq<Byte>)
    requires a != [] && Span(a) == |a| && !Splits(a, b)
    ensures InTwo(a, b)
  {
    if b == [] {
      assert a + b == a;
    } else {
      FirstCharacter(a, b);
      assert a[|a|..] + b == b && a[|a|..] == [];
    }
  }

  /** Bytes that cannot begin a character are replaced one by one. */
  lemma {:induction false} LoneContinuations(b: seq<Byte>, m: nat)
    requires m <= |b| && forall i :: 0 <= i < m ==> Continuation(b[i])
    ensures |Decode(b)| == m + |Decode(b[m..])|
    decreases m
  {
    if m > 0 {
      assert Span(b) == 1;
      LoneContinuations(b[1..], m - 1);
      assert b[1..][m - 1..] == b[m..];
    } else {
      assert b[m..] == b;
    }
  }

  lemma CutInside(a: seq<Byte>, b: seq<Byte>)
    requires a != [] && Span(a) == |a| && b != [] && Joins(a + b, |a|)
    ensures |Decode(a + b)| < |Decode(a)| + |Decode(b)|
  {
    var s := a + b;
    SpanGrows(a, b);
    var m := Span(s) - |a|;
    forall i | 0 <= i < m ensures Continuation(b[i]) {
      assert Joins(s, |a| + i) && s[|a| + i] == b[i];
    }
    LoneContinuations(b, m);
    assert s[Span(s)..] == b[m..];
  }

  lemma SpanGrows(a: seq<Byte>, b: seq<Byte>)
    requires a != [] && Span(a) == |a| && b != [] && Joins(a + b, |a|)
    ensures Span(a + b) > |a|
  {
    forall i | 0 < i < |a| ensures Joins(a + b, i) { assert Joins(a, i); }
  }

  // ---------------------------------------------------------------------------------------------
  // Encoding.

  function Encode(c: char): (u: seq<Byte>)
    ensures u != []
  {
    var n := c as int;
    var h := n / 64;
    if n < 0x80 then [n]
    else if n < 0x800 then [0xC0 + h, 0x80 + n % 64]
    else if n < 0x10000 then [0xE0 + h / 64, 0x80 + h % 64, 0x80 + n % 64]
    else [0xF0 + h / 64 / 64, 0x80 + h / 64 % 64, 0x80 + h % 64, 0x80 + n % 64]
  }

  lemma EncodeReads(c: char)
    ensures Span(Encode(c)) == |Encode(c)| == Need(Encode(c)[0]) + 1 && CharOf(Encode(c), |Encode(c)|) == c
    ensures !Continuation(Encode(c)[0])
  {
    var n, u := c as int, Encode(c);
    if n < 0x80 {
    } else if n < 0x800 {
      assert Joins(u, 1);
    } else if n < 0x10000 {
      ThreeReads(n);
      assert Joins(u, 1) && Joins(u, 2);
    } else {
      FourReads(n);
      assert Joins(u, 1) && Joins(u, 2) && Joins(u, 3);
    }
  }

  lemma ThreeReads(n: int)
    requires 0x800 <= n < 0xD800 || 0xE000 <= n < 0x10000
    ensures var a, b, c := 0xE0 + n / 64 / 64, 0x80 + n / 64 % 64, 0x80 + n % 64;
            0xE0 <= a <= 0xEF && Second(a, b) && Continuation(c) && Three(a, b, c) as int == n
  {}

  lemma FourReads(n: int)
    requires 0x10000 <= n < 0x110000
    ensures var a, b, c, d := 0xF0 + n / 64 / 64 / 64, 0x80 + n / 64 / 64 % 64, 0x80 + n / 64 % 64, 0x80 + n % 64;
            0xF0 <= a <= 0xF4 && Second(a, b) && Continuation(c) && Continuation(d) && Four(a, b, c, d) as int == n
  {}

  function EncodeAll(t: string): seq<Byte> {
    if t == [] then [] else Encode(t[0]) + EncodeAll(t[1..])
  }

  /** Decoding an encoded text gives it back. */
  lemma {:induction false} RoundTrip(t: string)
    ensures Decode(EncodeAll(t)) == t && Pending(EncodeAll(t)) == []
  {
    if t != [] {
      var u, rest := Encode(t[0]), EncodeAll(t[1..]);
      RoundTrip(t[1..]);
      FirstOf(t[0], rest);
    }
  }

  /** The bytes after a whole character are read on their own. */
  lemma FirstOf(c: char, rest: seq<Byte>)
    ensures Decode(Encode(c) + rest) == [c] + Decode(rest)
    ensures Pending(Encode(c) + rest) == Pending(rest)
  {
    var u := Encode(c);
    EncodeReads(c);
    SpanOfPrefix(u, rest);
    CharOfPrefix(u, rest, |u|);
    assert (u + rest)[|u|..] == rest;
    if rest == [] { assert u + rest == u; }
  }

  /** Inside a well-formed text the cut is inside a character exactly when the second piece begins with a continuation
      byte. */
  lemma {:induction false} CutOfText(t: string, a: seq<Byte>, b: seq<Byte>)
    requires b != [] && a + b <= EncodeAll(t)
    ensures Splits(a, b) <==> Continuation(b[0])
  {
    assert (a + b)[|a|] == b[0];
    var u, rest := Encode(t[0]), EncodeAll(t[1..]);
    assert EncodeAll(t) == u + rest;
    EncodeReads(t[0]);
    if |a| >= |u| {
      var after := a[|u|..];
      assert forall i :: 0 <= i < |u| ==> a[i] == (a + b)[i] == (u + rest)[i] == u[i];
      assert a == u + after;
      assert forall i :: 0 <= i < |after + b| ==> (after + b)[i] == (a + b)[|u| + i] == (u + rest)[|u| + i] == rest[i];
      FirstOf(t[0], after);
      CutOfText(t[1..], after, b);
    } else {
      assert forall i :: 0 <= i <= |a| ==> (a + b)[i] == (u + rest)[i] == u[i];
      if a != [] {
        forall i | 0 < i <= |a| ensures Joins(u, i) && Joins(a + b, i) {}
        forall i | 0 < i < |a| ensures Joins(a, i) { assert Joins(a + b, i); }
        assert Joins(a + b, |a|);
      }
    }
  }
}
