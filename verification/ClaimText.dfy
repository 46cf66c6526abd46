/** The identity of a rubric claim (scripts/eval-gate.ts): its words, whatever white space stands around and between. */
module ClaimText {
  import opened Decimal

  function TrimStart(s: string): string {
    if s != [] && IsSpace(s[0]) then TrimStart(s[1..]) else s
  }

  function TrimEnd(s: string): string {
    if s != [] && IsSpace(s[|s| - 1]) then TrimEnd(s[..|s| - 1]) else s
  }

  function SkipWord(s: string): (i: nat)
    ensures i <= |s| && (s != [] && !IsSpace(s[0]) ==> i > 0)
  {
    if s == [] || IsSpace(s[0]) then 0 else 1 + SkipWord(s[1..])
  }

  lemma {:induction false} TrimStartLength(s: string)
    ensures |TrimStart(s)| <= |s| && (TrimStart(s) != [] ==> !IsSpace(TrimStart(s)[0]))
  {
    if s != [] && IsSpace(s[0]) { TrimStartLength(s[1..]); }
  }

  /** Identity of a claim: its text, trimmed, with each run of white space read as one space. */
  function ClaimKey(claim: string): string
    decreases |claim|
  {
    TrimStartLength(claim);
    var s := TrimStart(claim);
    if s == [] then ""
    else
      var i := SkipWord(s);
      var rest := ClaimKey(s[i..]);
      if rest == "" then s[..i] else s[..i] + " " + rest
  }

  // ---------------------------------------------------------------------------------------------
  // What the key stands for.

  predicate IsWord(w: string) { w != "" && forall c :: c in w ==> !IsSpace(c) }

  predicate Blank(s: string) { forall c :: c in s ==> IsSpace(c) }

  /** The words of a text are its maximal runs without white space, in order. */
  ghost predicate Spells(s: string, words: seq<string>)
    decreases |words|
  {
    if words == [] then Blank(s)
    else exists i, j :: StartsWith(s, i, j, words[0]) && Spells(s[j..], words[1..])
  }

  /** After i blanks the text goes on with the word, up to its end or the next white space. */
  predicate StartsWith(s: string, i: int, j: int, word: string) {
    0 <= i < j <= |s| && Blank(s[..i]) && s[i..j] == word && IsWord(word) && (j == |s| || IsSpace(s[j]))
  }

  function Spaced(words: seq<string>): string {
    if words == [] then "" else if |words| == 1 then words[0] else words[0] + " " + Spaced(words[1..])
  }

  lemma {:induction false} TrimsBlanks(s: string, i: nat)
    requires i <= |s| && Blank(s[..i]) && (i == |s| || !IsSpace(s[i]))
    ensures TrimStart(s) == s[i..]
  {
    if i > 0 {
      assert s[..i][0] == s[0];
      assert s[1..][..i - 1] == s[..i][1..] && s[1..][i - 1..] == s[i..];
      TrimsBlanks(s[1..], i - 1);
    }
  }

  lemma {:induction false} SkipsWord(s: string, k: nat)
    requires k <= |s| && (forall c :: c in s[..k] ==> !IsSpace(c)) && (k == |s| || IsSpace(s[k]))
    ensures SkipWord(s) == k
  {
    if k > 0 {
      assert s[..k][0] == s[0];
      assert s[1..][..k - 1] == s[..k][1..];
      SkipsWord(s[1..], k - 1);
    }
  }

  lemma KeyOfFirst(s: string, i: int, j: int, word: string)
    requires StartsWith(s, i, j, word)
    ensures ClaimKey(s) == word + if ClaimKey(s[j..]) == "" then "" else " " + ClaimKey(s[j..])
  {
    assert s[i..j][0] == s[i] && s[i] in word;
    TrimsBlanks(s, i);
    assert s[i..][..j - i] == word && s[i..][j - i..] == s[j..];
    SkipsWord(s[i..], j - i);
  }

  lemma {:induction false} KeyIsSpaced(s: string, words: seq<string>)
    requires Spells(s, words)
    ensures ClaimKey(s) == Spaced(words)
    ensures forall w :: w in words ==> IsWord(w)
    decreases |words|
  {
    if words == [] {
      assert s[..|s|] == s;
      TrimsBlanks(s, |s|);
    } else {
      var i, j :| StartsWith(s, i, j, words[0]) && Spells(s[j..], words[1..]);
      KeyOfFirst(s, i, j, words[0]);
      KeyIsSpaced(s[j..], words[1..]);
      SpacedIsBlank(words[1..]);
      assert words == [words[0]] + words[1..];
    }
  }

  lemma SpacedIsBlank(words: seq<string>)
    requires forall w :: w in words ==> IsWord(w)
    ensures Spaced(words) == "" <==> words == []
  {
    if words != [] { assert words[0] in words; }
  }

  /** A list of words can be read off their spaced form. */
  lemma {:induction false} SpacedIsInjective(xs: seq<string>, ys: seq<string>)
    requires (forall w :: w in xs ==> IsWord(w)) && (forall w :: w in ys ==> IsWord(w))
    requires Spaced(xs) == Spaced(ys)
    ensures xs == ys
  {
    SpacedIsBlank(xs);
    SpacedIsBlank(ys);
    if xs != [] && ys != [] {
      assert xs[0] in xs && ys[0] in ys;
      FirstWordEnds(xs);
      FirstWordEnds(ys);
      var u, v := Spaced(xs), Spaced(ys);
      assert u[..|xs[0]|] == xs[0] && v[..|ys[0]|] == ys[0];
      assert u[|xs[0]|..] == if |xs| == 1 then "" else " " + Spaced(xs[1..]);
      assert v[|ys[0]|..] == if |ys| == 1 then "" else " " + Spaced(ys[1..]);
      assert |xs| > 1 ==> u[|xs[0]| + 1..] == Spaced(xs[1..]);
      assert |ys| > 1 ==> v[|ys[0]| + 1..] == Spaced(ys[1..]);
      SpacedIsInjective(xs[1..], ys[1..]);
      assert xs == [xs[0]] + xs[1..] && ys == [ys[0]] + ys[1..];
    }
  }

  lemma FirstWordEnds(words: seq<string>)
    requires words != [] && forall w :: w in words ==> IsWord(w)
    ensures SkipWord(Spaced(words)) == |words[0]|
    ensures Spaced(words) == words[0] + if |words| == 1 then "" else " " + Spaced(words[1..])
  {
    var w, s := words[0], Spaced(words);
    assert w in words && IsWord(w);
    var rest := if |words| == 1 then "" else " " + Spaced(words[1..]);
    WordThen(w, rest);
    assert s == w + rest;
  }

  lemma WordThen(w: string, rest: string)
    requires IsWord(w) && (rest == "" || IsSpace(rest[0]))
    ensures SkipWord(w + rest) == |w|
  {
    assert (w + rest)[..|w|] == w;
    SkipsWord(w + rest, |w|);
  }

  lemma {:induction false} WordsOf(s: string) returns (words: seq<string>)
    ensures Spells(s, words)
    decreases |s|
  {
    TrimStartLength(s);
    var i := |s| - |TrimStart(s)|;
    TrimStartDrops(s);
    if i == |s| {
      words := [];
      assert s[..|s|] == s;
    } else {
      var j := i + SkipWord(s[i..]);
      SkipWordSkips(s[i..]);
      var rest := WordsOf(s[j..]);
      words := [s[i..j]] + rest;
      assert s[i..j] == s[i..][..j - i];
      assert StartsWith(s, i, j, words[0]) && words[1..] == rest;
    }
  }

  lemma {:induction false} TrimStartDrops(s: string)
    ensures |TrimStart(s)| <= |s|
    ensures var i := |s| - |TrimStart(s)|; Blank(s[..i]) && s[i..] == TrimStart(s) && (i < |s| ==> !IsSpace(s[i]))
  {
    if s != [] && IsSpace(s[0]) {
      TrimStartDrops(s[1..]);
      var i := |s| - |TrimStart(s)|;
      assert s[..i] == [s[0]] + s[1..][..i - 1];
    }
  }

  lemma {:induction false} SkipWordSkips(s: string)
    ensures var k := SkipWord(s); (forall c :: c in s[..k] ==> !IsSpace(c)) && (k == |s| || IsSpace(s[k]))
  {
    if s != "" && !IsSpace(s[0]) {
      SkipWordSkips(s[1..]);
      var k := SkipWord(s);
      assert s[..k] == [s[0]] + s[1..][..k - 1];
    }
  }

  /** The same words in the same order, whatever the white space. */
  ghost predicate SameWords(x: string, y: string) {
    exists words :: Spells(x, words) && Spells(y, words)
  }

  /** Two claims are the same claim exactly when they have the same words. */
  lemma KeyIsTheWords(x: string, y: string)
    ensures ClaimKey(x) == ClaimKey(y) <==> SameWords(x, y)
  {
    var xs := WordsOf(x);
    var ys := WordsOf(y);
    KeyIsSpaced(x, xs);
    KeyIsSpaced(y, ys);
    if ClaimKey(x) == ClaimKey(y) { SpacedIsInjective(xs, ys); }
    if SameWords(x, y) {
      var words :| Spells(x, words) && Spells(y, words);
      KeyIsSpaced(x, words);
      KeyIsSpaced(y, words);
    }
  }

  /** A claim without words, the reading of one without text, is the same claim as any other such, and as no other. */
  lemma BlankClaimsMatch(x: string, y: string)
    requires Blank(x)
    ensures ClaimKey(x) == ClaimKey(y) <==> Blank(y)
  {
    assert Spells(x, []);
    KeyIsSpaced(x, []);
    var ys := WordsOf(y);
    KeyIsSpaced(y, ys);
    if ClaimKey(x) == ClaimKey(y) { SpacedIsInjective([], ys); }
    if Blank(y) {
      assert Spells(y, []);
      OneSpelling(y, ys, []);
    }
  }

  /** A text has one list of words. */
  lemma OneSpelling(s: string, xs: seq<string>, ys: seq<string>)
    requires Spells(s, xs) && Spells(s, ys)
    ensures xs == ys
  {
    KeyIsSpaced(s, xs);
    KeyIsSpaced(s, ys);
    SpacedIsInjective(xs, ys);
  }
}
