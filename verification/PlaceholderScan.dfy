/** `changelogPlaceholderLines` (scripts/release-preflight.ts): the line-by-line scanner finds what one left-to-right
    scan of the whole section would. */
module PlaceholderScan {
  import opened Options

  // ---------------------------------------------------------------------------------------------
  // Text.

  /** The line with its inline code spans removed. */
  function StripCode(s: string): string {
    if s == "" then ""
    else if s[0] == '`' && First(s[1..], "`").Some? then StripCode(s[1..][First(s[1..], "`").value + 1..])
    else [s[0]] + StripCode(s[1..])
  }

  /** `s.indexOf(m)`. */
  function First(s: string, m: string): (r: Option<nat>)
    ensures r.Some? ==> r.value + |m| <= |s| && m <= s[r.value..]
  {
    if m <= s then Some(0)
    else if s == "" then None
    else
      var r := First(s[1..], m);
      if r.Some? then Some(r.value + 1) else None
  }

  lemma {:induction false} StripKeepsLine(s: string)
    requires OneLine(s)
    ensures OneLine(StripCode(s))
  {
    if s != "" {
      var v := First(s[1..], "`");
      if s[0] == '`' && v.Some? { StripKeepsLine(s[1..][v.value + 1..]); } else { StripKeepsLine(s[1..]); }
    }
  }

  /** An odd number of backticks stands before position i. */
  predicate Odd(s: string, i: nat)
    requires i <= |s|
  {
    i > 0 && (Odd(s, i - 1) <==> s[i - 1] != '`')
  }

  predicate TickAfter(s: string, i: nat) { exists k :: i < k < |s| && s[k] == '`' }

  /** Position i lies in a closed code span: backticks pair up from the left, and one left over opens nothing. */
  predicate InSpan(s: string, i: nat)
    requires i < |s|
  {
    if s[i] == '`' then Odd(s, i) || TickAfter(s, i) else Odd(s, i) && TickAfter(s, i)
  }

  /** The characters from position i on that lie in no closed code span. */
  function OutsideSpans(s: string, i: nat): string
    requires i <= |s|
    decreases |s| - i
  {
    if i == |s| then "" else (if InSpan(s, i) then "" else [s[i]]) + OutsideSpans(s, i + 1)
  }

  lemma {:induction false} FirstTick(s: string)
    ensures match First(s, "`")
            case None => forall k :: 0 <= k < |s| ==> s[k] != '`'
            case Some(v) => v < |s| && s[v] == '`' && forall k :: 0 <= k < v ==> s[k] != '`'
  {
    if s != "" && s[0] != '`' {
      FirstTick(s[1..]);
      assert !("`" <= s);
    }
  }

  lemma {:induction false} NoTicks(s: string, i: nat, j: nat)
    requires i <= j <= |s| && forall k :: i <= k < j ==> s[k] != '`'
    ensures Odd(s, j) == Odd(s, i)
  {
    if i < j { NoTicks(s, i, j - 1); }
  }

  lemma {:induction false} AllInSpan(s: string, i: nat, j: nat)
    requires i <= j <= |s| && forall k :: i <= k < j ==> InSpan(s, k)
    ensures OutsideSpans(s, i) == OutsideSpans(s, j)
    decreases j - i
  {
    if i < j { AllInSpan(s, i + 1, j); }
  }

  lemma {:induction false} NoneInSpan(s: string, i: nat, t: string)
    requires i <= |s| && t == s[i..] && forall k :: i <= k < |s| ==> s[k] != '`'
    ensures StripCode(t) == OutsideSpans(s, i)
    decreases |s| - i
  {
    if t != "" {
      assert t[0] == s[i] && !InSpan(s, i);
      NoneInSpan(s, i + 1, t[1..]);
    }
  }

  /** Stripping drops exactly the closed code spans. */
  lemma StripDropsSpans(s: string)
    ensures StripCode(s) == OutsideSpans(s, 0)
  {
    StripFrom(s, 0, s);
  }

  lemma {:induction false} StripFrom(s: string, i: nat, t: string)
    requires i <= |s| && t == s[i..] && !Odd(s, i)
    ensures StripCode(t) == OutsideSpans(s, i)
    decreases |s| - i
  {
    if t != "" {
      if t[0] != '`' {
        PlainCharacter(s, i, t);
        StripFrom(s, i + 1, t[1..]);
      } else if First(t[1..], "`").None? {
        LoneTick(s, i, t);
      } else {
        var v := First(t[1..], "`").value;
        ClosedSpan(s, i, t, v);
        StripFrom(s, i + v + 2, t[1..][v + 1..]);
      }
    }
  }

  lemma PlainCharacter(s: string, i: nat, t: string)
    requires i < |s| && t == s[i..] && !Odd(s, i) && t[0] != '`'
    ensures t[1..] == s[i + 1..] && !Odd(s, i + 1)
    ensures StripCode(t) == [s[i]] + StripCode(t[1..]) && OutsideSpans(s, i) == [s[i]] + OutsideSpans(s, i + 1)
  {
    StripHead(t);
    NotInSpan(s, i);
  }

  lemma LoneTick(s: string, i: nat, t: string)
    requires i < |s| && t == s[i..] && !Odd(s, i) && t[0] == '`' && First(t[1..], "`").None?
    ensures StripCode(t) == OutsideSpans(s, i)
  {
    TickAfterIs(s, i, t[1..]);
    StripHead(t);
    NotInSpan(s, i);
    NoneInSpan(s, i + 1, t[1..]);
  }

  lemma ClosedSpan(s: string, i: nat, t: string, v: nat)
    requires i < |s| && t == s[i..] && !Odd(s, i) && t[0] == '`' && First(t[1..], "`") == Some(v)
    ensures v + 1 <= |t[1..]| && t[1..][v + 1..] == s[i + v + 2..] && !Odd(s, i + v + 2)
    ensures StripCode(t) == StripCode(t[1..][v + 1..]) && OutsideSpans(s, i) == OutsideSpans(s, i + v + 2)
  {
    StripHead(t);
    DroppedFrom(s, i, t[1..], v);
  }

  lemma DroppedFrom(s: string, i: nat, rest: string, v: nat)
    requires i < |s| && s[i] == '`' && !Odd(s, i) && rest == s[i + 1..] && First(rest, "`") == Some(v)
    ensures v + 1 <= |rest| && rest[v + 1..] == s[i + v + 2..] && !Odd(s, i + v + 2)
    ensures OutsideSpans(s, i) == OutsideSpans(s, i + v + 2)
  {
    TickAfterIs(s, i, rest);
    SpanIsDropped(s, i, i + 1 + v);
  }

  lemma StripHead(t: string)
    requires t != ""
    ensures var v := First(t[1..], "`");
            StripCode(t) ==
            if t[0] == '`' && v.Some? then StripCode(t[1..][v.value + 1..]) else [t[0]] + StripCode(t[1..])
  {
  }

  lemma NotInSpan(s: string, i: nat)
    requires i < |s| && !Odd(s, i) && (s[i] != '`' || !TickAfter(s, i))
    ensures OutsideSpans(s, i) == [s[i]] + OutsideSpans(s, i + 1)
    ensures s[i] != '`' ==> !Odd(s, i + 1)
  {
  }

  predicate NextTick(s: string, i: nat, end: nat) {
    i < end < |s| && s[end] == '`' && forall k :: i < k < end ==> s[k] != '`'
  }

  lemma TickAfterIs(s: string, i: nat, rest: string)
    requires i < |s| && rest == s[i + 1..]
    ensures match First(rest, "`")
            case None => !TickAfter(s, i)
            case Some(v) => NextTick(s, i, i + 1 + v)
  {
    FirstTick(rest);
    var end := if First(rest, "`").Some? then i + 1 + First(rest, "`").value else |s|;
    forall k | i < k < end ensures s[k] != '`' { assert s[k] == rest[k - i - 1]; }
  }

  lemma {:induction false} TicksInside(s: string, i: nat, k: nat)
    requires i < k <= |s| && s[i] == '`' && forall j :: i < j < k ==> s[j] != '`'
    ensures Odd(s, k) != Odd(s, i)
  {
    NoTicks(s, i + 1, k);
  }

  lemma SpanIsDropped(s: string, i: nat, end: nat)
    requires i < |s| && !Odd(s, i) && s[i] == '`' && NextTick(s, i, end)
    ensures OutsideSpans(s, i) == OutsideSpans(s, end + 1) && !Odd(s, end + 1)
  {
    forall k | i <= k <= end ensures InSpan(s, k) {
      if i < k { TicksInside(s, i, k); }
    }
    TicksInside(s, i, end);
    AllInSpan(s, i, end + 1);
  }

  predicate OneLine(s: string) { '\n' !in s }

  function Lower(c: char): char { if 'A' <= c <= 'Z' then (c as int + 32) as char else c }

  const WORD := ['p', 'l', 'a', 'c', 'e', 'h', 'o', 'l', 'd', 'e', 'r']

  predicate WordAt(s: string, i: int) {
    0 <= i && i + |WORD| <= |s| && forall k :: 0 <= k < |WORD| ==> Lower(s[i + k]) == WORD[k]
  }

  /** /placeholder/i matches. */
  predicate Says(s: string) { exists i :: 0 <= i < |s| && WordAt(s, i) }

  /** The word, in whatever letter case. */
  predicate IsPlaceholder(w: string) {
    && |w| == 11 && w[0] in "pP" && w[1] in "lL" && w[2] in "aA" && w[3] in "cC" && w[4] in "eE" && w[5] in "hH"
    && w[6] in "oO" && w[7] in "lL" && w[8] in "dD" && w[9] in "eE" && w[10] in "rR"
  }

  lemma LowerIs(c: char, small: char, large: char)
    requires 'a' <= small <= 'z' && large as int + 32 == small as int
    ensures Lower(c) == small <==> c in [small, large]
  {}

  lemma WordIs(s: string, i: nat)
    requires i + |WORD| <= |s|
    ensures WordAt(s, i) <==> IsPlaceholder(s[i..i + |WORD|])
  {
    var w := s[i..i + |WORD|];
    LowerIs(w[0], 'p', 'P');
    LowerIs(w[1], 'l', 'L');
    LowerIs(w[2], 'a', 'A');
    LowerIs(w[3], 'c', 'C');
    LowerIs(w[4], 'e', 'E');
    LowerIs(w[5], 'h', 'H');
    LowerIs(w[6], 'o', 'O');
    LowerIs(w[7], 'l', 'L');
    LowerIs(w[8], 'd', 'D');
    LowerIs(w[9], 'e', 'E');
    LowerIs(w[10], 'r', 'R');
    assert forall k :: 0 <= k < |WORD| ==> s[i + k] == w[k];
    assert |WORD| == 11 && WORD[..6] == "placeh" && WORD[6..] == "older";
    if IsPlaceholder(w) {
      forall k | 0 <= k < |WORD| ensures Lower(s[i + k]) == WORD[k] { assert s[i + k] == w[k]; }
    }
    if WordAt(s, i) {
      forall k | 0 <= k < |WORD| ensures Lower(w[k]) == WORD[k] { assert s[i + k] == w[k]; }
    }
  }

  /** A text says it exactly when the word stands somewhere in it. */
  lemma SaysMeans(s: string)
    ensures Says(s) <==> exists before, w, after :: s == before + w + after && IsPlaceholder(w)
  {
    if Says(s) {
      var i :| 0 <= i < |s| && WordAt(s, i);
      WordIs(s, i);
      assert s == s[..i] + s[i..i + |WORD|] + s[i + |WORD|..];
    }
    if before, w, after :| s == before + w + after && IsPlaceholder(w) {
      assert s[|before|..|before| + |WORD|] == w;
      WordIs(s, |before|);
    }
  }

  lemma WordMoves(s: string, i: int, t: string, j: int)
    requires WordAt(s, i) && 0 <= j && j + |WORD| <= |t| && t[j..j + |WORD|] == s[i..i + |WORD|]
    ensures WordAt(t, j)
  {
    forall k | 0 <= k < |WORD| ensures Lower(t[j + k]) == WORD[k] {
      assert t[j + k] == t[j..j + |WORD|][k] == s[i..i + |WORD|][k] == s[i + k];
    }
  }

  lemma WordHasNoBreak(s: string, i: int)
    requires WordAt(s, i)
    ensures forall k :: i <= k < i + |WORD| ==> s[k] != '\n'
  {
    forall k | i <= k < i + |WORD| ensures s[k] != '\n' { assert Lower(s[i + (k - i)]) == WORD[k - i]; }
  }

  /** The word does not reach across a line break. */
  lemma SaysByLine(x: string, y: string)
    ensures Says(x + ['\n'] + y) <==> Says(x) || Says(y)
  {
    var s := x + ['\n'] + y;
    if i :| 0 <= i < |s| && WordAt(s, i) {
      WordHasNoBreak(s, i);
      assert s[|x|] == '\n';
      if i < |x| { WordMoves(s, i, x, i); } else { WordMoves(s, i, y, i - |x| - 1); }
    }
    if i :| 0 <= i < |x| && WordAt(x, i) { WordMoves(x, i, s, i); }
    if i :| 0 <= i < |y| && WordAt(y, i) { WordMoves(y, i, s, i + |x| + 1); }
  }

  lemma SaysWithBreak(x: string)
    ensures Says(x + ['\n']) <==> Says(x)
  {
    SaysByLine(x, "");
    assert x + ['\n'] + "" == x + ['\n'];
  }

  // ---------------------------------------------------------------------------------------------
  // One left-to-right scan of the whole text.

  const OPEN := ['<', '!', '-', '-']
  const CLOSE := ['-', '-', '>']

  /** Outside comments, or inside one that began on line `start`, having read `body` of it. */
  datatype State = Outside | Inside(start: nat, body: string)

  function Report(st: State): seq<nat> { if st.Inside? && Says(st.body) then [st.start + 1] else [] }

  function NextLine(line: nat, c: char): nat { if c == '\n' then line + 1 else line }

  /** Read `t`, which begins on line `line` (at its start if `lineStart`). `todo` tells the lines that start with a TODO
      marker: one met outside comments is reported and its text passed over. A comment is reported where it ends, by the
      line it began on. Lines are reported counted from 1. */
  function Scan(t: string, line: nat, st: State, lineStart: bool, todo: nat -> bool): seq<nat>
    decreases |t|, 1
  {
    if lineStart && st.Outside? && todo(line) then [line + 1] + PassOver(t, line, todo)
    else if t == "" then Report(st)
    else if st.Outside? then
      if OPEN <= t then Scan(t[|OPEN|..], line, Inside(line, ""), false, todo)
      else Scan(t[1..], NextLine(line, t[0]), Outside, t[0] == '\n', todo)
    else if CLOSE <= t then Report(st) + Scan(t[|CLOSE|..], line, Outside, false, todo)
    else Scan(t[1..], NextLine(line, t[0]), Inside(st.start, st.body + [t[0]]), t[0] == '\n', todo)
  }

  function PassOver(t: string, line: nat, todo: nat -> bool): seq<nat>
    decreases |t|, 0
  {
    if t == "" then []
    else if t[0] == '\n' then Scan(t[1..], line + 1, Outside, true, todo)
    else PassOver(t[1..], line, todo)
  }

  lemma PrefixInLine(m: string, rest: string, more: string)
    requires OneLine(m) && m <= rest + ['\n'] + more
    ensures m <= rest
  {
    var t := rest + ['\n'] + more;
    assert t[|rest|] == '\n';
    assert forall i :: 0 <= i < |m| ==> m[i] == t[i];
  }

  lemma {:induction false} PassesOver(rest: string, more: string, line: nat, todo: nat -> bool)
    requires OneLine(rest)
    ensures PassOver(rest + ['\n'] + more, line, todo) == Scan(more, line + 1, Outside, true, todo)
  {
    var t := rest + ['\n'] + more;
    if rest == "" {
      assert t[1..] == more;
    } else {
      assert t[1..] == rest[1..] + ['\n'] + more;
      PassesOver(rest[1..], more, line, todo);
    }
  }

  lemma {:induction false} NoOpen(rest: string, more: string, line: nat, todo: nat -> bool)
    requires OneLine(rest) && First(rest, OPEN).None?
    ensures Scan(rest + ['\n'] + more, line, Outside, false, todo) == Scan(more, line + 1, Outside, true, todo)
  {
    var t := rest + ['\n'] + more;
    if OPEN <= t { PrefixInLine(OPEN, rest, more); }
    if rest == "" {
      assert t[1..] == more;
    } else {
      assert t[1..] == rest[1..] + ['\n'] + more;
      NoOpen(rest[1..], more, line, todo);
    }
  }

  lemma {:induction false} AtOpen(rest: string, more: string, line: nat, todo: nat -> bool)
    requires OneLine(rest) && First(rest, OPEN).Some?
    ensures var o := First(rest, OPEN).value;
            Scan(rest + ['\n'] + more, line, Outside, false, todo)
            == Scan(rest[o + |OPEN|..] + ['\n'] + more, line, Inside(line, ""), false, todo)
  {
    var t := rest + ['\n'] + more;
    if OPEN <= rest {
      assert t[|OPEN|..] == rest[|OPEN|..] + ['\n'] + more;
    } else {
      if OPEN <= t { PrefixInLine(OPEN, rest, more); }
      assert t[1..] == rest[1..] + ['\n'] + more;
      AtOpen(rest[1..], more, line, todo);
      var o := First(rest[1..], OPEN).value;
      assert rest[1..][o + |OPEN|..] == rest[o + 1 + |OPEN|..];
    }
  }

  lemma {:induction false} NoClose(rest: string, more: string, line: nat, start: nat, body: string, todo: nat -> bool)
    requires OneLine(rest) && First(rest, CLOSE).None?
    ensures Scan(rest + ['\n'] + more, line, Inside(start, body), false, todo)
         == Scan(more, line + 1, Inside(start, body + rest + ['\n']), true, todo)
  {
    var t := rest + ['\n'] + more;
    if CLOSE <= t { PrefixInLine(CLOSE, rest, more); }
    if rest == "" {
      assert t[1..] == more && body + rest + ['\n'] == body + ['\n'];
    } else {
      assert t[1..] == rest[1..] + ['\n'] + more;
      NoClose(rest[1..], more, line, start, body + [rest[0]], todo);
      assert body + [rest[0]] + rest[1..] + ['\n'] == body + rest + ['\n'];
    }
  }

  lemma ReadOne(rest: string, more: string, line: nat, start: nat, body: string, todo: nat -> bool)
    requires OneLine(rest) && rest != "" && !(CLOSE <= rest)
    ensures Scan(rest + ['\n'] + more, line, Inside(start, body), false, todo)
         == Scan(rest[1..] + ['\n'] + more, line, Inside(start, body + [rest[0]]), false, todo)
  {
    var t := rest + ['\n'] + more;
    if CLOSE <= t { PrefixInLine(CLOSE, rest, more); }
    assert t[1..] == rest[1..] + ['\n'] + more;
  }

  lemma FirstLater(rest: string, m: string, c: nat)
    requires First(rest, m) == Some(c) && c > 0
    ensures rest != "" && !(m <= rest) && First(rest[1..], m) == Some(c - 1) && c - 1 <= |rest[1..]|
    ensures rest[1..][c - 1..] == rest[c..] && [rest[0]] + rest[1..][..c - 1] == rest[..c]
  {
  }

  lemma {:induction false} ReadToClose(rest: string, more: string, line: nat, start: nat, body: string,
                                       todo: nat -> bool, c: nat)
    requires OneLine(rest) && First(rest, CLOSE) == Some(c) && c <= |rest|
    ensures Scan(rest + ['\n'] + more, line, Inside(start, body), false, todo)
         == Scan(rest[c..] + ['\n'] + more, line, Inside(start, body + rest[..c]), false, todo)
  {
    if c == 0 {
      assert rest[0..] == rest && body + rest[..0] == body;
    } else {
      FirstLater(rest, CLOSE, c);
      var tail, read := rest[1..], body + [rest[0]];
      assert read + tail[..c - 1] == body + ([rest[0]] + tail[..c - 1]);
      ReadOne(rest, more, line, start, body, todo);
      ReadToClose(tail, more, line, start, read, todo, c - 1);
    }
  }

  lemma AtClose(rest: string, more: string, line: nat, start: nat, body: string, todo: nat -> bool)
    requires OneLine(rest) && First(rest, CLOSE).Some?
    ensures var c := First(rest, CLOSE).value;
            Scan(rest + ['\n'] + more, line, Inside(start, body), false, todo)
            == Report(Inside(start, body + rest[..c])) +
              Scan(rest[c + |CLOSE|..] + ['\n'] + more, line, Outside, false, todo)
  {
    var c := First(rest, CLOSE).value;
    ReadToClose(rest, more, line, start, body, todo, c);
    var t := rest[c..] + ['\n'] + more;
    assert CLOSE <= t;
    assert t[|CLOSE|..] == rest[c + |CLOSE|..] + ['\n'] + more;
  }

  // ---------------------------------------------------------------------------------------------
  // The section, and the scanner.

  /** The text of the lines from i to the end of the section, code spans removed, each ended by a line break. */
  function Text(lines: seq<string>, i: nat, end: nat): string
    requires i <= end <= |lines|
    decreases end - i
  {
    if i == end then "" else StripCode(lines[i]) + ['\n'] + Text(lines, i + 1, end)
  }

  /** The text gathered line by line says what the comment's body says: it may only lack empty lines. */
  ghost predicate SaysSame(gathered: string, body: string) {
    || (gathered == "" && body == "")
    || (exists x, y :: gathered == x + ['\n'] && body == y + ['\n'] && (Says(x) <==> Says(y)))
  }

  lemma GatherLine(gathered: string, body: string, piece: string)
    requires SaysSame(gathered, body)
    ensures Says(gathered + piece + ['\n']) <==> Says(body + piece)
    ensures SaysSame(gathered + piece + ['\n'], body + piece + ['\n'])
  {
    SaysWithBreak(gathered + piece);
    if gathered == "" && body == "" {
      assert gathered + piece == body + piece;
    } else {
      var x, y :| gathered == x + ['\n'] && body == y + ['\n'] && (Says(x) <==> Says(y));
      SaysByLine(x, piece);
      SaysByLine(y, piece);
    }
  }

  lemma SkipEmptyLine(gathered: string, body: string)
    requires SaysSame(gathered, body) && gathered != ""
    ensures SaysSame(gathered, body + ['\n'])
  {
    var x, y :| gathered == x + ['\n'] && body == y + ['\n'] && (Says(x) <==> Says(y));
    SaysWithBreak(y);
    assert body + ['\n'] == (y + ['\n']) + ['\n'];
  }

  lemma SaysSameSays(gathered: string, body: string)
    requires SaysSame(gathered, body)
    ensures Says(gathered) <==> Says(body)
  {
    if !(gathered == "" && body == "") {
      var x, y :| gathered == x + ['\n'] && body == y + ['\n'] && (Says(x) <==> Says(y));
      SaysWithBreak(x);
      SaysWithBreak(y);
    }
  }

  /** The scanner's variables and the state of the whole-text scan agree. */
  ghost predicate Agrees(inComment: bool, commentStart: nat, commentText: string, st: State) {
    && (inComment <==> st.Inside?)
    && (inComment ==> st.start == commentStart && SaysSame(commentText, st.body) && commentText != "")
  }

  /** Inside a comment: take the rest of the line up to the end of the comment, or all of it. */
  method ReadComment(rest: string, i: nat, start: nat, text: string, soFar: seq<nat>,
                     ghost body: string, ghost more: string, ghost todo: nat -> bool)
    returns (closed: bool, commentText: string, found: seq<nat>, after: string, ghost st: State)
    requires OneLine(rest) && SaysSame(text, body)
    ensures closed ==>
              && st == Outside && OneLine(after) && |after| < |rest|
              && found + Scan(after + ['\n'] + more, i, Outside, false, todo)
                 == soFar + Scan(rest + ['\n'] + more, i, Inside(start, body), false, todo)
    ensures !closed ==>
              && Agrees(true, start, commentText, st) && found == soFar
              && Scan(more, i + 1, st, true, todo) == Scan(rest + ['\n'] + more, i, Inside(start, body), false, todo)
  {
    found, after := soFar, rest;
    var at := First(rest, CLOSE);
    var piece := if at.None? then rest else rest[..at.value];
    GatherLine(text, body, piece);
    commentText := text + piece + ['\n'];
    closed := at.Some?;
    if at.None? {
      NoClose(rest, more, i, start, body, todo);
      st := Inside(start, body + rest + ['\n']);
      return;
    }
    AtClose(rest, more, i, start, body, todo);
    st := Outside;
    after := rest[at.value + |CLOSE|..];
    if Says(commentText) { found := found + [start + 1]; }
    assert found == soFar + Report(Inside(start, body + piece));
    Regroup(soFar, Report(Inside(start, body + piece)), Scan(after + ['\n'] + more, i, Outside, false, todo));
  }

  lemma Regroup(a: seq<nat>, b: seq<nat>, c: seq<nat>)
    ensures a + b + c == a + (b + c)
  {
  }

  lemma SameFromLineStart(t: string, i: nat, st: State, todo: nat -> bool)
    requires !(st.Outside? && todo(i))
    ensures Scan(t, i, st, true, todo) == Scan(t, i, st, false, todo)
  {
  }

  /** One line that is not a reported TODO line: several comments may open and close on it. */
  method ScanLine(line: string, i: nat, open: bool, start: nat, text: string, soFar: seq<nat>,
                  ghost before: State, ghost more: string, ghost todo: nat -> bool)
    returns (inComment: bool, commentStart: nat, commentText: string, found: seq<nat>, ghost st: State)
    requires OneLine(line) && Agrees(open, start, text, before) && !(before.Outside? && todo(i))
    ensures Agrees(inComment, commentStart, commentText, st)
    ensures found + Scan(more, i + 1, st, true, todo) == soFar + Scan(line + ['\n'] + more, i, before, true, todo)
  {
    inComment, commentStart, commentText, found, st := open, start, text, soFar, before;
    ghost var total := soFar + Scan(line + ['\n'] + more, i, before, false, todo);
    SameFromLineStart(line + ['\n'] + more, i, before, todo);
    var rest := line;
    while rest != ""
      invariant OneLine(rest)
      invariant Agrees(inComment, commentStart, commentText, st)
      invariant found + Scan(rest + ['\n'] + more, i, st, false, todo) == total
      decreases |rest|
    {
      if !inComment {
        var at := First(rest, OPEN);
        if at.None? {
          NoOpen(rest, more, i, todo);
          return;
        }
        AtOpen(rest, more, i, todo);
        inComment, commentStart, commentText, st := true, i, "", Inside(i, "");
        rest := rest[at.value + |OPEN|..];
      }
      var closed;
      closed, commentText, found, rest, st :=
        ReadComment(rest, i, commentStart, commentText, found, st.body, more, todo);
      if !closed { return; }
      inComment := false;
    }
    if inComment {
      NoClose("", more, i, st.start, st.body, todo);
      SkipEmptyLine(commentText, st.body);
      assert st.body + "" + ['\n'] == st.body + ['\n'];
      st := Inside(st.start, st.body + ['\n']);
    } else {
      NoOpen("", more, i, todo);
    }
  }

  const HEADING := ['#', '#', ' ', '[']

  /** The line after the first heading of the version, or the number of lines. */
  function SectionStart(lines: seq<string>, prefix: string, from: nat): (r: nat)
    requires from <= |lines|
    ensures from <= r <= |lines|
    decreases |lines| - from
  {
    if from == |lines| then from else if prefix <= lines[from] then from + 1 else SectionStart(lines, prefix, from + 1)
  }

  /** The next version heading, or the number of lines. */
  function SectionEnd(lines: seq<string>, from: nat): (r: nat)
    requires from <= |lines|
    ensures from <= r <= |lines|
    decreases |lines| - from
  {
    if from == |lines| || HEADING <= lines[from] then from else SectionEnd(lines, from + 1)
  }

  /** The first line that begins so, from some line on. */
  predicate FirstLine(lines: seq<string>, prefix: string, from: nat, k: nat) {
    from <= k < |lines| && prefix <= lines[k] && forall j :: from <= j < k ==> !(prefix <= lines[j])
  }

  /** The section begins after the first heading of its version; without one there is none. */
  lemma {:induction false} SectionStartIs(lines: seq<string>, prefix: string, from: nat)
    requires from <= |lines|
    ensures forall k: nat :: FirstLine(lines, prefix, from, k) ==> SectionStart(lines, prefix, from) == k + 1
    ensures (forall k :: from <= k < |lines| ==> !(prefix <= lines[k])) ==> SectionStart(lines, prefix, from) == |lines|
    decreases |lines| - from
  {
    if from < |lines| && !(prefix <= lines[from]) {
      SectionStartIs(lines, prefix, from + 1);
      forall k: nat | FirstLine(lines, prefix, from, k) ensures FirstLine(lines, prefix, from + 1, k) {}
    }
  }

  /** It ends before the next heading of any version, or with the file. */
  lemma {:induction false} SectionEndIs(lines: seq<string>, from: nat)
    requires from <= |lines|
    ensures var end := SectionEnd(lines, from);
            && (forall k :: from <= k < end ==> !(HEADING <= lines[k])) && (end < |lines| ==> HEADING <= lines[end])
    decreases |lines| - from
  {
    if from < |lines| && !(HEADING <= lines[from]) { SectionEndIs(lines, from + 1); }
  }

  function Total(lines: seq<string>, prefix: string, isTodo: string -> bool): seq<nat> {
    var start := SectionStart(lines, prefix, 0);
    SectionScan(lines, start, SectionEnd(lines, start), isTodo)
  }

  function TodoLines(lines: seq<string>, end: nat, isTodo: string -> bool): nat -> bool
    requires end <= |lines|
  {
    (i: nat) => i < end && isTodo(StripCode(lines[i]))
  }

  function SectionScan(lines: seq<string>, start: nat, end: nat, isTodo: string -> bool): seq<nat>
    requires start <= end <= |lines|
  {
    Scan(Text(lines, start, end), start, Outside, true, TodoLines(lines, end, isTodo))
  }

  lemma TodoLine(line: string, more: string, i: nat, todo: nat -> bool, soFar: seq<nat>)
    requires OneLine(line) && todo(i)
    ensures soFar + Scan(line + ['\n'] + more, i, Outside, true, todo) ==
              soFar + [i + 1] + Scan(more, i + 1, Outside, true, todo)
  {
    PassesOver(line, more, i, todo);
    Regroup(soFar, [i + 1], Scan(more, i + 1, Outside, true, todo));
  }

  /** The loop over the lines of the section. */
  method ScanSection(lines: seq<string>, start: nat, isTodo: string -> bool) returns (found: seq<nat>)
    requires start <= |lines| && forall i :: 0 <= i < |lines| ==> OneLine(lines[i])
    ensures found == SectionScan(lines, start, SectionEnd(lines, start), isTodo)
  {
    ghost var end := SectionEnd(lines, start);
    ghost var todo := TodoLines(lines, end, isTodo);
    ghost var total := SectionScan(lines, start, end, isTodo);
    ghost var st := Outside;
    found := [];
    var inComment, commentStart, commentText := false, 0, "";
    var i := start;
    while i < |lines|
      invariant start <= i <= |lines| && end == SectionEnd(lines, i)
      invariant Agrees(inComment, commentStart, commentText, st)
      invariant found + Scan(Text(lines, i, end), i, st, true, todo) == total
    {
      if HEADING <= lines[i] { break; }
      var line := StripCode(lines[i]);
      StripKeepsLine(lines[i]);
      ghost var more := Text(lines, i + 1, end);
      assert Text(lines, i, end) == line + ['\n'] + more;
      assert todo(i) == isTodo(line);
      if !inComment && isTodo(line) {
        TodoLine(line, more, i, todo, found);
        found := found + [i + 1];
      } else {
        inComment, commentStart, commentText, found, st :=
          ScanLine(line, i, inComment, commentStart, commentText, found, st, more, todo);
      }
      i := i + 1;
    }
    assert Text(lines, end, end) == "" && !todo(end) && end == i;
    assert total == found + Report(st);
    found := LastComment(inComment, commentStart, commentText, found, st);
  }

  /** A comment the section leaves open. */
  method LastComment(inComment: bool, commentStart: nat, commentText: string, soFar: seq<nat>, ghost st: State)
    returns (found: seq<nat>)
    requires Agrees(inComment, commentStart, commentText, st)
    ensures found == soFar + Report(st)
  {
    found := soFar;
    if inComment { SaysSameSays(commentText, st.body); }
    if inComment && Says(commentText) { found := found + [commentStart + 1]; }
  }

  /** The scanner reports, in order, exactly what one scan of the section's text reports. `isTodo` is the TODO
      pattern. */
  method ChangelogPlaceholderLines(lines: seq<string>, version: string, isTodo: string -> bool)
    returns (found: seq<nat>)
    requires forall i :: 0 <= i < |lines| ==> OneLine(lines[i])
    ensures found == Total(lines, HEADING + version + [']'], isTodo)
  {
    var prefix := HEADING + version + [']'];
    var i := 0;
    while i < |lines|
      invariant 0 <= i <= |lines|
      invariant SectionStart(lines, prefix, i) == SectionStart(lines, prefix, 0)
    {
      i := i + 1;
      if prefix <= lines[i - 1] {
        found := ScanSection(lines, i, isTodo);
        return;
      }
    }
    found := ScanSection(lines, i, isTodo);
  }
}
