/** The regular expressions of user/grep.c:66-89: what a pattern means, and what the matcher does. */
module Regexp {
  /** A pattern. Done matches the empty string, End the empty string at the end of the text. */
  datatype Pat = Done | End | One(c: char, rest: Pat) | Star(c: char, rest: Pat)

  /** The pattern that a string (without any ^ in front) spells. */
  function Parse(re: string): (p: Pat)
    decreases |re|
  {
    if re == "" then Done
    else if |re| >= 2 && re[1] == '*' then Star(re[0], Parse(re[2..]))
    else if re == "$" then End
    else One(re[0], Parse(re[1..]))
  }

  predicate Fits(c: char, x: char) {
    c == '.' || c == x
  }

  predicate AllFit(c: char, s: string) {
    forall i :: 0 <= i < |s| ==> Fits(c, s[i])
  }

  /** s is a string of the pattern's language, when `rest` follows it in the text. */
  ghost predicate Denotes(p: Pat, s: string, rest: string)
    decreases p
  {
    match p
    case Done => s == ""
    case End => s == "" && rest == ""
    case One(c, q) => s != "" && Fits(c, s[0]) && Denotes(q, s[1..], rest)
    case Star(c, q) => exists k: nat :: k <= |s| && AllFit(c, s[..k]) && Denotes(q, s[k..], rest)
  }

  /** The pattern matches the first i characters of the text. */
  ghost predicate Takes(p: Pat, text: string, i: nat) {
    i <= |text| && Denotes(p, text[..i], text[i..])
  }

  ghost predicate Here(p: Pat, text: string) {
    exists i: nat :: Takes(p, text, i)
  }

  lemma HereDone(text: string)
    ensures Here(Done, text)
  {
    assert Takes(Done, text, 0);
  }

  lemma HereEnd(text: string)
    ensures Here(End, text) <==> text == ""
  {
    if text == "" {
      assert Takes(End, text, 0);
    }
  }

  lemma HereOne(c: char, q: Pat, text: string)
    ensures Here(One(c, q), text) <==> text != "" && Fits(c, text[0]) && Here(q, text[1..])
  {
    if Here(One(c, q), text) {
      var i: nat :| Takes(One(c, q), text, i);
      assert text[..i][1..] == text[1..][..i - 1] && text[i..] == text[1..][i - 1..];
      assert Takes(q, text[1..], i - 1);
    }
    if text != "" && Fits(c, text[0]) && Here(q, text[1..]) {
      var i: nat :| Takes(q, text[1..], i);
      assert text[..i + 1][1..] == text[1..][..i] && text[i + 1..] == text[1..][i..];
      assert Takes(One(c, q), text, i + 1);
    }
  }

  /** A starred character is none of it, or one of it and then the same again. */
  lemma HereStar(c: char, q: Pat, text: string)
    ensures Here(Star(c, q), text) <==> Here(q, text) || (text != "" && Fits(c, text[0]) && Here(Star(c, q), text[1..]))
  {
    if Here(Star(c, q), text) {
      StarGives(c, q, text);
    }
    if Here(q, text) {
      var i: nat :| Takes(q, text, i);
      assert text[..i][..0] == "" && text[..i][0..] == text[..i];
      assert Takes(Star(c, q), text, i);
    }
    if text != "" && Fits(c, text[0]) && Here(Star(c, q), text[1..]) {
      var i: nat :| Takes(Star(c, q), text[1..], i);
      var t := text[1..];
      var k: nat :| k <= i && AllFit(c, t[..i][..k]) && Denotes(q, t[..i][k..], t[i..]);
      assert text[..i + 1][..k + 1] == [text[0]] + t[..i][..k];
      assert text[..i + 1][k + 1..] == t[..i][k..] && text[i + 1..] == t[i..];
      assert AllFit(c, text[..i + 1][..k + 1]);
      assert Takes(Star(c, q), text, i + 1);
    }
  }

  lemma StarGives(c: char, q: Pat, text: string)
    requires Here(Star(c, q), text)
    ensures Here(q, text) || (text != "" && Fits(c, text[0]) && Here(Star(c, q), text[1..]))
  {
    var i: nat :| Takes(Star(c, q), text, i);
    var k: nat :| k <= i && AllFit(c, text[..i][..k]) && Denotes(q, text[..i][k..], text[i..]);
    if k == 0 {
      assert text[..i][0..] == text[..i];
      assert Takes(q, text, i);
    } else {
      var t := text[1..];
      assert text[..i][..k][0] == text[0];
      assert t[..i - 1][..k - 1] == text[..i][..k][1..] && t[..i - 1][k - 1..] == text[..i][k..]
             && t[i - 1..] == text[i..];
      assert AllFit(c, t[..i - 1][..k - 1]);
      assert Takes(Star(c, q), t, i - 1);
    }
  }

  /** Somewhere in the text, or at its start if the pattern begins with ^, there is a string
      of the pattern's language. */
  ghost predicate Matches(re: string, text: string) {
    if re != "" && re[0] == '^' then Here(Parse(re[1..]), text)
    else exists j: nat :: j <= |text| && Here(Parse(re), text[j..])
  }

  /** matchhere: re at the beginning of text. */
  method Matchhere(re: string, text: string) returns (yes: bool)
    ensures yes == Here(Parse(re), text)
    decreases |re|, 1
  {
    hide Here;
    if re == "" {
      HereDone(text);
      return true;
    }
    if |re| >= 2 && re[1] == '*' {
      yes := Matchstar(re[0], re[2..], text);
      return;
    }
    if re[0] == '$' && |re| == 1 {
      HereEnd(text);
      return text == "";
    }
    HereOne(re[0], Parse(re[1..]), text);
    if text != "" && (re[0] == '.' || re[0] == text[0]) {
      yes := Matchhere(re[1..], text[1..]);
      return;
    }
    yes := false;
  }

  /** matchstar: c*re at the beginning of text. */
  method Matchstar(c: char, re: string, text0: string) returns (yes: bool)
    ensures yes == Here(Star(c, Parse(re)), text0)
    decreases |re| + 1
  {
    hide Here, Parse;
    var text := text0;
    while true
      invariant Here(Star(c, Parse(re)), text) == Here(Star(c, Parse(re)), text0)
      decreases |text|
    {
      HereStar(c, Parse(re), text);
      yes := Matchhere(re, text);
      if yes {
        return true;
      }
      if text == "" || !(text[0] == c || c == '.') {
        return false;
      }
      text := text[1..];
    }
    yes := false;
  }

  /** match: re anywhere in text. */
  method Match(re: string, text0: string) returns (yes: bool)
    ensures yes == Matches(re, text0)
  {
    hide Here, Parse;
    if re != "" && re[0] == '^' {
      yes := Matchhere(re[1..], text0);
      return;
    }
    var j := 0;
    while true
      invariant 0 <= j <= |text0| && forall k: nat :: k < j ==> !Here(Parse(re), text0[k..])
      decreases |text0| - j
    {
      yes := Matchhere(re, text0[j..]);
      if yes {
        return true;
      }
      if j == |text0| {
        return false;
      }
      j := j + 1;
    }
    yes := false;
  }
}

/** The line filter of user/grep.c:10-32. */
module Grep {
  import opened Regexp

  const BUF: nat := 1024
  const NL: char := '\n'
  const NUL: char := '\0'

  /** The first line's length: where the first newline is, or the end. */
  function Line(t: string): (k: nat)
    ensures k <= |t| && NL !in t[..k] && (k < |t| ==> t[k] == NL)
  {
    if t == "" || t[0] == NL then 0
    else
      var k := 1 + Line(t[1..]);
      assert t[..k] == [t[0]] + t[1..][..k - 1];
      k
  }

  lemma LineAt(t: string, k: nat)
    requires k <= |t| && NL !in t[..k] && (k < |t| ==> t[k] == NL)
    ensures Line(t) == k
  {
  }

  ghost function Shown(re: string, line: string): (s: string) {
    if Matches(re, line) then line + [NL] else ""
  }

  /** What grep is for: the matching lines, each with its newline, in order. What follows the
      last newline is no line. */
  ghost function Filtered(re: string, t: string): (s: string)
    decreases |t|
  {
    if Line(t) == |t| then ""
    else Shown(re, t[..Line(t)]) + Filtered(re, t[Line(t) + 1..])
  }

  /** What follows the last newline. */
  function Tail(t: string): (s: string)
    ensures |s| <= |t| && NL !in s
    decreases |t|
  {
    if Line(t) == |t| then assert t[..|t|] == t; t else Tail(t[Line(t) + 1..])
  }

  /** Every line with its newline fits into the buffer, beside the NUL. */
  predicate Short(t: string)
    decreases |t|
  {
    Line(t) == |t| || (Line(t) + 1 < BUF && Short(t[Line(t) + 1..]))
  }

  /** The text before the first line that does not fit. */
  function Before(t: string): (s: string)
    decreases |t|
  {
    if Line(t) == |t| || Line(t) + 1 >= BUF then "" else t[..Line(t) + 1] + Before(t[Line(t) + 1..])
  }

  /** A complete line in front of more text. */
  lemma LineFirst(l: string, t: string)
    requires NL !in l
    ensures var s := l + [NL] + t; Line(s) == |l| && s[..|l|] == l && s[|l| + 1..] == t && Line(s) < |s|
  {
    var s := l + [NL] + t;
    assert s[..|l|] == l && s[|l|] == NL && s[|l| + 1..] == t;
    LineAt(s, |l|);
  }

  lemma Unfold(re: string, l: string, t: string)
    requires NL !in l
    ensures Filtered(re, l + [NL] + t) == Shown(re, l) + Filtered(re, t)
    ensures Tail(l + [NL] + t) == Tail(t)
    ensures Short(l + [NL] + t) <==> |l| + 1 < BUF && Short(t)
    ensures Before(l + [NL] + t) == if |l| + 1 < BUF then l + [NL] + Before(t) else ""
  {
    hide Shown, Line;
    LineFirst(l, t);
    assert (l + [NL] + t)[..|l| + 1] == l + [NL];
  }

  lemma NoLine(re: string, t: string)
    requires NL !in t
    ensures Filtered(re, t) == "" && Tail(t) == t && Short(t) && Before(t) == ""
  {
    hide Shown;
    assert t[..|t|] == t;
    LineAt(t, |t|);
  }

  lemma Halves(a: string) returns (l: string, rest: string)
    requires Line(a) < |a|
    ensures NL !in l && a == l + [NL] + rest && |rest| < |a|
  {
    l, rest := a[..Line(a)], a[Line(a) + 1..];
  }

  /** Text in two pieces: the second is read behind the tail of the first. */
  lemma {:induction false} Pieces(re: string, a: string, b: string)
    ensures Filtered(re, a + b) == Filtered(re, a) + Filtered(re, Tail(a) + b)
    ensures Tail(a + b) == Tail(Tail(a) + b)
    ensures Short(a + b) <==> Short(a) && Short(Tail(a) + b)
    decreases |a|
  {
    hide Shown, Filtered, Tail, Short, Before;
    if Line(a) < |a| {
      var l, rest := Halves(a);
      assert a + b == l + [NL] + (rest + b);
      Unfold(re, l, rest);
      Unfold(re, l, rest + b);
      Pieces(re, rest, b);
    } else {
      assert a[..|a|] == a;
      NoLine(re, a);
    }
  }

  /** Text that ends with a newline, and a last line. */
  lemma OneMore(re: string, a: string, l: string)
    requires Tail(a) == "" && NL !in l
    ensures Filtered(re, a + l + [NL]) == Filtered(re, a) + Shown(re, l) && Tail(a + l + [NL]) == ""
    ensures Short(a + l + [NL]) <==> Short(a) && |l| + 1 < BUF
  {
    hide Shown, Filtered, Tail, Short, Before;
    Pieces(re, a, l + [NL]);
    assert a + l + [NL] == a + (l + [NL]) && "" + (l + [NL]) == l + [NL] + "";
    Unfold(re, l, "");
    NoLine(re, "");
  }

  /** Text that ends with a newline, and a piece without one. */
  lemma NoMore(re: string, a: string, l: string)
    requires Tail(a) == "" && NL !in l
    ensures Filtered(re, a + l) == Filtered(re, a) && Tail(a + l) == l && (Short(a + l) <==> Short(a))
  {
    hide Shown, Filtered, Tail, Short, Before;
    Pieces(re, a, l);
    assert "" + l == l;
    NoLine(re, l);
  }

  /** The first p characters of t are whole lines, all short, and have been filtered. */
  ghost predicate Scanned(re: string, t: string, p: nat, out: string) {
    p <= |t| && out == Filtered(re, t[..p]) && Tail(t[..p]) == "" && Short(t[..p])
  }

  lemma ScanNothing(re: string, t: string)
    ensures Scanned(re, t, 0, "")
  {
    assert t[..0] == "";
    NoLine(re, "");
  }

  lemma ScanLine(re: string, t: string, p: nat, out: string, q: nat, more: string)
    requires Scanned(re, t, p, out) && p <= q < |t| < BUF && NL !in t[p..q] && t[q] == NL
             && more == out + Shown(re, t[p..q])
    ensures Scanned(re, t, q + 1, more)
  {
    hide Shown, Filtered, Tail, Short;
    OneMore(re, t[..p], t[p..q]);
    assert t[..q + 1] == t[..p] + t[p..q] + [NL];
  }

  lemma ScanRest(re: string, t: string, p: nat, out: string)
    requires Scanned(re, t, p, out) && NL !in t[p..]
    ensures out == Filtered(re, t) && Tail(t) == t[p..] && Short(t)
  {
    hide Shown, Filtered, Tail, Short;
    NoMore(re, t[..p], t[p..]);
    assert t == t[..p] + t[p..];
  }

  /** strchr(p, '\n') in a buffer with its only NUL from p on at m: the place of the first
      newline, or m for none. */
  method Strchr(buf: array<char>, p: nat, m: nat) returns (q: nat)
    requires p <= m < buf.Length && NUL !in buf[p..m] && buf[m] == NUL
    ensures p <= q <= m && NL !in buf[p..q] && (q < m ==> buf[q] == NL)
  {
    q := p;
    while buf[q] != NUL && buf[q] != NL
      invariant p <= q <= m && NL !in buf[p..q]
      decreases m - q
    {
      assert buf[p..q + 1] == buf[p..q] + [buf[q]];
      q := q + 1;
    }
    assert q < m ==> buf[p..m][q - p] == buf[q];
  }

  /** The inner loop: the lines in the first m0 characters of the buffer are filtered. */
  method FilterLines(re: string, buf: array<char>, m0: nat) returns (p: nat, out: string)
    requires buf.Length == BUF && m0 < BUF && buf[m0] == NUL && NUL !in buf[..m0]
    modifies buf
    ensures p <= m0 && buf[p..m0] == Tail(old(buf[..m0])) == old(buf[p..m0])
    ensures out == Filtered(re, old(buf[..m0])) && Short(old(buf[..m0]))
  {
    hide Matches, Scanned, Filtered, Tail, Short;
    ghost var t := buf[..m0];
    p := 0;
    out := "";
    ScanNothing(re, t);
    while true
      invariant 0 <= p <= m0 && buf[p..m0] == t[p..] && buf[m0] == NUL && Scanned(re, t, p, out)
      decreases m0 - p
    {
      var q := Strchr(buf, p, m0);
      assert buf[p..q] == buf[p..m0][..q - p] == t[p..][..q - p] == t[p..q];
      if q == m0 {
        ScanRest(re, t, p, out);
        return;
      }
      assert t[q] == buf[p..m0][q - p] == NL;
      buf[q] := NUL;
      var line := buf[p..q];
      var yes := Match(re, line);
      ghost var before := out;
      if yes {
        buf[q] := NL;
        assert buf[p..q + 1] == line + [NL];
        out := out + buf[p..q + 1];
      }
      assert out == before + Shown(re, line);
      ScanLine(re, t, p, before, q, out);
      assert buf[q + 1..m0] == t[q + 1..];
      p := q + 1;
    }
  }

  // ---- reading --------------------------------------------------------------------------------------------

  /** What read returns of `want` characters when `left` are left and `room` fit: at least one
      if it can, as many as it likes. */
  function Given(want: nat, left: nat, room: nat): (n: nat)
    ensures n <= left && n <= room && (left > 0 && room > 0 ==> n > 0)
  {
    var most := if left < room then left else room;
    if want == 0 && most > 0 then 1 else if want < most then want else most
  }

  /** read's copying behind the first m characters, and the NUL after them. */
  method Append(buf: array<char>, m: nat, s: string)
    requires m + |s| < buf.Length
    modifies buf
    ensures buf[..m + |s|] == old(buf[..m]) + s && buf[m + |s|] == NUL
  {
    forall i | 0 <= i < |s| {
      buf[m + i] := s[i];
    }
    buf[m + |s|] := NUL;
  }

  /** memmove(buf, p, m). */
  method MoveDown(buf: array<char>, p: nat, m: nat)
    requires p + m < buf.Length
    modifies buf
    ensures buf[..m] == old(buf[p..p + m])
  {
    forall i | 0 <= i < m {
      buf[i] := buf[p + i];
    }
  }

  /** A round of grep's loop: `seen` has been read before, s has just been read. */
  method Round(re: string, buf: array<char>, m0: nat, s: string, ghost seen: string) returns (m: nat, out: string)
    requires buf.Length == BUF && m0 + |s| < BUF && buf[..m0] == Tail(seen) && Short(seen)
    requires NUL !in s && NUL !in buf[..m0]
    modifies buf
    ensures m < BUF && buf[..m] == Tail(seen + s) && Short(seen + s) && NUL !in buf[..m]
    ensures Filtered(re, seen + s) == Filtered(re, seen) + out
  {
    hide Matches, Filtered, Tail, Short, Before, Line;
    Pieces(re, seen, s);
    Append(buf, m0, s);
    m := m0 + |s|;
    var p;
    p, out := FilterLines(re, buf, m);
    m := m - p;
    MoveDown(buf, p, m);
  }

  /** grep: for any text without NULs, and however read hands it out, the output is the
      matching lines of the text up to the first line that is too long for the buffer. */
  method Grep(re: string, input: string, want: nat -> nat) returns (out: string)
    requires NUL !in input
    ensures out == Filtered(re, Before(input))
  {
    hide Matches, Filtered, Tail, Short, Before, Line;
    var buf := new char[BUF](_ => NUL);
    var pos, m, turn := 0, 0, 0;
    out := "";
    NoLine(re, "");
    assert input[..0] == "";
    while true
      invariant 0 <= pos <= |input| && 0 <= m < BUF && buf[..m] == Tail(input[..pos]) && NUL !in buf[..m]
      invariant out == Filtered(re, input[..pos]) && Short(input[..pos])
      decreases |input| - pos
    {
      var n := Given(want(turn), |input| - pos, BUF - m - 1);
      turn := turn + 1;
      if n == 0 {
        break;
      }
      assert input[..pos + n] == input[..pos] + input[pos..pos + n];
      var s;
      m, s := Round(re, buf, m, input[pos..pos + n], input[..pos]);
      out := out + s;
      pos := pos + n;
    }
    Stopped(re, input, pos);
  }

  /** When nothing more is read, what was read holds all the lines before the first long one. */
  lemma {:induction false} Stopped(re: string, input: string, pos: nat)
    requires pos <= |input| && Short(input[..pos]) && (pos == |input| || |Tail(input[..pos])| + 1 >= BUF)
    ensures Filtered(re, Before(input)) == Filtered(re, input[..pos])
    decreases pos
  {
    hide Shown, Filtered, Tail, Short, Before;
    var a := input[..pos];
    if Line(a) < |a| {
      var l, rest := Halves(a);
      var after := rest + input[pos..];
      assert input == a + input[pos..] == l + [NL] + after;
      assert after[..|rest|] == rest;
      Unfold(re, l, rest);
      Unfold(re, l, after);
      Stopped(re, after, |rest|);
      Unfold(re, l, Before(after));
    } else {
      assert a[..|a|] == a;
      NoLine(re, a);
      BeforeLong(re, input, pos);
    }
  }

  lemma BeforeLong(re: string, input: string, pos: nat)
    requires pos <= |input| && NL !in input[..pos] && (pos == |input| || pos + 1 >= BUF)
    ensures Before(input) == "" && Filtered(re, "") == ""
  {
    assert forall i :: 0 <= i < pos ==> input[i] == input[..pos][i];
  }

  /** grep's output is exactly the matching lines just if no line from the first long one on
      matches; in particular if all lines are short. */
  lemma {:induction false} WhenExact(re: string, t: string)
    ensures Before(t) <= t
    ensures Filtered(re, Before(t)) == Filtered(re, t) <==> Filtered(re, t[|Before(t)|..]) == ""
    ensures Short(t) ==> Filtered(re, t[|Before(t)|..]) == ""
    decreases |t|
  {
    SplitBefore(re, t);
    var a, b := Filtered(re, Before(t)), Filtered(re, t[|Before(t)|..]);
    assert b != "" ==> |a + b| > |a|;
    assert a + "" == a;
  }

  lemma {:induction false} SplitBefore(re: string, t: string)
    ensures Before(t) <= t && Filtered(re, t) == Filtered(re, Before(t)) + Filtered(re, t[|Before(t)|..])
    ensures Short(t) ==> Filtered(re, t[|Before(t)|..]) == ""
    decreases |t|
  {
    hide Shown, Filtered, Before, Tail, Short;
    if Line(t) < |t| {
      var l, rest := Halves(t);
      Unfold(re, l, rest);
      if |l| + 1 < BUF {
        SplitBefore(re, rest);
        Unfold(re, l, Before(rest));
        assert t[|Before(t)|..] == rest[|Before(rest)|..];
      } else {
        NoLine(re, "");
        assert t[0..] == t;
      }
    } else {
      assert t[..|t|] == t;
      NoLine(re, t);
      NoLine(re, "");
      assert t[0..] == t;
    }
  }

  /** So a matching line that is too long is lost. */
  lemma LongLineLost(re: string, l: string)
    requires NL !in l && |l| + 1 >= BUF && Matches(re, l)
    ensures Filtered(re, Before(l + [NL])) != Filtered(re, l + [NL])
  {
    hide Matches;
    assert l + [NL] + "" == l + [NL];
    Unfold(re, l, "");
    NoLine(re, "");
  }
}
