/** The shell's tokens (user/sh.c:234-278). */
module ShellLex {
  const NUL: char := '\0'

  predicate Space(c: char) {
    c == ' ' || c == '\t' || c == '\r' || c == '\n' || c == '\U{0B}'
  }

  predicate Symbol(c: char) {
    c == '<' || c == '|' || c == '>' || c == '&' || c == ';' || c == '(' || c == ')'
  }

  predicate WordChar(c: char) {
    !Space(c) && !Symbol(c) && c != NUL
  }

  /** A token: 'a' for a word, '+' for >>, else the symbol; and where in the line it is. */
  datatype Token = Token(kind: char, lo: nat, hi: nat)

  /** Past the whitespace from p on. */
  function Skip(s: string, p: nat): (q: nat)
    requires p <= |s|
    ensures p <= q <= |s| && (q < |s| ==> !Space(s[q]))
    decreases |s| - p
  {
    if p < |s| && Space(s[p]) then Skip(s, p + 1) else p
  }

  /** Past the word characters from p on. */
  function WordEnd(s: string, p: nat): (q: nat)
    requires p <= |s|
    ensures p <= q <= |s| && (q < |s| ==> Space(s[q]) || Symbol(s[q]))
    ensures p < |s| && !Space(s[p]) && !Symbol(s[p]) ==> p < q
    decreases |s| - p
  {
    if p < |s| && !Space(s[p]) && !Symbol(s[p]) then WordEnd(s, p + 1) else p
  }

  /** The token at q, which is not whitespace. */
  function TokenAt(s: string, q: nat): (t: Token)
    requires q < |s| && !Space(s[q])
    ensures t.lo == q < t.hi <= |s|
  {
    if s[q] == '>' then (if q + 1 < |s| && s[q + 1] == '>' then Token('+', q, q + 2) else Token('>', q, q + 1))
    else if Symbol(s[q]) then Token(s[q], q, q + 1)
    else Token('a', q, WordEnd(s, q))
  }

  /** The tokens from p on. */
  function Lex(s: string, p: nat): (ts: seq<Token>)
    requires p <= |s|
    decreases |s| - p
  {
    var q := Skip(s, p);
    if q == |s| then [] else [TokenAt(s, q)] + Lex(s, TokenAt(s, q).hi)
  }

  /** A word token is a maximal run of word characters. */
  predicate IsWord(s: string, lo: nat, hi: nat) {
    && lo < hi <= |s| && (forall i :: lo <= i < hi ==> WordChar(s[i]))
    && (hi < |s| ==> !WordChar(s[hi]))
  }

  lemma {:induction false} WordChars(s: string, p: nat, i: nat)
    requires NUL !in s && p <= |s| && p <= i < WordEnd(s, p)
    ensures i < |s| && WordChar(s[i])
    decreases i - p
  {
    if p < i {
      WordChars(s, p + 1, i);
    }
  }

  lemma {:induction false} LexWords(s: string, p: nat, k: nat)
    requires NUL !in s && p <= |s| && k < |Lex(s, p)| && Lex(s, p)[k].kind == 'a'
    ensures IsWord(s, Lex(s, p)[k].lo, Lex(s, p)[k].hi)
    decreases k
  {
    var q := Skip(s, p);
    if k == 0 {
      forall i | q <= i < WordEnd(s, q) ensures WordChar(s[i]) {
        WordChars(s, q, i);
      }
    } else {
      LexWords(s, TokenAt(s, q).hi, k - 1);
    }
  }

  lemma {:induction false} SkipTwice(s: string, p: nat, q: nat)
    requires p <= |s| && p <= q <= Skip(s, p)
    ensures q <= |s| && Skip(s, q) == Skip(s, p)
    decreases q - p
  {
    if p < q {
      SkipTwice(s, p + 1, q);
    }
  }

  /** Whitespace before the first token makes no difference. */
  lemma LexSkip(s: string, p: nat, q: nat)
    requires p <= |s| && p <= q <= Skip(s, p)
    ensures q <= |s| && Lex(s, q) == Lex(s, p)
  {
    SkipTwice(s, p, q);
  }
}

/** The shell's grammar (user/sh.c:280-392), on tokens. */
module ShellParse {
  import opened ShellLex

  const MAXARGS: nat := 10

  /** A string of the line, from lo to hi. */
  datatype Span = Span(lo: nat, hi: nat)

  datatype Mode = In | Out | Append

  /** A command tree, over spans of the line or over strings. */
  datatype Cmd<T> =
    | Exec(argv: seq<T>)
    | Redir(cmd: Cmd<T>, file: T, mode: Mode)
    | Pipe(left: Cmd<T>, right: Cmd<T>)
    | Both(left: Cmd<T>, right: Cmd<T>)
    | Back(cmd: Cmd<T>)

  datatype Redirs = Redirs(files: seq<(Span, Mode)>, rest: seq<Token>) | BadRedir

  datatype Parsed = Parsed(cmd: Cmd<Span>, rest: seq<Token>) | Panic

  predicate At(ts: seq<Token>, kinds: string) {
    ts != [] && ts[0].kind in kinds
  }

  function SpanOf(t: Token): (s: Span) {
    Span(t.lo, t.hi)
  }

  function ModeOf(k: char): (m: Mode) {
    if k == '<' then In else if k == '>' then Out else Append
  }

  /** parseredirs: the redirections that the tokens begin with. */
  function TakeRedirs(files: seq<(Span, Mode)>, ts: seq<Token>): (r: Redirs)
    ensures r.Redirs? ==> |r.rest| <= |ts|
    decreases |ts|
  {
    if !At(ts, "<>+") then Redirs(files, ts)
    else if |ts| < 2 || ts[1].kind != 'a' then BadRedir
    else TakeRedirs(files + [(SpanOf(ts[1]), ModeOf(ts[0].kind))], ts[2..])
  }

  /** A command with redirections around it, the first of them innermost. */
  function Wrap(c: Cmd<Span>, files: seq<(Span, Mode)>): (r: Cmd<Span>)
    decreases |files|
  {
    if files == [] then c else Redir(Wrap(c, files[..|files| - 1]), files[|files| - 1].0, files[|files| - 1].1)
  }

  function Wrapped(c: Cmd<Span>, r: Redirs): (p: Parsed) {
    if r.BadRedir? then Panic else Parsed(Wrap(c, r.files), r.rest)
  }

  /** The loop of parseexec. */
  function TakeArgs(argv: seq<Span>, files: seq<(Span, Mode)>, ts: seq<Token>): (r: Parsed)
    ensures r.Parsed? ==> |r.rest| <= |ts|
    decreases |ts|
  {
    if ts == [] || At(ts, "|)&;") then Parsed(Wrap(Exec(argv), files), ts)
    else if ts[0].kind != 'a' || |argv| + 1 >= MAXARGS then Panic
    else
      match TakeRedirs(files, ts[1..])
      case BadRedir => Panic
      case Redirs(fs, rest) => TakeArgs(argv + [SpanOf(ts[0])], fs, rest)
  }

  function ParseExec(ts: seq<Token>): (r: Parsed)
    ensures r.Parsed? ==> |r.rest| <= |ts|
    decreases |ts|, 1
  {
    if At(ts, "(") then ParseBlock(ts)
    else
      match TakeRedirs([], ts)
      case BadRedir => Panic
      case Redirs(fs, rest) => TakeArgs([], fs, rest)
  }

  function ParseBlock(ts: seq<Token>): (r: Parsed)
    requires At(ts, "(")
    ensures r.Parsed? ==> |r.rest| <= |ts|
    decreases |ts|, 0
  {
    match ParseLine(ts[1..])
    case Panic => Panic
    case Parsed(c, rest) =>
      if !At(rest, ")") then Panic else Wrapped(c, TakeRedirs([], rest[1..]))
  }

  function ParsePipe(ts: seq<Token>): (r: Parsed)
    ensures r.Parsed? ==> |r.rest| <= |ts|
    decreases |ts|, 2
  {
    match ParseExec(ts)
    case Panic => Panic
    case Parsed(c, rest) =>
      if !At(rest, "|") then Parsed(c, rest)
      else
        match ParsePipe(rest[1..])
        case Panic => Panic
        case Parsed(d, more) => Parsed(Pipe(c, d), more)
  }

  /** The & signs that the tokens begin with. */
  function TakeBacks(c: Cmd<Span>, ts: seq<Token>): (r: Parsed)
    ensures r.Parsed? && |r.rest| <= |ts|
    decreases |ts|
  {
    if At(ts, "&") then TakeBacks(Back(c), ts[1..]) else Parsed(c, ts)
  }

  function ParseLine(ts: seq<Token>): (r: Parsed)
    ensures r.Parsed? ==> |r.rest| <= |ts|
    decreases |ts|, 3
  {
    match ParsePipe(ts)
    case Panic => Panic
    case Parsed(c, rest) =>
      var b := TakeBacks(c, rest);
      if !At(b.rest, ";") then b
      else
        match ParseLine(b.rest[1..])
        case Panic => Panic
        case Parsed(d, more) => Parsed(Both(b.cmd, d), more)
  }

  /** parsecmd, without nulterminate. */
  function ParseCmd(s: string): (r: Parsed) {
    match ParseLine(Lex(s, 0))
    case Panic => Panic
    case Parsed(c, rest) => if rest == [] then Parsed(c, rest) else Panic
  }
}

/** A fully parenthesised printing of command trees, and that parsing undoes it. */
module ShellPrint {
  import opened ShellLex
  import opened ShellParse

  datatype Lexeme = Sym(kind: char) | Word(text: string)

  function Spelling(l: Lexeme): (s: string) {
    if l.Word? then l.text else if l.kind == '+' then ">>" else [l.kind]
  }

  /** Each lexeme with a blank after it. */
  function Spell(ls: seq<Lexeme>): (s: string) {
    if ls == [] then "" else Spelling(ls[0]) + " " + Spell(ls[1..])
  }

  predicate GoodWord(w: string) {
    w != "" && forall i :: 0 <= i < |w| ==> WordChar(w[i])
  }

  predicate GoodLexeme(l: Lexeme) {
    if l.Word? then GoodWord(l.text) else l.kind == '+' || Symbol(l.kind)
  }

  function ModeChar(m: Mode): (k: char) {
    match m case In => '<' case Out => '>' case Append => '+'
  }

  function Words(argv: seq<string>): (ls: seq<Lexeme>)
    ensures |ls| == |argv| && forall i :: 0 <= i < |argv| ==> ls[i] == Word(argv[i])
  {
    seq(|argv|, i requires 0 <= i < |argv| => Word(argv[i]))
  }

  function Print(t: Cmd<string>): (ls: seq<Lexeme>)
    decreases t, 1
  {
    [Sym('(')] + Inner(t) + [Sym(')')]
  }

  function Inner(t: Cmd<string>): (ls: seq<Lexeme>)
    decreases t, 0
  {
    match t
    case Exec(argv) => Words(argv)
    case Redir(c, f, m) => Print(c) + [Sym(ModeChar(m)), Word(f)]
    case Pipe(l, r) => Print(l) + [Sym('|')] + Print(r)
    case Both(l, r) => Print(l) + [Sym(';')] + Print(r)
    case Back(c) => Print(c) + [Sym('&')]
  }

  /** Fewer than MAXARGS arguments, and words that are words. */
  predicate Good(t: Cmd<string>) {
    match t
    case Exec(argv) => |argv| < MAXARGS && forall i :: 0 <= i < |argv| ==> GoodWord(argv[i])
    case Redir(c, f, m) => Good(c) && GoodWord(f)
    case Pipe(l, r) => Good(l) && Good(r)
    case Both(l, r) => Good(l) && Good(r)
    case Back(c) => Good(c)
  }

  function Slice(s: string, x: Span): (w: string) {
    if x.lo <= x.hi <= |s| then s[x.lo..x.hi] else ""
  }

  function Slices(s: string, xs: seq<Span>): (ws: seq<string>)
    ensures |ws| == |xs| && forall i :: 0 <= i < |xs| ==> ws[i] == Slice(s, xs[i])
  {
    seq(|xs|, i requires 0 <= i < |xs| => Slice(s, xs[i]))
  }

  /** The tree with the strings that its spans are. */
  function Text(s: string, c: Cmd<Span>): (t: Cmd<string>) {
    match c
    case Exec(argv) => Exec(Slices(s, argv))
    case Redir(d, f, m) => Redir(Text(s, d), Slice(s, f), m)
    case Pipe(l, r) => Pipe(Text(s, l), Text(s, r))
    case Both(l, r) => Both(Text(s, l), Text(s, r))
    case Back(d) => Back(Text(s, d))
  }

  predicate ReadsAt(s: string, t: Token, l: Lexeme) {
    if l.Word? then t.kind == 'a' && Slice(s, SpanOf(t)) == l.text else t.kind == l.kind
  }

  /** The tokens are these lexemes. */
  ghost predicate Reads(s: string, ts: seq<Token>, ls: seq<Lexeme>) {
    |ts| == |ls| && forall i :: 0 <= i < |ls| ==> ReadsAt(s, ts[i], ls[i])
  }

  // ---- lexing ----------------------------------------------------------------------------------------------

  lemma {:induction false} WordEndAt(s: string, p: nat, q: nat)
    requires p <= q < |s| && Space(s[q]) && forall i :: p <= i < q ==> WordChar(s[i])
    ensures WordEnd(s, p) == q
    decreases q - p
  {
    if p < q {
      WordEndAt(s, p + 1, q);
    }
  }

  /** The token that one lexeme with a blank after it is. */
  lemma LexOne(s: string, p: nat, l: Lexeme)
    requires GoodLexeme(l) && p + |Spelling(l)| < |s| && s[p..p + |Spelling(l)|] == Spelling(l)
             && s[p + |Spelling(l)|] == ' '
    ensures p < |s| && !Space(s[p]) && Skip(s, p) == p
    ensures TokenAt(s, p).hi == p + |Spelling(l)| && ReadsAt(s, TokenAt(s, p), l)
  {
    var w := Spelling(l);
    forall i | 0 <= i < |w| ensures s[p + i] == w[i] {
      assert s[p..p + |w|][i] == w[i];
    }
    assert s[p + 0] == w[0];
    if l.Word? {
      forall i | p <= i < p + |w| ensures WordChar(s[i]) {
        assert s[p + (i - p)] == w[i - p];
      }
      WordEndAt(s, p, p + |w|);
    } else if l.kind == '+' {
      assert s[p + 1] == w[1];
    }
  }

  /** Lexing undoes spelling. */
  lemma {:induction false} LexSpell(s: string, p: nat, ls: seq<Lexeme>)
    requires p <= |s| && s[p..] == Spell(ls) && forall i :: 0 <= i < |ls| ==> GoodLexeme(ls[i])
    ensures Reads(s, Lex(s, p), ls)
    decreases |ls|
  {
    hide Lex, Skip, TokenAt, GoodLexeme;
    if ls == [] {
      assert p == |s|;
      LexNothing(s);
    } else {
      var w := Spelling(ls[0]);
      var q := p + |w| + 1;
      SpellFirst(s, p, ls);
      LexOne(s, p, ls[0]);
      LexSpell(s, q, ls[1..]);
      SkipBlank(s, p + |w|);
      LexSkip(s, p + |w|, q);
      LexCons(s, p);
      ReadsPush(s, TokenAt(s, p), Lex(s, q), ls);
    }
  }

  lemma LexNothing(s: string)
    ensures Lex(s, |s|) == []
  {
  }

  lemma SpellFirst(s: string, p: nat, ls: seq<Lexeme>)
    requires p <= |s| && s[p..] == Spell(ls) && ls != []
    ensures var w := Spelling(ls[0]);
            p + |w| < |s| && s[p..p + |w|] == w && s[p + |w|] == ' ' && s[p + |w| + 1..] == Spell(ls[1..])
  {
    hide Spelling;
    var w, rest := Spelling(ls[0]), Spell(ls[1..]);
    assert s[p..] == w + " " + rest;
    assert |s[p..]| == |w| + 1 + |rest|;
    assert s[p..p + |w|] == s[p..][..|w|] == w;
    assert s[p + |w|] == s[p..][|w|] == ' ';
    assert s[p + |w| + 1..] == s[p..][|w| + 1..] == rest;
  }

  lemma ReadsPush(s: string, t: Token, ts: seq<Token>, ls: seq<Lexeme>)
    requires ls != [] && ReadsAt(s, t, ls[0]) && Reads(s, ts, ls[1..])
    ensures Reads(s, [t] + ts, ls)
  {
    hide ReadsAt;
    forall i | 0 <= i < |ls| ensures ReadsAt(s, ([t] + ts)[i], ls[i]) {
      if i > 0 {
        assert ReadsAt(s, ts[i - 1], ls[1..][i - 1]);
      }
    }
  }

  lemma SkipBlank(s: string, p: nat)
    requires p < |s| && Space(s[p])
    ensures p + 1 <= Skip(s, p)
  {
  }

  lemma LexCons(s: string, p: nat)
    requires p < |s| && Skip(s, p) == p && !Space(s[p])
    ensures Lex(s, p) == [TokenAt(s, p)] + Lex(s, TokenAt(s, p).hi)
  {
  }

  // ---- parsing ----------------------------------------------------------------------------------------------

  lemma ReadsDrop(s: string, ts: seq<Token>, a: seq<Lexeme>, b: seq<Lexeme>)
    requires Reads(s, ts, a + b)
    ensures |a| <= |ts| && Reads(s, ts[|a|..], b)
  {
    forall i | 0 <= i < |b| ensures ReadsAt(s, ts[|a|..][i], b[i]) {
      assert ReadsAt(s, ts[|a| + i], (a + b)[|a| + i]);
    }
  }

  lemma ReadsFirst(s: string, ts: seq<Token>, ls: seq<Lexeme>)
    requires Reads(s, ts, ls) && ls != []
    ensures ts != [] && ReadsAt(s, ts[0], ls[0]) && Reads(s, ts[1..], ls[1..])
  {
    assert ls == ls[..1] + ls[1..];
    ReadsDrop(s, ts, ls[..1], ls[1..]);
  }

  lemma ArgStep(argv: seq<Span>, ts: seq<Token>)
    requires |ts| >= 2 && ts[0].kind == 'a' && (ts[1].kind == 'a' || ts[1].kind == ')') && |argv| + 1 < MAXARGS
    ensures TakeArgs(argv, [], ts) == TakeArgs(argv + [SpanOf(ts[0])], [], ts[1..])
  {
    assert TakeRedirs([], ts[1..]) == Redirs([], ts[1..]);
  }

  lemma ArgStop(argv: seq<Span>, ts: seq<Token>)
    requires ts != [] && ts[0].kind == ')'
    ensures TakeArgs(argv, [], ts) == Parsed(Exec(argv), ts)
  {
    assert Wrap(Exec(argv), []) == Exec(argv);
  }

  /** The arguments of a command, up to the closing parenthesis. */
  lemma {:induction false} ArgsBack(s: string, argv: seq<Span>, ws: seq<string>, ts: seq<Token>, ls: seq<Lexeme>)
    returns (all: seq<Span>)
    requires Reads(s, ts, Words(ws) + [Sym(')')] + ls) && |argv| + |ws| < MAXARGS
    ensures |ws| <= |ts| && TakeArgs(argv, [], ts) == Parsed(Exec(all), ts[|ws|..])
            && Slices(s, all) == Slices(s, argv) + ws
    decreases |ws|
  {
    hide TakeArgs, Reads;
    var line := Words(ws) + [Sym(')')] + ls;
    ReadsFirst(s, ts, line);
    if ws == [] {
      all := argv;
      ArgStop(argv, ts);
    } else {
      assert line[1..] == Words(ws[1..]) + [Sym(')')] + ls;
      ReadsFirst(s, ts[1..], line[1..]);
      ArgStep(argv, ts);
      all := ArgsBack(s, argv + [SpanOf(ts[0])], ws[1..], ts[1..], ls);
      assert Slices(s, argv + [SpanOf(ts[0])]) == Slices(s, argv) + [ws[0]];
      assert ts[1..][|ws[1..]|..] == ts[|ws|..];
    }
  }

  predicate RedirNext(ls: seq<Lexeme>) {
    ls != [] && ls[0].Sym? && (ls[0].kind == '<' || ls[0].kind == '>' || ls[0].kind == '+')
  }

  lemma NoRedirs(s: string, ts: seq<Token>, ls: seq<Lexeme>)
    requires Reads(s, ts, ls) && !RedirNext(ls)
    ensures TakeRedirs([], ts) == Redirs([], ts)
  {
    if ls != [] {
      ReadsFirst(s, ts, ls);
    }
  }

  /** A block, when the line inside it parses. */
  lemma Block(s: string, t: Cmd<string>, c: Cmd<Span>, ts: seq<Token>, ls: seq<Lexeme>)
    requires Reads(s, ts, Print(t) + ls) && ts != []
    requires ParseLine(ts[1..]) == Parsed(c, ts[1..][|Inner(t)|..])
    ensures |Print(t)| <= |ts| && Reads(s, ts[|Print(t)|..], ls)
    ensures ParseExec(ts) == Wrapped(c, TakeRedirs([], ts[|Print(t)|..]))
  {
    hide Print, Inner, TakeRedirs, ParseLine;
    var line := Print(t) + ls;
    PrintIs(t);
    ReadsFirst(s, ts, line);
    var n := |Inner(t)|;
    assert line == ([Sym('(')] + Inner(t)) + ([Sym(')')] + ls);
    ReadsDrop(s, ts, [Sym('(')] + Inner(t), [Sym(')')] + ls);
    var rest := ts[n + 1..];
    assert rest == ts[1..][n..];
    ReadsFirst(s, rest, [Sym(')')] + ls);
    assert ([Sym(')')] + ls)[1..] == ls && rest[1..] == ts[|Print(t)|..];
  }

  lemma PrintIs(t: Cmd<string>)
    ensures Print(t) == [Sym('(')] + Inner(t) + [Sym(')')] && |Print(t)| == |Inner(t)| + 2
  {
  }

  /** The tokens inside a printed block, for the parser of lines. */
  lemma InsideReads(s: string, t: Cmd<string>, ts: seq<Token>, ls: seq<Lexeme>)
    requires Reads(s, ts, Print(t) + ls)
    ensures ts != [] && Reads(s, ts[1..], Inner(t) + [Sym(')')] + ls)
  {
    hide Print, Inner;
    PrintIs(t);
    var line := Print(t) + ls;
    ReadsFirst(s, ts, line);
    assert line[1..] == Inner(t) + [Sym(')')] + ls;
  }

  /** A printed block that no redirection follows. */
  lemma {:induction false} BlockBack(s: string, t: Cmd<string>, ts: seq<Token>, ls: seq<Lexeme>) returns (c: Cmd<Span>)
    requires Good(t) && Reads(s, ts, Print(t) + ls) && !RedirNext(ls)
    ensures |Print(t)| <= |ts| && Reads(s, ts[|Print(t)|..], ls)
    ensures ParseExec(ts) == Parsed(c, ts[|Print(t)|..]) && Text(s, c) == t
    decreases t, 2
  {
    hide Print, Inner, TakeRedirs, ParseLine, ParseExec;
    InsideReads(s, t, ts, ls);
    c := InnerBack(s, t, ts[1..], ls);
    Block(s, t, c, ts, ls);
    NoRedirs(s, ts[|Print(t)|..], ls);
    assert Wrap(c, []) == c;
  }

  /** What is inside a printed block, up to the closing parenthesis. */
  lemma {:induction false} InnerBack(s: string, t: Cmd<string>, ts: seq<Token>, ls: seq<Lexeme>) returns (c: Cmd<Span>)
    requires Good(t) && Reads(s, ts, Inner(t) + [Sym(')')] + ls)
    ensures |Inner(t)| <= |ts| && ParseLine(ts) == Parsed(c, ts[|Inner(t)|..]) && Text(s, c) == t
    decreases t, 1
  {
    hide ParseLine, ParseExec, Reads, Print;
    match t
    case Exec(ws) => c := ExecBack(s, ws, ts, ls);
    case Redir(u, f, m) =>
      var tail := [Sym(ModeChar(m)), Word(f), Sym(')')] + ls;
      assert Inner(t) + [Sym(')')] + ls == Print(u) + tail;
      InsideReads(s, u, ts, tail);
      var d := InnerBack(s, u, ts[1..], tail);
      c := RedirBack(s, u, d, f, m, ts, ls);
    case Pipe(l, r) =>
      assert Inner(t) + [Sym(')')] + ls == Print(l) + ([Sym('|')] + Print(r) + [Sym(')')] + ls);
      var d, e, mid, rest := TwoBlocks(s, t, l, r, '|', ts, ls);
      c := PipeBack(s, d, e, ts, mid, mid[1..], rest, ls);
    case Both(l, r) =>
      assert Inner(t) + [Sym(')')] + ls == Print(l) + ([Sym(';')] + Print(r) + [Sym(')')] + ls);
      var d, e, mid, rest := TwoBlocks(s, t, l, r, ';', ts, ls);
      c := BothBack(s, d, e, ts, mid, mid[1..], rest, ls);
    case Back(u) =>
      assert Inner(t) + [Sym(')')] + ls == Print(u) + ([Sym('&')] + [] + [Sym(')')] + ls);
      c := BackgroundBack(s, t, u, ts, ls);
  }

  lemma {:induction false} BackgroundBack(s: string, t: Cmd<string>, u: Cmd<string>, ts: seq<Token>, ls: seq<Lexeme>)
    returns (c: Cmd<Span>)
    requires t == Back(u) && Good(u) && Reads(s, ts, Print(u) + ([Sym('&')] + [] + [Sym(')')] + ls))
    ensures |Inner(t)| <= |ts| && ParseLine(ts) == Parsed(c, ts[|Inner(t)|..]) && Text(s, c) == t
    decreases t, 0
  {
    hide ParseLine, ParseExec, Reads, Print;
    var d := BlockBack(s, u, ts, [Sym('&')] + [] + [Sym(')')] + ls);
    var more := AfterFirst(s, '&', [], ls, ts[|Print(u)|..]);
    c := BackBack(s, d, ts, ts[|Print(u)|..], more, ls);
  }

  /** Two printed blocks with a symbol between them. */
  lemma {:induction false} TwoBlocks(s: string, t: Cmd<string>, l: Cmd<string>, r: Cmd<string>, k: char, ts: seq<Token>,
                                     ls: seq<Lexeme>)
    returns (d: Cmd<Span>, e: Cmd<Span>, mid: seq<Token>, rest: seq<Token>)
    requires l < t && r < t && Good(l) && Good(r) && (k == '|' || k == ';')
    requires Reads(s, ts, Print(l) + ([Sym(k)] + Print(r) + [Sym(')')] + ls))
    ensures ParseExec(ts) == Parsed(d, mid) && Text(s, d) == l && mid != [] && mid[0].kind == k
    ensures ParseExec(mid[1..]) == Parsed(e, rest) && Text(s, e) == r && Reads(s, rest, [Sym(')')] + ls)
    ensures |Print(l)| + 1 + |Print(r)| <= |ts| && rest == ts[|Print(l)| + 1 + |Print(r)|..]
    decreases t, 0
  {
    hide ParseLine, ParseExec, Reads, Print, Inner;
    d := BlockBack(s, l, ts, [Sym(k)] + Print(r) + [Sym(')')] + ls);
    mid := ts[|Print(l)|..];
    var more := AfterFirst(s, k, Print(r), ls, mid);
    e := BlockBack(s, r, more, [Sym(')')] + ls);
    rest := more[|Print(r)|..];
  }

  lemma ExecBack(s: string, ws: seq<string>, ts: seq<Token>, ls: seq<Lexeme>) returns (c: Cmd<Span>)
    requires Reads(s, ts, Words(ws) + [Sym(')')] + ls) && |ws| < MAXARGS
    ensures |ws| <= |ts| && ParseLine(ts) == Parsed(c, ts[|ws|..]) && Text(s, c) == Exec(ws)
  {
    hide TakeArgs;
    var line := Words(ws) + [Sym(')')] + ls;
    ReadsFirst(s, ts, line);
    NoRedirs(s, ts, line);
    var all := ArgsBack(s, [], ws, ts, ls);
    c := Exec(all);
    assert line == Words(ws) + ([Sym(')')] + ls);
    ReadsDrop(s, ts, Words(ws), [Sym(')')] + ls);
    Closes(s, ts, c, ts[|ws|..], ls);
    assert Slices(s, []) + ws == ws;
  }

  /** A pipeline that the closing parenthesis follows is a line. */
  lemma Closes(s: string, ts: seq<Token>, c: Cmd<Span>, rest: seq<Token>, ls: seq<Lexeme>)
    requires ParseExec(ts) == Parsed(c, rest) && Reads(s, rest, [Sym(')')] + ls)
    ensures ParsePipe(ts) == Parsed(c, rest) && ParseLine(ts) == Parsed(c, rest)
  {
    hide ParseExec;
    ReadsFirst(s, rest, [Sym(')')] + ls);
  }

  lemma RedirBack(s: string, u: Cmd<string>, d: Cmd<Span>, f: string, m: Mode, ts: seq<Token>, ls: seq<Lexeme>)
    returns (c: Cmd<Span>)
    requires Reads(s, ts, Print(u) + ([Sym(ModeChar(m)), Word(f), Sym(')')] + ls)) && ts != []
    requires ParseLine(ts[1..]) == Parsed(d, ts[1..][|Inner(u)|..]) && Text(s, d) == u
    ensures |Print(u)| + 2 <= |ts| && ParseLine(ts) == Parsed(c, ts[|Print(u)| + 2..]) && Text(s, c) == Redir(u, f, m)
  {
    hide Print, Inner, ParseLine, ParseExec, TakeRedirs;
    var tail := [Sym(ModeChar(m)), Word(f), Sym(')')] + ls;
    Block(s, u, d, ts, tail);
    var rest := ts[|Print(u)|..];
    OneRedir(s, rest, f, m, ls);
    var file := SpanOf(rest[1]);
    c := Redir(d, file, m);
    assert Wrap(d, [(file, m)]) == c by {
      WrapOne(d, file, m);
    }
    assert rest[2..] == ts[|Print(u)| + 2..];
    Closes(s, ts, c, rest[2..], ls);
  }

  lemma WrapOne(d: Cmd<Span>, file: Span, m: Mode)
    ensures Wrap(d, [(file, m)]) == Redir(d, file, m)
  {
    assert [(file, m)][..0] == [];
    assert Wrap(d, []) == d;
  }

  lemma ReadsCons(s: string, ts: seq<Token>, x: Lexeme, ls: seq<Lexeme>)
    requires Reads(s, ts, [x] + ls)
    ensures ts != [] && ReadsAt(s, ts[0], x) && Reads(s, ts[1..], ls)
  {
    ReadsFirst(s, ts, [x] + ls);
    assert ([x] + ls)[1..] == ls;
  }

  lemma OneRedirReads(s: string, ts: seq<Token>, x: Lexeme, f: string, ls: seq<Lexeme>)
    requires x.Sym? && Reads(s, ts, [x, Word(f), Sym(')')] + ls)
    ensures |ts| >= 3 && ts[0].kind == x.kind && ts[1].kind == 'a' && ts[2].kind == ')'
    ensures Slice(s, SpanOf(ts[1])) == f && Reads(s, ts[2..], [Sym(')')] + ls)
  {
    hide Reads, Slice;
    var tail := [Sym(')')] + ls;
    assert [x, Word(f), Sym(')')] + ls == [x] + ([Word(f)] + tail);
    ReadsCons(s, ts, x, [Word(f)] + tail);
    ReadsCons(s, ts[1..], Word(f), tail);
    assert ts[1..][1..] == ts[2..];
    ReadsCons(s, ts[2..], Sym(')'), ls);
  }

  lemma OneRedir(s: string, ts: seq<Token>, f: string, m: Mode, ls: seq<Lexeme>)
    requires Reads(s, ts, [Sym(ModeChar(m)), Word(f), Sym(')')] + ls)
    ensures |ts| >= 3 && Reads(s, ts[2..], [Sym(')')] + ls)
    ensures TakeRedirs([], ts) == Redirs([(SpanOf(ts[1]), m)], ts[2..]) && Slice(s, SpanOf(ts[1])) == f
  {
    hide TakeRedirs, Reads, Slice, ModeChar;
    OneRedirReads(s, ts, Sym(ModeChar(m)), f, ls);
    RedirStep([], ts, m);
    RedirStop([(SpanOf(ts[1]), m)], ts[2..]);
  }

  lemma RedirStep(files: seq<(Span, Mode)>, ts: seq<Token>, m: Mode)
    requires |ts| >= 2 && ts[0].kind == ModeChar(m) && ts[1].kind == 'a'
    ensures TakeRedirs(files, ts) == TakeRedirs(files + [(SpanOf(ts[1]), m)], ts[2..])
    ensures files == [] ==> files + [(SpanOf(ts[1]), m)] == [(SpanOf(ts[1]), m)]
  {
    assert ModeOf(ModeChar(m)) == m;
    assert "<>+"[0] == '<' && "<>+"[1] == '>' && "<>+"[2] == '+';
    assert At(ts, "<>+");
  }

  lemma RedirStop(files: seq<(Span, Mode)>, ts: seq<Token>)
    requires ts != [] && ts[0].kind == ')'
    ensures TakeRedirs(files, ts) == Redirs(files, ts)
  {
  }

  lemma AfterFirst(s: string, k: char, p: seq<Lexeme>, ls: seq<Lexeme>, ts: seq<Token>) returns (more: seq<Token>)
    requires Reads(s, ts, [Sym(k)] + p + [Sym(')')] + ls)
    ensures ts != [] && ts[0].kind == k && more == ts[1..] && Reads(s, more, p + ([Sym(')')] + ls))
  {
    var line := [Sym(k)] + p + [Sym(')')] + ls;
    ReadsFirst(s, ts, line);
    more := ts[1..];
    assert line[1..] == p + ([Sym(')')] + ls);
  }

  lemma PipeBack(s: string, d: Cmd<Span>, e: Cmd<Span>, ts: seq<Token>, mid: seq<Token>, more: seq<Token>,
                 rest: seq<Token>,
                 ls: seq<Lexeme>) returns (c: Cmd<Span>)
    requires ParseExec(ts) == Parsed(d, mid) && mid != [] && mid[0].kind == '|' && more == mid[1..]
    requires ParseExec(more) == Parsed(e, rest) && Reads(s, rest, [Sym(')')] + ls)
    ensures ParseLine(ts) == Parsed(c, rest) && c == Pipe(d, e)
  {
    hide ParseExec;
    Closes(s, more, e, rest, ls);
    ReadsFirst(s, rest, [Sym(')')] + ls);
    c := Pipe(d, e);
  }

  lemma BothBack(s: string, d: Cmd<Span>, e: Cmd<Span>, ts: seq<Token>, mid: seq<Token>, more: seq<Token>,
                 rest: seq<Token>,
                 ls: seq<Lexeme>) returns (c: Cmd<Span>)
    requires ParseExec(ts) == Parsed(d, mid) && mid != [] && mid[0].kind == ';' && more == mid[1..]
    requires ParseExec(more) == Parsed(e, rest) && Reads(s, rest, [Sym(')')] + ls)
    ensures ParseLine(ts) == Parsed(c, rest) && c == Both(d, e)
  {
    hide ParseExec;
    Closes(s, more, e, rest, ls);
    c := Both(d, e);
  }

  lemma BackBack(s: string, d: Cmd<Span>, ts: seq<Token>, mid: seq<Token>, more: seq<Token>, ls: seq<Lexeme>)
    returns (c: Cmd<Span>)
    requires ParseExec(ts) == Parsed(d, mid) && mid != [] && mid[0].kind == '&' && more == mid[1..]
    requires Reads(s, more, [] + ([Sym(')')] + ls))
    ensures ParseLine(ts) == Parsed(c, more) && c == Back(d)
  {
    hide ParseExec;
    assert [] + ([Sym(')')] + ls) == [Sym(')')] + ls;
    ReadsFirst(s, more, [Sym(')')] + ls);
    assert TakeBacks(d, mid) == TakeBacks(Back(d), more) == Parsed(Back(d), more);
    c := Back(d);
  }

  predicate AllGood(ls: seq<Lexeme>) {
    forall i :: 0 <= i < |ls| ==> GoodLexeme(ls[i])
  }

  lemma GoodJoin(a: seq<Lexeme>, b: seq<Lexeme>)
    requires AllGood(a) && AllGood(b)
    ensures AllGood(a + b)
  {
  }

  lemma {:induction false} PrintGood(t: Cmd<string>)
    requires Good(t)
    ensures AllGood(Print(t))
    decreases t
  {
    hide AllGood;
    match t {
      case Exec(ws) =>
        WordsGood(ws);
      case Redir(c, f, m) =>
        PrintGood(c);
        OneGood(Sym(ModeChar(m)));
        OneGood(Word(f));
        GoodJoin([Sym(ModeChar(m))], [Word(f)]);
        assert [Sym(ModeChar(m))] + [Word(f)] == [Sym(ModeChar(m)), Word(f)];
        GoodJoin(Print(c), [Sym(ModeChar(m)), Word(f)]);
      case Pipe(l, r) =>
        PrintGood(l);
        PrintGood(r);
        PairGood(Print(l), '|', Print(r));
      case Both(l, r) =>
        PrintGood(l);
        PrintGood(r);
        PairGood(Print(l), ';', Print(r));
      case Back(c) =>
        PrintGood(c);
        OneGood(Sym('&'));
        GoodJoin(Print(c), [Sym('&')]);
    }
    OneGood(Sym('('));
    OneGood(Sym(')'));
    GoodJoin([Sym('(')], Inner(t));
    GoodJoin([Sym('(')] + Inner(t), [Sym(')')]);
  }

  lemma PairGood(a: seq<Lexeme>, k: char, b: seq<Lexeme>)
    requires AllGood(a) && AllGood(b) && Symbol(k)
    ensures AllGood(a + [Sym(k)] + b)
  {
    hide AllGood;
    OneGood(Sym(k));
    GoodJoin(a, [Sym(k)]);
    GoodJoin(a + [Sym(k)], b);
  }

  lemma OneGood(l: Lexeme)
    requires GoodLexeme(l)
    ensures AllGood([l])
  {
  }

  lemma WordsGood(ws: seq<string>)
    requires forall i :: 0 <= i < |ws| ==> GoodWord(ws[i])
    ensures AllGood(Words(ws))
  {
  }

  /** Parsing a printed tree gives the tree back. */
  lemma ParsePrint(t: Cmd<string>)
    requires Good(t)
    ensures var s := Spell(Print(t)); ParseCmd(s).Parsed? && Text(s, ParseCmd(s).cmd) == t
  {
    hide Print, Inner, ParseLine, ParseExec, Lex;
    var s := Spell(Print(t));
    PrintGood(t);
    assert s[0..] == s;
    LexSpell(s, 0, Print(t));
    var ts := Lex(s, 0);
    assert Print(t) + [] == Print(t);
    var c := BlockBack(s, t, ts, []);
    assert ts[|Print(t)|..] == [];
    AloneIsLine(ts, c);
  }

  lemma AloneIsLine(ts: seq<Token>, c: Cmd<Span>)
    requires ParseExec(ts) == Parsed(c, [])
    ensures ParseLine(ts) == Parsed(c, [])
  {
    hide ParseExec;
  }
}

/** Where the strings of a parsed tree are in the line, and nulterminate (user/sh.c:394-432). */
module ShellSpans {
  import opened ShellLex
  import opened ShellParse
  import opened ShellPrint

  function Spans(c: Cmd<Span>): (xs: set<Span>) {
    match c
    case Exec(argv) => set i | 0 <= i < |argv| :: argv[i]
    case Redir(d, f, _) => Spans(d) + {f}
    case Pipe(l, r) => Spans(l) + Spans(r)
    case Both(l, r) => Spans(l) + Spans(r)
    case Back(d) => Spans(d)
  }

  /** Every string of the tree is a word of the line. */
  ghost predicate Inside(s: string, c: Cmd<Span>) {
    forall x :: x in Spans(c) ==> IsWord(s, x.lo, x.hi)
  }

  /** No command has more arguments than exec takes. */
  predicate Short(c: Cmd<Span>) {
    match c
    case Exec(argv) => |argv| < MAXARGS
    case Redir(d, _, _) => Short(d)
    case Pipe(l, r) => Short(l) && Short(r)
    case Both(l, r) => Short(l) && Short(r)
    case Back(d) => Short(d)
  }

  ghost predicate GoodTokens(s: string, ts: seq<Token>) {
    forall i :: 0 <= i < |ts| && ts[i].kind == 'a' ==> IsWord(s, ts[i].lo, ts[i].hi)
  }

  ghost predicate GoodFiles(s: string, files: seq<(Span, Mode)>) {
    forall i :: 0 <= i < |files| ==> IsWord(s, files[i].0.lo, files[i].0.hi)
  }

  ghost predicate GoodArgs(s: string, argv: seq<Span>) {
    forall i :: 0 <= i < |argv| ==> IsWord(s, argv[i].lo, argv[i].hi)
  }

  ghost predicate GoodParse(s: string, r: Parsed) {
    r.Parsed? ==> Inside(s, r.cmd) && Short(r.cmd) && GoodTokens(s, r.rest)
  }

  lemma {:induction false} RedirsInside(s: string, files: seq<(Span, Mode)>, ts: seq<Token>)
    requires GoodTokens(s, ts) && GoodFiles(s, files)
    ensures var r := TakeRedirs(files, ts); r.Redirs? ==> GoodFiles(s, r.files) && GoodTokens(s, r.rest)
    decreases |ts|
  {
    hide IsWord;
    if At(ts, "<>+") && |ts| >= 2 && ts[1].kind == 'a' {
      assert GoodFiles(s, files + [(SpanOf(ts[1]), ModeOf(ts[0].kind))]);
      RedirsInside(s, files + [(SpanOf(ts[1]), ModeOf(ts[0].kind))], ts[2..]);
    }
  }

  lemma {:induction false} WrapInside(s: string, c: Cmd<Span>, files: seq<(Span, Mode)>)
    requires Inside(s, c) && Short(c) && GoodFiles(s, files)
    ensures Inside(s, Wrap(c, files)) && Short(Wrap(c, files))
    decreases |files|
  {
    hide IsWord;
    if files != [] {
      WrapInside(s, c, files[..|files| - 1]);
    }
  }

  lemma {:induction false} ArgsInside(s: string, argv: seq<Span>, files: seq<(Span, Mode)>, ts: seq<Token>)
    requires GoodTokens(s, ts) && GoodFiles(s, files) && GoodArgs(s, argv) && |argv| < MAXARGS
    ensures GoodParse(s, TakeArgs(argv, files, ts))
    decreases |ts|
  {
    hide IsWord, Wrap;
    if ts == [] || At(ts, "|)&;") {
      assert Inside(s, Exec(argv));
      WrapInside(s, Exec(argv), files);
    } else if ts[0].kind == 'a' && |argv| + 1 < MAXARGS {
      RedirsInside(s, files, ts[1..]);
      var r := TakeRedirs(files, ts[1..]);
      if r.Redirs? {
        assert GoodArgs(s, argv + [SpanOf(ts[0])]);
        ArgsInside(s, argv + [SpanOf(ts[0])], r.files, r.rest);
      }
    }
  }

  lemma {:induction false} BacksInside(s: string, c: Cmd<Span>, ts: seq<Token>)
    requires GoodTokens(s, ts) && Inside(s, c) && Short(c)
    ensures GoodParse(s, TakeBacks(c, ts))
    decreases |ts|
  {
    hide IsWord;
    if At(ts, "&") {
      assert Inside(s, Back(c));
      BacksInside(s, Back(c), ts[1..]);
    }
  }

  lemma {:induction false} ExecInside(s: string, ts: seq<Token>)
    requires GoodTokens(s, ts)
    ensures GoodParse(s, ParseExec(ts))
    decreases |ts|, 1
  {
    hide IsWord, TakeArgs, TakeRedirs, ParseLine;
    if At(ts, "(") {
      BlockInside(s, ts);
    } else {
      RedirsInside(s, [], ts);
      var r := TakeRedirs([], ts);
      if r.Redirs? {
        ArgsInside(s, [], r.files, r.rest);
      }
    }
  }

  lemma {:induction false} BlockInside(s: string, ts: seq<Token>)
    requires GoodTokens(s, ts) && At(ts, "(")
    ensures GoodParse(s, ParseBlock(ts))
    decreases |ts|, 0
  {
    hide IsWord, TakeRedirs, ParseLine, Wrap;
    LineInside(s, ts[1..]);
    var r := ParseLine(ts[1..]);
    if r.Parsed? && At(r.rest, ")") {
      RedirsInside(s, [], r.rest[1..]);
      var f := TakeRedirs([], r.rest[1..]);
      if f.Redirs? {
        WrapInside(s, r.cmd, f.files);
      }
    }
  }

  lemma {:induction false} PipeInside(s: string, ts: seq<Token>)
    requires GoodTokens(s, ts)
    ensures GoodParse(s, ParsePipe(ts))
    decreases |ts|, 2
  {
    hide IsWord, ParseExec;
    ExecInside(s, ts);
    var r := ParseExec(ts);
    if r.Parsed? && At(r.rest, "|") {
      PipeInside(s, r.rest[1..]);
    }
  }

  lemma {:induction false} LineInside(s: string, ts: seq<Token>)
    requires GoodTokens(s, ts)
    ensures GoodParse(s, ParseLine(ts))
    decreases |ts|, 3
  {
    hide IsWord, ParsePipe, TakeBacks;
    PipeInside(s, ts);
    var r := ParsePipe(ts);
    if r.Parsed? {
      BacksInside(s, r.cmd, r.rest);
      var b := TakeBacks(r.cmd, r.rest);
      if At(b.rest, ";") {
        LineInside(s, b.rest[1..]);
      }
    }
  }

  /** Every argument and file name of a parsed line is a word of it. */
  lemma ParsedInside(s: string)
    requires NUL !in s
    ensures ParseCmd(s).Parsed? ==> Inside(s, ParseCmd(s).cmd) && Short(ParseCmd(s).cmd)
  {
    hide IsWord, ParseLine;
    forall i | 0 <= i < |Lex(s, 0)| && Lex(s, 0)[i].kind == 'a' ensures IsWord(s, Lex(s, 0)[i].lo, Lex(s, 0)[i].hi) {
      LexWords(s, 0, i);
    }
    LineInside(s, Lex(s, 0));
  }

  lemma {:induction false} TextGood(s: string, c: Cmd<Span>)
    requires Inside(s, c) && Short(c)
    ensures Good(Text(s, c))
    decreases c
  {
    match c
    case Exec(argv) =>
      forall i | 0 <= i < |argv| ensures GoodWord(Slices(s, argv)[i]) {
        assert argv[i] in Spans(c);
      }
    case Redir(d, f, _) =>
      assert f in Spans(c);
      TextGood(s, d);
    case Pipe(l, r) =>
      TextGood(s, l);
      TextGood(s, r);
    case Both(l, r) =>
      TextGood(s, l);
      TextGood(s, r);
    case Back(d) =>
      TextGood(s, d);
  }

  /** The tree of any line that is accepted, printed and parsed again, is that tree. */
  lemma Reparse(s: string)
    requires NUL !in s && ParseCmd(s).Parsed?
    ensures var t := Text(s, ParseCmd(s).cmd);
            var line := Spell(Print(t));
            ParseCmd(line).Parsed? && Text(line, ParseCmd(line).cmd) == t
  {
    hide *;
    ParsedInside(s);
    TextGood(s, ParseCmd(s).cmd);
    ParsePrint(Text(s, ParseCmd(s).cmd));
  }

  // ---- nulterminate --------------------------------------------------------------------------------------

  /** Where nulterminate writes: just behind each string of the tree. */
  ghost predicate Ended(c: Cmd<Span>, i: nat) {
    exists x :: x in Spans(c) && x.hi == i
  }

  ghost predicate Terminated(b: seq<char>, d: seq<char>, c: Cmd<Span>) {
    |d| == |b| && forall i: nat :: i < |b| ==> d[i] == if Ended(c, i) then NUL else b[i]
  }

  /** The C string at p. */
  function CString(b: seq<char>, p: nat): (s: string)
    requires p <= |b|
    decreases |b| - p
  {
    if p == |b| || b[p] == NUL then "" else [b[p]] + CString(b, p + 1)
  }

  lemma {:induction false} CStringIs(b: seq<char>, p: nat, q: nat)
    requires p <= q < |b| && b[q] == NUL && forall i :: p <= i < q ==> b[i] != NUL
    ensures CString(b, p) == b[p..q]
    decreases q - p
  {
    if p < q {
      CStringIs(b, p + 1, q);
      assert b[p..q] == [b[p]] + b[p + 1..q];
    }
  }

  lemma EndsOutside(s: string, c: Cmd<Span>, i: nat)
    requires Inside(s, c)
    ensures Ended(c, i) ==> i >= |s| || !WordChar(s[i])
  {
    if Ended(c, i) {
      var y :| y in Spans(c) && y.hi == i;
      assert IsWord(s, y.lo, y.hi);
    }
  }

  /** No terminator falls inside a string: each reads as exactly its token. */
  lemma StringsReadBack(s: string, c: Cmd<Span>, d: seq<char>, x: Span)
    requires Inside(s, c) && Terminated(s + [NUL], d, c) && x in Spans(c)
    ensures x.lo <= x.hi <= |s| < |d| && CString(d, x.lo) == s[x.lo..x.hi]
  {
    assert IsWord(s, x.lo, x.hi);
    assert Ended(c, x.hi);
    forall i: nat | x.lo <= i < x.hi ensures d[i] == s[i] && d[i] != NUL {
      assert WordChar(s[i]);
      EndsOutside(s, c, i);
      assert d[i] == (s + [NUL])[i];
    }
    CStringIs(d, x.lo, x.hi);
    assert d[x.lo..x.hi] == s[x.lo..x.hi];
  }

  /** nulterminate. */
  method Nulterminate(c: Cmd<Span>, buf: array<char>)
    requires forall x :: x in Spans(c) ==> x.hi < buf.Length
    modifies buf
    ensures Terminated(old(buf[..]), buf[..], c)
    decreases c
  {
    match c
    case Exec(argv) =>
      var i := 0;
      while i < |argv|
        invariant 0 <= i <= |argv|
        invariant forall k: nat :: k < buf.Length ==> buf[k] == if Ended(Exec(argv[..i]), k) then NUL else old(buf[k])
      {
        assert argv[i] in Spans(c);
        ExecEnds(argv, i);
        buf[argv[i].hi] := NUL;
        i := i + 1;
      }
      assert argv[..|argv|] == argv;
    case Redir(d, f, m) =>
      Nulterminate(d, buf);
      assert f in Spans(c);
      buf[f.hi] := NUL;
      forall i: nat ensures Ended(c, i) <==> Ended(d, i) || i == f.hi {
        RedirEnds(d, f, m, i);
      }
    case Pipe(l, r) =>
      Nulterminate(l, buf);
      Nulterminate(r, buf);
      forall i: nat ensures Ended(c, i) <==> Ended(l, i) || Ended(r, i) {
        PairEnds(c, l, r, i);
      }
    case Both(l, r) =>
      Nulterminate(l, buf);
      Nulterminate(r, buf);
      forall i: nat ensures Ended(c, i) <==> Ended(l, i) || Ended(r, i) {
        PairEnds(c, l, r, i);
      }
    case Back(d) =>
      Nulterminate(d, buf);
      assert forall i: nat :: Ended(c, i) <==> Ended(d, i);
  }

  lemma ExecEnds(argv: seq<Span>, i: nat)
    requires i < |argv|
    ensures forall k: nat :: Ended(Exec(argv[..i + 1]), k) <==> Ended(Exec(argv[..i]), k) || k == argv[i].hi
  {
    var a, b := argv[..i], argv[..i + 1];
    ExecSpans(argv, i);
    forall k: nat ensures Ended(Exec(b), k) <==> Ended(Exec(a), k) || k == argv[i].hi {
      if k == argv[i].hi {
        assert argv[i] in Spans(Exec(b));
      }
      if Ended(Exec(a), k) {
        var x :| x in Spans(Exec(a)) && x.hi == k;
        assert x in Spans(Exec(b));
      }
    }
  }

  lemma ExecSpans(argv: seq<Span>, i: nat)
    requires i < |argv|
    ensures Spans(Exec(argv[..i + 1])) == Spans(Exec(argv[..i])) + {argv[i]}
  {
    var a, b := argv[..i], argv[..i + 1];
    assert b[i] == argv[i];
    forall x | x in Spans(Exec(a)) ensures x in Spans(Exec(b)) {
      var j :| 0 <= j < |a| && a[j] == x;
      assert b[j] == x;
    }
    forall x | x in Spans(Exec(b)) ensures x in Spans(Exec(a)) || x == argv[i] {
      var j :| 0 <= j < |b| && b[j] == x;
      assert j < i ==> a[j] == x;
    }
  }

  lemma RedirEnds(d: Cmd<Span>, f: Span, m: Mode, i: nat)
    ensures Ended(Redir(d, f, m), i) <==> Ended(d, i) || i == f.hi
  {
    assert f in Spans(Redir(d, f, m));
  }

  lemma PairEnds(c: Cmd<Span>, l: Cmd<Span>, r: Cmd<Span>, i: nat)
    requires c == Pipe(l, r) || c == Both(l, r)
    ensures Ended(c, i) <==> Ended(l, i) || Ended(r, i)
  {
  }
}

/** The shell's tokenizer and parser as they are written: a cursor into the line. */
module ShellCode {
  import opened ShellLex
  import opened ShellParse
  import opened ShellSpans

  /** The kinds of the tokens that begin with a symbol in `toks`. */
  function KindsOf(toks: string): (kinds: string) {
    if '>' in toks then toks + "+" else toks
  }

  predicate Symbols(toks: string) {
    forall i :: 0 <= i < |toks| ==> Symbol(toks[i])
  }

  lemma FirstKind(s: string, p: nat, toks: string)
    requires p <= |s| && Symbols(toks)
    ensures At(Lex(s, p), KindsOf(toks)) <==> Skip(s, p) < |s| && s[Skip(s, p)] in toks
  {
    var q := Skip(s, p);
    if q < |s| {
      var k := TokenAt(s, q).kind;
      assert Lex(s, p)[0].kind == k;
      assert '+' !in toks && 'a' !in toks;
    }
  }

  /** peek: skips whitespace, and tells whether a token of these kinds is next. */
  method Peek(s: string, p: nat, toks: string) returns (yes: bool, q: nat)
    requires p <= |s| && Symbols(toks)
    ensures p <= q <= |s| && q == Skip(s, p) && Lex(s, q) == Lex(s, p) && yes == At(Lex(s, p), KindsOf(toks))
  {
    hide Lex;
    q := SkipSpace(s, p);
    FirstKind(s, p, toks);
    LexSkip(s, p, q);
    yes := q < |s| && s[q] in toks;
  }

  /** The loop over whitespace. */
  method SkipSpace(s: string, p: nat) returns (q: nat)
    requires p <= |s|
    ensures q == Skip(s, p)
  {
    q := p;
    while q < |s| && Space(s[q])
      invariant p <= q <= |s| && Skip(s, q) == Skip(s, p)
    {
      q := q + 1;
    }
  }

  /** gettoken: the next token, NUL for none, and the cursor behind it and the whitespace after it. */
  method Gettoken(s: string, p: nat) returns (kind: char, lo: nat, hi: nat, q: nat)
    requires p <= |s| && NUL !in s
    ensures p <= q <= |s| && (kind == NUL <==> Lex(s, p) == [])
    ensures kind == NUL ==> Lex(s, q) == []
    ensures kind != NUL ==> Token(kind, lo, hi) == Lex(s, p)[0] && Lex(s, q) == Lex(s, p)[1..] && p < q
  {
    lo := SkipSpace(s, p);
    var e := lo;
    kind := NUL;
    if lo < |s| {
      assert s[lo] != NUL;
      kind := s[lo];
      if s[lo] == '>' {
        e := e + 1;
        if e < |s| && s[e] == '>' {
          kind := '+';
          e := e + 1;
        }
      } else if Symbol(s[lo]) {
        e := e + 1;
      } else {
        kind := 'a';
        while e < |s| && !Space(s[e]) && !Symbol(s[e])
          invariant lo <= e <= |s| && WordEnd(s, e) == WordEnd(s, lo)
        {
          e := e + 1;
        }
      }
    }
    hi := e;
    q := SkipSpace(s, e);
    LexSkip(s, e, q);
  }

  /** parseredirs, which adds to the redirections `files` of a command. */
  method Parseredirs(s: string, p: nat, files0: seq<(Span, Mode)>) returns (ok: bool, files: seq<(Span, Mode)>, q: nat)
    requires p <= |s| && NUL !in s
    ensures p <= q <= |s|
    ensures TakeRedirs(files0, Lex(s, p)) == if ok then Redirs(files, Lex(s, q)) else BadRedir
  {
    hide Lex;
    q, files := p, files0;
    while true
      invariant p <= q <= |s| && TakeRedirs(files, Lex(s, q)) == TakeRedirs(files0, Lex(s, p))
      decreases |s| - q
    {
      var more;
      more, q := Peek(s, q, "<>");
      if !more {
        return true, files, q;
      }
      ghost var ts := Lex(s, q);
      var tok, lo, hi, kind;
      tok, lo, hi, q := Gettoken(s, q);
      kind, lo, hi, q := Gettoken(s, q);
      if kind != 'a' {
        return false, files, q;
      }
      RedirNext(files, ts, Span(lo, hi), tok);
      files := files + [(Span(lo, hi), ModeOf(tok))];
    }
    ok := true;
  }

  lemma RedirNext(files: seq<(Span, Mode)>, ts: seq<Token>, file: Span, tok: char)
    requires At(ts, "<>+") && |ts| >= 2 && ts[0].kind == tok && ts[1].kind == 'a' && SpanOf(ts[1]) == file
    ensures TakeRedirs(files, ts) == TakeRedirs(files + [(file, ModeOf(tok))], ts[1..][1..])
  {
    assert ts[1..][1..] == ts[2..];
  }

  /** parseexec. The command's node is finished when its arguments are. */
  method Parseexec(s: string, p: nat) returns (ok: bool, cmd: Cmd<Span>, q: nat)
    requires p <= |s| && NUL !in s
    ensures p <= q <= |s|
    ensures ParseExec(Lex(s, p)) == if ok then Parsed(cmd, Lex(s, q)) else Panic
    decreases |s| - p, 1
  {
    hide Lex, TakeArgs, TakeRedirs, ParseLine;
    var paren;
    paren, q := Peek(s, p, "(");
    cmd := Exec([]);
    if paren {
      ok, cmd, q := Parseblock(s, q);
      return;
    }
    var argv, files := [], [];
    ok, files, q := Parseredirs(s, q, []);
    if !ok {
      return;
    }
    ghost var first := TakeArgs([], files, Lex(s, q));
    while true
      invariant p <= q <= |s| && TakeArgs(argv, files, Lex(s, q)) == first
      decreases |s| - q
    {
      var stop;
      stop, q := Peek(s, q, "|)&;");
      ghost var ts := Lex(s, q);
      ArgsUnfold(argv, files, ts);
      if stop {
        break;
      }
      var tok, lo, hi;
      tok, lo, hi, q := Gettoken(s, q);
      if tok == NUL {
        break;
      }
      if tok != 'a' {
        return false, cmd, q;
      }
      argv := argv + [Span(lo, hi)];
      if |argv| >= MAXARGS {
        return false, cmd, q;
      }
      ok, files, q := Parseredirs(s, q, files);
      if !ok {
        return;
      }
    }
    return true, Wrap(Exec(argv), files), q;
  }

  lemma ArgsUnfold(argv: seq<Span>, files: seq<(Span, Mode)>, ts: seq<Token>)
    ensures ts == [] || At(ts, "|)&;") ==> TakeArgs(argv, files, ts) == Parsed(Wrap(Exec(argv), files), ts)
    ensures ts != [] && !At(ts, "|)&;") && (ts[0].kind != 'a' || |argv| + 1 >= MAXARGS) ==>
            TakeArgs(argv, files, ts) == Panic
    ensures ts != [] && !At(ts, "|)&;") && ts[0].kind == 'a' && |argv| + 1 < MAXARGS ==>
              var r := TakeRedirs(files, ts[1..]);
              TakeArgs(argv, files, ts) ==
              if r.BadRedir? then Panic else TakeArgs(argv + [SpanOf(ts[0])], r.files, r.rest)
  {
  }

  method Parseblock(s: string, p: nat) returns (ok: bool, cmd: Cmd<Span>, q: nat)
    requires p <= |s| && NUL !in s && At(Lex(s, p), "(")
    ensures p <= q <= |s|
    ensures ParseBlock(Lex(s, p)) == if ok then Parsed(cmd, Lex(s, q)) else Panic
    decreases |s| - p, 0
  {
    hide Lex, TakeRedirs, ParseLine;
    var tok, lo, hi;
    tok, lo, hi, q := Gettoken(s, p);
    ok, cmd, q := Parseline(s, q);
    if !ok {
      return;
    }
    var close;
    close, q := Peek(s, q, ")");
    if !close {
      return false, cmd, q;
    }
    tok, lo, hi, q := Gettoken(s, q);
    var files;
    ok, files, q := Parseredirs(s, q, []);
    if ok {
      cmd := Wrap(cmd, files);
    }
  }

  method Parsepipe(s: string, p: nat) returns (ok: bool, cmd: Cmd<Span>, q: nat)
    requires p <= |s| && NUL !in s
    ensures p <= q <= |s|
    ensures ParsePipe(Lex(s, p)) == if ok then Parsed(cmd, Lex(s, q)) else Panic
    decreases |s| - p, 2
  {
    hide Lex, ParseExec;
    ok, cmd, q := Parseexec(s, p);
    if !ok {
      return;
    }
    var bar;
    bar, q := Peek(s, q, "|");
    if bar {
      var tok, lo, hi, right;
      tok, lo, hi, q := Gettoken(s, q);
      ok, right, q := Parsepipe(s, q);
      cmd := Pipe(cmd, right);
    }
  }

  method Parseline(s: string, p: nat) returns (ok: bool, cmd: Cmd<Span>, q: nat)
    requires p <= |s| && NUL !in s
    ensures p <= q <= |s|
    ensures ParseLine(Lex(s, p)) == if ok then Parsed(cmd, Lex(s, q)) else Panic
    decreases |s| - p, 3
  {
    hide Lex, ParsePipe;
    ok, cmd, q := Parsepipe(s, p);
    if !ok {
      return;
    }
    ghost var first := TakeBacks(cmd, Lex(s, q));
    while true
      invariant p <= q <= |s| && TakeBacks(cmd, Lex(s, q)) == first
      decreases |s| - q
    {
      var amp;
      amp, q := Peek(s, q, "&");
      if !amp {
        break;
      }
      var tok, lo, hi;
      tok, lo, hi, q := Gettoken(s, q);
      cmd := Back(cmd);
    }
    var semi;
    semi, q := Peek(s, q, ";");
    if semi {
      var tok, lo, hi, right;
      tok, lo, hi, q := Gettoken(s, q);
      ok, right, q := Parseline(s, q);
      cmd := Both(cmd, right);
    }
  }

  /** parsecmd, on a buffer that holds a line and its NUL: the tree that the grammar gives, or
      a panic; afterwards every string of the tree reads as exactly its token. */
  method Parsecmd(buf: array<char>, s: string) returns (ok: bool, cmd: Cmd<Span>)
    requires NUL !in s && buf[..] == s + [NUL]
    modifies buf
    ensures ParseCmd(s) == if ok then Parsed(cmd, []) else Panic
    ensures ok ==> forall x :: x in Spans(cmd) ==>
              x.lo <= x.hi <= |s| < buf.Length && CString(buf[..], x.lo) == s[x.lo..x.hi]
  {
    hide Lex, ParseLine, IsWord, CString;
    assert buf.Length == |s| + 1;
    var q;
    ok, cmd, q := Parseline(s, 0);
    if !ok {
      return;
    }
    var ignored;
    AtEnd(s, q);
    ignored, q := Peek(s, q, "");
    if q != |s| {
      return false, cmd;
    }
    ParsedInside(s);
    forall x | x in Spans(cmd) ensures x.hi < buf.Length {
      WordBound(s, x.lo, x.hi);
    }
    Nulterminate(cmd, buf);
    forall x | x in Spans(cmd) ensures x.lo <= x.hi <= |s| < buf.Length && CString(buf[..], x.lo) == s[x.lo..x.hi] {
      StringsReadBack(s, cmd, buf[..], x);
    }
  }

  lemma AtEnd(s: string, p: nat)
    requires p <= |s|
    ensures Lex(s, p) == [] <==> Skip(s, p) == |s|
  {
  }

  lemma WordBound(s: string, lo: nat, hi: nat)
    requires IsWord(s, lo, hi)
    ensures hi <= |s|
  {
  }
}
