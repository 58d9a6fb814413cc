/** The console's line discipline (kernel/console.c:78-172), as an editor of two lists: what
    has been committed and not yet read, and the line being edited. */
module LineEditor {
  import opened Blocks

  const INPUT_BUF: nat := 128
  const NL: Byte := 10
  const CR: Byte := 13
  const CTRL_D: Byte := 4
  const CTRL_H: Byte := 8
  const CTRL_P: Byte := 16
  const CTRL_U: Byte := 21
  const DEL: Byte := 127

  datatype Editor = Editor(queue: seq<Byte>, line: seq<Byte>)

  predicate Ok(ed: Editor) {
    && |ed.queue| + |ed.line| <= INPUT_BUF && NL !in ed.line && CTRL_D !in ed.line
    && (|ed.queue| + |ed.line| == INPUT_BUF ==> ed.line == [])
  }

  /** A character arrives. */
  function Typed(ed: Editor, c: Byte): (r: Editor)
    ensures Ok(ed) ==> Ok(r)
  {
    if c == CTRL_P then ed
    else if c == CTRL_U then Editor(ed.queue, [])
    else if c == CTRL_H || c == DEL then Editor(ed.queue, if ed.line == [] then [] else ed.line[..|ed.line| - 1])
    else if c == 0 || |ed.queue| + |ed.line| >= INPUT_BUF then ed
    else
      var d := if c == CR then NL else c;
      var line := ed.line + [d];
      if d == NL || d == CTRL_D || |ed.queue| + |line| == INPUT_BUF then Editor(ed.queue + line, [])
      else Editor(ed.queue, line)
  }

  /** A read: what it has got, how many bytes it still wants, whether it is over; `fits` is how
      many bytes copyout can put where it wants them. */
  datatype Read = Read(got: seq<Byte>, left: nat, over: bool, fits: nat)

  /** A byte is copied out. */
  function Got(rd: Read, c: Byte): (r: Read)
    requires rd.left > 0
  {
    Read(rd.got + [c], rd.left - 1, c == NL, rd.fits)
  }

  /** The read goes on with the bytes q, and leaves some of them. It is over at a newline, at
      a control-D, when it has all it wants, or when a byte cannot be copied out, which is
      then lost; a control-D after other bytes stays. */
  function Take(rd: Read, q: seq<Byte>): (res: (Read, seq<Byte>))
    ensures |res.1| <= |q| && (!res.0.over ==> res.1 == [])
    decreases |q|
  {
    if rd.over || rd.left == 0 then (rd.(over := true), q)
    else if q == [] then (rd, q)
    else if q[0] == CTRL_D then (rd.(over := true), if rd.got != [] then q else q[1..])
    else if |rd.got| >= rd.fits then (rd.(over := true), q[1..])
    else Take(Got(rd, q[0]), q[1..])
  }

  /** A read that has to wait goes on where it was: the bytes that come in while it waits are
      read as if they had been there from the start. */
  lemma {:induction false} TakeResumes(rd: Read, q: seq<Byte>, more: seq<Byte>)
    requires !Take(rd, q).0.over
    ensures Take(rd, q + more) == Take(Take(rd, q).0, more)
    decreases |q|
  {
    TakeOnce(rd, q);
    TakeOnce(rd, q + more);
    hide Take;
    if q == [] {
      assert q + more == more;
    } else {
      assert (q + more)[0] == q[0] && (q + more)[1..] == q[1..] + more;
      TakeResumes(Got(rd, q[0]), q[1..], more);
    }
  }

  /** A read that is over leaves what comes after. */
  lemma {:induction false} TakeLeaves(rd: Read, q: seq<Byte>, more: seq<Byte>)
    requires Take(rd, q).0.over
    ensures Take(rd, q + more) == (Take(rd, q).0, Take(rd, q).1 + more)
    decreases |q|
  {
    TakeOnce(rd, q);
    TakeOnce(rd, q + more);
    hide Take;
    if !(rd.over || rd.left == 0) {
      assert q != [] && (q + more)[0] == q[0] && (q + more)[1..] == q[1..] + more;
      if q[0] != CTRL_D && |rd.got| < rd.fits {
        TakeLeaves(Got(rd, q[0]), q[1..], more);
      }
    }
  }

  /** One byte of a read. */
  lemma TakeOnce(rd: Read, q: seq<Byte>)
    ensures Take(rd, q) ==
            if rd.over || rd.left == 0 then (rd.(over := true), q)
            else if q == [] then (rd, q)
            else if q[0] == CTRL_D then (rd.(over := true), if rd.got != [] then q else q[1..])
            else if |rd.got| >= rd.fits then (rd.(over := true), q[1..])
            else Take(Got(rd, q[0]), q[1..])
  {
  }

  /** A read takes bytes from the front only. */
  lemma {:induction false} TakeSuffix(rd: Read, q: seq<Byte>)
    ensures Take(rd, q).1 == q[|q| - |Take(rd, q).1|..]
    decreases |q|
  {
    TakeOnce(rd, q);
    hide Take;
    if !rd.over && rd.left > 0 && q != [] && q[0] != CTRL_D && |rd.got| < rd.fits {
      TakeSuffix(Got(rd, q[0]), q[1..]);
    }
  }

  /** What a read returns: a line with its newline, or what there is before a control-D, or
      as many bytes as were asked for, or as can be copied; never more than was asked for. */
  lemma {:induction false} TakeIsALine(rd: Read, q: seq<Byte>)
    requires !rd.over && rd.left > 0 && NL !in rd.got && CTRL_D !in rd.got
    ensures var (t, rest) := Take(rd, q);
            && rd.got <= t.got && |t.got| + t.left == |rd.got| + rd.left && CTRL_D !in t.got
            && (forall i :: 0 <= i < |t.got| - 1 ==> t.got[i] != NL)
            && (t.over ==> t.left == 0 || (t.got != [] && t.got[|t.got| - 1] == NL) || |t.got| >= t.fits == rd.fits
                           || (if |t.got| == |rd.got| == 0 then q != [] && q[0] == CTRL_D
                               else rest != [] && rest[0] == CTRL_D))
    decreases |q|
  {
    if q != [] && q[0] != CTRL_D && |rd.got| < rd.fits {
      var next := Got(rd, q[0]);
      if next.over || next.left == 0 {
        assert Take(next, q[1..]) == (next.(over := true), q[1..]);
      } else {
        TakeIsALine(next, q[1..]);
      }
    }
  }

  // ---- keys and reads interleaved --------------------------------------------------------------------------

  /** A key arrives, the reader is killed, or it gets to run until it has to wait. */
  datatype Event = Key(c: Byte) | Kill | Run

  /** `stream` is all that was committed; `failed`: the read has returned -1. */
  datatype State = State(ed: Editor, rd: Read, stream: seq<Byte>, killed: bool, failed: bool)

  /** What a key commits. */
  function Committed(ed: Editor, c: Byte): (s: seq<Byte>)
    ensures Typed(ed, c).queue == ed.queue + s
  {
    var q := Typed(ed, c).queue;
    if q == ed.queue then assert q == ed.queue + []; [] else q[|ed.queue|..]
  }

  function Step(s: State, e: Event): (t: State) {
    match e
    case Key(c) => s.(ed := Typed(s.ed, c), stream := s.stream + Committed(s.ed, c))
    case Kill => s.(killed := true)
    case Run =>
      if s.failed then s
      else
        var (rd, q) := Take(s.rd, s.ed.queue);
        s.(ed := Editor(q, s.ed.line), rd := rd, failed := s.killed && !rd.over)
  }

  function Steps(s: State, es: seq<Event>): (t: State)
    decreases |es|
  {
    if es == [] then s else Step(Steps(s, es[..|es| - 1]), es[|es| - 1])
  }

  lemma TakeTwice(rd: Read, q: seq<Byte>)
    ensures Take(Take(rd, q).0, Take(rd, q).1) == Take(rd, q)
  {
    var t := Take(rd, q);
    if !t.0.over {
      assert q + [] == q;
      TakeResumes(rd, q, []);
    }
  }

  lemma TakeMore(rd: Read, q: seq<Byte>, rd': Read, q': seq<Byte>, more: seq<Byte>)
    requires Take(rd, q) == Take(rd', q')
    ensures Take(rd, q + more) == Take(rd', q' + more)
  {
    if Take(rd, q).0.over {
      TakeLeaves(rd, q, more);
      TakeLeaves(rd', q', more);
    } else {
      TakeResumes(rd, q, more);
      TakeResumes(rd', q', more);
    }
  }

  /** What the read rd0 has come to: it got what it would get from all that is committed, and
      leaves the rest for the next read. If it was killed and returned -1, it has taken all
      that was committed before, which did not end it, and nothing after. */
  predicate Served(rd0: Read, t: State) {
    && Ok(t.ed) && |t.ed.queue| <= |t.stream|
    && var k := |t.stream| - |t.ed.queue|;
       if t.failed then t.killed && t.ed.queue == t.stream[k..] && Take(rd0, t.stream[..k]) == (t.rd, []) && !t.rd.over
       else Take(rd0, t.stream) == Take(t.rd, t.ed.queue)
  }

  lemma KeyServed(rd0: Read, s: State, c: Byte)
    requires Served(rd0, s)
    ensures Served(rd0, Step(s, Key(c)))
  {
    hide Typed, Take, Ok;
    var k, more := |s.stream| - |s.ed.queue|, Committed(s.ed, c);
    TypedOk(s.ed, c);
    if s.failed {
      assert (s.stream + more)[..k] == s.stream[..k];
      assert (s.stream + more)[k..] == s.stream[k..] + more;
    } else {
      TakeMore(rd0, s.stream, s.rd, s.ed.queue, more);
    }
  }

  lemma TypedOk(ed: Editor, c: Byte)
    requires Ok(ed)
    ensures Ok(Typed(ed, c))
  {
  }

  lemma RunServed(rd0: Read, s: State)
    requires Served(rd0, s)
    ensures Served(rd0, Step(s, Run))
  {
    hide Take;
    TakeTwice(s.rd, s.ed.queue);
    assert s.stream[..|s.stream|] == s.stream;
  }

  /** However keys, kills and reader are interleaved. */
  lemma {:induction false} ReadGetsStream(s: State, es: seq<Event>)
    requires s.stream == s.ed.queue && Ok(s.ed) && !s.failed
    ensures Served(s.rd, Steps(s, es))
    decreases |es|
  {
    hide Served, Take, Typed;
    if es == [] {
      Unserved(s);
    } else {
      var n := |es| - 1;
      var u := Steps(s, es[..n]);
      ReadGetsStream(s, es[..n]);
      match es[n]
      case Key(c) => KeyServed(s.rd, u, c);
      case Kill => KillServed(s.rd, u);
      case Run => RunServed(s.rd, u);
    }
  }

  lemma Unserved(s: State)
    requires s.stream == s.ed.queue && Ok(s.ed) && !s.failed
    ensures Served(s.rd, s)
  {
  }

  lemma KillServed(rd0: Read, s: State)
    requires Served(rd0, s)
    ensures Served(rd0, Step(s, Kill))
  {
  }
}

/** consoleintr and consoleread on the ring buffer and its three 32-bit indices. */
module ConsoleCode {
  import opened Blocks
  import opened LineEditor

  const U32: int := 0x1_0000_0000

  /** a - b in 32 bits. */
  function Minus(a: Word, b: Word): (d: Word) {
    if a >= b then a - b else a - b + U32
  }

  function Plus(a: Word, n: nat): (d: Word) {
    (a + n) % U32
  }

  /** The n bytes of the ring from index lo on. */
  function Ring(b: seq<Byte>, lo: nat, n: nat): (s: seq<Byte>)
    requires |b| == INPUT_BUF
  {
    seq(n, i requires 0 <= i => b[(lo + i) % INPUT_BUF])
  }

  lemma ModShift(x: int, k: int)
    ensures (x + INPUT_BUF * k) % INPUT_BUF == x % INPUT_BUF
  {
  }

  lemma PlusMod(a: Word, n: nat)
    ensures Plus(a, n) % INPUT_BUF == (a + n) % INPUT_BUF
  {
    var q := (a + n) / U32;
    assert a + n == Plus(a, n) + INPUT_BUF * (0x200_0000 * q);
    ModShift(Plus(a, n), 0x200_0000 * q);
  }

  lemma MinusPlus(a: Word, n: nat)
    requires n < U32
    ensures Minus(Plus(a, n), a) == n
  {
  }

  lemma PlusMinus(a: Word, b: Word)
    ensures Plus(b, Minus(a, b)) == a
  {
  }

  /** Both ends moved by the same step. */
  lemma MinusStep(e: Word, r: Word)
    ensures Minus(e, r) < U32 - 1 ==> Minus(Plus(e, 1), r) == Minus(e, r) + 1
    ensures Minus(e, r) > 0 ==> Minus(e, Plus(r, 1)) == Minus(e, r) - 1
    ensures Minus(e, r) > 0 ==> Minus(Minus(e, 1), r) == Minus(e, r) - 1
  {
  }

  /** A byte stored at the end. */
  lemma RingPut(b: seq<Byte>, lo: Word, n: nat, c: Byte)
    requires |b| == INPUT_BUF && n < INPUT_BUF
    ensures Ring(b[Plus(lo, n) % INPUT_BUF := c], lo, n + 1) == Ring(b, lo, n) + [c]
  {
    PlusMod(lo, n);
    var w := b[Plus(lo, n) % INPUT_BUF := c];
    forall i | 0 <= i < n + 1 ensures Ring(w, lo, n + 1)[i] == (Ring(b, lo, n) + [c])[i] {
      if i < n {
        Distinct(lo, i, n);
      }
    }
  }

  lemma Distinct(lo: nat, i: nat, j: nat)
    requires i < j < i + INPUT_BUF
    ensures (lo + i) % INPUT_BUF != (lo + j) % INPUT_BUF
  {
    var a, b := (lo + i) / INPUT_BUF, (lo + j) / INPUT_BUF;
    assert lo + i == INPUT_BUF * a + (lo + i) % INPUT_BUF && lo + j == INPUT_BUF * b + (lo + j) % INPUT_BUF;
  }

  /** A byte taken from the front. */
  lemma RingTake(b: seq<Byte>, lo: Word, n: nat)
    requires |b| == INPUT_BUF && n > 0
    ensures Ring(b, lo, n)[0] == b[lo % INPUT_BUF] && Ring(b, lo, n)[1..] == Ring(b, Plus(lo, 1), n - 1)
  {
    PlusMod(lo, 1);
    forall i | 0 <= i < n - 1 ensures Ring(b, lo, n)[1..][i] == Ring(b, Plus(lo, 1), n - 1)[i] {
      ShiftMod(lo, i);
    }
  }

  lemma ShiftMod(lo: Word, i: nat)
    ensures (Plus(lo, 1) + i) % INPUT_BUF == (lo + 1 + i) % INPUT_BUF
  {
    PlusMod(lo, 1);
    var p, q := Plus(lo, 1), lo + 1;
    assert p == INPUT_BUF * (p / INPUT_BUF) + p % INPUT_BUF && q == INPUT_BUF * (q / INPUT_BUF) + q % INPUT_BUF;
    assert p + i == q + i + INPUT_BUF * (p / INPUT_BUF - q / INPUT_BUF);
    ModShift(q + i, p / INPUT_BUF - q / INPUT_BUF);
  }

  /** The editor that the ring b and the indices stand for. */
  function Shows(b: seq<Byte>, r: Word, w: Word, e: Word): (ed: Editor)
    requires |b| == INPUT_BUF && Minus(w, r) <= Minus(e, r)
  {
    Editor(Ring(b, r, Minus(e, r))[..Minus(w, r)], Ring(b, r, Minus(e, r))[Minus(w, r)..])
  }

  /** The indices are in order and within the ring. */
  predicate Ordered(r: Word, w: Word, e: Word) {
    Minus(w, r) <= Minus(e, r) <= INPUT_BUF
  }

  /** e moved back by one. */
  lemma Erase(b: seq<Byte>, r: Word, w: Word, e: Word)
    requires |b| == INPUT_BUF && Ordered(r, w, e) && e != w
    ensures Ordered(r, w, Minus(e, 1))
    ensures var ed := Shows(b, r, w, e);
            && ed.line != [] && b[Minus(e, 1) % INPUT_BUF] == ed.line[|ed.line| - 1]
            && Shows(b, r, w, Minus(e, 1)) == Editor(ed.queue, ed.line[..|ed.line| - 1])
  {
    MinusStep(e, r);
    PlusMinus(e, r);
    PlusMinus(w, r);
    var n := Minus(e, r);
    assert n > Minus(w, r);
    PlusMinus(Minus(e, 1), r);
    PlusMod(r, n - 1);
    assert Ring(b, r, n)[..n - 1] == Ring(b, r, n - 1);
  }

  /** A byte stored at e, which moves on; w stays or follows. */
  lemma StoreAt(b: seq<Byte>, r: Word, w: Word, e: Word, c: Byte, follow: bool)
    requires |b| == INPUT_BUF && Ordered(r, w, e) && Minus(e, r) < INPUT_BUF
    ensures var (e', w') := (Plus(e, 1), if follow then Plus(e, 1) else w);
            && Ordered(r, w', e')
            && var ed := Shows(b, r, w, e);
               Shows(b[e % INPUT_BUF := c], r, w', e') ==
               if follow then Editor(ed.queue + ed.line + [c], []) else Editor(ed.queue, ed.line + [c])
  {
    var n := Minus(e, r);
    MinusStep(e, r);
    PlusMinus(e, r);
    RingPut(b, r, n, c);
  }

  /** The byte at r is taken. */
  lemma TakeAt(b: seq<Byte>, r: Word, w: Word, e: Word)
    requires |b| == INPUT_BUF && Ordered(r, w, e) && r != w
    ensures Ordered(Plus(r, 1), w, e) && Minus(Plus(r, 1), 1) == r
    ensures var ed := Shows(b, r, w, e);
            && ed.queue != [] && ed.queue[0] == b[r % INPUT_BUF]
            && Shows(b, Plus(r, 1), w, e) == Editor(ed.queue[1..], ed.line)
  {
    PlusMinus(w, r);
    PlusMinus(e, r);
    MinusStep(w, r);
    MinusStep(e, r);
    MinusPlus(r, 1);
    var n := Minus(e, r);
    RingTake(b, r, n);
    var s := Ring(b, r, n);
    assert s[1..][..Minus(w, r) - 1] == s[..Minus(w, r)][1..] && s[1..][Minus(w, r) - 1..] == s[Minus(w, r)..];
  }

  class Console {
    const buf: array<Byte>
    var r: Word
    var w: Word
    var e: Word

    ghost predicate Valid()
      reads this, buf
    {
      buf.Length == INPUT_BUF && Ordered(r, w, e) && Ok(Shows(buf[..], r, w, e))
    }

    ghost function Abs(): (ed: Editor)
      requires Valid()
      reads this, buf
    {
      Shows(buf[..], r, w, e)
    }

    constructor ()
      ensures Valid() && Abs() == Editor([], []) && fresh(buf)
    {
      buf := new Byte[INPUT_BUF](_ => 0);
      r, w, e := 0, 0, 0;
    }

    /** consoleintr. */
    method Intr(c: Byte)
      requires Valid()
      modifies this, buf
      ensures Valid() && Abs() == Typed(old(Abs()), c)
    {
      hide Shows, Ordered, Minus, Plus;
      if c == CTRL_P {
      } else if c == CTRL_U {
        KillLine();
      } else if c == CTRL_H || c == DEL {
        NoLine(buf[..], r, w, e);
        if e != w {
          Erase(buf[..], r, w, e);
          e := Minus(e, 1);
        }
      } else {
        Sizes(buf[..], r, w, e);
        if c != 0 && Minus(e, r) < INPUT_BUF {
          var d: Byte := if c == CR then NL else c;
          ghost var ed := Abs();
          Full(r, e);
          var follow := d == NL || d == CTRL_D || Plus(e, 1) == Plus(r, INPUT_BUF);
          StoreAt(buf[..], r, w, e, d, follow);
          ghost var b := buf[..];
          buf[e % INPUT_BUF] := d;
          assert buf[..] == b[e % INPUT_BUF := d];
          e := Plus(e, 1);
          if follow {
            w := e;
          }
          assert ed.queue + ed.line + [d] == ed.queue + (ed.line + [d]);
        }
      }
    }

    /** The loop for control-U. */
    method KillLine()
      requires Valid()
      modifies this`e
      ensures Valid() && Abs() == Editor(old(Abs()).queue, [])
    {
      hide Shows, Minus;
      ghost var ed := Abs();
      while e != w && buf[Minus(e, 1) % INPUT_BUF] != NL
        invariant buf.Length == INPUT_BUF && Ordered(r, w, e)
        invariant Shows(buf[..], r, w, e).queue == ed.queue && Shows(buf[..], r, w, e).line <= ed.line
        decreases |Shows(buf[..], r, w, e).line|
      {
        Erase(buf[..], r, w, e);
        ghost var line := Shows(buf[..], r, w, e).line;
        assert line[|line| - 1] == ed.line[|line| - 1];
        e := Minus(e, 1);
      }
      NoLine(buf[..], r, w, e);
      AtStart(buf[..], r, w, e, ed.line);
      assert Shows(buf[..], r, w, e) == Editor(ed.queue, []);
    }

    /** consoleread's loop, from where it is until it is over or has to wait; if the process
        has been killed, it does not wait but fails. */
    method Consoleread(rd0: Read, killed: bool) returns (rd: Read, failed: bool)
      requires Valid()
      modifies this`r
      ensures Valid() && failed == (killed && !rd.over)
      ensures rd == Take(rd0, old(Abs()).queue).0
      ensures Abs() == Editor(Take(rd0, old(Abs()).queue).1, old(Abs()).line)
    {
      hide Shows, Ordered, Minus, Plus, Take;
      rd := rd0;
      ghost var ed := Abs();
      while !rd.over && rd.left > 0
        invariant Valid() && Abs().line == ed.line && Take(rd, Abs().queue) == Take(rd0, ed.queue)
        decreases !rd.over, rd.left
      {
        NoQueue(buf[..], r, w, e);
        TakeOnce(rd, Abs().queue);
        if r == w {
          return rd, killed;
        }
        TakeAt(buf[..], r, w, e);
        var c := buf[r % INPUT_BUF];
        r := Plus(r, 1);
        if c == CTRL_D {
          if rd.got != [] {
            r := Minus(r, 1);
          }
          rd := rd.(over := true);
          TakeStop(rd, Abs().queue);
        } else if |rd.got| >= rd.fits {
          rd := rd.(over := true);
          TakeStop(rd, Abs().queue);
        } else {
          rd := Got(rd, c);
        }
      }
      TakeStop(rd, Abs().queue);
      rd, failed := rd.(over := true), false;
    }
  }

  /** Where control-U stops, in a line without newlines. */
  lemma AtStart(b: seq<Byte>, r: Word, w: Word, e: Word, line: seq<Byte>)
    requires |b| == INPUT_BUF && Ordered(r, w, e) && Shows(b, r, w, e).line <= line && NL !in line
    requires e == w || b[Minus(e, 1) % INPUT_BUF] == NL
    ensures e == w
  {
    hide Shows, Minus;
    if e != w {
      Erase(b, r, w, e);
    }
  }

  lemma TakeStop(rd: Read, q: seq<Byte>)
    requires rd.over || rd.left == 0
    ensures Take(rd, q) == (rd.(over := true), q)
  {
  }

  lemma Sizes(b: seq<Byte>, r: Word, w: Word, e: Word)
    requires |b| == INPUT_BUF && Ordered(r, w, e)
    ensures var ed := Shows(b, r, w, e); |ed.queue| + |ed.line| == Minus(e, r)
  {
  }

  lemma NoLine(b: seq<Byte>, r: Word, w: Word, e: Word)
    requires |b| == INPUT_BUF && Ordered(r, w, e)
    ensures Shows(b, r, w, e).line == [] <==> e == w
  {
    PlusMinus(e, r);
    PlusMinus(w, r);
  }

  lemma NoQueue(b: seq<Byte>, r: Word, w: Word, e: Word)
    requires |b| == INPUT_BUF && Ordered(r, w, e)
    ensures Shows(b, r, w, e).queue == [] <==> r == w
  {
    PlusMinus(w, r);
  }

  /** cons.e == cons.r + INPUT_BUF, after e has moved on. */
  lemma Full(r: Word, e: Word)
    requires Minus(e, r) < INPUT_BUF
    ensures Plus(e, 1) == Plus(r, INPUT_BUF) <==> Minus(e, r) + 1 == INPUT_BUF
  {
  }
}
