/** The buffer cache at boot (kernel/fs.c:39-43, kernel/log.c:54-111): recovery unpins buffers
    that it never pinned. Here is when it runs out of buffers, and when the cache still
    refines a block map afterwards. */
module CacheBoot {
  import opened Blocks
  import opened CacheSpec
  import opened CacheMachine
  import opened LogDisk
  import opened Prelude

  /** bread and brelse, when nothing else is in use. */
  function Reading(k: Key): (steps: seq<Step>) {
    [Get(k), Lock(0), Fill(0), Unlock(0), Release(0)]
  }

  /** A turn of install_trans in recovery: log block l, with contents x, goes to its home h. */
  function Installing(l: Key, h: Key, x: Block): (steps: seq<Step>) {
    [Get(l), Lock(0), Fill(0), Get(h), Lock(1), Fill(1), Modify(1, x), Write(1), Drop(1),
     Unlock(0), Release(0), Unlock(0), Release(0)]
  }

  /** write_head. */
  function Heading(k: Key, x: Block): (steps: seq<Step>) {
    [Get(k), Lock(0), Fill(0), Modify(0, x), Write(0), Unlock(0), Release(0)]
  }

  /** The j-th block of the log. */
  function LogKey(d: nat, start: nat, j: nat): (k: Key) {
    Key(d, start + j)
  }

  /** The first i turns of install_trans for the list bs. */
  function Installs(disk: map<Key, Block>, d: nat, start: nat, bs: seq<Word>, i: nat): (steps: seq<Step>)
    requires i <= |bs| && forall j: nat :: 0 < j <= |bs| ==> LogKey(d, start, j) in disk
  {
    if i == 0 then []
    else Installs(disk, d, start, bs, i - 1)
         + Installing(LogKey(d, start, i), Key(d, bs[i - 1]), disk[LogKey(d, start, i)])
  }

  /** A device d with a superblock, a log area whose header holds a list of homes outside it,
      and the log blocks of that list. */
  predicate Bootable(disk: map<Key, Block>, d: nat, a: Area) {
    && d != 0 && Key(d, 1) in disk && Key(d, a.start) in disk && HeadCount(disk[Key(d, a.start)]) <= LOGSIZE
    && var bs := HeadBlocks(disk[Key(d, a.start)]);
       && |bs| < a.size
       && (forall j: nat :: 0 < j <= |bs| ==> LogKey(d, a.start, j) in disk)
       && forall j :: 0 <= j < |bs| ==> Key(d, bs[j]) in disk && !InLog(a, bs[j])
  }

  function Listing(disk: map<Key, Block>, d: nat, a: Area): (bs: seq<Word>)
    requires Bootable(disk, d, a)
  {
    HeadBlocks(disk[Key(d, a.start)])
  }

  /** readsb, then initlog: read_head, install_trans, write_head. */
  function BootSteps(disk: map<Key, Block>, d: nat, a: Area): (steps: seq<Step>)
    requires Bootable(disk, d, a)
  {
    var bs, head := Listing(disk, d, a), Key(d, a.start);
    Reading(Key(d, 1)) + Reading(head) + Installs(disk, d, a.start, bs, |bs|) + Heading(head, WithHead(disk[head], []))
  }

  /** t is where the steps lead, or where they panic. */
  ghost predicate Reaches(s: State, steps: seq<Step>, t: State)
    decreases |steps|
  {
    if s.panicked || steps == [] then s == t
    else Enabled(s, steps[0]) && Reaches(Do(s, steps[0]), steps[1..], t)
  }

  lemma {:induction false} ReachesJoin(s: State, a: seq<Step>, m: State, b: seq<Step>, t: State)
    requires Reaches(s, a, m) && Reaches(m, b, t)
    ensures Reaches(s, a + b, t)
    decreases |a|
  {
    hide Do, Enabled;
    if a == [] {
      assert a + b == b;
    } else if !s.panicked {
      assert (a + b)[1..] == a[1..] + b;
      ReachesJoin(Do(s, a[0]), a[1..], m, b, t);
    }
  }

  lemma ReachesOne(s: State, step: Step)
    requires Enabled(s, step)
    ensures Reaches(s, [step], Do(s, step))
  {
    hide Do;
    assert [step][1..] == [];
    assert Reaches(Do(s, step), [], Do(s, step));
  }

  lemma {:induction false} ReachesRuns(s: State, steps: seq<Step>, t: State)
    requires Reaches(s, steps, t) && !t.panicked
    ensures Execution(s, steps, t)
    decreases |steps|
  {
    hide Do, Enabled;
    if steps != [] && !s.panicked {
      ReachesRuns(Do(s, steps[0]), steps[1..], t);
    }
  }

  // ---- where boot is ----------------------------------------------------------------------

  /** n buffers over device d with the blocks `keys`; the homes f have been installed, in
      `turns` turns. */
  datatype Progress = Progress(n: nat, keys: set<Key>, d: nat, f: set<nat>, turns: nat)

  ghost predicate Owes(s: State, b: nat, k: Key)
    requires Sane(s)
  {
    b < |s.bufs| && s.bufs[b].key == k && s.owe[b] > 0
  }

  /** The buffers that owe are those of the homes installed. */
  ghost predicate Owing(s: State, p: Progress)
    requires Sane(s)
  {
    && (forall b :: 0 <= b < |s.bufs| && s.owe[b] > 0 ==>
          s.bufs[b].key.dev == p.d && s.bufs[b].key.blockno in p.f && s.owe[b] <= p.turns)
    && forall h :: h in p.f ==> exists b :: Owes(s, b, Key(p.d, h))
  }

  /** Boot, alone with the cache, uses us; whatever it changed is on disk. */
  ghost predicate At(s: State, p: Progress, us: seq<Use>) {
    && Sane(s) && Inv(s) && !s.panicked && |s.bufs| == p.n
    && s.disk.Keys == p.keys && s.contents == s.disk && s.uses == us
    && (forall b :: 0 <= b < p.n ==> s.pins[b] == 0)
    && Owing(s, p) && p.d != 0 && p.turns < MANY
  }

  /** What is in use is held, and is no home. */
  predicate Alone(p: Progress, us: seq<Use>) {
    |us| <= 1 && forall u :: 0 <= u < |us| ==>
      us[u].stage == Holding && !(us[u].key.dev == p.d && us[u].key.blockno in p.f)
  }

  /** What is held has been read. */
  predicate Read(s: State, us: seq<Use>) {
    forall u :: 0 <= u < |us| && us[u].stage == Holding ==> us[u].buf < |s.bufs| && s.bufs[us[u].buf].valid
  }

  // ---- counting buffers ---------------------------------------------------------------------

  /** Different homes owe in different buffers. */
  lemma {:induction false} OwersCount(s: State, d: nat, f: set<nat>, others: set<nat>)
    requires Sane(s) && forall h :: h in f ==> exists b :: Owes(s, b, Key(d, h))
    requires forall b :: b in others ==> b < |s.bufs| && forall h :: h in f ==> !Owes(s, b, Key(d, h))
    ensures |f| + |others| <= |s.bufs|
    decreases |f|
  {
    if f == {} {
      RangeCount(|s.bufs|, others);
    } else {
      var h :| h in f;
      var b: nat :| Owes(s, b, Key(d, h));
      OwersCount(s, d, f - {h}, others + {b});
    }
  }

  /** There are no more buffers of homes than homes. */
  lemma {:induction false} HomesCount(s: State, d: nat, f: set<nat>, bs: set<nat>)
    requires Exclusive(s) && d != 0
    requires forall b :: b in bs ==> b < |s.bufs| && s.bufs[b].key.dev == d && s.bufs[b].key.blockno in f
    ensures |bs| <= |f|
    decreases |bs|
  {
    if bs != {} {
      var b :| b in bs;
      var h := s.bufs[b].key.blockno;
      forall c | c in bs - {b} ensures s.bufs[c].key.blockno in f - {h} {
        assert s.bufs[c].key != s.bufs[b].key;
      }
      HomesCount(s, d, f - {h}, bs - {b});
    }
  }

  /** No buffer that seems unused owes, as long as what is in use is no home. */
  lemma AloneSettled(s: State, p: Progress, us: seq<Use>)
    requires At(s, p, us) && Alone(p, us)
    ensures Settled(s)
    ensures forall b: nat :: b < p.n ==>
              (s.bufs[b].refcnt == 0 <==> s.owe[b] == 0 && forall u :: 0 <= u < |us| ==> us[u].buf != b)
  {
    hide Listed, Coherent;
    forall b: nat | b < p.n
      ensures s.bufs[b].refcnt == 0 <==> s.owe[b] == 0 && forall u :: 0 <= u < |us| ==> us[u].buf != b
    {
      CountIs(s, b);
      if us != [] {
        assert us[1..] == [];
      }
    }
  }

  lemma NoneFree(s: State, k: Key)
    requires Listed(s) && !s.panicked && DoGet(s, k).panicked
    ensures forall b :: 0 <= b < |s.bufs| ==> s.bufs[b].key != k && s.bufs[b].refcnt > 0
  {
    NotCached(s, k);
    var refs := OrderRefs(s);
    forall b: nat | b < |s.bufs| ensures s.bufs[b].refcnt > 0 {
      assert b in s.order;
      var j :| 0 <= j < |s.order| && s.order[j] == b;
      assert refs[j] == s.bufs[b].refcnt;
    }
  }

  /** bget panics only if the homes installed, and what is in use, take up all buffers. */
  lemma GetPanics(s: State, p: Progress, us: seq<Use>, k: Key)
    requires At(s, p, us) && Alone(p, us) && DoGet(s, k).panicked
    ensures p.n <= |p.f| + |us| && forall b :: 0 <= b < p.n ==> s.bufs[b].key != k
  {
    hide Listed, Counted, Exclusive, Coherent, DoGet;
    AloneSettled(s, p, us);
    NoneFree(s, k);
    var owers := set b: nat | b < p.n && s.owe[b] > 0;
    var used := set u | 0 <= u < |us| :: us[u].buf;
    HomesCount(s, p.d, p.f, owers);
    assert us != [] ==> used == {us[0].buf};
    forall b: nat | b < p.n ensures b in owers + used {
      assert s.bufs[b].refcnt > 0;
    }
    RangeCount(p.n, owers + used);
    UnionCount(owers, used);
  }

  // ---- the steps of boot --------------------------------------------------------------------

  lemma OwingKept(s: State, t: State, p: Progress)
    requires Sane(s) && Sane(t) && Owing(s, p) && |t.bufs| == |s.bufs| && t.owe == s.owe
    requires forall b :: 0 <= b < |s.bufs| && s.owe[b] > 0 ==> t.bufs[b].key == s.bufs[b].key
    ensures Owing(t, p)
  {
    assert forall b: nat, k :: Owes(s, b, k) ==> Owes(t, b, k);
  }

  lemma GetHits(s: State, p: Progress, us: seq<Use>, k: Key, b: nat)
    requires At(s, p, us) && Alone(p, us) && Enabled(s, Get(k)) && b < p.n && s.bufs[b].key == k
    requires forall u :: 0 <= u < |us| ==> us[u].key != k
    ensures At(DoHit(s, b, k), p, us + [Use(b, k, Waiting)]) && !DoHit(s, b, k).bufs[b].locked
  {
    hide Listed, Coherent;
    HitInv(s, b, k);
    OwingKept(s, DoHit(s, b, k), p);
    CountIs(s, b);
    assert Count(us, b, true) == 0 by {
      if us != [] {
        assert s.bufs[s.uses[0].buf].key == us[0].key;
        assert us[1..] == [];
      }
    }
  }

  lemma GetRecycles(s: State, p: Progress, us: seq<Use>, k: Key, b: nat)
    requires At(s, p, us) && Enabled(s, Get(k)) && b < p.n && s.bufs[b].refcnt == 0 && s.owe[b] == 0
    requires forall c :: 0 <= c < |s.bufs| ==> s.bufs[c].key != k
    ensures At(DoRecycle(s, b, k), p, us + [Use(b, k, Waiting)]) && !DoRecycle(s, b, k).bufs[b].locked
  {
    hide Listed, Exclusive, Coherent;
    RecycleInv(s, b, k);
    OwingKept(s, DoRecycle(s, b, k), p);
    IdleBuffer(s, b);
  }

  /** What bget gives boot: a buffer b for block k that nobody holds. */
  ghost predicate Given(s: State, t: State, p: Progress, us: seq<Use>, k: Key, b: nat) {
    && b < p.n && At(t, p, us + [Use(b, k, Waiting)]) && !t.bufs[b].locked && t.owe == s.owe
    && |s.bufs| == |t.bufs| && forall c :: 0 <= c < |s.bufs| && c != b ==> t.bufs[c] == s.bufs[c]
  }

  lemma Gets(s: State, p: Progress, us: seq<Use>, k: Key) returns (b: nat)
    requires At(s, p, us) && Alone(p, us) && k.dev != 0 && k in p.keys && forall u :: 0 <= u < |us| ==> us[u].key != k
    ensures Enabled(s, Get(k))
    ensures var t := Do(s, Get(k));
            if t.panicked then p.n <= |p.f| + |us| && forall b :: 0 <= b < p.n ==> s.bufs[b].key != k
            else Given(s, t, p, us, k, b)
  {
    hide Listed, Counted, Exclusive, Coherent, Owing, Settled;
    AloneSettled(s, p, us);
    var i, v := FirstWith(OrderKeys(s), k), LastZero(OrderRefs(s));
    b := 0;
    if i >= 0 {
      b := s.order[i];
      assert OrderKeys(s)[i] == s.bufs[b].key;
      GetHits(s, p, us, k, b);
    } else if v >= 0 {
      b := s.order[v];
      assert OrderRefs(s)[v] == s.bufs[b].refcnt;
      NotCached(s, k);
      GetRecycles(s, p, us, k, b);
    } else {
      GetPanics(s, p, us, k);
    }
  }

  lemma Locks(s: State, p: Progress, us: seq<Use>, u: nat)
    requires At(s, p, us) && u < |us| && us[u].stage == Waiting && us[u].buf < p.n && !s.bufs[us[u].buf].locked
    ensures Enabled(s, Lock(u)) && At(Do(s, Lock(u)), p, us[u := us[u].(stage := Holding)])
    ensures Do(s, Lock(u)).owe == s.owe
    ensures forall c :: 0 <= c < |s.bufs| ==> Do(s, Lock(u)).bufs[c].valid == s.bufs[c].valid
  {
    hide Inv;
    KeepsInv(s, Lock(u));
    OwingKept(s, Do(s, Lock(u)), p);
  }

  lemma Fills(s: State, p: Progress, us: seq<Use>, u: nat)
    requires At(s, p, us) && u < |us| && us[u].stage == Holding
    ensures Enabled(s, Fill(u)) && At(Do(s, Fill(u)), p, us) && Do(s, Fill(u)).owe == s.owe
    ensures us[u].buf < p.n && Do(s, Fill(u)).bufs[us[u].buf].valid
    ensures forall c :: 0 <= c < |s.bufs| && c != us[u].buf ==> Do(s, Fill(u)).bufs[c] == s.bufs[c]
  {
    hide Listed, Counted, Coherent;
    KeepsInv(s, Fill(u));
    OwingKept(s, Do(s, Fill(u)), p);
  }

  /** A change that is written at once. */
  lemma Puts(s: State, p: Progress, us: seq<Use>, u: nat, x: Block)
    requires At(s, p, us) && u < |us| && us[u].stage == Holding && us[u].buf < p.n && s.bufs[us[u].buf].valid
    ensures Enabled(s, Modify(u, x)) && Enabled(Do(s, Modify(u, x)), Write(u))
    ensures var t := Do(Do(s, Modify(u, x)), Write(u));
            At(t, p, us) && t.owe == s.owe && forall c :: 0 <= c < |s.bufs| ==> t.bufs[c].valid == s.bufs[c].valid
  {
    hide Listed, Counted;
    var m := Do(s, Modify(u, x));
    KeepsInv(s, Modify(u, x));
    KeepsInv(m, Write(u));
    OwingKept(s, Do(m, Write(u)), p);
  }

  /** bunpin of home h. */
  lemma Drops(s: State, p: Progress, us: seq<Use>, u: nat, h: nat)
    requires At(s, p, us) && u < |us| && us[u].stage == Holding && us[u].key == Key(p.d, h) && p.turns + 1 < MANY
    ensures Enabled(s, Drop(u)) && us[u].buf < p.n
    ensures var t := Do(s, Drop(u));
            && At(t, p.(f := p.f + {h}, turns := p.turns + 1), us)
            && forall c :: 0 <= c < |s.bufs| ==> t.bufs[c].valid == s.bufs[c].valid
  {
    hide Listed, Counted, Coherent;
    var t, b := Do(s, Drop(u)), us[u].buf;
    KeepsInv(s, Drop(u));
    assert Owes(t, b, Key(p.d, h));
    assert forall c: nat, k :: Owes(s, c, k) ==> Owes(t, c, k);
  }

  lemma Unlocks(s: State, p: Progress, us: seq<Use>, u: nat)
    requires At(s, p, us) && u < |us| && us[u].stage == Holding && us[u].buf < p.n && s.bufs[us[u].buf].valid
    ensures Enabled(s, Unlock(u)) && At(Do(s, Unlock(u)), p, us[u := us[u].(stage := Releasing)])
    ensures Do(s, Unlock(u)).owe == s.owe
    ensures forall c :: 0 <= c < |s.bufs| ==> Do(s, Unlock(u)).bufs[c].valid == s.bufs[c].valid
  {
    hide Listed, Counted;
    KeepsInv(s, Unlock(u));
    OwingKept(s, Do(s, Unlock(u)), p);
  }

  lemma Releases(s: State, p: Progress, us: seq<Use>, u: nat)
    requires At(s, p, us) && u < |us| && us[u].stage == Releasing
    ensures Enabled(s, Release(u)) && At(Do(s, Release(u)), p, Without(us, u)) && Do(s, Release(u)).owe == s.owe
    ensures forall c :: 0 <= c < |s.bufs| ==> Do(s, Release(u)).bufs[c].valid == s.bufs[c].valid
  {
    hide Listed, Counted, Exclusive, Coherent, DoRelease;
    KeepsInv(s, Release(u));
    InvSane(Do(s, Release(u)));
    ReleaseEffect(s, u);
    OwingKept(s, Do(s, Release(u)), p);
  }

  // ---- bread, brelse, and the turns of recovery -----------------------------------------------

  lemma Extend(s: State, steps: seq<Step>, m: State, step: Step)
    requires Reaches(s, steps, m) && Enabled(m, step)
    ensures Reaches(s, steps + [step], Do(m, step))
  {
    hide Enabled, Do, Reaches;
    ReachesOne(m, step);
    ReachesJoin(s, steps, m, [step], Do(m, step));
  }

  /** What bread has done: t has run out of buffers, or holds block k in buffer b. */
  ghost predicate Bread(s: State, t: State, p: Progress, us: seq<Use>, k: Key, b: nat) {
    if t.panicked then p.n <= |p.f| + |us| && |s.bufs| == p.n && forall c :: 0 <= c < p.n ==> s.bufs[c].key != k
    else At(t, p, us + [Use(b, k, Holding)]) && Read(t, us + [Use(b, k, Holding)]) && t.owe == s.owe
  }

  lemma Breads(s: State, p: Progress, us: seq<Use>, k: Key) returns (b: nat, t: State)
    requires At(s, p, us) && Alone(p, us) && Read(s, us) && k.dev != 0 && k in p.keys
    requires forall u :: 0 <= u < |us| ==> us[u].key != k
    ensures Reaches(s, [Get(k), Lock(|us|), Fill(|us|)], t) && Bread(s, t, p, us, k, b)
  {
    hide Inv, Owing, Enabled, Do;
    var u := |us|;
    b := Gets(s, p, us, k);
    t := Do(s, Get(k));
    ReachesOne(s, Get(k));
    if t.panicked {
      PanicStays(s, [Get(k)], t, [Lock(u), Fill(u)]);
    } else {
      var m := t;
      var vs := us + [Use(b, k, Waiting)];
      Locks(m, p, vs, u);
      Extend(s, [Get(k)], m, Lock(u));
      var w := Do(m, Lock(u));
      var ws := us + [Use(b, k, Holding)];
      assert vs[u := vs[u].(stage := Holding)] == ws;
      Fills(w, p, ws, u);
      Extend(s, [Get(k)] + [Lock(u)], w, Fill(u));
      t := Do(w, Fill(u));
      assert [Get(k)] + [Lock(u)] + [Fill(u)] == [Get(k), Lock(u), Fill(u)];
      ReadMore(s, m, w, t, p, us, k, b);
    }
  }

  lemma PanicStays(s: State, steps: seq<Step>, t: State, more: seq<Step>)
    requires Reaches(s, steps, t) && t.panicked
    ensures Reaches(s, steps + more, t)
  {
    hide Enabled, Do;
    assert Reaches(t, more, t);
    ReachesJoin(s, steps, t, more, t);
  }

  lemma ReadMore(s: State, m: State, w: State, t: State, p: Progress, us: seq<Use>, k: Key, b: nat)
    requires Read(s, us) && Given(s, m, p, us, k, b) && |s.bufs| == |m.bufs| == |w.bufs| == |t.bufs| && b < |s.bufs|
    requires (forall u :: 0 <= u < |us| ==> us[u].key != k) && Inv(m)
    requires forall c :: 0 <= c < |s.bufs| ==> w.bufs[c].valid == m.bufs[c].valid
    requires forall c :: 0 <= c < |s.bufs| && c != b ==> t.bufs[c] == w.bufs[c]
    requires t.bufs[b].valid
    ensures Read(t, us + [Use(b, k, Holding)])
  {
    hide Listed, Counted, Coherent, Owing;
    forall u | 0 <= u < |us| && us[u].stage == Holding ensures us[u].buf < |t.bufs| && t.bufs[us[u].buf].valid {
      assert m.uses[u] == us[u] && m.uses[|us|] == Use(b, k, Waiting);
    }
  }

  lemma Brelses(s: State, p: Progress, us: seq<Use>, u: nat) returns (t: State)
    requires At(s, p, us) && Read(s, us) && u < |us| && us[u].stage == Holding
    ensures Reaches(s, [Unlock(u), Release(u)], t) && At(t, p, Without(us, u)) && Read(t, Without(us, u))
    ensures t.owe == s.owe
  {
    hide Inv, Owing, Enabled, Do;
    var vs := us[u := us[u].(stage := Releasing)];
    Unlocks(s, p, us, u);
    ReachesOne(s, Unlock(u));
    var m := Do(s, Unlock(u));
    Releases(m, p, vs, u);
    Extend(s, [Unlock(u)], m, Release(u));
    t := Do(m, Release(u));
    assert Without(vs, u) == Without(us, u);
    assert [Unlock(u)] + [Release(u)] == [Unlock(u), Release(u)];
  }

  /** Reading one block changes nothing that matters. */
  lemma Reads(s: State, p: Progress, k: Key) returns (t: State)
    requires At(s, p, []) && |p.f| < p.n && k.dev != 0 && k in p.keys
    ensures Reaches(s, Reading(k), t) && At(t, p, []) && t.owe == s.owe
  {
    hide At, Reaches;
    var b, m := Breads(s, p, [], k);
    var us := [] + [Use(b, k, Holding)];
    t := Brelses(m, p, us, 0);
    ReachesJoin(s, [Get(k), Lock(0), Fill(0)], m, [Unlock(0), Release(0)], t);
    assert [Get(k), Lock(0), Fill(0)] + [Unlock(0), Release(0)] == Reading(k);
    assert Without(us, 0) == [];
  }

  /** write_head. */
  lemma Heads(s: State, p: Progress, k: Key, x: Block) returns (t: State)
    requires At(s, p, []) && |p.f| < p.n && k.dev != 0 && k in p.keys
    ensures Reaches(s, Heading(k, x), t) && At(t, p, []) && t.owe == s.owe
  {
    hide Inv, Owing, Enabled, Do, Reaches;
    var b, m := Breads(s, p, [], k);
    var us, bread := [] + [Use(b, k, Holding)], [Get(k), Lock(0), Fill(0)];
    Puts(m, p, us, 0, x);
    var w := Do(m, Modify(0, x));
    Extend(s, bread, m, Modify(0, x));
    Extend(s, bread + [Modify(0, x)], w, Write(0));
    var y := Do(w, Write(0));
    t := Brelses(y, p, us, 0);
    ReachesJoin(s, bread + [Modify(0, x)] + [Write(0)], y, [Unlock(0), Release(0)], t);
    assert bread + [Modify(0, x)] + [Write(0)] + [Unlock(0), Release(0)] == Heading(k, x);
    assert Without(us, 0) == [];
  }

  /** Two buffers that are not those of installed homes. */
  lemma TwoMore(m: State, p: Progress, us: seq<Use>)
    requires At(m, p, us) && |us| == 2 && us[0].key != us[1].key
    requires forall u :: 0 <= u < 2 ==> !(us[u].key.dev == p.d && us[u].key.blockno in p.f)
    ensures |p.f| + 2 <= p.n
  {
    hide Listed, Counted, Coherent;
    var a, b := m.uses[0].buf, m.uses[1].buf;
    assert m.bufs[a].key == us[0].key && m.bufs[b].key == us[1].key;
    OwersCount(m, p.d, p.f, {a, b});
  }

  /** What a turn of install_trans has done. */
  ghost predicate Installed(t: State, q: Progress) {
    if t.panicked then q.n <= |q.f| else At(t, q, []) && |q.f| < q.n
  }

  function After(p: Progress, h: nat): (q: Progress) {
    p.(f := p.f + {h}, turns := p.turns + 1)
  }

  /** The second half of a turn, from where both blocks are held. */
  lemma InstallRest(m: State, p: Progress, l: Key, h: nat, a: nat, b: nat, x: Block) returns (t: State)
    requires var us := [Use(a, l, Holding), Use(b, Key(p.d, h), Holding)]; At(m, p, us) && Read(m, us)
    requires p.turns + 1 < MANY
    ensures Reaches(m, [Modify(1, x), Write(1), Drop(1), Unlock(0), Release(0), Unlock(0), Release(0)], t)
    ensures At(t, After(p, h), [])
  {
    hide Inv, Owing, Enabled, Do, Reaches;
    var us, q := [Use(a, l, Holding), Use(b, Key(p.d, h), Holding)], After(p, h);
    Puts(m, p, us, 1, x);
    ReachesOne(m, Modify(1, x));
    var w := Do(m, Modify(1, x));
    Extend(m, [Modify(1, x)], w, Write(1));
    var y := Do(w, Write(1));
    Drops(y, p, us, 1, h);
    Extend(m, [Modify(1, x)] + [Write(1)], y, Drop(1));
    var z := Do(y, Drop(1));
    var steps := [Modify(1, x)] + [Write(1)] + [Drop(1)];
    var v := Brelses(z, q, us, 0);
    ReachesJoin(m, steps, z, [Unlock(0), Release(0)], v);
    assert Without(us, 0) == [us[1]];
    t := Brelses(v, q, [us[1]], 0);
    ReachesJoin(m, steps + [Unlock(0), Release(0)], v, [Unlock(0), Release(0)], t);
    assert Without([us[1]], 0) == [];
    assert steps + [Unlock(0), Release(0)] + [Unlock(0), Release(0)]
           == [Modify(1, x), Write(1), Drop(1), Unlock(0), Release(0), Unlock(0), Release(0)];
  }

  lemma NoSuchHome(m: State, p: Progress, us: seq<Use>, h: nat)
    requires At(m, p, us) && forall c :: 0 <= c < p.n ==> m.bufs[c].key != Key(p.d, h)
    ensures h !in p.f
  {
    hide Inv;
  }

  /** The first half of a turn: both blocks are held, or there is no buffer for the second. */
  lemma InstallFirst(s: State, p: Progress, l: Key, h: nat) returns (a: nat, b: nat, w: State)
    requires At(s, p, []) && |p.f| < p.n && l.dev == p.d && l in p.keys
    requires Key(p.d, h) in p.keys && l.blockno !in p.f && l.blockno != h
    ensures Reaches(s, [Get(l), Lock(0), Fill(0), Get(Key(p.d, h)), Lock(1), Fill(1)], w)
    ensures var us := [Use(a, l, Holding), Use(b, Key(p.d, h), Holding)];
            if w.panicked then p.n <= |p.f| + 1 && h !in p.f
            else At(w, p, us) && Read(w, us)
  {
    hide Inv, Owing, Enabled, Do, Reaches;
    var m;
    a, m := Breads(s, p, [], l);
    var us := [Use(a, l, Holding)];
    assert [] + us == us;
    b, w := Breads(m, p, us, Key(p.d, h));
    var first, second := [Get(l), Lock(0), Fill(0)], [Get(Key(p.d, h)), Lock(1), Fill(1)];
    ReachesJoin(s, first, m, second, w);
    assert first + second == [Get(l), Lock(0), Fill(0), Get(Key(p.d, h)), Lock(1), Fill(1)];
    if w.panicked {
      NoSuchHome(m, p, us, h);
    }
  }

  lemma InstallOne(s: State, p: Progress, l: Key, h: nat, x: Block) returns (t: State)
    requires At(s, p, []) && |p.f| < p.n && p.turns + 1 < MANY && l.dev == p.d && l in p.keys
    requires Key(p.d, h) in p.keys && l.blockno !in p.f && l.blockno != h
    ensures Reaches(s, Installing(l, Key(p.d, h), x), t) && Installed(t, After(p, h))
  {
    hide At, Read, Reaches;
    var a, b, w := InstallFirst(s, p, l, h);
    var first := [Get(l), Lock(0), Fill(0), Get(Key(p.d, h)), Lock(1), Fill(1)];
    var rest := [Modify(1, x), Write(1), Drop(1), Unlock(0), Release(0), Unlock(0), Release(0)];
    assert first + rest == Installing(l, Key(p.d, h), x);
    if w.panicked {
      PanicStays(s, first, w, rest);
      t := w;
    } else {
      if h !in p.f {
        TwoMore(w, p, [Use(a, l, Holding), Use(b, Key(p.d, h), Holding)]);
      }
      t := InstallRest(w, p, l, h, a, b, x);
      ReachesJoin(s, first, w, rest, t);
      assert h in p.f ==> p.f + {h} == p.f;
      NotPanicked(t, After(p, h));
    }
  }

  lemma NotPanicked(t: State, p: Progress)
    requires At(t, p, [])
    ensures !t.panicked
  {
  }

  // ---- the whole of boot --------------------------------------------------------------------

  ghost function Numbers(bs: seq<Word>): (f: set<nat>) {
    set b | b in bs
  }

  lemma {:induction false} InstallAll(s: State, p: Progress, disk: map<Key, Block>, a: Area, bs: seq<Word>, i: nat)
    returns (t: State)
    requires At(s, p, []) && p.f == {} && p.turns == 0 && 0 < p.n && p.keys == disk.Keys
    requires i <= |bs| < MANY && |bs| < a.size
    requires forall j: nat :: 0 < j <= |bs| ==> LogKey(p.d, a.start, j) in disk
    requires forall j :: 0 <= j < |bs| ==> Key(p.d, bs[j]) in disk && !InLog(a, bs[j])
    ensures Reaches(s, Installs(disk, p.d, a.start, bs, i), t)
    ensures var q := p.(f := Numbers(bs[..i]), turns := i);
            if t.panicked then q.n <= |Numbers(bs)| else Installed(t, q)
  {
    hide At, Reaches;
    if i == 0 {
      t := s;
      ReachesNothing(s);
      NotPanicked(s, p);
      assert Numbers(bs[..0]) == {};
    } else {
      var m := InstallAll(s, p, disk, a, bs, i - 1);
      var q, h, l := p.(f := Numbers(bs[..i - 1]), turns := i - 1), bs[i - 1], LogKey(p.d, a.start, i);
      var turn := Installing(l, Key(p.d, h), disk[l]);
      assert bs[..i] == bs[..i - 1] + [h];
      assert Numbers(bs[..i]) == q.f + {h};
      if m.panicked {
        PanicStays(s, Installs(disk, p.d, a.start, bs, i - 1), m, turn);
        t := m;
      } else {
        t := InstallOne(m, q, l, h, disk[l]);
        ReachesJoin(s, Installs(disk, p.d, a.start, bs, i - 1), m, turn, t);
        if t.panicked {
          SubsetCount(Numbers(bs[..i]), Numbers(bs));
        }
      }
    }
  }

  lemma ReachesNothing(s: State)
    ensures Reaches(s, [], s)
  {
  }

  lemma InitAt(n: nat, disk: map<Key, Block>, d: nat)
    requires d != 0
    ensures At(Init(n, disk), Progress(n, disk.Keys, d, {}, 0), [])
  {
    InitInv(n, disk);
  }

  lemma Boots(n: nat, disk: map<Key, Block>, d: nat, a: Area) returns (t: State)
    requires Bootable(disk, d, a) && 0 < n
    ensures Reaches(Init(n, disk), BootSteps(disk, d, a), t)
    ensures var f := Numbers(Listing(disk, d, a));
            if t.panicked then n <= |f|
            else At(t, Progress(n, disk.Keys, d, f, |Listing(disk, d, a)|), []) && |f| < n
  {
    hide At, Reaches, Init;
    var bs, head, p := Listing(disk, d, a), Key(d, a.start), Progress(n, disk.Keys, d, {}, 0);
    var q, x := p.(f := Numbers(bs), turns := |bs|), WithHead(disk[head], []);
    var s0 := Init(n, disk);
    InitAt(n, disk, d);
    var s1 := Reads(s0, p, Key(d, 1));
    var s2 := Reads(s1, p, head);
    ReachesJoin(s0, Reading(Key(d, 1)), s1, Reading(head), s2);
    var s3 := InstallAll(s2, p, disk, a, bs, |bs|);
    assert bs[..|bs|] == bs;
    var read, turns := Reading(Key(d, 1)) + Reading(head), Installs(disk, d, a.start, bs, |bs|);
    ReachesJoin(s0, read, s2, turns, s3);
    if s3.panicked {
      t := s3;
      PanicStays(s0, read + turns, s3, Heading(head, x));
    } else {
      t := Heads(s3, q, head, x);
      ReachesJoin(s0, read + turns, s3, Heading(head, x), t);
      NotPanicked(t, q);
    }
  }

  lemma {:induction false} ReachesOnly(s: State, steps: seq<Step>, t: State, u: State)
    requires Reaches(s, steps, t) && Reaches(s, steps, u)
    ensures t == u
    decreases |steps|
  {
    hide Do, Enabled;
    if !s.panicked && steps != [] {
      ReachesOnly(Do(s, steps[0]), steps[1..], t, u);
    }
  }

  /** Recovery runs out of buffers, and boot panics, if and only if the list names at least as
      many different blocks as there are buffers. */
  lemma BootPanicsExactly(n: nat, disk: map<Key, Block>, d: nat, a: Area, t: State)
    requires Bootable(disk, d, a) && 0 < n && Reaches(Init(n, disk), BootSteps(disk, d, a), t)
    ensures t.panicked <==> n <= |Numbers(Listing(disk, d, a))|
  {
    hide At, Reaches, Init;
    var u := Boots(n, disk, d, a);
    ReachesOnly(Init(n, disk), BootSteps(disk, d, a), t, u);
  }

  // ---- what happens after such a boot ---------------------------------------------------------

  /** The buffer that use 0 holds has become another block's. */
  predicate Lost(t: State) {
    && t.uses != [] && t.uses[0].stage == Holding && t.uses[0].buf < |t.bufs|
    && t.bufs[t.uses[0].buf].key != t.uses[0].key
  }

  ghost function Real(disk: map<Key, Block>): (ks: set<Key>) {
    set k | k in disk && k.dev != 0
  }

  ghost function Zeros(s: State): (z: set<nat>) {
    set b: nat | b < |s.bufs| && s.bufs[b].refcnt == 0
  }

  /** Use 0 holds buffer b, whose count is 0. */
  ghost predicate Doomed(s: State, k: Key, b: nat) {
    && Listed(s) && !s.panicked && b < |s.bufs| && s.bufs[b].key == k && s.bufs[b].refcnt == 0
    && s.uses != [] && s.uses[0] == Use(b, k, Holding)
    && |s.uses| + |Zeros(s)| <= MANY && |Real(s.disk)| > |s.bufs|
  }

  lemma {:induction false} KeysOf(bufs: seq<Buf>)
    ensures |set b | b in bufs :: b.key| <= |bufs|
  {
    if bufs != [] {
      var rest := bufs[1..];
      KeysOf(rest);
      assert (set b | b in bufs :: b.key) == (set b | b in rest :: b.key) + {bufs[0].key};
    }
  }

  /** Some block is in no buffer. */
  lemma Uncached(s: State) returns (k: Key)
    requires |Real(s.disk)| > |s.bufs|
    ensures k in Real(s.disk) && forall c :: 0 <= c < |s.bufs| ==> s.bufs[c].key != k
  {
    var keys := set b | b in s.bufs :: b.key;
    KeysOf(s.bufs);
    if forall x :: x in Real(s.disk) ==> x in keys {
      SubsetCount(Real(s.disk), keys);
    }
    k :| k in Real(s.disk) && k !in keys;
    forall c | 0 <= c < |s.bufs| ensures s.bufs[c].key != k {
      assert s.bufs[c] in s.bufs;
    }
  }

  /** A miss takes a buffer with count 0, and no block from any other. */
  lemma Misses(s: State, k: Key, b: nat, o: Key) returns (c: nat)
    requires Doomed(s, k, b) && o.dev != 0 && o in s.disk && forall c :: 0 <= c < |s.bufs| ==> s.bufs[c].key != o
    ensures Enabled(s, Get(o)) && c < |s.bufs| && s.bufs[c].refcnt == 0 && Do(s, Get(o)) == DoRecycle(s, c, o)
  {
    var i, v := FirstWith(OrderKeys(s), o), LastZero(OrderRefs(s));
    assert b in Zeros(s);
    assert b in s.order;
    var j :| 0 <= j < |s.order| && s.order[j] == b;
    assert OrderRefs(s)[j] == 0;
    assert forall x :: 0 <= x < |s.order| ==> OrderKeys(s)[x] != o;
    c := s.order[v];
    assert OrderRefs(s)[v] == s.bufs[c].refcnt;
  }

  lemma StillDoomed(s: State, k: Key, b: nat, o: Key, c: nat)
    requires Doomed(s, k, b) && c < |s.bufs| && s.bufs[c].refcnt == 0 && c != b
    ensures Doomed(DoRecycle(s, c, o), k, b) && |Zeros(DoRecycle(s, c, o))| < |Zeros(s)|
  {
    ListedHit(s, c, o);
    assert Zeros(DoRecycle(s, c, o)) == Zeros(s) - {c};
  }

  /** Sooner or later a miss takes the held buffer. */
  lemma {:induction false} Dooms(s: State, k: Key, b: nat) returns (steps: seq<Step>, t: State)
    requires Doomed(s, k, b)
    ensures Execution(s, steps, t) && Ordinary(steps) && Lost(t)
    decreases |Zeros(s)|
  {
    hide Listed, Do, DoRecycle, Enabled, Zeros;
    var o := Uncached(s);
    var c := Misses(s, k, b, o);
    var m := Do(s, Get(o));
    if c == b {
      steps, t := [Get(o)], m;
      RunsOne(s, Get(o));
      LostNow(s, k, b, o);
    } else {
      StillDoomed(s, k, b, o, c);
      var more;
      more, t := Dooms(m, k, b);
      steps := [Get(o)] + more;
      assert steps[1..] == more;
    }
  }

  lemma LostNow(s: State, k: Key, b: nat, o: Key)
    requires Doomed(s, k, b) && o != k
    ensures Lost(DoRecycle(s, b, o))
  {
  }

  /** j processes are in bget for block k, which buffer b holds. */
  function Asked(s: State, b: nat, k: Key, j: nat): (t: State)
    requires b < |s.bufs| == |s.owe|
  {
    SetBuf(s, b, s.bufs[b].(refcnt := Wrap(j - s.owe[b]))).(uses := seq(j, _ => Use(b, k, Waiting)))
  }

  lemma AsksAgain(s: State, p: Progress, b: nat, k: Key, j: nat)
    requires At(s, p, []) && b < p.n && s.bufs[b].key == k && k.dev != 0 && k in p.keys && j < MANY
    ensures Enabled(Asked(s, b, k, j), Get(k)) && Do(Asked(s, b, k, j), Get(k)) == Asked(s, b, k, j + 1)
  {
    hide Counted, Coherent, Owing;
    var t := Asked(s, b, k, j);
    assert Sane(t);
    var keys, i := OrderKeys(t), FirstWith(OrderKeys(t), k);
    assert b in s.order;
    var x :| 0 <= x < |s.order| && s.order[x] == b;
    assert keys[x] == k;
    assert keys[i] == t.bufs[t.order[i]].key == s.bufs[s.order[i]].key;
    assert s.order[i] == b;
    WrapStep(j - s.owe[b]);
    assert seq(j + 1, _ => Use(b, k, Waiting)) == seq(j, _ => Use(b, k, Waiting)) + [Use(b, k, Waiting)];
  }

  lemma {:induction false} Asks(s: State, p: Progress, b: nat, k: Key, j: nat) returns (steps: seq<Step>)
    requires At(s, p, []) && b < p.n && s.bufs[b].key == k && k.dev != 0 && k in p.keys && j <= MANY
    ensures Execution(s, steps, Asked(s, b, k, j)) && Ordinary(steps)
  {
    hide Do, Enabled, Asked, Inv;
    if j == 0 {
      steps := [];
      NobodyAsks(s, p, b, k);
    } else {
      steps := Asks(s, p, b, k, j - 1);
      AsksAgain(s, p, b, k, j - 1);
      RunsMore(s, steps, Asked(s, b, k, j - 1), Get(k));
      steps := steps + [Get(k)];
    }
  }

  lemma NobodyAsks(s: State, p: Progress, b: nat, k: Key)
    requires At(s, p, []) && b < p.n
    ensures Asked(s, b, k, 0) == s
  {
    hide Listed, Exclusive, Coherent;
    CountIs(s, b);
    assert s.bufs[b := s.bufs[b]] == s.bufs;
  }

  /** As many processes ask for the block as its buffer owes, and the first gets the lock. */
  lemma LocksDoomed(s: State, p: Progress, b: nat, k: Key)
    requires At(s, p, []) && b < p.n && s.bufs[b].key == k && k.dev != 0 && 0 < s.owe[b] < MANY - p.n
    requires |Real(s.disk)| > p.n
    ensures var w := Asked(s, b, k, s.owe[b]); Enabled(w, Lock(0)) && Doomed(Do(w, Lock(0)), k, b)
  {
    hide Exclusive, Coherent, Owing;
    var w := Asked(s, b, k, s.owe[b]);
    CountIs(s, b);
    var t := Do(w, Lock(0));
    RangeCount(p.n, Zeros(t));
    assert Listed(t);
  }

  /** From a quiet state with a buffer that owes, ordinary steps take a buffer from its holder. */
  lemma Loses(s: State, p: Progress, b: nat) returns (steps: seq<Step>, t: State)
    requires At(s, p, []) && b < p.n && 0 < s.owe[b] && s.bufs[b].key in p.keys && p.turns + p.n < MANY
    requires |Real(s.disk)| > p.n
    ensures Execution(s, steps, t) && Ordinary(steps) && Lost(t)
  {
    hide Inv, Do, Enabled, Asked, Lost, Doomed, Execution;
    var k, m := s.bufs[b].key, s.owe[b];
    var asks := Asks(s, p, b, k, m);
    var w := Asked(s, b, k, m);
    LocksDoomed(s, p, b, k);
    RunsMore(s, asks, w, Lock(0));
    var more;
    more, t := Dooms(Do(w, Lock(0)), k, b);
    RunsOn(s, asks + [Lock(0)], Do(w, Lock(0)), more, t);
    steps := asks + [Lock(0)] + more;
  }

  // ---- exactly when ---------------------------------------------------------------------------

  /** A run of the kernel from boot on: recovery, and then ordinary steps. */
  ghost predicate RunsBooted(n: nat, disk: map<Key, Block>, d: nat, a: Area, steps: seq<Step>, t: State)
    requires Bootable(disk, d, a)
  {
    Execution(Init(n, disk), BootSteps(disk, d, a) + steps, t) && Ordinary(steps)
  }

  /** Buffers enough for recovery, and a disk with more blocks than there are buffers. */
  ghost predicate Sized(n: nat, disk: map<Key, Block>, d: nat, a: Area)
    requires Bootable(disk, d, a)
  {
    |Numbers(Listing(disk, d, a))| < n < MANY - LOGSIZE && n < |Real(disk)|
  }

  lemma EmptyBootOrdinary(disk: map<Key, Block>, d: nat, a: Area, steps: seq<Step>)
    requires Bootable(disk, d, a) && Listing(disk, d, a) == [] && Ordinary(steps)
    ensures Ordinary(BootSteps(disk, d, a) + steps)
  {
  }

  /** After a boot that recovered anything, a held buffer can be taken from its holder. */
  lemma HeldBufferLost(n: nat, disk: map<Key, Block>, d: nat, a: Area)
    requires Bootable(disk, d, a) && Sized(n, disk, d, a) && Listing(disk, d, a) != []
    ensures exists steps, t :: RunsBooted(n, disk, d, a, steps, t) && Lost(t)
  {
    hide Inv, Do, Enabled, Lost, Execution, Reaches, Init;
    var bs := Listing(disk, d, a);
    var s := Boots(n, disk, d, a);
    var p := Progress(n, disk.Keys, d, Numbers(bs), |bs|);
    assert bs[0] in Numbers(bs);
    var b: nat :| Owes(s, b, Key(d, bs[0]));
    assert Owes(s, b, Key(d, bs[0]));
    ReachesRuns(Init(n, disk), BootSteps(disk, d, a), s);
    assert Real(s.disk) == Real(disk);
    var steps, t := Loses(s, p, b);
    RunsOn(Init(n, disk), BootSteps(disk, d, a), s, steps, t);
    assert RunsBooted(n, disk, d, a, steps, t);
  }

  /** The cache refines a block map in every run from boot on if and only if boot found an
      empty log. */
  lemma RefinesExactly(n: nat, disk: map<Key, Block>, d: nat, a: Area)
    requires Bootable(disk, d, a) && Sized(n, disk, d, a)
    ensures (forall steps, t :: RunsBooted(n, disk, d, a, steps, t) ==> Refines(t))
            <==> Listing(disk, d, a) == []
  {
    if Listing(disk, d, a) == [] {
      forall steps, t | RunsBooted(n, disk, d, a, steps, t) ensures Refines(t) {
        hide Refines, Execution, Init, BootSteps, Ordinary;
        EmptyBootOrdinary(disk, d, a, steps);
        CacheRefinesBlocks(n, disk, BootSteps(disk, d, a) + steps, t);
      }
    } else {
      HeldBufferLost(n, disk, d, a);
      var steps, t :| RunsBooted(n, disk, d, a, steps, t) && Lost(t);
      LostNotRefined(t);
    }
  }

  lemma LostNotRefined(t: State)
    requires Lost(t)
    ensures !Refines(t)
  {
  }
}
