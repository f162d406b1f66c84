/** The program in the form it has: global variables that its routines update in place.  Every
    routine is proved against the step of the state machine that it carries out. */
module Program {
  import opened Page
  import opened Pool
  import opened Machine
  import opened Samplers
  import opened Holding
  import opened Access
  import opened Memory
  import Patterns
  import opened Phase
  import opened WholeRun
  import opened Touches
  import opened Visits

  /** The streams that rand() yields after each reseeding, by who asks for the how-manieth time, and
      the readings of the clock. */
  datatype World = World(
    typeRand: nat -> Stream, lenRand: (nat, nat) -> Raws, countRand: nat -> Raws, loopRand: nat -> Stream,
    touchRand: nat -> Patterns.Env, late: nat -> bool, clock: nat -> nat -> real)

  /** The first n of the draws that a request can make of its length. */
  ghost function PicksUpTo(w: World, speed: nat, k: nat, n: nat): (picks: seq<nat>)
    requires speed + 1 < TWO_64
    ensures |picks| == n && forall p | p in picks :: p <= speed
    ensures forall j | 0 <= j < n :: picks[j] == RandIntrValue(w.lenRand(k, j), 0, speed)
  {
    if n == 0 then [] else PicksUpTo(w, speed, k, n - 1) + [RandIntrValue(w.lenRand(k, n - 1), 0, speed)]
  }

  ghost function PicksOf(w: World, speed: nat, k: nat): (picks: seq<nat>)
    requires speed + 1 < TWO_64
    ensures |picks| == 10 && forall p | p in picks :: p <= speed
    ensures forall j | 0 <= j < 10 :: picks[j] == RandIntrValue(w.lenRand(k, j), 0, speed)
  {
    PicksUpTo(w, speed, k, 10)
  }

  ghost function DrawOf(w: World, c: Config, k: nat): (d: Draw)
    requires c.speed + 1 < TWO_64
    ensures DrawOk(c, d)
  {
    Draw(if RandLimValue(w.typeRand(k), 2) == 0 then File else Anon, PicksOf(w, c.speed, k))
  }

  ghost function CountOf(w: World, phase: nat): (n: nat)
    ensures 5 <= n <= 18
  {
    RandIntrValue(w.countRand(phase), 5, 18)
  }

  ghost function OracleOf(w: World, c: Config): (o: Oracle)
    requires c.speed + 1 < TWO_64
    ensures OracleOk(c, o)
  {
    hide DrawOf, CountOf;
    var o := Oracle((k: nat) => DrawOf(w, c, k), (p: nat) => CountOf(w, p), w.late);
    assert forall k: nat :: o.draw(k) == DrawOf(w, c, k);
    assert forall p: nat :: o.count(p) == CountOf(w, p);
    o
  }

  // ------------------------------------------------ streams for every oracle

  /** Raw values on which rand_intr returns v steps above its begin. */
  function ConstantRaws(v: nat): Raws
    requires v <= RAND_MAX
  {
    _ => v
  }

  lemma IntrReaches(begin: nat, end: nat, v: nat)
    requires begin <= v <= end && end - begin + 1 <= RAND_MAX
    ensures RandIntrValue(ConstantRaws(v - begin), begin, end) == v
  {
    var range := end - begin + 1;
    QuotientRemainder(range, 0, v - begin);
    IntrLimit(range);
    hide Limit;
    assert Settled(ConstantRaws(v - begin), Limit(range), 0) == 0;
  }

  lemma IntrLimit(range: int)
    requires 1 <= range <= RAND_MAX
    ensures Limit(range) >= range
  {
    DivMod(RAND_MAX, range);
    if RAND_MAX / range < 1 {
      MulLe(RAND_MAX / range, 0, range);
    }
    MulLe(1, RAND_MAX / range, range);
  }

  function LenRaws(c: Config, o: Oracle, k: nat, j: nat): Raws
    requires OracleOk(c, o) && c.speed < RAND_MAX
  {
    assert DrawOk(c, o.draw(k));
    if j < 10 then
      assert o.draw(k).picks[j] in o.draw(k).picks;
      ConstantRaws(o.draw(k).picks[j])
    else ConstantRaws(0)
  }

  function CountRaws(c: Config, o: Oracle, phase: nat): Raws
    requires OracleOk(c, o)
  {
    ConstantRaws(o.count(phase) - 5)
  }

  /** Streams that make the samplers answer as the oracle does, and as loops for the loops of a phase; on
      a clock that ticks once a turn. */
  function WorldFor(c: Config, o: Oracle, loops: nat -> nat): World
    requires OracleOk(c, o) && c.speed < RAND_MAX
  {
    World(k => StreamFor(2, if o.draw(k).typ.File? then 0 else 1), (k, j) => LenRaws(c, o, k, j),
          phase => CountRaws(c, o, phase), phase => StreamFor(3, if loops(phase) < 3 then loops(phase) else 0),
          _ => (_, _, _) => StreamFor(3, 0), o.late, _ => (n: nat) => n as real)
  }

  lemma WorldPicks(c: Config, o: Oracle, loops: nat -> nat, k: nat)
    requires OracleOk(c, o) && c.speed < RAND_MAX
    ensures c.speed + 1 < TWO_64 && PicksOf(WorldFor(c, o, loops), c.speed, k) == o.draw(k).picks
  {
    hide RandIntrValue, ConstantRaws;
    assert DrawOk(c, o.draw(k));
    var picks := PicksOf(WorldFor(c, o, loops), c.speed, k);
    forall j | 0 <= j < 10 ensures picks[j] == o.draw(k).picks[j] {
      assert o.draw(k).picks[j] in o.draw(k).picks;
      IntrReaches(0, c.speed, o.draw(k).picks[j]);
    }
  }

  lemma WorldDraw(c: Config, o: Oracle, loops: nat -> nat, k: nat)
    requires OracleOk(c, o) && c.speed < RAND_MAX
    ensures c.speed + 1 < TWO_64 && DrawOf(WorldFor(c, o, loops), c, k) == o.draw(k)
  {
    hide PicksOf, RandIntrValue, RandLimValue, ConstantRaws, LenRaws, CountRaws;
    WorldPicks(c, o, loops, k);
    LimReaches(2, if o.draw(k).typ.File? then 0 else 1);
  }

  lemma WorldCount(c: Config, o: Oracle, loops: nat -> nat, k: nat)
    requires OracleOk(c, o) && c.speed < RAND_MAX
    ensures CountOf(WorldFor(c, o, loops), k) == o.count(k)
  {
    hide RandIntrValue, ConstantRaws, LenRaws, StreamFor, DrawOk;
    IntrReaches(5, 18, o.count(k));
  }

  lemma WorldLoops(c: Config, o: Oracle, loops: nat -> nat, phase: nat)
    requires OracleOk(c, o) && c.speed < RAND_MAX && loops(phase) < 3
    ensures LoopsOf(WorldFor(c, o, loops))(phase) == loops(phase)
  {
    hide RandLimValue;
    LimReaches(3, loops(phase));
  }

  lemma WorldTurns(w: World, turns: nat -> nat) returns (times: nat -> real, bounds: nat -> nat)
    requires forall job: nat, n: nat :: w.clock(job)(n) == n as real
    ensures Clocked(w, times, bounds) && forall job: nat :: TurnsOf(w, times, bounds)(job) == turns(job)
  {
    times, bounds := (job: nat) => turns(job) as real, turns;
    forall job: nat ensures TurnsOf(w, times, bounds)(job) == turns(job) {
      RunsForUnique(w.clock(job), times(job), turns(job), TurnsOf(w, times, bounds)(job));
    }
  }

  /** No oracle is beyond the samplers, and no numbers of loops and of turns of holding are beyond them and
      the clock: on some streams and clocks they come out just so, and a run of the machine is then a
      run of the program. */
  lemma EveryOracle(c: Config, o: Oracle, loops: nat -> nat, turns: nat -> nat, feed: Feed, s: State, job: nat)
    returns (w: World, times: nat -> real, bounds: nat -> nat)
    requires OracleOk(c, o) && c.speed < RAND_MAX && Shape(c, s) && forall phase :: loops(phase) < 3
    ensures c.speed + 1 < TWO_64 && w.late == o.late
    ensures forall k: nat :: OracleOf(w, c).draw(k) == o.draw(k) && OracleOf(w, c).count(k) == o.count(k)
    ensures Run(c, OracleOf(w, c), feed, s, job) == Run(c, o, feed, s, job)
    ensures forall phase: nat :: LoopsOf(w)(phase) == loops(phase)
    ensures Clocked(w, times, bounds) && forall job: nat :: TurnsOf(w, times, bounds)(job) == turns(job)
  {
    hide DrawOf, CountOf, Machine.Run, OracleOk, Shape, LoopsOf, TurnsOf, Clocked;
    w := WorldFor(c, o, loops);
    forall k: nat ensures OracleOf(w, c).draw(k) == o.draw(k) && OracleOf(w, c).count(k) == o.count(k) {
      WorldDraw(c, o, loops, k);
      WorldCount(c, o, loops, k);
    }
    forall phase: nat ensures LoopsOf(w)(phase) == loops(phase) {
      WorldLoops(c, o, loops, phase);
    }
    times, bounds := WorldTurns(w, turns);
    SameRun(c, OracleOf(w, c), o, feed, s, job);
  }

  // ------------------------------------------------ what the raw values decide

  /** The type of a request: the lower third of the raw range is a file, the middle one anonymous, and the
      rest draws again. */
  lemma TypeDrawn(w: World, c: Config, k: nat, n: nat)
    requires c.speed + 1 < TWO_64
    requires forall m: nat | m < n :: w.typeRand(k).raw(m) >= 1431655764
    requires w.typeRand(k).raw(n) < 1431655764
    ensures OracleOf(w, c).draw(k).typ == if w.typeRand(k).raw(n) < 715827882 then File else Anon
  {
    hide RandLimValue, PicksOf;
    LimFirst(w.typeRand(k), 2, n);
  }

  /** The ten classes that a request can draw: the remainder of the first raw value below the largest
      multiple of the number of classes, or of the 129th. */
  lemma ClassDrawn(w: World, c: Config, k: nat, j: nat, n: nat)
    requires c.speed + 1 < TWO_64 && j < 10
    requires var limit := 2147483647 / (c.speed + 1) * (c.speed + 1);
             && (forall m: nat | m < n :: w.lenRand(k, j)(m) >= limit)
             && n <= 128 && (w.lenRand(k, j)(n) < limit || n == 128)
    ensures |OracleOf(w, c).draw(k).picks| == 10
    ensures OracleOf(w, c).draw(k).picks[j] == w.lenRand(k, j)(n) % (c.speed + 1)
  {
    hide RandIntrValue, RandLimValue;
    IntrFirst(w.lenRand(k, j), 0, c.speed, n);
  }

  /** The requests of a phase without precision: from 5 to 18, by the remainder modulo 14. */
  lemma CountDrawn(w: World, c: Config, phase: nat, n: nat)
    requires c.speed + 1 < TWO_64
    requires forall m: nat | m < n :: w.countRand(phase)(m) >= 2147483646
    requires n <= 128 && (w.countRand(phase)(n) < 2147483646 || n == 128)
    ensures OracleOf(w, c).count(phase) == 5 + w.countRand(phase)(n) % 14
  {
    hide RandIntrValue;
    IntrFirst(w.countRand(phase), 5, 18, n);
  }

  /** The loops of a phase: 0, 1 or 2 by the quarter of the raw range, and the last quarter draws again. */
  lemma LoopsDrawn(w: World, phase: nat, n: nat)
    requires forall m: nat | m < n :: w.loopRand(phase).raw(m) >= 1610612733
    requires w.loopRand(phase).raw(n) < 1610612733
    ensures LoopsOf(w)(phase) == w.loopRand(phase).raw(n) / 536870911 < 3
  {
    hide RandLimValue;
    LimFirst(w.loopRand(phase), 3, n);
  }

  /** The turns of holding: up to the first reading of the clock that is the execution time or more after
      the one before the loop. */
  lemma TurnsExactly(w: World, times: nat -> real, bounds: nat -> nat, job: nat, n: nat)
    requires Clocked(w, times, bounds)
    ensures TurnsOf(w, times, bounds)(job) == n <==>
            && w.clock(job)(n) - w.clock(job)(0) >= times(job)
            && forall m: nat | m < n :: w.clock(job)(m) - w.clock(job)(0) < times(job)
  {
    var t := TurnsOf(w, times, bounds)(job);
    assert RunsFor(w.clock(job), times(job), t);
  }

  /** What an allocation does to the state: nothing but the probe if no file is left. */
  ghost predicate Allocated(s: State, t: State, typ: MemType, len: nat,
                            addr: Option<nat>, newLen: nat, node: Option<FileRef>)
    requires |s.pool| > 0
  {
    if typ.Anon? then
      && addr == Some(|s.maps|) && node == None && newLen == Capped(s.byteCap, if len == 0 then s.pool[0].size else len)
      && t == s.(maps := s.maps + [Mapping(newLen, None)])
    else
      var p := GetFilePath(s.pool, len);
      && node == p.node
      && (node == None ==> addr == None && t == s.(pool := p.pool))
      && (node.Some? ==>
            && addr == Some(|s.maps|) && newLen == Capped(s.byteCap, s.pool[node.value.cls].size)
            && t == s.(pool := p.pool, maps := s.maps + [Mapping(newLen, node)]))
  }

  /** The variables of one request, as the code computes them. */
  ghost predicate Asked(c: Config, s: State, slice: int, d: Draw, typ: MemType, len: nat) {
    && InPhase(c, s) && DrawOk(c, d) && s.status.Running?
    && typ == AllocType(s.typeCnt, slice, d.typ) && len == AllocLen(c, s.pool, d.picks)
  }

  lemma AllocatedFacts(c: Config, s: State, slice: int, d: Draw, typ: MemType, len: nat,
                       t: State, addr: Option<nat>, newLen: nat, node: Option<FileRef>)
    requires Asked(c, s, slice, d, typ, len)
    requires Allocated(s.(typeCnt := s.typeCnt + 1), t, typ, len, addr, newLen, node)
    ensures t.curr == s.curr && t.track == s.track && 0 <= s.curr < MAX_ALLOC == |s.track|
    ensures addr.Some? ==> addr.value == |s.maps| < |t.maps|
    ensures node.Some? ==> node.value.cls < |t.pool| && node.value.node < |t.pool[node.value.cls].inUse|
    ensures addr == None ==> Request(c, s, slice, d) == Reply(t, None, 0)
  {
  }

  /** The tracker entry, the counters, and then the mark on the file or the end of the program. */
  ghost predicate Recorded(t: State, w: State, typ: MemType, addr: nat, len: nat, node: Option<FileRef>)
    requires 0 <= t.curr < |t.track|
    requires node.Some? ==> node.value.cls < |t.pool| && node.value.node < |t.pool[node.value.cls].inUse|
  {
    var v := t.(total := t.total + Pages(len),
                fileCnt := t.fileCnt + if typ.File? then Pages(len) else 0,
                anonCnt := t.anonCnt + if typ.Anon? then Pages(len) else 0);
    if |t.track[t.curr]| >= MAX_ALLOC_PER_SE then w == v.(status := Exited)
    else
      w == v.(track := t.track[t.curr := t.track[t.curr] + [Entry(addr, len, typ)]],
              pool := if node.Some? then Take(t.pool, node.value) else t.pool)
  }

  /** Entry, counters and mark in the order of the code. */
  lemma RecordSteps(s: State, entered: State, counted: State, typ: MemType, addr: nat, len: nat,
                    node: Option<FileRef>, ok: int, pageCnt: nat)
    requires |s.track| == MAX_ALLOC && 0 <= s.curr < MAX_ALLOC && pageCnt == Pages(len)
    requires node.Some? ==> node.value.cls < |s.pool| && node.value.node < |s.pool[node.value.cls].inUse|
    requires ok == if |s.track[s.curr]| >= MAX_ALLOC_PER_SE then -1 else 1
    requires entered == if ok < 0 then s
                        else s.(track := s.track[s.curr := s.track[s.curr] + [Entry(addr, len, typ)]])
    requires counted == entered.(total := entered.total + pageCnt,
                                 fileCnt := entered.fileCnt + if typ.File? then pageCnt else 0,
                                 anonCnt := entered.anonCnt + if typ.Anon? then pageCnt else 0)
    ensures counted.pool == s.pool
    ensures ok < 0 ==> Recorded(s, counted.(status := Exited), typ, addr, len, node)
    ensures ok >= 0 ==> ok > 0
    ensures ok > 0 && node.None? ==> Recorded(s, counted, typ, addr, len, node)
    ensures ok > 0 && node.Some? ==> Recorded(s, counted.(pool := Take(s.pool, node.value)), typ, addr, len, node)
  {
    hide Take, Pages;
  }

  lemma PlacedRequest(c: Config, s: State, slice: int, d: Draw, typ: MemType, len: nat,
                      t: State, addr: Option<nat>, newLen: nat, node: Option<FileRef>, w: State)
    requires Asked(c, s, slice, d, typ, len)
    requires Allocated(s.(typeCnt := s.typeCnt + 1), t, typ, len, addr, newLen, node) && addr.Some?
    requires 0 <= t.curr < |t.track|
    requires node.Some? ==> node.value.cls < |t.pool| && node.value.node < |t.pool[node.value.cls].inUse|
    requires Recorded(t, w, typ, addr.value, newLen, node)
    ensures Request(c, s, slice, d) == Reply(w, Some(typ), Pages(newLen))
    ensures forall cnt: nat | cnt >= 1 ::
              Left(s.precision, Request(c, s, slice, d), cnt) ==
              if s.precision then (if Pages(newLen) > cnt then 0 else cnt - Pages(newLen)) else cnt - 1
  {
    hide GetFrom, Take, FirstFree, Pick;
  }

  /** n requests whose types are all drawn in one second of the clock. */
  lemma OneSeedTypes(w: World, c: Config, k: nat, n: nat)
    requires c.speed + 1 < TWO_64
    requires forall i | k <= i < k + n :: w.typeRand(i) == w.typeRand(k)
    ensures SameType(OracleOf(w, c), k, n, OracleOf(w, c).draw(k).typ)
  {
    hide PicksOf, RandLimValue;
    forall i | k <= i < k + n ensures OracleOf(w, c).draw(i).typ == OracleOf(w, c).draw(k).typ {
      assert w.typeRand(i) == w.typeRand(k);
    }
  }

  /** The ten length draws of a request that are all made in one second of the clock: the retries
      change nothing. */
  lemma OneSeedLength(w: World, c: Config, k: nat, pool: seq<SizeClass>, maxReq: nat)
    requires c.speed + 1 < TWO_64 && c.speed < |pool|
    requires forall j: nat :: w.lenRand(k, j) == w.lenRand(k, 0)
    ensures Pick(pool, maxReq, PicksOf(w, c.speed, k), 0) == RandIntrValue(w.lenRand(k, 0), 0, c.speed)
  {
    PickSame(pool, maxReq, PicksOf(w, c.speed, k), 0);
  }

  lemma OracleDraw(w: World, c: Config, k: nat)
    requires c.speed + 1 < TWO_64
    ensures DrawOk(c, OracleOf(w, c).draw(k))
  {
  }

  lemma AskedAgain(c: Config, s: State, slice: int, d: Draw, typ: MemType, len: nat, s1: State)
    requires Shape(c, s) && s.curr >= 0 && DrawOk(c, d) && s.status.Running?
    requires s1 == s.(typeCnt := s.typeCnt + 1)
    requires typ == AllocType(s.typeCnt, slice, d.typ)
    requires len == AllocLen(c, s1.pool, d.picks)
    ensures InPhase(c, s) && Asked(c, s, slice, d, typ, len)
  {
  }

  /** The entries are among the first n mappings. */
  ghost predicate Linked(lst: seq<Entry>, n: nat) {
    forall i | 0 <= i < |lst| :: lst[i].addr < n
  }

  /** Nothing has been done to the first n mappings. */
  ghost predicate Older(before: seq<seq<Event>>, after: seq<seq<Event>>, n: nat) {
    n <= |before| && n <= |after| && forall k | 0 <= k < n :: before[k] == after[k]
  }

  lemma Unchanged(logs: seq<seq<Event>>, n: nat)
    requires n <= |logs|
    ensures Older(logs, logs, n)
  {
  }

  lemma OlderTwice(a: seq<seq<Event>>, b: seq<seq<Event>>, c: seq<seq<Event>>, n: nat)
    requires Older(a, b, n) && Older(b, c, n)
    ensures Older(a, c, n)
  {
  }

  /** The logs of the mappings are those of the touches so far, in their order and on their streams, and so
      of as many as there are in transitions and in holding. */
  ghost predicate Tally(access: Pattern, maps: seq<Mapping>, logs: seq<seq<Event>>, touched: seq<Visit>,
                        env: nat -> Patterns.Env) {
    && |logs| == |maps|
    && (forall v | v in touched :: v.addr < |maps|)
    && (forall k | 0 <= k < |maps| ::
          && TouchedTimes(access, logs[k], maps[k].len, multiset(touched)[Visit(k, true)], multiset(touched)[Visit(k, false)])
          && logs[k] == LogOf(access, k, maps[k].len, touched, env))
  }

  lemma TallyMmap(access: Pattern, maps: seq<Mapping>, logs: seq<seq<Event>>, touched: seq<Visit>,
                  env: nat -> Patterns.Env, m: Mapping, after: seq<seq<Event>>)
    requires Tally(access, maps, logs, touched, env) && PAGE_SIZE <= m.len < TWO_64
    requires |after| == |maps| + 1 && after[|maps|] == [] && Older(logs, after, |maps|)
    ensures Tally(access, maps + [m], after, touched, env)
  {
    hide TouchedTimes, LogOf;
    NoTouch(access, m.len);
    LogNone(access, |maps|, m.len, touched, env);
    assert Visit(|maps|, true) !in touched && Visit(|maps|, false) !in touched;
  }

  lemma TallyTouch(access: Pattern, maps: seq<Mapping>, logs: seq<seq<Event>>, touched: seq<Visit>,
                   env: nat -> Patterns.Env, v: Visit, after: seq<seq<Event>>)
    requires Tally(access, maps, logs, touched, env) && v.addr < |maps| == |after|
    requires PAGE_SIZE <= maps[v.addr].len < TWO_64
    requires after[v.addr] == OneTouch(access, logs[v.addr], maps[v.addr].len, v.inTransition, env(|touched|))
    requires forall k | 0 <= k < |maps| && k != v.addr :: after[k] == logs[k]
    ensures Tally(access, maps, after, touched + [v], env)
  {
    hide TouchedTimes, LogOf, OneTouch;
    var before, more := multiset(touched), touched + [v];
    assert multiset(more) == before + multiset{v};
    OneMoreTouch(access, logs[v.addr], maps[v.addr].len, v.inTransition, env(|touched|),
                 before[Visit(v.addr, true)], before[Visit(v.addr, false)]);
    forall k | 0 <= k < |maps| ensures PAGE_SIZE <= maps[k].len < TWO_64 {
      TallyLen(access, maps, logs, touched, env, k);
    }
    forall k | 0 <= k < |maps|
      ensures TouchedTimes(access, after[k], maps[k].len, multiset(more)[Visit(k, true)], multiset(more)[Visit(k, false)])
      ensures after[k] == LogOf(access, k, maps[k].len, more, env)
    {
      LogNext(access, k, maps[k].len, touched, env, v);
    }
  }

  lemma TallyLen(access: Pattern, maps: seq<Mapping>, logs: seq<seq<Event>>, touched: seq<Visit>,
                 env: nat -> Patterns.Env, k: nat)
    requires Tally(access, maps, logs, touched, env) && k < |maps|
    ensures PAGE_SIZE <= maps[k].len < TWO_64
  {
    hide LogOf;
  }

  /** The phases that have not begun are empty. */
  ghost predicate Ahead(s: State) {
    forall p | s.curr < p < |s.track| && p >= 0 :: s.track[p] == []
  }

  /** The entries of the current phase are mappings made since there were base of them. */
  ghost predicate Since(s: State, base: nat)
    requires 0 <= s.curr < |s.track|
  {
    forall e | e in s.track[s.curr] :: base <= e.addr < |s.maps|
  }

  lemma AheadStays(c: Config, s: State, slice: int, d: Draw)
    requires InPhase(c, s) && DrawOk(c, d) && Ahead(s)
    ensures Ahead(Request(c, s, slice, d).state)
  {
    hide GetFrom, Pick;
  }

  /** The new entry of a request is for the new mapping. */
  lemma NewEntry(c: Config, s: State, slice: int, d: Draw, r: Reply)
    requires InPhase(c, s) && DrawOk(c, d) && r == Request(c, s, slice, d)
    ensures r.state.curr == s.curr && |r.state.track| == |s.track| && |s.maps| <= |r.state.maps|
    ensures var row := r.state.track[s.curr];
            && (row == s.track[s.curr] || (|row| == |s.track[s.curr]| + 1 && row[..|row| - 1] == s.track[s.curr]
                                          && row[|row| - 1].addr == |s.maps| < |r.state.maps|))
            && (r.got.Some? && r.state.status.Running? ==> |row| > 0 && row[|row| - 1].addr == |s.maps|)
  {
    hide GetFrom, Pick, Take, FirstFree;
  }

  lemma SinceStep(s: State, r: State, base: nat)
    requires 0 <= s.curr < |s.track| == |r.track| && r.curr == s.curr && |s.maps| <= |r.maps|
    requires Since(s, base) && base <= |s.maps|
    requires var row := r.track[s.curr];
             row == s.track[s.curr] || (|row| == |s.track[s.curr]| + 1 && row[..|row| - 1] == s.track[s.curr]
                                        && row[|row| - 1].addr == |s.maps| < |r.maps|)
    ensures Since(r, base)
  {
    var row := r.track[s.curr];
    forall e | e in row ensures base <= e.addr < |r.maps| {
      if e !in s.track[s.curr] {
        assert row == row[..|row| - 1] + [row[|row| - 1]];
      }
    }
  }

  lemma TransitStep(c: Config, s: State, slice: int, d: Draw, cnt: nat, base: nat, r: Reply)
    requires InPhase(c, s) && DrawOk(c, d) && cnt >= 1
    requires Since(s, base) && base <= |s.maps|
    requires r == Request(c, s, slice, d)
    ensures 0 <= r.state.curr == s.curr < |r.state.track| && Since(r.state, base) && base <= |r.state.maps|
    ensures SliceAfter(r, slice) == if r.got == Some(Anon) then slice - 1 else slice
    ensures r.got == None ==> Left(s.precision, r, cnt) == cnt - 1
    ensures r.got == None ==> r.state.status == s.status && |r.state.maps| == |s.maps|
    ensures r.got.Some? ==> |r.state.maps| == |s.maps| + 1
    ensures var row := r.state.track[s.curr];
            r.got.Some? && r.state.status.Running? ==> |row| > 0 && row[|row| - 1].addr == |s.maps|
  {
    hide Request, Since, Grows;
    RequestSteps(c, s, slice, d);
    NewEntry(c, s, slice, d, r);
    SinceStep(s, r.state, base);
  }

  /** One turn of the loop, and what it means that the loop has ended. */
  lemma LoopStep(c: Config, o: Oracle, s: State, cnt: nat, slice: int, t: State, left: nat, newSlice: int)
    requires InPhase(c, s) && OracleOk(c, o) && cnt >= 1 && s.status.Running?
    requires var r := Request(c, s, slice, o.draw(s.typeCnt));
             && t == r.state
             && (t.status.Running? ==> left == Left(s.precision, r, cnt) && newSlice == SliceAfter(r, slice))
    ensures InPhase(c, t) && TransLoop(c, o, s, cnt, slice) == TransLoop(c, o, t, left, newSlice)
    ensures t.status.Running? ==> left < cnt
    ensures !t.status.Running? || left == 0 ==> TransLoop(c, o, t, left, newSlice) == t
  {
  }

  lemma OlderLess(a: seq<seq<Event>>, b: seq<seq<Event>>, m: nat, n: nat)
    requires Older(a, b, m) && n <= m
    ensures Older(a, b, n)
  {
  }

  /** One turn of the loop of main, case by case, with what it touches. */
  lemma TurnCases(c: Config, o: Oracle, feed: Feed, s: State, job: nat, loops: nat -> nat, turns: nat -> nat)
    requires Shape(c, s) && OracleOk(c, o)
    ensures var turn, touched := OneTurn(c, o, feed, s, job), TurnTouches(c, o, feed, s, job, loops, turns);
            if feed == Some([]) then turn == Last(s) && touched == []
            else
              var s1 := if feed.Some? then Reset(s, feed.value[0]) else s;
              var rest := if feed.Some? then Some(feed.value[1..]) else None;
              && Shape(c, s1)
              && if c.maxPhase <= job + 1 || c.maxLimit < s1.fileCnt + s1.anonCnt then turn == Last(s1) && touched == []
                 else if o.late(job + 1) then turn == Next(rest, s1) && touched == []
                 else if s1.curr + 1 == MAX_ALLOC then
                   turn == Last(s1.(curr := MAX_ALLOC, status := Overrun)) && touched == []
                 else
                   var t := Machine.TransRandAlloc(c, o, s1);
                   && touched == JobTouches(c, s1, t, loops(s1.phaseCnt), turns(job + 1))
                   && turn == if t.status.Running? then Next(rest, t.(phaseCnt := t.phaseCnt + 1)) else Last(t)
  {
    hide Machine.TransRandAlloc, JobTouches;
  }

  lemma RunNext(c: Config, o: Oracle, feed: Feed, s: State, job: nat, loops: nat -> nat, turns: nat -> nat,
                before: seq<Visit>)
    requires Shape(c, s) && OracleOk(c, o)
    ensures var turn, touched := OneTurn(c, o, feed, s, job), TurnTouches(c, o, feed, s, job, loops, turns);
            match turn
            case Last(last) =>
              && Run(c, o, feed, s, job) == last
              && before + RunTouches(c, o, feed, s, job, loops, turns) == before + touched
            case Next(rest, t) =>
              && Run(c, o, feed, s, job) == Run(c, o, rest, t, job + 1) && Shape(c, t) && job + 1 < c.maxPhase
              && before + RunTouches(c, o, feed, s, job, loops, turns) ==
                 before + touched + RunTouches(c, o, rest, t, job + 1, loops, turns)
  {
    hide OneTurn, TurnTouches;
    var turn := OneTurn(c, o, feed, s, job);
    if turn.Next? {
      var first := TurnTouches(c, o, feed, s, job, loops, turns);
      var later := RunTouches(c, o, turn.feed, turn.state, job + 1, loops, turns);
      assert before + (first + later) == before + first + later;
    }
  }

  /** A whole run from the initial state. */
  lemma WholeRunFacts(c: Config, o: Oracle, feed: Feed, s: State, loops: nat -> nat, turns: nat -> nat)
    requires Fresh(c, s) && OracleOk(c, o)
    ensures Shape(c, s) && s.status.Running?
    ensures var r := Run(c, o, feed, s, 0);
            && Safe(c, r) && Later(s, r)
            && RunFair(s, r, [] + RunTouches(c, o, feed, s, 0, loops, turns), loops, turns, o.late)
  {
    hide Safe, Later, SharedOut, Punctual, Machine.Run, Between, RunTouches;
    EveryRun(c, o, feed, s);
    FreshInv(c, s);
    var jobs := RunTouched(c, o, feed, s, 0, loops, turns, Run(c, o, feed, s, 0));
    assert [] + RunTouches(c, o, feed, s, 0, loops, turns) == RunTouches(c, o, feed, s, 0, loops, turns);
  }

  /** How often each phase touches a new mapping. */
  ghost function LoopsOf(w: World): nat -> nat {
    phase => RandLimValue(w.loopRand(phase), 3)
  }

  /** How many turns of holding each job has. */
  ghost function TurnsOf(w: World, times: nat -> real, bounds: nat -> nat): nat -> nat
    requires Clocked(w, times, bounds)
  {
    job => HoldTurns(w.clock(job), times(job), bounds(job))
  }

  lemma TurnsAre(w: World, times: nat -> real, bounds: nat -> nat, job: nat)
    requires Clocked(w, times, bounds)
    ensures times(job) <= w.clock(job)(bounds(job)) - w.clock(job)(0)
    ensures TurnsOf(w, times, bounds)(job) == HoldTurns(w.clock(job), times(job), bounds(job))
  {
  }

  lemma JobTouchesAre(c: Config, s: State, r: State, i: nat, n: nat)
    requires InPhase(c, r)
    ensures 0 <= r.curr < |r.track|
    ensures JobTouches(c, s, r, i, n) ==
            if r.status.Running? then TransTouches(|s.maps|, |r.maps|, i) + HeldVisits(r.track[r.curr], n)
            else TransTouches(|s.maps|, |r.maps| - 1, i)
  {
  }

  /** The clock of every job reaches the execution time, at the latest at the given reading. */
  ghost predicate Clocked(w: World, times: nat -> real, bounds: nat -> nat) {
    forall job :: times(job) <= w.clock(job)(bounds(job)) - w.clock(job)(0)
  }

  lemma OracleLate(w: World, c: Config)
    requires c.speed + 1 < TWO_64
    ensures OracleOk(c, OracleOf(w, c)) && OracleOf(w, c).late == w.late
  {
  }

  lemma PickNext(pool: seq<SizeClass>, maxReq: nat, picks: seq<nat>, j: nat)
    requires |picks| == 10 && j < 10 && forall p | p in picks :: p < |pool|
    ensures picks[j] < |pool|
    ensures Pick(pool, maxReq, picks, j) ==
            if j < 9 && pool[picks[j]].size > maxReq then Pick(pool, maxReq, picks, j + 1) else picks[j]
  {
    assert picks[j] in picks;
  }

  class Gobbler {
    const c: Config
    const world: World
    const files: FileList
    const mem: Mappings
    const track: array<seq<Entry>>
    var curr: int
    var fileCnt: nat
    var anonCnt: nat
    var totalAllocPages: nat
    var typeCnt: nat
    var phaseCnt: nat
    var maxAllocPerPhase: nat
    var allocPrecision: bool
    var maxAllocPerPhaseByte: nat
    var inTransition: bool
    var exited: bool
    var overrun: bool                // whether the tracker has been left
    var touches: nat                 // how many touches there have been, for their draws
    ghost var maps: seq<Mapping>     // the mmap calls, in order
    ghost var touched: seq<Visit>    // what has been touched, in order

    ghost predicate Valid()
      reads this, files, files.Repr, mem, mem.Repr, track
    {
      Heap() && !overrun && Shape(c, Abs()) && Ahead(Abs())
    }

    /** The pool, the mappings and the tracker share no memory, and agree on the mappings. */
    ghost predicate Heap()
      reads this, files, files.Repr, mem, mem.Repr, track
    {
      && files.Valid() && mem.Valid()
      && this !in files.Repr && this !in mem.Repr
      && files.Repr !! mem.Repr && files !in mem.Repr && mem !in files.Repr && files !in files.Repr
      && track !in files.Repr && track !in mem.Repr
      && c.speed + 1 < TWO_64 && track.Length == MAX_ALLOC
      && (forall i | 0 <= i < |files.sizes| :: files.sizes[i] < TWO_64)
      && |maps| == |mem.regions|
      && (forall k | 0 <= k < |maps| :: mem.regions[k].data.Length == maps[k].len)
      && touches == |touched| && Tally(mem.access, maps, Logs(), touched, world.touchRand)
      && (forall p | 0 <= p < MAX_ALLOC :: Linked(track[p], |maps|))
    }

    /** The state of the machine that the variables stand for. */
    ghost function Abs(): State
      requires files.Valid()
      reads this, files, files.Repr, track
    {
      State(files.View(), track[..], curr, maps, fileCnt, anonCnt, totalAllocPages, typeCnt, phaseCnt,
            maxAllocPerPhase, allocPrecision, maxAllocPerPhaseByte,
            if overrun then Overrun else if exited then Exited else Running)
    }

    /** What has been done to every mapping. */
    ghost function Logs(): (l: seq<seq<Event>>)
      requires mem.Valid()
      reads mem, mem.Repr
      ensures |l| == |mem.regions| && forall k | 0 <= k < |l| :: l[k] == mem.regions[k].log
    {
      seq(|mem.regions|, k requires mem.Valid() && 0 <= k < |mem.regions| reads mem, mem.Repr =>
        assert mem.Owned(mem.regions[k]); mem.regions[k].log)
    }

    /** The state before the options are read; the files are those of the generator, all unused. */
    constructor (c: Config, world: World, files: FileList, access: Pattern)
      requires files.Valid() && files !in files.Repr
      requires c.speed < |files.sizes| && c.speed + 1 < TWO_64
      requires forall i | 0 <= i < |files.sizes| :: WholePages(files.sizes[i]) && files.sizes[i] < TWO_64
      requires forall i | 0 <= i < |files.sizes| :: !files.filled[i]
      requires forall i, j | 0 <= i < |files.sizes| && 0 <= j < files.paths[i].Length :: files.paths[i][j].alloc == 0
      ensures this.c == c && this.world == world && this.files == files && mem.access == access
      ensures fresh(mem) && fresh(mem.Repr) && fresh(track)
      ensures Valid() && Fresh(c, Abs()) && !exited && !allocPrecision && maxAllocPerPhase == 150 && touched == [] && !inTransition
    {
      hide Mappings.Valid;
      this.c, this.world, this.files := c, world, files;
      mem := new Mappings(access);
      track := new seq<Entry>[MAX_ALLOC](_ => []);
      curr, fileCnt, anonCnt, totalAllocPages, typeCnt, phaseCnt := -1, 0, 0, 0, 0, 0;
      maxAllocPerPhase, allocPrecision, maxAllocPerPhaseByte := 150, false, 0;
      inTransition, exited, overrun, touches := false, false, false, 0;
      maps, touched := [], [];
    }

    /** The -M option, and every line of a vector file. */
    method ResetMaxAllocPerPhase(count: nat)
      requires Valid()
      modifies this`maxAllocPerPhase, this`allocPrecision, this`maxAllocPerPhaseByte
      ensures Valid() && Abs() == Reset(old(Abs()), count)
    {
      hide FileList.Valid, FileList.View, Mappings.Valid, Logs, Linked, Tally;
      maxAllocPerPhase := count;
      allocPrecision := true;
      maxAllocPerPhaseByte := maxAllocPerPhase * PAGE_SIZE;
    }

    /** The -A option. */
    method SetPrecise()
      requires Valid()
      modifies this`allocPrecision
      ensures Valid() && Abs() == old(Abs()).(precision := true)
    {
      hide FileList.Valid, FileList.View, Mappings.Valid, Logs, Linked, Tally;
      allocPrecision := true;
    }

    /** The variables as the fields of the state. */
    lemma Fields()
      requires Valid()
      ensures Heap() && files.Valid() && mem.Valid() && Shape(c, Abs()) && Ahead(Abs()) && c.speed + 1 < TWO_64
      ensures !overrun && -1 <= curr < MAX_ALLOC
      ensures curr >= 0 ==> InPhase(c, Abs())
      ensures curr >= 0 ==> curr < track.Length == |Abs().track| && track[curr] == Abs().track[curr]
      ensures var s := Abs();
              && |s.track| == MAX_ALLOC == track.Length && |maps| == |mem.regions|
              && s.curr == curr && s.typeCnt == typeCnt && s.phaseCnt == phaseCnt && s.maps == maps
              && s.fileCnt == fileCnt && s.anonCnt == anonCnt
              && s.budget == maxAllocPerPhase && s.precision == allocPrecision && s.byteCap == maxAllocPerPhaseByte
              && s.status == if exited then Exited else Running
    {
    }

    // ------------------------------------------------------- one request

    method RandomizeAllocType(slice: int) returns (typ: MemType)
      requires Valid()
      modifies this`typeCnt
      ensures Valid()
      ensures var s := old(Abs());
              && Logs() == old(Logs())
              && Abs() == s.(typeCnt := s.typeCnt + 1)
              && typ == AllocType(s.typeCnt, slice, OracleOf(world, c).draw(s.typeCnt).typ)
    {
      hide RandLimValue, PicksOf, FileList.View, FileList.Valid, Mappings.Valid, Logs, Linked, Tally;
      if slice < 0 {
        if typeCnt % FILE_RATIO == 0 && typeCnt != 0 {
          typ := Anon;
        } else {
          typ := File;
        }
      } else if slice != 0 {
        var t := RandLim(world.typeRand(typeCnt), 2);
        typ := if t == 0 then File else Anon;
      } else {
        typ := File;
      }
      typeCnt := typeCnt + 1;
    }

    /** The retry loop of randomize_alloc_len, over the sizes v of the pool. */
    method DrawClass(maxReq: nat, ghost v: seq<SizeClass>, ghost picks: seq<nat>) returns (i: nat)
      requires typeCnt >= 1 && c.speed < |files.sizes| && c.speed + 1 < TWO_64
      requires |v| == |files.sizes| && forall n | 0 <= n < |v| :: v[n].size == files.sizes[n]
      requires picks == PicksOf(world, c.speed, typeCnt - 1)
      ensures i < |v| && i == Pick(v, maxReq, picks, 0)
    {
      hide RandIntrValue, PicksOf, Pick;
      var l: nat := 10;
      i := 0;
      while l != 0
        invariant l <= 10 && i < |v|
        invariant if l == 0 then i == Pick(v, maxReq, picks, 0)
                  else Pick(v, maxReq, picks, 10 - l) == Pick(v, maxReq, picks, 0)
        decreases l
      {
        l := l - 1;
        PickNext(v, maxReq, picks, 9 - l);
        i := RandIntr(world.lenRand(typeCnt - 1, 9 - l), 0, c.speed);
        assert i == picks[9 - l];
        if files.sizes[i] > maxReq {
          continue;
        } else {
          break;
        }
      }
    }

    /** For the request whose type has just been drawn. */
    method RandomizeAllocLen() returns (len: nat)
      requires Valid() && typeCnt >= 1
      ensures PAGE_SIZE <= len < TWO_64
      ensures len == AllocLen(c, Abs().pool, OracleOf(world, c).draw(Abs().typeCnt - 1).picks)
    {
      hide PicksOf, Pick, GetFrom, Mappings.Valid, Linked, Tally;
      var maxReq := c.maxLimit * PAGE_SIZE;
      if maxReq <= files.sizes[0] {
        len := files.sizes[0];
        assert files.View()[0].size == len;
      } else {
        var i := DrawClass(maxReq, files.View(), PicksOf(world, c.speed, typeCnt - 1));
        len := files.sizes[i];
        assert files.View()[i].size == len;
      }
    }

    method RandomizeAllocCount(precision: bool) returns (i: nat)
      requires Valid() && curr >= 0
      ensures precision == allocPrecision ==> i == AllocCount(OracleOf(world, c), Abs())
    {
      if precision {
        i := maxAllocPerPhase;
      } else {
        i := RandIntr(world.countRand(curr), 5, 150 / 8);
      }
    }

    method AddNewAlloc(addr: nat, len: nat, typ: MemType) returns (ok: int)
      requires Heap() && 0 <= Abs().curr < MAX_ALLOC && addr < |Abs().maps|
      modifies track
      ensures Heap() && files.Valid() && mem.Valid()
      ensures var s := old(Abs());
              && Logs() == old(Logs())
              && ok == (if |s.track[s.curr]| >= MAX_ALLOC_PER_SE then -1 else 1)
              && Abs() == if ok < 0 then s
                          else s.(track := s.track[s.curr := s.track[s.curr] + [Entry(addr, len, typ)]])
    {
      hide FileList.Valid, FileList.View, Mappings.Valid, Logs;
      var lst := track[curr];
      if |lst| >= MAX_ALLOC_PER_SE {
        return -1;
      }
      track[curr] := lst + [Entry(addr, len, typ)];
      return 1;
    }

    method Mmapper(size: nat, ghost path: Option<FileRef>) returns (addr: nat)
      requires Heap() && PAGE_SIZE <= size < TWO_64
      modifies mem.Repr, this`maps
      ensures Heap() && files.Valid() && mem.Valid() && fresh(mem.Repr - old(mem.Repr))
      ensures var s := old(Abs());
              && addr == |s.maps| && Abs() == s.(maps := s.maps + [Mapping(size, path)])
              && Older(old(Logs()), Logs(), |s.maps|)
    {
      hide FileList.Valid, FileList.View, Mappings.Valid, Tally;
      ghost var before := Logs();
      addr := mem.Mmap(size);
      TallyMmap(mem.access, maps, before, touched, world.touchRand, Mapping(size, path), Logs());
      maps := maps + [Mapping(size, path)];
    }

    method Alloc(typ: MemType, len: nat) returns (addr: Option<nat>, newLen: nat, node: Option<FileRef>)
      requires Valid() && (len == 0 || PAGE_SIZE <= len < TWO_64)
      modifies files.Repr, mem.Repr, this`maps
      ensures Heap() && files.Valid() && mem.Valid() && fresh(mem.Repr - old(mem.Repr))
      ensures Allocated(old(Abs()), Abs(), typ, len, addr, newLen, node)
      ensures Older(old(Logs()), Logs(), |old(Abs()).maps|)
    {
      hide GetFrom, Mappings.Valid, Logs, Linked, Tally;
      newLen := len;
      if typ == Anon {
        node := None;
        if newLen == 0 {
          newLen := files.sizes[0];
          assert files.View()[0].size == newLen;
        }
      } else {
        node, newLen := files.GetFilePath(newLen);
        if node == None {
          return None, newLen, node;
        }
      }
      if maxAllocPerPhaseByte != 0 && newLen > maxAllocPerPhaseByte {
        newLen := maxAllocPerPhaseByte;
      }
      var a := Mmapper(newLen, node);
      addr := Some(a);
    }

    method CountPages(typ: MemType, len: nat) returns (pageCnt: nat)
      requires Heap()
      modifies this`totalAllocPages, this`fileCnt, this`anonCnt
      ensures Heap() && files.Valid() && mem.Valid() && pageCnt == Pages(len) && Logs() == old(Logs())
      ensures var s := old(Abs());
              Abs() == s.(total := s.total + pageCnt,
                          fileCnt := s.fileCnt + if typ.File? then pageCnt else 0,
                          anonCnt := s.anonCnt + if typ.Anon? then pageCnt else 0)
    {
      hide FileList.Valid, FileList.View, Mappings.Valid, Logs, Linked, Tally;
      pageCnt := len / PAGE_SIZE;
      totalAllocPages := totalAllocPages + pageCnt;
      if typ == File {
        fileCnt := fileCnt + pageCnt;
      } else if typ == Anon {
        anonCnt := anonCnt + pageCnt;
      }
    }

    /** node->alloc = alloc_suc. */
    method MarkNode(node: FileRef)
      requires Heap()
      requires node.cls < |Abs().pool| && node.node < |Abs().pool[node.cls].inUse|
      modifies files.Repr
      ensures Heap() && files.Valid() && mem.Valid() && Abs() == old(Abs()).(pool := Take(old(Abs()).pool, node))
      ensures Logs() == old(Logs())
    {
      hide Mappings.Valid, Logs, Linked, Tally;
      files.Mark(node);
    }

    /** PR_ERROR. */
    method Exit()
      requires Heap() && !overrun
      modifies this`exited
      ensures Heap() && files.Valid() && mem.Valid() && exited && Abs() == old(Abs()).(status := Exited)
      ensures Logs() == old(Logs())
    {
      hide FileList.Valid, FileList.View, Mappings.Valid, Logs, Linked, Tally;
      exited := true;
    }

    /** The second half of random_allocator_one: what follows the mapping. */
    method Record(addr: nat, len: nat, typ: MemType, node: Option<FileRef>) returns (pageCnt: nat)
      requires Heap() && 0 <= Abs().curr < MAX_ALLOC && addr < |Abs().maps| && !exited && !overrun
      requires node.Some? ==> node.value.cls < |Abs().pool| && node.value.node < |Abs().pool[node.value.cls].inUse|
      modifies track, files.Repr, this`totalAllocPages, this`fileCnt, this`anonCnt, this`exited
      ensures Heap() && files.Valid() && mem.Valid() && pageCnt == Pages(len)
      ensures Recorded(old(Abs()), Abs(), typ, addr, len, node)
      ensures Logs() == old(Logs())
    {
      hide *;
      TrackLength();
      ghost var s := Abs();
      var ok := AddNewAlloc(addr, len, typ);
      ghost var entered := Abs();
      pageCnt := CountPages(typ, len);
      ghost var counted := Abs();
      RecordSteps(s, entered, counted, typ, addr, len, node, ok, pageCnt);
      if node.Some? && ok > 0 {
        MarkNode(node.value);
      } else if ok < 0 {
        Exit();
      }
    }

    lemma TrackLength()
      requires Heap()
      ensures files.Valid() && |Abs().track| == MAX_ALLOC
    {
    }

    lemma StillValid(s: State, slice: int)
      requires Heap() && !overrun && InPhase(c, s) && Ahead(s)
      requires Abs() == Request(c, s, slice, OracleOf(world, c).draw(s.typeCnt)).state
      ensures Valid()
    {
      AheadStays(c, s, slice, OracleOf(world, c).draw(s.typeCnt));
      hide Request, Heap, Ahead, OracleOf;
    }

    method RandomAllocatorOne(slice: int, cnt: nat) returns (typ: Option<MemType>, left: nat)
      requires Valid() && curr >= 0 && !exited && cnt >= 1
      modifies this, track, files.Repr, mem.Repr
      ensures Valid() && fresh(mem.Repr - old(mem.Repr))
      ensures var s := old(Abs());
              var r := Request(c, s, slice, OracleOf(world, c).draw(s.typeCnt));
              && Abs() == r.state && typ == r.got
              && (!exited ==> left == if typ == None then cnt else Left(s.precision, r, cnt))
      ensures inTransition == old(inTransition) && touches == old(touches) && touched == old(touched)
      ensures mem.Valid() && Older(old(Logs()), Logs(), |old(maps)|)
    {
      hide *;
      Fields();
      ghost var s := Abs();
      ghost var d := OracleOf(world, c).draw(s.typeCnt);
      var allocType := RandomizeAllocType(slice);
      Fields();
      ghost var s1 := Abs();
      var allocLen := RandomizeAllocLen();
      OracleDraw(world, c, s.typeCnt);
      AskedAgain(c, s, slice, d, allocType, allocLen, s1);
      var addr, len, node := Alloc(allocType, allocLen);
      ghost var t := Abs();
      AllocatedFacts(c, s, slice, d, allocType, allocLen, t, addr, len, node);
      if addr == None {
        StillValid(s, slice);
        return None, cnt;
      }
      var pageCnt := Record(addr.value, len, allocType, node);
      PlacedRequest(c, s, slice, d, allocType, allocLen, t, addr, len, node, Abs());
      StillValid(s, slice);
      left := cnt;
      if allocPrecision {
        left := if pageCnt > left then 0 else left - pageCnt;
      } else {
        left := left - 1;
      }
      typ := Some(allocType);
    }

    // ------------------------------------------------------- one phase

    /** The mapping of entry i of the current phase, if there is one. */
    ghost function AddrOf(i: int): Option<nat>
      reads this, track
    {
      if 0 <= curr < track.Length && 0 <= i < |track[curr]| then Some(track[curr][i].addr) else None
    }

    lemma Again(s: State)
      requires Heap() && !overrun && Abs() == s && Shape(c, s) && Ahead(s)
      ensures Valid()
    {
    }

    method TouchAddr(addr: nat)
      requires Heap() && addr < |maps|
      modifies mem.Repr, this`touches, this`touched
      ensures Heap() && files.Valid() && mem.Valid() && fresh(mem.Repr - old(mem.Repr))
      ensures Abs() == old(Abs()) && track[..] == old(track[..])
      ensures mem.regions == old(mem.regions) && addr < |mem.regions| && touched == old(touched) + [Visit(addr, inTransition)]
      ensures forall k | 0 <= k < |mem.regions| && k != addr :: mem.regions[k].log == old(mem.regions[k].log)
      ensures var r := mem.regions[addr];
              && PAGE_SIZE <= r.data.Length < TWO_64
              && r.log == OneTouch(mem.access, old(r.log), r.data.Length, inTransition, world.touchRand(old(touches)))
    {
      hide FileList.Valid, FileList.View, Mappings.Valid, OneTouch, Linked, Tally;
      var t := touches;
      ghost var before := Logs();
      mem.Touch(addr, inTransition, world.touchRand(t));
      TallyTouch(mem.access, maps, before, touched, world.touchRand, Visit(addr, inTransition), Logs());
      touches := touches + 1;
      touched := touched + [Visit(addr, inTransition)];
    }

    /** Touches entry i of the current phase, if there is one, and no other mapping. */
    method Touch(i: int)
      requires Valid()
      modifies mem.Repr, this`touches, this`touched
      ensures Valid() && files.Valid() && mem.Valid()
      ensures fresh(mem.Repr - old(mem.Repr)) && Abs() == old(Abs()) && track[..] == old(track[..])
      ensures mem.regions == old(mem.regions)
      ensures touched == old(touched) + if old(AddrOf(i)).Some? then [Visit(old(AddrOf(i)).value, inTransition)] else []
      ensures forall k | 0 <= k < |mem.regions| && old(AddrOf(i)) != Some(k) ::
                mem.regions[k].log == old(mem.regions[k].log)
      ensures old(AddrOf(i)).Some? ==>
                && old(AddrOf(i)).value < |mem.regions|
                && var r := mem.regions[old(AddrOf(i)).value];
                   && PAGE_SIZE <= r.data.Length < TWO_64
                   && r.log == OneTouch(mem.access, old(r.log), r.data.Length, inTransition, world.touchRand(old(touches)))
    {
      hide Shape, Ahead, Abs, OneTouch;
      Fields();
      if curr >= 0 {
        if 0 <= i < |track[curr]| {
          assert Linked(track[curr], |maps|);
          TouchAddr(track[curr][i].addr);
          Again(old(Abs()));
        }
      }
    }

    /** A small loop that touches only the last entry. */
    method LoopN(n: nat, ghost base: nat)
      requires Valid() && 0 <= curr < MAX_ALLOC && Since(Abs(), base) && base <= |maps| && inTransition
      modifies mem.Repr, this`touches, this`touched
      ensures Valid() && files.Valid() && mem.Valid()
      ensures fresh(mem.Repr - old(mem.Repr)) && Abs() == old(Abs())
      ensures Older(old(Logs()), Logs(), base)
      ensures touched == old(touched) + Repeated(old(AddrOf(|track[curr]| - 1)), n)
    {
      hide *;
      Fields();
      Unchanged(Logs(), base);
      var k: nat := n;
      ghost var last, rows := AddrOf(|track[curr]| - 1), track[..];
      EntryAddr(|track[curr]| - 1, base);
      RepeatedNext(last, 0);
      while k != 0
        invariant k <= n && track[..] == rows && touched == old(touched) + Repeated(last, n - k)
        invariant Valid() && files.Valid() && mem.Valid()
        invariant fresh(mem.Repr - old(mem.Repr)) && Abs() == old(Abs())
        invariant Older(old(Logs()), Logs(), base)
        decreases k
      {
        assert track[curr] == rows[curr];
        RepeatedNext(last, n - k);
        Fields();
        EntryAddr(0, base);
        var cnt := |track[curr]|;
        ghost var before, a := Logs(), AddrOf(cnt - 1);
        EntryAddr(cnt - 1, base);
        Touch(cnt - 1);
        Recent(before, a, base);
        OlderTwice(old(Logs()), before, Logs(), base);
        k := k - 1;
      }
    }

    /** The entries of the current phase are not older than it. */
    lemma EntryAddr(i: int, base: nat)
      requires Valid() && 0 <= curr < MAX_ALLOC && Since(Abs(), base)
      ensures track.Length == MAX_ALLOC
      ensures AddrOf(i) == if 0 <= i < |track[curr]| then Some(track[curr][i].addr) else None
      ensures AddrOf(i).Some? ==> base <= AddrOf(i).value
    {
      if AddrOf(i).Some? {
        assert track[curr][i] in Abs().track[curr];
      }
    }

    lemma Recent(before: seq<seq<Event>>, a: Option<nat>, base: nat)
      requires mem.Valid() && base <= |mem.regions| && |before| == |mem.regions|
      requires a.Some? ==> base <= a.value
      requires forall k | 0 <= k < |mem.regions| && a != Some(k) :: mem.regions[k].log == before[k]
      ensures Older(before, Logs(), base)
    {
    }

    method GoToNxtPhase()
      modifies this`curr, this`exited
      ensures if old(curr) >= MAX_ALLOC then exited && curr == old(curr)
              else exited == old(exited) && curr == old(curr) + 1
    {
      if curr >= MAX_ALLOC {
        exited := true;
        return;
      }
      curr := curr + 1;
    }

    /** The state with which a phase begins. */
    method BeginPhase()
      requires Valid() && !exited && -1 <= curr && curr + 1 < MAX_ALLOC
      modifies this`curr, this`exited
      ensures Valid() && files.Valid() && mem.Valid() && !exited
      ensures Abs() == old(Abs()).(curr := old(curr) + 1) && curr == old(curr) + 1
      ensures Logs() == old(Logs()) && 0 <= curr < MAX_ALLOC && Since(Abs(), |maps|)
    {
      hide FileList.Valid, FileList.View, Mappings.Valid, Logs, Linked, Tally;
      GoToNxtPhase();
      assert track[curr] == [];
    }

    /** One turn of the transition loop. */
    method Transit(slice: int, cnt: nat, i: nat, ghost base: nat) returns (left: nat, newSlice: int)
      requires Valid() && 0 <= curr < MAX_ALLOC && !exited && cnt >= 1
      requires Since(Abs(), base) && base <= |maps| && inTransition
      modifies this, track, files.Repr, mem.Repr
      ensures Valid() && files.Valid() && mem.Valid() && fresh(mem.Repr - old(mem.Repr))
      ensures curr == old(curr) && inTransition
      ensures Since(Abs(), base) && base <= |maps|
      ensures var s := old(Abs());
              var r := Request(c, s, slice, OracleOf(world, c).draw(s.typeCnt));
              Abs() == r.state && (!exited ==> left == Left(s.precision, r, cnt) && newSlice == SliceAfter(r, slice))
      ensures Older(old(Logs()), Logs(), base)
      ensures |old(maps)| <= |maps| <= |old(maps)| + 1
      ensures touched == old(touched) + if !exited && |maps| > |old(maps)| then Repeated(Some(|old(maps)|), i) else []
      ensures exited ==> |maps| == |old(maps)| + 1
    {
      hide *;
      Fields();
      OracleDraw(world, c, typeCnt);
      ghost var s := Abs();
      var typ;
      typ, left := RandomAllocatorOne(slice, cnt);
      Fields();
      ghost var r := Request(c, s, slice, OracleOf(world, c).draw(s.typeCnt));
      TransitStep(c, s, slice, OracleOf(world, c).draw(s.typeCnt), cnt, base, r);
      OlderLess(old(Logs()), Logs(), |old(maps)|, base);
      newSlice := slice;
      if exited {
        return;
      }
      if typ == None {
        left := left - 1;
        return;
      }
      ghost var mid := Logs();
      EntryAddr(|track[curr]| - 1, base);
      LoopN(i, base);
      OlderTwice(old(Logs()), mid, Logs(), base);
      if typ == Some(Anon) {
        newSlice := slice - 1;
      }
    }

    method SetTransition(b: bool)
      requires Valid()
      modifies this`inTransition
      ensures Valid() && files.Valid() && mem.Valid() && Abs() == old(Abs()) && Logs() == old(Logs())
      ensures inTransition == b
    {
      hide FileList.Valid, FileList.View, Mappings.Valid, Logs, Linked, Tally;
      inTransition := b;
    }

    /** The loop of trans_rand_alloc. */
    method SpendBudget(cnt: nat, slice: int, i: nat, ghost base: nat)
      requires Valid() && 0 <= curr < MAX_ALLOC && !exited && Since(Abs(), base) && base <= |maps| && inTransition
      modifies this, track, files.Repr, mem.Repr
      ensures Valid() && files.Valid() && mem.Valid() && fresh(mem.Repr - old(mem.Repr))
      ensures InPhase(c, old(Abs())) && Abs() == TransLoop(c, OracleOf(world, c), old(Abs()), cnt, slice)
      ensures 0 <= curr == Abs().curr == old(curr) < |Abs().track| == MAX_ALLOC && Since(Abs(), base) && base <= |maps|
      ensures Older(old(Logs()), Logs(), base)
      ensures |maps| >= |old(maps)| + if exited then 1 else 0
      ensures touched == old(touched) + TransTouches(|old(maps)|, |maps| - if exited then 1 else 0, i)
    {
      hide *;
      Fields();
      ghost var o := OracleOf(world, c);
      ghost var goal := TransLoop(c, o, Abs(), cnt, slice);
      Unchanged(Logs(), base);
      LoopZero(c, o, Abs(), slice);
      TransTouchesNext(|maps|, |maps|, i);
      var n, a := cnt, slice;
      while n != 0
        invariant |maps| >= |old(maps)| && touched == old(touched) + TransTouches(|old(maps)|, |maps|, i)
        invariant Valid() && files.Valid() && mem.Valid() && fresh(mem.Repr - old(mem.Repr))
        invariant 0 <= curr == Abs().curr == old(curr) < MAX_ALLOC == |Abs().track|
        invariant Since(Abs(), base) && base <= |maps| && inTransition
        invariant !exited && InPhase(c, Abs()) && TransLoop(c, o, Abs(), n, a) == goal
        invariant n == 0 ==> Abs() == goal
        invariant Older(old(Logs()), Logs(), base)
        decreases n
      {
        ghost var s, before, m, b := Abs(), Logs(), n, a;
        Fields();
        TransTouchesNext(|old(maps)|, |maps|, i);
        n, a := Transit(a, n, i, base);
        Fields();
        LoopStep(c, o, s, m, b, Abs(), n, a);
        OlderTwice(old(Logs()), before, Logs(), base);
        if exited {
          break;
        }
      }
    }

    /** How often the last entry is touched after each request. */
    method LoopCount() returns (i: nat)
      ensures i < 3 && i == LoopsOf(world)(phaseCnt)
    {
      i := RandLim(world.loopRand(phaseCnt), 3);
    }

    /** The count and the slice that a phase begins with. */
    method Plan() returns (cnt: nat, slice: int)
      requires Valid() && curr >= 0
      ensures files.Valid() && cnt == AllocCount(OracleOf(world, c), Abs()) && slice == AnonSlice(Abs(), cnt)
    {
      slice := -1;
      if allocPrecision {
        cnt := RandomizeAllocCount(true);
      } else {
        cnt := RandomizeAllocCount(false);
        slice := cnt / FILE_RATIO;
      }
    }

    /** The index past the last row: the next access to the tracker is out of its bounds. */
    method LeaveTracker()
      requires Valid() && !exited && curr + 1 == MAX_ALLOC
      modifies this`curr, this`exited, this`overrun
      ensures Heap() && files.Valid() && mem.Valid() && overrun && Logs() == old(Logs())
      ensures Abs() == old(Abs()).(curr := MAX_ALLOC, status := Overrun)
    {
      hide FileList.Valid, FileList.View, Mappings.Valid, Logs, Linked, Tally;
      GoToNxtPhase();
      overrun := true;
    }

    /** The transition of a phase that has a row. */
    method Transition(i: nat)
      requires Valid() && !exited && curr + 1 < MAX_ALLOC
      modifies this, track, files.Repr, mem.Repr
      ensures Valid() && files.Valid() && mem.Valid() && fresh(mem.Repr - old(mem.Repr))
      ensures Shape(c, old(Abs())) && Older(old(Logs()), Logs(), |old(maps)|)
      ensures Abs() == Machine.TransRandAlloc(c, OracleOf(world, c), old(Abs()))
      ensures 0 <= curr == Abs().curr == old(curr) + 1 < |Abs().track| == MAX_ALLOC
      ensures Since(Abs(), |old(maps)|) && |maps| >= |old(maps)| + (if exited then 1 else 0) && !inTransition
      ensures touched == old(touched) + TransTouches(|old(maps)|, |maps| - if exited then 1 else 0, i)
    {
      hide *;
      Fields();
      ghost var s := Abs();
      BeginPhase();
      Fields();
      var cnt, slice := Plan();
      ghost var s1, n, a := PhaseLoop(c, OracleOf(world, c), s);
      SetTransition(true);
      SpendBudget(cnt, slice, i, |old(maps)|);
      SetTransition(false);
    }

    method TransRandAlloc()
      requires Valid() && !exited && !inTransition
      modifies this, track, files.Repr, mem.Repr
      ensures Heap() && files.Valid() && mem.Valid() && fresh(mem.Repr - old(mem.Repr))
      ensures Shape(c, old(Abs())) && Older(old(Logs()), Logs(), |old(maps)|) && !inTransition
      ensures old(curr) + 1 == MAX_ALLOC ==>
                && Abs() == old(Abs()).(curr := MAX_ALLOC, status := Overrun)
                && overrun && touched == old(touched)
      ensures old(curr) + 1 < MAX_ALLOC ==>
                && Valid() && Abs() == Machine.TransRandAlloc(c, OracleOf(world, c), old(Abs()))
                && 0 <= curr == Abs().curr == old(curr) + 1 < |Abs().track| == MAX_ALLOC
                && Since(Abs(), |old(maps)|) && |maps| >= |old(maps)| + (if exited then 1 else 0)
                && touched == old(touched)
                   + TransTouches(|old(maps)|, |maps| - if exited then 1 else 0, LoopsOf(world)(old(phaseCnt)))
    {
      hide *;
      var i := LoopCount();
      Fields();
      if curr + 1 == MAX_ALLOC {
        Unchanged(Logs(), |maps|);
        LeaveTracker();
      } else {
        Transition(i);
        Fields();
      }
    }

    // ---------------------------------------------------------- holding

    /** One turn of the holding loop. */
    method HoldTurn(i: nat, ghost base: nat) returns (next: nat)
      requires Valid() && 0 <= curr < MAX_ALLOC && Since(Abs(), base) && base <= |maps| && i <= |track[curr]| && !inTransition
      modifies mem.Repr, this`touches, this`touched
      ensures Valid() && files.Valid() && mem.Valid() && fresh(mem.Repr - old(mem.Repr)) && Abs() == old(Abs())
      ensures Older(old(Logs()), Logs(), base)
      ensures track[curr] == old(track[curr])
      ensures next == if i > 0 then i - 1 else |track[curr]|
      ensures touched == old(touched) + if i > 0 then [Visit(track[curr][i - 1].addr, false)] else []
    {
      hide *;
      Fields();
      EntryAddr(i - 1, base);
      if i > 0 {
        ghost var before, a, rows := Logs(), AddrOf(i - 1), track[..];
        Touch(i - 1);
        assert track[..][curr] == rows[curr];
        Recent(before, a, base);
        next := i - 1;
      } else {
        next := |track[curr]|;
        Unchanged(Logs(), base);
      }
    }

    /** The holding loop.  It ends after the first n turns that take the clock far enough, and these
        touch the entries of the current phase in the order of HoldLog, and no other mapping. */
    method LoopFor(execTime: real, clock: nat -> real, ghost bound: nat, ghost base: nat) returns (ghost n: nat)
      requires Valid() && 0 <= curr < MAX_ALLOC && Since(Abs(), base) && base <= |maps| && !inTransition
      requires execTime <= clock(bound) - clock(0)
      modifies mem.Repr, this`touches, this`touched
      ensures Valid() && files.Valid() && mem.Valid() && fresh(mem.Repr - old(mem.Repr)) && Abs() == old(Abs())
      ensures Older(old(Logs()), Logs(), base)
      ensures RunsFor(clock, execTime, n)
      ensures touched == old(touched) + HeldVisits(track[curr], n)
    {
      hide *;
      Fields();
      Unchanged(Logs(), base);
      var start := 0.0;
      var run := 0.0;
      var k: nat := 0;
      var now := clock(k);
      var i := |track[curr]|;
      ghost var row, was := track[curr], touched;
      HeldNone(row);
      TimedStart(clock, execTime);
      TimedStep(clock, execTime, 0, now, run);
      while execTime > start + run
        invariant Valid() && files.Valid() && mem.Valid() && fresh(mem.Repr - old(mem.Repr)) && Abs() == old(Abs())
        invariant Older(old(Logs()), Logs(), base)
        invariant Timed(clock, execTime, k, now, run) && (execTime > run || RunsFor(clock, execTime, k))
        invariant track[curr] == row && i == Countdown(|row|, k)
        invariant touched == was + HeldVisits(row, k)
        decreases bound - k
      {
        ghost var before := Logs();
        TimedBound(clock, execTime, k, now, run, bound);
        TimedStep(clock, execTime, k, now, run);
        HeldNext(row, k);
        var loopStart := now;
        i := HoldTurn(i, base);
        OlderTwice(old(Logs()), before, Logs(), base);
        k := k + 1;
        now := clock(k);
        var lastLoop := now - loopStart;
        run := run + lastLoop;
        TimedStep(clock, execTime, k, now, run);
      }
      n := k;
    }

    // ------------------------------------------------------- jobs and main

    method CountPhase()
      requires Valid()
      modifies this`phaseCnt
      ensures Valid() && files.Valid() && mem.Valid() && Logs() == old(Logs())
      ensures Abs() == old(Abs()).(phaseCnt := old(Abs()).phaseCnt + 1)
    {
      hide FileList.Valid, FileList.View, Mappings.Valid, Logs, Linked, Tally;
      phaseCnt := phaseCnt + 1;
    }

    /** The holding of a phase, after which it counts. */
    method Hold(execTime: real, clock: nat -> real, ghost bound: nat, ghost base: nat) returns (ghost n: nat)
      requires Valid() && 0 <= curr < MAX_ALLOC && Since(Abs(), base) && base <= |maps| && !inTransition
      requires execTime <= clock(bound) - clock(0)
      modifies mem.Repr, this`touches, this`touched, this`phaseCnt
      ensures Heap() && Valid() && files.Valid() && mem.Valid() && fresh(mem.Repr - old(mem.Repr))
      ensures Abs() == old(Abs()).(phaseCnt := old(Abs()).phaseCnt + 1) && Older(old(Logs()), Logs(), base)
      ensures 0 <= old(Abs()).curr < |old(Abs()).track|
      ensures RunsFor(clock, execTime, n) && touched == old(touched) + HeldVisits(old(Abs()).track[old(Abs()).curr], n)
    {
      hide *;
      Fields();
      n := LoopFor(execTime, clock, bound, base);
      Fields();
      CountPhase();
      Fields();
    }

    /** A transition and the holding of the phase it begins. */
    method Work(job: nat, execTime: real, ghost bound: nat) returns (ghost n: nat)
      requires Valid() && !exited && !inTransition
      requires execTime <= world.clock(job)(bound) - world.clock(job)(0)
      modifies this, track, files.Repr, mem.Repr
      ensures Heap() && files.Valid() && mem.Valid() && fresh(mem.Repr - old(mem.Repr))
      ensures Shape(c, old(Abs())) && Older(old(Logs()), Logs(), |old(maps)|) && !inTransition
      ensures n == HoldTurns(world.clock(job), execTime, bound)
      ensures old(curr) + 1 == MAX_ALLOC ==>
                && Abs() == old(Abs()).(curr := MAX_ALLOC, status := Overrun)
                && overrun && touched == old(touched)
      ensures old(curr) + 1 < MAX_ALLOC ==>
                var s := old(Abs());
                var t := Machine.TransRandAlloc(c, OracleOf(world, c), s);
                && Valid() && Abs() == (if t.status.Running? then t.(phaseCnt := t.phaseCnt + 1) else t)
                && touched == old(touched) + JobTouches(c, s, t, LoopsOf(world)(s.phaseCnt), n)
    {
      hide *;
      Fields();
      n := HoldTurns(world.clock(job), execTime, bound);
      ghost var s := Abs();
      TransRandAlloc();
      if s.curr + 1 < MAX_ALLOC {
        Fields();
        JobTouchesAre(c, s, Abs(), LoopsOf(world)(s.phaseCnt), n);
      }
      if overrun || exited {
        return;
      }
      ghost var mid := Logs();
      ghost var m := Hold(execTime, world.clock(job), bound, |old(maps)|);
      RunsForUnique(world.clock(job), execTime, m, n);
      OlderTwice(old(Logs()), mid, Logs(), |old(maps)|);
    }

    /** One job, which is skipped if the wall clock has already passed its end.  No mapping of an earlier
        phase is touched. */
    method Job(job: nat, execTime: real, ghost bound: nat) returns (ghost n: nat)
      requires Valid() && !exited && !inTransition
      requires execTime <= world.clock(job)(bound) - world.clock(job)(0)
      modifies this, track, files.Repr, mem.Repr
      ensures Heap() && files.Valid() && mem.Valid() && fresh(mem.Repr - old(mem.Repr))
      ensures Shape(c, old(Abs())) && Older(old(Logs()), Logs(), |old(maps)|) && !inTransition
      ensures n == HoldTurns(world.clock(job), execTime, bound)
      ensures world.late(job) ==> Valid() && !exited && Abs() == old(Abs()) && touched == old(touched)
      ensures !world.late(job) && old(curr) + 1 == MAX_ALLOC ==>
                && Abs() == old(Abs()).(curr := MAX_ALLOC, status := Overrun)
                && overrun && touched == old(touched)
      ensures !world.late(job) && old(curr) + 1 < MAX_ALLOC ==>
                var s := old(Abs());
                var t := Machine.TransRandAlloc(c, OracleOf(world, c), s);
                && Valid() && Abs() == (if t.status.Running? then t.(phaseCnt := t.phaseCnt + 1) else t)
                && touched == old(touched) + JobTouches(c, s, t, LoopsOf(world)(s.phaseCnt), n)
    {
      hide *;
      Fields();
      n := HoldTurns(world.clock(job), execTime, bound);
      Unchanged(Logs(), |maps|);
      if !world.late(job) {
        n := Work(job, execTime, bound);
      }
    }

    /** One turn of the loop of main: the line of the vector file, the tests, and the job. */
    method NextJob(feed: Feed, job: nat, execTime: real, ghost bound: nat, ghost turns: nat -> nat)
      returns (more: bool, rest: Feed)
      requires Valid() && !exited && !inTransition
      requires execTime <= world.clock(job + 1)(bound) - world.clock(job + 1)(0)
      requires turns(job + 1) == HoldTurns(world.clock(job + 1), execTime, bound)
      modifies this, track, files.Repr, mem.Repr
      ensures Heap() && files.Valid() && mem.Valid() && fresh(mem.Repr - old(mem.Repr)) && (!overrun ==> Valid())
      ensures Shape(c, old(Abs())) && !inTransition
      ensures var turn := OneTurn(c, OracleOf(world, c), feed, old(Abs()), job);
              if more then Valid() && !exited && turn == Next(rest, Abs()) else turn == Last(Abs())
      ensures touched ==
              old(touched) + TurnTouches(c, OracleOf(world, c), feed, old(Abs()), job, LoopsOf(world), turns)
    {
      hide *;
      Fields();
      OracleLate(world, c);
      TurnCases(c, OracleOf(world, c), feed, Abs(), job, LoopsOf(world), turns);
      rest := feed;
      if rest.Some? {
        if rest.value == [] {
          return false, rest;
        }
        ResetMaxAllocPerPhase(rest.value[0]);
        rest := Some(rest.value[1..]);
      }
      Fields();
      var allocNomore := c.maxLimit < fileCnt + anonCnt;
      var curJob := job + 1;
      if c.maxPhase <= curJob || allocNomore {
        return false, rest;
      }
      ghost var s1 := Abs();
      ghost var n := Job(curJob, execTime, bound);
      if world.late(curJob) || s1.curr + 1 < MAX_ALLOC {
        Fields();
      }
      more := !overrun && !exited;
    }

    /** The loop of main. */
    method RunJobs(feed: Feed, times: nat -> real, ghost bounds: nat -> nat)
      requires Valid() && !exited && !inTransition && Clocked(world, times, bounds)
      modifies this, track, files.Repr, mem.Repr
      ensures Heap() && files.Valid() && (!overrun ==> Valid())
      ensures Shape(c, old(Abs())) && Abs() == Run(c, OracleOf(world, c), feed, old(Abs()), 0)
      ensures touched == old(touched) + RunTouches(c, OracleOf(world, c), feed, old(Abs()), 0,
                                                   LoopsOf(world), TurnsOf(world, times, bounds))
    {
      hide *;
      Fields();
      OracleLate(world, c);
      ghost var o, loops, turns := OracleOf(world, c), LoopsOf(world), TurnsOf(world, times, bounds);
      ghost var goal := Run(c, o, feed, Abs(), 0);
      ghost var all := touched + RunTouches(c, o, feed, Abs(), 0, loops, turns);
      var curJob := 0;
      var rest := feed;
      var more := true;
      while more
        invariant Heap() && files.Valid() && fresh(mem.Repr - old(mem.Repr)) && (!overrun ==> Valid()) && !inTransition
        invariant if more then
                    && Valid() && !exited && Shape(c, Abs()) && Run(c, o, rest, Abs(), curJob) == goal
                    && touched + RunTouches(c, o, rest, Abs(), curJob, loops, turns) == all
                  else Abs() == goal && touched == all
        decreases more, c.maxPhase - curJob
      {
        Fields();
        TurnsAre(world, times, bounds, curJob + 1);
        RunNext(c, o, rest, Abs(), curJob, loops, turns, touched);
        more, rest := NextJob(rest, curJob, times(curJob + 1), bounds(curJob + 1), turns);
        curJob := curJob + 1;
      }
    }

    /** A whole run, from the state that the constructor and the options leave. */
    method RunProgram(feed: Feed, times: nat -> real, ghost bounds: nat -> nat)
      requires Valid() && files.Valid() && Fresh(c, Abs()) && touched == [] && !inTransition && Clocked(world, times, bounds)
      modifies this, track, files.Repr, mem.Repr
      ensures Heap() && files.Valid() && (!overrun ==> Valid())
      ensures Abs() == Run(c, OracleOf(world, c), feed, old(Abs()), 0)
      ensures Safe(c, Abs()) && Later(old(Abs()), Abs())
      ensures RunFair(old(Abs()), Abs(), touched, LoopsOf(world), TurnsOf(world, times, bounds), world.late)
    {
      hide *;
      Fields();
      OracleLate(world, c);
      WholeRunFacts(c, OracleOf(world, c), feed, Abs(), LoopsOf(world), TurnsOf(world, times, bounds));
      RunJobs(feed, times, bounds);
    }
  }

  /** The options that set the budget of a phase. */
  datatype Options = Options(perPhase: Option<nat>, precise: bool)

  /** The program from its start: the list of files, the variables, the options, and the run. */
  method Gobble(c: Config, world: World, sizes: seq<nat>, paths: seq<array<FilePath>>, access: Pattern,
                options: Options, feed: Feed, times: nat -> real, ghost bounds: nat -> nat)
    returns (g: Gobbler, ghost s: State)
    requires |sizes| == |paths| && c.speed < |sizes| && c.speed + 1 < TWO_64
    requires forall i | 0 <= i < |sizes| :: WholePages(sizes[i]) && sizes[i] < TWO_64
    requires forall i, j | 0 <= i < j < |paths| :: paths[i] != paths[j]
    requires forall i | 0 <= i < |paths| :: paths[i].Length >= 1
    requires forall i, j | 0 <= i < |paths| && 0 <= j < paths[i].Length ::
               paths[i][j].alloc == 0 && (paths[i][j].path.None? <==> j == paths[i].Length - 1)
    requires Clocked(world, times, bounds)
    modifies set p | p in paths
    ensures fresh(g) && g.c == c && g.world == world && g.mem.access == access
    ensures Fresh(c, s) && s.precision == (options.precise || options.perPhase.Some?)
    ensures options.perPhase.Some? ==> s.budget == options.perPhase.value && s.byteCap == s.budget * PAGE_SIZE
    ensures options.perPhase.None? ==> s.budget == 150 && s.byteCap == 0
    ensures g.files.Valid() && g.Heap()
    ensures OracleOk(c, OracleOf(world, c)) && g.Abs() == Run(c, OracleOf(world, c), feed, s, 0) && Safe(c, g.Abs())
    ensures RunFair(s, g.Abs(), g.touched, LoopsOf(world), TurnsOf(world, times, bounds), world.late)
  {
    hide Gobbler.Heap, FileList.Valid, Safe, RunFair;
    var files := new FileList(sizes, paths);
    g := new Gobbler(c, world, files, access);
    if options.perPhase.Some? {
      g.ResetMaxAllocPerPhase(options.perPhase.value);
    }
    if options.precise {
      g.SetPrecise();
    }
    s := g.Abs();
    g.RunProgram(feed, times, bounds);
  }

  /** At any time of a run: what has been done to every mapping is what its touches do, in their order, each
      on its own streams and as in a transition or not. */
  lemma EveryLog(g: Gobbler, k: nat)
    requires g.Heap() && k < |g.maps|
    ensures k < |g.mem.regions| && PAGE_SIZE <= g.maps[k].len < TWO_64
    ensures g.mem.regions[k].data.Length == |g.mem.regions[k].initial| == g.maps[k].len
    ensures g.mem.regions[k].Valid()
    ensures g.mem.regions[k].log == LogOf(g.mem.access, k, g.maps[k].len, g.touched, g.world.touchRand)
    ensures TouchedTimes(g.mem.access, g.mem.regions[k].log, g.maps[k].len, InTransitions(g, k), InHolding(g, k))
  {
    hide FileList.Valid, Linked, TouchedTimes, LogOf;
    assert g.mem.Owned(g.mem.regions[k]);
    TallyLen(g.mem.access, g.maps, g.Logs(), g.touched, g.world.touchRand, k);
  }

  /** How often mapping k has been touched in transitions, and how often in holding. */
  ghost function InTransitions(g: Gobbler, k: nat): nat
    reads g
  {
    multiset(g.touched)[Visit(k, true)]
  }

  ghost function InHolding(g: Gobbler, k: nat): nat
    reads g
  {
    multiset(g.touched)[Visit(k, false)]
  }

  /** RANDOM at any time of a run: a mapping has had 20 touches for each window of its halves and each time
      that it was touched in a transition, and 2500 for each time that it was in holding; only reachable
      bytes have been touched, and each is what its own touches have made it. */
  lemma RandBytes(g: Gobbler, k: nat, b: nat)
    requires g.Heap() && k < |g.maps| && g.mem.access.MemRand? && b < g.maps[k].len
    ensures k < |g.mem.regions| && g.mem.regions[k].data.Length == |g.mem.regions[k].initial| == g.maps[k].len
    ensures g.maps[k].len >= PAGE_SIZE
    ensures |g.mem.regions[k].log| == RandTouches(g.maps[k].len, InTransitions(g, k), InHolding(g, k))
    ensures var r, n := g.mem.regions[k], Hits(g.mem.regions[k].log, b);
            && (n > 0 ==> Patterns.RandReachable(g.maps[k].len, b))
            && r.data[b] == if n == 0 then r.initial[b] else if (r.initial[b] == 0x0f) == (n % 2 == 0) then 0x0f else 0
  {
    hide LogOf, Patterns.RandReachable;
    EveryLog(g, k);
    var r, n := g.mem.regions[k], Hits(g.mem.regions[k].log, b);
    assert TogglesOnly(r.log);
    if n > 0 {
      assert Toggled(b) in r.log;
      var i :| 0 <= i < |r.log| && r.log[i] == Toggled(b);
      assert Patterns.Reach(g.maps[k].len)(r.log[i].at);
    }
    AfterAt(r.initial, r.log, b);
    ToggleParity(r.initial[b], n);
    assert r.data[..][b] == r.data[b];
  }

  /** So in a completed phase every mapping has had 20 touches a window for each loop of the phase, and 2500
      a window for each turn that was its share. */
  lemma PhaseRandTouches(g: Gobbler, s: State, loops: nat -> nat, turns: nat -> nat, jobs: seq<nat>, i: nat, k: nat)
    requires g.Heap() && SharedOut(s, g.Abs(), g.touched, loops, turns, jobs) && i < |jobs|
    requires s.phaseCnt + i < g.track.Length && k < |g.track[s.phaseCnt + i]| && g.mem.access.MemRand?
    ensures var p, row := s.phaseCnt + i, g.track[s.phaseCnt + i];
            var a := row[k].addr;
            && a < |g.maps| == |g.mem.regions| && g.maps[a].len >= PAGE_SIZE
            && |g.mem.regions[a].log| ==
               (20 * loops(p) + 2500 * Share(|row|, turns(jobs[i]), k))
               * (Patterns.WindowCount(g.maps[a].len / 2) + Patterns.WindowCount(g.maps[a].len - g.maps[a].len / 2))
  {
    hide SharedOut, Share, FileList.Valid, Mappings.Valid, Linked, LogOf;
    PhaseTouches(g, s, loops, turns, jobs, i, k);
    var a := g.track[s.phaseCnt + i][k].addr;
    EveryLog(g, a);
  }

  /** STRIDE, SEQUENTIAL and REPEAT at any time of a run: the contents of every mapping, byte by
      byte, from how often it has been touched. */
  lemma SteadyBytes(g: Gobbler, k: nat, b: nat)
    requires g.Heap() && k < |g.maps| && Steady(g.mem.access) && b < g.maps[k].len
    ensures k < |g.mem.regions| && g.mem.regions[k].data.Length == |g.mem.regions[k].initial| == g.maps[k].len
    ensures g.maps[k].len >= PAGE_SIZE
    ensures var r, n := g.mem.regions[k],
              (InTransitions(g, k) + InHolding(g, k)) * PerTouch(g.mem.access, g.maps[k].len, b);
            r.data[b] == if n == 0 then r.initial[b] else if (r.initial[b] == 0x0f) == (n % 2 == 0) then 0x0f else 0
  {
    hide PerTouch, TouchedTimes, LogOf;
    EveryLog(g, k);
    var r := g.mem.regions[k];
    SteadyContents(g.mem.access, r.initial, r.log, InTransitions(g, k), InHolding(g, k), b);
    assert r.data[..][b] == r.data[b];
  }

  /** FIX at any time of a run: at most one byte of a mapping has changed, and whether the number of
      touches of the mapping is odd or even decides to what.  Its place is what rand_intr has drawn at the
      first touch of the mapping, number t of the run. */
  lemma FixBytes(g: Gobbler, k: nat) returns (t: nat)
    requires g.Heap() && k < |g.maps| && g.mem.access.MemFix?
    ensures k < |g.mem.regions| && g.mem.regions[k].data.Length == |g.mem.regions[k].initial| == g.maps[k].len
    ensures g.maps[k].len >= PAGE_SIZE
    ensures var r, n := g.mem.regions[k], InTransitions(g, k) + InHolding(g, k);
            if n == 0 then r.data[..] == r.initial
            else
              && t < |g.touched| && g.touched[t].addr == k && (forall u: nat | u < t :: g.touched[u].addr != k)
              && var loc := RandIntrValue(g.world.touchRand(t)(0, 0, 0).raw, 0, g.maps[k].len - 10);
                 r.data[..] == r.initial[loc := if n % 2 == 1 then 0 else 0x0f]
  {
    hide FileList.Valid, Linked, LogOf, RandIntrValue, Mappings.Valid;
    EveryLog(g, k);
    hide Gobbler.Heap;
    MemFixed(g, k);
    t := 0;
    if g.mem.regions[k].log != [] {
      t := FixPlace(k, g.maps[k].len, g.touched, g.world.touchRand);
    }
  }

  /** The contents of a mapping under FIX, from the first access in its log. */
  lemma MemFixed(g: Gobbler, k: nat)
    requires g.Heap() && k < |g.maps| && g.mem.access.MemFix?
    ensures k < |g.mem.regions|
    ensures var r := g.mem.regions[k];
            if r.log == [] then r.data[..] == r.initial
            else
              && r.log[0].at < |r.initial|
              && r.data[..] == r.initial[r.log[0].at := if |r.log| % 2 == 1 then 0 else 0x0f]
  {
    hide FileList.Valid, Linked, Tally;
    var r := g.mem.regions[k];
    assert g.mem.Owned(r) && g.mem.Kept(r);
    if r.log != [] {
      FixRun(g.mem, k);
      FixFirst(g.mem.book.locs[r], |r.log|);
    }
  }

  /** The touches of entry k of the i-th phase of a run. */
  lemma PhaseTouches(g: Gobbler, s: State, loops: nat -> nat, turns: nat -> nat, jobs: seq<nat>, i: nat, k: nat)
    requires g.Heap() && SharedOut(s, g.Abs(), g.touched, loops, turns, jobs) && i < |jobs|
    requires s.phaseCnt + i < g.track.Length && k < |g.track[s.phaseCnt + i]|
    ensures var p, row := s.phaseCnt + i, g.track[s.phaseCnt + i];
            && row[k].addr < |g.maps|
            && InTransitions(g, row[k].addr) == loops(p)
            && InHolding(g, row[k].addr) == Share(|row|, turns(jobs[i]), k)
  {
    hide FileList.Valid, Tally, Share;
    var p := s.phaseCnt + i;
    assert PhaseFair(s, g.Abs(), g.touched, loops, turns, jobs, i);
    assert g.Abs().track[p] == g.track[p];
    assert Linked(g.track[p], |g.maps|);
  }

  /** The final bytes of the mappings of a completed phase under STRIDE, SEQUENTIAL and REPEAT: what they
      were, turned as often as the phase has looped and its share of the turns of its job, times what one
      touch does to the byte. */
  lemma PhaseSteadyBytes(g: Gobbler, s: State, loops: nat -> nat, turns: nat -> nat, jobs: seq<nat>,
                         i: nat, k: nat, b: nat)
    requires g.Heap() && SharedOut(s, g.Abs(), g.touched, loops, turns, jobs) && i < |jobs|
    requires s.phaseCnt + i < g.track.Length && k < |g.track[s.phaseCnt + i]| && Steady(g.mem.access)
    requires var a := g.track[s.phaseCnt + i][k].addr; a < |g.maps| ==> b < g.maps[a].len
    ensures var p, row := s.phaseCnt + i, g.track[s.phaseCnt + i];
            var a := row[k].addr;
            && a < |g.maps| == |g.mem.regions| && b < g.mem.regions[a].data.Length == |g.mem.regions[a].initial|
            && g.maps[a].len >= PAGE_SIZE
            && var r, n := g.mem.regions[a],
                 (loops(p) + Share(|row|, turns(jobs[i]), k)) * PerTouch(g.mem.access, g.maps[a].len, b);
               r.data[b] == if n == 0 then r.initial[b] else if (r.initial[b] == 0x0f) == (n % 2 == 0) then 0x0f else 0
  {
    hide SharedOut, Share, PerTouch, FileList.Valid, Mappings.Valid, Linked;
    PhaseTouches(g, s, loops, turns, jobs, i, k);
    SteadyBytes(g, g.track[s.phaseCnt + i][k].addr, b);
  }

  /** The same under FIX: the one byte that can have changed, by the parity of these touches. */
  lemma PhaseFixBytes(g: Gobbler, s: State, loops: nat -> nat, turns: nat -> nat, jobs: seq<nat>, i: nat, k: nat)
    returns (t: nat)
    requires g.Heap() && SharedOut(s, g.Abs(), g.touched, loops, turns, jobs) && i < |jobs|
    requires s.phaseCnt + i < g.track.Length && k < |g.track[s.phaseCnt + i]| && g.mem.access.MemFix?
    ensures var p, row := s.phaseCnt + i, g.track[s.phaseCnt + i];
            var a := row[k].addr;
            && a < |g.maps| == |g.mem.regions| && g.maps[a].len == |g.mem.regions[a].initial| >= PAGE_SIZE
            && var r, n := g.mem.regions[a], loops(p) + Share(|row|, turns(jobs[i]), k);
               if n == 0 then r.data[..] == r.initial
               else
                 && t < |g.touched| && g.touched[t].addr == a && (forall u: nat | u < t :: g.touched[u].addr != a)
                 && var loc := RandIntrValue(g.world.touchRand(t)(0, 0, 0).raw, 0, g.maps[a].len - 10);
                    r.data[..] == r.initial[loc := if n % 2 == 1 then 0 else 0x0f]
  {
    hide SharedOut, Share, FileList.Valid, Mappings.Valid, Linked, RandIntrValue, LogOf;
    PhaseTouches(g, s, loops, turns, jobs, i, k);
    t := FixBytes(g, g.track[s.phaseCnt + i][k].addr);
  }
}
