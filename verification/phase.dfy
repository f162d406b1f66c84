/** What one phase does with its budget: pages, failed requests, types, and room in the tracker. */
module Phase {
  import opened Page
  import opened Pool
  import opened Machine

  // ------------------------------------------------------------ progress

  /** r is a later state of the phase that s is in: nothing is undone, and nothing outside the
      current phase has moved. */
  ghost predicate SamePhase(s: State, r: State) {
    && s.maps <= r.maps && s.typeCnt <= r.typeCnt && Grows(s.pool, r.pool)
    && |r.maps| - |s.maps| <= r.typeCnt - s.typeCnt
    && r.curr == s.curr && r.phaseCnt == s.phaseCnt
    && r.budget == s.budget && r.precision == s.precision && r.byteCap == s.byteCap
    && 0 <= s.curr < |s.track| == |r.track|
    && s.track[s.curr] <= r.track[s.curr]
    && (forall p | 0 <= p < |s.track| && p != s.curr :: r.track[p] == s.track[p])
  }

  lemma SamePhaseTransitive(s: State, t: State, r: State)
    requires SamePhase(s, t) && SamePhase(t, r)
    ensures SamePhase(s, r)
  {
  }

  lemma ProbeGrows(pool: seq<SizeClass>, len: nat)
    ensures Grows(pool, GetFilePath(pool, len).pool)
  {
  }

  lemma TakeGrows(pool: seq<SizeClass>, f: FileRef)
    requires f.cls < |pool| && f.node < |pool[f.cls].inUse|
    ensures Grows(pool, Take(pool, f))
  {
  }

  /** One request, in terms of what it adds. */
  ghost predicate Steps(s: State, slice: int, d: Draw, r: Reply) {
    && SamePhase(s, r.state) && r.state.typeCnt == s.typeCnt + 1
    && (r.got.None? ==>
          && r.state.maps == s.maps && r.state.total == s.total
          && r.state.track == s.track && r.state.status == s.status
          && AllocType(s.typeCnt, slice, d.typ).File?)
    && (r.got.Some? ==>
          && r.got.value == AllocType(s.typeCnt, slice, d.typ)
          && |r.state.maps| == |s.maps| + 1
          && TypeOf(r.state.maps[|s.maps|]) == r.got.value
          && Pages(r.state.maps[|s.maps|].len) == r.pages
          && (s.byteCap != 0 ==> r.state.maps[|s.maps|].len <= s.byteCap)
          && r.state.total == s.total + r.pages
          && (|s.track[s.curr]| >= MAX_ALLOC_PER_SE ==> r.state.status == Exited && r.state.track == s.track)
          && (|s.track[s.curr]| < MAX_ALLOC_PER_SE ==>
                r.state.status == s.status && |r.state.track[s.curr]| == |s.track[s.curr]| + 1))
  }

  lemma PlaceSteps(s: State, t: State, slice: int, d: Draw, size: nat, path: Option<FileRef>)
    requires |s.track| == MAX_ALLOC && 0 <= s.curr < MAX_ALLOC
    requires t == s.(typeCnt := s.typeCnt + 1, pool := t.pool) && Grows(s.pool, t.pool)
    requires path.Some? ==> path.value.cls < |t.pool| && path.value.node < |t.pool[path.value.cls].inUse|
    requires AllocType(s.typeCnt, slice, d.typ) == TypeOf(Mapping(0, path))
    ensures Steps(s, slice, d, Place(t, size, path))
  {
    if path.Some? {
      TakeGrows(t.pool, path.value);
    }
  }

  lemma RequestSteps(c: Config, s: State, slice: int, d: Draw)
    requires InPhase(c, s) && DrawOk(c, d)
    ensures Steps(s, slice, d, Request(c, s, slice, d))
  {
    var len := AllocLen(c, s.pool, d.picks);
    if AllocType(s.typeCnt, slice, d.typ).Anon? {
      PlaceSteps(s, s.(typeCnt := s.typeCnt + 1), slice, d, len, None);
    } else {
      var p := GetFilePath(s.pool, len);
      ProbeGrows(s.pool, len);
      if p.node.Some? {
        PlaceSteps(s, s.(typeCnt := s.typeCnt + 1, pool := p.pool), slice, d, s.pool[p.node.value.cls].size, p.node);
      }
    }
  }

  ghost function Failed(s: State, r: State): nat
    requires SamePhase(s, r)
  {
    (r.typeCnt - s.typeCnt) - (|r.maps| - |s.maps|)
  }

  lemma TransLater(c: Config, o: Oracle, s: State, cnt: nat, slice: int)
    requires InPhase(c, s) && OracleOk(c, o)
    ensures SamePhase(s, TransLoop(c, o, s, cnt, slice))
  {
    TransLaterTo(c, o, s, cnt, slice, TransLoop(c, o, s, cnt, slice));
  }

  lemma LoopNext(c: Config, o: Oracle, s: State, cnt: nat, slice: int, q: Reply)
    requires InPhase(c, s) && OracleOk(c, o) && cnt > 0 && s.status.Running?
    requires q == Request(c, s, slice, o.draw(s.typeCnt))
    ensures InPhase(c, q.state) && Left(s.precision, q, cnt) < cnt
    ensures TransLoop(c, o, s, cnt, slice) == TransLoop(c, o, q.state, Left(s.precision, q, cnt), SliceAfter(q, slice))
  {
    hide Place;
  }

  lemma LoopZero(c: Config, o: Oracle, s: State, slice: int)
    requires InPhase(c, s) && OracleOk(c, o)
    ensures TransLoop(c, o, s, 0, slice) == s
  {
  }

  lemma LoopStops(c: Config, o: Oracle, s: State, cnt: nat, slice: int)
    requires InPhase(c, s) && OracleOk(c, o) && (cnt == 0 || !s.status.Running?)
    ensures TransLoop(c, o, s, cnt, slice) == s
  {
  }

  lemma ShapeNext(c: Config, s: State)
    requires Shape(c, s) && s.curr + 1 < MAX_ALLOC
    ensures Shape(c, s.(curr := s.curr + 1)) && s.curr >= -1
  {
  }

  /** A phase is its loop, from the state s1 that it begins in. */
  lemma PhaseLoop(c: Config, o: Oracle, s: State) returns (s1: State, cnt: nat, slice: int)
    requires Shape(c, s) && OracleOk(c, o) && s.curr + 1 < MAX_ALLOC
    ensures s1 == s.(curr := s.curr + 1) && InPhase(c, s1)
    ensures s1.curr == s.curr + 1 && s1.pool == s.pool && s1.track == s.track && s1.maps == s.maps
    ensures s1.total == s.total && s1.typeCnt == s.typeCnt && s1.phaseCnt == s.phaseCnt && s1.status == s.status
    ensures s1.budget == s.budget && s1.precision == s.precision && s1.byteCap == s.byteCap
    ensures if s.precision then cnt == s.budget && slice == -1
            else cnt == o.count(s1.curr) && slice == cnt / FILE_RATIO >= 0
    ensures TransRandAlloc(c, o, s) == TransLoop(c, o, s1, cnt, slice)
    ensures cnt == AllocCount(o, s1) && slice == AnonSlice(s1, cnt)
  {
    hide TransLoop, Shape, OracleOk;
    s1 := s.(curr := s.curr + 1);
    ShapeNext(c, s);
    cnt := AllocCount(o, s1);
    slice := AnonSlice(s1, cnt);
  }

  lemma {:induction false} TransLaterTo(c: Config, o: Oracle, s: State, cnt: nat, slice: int, r: State)
    requires InPhase(c, s) && OracleOk(c, o)
    requires r == TransLoop(c, o, s, cnt, slice)
    ensures SamePhase(s, r)
    decreases cnt
  {
    if cnt > 0 && s.status.Running? {
      var q := Request(c, s, slice, o.draw(s.typeCnt));
      RequestSteps(c, s, slice, o.draw(s.typeCnt));
      LoopNext(c, o, s, cnt, slice, q);
      hide *;
      TransLaterTo(c, o, q.state, Left(s.precision, q, cnt), SliceAfter(q, slice), r);
      SamePhaseTransitive(s, q.state, r);
    }
  }

  // ------------------------------------------------- oracles that agree

  ghost predicate Agree(o: Oracle, u: Oracle) {
    && (forall k: nat :: o.draw(k) == u.draw(k) && o.count(k) == u.count(k))
    && (forall j: nat :: o.late(j) == u.late(j))
  }

  lemma {:induction false} SameLoop(c: Config, o: Oracle, u: Oracle, s: State, cnt: nat, slice: int)
    requires InPhase(c, s) && OracleOk(c, o) && OracleOk(c, u) && Agree(o, u)
    ensures TransLoop(c, o, s, cnt, slice) == TransLoop(c, u, s, cnt, slice)
    decreases cnt
  {
    if cnt == 0 || !s.status.Running? {
      LoopStops(c, o, s, cnt, slice);
      LoopStops(c, u, s, cnt, slice);
    } else {
      hide Request, TransLoop, Left, InPhase;
      var q := Request(c, s, slice, o.draw(s.typeCnt));
      LoopNext(c, o, s, cnt, slice, q);
      LoopNext(c, u, s, cnt, slice, q);
      SameLoop(c, o, u, q.state, Left(s.precision, q, cnt), SliceAfter(q, slice));
    }
  }

  lemma SamePhaseResult(c: Config, o: Oracle, u: Oracle, s: State)
    requires Shape(c, s) && s.curr + 1 < MAX_ALLOC && OracleOk(c, o) && OracleOk(c, u) && Agree(o, u)
    ensures TransRandAlloc(c, o, s) == TransRandAlloc(c, u, s)
  {
    hide TransLoop, TransRandAlloc, Shape, OracleOk;
    var s1, cnt, slice := PhaseLoop(c, o, s);
    var s2, cnt2, slice2 := PhaseLoop(c, u, s);
    SameLoop(c, o, u, s1, cnt, slice);
  }

  // -------------------------------------------------------------- lengths

  predicate InLimit(pool: seq<SizeClass>, maxReq: nat, p: nat) {
    p < |pool| && pool[p].size <= maxReq
  }

  /** The retries end on the first draw within the limit, or else on the tenth. */
  lemma {:induction false} PickFirst(pool: seq<SizeClass>, maxReq: nat, picks: seq<nat>, j: nat) returns (i: nat)
    requires |picks| == 10 && j < 10 && forall p | p in picks :: p < |pool|
    ensures j <= i < 10 && Pick(pool, maxReq, picks, j) == picks[i]
    ensures forall m | j <= m < i :: !InLimit(pool, maxReq, picks[m])
    ensures i == 9 || InLimit(pool, maxReq, picks[i])
    decreases 10 - j
  {
    assert picks[j] in picks;
    if j < 9 && pool[picks[j]].size > maxReq {
      i := PickFirst(pool, maxReq, picks, j + 1);
    } else {
      i := j;
    }
  }

  /** Ten draws are enough for a class within the limit exactly when one of them is within it. */
  lemma {:induction false} PickFits(pool: seq<SizeClass>, maxReq: nat, picks: seq<nat>, j: nat)
    requires |picks| == 10 && j < 10 && forall p | p in picks :: p < |pool|
    ensures pool[Pick(pool, maxReq, picks, j)].size <= maxReq <==>
            exists i :: j <= i < 10 && InLimit(pool, maxReq, picks[i])
    decreases 10 - j
  {
    assert picks[j] in picks;
    if j < 9 && pool[picks[j]].size > maxReq {
      PickFits(pool, maxReq, picks, j + 1);
    }
  }

  /** But draws that share a seed are all equal, and then the first one is taken whatever its size. */
  lemma {:induction false} PickSame(pool: seq<SizeClass>, maxReq: nat, picks: seq<nat>, j: nat)
    requires |picks| == 10 && j < 10 && forall p | p in picks :: p < |pool|
    requires forall i | 0 <= i < 10 :: picks[i] == picks[0]
    ensures Pick(pool, maxReq, picks, j) == picks[0]
    decreases 10 - j
  {
    assert picks[j] in picks;
    if j < 9 {
      PickSame(pool, maxReq, picks, j + 1);
    }
  }

  // ---------------------------------------------------- precision budget

  /** No mapping that r has beyond those of s is larger than p pages. */
  ghost predicate Largest(s: State, r: State, p: nat) {
    forall k | |s.maps| <= k < |r.maps| :: Pages(r.maps[k].len) <= p
  }

  /** A precise phase spends its budget: pages and failed requests together come to at least the
      budget, and pass it by less than the largest allocation. */
  lemma {:induction false} BudgetSpent(c: Config, o: Oracle, s: State, cnt: nat, slice: int, p: nat)
    requires InPhase(c, s) && OracleOk(c, o) && s.precision && s.status.Running? && cnt >= 1 && p >= 1
    requires Largest(s, TransLoop(c, o, s, cnt, slice), p)
    ensures var r := TransLoop(c, o, s, cnt, slice);
            && SamePhase(s, r) && r.total >= s.total
            && (r.total - s.total) + Failed(s, r) <= cnt - 1 + p
            && (r.status.Running? ==> cnt <= (r.total - s.total) + Failed(s, r))
    decreases cnt
  {
    TransLater(c, o, s, cnt, slice);
    var d := o.draw(s.typeCnt);
    var r := Request(c, s, slice, d);
    RequestSteps(c, s, slice, d);
    var next := Left(true, r, cnt);
    var slice' := SliceAfter(r, slice);
    var z := TransLoop(c, o, r.state, next, slice');
    assert z == TransLoop(c, o, s, cnt, slice);
    TransLater(c, o, r.state, next, slice');
    if r.got.Some? {
      assert z.maps[|s.maps|] == r.state.maps[|s.maps|];
    }
    if next > 0 && r.state.status.Running? {
      BudgetSpent(c, o, r.state, next, slice', p);
    }
  }

  /** With a byte cap no mapping is larger than the cap. */
  lemma {:induction false} CapHolds(c: Config, o: Oracle, s: State, cnt: nat, slice: int, m: nat)
    requires InPhase(c, s) && OracleOk(c, o) && s.byteCap == m * PAGE_SIZE && m >= 1
    ensures Largest(s, TransLoop(c, o, s, cnt, slice), m)
    decreases cnt
  {
    if cnt > 0 && s.status.Running? {
      var d := o.draw(s.typeCnt);
      var r := Request(c, s, slice, d);
      RequestSteps(c, s, slice, d);
      var next := Left(s.precision, r, cnt);
      var slice' := SliceAfter(r, slice);
      CapHolds(c, o, r.state, next, slice', m);
      TransLater(c, o, r.state, next, slice');
    }
  }

  // --------------------------------------------------------------- types

  ghost function AnonIn(maps: seq<Mapping>): nat {
    if maps == [] then 0 else AnonIn(maps[..|maps| - 1]) + if TypeOf(maps[|maps| - 1]).Anon? then 1 else 0
  }

  /** How many of the first n requests of a precise run are anonymous. */
  function AnonTurns(n: nat): nat {
    if n == 0 then 0 else (n - 1) / FILE_RATIO
  }

  lemma TypeStep(c: Config, s: State, slice: int, d: Draw)
    requires InPhase(c, s) && DrawOk(c, d)
    ensures var r := Request(c, s, slice, d);
            var typ := AllocType(s.typeCnt, slice, d.typ);
            && r.state.typeCnt == s.typeCnt + 1 && r.state.precision == s.precision
            && AnonIn(r.state.maps) == AnonIn(s.maps) + (if typ.Anon? then 1 else 0)
            && SliceAfter(r, slice) == (if typ.Anon? then slice - 1 else slice)
  {
    var r := Request(c, s, slice, d);
    RequestSteps(c, s, slice, d);
    if r.got.Some? {
      assert r.state.maps[..|s.maps|] == s.maps;
    }
  }

  lemma AnonTurnsStep(n: nat)
    ensures AnonTurns(n + 1) == AnonTurns(n) + if n % FILE_RATIO == 0 && n != 0 then 1 else 0
  {
  }

  /** A precise run has made exactly every fourth request anonymous, whatever phase it came in, and
      no anonymous one has failed. */
  lemma {:induction false} PreciseRatio(c: Config, o: Oracle, s: State, cnt: nat, slice: int)
    requires InPhase(c, s) && OracleOk(c, o) && slice < 0
    requires AnonIn(s.maps) == AnonTurns(s.typeCnt)
    ensures var r := TransLoop(c, o, s, cnt, slice); AnonIn(r.maps) == AnonTurns(r.typeCnt)
    decreases cnt
  {
    if cnt > 0 && s.status.Running? {
      var d := o.draw(s.typeCnt);
      var r := Request(c, s, slice, d);
      TypeStep(c, s, slice, d);
      AnonTurnsStep(s.typeCnt);
      PreciseRatio(c, o, r.state, Left(s.precision, r, cnt), SliceAfter(r, slice));
    }
  }

  /** Three file requests to one anonymous one, to within four. */
  lemma ThreeToOne(n: nat)
    requires n >= 1
    ensures 3 * AnonTurns(n) + 1 <= n - AnonTurns(n) <= 3 * AnonTurns(n) + 4
  {
  }

  /** A phase without precision makes exactly cnt requests, and the slice bounds the anonymous ones. */
  lemma {:induction false} SliceBound(c: Config, o: Oracle, s: State, cnt: nat, slice: int, r: State)
    requires InPhase(c, s) && OracleOk(c, o) && !s.precision && slice >= 0 && s.status.Running?
    requires r == TransLoop(c, o, s, cnt, slice)
    ensures AnonIn(s.maps) <= AnonIn(r.maps) <= AnonIn(s.maps) + slice
    ensures r.typeCnt <= s.typeCnt + cnt
    ensures r.status.Running? ==> r.typeCnt == s.typeCnt + cnt
    decreases cnt
  {
    if cnt > 0 {
      var d := o.draw(s.typeCnt);
      var q := Request(c, s, slice, d);
      TypeStep(c, s, slice, d);
      if q.state.status.Running? {
        SliceBound(c, o, q.state, cnt - 1, SliceAfter(q, slice), r);
      }
    }
  }

  /** The type draws of n requests from number k on share a seed. */
  ghost predicate SameType(o: Oracle, k: nat, n: nat, typ: MemType) {
    forall i | k <= i < k + n :: o.draw(i).typ == typ
  }

  /** How many of n type draws from number k on are anonymous. */
  ghost function AnonDraws(o: Oracle, k: nat, n: nat): (a: nat)
    ensures a <= n
    decreases n
  {
    if n == 0 then 0 else (if o.draw(k).typ.Anon? then 1 else 0) + AnonDraws(o, k + 1, n - 1)
  }

  /** Without precision the anonymous requests are exactly the first ones that are drawn so, as many as the
      slice allows. */
  lemma {:induction false} SliceExactly(c: Config, o: Oracle, s: State, cnt: nat, slice: nat, r: State)
    requires InPhase(c, s) && OracleOk(c, o) && !s.precision && s.status.Running?
    requires |s.track[s.curr]| + cnt <= 500
    requires r == TransLoop(c, o, s, cnt, slice)
    ensures var drawn := AnonDraws(o, s.typeCnt, cnt);
            AnonIn(r.maps) == AnonIn(s.maps) + if drawn <= slice then drawn else slice
    decreases cnt
  {
    hide TransLoop, Request, AnonIn, InPhase, OracleOk;
    if cnt == 0 {
      LoopZero(c, o, s, slice);
    } else {
      var typ := o.draw(s.typeCnt).typ;
      var next := if slice > 0 && typ.Anon? then slice - 1 else slice;
      SecondStep(c, o, s, cnt, slice, typ, next);
      var q := Request(c, s, slice, o.draw(s.typeCnt));
      LoopNext(c, o, s, cnt, slice, q);
      SliceExactly(c, o, q.state, cnt - 1, next, r);
    }
  }

  lemma {:induction false} AnonDrawsSame(o: Oracle, k: nat, n: nat, typ: MemType)
    requires SameType(o, k, n, typ)
    ensures AnonDraws(o, k, n) == if typ.Anon? then n else 0
    decreases n
  {
    if n > 0 {
      SameTypeNext(o, k, n, typ);
      AnonDrawsSame(o, k + 1, n - 1, typ);
    }
  }

  /** So when the type draws of one phase all come within one second, the slice is used up entirely, or
      not at all ... */
  lemma SameSecond(c: Config, o: Oracle, s: State, cnt: nat, slice: nat, typ: MemType, r: State)
    requires InPhase(c, s) && OracleOk(c, o) && !s.precision && s.status.Running?
    requires SameType(o, s.typeCnt, cnt, typ)
    requires (typ.Anon? ==> slice <= cnt) && |s.track[s.curr]| + cnt <= MAX_ALLOC_PER_SE
    requires r == TransLoop(c, o, s, cnt, slice)
    ensures AnonIn(r.maps) == AnonIn(s.maps) + if typ.Anon? then slice else 0
  {
    SliceExactly(c, o, s, cnt, slice, r);
    AnonDrawsSame(o, s.typeCnt, cnt, typ);
  }

  lemma SameTypeNext(o: Oracle, k: nat, n: nat, typ: MemType)
    requires SameType(o, k, n, typ) && n > 0
    ensures o.draw(k).typ == typ && SameType(o, k + 1, n - 1, typ)
  {
  }

  lemma SecondStep(c: Config, o: Oracle, s: State, cnt: nat, slice: nat, typ: MemType, next: nat)
    requires InPhase(c, s) && OracleOk(c, o) && !s.precision && s.status.Running? && cnt > 0
    requires o.draw(s.typeCnt).typ == typ && |s.track[s.curr]| + cnt <= MAX_ALLOC_PER_SE
    requires next == if slice > 0 && typ.Anon? then slice - 1 else slice
    ensures DrawOk(c, o.draw(s.typeCnt))
    ensures var q := Request(c, s, slice, o.draw(s.typeCnt));
            && InPhase(c, q.state) && !q.state.precision && q.state.typeCnt == s.typeCnt + 1
            && q.state.status.Running? && 0 <= q.state.curr < |q.state.track|
            && |q.state.track[q.state.curr]| + cnt - 1 <= MAX_ALLOC_PER_SE
            && AnonIn(q.state.maps) == AnonIn(s.maps) + slice - next
            && Left(s.precision, q, cnt) == cnt - 1 && SliceAfter(q, slice) == next
  {
    TypeStep(c, s, slice, o.draw(s.typeCnt));
    RequestSteps(c, s, slice, o.draw(s.typeCnt));
    hide Request, AnonIn, Grows;
  }

  /** ... and if it is, then by the first requests of the phase. */
  lemma {:induction false} SameSecondFirst(c: Config, o: Oracle, s: State, cnt: nat, slice: nat, k: nat, r: State)
    requires InPhase(c, s) && OracleOk(c, o) && !s.precision && s.status.Running?
    requires SameType(o, s.typeCnt, cnt, Anon)
    requires k < slice <= cnt && |s.track[s.curr]| + cnt <= MAX_ALLOC_PER_SE
    requires r == TransLoop(c, o, s, cnt, slice)
    ensures |s.maps| + k < |r.maps| && TypeOf(r.maps[|s.maps| + k]).Anon?
    decreases cnt
  {
    hide *;
    SameTypeNext(o, s.typeCnt, cnt, Anon);
    SecondAnon(c, o, s, cnt, slice);
    var q := Request(c, s, slice, o.draw(s.typeCnt));
    LoopNext(c, o, s, cnt, slice, q);
    if k == 0 {
      LaterMapping(c, o, q.state, cnt - 1, slice - 1, r);
      assert r.maps[|s.maps|] == q.state.maps[|s.maps|];
    } else {
      SameSecondFirst(c, o, q.state, cnt - 1, slice - 1, k - 1, r);
    }
  }

  lemma LaterMapping(c: Config, o: Oracle, s: State, cnt: nat, slice: int, r: State)
    requires InPhase(c, s) && OracleOk(c, o) && r == TransLoop(c, o, s, cnt, slice)
    ensures s.maps <= r.maps
  {
    TransLater(c, o, s, cnt, slice);
  }

  lemma SecondAnon(c: Config, o: Oracle, s: State, cnt: nat, slice: nat)
    requires InPhase(c, s) && OracleOk(c, o) && !s.precision && s.status.Running? && cnt > 0 && slice > 0
    requires o.draw(s.typeCnt).typ == Anon && |s.track[s.curr]| + cnt <= MAX_ALLOC_PER_SE
    ensures DrawOk(c, o.draw(s.typeCnt))
    ensures var q := Request(c, s, slice, o.draw(s.typeCnt));
            && InPhase(c, q.state) && !q.state.precision && q.state.typeCnt == s.typeCnt + 1
            && q.state.status.Running? && 0 <= q.state.curr < |q.state.track|
            && |q.state.track[q.state.curr]| + cnt - 1 <= MAX_ALLOC_PER_SE
            && |q.state.maps| == |s.maps| + 1 && TypeOf(q.state.maps[|s.maps|]).Anon?
            && Left(s.precision, q, cnt) == cnt - 1 && SliceAfter(q, slice) == slice - 1
  {
    RequestSteps(c, s, slice, o.draw(s.typeCnt));
    hide Request, Grows;
  }

  // ------------------------------------------------------------ capacity

  /** From s to r the phase has added entries and failed requests of no more than n in all. */
  ghost predicate SpentWithin(s: State, r: State, n: int) {
    SamePhase(s, r) && |r.track[s.curr]| + Failed(s, r) <= |s.track[s.curr]| + n
  }

  /** Every mapping made has got its entry. */
  ghost predicate AllTracked(s: State, r: State) {
    && r.status.Running? && SamePhase(s, r)
    && |r.track[s.curr]| - |s.track[s.curr]| == |r.maps| - |s.maps|
  }

  lemma SpentStep(c: Config, o: Oracle, s: State, cnt: nat, slice: int, q: Reply)
    requires InPhase(c, s) && OracleOk(c, o) && s.status.Running? && cnt > 0
    requires q == Request(c, s, slice, o.draw(s.typeCnt))
    ensures SpentWithin(s, q.state, cnt - Left(s.precision, q, cnt))
    ensures |s.track[s.curr]| < MAX_ALLOC_PER_SE ==> AllTracked(s, q.state)
  {
    RequestSteps(c, s, slice, o.draw(s.typeCnt));
  }

  lemma SpentTwice(s: State, t: State, r: State, m: int, n: int)
    requires SpentWithin(s, t, m) && SpentWithin(t, r, n)
    ensures SpentWithin(s, r, m + n)
    ensures AllTracked(s, t) && AllTracked(t, r) ==> AllTracked(s, r)
  {
    SamePhaseTransitive(s, t, r);
    hide Grows;
  }

  lemma SpentSelf(s: State)
    requires 0 <= s.curr < |s.track|
    ensures SpentWithin(s, s, 0) && (s.status.Running? ==> AllTracked(s, s))
  {
  }

  lemma RoomLeft(s: State, t: State, cnt: nat, left: nat)
    requires SpentWithin(s, t, cnt - left) && |s.track[s.curr]| + cnt <= MAX_ALLOC_PER_SE
    ensures 0 <= t.curr < |t.track| && |t.track[t.curr]| + left <= MAX_ALLOC_PER_SE
  {
  }

  /** The entries a phase adds and its failed requests never exceed its budget, so a budget that
      fits into a row of the tracker never ends the program. */
  lemma {:induction false} PhaseCapacity(c: Config, o: Oracle, s: State, cnt: nat, slice: int, r: State)
    requires InPhase(c, s) && OracleOk(c, o)
    requires r == TransLoop(c, o, s, cnt, slice)
    ensures SpentWithin(s, r, cnt)
    ensures s.status.Running? && |s.track[s.curr]| + cnt <= MAX_ALLOC_PER_SE ==> AllTracked(s, r)
    decreases cnt
  {
    SpentSelf(s);
    if cnt > 0 && s.status.Running? {
      var q := Request(c, s, slice, o.draw(s.typeCnt));
      var left := Left(s.precision, q, cnt);
      SpentStep(c, o, s, cnt, slice, q);
      LoopNext(c, o, s, cnt, slice, q);
      hide SpentWithin, AllTracked, Request, TransLoop, SamePhase, Left;
      PhaseCapacity(c, o, q.state, left, SliceAfter(q, slice), r);
      SpentTwice(s, q.state, r, cnt - left, left);
      if |s.track[s.curr]| + cnt <= MAX_ALLOC_PER_SE {
        RoomLeft(s, q.state, cnt, left);
        RunningAfter(s, q.state);
      }
    }
  }

  lemma RunningAfter(s: State, t: State)
    requires AllTracked(s, t)
    ensures t.status.Running?
  {
  }

  // ------------------------------------------------------ what is served

  /** A file request gets a file of the smallest class that is big enough and not full; the mapping
      has the length of the class, an anonymous one the length asked for, up to the byte cap. */
  lemma ServedLength(c: Config, s: State, slice: int, d: Draw)
    requires InPhase(c, s) && DrawOk(c, d) && Ascending(s.pool)
    ensures var r := Request(c, s, slice, d);
            var len := AllocLen(c, s.pool, d.picks);
            && (r.got == None <==>
                  AllocType(s.typeCnt, slice, d.typ).File? && forall i: nat :: !Fits(s.pool, len, i))
            && (r.got == Some(Anon) ==>
                  r.state.maps == s.maps + [Mapping(if s.byteCap == 0 || len <= s.byteCap then len else s.byteCap, None)])
            && (r.got == Some(File) ==>
                  |r.state.maps| == |s.maps| + 1 &&
                  var m := r.state.maps[|s.maps|];
                  && m.path.Some? && Fits(s.pool, len, m.path.value.cls)
                  && (var size := s.pool[m.path.value.cls].size;
                      m.len == if s.byteCap == 0 || size <= s.byteCap then size else s.byteCap)
                  && forall i: nat :: Fits(s.pool, len, i) ==> s.pool[m.path.value.cls].size <= s.pool[i].size)
  {
    BestServed(s.pool, AllocLen(c, s.pool, d.picks));
    RequestExactly(c, s, slice, d);
    ServedNode(c, s, slice, d);
    hide Request, AllocLen, GetFilePath, Fits, Ascending, InPhase, DrawOk;
    var r := Request(c, s, slice, d);
    assert r.got == Some(Anon) ==> r.state.maps == r.state.maps[..|s.maps|] + [r.state.maps[|s.maps|]];
  }

  lemma ServedNode(c: Config, s: State, slice: int, d: Draw)
    requires InPhase(c, s) && DrawOk(c, d)
    ensures var r := Request(c, s, slice, d);
            r.got == Some(File) ==>
              |r.state.maps| > |s.maps| && r.state.maps[|s.maps|].path == GetFilePath(s.pool, AllocLen(c, s.pool, d.picks)).node
  {
    hide GetFrom, Pick, Take, FirstFree;
  }

  /** Mapping, counters and tracker, in numbers. */
  lemma PlaceExactly(s: State, want: nat, path: Option<FileRef>)
    requires |s.track| == MAX_ALLOC && 0 <= s.curr < MAX_ALLOC
    requires path.Some? ==> path.value.cls < |s.pool| && path.value.node < |s.pool[path.value.cls].inUse|
    ensures var r, row := Place(s, want, path), s.track[s.curr];
            var len := if s.byteCap == 0 || want <= s.byteCap then want else s.byteCap;
            var typ := if path == None then Anon else File;
            && r.got == Some(typ) && r.pages == len / 4096 && r.state.typeCnt == s.typeCnt
            && r.state.maps == s.maps + [Mapping(len, path)]
            && r.state.total == s.total + len / 4096
            && r.state.fileCnt == s.fileCnt + (if path == None then 0 else len / 4096)
            && r.state.anonCnt == s.anonCnt + (if path == None then len / 4096 else 0)
            && (|row| >= 500 ==> r.state.status == Exited && r.state.track == s.track)
            && (|row| < 500 ==>
                  && r.state.status == s.status
                  && r.state.track == s.track[s.curr := row + [Entry(|s.maps|, len, typ)]])
  {
    hide Take;
  }

  /** One request, whatever the order of the sizes: its type, its failure, the length of its mapping, and
      what it adds to the counters and to the tracker. */
  lemma RequestExactly(c: Config, s: State, slice: int, d: Draw)
    requires InPhase(c, s) && DrawOk(c, d)
    ensures var r, len := Request(c, s, slice, d), AllocLen(c, s.pool, d.picks);
            var anon := if slice < 0 then s.typeCnt > 0 && s.typeCnt % 4 == 0 else slice > 0 && d.typ.Anon?;
            && r.state.typeCnt == s.typeCnt + 1
            && (r.got == None <==> !anon && forall i: nat :: !Fits(s.pool, len, i))
            && (r.got == None ==> r.state == s.(typeCnt := s.typeCnt + 1, pool := r.state.pool))
            && (r.got.Some? ==>
                  && |r.state.maps| == |s.maps| + 1 && r.state.maps[..|s.maps|] == s.maps
                  && 0 <= s.curr < |s.track|
                  && var m, row := r.state.maps[|s.maps|], s.track[s.curr];
                     && r.got == Some(if anon then Anon else File) && (m.path == None <==> anon)
                     && (m.path.Some? ==> Fits(s.pool, len, m.path.value.cls))
                     && var want := if anon then len else s.pool[m.path.value.cls].size;
                        && m.len == (if s.byteCap == 0 || want <= s.byteCap then want else s.byteCap)
                        && r.pages == m.len / 4096
                        && r.state.total == s.total + m.len / 4096
                        && r.state.fileCnt == s.fileCnt + (if anon then 0 else m.len / 4096)
                        && r.state.anonCnt == s.anonCnt + (if anon then m.len / 4096 else 0)
                        && (|row| >= 500 ==> r.state.status == Exited && r.state.track == s.track)
                        && (|row| < 500 ==>
                              && r.state.status == s.status
                              && r.state.track ==
                                 s.track[s.curr := row + [Entry(|s.maps|, m.len, if anon then Anon else File)]]))
  {
    hide *;
    RequestCases(c, s, slice, d);
    var len := AllocLen(c, s.pool, d.picks);
    TypeExactly(s.typeCnt, slice, d.typ);
    FailsIffFull(s.pool, len);
    ProbeFits(s.pool, len);
    var s1, p := s.(typeCnt := s.typeCnt + 1), GetFilePath(s.pool, len);
    if AllocType(s.typeCnt, slice, d.typ).Anon? {
      PlaceExactly(s1, len, None);
    } else if p.node.Some? {
      PlaceExactly(s1.(pool := p.pool), s.pool[p.node.value.cls].size, p.node);
    }
  }

  lemma TypeExactly(typeCnt: nat, slice: int, drawn: MemType)
    ensures AllocType(typeCnt, slice, drawn).Anon? <==>
            if slice < 0 then typeCnt > 0 && typeCnt % 4 == 0 else slice > 0 && drawn.Anon?
  {
  }

  lemma RequestCases(c: Config, s: State, slice: int, d: Draw)
    requires InPhase(c, s) && DrawOk(c, d)
    ensures |s.track| == MAX_ALLOC && 0 <= s.curr < MAX_ALLOC && |s.pool| > 0
    ensures |d.picks| == 10 && forall p | p in d.picks :: p < |s.pool|
    ensures var s1, len := s.(typeCnt := s.typeCnt + 1), AllocLen(c, s.pool, d.picks);
            var p := GetFilePath(s.pool, len);
            && (p.node.Some? ==> p.node.value.cls < |s.pool| == |p.pool|
                                 && p.node.value.node < |p.pool[p.node.value.cls].inUse|)
            && Request(c, s, slice, d) ==
               if AllocType(s.typeCnt, slice, d.typ).Anon? then Place(s1, len, None)
               else if p.node.None? then Reply(s1.(pool := p.pool), None, 0)
               else Place(s1.(pool := p.pool), s.pool[p.node.value.cls].size, p.node)
  {
    hide GetFrom, Pick, Place, AllocType;
  }

  lemma ProbeFits(pool: seq<SizeClass>, len: nat)
    ensures var p := GetFilePath(pool, len);
            && |p.pool| == |pool|
            && (p.node.Some? ==> Fits(pool, len, p.node.value.cls) && p.node.value.cls < |pool|
                                 && p.node.value.node < |p.pool[p.node.value.cls].inUse|)
  {
    hide GetFrom, FirstFree;
  }

  lemma BestServed(pool: seq<SizeClass>, len: nat)
    requires Ascending(pool)
    ensures var p := GetFilePath(pool, len);
            && (p.node == None <==> forall i: nat :: !Fits(pool, len, i))
            && (p.node.Some? ==> Fits(pool, len, p.node.value.cls)
                                 && forall i: nat :: Fits(pool, len, i) ==> pool[p.node.value.cls].size <= pool[i].size)
            && |p.pool| == |pool|
            && (p.node.Some? ==> p.node.value.cls < |pool| && p.node.value.node < |p.pool[p.node.value.cls].inUse|)
  {
    hide GetFrom, FirstFree;
    FailsIffFull(pool, len);
  }

  /** The length asked for is within the page limit if one of ten draws is, unless the limit is no
      greater than class 0, which is then taken. */
  lemma LengthInLimit(c: Config, pool: seq<SizeClass>, picks: seq<nat>)
    requires |picks| == 10 && |pool| > 0 && forall p | p in picks :: p < |pool|
    ensures var maxReq := c.maxLimit * PAGE_SIZE;
            AllocLen(c, pool, picks) <= maxReq <==>
            if maxReq <= pool[0].size then maxReq == pool[0].size
            else exists i :: 0 <= i < 10 && InLimit(pool, maxReq, picks[i])
  {
    PickFits(pool, c.maxLimit * PAGE_SIZE, picks, 0);
  }

  /** The length asked for, draw by draw: that of class 0 if the page limit is no greater, and otherwise
      that of the first of the ten draws which is within the limit, or of the tenth. */
  lemma LengthDrawn(c: Config, pool: seq<SizeClass>, picks: seq<nat>) returns (i: nat)
    requires |picks| == 10 && |pool| > 0 && forall p | p in picks :: p < |pool|
    ensures i < 10 && picks[i] in picks
    ensures forall m | 0 <= m < i :: picks[m] in picks && pool[picks[m]].size > 4096 * c.maxLimit
    ensures i == 9 || pool[picks[i]].size <= 4096 * c.maxLimit
    ensures AllocLen(c, pool, picks) ==
            if 4096 * c.maxLimit <= pool[0].size then pool[0].size else pool[picks[i]].size
  {
    i := PickFirst(pool, c.maxLimit * PAGE_SIZE, picks, 0);
    forall m | 0 <= m < i ensures picks[m] in picks && pool[picks[m]].size > 4096 * c.maxLimit {
      assert picks[m] in picks && !InLimit(pool, c.maxLimit * PAGE_SIZE, picks[m]);
    }
  }
}
