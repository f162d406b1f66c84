/** Whole runs of the gobbler: every phase it goes through, from the first job to the last. */
module WholeRun {
  import opened Page
  import opened Pool
  import opened Machine
  import opened Accounting
  import opened Phase

  // ------------------------------------------------- one phase, as a step

  /** r is a later state of the run that s is in: nothing is given back, and what the tracker held
      when s ended its phase is still there. */
  ghost predicate Later(s: State, r: State) {
    && s.maps <= r.maps && s.typeCnt <= r.typeCnt && Grows(s.pool, r.pool)
    && s.curr <= r.curr && s.phaseCnt <= r.phaseCnt && (s.precision ==> r.precision)
    && |s.track| == |r.track|
    && (forall p | 0 <= p <= s.curr && p < |s.track| :: r.track[p] == s.track[p])
  }

  lemma LaterTransitive(s: State, t: State, r: State)
    requires Later(s, t) && Later(t, r)
    ensures Later(s, r)
  {
  }

  lemma PhaseSame(c: Config, o: Oracle, s: State)
    requires Shape(c, s) && s.curr + 1 < MAX_ALLOC && OracleOk(c, o)
    ensures SamePhase(s.(curr := s.curr + 1), TransRandAlloc(c, o, s))
  {
    hide *;
    var s1, cnt, slice := PhaseLoop(c, o, s);
    TransLater(c, o, s1, cnt, slice);
  }

  lemma PhaseLater(c: Config, o: Oracle, s: State)
    requires Shape(c, s) && s.curr + 1 < MAX_ALLOC && OracleOk(c, o)
    ensures var r := TransRandAlloc(c, o, s);
            && Later(s, r) && Later(s, r.(phaseCnt := r.phaseCnt + 1))
            && r.curr == s.curr + 1 && r.phaseCnt == s.phaseCnt && r.precision == s.precision
  {
    PhaseSame(c, o, s);
  }

  function After(t: Turn): State {
    match t
    case Last(last) => last
    case Next(_, s') => s'
  }

  lemma TurnLater(c: Config, o: Oracle, feed: Feed, s: State, curJob: nat)
    requires Shape(c, s) && OracleOk(c, o)
    ensures Later(s, After(OneTurn(c, o, feed, s, curJob)))
  {
    var s1 := Fed(feed, s);
    if s1.curr + 1 < MAX_ALLOC {
      PhaseLater(c, o, s1);
    }
  }

  lemma {:induction false} RunLater(c: Config, o: Oracle, feed: Feed, s: State, curJob: nat, r: State)
    requires Shape(c, s) && OracleOk(c, o)
    requires r == Run(c, o, feed, s, curJob)
    ensures Later(s, r)
    decreases c.maxPhase - curJob
  {
    hide OneTurn, Later;
    var t := OneTurn(c, o, feed, s, curJob);
    TurnLater(c, o, feed, s, curJob);
    if t.Next? {
      RunLater(c, o, t.feed, t.state, curJob + 1, r);
      LaterTransitive(s, t.state, r);
    }
  }

  lemma SameTurn(c: Config, o: Oracle, u: Oracle, feed: Feed, s: State, curJob: nat)
    requires Shape(c, s) && OracleOk(c, o) && OracleOk(c, u) && Agree(o, u)
    ensures OneTurn(c, o, feed, s, curJob) == OneTurn(c, u, feed, s, curJob)
  {
    hide TransRandAlloc;
    var s1 := Fed(feed, s);
    if s1.curr + 1 < MAX_ALLOC {
      SamePhaseResult(c, o, u, s1);
    }
  }

  /** Oracles that agree in every answer make the same run. */
  lemma {:induction false} SameRun(c: Config, o: Oracle, u: Oracle, feed: Feed, s: State, curJob: nat)
    requires Shape(c, s) && OracleOk(c, o) && OracleOk(c, u) && Agree(o, u)
    ensures Run(c, o, feed, s, curJob) == Run(c, u, feed, s, curJob)
    decreases c.maxPhase - curJob
  {
    hide OneTurn, Agree, OracleOk, Shape;
    SameTurn(c, o, u, feed, s, curJob);
    var t := OneTurn(c, o, feed, s, curJob);
    if t.Next? {
      SameRun(c, o, u, t.feed, t.state, curJob + 1);
    }
  }

  /** A file length that could not be served in one state of a run is served in no later one. */
  lemma NeverAgain(c: Config, o: Oracle, feed: Feed, s: State, curJob: nat, len: nat, more: nat)
    requires Shape(c, s) && OracleOk(c, o)
    requires GetFilePath(s.pool, len).node == None && len <= more
    ensures GetFilePath(Run(c, o, feed, s, curJob).pool, more).node == None
  {
    RunLater(c, o, feed, s, curJob, Run(c, o, feed, s, curJob));
    FailsForever(s.pool, Run(c, o, feed, s, curJob).pool, len, more);
  }

  // --------------------------------------------------- invariant and index

  /** Between jobs the phase index is one behind the phases counted, and the jobs begun bound it. */
  ghost predicate Between(c: Config, s: State, curJob: nat) {
    Inv(c, s) && s.curr + 1 == s.phaseCnt <= curJob && (s.curr == -1 || s.curr + 1 < c.maxPhase)
  }

  ghost predicate Safe(c: Config, r: State) {
    && Counted(r)
    && (r.status.Running? ==> Inv(c, r) && r.curr + 1 == r.phaseCnt && (r.curr == -1 || r.curr + 1 < c.maxPhase))
    && (r.status.Exited? ==> Ended(r))
    && (r.status.Overrun? ==> HandedOut(r.pool, r.maps))
    && (c.maxPhase <= MAX_ALLOC + 1 ==> r.status != Overrun)
  }

  lemma JobKeeps(c: Config, o: Oracle, s: State, curJob: nat)
    requires Between(c, s, curJob) && OracleOk(c, o) && s.curr + 1 < MAX_ALLOC && curJob + 1 < c.maxPhase
    ensures var s2 := TransRandAlloc(c, o, s);
            if s2.status.Running? then Between(c, s2.(phaseCnt := s2.phaseCnt + 1), curJob + 1) else Safe(c, s2)
  {
    PhaseInv(c, o, s);
    PhaseLater(c, o, s);
  }

  lemma FedKeeps(c: Config, feed: Feed, s: State, curJob: nat)
    requires Between(c, s, curJob)
    ensures Between(c, Fed(feed, s), curJob)
  {
  }

  lemma TurnKeeps(c: Config, o: Oracle, feed: Feed, s: State, curJob: nat)
    requires Between(c, s, curJob) && OracleOk(c, o)
    ensures var t := OneTurn(c, o, feed, s, curJob);
            if t.Next? then Between(c, t.state, curJob + 1) else Safe(c, t.last)
  {
    hide TransRandAlloc, HandedOut, Tracked, Sized, Ended;
    var s1 := Fed(feed, s);
    FedKeeps(c, feed, s, curJob);
    if s1.curr + 1 < MAX_ALLOC && curJob + 1 < c.maxPhase {
      JobKeeps(c, o, s1, curJob);
    }
  }

  /** Every run that has not ended inside a phase ends between jobs, in a state with the invariant;
      and with at most MAX_ALLOC + 1 for -p no access to the tracker is ever out of bounds. */
  lemma {:induction false} RunSafe(c: Config, o: Oracle, feed: Feed, s: State, curJob: nat, r: State)
    requires Between(c, s, curJob) && OracleOk(c, o)
    requires r == Run(c, o, feed, s, curJob)
    ensures Safe(c, r)
    decreases c.maxPhase - curJob
  {
    hide OneTurn, Counted, Tracked, HandedOut;
    var t := OneTurn(c, o, feed, s, curJob);
    TurnKeeps(c, o, feed, s, curJob);
    if t.Next? {
      RunSafe(c, o, t.feed, t.state, curJob + 1, r);
    }
  }

  /** A run in which no job is skipped and the program is not ended goes on until the pages have
      passed the limit or all its phases are through. */
  lemma {:induction false} RunLength(c: Config, o: Oracle, s: State, curJob: nat, r: State)
    requires Between(c, s, curJob) && OracleOk(c, o) && s.phaseCnt == curJob
    requires forall j: nat :: !o.late(j)
    requires c.maxPhase <= MAX_ALLOC + 1 && r == Run(c, o, None, s, curJob) && r.status.Running?
    ensures r.total > c.maxLimit || r.phaseCnt + 1 >= c.maxPhase
    decreases c.maxPhase - curJob
  {
    hide OneTurn, HandedOut, Counted, Tracked, Sized;
    var t := OneTurn(c, o, None, s, curJob);
    TurnKeeps(c, o, None, s, curJob);
    TurnCounts(c, o, s, curJob);
    if t.Next? {
      RunLength(c, o, t.state, curJob + 1, r);
    }
  }

  lemma TurnCounts(c: Config, o: Oracle, s: State, curJob: nat)
    requires Between(c, s, curJob) && OracleOk(c, o) && !o.late(curJob + 1) && s.phaseCnt == curJob
    requires c.maxPhase <= MAX_ALLOC + 1
    ensures var t := OneTurn(c, o, None, s, curJob);
            if t.Next? then t.feed == None && t.state.phaseCnt == s.phaseCnt + 1
            else t.last.status.Running? ==> t.last.total > c.maxLimit || t.last.phaseCnt + 1 >= c.maxPhase
  {
    hide TransRandAlloc, HandedOut, Tracked;
    if s.curr + 1 < MAX_ALLOC {
      PhaseLater(c, o, s);
    }
  }

  /** The state main starts its loop in. */
  ghost predicate Fresh(c: Config, s: State) {
    && Shape(c, s) && s.status.Running? && s.curr == -1 && s.maps == []
    && (forall i, j | 0 <= i < |s.pool| && 0 <= j < |s.pool[i].inUse| :: !s.pool[i].inUse[j])
    && (forall i | 0 <= i < |s.pool| :: !s.pool[i].filled)
    && (forall p | 0 <= p < MAX_ALLOC :: s.track[p] == [])
    && s.fileCnt == s.anonCnt == s.total == s.typeCnt == s.phaseCnt == 0
    && (s.precision && s.byteCap != 0 ==> s.byteCap == s.budget * PAGE_SIZE)
    && (!s.precision ==> s.byteCap == 0)
  }

  lemma FreshInv(c: Config, s: State)
    requires Fresh(c, s)
    ensures Between(c, s, 0)
  {
    assert Flat(s.track, 0) == [];
  }

  // ------------------------------------------------ the bound on -p, exactly

  /** n classes, the first of f pages and each a page larger than the one before. */
  function Sizes(n: nat, f: nat, files: nat): (pool: seq<SizeClass>)
    requires f >= 1
    ensures |pool| == n
    ensures forall i | 0 <= i < n :: WholePages(pool[i].size) && pool[i].size == PAGE_SIZE * (f + i)
    ensures forall i | 0 <= i < n :: pool[i].inUse == seq(files, _ => false) && !pool[i].filled
  {
    seq(n, (i: nat) => SizeClass(PAGE_SIZE * (f + i), seq(files, _ => false), false))
  }

  function Start(c: Config, f: nat, files: nat, budget: nat, precision: bool, byteCap: nat): (s: State)
    requires f >= 1 && (byteCap == 0 || (precision && byteCap == budget * PAGE_SIZE))
    ensures Fresh(c, s)
  {
    State(Sizes(c.speed + 1, f, files), seq(MAX_ALLOC, _ => []), -1, [],
          0, 0, 0, 0, 0, budget, precision, byteCap, Running)
  }

  function Initial(c: Config, files: nat, budget: nat): (s: State)
    ensures Fresh(c, s)
  {
    Start(c, 1, files, budget, true, budget * PAGE_SIZE)
  }

  function Lowest(): (o: Oracle)
    ensures forall c :: OracleOk(c, o)
    ensures forall k: nat, p | p in o.draw(k).picks :: p == 0
  {
    Oracle(_ => Draw(File, seq(10, _ => 0)), _ => 5, _ => false)
  }

  /** Phases that allocate nothing only move the index, up to the end of the tracker. */
  lemma {:induction false} IdleOverruns(c: Config, s: State, curJob: nat)
    requires Shape(c, s) && s.status.Running? && s.precision && s.budget == 0
    requires s.fileCnt + s.anonCnt <= c.maxLimit
    requires curJob + (MAX_ALLOC - s.curr) < c.maxPhase
    ensures Run(c, Lowest(), None, s, curJob).status == Overrun
    decreases MAX_ALLOC - s.curr
  {
    if s.curr + 1 < MAX_ALLOC {
      var s2 := TransRandAlloc(c, Lowest(), s);
      assert s2 == s.(curr := s.curr + 1);
      IdleOverruns(c, s2.(phaseCnt := s2.phaseCnt + 1), curJob + 1);
    }
  }

  /** The guard in go_to_nxt_phase lets the index reach the end of the tracker.  What keeps every
      run inside is the bound of main, and it does exactly up to MAX_ALLOC + 1. */
  lemma OverrunIff(c: Config)
    ensures c.maxPhase <= 60001 <==>
            forall o, feed, s :: Fresh(c, s) && OracleOk(c, o) ==> Run(c, o, feed, s, 0).status != Overrun
  {
    if c.maxPhase <= MAX_ALLOC + 1 {
      forall o, feed, s | Fresh(c, s) && OracleOk(c, o) ensures Run(c, o, feed, s, 0).status != Overrun {
        FreshInv(c, s);
        RunSafe(c, o, feed, s, 0, Run(c, o, feed, s, 0));
      }
    } else {
      IdleOverruns(c, Initial(c, 0, 0), 0);
    }
  }

  // ------------------------------------------------------- the cap on pages

  /** The -M option or the vector file bounds the budget of every phase by m. */
  ghost predicate Budgeted(feed: Feed, s: State, m: nat) {
    match feed
    case None => s.precision && s.budget <= m && s.byteCap == s.budget * PAGE_SIZE
    case Some(counts) => forall b | b in counts :: b <= m
  }

  /** A precise phase of budget M >= 1 that allocates P pages and has f failed requests:
      M <= P + f <= M - 1 + p, where p is the largest of its mappings in pages. */
  lemma PhaseBudget(c: Config, o: Oracle, s: State, p: nat)
    requires Inv(c, s) && OracleOk(c, o) && s.curr + 1 < MAX_ALLOC && s.precision && s.budget >= 1 && p >= 1
    requires Largest(s, TransRandAlloc(c, o, s), p)
    ensures var r := TransRandAlloc(c, o, s);
            && r.typeCnt - s.typeCnt >= |r.maps| - |s.maps| >= 0
            && var spent := (r.total - s.total) + (r.typeCnt - s.typeCnt) - (|r.maps| - |s.maps|);
               && spent <= s.budget - 1 + p
               && (r.status.Running? ==> s.budget <= spent)
  {
    InvShape(c, s);
    hide TransLoop, Request, Inv, Grows, TransRandAlloc, OracleOk, Shape;
    var s1, cnt, slice := PhaseLoop(c, o, s);
    BudgetSpent(c, o, s1, cnt, slice, p);
  }

  /** With the byte cap no mapping is larger than the budget, so a phase of budget m >= 1 allocates
      at most 2 * m - 1 pages. */
  lemma PhaseCap(c: Config, o: Oracle, s: State, m: nat)
    requires Inv(c, s) && OracleOk(c, o) && s.curr + 1 < MAX_ALLOC
    requires s.precision && s.budget <= m && s.byteCap == s.budget * PAGE_SIZE && m >= 1
    ensures TransRandAlloc(c, o, s).total <= s.total + 2 * m - 1
  {
    InvShape(c, s);
    hide TransLoop, Request, Inv, Grows, TransRandAlloc, OracleOk, Shape;
    var s1, cnt, slice := PhaseLoop(c, o, s);
    if s.budget >= 1 {
      CapHolds(c, o, s1, cnt, slice, s.budget);
      PhaseBudget(c, o, s, s.budget);
    } else {
      LoopZero(c, o, s1, slice);
    }
  }

  lemma FedBudget(feed: Feed, s: State, m: nat)
    requires Budgeted(feed, s, m) && feed != Some([])
    ensures var s1 := Fed(feed, s);
            && s1.precision && s1.budget <= m && s1.byteCap == s1.budget * PAGE_SIZE
            && forall r: State :: r.precision && r.budget == s1.budget && r.byteCap == s1.byteCap
                                  ==> Budgeted(Rest(feed), r, m)
  {
    if feed.Some? {
      assert feed.value[0] in feed.value;
      assert forall b | b in feed.value[1..] :: b in feed.value;
    }
  }

  lemma TurnCap(c: Config, o: Oracle, feed: Feed, s: State, curJob: nat, m: nat)
    requires Between(c, s, curJob) && OracleOk(c, o) && Budgeted(feed, s, m) && m >= 1
    ensures var t := OneTurn(c, o, feed, s, curJob);
            && After(t).total <= s.total + 2 * m - 1
            && (After(t).total <= s.total || After(t).total <= c.maxLimit + 2 * m - 1)
            && (t.Next? ==> Budgeted(t.feed, t.state, m))
  {
    hide TransRandAlloc, HandedOut, Tracked, Sized, Budgeted;
    var s1 := Fed(feed, s);
    FedKeeps(c, feed, s, curJob);
    if feed != Some([]) {
      FedBudget(feed, s, m);
      if s1.curr + 1 < MAX_ALLOC {
        PhaseCap(c, o, s1, m);
        PhaseSame(c, o, s1);
      }
    }
  }

  /** A whole run under budgets of at most m pages ends with at most max_limit + 2 * m - 1 pages. */
  lemma {:induction false} RunCap(c: Config, o: Oracle, feed: Feed, s: State, curJob: nat, m: nat, r: State)
    requires Between(c, s, curJob) && OracleOk(c, o) && Budgeted(feed, s, m) && m >= 1
    requires s.total <= c.maxLimit + 2 * m - 1
    requires r == Run(c, o, feed, s, curJob)
    ensures r.total <= c.maxLimit + 2 * m - 1
    decreases c.maxPhase - curJob
  {
    hide OneTurn, HandedOut, Counted, Tracked, Sized, Budgeted;
    var t := OneTurn(c, o, feed, s, curJob);
    TurnKeeps(c, o, feed, s, curJob);
    TurnCap(c, o, feed, s, curJob, m);
    if t.Next? {
      RunCap(c, o, t.feed, t.state, curJob + 1, m, r);
    }
  }

  /** Without precision a phase makes at most 18 requests of at most the largest class each. */
  lemma {:induction false} LooseCap(c: Config, o: Oracle, s: State, cnt: nat, slice: int, p: nat, r: State)
    requires InPhase(c, s) && OracleOk(c, o)
    requires forall i | 0 <= i < |s.pool| :: Pages(s.pool[i].size) <= p
    requires !s.precision && r == TransLoop(c, o, s, cnt, slice)
    ensures r.total <= s.total + Product(cnt, p)
    decreases cnt
  {
    hide *;
    if cnt == 0 || !s.status.Running? {
      LoopStops(c, o, s, cnt, slice);
    } else {
      LooseStep(c, o, s, cnt, slice, p);
      var q := Request(c, s, slice, o.draw(s.typeCnt));
      LoopNext(c, o, s, cnt, slice, q);
      LooseCap(c, o, q.state, cnt - 1, SliceAfter(q, slice), p, r);
      ProductNext(cnt - 1, p);
    }
  }

  lemma LooseStep(c: Config, o: Oracle, s: State, cnt: nat, slice: int, p: nat)
    requires InPhase(c, s) && OracleOk(c, o) && !s.precision && cnt > 0
    requires forall i | 0 <= i < |s.pool| :: Pages(s.pool[i].size) <= p
    ensures DrawOk(c, o.draw(s.typeCnt))
    ensures var q := Request(c, s, slice, o.draw(s.typeCnt));
            && !q.state.precision && Left(s.precision, q, cnt) == cnt - 1 && q.state.total <= s.total + p
            && forall i | 0 <= i < |q.state.pool| :: Pages(q.state.pool[i].size) <= p
  {
    RequestSteps(c, s, slice, o.draw(s.typeCnt));
    RequestBound(c, s, slice, o.draw(s.typeCnt), p);
    hide Request, Pages;
  }

  lemma ProductNext(n: nat, p: nat)
    ensures Product(n + 1, p) == Product(n, p) + p
  {
  }

  lemma RequestBound(c: Config, s: State, slice: int, d: Draw, p: nat)
    requires InPhase(c, s) && DrawOk(c, d)
    requires forall i | 0 <= i < |s.pool| :: Pages(s.pool[i].size) <= p
    ensures Request(c, s, slice, d).pages <= p
  {
  }

  function Product(n: nat, p: nat): nat {
    if n == 0 then 0 else Product(n - 1, p) + p
  }

  lemma {:induction false} ProductMonotone(m: nat, n: nat, p: nat)
    requires m <= n
    ensures Product(m, p) <= Product(n, p)
  {
    if m < n {
      ProductMonotone(m, n - 1, p);
    }
  }

  ghost predicate Loose(s: State, p: nat) {
    !s.precision && forall i | 0 <= i < |s.pool| :: Pages(s.pool[i].size) <= p
  }

  lemma PoolLater(c: Config, o: Oracle, s: State, p: nat)
    requires Shape(c, s) && OracleOk(c, o) && s.curr + 1 < MAX_ALLOC
    requires forall i | 0 <= i < |s.pool| :: Pages(s.pool[i].size) <= p
    ensures var r := TransRandAlloc(c, o, s); forall i | 0 <= i < |r.pool| :: Pages(r.pool[i].size) <= p
  {
    hide TransRandAlloc;
    PhaseSame(c, o, s);
  }

  lemma LoosePhase(c: Config, o: Oracle, s: State, p: nat)
    requires Shape(c, s) && OracleOk(c, o) && Loose(s, p) && s.curr + 1 < MAX_ALLOC
    ensures TransRandAlloc(c, o, s).total <= s.total + Product(18, p)
    ensures Loose(TransRandAlloc(c, o, s), p)
  {
    PoolLater(c, o, s, p);
    hide TransRandAlloc, TransLoop, Shape, Grows, Product;
    var s1, cnt, slice := PhaseLoop(c, o, s);
    LooseCap(c, o, s1, cnt, slice, p, TransRandAlloc(c, o, s));
    ProductMonotone(cnt, 18, p);
    PhaseSame(c, o, s);
  }

  /** A phase without precision makes exactly the number of requests that was drawn for it, and never fills
      its row of the tracker.  Those drawn anonymous are so, up to a quarter of all. */
  lemma LooseCounts(c: Config, o: Oracle, s: State)
    requires Inv(c, s) && OracleOk(c, o) && s.curr + 1 < MAX_ALLOC && !s.precision
    ensures var r, n := TransRandAlloc(c, o, s), o.count(s.curr + 1);
            && r.status.Running? && 5 <= n <= 18
            && r.typeCnt == s.typeCnt + n
            && (var drawn := AnonDraws(o, s.typeCnt, n);
                AnonIn(r.maps) == AnonIn(s.maps) + if drawn <= n / 4 then drawn else n / 4)
            && |r.track[r.curr]| == |r.maps| - |s.maps| <= n
  {
    InvShape(c, s);
    EmptyRow(c, s);
    hide TransLoop, Request, Inv, Grows, AnonIn, TransRandAlloc;
    var s1, n, slice := PhaseLoop(c, o, s);
    var r := TransRandAlloc(c, o, s);
    PhaseCapacity(c, o, s1, n, slice, r);
    SliceBound(c, o, s1, n, slice, r);
    SliceExactly(c, o, s1, n, slice, r);
  }

  lemma LooseTurn(c: Config, o: Oracle, s: State, curJob: nat, p: nat)
    requires Between(c, s, curJob) && OracleOk(c, o) && Loose(s, p)
    ensures var t := OneTurn(c, o, None, s, curJob);
            && After(t).total <= s.total + Product(18, p)
            && (After(t).total <= s.total || After(t).total <= c.maxLimit + Product(18, p))
            && (t.Next? ==> Loose(t.state, p) && t.feed == None)
  {
    hide TransRandAlloc, HandedOut, Tracked, Sized;
    if s.curr + 1 < MAX_ALLOC {
      LoosePhase(c, o, s, p);
    }
  }

  /** A whole run without precision ends with at most max_limit plus 18 times the largest class. */
  lemma {:induction false} LooseRunCap(c: Config, o: Oracle, s: State, curJob: nat, p: nat, r: State)
    requires Between(c, s, curJob) && OracleOk(c, o) && Loose(s, p)
    requires s.total <= c.maxLimit + 18 * p
    requires r == Run(c, o, None, s, curJob)
    ensures r.total <= c.maxLimit + 18 * p
    decreases c.maxPhase - curJob
  {
    hide OneTurn, HandedOut, Counted, Tracked, Sized, Loose;
    var t := OneTurn(c, o, None, s, curJob);
    TurnKeeps(c, o, None, s, curJob);
    LooseTurn(c, o, s, curJob, p);
    ProductIs(18, p);
    if t.Next? {
      LooseRunCap(c, o, t.state, curJob + 1, p, r);
    }
  }

  lemma {:induction false} ProductIs(n: nat, p: nat)
    ensures Product(n, p) == n * p
  {
    if n > 0 {
      ProductIs(n - 1, p);
      assert (n - 1) * p + p == n * p;
    }
  }

  /** The row of a phase lists exactly the mappings made in it, in order. */
  lemma PhaseRow(c: Config, o: Oracle, s: State, r: State)
    requires Inv(c, s) && OracleOk(c, o) && s.curr + 1 < MAX_ALLOC
    requires r == TransRandAlloc(c, o, s) && r.status.Running?
    ensures |s.maps| <= |r.maps| && |r.track[r.curr]| == |r.maps| - |s.maps|
    ensures forall k | 0 <= k < |r.track[r.curr]| :: r.track[r.curr][k] == EntryOf(r.maps, |s.maps| + k)
  {
    hide TransRandAlloc, HandedOut, Counted, Sized, Grows;
    PhaseInv(c, o, s);
    PhaseStart(c, s);
    PhaseSame(c, o, s);
    FlatSame(s.track, r.track, s.curr + 1);
    assert Flat(r.track, r.curr + 1) == Flat(r.track, r.curr) + r.track[r.curr];
    forall k | 0 <= k < |r.track[r.curr]| ensures r.track[r.curr][k] == EntryOf(r.maps, |s.maps| + k) {
      assert Flat(r.track, r.curr + 1)[|s.maps| + k] == r.track[r.curr][k];
    }
  }

  // -------------------------------------------------------------- the ratio

  lemma PhaseRatio(c: Config, o: Oracle, s: State)
    requires Shape(c, s) && OracleOk(c, o) && s.precision && s.curr + 1 < MAX_ALLOC
    requires AnonIn(s.maps) == AnonTurns(s.typeCnt)
    ensures var r := TransRandAlloc(c, o, s); r.precision && AnonIn(r.maps) == AnonTurns(r.typeCnt)
  {
    hide TransRandAlloc, TransLoop, Shape, OracleOk, Grows, AnonIn, AnonTurns;
    PhaseLater(c, o, s);
    var s1, cnt, slice := PhaseLoop(c, o, s);
    PreciseRatio(c, o, s1, cnt, slice);
  }

  lemma TurnRatio(c: Config, o: Oracle, feed: Feed, s: State, curJob: nat)
    requires Shape(c, s) && OracleOk(c, o) && (feed.Some? || s.precision)
    requires AnonIn(s.maps) == AnonTurns(s.typeCnt)
    ensures var t := OneTurn(c, o, feed, s, curJob);
            && AnonIn(After(t).maps) == AnonTurns(After(t).typeCnt)
            && (t.Next? ==> t.feed.Some? || t.state.precision)
  {
    hide TransRandAlloc, AnonIn, AnonTurns;
    var s1 := Fed(feed, s);
    if s1.curr + 1 < MAX_ALLOC && feed != Some([]) {
      PhaseRatio(c, o, s1);
    }
  }

  /** Over a whole precise run, across all its phases, exactly (N - 1) / 4 of the N requests were
      anonymous, and every one of these was served: three file requests to one anonymous one, to
      within four. */
  lemma {:induction false} RunRatio(c: Config, o: Oracle, feed: Feed, s: State, curJob: nat, r: State)
    requires Shape(c, s) && OracleOk(c, o) && (feed.Some? || s.precision)
    requires AnonIn(s.maps) == AnonTurns(s.typeCnt)
    requires r == Run(c, o, feed, s, curJob)
    ensures AnonIn(r.maps) == AnonTurns(r.typeCnt)
    ensures r.typeCnt >= 1 ==> 3 * AnonIn(r.maps) + 1 <= r.typeCnt - AnonIn(r.maps) <= 3 * AnonIn(r.maps) + 4
    decreases c.maxPhase - curJob
  {
    hide OneTurn, AnonIn, AnonTurns;
    if r.typeCnt >= 1 {
      ThreeToOne(r.typeCnt);
    }
    var t := OneTurn(c, o, feed, s, curJob);
    TurnRatio(c, o, feed, s, curJob);
    if t.Next? {
      RunRatio(c, o, t.feed, t.state, curJob + 1, r);
    }
  }

  /** Three file requests to one anonymous one, to within four. */
  ghost predicate Balanced(r: State) {
    r.typeCnt >= 1 ==> 3 * AnonIn(r.maps) + 1 <= r.typeCnt - AnonIn(r.maps) <= 3 * AnonIn(r.maps) + 4
  }

  /** Only files are drawn, and only the first job is not late. */
  function FilesOnce(): (o: Oracle)
    ensures forall c :: OracleOk(c, o)
    ensures forall k: nat :: o.draw(k).typ == File && o.count(k) == 5
    ensures forall j: nat :: o.late(j) <==> j > 1
  {
    Oracle(_ => Draw(File, seq(10, _ => 0)), _ => 5, (j: nat) => j > 1)
  }

  lemma {:induction false} LateStays(c: Config, o: Oracle, s: State, curJob: nat)
    requires Shape(c, s) && OracleOk(c, o) && forall j: nat :: j > curJob ==> o.late(j)
    ensures Run(c, o, None, s, curJob) == s
    decreases c.maxPhase - curJob
  {
    if curJob + 1 < c.maxPhase && s.fileCnt + s.anonCnt <= c.maxLimit {
      LateStays(c, o, s, curJob + 1);
    }
  }

  lemma UnbalancedPhase(c: Config, s: State)
    requires Inv(c, s) && s.curr + 1 < MAX_ALLOC && !s.precision && s.maps == [] && s.typeCnt == 0
    ensures var r := TransRandAlloc(c, FilesOnce(), s); r.status.Running? && !Balanced(r)
  {
    InvShape(c, s);
    EmptyRow(c, s);
    hide TransRandAlloc, TransLoop, FilesOnce, Inv;
    var o, r := FilesOnce(), TransRandAlloc(c, FilesOnce(), s);
    LooseCounts(c, o, s);
    var s1, cnt, slice := PhaseLoop(c, o, s);
    SameSecond(c, o, s1, cnt, slice, File, r);
  }

  lemma UnbalancedTurn(c: Config, s: State)
    requires Between(c, s, 0) && s.curr == -1 && !s.precision && s.maps == [] && s.typeCnt == s.total == 0
    requires c.maxPhase > 1
    ensures var t := OneTurn(c, FilesOnce(), None, s, 0);
            t.Next? && t.feed == None && !Balanced(t.state)
  {
    hide TransRandAlloc, HandedOut, Tracked, Sized, FilesOnce;
    UnbalancedPhase(c, s);
  }

  lemma NoPhase(c: Config, o: Oracle, s: State)
    requires Shape(c, s) && OracleOk(c, o) && c.maxPhase <= 1
    ensures Run(c, o, None, s, 0) == s
  {
  }

  /** The ratio holds at the end of every run exactly for runs that are precise, which every vector file
      makes them, or that have no phase at all. */
  lemma RatioIff(c: Config, feed: Feed, s: State)
    requires Fresh(c, s)
    ensures feed.Some? || s.precision || c.maxPhase <= 1 <==>
            forall o :: OracleOk(c, o) ==> Balanced(Run(c, o, feed, s, 0))
  {
    hide Machine.Run, OneTurn, Inv, FilesOnce, AnonTurns, Balanced;
    FreshInv(c, s);
    if feed.Some? || s.precision || c.maxPhase <= 1 {
      forall o | OracleOk(c, o) ensures Balanced(Run(c, o, feed, s, 0)) {
        BalancedRun(c, o, feed, s);
      }
    } else {
      UnbalancedRun(c, s);
    }
  }

  lemma BalancedRun(c: Config, o: Oracle, feed: Feed, s: State)
    requires Fresh(c, s) && OracleOk(c, o) && (feed.Some? || s.precision || c.maxPhase <= 1)
    ensures Balanced(Run(c, o, feed, s, 0))
  {
    hide Machine.Run;
    if feed.Some? || s.precision {
      RunRatio(c, o, feed, s, 0, Run(c, o, feed, s, 0));
    } else {
      NoPhase(c, o, s);
    }
  }

  lemma UnbalancedRun(c: Config, s: State)
    requires Between(c, s, 0) && s.curr == -1 && !s.precision && s.maps == [] && s.typeCnt == s.total == 0
    requires c.maxPhase > 1
    ensures !Balanced(Run(c, FilesOnce(), None, s, 0))
  {
    hide OneTurn, HandedOut, Counted, Tracked, Sized, FilesOnce, Balanced;
    UnbalancedTurn(c, s);
    LateStays(c, FilesOnce(), OneTurn(c, FilesOnce(), None, s, 0).state, 1);
  }

  // -------------------------------------------------- precise, but not capped

  ghost predicate Uncapped(s: State, p: nat) {
    s.precision && s.byteCap == 0 && p >= 1 && forall i | 0 <= i < |s.pool| :: Pages(s.pool[i].size) <= p
  }

  lemma LargestNone(s: State, p: nat)
    ensures Largest(s, s, p)
  {
  }

  lemma LargestTwice(s: State, t: State, r: State, p: nat)
    requires Largest(s, t, p) && Largest(t, r, p) && s.maps <= t.maps && SamePhase(t, r)
    ensures Largest(s, r, p)
  {
    hide Grows;
    forall k | |s.maps| <= k < |r.maps| ensures Pages(r.maps[k].len) <= p {
      if k < |t.maps| {
        assert r.maps[k] == t.maps[k];
      }
    }
  }

  lemma SizesStep(c: Config, o: Oracle, s: State, slice: int, p: nat)
    requires InPhase(c, s) && OracleOk(c, o)
    requires forall i | 0 <= i < |s.pool| :: Pages(s.pool[i].size) <= p
    ensures DrawOk(c, o.draw(s.typeCnt))
    ensures var q := Request(c, s, slice, o.draw(s.typeCnt));
            && s.maps <= q.state.maps && Largest(s, q.state, p)
            && forall i | 0 <= i < |q.state.pool| :: Pages(q.state.pool[i].size) <= p
  {
    RequestSteps(c, s, slice, o.draw(s.typeCnt));
    RequestBound(c, s, slice, o.draw(s.typeCnt), p);
    hide Request, Pages;
  }

  lemma {:induction false} SizesHold(c: Config, o: Oracle, s: State, cnt: nat, slice: int, p: nat, r: State)
    requires InPhase(c, s) && OracleOk(c, o) && r == TransLoop(c, o, s, cnt, slice)
    requires forall i | 0 <= i < |s.pool| :: Pages(s.pool[i].size) <= p
    ensures SamePhase(s, r) && Largest(s, r, p)
    decreases cnt
  {
    hide *;
    TransLater(c, o, s, cnt, slice);
    if cnt == 0 || !s.status.Running? {
      LoopStops(c, o, s, cnt, slice);
      LargestNone(s, p);
    } else {
      SizesStep(c, o, s, slice, p);
      var q := Request(c, s, slice, o.draw(s.typeCnt));
      LoopNext(c, o, s, cnt, slice, q);
      SizesHold(c, o, q.state, Left(s.precision, q, cnt), SliceAfter(q, slice), p, r);
      LargestTwice(s, q.state, r, p);
    }
  }

  lemma UncappedPhase(c: Config, o: Oracle, s: State, p: nat)
    requires Inv(c, s) && OracleOk(c, o) && s.curr + 1 < MAX_ALLOC && Uncapped(s, p)
    ensures var r := TransRandAlloc(c, o, s);
            && r.total <= s.total + (if s.budget >= 1 then s.budget - 1 + p else 0)
            && Uncapped(r, p) && r.budget == s.budget
  {
    InvShape(c, s);
    PoolLater(c, o, s, p);
    hide TransLoop, Request, Inv, Grows, TransRandAlloc, OracleOk, Shape;
    PhaseSame(c, o, s);
    var s1, cnt, slice := PhaseLoop(c, o, s);
    SizesHold(c, o, s1, cnt, slice, p, TransRandAlloc(c, o, s));
    if s.budget >= 1 {
      PhaseBudget(c, o, s, p);
    } else {
      LoopZero(c, o, s1, slice);
    }
  }

  lemma UncappedTurn(c: Config, o: Oracle, s: State, curJob: nat, p: nat)
    requires Between(c, s, curJob) && OracleOk(c, o) && Uncapped(s, p)
    ensures var t := OneTurn(c, o, None, s, curJob);
            && After(t).total <= s.total + (if s.budget >= 1 then s.budget - 1 + p else 0)
            && (After(t).total <= s.total || After(t).total <= c.maxLimit + s.budget - 1 + p)
            && (t.Next? ==> Uncapped(t.state, p) && t.state.budget == s.budget && t.feed == None)
  {
    hide TransRandAlloc, HandedOut, Tracked, Sized;
    if s.curr + 1 < MAX_ALLOC {
      UncappedPhase(c, o, s, p);
    }
  }

  /** The -A option makes a run precise but sets no byte cap: what a phase can take beyond its budget is
      then the largest class. */
  lemma {:induction false} UncappedRunCap(c: Config, o: Oracle, s: State, curJob: nat, p: nat, r: State)
    requires Between(c, s, curJob) && OracleOk(c, o) && Uncapped(s, p)
    requires s.total <= c.maxLimit + s.budget - 1 + p
    requires r == Run(c, o, None, s, curJob)
    ensures r.total <= c.maxLimit + s.budget - 1 + p
    decreases c.maxPhase - curJob
  {
    hide OneTurn, HandedOut, Counted, Tracked, Sized, Uncapped;
    var t := OneTurn(c, o, None, s, curJob);
    TurnKeeps(c, o, None, s, curJob);
    UncappedTurn(c, o, s, curJob, p);
    if t.Next? {
      UncappedRunCap(c, o, t.state, curJob + 1, p, r);
    }
  }

  // ------------------------------------------------------------ altogether

  /** The pages at the end of every run: for budgets of at most m pages, or with classes of at most p
      pages without a byte cap, precise or not. */
  lemma EveryCap(c: Config, o: Oracle, feed: Feed, s: State, m: nat, p: nat)
    requires Fresh(c, s) && OracleOk(c, o) && m >= 1
    ensures Budgeted(feed, s, m) ==> Run(c, o, feed, s, 0).total <= c.maxLimit + 2 * m - 1
    ensures feed == None && Loose(s, p) ==> Run(c, o, feed, s, 0).total <= c.maxLimit + 18 * p
    ensures feed == None && Uncapped(s, p) ==> Run(c, o, feed, s, 0).total <= c.maxLimit + s.budget - 1 + p
  {
    hide Machine.Run, Budgeted, Loose, HandedOut, Counted, Tracked;
    FreshInv(c, s);
    if Budgeted(feed, s, m) {
      RunCap(c, o, feed, s, 0, m, Run(c, o, feed, s, 0));
    }
    if feed == None && Loose(s, p) {
      LooseRunCap(c, o, s, 0, p, Run(c, o, feed, s, 0));
    }
    if feed == None && Uncapped(s, p) {
      UncappedRunCap(c, o, s, 0, p, Run(c, o, feed, s, 0));
    }
  }

  /** Every run of the program, whatever its options, vector file and draws. */
  lemma EveryRun(c: Config, o: Oracle, feed: Feed, s: State)
    requires Fresh(c, s) && OracleOk(c, o)
    ensures var r := Run(c, o, feed, s, 0);
            && Safe(c, r) && Later(s, r)
            && NodesInUse(r.pool) <= FileCount(r.maps) <= NodesInUse(r.pool) + (if r.status.Exited? then 1 else 0)
            && forall i, j | 0 <= i < j < |r.maps| && r.maps[i].path.Some? && r.maps[j].path.Some? ::
                 r.maps[i].path != r.maps[j].path
  {
    hide Machine.Run, Inv, HandedOut, Counted, Ended;
    var r := Run(c, o, feed, s, 0);
    FreshInv(c, s);
    RunSafe(c, o, feed, s, 0, r);
    RunLater(c, o, feed, s, 0, r);
    if r.status.Exited? {
      EndedFiles(r);
    } else {
      InvHandedOut(c, r);
      FilesAreNodes(r.pool, r.maps);
      forall i, j | 0 <= i < j < |r.maps| && r.maps[i].path.Some? && r.maps[j].path.Some?
        ensures r.maps[i].path != r.maps[j].path
      {
        EachFileOnce(r.pool, r.maps, i, j);
      }
    }
  }

  lemma InvHandedOut(c: Config, r: State)
    requires Safe(c, r) && !r.status.Exited?
    ensures HandedOut(r.pool, r.maps)
  {
  }
}
