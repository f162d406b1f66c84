/** The two bounds that the options set on pages, exactly: when a phase can fill its row of the
    tracker, and when a run can pass the limit. */
module Limits {
  import opened Page
  import opened Pool
  import opened Machine
  import opened Accounting
  import opened Phase
  import opened WholeRun
  import Samplers

  // ------------------------------------------------- requests that are served

  /** Classes of f, f + 1, f + 2, ... pages with n files each. */
  ghost predicate Stocked(pool: seq<SizeClass>, f: nat, n: nat) {
    f >= 1 && forall i | 0 <= i < |pool| :: pool[i].size == PAGE_SIZE * (f + i) && |pool[i].inUse| >= n
  }

  lemma StockedLater(p: seq<SizeClass>, q: seq<SizeClass>, f: nat, n: nat)
    requires Stocked(p, f, n) && Grows(p, q)
    ensures Stocked(q, f, n)
  {
  }

  lemma NotFull(pool: seq<SizeClass>, maps: seq<Mapping>, i: nat)
    requires HandedOut(pool, maps) && i < |pool| && |maps| < |pool[i].inUse|
    ensures !Full(pool[i])
  {
    assert !pool[i].inUse[FilesIn(maps, i)];
  }

  ghost predicate AllPick(d: Draw, p: nat) {
    |d.picks| == 10 && forall i | 0 <= i < 10 :: d.picks[i] == p
  }

  /** The pages that a request for class p asks for: a limit of no more than class 0 makes it that. */
  function Asked(c: Config, f: nat, p: nat): nat {
    if c.maxLimit <= f then f else f + p
  }

  lemma AskedLen(c: Config, pool: seq<SizeClass>, d: Draw, f: nat, p: nat, n: nat)
    requires Stocked(pool, f, n) && AllPick(d, p) && p < |pool|
    ensures AllocLen(c, pool, d.picks) == PAGE_SIZE * Asked(c, f, p) && f <= Asked(c, f, p) <= f + p
  {
    forall x | x in d.picks ensures x == p {
      var i :| 0 <= i < 10 && d.picks[i] == x;
    }
    PickSame(pool, c.maxLimit * PAGE_SIZE, d.picks, 0);
  }

  /** A file request for b pages is served by the class of b pages. */
  lemma Found(pool: seq<SizeClass>, maps: seq<Mapping>, b: nat, f: nat, n: nat)
    requires HandedOut(pool, maps) && Stocked(pool, f, n) && |maps| < n && f <= b < f + |pool|
    ensures GetFilePath(pool, PAGE_SIZE * b).node.Some?
    ensures GetFilePath(pool, PAGE_SIZE * b).node.value.cls == b - f
  {
    hide HandedOut, FilesIn, FirstFree, GetFrom;
    NotFull(pool, maps, b - f);
    assert Fits(pool, PAGE_SIZE * b, b - f);
    FailsIffFull(pool, PAGE_SIZE * b);
  }

  ghost predicate Enough(c: Config, s: State, f: nat, p: nat, n: nat) {
    && Inv(c, s) && s.curr >= 0 && |s.track[s.curr]| < MAX_ALLOC_PER_SE
    && Stocked(s.pool, f, n) && |s.maps| < n && p <= c.speed
    && (s.byteCap == 0 || s.byteCap >= PAGE_SIZE * (f + p))
  }

  lemma Served(c: Config, s: State, slice: int, d: Draw, f: nat, p: nat, n: nat)
    requires Enough(c, s, f, p, n) && DrawOk(c, d) && AllPick(d, p)
    ensures Request(c, s, slice, d).got.Some? && Request(c, s, slice, d).pages == Asked(c, f, p)
  {
    AskedLen(c, s.pool, d, f, p, n);
    Found(s.pool, s.maps, Asked(c, f, p), f, n);
    hide HandedOut, Tracked, Counted, Sized, GetFrom, Pick, FirstFree, Take;
  }

  /** What is left of a budget after a request for b pages. */
  function LeftOf(precision: bool, b: nat, cnt: nat): nat
    requires cnt >= 1
  {
    if precision then (if b > cnt then 0 else cnt - b) else cnt - 1
  }

  /** One such request, in terms of what it adds. */
  lemma ServedStep(c: Config, s: State, slice: int, d: Draw, f: nat, p: nat, n: nat, q: Reply)
    requires Enough(c, s, f, p, n) && DrawOk(c, d) && AllPick(d, p) && q == Request(c, s, slice, d)
    ensures Inv(c, q.state) && q.state.curr == s.curr && 0 <= s.curr < |s.track| == |q.state.track|
    ensures q.state.precision == s.precision && q.state.byteCap == s.byteCap && q.state.budget == s.budget
    ensures Stocked(q.state.pool, f, n)
    ensures q.state.typeCnt == s.typeCnt + 1 && |q.state.maps| == |s.maps| + 1
    ensures q.state.total == s.total + Asked(c, f, p) && |q.state.track[s.curr]| == |s.track[s.curr]| + 1
    ensures forall cnt: nat | cnt >= 1 :: Left(s.precision, q, cnt) == LeftOf(s.precision, Asked(c, f, p), cnt)
  {
    Served(c, s, slice, d, f, p, n);
    RequestSteps(c, s, slice, d);
    RequestInv(c, s, slice, d);
    StockedLater(s.pool, q.state.pool, f, n);
    hide Request, HandedOut, Tracked, Counted, Sized, Grows, Stocked, Asked;
  }

  // ---------------------------------------------- a phase that fills its row

  /** cnt requests for one page overfill the row. */
  ghost predicate Filling(c: Config, o: Oracle, s: State, cnt: nat, n: nat) {
    && Inv(c, s) && s.curr >= 0 && s.precision && Stocked(s.pool, 1, n) && OracleOk(c, o)
    && (s.byteCap == 0 || s.byteCap >= PAGE_SIZE)
    && (forall k: nat :: AllPick(o.draw(k), 0))
    && MAX_ALLOC_PER_SE < |s.track[s.curr]| + cnt && |s.maps| + cnt < n
  }

  lemma FillsStep(c: Config, o: Oracle, s: State, cnt: nat, slice: int, n: nat)
    requires Filling(c, o, s, cnt, n)
    ensures cnt > 0 && InPhase(c, s) && OracleOk(c, o) && DrawOk(c, o.draw(s.typeCnt)) && s.status.Running?
    ensures var q := Request(c, s, slice, o.draw(s.typeCnt));
            && InPhase(c, q.state)
            && (q.state.status.Running? ==> Left(s.precision, q, cnt) == cnt - 1 && Filling(c, o, q.state, cnt - 1, n))
            && (!q.state.status.Running? ==> q.state.status == Exited)
  {
    hide Request, Inv, Stocked, Left;
    InvShape(c, s);
    RowFits(c, s);
    if |s.track[s.curr]| < MAX_ALLOC_PER_SE {
      ServedStep(c, s, slice, o.draw(s.typeCnt), 1, 0, n, Request(c, s, slice, o.draw(s.typeCnt)));
      InvShape(c, Request(c, s, slice, o.draw(s.typeCnt)).state);
    } else {
      RowFull(c, s, slice, o.draw(s.typeCnt), n, Request(c, s, slice, o.draw(s.typeCnt)));
    }
  }

  lemma RowFits(c: Config, s: State)
    requires Inv(c, s) && s.curr >= 0
    ensures 0 <= s.curr < |s.track| && |s.track[s.curr]| <= MAX_ALLOC_PER_SE
  {
  }

  lemma {:induction false} FillsRow(c: Config, o: Oracle, s: State, cnt: nat, slice: int, n: nat, r: State)
    requires Filling(c, o, s, cnt, n) && r == TransLoop(c, o, s, cnt, slice)
    ensures r.status == Exited
    decreases cnt
  {
    hide *;
    FillsStep(c, o, s, cnt, slice, n);
    var q := Request(c, s, slice, o.draw(s.typeCnt));
    LoopNext(c, o, s, cnt, slice, q);
    if q.state.status.Running? {
      FillsRow(c, o, q.state, cnt - 1, SliceAfter(q, slice), n, r);
    } else {
      LoopStops(c, o, q.state, Left(s.precision, q, cnt), SliceAfter(q, slice));
    }
  }

  lemma RowFull(c: Config, s: State, slice: int, d: Draw, n: nat, q: Reply)
    requires Inv(c, s) && s.curr >= 0 && Stocked(s.pool, 1, n) && |s.maps| < n
    requires DrawOk(c, d) && AllPick(d, 0) && |s.track[s.curr]| >= MAX_ALLOC_PER_SE
    requires q == Request(c, s, slice, d)
    ensures q.state.status == Exited
  {
    AskedLen(c, s.pool, d, 1, 0, n);
    Found(s.pool, s.maps, 1, 1, n);
    RequestSteps(c, s, slice, d);
    hide HandedOut, Tracked, Counted, Sized, GetFrom, Pick, FirstFree, Take, SamePhase;
  }

  ghost predicate Ready(c: Config, s: State, m: nat) {
    Inv(c, s) && s.curr + 1 < MAX_ALLOC && s.precision && s.budget == m
  }

  lemma FitsRow(c: Config, o: Oracle, s: State, m: nat)
    requires Ready(c, s, m) && OracleOk(c, o) && m <= MAX_ALLOC_PER_SE
    ensures TransRandAlloc(c, o, s).status == Running
  {
    InvShape(c, s);
    EmptyRow(c, s);
    hide TransRandAlloc, TransLoop, Inv, Grows, OracleOk, Shape;
    var s1, cnt, slice := PhaseLoop(c, o, s);
    PhaseCapacity(c, o, s1, cnt, slice, TransRandAlloc(c, o, s));
  }

  lemma OverfillsRow(c: Config, m: nat)
    requires m > MAX_ALLOC_PER_SE
    ensures var s := Initial(c, m + 1, m);
            Ready(c, s, m) && TransRandAlloc(c, Lowest(), s).status == Exited
  {
    var s := Initial(c, m + 1, m);
    Overfull(c, s, m);
    hide *;
    var s1, cnt, slice := PhaseLoop(c, Lowest(), s);
    FillsRow(c, Lowest(), s1, cnt, slice, m + 1, TransRandAlloc(c, Lowest(), s));
  }

  lemma Overfull(c: Config, s: State, m: nat)
    requires m > MAX_ALLOC_PER_SE && s == Initial(c, m + 1, m)
    ensures Ready(c, s, m) && Shape(c, s) && OracleOk(c, Lowest()) && s.curr + 1 < MAX_ALLOC
    ensures s.precision && s.budget == m && Filling(c, Lowest(), s.(curr := s.curr + 1), m, m + 1)
  {
    FreshInv(c, s);
    PhaseStart(c, s);
    hide HandedOut, Counted, Tracked, Sized;
  }

  /** A phase of budget m can run the tracker's row full, which ends the program, exactly when m is
      greater than 500. */
  lemma CapacityIff(c: Config, m: nat)
    ensures m <= 500 <==>
            forall o, s :: Ready(c, s, m) && OracleOk(c, o) ==> TransRandAlloc(c, o, s).status == Running
  {
    hide TransRandAlloc, HandedOut, Counted, Tracked;
    if m <= MAX_ALLOC_PER_SE {
      forall o, s | Ready(c, s, m) && OracleOk(c, o) ensures TransRandAlloc(c, o, s).status == Running {
        FitsRow(c, o, s, m);
      }
    } else {
      OverfillsRow(c, m);
    }
  }

  // ------------------------------------------------- the most that a run takes

  /** The most phases that a run can have. */
  function MostPhases(maxPhase: nat): nat {
    if maxPhase == 0 then 0 else if maxPhase - 1 <= MAX_ALLOC then maxPhase - 1 else MAX_ALLOC
  }

  lemma TurnPhases(c: Config, o: Oracle, feed: Feed, s: State, curJob: nat)
    requires Between(c, s, curJob) && OracleOk(c, o)
    ensures s.phaseCnt <= MostPhases(c.maxPhase)
    ensures var t := OneTurn(c, o, feed, s, curJob);
            && (t.Last? && t.last.total > s.total ==> s.phaseCnt < MostPhases(c.maxPhase))
            && (t.Next? ==>
                  if t.state.total > s.total then t.state.phaseCnt == s.phaseCnt + 1
                  else s.phaseCnt <= t.state.phaseCnt <= s.phaseCnt + 1)
  {
    hide TransRandAlloc, HandedOut, Counted, Flat, Sized;
    var s1 := Fed(feed, s);
    if s1.curr + 1 < MAX_ALLOC {
      PhaseLater(c, o, s1);
    }
  }

  /** If no turn adds more than y pages, a run adds no more than y for each phase that it can have. */
  lemma SumStep(before: nat, after: nat, end: nat, phases: nat, next: nat, most: nat, y: nat)
    requires phases <= next <= most && after <= before + y && (after > before ==> next > phases)
    requires end <= after + Product(most - next, y)
    ensures end <= before + Product(most - phases, y)
  {
    if after > before {
      ProductNext(most - next, y);
      ProductMonotone(most - next + 1, most - phases, y);
    } else {
      ProductMonotone(most - next, most - phases, y);
    }
  }

  lemma SumLast(before: nat, after: nat, phases: nat, most: nat, y: nat)
    requires phases <= most && after <= before + y && (after > before ==> phases < most)
    ensures after <= before + Product(most - phases, y)
  {
    if after > before {
      ProductNext(0, y);
      assert Product(0, y) == 0;
      ProductMonotone(1, most - phases, y);
    }
  }

  lemma {:induction false} RunSum(c: Config, o: Oracle, feed: Feed, s: State, curJob: nat, m: nat, r: State)
    requires Between(c, s, curJob) && OracleOk(c, o) && Budgeted(feed, s, m) && m >= 1
    requires r == Run(c, o, feed, s, curJob)
    ensures s.phaseCnt <= MostPhases(c.maxPhase)
    ensures r.total <= s.total + Product(MostPhases(c.maxPhase) - s.phaseCnt, 2 * m - 1)
    decreases c.maxPhase - curJob
  {
    hide OneTurn, HandedOut, Counted, Tracked, Sized, Budgeted, MostPhases, Product;
    var t, most := OneTurn(c, o, feed, s, curJob), MostPhases(c.maxPhase);
    TurnKeeps(c, o, feed, s, curJob);
    TurnCap(c, o, feed, s, curJob, m);
    TurnPhases(c, o, feed, s, curJob);
    if t.Next? {
      RunSum(c, o, t.feed, t.state, curJob + 1, m, r);
      SumStep(s.total, t.state.total, r.total, s.phaseCnt, t.state.phaseCnt, most, 2 * m - 1);
    } else {
      SumLast(s.total, r.total, s.phaseCnt, most, 2 * m - 1);
    }
  }

  lemma {:induction false} LooseRunSum(c: Config, o: Oracle, s: State, curJob: nat, p: nat, r: State)
    requires Between(c, s, curJob) && OracleOk(c, o) && Loose(s, p)
    requires r == Run(c, o, None, s, curJob)
    ensures s.phaseCnt <= MostPhases(c.maxPhase)
    ensures r.total <= s.total + Product(MostPhases(c.maxPhase) - s.phaseCnt, 18 * p)
    decreases c.maxPhase - curJob
  {
    hide OneTurn, HandedOut, Counted, Tracked, Sized, Loose, MostPhases, Product;
    var t, most := OneTurn(c, o, None, s, curJob), MostPhases(c.maxPhase);
    TurnKeeps(c, o, None, s, curJob);
    LooseTurn(c, o, s, curJob, p);
    ProductIs(18, p);
    TurnPhases(c, o, None, s, curJob);
    if t.Next? {
      LooseRunSum(c, o, t.state, curJob + 1, p, r);
      SumStep(s.total, t.state.total, r.total, s.phaseCnt, t.state.phaseCnt, most, 18 * p);
    } else {
      SumLast(s.total, r.total, s.phaseCnt, most, 18 * p);
    }
  }

  lemma {:induction false} UncappedRunSum(c: Config, o: Oracle, s: State, curJob: nat, p: nat, r: State)
    requires Between(c, s, curJob) && OracleOk(c, o) && Uncapped(s, p) && s.budget >= 1
    requires r == Run(c, o, None, s, curJob)
    ensures s.phaseCnt <= MostPhases(c.maxPhase)
    ensures r.total <= s.total + Product(MostPhases(c.maxPhase) - s.phaseCnt, s.budget - 1 + p)
    decreases c.maxPhase - curJob
  {
    hide OneTurn, HandedOut, Counted, Tracked, Sized, Uncapped, MostPhases, Product;
    var t, most := OneTurn(c, o, None, s, curJob), MostPhases(c.maxPhase);
    TurnKeeps(c, o, None, s, curJob);
    UncappedTurn(c, o, s, curJob, p);
    TurnPhases(c, o, None, s, curJob);
    if t.Next? {
      UncappedRunSum(c, o, t.state, curJob + 1, p, r);
      SumStep(s.total, t.state.total, r.total, s.phaseCnt, t.state.phaseCnt, most, s.budget - 1 + p);
    } else {
      SumLast(s.total, r.total, s.phaseCnt, most, s.budget - 1 + p);
    }
  }

  // -------------------------------------------- phases that follow a plan

  /** The classes that the requests of every phase are for. */
  type Plan = seq<nat>

  ghost function PlanPages(c: Config, f: nat, plan: Plan, i: nat): nat
    requires i <= |plan|
    decreases |plan| - i
  {
    if i == |plan| then 0 else Asked(c, f, plan[i]) + PlanPages(c, f, plan, i + 1)
  }

  /** The requests from number i on use up a budget of cnt, the last one being the first to do so. */
  ghost predicate Paces(c: Config, f: nat, plan: Plan, i: nat, cnt: nat, precision: bool)
    requires i <= |plan|
    decreases |plan| - i
  {
    if i == |plan| then cnt == 0
    else cnt >= 1 && Paces(c, f, plan, i + 1, LeftOf(precision, Asked(c, f, plan[i]), cnt), precision)
  }

  /** The classes are there, and the byte cap does not cut them. */
  ghost predicate Allowed(c: Config, f: nat, plan: Plan, byteCap: nat) {
    forall i | 0 <= i < |plan| :: plan[i] <= c.speed && (byteCap == 0 || byteCap >= PAGE_SIZE * (f + plan[i]))
  }

  function PlanOracle(plan: Plan, count: nat): (o: Oracle)
    requires |plan| >= 1
    ensures forall k: nat :: o.count(k) == count && !o.late(k)
  {
    Oracle((k: nat) => Draw(File, seq(10, _ => plan[k % |plan|])), _ => count, _ => false)
  }

  lemma PlanDraws(plan: Plan, count: nat, k: nat)
    requires |plan| >= 1
    ensures AllPick(PlanOracle(plan, count).draw(k), plan[k % |plan|])
  {
  }

  lemma PlanOracleOk(c: Config, f: nat, plan: Plan, byteCap: nat, count: nat)
    requires |plan| >= 1 && Allowed(c, f, plan, byteCap) && 5 <= count <= 18
    ensures OracleOk(c, PlanOracle(plan, count))
  {
    var o := PlanOracle(plan, count);
    forall k: nat ensures DrawOk(c, o.draw(k)) {
      PlanDraws(plan, count, k);
      assert plan[k % |plan|] <= c.speed;
    }
  }

  /** The state of a phase with i requests behind it and cnt left of its budget. */
  ghost predicate OnPlan(c: Config, s: State, cnt: nat, f: nat, plan: Plan, i: nat, n: nat) {
    && Inv(c, s) && s.curr >= 0 && Stocked(s.pool, f, n) && i <= |plan|
    && Allowed(c, f, plan, s.byteCap) && Paces(c, f, plan, i, cnt, s.precision)
    && |s.track[s.curr]| + |plan| - i <= MAX_ALLOC_PER_SE && |s.maps| + |plan| - i <= n
  }

  /** The draws of the requests from number k of the run on are those of the plan from i on. */
  ghost predicate Drawn(o: Oracle, k: nat, plan: Plan, i: nat) {
    forall j | i <= j < |plan| :: AllPick(o.draw(k + j - i), plan[j])
  }

  lemma PlanStep(c: Config, o: Oracle, s: State, cnt: nat, slice: int, f: nat, plan: Plan, i: nat, n: nat)
    requires OracleOk(c, o) && OnPlan(c, s, cnt, f, plan, i, n) && Drawn(o, s.typeCnt, plan, i) && i < |plan|
    ensures InPhase(c, s) && DrawOk(c, o.draw(s.typeCnt)) && cnt >= 1 && s.status.Running?
    ensures var q := Request(c, s, slice, o.draw(s.typeCnt));
            && InPhase(c, q.state) && OnPlan(c, q.state, Left(s.precision, q, cnt), f, plan, i + 1, n)
            && Drawn(o, q.state.typeCnt, plan, i + 1)
            && q.state.typeCnt == s.typeCnt + 1 && |q.state.maps| == |s.maps| + 1
            && q.state.total == s.total + Asked(c, f, plan[i])
  {
    hide Request, Inv, Stocked, Left, Asked, AllPick, LeftOf;
    InvShape(c, s);
    var q := Request(c, s, slice, o.draw(s.typeCnt));
    assert AllPick(o.draw(s.typeCnt + i - i), plan[i]);
    ServedStep(c, s, slice, o.draw(s.typeCnt), f, plan[i], n, q);
    DrawnNext(o, s.typeCnt, plan, i);
  }

  lemma DrawnNext(o: Oracle, k: nat, plan: Plan, i: nat)
    requires Drawn(o, k, plan, i) && i < |plan|
    ensures Drawn(o, k + 1, plan, i + 1)
  {
    hide AllPick;
    forall j | i + 1 <= j < |plan| ensures AllPick(o.draw(k + 1 + j - (i + 1)), plan[j]) {
      assert AllPick(o.draw(k + j - i), plan[j]);
    }
  }

  lemma PlanEnd(c: Config, s: State, cnt: nat, f: nat, plan: Plan, n: nat)
    requires OnPlan(c, s, cnt, f, plan, |plan|, n)
    ensures cnt == 0 && s.status.Running? && InPhase(c, s) && PlanPages(c, f, plan, |plan|) == 0
  {
  }

  /** A phase that follows the plan takes the pages of the plan. */
  lemma {:induction false} PlanLoop(c: Config, o: Oracle, s: State, cnt: nat, slice: int,
                                    f: nat, plan: Plan, i: nat, n: nat, r: State)
    requires InPhase(c, s) && OracleOk(c, o) && OnPlan(c, s, cnt, f, plan, i, n) && Drawn(o, s.typeCnt, plan, i)
    requires r == TransLoop(c, o, s, cnt, slice) && i <= |plan|
    ensures r.status.Running? && r.total == s.total + PlanPages(c, f, plan, i)
    ensures r.typeCnt == s.typeCnt + |plan| - i && |r.maps| == |s.maps| + |plan| - i
    decreases |plan| - i
  {
    hide *;
    if i == |plan| {
      PlanEnd(c, s, cnt, f, plan, n);
      LoopZero(c, o, s, slice);
    } else {
      PlanStep(c, o, s, cnt, slice, f, plan, i, n);
      PlanPagesNext(c, f, plan, i);
      var q := Request(c, s, slice, o.draw(s.typeCnt));
      LoopNext(c, o, s, cnt, slice, q);
      PlanLoop(c, o, q.state, Left(s.precision, q, cnt), SliceAfter(q, slice), f, plan, i + 1, n, r);
    }
  }

  lemma PlanPagesNext(c: Config, f: nat, plan: Plan, i: nat)
    requires i < |plan|
    ensures PlanPages(c, f, plan, i) == Asked(c, f, plan[i]) + PlanPages(c, f, plan, i + 1)
  {
  }

  // -------------------------------------------------- runs that follow it

  /** The plan uses up what every phase begins with. */
  ghost predicate AllPaced(c: Config, o: Oracle, f: nat, plan: Plan, budget: nat, precision: bool) {
    if precision then Paces(c, f, plan, 0, budget, true)
    else forall k: nat :: Paces(c, f, plan, 0, o.count(k), false)
  }

  /** Between jobs: the next phase will be able to follow the plan. */
  ghost predicate Primed(c: Config, o: Oracle, s: State, f: nat, plan: Plan, n: nat) {
    && 1 <= |plan| <= MAX_ALLOC_PER_SE && Stocked(s.pool, f, n) && Allowed(c, f, plan, s.byteCap)
    && AllPaced(c, o, f, plan, s.budget, s.precision)
  }

  lemma InTurn(j: nat, m: nat, t: nat)
    requires t < m
    ensures (Product(j, m) + t) % m == t
  {
    ProductIs(j, m);
    Samplers.QuotientRemainder(m, j, t);
  }

  lemma DrawnFrom(plan: Plan, count: nat, j: nat)
    requires |plan| >= 1
    ensures Drawn(PlanOracle(plan, count), Product(j, |plan|), plan, 0)
  {
    hide PlanOracle, AllPick, Product;
    forall t | 0 <= t < |plan| ensures AllPick(PlanOracle(plan, count).draw(Product(j, |plan|) + t - 0), plan[t]) {
      DrawnAt(plan, count, j, t);
    }
  }

  lemma DrawnAt(plan: Plan, count: nat, j: nat, t: nat)
    requires t < |plan|
    ensures AllPick(PlanOracle(plan, count).draw(Product(j, |plan|) + t), plan[t])
  {
    hide PlanOracle, AllPick, Product;
    InTurn(j, |plan|, t);
    PlanDraws(plan, count, Product(j, |plan|) + t);
  }

  lemma PrimedLater(c: Config, o: Oracle, s: State, f: nat, plan: Plan, n: nat, r: State)
    requires Primed(c, o, s, f, plan, n) && Grows(s.pool, r.pool)
    requires r.precision == s.precision && r.budget == s.budget && r.byteCap == s.byteCap
    ensures Primed(c, o, r, f, plan, n)
  {
    StockedLater(s.pool, r.pool, f, n);
    hide Stocked, AllPaced, Allowed, Grows;
  }

  lemma PlanBegins(c: Config, o: Oracle, s: State, f: nat, plan: Plan, n: nat, cnt: nat)
    requires Inv(c, s) && s.curr + 1 < MAX_ALLOC && Primed(c, o, s, f, plan, n) && |s.maps| + |plan| <= n
    requires cnt == if s.precision then s.budget else o.count(s.curr + 1)
    ensures OnPlan(c, s.(curr := s.curr + 1), cnt, f, plan, 0, n)
  {
    InvShape(c, s);
    EmptyRow(c, s);
    PhaseStart(c, s);
    hide Inv, Stocked, Paces, Allowed;
  }

  lemma PlanPhase(c: Config, s: State, f: nat, plan: Plan, count: nat, n: nat, j: nat, r: State)
    requires |plan| >= 1 && Inv(c, s) && s.curr + 1 < MAX_ALLOC && OracleOk(c, PlanOracle(plan, count))
    requires Primed(c, PlanOracle(plan, count), s, f, plan, n) && |s.maps| + |plan| <= n
    requires s.typeCnt == Product(j, |plan|) && r == TransRandAlloc(c, PlanOracle(plan, count), s)
    ensures r.total == s.total + PlanPages(c, f, plan, 0) && r.typeCnt == s.typeCnt + |plan|
    ensures |r.maps| == |s.maps| + |plan| && r.status.Running? && Primed(c, PlanOracle(plan, count), r, f, plan, n)
  {
    var o := PlanOracle(plan, count);
    InvShape(c, s);
    PhaseSame(c, o, s);
    var s1, cnt, slice := PhaseLoop(c, o, s);
    hide TransRandAlloc, TransLoop, PlanOracle, Inv, Stocked, Grows, AllPaced, PlanPages, Product, Shape, OracleOk;
    PrimedLater(c, o, s, f, plan, n, r);
    PlanBegins(c, o, s, f, plan, n, cnt);
    DrawnFrom(plan, count, j);
    PlanLoop(c, o, s1, cnt, slice, f, plan, 0, n, r);
  }

  ghost predicate Planned(c: Config, o: Oracle, s: State, f: nat, plan: Plan, n: nat) {
    && OracleOk(c, o) && Primed(c, o, s, f, plan, n) && s.typeCnt == |s.maps| == Product(s.phaseCnt, |plan|)
    && s.total == Product(s.phaseCnt, PlanPages(c, f, plan, 0))
  }

  lemma PlannedIs(c: Config, o: Oracle, s: State, f: nat, plan: Plan, n: nat)
    requires Planned(c, o, s, f, plan, n)
    ensures OracleOk(c, o) && Primed(c, o, s, f, plan, n) && 1 <= |plan| <= MAX_ALLOC_PER_SE
    ensures s.typeCnt == |s.maps| == Product(s.phaseCnt, |plan|)
    ensures s.total == Product(s.phaseCnt, PlanPages(c, f, plan, 0))
  {
  }

  lemma PlannedNext(c: Config, o: Oracle, s: State, r: State, f: nat, plan: Plan, n: nat)
    requires Planned(c, o, s, f, plan, n) && Primed(c, o, r, f, plan, n) && r.phaseCnt == s.phaseCnt
    requires r.typeCnt == s.typeCnt + |plan| && |r.maps| == |s.maps| + |plan|
    requires r.total == s.total + PlanPages(c, f, plan, 0)
    ensures Planned(c, o, r.(phaseCnt := r.phaseCnt + 1), f, plan, n)
  {
    hide Primed, PlanPages, OracleOk;
    PrimedCounted(c, o, r, f, plan, n);
  }

  /** One more phase. */
  lemma PlanNext(c: Config, s: State, f: nat, plan: Plan, count: nat, n: nat, r: State)
    requires |plan| >= 1 && Inv(c, s) && s.curr + 1 < MAX_ALLOC && s.phaseCnt < MAX_ALLOC
    requires Planned(c, PlanOracle(plan, count), s, f, plan, n) && Product(MAX_ALLOC, |plan|) <= n
    requires r == TransRandAlloc(c, PlanOracle(plan, count), s)
    ensures r.status.Running? && r.phaseCnt == s.phaseCnt
    ensures Planned(c, PlanOracle(plan, count), r.(phaseCnt := r.phaseCnt + 1), f, plan, n)
  {
    hide *;
    InvShape(c, s);
    PlannedIs(c, PlanOracle(plan, count), s, f, plan, n);
    PlanFits(s.phaseCnt, |plan|);
    PlanPhase(c, s, f, plan, count, n, s.phaseCnt, r);
    PhaseLater(c, PlanOracle(plan, count), s);
    PlannedNext(c, PlanOracle(plan, count), s, r, f, plan, n);
  }

  lemma PlanFits(j: nat, q: nat)
    requires j < MAX_ALLOC
    ensures Product(j, q) + q <= Product(MAX_ALLOC, q)
  {
    ProductNext(j, q);
    ProductMonotone(j + 1, MAX_ALLOC, q);
  }

  lemma PlanTurn(c: Config, s: State, curJob: nat, f: nat, plan: Plan, count: nat, n: nat)
    requires |plan| >= 1 && Between(c, s, curJob) && s.phaseCnt == curJob
    requires Planned(c, PlanOracle(plan, count), s, f, plan, n) && Product(MAX_ALLOC, |plan|) <= n
    ensures OracleOk(c, PlanOracle(plan, count))
    ensures var t := OneTurn(c, PlanOracle(plan, count), None, s, curJob);
            && (t.Last? ==> t.last.total == s.total && t.last.phaseCnt == s.phaseCnt
                            && (s.total > c.maxLimit || s.phaseCnt >= MostPhases(c.maxPhase)))
            && (t.Next? ==> t.feed == None && t.state.phaseCnt == curJob + 1
                            && Planned(c, PlanOracle(plan, count), t.state, f, plan, n))
  {
    hide TransRandAlloc, PlanOracle, Inv, Shape, OracleOk, Planned, OneTurn;
    InvShape(c, s);
    CountedTotal(c, s);
    PlannedIs(c, PlanOracle(plan, count), s, f, plan, n);
    OpenTurn(c, PlanOracle(plan, count), s, curJob);
    if s.curr + 1 < MAX_ALLOC {
      PlanNext(c, s, f, plan, count, n, TransRandAlloc(c, PlanOracle(plan, count), s));
    }
  }

  /** A turn whose job is not late, without a vector file. */
  lemma OpenTurn(c: Config, o: Oracle, s: State, curJob: nat)
    requires Shape(c, s) && OracleOk(c, o) && !o.late(curJob + 1)
    ensures s.curr < MAX_ALLOC
    ensures OneTurn(c, o, None, s, curJob) ==
            if c.maxLimit < s.fileCnt + s.anonCnt || c.maxPhase <= curJob + 1 then Last(s)
            else if s.curr + 1 == MAX_ALLOC then Last(s.(curr := MAX_ALLOC, status := Overrun))
            else
              var r := TransRandAlloc(c, o, s);
              if r.status.Running? then Next(None, r.(phaseCnt := r.phaseCnt + 1)) else Last(r)
  {
    hide TransRandAlloc;
  }

  lemma CountedTotal(c: Config, s: State)
    requires Inv(c, s)
    ensures s.fileCnt + s.anonCnt == s.total
  {
  }

  lemma PrimedCounted(c: Config, o: Oracle, s: State, f: nat, plan: Plan, n: nat)
    requires Primed(c, o, s, f, plan, n)
    ensures Primed(c, o, s.(phaseCnt := s.phaseCnt + 1), f, plan, n)
  {
    hide AllPaced, Stocked, Allowed;
  }

  lemma {:induction false} PlanRun(c: Config, s: State, curJob: nat, f: nat, plan: Plan, count: nat, n: nat, r: State)
    requires |plan| >= 1 && Between(c, s, curJob) && s.phaseCnt == curJob && OracleOk(c, PlanOracle(plan, count))
    requires Planned(c, PlanOracle(plan, count), s, f, plan, n) && Product(MAX_ALLOC, |plan|) <= n
    requires r == Run(c, PlanOracle(plan, count), None, s, curJob)
    ensures r.total == Product(r.phaseCnt, PlanPages(c, f, plan, 0))
    ensures r.total > c.maxLimit || r.phaseCnt >= MostPhases(c.maxPhase)
    decreases c.maxPhase - curJob
  {
    hide OneTurn, HandedOut, Counted, Tracked, Sized, PlanOracle, Primed, PlanPages, Product, MostPhases;
    var o := PlanOracle(plan, count);
    var t := OneTurn(c, o, None, s, curJob);
    TurnKeeps(c, o, None, s, curJob);
    PlanTurn(c, s, curJob, f, plan, count, n);
    if t.Next? {
      PlanRun(c, t.state, curJob + 1, f, plan, count, n, r);
    }
  }

  /** From the initial state. */
  lemma PlanWitness(c: Config, f: nat, plan: Plan, count: nat, budget: nat, precision: bool, byteCap: nat)
    returns (o: Oracle, s: State, r: State)
    requires f >= 1 && 1 <= |plan| <= MAX_ALLOC_PER_SE && 5 <= count <= 18
    requires byteCap == 0 || (precision && byteCap == budget * PAGE_SIZE)
    requires Allowed(c, f, plan, byteCap) && Paces(c, f, plan, 0, if precision then budget else count, precision)
    ensures Fresh(c, s) && OracleOk(c, o) && s == Start(c, f, Product(MAX_ALLOC, |plan|), budget, precision, byteCap)
    ensures r == Run(c, o, None, s, 0) && r.total == Product(r.phaseCnt, PlanPages(c, f, plan, 0))
    ensures r.total > c.maxLimit || r.phaseCnt >= MostPhases(c.maxPhase)
  {
    var n := Product(MAX_ALLOC, |plan|);
    o := PlanOracle(plan, count);
    PlanOracleOk(c, f, plan, byteCap, count);
    s := Start(c, f, n, budget, precision, byteCap);
    PlanStart(c, f, plan, count, budget, precision, byteCap, n, s);
    FreshInv(c, s);
    hide *;
    r := Run(c, o, None, s, 0);
    PlanRun(c, s, 0, f, plan, count, n, r);
  }

  lemma PlanStart(c: Config, f: nat, plan: Plan, count: nat, budget: nat, precision: bool, byteCap: nat,
                  n: nat, s: State)
    requires f >= 1 && 1 <= |plan| <= MAX_ALLOC_PER_SE && OracleOk(c, PlanOracle(plan, count))
    requires byteCap == 0 || (precision && byteCap == budget * PAGE_SIZE)
    requires Allowed(c, f, plan, byteCap) && Paces(c, f, plan, 0, if precision then budget else count, precision)
    requires s == Start(c, f, n, budget, precision, byteCap)
    ensures Shape(c, s) && s.phaseCnt == 0 && Planned(c, PlanOracle(plan, count), s, f, plan, n)
  {
    hide Paces, PlanPages, Asked;
    assert Product(0, |plan|) == 0 == Product(0, PlanPages(c, f, plan, 0));
  }

  // ------------------------------------------------------------- the plans

  lemma {:induction false} PlanShift(c: Config, f: nat, x: nat, plan: Plan, i: nat, cnt: nat, precision: bool)
    requires i <= |plan|
    ensures PlanPages(c, f, [x] + plan, i + 1) == PlanPages(c, f, plan, i)
    ensures Paces(c, f, [x] + plan, i + 1, cnt, precision) <==> Paces(c, f, plan, i, cnt, precision)
    decreases |plan| - i
  {
    if i < |plan| {
      assert ([x] + plan)[i + 1] == plan[i];
      var b := Asked(c, f, plan[i]);
      PlanShift(c, f, x, plan, i + 1, if cnt >= 1 then LeftOf(precision, b, cnt) else 0, precision);
    }
  }

  /** Requests of at most p pages that come to one page less than the budget b, and then one of p. */
  function Greedy(b: nat, p: nat): (plan: Plan)
    requires b >= 1 && p >= 1
    ensures |plan| >= 1 && forall i | 0 <= i < |plan| :: plan[i] < p
    decreases b
  {
    if b == 1 then [p - 1]
    else if b - 1 <= p then [b - 2, p - 1]
    else [p - 1] + Greedy(b - p, p)
  }

  lemma {:induction false} GreedyPages(c: Config, b: nat, p: nat)
    requires b >= 1 && p >= 1 && c.maxLimit >= 2
    ensures PlanPages(c, 1, Greedy(b, p), 0) == b - 1 + p && Paces(c, 1, Greedy(b, p), 0, b, true)
    decreases b
  {
    if b == 1 {
      assert PlanPages(c, 1, [p - 1], 1) == 0;
    } else if b - 1 <= p {
      assert PlanPages(c, 1, [b - 2, p - 1], 1) == p && Paces(c, 1, [b - 2, p - 1], 1, 1, true);
    } else {
      GreedyPages(c, b - p, p);
      PlanShift(c, 1, p - 1, Greedy(b - p, p), 0, b - p, true);
    }
  }

  lemma {:induction false} GreedyLength(b: nat, p: nat, k: nat)
    requires b >= 1 && p >= 1 && b - 1 <= Product(k, p)
    ensures |Greedy(b, p)| <= k + 1
    decreases b
  {
    if k > 0 && b - 1 > p {
      GreedyLength(b - p, p, k - 1);
    }
  }

  /** Requests for class 0 of p pages until the budget b is used up. */
  function Repeating(b: nat, p: nat): (plan: Plan)
    requires p >= 1
    ensures |plan| >= 1 && forall i | 0 <= i < |plan| :: plan[i] == 0
    decreases b
  {
    if b <= p then [0] else [0] + Repeating(b - p, p)
  }

  lemma {:induction false} RepeatingPages(c: Config, b: nat, p: nat)
    requires b >= 1 && p >= 1
    ensures PlanPages(c, p, Repeating(b, p), 0) >= if b >= p then b else p
    ensures b <= p ==> PlanPages(c, p, Repeating(b, p), 0) == p
    ensures Paces(c, p, Repeating(b, p), 0, b, true)
    decreases b
  {
    if b <= p {
      assert PlanPages(c, p, [0], 1) == 0;
    } else {
      RepeatingPages(c, b - p, p);
      PlanShift(c, p, 0, Repeating(b - p, p), 0, b - p, true);
    }
  }

  lemma {:induction false} RepeatingLength(b: nat, p: nat, k: nat)
    requires b >= 1 && p >= 1 && b - 1 <= Product(k, p)
    ensures |Repeating(b, p)| <= k + 1
    decreases b
  {
    if k > 0 && b > p {
      RepeatingLength(b - p, p, k - 1);
    }
  }

  lemma {:induction false} LoosePages(c: Config, p: nat, plan: Plan, i: nat)
    requires p >= 1 && i <= |plan| && forall j | 0 <= j < |plan| :: plan[j] == 0
    ensures PlanPages(c, p, plan, i) == Product(|plan| - i, p) && Paces(c, p, plan, i, |plan| - i, false)
    decreases |plan| - i
  {
    if i < |plan| {
      LoosePages(c, p, plan, i + 1);
    }
  }

  // ------------------------------------------------ the limit, exactly

  /** k phases of y pages each, that ended with the limit passed or with all phases through. */
  ghost predicate Through(r: State, L: nat, P: nat, y: nat) {
    r.total == Product(r.phaseCnt, y) && (r.total > L || r.phaseCnt >= MostPhases(P))
  }

  lemma PassesLimit(r: State, L: nat, P: nat, y: nat, z: nat)
    requires Through(r, L, P, y) && L < Product(MostPhases(P), z) && (y == z || y > L)
    ensures r.total > L
  {
    assert MostPhases(P) >= 1 by { assert Product(0, z) == 0; }
    if r.phaseCnt >= MostPhases(P) {
      ProductMonotone(MostPhases(P), r.phaseCnt, y);
      ProductMonotone(1, r.phaseCnt, y);
      ProductNext(0, y);
    }
  }

  lemma ReachesCap(r: State, L: nat, j: nat, y: nat)
    requires y >= 1 && j < MAX_ALLOC && L == Product(j, y) && Through(r, L, j + 2, y) && r.total <= L + y
    ensures r.total == L + y
  {
    ProductNext(j, y);
    if r.phaseCnt <= j {
      ProductMonotone(r.phaseCnt, j, y);
    } else {
      ProductMonotone(j + 1, r.phaseCnt, y);
    }
  }

  lemma FreshTotal(c: Config, s: State)
    requires Fresh(c, s)
    ensures s.total == 0 && s.phaseCnt == 0
  {
  }

  /** A run of P jobs under a limit of L pages and budgets of at most m, in which each phase takes as
      much as it can; for a limit of at most one page, it takes more than that. */
  lemma BudgetedWitness(L: nat, P: nat, m: nat) returns (c: Config, o: Oracle, s: State, r: State, y: nat)
    requires m >= 1
    ensures c.maxLimit == L && c.maxPhase == P && Fresh(c, s) && OracleOk(c, o) && Budgeted(None, s, m)
    ensures r == Run(c, o, None, s, 0) && Through(r, L, P, y) && (y == 2 * m - 1 || y > L)
    ensures L >= 2 || m == 1 ==> y == 2 * m - 1
  {
    if L >= 2 {
      c := Config(L, m - 1, P);
      var plan := Greedy(m, m);
      GreedyPages(c, m, m);
      ProductNext(0, m);
      GreedyLength(m, m, 1);
      o, s, r := PlanWitness(c, 1, plan, 5, m, true, m * PAGE_SIZE);
      y := 2 * m - 1;
    } else {
      c := Config(L, 0, P);
      y := if m == 1 then 1 else 2;
      RepeatingPages(c, y, y);
      o, s, r := PlanWitness(c, y, Repeating(y, y), 5, y, true, y * PAGE_SIZE);
    }
  }

  /** Under budgets of at most m pages no run passes a limit of L pages exactly when L is at least what
      all the phases that a run can have can take. */
  lemma LimitIff(L: nat, P: nat, m: nat)
    requires m >= 1
    ensures MostPhases(P) * (2 * m - 1) <= L <==>
            forall c: Config, o, feed, s ::
              c.maxLimit == L && c.maxPhase == P && Fresh(c, s) && OracleOk(c, o) && Budgeted(feed, s, m)
              ==> Run(c, o, feed, s, 0).total <= L
  {
    hide Machine.Run, Budgeted, Between, Through, Product;
    ProductIs(MostPhases(P), 2 * m - 1);
    if Product(MostPhases(P), 2 * m - 1) <= L {
      forall c: Config, o, feed, s |
        c.maxLimit == L && c.maxPhase == P && Fresh(c, s) && OracleOk(c, o) && Budgeted(feed, s, m)
        ensures Run(c, o, feed, s, 0).total <= L
      {
        FreshInv(c, s);
        RunSum(c, o, feed, s, 0, m, Run(c, o, feed, s, 0));
      }
    } else {
      var c, o, s, r, y := BudgetedWitness(L, P, m);
      PassesLimit(r, L, P, y, 2 * m - 1);
    }
  }

  /** What RunCap allows beyond the limit is taken: by the (j + 1)-th phase, when the first j have
      taken all that the limit allows. */
  lemma LimitReached(m: nat, j: nat)
    requires m >= 1 && 1 <= j < MAX_ALLOC
    ensures exists c: Config, o, s ::
              && Fresh(c, s) && OracleOk(c, o) && Budgeted(None, s, m) && c.maxLimit == j * (2 * m - 1)
              && Run(c, o, None, s, 0).total == c.maxLimit + 2 * m - 1
  {
    hide Machine.Run, Fresh, Budgeted, Between, Through, Product;
    var z := 2 * m - 1;
    ProductIs(j, z);
    ProductMonotone(1, j, z);
    ProductNext(0, z);
    var c, o, s, r, y := BudgetedWitness(Product(j, z), j + 2, m);
    FreshInv(c, s);
    FreshTotal(c, s);
    RunCap(c, o, None, s, 0, m, r);
    ReachesCap(r, Product(j, z), j, z);
  }

  /** The same without precision, for classes of at most p pages: no phase takes more than 18 of them. */
  lemma LooseWitness(L: nat, P: nat, p: nat) returns (c: Config, o: Oracle, s: State, r: State)
    requires p >= 1
    ensures c.maxLimit == L && c.maxPhase == P && Fresh(c, s) && OracleOk(c, o) && Loose(s, p)
    ensures r == Run(c, o, None, s, 0) && Through(r, L, P, 18 * p)
  {
    c := Config(L, 0, P);
    var plan := seq(18, _ => 0);
    LoosePages(c, p, plan, 0);
    ProductIs(18, p);
    o, s, r := PlanWitness(c, p, plan, 18, 0, false, 0);
  }

  lemma LooseLimitIff(L: nat, P: nat, p: nat)
    requires p >= 1
    ensures MostPhases(P) * (18 * p) <= L <==>
            forall c: Config, o, s ::
              c.maxLimit == L && c.maxPhase == P && Fresh(c, s) && OracleOk(c, o) && Loose(s, p)
              ==> Run(c, o, None, s, 0).total <= L
  {
    hide Machine.Run, Loose, Between, Through, Product;
    ProductIs(MostPhases(P), 18 * p);
    if Product(MostPhases(P), 18 * p) <= L {
      forall c: Config, o, s |
        c.maxLimit == L && c.maxPhase == P && Fresh(c, s) && OracleOk(c, o) && Loose(s, p)
        ensures Run(c, o, None, s, 0).total <= L
      {
        FreshInv(c, s);
        LooseRunSum(c, o, s, 0, p, Run(c, o, None, s, 0));
      }
    } else {
      var c, o, s, r := LooseWitness(L, P, p);
      PassesLimit(r, L, P, 18 * p, 18 * p);
    }
  }

  lemma LooseLimitReached(p: nat, j: nat)
    requires p >= 1 && 1 <= j < MAX_ALLOC
    ensures exists c: Config, o, s ::
              && Fresh(c, s) && OracleOk(c, o) && Loose(s, p) && c.maxLimit == j * (18 * p)
              && Run(c, o, None, s, 0).total == c.maxLimit + 18 * p
  {
    hide Machine.Run, Fresh, Loose, Between, Through, Product;
    ProductIs(j, 18 * p);
    var c, o, s, r := LooseWitness(Product(j, 18 * p), j + 2, p);
    FreshInv(c, s);
    FreshTotal(c, s);
    LooseRunCap(c, o, s, 0, p, r);
    ReachesCap(r, Product(j, 18 * p), j, 18 * p);
  }

  /** The same with a budget of b pages but no byte cap, as -A leaves it. */
  lemma UncappedWitness(L: nat, P: nat, b: nat, p: nat) returns (c: Config, o: Oracle, s: State, r: State, y: nat)
    requires b >= 1 && p >= 1 && b - 1 <= 499 * p
    ensures c.maxLimit == L && c.maxPhase == P && Fresh(c, s) && OracleOk(c, o) && Uncapped(s, p) && s.budget == b
    ensures r == Run(c, o, None, s, 0) && Through(r, L, P, y) && (y == b - 1 + p || y > L)
    ensures L >= 2 || b - 1 + p == 1 ==> y == b - 1 + p
  {
    hide Start, Machine.Run, Fresh, Paces, PlanPages, Product, Greedy, Repeating, Uncapped, OracleOk, MostPhases;
    ProductIs(499, p);
    if L >= 2 {
      c := Config(L, p - 1, P);
      GreedyPages(c, b, p);
      GreedyLength(b, p, 499);
      o, s, r := PlanWitness(c, 1, Greedy(b, p), 5, b, true, 0);
      StartUncapped(c, 1, Product(MAX_ALLOC, |Greedy(b, p)|), b, p, s);
      y := b - 1 + p;
    } else {
      c := Config(L, 0, P);
      RepeatingPages(c, b, p);
      RepeatingLength(b, p, 499);
      o, s, r := PlanWitness(c, p, Repeating(b, p), 5, b, true, 0);
      StartUncapped(c, p, Product(MAX_ALLOC, |Repeating(b, p)|), b, p, s);
      y := PlanPages(c, p, Repeating(b, p), 0);
    }
  }

  lemma StartUncapped(c: Config, f: nat, n: nat, b: nat, p: nat, s: State)
    requires f >= 1 && f + c.speed <= p && s == Start(c, f, n, b, true, 0)
    ensures Uncapped(s, p) && s.budget == b
  {
  }

  /** Such budgets fit into a row in requests of p pages; the 150 that -A leaves does for every p. */
  lemma UncappedLimitIff(L: nat, P: nat, b: nat, p: nat)
    requires b >= 1 && p >= 1 && b - 1 <= 499 * p
    ensures MostPhases(P) * (b - 1 + p) <= L <==>
            forall c: Config, o, s ::
              c.maxLimit == L && c.maxPhase == P && Fresh(c, s) && OracleOk(c, o) && Uncapped(s, p) && s.budget == b
              ==> Run(c, o, None, s, 0).total <= L
  {
    hide Machine.Run, Uncapped, Between, Through, Product;
    ProductIs(MostPhases(P), b - 1 + p);
    if Product(MostPhases(P), b - 1 + p) <= L {
      forall c: Config, o, s |
        c.maxLimit == L && c.maxPhase == P && Fresh(c, s) && OracleOk(c, o) && Uncapped(s, p) && s.budget == b
        ensures Run(c, o, None, s, 0).total <= L
      {
        FreshInv(c, s);
        UncappedRunSum(c, o, s, 0, p, Run(c, o, None, s, 0));
      }
    } else {
      var c, o, s, r, y := UncappedWitness(L, P, b, p);
      PassesLimit(r, L, P, y, b - 1 + p);
    }
  }

  lemma UncappedLimitReached(b: nat, p: nat, j: nat)
    requires b >= 1 && p >= 1 && b - 1 <= 499 * p && 1 <= j < MAX_ALLOC
    ensures exists c: Config, o, s ::
              && Fresh(c, s) && OracleOk(c, o) && Uncapped(s, p) && s.budget == b && c.maxLimit == j * (b - 1 + p)
              && Run(c, o, None, s, 0).total == c.maxLimit + b - 1 + p
  {
    hide Machine.Run, Fresh, Uncapped, Between, Through, Product;
    var z := b - 1 + p;
    ProductIs(j, z);
    ProductMonotone(1, j, z);
    ProductNext(0, z);
    var c, o, s, r, y := UncappedWitness(Product(j, z), j + 2, b, p);
    FreshInv(c, s);
    FreshTotal(c, s);
    UncappedRunCap(c, o, s, 0, p, r);
    ReachesCap(r, Product(j, z), j, z);
  }
}
