/** The requests of a whole run, in order, and what a request that fails says of the later ones. */
module Requests {
  import opened Pool
  import opened Machine
  import opened Phase
  import opened WholeRun

  /** A request: the state in which it is made, and the slice of its phase. */
  datatype Ask = Ask(state: State, slice: int)

  ghost function LoopAsks(c: Config, o: Oracle, s: State, cnt: nat, slice: int): seq<Ask>
    requires InPhase(c, s) && OracleOk(c, o)
    decreases cnt
  {
    if cnt == 0 || s.status != Running then []
    else
      var r := Request(c, s, slice, o.draw(s.typeCnt));
      [Ask(s, slice)] + LoopAsks(c, o, r.state, Left(s.precision, r, cnt), SliceAfter(r, slice))
  }

  ghost function PhaseAsks(c: Config, o: Oracle, s: State): seq<Ask>
    requires Shape(c, s) && s.curr + 1 < MAX_ALLOC && OracleOk(c, o)
  {
    var s1 := s.(curr := s.curr + 1);
    var cnt := AllocCount(o, s1);
    LoopAsks(c, o, s1, cnt, AnonSlice(s1, cnt))
  }

  /** One turn of the loop of main. */
  ghost function TurnAsks(c: Config, o: Oracle, feed: Feed, s: State, curJob: nat): seq<Ask>
    requires Shape(c, s) && OracleOk(c, o)
  {
    var s1 := Fed(feed, s);
    if feed == Some([]) || c.maxLimit < s1.fileCnt + s1.anonCnt || c.maxPhase <= curJob + 1
       || o.late(curJob + 1) || s1.curr + 1 == MAX_ALLOC
    then []
    else PhaseAsks(c, o, s1)
  }

  ghost function RunAsks(c: Config, o: Oracle, feed: Feed, s: State, curJob: nat): seq<Ask>
    requires Shape(c, s) && OracleOk(c, o)
    decreases c.maxPhase - curJob
  {
    match OneTurn(c, o, feed, s, curJob)
    case Last(_) => TurnAsks(c, o, feed, s, curJob)
    case Next(feed', s') => TurnAsks(c, o, feed, s, curJob) + RunAsks(c, o, feed', s', curJob + 1)
  }

  // ---------------------------------------------------------- in one order

  /** Every request is made in a state that comes after p and before q, and after those of the
      requests before it; the k-th one is number n + k of the run. */
  ghost predicate Chain(c: Config, p: seq<SizeClass>, n: nat, asks: seq<Ask>, q: seq<SizeClass>) {
    && Grows(p, q)
    && (forall k | 0 <= k < |asks| :: InPhase(c, asks[k].state) && asks[k].state.typeCnt == n + k)
    && (forall k | 0 <= k < |asks| :: Grows(p, asks[k].state.pool) && Grows(asks[k].state.pool, q))
    && (forall j, k | 0 <= j < k < |asks| :: Grows(asks[j].state.pool, asks[k].state.pool))
  }

  lemma GrowsTransitive(p: seq<SizeClass>, q: seq<SizeClass>, r: seq<SizeClass>)
    requires Grows(p, q) && Grows(q, r)
    ensures Grows(p, r)
  {
  }

  lemma GrowsSelf(p: seq<SizeClass>)
    ensures Grows(p, p)
  {
  }

  lemma ChainNone(c: Config, p: seq<SizeClass>, n: nat)
    ensures Chain(c, p, n, [], p)
  {
    GrowsSelf(p);
  }

  lemma ChainOne(c: Config, a: Ask, q: seq<SizeClass>)
    requires InPhase(c, a.state) && Grows(a.state.pool, q)
    ensures Chain(c, a.state.pool, a.state.typeCnt, [a], q)
  {
    GrowsSelf(a.state.pool);
  }

  lemma ChainConcat(c: Config, p: seq<SizeClass>, n: nat, a: seq<Ask>, q: seq<SizeClass>,
                    b: seq<Ask>, r: seq<SizeClass>)
    requires Chain(c, p, n, a, q) && Chain(c, q, n + |a|, b, r)
    ensures Chain(c, p, n, a + b, r)
  {
    hide Grows, InPhase;
    var s := a + b;
    GrowsTransitive(p, q, r);
    forall k | 0 <= k < |s| ensures Grows(p, s[k].state.pool) && Grows(s[k].state.pool, r) {
      if k < |a| {
        GrowsTransitive(s[k].state.pool, q, r);
      } else {
        GrowsTransitive(p, q, s[k].state.pool);
      }
    }
    forall j, k | 0 <= j < k < |s| ensures Grows(s[j].state.pool, s[k].state.pool) {
      if j < |a| <= k {
        GrowsTransitive(s[j].state.pool, q, s[k].state.pool);
      }
    }
  }

  lemma {:induction false} LoopChain(c: Config, o: Oracle, s: State, cnt: nat, slice: int, r: State)
    requires InPhase(c, s) && OracleOk(c, o) && r == TransLoop(c, o, s, cnt, slice)
    ensures var asks := LoopAsks(c, o, s, cnt, slice);
            Chain(c, s.pool, s.typeCnt, asks, r.pool) && r.typeCnt == s.typeCnt + |asks|
    decreases cnt
  {
    if cnt == 0 || s.status != Running {
      ChainNone(c, s.pool, s.typeCnt);
    } else {
      var q := Request(c, s, slice, o.draw(s.typeCnt));
      var left, next := Left(s.precision, q, cnt), SliceAfter(q, slice);
      RequestSteps(c, s, slice, o.draw(s.typeCnt));
      LoopNext(c, o, s, cnt, slice, q);
      assert LoopAsks(c, o, s, cnt, slice) == [Ask(s, slice)] + LoopAsks(c, o, q.state, left, next);
      ChainOne(c, Ask(s, slice), q.state.pool);
      hide *;
      LoopChain(c, o, q.state, left, next, r);
      ChainConcat(c, s.pool, s.typeCnt, [Ask(s, slice)], q.state.pool, LoopAsks(c, o, q.state, left, next), r.pool);
    }
  }

  lemma TurnChain(c: Config, o: Oracle, feed: Feed, s: State, curJob: nat)
    requires Shape(c, s) && OracleOk(c, o)
    ensures var asks, r := TurnAsks(c, o, feed, s, curJob), After(OneTurn(c, o, feed, s, curJob));
            Chain(c, s.pool, s.typeCnt, asks, r.pool) && r.typeCnt == s.typeCnt + |asks|
  {
    hide TransLoop, LoopAsks, Chain, Grows;
    var s1 := Fed(feed, s);
    ChainNone(c, s.pool, s.typeCnt);
    if s1.curr + 1 < MAX_ALLOC {
      var s2 := s1.(curr := s1.curr + 1);
      LoopChain(c, o, s2, AllocCount(o, s2), AnonSlice(s2, AllocCount(o, s2)), TransRandAlloc(c, o, s1));
    }
  }

  lemma {:induction false} RunChain(c: Config, o: Oracle, feed: Feed, s: State, curJob: nat, r: State)
    requires Shape(c, s) && OracleOk(c, o) && r == Run(c, o, feed, s, curJob)
    ensures var asks := RunAsks(c, o, feed, s, curJob);
            Chain(c, s.pool, s.typeCnt, asks, r.pool) && r.typeCnt == s.typeCnt + |asks|
    decreases c.maxPhase - curJob
  {
    hide OneTurn, TurnAsks, Chain;
    var t := OneTurn(c, o, feed, s, curJob);
    TurnChain(c, o, feed, s, curJob);
    if t.Next? {
      RunChain(c, o, t.feed, t.state, curJob + 1, r);
      ChainConcat(c, s.pool, s.typeCnt, TurnAsks(c, o, feed, s, curJob), t.state.pool,
                  RunAsks(c, o, t.feed, t.state, curJob + 1), r.pool);
    }
  }

  // ------------------------------------------------------- failing for good

  /** Request a is for a file of length len. */
  ghost predicate ForFile(c: Config, o: Oracle, a: Ask, len: nat) {
    && InPhase(c, a.state) && DrawOk(c, o.draw(a.state.typeCnt))
    && AllocType(a.state.typeCnt, a.slice, o.draw(a.state.typeCnt).typ).File?
    && AllocLen(c, a.state.pool, o.draw(a.state.typeCnt).picks) == len
  }

  ghost predicate Fails(c: Config, o: Oracle, a: Ask) {
    && InPhase(c, a.state) && DrawOk(c, o.draw(a.state.typeCnt))
    && Request(c, a.state, a.slice, o.draw(a.state.typeCnt)).got == None
  }

  lemma FailsIff(c: Config, o: Oracle, a: Ask, len: nat)
    requires ForFile(c, o, a, len)
    ensures Fails(c, o, a) <==> GetFilePath(a.state.pool, len).node == None
  {
    hide GetFrom, Pick;
  }

  /** The requests are as many as the type counter moves by, and once one for a file of some length
      has failed, every later one for this length or a greater one fails, in the same phase or in a
      later one. */
  lemma NeverServedAgain(c: Config, o: Oracle, feed: Feed, s: State, curJob: nat)
    requires Shape(c, s) && OracleOk(c, o)
    ensures var asks := RunAsks(c, o, feed, s, curJob);
            && Run(c, o, feed, s, curJob).typeCnt == s.typeCnt + |asks|
            && forall i, j, len, more ::
                 (&& 0 <= i < j < |asks| && ForFile(c, o, asks[i], len) && ForFile(c, o, asks[j], more)
                  && len <= more && Fails(c, o, asks[i]))
                 ==> Fails(c, o, asks[j])
  {
    hide RunAsks, Machine.Run, ForFile, Fails;
    var asks := RunAsks(c, o, feed, s, curJob);
    RunChain(c, o, feed, s, curJob, Run(c, o, feed, s, curJob));
    forall i, j, len, more |
      0 <= i < j < |asks| && ForFile(c, o, asks[i], len) && ForFile(c, o, asks[j], more) && len <= more
      && Fails(c, o, asks[i])
      ensures Fails(c, o, asks[j])
    {
      FailsIff(c, o, asks[i], len);
      FailsIff(c, o, asks[j], more);
      FailsForever(asks[i].state.pool, asks[j].state.pool, len, more);
    }
  }
}
