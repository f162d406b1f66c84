/** Which mappings are touched in the course of a run, and how often. */
module Touches {
  import opened Pool
  import opened Machine
  import opened Accounting
  import opened WholeRun
  import opened Holding
  import opened Visits

  /** n touches of the mapping at a, if there is one, in a transition. */
  function Repeated(a: Option<nat>, n: nat): seq<Visit> {
    if n == 0 || a == None then [] else Repeated(a, n - 1) + [Visit(a.value, true)]
  }

  lemma RepeatedNext(a: Option<nat>, n: nat)
    ensures Repeated(a, 0) == []
    ensures Repeated(a, n + 1) == Repeated(a, n) + if a.Some? then [Visit(a.value, true)] else []
  {
  }

  /** The touches of a transition that makes the mappings from lo to hi: each new one is touched i
      times before the next is made. */
  function TransTouches(lo: nat, hi: int, i: nat): seq<Visit> {
    if hi <= lo then [] else TransTouches(lo, hi - 1, i) + Repeated(Some(hi - 1), i)
  }

  lemma TransTouchesNext(lo: nat, hi: nat, i: nat)
    requires lo <= hi
    ensures TransTouches(lo, lo, i) == []
    ensures TransTouches(lo, hi + 1, i) == TransTouches(lo, hi, i) + Repeated(Some(hi), i)
  {
  }

  lemma TransTouchesNone(lo: nat, hi: int, i: nat)
    requires hi <= lo
    ensures TransTouches(lo, hi, i) == []
  {
  }

  /** What the first n turns of the holding loop touch, outside of any transition. */
  function HeldVisits(row: seq<Entry>, n: nat): seq<Visit> {
    if n == 0 then []
    else
      var i := Countdown(|row|, n - 1);
      HeldVisits(row, n - 1) + if i > 0 then [Visit(row[i - 1].addr, false)] else []
  }

  lemma HeldNext(row: seq<Entry>, n: nat)
    ensures var i := Countdown(|row|, n);
            && i <= |row|
            && Countdown(|row|, n + 1) == (if i > 0 then i - 1 else |row|)
            && HeldVisits(row, n + 1) == HeldVisits(row, n) + if i > 0 then [Visit(row[i - 1].addr, false)] else []
  {
  }

  lemma HeldNone(row: seq<Entry>)
    ensures Countdown(|row|, 0) == |row| && HeldVisits(row, 0) == []
  {
  }

  /** They are the entries of HoldLog. */
  lemma {:induction false} HeldAre(row: seq<Entry>, n: nat)
    ensures |HeldVisits(row, n)| == |HoldLog(|row|, n)|
    ensures forall j | 0 <= j < |HoldLog(|row|, n)| ::
              HoldLog(|row|, n)[j] < |row| && HeldVisits(row, n)[j] == Visit(row[HoldLog(|row|, n)[j]].addr, false)
  {
    HoldWithin(|row|, n);
    if n > 0 {
      HeldAre(row, n - 1);
    }
  }

  /** Entries listed by their addresses, which are distinct, are listed as often. */
  lemma {:induction false} AddressesCount(row: seq<Entry>, ks: seq<nat>, visits: seq<Visit>, k: nat)
    requires k < |row| && forall i, j | 0 <= i < j < |row| :: row[i].addr != row[j].addr
    requires |ks| == |visits| && forall j | 0 <= j < |ks| :: ks[j] < |row| && visits[j] == Visit(row[ks[j]].addr, false)
    ensures multiset(visits)[Visit(row[k].addr, false)] == multiset(ks)[k]
  {
    if ks != [] {
      var n := |ks| - 1;
      assert ks == ks[..n] + [ks[n]] && visits == visits[..n] + [visits[n]];
      AddressesCount(row, ks[..n], visits[..n], k);
    }
  }

  /** The holding loop is fair to the mappings of the phase, if these are distinct. */
  lemma HeldFair(row: seq<Entry>, n: nat, k: nat)
    requires k < |row| && forall i, j | 0 <= i < j < |row| :: row[i].addr != row[j].addr
    ensures multiset(HeldVisits(row, n))[Visit(row[k].addr, false)] == Share(|row|, n, k)
  {
    hide *;
    HeldAre(row, n);
    AddressesCount(row, HoldLog(|row|, n), HeldVisits(row, n), k);
    HoldFair(|row|, n, k);
  }

  lemma {:induction false} RepeatedCount(x: nat, n: nat, v: Visit)
    ensures multiset(Repeated(Some(x), n))[v] == if v == Visit(x, true) then n else 0
  {
    if n > 0 {
      RepeatedCount(x, n - 1, v);
    }
  }

  lemma {:induction false} TransTouchesCount(lo: nat, hi: int, i: nat, v: Visit)
    ensures multiset(TransTouches(lo, hi, i))[v] == if v.inTransition && lo <= v.addr < hi then i else 0
  {
    hide *;
    if lo < hi {
      TransTouchesNext(lo, hi - 1, i);
      TransTouchesCount(lo, hi - 1, i, v);
      RepeatedCount(hi - 1, i, v);
      CountConcat(TransTouches(lo, hi - 1, i), Repeated(Some(hi - 1), i), v);
    } else {
      TransTouchesNone(lo, hi, i);
    }
  }

  /** Nothing else is touched, and nothing as if in a transition. */
  lemma HeldWithin(row: seq<Entry>, n: nat, v: Visit)
    requires v.inTransition || forall k | 0 <= k < |row| :: row[k].addr != v.addr
    ensures multiset(HeldVisits(row, n))[v] == 0
  {
    hide *;
    HeldAre(row, n);
    assert v !in HeldVisits(row, n);
  }

  /** Which mappings one job touches, and how often: each of the phase's own L mappings i times in
      the transition and then its fair share of the n turns of holding, and no other mapping ever. */
  lemma JobFair(c: Config, o: Oracle, s: State, r: State, i: nat, n: nat, a: nat)
    requires Inv(c, s) && OracleOk(c, o) && s.curr + 1 < MAX_ALLOC
    requires r == Machine.TransRandAlloc(c, o, s) && r.status.Running?
    ensures var lo, hi := |s.maps|, |r.maps|;
            var touched := multiset(TransTouches(lo, hi, i) + HeldVisits(r.track[r.curr], n));
            && touched[Visit(a, true)] == (if lo <= a < hi then i else 0)
            && touched[Visit(a, false)] == if lo <= a < hi then Share(hi - lo, n, a - lo) else 0
  {
    hide Machine.TransRandAlloc, Inv, HeldVisits, TransTouches, Share;
    PhaseRow(c, o, s, r);
    var lo, hi, row := |s.maps|, |r.maps|, r.track[r.curr];
    TransTouchesCount(lo, hi, i, Visit(a, true));
    TransTouchesCount(lo, hi, i, Visit(a, false));
    HeldWithin(row, n, Visit(a, true));
    if lo <= a < hi {
      assert row[a - lo].addr == a;
      HeldFair(row, n, a - lo);
    } else {
      HeldWithin(row, n, Visit(a, false));
    }
    CountConcat(TransTouches(lo, hi, i), HeldVisits(row, n), Visit(a, true));
    CountConcat(TransTouches(lo, hi, i), HeldVisits(row, n), Visit(a, false));
  }

  lemma CountConcat(s: seq<Visit>, t: seq<Visit>, v: Visit)
    ensures multiset(s + t)[v] == multiset(s)[v] + multiset(t)[v]
  {
  }

  // ---------------------------------------------------------- whole runs

  /** What one turn of the loop of main touches: loops says how often a phase touches each new mapping,
      turns how many turns of holding a job has. */
  ghost function TurnTouches(c: Config, o: Oracle, feed: Feed, s: State, curJob: nat,
                             loops: nat -> nat, turns: nat -> nat): seq<Visit>
    requires Shape(c, s) && OracleOk(c, o)
  {
    var s1 := Fed(feed, s);
    if feed == Some([]) || c.maxLimit < s1.fileCnt + s1.anonCnt || c.maxPhase <= curJob + 1
       || o.late(curJob + 1) || s1.curr + 1 == MAX_ALLOC
    then []
    else JobTouches(c, s1, TransRandAlloc(c, o, s1), loops(s1.phaseCnt), turns(curJob + 1))
  }

  /** A phase that leads from s to r.  The mapping that did not fit into its row is not touched. */
  ghost function JobTouches(c: Config, s: State, r: State, i: nat, n: nat): seq<Visit>
    requires InPhase(c, r)
  {
    if r.status.Running? then TransTouches(|s.maps|, |r.maps|, i) + HeldVisits(r.track[r.curr], n)
    else TransTouches(|s.maps|, |r.maps| - 1, i)
  }

  ghost function RunTouches(c: Config, o: Oracle, feed: Feed, s: State, curJob: nat,
                            loops: nat -> nat, turns: nat -> nat): seq<Visit>
    requires Shape(c, s) && OracleOk(c, o)
    decreases c.maxPhase - curJob
  {
    match OneTurn(c, o, feed, s, curJob)
    case Last(_) => TurnTouches(c, o, feed, s, curJob, loops, turns)
    case Next(feed', s') =>
      TurnTouches(c, o, feed, s, curJob, loops, turns) + RunTouches(c, o, feed', s', curJob + 1, loops, turns)
  }

  /** Each mapping of the row is touched i times in a transition, and as often as its share of n turns is
      outside of any. */
  ghost predicate Shared(touched: seq<Visit>, row: seq<Entry>, i: nat, n: nat) {
    forall k | 0 <= k < |row| ::
      && multiset(touched)[Visit(row[k].addr, true)] == i
      && multiset(touched)[Visit(row[k].addr, false)] == Share(|row|, n, k)
  }

  /** The row lists mappings from number base on, and these are touched in fair shares. */
  ghost predicate Fair(touched: seq<Visit>, row: seq<Entry>, base: nat, i: nat, n: nat) {
    (forall k | 0 <= k < |row| :: row[k].addr >= base) && Shared(touched, row, i, n)
  }

  ghost predicate Untouched(touched: seq<Visit>, a: nat) {
    multiset(touched)[Visit(a, true)] == 0 == multiset(touched)[Visit(a, false)]
  }

  /** A turn touches the mappings that it makes, and if it completes a phase, in fair shares. */
  ghost predicate TurnFair(s: State, r: State, touched: seq<Visit>, i: nat, n: nat) {
    && |s.maps| <= |r.maps|
    && (forall a: nat | a < |s.maps| || a >= |r.maps| :: Untouched(touched, a))
    && (r.phaseCnt != s.phaseCnt ==>
          && r.phaseCnt == s.phaseCnt + 1 && 0 <= r.curr == s.phaseCnt < |r.track|
          && (forall k | 0 <= k < |r.track[r.curr]| :: |s.maps| <= r.track[r.curr][k].addr < |r.maps|)
          && Shared(touched, r.track[r.curr], i, n))
  }

  lemma NothingTouched(s: State, r: State, i: nat, n: nat)
    requires s.maps == r.maps && s.phaseCnt == r.phaseCnt
    ensures TurnFair(s, r, [], i, n)
  {
  }

  lemma RowShared(c: Config, o: Oracle, s: State, i: nat, n: nat, r: State, touched: seq<Visit>)
    requires Inv(c, s) && OracleOk(c, o) && s.curr + 1 < MAX_ALLOC
    requires r == TransRandAlloc(c, o, s) && r.status.Running?
    requires touched == TransTouches(|s.maps|, |r.maps|, i) + HeldVisits(r.track[r.curr], n)
    ensures forall a: nat | a < |s.maps| || a >= |r.maps| :: Untouched(touched, a)
    ensures Shared(touched, r.track[r.curr], i, n)
    ensures forall k | 0 <= k < |r.track[r.curr]| :: |s.maps| <= r.track[r.curr][k].addr < |r.maps|
  {
    hide TransRandAlloc, Inv, OracleOk, HeldVisits, TransTouches, Share;
    var row := r.track[r.curr];
    PhaseRow(c, o, s, r);
    forall a: nat | a < |s.maps| || a >= |r.maps| ensures Untouched(touched, a) {
      JobFair(c, o, s, r, i, n, a);
    }
    forall k | 0 <= k < |row|
      ensures multiset(touched)[Visit(row[k].addr, true)] == i
      ensures multiset(touched)[Visit(row[k].addr, false)] == Share(|row|, n, k)
    {
      JobFair(c, o, s, r, i, n, |s.maps| + k);
    }
  }

  lemma PhaseMoves(c: Config, o: Oracle, s: State, r: State)
    requires Inv(c, s) && OracleOk(c, o) && s.curr + 1 < MAX_ALLOC && r == TransRandAlloc(c, o, s)
    ensures |s.maps| <= |r.maps| && r.curr == s.curr + 1 && 0 <= r.curr < |r.track| && r.phaseCnt == s.phaseCnt
  {
    InvShape(c, s);
    hide TransRandAlloc, Inv, Grows;
    PhaseLater(c, o, s);
  }

  lemma PhaseTouched(c: Config, o: Oracle, s: State, i: nat, n: nat, r: State)
    requires Inv(c, s) && OracleOk(c, o) && s.curr + 1 < MAX_ALLOC && s.curr + 1 == s.phaseCnt
    requires r == TransRandAlloc(c, o, s)
    ensures TurnFair(s, if r.status.Running? then r.(phaseCnt := r.phaseCnt + 1) else r,
                     JobTouches(c, s, r, i, n), i, n)
  {
    hide TransRandAlloc, Inv, OracleOk, Shape, HeldVisits, TransTouches, Shared, Untouched;
    PhaseMoves(c, o, s, r);
    var touched := JobTouches(c, s, r, i, n);
    if r.status.Running? {
      RowShared(c, o, s, i, n, r, touched);
    } else {
      forall a: nat | a < |s.maps| || a >= |r.maps| ensures Untouched(touched, a) {
        TransUntouched(|s.maps|, |r.maps|, i, a);
      }
    }
  }

  lemma TransUntouched(lo: nat, hi: nat, i: nat, a: nat)
    requires lo <= hi && (a < lo || a >= hi)
    ensures Untouched(TransTouches(lo, hi - 1, i), a)
  {
    TransTouchesCount(lo, hi - 1, i, Visit(a, true));
    TransTouchesCount(lo, hi - 1, i, Visit(a, false));
  }

  lemma TurnTouched(c: Config, o: Oracle, feed: Feed, s: State, curJob: nat, loops: nat -> nat, turns: nat -> nat)
    requires Between(c, s, curJob) && OracleOk(c, o)
    ensures TurnFair(s, After(OneTurn(c, o, feed, s, curJob)), TurnTouches(c, o, feed, s, curJob, loops, turns),
                     loops(s.phaseCnt), turns(curJob + 1))
  {
    hide TransRandAlloc, HandedOut, Tracked, Sized, JobTouches, TurnFair;
    var s1 := Fed(feed, s);
    var i, n := loops(s.phaseCnt), turns(curJob + 1);
    FedKeeps(c, feed, s, curJob);
    if s1.curr + 1 < MAX_ALLOC {
      PhaseTouched(c, o, s1, i, n, TransRandAlloc(c, o, s1));
      FedFair(feed, s, After(OneTurn(c, o, feed, s, curJob)), JobTouches(c, s1, TransRandAlloc(c, o, s1), i, n), i, n);
    }
    if TurnTouches(c, o, feed, s, curJob, loops, turns) == [] && After(OneTurn(c, o, feed, s, curJob)).maps == s.maps
       && After(OneTurn(c, o, feed, s, curJob)).phaseCnt == s.phaseCnt
    {
      NothingTouched(s, After(OneTurn(c, o, feed, s, curJob)), i, n);
    }
  }

  lemma FedFair(feed: Feed, s: State, r: State, touched: seq<Visit>, i: nat, n: nat)
    ensures TurnFair(Fed(feed, s), r, touched, i, n) ==> TurnFair(s, r, touched, i, n)
  {
  }

  lemma SharedFirst(a: seq<Visit>, b: seq<Visit>, row: seq<Entry>, base: nat, i: nat, n: nat)
    requires Shared(a, row, i, n)
    requires forall k | 0 <= k < |row| :: row[k].addr >= base && Untouched(b, row[k].addr)
    ensures Fair(a + b, row, base, i, n)
  {
    hide Share;
    forall k | 0 <= k < |row|
      ensures multiset(a + b)[Visit(row[k].addr, true)] == i
      ensures multiset(a + b)[Visit(row[k].addr, false)] == Share(|row|, n, k)
    {
      CountConcat(a, b, Visit(row[k].addr, true));
      CountConcat(a, b, Visit(row[k].addr, false));
      assert Untouched(b, row[k].addr);
    }
  }

  lemma SharedLater(a: seq<Visit>, b: seq<Visit>, row: seq<Entry>, base: nat, later: nat, i: nat, n: nat)
    requires Fair(b, row, later, i, n) && base <= later && forall x: nat | x >= later :: Untouched(a, x)
    ensures Fair(a + b, row, base, i, n)
  {
    hide Share;
    forall k | 0 <= k < |row|
      ensures multiset(a + b)[Visit(row[k].addr, true)] == i
      ensures multiset(a + b)[Visit(row[k].addr, false)] == Share(|row|, n, k)
    {
      CountConcat(a, b, Visit(row[k].addr, true));
      CountConcat(a, b, Visit(row[k].addr, false));
      assert Untouched(a, row[k].addr);
    }
  }

  /** The first jobs after number from that are not late, in order. */
  ghost predicate Punctual(late: nat -> bool, from: nat, jobs: seq<nat>) {
    && (forall i | 0 <= i < |jobs| :: from < jobs[i] && !late(jobs[i]))
    && (forall i, k | 0 <= i < k < |jobs| :: jobs[i] < jobs[k])
    && (jobs != [] ==> forall j: nat | from < j <= jobs[|jobs| - 1] && !late(j) :: j in jobs)
  }

  /** The mappings of every completed phase are touched in its transition, as often as it loops, and in
      the holding turns of its own job, each its fair share, and never again. */
  ghost predicate SharedOut(s: State, r: State, touched: seq<Visit>, loops: nat -> nat, turns: nat -> nat,
                            jobs: seq<nat>) {
    && (forall a: nat | a < |s.maps| :: Untouched(touched, a))
    && s.phaseCnt + |jobs| == r.phaseCnt
    && (forall i | 0 <= i < |jobs| :: PhaseFair(s, r, touched, loops, turns, jobs, i))
  }

  /** The i-th phase since s and the i-th job. */
  ghost predicate PhaseFair(s: State, r: State, touched: seq<Visit>, loops: nat -> nat, turns: nat -> nat,
                            jobs: seq<nat>, i: nat)
    requires i < |jobs|
  {
    var p := s.phaseCnt + i;
    p < |r.track| && Fair(touched, r.track[p], |s.maps|, loops(p), turns(jobs[i]))
  }

  /** A whole run: its phases belong to the jobs that are not late, one each and in order. */
  ghost predicate RunFair(s: State, r: State, touched: seq<Visit>, loops: nat -> nat, turns: nat -> nat,
                          late: nat -> bool) {
    exists jobs :: Punctual(late, 0, jobs) && SharedOut(s, r, touched, loops, turns, jobs)
  }

  /** A turn completes a phase if it goes on and its job is not late. */
  lemma TurnPhase(c: Config, o: Oracle, feed: Feed, s: State, curJob: nat)
    requires Shape(c, s) && OracleOk(c, o)
    ensures var t := OneTurn(c, o, feed, s, curJob);
            && (t.Last? ==> t.last.phaseCnt == s.phaseCnt)
            && (t.Next? ==> t.state.phaseCnt == if o.late(curJob + 1) then s.phaseCnt else s.phaseCnt + 1)
  {
    hide TransRandAlloc;
    var s1 := Fed(feed, s);
    if s1.curr + 1 < MAX_ALLOC {
      PhaseLater(c, o, s1);
    }
  }

  lemma PunctualNext(late: nat -> bool, from: nat, jobs: seq<nat>)
    requires Punctual(late, from + 1, jobs)
    ensures late(from + 1) ==> Punctual(late, from, jobs)
    ensures !late(from + 1) ==> Punctual(late, from, [from + 1] + jobs)
  {
    var more := [from + 1] + jobs;
    forall j: nat | from < j <= more[|more| - 1] && !late(j) ensures j in more {
      if j > from + 1 {
        assert j in jobs;
      } else {
        assert more[0] == j;
      }
    }
  }

  lemma {:induction false} RunTouched(c: Config, o: Oracle, feed: Feed, s: State, curJob: nat,
                                      loops: nat -> nat, turns: nat -> nat, r: State)
    returns (jobs: seq<nat>)
    requires Between(c, s, curJob) && OracleOk(c, o) && r == Run(c, o, feed, s, curJob)
    ensures Punctual(o.late, curJob, jobs)
    ensures SharedOut(s, r, RunTouches(c, o, feed, s, curJob, loops, turns), loops, turns, jobs)
    decreases c.maxPhase - curJob
  {
    hide OneTurn, HandedOut, Counted, Tracked, Sized, TurnTouches, TurnFair, SharedOut, Punctual, Grows;
    var t := OneTurn(c, o, feed, s, curJob);
    var first := TurnTouches(c, o, feed, s, curJob, loops, turns);
    TurnTouched(c, o, feed, s, curJob, loops, turns);
    TurnKeeps(c, o, feed, s, curJob);
    TurnPhase(c, o, feed, s, curJob);
    if t.Next? {
      jobs := RunTouched(c, o, t.feed, t.state, curJob + 1, loops, turns, r);
      RunLater(c, o, t.feed, t.state, curJob + 1, r);
      var later := RunTouches(c, o, t.feed, t.state, curJob + 1, loops, turns);
      PunctualNext(o.late, curJob, jobs);
      if o.late(curJob + 1) {
        SharedIdle(s, t.state, r, first, later, loops, turns, jobs, turns(curJob + 1));
      } else {
        SharedNext(s, t.state, r, first, later, loops, turns, jobs, curJob + 1);
        jobs := [curJob + 1] + jobs;
      }
    } else {
      jobs := [];
      SharedNone(o.late, curJob, s, r, first, loops, turns);
    }
  }

  lemma SharedNone(late: nat -> bool, from: nat, s: State, r: State, touched: seq<Visit>,
                   loops: nat -> nat, turns: nat -> nat)
    requires TurnFair(s, r, touched, loops(s.phaseCnt), turns(from + 1)) && r.phaseCnt == s.phaseCnt
    ensures Punctual(late, from, []) && SharedOut(s, r, touched, loops, turns, [])
  {
    hide Untouched;
  }

  lemma UntouchedTwice(s: State, t: State, a: seq<Visit>, b: seq<Visit>, i: nat, n: nat)
    requires TurnFair(s, t, a, i, n) && forall x: nat | x < |t.maps| :: Untouched(b, x)
    ensures forall x: nat | x < |s.maps| :: Untouched(a + b, x)
  {
    hide Shared;
    forall x: nat | x < |s.maps| ensures Untouched(a + b, x) {
      assert Untouched(a, x) && Untouched(b, x);
      CountConcat(a, b, Visit(x, true));
      CountConcat(a, b, Visit(x, false));
    }
  }

  lemma SharedIdle(s: State, t: State, r: State, a: seq<Visit>, b: seq<Visit>,
                   loops: nat -> nat, turns: nat -> nat, jobs: seq<nat>, n: nat)
    requires TurnFair(s, t, a, loops(s.phaseCnt), n) && SharedOut(t, r, b, loops, turns, jobs)
    requires t.phaseCnt == s.phaseCnt
    ensures SharedOut(s, r, a + b, loops, turns, jobs)
  {
    hide Fair, Shared;
    UntouchedTwice(s, t, a, b, loops(s.phaseCnt), n);
    forall i | 0 <= i < |jobs| ensures PhaseFair(s, r, a + b, loops, turns, jobs, i) {
      assert PhaseFair(t, r, b, loops, turns, jobs, i);
      var p := s.phaseCnt + i;
      SharedLater(a, b, r.track[p], |s.maps|, |t.maps|, loops(p), turns(jobs[i]));
    }
  }

  lemma SharedNext(s: State, t: State, r: State, a: seq<Visit>, b: seq<Visit>,
                   loops: nat -> nat, turns: nat -> nat, jobs: seq<nat>, job: nat)
    requires TurnFair(s, t, a, loops(s.phaseCnt), turns(job)) && SharedOut(t, r, b, loops, turns, jobs)
    requires t.phaseCnt == s.phaseCnt + 1 && Later(t, r)
    ensures SharedOut(s, r, a + b, loops, turns, [job] + jobs)
  {
    hide Fair, Shared, Grows;
    var more := [job] + jobs;
    UntouchedTwice(s, t, a, b, loops(s.phaseCnt), turns(job));
    forall i | 0 <= i < |more| ensures PhaseFair(s, r, a + b, loops, turns, more, i) {
      var p := s.phaseCnt + i;
      if i == 0 {
        SharedFirst(a, b, r.track[p], |s.maps|, loops(p), turns(job));
      } else {
        assert PhaseFair(t, r, b, loops, turns, jobs, i - 1);
        SharedLater(a, b, r.track[p], |s.maps|, |t.maps|, loops(p), turns(more[i]));
      }
    }
  }
}
