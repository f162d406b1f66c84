/** The single-allocation machine of alloc_manager.c, and how the phase allocator relates to it when
    every phase has a budget of one page, which is what an IPFVT vector file sets. */
module Single {
  import opened Pool
  import opened Machine
  import opened Phase

  function SingleType(typeCnt: nat): MemType {
    if typeCnt % FILE_RATIO == 0 && typeCnt != 0 then Anon else File
  }

  /** One request of the given length; a request that fails ends the program. */
  function SingleAlloc(s: State, len: nat): (r: State)
    requires |s.track| == MAX_ALLOC && 0 <= s.curr < MAX_ALLOC
    ensures |r.track| == MAX_ALLOC && r.curr == s.curr
  {
    var counted := s.(typeCnt := s.typeCnt + 1);
    if SingleType(s.typeCnt).Anon? then Place(counted, len, None).state
    else
      var p := GetFilePath(s.pool, len);
      var probed := counted.(pool := p.pool);
      if p.node.None? then probed.(status := Exited)
      else Place(probed, s.pool[p.node.value.cls].size, p.node).state
  }

  function SingleTrans(s: State, len: nat): (r: State)
    requires |s.track| == MAX_ALLOC && -1 <= s.curr < MAX_ALLOC - 1
    ensures |r.track| == MAX_ALLOC && r.curr == s.curr + 1
  {
    SingleAlloc(s.(curr := s.curr + 1), len)
  }

  /** The length that the next request of the phase allocator will ask for. */
  function NextLen(c: Config, o: Oracle, s: State): nat
    requires Shape(c, s) && DrawOk(c, o.draw(s.typeCnt))
  {
    AllocLen(c, s.pool, o.draw(s.typeCnt).picks)
  }

  ghost predicate OnePage(c: Config, s: State) {
    Shape(c, s) && s.precision && s.budget == 1 && s.status.Running?
  }

  /** With a budget of one a phase makes exactly one request.  It is the step of the single machine,
      except that the phase allocator survives a request that no file is left for. */
  lemma OneRequest(c: Config, o: Oracle, s: State)
    requires OnePage(c, s) && OracleOk(c, o) && s.curr + 1 < MAX_ALLOC
    ensures var r, t := TransRandAlloc(c, o, s), SingleTrans(s, NextLen(c, o, s));
            && r.typeCnt == s.typeCnt + 1
            && t == r.(status := t.status)
            && (t.status == r.status || (t.status == Exited && r.maps == s.maps))
  {
    var s1 := s.(curr := s.curr + 1);
    var d := o.draw(s.typeCnt);
    var q := Request(c, s1, -1, d);
    RequestSteps(c, s1, -1, d);
    assert Left(true, q, 1) == 0;
    assert TransLoop(c, o, q.state, 0, SliceAfter(q, -1)) == q.state;
    assert TransRandAlloc(c, o, s) == q.state;
  }

  /** What main counts after a job. */
  function Counted(s: State): State {
    s.(phaseCnt := s.phaseCnt + 1)
  }

  /** n phases of each machine, the single one fed with the lengths that the other one draws. */
  function Phases(c: Config, o: Oracle, s: State, n: nat): (r: State)
    requires Shape(c, s) && OracleOk(c, o) && s.curr + n < MAX_ALLOC
    ensures Shape(c, r)
    decreases n
  {
    if n == 0 || s.status != Running then s
    else
      var t := TransRandAlloc(c, o, s);
      PhaseIndex(c, o, s);
      if t.status.Running? then Phases(c, o, Counted(t), n - 1) else t
  }

  lemma PhaseIndex(c: Config, o: Oracle, s: State)
    requires Shape(c, s) && OracleOk(c, o) && s.curr + 1 < MAX_ALLOC
    ensures var r := TransRandAlloc(c, o, s);
            r.curr == s.curr + 1 && r.budget == s.budget && r.precision == s.precision && r.byteCap == s.byteCap
  {
    hide TransRandAlloc, TransLoop, Shape, OracleOk, Grows;
    var s1, cnt, slice := PhaseLoop(c, o, s);
    TransLater(c, o, s1, cnt, slice);
  }

  function SinglePhases(s: State, lens: seq<nat>): (r: State)
    requires |s.track| == MAX_ALLOC && -1 <= s.curr && s.curr + |lens| < MAX_ALLOC
    decreases |lens|
  {
    if lens == [] || s.status != Running then s
    else
      var t := SingleTrans(s, lens[0]);
      if t.status.Running? then SinglePhases(Counted(t), lens[1..]) else t
  }

  ghost function Lens(c: Config, o: Oracle, s: State, n: nat): (lens: seq<nat>)
    requires Shape(c, s) && OracleOk(c, o) && s.curr + n < MAX_ALLOC
    ensures |lens| <= n
    decreases n
  {
    if n == 0 || s.status != Running then []
    else
      PhaseIndex(c, o, s);
      [NextLen(c, o, s)] + Lens(c, o, Counted(TransRandAlloc(c, o, s)), n - 1)
  }

  /** As long as no request of the single machine fails, both machines go through the same states, and
      so have the same types, tracker, files and counters. */
  lemma {:induction false} IpfvtRefines(c: Config, o: Oracle, s: State, n: nat, z: State)
    requires OnePage(c, s) && OracleOk(c, o) && s.curr + n < MAX_ALLOC
    requires z == SinglePhases(s, Lens(c, o, s, n)) && z.status.Running?
    ensures z == Phases(c, o, s, n)
    decreases n
  {
    if n > 0 {
      IpfvtStep(c, o, s, n, z);
      hide *;
      IpfvtRefines(c, o, Counted(TransRandAlloc(c, o, s)), n - 1, z);
    }
  }

  lemma IpfvtStep(c: Config, o: Oracle, s: State, n: nat, z: State)
    requires OnePage(c, s) && OracleOk(c, o) && s.curr + n < MAX_ALLOC && n > 0
    requires z == SinglePhases(s, Lens(c, o, s, n)) && z.status.Running?
    ensures var r := Counted(TransRandAlloc(c, o, s));
            && OnePage(c, r) && r.curr == s.curr + 1
            && z == SinglePhases(r, Lens(c, o, r, n - 1))
            && Phases(c, o, s, n) == Phases(c, o, r, n - 1)
  {
    hide TransRandAlloc, SingleTrans, NextLen, Phases, SinglePhases, Lens;
    PhasesStep(c, o, s, n);
    SingleStep(s, NextLen(c, o, s), Lens(c, o, Counted(TransRandAlloc(c, o, s)), n - 1));
    SameWhileServed(c, o, s);
  }

  lemma SameWhileServed(c: Config, o: Oracle, s: State)
    requires OnePage(c, s) && OracleOk(c, o) && s.curr + 1 < MAX_ALLOC
    requires SingleTrans(s, NextLen(c, o, s)).status.Running?
    ensures TransRandAlloc(c, o, s) == SingleTrans(s, NextLen(c, o, s))
  {
    OneRequest(c, o, s);
  }

  lemma PhasesStep(c: Config, o: Oracle, s: State, n: nat)
    requires OnePage(c, s) && OracleOk(c, o) && s.curr + n < MAX_ALLOC && n > 0
    ensures var t := TransRandAlloc(c, o, s);
            var r := Counted(t);
            && r.curr == s.curr + 1 && Shape(c, r)
            && Phases(c, o, s, n) == (if t.status.Running? then Phases(c, o, r, n - 1) else t)
            && DrawOk(c, o.draw(s.typeCnt))
            && Lens(c, o, s, n) == [NextLen(c, o, s)] + Lens(c, o, r, n - 1)
            && (t.status.Running? ==> OnePage(c, r))
  {
    hide TransRandAlloc, NextLen;
    PhaseIndex(c, o, s);
  }

  lemma SingleStep(s: State, len: nat, lens: seq<nat>)
    requires |s.track| == MAX_ALLOC && -1 <= s.curr && s.curr + 1 + |lens| < MAX_ALLOC && s.status.Running?
    ensures SinglePhases(s, [len] + lens).status.Running? ==> SingleTrans(s, len).status.Running?
    ensures SingleTrans(s, len).status.Running? ==>
              SinglePhases(s, [len] + lens) == SinglePhases(Counted(SingleTrans(s, len)), lens)
  {
    assert ([len] + lens)[1..] == lens;
  }

  // ---------------------------------------------------------- whole runs

  /** The budgets that a vector file of n lines sets under IPFVT. */
  function Ones(n: nat): Feed {
    Some(seq(n, _ => 1))
  }

  lemma OnesRest(n: nat)
    requires n > 0
    ensures Ones(n) != Some([]) && Ones(n).value[0] == 1 && Rest(Ones(n)) == Ones(n - 1)
    ensures forall s: State :: Fed(Ones(n), s) == Reset(s, 1)
  {
    assert Ones(n).value[1..] == Ones(n - 1).value;
  }

  /** The loop of main over an IPFVT file runs as many phases of one page as it comes to. */
  lemma {:induction false} IpfvtPhases(c: Config, o: Oracle, n: nat, s: State, job: nat, r: State) returns (k: nat)
    requires Shape(c, s) && s.status.Running? && OracleOk(c, o) && c.maxPhase <= MAX_ALLOC + 1 && s.curr + 1 <= job
    requires n == 0 ==> s == Reset(s, 1)
    requires r == Run(c, o, Ones(n), s, job)
    ensures k <= n && s.curr + k < MAX_ALLOC && Shape(c, Reset(s, 1)) && r == Phases(c, o, Reset(s, 1), k)
    decreases n
  {
    hide *;
    k := 0;
    ResetKeeps(s);
    if n == 0 {
      IpfvtNone(c, o, s, job);
      PhasesNone(c, o, s);
    } else {
      IpfvtTurn(c, o, n, s, job);
      var t := OneTurn(c, o, Ones(n), s, job);
      RunTurn(c, o, Ones(n), s, job);
      if t.Next? {
        k := IpfvtPhases(c, o, n - 1, t.state, job + 1, r);
        if !o.late(job + 1) {
          PhasesNext(c, o, Reset(s, 1), k);
          k := k + 1;
        }
      } else if r.status != Running {
        PhasesNext(c, o, Reset(s, 1), 0);
        k := 1;
      } else {
        PhasesNone(c, o, Reset(s, 1));
      }
    }
  }

  lemma IpfvtNone(c: Config, o: Oracle, s: State, job: nat)
    requires Shape(c, s) && OracleOk(c, o)
    ensures Run(c, o, Ones(0), s, job) == s && s.curr < MAX_ALLOC
  {
  }

  lemma RunTurn(c: Config, o: Oracle, feed: Feed, s: State, job: nat)
    requires Shape(c, s) && OracleOk(c, o)
    ensures var t := OneTurn(c, o, feed, s, job);
            Run(c, o, feed, s, job) == if t.Last? then t.last else Run(c, o, t.feed, t.state, job + 1)
  {
    hide OneTurn;
  }

  lemma ResetKeeps(s: State)
    ensures Reset(s, 1).curr == s.curr && Reset(s, 1).status == s.status
  {
  }

  lemma PhasesNone(c: Config, o: Oracle, s: State)
    requires Shape(c, s) && OracleOk(c, o)
    ensures Phases(c, o, s, 0) == s
  {
  }

  lemma PhasesNext(c: Config, o: Oracle, s: State, k: nat)
    requires Shape(c, s) && OracleOk(c, o) && s.status.Running? && s.curr + 1 + k < MAX_ALLOC
    ensures var t := TransRandAlloc(c, o, s);
            && t.curr == s.curr + 1
            && Phases(c, o, s, k + 1) == if t.status.Running? then Phases(c, o, Counted(t), k) else t
  {
    hide TransRandAlloc;
    PhaseIndex(c, o, s);
  }

  /** One turn of that loop. */
  lemma IpfvtTurn(c: Config, o: Oracle, n: nat, s: State, job: nat)
    requires Shape(c, s) && s.status.Running? && OracleOk(c, o) && c.maxPhase <= MAX_ALLOC + 1 && s.curr + 1 <= job
    requires n > 0
    ensures var t, s1 := OneTurn(c, o, Ones(n), s, job), Reset(s, 1);
            && Shape(c, s1) && s1.status.Running? && s1.curr == s.curr < MAX_ALLOC
            && (t.Next? ==>
                  && Shape(c, t.state) && t.feed == Ones(n - 1) && t.state == Reset(t.state, 1)
                  && t.state.status.Running? && t.state.curr + 1 <= job + 1
                  && s.curr + 1 < MAX_ALLOC
                  && t.state.curr == (if o.late(job + 1) then s.curr else s.curr + 1)
                  && (!o.late(job + 1) ==> TransRandAlloc(c, o, s1).status.Running?)
                  && t.state == if o.late(job + 1) then s1 else Counted(TransRandAlloc(c, o, s1)))
            && (t.Last? && t.last.status.Running? ==> t.last == s1)
            && (t.Last? && !t.last.status.Running? ==> s.curr + 1 < MAX_ALLOC && t.last == TransRandAlloc(c, o, s1))
  {
    hide TransRandAlloc, Ones;
    OnesRest(n);
    if s.curr + 1 < MAX_ALLOC {
      PhaseIndex(c, o, Reset(s, 1));
    }
  }

  /** Whole IPFVT runs: the run of the full program is that of the single machine on the lengths it
      draws, as long as no request of the latter fails. */
  lemma IpfvtRun(c: Config, o: Oracle, n: nat, s: State) returns (k: nat)
    requires Shape(c, s) && s.status.Running? && s.curr == -1 && n >= 1 && OracleOk(c, o) && c.maxPhase <= MAX_ALLOC + 1
    ensures k <= n && k <= MAX_ALLOC && Shape(c, Reset(s, 1))
    ensures Run(c, o, Ones(n), s, 0) == Phases(c, o, Reset(s, 1), k)
    ensures var z := SinglePhases(Reset(s, 1), Lens(c, o, Reset(s, 1), k));
            z.status.Running? ==> Run(c, o, Ones(n), s, 0) == z
  {
    hide Machine.Run, Phases, SinglePhases, Lens, Ones;
    k := IpfvtPhases(c, o, n, s, 0, Run(c, o, Ones(n), s, 0));
    var z := SinglePhases(Reset(s, 1), Lens(c, o, Reset(s, 1), k));
    if z.status.Running? {
      IpfvtRefines(c, o, Reset(s, 1), k, z);
    }
  }

  /** The split machine's own limit is one page, under which every length is that of class 0. */
  lemma OnePageLimit(c: Config, s: State, picks: seq<nat>)
    requires Shape(c, s) && DrawOk(c, Draw(File, picks)) && c.maxLimit == 1
    ensures AllocLen(c, s.pool, picks) == s.pool[0].size
  {
  }
}
