/** The phase allocator as a state machine over values: one function per step of the program.

    What rand() and the clock decide is an oracle: the k-th request of the whole run consumes the
    k-th Draw.  The mappings that the kernel has handed out are part of the state, in order; the
    address of a mapping is its index there. */
module Machine {
  import opened Page
  import opened Pool

  const MAX_ALLOC: nat := 60000
  const MAX_ALLOC_PER_SE: nat := 500
  const FILE_RATIO: nat := 4

  datatype MemType = File | Anon

  /** One mmap: its length, and the file it was opened on unless it is anonymous. */
  datatype Mapping = Mapping(len: nat, path: Option<FileRef>)

  datatype Entry = Entry(addr: nat, len: nat, typ: MemType)

  /** What the samplers answer to one request: rand_lim(type_max), and ten times rand_intr(0, speed). */
  datatype Draw = Draw(typ: MemType, picks: seq<nat>)

  /** draw: per request; count: per phase without a given budget; late: whether a job is skipped. */
  datatype Oracle = Oracle(draw: nat -> Draw, count: nat -> nat, late: nat -> bool)

  datatype Config = Config(maxLimit: nat, speed: nat, maxPhase: nat)

  datatype Status = Running | Exited | Overrun

  datatype State = State(
    pool: seq<SizeClass>, track: seq<seq<Entry>>, curr: int, maps: seq<Mapping>,
    fileCnt: nat, anonCnt: nat, total: nat, typeCnt: nat, phaseCnt: nat,
    budget: nat, precision: bool, byteCap: nat, status: Status)

  function TypeOf(m: Mapping): MemType {
    if m.path.Some? then File else Anon
  }

  function Pages(len: nat): nat {
    len / PAGE_SIZE
  }

  predicate WholePages(len: nat) {
    len >= PAGE_SIZE && len % PAGE_SIZE == 0
  }

  // ------------------------------------------------------ well-formedness

  ghost predicate Shape(c: Config, s: State) {
    && c.speed < |s.pool|
    && (forall i | 0 <= i < |s.pool| :: WholePages(s.pool[i].size))
    && |s.track| == MAX_ALLOC
    && -1 <= s.curr < MAX_ALLOC
    && (s.byteCap == 0 || WholePages(s.byteCap))
  }

  ghost predicate InPhase(c: Config, s: State) {
    Shape(c, s) && s.curr >= 0
  }

  ghost predicate DrawOk(c: Config, d: Draw) {
    |d.picks| == 10 && forall p | p in d.picks :: p <= c.speed
  }

  ghost predicate OracleOk(c: Config, o: Oracle) {
    && (forall k: nat :: DrawOk(c, o.draw(k)))
    && (forall k: nat :: 5 <= o.count(k) <= 18)
  }

  // ---------------------------------------------------------- one request

  function AllocType(typeCnt: nat, slice: int, drawn: MemType): MemType {
    if slice < 0 then (if typeCnt % FILE_RATIO == 0 && typeCnt != 0 then Anon else File)
    else if slice != 0 then drawn
    else File
  }

  /** The draw that the retry loop ends on: the first of the ten that is not too big, or the tenth. */
  function Pick(pool: seq<SizeClass>, maxReq: nat, picks: seq<nat>, j: nat): (i: nat)
    requires |picks| == 10 && j < 10 && forall p | p in picks :: p < |pool|
    ensures i < |pool| && i in picks
    decreases 10 - j
  {
    assert picks[j] in picks;
    if j < 9 && pool[picks[j]].size > maxReq then Pick(pool, maxReq, picks, j + 1) else picks[j]
  }

  function AllocLen(c: Config, pool: seq<SizeClass>, picks: seq<nat>): (len: nat)
    requires |picks| == 10 && |pool| > 0 && forall p | p in picks :: p < |pool|
    ensures exists i | 0 <= i < |pool| :: len == pool[i].size
  {
    var maxReq := c.maxLimit * PAGE_SIZE;
    if maxReq <= pool[0].size then pool[0].size else pool[Pick(pool, maxReq, picks, 0)].size
  }

  function Capped(byteCap: nat, len: nat): nat {
    if byteCap != 0 && len > byteCap then byteCap else len
  }

  /** got is the type that was allocated, or None when no file was left for it. */
  datatype Reply = Reply(state: State, got: Option<MemType>, pages: nat)

  /** mmapper, add_new_alloc, the counters and the mark on the file, in the order of the code.  A
      full tracker ends the program after the counters have moved. */
  function Place(s: State, size: nat, path: Option<FileRef>): (r: Reply)
    requires |s.track| == MAX_ALLOC && 0 <= s.curr < MAX_ALLOC
    requires path.Some? ==> path.value.cls < |s.pool| && path.value.node < |s.pool[path.value.cls].inUse|
    ensures r.got == Some(TypeOf(Mapping(0, path)))
  {
    var m := Mapping(Capped(s.byteCap, size), path);
    var pages := Pages(m.len);
    var lst := s.track[s.curr];
    var mapped := s.(maps := s.maps + [m],
                     total := s.total + pages,
                     fileCnt := s.fileCnt + if TypeOf(m).File? then pages else 0,
                     anonCnt := s.anonCnt + if TypeOf(m).Anon? then pages else 0);
    if |lst| >= MAX_ALLOC_PER_SE then
      Reply(mapped.(status := Exited), Some(TypeOf(m)), pages)
    else
      var tracked := mapped.(track := s.track[s.curr := lst + [Entry(|s.maps|, m.len, TypeOf(m))]]);
      Reply(if path.Some? then tracked.(pool := Take(s.pool, path.value)) else tracked, Some(TypeOf(m)), pages)
  }

  /** random_allocator_one without the budget. */
  function Request(c: Config, s: State, slice: int, d: Draw): (r: Reply)
    requires InPhase(c, s) && DrawOk(c, d)
    ensures InPhase(c, r.state)
    ensures r.got.Some? ==> r.pages >= 1
  {
    var typ := AllocType(s.typeCnt, slice, d.typ);
    var len := AllocLen(c, s.pool, d.picks);
    var s1 := s.(typeCnt := s.typeCnt + 1);
    if typ.Anon? then Place(s1, len, None)
    else
      var p := GetFilePath(s.pool, len);
      var s2 := s1.(pool := p.pool);
      if p.node.None? then Reply(s2, None, 0)
      else Place(s2, s.pool[p.node.value.cls].size, p.node)
  }

  // ------------------------------------------------------------ one phase

  /** What a request leaves of the budget. */
  function Left(precision: bool, r: Reply, cnt: nat): nat
    requires cnt >= 1
  {
    if r.got.Some? && precision then (if r.pages > cnt then 0 else cnt - r.pages) else cnt - 1
  }

  function SliceAfter(r: Reply, slice: int): int {
    if r.got == Some(Anon) then slice - 1 else slice
  }

  function TransLoop(c: Config, o: Oracle, s: State, cnt: nat, slice: int): (r: State)
    requires InPhase(c, s) && OracleOk(c, o)
    ensures InPhase(c, r)
    decreases cnt
  {
    if cnt == 0 || s.status != Running then s
    else
      var r := Request(c, s, slice, o.draw(s.typeCnt));
      TransLoop(c, o, r.state, Left(s.precision, r, cnt), SliceAfter(r, slice))
  }

  function AllocCount(o: Oracle, s: State): nat {
    if s.precision then s.budget else if s.curr >= 0 then o.count(s.curr) else 0
  }

  function AnonSlice(s: State, cnt: nat): int {
    if s.precision then -1 else cnt / FILE_RATIO
  }

  function TransRandAlloc(c: Config, o: Oracle, s: State): (r: State)
    requires Shape(c, s) && s.curr + 1 < MAX_ALLOC && OracleOk(c, o)
    ensures InPhase(c, r)
  {
    var s1 := s.(curr := s.curr + 1);
    var cnt := AllocCount(o, s1);
    TransLoop(c, o, s1, cnt, AnonSlice(s1, cnt))
  }

  // -------------------------------------------------------------- the run

  function Reset(s: State, count: nat): State {
    s.(budget := count, precision := true, byteCap := count * PAGE_SIZE)
  }

  /** The vector file, if one is given: the budget of each phase, in order. */
  type Feed = Option<seq<nat>>

  /** What one turn of the loop of main comes to: it ends the run, or goes on to the next turn. */
  datatype Turn = Last(last: State) | Next(feed: Feed, state: State)

  function Fed(feed: Feed, s: State): State {
    if feed.Some? && feed.value != [] then Reset(s, feed.value[0]) else s
  }

  function Rest(feed: Feed): Feed {
    if feed.Some? && feed.value != [] then Some(feed.value[1..]) else feed
  }

  /** Job number curJob + 1, with what main does before it.  A phase past the tracker's last row is
      an overrun. */
  function OneTurn(c: Config, o: Oracle, feed: Feed, s: State, curJob: nat): (t: Turn)
    requires Shape(c, s) && OracleOk(c, o)
    ensures t.Next? ==> Shape(c, t.state) && curJob + 1 < c.maxPhase
  {
    var s1 := Fed(feed, s);
    if feed == Some([]) then Last(s)
    else if c.maxLimit < s1.fileCnt + s1.anonCnt || c.maxPhase <= curJob + 1 then Last(s1)
    else if o.late(curJob + 1) then Next(Rest(feed), s1)
    else if s1.curr + 1 == MAX_ALLOC then Last(s1.(curr := MAX_ALLOC, status := Overrun))
    else
      var s2 := TransRandAlloc(c, o, s1);
      if s2.status != Running then Last(s2)
      else Next(Rest(feed), s2.(phaseCnt := s2.phaseCnt + 1))
  }

  /** The loop of main from job number curJob on. */
  function Run(c: Config, o: Oracle, feed: Feed, s: State, curJob: nat): (r: State)
    requires Shape(c, s) && OracleOk(c, o)
    decreases c.maxPhase - curJob
  {
    match OneTurn(c, o, feed, s, curJob)
    case Last(last) => last
    case Next(feed', s') => Run(c, o, feed', s', curJob + 1)
  }
}
