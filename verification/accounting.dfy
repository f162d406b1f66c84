/** What every reachable state keeps: files are handed out once and in order, the counters are the
    sums over the tracker, and the tracker lists exactly the mappings. */
module Accounting {
  import opened Pool
  import opened Machine

  // ------------------------------------------------ files and mappings

  /** How many mappings are backed by a file of class c. */
  ghost function FilesIn(maps: seq<Mapping>, c: nat): (n: nat)
    ensures n <= |maps|
  {
    if maps == [] then 0
    else
      var n := |maps| - 1;
      FilesIn(maps[..n], c) + if maps[n].path.Some? && maps[n].path.value.cls == c then 1 else 0
  }

  lemma FilesInSnoc(maps: seq<Mapping>, m: Mapping, c: nat)
    ensures FilesIn(maps + [m], c) ==
            FilesIn(maps, c) + if m.path.Some? && m.path.value.cls == c then 1 else 0
  {
    assert (maps + [m])[..|maps|] == maps;
  }

  lemma {:induction false} FilesInMonotone(maps: seq<Mapping>, i: nat, j: nat, c: nat)
    requires i <= j <= |maps|
    ensures FilesIn(maps[..i], c) <= FilesIn(maps[..j], c)
  {
    if i < j {
      FilesInMonotone(maps, i, j - 1, c);
      assert maps[..j][..j - 1] == maps[..j - 1];
    }
  }

  /** The first n nodes of a class are in use, and it counts as filled only when these are all. */
  ghost predicate FirstOut(c: SizeClass, n: nat) {
    && n <= |c.inUse|
    && (forall j | 0 <= j < |c.inUse| :: c.inUse[j] <==> j < n)
    && (c.filled ==> n == |c.inUse|)
  }

  /** The files of a class go out in order: the n-th mapping on class c has node n, and the nodes in
      use are those that have gone out. */
  ghost predicate HandedOut(pool: seq<SizeClass>, maps: seq<Mapping>) {
    && (forall c | 0 <= c < |pool| :: FirstOut(pool[c], FilesIn(maps, c)))
    && (forall k | 0 <= k < |maps| && maps[k].path.Some? :: InOrder(pool, maps, k))
  }

  ghost predicate InOrder(pool: seq<SizeClass>, maps: seq<Mapping>, k: nat)
    requires k < |maps| && maps[k].path.Some?
  {
    var f := maps[k].path.value;
    f.cls < |pool| && f.node == FilesIn(maps[..k], f.cls)
  }

  /** No two mappings of a run are on the same file. */
  lemma EachFileOnce(pool: seq<SizeClass>, maps: seq<Mapping>, i: nat, j: nat)
    requires HandedOut(pool, maps) && i < j < |maps| && maps[i].path.Some? && maps[j].path.Some?
    ensures maps[i].path != maps[j].path
  {
    assert InOrder(pool, maps, i) && InOrder(pool, maps, j);
    var c := maps[i].path.value.cls;
    assert maps[..i + 1][..i] == maps[..i];
    FilesInMonotone(maps, i + 1, j, c);
  }

  /** In every class the nodes in use are a prefix, as long as the number of mappings on it. */
  lemma InUsePrefix(pool: seq<SizeClass>, maps: seq<Mapping>, c: nat)
    requires HandedOut(pool, maps) && c < |pool|
    ensures forall i, j | 0 <= i < j < |pool[c].inUse| :: pool[c].inUse[j] ==> pool[c].inUse[i]
    ensures multiset(pool[c].inUse)[true] == FilesIn(maps, c)
  {
    var n := FilesIn(maps, c);
    var s := pool[c].inUse;
    assert s == s[..n] + s[n..];
    AllSame(s[..n], true);
    AllSame(s[n..], false);
  }

  lemma {:induction false} AllSame(s: seq<bool>, b: bool)
    requires forall i | 0 <= i < |s| :: s[i] == b
    ensures multiset(s)[true] == if b then |s| else 0
  {
    if s != [] {
      assert s == s[..|s| - 1] + [s[|s| - 1]];
      AllSame(s[..|s| - 1], b);
    }
  }

  ghost function FileCount(maps: seq<Mapping>): nat {
    if maps == [] then 0
    else FileCount(maps[..|maps| - 1]) + if TypeOf(maps[|maps| - 1]).File? then 1 else 0
  }

  ghost function NodesInUse(pool: seq<SizeClass>): nat {
    if pool == [] then 0 else NodesInUse(pool[..|pool| - 1]) + multiset(pool[|pool| - 1].inUse)[true]
  }

  ghost function FilesBelow(maps: seq<Mapping>, n: nat): nat {
    if n == 0 then 0 else FilesBelow(maps, n - 1) + FilesIn(maps, n - 1)
  }

  /** The number of file mappings over all phases is the number of nodes in use. */
  lemma FilesAreNodes(pool: seq<SizeClass>, maps: seq<Mapping>)
    requires HandedOut(pool, maps)
    ensures FileCount(maps) == NodesInUse(pool)
  {
    NodesByClass(pool, maps, |pool|);
    assert pool[..|pool|] == pool;
    forall k | 0 <= k < |maps| && maps[k].path.Some? ensures maps[k].path.value.cls < |pool| {
      assert InOrder(pool, maps, k);
    }
    FilesByClass(maps, |pool|);
  }

  lemma {:induction false} NodesByClass(pool: seq<SizeClass>, maps: seq<Mapping>, n: nat)
    requires HandedOut(pool, maps) && n <= |pool|
    ensures NodesInUse(pool[..n]) == FilesBelow(maps, n)
  {
    if n > 0 {
      assert pool[..n][..n - 1] == pool[..n - 1];
      NodesByClass(pool, maps, n - 1);
      InUsePrefix(pool, maps, n - 1);
    }
  }

  lemma {:induction false} FilesByClass(maps: seq<Mapping>, n: nat)
    requires forall k | 0 <= k < |maps| && maps[k].path.Some? :: maps[k].path.value.cls < n
    ensures FilesBelow(maps, n) == FileCount(maps)
  {
    if maps == [] {
      BelowAdds([], [], n, n);
    } else {
      var k := |maps| - 1;
      FilesByClass(maps[..k], n);
      BelowAdds(maps, maps[..k], n, if maps[k].path.Some? then maps[k].path.value.cls else n);
    }
  }

  lemma {:induction false} BelowAdds(maps: seq<Mapping>, front: seq<Mapping>, n: nat, c: nat)
    requires forall d: nat | d < n :: FilesIn(maps, d) == FilesIn(front, d) + if d == c then 1 else 0
    ensures FilesBelow(maps, n) == FilesBelow(front, n) + if c < n then 1 else 0
    ensures front == [] ==> FilesBelow(front, n) == 0
  {
    if n > 0 {
      BelowAdds(maps, front, n - 1, c);
    }
  }

  // ------------------------------------------------ counters and tracker

  ghost function PagesOf(maps: seq<Mapping>, t: MemType): nat {
    if maps == [] then 0
    else
      var n := |maps| - 1;
      PagesOf(maps[..n], t) + if TypeOf(maps[n]) == t then Pages(maps[n].len) else 0
  }

  lemma PagesOfSnoc(maps: seq<Mapping>, m: Mapping, t: MemType)
    ensures PagesOf(maps + [m], t) == PagesOf(maps, t) + if TypeOf(m) == t then Pages(m.len) else 0
  {
    assert (maps + [m])[..|maps|] == maps;
  }

  ghost predicate Counted(s: State) {
    && s.fileCnt == PagesOf(s.maps, File)
    && s.anonCnt == PagesOf(s.maps, Anon)
    && s.total == s.fileCnt + s.anonCnt
  }

  /** The entries of the first n phases, in order. */
  ghost function Flat(track: seq<seq<Entry>>, n: nat): seq<Entry>
    requires n <= |track|
  {
    if n == 0 then [] else Flat(track, n - 1) + track[n - 1]
  }

  lemma {:induction false} FlatSame(t: seq<seq<Entry>>, u: seq<seq<Entry>>, n: nat)
    requires n <= |t| && n <= |u| && forall i | 0 <= i < n :: t[i] == u[i]
    ensures Flat(t, n) == Flat(u, n)
  {
    if n > 0 {
      FlatSame(t, u, n - 1);
    }
  }

  function EntryOf(maps: seq<Mapping>, k: nat): Entry
    requires k < |maps|
  {
    Entry(k, maps[k].len, TypeOf(maps[k]))
  }

  /** The tracker lists the mappings, each once, in the order in which they were made; phases that
      have not begun are empty. */
  ghost predicate Tracked(s: State)
    requires -1 <= s.curr < |s.track|
  {
    && (forall p | s.curr < p < |s.track| :: s.track[p] == [])
    && (forall p | 0 <= p < |s.track| :: |s.track[p]| <= MAX_ALLOC_PER_SE)
    && |Flat(s.track, s.curr + 1)| == |s.maps|
    && (forall k | 0 <= k < |s.maps| :: Flat(s.track, s.curr + 1)[k] == EntryOf(s.maps, k))
  }

  ghost predicate Sized(maps: seq<Mapping>) {
    forall k | 0 <= k < |maps| :: WholePages(maps[k].len)
  }

  ghost predicate Inv(c: Config, s: State) {
    && Shape(c, s) && s.status.Running?
    && HandedOut(s.pool, s.maps) && Counted(s) && Tracked(s) && Sized(s.maps)
  }

  /** What is left when a full row ends the program: one last mapping that is not in the tracker and whose
      file, if it has one, is not marked. */
  ghost predicate Ended(s: State) {
    && s.maps != [] && -1 <= s.curr < |s.track|
    && var front, last := s.maps[..|s.maps| - 1], s.maps[|s.maps| - 1];
       && HandedOut(s.pool, front) && Tracked(s.(maps := front))
       && (last.path.Some? ==>
             last.path.value.cls < |s.pool| && last.path.value.node == FilesIn(front, last.path.value.cls))
  }

  lemma LastFile(maps: seq<Mapping>, m: Mapping, pool: seq<SizeClass>, i: nat)
    requires HandedOut(pool, maps) && i < |maps| && maps[i].path.Some? && m.path.Some?
    requires m.path.value.node == FilesIn(maps, m.path.value.cls)
    ensures maps[i].path != m.path
  {
    assert InOrder(pool, maps, i);
    var c := maps[i].path.value.cls;
    assert maps[..i + 1][..i] == maps[..i];
    assert maps[..|maps|] == maps;
    FilesInMonotone(maps, i + 1, |maps|, c);
  }

  /** Even then no file is mapped twice, and at most one file mapping is not a node in use. */
  lemma EndedFiles(s: State)
    requires Ended(s)
    ensures forall i, j | 0 <= i < j < |s.maps| && s.maps[i].path.Some? && s.maps[j].path.Some? ::
              s.maps[i].path != s.maps[j].path
    ensures NodesInUse(s.pool) <= FileCount(s.maps) <= NodesInUse(s.pool) + 1
  {
    var n := |s.maps| - 1;
    var front := s.maps[..n];
    FilesAreNodes(s.pool, front);
    forall i, j | 0 <= i < j < |s.maps| && s.maps[i].path.Some? && s.maps[j].path.Some?
      ensures s.maps[i].path != s.maps[j].path
    {
      assert s.maps[i] == front[i];
      if j < n {
        assert s.maps[j] == front[j];
        EachFileOnce(s.pool, front, i, j);
      } else {
        LastFile(front, s.maps[n], s.pool, i);
      }
    }
  }

  lemma InvShape(c: Config, s: State)
    requires Inv(c, s)
    ensures Shape(c, s) && s.status.Running?
  {
  }

  lemma EmptyRow(c: Config, s: State)
    requires Inv(c, s) && s.curr + 1 < MAX_ALLOC
    ensures |s.track| == MAX_ALLOC && s.track[s.curr + 1] == []
  {
  }

  // ------------------------------------------------------ one request

  lemma AllOut(pool: seq<SizeClass>, maps: seq<Mapping>, c: nat)
    requires HandedOut(pool, maps) && c < |pool| && Full(pool[c])
    ensures FilesIn(maps, c) == |pool[c].inUse|
  {
    var n := |pool[c].inUse|;
    if n > 0 {
      assert pool[c].inUse[n - 1];
    }
  }

  lemma HandedOutProbe(pool: seq<SizeClass>, maps: seq<Mapping>, len: nat)
    requires HandedOut(pool, maps)
    ensures HandedOut(GetFilePath(pool, len).pool, maps)
    ensures var p := GetFilePath(pool, len);
            p.node.Some? ==>
              p.node.value.cls < |p.pool| && p.node.value.node < |p.pool[p.node.value.cls].inUse|
              && p.node.value.node == FilesIn(maps, p.node.value.cls)
  {
    hide FilesIn;
    var p := GetFilePath(pool, len);
    forall k | 0 <= k < |maps| && maps[k].path.Some? ensures InOrder(p.pool, maps, k) {
      assert InOrder(pool, maps, k);
    }
    forall c | 0 <= c < |pool| ensures FirstOut(p.pool[c], FilesIn(maps, c)) {
      if c < Stop(p) && pool[c].size >= len {
        AllOut(pool, maps, c);
      }
    }
    if p.node.Some? {
      NextOut(pool[p.node.value.cls], FilesIn(maps, p.node.value.cls));
    }
  }

  /** The first free node of a class is the next one to go out. */
  lemma NextOut(c: SizeClass, n: nat)
    requires FirstOut(c, n)
    ensures FirstFree(c.inUse, 0) == n
  {
    var k := FirstFree(c.inUse, 0);
    assert k < |c.inUse| ==> !c.inUse[k];
    assert n < |c.inUse| ==> !c.inUse[n];
  }

  lemma OneMoreOut(c: SizeClass, n: nat)
    requires FirstOut(c, n) && n < |c.inUse|
    ensures FirstOut(c.(inUse := c.inUse[n := true]), n + 1)
  {
  }

  lemma InOrderLater(pool: seq<SizeClass>, q: seq<SizeClass>, maps: seq<Mapping>, m: Mapping, k: nat)
    requires k < |maps| && maps[k].path.Some? && InOrder(pool, maps, k) && |pool| == |q|
    ensures InOrder(q, maps + [m], k)
  {
    assert (maps + [m])[..k] == maps[..k];
  }

  lemma HandedOutSnoc(pool: seq<SizeClass>, maps: seq<Mapping>, m: Mapping)
    requires HandedOut(pool, maps)
    requires m.path.Some? ==>
               m.path.value.cls < |pool| && m.path.value.node < |pool[m.path.value.cls].inUse|
               && m.path.value.node == FilesIn(maps, m.path.value.cls)
    ensures HandedOut(if m.path.Some? then Take(pool, m.path.value) else pool, maps + [m])
  {
    hide FilesIn, FirstOut, InOrder;
    var q := if m.path.Some? then Take(pool, m.path.value) else pool;
    var all := maps + [m];
    forall c | 0 <= c < |q| ensures FirstOut(q[c], FilesIn(all, c)) {
      FilesInSnoc(maps, m, c);
      if m.path.Some? && m.path.value.cls == c {
        OneMoreOut(pool[c], FilesIn(maps, c));
      }
    }
    forall k | 0 <= k < |all| && all[k].path.Some? ensures InOrder(q, all, k) {
      if k < |maps| {
        InOrderLater(pool, q, maps, m, k);
      } else {
        InOrderLast(q, maps, m);
      }
    }
  }

  lemma InOrderLast(q: seq<SizeClass>, maps: seq<Mapping>, m: Mapping)
    requires m.path.Some? ==> m.path.value.cls < |q| && m.path.value.node == FilesIn(maps, m.path.value.cls)
    ensures m.path.Some? ==> InOrder(q, maps + [m], |maps|)
  {
    assert (maps + [m])[..|maps|] == maps;
  }

  lemma TrackedSnoc(s: State, m: Mapping)
    requires 0 <= s.curr < |s.track| && Tracked(s) && |s.track[s.curr]| < MAX_ALLOC_PER_SE
    ensures var e := Entry(|s.maps|, m.len, TypeOf(m));
            Tracked(s.(maps := s.maps + [m], track := s.track[s.curr := s.track[s.curr] + [e]]))
  {
    var e := Entry(|s.maps|, m.len, TypeOf(m));
    var t := s.track[s.curr := s.track[s.curr] + [e]];
    FlatSame(s.track, t, s.curr);
    var all := s.maps + [m];
    assert Flat(t, s.curr + 1) == Flat(s.track, s.curr + 1) + [e];
    assert forall k | 0 <= k < |s.maps| :: EntryOf(all, k) == EntryOf(s.maps, k);
    assert EntryOf(all, |s.maps|) == e;
  }

  lemma PlaceCounted(s: State, size: nat, path: Option<FileRef>, r: State)
    requires |s.track| == MAX_ALLOC && 0 <= s.curr < MAX_ALLOC && Counted(s)
    requires path.Some? ==> path.value.cls < |s.pool| && path.value.node < |s.pool[path.value.cls].inUse|
    requires r == Place(s, size, path).state
    ensures Counted(r) && r.maps == s.maps + [Mapping(Capped(s.byteCap, size), path)]
  {
    PagesOfSnoc(s.maps, Mapping(Capped(s.byteCap, size), path), File);
    PagesOfSnoc(s.maps, Mapping(Capped(s.byteCap, size), path), Anon);
    hide PagesOf, Take;
  }

  lemma PlaceTracked(s: State, size: nat, path: Option<FileRef>, r: State)
    requires |s.track| == MAX_ALLOC && 0 <= s.curr < MAX_ALLOC && Tracked(s)
    requires path.Some? ==> path.value.cls < |s.pool| && path.value.node < |s.pool[path.value.cls].inUse|
    requires r == Place(s, size, path).state && |s.track[s.curr]| < MAX_ALLOC_PER_SE
    ensures r.curr == s.curr && |r.track| == |s.track| && Tracked(r)
  {
    TrackedSnoc(s, Mapping(Capped(s.byteCap, size), path));
    hide Flat, Take;
  }

  lemma PlaceHandedOut(s: State, size: nat, path: Option<FileRef>, r: State)
    requires |s.track| == MAX_ALLOC && 0 <= s.curr < MAX_ALLOC && HandedOut(s.pool, s.maps)
    requires path.Some? ==>
               path.value.cls < |s.pool| && path.value.node < |s.pool[path.value.cls].inUse|
               && path.value.node == FilesIn(s.maps, path.value.cls)
    requires r == Place(s, size, path).state && |s.track[s.curr]| < MAX_ALLOC_PER_SE
    ensures HandedOut(r.pool, r.maps)
  {
    hide HandedOut, FilesIn, Take;
    HandedOutSnoc(s.pool, s.maps, Mapping(Capped(s.byteCap, size), path));
  }

  lemma SizedSnoc(maps: seq<Mapping>, m: Mapping)
    requires Sized(maps) && WholePages(m.len)
    ensures Sized(maps + [m])
  {
  }

  lemma PlaceEnded(s: State, size: nat, path: Option<FileRef>, r: State)
    requires |s.track| == MAX_ALLOC && 0 <= s.curr < MAX_ALLOC && HandedOut(s.pool, s.maps) && Tracked(s)
    requires path.Some? ==>
               path.value.cls < |s.pool| && path.value.node < |s.pool[path.value.cls].inUse|
               && path.value.node == FilesIn(s.maps, path.value.cls)
    requires r == Place(s, size, path).state && |s.track[s.curr]| >= MAX_ALLOC_PER_SE
    ensures Ended(r)
  {
    hide HandedOut, FilesIn, Flat;
    assert r.maps[..|r.maps| - 1] == s.maps;
  }

  lemma PlaceInv(c: Config, s: State, size: nat, path: Option<FileRef>)
    requires Inv(c, s) && s.curr >= 0 && WholePages(size)
    requires path.Some? ==>
               path.value.cls < |s.pool| && path.value.node < |s.pool[path.value.cls].inUse|
               && path.value.node == FilesIn(s.maps, path.value.cls)
    ensures Place(s, size, path).state.status.Running? ==> Inv(c, Place(s, size, path).state)
    ensures Counted(Place(s, size, path).state) && Sized(Place(s, size, path).state.maps)
    ensures Place(s, size, path).state.status != Overrun
    ensures Place(s, size, path).state.status.Exited? ==> Ended(Place(s, size, path).state)
  {
    hide HandedOut, Counted, Tracked, Sized, FilesIn, Ended;
    var r := Place(s, size, path).state;
    PlaceCounted(s, size, path, r);
    SizedSnoc(s.maps, Mapping(Capped(s.byteCap, size), path));
    if |s.track[s.curr]| < MAX_ALLOC_PER_SE {
      PlaceTracked(s, size, path, r);
      PlaceHandedOut(s, size, path, r);
    } else {
      PlaceEnded(s, size, path, r);
    }
  }

  /** The pool and the type counter may move on. */
  lemma InvProbed(c: Config, s: State, t: State)
    requires Inv(c, s) && t == s.(pool := t.pool, typeCnt := t.typeCnt)
    requires HandedOut(t.pool, s.maps) && SameShape(s.pool, t.pool)
    ensures Inv(c, t)
  {
    hide HandedOut, Flat;
  }

  lemma RequestInv(c: Config, s: State, slice: int, d: Draw)
    requires Inv(c, s) && s.curr >= 0 && DrawOk(c, d)
    ensures Request(c, s, slice, d).state.status.Running? ==> Inv(c, Request(c, s, slice, d).state)
    ensures Counted(Request(c, s, slice, d).state) && Sized(Request(c, s, slice, d).state.maps)
    ensures Request(c, s, slice, d).state.status != Overrun
    ensures Request(c, s, slice, d).state.status.Exited? ==> Ended(Request(c, s, slice, d).state)
  {
    hide HandedOut, Counted, Tracked, Sized, FilesIn, GetFilePath, Pick, Place, Ended;
    var typ := AllocType(s.typeCnt, slice, d.typ);
    var len := AllocLen(c, s.pool, d.picks);
    var s1 := s.(typeCnt := s.typeCnt + 1);
    InvProbed(c, s, s1);
    if typ.Anon? {
      PlaceInv(c, s1, len, None);
    } else {
      var p := GetFilePath(s.pool, len);
      HandedOutProbe(s.pool, s.maps, len);
      ProbeShape(s.pool, len);
      var s2 := s1.(pool := p.pool);
      InvProbed(c, s, s2);
      if p.node.Some? {
        PlaceInv(c, s2, s.pool[p.node.value.cls].size, p.node);
      }
    }
  }

  lemma ProbeShape(pool: seq<SizeClass>, len: nat)
    ensures SameShape(pool, GetFilePath(pool, len).pool)
  {
  }

  /** Every step of a phase keeps the invariant, until the program ends. */
  lemma {:induction false} TransInv(c: Config, o: Oracle, s: State, cnt: nat, slice: int, r: State)
    requires Inv(c, s) && s.curr >= 0 && OracleOk(c, o)
    requires r == TransLoop(c, o, s, cnt, slice)
    ensures r.status.Running? ==> Inv(c, r)
    ensures Counted(r) && Sized(r.maps) && r.status != Overrun && (r.status.Exited? ==> Ended(r))
    decreases cnt
  {
    hide HandedOut, Counted, Tracked, Sized, Request, Ended;
    if cnt > 0 {
      var q := Request(c, s, slice, o.draw(s.typeCnt));
      RequestInv(c, s, slice, o.draw(s.typeCnt));
      if q.state.status.Running? {
        TransInv(c, o, q.state, Left(s.precision, q, cnt), SliceAfter(q, slice), r);
      }
    }
  }

  lemma PhaseStart(c: Config, s: State)
    requires Inv(c, s) && s.curr + 1 < MAX_ALLOC
    ensures Inv(c, s.(curr := s.curr + 1))
  {
    assert Flat(s.track, s.curr + 2) == Flat(s.track, s.curr + 1);
  }

  lemma PhaseInv(c: Config, o: Oracle, s: State)
    requires Inv(c, s) && s.curr + 1 < MAX_ALLOC && OracleOk(c, o)
    ensures var r := TransRandAlloc(c, o, s);
            && (r.status.Running? ==> Inv(c, r)) && Counted(r) && Sized(r.maps) && r.status != Overrun
            && (r.status.Exited? ==> Ended(r))
  {
    var s1 := s.(curr := s.curr + 1);
    PhaseStart(c, s);
    hide HandedOut, Counted, Tracked, Sized, TransLoop, Ended;
    TransInv(c, o, s1, AllocCount(o, s1), AnonSlice(s1, AllocCount(o, s1)), TransRandAlloc(c, o, s));
  }
}
