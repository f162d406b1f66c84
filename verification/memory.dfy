/** All the mappings of a run, and the touch that one of them gets from the access pattern in use. */
module Memory {
  import opened Page
  import opened Access
  import opened Samplers
  import opened Patterns
  import opened Fix
  import opened Visits

  datatype Pattern = MemFix | MemStride | MemSeq | MemRep | MemRand

  /** The log of a mapping after one more touch, on the streams env.  The first touch under FIX chooses a
      byte and clears it, and later ones toggle it. */
  ghost function OneTouch(access: Pattern, log: seq<Event>, len: nat, inTransition: bool, env: Env): seq<Event>
    requires PAGE_SIZE <= len < TWO_64
  {
    match access
    case MemFix => if log == [] then [Cleared(FixLoc(env(0, 0, 0).raw, len))] else log + [Toggled(log[0].at)]
    case MemStride => Patterns.Run(log, 0, Stride(len), StrideTouches(len))
    case MemSeq => Patterns.Run(log, 0, 1, len)
    case MemRep => RepeatLog(log, len)
    case MemRand => RandLog(log, len, inTransition, env)
  }

  /** The log of mapping k after the given touches, the n-th of them on the streams env(n). */
  ghost function LogOf(access: Pattern, k: nat, len: nat, visits: seq<Visit>, env: nat -> Env): seq<Event>
    requires PAGE_SIZE <= len < TWO_64
  {
    if visits == [] then []
    else
      var n := |visits| - 1;
      var log := LogOf(access, k, len, visits[..n], env);
      if visits[n].addr == k then OneTouch(access, log, len, visits[n].inTransition, env(n)) else log
  }

  lemma {:induction false} LogNone(access: Pattern, k: nat, len: nat, visits: seq<Visit>, env: nat -> Env)
    requires PAGE_SIZE <= len < TWO_64 && forall v | v in visits :: v.addr != k
    ensures LogOf(access, k, len, visits, env) == []
  {
    if visits != [] {
      assert visits[|visits| - 1] in visits && forall v | v in visits[..|visits| - 1] :: v in visits;
      LogNone(access, k, len, visits[..|visits| - 1], env);
    }
  }

  lemma LogNext(access: Pattern, k: nat, len: nat, visits: seq<Visit>, env: nat -> Env, v: Visit)
    requires PAGE_SIZE <= len < TWO_64
    ensures var log := LogOf(access, k, len, visits, env);
            LogOf(access, k, len, visits + [v], env) ==
            if v.addr == k then OneTouch(access, log, len, v.inTransition, env(|visits|)) else log
  {
    assert (visits + [v])[..|visits|] == visits;
  }

  /** Under FIX the first touch of a mapping chooses the byte. */
  lemma {:induction false} FixPlace(k: nat, len: nat, visits: seq<Visit>, env: nat -> Env) returns (t: nat)
    requires PAGE_SIZE <= len < TWO_64 && LogOf(MemFix, k, len, visits, env) != []
    ensures t < |visits| && visits[t].addr == k && forall u: nat | u < t :: visits[u].addr != k
    ensures LogOf(MemFix, k, len, visits, env)[0] == Cleared(RandIntrValue(env(t)(0, 0, 0).raw, 0, len - 10))
  {
    hide FixLoc, RandIntrValue;
    var n := |visits| - 1;
    if LogOf(MemFix, k, len, visits[..n], env) == [] {
      t := n;
      FixLocInside(env(n)(0, 0, 0).raw, len);
      NoneBefore(MemFix, k, len, visits[..n], env);
      assert forall u: nat | u < n :: visits[u] == visits[..n][u];
    } else {
      t := FixPlace(k, len, visits[..n], env);
      assert forall u: nat | u < n :: visits[u] == visits[..n][u];
    }
  }

  lemma {:induction false} NoneBefore(access: Pattern, k: nat, len: nat, visits: seq<Visit>, env: nat -> Env)
    requires PAGE_SIZE <= len < TWO_64 && access.MemFix? && LogOf(access, k, len, visits, env) == []
    ensures forall u: nat | u < |visits| :: visits[u].addr != k
  {
    if visits != [] {
      NoneBefore(access, k, len, visits[..|visits| - 1], env);
    }
  }

  // -------------------------------------------------- over many touches

  /** How often one touch of a mapping of len bytes touches byte b. */
  function PerTouch(access: Pattern, len: nat, b: nat): nat
    requires len >= 1
  {
    match access
    case MemStride => if b < len && b % Stride(len) == 0 then 1 else 0
    case MemSeq => if b < len then 1 else 0
    case MemRep => if b < Stride(len) then RepeatCount(Stride(len)) else 0
    case _ => 0
  }

  predicate Steady(access: Pattern) {
    access.MemStride? || access.MemSeq? || access.MemRep?
  }

  /** How many touches RANDOM makes in a mapping that is touched so often in transitions and in holding. */
  function RandTouches(len: nat, moving: nat, held: nat): nat {
    (20 * moving + 2500 * held) * (WindowCount(len / 2) + WindowCount(len - len / 2))
  }

  /** What the log of a mapping is after so many touches in transitions and in holding: under FIX one
      access each, under RANDOM touches of reachable bytes only, and otherwise the same bytes every time. */
  ghost predicate TouchedTimes(access: Pattern, log: seq<Event>, len: nat, moving: nat, held: nat) {
    PAGE_SIZE <= len < TWO_64 &&
    match access
    case MemFix => |log| == moving + held
    case MemRand => AddsOnly([], log, Reach(len)) && |log| == RandTouches(len, moving, held)
    case _ =>
      && TogglesOnly(log) && Within(log, len)
      && forall b: nat :: Hits(log, b) == (moving + held) * PerTouch(access, len, b)
  }

  lemma NoTouch(access: Pattern, len: nat)
    requires PAGE_SIZE <= len < TWO_64
    ensures TouchedTimes(access, [], len, 0, 0)
  {
  }

  lemma SteadyHits(access: Pattern, log: seq<Event>, len: nat, inTransition: bool, env: Env, b: nat)
    requires PAGE_SIZE <= len < TWO_64 && Steady(access)
    ensures Hits(OneTouch(access, log, len, inTransition, env), b) == Hits(log, b) + PerTouch(access, len, b)
  {
    match access
    case MemStride => StrideHits(log, len, b);
    case MemSeq => RunHits(log, 0, 1, len, b);
    case MemRep => RoundsHits(log, Stride(len), RepeatCount(Stride(len)), b);
  }

  /** One more touch, whatever the access pattern. */
  lemma OneMoreTouch(access: Pattern, log: seq<Event>, len: nat, inTransition: bool, env: Env, moving: nat, held: nat)
    requires TouchedTimes(access, log, len, moving, held)
    ensures PAGE_SIZE <= len < TWO_64
    ensures var more := OneTouch(access, log, len, inTransition, env);
            if inTransition then TouchedTimes(access, more, len, moving + 1, held)
            else TouchedTimes(access, more, len, moving, held + 1)
  {
    var m, h := if inTransition then moving + 1 else moving, if inTransition then held else held + 1;
    if access.MemFix? {
      hide RandLog, PerTouch, Steady, RandTouches, FixLoc;
    } else if access.MemRand? {
      hide Patterns.Run, RepeatLog, PerTouch, Steady, RandTouches, FixLoc, RandLog;
      RandTimes(log, len, inTransition, env, moving, held);
    } else {
      hide OneTouch, TouchedTimes;
      SteadySum(access, log, len, moving, held);
      SteadyTimes(access, log, len, inTransition, env, moving + held);
      SteadySum(access, OneTouch(access, log, len, inTransition, env), len, m, h);
    }
  }

  lemma SteadySum(access: Pattern, log: seq<Event>, len: nat, moving: nat, held: nat)
    requires Steady(access)
    ensures TouchedTimes(access, log, len, moving, held) <==> TouchedTimes(access, log, len, moving + held, 0)
    ensures TouchedTimes(access, log, len, moving, held) ==> PAGE_SIZE <= len < TWO_64
  {
    hide PerTouch, Hits, Within, TogglesOnly;
  }

  lemma RandTimes(log: seq<Event>, len: nat, inTransition: bool, env: Env, moving: nat, held: nat)
    requires TouchedTimes(MemRand, log, len, moving, held)
    ensures var more := RandLog(log, len, inTransition, env);
            && AddsOnly([], more, Reach(len))
            && |more| == RandTouches(len, if inTransition then moving + 1 else moving, if inTransition then held else held + 1)
  {
    hide RandLog, Reach, WindowCount;
    var more := RandLog(log, len, inTransition, env);
    RandLogOnly(log, len, inTransition, env);
    AddsTwice([], log, more, Reach(len), Reach(len), Reach(len));
    RandLength(log, len, inTransition, env);
    MoreTouches(moving, held, WindowCount(len / 2) + WindowCount(len - len / 2));
  }

  lemma MoreTouches(moving: nat, held: nat, w: nat)
    ensures (20 * (moving + 1) + 2500 * held) * w == (20 * moving + 2500 * held) * w + 20 * w
    ensures (20 * moving + 2500 * (held + 1)) * w == (20 * moving + 2500 * held) * w + 2500 * w
  {
  }

  lemma {:induction false} RunTogglesOnly(l: seq<Event>, off: nat, step: nat, n: nat)
    requires TogglesOnly(l)
    ensures TogglesOnly(Run(l, off, step, n))
  {
    if n > 0 {
      RunTogglesOnly(l, off, step, n - 1);
    }
  }

  lemma {:induction false} RoundsTogglesOnly(l: seq<Event>, dist: nat, c: nat)
    requires TogglesOnly(l)
    ensures TogglesOnly(Rounds(l, dist, c))
  {
    if c > 0 {
      RoundsTogglesOnly(l, dist, c - 1);
      RunTogglesOnly(Rounds(l, dist, c - 1), 0, 1, dist);
    }
  }

  lemma WithinByHits(log: seq<Event>, len: nat)
    requires TogglesOnly(log) && forall b: nat :: b >= len ==> Hits(log, b) == 0
    ensures Within(log, len)
  {
    forall e | e in log ensures e.at < len {
      assert e == Toggled(e.at);
      assert Hits(log, e.at) > 0;
    }
  }

  lemma SteadyToggles(access: Pattern, log: seq<Event>, len: nat, inTransition: bool, env: Env)
    requires PAGE_SIZE <= len < TWO_64 && Steady(access) && TogglesOnly(log)
    ensures TogglesOnly(OneTouch(access, log, len, inTransition, env))
  {
    match access
    case MemStride => RunTogglesOnly(log, 0, Stride(len), StrideTouches(len));
    case MemSeq => RunTogglesOnly(log, 0, 1, len);
    case MemRep => RoundsTogglesOnly(log, Stride(len), RepeatCount(Stride(len)));
  }

  lemma PerTouchInside(access: Pattern, len: nat, b: nat)
    requires 1 <= len <= b
    ensures PerTouch(access, len, b) == 0
  {
    StrideWithin(len);
  }

  lemma SteadyTimes(access: Pattern, log: seq<Event>, len: nat, inTransition: bool, env: Env, n: nat)
    requires Steady(access) && TouchedTimes(access, log, len, n, 0)
    ensures TouchedTimes(access, OneTouch(access, log, len, inTransition, env), len, n + 1, 0)
  {
    hide PerTouch, OneTouch, Hits, Within, TogglesOnly;
    var more := OneTouch(access, log, len, inTransition, env);
    SteadyToggles(access, log, len, inTransition, env);
    forall b: nat
      ensures Hits(more, b) == (n + 1) * PerTouch(access, len, b)
      ensures b >= len ==> Hits(more, b) == 0
    {
      SteadyHits(access, log, len, inTransition, env, b);
      OneMore(n, PerTouch(access, len, b));
      if b >= len {
        PerTouchInside(access, len, b);
      }
    }
    WithinByHits(more, len);
  }

  lemma OneMore(n: nat, p: nat)
    ensures (n + 1) * p == n * p + p
    ensures p == 0 ==> n * p == 0
  {
  }

  /** What one touch of at least a page comes to, byte by byte. */
  lemma PerTouchIs(len: nat, b: nat)
    requires len >= 4096
    ensures PerTouch(MemStride, len, b) == if b < len && b % (len / 1000) == 0 then 1 else 0
    ensures PerTouch(MemSeq, len, b) == if b < len then 1 else 0
    ensures var rounds := PerTouch(MemRep, len, b);
            if b >= len / 1000 then rounds == 0
            else if len / 1000 >= 1000 then rounds == 2
            else 1 <= rounds <= 5 && 200 * (rounds - 1) < 1000 - len / 1000 <= 200 * rounds
  {
  }

  /** The contents of a mapping after n touches, byte by byte, under a pattern that repeats itself. */
  lemma SteadyContents(access: Pattern, m: seq<Byte>, log: seq<Event>, moving: nat, held: nat, b: nat)
    requires Steady(access) && TouchedTimes(access, log, |m|, moving, held) && b < |m|
    ensures var n := (moving + held) * PerTouch(access, |m|, b);
            After(m, log)[b] == if n == 0 then m[b] else if (m[b] == 0x0f) == (n % 2 == 0) then 0x0f else 0
  {
    AfterAt(m, log, b);
    ToggleParity(m[b], Hits(log, b));
  }

  class Mappings {
    const access: Pattern
    const book: FixList
    var regions: seq<Region>
    ghost var Repr: set<object>

    ghost predicate Valid()
      reads this, Repr
    {
      Sound() && if access.MemFix? then AllKept() else book.locs == map[]
    }

    /** No two mappings share memory, and the book lists no others. */
    ghost predicate Sound()
      reads this, Repr
    {
      && this in Repr && book in Repr
      && (forall n | n in book.nodes :: n in Repr)
      && (forall i | 0 <= i < |regions| :: Owned(regions[i]))
      && Distinct()
      && book.Valid()
      && (forall r | r in book.locs :: r in regions)
    }

    ghost predicate AllKept()
      reads this`regions, book, set i | 0 <= i < |regions| :: regions[i]
    {
      forall i | 0 <= i < |regions| :: Kept(regions[i])
    }

    ghost predicate Owned(r: Region)
      reads this, Repr
    {
      && r in Repr && r.data in Repr
      && r.Valid() && PAGE_SIZE <= r.data.Length < TWO_64
    }

    ghost predicate Distinct()
      reads this`regions
    {
      forall i, j | 0 <= i < j < |regions| :: regions[i] != regions[j] && regions[i].data != regions[j].data
    }

    /** Under FIX every mapping has been touched at one byte only, as often as its log is long. */
    ghost predicate Kept(r: Region)
      reads book, r
    {
      if r in book.locs then |r.log| >= 1 && r.log == FixLog(book.locs[r], |r.log|) else r.log == []
    }

    constructor (access: Pattern)
      ensures Valid() && fresh(Repr) && regions == [] && this.access == access
    {
      var b := new FixList();
      this.access := access;
      book := b;
      regions := [];
      Repr := {this, b};
    }

    /** mmapper: a region that nothing else shares. */
    method Mmap(size: nat) returns (addr: nat)
      requires Valid() && PAGE_SIZE <= size < TWO_64
      modifies Repr
      ensures Valid() && fresh(Repr - old(Repr))
      ensures addr == |old(regions)| && |regions| == addr + 1 && regions[..addr] == old(regions)
      ensures regions[addr].data.Length == size && regions[addr].log == []
      ensures forall i | 0 <= i < addr :: regions[i].log == old(regions[i].log)
    {
      hide FixList.Valid, Region.Valid, FixLog;
      addr := |regions|;
      var r := new Region(size);
      regions := regions + [r];
      Repr := Repr + {r, r.data};
      assert forall i | 0 <= i < |regions| :: Owned(regions[i]);
      assert Distinct();
      assert r !in book.locs;
      assert access.MemFix? ==> forall i | 0 <= i < addr :: old(Kept(regions[i])) && Kept(regions[i]);
    }

    /** One touch of a mapping.  No other mapping changes. */
    method Touch(k: nat, inTransition: bool, env: Env)
      requires Valid() && k < |regions|
      modifies Repr
      ensures Valid() && fresh(Repr - old(Repr))
      ensures regions == old(regions)
      ensures forall i | 0 <= i < |regions| && i != k :: regions[i].log == old(regions[i].log)
      ensures PAGE_SIZE <= regions[k].data.Length < TWO_64
      ensures regions[k].log == OneTouch(access, old(regions[k].log), regions[k].data.Length, inTransition, env)
    {
      hide FixList.Valid, Region.Valid, FixLog, RandLog, FixLoc;
      var r := regions[k];
      match access
      case MemFix => TouchFix(k, env);
      case MemStride => PatternStride(r, r.data.Length);
      case MemSeq => PatternSeq(r, 0, r.data.Length);
      case MemRep => PatternRepeat(r, r.data.Length);
      case MemRand => PatternRand(r, r.data.Length, inTransition, env);
    }

    /** One touch under FIX, in the memory of its mapping and of the book. */
    method TouchKept(k: nat, env: Env)
      requires Sound() && k < |regions| && Kept(regions[k])
      modifies Repr
      ensures Sound() && fresh(Repr - old(Repr)) && regions == old(regions)
      ensures forall i | 0 <= i < |regions| && i != k :: regions[i].log == old(regions[i].log)
      ensures PAGE_SIZE <= regions[k].data.Length < TWO_64
      ensures book.locs == if regions[k] in old(book.locs) then old(book.locs)
                           else old(book.locs)[regions[k] := FixLoc(env(0, 0, 0).raw, regions[k].data.Length)]
      ensures Kept(regions[k])
      ensures regions[k].log == OneTouch(MemFix, old(regions[k].log), regions[k].data.Length, false, env)
    {
      hide FixList.Valid, Region.Valid, FixLoc, FixLog;
      var r := regions[k];
      assert Owned(r);
      ghost var before := r.log;
      TouchOnce(book, r, env(0, 0, 0).raw);
      FixFirst(book.locs[r], |before|);
      FixLogNext(book.locs[r], |before|);
      FixLogNone(book.locs[r]);
      Repr := Repr + set n | n in book.nodes;
    }

    lemma DistinctFrom(k: nat)
      requires Sound() && k < |regions|
      ensures forall i | 0 <= i < |regions| && i != k :: regions[i] != regions[k]
    {
      hide FixList.Valid, Region.Valid;
    }

    method TouchFix(k: nat, env: Env)
      requires Valid() && k < |regions| && access.MemFix?
      modifies Repr
      ensures Valid() && fresh(Repr - old(Repr))
      ensures regions == old(regions)
      ensures forall i | 0 <= i < |regions| && i != k :: regions[i].log == old(regions[i].log)
      ensures PAGE_SIZE <= regions[k].data.Length < TWO_64
      ensures regions[k].log == OneTouch(MemFix, old(regions[k].log), regions[k].data.Length, false, env)
      ensures book.locs == if regions[k] in old(book.locs) then old(book.locs)
                           else old(book.locs)[regions[k] := FixLoc(env(0, 0, 0).raw, regions[k].data.Length)]
    {
      hide Sound, FixLoc, FixLog;
      DistinctFrom(k);
      TouchKept(k, env);
      assert forall i | 0 <= i < |regions| && i != k :: old(Kept(regions[i])) && Kept(regions[i]);
    }
  }

  lemma {:induction false} FixFirst(loc: nat, n: nat)
    ensures n >= 1 ==> |FixLog(loc, n)| >= 1 && FixLog(loc, n)[0] == Cleared(loc)
  {
    if n > 1 {
      FixFirst(loc, n - 1);
    }
  }

  /** One touch of one mapping under FIX. */
  method TouchOnce(book: FixList, r: Region, rand: Raws)
    requires book.Valid() && r.Valid() && PAGE_SIZE <= r.data.Length < TWO_64
    requires if r in book.locs then |r.log| >= 1 && r.log == FixLog(book.locs[r], |r.log|) else r.log == []
    modifies book, r.data, r`log
    ensures book.Valid() && r.Valid()
    ensures forall n | n in book.nodes :: n in old(book.nodes) || fresh(n)
    ensures book.locs == if r in old(book.locs) then old(book.locs)
                         else old(book.locs)[r := FixLoc(rand, r.data.Length)]
    ensures |r.log| == |old(r.log)| + 1 && r.log == FixLog(book.locs[r], |r.log|)
  {
    hide FixList.Valid, Region.Valid, FixLoc, FixLog, Choice;
    ghost var n := |r.log|;
    var o := book.PatternFix(r, r.data.Length, rand);
    ChoiceDone(rand, r.data.Length, r.data.Length);
    FixLogNext(book.locs[r], n);
    FixLogNone(book.locs[r]);
  }

  /** FIX over a whole run: after n >= 1 touches a mapping differs from what it was at most in one
      byte, and that byte is 0x00 for odd n and 0x0f for even n. */
  lemma FixRun(m: Mappings, k: nat)
    requires m.Valid() && m.access.MemFix? && k < |m.regions| && |m.regions[k].log| >= 1
    ensures var r := m.regions[k];
            && r in m.book.locs && m.book.locs[r] < |r.initial|
            && r.data[..] == r.initial[m.book.locs[r] := if |r.log| % 2 == 1 then 0 else 0x0f]
  {
    var r := m.regions[k];
    assert m.Kept(r) && m.Owned(r);
    FixContents(r.initial, m.book.locs[r], |r.log|);
  }
}
