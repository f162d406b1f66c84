/** The access patterns STRIDE, SEQUENTIAL, REPEAT and RANDOM over one mapping.

    Each method is specified by the events it appends to the log of the mapping; the lemmas say
    what those events are: which bytes, and how often. */
module Patterns {
  import opened Page
  import opened Access
  import opened Samplers


  /** n steps. */
  function Times(n: nat, step: nat): nat {
    if n == 0 then 0 else Times(n - 1, step) + step
  }

  lemma {:induction false} TimesIs(n: nat, step: nat)
    ensures Times(n, step) == n * step
  {
    if n > 0 {
      TimesIs(n - 1, step);
    }
  }

  /** The log l followed by touches at off, off + step, off + 2 * step, ..., n of them. */
  function Run(l: seq<Event>, off: nat, step: nat, n: nat): seq<Event> {
    if n == 0 then l else Run(l, off, step, n - 1) + [Toggled(off + Times(n - 1, step))]
  }

  lemma SameMultiple(step: nat, n: nat, k: int)
    requires step >= 1
    ensures k == n * step <==> k % step == 0 && k / step == n
  {
    DivMod(k, step);
    QuotientRemainder(step, n, 0);
  }

  /** The step of the run at which byte k comes up, or -1. */
  function Point(off: nat, step: nat, k: nat): int
    requires step >= 1
  {
    if k >= off && (k - off) % step == 0 then (k - off) / step else -1
  }

  lemma RunPoint(off: nat, step: nat, n: nat, k: nat)
    requires step >= 1
    ensures k == off + Times(n, step) <==> Point(off, step, k) == n
  {
    TimesIs(n, step);
    SameMultiple(step, n, k - off);
    MulLe(0, n, step);
  }

  lemma {:induction false} RunHitsFrom(l: seq<Event>, off: nat, step: nat, n: nat, k: nat, p: int)
    requires forall m: nat :: k == off + Times(m, step) <==> p == m
    ensures Hits(Run(l, off, step, n), k) == Hits(l, k) + if 0 <= p < n then 1 else 0
  {
    if n > 0 {
      RunHitsFrom(l, off, step, n - 1, k, p);
      HitsConcat(Run(l, off, step, n - 1), [Toggled(off + Times(n - 1, step))], k);
    }
  }

  lemma RunHits(l: seq<Event>, off: nat, step: nat, n: nat, k: nat)
    requires step >= 1
    ensures Hits(Run(l, off, step, n), k) == Hits(l, k) + if 0 <= Point(off, step, k) < n then 1 else 0
  {
    forall m: nat ensures k == off + Times(m, step) <==> Point(off, step, k) == m {
      RunPoint(off, step, m, k);
    }
    RunHitsFrom(l, off, step, n, k, Point(off, step, k));
  }

  /** What log adds to l are touches only, each at a byte that p accepts. */
  ghost predicate AddsOnly(l: seq<Event>, log: seq<Event>, p: nat -> bool) {
    l <= log && forall i | |l| <= i < |log| :: log[i].Toggled? && p(log[i].at)
  }

  ghost predicate Adds(l: seq<Event>, log: seq<Event>, count: nat, p: nat -> bool) {
    |log| == |l| + count && AddsOnly(l, log, p)
  }

  lemma {:induction false} RunAdds(l: seq<Event>, off: nat, n: nat)
    ensures Adds(l, Run(l, off, 1, n), n, k => off <= k < off + n)
  {
    if n > 0 {
      RunAdds(l, off, n - 1);
      TimesIs(n - 1, 1);
    }
  }

  // -------------------------------------------------------------- sequential

  method PatternSeq(r: Region, off: nat, len: nat)
    requires r.Valid() && off + len <= r.data.Length
    modifies r.data, r`log
    ensures r.Valid() && r.log == Run(old(r.log), off, 1, len)
  {
    var i := 0;
    while i < len
      invariant i <= len
      invariant r.Valid() && r.log == Run(old(r.log), off, 1, i)
    {
      TimesIs(i, 1);
      r.Touch(off + i);
      i := i + 1;
    }
  }

  // ------------------------------------------------------------------ stride

  /** 1000 and what halving makes of it. */
  predicate IsPiece(p: int) {
    p == 1000 || p == 500 || p == 250 || p == 125 || p == 62 || p == 31 || p == 15 || p == 7 || p == 3 || p == 1
  }

  /** The largest piece count that is at most len. */
  function Piece(len: nat): (p: nat)
    requires len >= 1
    ensures IsPiece(p) && p <= len
    ensures forall q :: IsPiece(q) && q <= len ==> q <= p
  {
    if len >= 1000 then 1000 else if len >= 500 then 500 else if len >= 250 then 250
    else if len >= 125 then 125 else if len >= 62 then 62 else if len >= 31 then 31
    else if len >= 15 then 15 else if len >= 7 then 7 else if len >= 3 then 3 else 1
  }

  lemma QuotientPositive(len: nat, p: nat)
    requires p >= 1
    ensures len / p >= 0 && (len / p == 0 <==> len < p)
    ensures len / p * p <= len < len / p * p + p
  {
    DivMod(len, p);
    if len / p >= 1 {
      MulLe(1, len / p, p);
    }
  }

  function Stride(len: nat): (s: nat)
    requires len >= 1
    ensures s >= 1
    ensures s * Piece(len) <= len < s * Piece(len) + Piece(len)
  {
    QuotientPositive(len, Piece(len));
    len / Piece(len)
  }

  /** In numbers: a thousandth from 1000 bytes on, and below one byte but for five lengths. */
  lemma StrideIs(len: nat)
    requires len >= 1
    ensures Stride(len) ==
            if len >= 1000 then len / 1000
            else if len == 2 || len == 6 || len == 14 || len == 30 || len == 124 then 2 else 1
  {
  }

  method StrideGetOffset(len: nat) returns (stride: nat)
    requires len >= 1
    ensures stride == Stride(len) >= 1
  {
    var piece := 1000;
    ghost var used: nat := piece;
    QuotientPositive(len, piece);
    stride := len / piece;
    piece := piece / 2;
    while stride == 0
      invariant IsPiece(used) && piece == used / 2
      invariant forall q :: IsPiece(q) && q <= len ==> q <= used
      invariant stride == len / used && (stride == 0 <==> len < used)
      decreases used
    {
      used := piece;
      QuotientPositive(len, piece);
      stride := len / piece;
      piece := piece / 2;
    }
    assert used == Piece(len);
  }

  /** How many multiples of the stride lie below len. */
  function StrideTouches(len: nat): nat
    requires len >= 1
  {
    QuotientPositive(len + Stride(len) - 1, Stride(len));
    (len + Stride(len) - 1) / Stride(len)
  }

  lemma RoundedUp(len: nat, s: nat, i: nat)
    requires s >= 1
    ensures i < (len + s - 1) / s <==> i * s < len
  {
    var n := (len + s - 1) / s;
    QuotientPositive(len + s - 1, s);
    if i < n {
      MulLe(i + 1, n, s);
    } else {
      MulLe(n, i, s);
    }
  }

  lemma StrideExactly(len: nat, i: nat)
    requires len >= 1
    ensures i < StrideTouches(len) <==> Times(i, Stride(len)) < len
  {
    RoundedUp(len, Stride(len), i);
    TimesIs(i, Stride(len));
  }

  /** A mapping of len bytes is cut into at least as many pieces as asked for, and into fewer than
      twice as many. */
  lemma StrideBounds(len: nat)
    requires len >= 1
    ensures Piece(len) <= StrideTouches(len) <= 2 * Piece(len) - 1
    ensures StrideTouches(len) <= 1999
    ensures len >= 1000 ==> StrideTouches(len) >= 1000
  {
    var p, s := Piece(len), Stride(len);
    RoundedUp(len, s, p - 1);
    RoundedUp(len, s, 2 * p - 1);
    MulLe(1, s, p - 1);
    MulDistribute(p, s);
  }

  lemma MulDistribute(p: int, s: int)
    ensures (p - 1) * s == s * p - s
    ensures (2 * p - 1) * s == s * p + s * (p - 1)
  {
  }

  method PatternStride(r: Region, len: nat)
    requires r.Valid() && 1 <= len <= r.data.Length
    modifies r.data, r`log
    ensures r.Valid() && r.log == Run(old(r.log), 0, Stride(len), StrideTouches(len))
  {
    var stride := StrideGetOffset(len);
    var i := 0;
    ghost var n: nat := 0;
    StrideExactly(len, 0);
    while i < len
      invariant i == Times(n, stride) && n <= StrideTouches(len)
      invariant r.Valid() && r.log == Run(old(r.log), 0, stride, n)
      invariant i < len <==> n < StrideTouches(len)
      decreases StrideTouches(len) - n
    {
      r.Touch(i);
      i := i + stride;
      n := n + 1;
      StrideExactly(len, n);
    }
  }

  /** STRIDE touches the multiples of the stride below len, once each, and nothing else. */
  lemma StrideHits(l: seq<Event>, len: nat, k: nat)
    requires len >= 1
    ensures Hits(Run(l, 0, Stride(len), StrideTouches(len)), k) ==
            Hits(l, k) + if k < len && k % Stride(len) == 0 then 1 else 0
  {
    var s := Stride(len);
    RunHits(l, 0, s, StrideTouches(len), k);
    QuotientPositive(k, s);
    StrideExactly(len, k / s);
    TimesIs(k / s, s);
    SameMultiple(s, k / s, k);
  }

  // ------------------------------------------------------------------ repeat

  const MAX_DIST: nat := 1000
  const MIN_CNT: nat := 2
  const MAX_CNT: nat := 5

  function Trunc(x: real): int {
    if x >= 0.0 then x.Floor else -(-x).Floor
  }

  function Ceil(x: real): int {
    if x > 0.0
    then if x - Trunc(x) as real > 0.0 then Trunc(x + 1.0) else Trunc(x)
    else if x - Trunc(x) as real < 0.0 then Trunc(x - 1.0) else Trunc(x)
  }

  function RepeatCount(dist: nat): (c: nat)
    ensures dist == 0 ==> c == 0
    ensures dist >= 1000 ==> c == 2
    ensures 1 <= dist < 1000 ==> 1 <= c <= 5 && 200 * (c - 1) < 1000 - dist <= 200 * c
  {
    if dist == 0 then 0
    else if dist >= MAX_DIST then MIN_CNT
    else
      var share := (MAX_DIST - dist) as real / MAX_DIST as real;
      var x := MAX_CNT as real * share;
      assert x * 200.0 == (1000 - dist) as real;
      assert x.Floor as real <= x < x.Floor as real + 1.0;
      assert (x + 1.0).Floor == x.Floor + 1;
      Ceil(x)
  }

  function Rounds(l: seq<Event>, dist: nat, c: nat): seq<Event> {
    if c == 0 then l else Run(Rounds(l, dist, c - 1), 0, 1, dist)
  }

  /** REPEAT touches each byte below the distance once per round, and nothing else. */
  lemma {:induction false} RoundsHits(l: seq<Event>, dist: nat, c: nat, k: nat)
    ensures Hits(Rounds(l, dist, c), k) == Hits(l, k) + if k < dist then c else 0
  {
    if c > 0 {
      RoundsHits(l, dist, c - 1, k);
      RunHits(Rounds(l, dist, c - 1), 0, 1, dist, k);
    }
  }

  lemma {:induction false} RoundsWithin(dist: nat, c: nat)
    ensures Within(Rounds([], dist, c), dist) && TogglesOnly(Rounds([], dist, c))
  {
    if c > 0 {
      RoundsWithin(dist, c - 1);
      RunAdds(Rounds([], dist, c - 1), 0, dist);
    }
  }

  function RepeatLog(l: seq<Event>, len: nat): seq<Event>
    requires len >= 1
  {
    Rounds(l, Stride(len), RepeatCount(Stride(len)))
  }

  method PatternRepeat(r: Region, len: nat)
    requires r.Valid() && 1 <= len <= r.data.Length
    modifies r.data, r`log
    ensures r.Valid() && r.log == RepeatLog(old(r.log), len)
  {
    var dist := StrideGetOffset(len);
    StrideWithin(len);
    var repCount := RepeatCount(dist);
    ghost var done: nat := 0;
    while repCount > 0
      invariant done + repCount == RepeatCount(dist)
      invariant r.Valid() && r.log == Rounds(old(r.log), dist, done)
      decreases repCount
    {
      var i := 0;
      label Round:
      while i < dist
        invariant i <= dist
        invariant r.Valid() && r.log == Run(old@Round(r.log), 0, 1, i)
      {
        TimesIs(i, 1);
        r.Touch(i);
        i := i + 1;
      }
      repCount := repCount - 1;
      done := done + 1;
    }
  }

  lemma StrideWithin(len: nat)
    requires len >= 1
    ensures Stride(len) <= len
  {
    MulLe(1, Piece(len), Stride(len));
  }

  lemma RoundsContents(m: seq<Byte>, dist: nat, c: nat, k: nat)
    requires dist <= |m| && k < |m|
    ensures Within(Rounds([], dist, c), |m|)
    ensures After(m, Rounds([], dist, c))[k] ==
            if k >= dist || c == 0 then m[k] else if (m[k] == 0x0f) == (c % 2 == 0) then 0x0f else 0
  {
    RoundsWithin(dist, c);
    AfterAt(m, Rounds([], dist, c), k);
    RoundsHits([], dist, c, k);
    ToggleParity(m[k], c);
  }

  /** REPEAT over one mapping: the bytes below the distance end as the parity of the count says,
      the others stay. */
  lemma RepeatContents(m: seq<Byte>, len: nat, k: nat)
    requires 1 <= len <= |m| && k < |m|
    ensures Within(RepeatLog([], len), |m|)
    ensures After(m, RepeatLog([], len))[k] ==
            if k >= Stride(len) then m[k]
            else if (m[k] == 0x0f) == (RepeatCount(Stride(len)) % 2 == 0) then 0x0f else 0
  {
    var d := Stride(len);
    StrideWithin(len);
    RoundsContents(m, d, RepeatCount(d), k);
  }

  // ------------------------------------------------------------------ random

  function Attempts(inTransition: bool): nat {
    if inTransition then 2 else 50
  }

  function Turns(inTransition: bool): nat {
    if inTransition then 2 else 10
  }

  /** The shortest half whose one window still leaves rand_lim a value to draw. */
  const MIN_HALF: nat := 1021

  /** What rand_lim can have drawn for one window of len bytes. */
  predicate PageDraws(d: seq<nat>, len: nat) {
    forall x | x in d :: x + 20 < len
  }

  /** Runs of ten bytes at the drawn indices. */
  function PageLog(l: seq<Event>, base: nat, d: seq<nat>): seq<Event> {
    if d == [] then l
    else Run(PageLog(l, base, d[..|d| - 1]), base + d[|d| - 1], 1, 10)
  }

  /** The streams of one call: by turn, window and attempt. */
  type Env = (nat, nat, nat) -> Stream

  /** The first n draws for one window. */
  ghost function PageDrawn(rnd: Env, t: nat, w: nat, len: nat, n: nat): (d: seq<nat>)
    requires 21 <= len <= RAND_MAX
    ensures |d| == n && PageDraws(d, len)
  {
    if n == 0 then [] else PageDrawn(rnd, t, w, len, n - 1) + [RandLimValue(rnd(t, w, n - 1), len - 20)]
  }

  lemma PageNone(l: seq<Event>, base: nat)
    ensures PageLog(l, base, []) == l
  {
  }

  lemma PageStep(l: seq<Event>, log: seq<Event>, base: nat, d: seq<nat>, x: nat)
    requires log == Run(PageLog(l, base, d), base + x, 1, 10)
    ensures log == PageLog(l, base, d + [x])
  {
    assert (d + [x])[..|d|] == d;
  }

  method RandomTouchPage(r: Region, base: nat, len: nat, inTransition: bool, rnd: Env, t: nat, w: nat)
    requires r.Valid() && 21 <= len <= RAND_MAX && base + len <= r.data.Length
    modifies r.data, r`log
    ensures r.Valid()
    ensures r.log == PageLog(old(r.log), base, PageDrawn(rnd, t, w, len, Attempts(inTransition)))
  {
    hide RandLimValue, PageLog, PageDraws, Region.Valid;
    var j: nat := 50;
    if inTransition {
      j := 2;
    }
    var n: nat := 0;
    PageNone(r.log, base);
    while j != 0
      invariant n + j == Attempts(inTransition)
      invariant r.Valid() && r.log == PageLog(old(r.log), base, PageDrawn(rnd, t, w, len, n))
      decreases j
    {
      ghost var d := PageDrawn(rnd, t, w, len, n);
      var index := RandLim(rnd(t, w, n), len - 20);
      PatternSeq(r, base + index, 10);
      PageStep(old(r.log), r.log, base, d, index);
      n := n + 1;
      j := j - 1;
    }
  }

  /** A half of h bytes is visited window by window; a short one is a single window that stops
      1000 bytes before its end. */
  function WindowCount(h: nat): nat {
    if h >= 2 * PAGE_SIZE then (h - 1) / PAGE_SIZE else 1
  }

  function WindowLen(h: nat): (len: nat)
    requires h >= MIN_HALF
    ensures 21 <= len <= 2 * PAGE_SIZE
  {
    if h >= 2 * PAGE_SIZE then PAGE_SIZE else h - 1000
  }

  /** What can have been drawn for all the windows of one half. */
  predicate HalfDraws(wd: seq<seq<nat>>, h: nat, att: nat)
    requires h >= MIN_HALF
  {
    forall d | d in wd :: |d| == att && PageDraws(d, WindowLen(h))
  }

  function HalfLog(l: seq<Event>, begin: nat, wd: seq<seq<nat>>): seq<Event> {
    if wd == [] then l
    else
      var w := |wd| - 1;
      PageLog(HalfLog(l, begin, wd[..w]), begin + PAGE_SIZE * w, wd[w])
  }

  lemma HalfStep(l: seq<Event>, log: seq<Event>, begin: nat, wd: seq<seq<nat>>, start: nat, d: seq<nat>)
    requires start == begin + PAGE_SIZE * |wd|
    requires log == PageLog(HalfLog(l, begin, wd), start, d)
    ensures log == HalfLog(l, begin, wd + [d])
  {
    assert (wd + [d])[..|wd|] == wd;
  }

  /** Which windows the loop of random_touch reaches before it breaks. */
  lemma WindowBounds(h: nat, i: nat)
    requires h >= MIN_HALF
    ensures var pages := if h / PAGE_SIZE != 0 then h / PAGE_SIZE else 1;
            && WindowCount(h) <= pages
            && (i < pages ==>
                  (i < WindowCount(h) <==> (if pages > 1 then PAGE_SIZE + PAGE_SIZE * i else h - 1000) < h))
            && (i < WindowCount(h) ==>
                  && (pages > 1 ==> WindowLen(h) == PAGE_SIZE)
                  && (pages <= 1 ==> i == 0 && WindowLen(h) == h - 1000))
  {
  }

  /** One turn over [begin, end): as many windows as its length gives. */
  predicate TurnShape(wd: seq<seq<nat>>, begin: nat, end: nat, att: nat) {
    begin + MIN_HALF <= end && |wd| == WindowCount(end - begin) && HalfDraws(wd, end - begin, att)
  }

  lemma HalfNone(h: nat, att: nat)
    requires h >= MIN_HALF
    ensures HalfDraws([], h, att)
  {
  }

  lemma HalfSnoc(wd: seq<seq<nat>>, d: seq<nat>, h: nat, att: nat)
    requires h >= MIN_HALF && HalfDraws(wd, h, att) && |d| == att && PageDraws(d, WindowLen(h))
    ensures HalfDraws(wd + [d], h, att)
  {
  }

  /** The draws for the first n windows of a half. */
  ghost function HalfDrawn(rnd: Env, t: nat, h: nat, att: nat, n: nat): (wd: seq<seq<nat>>)
    requires h >= MIN_HALF
    ensures |wd| == n && HalfDraws(wd, h, att)
  {
    hide PageDrawn, PageDraws, WindowLen, HalfDraws;
    HalfNone(h, att);
    if n == 0 then []
    else
      HalfSnoc(HalfDrawn(rnd, t, h, att, n - 1), PageDrawn(rnd, t, n - 1, WindowLen(h), att), h, att);
      HalfDrawn(rnd, t, h, att, n - 1) + [PageDrawn(rnd, t, n - 1, WindowLen(h), att)]
  }

  lemma {:induction false} PageDrawnAt(rnd: Env, t: nat, w: nat, len: nat, n: nat, j: nat)
    requires 21 <= len <= RAND_MAX && j < n
    ensures PageDrawn(rnd, t, w, len, n)[j] == RandLimValue(rnd(t, w, j), len - 20)
  {
    hide RandLimValue, PageDraws;
    if j < n - 1 {
      PageDrawnAt(rnd, t, w, len, n - 1, j);
    }
  }

  lemma {:induction false} HalfDrawnAt(rnd: Env, t: nat, h: nat, att: nat, n: nat, w: nat)
    requires h >= MIN_HALF && w < n
    ensures HalfDrawn(rnd, t, h, att, n)[w] == PageDrawn(rnd, t, w, WindowLen(h), att)
  {
    hide PageDrawn, WindowLen, HalfDraws, PageDraws;
    if w < n - 1 {
      HalfDrawnAt(rnd, t, h, att, n - 1, w);
    }
  }

  /** The log after the first n windows of a half. */
  ghost function HalfRun(l: seq<Event>, begin: nat, rnd: Env, t: nat, h: nat, att: nat, n: nat): seq<Event>
    requires h >= MIN_HALF
  {
    HalfLog(l, begin, HalfDrawn(rnd, t, h, att, n))
  }

  lemma HalfRunNext(l: seq<Event>, begin: nat, rnd: Env, t: nat, h: nat, att: nat, n: nat, log: seq<Event>)
    requires h >= MIN_HALF
    requires var base := begin + PAGE_SIZE * n;
             log == PageLog(HalfRun(l, begin, rnd, t, h, att, n), base, PageDrawn(rnd, t, n, WindowLen(h), att))
    ensures log == HalfRun(l, begin, rnd, t, h, att, n + 1)
  {
    hide PageDrawn, PageLog, HalfLog, HalfDraws, PageDraws;
    HalfStep(l, log, begin, HalfDrawn(rnd, t, h, att, n), begin + PAGE_SIZE * n,
             PageDrawn(rnd, t, n, WindowLen(h), att));
  }

  lemma HalfRunNone(l: seq<Event>, begin: nat, rnd: Env, t: nat, h: nat, att: nat)
    requires h >= MIN_HALF
    ensures HalfRun(l, begin, rnd, t, h, att, 0) == l
  {
  }

  method RandomTouch(r: Region, begin: nat, end: nat, inTransition: bool, rnd: Env, t: nat)
    requires r.Valid() && begin + MIN_HALF <= end <= r.data.Length
    modifies r.data, r`log
    ensures r.Valid()
    ensures var h := end - begin;
            r.log == HalfRun(old(r.log), begin, rnd, t, h, Attempts(inTransition), WindowCount(h))
  {
    hide HalfRun, WindowCount, WindowLen, Attempts, PageDrawn, PageLog, PageDraws;
    var i: nat := 0;
    var intrLen := end - begin;
    var pages := intrLen / PAGE_SIZE;
    pages := if pages != 0 then pages else 1;
    WindowBounds(intrLen, 0);
    HalfRunNone(r.log, begin, rnd, t, intrLen, Attempts(inTransition));
    while i < pages
      invariant i <= WindowCount(intrLen) <= pages
      invariant r.Valid() && r.log == HalfRun(old(r.log), begin, rnd, t, intrLen, Attempts(inTransition), i)
    {
      WindowBounds(intrLen, i);
      var loop := if pages > 1 then PAGE_SIZE * i else 0;
      var startIndex := begin + loop;
      var endIndex := if pages > 1 then PAGE_SIZE + startIndex else end - 1000;
      var touchLen := endIndex - startIndex;
      if endIndex >= end {
        break;
      }
      assert startIndex == begin + PAGE_SIZE * i && touchLen == WindowLen(intrLen);
      RandomTouchPage(r, startIndex, touchLen, inTransition, rnd, t, i);
      HalfRunNext(old(r.log), begin, rnd, t, intrLen, Attempts(inTransition), i, r.log);
      i := i + 1;
    }
  }

  /** Even turns visit the lower half, odd turns the upper one. */
  function TurnStart(len: nat, t: nat): nat {
    if t % 2 == 1 then len / 2 else 0
  }

  function TurnEnd(len: nat, t: nat): nat {
    if t % 2 == 1 then len else len / 2
  }

  predicate TurnDraws(td: seq<seq<seq<nat>>>, len: nat, att: nat) {
    forall t | 0 <= t < |td| :: TurnShape(td[t], TurnStart(len, t), TurnEnd(len, t), att)
  }

  function TurnsLog(l: seq<Event>, len: nat, td: seq<seq<seq<nat>>>): seq<Event> {
    if td == [] then l
    else
      var t := |td| - 1;
      HalfLog(TurnsLog(l, len, td[..t]), TurnStart(len, t), td[t])
  }

  lemma Sides(len: nat, t: nat, slice: bool)
    requires len >= 2 * MIN_HALF && slice == (t % 2 == 1)
    ensures TurnStart(len, t) == if slice then len / 2 else 0
    ensures TurnEnd(len, t) == if slice then len else len / 2
    ensures TurnStart(len, t) + MIN_HALF <= TurnEnd(len, t) <= len
    ensures !slice == ((t + 1) % 2 == 1)
  {
  }

  lemma DrawsStep(td: seq<seq<seq<nat>>>, wd: seq<seq<nat>>, len: nat, att: nat)
    requires TurnDraws(td, len, att) && TurnShape(wd, TurnStart(len, |td|), TurnEnd(len, |td|), att)
    ensures TurnDraws(td + [wd], len, att)
  {
  }

  lemma NoDraws(len: nat, att: nat)
    ensures TurnDraws([], len, att)
  {
  }

  lemma TurnStep(l: seq<Event>, log: seq<Event>, len: nat, td: seq<seq<seq<nat>>>, wd: seq<seq<nat>>, start: nat)
    requires start == TurnStart(len, |td|)
    requires log == HalfLog(TurnsLog(l, len, td), start, wd)
    ensures log == TurnsLog(l, len, td + [wd])
  {
    assert (td + [wd])[..|td|] == td;
  }

  ghost function TurnDrawn(rnd: Env, len: nat, att: nat, t: nat): (wd: seq<seq<nat>>)
    requires len >= 2 * MIN_HALF
    ensures TurnShape(wd, TurnStart(len, t), TurnEnd(len, t), att)
  {
    hide HalfDrawn, WindowCount, TurnStart, TurnEnd;
    Sides(len, t, t % 2 == 1);
    var h := TurnEnd(len, t) - TurnStart(len, t);
    HalfDrawn(rnd, t, h, att, WindowCount(h))
  }

  /** The draws for the first n turns of a call. */
  ghost function TurnsDrawn(rnd: Env, len: nat, att: nat, n: nat): (td: seq<seq<seq<nat>>>)
    requires len >= 2 * MIN_HALF
    ensures |td| == n && TurnDraws(td, len, att)
  {
    hide TurnDrawn, TurnShape, TurnDraws;
    if n == 0 then
      NoDraws(len, att);
      []
    else
      DrawsStep(TurnsDrawn(rnd, len, att, n - 1), TurnDrawn(rnd, len, att, n - 1), len, att);
      TurnsDrawn(rnd, len, att, n - 1) + [TurnDrawn(rnd, len, att, n - 1)]
  }

  lemma {:induction false} TurnsDrawnAt(rnd: Env, len: nat, att: nat, n: nat, t: nat)
    requires len >= 2 * MIN_HALF && t < n
    ensures TurnsDrawn(rnd, len, att, n)[t] == TurnDrawn(rnd, len, att, t)
  {
    hide TurnDrawn, TurnShape, TurnDraws;
    if t < n - 1 {
      TurnsDrawnAt(rnd, len, att, n - 1, t);
    }
  }

  /** The log after the first n turns. */
  ghost function TurnsRun(l: seq<Event>, len: nat, rnd: Env, att: nat, n: nat): seq<Event>
    requires len >= 2 * MIN_HALF
  {
    TurnsLog(l, len, TurnsDrawn(rnd, len, att, n))
  }

  lemma TurnsRunNone(l: seq<Event>, len: nat, rnd: Env, att: nat)
    requires len >= 2 * MIN_HALF
    ensures TurnsRun(l, len, rnd, att, 0) == l
  {
  }

  lemma TurnsRunNext(l: seq<Event>, len: nat, rnd: Env, att: nat, t: nat, log: seq<Event>)
    requires len >= 2 * MIN_HALF && TurnStart(len, t) + MIN_HALF <= TurnEnd(len, t)
    requires var h := TurnEnd(len, t) - TurnStart(len, t);
             log == HalfRun(TurnsRun(l, len, rnd, att, t), TurnStart(len, t), rnd, t, h, att, WindowCount(h))
    ensures log == TurnsRun(l, len, rnd, att, t + 1)
  {
    hide HalfLog, HalfDrawn, WindowCount, TurnsLog, TurnStart, TurnEnd;
    TurnStep(l, log, len, TurnsDrawn(rnd, len, att, t), TurnDrawn(rnd, len, att, t), TurnStart(len, t));
  }

  /** What RANDOM appends to the log of a mapping. */
  ghost function RandLog(l: seq<Event>, len: nat, inTransition: bool, rnd: Env): seq<Event>
    requires len >= 2 * MIN_HALF
  {
    TurnsRun(l, len, rnd, Attempts(inTransition), Turns(inTransition))
  }

  method PatternRand(r: Region, len: nat, inTransition: bool, rnd: Env)
    requires r.Valid() && 2 * MIN_HALF <= len <= r.data.Length
    modifies r.data, r`log
    ensures r.Valid() && r.log == RandLog(old(r.log), len, inTransition, rnd)
  {
    hide Attempts, TurnsRun, HalfRun, WindowCount, TurnStart, TurnEnd;
    var whichSlice := false;
    var switcher := len / 2;
    var n: nat := 10;
    if inTransition {
      n := 2;
    }
    var t: nat := 0;
    TurnsRunNone(r.log, len, rnd, Attempts(inTransition));
    while n != 0
      invariant t + n == Turns(inTransition) && whichSlice == (t % 2 == 1)
      invariant r.Valid() && r.log == TurnsRun(old(r.log), len, rnd, Attempts(inTransition), t)
      decreases n
    {
      Sides(len, t, whichSlice);
      var start := if whichSlice then switcher else 0;
      var end := if whichSlice then len else switcher;
      RandomTouch(r, start, end, inTransition, rnd, t);
      TurnsRunNext(old(r.log), len, rnd, Attempts(inTransition), t, r.log);
      whichSlice := !whichSlice;
      t := t + 1;
      n := n - 1;
    }
  }

  // ----------------------------------------------- what RANDOM can touch

  /** Byte k of a half lies in window w and a draw can reach it: the last 11 of a window are out
      of reach. */
  predicate InWindow(begin: nat, h: nat, w: nat, k: nat)
    requires h >= MIN_HALF
  {
    w < WindowCount(h) && begin + PAGE_SIZE * w <= k < begin + PAGE_SIZE * w + WindowLen(h) - 11
  }

  ghost predicate Reachable(begin: nat, h: nat, k: nat)
    requires h >= MIN_HALF
  {
    exists w: nat :: InWindow(begin, h, w, k)
  }

  /** Every reachable byte lies in its half, and at least 12 bytes before the end of it. */
  lemma ReachableInside(begin: nat, h: nat, k: nat)
    requires h >= MIN_HALF && Reachable(begin, h, k)
    ensures begin <= k < begin + h - 11
  {
  }

  lemma AddsTwice(a: seq<Event>, b: seq<Event>, c: seq<Event>, p: nat -> bool, q: nat -> bool, r: nat -> bool)
    requires AddsOnly(a, b, p) && AddsOnly(b, c, q)
    requires forall k: nat :: p(k) || q(k) ==> r(k)
    ensures AddsOnly(a, c, r)
  {
  }

  lemma {:induction false} PageAdds(l: seq<Event>, base: nat, d: seq<nat>, len: nat)
    requires PageDraws(d, len)
    ensures Adds(l, PageLog(l, base, d), Times(|d|, 10), k => base <= k < base + len - 11)
  {
    if d != [] {
      var n := |d| - 1;
      assert forall x | x in d[..n] :: x in d;
      assert d[n] in d;
      var mid := PageLog(l, base, d[..n]);
      PageAdds(l, base, d[..n], len);
      RunAdds(mid, base + d[n], 10);
      AddsTwice(l, mid, PageLog(l, base, d),
                k => base <= k < base + len - 11, k => base + d[n] <= k < base + d[n] + 10,
                k => base <= k < base + len - 11);
    }
  }

  lemma {:induction false} HalfAdds(l: seq<Event>, begin: nat, h: nat, att: nat, wd: seq<seq<nat>>)
    requires h >= MIN_HALF && |wd| <= WindowCount(h) && HalfDraws(wd, h, att)
    ensures Adds(l, HalfLog(l, begin, wd), Times(|wd|, Times(att, 10)), (k: nat) => Reachable(begin, h, k))
  {
    if wd != [] {
      var w := |wd| - 1;
      assert forall d | d in wd[..w] :: d in wd;
      assert wd[w] in wd;
      var mid := HalfLog(l, begin, wd[..w]);
      var base := begin + PAGE_SIZE * w;
      HalfAdds(l, begin, h, att, wd[..w]);
      PageAdds(mid, base, wd[w], WindowLen(h));
      var inPage := (k: nat) => base <= k < base + WindowLen(h) - 11;
      assert forall k: nat :: inPage(k) ==> InWindow(begin, h, w, k);
      AddsTwice(l, mid, HalfLog(l, begin, wd),
                (k: nat) => Reachable(begin, h, k), inPage, (k: nat) => Reachable(begin, h, k));
    }
  }

  lemma TurnsLogStep(l: seq<Event>, len: nat, td: seq<seq<seq<nat>>>, t: nat)
    requires t < |td|
    ensures TurnsLog(l, len, td[..t + 1]) == HalfLog(TurnsLog(l, len, td[..t]), TurnStart(len, t), td[t])
  {
    assert td[..t + 1][..t] == td[..t];
  }

  /** RANDOM, turn by turn: even turns touch the lower half and odd turns the upper half, each
      window gets its number of runs of ten touches, and only reachable bytes are touched. */
  lemma RandTurn(l: seq<Event>, len: nat, td: seq<seq<seq<nat>>>, att: nat, t: nat)
    requires len >= 2 * MIN_HALF && TurnDraws(td, len, att) && t < |td|
    ensures var begin, h := TurnStart(len, t), TurnEnd(len, t) - TurnStart(len, t);
            Adds(TurnsLog(l, len, td[..t]), TurnsLog(l, len, td[..t + 1]), Times(WindowCount(h), Times(att, 10)),
                 (k: nat) => Reachable(begin, h, k))
  {
    hide Reachable, WindowCount, HalfLog, TurnsLog;
    var begin, h := TurnStart(len, t), TurnEnd(len, t) - TurnStart(len, t);
    TurnsLogStep(l, len, td, t);
    assert TurnShape(td[t], begin, TurnEnd(len, t), att);
    HalfAdds(TurnsLog(l, len, td[..t]), begin, h, att, td[t]);
  }

  ghost predicate RandReachable(len: nat, k: nat)
    requires len >= 2 * MIN_HALF
  {
    Reachable(0, len / 2, k) || Reachable(len / 2, len - len / 2, k)
  }

  lemma TurnHalf(len: nat, t: nat)
    requires len >= 2 * MIN_HALF
    ensures var begin, h := TurnStart(len, t), TurnEnd(len, t) - TurnStart(len, t);
            && begin == (if t % 2 == 0 then 0 else len / 2)
            && h == (if t % 2 == 0 then len / 2 else len - len / 2)
            && h >= MIN_HALF
            && forall k: nat :: Reachable(begin, h, k) ==> RandReachable(len, k)
  {
  }

  ghost function Reach(len: nat): nat -> bool
    requires len >= 2 * MIN_HALF
  {
    (k: nat) => RandReachable(len, k)
  }

  lemma RandTurnReach(l: seq<Event>, len: nat, td: seq<seq<seq<nat>>>, att: nat, t: nat)
    requires len >= 2 * MIN_HALF && TurnDraws(td, len, att) && t < |td|
    ensures AddsOnly(TurnsLog(l, len, td[..t]), TurnsLog(l, len, td[..t + 1]), Reach(len))
  {
    RandTurn(l, len, td, att, t);
    TurnHalf(len, t);
  }

  lemma {:induction false} RandOnly(l: seq<Event>, len: nat, td: seq<seq<seq<nat>>>, att: nat, n: nat)
    requires len >= 2 * MIN_HALF && TurnDraws(td, len, att) && n <= |td|
    ensures AddsOnly(l, TurnsLog(l, len, td[..n]), Reach(len))
  {
    if n > 0 {
      RandOnly(l, len, td, att, n - 1);
      RandTurnReach(l, len, td, att, n - 1);
      AddsTwice(l, TurnsLog(l, len, td[..n - 1]), TurnsLog(l, len, td[..n]), Reach(len), Reach(len), Reach(len));
    }
  }

  // The converse: a choice of draws for every byte that is said to be reachable.

  lemma RunHas(l: seq<Event>, off: nat, n: nat, k: nat)
    requires off <= k < off + n
    ensures Toggled(k) in Run(l, off, 1, n)
  {
    RunHits(l, off, 1, n, k);
  }

  function Constant(h: nat, att: nat, x: nat): (wd: seq<seq<nat>>)
    requires h >= MIN_HALF && x + 20 < WindowLen(h)
    ensures |wd| == WindowCount(h) && HalfDraws(wd, h, att)
    ensures forall w | 0 <= w < |wd| :: wd[w] == seq(att, _ => x)
  {
    seq(WindowCount(h), _ => seq(att, _ => x))
  }

  /** One window whose draws all equal x touches the ten bytes from there. */
  lemma PageHas(l: seq<Event>, base: nat, att: nat, x: nat, k: nat)
    requires att >= 1 && base + x <= k < base + x + 10
    ensures Toggled(k) in PageLog(l, base, seq(att, _ => x))
  {
    var d := seq(att, _ => x);
    RunHas(PageLog(l, base, d[..att - 1]), base + x, 10, k);
  }

  lemma {:induction false} HalfHas(l: seq<Event>, begin: nat, h: nat, att: nat,
                                   x: nat, w: nat, k: nat, wd: seq<seq<nat>>)
    requires h >= MIN_HALF && att >= 1 && x + 20 < WindowLen(h) && w < |wd| && HalfDraws(wd, h, att)
    requires wd[w] == seq(att, _ => x)
    requires begin + PAGE_SIZE * w + x <= k < begin + PAGE_SIZE * w + x + 10
    ensures Toggled(k) in HalfLog(l, begin, wd)
  {
    var n := |wd| - 1;
    var mid := HalfLog(l, begin, wd[..n]);
    assert wd[n] in wd;
    if w < n {
      assert forall d | d in wd[..n] :: d in wd;
      HalfHas(l, begin, h, att, x, w, k, wd[..n]);
      PageAdds(mid, begin + PAGE_SIZE * n, wd[n], WindowLen(h));
    } else {
      PageHas(mid, begin + PAGE_SIZE * w, att, x, k);
    }
  }

  /** The stream on which rand_lim makes draw j for window w of turn t. */
  function StreamOf(td: seq<seq<seq<nat>>>, len: nat, att: nat, t: nat, w: nat, j: nat): Stream
    requires len >= 2 * MIN_HALF && TurnDraws(td, len, att)
  {
    if t < |td| && w < |td[t]| && j < |td[t][w]| then
      assert TurnShape(td[t], TurnStart(len, t), TurnEnd(len, t), att);
      assert td[t][w] in td[t];
      assert td[t][w][j] in td[t][w];
      StreamFor(WindowLen(TurnEnd(len, t) - TurnStart(len, t)) - 20, td[t][w][j])
    else Draws((n: nat) => 0, 0)
  }

  /** Whatever draws are within bounds, rand_lim makes them on some streams. */
  lemma DrawsReached(td: seq<seq<seq<nat>>>, len: nat, att: nat) returns (rnd: Env)
    requires len >= 2 * MIN_HALF && TurnDraws(td, len, att)
    ensures TurnsDrawn(rnd, len, att, |td|) == td
  {
    hide StreamOf, TurnDrawn;
    rnd := (t, w, j) => StreamOf(td, len, att, t, w, j);
    forall t | 0 <= t < |td| ensures TurnsDrawn(rnd, len, att, |td|)[t] == td[t] {
      TurnsDrawnAt(rnd, len, att, |td|, t);
      TurnReached(td, len, att, rnd, t);
    }
  }

  lemma TurnReached(td: seq<seq<seq<nat>>>, len: nat, att: nat, rnd: Env, t: nat)
    requires len >= 2 * MIN_HALF && TurnDraws(td, len, att) && t < |td|
    requires forall w: nat, j: nat :: rnd(t, w, j) == StreamOf(td, len, att, t, w, j)
    ensures TurnDrawn(rnd, len, att, t) == td[t]
  {
    hide StreamOf, RandLimValue, PageDrawn, HalfDrawn, WindowCount, TurnStart, TurnEnd;
    assert TurnShape(td[t], TurnStart(len, t), TurnEnd(len, t), att);
    var wd := TurnDrawn(rnd, len, att, t);
    forall w | 0 <= w < |wd| ensures wd[w] == td[t][w] {
      assert td[t][w] in td[t];
      var h := TurnEnd(len, t) - TurnStart(len, t);
      HalfDrawnAt(rnd, t, h, att, WindowCount(h), w);
      forall j | 0 <= j < att ensures wd[w][j] == td[t][w][j] {
        PageDrawnAt(rnd, t, w, WindowLen(h), att, j);
        DrawReached(td, len, att, t, w, j);
      }
    }
  }

  lemma DrawReached(td: seq<seq<seq<nat>>>, len: nat, att: nat, t: nat, w: nat, j: nat)
    requires len >= 2 * MIN_HALF && TurnDraws(td, len, att) && t < |td| && w < |td[t]| && j < |td[t][w]|
    ensures TurnEnd(len, t) - TurnStart(len, t) >= MIN_HALF
    ensures var h := TurnEnd(len, t) - TurnStart(len, t);
            RandLimValue(StreamOf(td, len, att, t, w, j), WindowLen(h) - 20) == td[t][w][j]
  {
    hide RandLimValue, WindowCount;
    assert TurnShape(td[t], TurnStart(len, t), TurnEnd(len, t), att);
    assert td[t][w] in td[t];
    assert td[t][w][j] in td[t][w];
    LimReaches(WindowLen(TurnEnd(len, t) - TurnStart(len, t)) - 20, td[t][w][j]);
  }

  /** RANDOM reaches exactly the reachable bytes: on some streams one call touches byte k if and only
      if k lies in the first part of a window of either half. */
  lemma RandReach(len: nat, inTransition: bool, k: nat)
    requires len >= 2 * MIN_HALF
    ensures RandReachable(len, k) <==> exists rnd: Env :: Toggled(k) in RandLog([], len, inTransition, rnd)
  {
    hide RandLog, RandReachable;
    if RandReachable(len, k) {
      var rnd := RandReaches(len, inTransition, k);
    }
    forall rnd: Env | Toggled(k) in RandLog([], len, inTransition, rnd) ensures RandReachable(len, k) {
      RandLogOnly([], len, inTransition, rnd);
      var log := RandLog([], len, inTransition, rnd);
      var i :| 0 <= i < |log| && log[i] == Toggled(k);
      assert Reach(len)(log[i].at);
    }
  }

  lemma RandReaches(len: nat, inTransition: bool, k: nat) returns (rnd: Env)
    requires len >= 2 * MIN_HALF && RandReachable(len, k)
    ensures Toggled(k) in RandLog([], len, inTransition, rnd)
  {
    hide RandReachable, TurnsDrawn, TurnsLog;
    var td := RandWitness(len, Attempts(inTransition), Turns(inTransition), k);
    rnd := DrawsReached(td, len, Attempts(inTransition));
  }

  lemma RandLogOnly(l: seq<Event>, len: nat, inTransition: bool, rnd: Env)
    requires len >= 2 * MIN_HALF
    ensures AddsOnly(l, RandLog(l, len, inTransition, rnd), Reach(len))
  {
    var td := TurnsDrawn(rnd, len, Attempts(inTransition), Turns(inTransition));
    RandOnly(l, len, td, Attempts(inTransition), |td|);
    assert td[..|td|] == td;
  }

  lemma RandWitness(len: nat, att: nat, turns: nat, k: nat) returns (td: seq<seq<seq<nat>>>)
    requires len >= 2 * MIN_HALF && att >= 1 && turns >= 2 && RandReachable(len, k)
    ensures |td| == turns && TurnDraws(td, len, att) && Toggled(k) in TurnsLog([], len, td)
  {
    TurnHalf(len, 0);
    TurnHalf(len, 1);
    var t := if Reachable(0, len / 2, k) then 0 else 1;
    var w: nat :| InWindow(TurnStart(len, t), TurnEnd(len, t) - TurnStart(len, t), w, k);
    td := WindowWitness(len, att, turns, t, w, k);
  }

  lemma WindowWitness(len: nat, att: nat, turns: nat, t: nat, w: nat, k: nat) returns (td: seq<seq<seq<nat>>>)
    requires len >= 2 * MIN_HALF && att >= 1 && t < 2 <= turns && TurnEnd(len, t) - TurnStart(len, t) >= MIN_HALF
    requires InWindow(TurnStart(len, t), TurnEnd(len, t) - TurnStart(len, t), w, k)
    ensures |td| == turns && TurnDraws(td, len, att) && Toggled(k) in TurnsLog([], len, td)
  {
    var begin, h := TurnStart(len, t), TurnEnd(len, t) - TurnStart(len, t);
    var o := k - (begin + PAGE_SIZE * w);
    var x := if o + 20 < WindowLen(h) then o else WindowLen(h) - 21;
    td := Mixed(len, att, turns, t, h, x);
    assert Toggled(k) in TurnsLog([], len, td[..t + 1]) by {
      HalfHas(TurnsLog([], len, td[..t]), begin, h, att, x, w, k, td[t]);
      assert td[..t + 1][..t] == td[..t];
    }
    Later([], len, td, att, t + 1, turns);
    assert td[..turns] == td;
  }

  /** Draws that all equal x in the turns of one half, and 0 in those of the other. */
  lemma Mixed(len: nat, att: nat, turns: nat, t: nat, h: nat, x: nat) returns (td: seq<seq<seq<nat>>>)
    requires len >= 2 * MIN_HALF && t < 2 && t < turns && h == TurnEnd(len, t) - TurnStart(len, t)
    requires h >= MIN_HALF && x + 20 < WindowLen(h)
    ensures |td| == turns && TurnDraws(td, len, att) && td[t] == Constant(h, att, x)
  {
    td := [];
    while |td| < turns
      invariant |td| <= turns && TurnDraws(td, len, att)
      invariant t < |td| ==> td[t] == Constant(h, att, x)
    {
      TurnHalf(len, |td|);
      var g := TurnEnd(len, |td|) - TurnStart(len, |td|);
      var wd := if |td| == t then Constant(h, att, x) else Constant(g, att, 0);
      DrawsStep(td, wd, len, att);
      td := td + [wd];
    }
  }

  lemma {:induction false} Later(l: seq<Event>, len: nat, td: seq<seq<seq<nat>>>, att: nat, m: nat, n: nat)
    requires len >= 2 * MIN_HALF && TurnDraws(td, len, att) && m <= n <= |td|
    ensures TurnsLog(l, len, td[..m]) <= TurnsLog(l, len, td[..n])
  {
    hide TurnsLog, HalfLog, Reachable, WindowCount;
    if m < n {
      Later(l, len, td, att, m, n - 1);
      RandTurn(l, len, td, att, n - 1);
    }
  }

  // ------------------------------------------- the touches of RANDOM, one by one

  lemma {:induction false} RunPrefix(l: seq<Event>, off: nat, step: nat, n: nat)
    ensures |Run(l, off, step, n)| == |l| + n && l <= Run(l, off, step, n)
  {
    if n > 0 {
      RunPrefix(l, off, step, n - 1);
    }
  }

  lemma {:induction false} RunAt(l: seq<Event>, off: nat, step: nat, n: nat, i: nat)
    requires i < n
    ensures |l| + i < |Run(l, off, step, n)| && Run(l, off, step, n)[|l| + i] == Toggled(off + i * step)
  {
    RunPrefix(l, off, step, n - 1);
    TimesIs(n - 1, step);
    if i < n - 1 {
      RunAt(l, off, step, n - 1, i);
    }
  }

  lemma {:induction false} PagePrefix(l: seq<Event>, base: nat, d: seq<nat>)
    ensures |PageLog(l, base, d)| == |l| + 10 * |d| && l <= PageLog(l, base, d)
  {
    if d != [] {
      var n := |d| - 1;
      PagePrefix(l, base, d[..n]);
      RunPrefix(PageLog(l, base, d[..n]), base + d[n], 1, 10);
    }
  }

  lemma {:induction false} PageAt(l: seq<Event>, base: nat, d: seq<nat>, j: nat, b: nat)
    requires j < |d| && b < 10
    ensures |l| + 10 * j + b < |PageLog(l, base, d)|
    ensures PageLog(l, base, d)[|l| + 10 * j + b] == Toggled(base + d[j] + b)
  {
    var n := |d| - 1;
    var mid := PageLog(l, base, d[..n]);
    PagePrefix(l, base, d[..n]);
    RunPrefix(mid, base + d[n], 1, 10);
    if j < n {
      PageAt(l, base, d[..n], j, b);
    } else {
      RunAt(mid, base + d[n], 1, 10, b);
    }
  }

  lemma HalfSplit(l: seq<Event>, begin: nat, wd: seq<seq<nat>>, att: nat, n: nat)
    requires |wd| == n + 1 && forall d | d in wd :: |d| == att
    ensures |wd[n]| == att && forall d | d in wd[..n] :: |d| == att
    ensures HalfLog(l, begin, wd) == PageLog(HalfLog(l, begin, wd[..n]), begin + PAGE_SIZE * n, wd[n])
  {
    assert wd[n] in wd && forall d | d in wd[..n] :: d in wd;
  }

  lemma {:induction false} HalfPrefix(l: seq<Event>, begin: nat, wd: seq<seq<nat>>, att: nat)
    requires forall d | d in wd :: |d| == att
    ensures |HalfLog(l, begin, wd)| == |l| + Times(|wd|, 10 * att) && l <= HalfLog(l, begin, wd)
  {
    if wd != [] {
      var n := |wd| - 1;
      HalfSplit(l, begin, wd, att, n);
      hide HalfLog, PageLog;
      HalfPrefix(l, begin, wd[..n], att);
      PagePrefix(HalfLog(l, begin, wd[..n]), begin + PAGE_SIZE * n, wd[n]);
    }
  }

  lemma {:induction false} HalfAt(l: seq<Event>, begin: nat, wd: seq<seq<nat>>, att: nat, w: nat, j: nat, b: nat)
    requires w < |wd| && j < att && b < 10 && forall d | d in wd :: |d| == att
    ensures var at := |l| + Times(w, 10 * att) + 10 * j + b;
            && at < |HalfLog(l, begin, wd)| && |wd[w]| == att
            && HalfLog(l, begin, wd)[at] == Toggled(begin + PAGE_SIZE * w + wd[w][j] + b)
  {
    hide HalfLog, PageLog, Times;
    var n := |wd| - 1;
    var mid := HalfLog(l, begin, wd[..n]);
    HalfSplit(l, begin, wd, att, n);
    HalfPrefix(l, begin, wd[..n], att);
    PagePrefix(mid, begin + PAGE_SIZE * n, wd[n]);
    if w < n {
      HalfAt(l, begin, wd[..n], att, w, j, b);
    } else {
      PageAt(mid, begin + PAGE_SIZE * w, wd[n], j, b);
    }
  }

  /** The length of the half of turn t. */
  function HalfOf(len: nat, t: nat): nat {
    if t % 2 == 0 then len / 2 else len - len / 2
  }

  /** How many windows the turns before turn t have visited. */
  function WindowsBefore(len: nat, t: nat): nat {
    if t == 0 then 0
    else WindowsBefore(len, t - 1) + WindowCount(HalfOf(len, t - 1))
  }

  lemma {:induction false} WindowsBeforeAre(len: nat, n: nat)
    ensures WindowsBefore(len, 2 * n) == n * (WindowCount(len / 2) + WindowCount(len - len / 2))
    ensures WindowsBefore(len, 2 * n + 1) == WindowsBefore(len, 2 * n) + WindowCount(len / 2)
  {
    hide WindowCount;
    if n > 0 {
      WindowsBeforeAre(len, n - 1);
      assert WindowsBefore(len, 2 * n) == WindowsBefore(len, 2 * (n - 1) + 1) + WindowCount(len - len / 2);
    }
  }

  lemma {:induction false} TimesSum(m: nat, n: nat, step: nat)
    ensures Times(m + n, step) == Times(m, step) + Times(n, step)
  {
    if n > 0 {
      TimesSum(m, n - 1, step);
    }
  }

  /** A turn, and what comes before it. */
  lemma TurnSplit(l: seq<Event>, len: nat, rnd: Env, att: nat, t: nat)
    requires len >= 2 * MIN_HALF
    ensures var h, wd := HalfOf(len, t), TurnDrawn(rnd, len, att, t);
            && h >= MIN_HALF && TurnStart(len, t) == (if t % 2 == 0 then 0 else len / 2)
            && |wd| == WindowCount(h) && wd == HalfDrawn(rnd, t, h, att, WindowCount(h))
            && (forall d | d in wd :: |d| == att)
            && TurnsRun(l, len, rnd, att, t + 1) == HalfLog(TurnsRun(l, len, rnd, att, t), TurnStart(len, t), wd)
  {
    hide HalfLog, WindowCount, HalfDrawn, PageDraws, TurnsLog, TurnsDrawn, TurnsRun, WindowLen;
    TurnsRunNext(l, len, rnd, att, t, HalfLog(TurnsRun(l, len, rnd, att, t), TurnStart(len, t), TurnDrawn(rnd, len, att, t)));
  }

  lemma WindowsNext(len: nat, t: nat)
    ensures WindowsBefore(len, 0) == 0
    ensures WindowsBefore(len, t + 1) == WindowsBefore(len, t) + WindowCount(HalfOf(len, t))
  {
    hide WindowCount, HalfOf;
  }

  lemma {:induction false} TurnsPrefix(l: seq<Event>, len: nat, rnd: Env, att: nat, n: nat)
    requires len >= 2 * MIN_HALF
    ensures |TurnsRun(l, len, rnd, att, n)| == |l| + Times(WindowsBefore(len, n), 10 * att)
  {
    if n == 0 {
      TurnsRunNone(l, len, rnd, att);
    } else {
      hide *;
      TurnsPrefix(l, len, rnd, att, n - 1);
      TurnsPrefixNext(l, len, rnd, att, n - 1);
    }
  }

  lemma TurnsPrefixNext(l: seq<Event>, len: nat, rnd: Env, att: nat, t: nat)
    requires len >= 2 * MIN_HALF
    ensures |TurnsRun(l, len, rnd, att, t + 1)| - Times(WindowsBefore(len, t + 1), 10 * att) ==
            |TurnsRun(l, len, rnd, att, t)| - Times(WindowsBefore(len, t), 10 * att)
    ensures TurnsRun(l, len, rnd, att, t) <= TurnsRun(l, len, rnd, att, t + 1)
  {
    hide *;
    TurnSplit(l, len, rnd, att, t);
    WindowsNext(len, t);
    var wd := TurnDrawn(rnd, len, att, t);
    HalfPrefix(TurnsRun(l, len, rnd, att, t), TurnStart(len, t), wd, att);
    TimesSum(WindowsBefore(len, t), |wd|, 10 * att);
  }

  lemma {:induction false} TurnsGrow(l: seq<Event>, len: nat, rnd: Env, att: nat, t: nat, n: nat)
    requires len >= 2 * MIN_HALF && t <= n
    ensures TurnsRun(l, len, rnd, att, t) <= TurnsRun(l, len, rnd, att, n)
  {
    hide *;
    if t < n {
      TurnsGrow(l, len, rnd, att, t, n - 1);
      TurnsPrefixNext(l, len, rnd, att, n - 1);
    }
  }

  /** Byte b of run j in window w of turn t. */
  lemma TurnsAt(l: seq<Event>, len: nat, rnd: Env, att: nat, n: nat, t: nat, w: nat, j: nat, b: nat)
    requires len >= 2 * MIN_HALF && t < n && j < att && b < 10 && w < WindowCount(HalfOf(len, t))
    ensures HalfOf(len, t) >= MIN_HALF
    ensures var at := |l| + Times(WindowsBefore(len, t) + w, 10 * att) + 10 * j + b;
            var log := TurnsRun(l, len, rnd, att, n);
            && at < |log|
            && log[at] == Toggled(TurnStart(len, t) + PAGE_SIZE * w
                                  + RandLimValue(rnd(t, w, j), WindowLen(HalfOf(len, t)) - 20) + b)
  {
    hide *;
    var before, wd := TurnsRun(l, len, rnd, att, t), TurnDrawn(rnd, len, att, t);
    TurnsPrefix(l, len, rnd, att, t);
    TurnSplit(l, len, rnd, att, t);
    HalfAt(before, TurnStart(len, t), wd, att, w, j, b);
    TimesSum(WindowsBefore(len, t), w, 10 * att);
    HalfDrawnAt(rnd, t, HalfOf(len, t), att, WindowCount(HalfOf(len, t)), w);
    WindowFits(HalfOf(len, t));
    PageDrawnAt(rnd, t, w, WindowLen(HalfOf(len, t)), att, j);
    TurnsGrow(l, len, rnd, att, t + 1, n);
  }

  lemma WindowFits(h: nat)
    requires h >= MIN_HALF
    ensures 21 <= WindowLen(h) <= RAND_MAX
    ensures WindowCount(h) == if h >= 8192 then (h - 1) / 4096 else 1
    ensures WindowLen(h) == if h >= 8192 then 4096 else h - 1000
  {
  }

  /** How many touches one call makes: 20 or 2500 for each window of the two halves. */
  lemma RandLength(l: seq<Event>, len: nat, inTransition: bool, rnd: Env)
    requires len >= 2 * MIN_HALF
    ensures |RandLog(l, len, inTransition, rnd)| ==
            |l| + (if inTransition then 20 else 2500) * (WindowCount(len / 2) + WindowCount(len - len / 2))
  {
    hide WindowCount, TurnsRun, WindowsBefore;
    var n := Turns(inTransition);
    TurnsPrefix(l, len, rnd, Attempts(inTransition), n);
    WindowsBeforeAre(len, n / 2);
    TimesIs(WindowsBefore(len, n), 10 * Attempts(inTransition));
  }

  /** What one call touches, touch by touch: 10 turns, of which the even ones visit the lower half of the
      mapping and the odd ones the upper half; (h - 1) / 4096 windows of a page in a half of h bytes, or
      a single one 1000 bytes shorter than a half of less than two pages; 50 runs in each window; 10
      bytes in each run, from the index that rand_lim draws.  In transition 2 turns and 2 runs. */
  lemma RandTouchAt(l: seq<Event>, len: nat, inTransition: bool, rnd: Env, t: nat, w: nat, j: nat, b: nat)
    requires len >= 2042 && t < (if inTransition then 2 else 10) && j < (if inTransition then 2 else 50) && b < 10
    requires var h := if t % 2 == 0 then len / 2 else len - len / 2; w < if h >= 8192 then (h - 1) / 4096 else 1
    ensures var h := if t % 2 == 0 then len / 2 else len - len / 2;
            var lower := if len / 2 >= 8192 then (len / 2 - 1) / 4096 else 1;
            var upper := if len - len / 2 >= 8192 then (len - len / 2 - 1) / 4096 else 1;
            var done := (t + 1) / 2 * lower + t / 2 * upper + w;
            var at := |l| + (if inTransition then 20 else 500) * done + 10 * j + b;
            var log := RandLog(l, len, inTransition, rnd);
            && h >= 1021 && 0 <= at < |log|
            && log[at] == Toggled((if t % 2 == 0 then 0 else len / 2) + 4096 * w
                                  + RandLimValue(rnd(t, w, j), (if h >= 8192 then 4096 else h - 1000) - 20) + b)
  {
    hide TurnsRun, WindowsBefore, RandLimValue, WindowCount, WindowLen, TurnStart;
    var att, n := Attempts(inTransition), Turns(inTransition);
    Halves(len, t);
    WindowFits(len / 2);
    WindowFits(len - len / 2);
    TurnsAt(l, len, rnd, att, n, t, w, j, b);
    TurnsDone(len, t);
    EachWindow(WindowsBefore(len, t) + w, att);
  }

  lemma EachWindow(n: nat, att: nat)
    ensures att == 2 ==> Times(n, 10 * att) == 20 * n
    ensures att == 50 ==> Times(n, 10 * att) == 500 * n
  {
    TimesIs(n, 10 * att);
  }

  lemma Halves(len: nat, t: nat)
    requires len >= 2042
    ensures HalfOf(len, t) == if t % 2 == 0 then len / 2 else len - len / 2
    ensures len / 2 >= MIN_HALF && len - len / 2 >= MIN_HALF
    ensures TurnStart(len, t) == if t % 2 == 0 then 0 else len / 2
  {
  }

  lemma TurnsDone(len: nat, t: nat)
    ensures WindowsBefore(len, t) == (t + 1) / 2 * WindowCount(len / 2) + t / 2 * WindowCount(len - len / 2)
  {
    hide WindowCount, WindowsBefore;
    WindowsBeforeAre(len, t / 2);
    var n, a, b := t / 2, WindowCount(len / 2), WindowCount(len - len / 2);
    assert n * (a + b) == n * a + n * b && (n + 1) * a == n * a + a;
  }
}
