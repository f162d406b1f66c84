/** The two random samplers, over the stream of raw values that rand() yields after one srand().

    Both samplers reseed on entry, so one call reads one stream from its start.  A stream is the
    oracle here: nothing is known of it beyond the range of rand(), and for RandLim that it does
    not stay in its upper half forever, which is what an unbounded retry needs to stop. */
module Samplers {
  const RAND_MAX: int := 0x7fff_ffff
  const RETRIES: nat := 128
  const TWO_64: int := 0x1_0000_0000_0000_0000

  type Raw = r: int | 0 <= r <= RAND_MAX

  type Raws = nat -> Raw

  /** The values of rand() in order, and a position from which the lower half is reached. */
  datatype Draws = Draws(raw: Raws, low: nat)

  type Stream = s: Draws | s.raw(s.low) < RAND_MAX / 2 witness Draws((n: nat) => 0, 0)

  // -------------------------------------------------------------- arithmetic

  lemma MulLe(a: int, b: int, c: int)
    requires a <= b && 0 <= c
    ensures a * c <= b * c
  {
  }

  lemma DivMod(r: int, m: int)
    requires m >= 1
    ensures r == r / m * m + r % m && 0 <= r % m < m
    ensures r >= 0 ==> r / m >= 0
  {
  }

  lemma Quotient(r: nat, m: int)
    requires m >= 1
    ensures r / m >= 0
  {
  }

  lemma QuotientRemainder(m: int, q: int, t: int)
    requires m >= 1 && 0 <= t < m
    ensures (q * m + t) / m == q && (q * m + t) % m == t
  {
    var r := q * m + t;
    DivMod(r, m);
    if r / m > q {
      MulLe(q + 1, r / m, m);
    } else if r / m < q {
      MulLe(r / m + 1, q, m);
    }
  }

  // ---------------------------------------------------------------- rand_lim

  function Divisor(limit: int): (d: int)
    requires 1 <= limit < RAND_MAX
    ensures d >= 1
    ensures limit * d <= RAND_MAX - d
  {
    DivisorBound(limit);
    RAND_MAX / (limit + 1)
  }

  lemma DivisorBound(limit: int)
    requires 1 <= limit < RAND_MAX
    ensures RAND_MAX / (limit + 1) >= 1
    ensures limit * (RAND_MAX / (limit + 1)) <= RAND_MAX - RAND_MAX / (limit + 1)
  {
    DivMod(RAND_MAX, limit + 1);
    if RAND_MAX / (limit + 1) < 1 {
      MulLe(RAND_MAX / (limit + 1), 0, limit + 1);
    }
  }

  ghost predicate Accepted(raw: Raw, limit: int)
    requires 1 <= limit < RAND_MAX
  {
    raw / Divisor(limit) < limit
  }

  /** Acceptance is a threshold on the raw value. */
  lemma AcceptedBelow(raw: Raw, limit: int)
    requires 1 <= limit < RAND_MAX
    ensures Accepted(raw, limit) <==> raw < limit * Divisor(limit)
  {
    var d := Divisor(limit);
    DivMod(raw, d);
    if raw / d < limit {
      MulLe(raw / d + 1, limit, d);
    } else {
      MulLe(limit, raw / d, d);
    }
  }

  /** Every limit accepts the lower half of the raw range. */
  lemma LowHalfAccepted(raw: Raw, limit: int)
    requires 1 <= limit < RAND_MAX
    requires raw < RAND_MAX / 2
    ensures Accepted(raw, limit)
  {
    var d := Divisor(limit);
    DivMod(RAND_MAX, limit + 1);
    ProductAtLeastSum(limit, d);
    AcceptedBelow(raw, limit);
  }

  lemma ProductAtLeastSum(a: int, b: int)
    requires a >= 1 && b >= 1
    ensures a + b <= a * b + 1
    ensures b * (a + 1) == a * b + b
  {
    MulLe(0, a - 1, b - 1);
    assert (a - 1) * (b - 1) == a * b - a - b + 1;
  }

  ghost function Scan(rand: Raws, limit: int, n: nat, bound: nat): (k: nat)
    requires 1 <= limit < RAND_MAX
    requires n <= bound && Accepted(rand(bound), limit)
    ensures n <= k <= bound && Accepted(rand(k), limit)
    ensures forall m | n <= m < k :: !Accepted(rand(m), limit)
    decreases bound - n
  {
    if Accepted(rand(n), limit) then n else Scan(rand, limit, n + 1, bound)
  }

  /** The value of the first draw that is kept, given a position by which one is. */
  ghost function LimValue(rand: Raws, limit: int, bound: nat): (r: nat)
    requires 1 <= limit < RAND_MAX && Accepted(rand(bound), limit)
    ensures r < limit
  {
    var k := Scan(rand, limit, 0, bound);
    DivMod(rand(k), Divisor(limit));
    rand(k) / Divisor(limit)
  }

  /** The position of the first draw the retry loop keeps. */
  ghost function FirstAccepted(rand: Stream, limit: int): (k: nat)
    requires 1 <= limit < RAND_MAX
    ensures Accepted(rand.raw(k), limit)
    ensures forall m | 0 <= m < k :: !Accepted(rand.raw(m), limit)
  {
    LowHalfAccepted(rand.raw(rand.low), limit);
    Scan(rand.raw, limit, 0, rand.low)
  }

  ghost function RandLimValue(rand: Stream, limit: int): (r: nat)
    requires 1 <= limit < RAND_MAX
    ensures r < limit
  {
    LowHalfAccepted(rand.raw(rand.low), limit);
    LimValue(rand.raw, limit, rand.low)
  }

  method RandLim(rand: Stream, limit: int) returns (r: nat)
    requires 1 <= limit < RAND_MAX
    ensures r < limit
    ensures r == RandLimValue(rand, limit)
  {
    var divisor := Divisor(limit);
    ghost var first := FirstAccepted(rand, limit);
    var n: nat := 0;
    Quotient(rand.raw(n), divisor);
    r := rand.raw(n) / divisor;
    while r >= limit
      invariant r == rand.raw(n) / divisor
      invariant n <= first && forall m | 0 <= m < n :: !Accepted(rand.raw(m), limit)
      decreases first - n
    {
      n := n + 1;
      Quotient(rand.raw(n), divisor);
      r := rand.raw(n) / divisor;
    }
    assert n == first;
  }

  /** The result of rand_lim, in raw values alone. */
  lemma LimFirst(rand: Stream, limit: int, k: nat)
    requires 1 <= limit < 2147483647
    requires var d := 2147483647 / (limit + 1);
             d >= 1 && rand.raw(k) / d < limit && forall m: nat | m < k :: rand.raw(m) / d >= limit
    ensures RandLimValue(rand, limit) == rand.raw(k) / (2147483647 / (limit + 1))
  {
    DivisorBound(limit);
    assert Divisor(limit) == 2147483647 / (limit + 1);
    var first := FirstAccepted(rand, limit);
    assert Accepted(rand.raw(k), limit) && !(first < k) && !(k < first);
  }

  /** A stream on which rand_lim returns x. */
  function StreamFor(limit: int, x: nat): (rand: Stream)
    requires 1 <= limit < RAND_MAX && x < limit
    ensures rand.raw(0) == x * Divisor(limit)
  {
    var d := Divisor(limit);
    MulLe(x, limit, d);
    MulLe(0, x, d);
    Draws((n: nat) => if n == 0 then x * d else 0, 1)
  }

  /** No value below the limit is out of reach of rand_lim. */
  lemma LimReaches(limit: int, x: nat)
    requires 1 <= limit < RAND_MAX && x < limit
    ensures RandLimValue(StreamFor(limit, x), limit) == x
  {
    QuotientRemainder(Divisor(limit), x, 0);
  }

  /** Exchanges the raw values that rand_lim keeps for v and for w, and fixes every other one. */
  function LimExchange(limit: int, v: nat, w: nat, r: Raw): (x: Raw)
    requires 1 <= limit < RAND_MAX && v < limit && w < limit
    ensures x / Divisor(limit) == if r / Divisor(limit) == v then w else if r / Divisor(limit) == w then v
                                  else r / Divisor(limit)
    ensures x % Divisor(limit) == r % Divisor(limit)
  {
    var d := Divisor(limit);
    DivMod(r, d);
    if r / d == v then LimMoved(limit, w, r % d); w * d + r % d
    else if r / d == w then LimMoved(limit, v, r % d); v * d + r % d
    else r
  }

  lemma LimMoved(limit: int, v: nat, t: nat)
    requires 1 <= limit < RAND_MAX && v < limit && t < Divisor(limit)
    ensures 0 <= v * Divisor(limit) + t <= RAND_MAX
    ensures (v * Divisor(limit) + t) / Divisor(limit) == v && (v * Divisor(limit) + t) % Divisor(limit) == t
  {
    MulLe(v + 1, limit, Divisor(limit));
    MulLe(0, v, Divisor(limit));
    QuotientRemainder(Divisor(limit), v, t);
  }

  lemma LimExchangeTwice(limit: int, v: nat, w: nat, r: Raw)
    requires 1 <= limit < RAND_MAX && v < limit && w < limit
    ensures LimExchange(limit, v, w, LimExchange(limit, v, w, r)) == r
    ensures Accepted(LimExchange(limit, v, w, r), limit) <==> Accepted(r, limit)
  {
    var x := LimExchange(limit, v, w, r);
    DivMod(r, Divisor(limit));
    DivMod(x, Divisor(limit));
    DivMod(LimExchange(limit, v, w, x), Divisor(limit));
  }

  function LimRenamed(rand: Raws, limit: int, v: nat, w: nat): Raws
    requires 1 <= limit < RAND_MAX && v < limit && w < limit
  {
    (n: nat) => LimExchange(limit, v, w, rand(n))
  }

  lemma {:induction false} ScanAlike(f: Raws, g: Raws, limit: int, n: nat, bound: nat)
    requires 1 <= limit < RAND_MAX && n <= bound && Accepted(f(bound), limit) && Accepted(g(bound), limit)
    requires forall m: nat :: Accepted(f(m), limit) <==> Accepted(g(m), limit)
    ensures Scan(f, limit, n, bound) == Scan(g, limit, n, bound)
    decreases bound - n
  {
    hide Accepted;
    if !Accepted(f(n), limit) {
      ScanAlike(f, g, limit, n + 1, bound);
    }
  }

  /** Fairness of whole calls of rand_lim: renaming is its own inverse, keeps the position of the draw
      that is kept, and exchanges the results v and w. */
  lemma LimSymmetric(rand: Stream, limit: int, v: nat, w: nat)
    requires 1 <= limit < RAND_MAX && v < limit && w < limit
    ensures var renamed := LimRenamed(rand.raw, limit, v, w);
            && (forall n: nat :: LimRenamed(renamed, limit, v, w)(n) == rand.raw(n))
            && Accepted(rand.raw(rand.low), limit) && Accepted(renamed(rand.low), limit)
            && Scan(renamed, limit, 0, rand.low) == FirstAccepted(rand, limit)
            && var x := RandLimValue(rand, limit);
               LimValue(renamed, limit, rand.low) == if x == v then w else if x == w then v else x
  {
    hide Accepted, LimExchange, Scan;
    var renamed := LimRenamed(rand.raw, limit, v, w);
    LowHalfAccepted(rand.raw(rand.low), limit);
    forall n: nat
      ensures LimRenamed(renamed, limit, v, w)(n) == rand.raw(n)
      ensures Accepted(renamed(n), limit) <==> Accepted(rand.raw(n), limit)
    {
      LimExchangeTwice(limit, v, w, rand.raw(n));
    }
    ScanAlike(rand.raw, renamed, limit, 0, rand.low);
  }

  // --------------------------------------------------------------- rand_intr

  /** The largest multiple of range that is at most RAND_MAX. */
  function Limit(range: int): (l: int)
    requires 1 <= range
    ensures 0 <= l <= RAND_MAX && l == RAND_MAX / range * range
    ensures RAND_MAX - l < range
  {
    DivMod(RAND_MAX, range);
    MulLe(0, RAND_MAX / range, range);
    RAND_MAX - RAND_MAX % range
  }

  /** The draw that rand_intr ends on: the first one below limit, or the last of its 129. */
  function Settled(raw: Raws, limit: int, n: nat): (k: nat)
    requires n <= RETRIES
    ensures n <= k <= RETRIES
    ensures forall m | n <= m < k :: raw(m) >= limit
    ensures raw(k) < limit || k == RETRIES
    decreases RETRIES - n
  {
    if raw(n) >= limit && n < RETRIES then Settled(raw, limit, n + 1) else n
  }

  function RandIntrValue(rand: Raws, begin: nat, end: nat): (r: nat)
    requires begin <= end && end - begin + 1 < TWO_64
    ensures begin <= r <= end
  {
    var range := end - begin + 1;
    rand(Settled(rand, Limit(range), 0)) % range + begin
  }

  lemma SettledIs(rand: Raws, limit: int, n: nat)
    requires n <= RETRIES && forall m | 0 <= m < n :: rand(m) >= limit
    requires rand(n) < limit || n == RETRIES
    ensures n == Settled(rand, limit, 0)
  {
  }

  lemma ValueAt(rand: Raws, begin: nat, end: nat, n: nat)
    requires begin <= end && end - begin + 1 < TWO_64 && n == Settled(rand, Limit(end - begin + 1), 0)
    ensures rand(n) % (end - begin + 1) + begin == RandIntrValue(rand, begin, end)
    ensures begin <= RandIntrValue(rand, begin, end) <= end
  {
    hide Limit, Settled;
  }

  method RandIntr(rand: Raws, begin: nat, end: nat) returns (r: nat)
    requires begin <= end && end - begin + 1 < TWO_64
    ensures begin <= r <= end
    ensures r == RandIntrValue(rand, begin, end)
  {
    hide Limit, Settled, RandIntrValue;
    var range := end - begin + 1;
    var limit := Limit(range);
    var upper := RETRIES;
    var n: nat := 0;
    var randVal := rand(n);
    while randVal >= limit && upper != 0
      invariant n + upper == RETRIES && randVal == rand(n)
      invariant forall m | 0 <= m < n :: rand(m) >= limit
      decreases upper
    {
      n := n + 1;
      randVal := rand(n);
      upper := upper - 1;
    }
    SettledIs(rand, limit, n);
    ValueAt(rand, begin, end, n);
    r := randVal % range + begin;
  }

  /** The result of rand_intr, in raw values alone: the first draw below the limit, or the last of 129. */
  lemma IntrFirst(rand: Raws, begin: nat, end: nat, k: nat)
    requires begin <= end && end - begin + 1 < TWO_64
    requires var limit := 2147483647 / (end - begin + 1) * (end - begin + 1);
             && (forall m: nat | m < k :: rand(m) >= limit)
             && k <= 128 && (rand(k) < limit || k == 128)
    ensures RandIntrValue(rand, begin, end) == rand(k) % (end - begin + 1) + begin
  {
    SettledIs(rand, Limit(end - begin + 1), k);
  }

  // ---------------------------------------------------------------- fairness

  ghost function Residues(range: int, v: int, limit: int): set<int>
    requires range >= 1
  {
    set r: int | 0 <= r < limit && r % range == v
  }

  lemma {:induction false} ResidueCount(range: int, v: int, q: nat)
    requires 0 <= v < range
    ensures |Residues(range, v, q * range)| == q
  {
    if q == 0 {
      assert Residues(range, v, 0) == {};
    } else {
      var low := (q - 1) * range;
      assert q * range == low + range;
      forall r | low <= r < low + range ensures r % range == r - low {
        QuotientRemainder(range, q - 1, r - low);
      }
      assert Residues(range, v, q * range) == Residues(range, v, low) + {low + v};
      ResidueCount(range, v, q - 1);
    }
  }

  /** rand_intr: each result has the same number of raw values that it is kept for. */
  lemma IntrFair(begin: nat, end: nat, v: nat)
    requires begin <= v <= end && end - begin + 1 <= RAND_MAX
    ensures var range := end - begin + 1;
            |set r: int | 0 <= r < Limit(range) && r % range + begin == v| == RAND_MAX / range
  {
    var range := end - begin + 1;
    assert (set r: int | 0 <= r < Limit(range) && r % range + begin == v)
        == Residues(range, v - begin, RAND_MAX / range * range);
    ResidueCount(range, v - begin, RAND_MAX / range);
  }

  ghost function Interval(lo: int, n: nat): (s: set<int>)
    ensures |s| == n
    ensures forall r :: r in s <==> lo <= r < lo + n
  {
    if n == 0 then {} else Interval(lo, n - 1) + {lo + n - 1}
  }

  lemma BucketOf(d: int, v: int, r: int)
    requires d >= 1
    ensures r / d == v <==> v * d <= r < v * d + d
  {
    DivMod(r, d);
    if v * d <= r < v * d + d {
      QuotientRemainder(d, v, r - v * d);
    }
  }

  lemma Bucket(d: int, v: nat)
    requires d >= 1 && v * d + d <= RAND_MAX + 1
    ensures (set r: int | 0 <= r <= RAND_MAX && r / d == v) == Interval(v * d, d)
  {
    MulLe(0, v, d);
    forall r: int ensures r / d == v <==> v * d <= r < v * d + d { BucketOf(d, v, r); }
  }

  /** rand_lim: each result has the same number of raw values, ... */
  lemma LimFair(limit: int, v: nat)
    requires 1 <= limit < RAND_MAX && v < limit
    ensures |set r: int | 0 <= r <= RAND_MAX && r / Divisor(limit) == v| == RAND_MAX / (limit + 1)
  {
    MulLe(v + 1, limit, Divisor(limit));
    Bucket(Divisor(limit), v);
  }

  /** ... and all the raw values above these are rejected. */
  lemma LimAccepts(limit: int)
    requires 1 <= limit < RAND_MAX
    ensures |set r: int | 0 <= r <= RAND_MAX && r / Divisor(limit) < limit| == limit * (RAND_MAX / (limit + 1))
  {
    var d := Divisor(limit);
    MulLe(0, limit, d);
    forall r: Raw ensures r / d < limit <==> r < limit * d { AcceptedBelow(r, limit); }
    assert (set r: int | 0 <= r <= RAND_MAX && r / d < limit) == Interval(0, limit * d);
  }

  /** Replacing the remainder of a raw value below the limit stays below it. */
  lemma ExchangeBounds(range: int, v: nat, r: Raw)
    requires 1 <= range <= RAND_MAX && v < range && r < Limit(range)
    ensures r == r / range * range + r % range
    ensures 0 <= r / range * range + v < Limit(range)
    ensures (r / range * range + v) % range == v
  {
    DivMod(r, range);
    var q := RAND_MAX / range;
    if r / range >= q {
      MulLe(q, r / range, range);
    }
    MulLe(r / range + 1, q, range);
    MulLe(0, r / range, range);
    QuotientRemainder(range, r / range, v);
  }

  /** Exchanges the raw values that two results v and w are kept for, and fixes every other one. */
  function Exchange(range: int, v: nat, w: nat, r: Raw): (x: Raw)
    requires 1 <= range <= RAND_MAX && v < range && w < range
    ensures r >= Limit(range) ==> x == r
    ensures r < Limit(range) ==>
      x < Limit(range) && x % range == if r % range == v then w else if r % range == w then v else r % range
    ensures r < Limit(range) ==> x - x % range == r - r % range
  {
    if r >= Limit(range) then r
    else
      ExchangeBounds(range, v, r);
      ExchangeBounds(range, w, r);
      var low := r / range * range;
      if r % range == v then low + w else if r % range == w then low + v else r
  }

  /** The raw values with those that v and w are kept for exchanged, one draw at a time. */
  function Renamed(rand: Raws, begin: nat, end: nat, v: nat, w: nat): Raws
    requires begin <= v <= end && begin <= w <= end && end - begin + 1 <= RAND_MAX
  {
    (n: nat) => Exchange(end - begin + 1, v - begin, w - begin, rand(n))
  }

  /** Fairness of whole calls of rand_intr: renaming is its own inverse, and turns every sequence of
      raw values that is kept for v into one that is kept for w, at the same draw. */
  lemma IntrSymmetric(rand: Raws, begin: nat, end: nat, v: nat, w: nat)
    requires begin <= v <= end && begin <= w <= end && end - begin + 1 <= RAND_MAX
    ensures var renamed := Renamed(rand, begin, end, v, w);
            var k := Settled(rand, Limit(end - begin + 1), 0);
            && (forall n: nat :: Renamed(renamed, begin, end, v, w)(n) == rand(n))
            && Settled(renamed, Limit(end - begin + 1), 0) == k
            && (rand(k) < Limit(end - begin + 1) && RandIntrValue(rand, begin, end) == v
                ==> RandIntrValue(renamed, begin, end) == w)
  {
    SettledAlike(rand, Renamed(rand, begin, end, v, w), Limit(end - begin + 1), 0);
  }

  lemma {:induction false} SettledAlike(f: Raws, g: Raws, limit: int, n: nat)
    requires n <= RETRIES && forall m: nat :: f(m) < limit <==> g(m) < limit
    ensures Settled(f, limit, n) == Settled(g, limit, n)
    decreases RETRIES - n
  {
    if f(n) >= limit && n < RETRIES {
      SettledAlike(f, g, limit, n + 1);
    }
  }

  /** When all 129 draws are rejected the last one is used all the same: the result then falls in
      the lowest RAND_MAX % range + 1 values, which is where rand_intr is not fair.  A range above
      RAND_MAX has Limit 0, rejects every draw and so always ends here. */
  lemma IntrExhausted(rand: Raws, begin: nat, end: nat)
    requires begin <= end && end - begin + 1 < TWO_64
    requires forall n | 0 <= n <= RETRIES :: rand(n) >= Limit(end - begin + 1)
    ensures RandIntrValue(rand, begin, end) == begin + rand(RETRIES) - Limit(end - begin + 1)
    ensures RandIntrValue(rand, begin, end) <= begin + RAND_MAX % (end - begin + 1)
  {
    var range := end - begin + 1;
    QuotientRemainder(range, RAND_MAX / range, rand(RETRIES) - Limit(range));
  }
}
