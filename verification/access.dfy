/** Mapped memory as bytes, the touch that every access pattern is made of, and the log of
    accesses from which the contents of a mapping can be recomputed. */
module Access {
  type Byte = b: int | 0 <= b < 256

  const MARK: Byte := 0x0f

  /** touch_simple: reads, then writes the other of the two marks. */
  function Toggle(b: Byte): Byte {
    if b != MARK then MARK else 0
  }

  function ToggleN(b: Byte, n: nat): Byte {
    if n == 0 then b else Toggle(ToggleN(b, n - 1))
  }

  /** Only the parity of the number of touches and the first value matter. */
  lemma {:induction false} ToggleParity(b: Byte, n: nat)
    ensures b == 0x0f ==> ToggleN(b, n) == if n % 2 == 0 then 0x0f else 0
    ensures b != 0x0f && n > 0 ==> ToggleN(b, n) == if n % 2 == 0 then 0 else 0x0f
  {
    if n > 0 {
      ToggleParity(b, n - 1);
    }
  }

  datatype Event = Toggled(at: nat) | Cleared(at: nat)

  predicate Within(log: seq<Event>, n: nat) {
    forall e | e in log :: e.at < n
  }

  function Step(m: seq<Byte>, e: Event): (r: seq<Byte>)
    requires e.at < |m|
    ensures |r| == |m|
  {
    m[e.at := if e.Toggled? then Toggle(m[e.at]) else 0]
  }

  /** The contents after the first n accesses of log, in order. */
  function AfterN(m: seq<Byte>, log: seq<Event>, n: nat): (r: seq<Byte>)
    requires Within(log, |m|) && n <= |log|
    ensures |r| == |m|
  {
    if n == 0 then m else Step(AfterN(m, log, n - 1), log[n - 1])
  }

  function After(m: seq<Byte>, log: seq<Event>): (r: seq<Byte>)
    requires Within(log, |m|)
    ensures |r| == |m|
  {
    AfterN(m, log, |log|)
  }

  lemma {:induction false} AfterPrefix(m: seq<Byte>, a: seq<Event>, b: seq<Event>, n: nat)
    requires Within(a, |m|) && Within(b, |m|) && n <= |a| && a <= b
    ensures AfterN(m, a, n) == AfterN(m, b, n)
  {
    if n > 0 {
      AfterPrefix(m, a, b, n - 1);
    }
  }

  lemma AfterSnoc(m: seq<Byte>, log: seq<Event>, e: Event)
    requires Within(log, |m|) && e.at < |m|
    ensures Within(log + [e], |m|)
    ensures After(m, log + [e]) == Step(After(m, log), e)
  {
    AfterPrefix(m, log, log + [e], |log|);
  }

  ghost predicate TogglesOnly(log: seq<Event>) {
    forall e | e in log :: e.Toggled?
  }

  /** How often a log touches byte k. */
  ghost function Hits(log: seq<Event>, k: nat): nat {
    multiset(log)[Toggled(k)]
  }

  lemma HitsConcat(a: seq<Event>, b: seq<Event>, k: nat)
    ensures Hits(a + b, k) == Hits(a, k) + Hits(b, k)
  {
  }

  /** Each byte is toggled once per hit, whatever the order of the accesses. */
  lemma AfterAt(m: seq<Byte>, log: seq<Event>, k: nat)
    requires Within(log, |m|) && TogglesOnly(log) && k < |m|
    ensures After(m, log)[k] == ToggleN(m[k], Hits(log, k))
  {
    AfterNAt(m, log, |log|, k);
    assert log[..|log|] == log;
  }

  lemma {:induction false} AfterNAt(m: seq<Byte>, log: seq<Event>, n: nat, k: nat)
    requires Within(log, |m|) && TogglesOnly(log) && k < |m| && n <= |log|
    ensures AfterN(m, log, n)[k] == ToggleN(m[k], Hits(log[..n], k))
  {
    if n > 0 {
      AfterNAt(m, log, n - 1, k);
      assert log[..n] == log[..n - 1] + [log[n - 1]];
      assert log[n - 1] in log;
    }
  }

  /** One mapping.  Its bytes change only through Touch and Clear, and the ghost log says how. */
  class Region {
    const data: array<Byte>
    ghost const initial: seq<Byte>
    ghost var log: seq<Event>

    ghost predicate Valid()
      reads this, data
    {
      |initial| == data.Length && Within(log, data.Length) && data[..] == After(initial, log)
    }

    constructor (size: nat)
      ensures Valid() && fresh(data) && data.Length == size && log == []
    {
      var d := new Byte[size];
      data := d;
      initial := d[..];
      log := [];
    }

    method Touch(i: nat)
      requires Valid() && i < data.Length
      modifies data, this`log
      ensures Valid() && log == old(log) + [Toggled(i)]
    {
      if data[i] != MARK {
        data[i] := MARK;
      } else {
        data[i] := 0;
      }
      AfterSnoc(initial, log, Toggled(i));
      log := log + [Toggled(i)];
    }

    method Clear(i: nat)
      requires Valid() && i < data.Length
      modifies data, this`log
      ensures Valid() && log == old(log) + [Cleared(i)]
    {
      data[i] := 0;
      AfterSnoc(initial, log, Cleared(i));
      log := log + [Cleared(i)];
    }
  }
}
