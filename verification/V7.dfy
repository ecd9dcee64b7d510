/**
 * The UUIDv7 generator (src/shared/id/v7.ts; RFC 9562, section 6.2): a millisecond
 * and a 12-bit counter that never move back, whatever the clock does.
 */
module V7 {
  import opened Prelude
  import opened Ids

  /** What one call observes: the wall clock, and ten random bytes unless the source throws. */
  datatype Call = Call(reading: Date, entropy: Option<seq<Byte>>) {
    predicate Valid() { entropy.Some? ==> |entropy.value| == 10 }

    predicate InRange() { reading.At? && 0 <= reading.ms <= MAX_MILLIS }
  }

  datatype State = State(last: Option<int>, counter: int) {
    predicate Valid() {
      0 <= counter < 4096 && (last.Some? ==> 0 <= last.value <= MAX_MILLIS)
    }

    predicate Fresh(c: Call) { c.InRange() && (last.None? || c.reading.ms > last.value) }

    predicate Stalled(c: Call) { c.InRange() && last.Some? && c.reading.ms <= last.value }

    /** Later in (millisecond, counter) order. */
    predicate Before(that: State) {
      && that.last.Some?
      && (last.None? || last.value < that.last.value
          || (last.value == that.last.value && counter < that.counter))
    }
  }

  const INITIAL := State(None, 0)

  /** `((r0 << 8) | r1) & 0x07ff`: the low eleven bits, so a fresh counter leaves room to count. */
  function Seed(random: seq<Byte>): int
    requires |random| >= 2
  {
    (random[0] as int * 256 + random[1] as int) % 2048
  }

  /** The fields of an ID before they are encoded. */
  datatype Fields = Fields(milliseconds: int, counter: int, suffix: seq<Byte>) {
    predicate Valid() {
      0 <= milliseconds <= MAX_MILLIS && 0 <= counter < 4096 && |suffix| == 8
    }

    function Text(): ID
      requires Valid()
    {
      EncodeV7(milliseconds, counter, suffix)
    }
  }

  function Encoded(r: Result<Fields, IdFailure>): Result<ID, IdFailure>
    requires r.Ok? ==> r.value.Valid()
  {
    match r
    case Ok(fields) => Ok(fields.Text())
    case Err(e) => Err(e)
  }

  /** The fields one call issues and the state it leaves. */
  function Next(s: State, c: Call): (r: (Result<Fields, IdFailure>, State))
    requires s.Valid() && c.Valid()
    ensures r.0.Ok? ==> r.0.value.Valid()
  {
    if !c.InRange() then (Err(TimeRange), s)
    else if !s.Fresh(c) && s.counter == 4095 then (Err(Exhausted), s)
    else if c.entropy.None? then (Err(EntropyUnavailable), s)
    else
      var random := c.entropy.value;
      var next :=
        if s.Fresh(c) then State(Some(c.reading.ms), Seed(random)) else State(s.last, s.counter + 1);
      (Ok(Fields(next.last.value, next.counter, random[2..])), next)
  }

  class Generator {
    var last: Option<int>
    var counter: int

    ghost function View(): State
      reads this
    {
      State(last, counter)
    }

    constructor ()
      ensures View() == INITIAL
    {
      last, counter := None, 0;
    }

    method NewId(now: Date, entropy: Option<seq<Byte>>) returns (r: Result<ID, IdFailure>)
      requires View().Valid() && Call(now, entropy).Valid()
      modifies this
      ensures View().Valid()
      ensures var (issued, next) := Next(old(View()), Call(now, entropy));
        r == Encoded(issued) && View() == next
    {
      if now.InvalidDate? || now.ms < 0 || now.ms > MAX_MILLIS {
        return Err(TimeRange);
      }
      var milliseconds := now.ms;
      var later := last.None? || milliseconds > last.value;
      var count := 0;
      if !later {
        milliseconds := last.value;
        if counter == 4095 {
          return Err(Exhausted);
        }
        count := counter + 1;
      }
      if entropy.None? {
        return Err(EntropyUnavailable);
      }
      var random := entropy.value;
      if later {
        count := Seed(random);
      }
      r := Ok(EncodeV7(milliseconds, count, random[2..]));
      last := Some(milliseconds);
      counter := count;
    }
  }

  // ----- Runs -----

  ghost predicate ValidCalls(calls: seq<Call>) {
    forall i | 0 <= i < |calls| :: calls[i].Valid()
  }

  /** The state after the first k calls of a run. */
  ghost function After(calls: seq<Call>, k: nat): (s: State)
    requires ValidCalls(calls) && k <= |calls|
    ensures s.Valid()
  {
    if k == 0 then INITIAL else Next(After(calls, k - 1), calls[k - 1]).1
  }

  ghost function Output(calls: seq<Call>, k: nat): (r: Result<Fields, IdFailure>)
    requires ValidCalls(calls) && k < |calls|
    ensures r.Ok? ==> r.value.Valid()
  {
    Next(After(calls, k), calls[k]).0
  }

  /** A refused call changes nothing; an accepted one moves strictly forward and encodes the new state. */
  lemma NextAdvances(s: State, c: Call)
    requires s.Valid() && c.Valid()
    ensures var (r, t) := Next(s, c);
      && t.Valid()
      && (r.Err? ==> t == s)
      && (r.Ok? ==> s.Before(t) && r.value == Fields(t.last.value, t.counter, c.entropy.value[2..]))
  {
  }

  lemma {:induction false} AfterMonotone(calls: seq<Call>, i: nat, j: nat)
    requires ValidCalls(calls) && i <= j <= |calls|
    ensures After(calls, i) == After(calls, j) || After(calls, i).Before(After(calls, j))
    decreases j
  {
    if i < j {
      AfterMonotone(calls, i, j - 1);
      NextAdvances(After(calls, j - 1), calls[j - 1]);
    }
  }

  /** Any two IDs of one run increase in issue order, as strings, whatever the clock read in between. */
  lemma StrictlyIncreasing(calls: seq<Call>, i: nat, j: nat)
    requires ValidCalls(calls) && i < j < |calls|
    requires Output(calls, i).Ok? && Output(calls, j).Ok?
    ensures StringLess(Output(calls, i).value.Text(), Output(calls, j).value.Text())
  {
    AfterMonotone(calls, i + 1, j);
    NextAdvances(After(calls, i), calls[i]);
    NextAdvances(After(calls, j), calls[j]);
    TextOrder(Output(calls, i).value, Output(calls, j).value);
  }

  lemma TextOrder(a: Fields, b: Fields)
    requires a.Valid() && b.Valid()
    requires a.milliseconds < b.milliseconds || (a.milliseconds == b.milliseconds && a.counter < b.counter)
    ensures StringLess(a.Text(), b.Text())
  {
    EncodeV7Order(a.milliseconds, a.counter, a.suffix, b.milliseconds, b.counter, b.suffix);
  }

  /** The greatest clock reading among the successful calls before k. */
  ghost function GreatestReading(calls: seq<Call>, k: nat): Option<int>
    requires ValidCalls(calls) && k <= |calls|
  {
    if k == 0 then None
    else
      var before := GreatestReading(calls, k - 1);
      if Output(calls, k - 1).Err? then before
      else if before.None? || before.value < calls[k - 1].reading.ms then Some(calls[k - 1].reading.ms)
      else before
  }

  lemma {:induction false} LastIsGreatestReading(calls: seq<Call>, k: nat)
    requires ValidCalls(calls) && k <= |calls|
    ensures After(calls, k).last == GreatestReading(calls, k)
    decreases k
  {
    if k > 0 {
      LastIsGreatestReading(calls, k - 1);
    }
  }

  /** Every ID issued is canonical, has version 7 and carries the greatest reading accepted so far. */
  lemma IssuedIdsDecode(calls: seq<Call>, k: nat)
    requires ValidCalls(calls) && k < |calls| && Output(calls, k).Ok?
    ensures var id := Output(calls, k).value.Text();
      IsId(id) && Version(id) == 7 && UnixMillis(id) == GreatestReading(calls, k + 1)
  {
    var t := After(calls, k + 1);
    NextAdvances(After(calls, k), calls[k]);
    LastIsGreatestReading(calls, k + 1);
    var f := Output(calls, k).value;
    EncodeV7Decodes(f.milliseconds, f.counter, f.suffix);
  }

  /**
   * Within one stalled millisecond, exactly the first 4095 - counter calls succeed: call k is the
   * (k - from)-th since a state, and every call in between reads no later and has entropy.
   */
  lemma {:induction false} StalledCapacity(calls: seq<Call>, from: nat, k: nat)
    requires ValidCalls(calls) && from <= k < |calls|
    requires forall i | from <= i <= k :: After(calls, from).Stalled(calls[i]) && calls[i].entropy.Some?
    ensures After(calls, k) == After(calls, from).(counter := Min(4095, After(calls, from).counter + k - from))
    ensures Output(calls, k).Ok? <==> k - from < 4095 - After(calls, from).counter
    decreases k
  {
    if from < k {
      StalledCapacity(calls, from, k - 1);
    }
  }

  lemma FreshStep(s: State, c: Call)
    requires s.Valid() && c.Valid() && s.Fresh(c) && c.entropy.Some?
    ensures var (r, t) := Next(s, c); r.Ok? && t.last == Some(c.reading.ms) && t.counter <= 2047
  {
    assert 0 <= Seed(c.entropy.value) < 2048;
  }

  lemma AfterFresh(calls: seq<Call>, at: nat)
    requires ValidCalls(calls) && at < |calls| && After(calls, at).Fresh(calls[at]) && calls[at].entropy.Some?
    ensures Output(calls, at).Ok?
    ensures var t := After(calls, at + 1); t.last == Some(calls[at].reading.ms) && t.counter <= 2047
  {
    FreshStep(After(calls, at), calls[at]);
  }

  /** A fresh millisecond yields at least 2049 IDs: the one that opened it and 2048 stalled ones. */
  lemma FreshMillisecondYields2049(calls: seq<Call>, at: nat, k: nat)
    requires ValidCalls(calls) && at <= k < |calls| && k - at <= 2048
    requires After(calls, at).Fresh(calls[at])
    requires forall i | at <= i <= k :: calls[i].entropy.Some?
    requires forall i | at < i <= k :: calls[i].InRange() && calls[i].reading.ms <= calls[at].reading.ms
    ensures Output(calls, k).Ok?
  {
    AfterFresh(calls, at);
    if at < k {
      var t := After(calls, at + 1);
      forall i | at + 1 <= i <= k
        ensures t.Stalled(calls[i]) && calls[i].entropy.Some?
      {
      }
      StalledCapacity(calls, at + 1, k);
      assert k - (at + 1) < 4095 - t.counter;
    }
  }
}
