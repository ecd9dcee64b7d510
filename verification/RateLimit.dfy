/** Fixed-window rate limiting and its two stores (src/platform/ratelimit/in-memory-store.ts, postgres/store.ts). */
module RateLimit {
  import opened Prelude

  const MAX_KEY_LENGTH := 256
  const MAX_LIMIT := 1000000
  const MAX_WINDOW_MS := 86400000
  const MAX_WINDOWS := 10000

  datatype Bucket = Bucket(key: string, windowMs: int, limit: int)
  {
    predicate Valid() {
      1 <= |key| <= MAX_KEY_LENGTH && 1 <= limit <= MAX_LIMIT && 1000 <= windowMs <= MAX_WINDOW_MS
    }
  }

  datatype Call = Call(bucket: Bucket, now: int)

  datatype Decision = Decision(allowed: bool, limit: int, remaining: int, resetAt: int, retryAfterMs: int)

  datatype Failure = InvalidConfiguration

  function WindowStart(now: int, windowMs: int): int
    requires windowMs > 0
  {
    now / windowMs * windowMs
  }

  function StartOf(call: Call): int
    requires call.bucket.Valid()
  {
    WindowStart(call.now, call.bucket.windowMs)
  }

  /** What the count of a call's window says about the call. */
  function Decide(call: Call, count: int): Decision
    requires call.bucket.Valid()
  {
    var resetAt := StartOf(call) + call.bucket.windowMs;
    var allowed := count <= call.bucket.limit;
    Decision(allowed, call.bucket.limit, Max(0, call.bucket.limit - count), resetAt,
             if allowed then 0 else Max(0, resetAt - call.now))
  }

  lemma WindowBounds(now: int, windowMs: int)
    requires windowMs > 0
    ensures WindowStart(now, windowMs) <= now < WindowStart(now, windowMs) + windowMs
  {
  }

  lemma WindowMonotone(a: int, b: int, windowMs: int)
    requires windowMs > 0 && a <= b
    ensures WindowStart(a, windowMs) <= WindowStart(b, windowMs)
  {
    WindowBounds(a, windowMs);
    WindowBounds(b, windowMs);
    var p, q := a / windowMs, b / windowMs;
    assert p > q ==> p * windowMs >= (q + 1) * windowMs;
  }

  // ----- Composite keys -----

  function Decimal(n: nat): (s: string)
    ensures s != "" && forall i | 0 <= i < |s| :: IsDigit(s[i])
  {
    (if n < 10 then "" else Decimal(n / 10)) + [ '0' + (n % 10) as char ]
  }

  function Numeric(s: string): int {
    if s == "" then 0 else Numeric(s[..|s| - 1]) * 10 + (s[|s| - 1] as int - '0' as int)
  }

  lemma {:induction false} DecimalReads(n: nat)
    ensures Numeric(Decimal(n)) == n
  {
    var d := Decimal(n);
    assert d[..|d| - 1] == if n < 10 then "" else Decimal(n / 10);
    if n >= 10 { DecimalReads(n / 10); }
  }

  /** `${key}:${windowMs}:${limit}` */
  function Composite(b: Bucket): string
    requires b.Valid()
  {
    b.key + (":" + (Decimal(b.windowMs) + (":" + Decimal(b.limit))))
  }

  /** The end of a text is decided by its last colon. */
  lemma LastColon(a: string, x: string, b: string, y: string)
    requires a + (":" + x) == b + (":" + y) && ':' !in x && ':' !in y
    ensures a == b && x == y
  {
    var s, t := a + (":" + x), b + (":" + y);
    assert s[|a|] == ':' && t[|b|] == ':';
    assert forall i | |a| < i < |s| :: s[i] == x[i - |a| - 1];
    assert forall i | |b| < i < |t| :: t[i] == y[i - |b| - 1];
    assert a == s[..|a|] && b == s[..|b|] && x == s[|a| + 1..] && y == s[|b| + 1..];
  }

  /** Different buckets never share a stored key, whatever colons the caller's keys contain. */
  lemma CompositeInjective(a: Bucket, b: Bucket)
    requires a.Valid() && b.Valid() && Composite(a) == Composite(b)
    ensures a == b
  {
    var aw, bw := Decimal(a.windowMs), Decimal(b.windowMs);
    var al, bl := Decimal(a.limit), Decimal(b.limit);
    assert Composite(a) == (a.key + (":" + aw)) + (":" + al);
    assert Composite(b) == (b.key + (":" + bw)) + (":" + bl);
    LastColon(a.key + (":" + aw), al, b.key + (":" + bw), bl);
    LastColon(a.key, aw, b.key, bw);
    DecimalReads(a.windowMs);
    DecimalReads(b.windowMs);
    DecimalReads(a.limit);
    DecimalReads(b.limit);
  }

  // ----- The unbounded counter -----

  /** How many calls fell into one window of a bucket. */
  function Count(calls: seq<Call>, b: Bucket, start: int): (n: nat)
    requires b.Valid()
  {
    if calls == [] then 0
    else
      var last := calls[|calls| - 1];
      Count(calls[..|calls| - 1], b, start) + (if last.bucket == b && StartOf(last) == start then 1 else 0)
  }

  lemma CountNext(calls: seq<Call>, call: Call, b: Bucket, start: int)
    requires b.Valid()
    ensures Count(calls + [call], b, start)
         == Count(calls, b, start) + (if call.bucket == b && StartOf(call) == start then 1 else 0)
  {
    assert (calls + [call])[..|calls|] == calls;
  }

  /** Valid calls in the order of their clock readings. */
  ghost predicate Ordered(calls: seq<Call>) {
    && (forall i | 0 <= i < |calls| :: calls[i].bucket.Valid())
    && (forall i, j | 0 <= i < j < |calls| :: calls[i].now <= calls[j].now)
  }

  /** One more call, no earlier than the ones before. */
  ghost predicate Follows(calls: seq<Call>, call: Call) {
    Ordered(calls) && call.bucket.Valid() && forall i | 0 <= i < |calls| :: calls[i].now <= call.now
  }

  lemma {:induction false} CountedCall(calls: seq<Call>, b: Bucket, start: int) returns (i: nat)
    requires b.Valid() && Count(calls, b, start) > 0
    ensures i < |calls| && calls[i].bucket == b && StartOf(calls[i]) == start
    decreases |calls|
  {
    var n := |calls| - 1;
    if calls[n].bucket == b && StartOf(calls[n]) == start {
      i := n;
    } else {
      i := CountedCall(calls[..n], b, start);
    }
  }

  // ----- One slot per bucket -----

  datatype Slot = Slot(windowStart: int, count: int)

  type Windows = map<string, Slot>

  function SlotCount(windows: Windows, call: Call): int
    requires call.bucket.Valid()
  {
    var key := Composite(call.bucket);
    if key in windows && windows[key].windowStart == StartOf(call) then windows[key].count + 1 else 1
  }

  function Evict(windows: Windows, now: int): Windows {
    map k | k in windows && !(windows[k].windowStart + MAX_WINDOW_MS < now) :: windows[k]
  }

  function SlotNext(windows: Windows, call: Call): Windows
    requires call.bucket.Valid()
  {
    var next := windows[Composite(call.bucket) := Slot(StartOf(call), SlotCount(windows, call))];
    if |next| > MAX_WINDOWS then Evict(next, call.now) else next
  }

  class InMemoryRateLimitStore {
    var windows: Windows

    constructor ()
      ensures windows == map[]
    {
      windows := map[];
    }

    method Consume(bucket: Bucket, now: Date) returns (r: Result<Decision, Failure>)
      modifies this
      ensures r.Ok? <==> bucket.Valid() && now.At?
      ensures r.Err? ==> windows == old(windows)
      ensures r.Ok? ==>
        var call := Call(bucket, now.ms);
        r.value == Decide(call, SlotCount(old(windows), call)) && windows == SlotNext(old(windows), call)
    {
      if !bucket.Valid() || now.InvalidDate? {
        return Err(InvalidConfiguration);
      }
      var call := Call(bucket, now.ms);
      var start, key := StartOf(call), Composite(bucket);
      var count := (if key in windows && windows[key].windowStart == start then windows[key].count else 0) + 1;
      windows := windows[key := Slot(start, count)];
      if |windows| > MAX_WINDOWS {
        Sweep(now.ms);
      }
      r := Ok(Decide(call, count));
    }

    method Sweep(now: int)
      modifies this
      ensures windows == Evict(old(windows), now)
    {
      var left := windows.Keys;
      while left != {}
        invariant left <= windows.Keys <= old(windows).Keys
        invariant forall k | k in windows :: windows[k] == old(windows)[k]
        invariant forall k | k in old(windows) && k !in left :: k in windows <==> k in Evict(old(windows), now)
        decreases |left|
      {
        var k :| k in left;
        left := left - {k};
        if windows[k].windowStart + MAX_WINDOW_MS < now {
          windows := windows - {k};
        }
      }
    }
  }

  /** The slots agree with the unbounded counter: a slot counts its window, and what has no slot is long over. */
  ghost predicate SlotsCount(windows: Windows, calls: seq<Call>, now: int) {
    forall b: Bucket, start: int | b.Valid() && Count(calls, b, start) > 0 ::
      var key := Composite(b);
      if key in windows then
        start <= windows[key].windowStart && (start == windows[key].windowStart ==> windows[key].count == Count(calls, b, start))
      else start + MAX_WINDOW_MS < now
  }

  ghost predicate SlotsHonest(windows: Windows, calls: seq<Call>) {
    forall b: Bucket | b.Valid() && Composite(b) in windows ::
      windows[Composite(b)].count == Count(calls, b, windows[Composite(b)].windowStart) > 0
  }

  lemma NotOver(call: Call)
    requires call.bucket.Valid()
    ensures StartOf(call) + MAX_WINDOW_MS > call.now
  {
    WindowBounds(call.now, call.bucket.windowMs);
  }

  /** With a clock that does not go back, the slot's count is the unbounded count. */
  lemma SlotCounts(windows: Windows, calls: seq<Call>, call: Call, now: int)
    requires Follows(calls, call) && now <= call.now
    requires SlotsCount(windows, calls, now) && SlotsHonest(windows, calls)
    ensures SlotCount(windows, call) == 1 + Count(calls, call.bucket, StartOf(call))
  {
    var b, key := call.bucket, Composite(call.bucket);
    NotOver(call);
    if key in windows {
      var i := CountedCall(calls, b, windows[key].windowStart);
      WindowMonotone(calls[i].now, call.now, b.windowMs);
    }
  }

  lemma SlotsStep(windows: Windows, calls: seq<Call>, call: Call, now: int)
    requires Follows(calls, call) && now <= call.now
    requires SlotsCount(windows, calls, now) && SlotsHonest(windows, calls)
    ensures SlotsHonest(SlotNext(windows, call), calls + [call])
    ensures SlotsCount(SlotNext(windows, call), calls + [call], call.now)
  {
    var next, more := SlotNext(windows, call), calls + [call];
    SlotCounts(windows, calls, call, now);
    forall b: Bucket | b.Valid() && Composite(b) in next
      ensures next[Composite(b)].count == Count(more, b, next[Composite(b)].windowStart) > 0
    {
      CountNext(calls, call, b, next[Composite(b)].windowStart);
      if Composite(b) == Composite(call.bucket) { CompositeInjective(b, call.bucket); }
    }
    forall b: Bucket, start: int | b.Valid() && Count(more, b, start) > 0
      ensures
        var key := Composite(b);
        if key in next then
          start <= next[key].windowStart && (start == next[key].windowStart ==> next[key].count == Count(more, b, start))
        else start + MAX_WINDOW_MS < call.now
    {
      CountNext(calls, call, b, start);
      var i := CountedCall(more, b, start);
      WindowMonotone(more[i].now, call.now, b.windowMs);
      NotOver(call);
      if Composite(b) == Composite(call.bucket) { CompositeInjective(b, call.bucket); }
    }
  }

  function SlotRun(calls: seq<Call>): Windows
    requires forall i | 0 <= i < |calls| :: calls[i].bucket.Valid()
  {
    if calls == [] then map[] else SlotNext(SlotRun(calls[..|calls| - 1]), calls[|calls| - 1])
  }

  lemma {:induction false} SlotRunCounts(calls: seq<Call>)
    requires Ordered(calls)
    ensures SlotsHonest(SlotRun(calls), calls)
    ensures SlotsCount(SlotRun(calls), calls, if calls == [] then 0 else calls[|calls| - 1].now)
    decreases |calls|
  {
    if calls != [] {
      var n := |calls| - 1;
      var before := calls[..n];
      assert calls == before + [calls[n]];
      SlotRunCounts(before);
      var now := if before == [] then calls[n].now else before[n - 1].now;
      assert SlotsCount(SlotRun(before), before, now);
      SlotsStep(SlotRun(before), before, calls[n], now);
    }
  }

  // ----- One row per window -----

  datatype RowKey = RowKey(bucket: Bucket, windowStart: int)

  type Rows = map<RowKey, int>

  function RowCount(rows: Rows, call: Call): int
    requires call.bucket.Valid()
  {
    var key := RowKey(call.bucket, StartOf(call));
    if key in rows then rows[key] + 1 else 1
  }

  function RowNext(rows: Rows, operations: nat, call: Call): Rows
    requires call.bucket.Valid()
  {
    var next := rows[RowKey(call.bucket, StartOf(call)) := RowCount(rows, call)];
    if (operations + 1) % 1000 == 0 then
      map k | k in next && !(k.windowStart < call.now - MAX_WINDOW_MS) :: next[k]
    else next
  }

  class PostgresRateLimitStore {
    var rows: Rows
    var operations: nat

    constructor ()
      ensures rows == map[] && operations == 0
    {
      rows, operations := map[], 0;
    }

    method Consume(bucket: Bucket, now: Date) returns (r: Result<Decision, Failure>)
      modifies this
      ensures r.Ok? <==> bucket.Valid() && now.At? && 0 <= now.ms <= MAX_SAFE_INTEGER
      ensures r.Err? ==> rows == old(rows) && operations == old(operations)
      ensures r.Ok? ==>
        var call := Call(bucket, now.ms);
        && r.value == Decide(call, RowCount(old(rows), call))
        && rows == RowNext(old(rows), old(operations), call) && operations == old(operations) + 1
    {
      if !bucket.Valid() || now.InvalidDate? || now.ms < 0 || now.ms > MAX_SAFE_INTEGER {
        return Err(InvalidConfiguration);
      }
      var call := Call(bucket, now.ms);
      var key := RowKey(bucket, StartOf(call));
      var count := (if key in rows then rows[key] else 0) + 1;
      rows := rows[key := count];
      operations := operations + 1;
      if operations % 1000 == 0 {
        rows := map k | k in rows && !(k.windowStart < now.ms - MAX_WINDOW_MS) :: rows[k];
      }
      r := Ok(Decide(call, count));
    }
  }

  /** The rows agree with the unbounded counter: a row counts its window, and a deleted one is long over. */
  ghost predicate RowsCount(rows: Rows, calls: seq<Call>, now: int) {
    && (forall k | k in rows && k.bucket.Valid() :: rows[k] == Count(calls, k.bucket, k.windowStart))
    && (forall b: Bucket, start: int | b.Valid() && Count(calls, b, start) > 0 ::
          RowKey(b, start) in rows || start < now - MAX_WINDOW_MS)
  }

  lemma RowCounts(rows: Rows, calls: seq<Call>, call: Call, now: int)
    requires call.bucket.Valid() && now <= call.now && RowsCount(rows, calls, now)
    ensures RowCount(rows, call) == 1 + Count(calls, call.bucket, StartOf(call))
  {
    NotOver(call);
  }

  lemma RowsStep(rows: Rows, operations: nat, calls: seq<Call>, call: Call, now: int)
    requires call.bucket.Valid() && now <= call.now && RowsCount(rows, calls, now)
    ensures RowsCount(RowNext(rows, operations, call), calls + [call], call.now)
  {
    var next, more := RowNext(rows, operations, call), calls + [call];
    RowCounts(rows, calls, call, now);
    forall k | k in next && k.bucket.Valid() ensures next[k] == Count(more, k.bucket, k.windowStart) {
      CountNext(calls, call, k.bucket, k.windowStart);
    }
    forall b: Bucket, start: int | b.Valid() && Count(more, b, start) > 0
      ensures RowKey(b, start) in next || start < call.now - MAX_WINDOW_MS
    {
      CountNext(calls, call, b, start);
    }
  }

  function RowRun(calls: seq<Call>): Rows
    requires forall i | 0 <= i < |calls| :: calls[i].bucket.Valid()
  {
    if calls == [] then map[] else RowNext(RowRun(calls[..|calls| - 1]), |calls| - 1, calls[|calls| - 1])
  }

  lemma {:induction false} RowRunCounts(calls: seq<Call>)
    requires Ordered(calls)
    ensures calls != [] ==> RowsCount(RowRun(calls), calls, calls[|calls| - 1].now)
    decreases |calls|
  {
    if calls != [] {
      var n := |calls| - 1;
      var before, call := calls[..n], calls[n];
      assert calls == before + [call];
      RowRunCounts(before);
      RowsStep(RowRun(before), n, before, call, if n == 0 then call.now else calls[n - 1].now);
    }
  }

  // ----- The two stores and the counter decide alike -----

  /** With a clock that does not go back, both stores decide every call as an unbounded count of past calls would. */
  lemma StoresAgree(calls: seq<Call>, call: Call)
    requires Follows(calls, call)
    ensures
      var decision := Decide(call, 1 + Count(calls, call.bucket, StartOf(call)));
      && Decide(call, SlotCount(SlotRun(calls), call)) == decision
      && Decide(call, RowCount(RowRun(calls), call)) == decision
  {
    SlotRunCounts(calls);
    RowRunCounts(calls);
    var now := if calls == [] then call.now else calls[|calls| - 1].now;
    SlotCounts(SlotRun(calls), calls, call, now);
    RowCounts(RowRun(calls), calls, call, now);
  }

  // ----- How much gets through -----

  /** Who decides: the unbounded counter, the one-slot store or the row-per-window store. */
  datatype Decider = Counter | Slots | Stored

  /** The counting deciders take any calls; the stores' runs are of calls on valid buckets by a clock that does not go
      back. */
  ghost predicate Runs(d: Decider, calls: seq<Call>) { d.Counter? || Ordered(calls) }

  /** The decision on call number i, on what the calls before it left. */
  function Answer(d: Decider, calls: seq<Call>, i: nat): Decision
    requires i < |calls| && calls[i].bucket.Valid()
    requires !d.Counter? ==> forall k | 0 <= k < i :: calls[k].bucket.Valid()
  {
    var call := calls[i];
    var count := match d
      case Counter => 1 + Count(calls[..i], call.bucket, StartOf(call))
      case Slots => SlotCount(SlotRun(calls[..i]), call)
      case Stored => RowCount(RowRun(calls[..i]), call);
    Decide(call, count)
  }

  predicate Allowed(d: Decider, calls: seq<Call>, i: nat)
    requires i < |calls| && calls[i].bucket.Valid()
    requires !d.Counter? ==> forall k | 0 <= k < i :: calls[k].bucket.Valid()
  {
    Answer(d, calls, i).allowed
  }

  lemma AllAllowAlike(d: Decider, calls: seq<Call>, i: nat)
    requires Runs(d, calls) && i < |calls| && calls[i].bucket.Valid()
    ensures Answer(d, calls, i) == Answer(Counter, calls, i)
  {
    if !d.Counter? { StoresAgree(calls[..i], calls[i]); }
  }

  // ----- What a decision says -----

  /** The earlier calls of the same bucket whose time lies between the same two multiples of the window. */
  ghost function Rivals(calls: seq<Call>, i: nat): set<nat>
    requires i < |calls| && calls[i].bucket.Valid()
  {
    set j: nat | j < i && calls[j].bucket == calls[i].bucket
                 && calls[j].now / calls[i].bucket.windowMs == calls[i].now / calls[i].bucket.windowMs
  }

  lemma SameWindow(a: int, b: int, windowMs: int)
    requires windowMs > 0
    ensures WindowStart(a, windowMs) == WindowStart(b, windowMs) <==> a / windowMs == b / windowMs
  {
    WindowBounds(a, windowMs);
    WindowBounds(b, windowMs);
  }

  lemma {:induction false} CountIsSize(calls: seq<Call>, b: Bucket, at: int, n: nat)
    requires b.Valid() && n <= |calls|
    ensures Count(calls[..n], b, WindowStart(at, b.windowMs))
         == |set j: nat | j < n && calls[j].bucket == b && calls[j].now / b.windowMs == at / b.windowMs|
    decreases n
  {
    var all := set j: nat | j < n && calls[j].bucket == b && calls[j].now / b.windowMs == at / b.windowMs;
    if n > 0 {
      CountIsSize(calls, b, at, n - 1);
      var before := set j: nat | j < n - 1 && calls[j].bucket == b && calls[j].now / b.windowMs == at / b.windowMs;
      assert calls[..n][..n - 1] == calls[..n - 1];
      SameWindow(calls[n - 1].now, at, b.windowMs);
      if calls[n - 1].bucket == b && calls[n - 1].now / b.windowMs == at / b.windowMs {
        assert all == before + {n - 1};
      } else {
        assert all == before;
      }
    } else {
      assert all == {};
    }
  }

  /** Whoever decides: a call is let through if fewer than the limit came before it in its window; the answer tells how many
      more may come, when the next window starts, and, to a refused call, how long it is until then. */
  lemma AnswerIs(d: Decider, calls: seq<Call>, i: nat)
    requires Runs(d, calls) && i < |calls| && calls[i].bucket.Valid()
    ensures
      var call, n, answer := calls[i], |Rivals(calls, i)|, Answer(d, calls, i);
      && (answer.allowed <==> n < call.bucket.limit) && answer.limit == call.bucket.limit
      && answer.remaining == (if n < call.bucket.limit then call.bucket.limit - n - 1 else 0)
      && answer.resetAt == (call.now / call.bucket.windowMs + 1) * call.bucket.windowMs && answer.resetAt > call.now
      && answer.retryAfterMs == if answer.allowed then 0 else answer.resetAt - call.now
  {
    AllAllowAlike(d, calls, i);
    CountIsSize(calls, calls[i].bucket, calls[i].now, i);
    WindowBounds(calls[i].now, calls[i].bucket.windowMs);
    assert Rivals(calls, i) == set j: nat | j < i && calls[j].bucket == calls[i].bucket
                                            && calls[j].now / calls[i].bucket.windowMs == calls[i].now / calls[i].bucket.windowMs;
    var q, w := calls[i].now / calls[i].bucket.windowMs, calls[i].bucket.windowMs;
    assert (q + 1) * w == q * w + w;
  }

  /** What the stores take as a bucket. */
  lemma ValidIs(b: Bucket)
    ensures b.Valid() <==> 1 <= |b.key| <= 256 && 1 <= b.limit <= 1000000 && 1000 <= b.windowMs <= 86400000
  {
  }

  /** Calls of a bucket let through in one aligned window. */
  ghost function AllowedInWindow(d: Decider, calls: seq<Call>, b: Bucket, start: int): nat
    requires b.Valid() && Runs(d, calls)
  {
    if calls == [] then 0
    else
      var n := |calls| - 1;
      AllowedInWindow(d, calls[..n], b, start)
      + (if calls[n].bucket == b && StartOf(calls[n]) == start && Allowed(d, calls, n) then 1 else 0)
  }

  /** Calls of a bucket let through between two times, both included. */
  ghost function AllowedBetween(d: Decider, calls: seq<Call>, b: Bucket, from: int, to: int): nat
    requires b.Valid() && Runs(d, calls)
  {
    if calls == [] then 0
    else
      var n := |calls| - 1;
      AllowedBetween(d, calls[..n], b, from, to)
      + (if calls[n].bucket == b && from <= calls[n].now <= to && Allowed(d, calls, n) then 1 else 0)
  }

  /** In each aligned window exactly the first `limit` calls get through, whoever decides. */
  lemma {:induction false} WindowLimit(d: Decider, calls: seq<Call>, b: Bucket, start: int)
    requires b.Valid() && Runs(d, calls)
    ensures AllowedInWindow(d, calls, b, start) == Min(b.limit, Count(calls, b, start))
    decreases |calls|
  {
    if calls != [] {
      var n := |calls| - 1;
      WindowLimit(d, calls[..n], b, start);
      if calls[n].bucket == b { AllAllowAlike(d, calls, n); }
    }
  }

  lemma NextWindow(from: int, windowMs: int)
    requires windowMs > 0
    ensures WindowStart(from + windowMs, windowMs) == WindowStart(from, windowMs) + windowMs
  {
    var p, q := (from + windowMs) / windowMs, from / windowMs;
    assert p * windowMs <= from + windowMs < p * windowMs + windowMs;
    assert q * windowMs <= from < q * windowMs + windowMs;
    assert p > q + 1 ==> p * windowMs >= (q + 2) * windowMs;
    assert p < q + 1 ==> (q + 1) * windowMs >= (p + 1) * windowMs;
  }

  lemma TwoWindows(from: int, now: int, windowMs: int)
    requires windowMs > 0 && from <= now <= from + windowMs
    ensures WindowStart(now, windowMs) == WindowStart(from, windowMs)
         || WindowStart(now, windowMs) == WindowStart(from, windowMs) + windowMs
  {
    WindowMonotone(from, now, windowMs);
    WindowMonotone(now, from + windowMs, windowMs);
    NextWindow(from, windowMs);
    var p, q := now / windowMs, from / windowMs;
    assert p > q + 1 ==> p * windowMs >= (q + 2) * windowMs;
    assert p < q ==> q * windowMs >= (p + 1) * windowMs;
  }

  lemma {:induction false} BetweenInWindows(d: Decider, calls: seq<Call>, b: Bucket, from: int, to: int)
    requires b.Valid() && Runs(d, calls) && from <= to <= from + b.windowMs
    ensures
      var start := WindowStart(from, b.windowMs);
      AllowedBetween(d, calls, b, from, to)
      <= AllowedInWindow(d, calls, b, start) + AllowedInWindow(d, calls, b, start + b.windowMs)
    decreases |calls|
  {
    if calls != [] {
      var n := |calls| - 1;
      BetweenInWindows(d, calls[..n], b, from, to);
      if calls[n].bucket == b && from <= calls[n].now <= to { TwoWindows(from, calls[n].now, b.windowMs); }
    }
  }

  /** No stretch of time as long as the window lets more than twice the limit through, whoever decides. */
  lemma IntervalLimit(d: Decider, calls: seq<Call>, b: Bucket, from: int, to: int)
    requires b.Valid() && Runs(d, calls) && from <= to <= from + b.windowMs
    ensures AllowedBetween(d, calls, b, from, to) <= 2 * b.limit
  {
    var start := WindowStart(from, b.windowMs);
    BetweenInWindows(d, calls, b, from, to);
    WindowLimit(d, calls, b, start);
    WindowLimit(d, calls, b, start + b.windowMs);
  }

  // ----- Any clock: what a store forgets -----

  predicate Known(calls: seq<Call>) { forall i | 0 <= i < |calls| :: calls[i].bucket.Valid() }

  /** The slot of the bucket is the one of this window. */
  predicate SlotHolds(windows: Windows, b: Bucket, start: int)
    requires b.Valid()
  {
    Composite(b) in windows && windows[Composite(b)].windowStart == start
  }

  /** The calls of the window that its slot or row still counts. */
  function SlotKept(windows: Windows, b: Bucket, start: int): int
    requires b.Valid()
  {
    if SlotHolds(windows, b, start) then windows[Composite(b)].count else 0
  }

  function RowKept(rows: Rows, b: Bucket, start: int): int {
    if RowKey(b, start) in rows then rows[RowKey(b, start)] else 0
  }

  /** Some call took the window's slot away: a call of the bucket in another window, or an eviction. */
  ghost predicate SlotLost(calls: seq<Call>, b: Bucket, start: int)
    requires b.Valid() && Known(calls)
  {
    exists j :: 0 <= j < |calls| && SlotHolds(SlotRun(calls[..j]), b, start) && !SlotHolds(SlotRun(calls[..j + 1]), b, start)
  }

  /** Some clean-up deleted the window's row. */
  ghost predicate RowLost(calls: seq<Call>, b: Bucket, start: int)
    requires Known(calls)
  {
    exists j :: 0 <= j < |calls| && RowKey(b, start) in RowRun(calls[..j]) && RowKey(b, start) !in RowRun(calls[..j + 1])
  }

  lemma SlotLostNext(calls: seq<Call>, b: Bucket, start: int)
    requires b.Valid() && Known(calls) && calls != []
    ensures
      var before := calls[..|calls| - 1];
      SlotLost(calls, b, start)
      <==> SlotLost(before, b, start) || (SlotHolds(SlotRun(before), b, start) && !SlotHolds(SlotRun(calls), b, start))
  {
    var n := |calls| - 1;
    var before := calls[..n];
    assert calls[..n + 1] == calls;
    assert forall j | 0 <= j <= n :: before[..j] == calls[..j];
  }

  lemma RowLostNext(calls: seq<Call>, b: Bucket, start: int)
    requires Known(calls) && calls != []
    ensures
      var before := calls[..|calls| - 1];
      RowLost(calls, b, start)
      <==> RowLost(before, b, start) || (RowKey(b, start) in RowRun(before) && RowKey(b, start) !in RowRun(calls))
  {
    var n := |calls| - 1;
    var before := calls[..n];
    assert calls[..n + 1] == calls;
    assert forall j | 0 <= j <= n :: before[..j] == calls[..j];
  }

  /** One more call on the slots: its own window's slot counts it, and any other slot is as it was or gone. */
  lemma SlotKeptNext(windows: Windows, call: Call, b: Bucket, start: int)
    requires b.Valid() && call.bucket.Valid()
    ensures
      var next := SlotNext(windows, call);
      if call.bucket == b && StartOf(call) == start then
        SlotHolds(next, b, start) && SlotKept(next, b, start) == SlotKept(windows, b, start) + 1
      else
        SlotHolds(next, b, start) ==> SlotHolds(windows, b, start) && SlotKept(next, b, start) == SlotKept(windows, b, start)
  {
    NotOver(call);
    if Composite(b) == Composite(call.bucket) { CompositeInjective(b, call.bucket); }
  }

  lemma RowKeptNext(rows: Rows, operations: nat, call: Call, b: Bucket, start: int)
    requires call.bucket.Valid()
    ensures
      var next := RowNext(rows, operations, call);
      if call.bucket == b && StartOf(call) == start then
        RowKey(b, start) in next && RowKept(next, b, start) == RowKept(rows, b, start) + 1
      else
        RowKey(b, start) in next ==> RowKey(b, start) in rows && RowKept(next, b, start) == RowKept(rows, b, start)
  {
    NotOver(call);
  }

  /** Which calls take a slot away: one of its bucket in another window, or one that evicts it. */
  lemma SlotLossIs(windows: Windows, call: Call, b: Bucket, start: int)
    requires b.Valid() && call.bucket.Valid() && SlotHolds(windows, b, start)
    ensures
      var full := windows[Composite(call.bucket) := Slot(StartOf(call), SlotCount(windows, call))];
      !SlotHolds(SlotNext(windows, call), b, start)
      <==> || (call.bucket == b && StartOf(call) != start)
           || (|full| > 10000 && start + 86400000 < call.now)
  {
    NotOver(call);
    if Composite(b) == Composite(call.bucket) { CompositeInjective(b, call.bucket); }
  }

  /** Which calls delete a row: every thousandth, when the window started long before the call. */
  lemma RowLossIs(rows: Rows, operations: nat, call: Call, b: Bucket, start: int)
    requires call.bucket.Valid() && RowKey(b, start) in rows
    ensures RowKey(b, start) !in RowNext(rows, operations, call)
       <==> (operations + 1) % 1000 == 0 && start < call.now - 86400000
  {
  }

  /** Whatever the clock does, a slot counts every call of its window exactly if no call took the slot away since. */
  lemma {:induction false} SlotKeepsIff(calls: seq<Call>, b: Bucket, start: int)
    requires b.Valid() && Known(calls)
    ensures 0 <= SlotKept(SlotRun(calls), b, start) <= Count(calls, b, start)
    ensures SlotHolds(SlotRun(calls), b, start) ==> SlotKept(SlotRun(calls), b, start) > 0
    ensures SlotKept(SlotRun(calls), b, start) == Count(calls, b, start) <==> !SlotLost(calls, b, start)
    decreases |calls|
  {
    if calls != [] {
      var n := |calls| - 1;
      SlotKeepsIff(calls[..n], b, start);
      SlotLostNext(calls, b, start);
      SlotKeptNext(SlotRun(calls[..n]), calls[n], b, start);
    }
  }

  lemma {:induction false} RowKeepsIff(calls: seq<Call>, b: Bucket, start: int)
    requires b.Valid() && Known(calls)
    ensures 0 <= RowKept(RowRun(calls), b, start) <= Count(calls, b, start)
    ensures RowKey(b, start) in RowRun(calls) ==> RowKept(RowRun(calls), b, start) > 0
    ensures RowKept(RowRun(calls), b, start) == Count(calls, b, start) <==> !RowLost(calls, b, start)
    decreases |calls|
  {
    if calls != [] {
      var n := |calls| - 1;
      RowKeepsIff(calls[..n], b, start);
      RowLostNext(calls, b, start);
      RowKeptNext(RowRun(calls[..n]), n, calls[n], b, start);
    }
  }

  /** For any clock: each store counts a call as the unbounded counter does exactly if it has not lost the window. */
  lemma StoresCountIff(calls: seq<Call>, call: Call)
    requires Known(calls) && call.bucket.Valid()
    ensures SlotCount(SlotRun(calls), call) == 1 + Count(calls, call.bucket, StartOf(call))
       <==> !SlotLost(calls, call.bucket, StartOf(call))
    ensures RowCount(RowRun(calls), call) == 1 + Count(calls, call.bucket, StartOf(call))
       <==> !RowLost(calls, call.bucket, StartOf(call))
  {
    SlotKeepsIff(calls, call.bucket, StartOf(call));
    RowKeepsIff(calls, call.bucket, StartOf(call));
  }

  /** The slot of the earlier window is gone by then: the one-slot store counts it anew, the rows still have it. */
  lemma SteppedBack()
    ensures
      var b := Bucket("k", 1000, 1);
      var calls := [Call(b, 0), Call(b, 1000), Call(b, 1)];
      Allowed(Slots, calls, 2) && !Allowed(Stored, calls, 2)
  {
    var b := Bucket("k", 1000, 1);
    var calls := [Call(b, 0), Call(b, 1000), Call(b, 1)];
    var first, second := calls[..1], calls[..2];
    assert first == [Call(b, 0)] && second[..1] == first && first[..0] == [];
    var key := Composite(b);
    assert SlotRun(first) == map[key := Slot(0, 1)];
    assert SlotRun(second) == map[key := Slot(1000, 1)];
    assert RowRun(first) == map[RowKey(b, 0) := 1];
    assert RowRun(second) == map[RowKey(b, 0) := 1, RowKey(b, 1000) := 1];
  }
}
