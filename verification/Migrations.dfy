/** The migration ledger of `Database.migrate` and the adoption of a legacy history (src/shared/postgres/index.ts). */
module Migrations {
  import opened Prelude

  datatype Migration = Migration(version: int, sql: string)

  datatype Row = Row(version: int, checksum: string)

  /** What the old ledger table shows: row count, greatest version, checksum of the last row. */
  datatype History = History(count: int, last: Option<int>, checksum: Option<string>)

  datatype Legacy = Legacy(ledger: string, versions: int, finalChecksum: string, baselineThrough: int)

  datatype Failure = InvalidConfiguration | LegacyHistory | Drift | StatementFailed | RolledBack | CommitUncertain

  /** How the COMMIT goes: an answer can get lost after the commit took effect. */
  datatype Commit = Committed | Refused | AnswerLost

  const LEDGER := "n2f_migrations"

  /**
   * The database: the ledger in version order and the old ledger tables. `baselined` are the rows recorded without
   * running anything, `executed` the migrations whose SQL took effect, in order.
   */
  datatype State = State(ledger: seq<Row>, tables: map<string, History>, baselined: seq<Row>, executed: seq<Migration>)

  const EMPTY := State([], map[], [], [])

  predicate IsTableName(s: string) {
    s != "" && (IsLowerLetter(s[0]) || s[0] == '_')
    && forall i | 0 <= i < |s| :: IsLowerLetter(s[i]) || IsDigit(s[i]) || s[i] == '_'
  }

  /** Positive versions in ascending order, with SQL to run. */
  predicate IsList(list: seq<Migration>) {
    && (forall i | 0 <= i < |list| :: 0 < list[i].version <= MAX_SAFE_INTEGER && list[i].sql != "")
    && (forall i, j | 0 <= i < j < |list| :: list[i].version < list[j].version)
  }

  function RowOf(m: Migration, sha: string -> string): Row { Row(m.version, sha(m.sql)) }

  function RowsOf(list: seq<Migration>, sha: string -> string): (rows: seq<Row>)
    ensures |rows| == |list| && forall i | 0 <= i < |list| :: rows[i] == RowOf(list[i], sha)
  {
    seq(|list|, i requires 0 <= i < |list| => RowOf(list[i], sha))
  }

  function Baselines(list: seq<Migration>, through: int): seq<Migration> {
    if list == [] then []
    else (if list[0].version <= through then [list[0]] else []) + Baselines(list[1..], through)
  }

  function FindTable(state: State, name: string): Option<History> {
    if name == LEDGER then Some(History(0, None, None))
    else if name in state.tables then Some(state.tables[name])
    else None
  }

  predicate Matches(history: History, legacy: Legacy) {
    && history.count == legacy.versions
    && (if history.last.Some? then history.last.value else 0) == legacy.versions
    && history.checksum == Some(legacy.finalChecksum)
  }

  /** Record a completed legacy history as its baselines and drop its ledger. */
  function Adopt(state: State, legacy: Legacy, list: seq<Migration>, sha: string -> string): Result<State, Failure> {
    var found := FindTable(state, legacy.ledger);
    if found.None? then Ok(state)
    else if !Matches(found.value, legacy) then Err(LegacyHistory)
    else
      var rows := RowsOf(Baselines(list, legacy.baselineThrough), sha);
      Ok(state.(ledger := rows, baselined := rows, tables := state.tables - {legacy.ledger}))
  }

  predicate Adopts(state: State, legacy: Option<Legacy>) {
    state.ledger == [] && legacy.Some? && FindTable(state, legacy.value.ledger).Some?
  }

  /** What is left to run once the recorded rows are found to be the start of the list. */
  function Pending(rows: seq<Row>, list: seq<Migration>, sha: string -> string, broken: set<string>)
    : Result<seq<Migration>, Failure>
  {
    if |rows| > |list| || RowsOf(list, sha)[..|rows|] != rows then Err(Drift)
    else if exists i | |rows| <= i < |list| :: list[i].sql in broken then Err(StatementFailed)
    else Ok(list[|rows|..])
  }

  /** What the transaction of a migrate call leads to before its commit. */
  function Apply(state: State, list: seq<Migration>, legacy: Option<Legacy>, sha: string -> string, broken: set<string>)
    : Result<State, Failure>
  {
    if (legacy.Some? && !IsTableName(legacy.value.ledger)) || !IsList(list) then Err(InvalidConfiguration)
    else
      var adopted := if state.ledger == [] && legacy.Some? then Adopt(state, legacy.value, list, sha) else Ok(state);
      if adopted.Err? then adopted
      else
        var start := adopted.value;
        var pending := Pending(start.ledger, list, sha, broken);
        if pending.Err? then Err(pending.error)
        else Ok(start.(ledger := start.ledger + RowsOf(pending.value, sha), executed := start.executed + pending.value))
  }

  class Database {
    var state: State

    constructor (tables: map<string, History>)
      ensures state == EMPTY.(tables := tables)
    {
      state := EMPTY.(tables := tables);
    }

    /** Check the list, adopt a legacy history if the ledger is empty, compare the ledger row by row and run what is
        pending; the transaction leaves all of it or nothing. */
    method Migrate(list: seq<Migration>, legacy: Option<Legacy>, sha: string -> string, broken: set<string>, commit: Commit)
      returns (r: Result<(), Failure>)
      modifies this
      ensures
        var applied := Apply(old(state), list, legacy, sha, broken);
        if applied.Err? then r == Err(applied.error) && state == old(state)
        else if commit.Refused? then r == Err(RolledBack) && state == old(state)
        else state == applied.value && r == if commit.Committed? then Ok(()) else Err(CommitUncertain)
    {
      if legacy.Some? && !IsTableName(legacy.value.ledger) {
        return Err(InvalidConfiguration);
      }
      var valid := CheckList(list);
      if !valid {
        return Err(InvalidConfiguration);
      }
      var work := state;
      if state.ledger == [] && legacy.Some? {
        var adopted := Adopt(state, legacy.value, list, sha);
        if adopted.Err? {
          return Err(adopted.error);
        }
        work := adopted.value;
      }
      var ran := RunPending(work.ledger, list, sha, broken);
      if ran.Err? {
        return Err(ran.error);
      }
      if commit.Refused? {
        return Err(RolledBack);
      }
      state := work.(ledger := work.ledger + RowsOf(ran.value, sha), executed := work.executed + ran.value);
      r := if commit.Committed? then Ok(()) else Err(CommitUncertain);
    }

    method CheckList(list: seq<Migration>) returns (valid: bool)
      ensures valid <==> IsList(list)
    {
      var previous := 0;
      for i := 0 to |list|
        invariant IsList(list[..i])
        invariant previous == if i == 0 then 0 else list[i - 1].version
      {
        var m := list[i];
        if m.version > MAX_SAFE_INTEGER || m.version <= previous || m.sql == "" {
          return false;
        }
        previous := m.version;
      }
      assert list[..|list|] == list;
      valid := true;
    }

    /** Compare recorded rows and run the rest, in order. */
    method RunPending(rows: seq<Row>, list: seq<Migration>, sha: string -> string, broken: set<string>)
      returns (r: Result<seq<Migration>, Failure>)
      ensures r == Pending(rows, list, sha, broken)
    {
      if |rows| > |list| {
        return Err(Drift);
      }
      var ran: seq<Migration> := [];
      for index := 0 to |list|
        invariant forall k | 0 <= k < index && k < |rows| :: RowOf(list[k], sha) == rows[k]
        invariant ran == if index < |rows| then [] else list[|rows|..index]
        invariant forall k | |rows| <= k < index :: list[k].sql !in broken
      {
        if index < |rows| {
          if rows[index] != RowOf(list[index], sha) {
            assert RowsOf(list, sha)[..|rows|][index] != rows[index];
            return Err(Drift);
          }
        } else {
          if list[index].sql in broken {
            assert RowsOf(list, sha)[..|rows|] == rows;
            return Err(StatementFailed);
          }
          ran := ran + [list[index]];
        }
      }
      assert RowsOf(list, sha)[..|rows|] == rows;
      assert list[|rows|..|list|] == list[|rows|..];
      r := Ok(ran);
    }
  }

  // ----- Runs of migrate calls -----

  datatype Call = Call(list: seq<Migration>, legacy: Option<Legacy>, broken: set<string>, commit: Commit)

  function After(state: State, call: Call, sha: string -> string): State {
    var applied := Apply(state, call.list, call.legacy, sha, call.broken);
    if applied.Err? || call.commit.Refused? then state else applied.value
  }

  predicate TakesEffect(state: State, call: Call, sha: string -> string) {
    Apply(state, call.list, call.legacy, sha, call.broken).Ok? && !call.commit.Refused?
  }

  function StateAfter(tables: map<string, History>, calls: seq<Call>, sha: string -> string): State {
    if calls == [] then EMPTY.(tables := tables)
    else After(StateAfter(tables, calls[..|calls| - 1], sha), calls[|calls| - 1], sha)
  }

  /** The list of the last call that took effect. */
  function LastList(tables: map<string, History>, calls: seq<Call>, sha: string -> string): seq<Migration> {
    if calls == [] then []
    else
      var n := |calls| - 1;
      if TakesEffect(StateAfter(tables, calls[..n], sha), calls[n], sha) then calls[n].list
      else LastList(tables, calls[..n], sha)
  }

  lemma {:induction false} BaselinesArePrefix(list: seq<Migration>, through: int)
    requires IsList(list)
    ensures Baselines(list, through) <= list
    ensures forall i | 0 <= i < |list| :: list[i].version <= through <==> i < |Baselines(list, through)|
    decreases |list|
  {
    if list != [] {
      var rest := list[1..];
      BaselinesArePrefix(rest, through);
      if list[0].version > through {
        assert forall i | 0 <= i < |rest| :: rest[i] == list[i + 1] && rest[i].version > through;
      }
      forall i | 0 <= i < |list| ensures list[i].version <= through <==> i < |Baselines(list, through)| {
        if i > 0 { assert list[i] == rest[i - 1]; }
      }
    }
  }

  lemma RowsSplit(list: seq<Migration>, n: nat, sha: string -> string)
    requires n <= |list|
    ensures RowsOf(list, sha) == RowsOf(list[..n], sha) + RowsOf(list[n..], sha)
    ensures RowsOf(list, sha)[..n] == RowsOf(list[..n], sha)
  {
  }

  lemma RowsAppend(a: seq<Migration>, b: seq<Migration>, sha: string -> string)
    ensures RowsOf(a + b, sha) == RowsOf(a, sha) + RowsOf(b, sha)
  {
  }

  /** How many of the list a call does not run. */
  function Recorded(state: State, call: Call): nat {
    if Adopts(state, call.legacy) then |Baselines(call.list, call.legacy.value.baselineThrough)| else |state.ledger|
  }

  /** A call that takes effect leaves exactly its list in the ledger, and runs exactly what was neither recorded
      before nor adopted now. */
  lemma EffectOf(state: State, call: Call, sha: string -> string)
    requires TakesEffect(state, call, sha)
    ensures
      var next, n := After(state, call, sha), Recorded(state, call);
      && IsList(call.list) && n <= |call.list|
      && next.ledger == RowsOf(call.list, sha)
      && next.executed == state.executed + call.list[n..]
      && next.baselined == (if Adopts(state, call.legacy) then RowsOf(call.list[..n], sha) else state.baselined)
      && (!Adopts(state, call.legacy) ==> state.ledger == RowsOf(call.list[..n], sha))
  {
    var n := Recorded(state, call);
    if Adopts(state, call.legacy) {
      BaselinesArePrefix(call.list, call.legacy.value.baselineThrough);
      assert Baselines(call.list, call.legacy.value.baselineThrough) == call.list[..n];
    }
    RowsSplit(call.list, n, sha);
  }

  ghost predicate Ascending(rows: seq<Row>) {
    forall i, j | 0 <= i < j < |rows| :: rows[i].version < rows[j].version
  }

  /** The ledger is what was recorded without running plus what was run, each version once, in version order. */
  ghost predicate Accounted(state: State, sha: string -> string) {
    state.ledger == state.baselined + RowsOf(state.executed, sha) && Ascending(state.ledger)
  }

  lemma ListAscends(list: seq<Migration>, sha: string -> string)
    requires IsList(list)
    ensures Ascending(RowsOf(list, sha))
  {
  }

  lemma AddsUp(list: seq<Migration>, n: nat, baselined: seq<Row>, executed: seq<Migration>, sha: string -> string)
    requires n <= |list| && RowsOf(list[..n], sha) == baselined + RowsOf(executed, sha)
    ensures RowsOf(list, sha) == baselined + RowsOf(executed + list[n..], sha)
  {
    RowsSplit(list, n, sha);
    RowsAppend(executed, list[n..], sha);
    Associative(baselined, RowsOf(executed, sha), RowsOf(list[n..], sha));
  }

  lemma NothingExecuted(state: State, sha: string -> string)
    requires Accounted(state, sha) && state.ledger == []
    ensures state.executed == []
  {
    assert |state.ledger| == |state.baselined| + |state.executed|;
  }

  lemma AccountedStep(state: State, call: Call, sha: string -> string)
    requires Accounted(state, sha)
    ensures Accounted(After(state, call, sha), sha)
  {
    if TakesEffect(state, call, sha) {
      var n := Recorded(state, call);
      EffectOf(state, call, sha);
      ListAscends(call.list, sha);
      if Adopts(state, call.legacy) {
        NothingExecuted(state, sha);
        assert RowsOf(call.list[..n], sha) == RowsOf(call.list[..n], sha) + RowsOf([], sha);
        AddsUp(call.list, n, RowsOf(call.list[..n], sha), [], sha);
      } else {
        AddsUp(call.list, n, state.baselined, state.executed, sha);
      }
    }
  }

  /** Over any run of migrate calls the ledger is the list of the last call that took effect, and every migration in it
      was either adopted as a baseline or had its SQL run exactly once, in version order. */
  lemma {:induction false} LedgerIsLastList(tables: map<string, History>, calls: seq<Call>, sha: string -> string)
    ensures
      var state := StateAfter(tables, calls, sha);
      && state.ledger == RowsOf(LastList(tables, calls, sha), sha)
      && Accounted(state, sha)
    decreases |calls|
  {
    if calls != [] {
      var n := |calls| - 1;
      LedgerIsLastList(tables, calls[..n], sha);
      var before := StateAfter(tables, calls[..n], sha);
      AccountedStep(before, calls[n], sha);
      if TakesEffect(before, calls[n], sha) { EffectOf(before, calls[n], sha); }
    }
  }

  /** A call takes effect only on a list that extends the ledger; a shorter or different one is refused unchanged. */
  lemma DriftRefused(state: State, call: Call, sha: string -> string)
    requires IsList(call.list) && !Adopts(state, call.legacy)
    requires call.legacy.Some? ==> IsTableName(call.legacy.value.ledger)
    ensures
      Apply(state, call.list, call.legacy, sha, call.broken) == Err(Drift)
      <==> !(state.ledger <= RowsOf(call.list, sha))
    ensures !(state.ledger <= RowsOf(call.list, sha)) ==> After(state, call, sha) == state
  {
    var rows := RowsOf(call.list, sha);
    if state.ledger <= rows { assert rows[..|state.ledger|] == state.ledger; }
  }

  // ----- Baselines of an adopted database -----

  /** How many of the rows are baselines. */
  function BaselineRows(rows: seq<Row>, through: int): nat {
    if rows == [] then 0
    else (if rows[|rows| - 1].version <= through then 1 else 0) + BaselineRows(rows[..|rows| - 1], through)
  }

  lemma {:induction false} BaselineRowsSplit(a: seq<Row>, b: seq<Row>, through: int)
    ensures BaselineRows(a + b, through) == BaselineRows(a, through) + BaselineRows(b, through)
    decreases |b|
  {
    if b == [] {
      assert a + b == a;
    } else {
      assert (a + b)[..|a + b| - 1] == a + b[..|b| - 1];
      BaselineRowsSplit(a, b[..|b| - 1], through);
    }
  }

  lemma {:induction false} SomeBaseline(rows: seq<Row>, through: int)
    ensures BaselineRows(rows, through) > 0 <==> exists i :: 0 <= i < |rows| && rows[i].version <= through
    decreases |rows|
  {
    if rows != [] {
      SomeBaseline(rows[..|rows| - 1], through);
      if i :| 0 <= i < |rows| - 1 && rows[i].version <= through {
        assert rows[..|rows| - 1][i].version <= through;
      }
    }
  }

  /** Some migration up to this version was run. */
  ghost predicate RanBaseline(state: State, through: int) {
    exists i :: 0 <= i < |state.executed| && state.executed[i].version <= through
  }

  lemma NoAdoptionLater(state: State, call: Call, sha: string -> string)
    requires state.ledger != []
    ensures After(state, call, sha).ledger != [] && After(state, call, sha).baselined == state.baselined
  {
    if TakesEffect(state, call, sha) { EffectOf(state, call, sha); }
  }

  function Continue(state: State, calls: seq<Call>, sha: string -> string): State {
    if calls == [] then state else After(Continue(state, calls[..|calls| - 1], sha), calls[|calls| - 1], sha)
  }

  lemma {:induction false} ContinueKeeps(state: State, calls: seq<Call>, sha: string -> string)
    requires Accounted(state, sha) && state.ledger != []
    ensures
      var later := Continue(state, calls, sha);
      && Accounted(later, sha) && later.ledger != [] && later.baselined == state.baselined
      && state.executed <= later.executed
    decreases |calls|
  {
    if calls != [] {
      var n := |calls| - 1;
      ContinueKeeps(state, calls[..n], sha);
      var before := Continue(state, calls[..n], sha);
      AccountedStep(before, calls[n], sha);
      NoAdoptionLater(before, calls[n], sha);
      if TakesEffect(before, calls[n], sha) { EffectOf(before, calls[n], sha); }
    }
  }

  lemma CountOfParts(front: seq<Row>, back: seq<Row>, through: int)
    requires forall i | 0 <= i < |front| :: front[i].version <= through
    requires forall i | 0 <= i < |back| :: back[i].version > through
    ensures BaselineRows(front + back, through) == |front| && BaselineRows(back, through) == 0
  {
    BaselineRowsSplit(front, back, through);
    AllBaselines(front, through);
    SomeBaseline(back, through);
  }

  lemma PrefixCount(list: seq<Migration>, through: int, sha: string -> string)
    requires IsList(list)
    ensures BaselineRows(RowsOf(list, sha), through) == |Baselines(list, through)| <= |list|
    ensures BaselineRows(RowsOf(list[|Baselines(list, through)|..], sha), through) == 0
  {
    var n := |Baselines(list, through)|;
    BaselinesArePrefix(list, through);
    RowsSplit(list, n, sha);
    CountOfParts(RowsOf(list[..n], sha), RowsOf(list[n..], sha), through);
  }

  lemma RanIff(executed: seq<Migration>, through: int, sha: string -> string)
    ensures (exists i :: 0 <= i < |executed| && executed[i].version <= through) <==> BaselineRows(RowsOf(executed, sha), through) > 0
  {
    SomeBaseline(RowsOf(executed, sha), through);
    if i :| 0 <= i < |executed| && executed[i].version <= through {
      assert RowsOf(executed, sha)[i].version <= through;
    }
  }

  lemma {:induction false} AllBaselines(rows: seq<Row>, through: int)
    requires forall i | 0 <= i < |rows| :: rows[i].version <= through
    ensures BaselineRows(rows, through) == |rows|
    decreases |rows|
  {
    if rows != [] { AllBaselines(rows[..|rows| - 1], through); }
  }

  /** What the ledger and the executed migrations are right after an adoption. */
  lemma AdoptionLeaves(state: State, call: Call, sha: string -> string)
    requires Accounted(state, sha) && TakesEffect(state, call, sha) && Adopts(state, call.legacy)
    ensures state.executed == [] && Accounted(After(state, call, sha), sha)
    ensures After(state, call, sha).ledger == RowsOf(call.list, sha)
    ensures
      var through := call.legacy.value.baselineThrough;
      && BaselineRows(RowsOf(After(state, call, sha).executed, sha), through) == 0
      && BaselineRows(After(state, call, sha).baselined, through) == |Baselines(call.list, through)|
  {
    var through, n := call.legacy.value.baselineThrough, Recorded(state, call);
    EffectOf(state, call, sha);
    AccountedStep(state, call, sha);
    PrefixCount(call.list, through, sha);
    NothingExecuted(state, sha);
    assert After(state, call, sha).executed == call.list[n..];
    RowsSplit(call.list, n, sha);
    BaselineRowsSplit(RowsOf(call.list[..n], sha), RowsOf(call.list[n..], sha), through);
  }

  /**
   * After a database adopted a legacy history under a non-empty list, a run of calls runs a baseline exactly if the
   * ledger it leaves holds more versions up to `baselineThrough` than the adopting list did. The adopting call itself
   * runs none.
   */
  lemma AdoptedRunsBaselineIff(state: State, call: Call, calls: seq<Call>, sha: string -> string)
    requires Accounted(state, sha) && TakesEffect(state, call, sha) && Adopts(state, call.legacy) && call.list != []
    ensures
      var through := call.legacy.value.baselineThrough;
      var later := Continue(After(state, call, sha), calls, sha);
      && !RanBaseline(After(state, call, sha), through)
      && (RanBaseline(later, through) <==> BaselineRows(later.ledger, through) > |Baselines(call.list, through)|)
  {
    var through := call.legacy.value.baselineThrough;
    var adopted := After(state, call, sha);
    var later := Continue(adopted, calls, sha);
    AdoptionLeaves(state, call, sha);
    ContinueKeeps(adopted, calls, sha);
    BaselineRowsSplit(later.baselined, RowsOf(later.executed, sha), through);
    RanIff(adopted.executed, through, sha);
    RanIff(later.executed, through, sha);
  }

  /** The last version of a list, zero if it has none. */
  function Top(list: seq<Migration>): int { if list == [] then 0 else list[|list| - 1].version }

  /** A call never takes rows out of the ledger. */
  lemma {:induction false} LedgerGrows(state: State, calls: seq<Call>, sha: string -> string)
    ensures state.ledger <= Continue(state, calls, sha).ledger
    decreases |calls|
  {
    if calls != [] {
      var n := |calls| - 1;
      LedgerGrows(state, calls[..n], sha);
      var before := Continue(state, calls[..n], sha);
      if TakesEffect(before, calls[n], sha) {
        EffectOf(before, calls[n], sha);
        RowsSplit(calls[n].list, Recorded(before, calls[n]), sha);
      }
    }
  }

  ghost predicate Versioned(state: State) {
    && (forall r | r in state.ledger :: 0 < r.version <= MAX_SAFE_INTEGER)
    && (forall m | m in state.executed :: 0 < m.version <= MAX_SAFE_INTEGER)
  }

  lemma {:induction false} ContinueVersioned(state: State, calls: seq<Call>, sha: string -> string)
    requires Versioned(state)
    ensures Versioned(Continue(state, calls, sha))
    decreases |calls|
  {
    if calls != [] {
      var n := |calls| - 1;
      ContinueVersioned(state, calls[..n], sha);
      var before := Continue(state, calls[..n], sha);
      if TakesEffect(before, calls[n], sha) { EffectOf(before, calls[n], sha); }
    }
  }

  /** The list reaches `through`, or there is no version past its last one. */
  predicate Covers(list: seq<Migration>, through: int) { Top(list) >= through || Top(list) == MAX_SAFE_INTEGER }

  /** Rows behind a list lie past it, so once the list covers the baselines none of them is one. */
  lemma NoBaselineBehind(rows: seq<Row>, list: seq<Migration>, through: int, sha: string -> string)
    requires IsList(list) && list != [] && Covers(list, through)
    requires RowsOf(list, sha) <= rows && Ascending(rows) && forall r | r in rows :: r.version <= MAX_SAFE_INTEGER
    ensures BaselineRows(rows, through) == |Baselines(list, through)|
  {
    var n := |list|;
    var rest := rows[n..];
    assert rows == RowsOf(list, sha) + rest;
    assert rows[n - 1].version == Top(list);
    forall i | 0 <= i < |rest| ensures rest[i].version > through {
      assert rest[i] == rows[n + i] && rows[n + i] in rows;
    }
    SomeBaseline(rest, through);
    BaselineRowsSplit(RowsOf(list, sha), rest, through);
    PrefixCount(list, through, sha);
  }

  lemma NoBaselineAdded(state: State, list: seq<Migration>, calls: seq<Call>, through: int, sha: string -> string)
    requires IsList(list) && list != [] && Covers(list, through)
    requires state.ledger == RowsOf(list, sha) && Accounted(state, sha) && Versioned(state)
    ensures BaselineRows(Continue(state, calls, sha).ledger, through) == |Baselines(list, through)|
  {
    LedgerGrows(state, calls, sha);
    ContinueKeeps(state, calls, sha);
    ContinueVersioned(state, calls, sha);
    NoBaselineBehind(Continue(state, calls, sha).ledger, list, through, sha);
  }

  lemma NoRoomNoBaseline(state: State, call: Call, calls: seq<Call>, sha: string -> string)
    requires Accounted(state, sha) && TakesEffect(state, call, sha) && Adopts(state, call.legacy)
    requires Covers(call.list, call.legacy.value.baselineThrough)
    ensures !RanBaseline(Continue(After(state, call, sha), calls, sha), call.legacy.value.baselineThrough)
  {
    var through, adopted := call.legacy.value.baselineThrough, After(state, call, sha);
    AdoptionVersioned(state, call, sha);
    if call.list == [] {
      ContinueVersioned(adopted, calls, sha);
    } else {
      AdoptionLeaves(state, call, sha);
      NoBaselineAdded(adopted, call.list, calls, through, sha);
      AdoptedRunsBaselineIff(state, call, calls, sha);
    }
  }

  lemma AdoptionVersioned(state: State, call: Call, sha: string -> string)
    requires Accounted(state, sha) && TakesEffect(state, call, sha) && Adopts(state, call.legacy)
    ensures IsList(call.list) && Versioned(After(state, call, sha))
  {
    EffectOf(state, call, sha);
    NothingExecuted(state, sha);
  }

  lemma PendingBehind(list: seq<Migration>, more: seq<Migration>, sha: string -> string)
    ensures Pending(RowsOf(list, sha), list + more, sha, {}) == Ok(more)
  {
    var n := |list|;
    RowsSplit(list + more, n, sha);
    assert (list + more)[..n] == list && (list + more)[n..] == more;
  }

  /** A call whose list goes on after the ledger's runs just what is new. */
  lemma Extends(state: State, list: seq<Migration>, more: seq<Migration>, legacy: Option<Legacy>, sha: string -> string)
    requires state.ledger == RowsOf(list, sha) && IsList(list + more)
    requires legacy.Some? ==> IsTableName(legacy.value.ledger) && list != []
    ensures After(state, Call(list + more, legacy, {}, Committed), sha).executed == state.executed + more
  {
    PendingBehind(list, more, sha);
  }

  lemma ContinueOne(state: State, call: Call, sha: string -> string)
    ensures Continue(state, [call], sha) == After(state, call, sha)
  {
    var before := [call][..0];
    assert Continue(state, before, sha) == state;
  }

  /** The list with one more migration right behind its last. */
  function Extended(list: seq<Migration>): seq<Migration> { list + [Migration(Top(list) + 1, "x")] }

  /** Where the list falls short of the baselines, the list extended by the next version runs one. */
  lemma RoomRunsBaseline(state: State, list: seq<Migration>, through: int, sha: string -> string)
    requires IsList(list) && !Covers(list, through) && state.ledger == RowsOf(list, sha)
    ensures RanBaseline(Continue(state, [Call(Extended(list), None, {}, Committed)], sha), through)
  {
    var m, next := Migration(Top(list) + 1, "x"), Call(Extended(list), None, {}, Committed);
    Extends(state, list, [m], None, sha);
    ContinueOne(state, next, sha);
    assert Continue(state, [next], sha).executed[|state.executed|] == m;
  }

  /** No calls from here on run a migration up to this version. */
  ghost predicate NeverRunsBaseline(state: State, through: int, sha: string -> string) {
    forall calls :: !RanBaseline(Continue(state, calls, sha), through)
  }

  lemma NoRoomNever(state: State, call: Call, sha: string -> string)
    requires Accounted(state, sha) && TakesEffect(state, call, sha) && Adopts(state, call.legacy)
    requires Covers(call.list, call.legacy.value.baselineThrough)
    ensures NeverRunsBaseline(After(state, call, sha), call.legacy.value.baselineThrough, sha)
  {
    var adopted, through := After(state, call, sha), call.legacy.value.baselineThrough;
    forall calls ensures !RanBaseline(Continue(adopted, calls, sha), through) {
      NoRoomNoBaseline(state, call, calls, sha);
    }
  }

  /**
   * An adopted database never runs a baseline, whatever calls follow, exactly if the adopting list already reaches
   * `baselineThrough`, or no version is left past its last one.
   */
  lemma AdoptedNeverRunsBaselineIff(state: State, call: Call, sha: string -> string)
    requires Accounted(state, sha) && TakesEffect(state, call, sha) && Adopts(state, call.legacy)
    ensures
      NeverRunsBaseline(After(state, call, sha), call.legacy.value.baselineThrough, sha)
      <==> Covers(call.list, call.legacy.value.baselineThrough)
  {
    var through := call.legacy.value.baselineThrough;
    if Covers(call.list, through) {
      NoRoomNever(state, call, sha);
    } else {
      AdoptionLeaves(state, call, sha);
      AdoptionVersioned(state, call, sha);
      var adopted := After(state, call, sha);
      RoomRunsBaseline(adopted, call.list, through, sha);
    }
  }

  lemma EmptyAdoption(tables: map<string, History>, legacy: Legacy, sha: string -> string)
    requires IsTableName(legacy.ledger) && legacy.ledger != LEDGER
    requires tables.Keys == {legacy.ledger} && Matches(tables[legacy.ledger], legacy)
    ensures var start := EMPTY.(tables := tables);
      && Adopts(start, Some(legacy)) && TakesEffect(start, Call([], Some(legacy), {}, Committed), sha)
      && After(start, Call([], Some(legacy), {}, Committed), sha) == EMPTY
  {
    assert RowsOf([], sha) == [];
    assert tables - {legacy.ledger} == map[];
  }

  lemma FirstList(m: Migration, legacy: Legacy, sha: string -> string)
    requires IsTableName(legacy.ledger) && legacy.ledger != LEDGER && 0 < m.version <= MAX_SAFE_INTEGER && m.sql != ""
    ensures After(EMPTY, Call([m], Some(legacy), {}, Committed), sha).executed == [m]
  {
    assert RowsOf([m], sha)[..0] == [];
    assert [m][0..] == [m];
  }

  /** Adopting under an empty list drops the old ledger and records nothing: the next list runs its baselines on a
      database that already has their schema. */
  lemma AdoptedUnderEmptyList(sha: string -> string)
    ensures
      var legacy := Legacy("old_migrations", 3, "c", 7);
      var tables := map["old_migrations" := History(3, Some(3), Some("c"))];
      var first, second := Call([], Some(legacy), {}, Committed), Call([Migration(7, "create")], Some(legacy), {}, Committed);
      && Adopts(EMPTY.(tables := tables), Some(legacy)) && TakesEffect(EMPTY.(tables := tables), first, sha)
      && StateAfter(tables, [first, second], sha).executed == [Migration(7, "create")]
  {
    var legacy := Legacy("old_migrations", 3, "c", 7);
    var tables := map["old_migrations" := History(3, Some(3), Some("c"))];
    var first, second := Call([], Some(legacy), {}, Committed), Call([Migration(7, "create")], Some(legacy), {}, Committed);
    EmptyAdoption(tables, legacy, sha);
    FirstList(Migration(7, "create"), legacy, sha);
    assert [first, second][..1] == [first] && [first][..0] == [];
    assert StateAfter(tables, [first], sha) == EMPTY;
  }

  lemma AdoptsAll(state: State, call: Call, sha: string -> string)
    requires TakesEffect(state, call, sha) && Adopts(state, call.legacy) && state.executed == []
    requires Baselines(call.list, call.legacy.value.baselineThrough) == call.list
    ensures After(state, call, sha).executed == [] && After(state, call, sha).ledger == RowsOf(call.list, sha)
  {
    EffectOf(state, call, sha);
  }

  /** The same under a non-empty list: the baseline it lacks comes with a later list and is run. */
  lemma AdoptedUnderShortList(sha: string -> string)
    ensures
      var legacy := Legacy("old_migrations", 3, "c", 7);
      var tables := map["old_migrations" := History(3, Some(3), Some("c"))];
      var a, b := Migration(5, "create"), Migration(7, "alter");
      var first, second := Call([a], Some(legacy), {}, Committed), Call([a, b], Some(legacy), {}, Committed);
      && Adopts(EMPTY.(tables := tables), Some(legacy)) && TakesEffect(EMPTY.(tables := tables), first, sha)
      && StateAfter(tables, [first, second], sha).executed == [b]
  {
    var legacy := Legacy("old_migrations", 3, "c", 7);
    var tables := map["old_migrations" := History(3, Some(3), Some("c"))];
    var a, b := Migration(5, "create"), Migration(7, "alter");
    var first, second := Call([a], Some(legacy), {}, Committed), Call([a, b], Some(legacy), {}, Committed);
    var start := EMPTY.(tables := tables);
    assert [a][1..] == [] && Baselines([a], 7) == [a];
    PendingBehind([a], [], sha);
    assert [a] + [] == [a];
    assert Apply(start, [a], Some(legacy), sha, {}).Ok?;
    AdoptsAll(start, first, sha);
    var adopted := After(start, first, sha);
    Extends(adopted, [a], [b], Some(legacy), sha);
    assert [a] + [b] == [a, b] && [first, second][..1] == [first] && [first][..0] == [];
    assert StateAfter(tables, [first], sha) == adopted;
  }
}
