/**
 * The ledger row by row: what a call demands of its list and of the database, and what it leaves
 * (src/shared/postgres/index.ts).
 */
module MigrationRows {
  import opened Prelude
  import opened Migrations

  /** `/^[a-z_][a-z0-9_]*$/` */
  lemma TableNameIs(s: string)
    ensures IsTableName(s) <==>
      s != "" && s[0] in "abcdefghijklmnopqrstuvwxyz_" && forall i | 0 <= i < |s| :: s[i] in "abcdefghijklmnopqrstuvwxyz_0123456789"
  {
    var letters, digits := "abcdefghijklmnopqrstuvwxyz", "0123456789";
    assert "abcdefghijklmnopqrstuvwxyz_" == letters + "_" && "abcdefghijklmnopqrstuvwxyz_0123456789" == letters + "_" + digits;
    forall i | 0 <= i < |s| ensures IsLowerLetter(s[i]) <==> s[i] in letters ensures IsDigit(s[i]) <==> s[i] in digits {
      LetterIs(s[i]);
    }
  }

  /** The rows a call finds recorded, or records without running them: the ledger's, or, when it adopts a legacy history,
      the versions up to its bound. */
  lemma RecordedIs(state: State, call: Call)
    requires IsList(call.list)
    ensures
      var n := Recorded(state, call);
      if state.ledger == [] && call.legacy.Some? && (call.legacy.value.ledger == "n2f_migrations" || call.legacy.value.ledger in state.tables)
      then n <= |call.list| && forall i | 0 <= i < |call.list| :: call.list[i].version <= call.legacy.value.baselineThrough <==> i < n
      else n == |state.ledger|
  {
    if Adopts(state, call.legacy) { BaselinesArePrefix(call.list, call.legacy.value.baselineThrough); }
  }

  /** A call that takes effect leaves one row for each migration of its list, with its version and the checksum of its text;
      the migrations behind the recorded ones are run, in order. */
  lemma RowsAre(state: State, call: Call, sha: string -> string)
    requires TakesEffect(state, call, sha)
    ensures
      var next, n := After(state, call, sha), Recorded(state, call);
      && |next.ledger| == |call.list| && n <= |call.list|
      && (forall i | 0 <= i < |call.list| ::
            next.ledger[i].version == call.list[i].version && next.ledger[i].checksum == sha(call.list[i].sql))
      && next.executed == state.executed + call.list[n..]
      && (forall i | 0 <= i < |state.ledger| :: next.ledger[i] == state.ledger[i])
  {
    EffectOf(state, call, sha);
    var n := Recorded(state, call);
    if state.ledger != [] { RowsSplit(call.list, n, sha); }
  }

  /** The ledger of any run: the last list that took effect, version and checksum of each of its migrations. */
  lemma LedgerRowsAre(tables: map<string, History>, calls: seq<Call>, sha: string -> string)
    ensures
      var ledger, list := StateAfter(tables, calls, sha).ledger, LastList(tables, calls, sha);
      |ledger| == |list| && forall i | 0 <= i < |list| ::
        ledger[i].version == list[i].version && ledger[i].checksum == sha(list[i].sql)
  {
    LedgerIsLastList(tables, calls, sha);
  }

  /** A call is carried out exactly if its list is well-formed, its legacy history, if there is one to adopt, is complete,
      every recorded row is the list's, and no migration it has to run fails. */
  lemma CarriedOutIff(state: State, call: Call, sha: string -> string)
    ensures Apply(state, call.list, call.legacy, sha, call.broken).Ok? <==>
      && (call.legacy.Some? ==> IsTableName(call.legacy.value.ledger))
      && (forall i | 0 <= i < |call.list| :: 0 < call.list[i].version <= 9007199254740991 && call.list[i].sql != "")
      && (forall i, j | 0 <= i < j < |call.list| :: call.list[i].version < call.list[j].version)
      && (if state.ledger == [] && call.legacy.Some? && call.legacy.value.ledger == "n2f_migrations" then false
          else if state.ledger == [] && call.legacy.Some? && call.legacy.value.ledger in state.tables then
            var legacy, found := call.legacy.value, state.tables[call.legacy.value.ledger];
            && found.count == legacy.versions && found.checksum == Some(legacy.finalChecksum)
            && (found.last == Some(legacy.versions) || (found.last == None && legacy.versions == 0))
          else
            |state.ledger| <= |call.list| && forall i | 0 <= i < |state.ledger| ::
              state.ledger[i].version == call.list[i].version && state.ledger[i].checksum == sha(call.list[i].sql))
      && (forall i | Recorded(state, call) <= i < |call.list| :: call.list[i].sql !in call.broken)
  {
    if IsList(call.list) {
      RecordedIs(state, call);
      if Adopts(state, call.legacy) {
        AdoptedRows(call.list, call.legacy.value.baselineThrough, sha);
      } else {
        LedgerMatches(state.ledger, call.list, sha);
      }
    }
  }

  lemma AdoptedRows(list: seq<Migration>, through: int, sha: string -> string)
    requires IsList(list)
    ensures
      var rows := RowsOf(Baselines(list, through), sha);
      |rows| <= |list| && RowsOf(list, sha)[..|rows|] == rows
  {
    BaselinesArePrefix(list, through);
    var n := |Baselines(list, through)|;
    assert Baselines(list, through) == list[..n];
    RowsSplit(list, n, sha);
  }

  lemma LedgerMatches(rows: seq<Row>, list: seq<Migration>, sha: string -> string)
    ensures
      (|rows| <= |list| && RowsOf(list, sha)[..|rows|] == rows)
      <==> |rows| <= |list| && forall i | 0 <= i < |rows| :: rows[i].version == list[i].version && rows[i].checksum == sha(list[i].sql)
  {
    if |rows| <= |list| && forall i | 0 <= i < |rows| :: rows[i].version == list[i].version && rows[i].checksum == sha(list[i].sql) {
      forall i | 0 <= i < |rows| ensures RowsOf(list, sha)[i] == rows[i] {
      }
    }
  }
}
