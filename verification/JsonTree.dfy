/** JSON values as trees, the level at which records are written out and read back. */
module JsonTree {
  import opened Prelude

  /** Member names the codecs know, and any other. */
  datatype Key =
    | V | Id | Type | OccurredAtMs | WorkKey | Payload | SubjectKey | TenantKey
    | WorkId | CorrelationId | CorrelationSource | Operation | AttributionKey | CausationKey | OriginKey | Depth | ReplayKey
    | Initiator | OnBehalfOf | Kind | Identity | RunId | Source
    | Other(name: string)

  /** `Number` is an integral number; `Fraction` any other. Objects keep the order of their members. */
  datatype Json =
    | Null
    | Bool(flag: bool)
    | Number(n: int)
    | Fraction(lexeme: string)
    | String(text: string)
    | Array(items: seq<Json>)
    | Object(fields: seq<Field>)

  datatype Field = Field(key: Key, value: Json)

  /** A member lookup; None is `undefined`. */
  function Get(fields: seq<Field>, key: Key): Option<Json> {
    if fields == [] then None
    else if fields[0].key == key then Some(fields[0].value)
    else Get(fields[1..], key)
  }

  /** `value == null` counts as absent. */
  function Present(value: Option<Json>): Option<Json> { if value == Some(Null) then None else value }

  predicate OnlyKeys(fields: seq<Field>, allowed: set<Key>) { forall i | 0 <= i < |fields| :: fields[i].key in allowed }

  /** A member an object literal may leave undefined, which the printed form omits. */
  datatype Spec = Spec(key: Key, value: Option<Json>)

  function Build(specs: seq<Spec>): seq<Field> {
    if specs == [] then []
    else if specs[0].value.Some? then [Field(specs[0].key, specs[0].value.value)] + Build(specs[1..])
    else Build(specs[1..])
  }

  lemma GetFirst(field: Field, rest: seq<Field>, key: Key)
    ensures Get([field] + rest, key) == if field.key == key then Some(field.value) else Get(rest, key)
  {
    assert ([field] + rest)[1..] == rest;
  }

  ghost predicate DistinctKeys(specs: seq<Spec>) {
    forall i, j | 0 <= i < j < |specs| :: specs[i].key != specs[j].key
  }

  lemma {:induction false} GetAbsent(specs: seq<Spec>, key: Key)
    requires forall i | 0 <= i < |specs| :: specs[i].key != key
    ensures Get(Build(specs), key) == None
    decreases |specs|
  {
    if specs != [] {
      GetAbsent(specs[1..], key);
      if specs[0].value.Some? { assert Build(specs)[1..] == Build(specs[1..]); }
    }
  }

  /** A built object has each of its members as specified. */
  lemma {:induction false} GetBuilt(specs: seq<Spec>, i: nat)
    requires DistinctKeys(specs) && i < |specs|
    ensures Get(Build(specs), specs[i].key) == specs[i].value
    decreases |specs|
  {
    var rest := specs[1..];
    if specs[0].value.Some? { assert Build(specs)[1..] == Build(rest); }
    if i == 0 {
      GetAbsent(rest, specs[0].key);
    } else {
      assert specs[i] == rest[i - 1];
      GetBuilt(rest, i - 1);
    }
  }

  lemma {:induction false} BuiltKeys(specs: seq<Spec>, allowed: set<Key>)
    requires forall i | 0 <= i < |specs| :: specs[i].key in allowed
    ensures OnlyKeys(Build(specs), allowed)
    decreases |specs|
  {
    if specs != [] { BuiltKeys(specs[1..], allowed); }
  }

  // ----- Replacing a member in place, as an object spread does -----

  function Put(fields: seq<Field>, key: Key, value: Json): seq<Field> {
    if fields == [] then [Field(key, value)]
    else if fields[0].key == key then [Field(key, value)] + fields[1..]
    else [fields[0]] + Put(fields[1..], key, value)
  }

  lemma {:induction false} GetPut(fields: seq<Field>, key: Key, value: Json, other: Key)
    ensures Get(Put(fields, key, value), other) == if other == key then Some(value) else Get(fields, other)
    decreases |fields|
  {
    var field := Field(key, value);
    if fields == [] {
      assert [field] + [] == [field];
      GetFirst(field, [], other);
    } else if fields[0].key == key {
      GetFirst(field, fields[1..], other);
    } else {
      var rest := Put(fields[1..], key, value);
      GetPut(fields[1..], key, value, other);
      assert Put(fields, key, value) == [fields[0]] + rest;
      GetFirst(fields[0], rest, other);
    }
  }

  lemma {:induction false} PutSame(fields: seq<Field>, key: Key, value: Json)
    requires Get(fields, key) == Some(value)
    ensures Put(fields, key, value) == fields
    decreases |fields|
  {
    assert fields == [fields[0]] + fields[1..];
    if fields[0].key != key {
      PutSame(fields[1..], key, value);
    } else {
      assert fields[0] == Field(key, value);
    }
  }

  lemma {:induction false} PutKeepsLength(fields: seq<Field>, key: Key, value: Json)
    requires Get(fields, key).Some?
    ensures |Put(fields, key, value)| == |fields|
    decreases |fields|
  {
    if fields[0].key != key { PutKeepsLength(fields[1..], key, value); }
  }

  // ----- The trees that stand for JavaScript values -----

  /** Which numbers are doubles, by their integral value or their printed form. */
  datatype Doubles = Doubles(integral: int -> bool, fraction: string -> bool)

  /** `Number.isSafeInteger` numbers are doubles. */
  ghost predicate HoldSafe(d: Doubles) { forall n | -MAX_SAFE_INTEGER <= n <= MAX_SAFE_INTEGER :: d.integral(n) }

  /** The names that are keys of their own. */
  const KNOWN := {
    "v", "id", "type", "occurred_at_ms", "work", "payload", "subject", "tenant", "work_id", "correlation_id",
    "correlation_source", "operation", "attribution", "causation", "origin", "depth", "replay", "initiator",
    "on_behalf_of", "kind", "identity", "run_id", "source"}

  /** Array indices, below 2^32 - 1: objects list them first, in ascending order. */
  predicate IsIndex(key: Key) {
    && key.Other? && 1 <= |key.name| <= 10 && (forall i | 0 <= i < |key.name| :: IsDigit(key.name[i]))
    && (key.name[0] == '0' ==> |key.name| == 1) && (|key.name| == 10 ==> StringLess(key.name, "4294967295"))
  }

  predicate IndexBefore(a: Key, b: Key) {
    IsIndex(a) && (IsIndex(b) ==> |a.name| < |b.name| || (|a.name| == |b.name| && StringLess(a.name, b.name)))
  }

  function Keys(fields: seq<Field>): seq<Key> { seq(|fields|, i requires 0 <= i < |fields| => fields[i].key) }

  /** Every name once, indices first and ascending. */
  predicate KeysOk(keys: seq<Key>) {
    && (forall i | 0 <= i < |keys| && keys[i].Other? :: keys[i].name !in KNOWN)
    && forall i, j | 0 <= i < j < |keys| :: keys[i] != keys[j] && (IsIndex(keys[j]) ==> IndexBefore(keys[i], keys[j]))
  }

  predicate IsValue(tree: Json, d: Doubles)
    decreases tree
  {
    match tree
    case Number(n) => d.integral(n)
    case Fraction(lexeme) => d.fraction(lexeme)
    case Array(items) => forall i | 0 <= i < |items| :: IsValue(items[i], d)
    case Object(fields) => KeysOk(Keys(fields)) && forall i | 0 <= i < |fields| :: IsValue(fields[i].value, d)
    case _ => true
  }

  predicate AreValues(specs: seq<Spec>, d: Doubles) {
    forall i | 0 <= i < |specs| :: specs[i].value.Some? ==> IsValue(specs[i].value.value, d)
  }

  lemma {:induction false} BuiltHas(specs: seq<Spec>, i: nat) returns (j: nat)
    requires i < |Build(specs)|
    ensures j < |specs| && specs[j] == Spec(Build(specs)[i].key, Some(Build(specs)[i].value))
    decreases |specs|
  {
    if specs[0].value.None? {
      j := BuiltHas(specs[1..], i);
      j := j + 1;
    } else if i == 0 {
      j := 0;
    } else {
      j := BuiltHas(specs[1..], i - 1);
      j := j + 1;
    }
  }

  lemma {:induction false} BuiltDistinct(specs: seq<Spec>, i: nat, j: nat)
    requires DistinctKeys(specs) && i < j < |Build(specs)|
    ensures Build(specs)[i].key != Build(specs)[j].key
    decreases |specs|
  {
    var rest := specs[1..];
    if specs[0].value.None? {
      BuiltDistinct(rest, i, j);
    } else if i == 0 {
      var k := BuiltHas(rest, j - 1);
      assert rest[k] == specs[k + 1];
    } else {
      BuiltDistinct(rest, i - 1, j - 1);
    }
  }

  /** An object literal of named members and values is a value. */
  lemma BuiltIsValue(specs: seq<Spec>, d: Doubles)
    requires DistinctKeys(specs) && AreValues(specs, d) && forall i | 0 <= i < |specs| :: !specs[i].key.Other?
    ensures IsValue(Object(Build(specs)), d)
  {
    var fields := Build(specs);
    forall i | 0 <= i < |fields| ensures IsValue(fields[i].value, d) && !fields[i].key.Other? {
      var j := BuiltHas(specs, i);
    }
    forall i, j | 0 <= i < j < |fields| ensures fields[i].key != fields[j].key {
      BuiltDistinct(specs, i, j);
    }
  }

  lemma {:induction false} PutAt(fields: seq<Field>, key: Key, value: Json)
    requires Get(fields, key).Some?
    ensures Keys(Put(fields, key, value)) == Keys(fields)
    ensures forall i | 0 <= i < |fields| :: Put(fields, key, value)[i].value in {value, fields[i].value}
    decreases |fields|
  {
    PutKeepsLength(fields, key, value);
    if fields[0].key != key {
      var rest := fields[1..];
      PutAt(rest, key, value);
      PutKeepsLength(rest, key, value);
      assert forall i | 0 < i < |fields| ::
          Keys(Put(fields, key, value))[i] == Keys(Put(rest, key, value))[i - 1] && Keys(fields)[i] == Keys(rest)[i - 1];
    }
  }

  /** Replacing a member by a value keeps a value. */
  lemma PutIsValue(fields: seq<Field>, key: Key, value: Json, d: Doubles)
    requires IsValue(Object(fields), d) && IsValue(value, d) && Get(fields, key).Some?
    ensures IsValue(Object(Put(fields, key, value)), d)
  {
    PutAt(fields, key, value);
    PutKeepsLength(fields, key, value);
  }
}
