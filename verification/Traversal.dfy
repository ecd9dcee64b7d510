/** Following page cursors from the first page to the last (src/shared/pagination/index.ts). */
module Traversal {
  import opened Prelude
  import opened Keyset
  import Cursor
  import JsonGrammar

  const BAR := '|' as int

  /** `Date.prototype.toISOString` and `new Date(text)`; the latter gives None for an invalid date. */
  datatype Calendar = Calendar(iso: int -> Text, parse: Text -> Option<int>)

  /** Times a JavaScript date can hold. */
  predicate IsTime(at: int) { -8640000000000000 <= at <= 8640000000000000 }

  ghost predicate IsoRoundTrips(dates: Calendar) {
    forall at: int | IsTime(at) :: dates.iso(at) != [] && BAR !in dates.iso(at) && dates.parse(dates.iso(at)) == Some(at)
  }

  function Position(key: After, dates: Calendar): Text { dates.iso(key.at) + ([BAR] + key.id) }

  function IndexOf(s: Text, u: int): (i: nat)
    ensures i <= |s| && u !in s[..i] && (i < |s| ==> s[i] == u)
  {
    if s == [] || s[0] == u then 0 else 1 + IndexOf(s[1..], u)
  }

  /** Exactly two non-empty parts around one bar, the first a date in ISO form. */
  function ReadPosition(value: Text, dates: Calendar): Option<After> {
    var i := IndexOf(value, BAR);
    if i == 0 || i == |value| then None
    else
      var iso, id := value[..i], value[i + 1..];
      if id == [] || BAR in id then None
      else
        match dates.parse(iso)
        case None => None
        case Some(at) => if dates.iso(at) == iso then Some(After(at, id)) else None
  }

  /** A key whose position fits into a cursor. */
  predicate Encodable(key: After, dates: Calendar) {
    && IsTime(key.at) && key.id != [] && BAR !in key.id
    && Cursor.ValidPart(Position(key, dates), Cursor.MAX_POSITION_BYTES)
  }

  lemma {:induction false} IndexAfter(s: Text, t: Text, u: int)
    requires u !in s
    ensures IndexOf(s + ([u] + t), u) == |s|
    decreases |s|
  {
    if s == [] {
      assert s + ([u] + t) == [u] + t;
    } else {
      assert (s + ([u] + t))[1..] == s[1..] + ([u] + t);
      IndexAfter(s[1..], t, u);
    }
  }

  lemma PositionReads(key: After, dates: Calendar)
    requires IsoRoundTrips(dates) && IsTime(key.at) && key.id != [] && BAR !in key.id
    ensures ReadPosition(Position(key, dates), dates) == Some(key)
  {
    IndexAfter(dates.iso(key.at), key.id, BAR);
    assert Position(key, dates)[..|dates.iso(key.at)|] == dates.iso(key.at);
    assert Position(key, dates)[|dates.iso(key.at)| + 1..] == key.id;
  }

  /** The other way: whatever reads as a key is the one position of that key. */
  lemma ReadIsPosition(value: Text, dates: Calendar)
    requires ReadPosition(value, dates).Some?
    ensures value == Position(ReadPosition(value, dates).value, dates)
  {
    var i := IndexOf(value, BAR);
    assert value == value[..i] + ([BAR] + value[i + 1..]);
  }

  // ----- One page -----

  datatype Page<+T> = Page(items: seq<Row<T>>, hasMore: bool, nextCursor: Option<string>)

  /** Cut the lookahead row off and issue the cursor of the last item. */
  function Window<T>(rows: seq<Row<T>>, limit: int, scope: Text, dates: Calendar): Option<Page<T>> {
    if limit < 1 || limit > 100 || |rows| > limit + 1 then None
    else
      var items := Take(rows, limit);
      if |rows| <= limit then Some(Page(items, false, None))
      else
        match Cursor.Encode(scope, Position(items[|items| - 1].key, dates))
        case None => None
        case Some(wire) => Some(Page(items, true, Some(wire)))
  }

  /** Where a request starts: no cursor is the beginning; a bad one is refused. */
  function Start(scope: Text, cursor: Option<string>, dates: Calendar, isOne: Text -> bool): Option<Option<After>> {
    if cursor.None? then Some(None)
    else
      match Cursor.Decode(cursor.value, scope, isOne)
      case None => None
      case Some(position) =>
        match ReadPosition(position, dates)
        case None => None
        case Some(key) => Some(Some(key))
  }

  /** The cursor after a key. */
  function CursorAfter(scope: Text, after: Option<After>, dates: Calendar): Option<string> {
    if after.None? then None else Cursor.Encode(scope, Position(after.value, dates))
  }

  lemma StartInvertsCursor(scope: Text, after: Option<After>, dates: Calendar, isOne: Text -> bool)
    requires Cursor.ValidPart(scope, Cursor.MAX_SCOPE_BYTES) && IsoRoundTrips(dates) && isOne(JsonGrammar.Units("1"))
    requires after.Some? ==> Encodable(after.value, dates)
    ensures after.Some? ==> CursorAfter(scope, after, dates).Some?
    ensures Start(scope, CursorAfter(scope, after, dates), dates, isOne) == Some(after)
  {
    if after.Some? {
      Cursor.DecodeInvertsEncode(scope, Position(after.value, dates), scope, isOne);
      PositionReads(after.value, dates);
    }
  }

  // ----- The traversal -----

  /** What a client has when it stops: the items of all pages, and whether the last page said there are no more. */
  datatype Walk<+T> = Walk(items: seq<Row<T>>, pages: nat, done: bool)

  /** Each page is read from the table as it is at that moment; a refused request or page stops the walk. */
  function Follow<T>(tables: seq<seq<Row<T>>>, limit: int, scope: Text, cursor: Option<string>,
                     dates: Calendar, isOne: Text -> bool): Walk<T>
    decreases |tables|
  {
    if tables == [] || limit < 0 then Walk([], 0, false)
    else
      match Start(scope, cursor, dates, isOne)
      case None => Walk([], 0, false)
      case Some(after) =>
        match Window(KeysetPage(tables[0], limit, after), limit, scope, dates)
        case None => Walk([], 0, false)
        case Some(page) =>
          if !page.hasMore then Walk(page.items, 1, true)
          else
            var rest := Follow(tables[1..], limit, scope, page.nextCursor, dates, isOne);
            Walk(page.items + rest.items, 1 + rest.pages, rest.done)
  }

  ghost predicate TableOk<T>(rows: seq<Row<T>>, dates: Calendar) {
    DistinctKeys(rows) && forall i | 0 <= i < |rows| :: Encodable(rows[i].key, dates)
  }

  ghost predicate Setting<T>(tables: seq<seq<Row<T>>>, limit: int, scope: Text, dates: Calendar, isOne: Text -> bool) {
    && 1 <= limit <= 100
    && Cursor.ValidPart(scope, Cursor.MAX_SCOPE_BYTES) && IsoRoundTrips(dates) && isOne(JsonGrammar.Units("1"))
    && forall k | 0 <= k < |tables| :: TableOk(tables[k], dates)
  }

  /** The same walk in terms of keys, without the wire form of the cursors. */
  function Steps<T>(tables: seq<seq<Row<T>>>, limit: nat, after: Option<After>): Walk<T>
    requires limit >= 1
    decreases |tables|
  {
    if tables == [] then Walk([], 0, false)
    else
      var rows := KeysetPage(tables[0], limit, after);
      if |rows| <= limit then Walk(rows, 1, true)
      else
        var rest := Steps(tables[1..], limit, Some(rows[limit - 1].key));
        Walk(rows[..limit] + rest.items, 1 + rest.pages, rest.done)
  }

  lemma WindowIs<T>(rows: seq<Row<T>>, limit: int, scope: Text, dates: Calendar)
    requires 1 <= limit <= 100 && |rows| <= limit + 1 && Cursor.ValidPart(scope, Cursor.MAX_SCOPE_BYTES)
    requires |rows| > limit ==> Encodable(rows[limit - 1].key, dates)
    ensures Window(rows, limit, scope, dates)
         == if |rows| <= limit then Some(Page(rows, false, None))
            else Some(Page(rows[..limit], true, CursorAfter(scope, Some(rows[limit - 1].key), dates)))
  {
    if |rows| > limit {
      Cursor.EncodeRefusesOnlyInvalidParts(scope, Position(rows[limit - 1].key, dates));
    }
  }

  /** The keys of a page taken from an encodable table are encodable. */
  lemma PageKeys<T>(rows: seq<Row<T>>, limit: nat, after: Option<After>, dates: Calendar)
    requires TableOk(rows, dates)
    ensures forall i | 0 <= i < |KeysetPage(rows, limit, after)| :: Encodable(KeysetPage(rows, limit, after)[i].key, dates)
    ensures |KeysetPage(rows, limit, after)| <= limit + 1
  {
    PageIs(rows, limit, after);
    var page := KeysetPage(rows, limit, after);
    forall i | 0 <= i < |page| ensures Encodable(page[i].key, dates) {
      var j :| 0 <= j < |rows| && rows[j] == page[i];
    }
  }

  lemma SettingRest<T>(tables: seq<seq<Row<T>>>, limit: int, scope: Text, dates: Calendar, isOne: Text -> bool)
    requires tables != [] && Setting(tables, limit, scope, dates, isOne)
    ensures TableOk(tables[0], dates) && Setting(tables[1..], limit, scope, dates, isOne)
  {
    forall k | 0 <= k < |tables[1..]| ensures TableOk(tables[1..][k], dates) {
      assert tables[1..][k] == tables[k + 1];
    }
  }

  lemma FollowsPage<T>(tables: seq<seq<Row<T>>>, limit: int, scope: Text, cursor: Option<string>, after: Option<After>,
                       page: Page<T>, dates: Calendar, isOne: Text -> bool)
    requires tables != [] && limit >= 0 && Start(scope, cursor, dates, isOne) == Some(after)
    requires Window(KeysetPage(tables[0], limit, after), limit, scope, dates) == Some(page)
    ensures Follow(tables, limit, scope, cursor, dates, isOne)
         == if !page.hasMore then Walk(page.items, 1, true)
            else
              var rest := Follow(tables[1..], limit, scope, page.nextCursor, dates, isOne);
              Walk(page.items + rest.items, 1 + rest.pages, rest.done)
  {
  }

  /** One page over the wire. */
  lemma FollowsOne<T>(tables: seq<seq<Row<T>>>, limit: int, scope: Text, after: Option<After>,
                      dates: Calendar, isOne: Text -> bool)
    requires tables != [] && Setting(tables, limit, scope, dates, isOne)
    requires after.Some? ==> Encodable(after.value, dates)
    ensures
      var rows := KeysetPage(tables[0], limit, after);
      var walk := Follow(tables, limit, scope, CursorAfter(scope, after, dates), dates, isOne);
      if |rows| <= limit then walk == Walk(rows, 1, true)
      else
        && Encodable(rows[limit - 1].key, dates)
        && var rest := Follow(tables[1..], limit, scope, CursorAfter(scope, Some(rows[limit - 1].key), dates), dates, isOne);
        walk == Walk(rows[..limit] + rest.items, 1 + rest.pages, rest.done)
  {
    var rows := KeysetPage(tables[0], limit, after);
    SettingRest(tables, limit, scope, dates, isOne);
    PageKeys(tables[0], limit, after, dates);
    StartInvertsCursor(scope, after, dates, isOne);
    WindowIs(rows, limit, scope, dates);
    var page := if |rows| <= limit then Page(rows, false, None)
                else Page(rows[..limit], true, CursorAfter(scope, Some(rows[limit - 1].key), dates));
    FollowsPage(tables, limit, scope, CursorAfter(scope, after, dates), after, page, dates, isOne);
  }

  /** No cursor is ever refused or misread on the way: the walk over the wire is the walk over the keys. */
  lemma {:induction false} FollowIsSteps<T>(tables: seq<seq<Row<T>>>, limit: int, scope: Text, after: Option<After>,
                                            dates: Calendar, isOne: Text -> bool)
    requires Setting(tables, limit, scope, dates, isOne)
    requires after.Some? ==> Encodable(after.value, dates)
    ensures Follow(tables, limit, scope, CursorAfter(scope, after, dates), dates, isOne) == Steps(tables, limit, after)
    decreases |tables|
  {
    if tables != [] {
      var rows := KeysetPage(tables[0], limit, after);
      FollowsOne(tables, limit, scope, after, dates, isOne);
      if |rows| > limit {
        SettingRest(tables, limit, scope, dates, isOne);
        FollowIsSteps(tables[1..], limit, scope, Some(rows[limit - 1].key), dates, isOne);
      }
    }
  }

  predicate Past(after: Option<After>, key: After) { after.Some? ==> Less(after.value, key) }

  ghost predicate AllDistinct<T>(tables: seq<seq<Row<T>>>) {
    forall k | 0 <= k < |tables| :: DistinctKeys(tables[k])
  }

  lemma {:induction false} JoinIncreasing<T>(a: seq<Row<T>>, b: seq<Row<T>>)
    requires Increasing(a) && Increasing(b)
    requires a != [] && forall j | 0 <= j < |b| :: Less(a[|a| - 1].key, b[j].key)
    ensures Increasing(a + b)
  {
    forall i, j | 0 <= i < j < |a + b| ensures Less((a + b)[i].key, (a + b)[j].key) {
      if i < |a| - 1 && j >= |a| { LessTransitive(a[i].key, a[|a| - 1].key, b[j - |a|].key); }
    }
  }

  /** The walk lists keys in order, all past the start. */
  lemma {:induction false} WalkOrdered<T>(tables: seq<seq<Row<T>>>, limit: nat, after: Option<After>)
    requires limit >= 1 && AllDistinct(tables)
    ensures
      var walk := Steps(tables, limit, after);
      && Increasing(walk.items) && walk.pages <= |tables|
      && (forall i | 0 <= i < |walk.items| :: Past(after, walk.items[i].key))
    decreases |tables|
  {
    if tables != [] {
      var rows := KeysetPage(tables[0], limit, after);
      PageIs(tables[0], limit, after);
      if |rows| > limit {
        var last := Some(rows[limit - 1].key);
        var rest := Steps(tables[1..], limit, last);
        WalkOrdered(tables[1..], limit, last);
        JoinIncreasing(rows[..limit], rest.items);
        forall i | 0 <= i < |rest.items| ensures Past(after, rest.items[i].key) {
          if after.Some? { LessTransitive(after.value, last.value, rest.items[i].key); }
        }
      }
    }
  }

  ghost predicate FromTables<T>(row: Row<T>, tables: seq<seq<Row<T>>>, pages: nat) {
    exists k | 0 <= k < pages && k < |tables| :: row in tables[k]
  }

  ghost predicate AllFrom<T>(rows: seq<Row<T>>, tables: seq<seq<Row<T>>>, pages: nat) {
    forall i | 0 <= i < |rows| :: FromTables(rows[i], tables, pages)
  }

  lemma LaterTables<T>(rows: seq<Row<T>>, tables: seq<seq<Row<T>>>, pages: nat)
    requires tables != [] && AllFrom(rows, tables[1..], pages)
    ensures AllFrom(rows, tables, 1 + pages)
  {
    forall i | 0 <= i < |rows| ensures FromTables(rows[i], tables, 1 + pages) {
      assert FromTables(rows[i], tables[1..], pages);
      var k :| 0 <= k < pages && k < |tables[1..]| && rows[i] in tables[1..][k];
      assert rows[i] in tables[k + 1];
    }
  }

  lemma FirstTable<T>(tables: seq<seq<Row<T>>>, limit: nat, after: Option<After>, pages: nat)
    requires tables != [] && DistinctKeys(tables[0]) && pages >= 1
    ensures AllFrom(KeysetPage(tables[0], limit, after), tables, pages)
  {
    PageIs(tables[0], limit, after);
    var rows := KeysetPage(tables[0], limit, after);
    forall i | 0 <= i < |rows| ensures FromTables(rows[i], tables, pages) {
      assert rows[i] in tables[0];
    }
  }

  /** Every listed row comes from the table its page was read from. */
  lemma {:induction false} WalkHonest<T>(tables: seq<seq<Row<T>>>, limit: nat, after: Option<After>)
    requires limit >= 1 && AllDistinct(tables)
    ensures var walk := Steps(tables, limit, after); AllFrom(walk.items, tables, walk.pages)
    decreases |tables|
  {
    if tables != [] {
      var walk := Steps(tables, limit, after);
      var rows := KeysetPage(tables[0], limit, after);
      FirstTable(tables, limit, after, walk.pages);
      if |rows| > limit {
        var rest := Steps(tables[1..], limit, Some(rows[limit - 1].key));
        WalkHonest(tables[1..], limit, Some(rows[limit - 1].key));
        LaterTables(rest.items, tables, rest.pages);
      }
    }
  }

  ghost predicate Throughout<T>(tables: seq<seq<Row<T>>>, pages: nat, key: After)
    requires pages <= |tables|
  {
    forall k | 0 <= k < pages :: Keyset.HasKey(tables[k], key)
  }

  lemma InFullPage<T>(table: seq<Row<T>>, limit: nat, after: Option<After>, key: After) returns (i: nat)
    requires DistinctKeys(table) && Keyset.HasKey(table, key) && Past(after, key)
    requires var rows := KeysetPage(table, limit, after);
      limit >= 1 && |rows| > limit && !Less(rows[limit - 1].key, key)
    ensures i < limit && i < |KeysetPage(table, limit, after)| && KeysetPage(table, limit, after)[i].key == key
  {
    var rows := KeysetPage(table, limit, after);
    PageIs(table, limit, after);
    var row :| row in table && row.key == key;
    assert row in rows;
    i :| 0 <= i < |rows| && rows[i] == row;
  }

  lemma InLastPage<T>(table: seq<Row<T>>, limit: nat, after: Option<After>, key: After)
    requires DistinctKeys(table) && Keyset.HasKey(table, key) && Past(after, key)
    requires |KeysetPage(table, limit, after)| <= limit
    ensures Keyset.HasKey(KeysetPage(table, limit, after), key)
  {
    var rows := KeysetPage(table, limit, after);
    PageIs(table, limit, after);
    var row :| row in table && row.key == key;
    var i :| 0 <= i < |rows| && rows[i] == row;
  }

  lemma ThroughoutRest<T>(tables: seq<seq<Row<T>>>, pages: nat, key: After)
    requires pages < |tables| && Throughout(tables, 1 + pages, key)
    ensures Throughout(tables[1..], pages, key)
  {
    forall k | 0 <= k < pages ensures Keyset.HasKey(tables[1..][k], key) {
      assert Keyset.HasKey(tables[k + 1], key);
    }
  }

  /** A key that is there whenever a page is read, and past the start, is listed by a walk that reaches the end. */
  lemma {:induction false} WalkComplete<T>(tables: seq<seq<Row<T>>>, limit: nat, after: Option<After>, key: After)
    requires limit >= 1 && AllDistinct(tables) && Past(after, key)
    requires var walk := Steps(tables, limit, after); walk.done && walk.pages <= |tables| && Throughout(tables, walk.pages, key)
    ensures Keyset.HasKey(Steps(tables, limit, after).items, key)
    decreases |tables|
  {
    var walk := Steps(tables, limit, after);
    var rows := KeysetPage(tables[0], limit, after);
    assert Keyset.HasKey(tables[0], key);
    if |rows| <= limit {
      InLastPage(tables[0], limit, after, key);
    } else {
      var last := Some(rows[limit - 1].key);
      var rest := Steps(tables[1..], limit, last);
      if Less(last.value, key) {
        ThroughoutRest(tables, rest.pages, key);
        WalkComplete(tables[1..], limit, last, key);
        var j :| 0 <= j < |rest.items| && rest.items[j].key == key;
        assert walk.items[limit + j].key == key;
      } else {
        var i := InFullPage(tables[0], limit, after, key);
        assert walk.items[i].key == key;
      }
    }
  }

  ghost predicate ExactlyOnce<T>(rows: seq<Row<T>>, key: After) {
    exists i | 0 <= i < |rows| :: rows[i].key == key && forall j | 0 <= j < |rows| && j != i :: rows[j].key != key
  }

  lemma OnceInOrder<T>(rows: seq<Row<T>>, key: After)
    requires Increasing(rows) && Keyset.HasKey(rows, key)
    ensures ExactlyOnce(rows, key)
  {
    var i :| 0 <= i < |rows| && rows[i].key == key;
    LessTotal(key, key);
    forall j | 0 <= j < |rows| && j != i ensures rows[j].key != key {
      if j < i { assert Less(rows[j].key, rows[i].key); } else { assert Less(rows[i].key, rows[j].key); }
    }
  }

  /** From the first page to the last, while other rows come and go: the listing is in (time, id) order, holds only rows
      of the tables it read, and lists every row present throughout exactly once. */
  lemma StableTraversal<T>(tables: seq<seq<Row<T>>>, limit: int, scope: Text, dates: Calendar, isOne: Text -> bool, key: After)
    requires Setting(tables, limit, scope, dates, isOne)
    ensures
      var walk := Follow(tables, limit, scope, None, dates, isOne);
      && Increasing(walk.items) && walk.pages <= |tables|
      && AllFrom(walk.items, tables, walk.pages)
      && (walk.done && Throughout(tables, walk.pages, key) ==> ExactlyOnce(walk.items, key))
  {
    FollowIsSteps(tables, limit, scope, None, dates, isOne);
    var walk := Steps(tables, limit, None);
    WalkOrdered(tables, limit, None);
    WalkHonest(tables, limit, None);
    if walk.done && Throughout(tables, walk.pages, key) {
      WalkComplete(tables, limit, None, key);
      OnceInOrder(walk.items, key);
    }
  }

  // ----- Without changes -----

  /** max(1, ceil(n / limit)) */
  function PageCount(n: nat, limit: int): nat
    requires limit > 0
  {
    Max(1, (n + limit - 1) / limit)
  }

  lemma DivisionIs(x: int, d: int, q: int)
    requires d > 0 && q * d <= x < q * d + d
    ensures x / d == q
  {
    var k := x / d;
    assert k * d <= x < k * d + d;
    assert k > q ==> k * d >= (q + 1) * d;
    assert k < q ==> q * d >= (k + 1) * d;
  }

  lemma OneMore(x: nat, d: int)
    requires d > 0
    ensures (x + d) / d == x / d + 1
  {
    var q := x / d;
    assert q * d <= x < q * d + d;
    DivisionIs(x + d, d, q + 1);
  }

  lemma AtLeastOne(x: int, d: int)
    requires 0 < d <= x
    ensures x / d >= 1
  {
    OneMore(x - d, d);
  }

  /** Pages counted one by one. */
  function Cuts(n: nat, limit: nat): (pages: nat)
    requires limit > 0
    ensures pages >= 1
  {
    if n <= limit then 1 else 1 + Cuts(n - limit, limit)
  }

  lemma {:induction false} CutsCount(n: nat, limit: nat)
    requires limit > 0
    ensures Cuts(n, limit) == PageCount(n, limit)
  {
    if n == 0 {
      DivisionIs(limit - 1, limit, 0);
    } else if n <= limit {
      DivisionIs(n + limit - 1, limit, 1);
    } else {
      CutsCount(n - limit, limit);
      OneMore(n - 1, limit);
      AtLeastOne(n - 1, limit);
    }
  }

  function KeyBefore<T>(sorted: seq<Row<T>>, n: nat): Option<After>
    requires n <= |sorted|
  {
    if n == 0 then None else Some(sorted[n - 1].key)
  }

  lemma Remaining<T>(rows: seq<Row<T>>, limit: nat, n: nat)
    requires DistinctKeys(rows) && n <= |Sort(rows)|
    ensures KeysetPage(rows, limit, KeyBefore(Sort(rows), n)) == Take(Sort(rows)[n..], limit + 1)
  {
    var sorted := Sort(rows);
    var after := KeyBefore(sorted, n);
    SortSorts(rows);
    BeyondIsRest(sorted, after);
    if n > 0 {
      LessTotal(sorted[n - 1].key, sorted[n - 1].key);
      assert Passed(sorted, after) >= n;
      if n < |sorted| { assert Less(sorted[n - 1].key, sorted[n].key); }
      assert Passed(sorted, after) == n;
    }
  }

  lemma StepsTake<T>(tables: seq<seq<Row<T>>>, limit: nat, after: Option<After>, left: seq<Row<T>>)
    requires limit >= 1 && tables != [] && KeysetPage(tables[0], limit, after) == Take(left, limit + 1)
    ensures Steps(tables, limit, after)
         == if |left| <= limit then Walk(left, 1, true)
            else
              var rest := Steps(tables[1..], limit, Some(left[limit - 1].key));
              Walk(left[..limit] + rest.items, 1 + rest.pages, rest.done)
  {
    assert |left| > limit ==> Take(left, limit + 1)[..limit] == left[..limit];
  }

  /** A list cut into pages. */
  function CutWalk<T>(left: seq<Row<T>>, limit: nat): Walk<T>
    requires limit >= 1
    decreases |left|
  {
    if |left| <= limit then Walk(left, 1, true)
    else
      var rest := CutWalk(left[limit..], limit);
      Walk(left[..limit] + rest.items, 1 + rest.pages, rest.done)
  }

  lemma {:induction false} CutWalkIs<T>(left: seq<Row<T>>, limit: nat)
    requires limit >= 1
    ensures CutWalk(left, limit) == Walk(left, Cuts(|left|, limit), true)
    decreases |left|
  {
    if |left| > limit {
      CutWalkIs(left[limit..], limit);
      assert left[..limit] + left[limit..] == left;
    }
  }

  /** Cutting page by page and walking page by page agree if they agree on the rest. */
  lemma CutWalkNext<T>(left: seq<Row<T>>, limit: nat, rest: Walk<T>)
    requires limit >= 1 && (|left| > limit ==> rest == CutWalk(left[limit..], limit))
    ensures CutWalk(left, limit) == if |left| <= limit then Walk(left, 1, true)
                                    else Walk(left[..limit] + rest.items, 1 + rest.pages, rest.done)
  {
  }

  lemma CutNext<T>(sorted: seq<Row<T>>, limit: nat, n: nat)
    requires limit >= 1 && n + limit < |sorted|
    ensures sorted[n..][limit..] == sorted[n + limit..]
    ensures KeyBefore(sorted, n + limit) == Some(sorted[n..][limit - 1].key)
  {
  }

  lemma {:induction false} StillFrom<T>(rows: seq<Row<T>>, tables: seq<seq<Row<T>>>, limit: nat, n: nat)
    requires limit >= 1 && DistinctKeys(rows) && forall k | 0 <= k < |tables| :: tables[k] == rows
    requires n <= |Sort(rows)| && |tables| >= Cuts(|Sort(rows)| - n, limit)
    ensures Steps(tables, limit, KeyBefore(Sort(rows), n)) == CutWalk(Sort(rows)[n..], limit)
    decreases |tables|
  {
    var sorted := Sort(rows);
    var left := sorted[n..];
    Remaining(rows, limit, n);
    StepsTake(tables, limit, KeyBefore(sorted, n), left);
    if |left| > limit {
      CutNext(sorted, limit, n);
      var rest := Steps(tables[1..], limit, Some(left[limit - 1].key));
      assert rest == CutWalk(left[limit..], limit) by { StillFrom(rows, tables[1..], limit, n + limit); }
      CutWalkNext(left, limit, rest);
    }
  }

  lemma UnchangedSteps<T>(rows: seq<Row<T>>, tables: seq<seq<Row<T>>>, limit: nat)
    requires limit >= 1 && DistinctKeys(rows)
    requires (forall k | 0 <= k < |tables| :: tables[k] == rows) && |tables| >= PageCount(|rows|, limit)
    ensures Steps(tables, limit, None) == Walk(Sort(rows), PageCount(|rows|, limit), true)
  {
    SortSorts(rows);
    CutsCount(|rows|, limit);
    StillFrom(rows, tables, limit, 0);
    CutWalkIs(Sort(rows), limit);
    assert Sort(rows)[0..] == Sort(rows);
  }

  /** With no changes the pages are the sorted list, cut into max(1, ceil(n / limit)) pages. */
  lemma UnchangedTraversal<T>(rows: seq<Row<T>>, tables: seq<seq<Row<T>>>, limit: int, scope: Text,
                              dates: Calendar, isOne: Text -> bool)
    requires Setting(tables, limit, scope, dates, isOne) && DistinctKeys(rows)
    requires (forall k | 0 <= k < |tables| :: tables[k] == rows) && |tables| >= PageCount(|rows|, limit)
    ensures
      var walk := Follow(tables, limit, scope, None, dates, isOne);
      && walk.done && walk.pages == PageCount(|rows|, limit)
      && Increasing(walk.items) && multiset(walk.items) == multiset(rows)
  {
    FollowIsSteps(tables, limit, scope, None, dates, isOne);
    SortSorts(rows);
    UnchangedSteps(rows, tables, limit);
  }
}
