/**
 * The order of pages and walks in plain terms: by time, then by the first code unit in which the ids differ
 * (src/shared/pagination/index.ts).
 */
module PageOrder {
  import opened Prelude
  import opened Keyset
  import opened Traversal
  import Cursor
  import Utf8

  /** Where two texts first differ, the first is smaller or has ended. */
  ghost predicate SmallerTextAt(a: Text, b: Text, k: nat) {
    k <= |a| && k < |b| && a[..k] == b[..k] && (k == |a| || a[k] < b[k])
  }

  lemma {:induction false} TextLessIs(a: Text, b: Text)
    ensures TextLess(a, b) <==> exists k: nat :: SmallerTextAt(a, b, k)
    decreases |a|
  {
    if b != [] {
      if a == [] {
        assert SmallerTextAt(a, b, 0);
      } else if a[0] != b[0] {
        if a[0] < b[0] { assert SmallerTextAt(a, b, 0); }
        forall k: nat | 0 < k <= |a| && k <= |b| ensures a[..k] != b[..k] {
          assert a[..k][0] == a[0] && b[..k][0] == b[0];
        }
      } else {
        TextLessIs(a[1..], b[1..]);
        if k: nat :| SmallerTextAt(a[1..], b[1..], k) {
          assert a[..k + 1] == [a[0]] + a[1..][..k] && b[..k + 1] == [b[0]] + b[1..][..k];
          assert SmallerTextAt(a, b, k + 1);
        }
        if k: nat :| SmallerTextAt(a, b, k) {
          assert k > 0;
          assert a[1..][..k - 1] == a[..k][1..] && b[1..][..k - 1] == b[..k][1..];
          assert SmallerTextAt(a[1..], b[1..], k - 1);
        }
      }
    }
  }

  lemma LessIs(a: After, b: After)
    ensures Less(a, b) <==> a.at < b.at || (a.at == b.at && exists k: nat :: SmallerTextAt(a.id, b.id, k))
  {
    TextLessIs(a.id, b.id);
    TextLessIs(b.id, a.id);
    TextOrder(a.id, b.id);
  }

  /** Earlier rows come first, and rows of the same time by id, smaller ones first. */
  lemma OrderIs<T>(rows: seq<Row<T>>)
    requires Increasing(rows)
    ensures forall i, j | 0 <= i < j < |rows| ::
      rows[i].key.at < rows[j].key.at
      || (rows[i].key.at == rows[j].key.at && exists k: nat :: SmallerTextAt(rows[i].key.id, rows[j].key.id, k))
  {
    forall i, j | 0 <= i < j < |rows|
      ensures rows[i].key.at < rows[j].key.at
           || (rows[i].key.at == rows[j].key.at && exists k: nat :: SmallerTextAt(rows[i].key.id, rows[j].key.id, k))
    {
      LessIs(rows[i].key, rows[j].key);
    }
  }

  /** A page lists the earliest rows past its position, in this order: any row it leaves out past the position is later
      than all it shows, and it shows one more than the limit only as a lookahead. */
  lemma PageShowsEarliest<T>(rows: seq<Row<T>>, limit: nat, after: Option<After>)
    requires DistinctKeys(rows)
    ensures var page := KeysetPage(rows, limit, after);
      && |page| <= limit + 1
      && (forall i, j | 0 <= i < j < |page| ::
            page[i].key.at < page[j].key.at
            || (page[i].key.at == page[j].key.at && exists k: nat :: SmallerTextAt(page[i].key.id, page[j].key.id, k)))
      && (after.Some? ==> forall i | 0 <= i < |page| ::
            after.value.at < page[i].key.at
            || (after.value.at == page[i].key.at && exists k: nat :: SmallerTextAt(after.value.id, page[i].key.id, k)))
      && (forall row | row in rows && row !in page
             && (after.None? || after.value.at < row.key.at
                 || (after.value.at == row.key.at && exists k: nat :: SmallerTextAt(after.value.id, row.key.id, k))) ::
            |page| == limit + 1 && forall i | 0 <= i < |page| ::
              page[i].key.at < row.key.at
              || (page[i].key.at == row.key.at && exists k: nat :: SmallerTextAt(page[i].key.id, row.key.id, k)))
  {
    var page := KeysetPage(rows, limit, after);
    PageIs(rows, limit, after);
    OrderIs(page);
    if after.Some? {
      forall i | 0 <= i < |page|
        ensures after.value.at < page[i].key.at
             || (after.value.at == page[i].key.at && exists k: nat :: SmallerTextAt(after.value.id, page[i].key.id, k))
      {
        LessIs(after.value, page[i].key);
      }
    }
    forall row | row in rows && row !in page
                 && (after.None? || after.value.at < row.key.at
                     || (after.value.at == row.key.at && exists k: nat :: SmallerTextAt(after.value.id, row.key.id, k)))
      ensures |page| == limit + 1 && forall i | 0 <= i < |page| ::
        page[i].key.at < row.key.at
        || (page[i].key.at == row.key.at && exists k: nat :: SmallerTextAt(page[i].key.id, row.key.id, k))
    {
      if after.Some? { LessIs(after.value, row.key); }
      forall i | 0 <= i < |page|
        ensures page[i].key.at < row.key.at
             || (page[i].key.at == row.key.at && exists k: nat :: SmallerTextAt(page[i].key.id, row.key.id, k))
      {
        LessIs(page[i].key, row.key);
      }
    }
  }

  /** Whatever comes and goes between its pages, a walk lists its rows by time and then by id, without repetition. */
  lemma WalkInOrder<T>(tables: seq<seq<Row<T>>>, limit: int, scope: Text, dates: Calendar, isOne: Text -> bool)
    requires Setting(tables, limit, scope, dates, isOne)
    ensures var items := Follow(tables, limit, scope, None, dates, isOne).items;
      forall i, j | 0 <= i < j < |items| ::
        items[i].key.at < items[j].key.at
        || (items[i].key.at == items[j].key.at && exists k: nat :: SmallerTextAt(items[i].key.id, items[j].key.id, k))
  {
    StableTraversal(tables, limit, scope, dates, isOne, After(0, []));
    OrderIs(Follow(tables, limit, scope, None, dates, isOne).items);
  }

  /** One page as the client gets it: at most `limit` rows, and a cursor exactly if more rows were there; a limit outside
      1..100 is refused. */
  lemma WindowShows<T>(rows: seq<Row<T>>, limit: int, scope: Text, dates: Calendar)
    requires 1 <= limit <= 100 ==> |rows| <= limit + 1
    requires Cursor.ValidPart(scope, Cursor.MAX_SCOPE_BYTES)
    requires 1 <= limit < |rows| ==> Encodable(rows[limit - 1].key, dates)
    ensures limit < 1 || limit > 100 ==> Window(rows, limit, scope, dates) == None
    ensures 1 <= limit <= 100 ==>
      && Window(rows, limit, scope, dates).Some?
      && var page := Window(rows, limit, scope, dates).value;
      && page.items == rows[..if |rows| < limit then |rows| else limit]
      && (page.hasMore <==> |rows| > limit) && (page.nextCursor.Some? <==> page.hasMore)
  {
    if 1 <= limit <= 100 {
      WindowIs(rows, limit, scope, dates);
      if |rows| > limit { Cursor.EncodeRefusesOnlyInvalidParts(scope, Position(rows[limit - 1].key, dates)); }
    }
  }

  /** A cursor is issued exactly for a scope of at most 128 bytes and a position of at most 256, neither empty nor with lone
      surrogates or control characters; it is never longer than 1036. */
  lemma CursorIssuedIff(scope: Text, position: Text)
    ensures Cursor.Encode(scope, position).Some? <==>
      && scope != [] && Utf8.IsWellFormed(scope) && |Utf8.Encode(scope)| <= 128
      && position != [] && Utf8.IsWellFormed(position) && |Utf8.Encode(position)| <= 256
      && (forall i | 0 <= i < |scope| :: scope[i] >= 0x20 && scope[i] != 0x7F)
      && (forall i | 0 <= i < |position| :: position[i] >= 0x20 && position[i] != 0x7F)
    ensures Cursor.Encode(scope, position).Some? ==> |Cursor.Encode(scope, position).value| <= 1036
  {
    Cursor.EncodeRefusesOnlyInvalidParts(scope, position);
    if Utf8.IsWellFormed(scope) { Utf8.EncodeSize(scope); }
    if Utf8.IsWellFormed(position) { Utf8.EncodeSize(position); }
  }

  /** A position is the time as a date, a bar, and the id. */
  lemma PositionIs(key: After, dates: Calendar)
    ensures Position(key, dates) == dates.iso(key.at) + [0x7C] + key.id
  {
  }
}
