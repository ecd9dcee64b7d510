/** Keyset pages over rows ordered by (time, id) (src/shared/pagination/index.ts). */
module Keyset {
  import opened Prelude

  /** The position of a row: its time in milliseconds and its id. */
  datatype After = After(at: int, id: Text)

  datatype Row<+T> = Row(key: After, value: T)

  // ----- The order -----

  /** `<` on JavaScript strings: by code units. */
  predicate TextLess(a: Text, b: Text) {
    if b == [] then false
    else if a == [] then true
    else if a[0] != b[0] then a[0] < b[0]
    else TextLess(a[1..], b[1..])
  }

  function Compare(left: After, right: After): int {
    if left.at != right.at then left.at - right.at
    else if TextLess(left.id, right.id) then -1
    else if TextLess(right.id, left.id) then 1
    else 0
  }

  predicate Less(left: After, right: After) { Compare(left, right) < 0 }

  lemma {:induction false} TextOrder(a: Text, b: Text)
    ensures !TextLess(a, a)
    ensures !(TextLess(a, b) && TextLess(b, a))
    ensures a == b || TextLess(a, b) || TextLess(b, a)
    decreases |a|
  {
    if a != [] {
      TextOrder(a[1..], a[1..]);
      if b != [] && a[0] == b[0] {
        TextOrder(a[1..], b[1..]);
        assert a == [a[0]] + a[1..] && b == [b[0]] + b[1..];
      }
    }
  }

  lemma {:induction false} TextTransitive(a: Text, b: Text, c: Text)
    requires TextLess(a, b) && TextLess(b, c)
    ensures TextLess(a, c)
    decreases |a|
  {
    if a != [] && a[0] == b[0] == c[0] { TextTransitive(a[1..], b[1..], c[1..]); }
  }

  lemma LessTotal(a: After, b: After)
    ensures !Less(a, a) && !(Less(a, b) && Less(b, a))
    ensures a == b || Less(a, b) || Less(b, a)
    ensures Compare(a, b) > 0 <==> Less(b, a)
  {
    TextOrder(a.id, b.id);
  }

  lemma LessTransitive(a: After, b: After, c: After)
    requires Less(a, b) && Less(b, c)
    ensures Less(a, c)
  {
    if a.at == b.at == c.at { TextTransitive(a.id, b.id, c.id); }
  }

  // ----- Sorting, filtering, cutting -----

  function Insert<T>(row: Row<T>, sorted: seq<Row<T>>): seq<Row<T>> {
    if sorted == [] then [row]
    else if Compare(row.key, sorted[0].key) <= 0 then [row] + sorted
    else [sorted[0]] + Insert(row, sorted[1..])
  }

  /** What a stable sort by (time, id) returns. */
  function Sort<T>(rows: seq<Row<T>>): seq<Row<T>> {
    if rows == [] then [] else Insert(rows[0], Sort(rows[1..]))
  }

  function Beyond<T>(rows: seq<Row<T>>, after: Option<After>): seq<Row<T>> {
    if rows == [] then []
    else (if after.None? || Compare(rows[0].key, after.value) > 0 then [rows[0]] else []) + Beyond(rows[1..], after)
  }

  function Take<T>(rows: seq<T>, n: nat): seq<T> {
    if |rows| <= n then rows else rows[..n]
  }

  function KeysetPage<T>(rows: seq<Row<T>>, limit: nat, after: Option<After>): seq<Row<T>> {
    Take(Beyond(Sort(rows), after), limit + 1)
  }

  // ----- What they compute -----

  ghost predicate Increasing<T>(rows: seq<Row<T>>) {
    forall i, j | 0 <= i < j < |rows| :: Less(rows[i].key, rows[j].key)
  }

  ghost predicate DistinctKeys<T>(rows: seq<Row<T>>) {
    forall i, j | 0 <= i < j < |rows| :: rows[i].key != rows[j].key
  }

  ghost predicate HasKey<T>(rows: seq<Row<T>>, key: After) {
    exists i | 0 <= i < |rows| :: rows[i].key == key
  }

  lemma SameElements<T>(a: seq<T>, b: seq<T>, x: T)
    requires multiset(a) == multiset(b)
    ensures x in a <==> x in b
  {
    assert x in a <==> x in multiset(a);
    assert x in b <==> x in multiset(b);
  }

  lemma {:induction false} InsertAdds<T>(row: Row<T>, sorted: seq<Row<T>>, x: Row<T>)
    requires x in Insert(row, sorted)
    ensures x == row || x in sorted
    decreases |sorted|
  {
    if sorted != [] && Compare(row.key, sorted[0].key) > 0 && x != sorted[0] {
      assert Insert(row, sorted) == [sorted[0]] + Insert(row, sorted[1..]);
      InsertAdds(row, sorted[1..], x);
    }
  }

  lemma {:induction false} InsertKeeps<T>(row: Row<T>, sorted: seq<Row<T>>)
    requires Increasing(sorted) && !HasKey(sorted, row.key)
    ensures Increasing(Insert(row, sorted))
    ensures multiset(Insert(row, sorted)) == multiset{row} + multiset(sorted)
    decreases |sorted|
  {
    if sorted != [] {
      var head, tail := sorted[0], sorted[1..];
      assert sorted == [head] + tail;
      LessTotal(row.key, head.key);
      if Compare(row.key, head.key) <= 0 {
        forall j | 0 <= j < |sorted| ensures Less(row.key, sorted[j].key) {
          if j > 0 { LessTransitive(row.key, head.key, sorted[j].key); }
        }
      } else {
        InsertKeeps(row, tail);
        var rest := Insert(row, tail);
        forall j | 0 <= j < |rest| ensures Less(head.key, rest[j].key) {
          InsertAdds(row, tail, rest[j]);
        }
      }
    }
  }

  /** Sorting keeps exactly the rows and puts their keys in order. */
  lemma {:induction false} SortSorts<T>(rows: seq<Row<T>>)
    requires DistinctKeys(rows)
    ensures Increasing(Sort(rows)) && multiset(Sort(rows)) == multiset(rows) && |Sort(rows)| == |rows|
    decreases |rows|
  {
    if rows != [] {
      SortSorts(rows[1..]);
      var rest := Sort(rows[1..]);
      forall i | 0 <= i < |rest| ensures rest[i].key != rows[0].key {
        SameElements(rows[1..], rest, rest[i]);
      }
      InsertKeeps(rows[0], rest);
      assert rows == [rows[0]] + rows[1..];
      assert |multiset(Sort(rows))| == |multiset(rows)|;
    }
  }

  /** How many rows of a sorted list a position leaves behind. */
  function Passed<T>(sorted: seq<Row<T>>, after: Option<After>): (n: nat)
    ensures n <= |sorted|
  {
    if sorted == [] || after.None? || Compare(sorted[0].key, after.value) > 0 then 0 else 1 + Passed(sorted[1..], after)
  }

  /** Beyond a position, a sorted list goes on from the first larger key. */
  lemma {:induction false} BeyondIsRest<T>(sorted: seq<Row<T>>, after: Option<After>)
    requires Increasing(sorted)
    ensures Beyond(sorted, after) == sorted[Passed(sorted, after)..]
    ensures after.Some? ==> forall i | 0 <= i < |sorted| :: i >= Passed(sorted, after) <==> Less(after.value, sorted[i].key)
    decreases |sorted|
  {
    if sorted != [] {
      BeyondIsRest(sorted[1..], after);
      if after.Some? {
        LessTotal(sorted[0].key, after.value);
        if Passed(sorted, after) == 0 {
          forall i | 0 <= i < |sorted| ensures Less(after.value, sorted[i].key) {
            if i > 0 { LessTransitive(after.value, sorted[0].key, sorted[i].key); }
          }
          assert Passed(sorted[1..], after) == 0 by {
            if |sorted| > 1 { LessTotal(sorted[1].key, after.value); }
          }
        } else {
          forall i | 0 <= i < |sorted| ensures i >= Passed(sorted, after) <==> Less(after.value, sorted[i].key) {
            if i > 0 { assert sorted[i] == sorted[1..][i - 1]; }
          }
        }
      } else {
        assert Beyond(sorted[1..], after) == sorted[1..];
      }
    }
  }

  lemma TakeRest<T>(s: seq<T>, n: nat, most: nat)
    requires n <= |s|
    ensures |Take(s[n..], most)| == Min(most, |s| - n)
    ensures n + |Take(s[n..], most)| <= |s| && Take(s[n..], most) == s[n..n + |Take(s[n..], most)|]
  {
  }

  /** A page is a stretch of the sorted rows. */
  lemma PageInSorted<T>(rows: seq<Row<T>>, limit: nat, after: Option<After>) returns (n: nat)
    requires DistinctKeys(rows)
    ensures var sorted, page := Sort(rows), KeysetPage(rows, limit, after);
      && n + |page| <= |sorted| && page == sorted[n..n + |page|] && |page| == Min(limit + 1, |sorted| - n)
      && (after.None? ==> n == 0)
      && (after.Some? ==> forall i | 0 <= i < |sorted| :: i >= n <==> Less(after.value, sorted[i].key))
  {
    var sorted := Sort(rows);
    SortSorts(rows);
    BeyondIsRest(sorted, after);
    n := Passed(sorted, after);
    TakeRest(sorted, n, limit + 1);
  }

  lemma NothingSkipped<T>(rows: seq<Row<T>>, limit: nat, after: Option<After>, row: Row<T>)
    requires DistinctKeys(rows) && row in rows && (after.Some? ==> Less(after.value, row.key))
    ensures var page := KeysetPage(rows, limit, after);
      row in page || (|page| == limit + 1 && forall i | 0 <= i < |page| :: Less(page[i].key, row.key))
  {
    var sorted, page := Sort(rows), KeysetPage(rows, limit, after);
    var n := PageInSorted(rows, limit, after);
    SortSorts(rows);
    SameElements(rows, sorted, row);
    var i :| 0 <= i < |sorted| && sorted[i] == row;
    InStretch(sorted, page, n, i, limit);
  }

  /** A row of a sorted list from some place on is in the stretch there, or after a full one. */
  lemma InStretch<T>(sorted: seq<Row<T>>, page: seq<Row<T>>, n: nat, i: nat, limit: nat)
    requires Increasing(sorted) && n <= i < |sorted| && n + |page| <= |sorted| && page == sorted[n..n + |page|]
    requires |page| == Min(limit + 1, |sorted| - n)
    ensures sorted[i] in page || (|page| == limit + 1 && forall j | 0 <= j < |page| :: Less(page[j].key, sorted[i].key))
  {
    if i - n < |page| { assert page[i - n] == sorted[i]; }
  }

  /** A page is the start, in order, of the rows beyond the position: nothing in between is skipped, and a short page
      leaves nothing out. */
  lemma PageIs<T>(rows: seq<Row<T>>, limit: nat, after: Option<After>)
    requires DistinctKeys(rows)
    ensures var page := KeysetPage(rows, limit, after);
      && |page| <= limit + 1 && Increasing(page)
      && (forall i | 0 <= i < |page| :: page[i] in rows && (after.Some? ==> Less(after.value, page[i].key)))
      && (forall row | row in rows && (after.Some? ==> Less(after.value, row.key)) ::
            row in page || (|page| == limit + 1 && forall i | 0 <= i < |page| :: Less(page[i].key, row.key)))
  {
    var sorted, page := Sort(rows), KeysetPage(rows, limit, after);
    var n := PageInSorted(rows, limit, after);
    SortSorts(rows);
    forall i | 0 <= i < |page| ensures page[i] in rows {
      assert page[i] == sorted[n + i];
      SameElements(rows, sorted, page[i]);
    }
    forall row | row in rows && (after.Some? ==> Less(after.value, row.key))
      ensures row in page || (|page| == limit + 1 && forall i | 0 <= i < |page| :: Less(page[i].key, row.key))
    {
      NothingSkipped(rows, limit, after, row);
    }
  }
}
