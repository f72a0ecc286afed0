/** Keyset paging: pages of rows ordered by a number and the id, in either direction, resumed after the last row sent. */
module Keyset {
  import opened Prelude
  import opened Cursors

  /** `rank` is the creation time or the sort order. */
  datatype Row = Row(rank: nat, id: Id)

  predicate Precedes(a: Row, b: Row) {
    a.rank < b.rank || (a.rank == b.rank && Less(a.id, b.id))
  }

  predicate Comes(ascending: bool, a: Row, b: Row) {
    if ascending then Precedes(a, b) else Precedes(b, a)
  }

  lemma ComesIsStrictOrder(ascending: bool, a: Row, b: Row, c: Row)
    ensures !Comes(ascending, a, a)
    ensures Comes(ascending, a, b) && Comes(ascending, b, c) ==> Comes(ascending, a, c)
    ensures a == b || Comes(ascending, a, b) || Comes(ascending, b, a)
  {
    LessIrreflexive(a.id);
    LessTotal(a.id, b.id);
    if Less(a.id, b.id) && Less(b.id, c.id) { LessTransitive(a.id, b.id, c.id); }
    if Less(c.id, b.id) && Less(b.id, a.id) { LessTransitive(c.id, b.id, a.id); }
  }

  ghost predicate Ordered(ascending: bool, rows: seq<Row>) {
    forall i, j :: 0 <= i < j < |rows| ==> Comes(ascending, rows[i], rows[j])
  }

  function Reversed(rows: seq<Row>): (r: seq<Row>)
    ensures |r| == |rows| && forall i :: 0 <= i < |r| ==> r[i] == rows[|rows| - 1 - i]
  {
    seq(|rows|, i requires 0 <= i < |rows| => rows[|rows| - 1 - i])
  }

  /** A table, held in ascending order, as a query in this direction lists it. */
  function InOrder(ascending: bool, table: seq<Row>): seq<Row> {
    if ascending then table else Reversed(table)
  }

  lemma InOrderIsOrdered(ascending: bool, table: seq<Row>)
    requires Ordered(true, table)
    ensures Ordered(ascending, InOrder(ascending, table))
    ensures multiset(InOrder(ascending, table)) == multiset(table)
  {
    if !ascending { ReversedIsPermutation(table); }
  }

  lemma {:induction false} ReversedIsPermutation(rows: seq<Row>)
    ensures multiset(Reversed(rows)) == multiset(rows)
  {
    if rows != [] {
      ReversedIsPermutation(rows[1..]);
      assert Reversed(rows) == Reversed(rows[1..]) + [rows[0]];
      assert rows == [rows[0]] + rows[1..];
    }
  }

  function Past(ascending: bool, rows: seq<Row>, after: Option<Row>): seq<Row> {
    if rows == [] then []
    else if after.None? || Comes(ascending, after.value, rows[0]) then [rows[0]] + Past(ascending, rows[1..], after)
    else Past(ascending, rows[1..], after)
  }

  function First(rows: seq<Row>, n: nat): seq<Row> {
    if n <= |rows| then rows[..n] else rows
  }

  /** How a position travels: to the opaque text and back, or not at all. */
  datatype Format = Format(encode: Row -> string, decode: string -> Option<Row>)

  datatype Page<T> = Page(items: seq<T>, next: Option<string>, hasMore: bool)

  /** Splits the rows read, one more than the page holds, into the page and what it says about more. */
  function ToPage(f: Format, rows: seq<Row>, limit: nat): Page<Row> {
    var hasMore, slice := |rows| > limit, First(rows, limit);
    Page(slice, if hasMore && slice != [] then Some(f.encode(slice[|slice| - 1])) else None, hasMore)
  }

  /** The server's answer to a cursor; None stands for the refusal of a cursor that does not decode. */
  function PageAt(f: Format, table: seq<Row>, ascending: bool, cursor: Option<string>, limit: nat): Option<Page<Row>> {
    var after := if cursor.Some? then f.decode(cursor.value) else None;
    if cursor.Some? && after.None? then None
    else Some(ToPage(f, First(Past(ascending, InOrder(ascending, table), after), limit + 1), limit))
  }

  /** Resuming after the n-th row lists the rows from there on. */
  lemma {:induction false} PastRow(ascending: bool, rows: seq<Row>, n: nat)
    requires Ordered(ascending, rows) && 1 <= n <= |rows|
    ensures Past(ascending, rows, Some(rows[n - 1])) == rows[n..]
    decreases |rows|
  {
    ComesIsStrictOrder(ascending, rows[0], rows[n - 1], rows[0]);
    if n == 1 {
      PastAll(ascending, rows[1..], Some(rows[0]));
    } else {
      assert Comes(ascending, rows[0], rows[n - 1]);
      assert rows[1..][n - 2] == rows[n - 1];
      PastRow(ascending, rows[1..], n - 1);
    }
  }

  lemma {:induction false} PastAll(ascending: bool, rows: seq<Row>, after: Option<Row>)
    requires after.None? || forall r :: r in rows ==> Comes(ascending, after.value, r)
    ensures Past(ascending, rows, after) == rows
  {
    if rows != [] {
      PastAll(ascending, rows[1..], after);
      assert rows == [rows[0]] + rows[1..];
    }
  }

  /** The cursor that `n` sent rows leave behind. */
  function CursorAfter(f: Format, rows: seq<Row>, n: nat): Option<string>
    requires n <= |rows|
  {
    if n == 0 then None else Some(f.encode(rows[n - 1]))
  }

  ghost predicate Faithful(f: Format, table: seq<Row>) {
    forall r :: r in table ==> f.decode(f.encode(r)) == Some(r)
  }

  /** A cursor left behind by `n` rows decodes, and finds the rows after them. */
  lemma CursorFindsRest(f: Format, table: seq<Row>, ascending: bool, n: nat)
    requires Ordered(true, table) && Faithful(f, table) && n <= |table|
    ensures var rows, cursor := InOrder(ascending, table), CursorAfter(f, InOrder(ascending, table), n);
      var after := if cursor.Some? then f.decode(cursor.value) else None;
      (cursor.Some? ==> after.Some?) && Past(ascending, rows, after) == rows[n..]
  {
    var rows := InOrder(ascending, table);
    InOrderIsOrdered(ascending, table);
    if n == 0 {
      PastAll(ascending, rows, None);
    } else {
      assert rows[n - 1] in table;
      PastRow(ascending, rows, n);
    }
  }

  lemma ToPageOfRest(f: Format, rows: seq<Row>, n: nat, limit: nat)
    requires n <= |rows| && limit >= 1
    ensures var m := if n + limit <= |rows| then n + limit else |rows|;
      ToPage(f, First(rows[n..], limit + 1), limit)
        == Page(rows[n..m], if m < |rows| then CursorAfter(f, rows, m) else None, m < |rows|)
  {
    var m := if n + limit <= |rows| then n + limit else |rows|;
    assert First(First(rows[n..], limit + 1), limit) == rows[n..m];
  }

  /** The page after `n` rows holds the next ones, and says truly whether more follow and where. */
  lemma PageContinues(f: Format, table: seq<Row>, ascending: bool, n: nat, limit: nat)
    requires Ordered(true, table) && Faithful(f, table) && n <= |table| && limit >= 1
    ensures var rows := InOrder(ascending, table);
      var m := if n + limit <= |rows| then n + limit else |rows|;
      PageAt(f, table, ascending, CursorAfter(f, rows, n), limit)
        == Some(Page(rows[n..m], if m < |rows| then CursorAfter(f, rows, m) else None, m < |rows|))
  {
    CursorFindsRest(f, table, ascending, n);
    ToPageOfRest(f, InOrder(ascending, table), n, limit);
  }

  /** Both formats carry every row with a well-formed id; the sort order is validated to be at most two thousand million. */
  function DateFormat(k: Codec): Format {
    Format((r: Row) => EncodeDateCursor(k, r.rank, r.id),
      (s: string) => match DecodeDateCursor(k, s) case None => None case Some((rank, id)) => Some(Row(rank, id)))
  }

  function SortFormat(k: Codec): Format {
    Format((r: Row) => EncodeSortCursor(k, r.rank, r.id),
      (s: string) => match DecodeSortCursor(k, s) case None => None case Some((rank, id)) => Some(Row(rank, id)))
  }

  const SORT_ORDER_MAX: nat := 2_000_000_000

  lemma FormatsAreFaithful(k: Codec, table: seq<Row>)
    requires k.Faithful() && forall r :: r in table ==> 1 <= Units(r.id) <= ID_MAX
    ensures Faithful(DateFormat(k), table)
    ensures (forall r :: r in table ==> r.rank <= SORT_ORDER_MAX) ==> Faithful(SortFormat(k), table)
  {
    assert PowerOfTen(SORT_DIGITS) == 10_000_000_000 by {
      assert PowerOfTen(4) == 10_000;
      assert PowerOfTen(8) == 100_000_000;
    }
    forall r | r in table ensures DateFormat(k).decode(DateFormat(k).encode(r)) == Some(r) {
      DateCursorRoundTrip(k, r.rank, r.id);
    }
    forall r | r in table && r.rank <= SORT_ORDER_MAX ensures SortFormat(k).decode(SortFormat(k).encode(r)) == Some(r) {
      SortCursorRoundTrip(k, r.rank, r.id);
    }
  }
}
