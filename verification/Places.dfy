/** Where a cursor stands in the full list of a download, and what that tells. */
module Places {
  import opened Prelude
  import opened Rows
  import opened Features
  import opened Snapshot
  import opened SnapshotPages

  /** A type's rows from the beginning, up to and past its i-th. */
  lemma TypeSplitAt(rows: Tables, kind: Kind, i: nat, features: set<Feature>)
    requires Visible(kind, features) && i < |Listing(rows, kind)|
    ensures var list, found := Listing(rows, kind), Load(rows, kind, Listing(rows, kind));
      && |found| == |list| == |RestOfType(rows, kind, None, features)|
      && |RestOfType(rows, kind, Some(list[i]), features)| == |list| - (i + 1)
      && RestOfType(rows, kind, None, features)
           == EntitiesOf(kind, found[..i + 1], features) + RestOfType(rows, kind, Some(list[i]), features)
  {
    AllArePast(rows, kind);
    RestOfTypeSplit(rows, kind, None, i + 1, features);
    RestOfTypeSplit(rows, kind, None, 0, features);
  }

  /** How many rows of its type follow a standing cursor: those after its place in the listing. */
  lemma PlaceInType(rows: Tables, c: Cursor, features: set<Feature>) returns (i: nat)
    requires Standing(rows, c, features) && c.after.Some?
    ensures var list := Listing(rows, ORDER[c.turn]);
      && i < |list| && list[i] == c.after.value
      && |RestOfType(rows, ORDER[c.turn], c.after, features)| == |list| - (i + 1)
      && |RestOfType(rows, ORDER[c.turn], None, features)| == |list|
  {
    var list := Listing(rows, ORDER[c.turn]);
    i :| 0 <= i < |list| && list[i] == c.after.value;
    TypeSplitAt(rows, ORDER[c.turn], i, features);
  }

  lemma {:induction false} RestShrinks(rows: Tables, turn: nat, later: nat, features: set<Feature>)
    requires turn <= later
    ensures |Rest(rows, turn, None, features)| >= |Rest(rows, later, None, features)|
    decreases later - turn
  {
    if turn < later && turn < |ORDER| {
      RestUnfold(rows, turn, None, features);
      RestShrinks(rows, turn + 1, later, features);
    }
  }

  lemma LaterFindsLess(rows: Tables, a: Cursor, b: Cursor, features: set<Feature>)
    requires Standing(rows, b, features) && MoreOfType(rows, a, features) && a.turn < b.turn
    ensures |RestAt(rows, a, features)| > |RestAt(rows, b, features)|
  {
    RestUnfold(rows, a.turn, a.after, features);
    RestShrinks(rows, a.turn + 1, b.turn, features);
    if b.after.Some? {
      var i := PlaceInType(rows, b, features);
      RestUnfold(rows, b.turn, b.after, features);
      RestUnfold(rows, b.turn, None, features);
    }
  }

  lemma SamePlaceInType(rows: Tables, a: Cursor, b: Cursor, features: set<Feature>)
    requires Standing(rows, a, features) && Standing(rows, b, features) && a.turn == b.turn < |ORDER|
    requires |RestOfType(rows, ORDER[a.turn], a.after, features)| == |RestOfType(rows, ORDER[a.turn], b.after, features)|
    ensures a.after == b.after
  {
    if a.after.Some? && b.after.Some? {
      var i := PlaceInType(rows, a, features);
      var j := PlaceInType(rows, b, features);
      assert i == j;
    } else if a.after.Some? {
      var i := PlaceInType(rows, a, features);
    } else if b.after.Some? {
      var j := PlaceInType(rows, b, features);
    }
  }

  /** What is left to send tells where a cursor stands. */
  lemma SamePlace(rows: Tables, a: Cursor, b: Cursor, features: set<Feature>)
    requires Standing(rows, a, features) && MoreOfType(rows, a, features)
    requires Standing(rows, b, features) && MoreOfType(rows, b, features)
    requires |RestAt(rows, a, features)| == |RestAt(rows, b, features)|
    ensures a.turn == b.turn && a.after == b.after
  {
    if a.turn < b.turn {
      LaterFindsLess(rows, a, b, features);
    } else if b.turn < a.turn {
      LaterFindsLess(rows, b, a, features);
    } else {
      RestUnfold(rows, a.turn, a.after, features);
      RestUnfold(rows, b.turn, b.after, features);
      SamePlaceInType(rows, a, b, features);
    }
  }

  lemma {:induction false} TurnIsSuffix(rows: Tables, turn: nat, features: set<Feature>)
    requires turn <= |ORDER|
    ensures IsSuffix(Rest(rows, turn, None, features), Rest(rows, 0, None, features))
    decreases turn
  {
    if turn > 0 {
      TurnIsSuffix(rows, turn - 1, features);
      RestUnfold(rows, turn - 1, None, features);
      SuffixOfSum(RestOfType(rows, ORDER[turn - 1], None, features), Rest(rows, turn, None, features), Rest(rows, 0, None, features));
    }
  }

  predicate IsSuffix<T(==)>(a: seq<T>, b: seq<T>) {
    |a| <= |b| && b[|b| - |a|..] == a
  }

  lemma SuffixOfSum<T>(a: seq<T>, b: seq<T>, all: seq<T>)
    requires IsSuffix(a + b, all)
    ensures IsSuffix(b, all)
  {
    assert (a + b)[|a|..] == b;
    assert all[|all| - |a + b|..][|a|..] == all[|all| - |b|..];
  }

  lemma TypeSplit(rows: Tables, c: Cursor, features: set<Feature>) returns (sent: seq<Entity>)
    requires Standing(rows, c, features) && c.after.Some?
    ensures RestOfType(rows, ORDER[c.turn], None, features) == sent + RestOfType(rows, ORDER[c.turn], c.after, features)
  {
    var kind := ORDER[c.turn];
    var i := PlaceInType(rows, c, features);
    TypeSplitAt(rows, kind, i, features);
    sent := EntitiesOf(kind, Load(rows, kind, Listing(rows, kind))[..i + 1], features);
  }

  lemma StandingSplit(rows: Tables, c: Cursor, features: set<Feature>) returns (sent: seq<Entity>)
    requires Standing(rows, c, features) && c.after.Some?
    ensures Rest(rows, c.turn, None, features) == sent + RestAt(rows, c, features)
  {
    sent := TypeSplit(rows, c, features);
    RestUnfold(rows, c.turn, None, features);
    RestUnfold(rows, c.turn, c.after, features);
    var kind, later := ORDER[c.turn], Rest(rows, c.turn + 1, None, features);
    SplitFirst(RestOfType(rows, kind, None, features), sent, RestOfType(rows, kind, c.after, features), later);
  }

  lemma SplitFirst<T>(first: seq<T>, sent: seq<T>, left: seq<T>, later: seq<T>)
    requires first == sent + left
    ensures first + later == sent + (left + later)
  {}

  /** What a standing cursor finds is an end of the full list. */
  lemma RestIsSuffix(rows: Tables, c: Cursor, features: set<Feature>)
    requires Standing(rows, c, features) && c.turn <= |ORDER|
    ensures IsSuffix(RestAt(rows, c, features), Rest(rows, 0, None, features))
  {
    TurnIsSuffix(rows, c.turn, features);
    if c.after.Some? {
      var sent := StandingSplit(rows, c, features);
      SuffixOfSum(sent, RestAt(rows, c, features), Rest(rows, 0, None, features));
    }
  }
}
