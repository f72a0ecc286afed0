/** Snapshot paging on tables nobody writes to: every visible row exactly once, parents first, and an end. */
module SnapshotPages {
  import opened Prelude
  import opened Rows
  import opened Tree
  import opened Content
  import opened Integrity
  import opened Journal
  import opened Features
  import opened Snapshot

  // ---------------------------------------------------------------- listings

  lemma PositionsAtElement(depth: nat, ids: set<Id>, x: Position)
    ensures x in PositionsAt(depth, Sorted(ids)) <==> x.depth == depth && x.id in ids
  {
    if x.depth == depth && x.id in ids {
      var i :| 0 <= i < |Sorted(ids)| && Sorted(ids)[i] == x.id;
      assert PositionsAt(depth, Sorted(ids))[i] == x;
    }
    if x in PositionsAt(depth, Sorted(ids)) { assert x.id in Sorted(ids); }
  }

  lemma PositionsAtIncrease(depth: nat, ids: set<Id>)
    ensures Increasing(PositionsAt(depth, Sorted(ids)))
  {}

  lemma IncreasingConcat(a: seq<Position>, b: seq<Position>, depth: nat)
    requires Increasing(a) && Increasing(b)
    requires forall p :: p in a ==> p.depth == depth
    requires forall p :: p in b ==> p.depth > depth
    ensures Increasing(a + b)
  {
    var c := a + b;
    forall i, j | 0 <= i < j < |c| ensures Before(c[i], c[j]) {
      if i < |a| <= j { assert c[i] in a && c[j] in b; }
    }
  }

  lemma {:induction false} FoldersFromDepth(p: Parents, depth: nat, level: set<Id>, rest: set<Id>, x: Position)
    requires x in FoldersFrom(p, depth, level, rest)
    ensures x.depth >= depth && (depth <= DEPTH_LIMIT ==> x.depth <= DEPTH_LIMIT)
    decreases |rest|
  {
    var next, here := ChildrenOf(p, level) * rest, PositionsAt(depth, Sorted(level));
    if x in here {
    } else {
      var deeper := FoldersFrom(p, depth + 1, next, rest - next);
      assert x in deeper;
      Shrinks(rest, next);
      FoldersFromDepth(p, depth + 1, next, rest - next, x);
    }
  }

  lemma {:induction false} FoldersFromIds(p: Parents, depth: nat, level: set<Id>, rest: set<Id>, x: Position)
    requires x in FoldersFrom(p, depth, level, rest)
    ensures x.id in level + rest
    decreases |rest|
  {
    PositionsAtElement(depth, level, x);
    if x !in PositionsAt(depth, Sorted(level)) {
      var next := ChildrenOf(p, level) * rest;
      assert x in FoldersFrom(p, depth + 1, next, rest - next);
      Shrinks(rest, next);
      FoldersFromIds(p, depth + 1, next, rest - next, x);
    }
  }

  predicate QueryIncreases(p: Parents, depth: nat, level: set<Id>, rest: set<Id>) {
    Increasing(FoldersFrom(p, depth, level, rest))
  }

  predicate EndsHere(p: Parents, depth: nat, level: set<Id>, rest: set<Id>) {
    ChildrenOf(p, level) * rest == {} || depth >= DEPTH_LIMIT
  }

  lemma LastLevelIncreases(p: Parents, depth: nat, level: set<Id>, rest: set<Id>)
    requires EndsHere(p, depth, level, rest)
    ensures QueryIncreases(p, depth, level, rest)
  {
    PositionsAtIncrease(depth, level);
  }

  lemma LevelThenDeeper(p: Parents, depth: nat, level: set<Id>, next: set<Id>, rest: set<Id>)
    requires !EndsHere(p, depth, level, rest) && next == ChildrenOf(p, level) * rest
    requires QueryIncreases(p, depth + 1, next, rest - next)
    ensures QueryIncreases(p, depth, level, rest)
  {
    var here, deeper := PositionsAt(depth, Sorted(level)), FoldersFrom(p, depth + 1, next, rest - next);
    PositionsAtIncrease(depth, level);
    forall x | x in deeper ensures x.depth > depth { FoldersFromDepth(p, depth + 1, next, rest - next, x); }
    IncreasingConcat(here, deeper, depth);
  }

  lemma {:induction false} FoldersFromIncrease(p: Parents, depth: nat, level: set<Id>, rest: set<Id>)
    ensures QueryIncreases(p, depth, level, rest)
    decreases |rest|
  {
    if EndsHere(p, depth, level, rest) {
      LastLevelIncreases(p, depth, level, rest);
    } else {
      var next := ChildrenOf(p, level) * rest;
      Shrinks(rest, next);
      FoldersFromIncrease(p, depth + 1, next, rest - next);
      LevelThenDeeper(p, depth, level, next, rest);
    }
  }

  /** The folders a number of links below a root. */
  function Stage(p: Parents, depth: nat): set<Id> {
    set x | x in p && RootAt(p, x, depth)
  }

  predicate RootWithin(p: Parents, x: Id, depth: nat)
    decreases depth
  {
    RootAt(p, x, depth) || (depth > 0 && RootWithin(p, x, depth - 1))
  }

  /** The folders further down, or on chains that never end. */
  function Beyond(p: Parents, depth: nat): set<Id> {
    set x | x in p && !RootWithin(p, x, depth)
  }

  lemma {:induction false} WithinOnce(p: Parents, x: Id, depth: nat, n: nat)
    requires RootWithin(p, x, depth) && RootAt(p, x, n)
    ensures n <= depth
  {
    if RootAt(p, x, depth) { RootAtOnce(p, x, depth, n); } else { WithinOnce(p, x, depth - 1, n); }
  }

  lemma NextStage(p: Parents, depth: nat)
    ensures ChildrenOf(p, Stage(p, depth)) * Beyond(p, depth) == Stage(p, depth + 1)
    ensures Beyond(p, depth) - Stage(p, depth + 1) == Beyond(p, depth + 1)
  {
    forall x | x in Stage(p, depth + 1) ensures x in Beyond(p, depth) {
      if RootWithin(p, x, depth) { WithinOnce(p, x, depth, depth + 1); }
    }
  }

  /** Below an empty level there is nothing. */
  lemma {:induction false} NoStageBelow(p: Parents, depth: nat, x: Id, n: nat)
    requires Stage(p, depth) == {} && n >= depth
    ensures !RootAt(p, x, n)
    decreases n
  {
    if RootAt(p, x, n) {
      InStage(p, depth, x);
      if n > depth { NoStageBelow(p, depth, p[x].value, n - 1); }
    }
  }

  predicate Finds(p: Parents, depth: nat, x: Position) {
    x in FoldersFrom(p, depth, Stage(p, depth), Beyond(p, depth))
  }

  /** A folder at its depth, from this depth down to the limit. */
  predicate StagedFrom(p: Parents, depth: nat, x: Position) {
    depth <= x.depth <= DEPTH_LIMIT && RootAt(p, x.id, x.depth)
  }

  predicate OnStage(p: Parents, depth: nat, x: Position) {
    x.depth == depth && RootAt(p, x.id, depth)
  }

  predicate IsLastStage(p: Parents, depth: nat) {
    Stage(p, depth + 1) == {} || depth >= DEPTH_LIMIT
  }

  /**
   * The recursive query lists every folder whose chain of parents ends within the depth limit, at its depth, and nothing
   * else, whatever cycles there are besides.
   */
  lemma {:induction false} FoldersFromExactly(p: Parents, depth: nat, x: Position)
    requires depth <= DEPTH_LIMIT
    ensures Finds(p, depth, x) <==> StagedFrom(p, depth, x)
    decreases DEPTH_LIMIT - depth
  {
    if IsLastStage(p, depth) {
      LastStageExactly(p, depth, x);
    } else {
      FoldersFromExactly(p, depth + 1, x);
      EarlierStageExactly(p, depth, x);
    }
  }

  lemma LastStageExactly(p: Parents, depth: nat, x: Position)
    requires depth <= DEPTH_LIMIT && IsLastStage(p, depth)
    ensures Finds(p, depth, x) <==> StagedFrom(p, depth, x)
  {
    StageUnfold(p, depth, x);
    StageOrDeeper(p, depth, x);
    LastStage(p, depth, x);
  }

  lemma EarlierStageExactly(p: Parents, depth: nat, x: Position)
    requires depth <= DEPTH_LIMIT && !IsLastStage(p, depth)
    requires Finds(p, depth + 1, x) <==> StagedFrom(p, depth + 1, x)
    ensures Finds(p, depth, x) <==> StagedFrom(p, depth, x)
  {
    StageUnfold(p, depth, x);
    StageOrDeeper(p, depth, x);
  }

  /** One round of the query: a level, then what the query finds from the next level on. */
  lemma StageUnfold(p: Parents, depth: nat, x: Position)
    requires depth <= DEPTH_LIMIT
    ensures Finds(p, depth, x) <==> OnStage(p, depth, x) || (!IsLastStage(p, depth) && Finds(p, depth + 1, x))
  {
    NextStage(p, depth);
    PositionsAtElement(depth, Stage(p, depth), x);
    InStage(p, depth, x.id);
    FoldersFromUnfold(p, depth, Stage(p, depth), Beyond(p, depth), Stage(p, depth + 1), Beyond(p, depth + 1), x);
  }

  lemma StageOrDeeper(p: Parents, depth: nat, x: Position)
    requires depth <= DEPTH_LIMIT
    ensures StagedFrom(p, depth, x) <==> OnStage(p, depth, x) || StagedFrom(p, depth + 1, x)
  {}

  lemma InStage(p: Parents, depth: nat, x: Id)
    ensures x in Stage(p, depth) <==> RootAt(p, x, depth)
  {}

  lemma LastStage(p: Parents, depth: nat, x: Position)
    requires IsLastStage(p, depth)
    ensures !StagedFrom(p, depth + 1, x)
  {
    if Stage(p, depth + 1) == {} && x.depth > depth { NoStageBelow(p, depth + 1, x.id, x.depth); }
  }

  lemma FoldersFromUnfold(p: Parents, depth: nat, level: set<Id>, rest: set<Id>, next: set<Id>, left: set<Id>, x: Position)
    requires next == ChildrenOf(p, level) * rest && left == rest - next
    ensures x in FoldersFrom(p, depth, level, rest) <==>
      x in PositionsAt(depth, Sorted(level)) || (next != {} && depth < DEPTH_LIMIT && x in FoldersFrom(p, depth + 1, next, left))
  {}

  lemma ListingIncreases(rows: Tables, kind: Kind)
    ensures Increasing(Listing(rows, kind))
  {
    if kind == Folder {
      var p := ParentsOf(rows);
      FoldersFromIncrease(p, 0, Roots(p), p.Keys - Roots(p));
    } else {
      PositionsAtIncrease(0, IdsOf(rows, kind));
    }
  }

  lemma IdsOfElement(rows: Tables, kind: Kind, id: Id)
    ensures id in IdsOf(rows, kind) <==> Key(kind, id) in rows
  {
    if Key(kind, id) in rows { assert Key(kind, id).id in IdsOf(rows, kind); }
    if id in IdsOf(rows, kind) {
      var k :| k in rows && k.kind == kind && k.id == id;
      assert k == Key(kind, id);
    }
  }

  lemma ListedAreThere(rows: Tables, kind: Kind)
    ensures forall x :: x in Listing(rows, kind) ==> Key(kind, x.id) in rows
  {
    forall x | x in Listing(rows, kind) ensures Key(kind, x.id) in rows {
      IdsOfElement(rows, kind, x.id);
      if kind == Folder {
        var p := ParentsOf(rows);
        FoldersFromIds(p, 0, Roots(p), p.Keys - Roots(p), x);
      } else {
        PositionsAtElement(0, IdsOf(rows, kind), x);
      }
    }
  }

  lemma ListedDepth(rows: Tables, kind: Kind, x: Position)
    requires x in Listing(rows, kind)
    ensures x.depth <= DEPTH_LIMIT
  {
    if kind == Folder {
      var p := ParentsOf(rows);
      FoldersFromDepth(p, 0, Roots(p), p.Keys - Roots(p), x);
    } else {
      PositionsAtElement(0, IdsOf(rows, kind), x);
    }
  }

  /** The place of a row: folders at their depth, everything else at depth 0. */
  ghost function PositionOf(rows: Tables, k: Key): Position {
    var p := ParentsOf(rows);
    Position(if k.kind == Folder && Rooted(p, k.id) then DepthOf(p, k.id) else 0, k.id)
  }

  /** The folder query reaches the row: its chain of parents ends within the depth limit. Other rows are always reached. */
  ghost predicate Reached(rows: Tables, k: Key) {
    k.kind == Folder ==> Rooted(ParentsOf(rows), k.id) && PositionOf(rows, k).depth <= DEPTH_LIMIT
  }

  ghost predicate AllReached(rows: Tables) {
    forall k :: k in rows ==> Reached(rows, k)
  }

  lemma PlaceIs(rows: Tables, k: Key, n: nat)
    requires k.kind == Folder && RootAt(ParentsOf(rows), k.id, n)
    ensures PositionOf(rows, k) == Position(n, k.id) && (Reached(rows, k) <==> n <= DEPTH_LIMIT)
  {
    DepthIs(ParentsOf(rows), k.id, n);
  }

  /** The first two steps of the query are its first level and what is beyond it. */
  lemma RootsAreFirstStage(p: Parents)
    ensures Roots(p) == Stage(p, 0) && p.Keys - Roots(p) == Beyond(p, 0)
  {}

  /** A folder is listed exactly when its chain of parents ends within the limit, at the length of that chain. */
  lemma FolderListedExactly(rows: Tables, x: Position)
    ensures x in Listing(rows, Folder) <==> x.depth <= DEPTH_LIMIT && RootAt(ParentsOf(rows), x.id, x.depth)
  {
    RootsAreFirstStage(ParentsOf(rows));
    FoldersFromExactly(ParentsOf(rows), 0, x);
    assert Finds(ParentsOf(rows), 0, x) <==> x in Listing(rows, Folder);
  }

  /** A listing holds every row of its type that the query reaches, at its position, and nothing else. */
  lemma ListedExactly(rows: Tables, kind: Kind, x: Position)
    ensures x in Listing(rows, kind) <==>
      Key(kind, x.id) in rows && x == PositionOf(rows, Key(kind, x.id)) && Reached(rows, Key(kind, x.id))
  {
    IdsOfElement(rows, kind, x.id);
    if kind == Folder {
      FolderListedExactly(rows, x);
      if RootAt(ParentsOf(rows), x.id, x.depth) { PlaceIs(rows, Key(Folder, x.id), x.depth); }
    } else {
      PositionsAtElement(0, IdsOf(rows, kind), x);
    }
  }

  // ---------------------------------------------------------------- resuming at a position

  lemma {:induction false} AfterFacts(list: seq<Position>, after: Option<Position>)
    requires Increasing(list)
    ensures Increasing(After(list, after))
    ensures forall x :: x in After(list, after) <==> x in list && Past(x, after)
  {
    if list != [] {
      assert Increasing(list[1..]);
      AfterFacts(list[1..], after);
      var rest := After(list[1..], after);
      assert list == [list[0]] + list[1..];
      forall x | x in rest ensures Before(list[0], x) {
        var i :| 0 <= i < |list[1..]| && list[1..][i] == x;
        assert list[i + 1] == x;
      }
      if Past(list[0], after) {
        var whole := [list[0]] + rest;
        forall i, j | 0 <= i < j < |whole| ensures Before(whole[i], whole[j]) {
          if i == 0 { assert whole[j] in rest; } else { assert whole[i] == rest[i - 1] && whole[j] == rest[j - 1]; }
        }
      }
    }
  }

  lemma {:induction false} SameElements(a: seq<Position>, b: seq<Position>)
    requires Increasing(a) && Increasing(b) && forall x :: x in a <==> x in b
    ensures a == b
  {
    if b != [] { assert b[0] in a; }
    if a != [] {
      assert a[0] in b;
      var i :| 0 <= i < |b| && b[i] == a[0];
      var j :| 0 <= j < |a| && a[j] == b[0];
      assert a[0] == b[0] by {
        if i > 0 && j > 0 { BeforeTransitive(a[0], a[j], a[0]); BeforeIrreflexive(a[0]); }
      }
      forall x ensures x in a[1..] <==> x in b[1..] { TailElements(a, x); TailElements(b, x); }
      SameElements(a[1..], b[1..]);
      assert a == [a[0]] + a[1..] && b == [b[0]] + b[1..];
    }
  }

  lemma TailElements(a: seq<Position>, x: Position)
    requires Increasing(a) && a != []
    ensures x in a[1..] <==> x in a && x != a[0]
  {
    BeforeIrreflexive(a[0]);
    if x in a[1..] {
      var i :| 0 <= i < |a[1..]| && a[1..][i] == x;
      assert a[i + 1] == x;
    }
    if x in a && x != a[0] {
      var i :| 0 <= i < |a| && a[i] == x;
      assert a[1..][i - 1] == x;
    }
  }

  /** Resuming past the m-th row of a page continues with the next one: nothing skipped, nothing repeated. */
  lemma ResumeAfter(list: seq<Position>, after: Option<Position>, m: nat)
    requires Increasing(list) && 1 <= m <= |After(list, after)|
    ensures After(list, Some(After(list, after)[m - 1])) == After(list, after)[m..]
  {
    var rest := After(list, after);
    AfterFacts(list, after);
    AfterFacts(list, Some(rest[m - 1]));
    forall x ensures x in After(list, Some(rest[m - 1])) <==> x in rest[m..] {
      if x in rest[m..] {
        var i :| m <= i < |rest| && rest[i] == x;
        assert x in rest;
      }
      if x in list && Before(rest[m - 1], x) {
        assert rest[m - 1] in rest;
        if after.Some? { BeforeTransitive(after.value, rest[m - 1], x); }
        assert x in rest;
        var i :| 0 <= i < |rest| && rest[i] == x;
        if i <= m - 1 {
          BeforeIrreflexive(x);
          if i < m - 1 { BeforeTransitive(x, rest[m - 1], x); }
        }
      }
    }
    SameElements(After(list, Some(rest[m - 1])), rest[m..]);
  }

  lemma {:induction false} LoadKeepsAll(rows: Tables, kind: Kind, list: seq<Position>)
    requires forall x :: x in list ==> Key(kind, x.id) in rows
    ensures |Load(rows, kind, list)| == |list|
    ensures forall i :: 0 <= i < |list| ==> Load(rows, kind, list)[i] == Found(list[i], rows[Key(kind, list[i].id)])
  {
    if list != [] { LoadKeepsAll(rows, kind, list[1..]); }
  }

  /** A listing that is in order and holds what is reached. */
  lemma ListingIs(rows: Tables, kind: Kind, list: seq<Position>)
    requires Increasing(list)
    requires forall x :: x in list <==>
      Key(kind, x.id) in rows && x == PositionOf(rows, Key(kind, x.id)) && Reached(rows, Key(kind, x.id))
    ensures Listing(rows, kind) == list
  {
    ListingIncreases(rows, kind);
    forall x ensures x in Listing(rows, kind) <==> x in list { ListedExactly(rows, kind, x); }
    SameElements(Listing(rows, kind), list);
  }

  lemma {:induction false} AllPast(list: seq<Position>)
    ensures After(list, None) == list
  {
    if list != [] { AllPast(list[1..]); }
  }

  lemma AllArePast(rows: Tables, kind: Kind)
    ensures After(Listing(rows, kind), None) == Listing(rows, kind)
  {
    AllPast(Listing(rows, kind));
  }

  // ---------------------------------------------------------------- what is left to send

  /** The rows of one type past a position, as the client sees them. */
  function RestOfType(rows: Tables, kind: Kind, after: Option<Position>, features: set<Feature>): seq<Entity> {
    if Visible(kind, features) then EntitiesOf(kind, Load(rows, kind, After(Listing(rows, kind), after)), features) else []
  }

  /** Everything past a cursor: the full ordered list of visible rows when it is the start. */
  function Rest(rows: Tables, turn: nat, after: Option<Position>, features: set<Feature>): seq<Entity>
    decreases |ORDER| - turn
  {
    if turn >= |ORDER| then [] else RestOfType(rows, ORDER[turn], after, features) + Rest(rows, turn + 1, None, features)
  }

  function RestAt(rows: Tables, c: Cursor, features: set<Feature>): seq<Entity> {
    Rest(rows, c.turn, c.after, features)
  }

  lemma {:induction false} EntitiesOfSplit(kind: Kind, found: seq<Found>, n: nat, features: set<Feature>)
    requires n <= |found|
    ensures EntitiesOf(kind, found, features) == EntitiesOf(kind, found[..n], features) + EntitiesOf(kind, found[n..], features)
    decreases n
  {
    if n == 0 {
      assert found[..0] == [] && found[0..] == found;
    } else {
      EntitiesOfSplit(kind, found[1..], n - 1, features);
      Retaken(found, n);
      Associate([EntityOf(kind, found[0], features)], EntitiesOf(kind, found[1..][..n - 1], features),
        EntitiesOf(kind, found[n..], features));
    }
  }

  lemma Retaken<T>(s: seq<T>, n: nat)
    requires 1 <= n <= |s|
    ensures s[..n][1..] == s[1..][..n - 1] && s[1..][n - 1..] == s[n..] && s[..n][0] == s[0]
  {}

  /** Where a cursor stands after `n` of the listed rows. */
  function Here(list: seq<Position>, after: Option<Position>, n: nat): Option<Position>
    requires n <= |list|
  {
    if n == 0 then after else Some(list[n - 1])
  }

  /** The rows listed past a cursor are all there; a cursor left at the n-th finds the others. */
  lemma LoadedPast(rows: Tables, kind: Kind, after: Option<Position>, n: nat)
    requires n <= |After(Listing(rows, kind), after)|
    ensures var list := After(Listing(rows, kind), after);
      var found := Load(rows, kind, list);
      && |found| == |list| && (forall i :: 0 <= i < |list| ==> found[i].position == list[i])
      && Load(rows, kind, After(Listing(rows, kind), Here(list, after, n))) == found[n..]
  {
    var list := After(Listing(rows, kind), after);
    ListingIncreases(rows, kind);
    ListedAreThere(rows, kind);
    AfterFacts(Listing(rows, kind), after);
    LoadKeepsAll(rows, kind, list);
    LoadKeepsAll(rows, kind, list[n..]);
    assert Load(rows, kind, list[n..]) == Load(rows, kind, list)[n..];
    if n > 0 { ResumeAfter(Listing(rows, kind), after, n); } else { assert list[0..] == list; }
  }

  /** A type's rows, split at any row: the cursor left at that row finds the others. */
  lemma RestOfTypeSplit(rows: Tables, kind: Kind, after: Option<Position>, n: nat, features: set<Feature>)
    requires Visible(kind, features) && n <= |After(Listing(rows, kind), after)|
    ensures var list := After(Listing(rows, kind), after);
      var found := Load(rows, kind, list);
      && |found| == |list|
      && (forall i :: 0 <= i < |list| ==> found[i].position == list[i])
      && RestOfType(rows, kind, after, features)
           == EntitiesOf(kind, found[..n], features) + RestOfType(rows, kind, Here(list, after, n), features)
      && |RestOfType(rows, kind, Here(list, after, n), features)| == |list| - n
  {
    LoadedPast(rows, kind, after, n);
    EntitiesOfSplit(kind, Load(rows, kind, After(Listing(rows, kind), after)), n, features);
  }

  lemma LoadOfFirst(rows: Tables, kind: Kind, list: seq<Position>, n: nat)
    requires forall x :: x in list ==> Key(kind, x.id) in rows
    ensures Load(rows, kind, First(list, n)) == First(Load(rows, kind, list), n)
  {
    LoadKeepsAll(rows, kind, First(list, n));
    LoadKeepsAll(rows, kind, list);
  }

  lemma FetchIsFirst(rows: Tables, kind: Kind, after: Option<Position>, take: nat)
    ensures Fetch(rows, kind, after, take) == First(Load(rows, kind, After(Listing(rows, kind), after)), take)
    ensures |Load(rows, kind, After(Listing(rows, kind), after))| == |After(Listing(rows, kind), after)|
  {
    ListingIncreases(rows, kind);
    ListedAreThere(rows, kind);
    AfterFacts(Listing(rows, kind), after);
    LoadKeepsAll(rows, kind, After(Listing(rows, kind), after));
    LoadOfFirst(rows, kind, After(Listing(rows, kind), after), take);
  }

  /** What was sent and what is left stay the same together. */
  ghost predicate Balanced(rows: Tables, features: set<Feature>, s: Progress, out: Progress) {
    s.entities + RestAt(rows, s.cur, features) == out.entities + RestAt(rows, out.cur,
        features) && |s.entities| <= |out.entities|
  }

  lemma RestUnfold(rows: Tables, turn: nat, after: Option<Position>, features: set<Feature>)
    requires turn < |ORDER|
    ensures Rest(rows, turn, after, features) == RestOfType(rows, ORDER[turn], after, features) + Rest(rows, turn + 1, None, features)
  {}

  /** Sending `sent` and leaving `left` of the current type keeps the balance. */
  lemma BalanceSameTurn(rows: Tables, features: set<Feature>, s: Progress, out: Progress, sent: seq<Entity>)
    requires s.cur.turn == out.cur.turn < |ORDER| && out.entities == s.entities + sent
    requires RestOfType(rows, ORDER[s.cur.turn], s.cur.after, features)
      == sent + RestOfType(rows, ORDER[s.cur.turn], out.cur.after, features)
    ensures Balanced(rows, features, s, out)
  {
    RestUnfold(rows, s.cur.turn, s.cur.after, features);
    RestUnfold(rows, s.cur.turn, out.cur.after, features);
    Regroup(s.entities, sent, RestOfType(rows, ORDER[s.cur.turn], out.cur.after, features), Rest(rows, s.cur.turn + 1,
        None, features));
  }

  lemma Regroup<T>(a: seq<T>, b: seq<T>, c: seq<T>, d: seq<T>)
    ensures a + ((b + c) + d) == (a + b) + (c + d)
  {}

  lemma BalanceNextTurn(rows: Tables, features: set<Feature>, s: Progress)
    requires s.cur.turn < |ORDER| && RestOfType(rows, ORDER[s.cur.turn], s.cur.after, features) == []
    ensures Balanced(rows, features, s, NextTurn(s))
  {
    RestUnfold(rows, s.cur.turn, s.cur.after, features);
    assert [] + Rest(rows, s.cur.turn + 1, None, features) == Rest(rows, s.cur.turn + 1, None, features);
  }

  /** The loop over one type's rows: a balanced prefix, with the unsent ones left for the cursor. */
  lemma EmitKeepsRest(s: Progress, q: Query, rows: Tables, kind: Kind, take: nat)
    requires !s.closed && s.cur.turn < |ORDER| && kind == ORDER[s.cur.turn] && Visible(kind, q.features) && take > 0
    ensures var all := Load(rows, kind, After(Listing(rows, kind), s.cur.after));
      var out := Emit(s, q, kind, First(all, take));
      && Balanced(rows, q.features, s, out)
      && (out.closed || |all| > take ==> RestOfType(rows, kind, out.cur.after, q.features) != [])
      && (!out.closed && |all| <= take ==> RestOfType(rows, kind, out.cur.after, q.features) == [])
      && (s.entities == [] && all != [] ==> out.entities != [])
  {
    var list := After(Listing(rows, kind), s.cur.after);
    var all := Load(rows, kind, list);
    var tried := First(all, take);
    var n := Emitted(s, q, kind, tried);
    RestOfTypeSplit(rows, kind, s.cur.after, 0, q.features);
    EmittedLeaves(s, q, rows, kind, n, tried);
    BalanceSameTurn(rows, q.features, s, Emit(s, q, kind, tried), EntitiesOf(kind, all[..n], q.features));
  }

  /** Emitting the first `n` of the tried rows sends them and leaves the others to the cursor. */
  lemma EmittedLeaves(s: Progress, q: Query, rows: Tables, kind: Kind, n: nat, tried: seq<Found>)
    requires !s.closed && Visible(kind, q.features) && n == Emitted(s, q, kind, tried)
    requires tried <= Load(rows, kind, After(Listing(rows, kind), s.cur.after))
    ensures var all, out := Load(rows, kind, After(Listing(rows, kind), s.cur.after)), Emit(s, q, kind, tried);
      && out.entities == s.entities + EntitiesOf(kind, all[..n], q.features)
      && out.cur == s.cur.(after := out.cur.after) && (out.closed <==> n < |tried|)
      && RestOfType(rows, kind, s.cur.after, q.features)
           == EntitiesOf(kind, all[..n], q.features) + RestOfType(rows, kind, out.cur.after, q.features)
      && |RestOfType(rows, kind, out.cur.after, q.features)| == |all| - n
  {
    var list := After(Listing(rows, kind), s.cur.after);
    var all := Load(rows, kind, list);
    LoadedPast(rows, kind, s.cur.after, 0);
    RestOfTypeSplit(rows, kind, s.cur.after, n, q.features);
    EmitSendsPrefix(s, q, kind, tried);
    PrefixTakes(tried, all, n);
    assert Emit(s, q, kind, tried).cur.after == Here(list, s.cur.after, n);
  }

  lemma PrefixTakes<T>(a: seq<T>, b: seq<T>, n: nat)
    requires a <= b && n <= |a|
    ensures a[..n] == b[..n] && (n > 0 ==> a[n - 1] == b[n - 1])
  {}

  lemma BalancedTransitive(rows: Tables, features: set<Feature>, s: Progress, t: Progress, u: Progress)
    requires Balanced(rows, features, s, t) && Balanced(rows, features, t, u)
    ensures Balanced(rows, features, s, u)
  {}

  /** What is wanted of the rows found is what is wanted of all there are, and whether more follow shows. */
  lemma WantedOfAll(rows: Tables, kind: Kind, after: Option<Position>, want: nat)
    ensures var all, found := Load(rows, kind, After(Listing(rows, kind), after)), Fetch(rows, kind, after, want + 1);
      First(found, want) == First(all, want) && (|found| > want <==> |all| > want)
  {
    FetchIsFirst(rows, kind, after, want + 1);
  }

  /** What a turn does with the rows it found: peek at them, or send what is wanted and see what is over. */
  lemma ScanCases(s: Progress, q: Query, found: seq<Found>)
    requires !s.closed && s.cur.turn < |ORDER| && Visible(ORDER[s.cur.turn], q.features)
    ensures Want(s, q) == 0 ==> Scan(s, q, found) == if found != [] then CloseWith(s) else NextTurn(s)
    ensures Want(s, q) > 0 ==>
      var out := Emit(s, q, ORDER[s.cur.turn], First(found, Want(s, q)));
      Scan(s, q, found) == if out.closed then out else if |found| > Want(s, q) then CloseWith(out) else NextTurn(out)
  {}

  /** One turn of the loop on a visible type that still wants rows. */
  lemma WantingScanKeepsRest(s: Progress, q: Query, rows: Tables, kind: Kind)
    requires !s.closed && s.cur.turn < |ORDER| && kind == ORDER[s.cur.turn]
    requires Visible(kind, q.features) && Want(s, q) > 0
    ensures var out := Scan(s, q, Fetch(rows, kind, s.cur.after, Take(s, q)));
      && Balanced(rows, q.features, s, out)
      && (out.closed ==> RestOfType(rows, kind, out.cur.after, q.features) != [])
      && (s.entities == [] && RestOfType(rows, kind, s.cur.after, q.features) != [] ==> out.entities != [])
  {
    var want := Want(s, q);
    WantedOfAll(rows, kind, s.cur.after, want);
    ScanCases(s, q, Fetch(rows, kind, s.cur.after, want + 1));
    var all := Load(rows, kind, After(Listing(rows, kind), s.cur.after));
    EmitKeepsRest(s, q, rows, kind, want);
    EmitSendsPrefix(s, q, kind, First(all, want));
    var out := Emit(s, q, kind, First(all, want));
    if !out.closed && |all| <= want {
      BalanceNextTurn(rows, q.features, out);
      BalancedTransitive(rows, q.features, s, out, NextTurn(out));
    }
  }

  /** More rows of the cursor's own type follow it. */
  predicate MoreOfType(rows: Tables, c: Cursor, features: set<Feature>) {
    c.turn < |ORDER| && RestOfType(rows, ORDER[c.turn], c.after, features) != []
  }

  lemma MoreOfTypeIsMore(rows: Tables, c: Cursor, features: set<Feature>)
    requires MoreOfType(rows, c, features)
    ensures RestAt(rows, c, features) != []
  {
    RestUnfold(rows, c.turn, c.after, features);
  }

  /** One turn of the loop keeps what was sent plus what is left; a page closes only with something left. */
  lemma ScanKeepsRest(s: Progress, q: Query, rows: Tables)
    requires !s.closed && s.cur.turn < |ORDER|
    ensures var out := Scan(s, q, Fetch(rows, ORDER[s.cur.turn], s.cur.after, Take(s, q)));
      && Balanced(rows, q.features, s, out)
      && (out.closed ==> MoreOfType(rows, out.cur, q.features))
      && (q.limit >= 1 && s.entities == [] && RestOfType(rows, ORDER[s.cur.turn], s.cur.after, q.features) != [] ==> out.entities != [])
  {
    var kind := ORDER[s.cur.turn];
    var found := Fetch(rows, kind, s.cur.after, Take(s, q));
    var out := Scan(s, q, found);
    ScanTurn(s, q, found);
    if !Visible(kind, q.features) {
      BalanceNextTurn(rows, q.features, s);
    } else if Want(s, q) > 0 {
      WantingScanKeepsRest(s, q, rows, kind);
    } else {
      FetchIsFirst(rows, kind, s.cur.after, 1);
      RestOfTypeSplit(rows, kind, s.cur.after, 0, q.features);
      if found == [] { BalanceNextTurn(rows, q.features, s); }
    }
  }

  /** Everything a cursor finds, or nothing after the last page. */
  function RestOfNext(rows: Tables, next: Option<Cursor>, features: set<Feature>): seq<Entity> {
    if next.Some? then RestAt(rows, next.value, features) else []
  }

  /** What a scan in progress has sent and still has to send is what the finished page sends and leaves to its cursor. */
  ghost predicate PageBalanced(rows: Tables, features: set<Feature>, s: Progress, page: Progress) {
    && s.entities + RestAt(rows, s.cur, features) == page.entities + RestOfNext(rows, page.next, features)
    && (page.next.Some? ==> MoreOfType(rows, page.next.value, features))
    && |s.entities| <= |page.entities|
  }

  lemma {:induction false} ScanAllKeepsRest(s: Progress, q: Query, rows: Tables)
    requires q.limit >= 1 && (!s.closed ==> s.next.None?)
    requires s.closed ==> s.next == Some(s.cur) && MoreOfType(rows, s.cur, q.features)
    ensures PageBalanced(rows, q.features, s, ScanAll(s, q, rows))
    decreases if s.cur.turn < |ORDER| then |ORDER| - s.cur.turn else 0, if s.closed then 0 else 1
  {
    if s.closed {
    } else if s.cur.turn >= |ORDER| {
      assert RestAt(rows, s.cur, q.features) == [];
    } else {
      var found := Fetch(rows, ORDER[s.cur.turn], s.cur.after, Take(s, q));
      ScanTurn(s, q, found);
      ScanKeepsRest(s, q, rows);
      ScanLeavesNext(s, q, found);
      ScanAllKeepsRest(Scan(s, q, found), q, rows);
    }
  }

  /** A page is empty only when there is nothing to send. */
  lemma {:induction false} ScanAllSends(s: Progress, q: Query, rows: Tables)
    requires q.limit >= 1 && !s.closed && s.next.None? && RestAt(rows, s.cur, q.features) != []
    ensures ScanAll(s, q, rows).entities != []
    decreases if s.cur.turn < |ORDER| then |ORDER| - s.cur.turn else 0
  {
    ScanAllKeepsRest(s, q, rows);
    if s.entities == [] {
      var found := Fetch(rows, ORDER[s.cur.turn], s.cur.after, Take(s, q));
      var t := Scan(s, q, found);
      ScanTurn(s, q, found);
      ScanKeepsRest(s, q, rows);
      ScanLeavesNext(s, q, found);
      if t.entities != [] {
        ScanAllKeepsRest(t, q, rows);
      } else {
        RestUnfold(rows, s.cur.turn, s.cur.after, q.features);
        assert !t.closed by { ClosedPagesSend(s, q, found); }
        ScanAllSends(t, q, rows);
      }
    }
  }

  lemma ClosedPagesSend(s: Progress, q: Query, found: seq<Found>)
    requires q.limit >= 1 && !s.closed && s.cur.turn < |ORDER| && s.entities == []
    ensures Scan(s, q, found).closed ==> Scan(s, q, found).entities != []
  {
    EmitSendsPrefix(s, q, ORDER[s.cur.turn], First(found, Want(s, q)));
  }

  lemma ScanLeavesNext(s: Progress, q: Query, found: seq<Found>)
    requires !s.closed && s.cur.turn < |ORDER|
    ensures var out := Scan(s, q, found); out.next == if out.closed then Some(out.cur) else s.next
  {
    EmitSendsPrefix(s, q, ORDER[s.cur.turn], First(found, Want(s, q)));
  }

  /**
   * One page: what it sends and what its cursor leaves are everything from where it resumes; it closes only with more
   * of a type to come, and is not empty unless there is nothing.
   */
  lemma PageIsPrefix(rows: Tables, c: Cursor, q: Query)
    requires q.limit >= 1
    ensures var all, page := RestAt(rows, Resumed(c), q.features), ScanAll(Start(c), q, rows);
      && all == page.entities + RestOfNext(rows, page.next, q.features)
      && (page.next.Some? ==> MoreOfType(rows, page.next.value, q.features))
      && (all != [] ==> page.entities != [])
  {
    ScanAllKeepsRest(Start(c), q, rows);
    assert [] + RestAt(rows, Resumed(c), q.features) == RestAt(rows, Resumed(c), q.features);
    if RestAt(rows, Resumed(c), q.features) != [] { ScanAllSends(Start(c), q, rows); }
  }

  // ---------------------------------------------------------------- where a page closes

  /** The cursor stands at the beginning of a type or at a listed row of a visible one. */
  predicate Standing(rows: Tables, c: Cursor, features: set<Feature>) {
    c.after.Some? ==> c.turn < |ORDER| && Visible(ORDER[c.turn], features) && c.after.value in Listing(rows, ORDER[c.turn])
  }

  lemma ResumedStands(rows: Tables, c: Cursor, features: set<Feature>)
    requires Standing(rows, c, features)
    ensures Standing(rows, Resumed(c), features)
  {
    ResumesOrRestarts(c);
  }

  /** The loaded rows past a cursor are at listed positions. */
  lemma LoadedIsListed(rows: Tables, kind: Kind, after: Option<Position>, tried: seq<Found>, i: nat)
    requires tried <= Load(rows, kind, After(Listing(rows, kind), after)) && i < |tried|
    ensures tried[i].position in Listing(rows, kind)
  {
    var list := After(Listing(rows, kind), after);
    LoadedPast(rows, kind, after, 0);
    PrefixTakes(tried, Load(rows, kind, list), i + 1);
    AfterIsListed(rows, kind, after, list[i]);
  }

  lemma AfterIsListed(rows: Tables, kind: Kind, after: Option<Position>, x: Position)
    requires x in After(Listing(rows, kind), after)
    ensures x in Listing(rows, kind)
  {
    ListingIncreases(rows, kind);
    AfterFacts(Listing(rows, kind), after);
  }

  lemma EmitStands(s: Progress, q: Query, rows: Tables, kind: Kind, tried: seq<Found>)
    requires !s.closed && s.cur.turn < |ORDER| && kind == ORDER[s.cur.turn] && Visible(kind, q.features)
    requires Standing(rows, s.cur, q.features)
    requires tried <= Load(rows, kind, After(Listing(rows, kind), s.cur.after))
    ensures Standing(rows, Emit(s, q, kind, tried).cur, q.features)
  {
    var n := Emitted(s, q, kind, tried);
    EmitSendsPrefix(s, q, kind, tried);
    if n > 0 { LoadedIsListed(rows, kind, s.cur.after, tried, n - 1); }
  }

  /** After a turn the cursor is where it was, where the rows sent left it, or at the next type. */
  lemma ScanCursor(s: Progress, q: Query, found: seq<Found>)
    requires !s.closed && s.cur.turn < |ORDER|
    ensures var cur := Scan(s, q, found).cur;
      || cur.after == None || cur == s.cur
      || (Visible(ORDER[s.cur.turn], q.features) && cur == Emit(s, q, ORDER[s.cur.turn], First(found, Want(s, q))).cur)
  {}

  lemma ScanStands(s: Progress, q: Query, rows: Tables)
    requires !s.closed && s.cur.turn < |ORDER| && Standing(rows, s.cur, q.features)
    ensures Standing(rows, Scan(s, q, Fetch(rows, ORDER[s.cur.turn], s.cur.after, Take(s, q))).cur, q.features)
  {
    var kind, want := ORDER[s.cur.turn], Want(s, q);
    var found := Fetch(rows, kind, s.cur.after, Take(s, q));
    ScanCursor(s, q, found);
    if Visible(kind, q.features) {
      WantedOfAll(rows, kind, s.cur.after, want);
      FirstIsPrefix(Load(rows, kind, After(Listing(rows, kind), s.cur.after)), want);
      EmitStands(s, q, rows, kind, First(found, want));
    }
  }

  lemma FirstIsPrefix<T>(s: seq<T>, n: nat)
    ensures First(s, n) <= s
  {}

  lemma {:induction false} ScanAllStands(s: Progress, q: Query, rows: Tables)
    requires Standing(rows, s.cur, q.features) && s.next == if s.closed then Some(s.cur) else None
    ensures var next := ScanAll(s, q, rows).next; next.Some? ==> Standing(rows, next.value, q.features)
    decreases if s.cur.turn < |ORDER| then |ORDER| - s.cur.turn else 0, if s.closed then 0 else 1
  {
    if !s.closed && s.cur.turn < |ORDER| {
      var found := Fetch(rows, ORDER[s.cur.turn], s.cur.after, Take(s, q));
      ScanTurn(s, q, found);
      ScanStands(s, q, rows);
      ScanLeavesNext(s, q, found);
      ScanAllStands(Scan(s, q, found), q, rows);
    }
  }

  // ---------------------------------------------------------------- page limits

  function BytesOf(entities: seq<Entity>, size: Payload -> nat): nat {
    if entities == [] then 0
    else BytesOf(entities[..|entities| - 1], size) + size(entities[|entities| - 1].item.payload) + ENTITY_OVERHEAD
  }

  /** A page holds at most `limit` entities, and keeps to the byte cap unless it holds only one. */
  predicate InBounds(s: Progress, q: Query) {
    && s.bytes == BytesOf(s.entities, q.size)
    && |s.entities| <= q.limit
    && (|s.entities| <= 1 || s.bytes <= q.cap)
  }

  lemma {:induction false} EmitInBounds(s: Progress, q: Query, kind: Kind, rows: seq<Found>)
    requires InBounds(s, q) && |s.entities| + |rows| <= q.limit
    ensures InBounds(Emit(s, q, kind, rows), q)
    decreases |rows|
  {
    if rows != [] {
      var t := Emitting(s, q, kind, rows[0]);
      assert t.entities[..|s.entities|] == s.entities;
      if |s.entities| == 0 || t.bytes <= q.cap { EmitInBounds(t, q, kind, rows[1..]); }
    }
  }

  /** Whatever the queries find, a scan turn keeps the page within its limits. */
  lemma ScanInBounds(s: Progress, q: Query, found: seq<Found>)
    requires !s.closed && s.cur.turn < |ORDER| && InBounds(s, q)
    ensures InBounds(Scan(s, q, found), q)
  {
    EmitInBounds(s, q, ORDER[s.cur.turn], First(found, Want(s, q)));
  }

  lemma {:induction false} PageInBounds(s: Progress, q: Query, rows: Tables)
    requires InBounds(s, q)
    ensures InBounds(ScanAll(s, q, rows), q)
    decreases if s.cur.turn < |ORDER| then |ORDER| - s.cur.turn else 0, if s.closed then 0 else 1
  {
    if !s.closed && s.cur.turn < |ORDER| {
      var found := Fetch(rows, ORDER[s.cur.turn], s.cur.after, Take(s, q));
      ScanInBounds(s, q, found);
      ScanTurn(s, q, found);
      PageInBounds(Scan(s, q, found), q, rows);
    }
  }

  // ---------------------------------------------------------------- what the full list is

  /** The full list of a client: every visible, reached row at its current version and shaped payload, by types. */
  lemma {:induction false} RestElement(rows: Tables, turn: nat, features: set<Feature>, e: Entity)
    requires turn <= |ORDER|
    ensures e in Rest(rows, turn, None, features) <==>
      && TurnOf(e.key.kind) >= turn && At(View(rows, features), e.key) == Some(e.item) && Reached(rows, e.key)
    decreases |ORDER| - turn
  {
    if turn < |ORDER| {
      RestElement(rows, turn + 1, features, e);
      TypeElement(rows, ORDER[turn], features, e);
      RestUnfold(rows, turn, None, features);
      TurnIsUnique(e.key.kind, turn);
    }
  }

  function TurnOf(kind: Kind): (n: nat)
    ensures n < |ORDER| && ORDER[n] == kind
  {
    match kind
    case Collection => 0
    case Environment => 1
    case Folder => 2
    case Request => 3
    case EnvironmentVariable => 4
    case CollectionVersion => 5
    case CollectionVariable => 6
    case GlobalVariable => 7
  }

  lemma TurnIsUnique(kind: Kind, turn: nat)
    requires turn < |ORDER|
    ensures ORDER[turn] == kind <==> turn == TurnOf(kind)
  {}

  lemma TypeElement(rows: Tables, kind: Kind, features: set<Feature>, e: Entity)
    ensures e in RestOfType(rows, kind, None, features) <==>
      e.key.kind == kind && At(View(rows, features), e.key) == Some(e.item) && Reached(rows, e.key)
  {
    ViewAt(rows, features, e.key);
    if Visible(kind, features) {
      var list := After(Listing(rows, kind), None);
      ListedAreThere(rows, kind);
      ListingIncreases(rows, kind);
      AfterFacts(Listing(rows, kind), None);
      LoadKeepsAll(rows, kind, list);
      ElementAt(rows, kind, list, Load(rows, kind, list), features, e);
    }
  }

  lemma ElementAt(rows: Tables, kind: Kind, list: seq<Position>, found: seq<Found>, features: set<Feature>, e: Entity)
    requires |found| == |list|
    requires forall x :: x in list ==> Key(kind, x.id) in rows
    requires forall i :: 0 <= i < |list| ==> found[i] == Found(list[i], rows[Key(kind, list[i].id)])
    requires forall x :: x in list <==> x in Listing(rows, kind)
    ensures e in EntitiesOf(kind, found, features) <==>
      e.key.kind == kind && e.key in rows && Reached(rows, e.key)
      && e.item == Item(rows[e.key].version, Shape(kind, SyncPayload(rows[e.key].body), features))
  {
    if e in EntitiesOf(kind, found, features) {
      var i := EntitiesOfIndex(kind, found, features, e);
      assert list[i] in list;
      ListedExactly(rows, kind, list[i]);
    } else if e.key.kind == kind && e.key in rows && Reached(rows, e.key) {
      var p := PositionOf(rows, e.key);
      ListedExactly(rows, kind, p);
      var i :| 0 <= i < |list| && list[i] == p;
      EntitiesOfAt(kind, found, features, i);
    }
  }

  lemma {:induction false} EntitiesOfAt(kind: Kind, found: seq<Found>, features: set<Feature>, i: nat)
    requires i < |found|
    ensures EntitiesOf(kind, found, features)[i] == EntityOf(kind, found[i], features)
  {
    if i > 0 { EntitiesOfAt(kind, found[1..], features, i - 1); }
  }

  lemma EntitiesOfIndex(kind: Kind, found: seq<Found>, features: set<Feature>, e: Entity) returns (i: nat)
    requires e in EntitiesOf(kind, found, features)
    ensures i < |found| && e == EntityOf(kind, found[i], features)
  {
    i :| 0 <= i < |found| && EntitiesOf(kind, found, features)[i] == e;
    EntitiesOfAt(kind, found, features, i);
  }

  // ---------------------------------------------------------------- parents first

  /** The order of the full list: by type, then by position. */
  ghost predicate Precedes(rows: Tables, a: Key, b: Key) {
    TurnOf(a.kind) < TurnOf(b.kind)
    || (TurnOf(a.kind) == TurnOf(b.kind) && Before(PositionOf(rows, a), PositionOf(rows, b)))
  }

  ghost predicate InOrder(rows: Tables, list: seq<Entity>) {
    forall i, j :: 0 <= i < j < |list| ==> Precedes(rows, list[i].key, list[j].key)
  }

  lemma TypeInOrder(rows: Tables, kind: Kind, features: set<Feature>)
    ensures InOrder(rows, RestOfType(rows, kind, None, features))
  {
    var list := After(Listing(rows, kind), None);
    var found := Load(rows, kind, list);
    var r := RestOfType(rows, kind, None, features);
    ListedAreThere(rows, kind);
    ListingIncreases(rows, kind);
    AfterFacts(Listing(rows, kind), None);
    LoadKeepsAll(rows, kind, list);
    forall i, j | 0 <= i < j < |r| ensures Precedes(rows, r[i].key, r[j].key) {
      EntitiesOfAt(kind, found, features, i);
      EntitiesOfAt(kind, found, features, j);
      ListedExactly(rows, kind, list[i]);
      ListedExactly(rows, kind, list[j]);
      assert Before(list[i], list[j]);
    }
  }

  lemma {:induction false} RestInOrder(rows: Tables, turn: nat, features: set<Feature>)
    requires turn <= |ORDER|
    ensures InOrder(rows, Rest(rows, turn, None, features))
    decreases |ORDER| - turn
  {
    if turn < |ORDER| {
      var here, later := RestOfType(rows, ORDER[turn], None, features), Rest(rows, turn + 1, None, features);
      RestUnfold(rows, turn, None, features);
      RestInOrder(rows, turn + 1, features);
      TypeInOrder(rows, ORDER[turn], features);
      forall e | e in here ensures TurnOf(e.key.kind) == turn {
        TypeElement(rows, ORDER[turn], features, e);
        TurnIsUnique(e.key.kind, turn);
      }
      forall e | e in later ensures TurnOf(e.key.kind) > turn { RestElement(rows, turn + 1, features, e); }
      JoinInOrder(rows, here, later);
    }
  }

  lemma JoinInOrder(rows: Tables, here: seq<Entity>, later: seq<Entity>)
    requires InOrder(rows, here) && InOrder(rows, later)
    requires forall e, f :: e in here && f in later ==> TurnOf(e.key.kind) < TurnOf(f.key.kind)
    ensures InOrder(rows, here + later)
  {
    var all, n := here + later, |here|;
    forall i, j | 0 <= i < j < |all| ensures Precedes(rows, all[i].key, all[j].key) {
      if j < n {
        assert all[i] == here[i] && all[j] == here[j];
      } else if i >= n {
        assert all[i] == later[i - n] && all[j] == later[j - n];
      } else {
        assert all[i] in here && all[j] in later;
      }
    }
  }

  /** A row refers to rows of earlier types, or is a folder in a folder. */
  lemma RefTurns(b: Body, r: Key)
    requires r in Refs(b)
    ensures TurnOf(r.kind) < TurnOf(KindOf(b)) || (KindOf(b) == Folder && r.kind == Folder && InFolder(b) == Some(r.id))
  {}

  lemma ParentIsOneUp(p: Parents, x: Id, n: nat)
    requires RootAt(p, x, n) && x in p && p[x].Some? && p[x].value in p
    ensures n > 0 && RootAt(p, p[x].value, n - 1)
  {}

  lemma UpPrecedes(rows: Tables, f: Id, parent: Id, n: nat)
    requires n > 0 && n <= DEPTH_LIMIT && RootAt(ParentsOf(rows), f, n) && RootAt(ParentsOf(rows), parent, n - 1)
    ensures Reached(rows, Key(Folder, parent)) && Precedes(rows, Key(Folder, parent), Key(Folder, f))
  {
    PlaceIs(rows, Key(Folder, f), n);
    PlaceIs(rows, Key(Folder, parent), n - 1);
  }

  /** A reached folder is one further down than its parent, which is then reached too. */
  lemma ParentPrecedes(rows: Tables, f: Id, parent: Id)
    requires WellFormed(rows) && Key(Folder, f) in rows && InFolder(rows[Key(Folder, f)].body) == Some(parent)
    requires Reached(rows, Key(Folder, f))
    ensures Reached(rows, Key(Folder, parent)) && Precedes(rows, Key(Folder, parent), Key(Folder, f))
  {
    var p := ParentsOf(rows);
    ParentsFacts(rows);
    assert Key(Folder, parent) in Refs(rows[Key(Folder, f)].body);
    var n := DepthOf(p, f);
    PlaceIs(rows, Key(Folder, f), n);
    ParentIsOneUp(p, f, n);
    UpPrecedes(rows, f, parent, n);
  }

  lemma RefsPrecede(rows: Tables, k: Key, r: Key)
    requires WellFormed(rows) && k in rows && Reached(rows, k) && r in Refs(rows[k].body)
    ensures r in rows && Precedes(rows, r, k)
    ensures k.kind == Folder ==> Reached(rows, r)
  {
    RefTurns(rows[k].body, r);
    if TurnOf(r.kind) >= TurnOf(k.kind) { ParentPrecedes(rows, k.id, r.id); }
  }

  lemma PrecedesAsymmetric(rows: Tables, a: Key, b: Key)
    requires Precedes(rows, a, b)
    ensures a != b && !Precedes(rows, b, a)
  {
    var x, y := PositionOf(rows, a), PositionOf(rows, b);
    BeforeIrreflexive(x);
    if Before(x, y) && Before(y, x) { BeforeTransitive(x, y, x); }
  }

  /** A visible, reached row is somewhere in the full list. */
  lemma RowIsListed(rows: Tables, features: set<Feature>, k: Key) returns (j: nat)
    requires k in rows && Visible(k.kind, features) && Reached(rows, k)
    ensures j < |Rest(rows, 0, None, features)| && Rest(rows, 0, None, features)[j].key == k
  {
    var e := Entity(k, Item(rows[k].version, Shape(k.kind, SyncPayload(rows[k].body), features)));
    ViewAt(rows, features, k);
    RestElement(rows, 0, features, e);
    j :| 0 <= j < |Rest(rows, 0, None, features)| && Rest(rows, 0, None, features)[j] == e;
  }

  /** In an ordered list what precedes an element comes before it. */
  lemma EarlierInList(rows: Tables, list: seq<Entity>, i: nat, j: nat)
    requires InOrder(rows, list) && i < |list| && j < |list|
    requires Precedes(rows, list[j].key, list[i].key)
    ensures j < i
  {
    PrecedesAsymmetric(rows, list[j].key, list[i].key);
  }

  lemma ListedIsRow(rows: Tables, features: set<Feature>, i: nat)
    requires i < |Rest(rows, 0, None, features)|
    ensures Rest(rows, 0, None, features)[i].key in rows && Reached(rows, Rest(rows, 0, None, features)[i].key)
  {
    var e := Rest(rows, 0, None, features)[i];
    RestElement(rows, 0, features, e);
    ViewAt(rows, features, e.key);
  }

  /**
   * What a listed row refers to is listed before it, exactly when the query reaches it: everything but a folder on an
   * endless or too long chain of parents. A folder's own parent is always listed before it.
   */
  lemma ParentsComeFirst(rows: Tables, features: set<Feature>, i: nat, r: Key)
    requires WellFormed(rows) && i < |Rest(rows, 0, None, features)|
    requires var k := Rest(rows, 0, None, features)[i].key; k in rows ==> r in Refs(rows[k].body)
    ensures (exists j :: 0 <= j < i && Rest(rows, 0, None, features)[j].key == r) <==> Reached(rows, r)
    ensures Rest(rows, 0, None, features)[i].key.kind == Folder ==> Reached(rows, r)
  {
    var list := Rest(rows, 0, None, features);
    ListedIsRow(rows, features, i);
    RefsPrecede(rows, list[i].key, r);
    if Reached(rows, r) {
      RefsAreVisible(rows[list[i].key].body, r, features);
      var j := RowIsListed(rows, features, r);
      RestInOrder(rows, 0, features);
      EarlierInList(rows, list, i, j);
    }
    if j :| 0 <= j < i && list[j].key == r { ListedIsRow(rows, features, j); }
  }

  lemma RefsAreVisible(b: Body, r: Key, features: set<Feature>)
    requires r in Refs(b)
    ensures Visible(r.kind, features)
  {
    RefKinds(b);
  }

  /** No resource is sent twice, and every listed entity is a live row. */
  lemma NoneSentTwice(rows: Tables, features: set<Feature>, i: nat, j: nat)
    requires i < j < |Rest(rows, 0, None, features)|
    ensures Rest(rows, 0, None, features)[i].key != Rest(rows, 0, None, features)[j].key
    ensures Rest(rows, 0, None, features)[i].key in rows
  {
    var list := Rest(rows, 0, None, features);
    RestInOrder(rows, 0, features);
    PrecedesAsymmetric(rows, list[i].key, list[j].key);
    RestElement(rows, 0, features, list[i]);
    ViewAt(rows, features, list[i].key);
  }
}
