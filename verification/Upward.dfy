/** A concrete run in which a folder is moved up between two pages and a folder in it, not yet read, is lost. */
module Upward {
  import opened Prelude
  import opened Rows
  import opened Tree
  import opened Content
  import opened Integrity
  import opened Journal
  import opened Features
  import opened Snapshot
  import opened SnapshotPages
  import opened Sync
  import opened Pushed
  import opened Convergence
  import opened Bootstrap
  import opened Missing
  import Race

  /** Folder `a` lies in `y`, which lies in `r`. */
  const PUSHES := [Placed("r", None), Placed("y", Some("r")), Placed("a", Some("y"))]
  const NESTED: Parents := map["r" := None, "y" := Some("r"), "a" := Some("y")]
  const CHILD := Key(Folder, "a")
  /** A push that moves `y` to the top. */
  const MOVE := MoveFolder("y", None)

  const FIRST: seq<Event> := [Read, Read, Read, ReadFolders]
  const PAGE: seq<Event> := [NextPage(1), Read, ReadFolders]
  /** Pages of one row: the collection, then `r`, then `y`; the move; and the page after `y`. */
  const BEFORE: seq<Event> := FIRST + PAGE + PAGE
  const UPWARD: seq<Event> := BEFORE + [Commit(MOVE)] + PAGE

  lemma PushesBuild()
    ensures var db := Run(EMPTY, History(PUSHES)); Built(db, NESTED) && Consistent(db) && db.checkpoint == 4
  {
    assert PUSHES[..2][..1] == PUSHES[..1] && PUSHES[..1][..0] == [];
    assert ParentsIn(PUSHES[..1]) == map["r" := None];
    assert ParentsIn(PUSHES[..2]) == map["r" := None, "y" := Some("r")];
    assert AddedInOrder(PUSHES[..1]) && AddedInOrder(PUSHES[..2]);
    HistoryBuilds(PUSHES);
  }

  // ---------------------------------------------------------------- the listings before and after the move

  lemma NestedPlaces(rows: Tables)
    requires ParentsOf(rows) == NESTED
    ensures PositionOf(rows, Key(Folder, "r")) == Position(0, "r") && Reached(rows, Key(Folder, "r"))
    ensures PositionOf(rows, Key(Folder, "y")) == Position(1, "y") && Reached(rows, Key(Folder, "y"))
    ensures PositionOf(rows, Key(Folder, "a")) == Position(2, "a") && Reached(rows, Key(Folder, "a"))
  {
    var p := NESTED;
    assert RootAt(p, "r", 0);
    assert RootAt(p, "y", 1);
    assert RootAt(p, "a", 2);
    PlaceIs(rows, Key(Folder, "r"), 0);
    PlaceIs(rows, Key(Folder, "y"), 1);
    PlaceIs(rows, Key(Folder, "a"), 2);
  }

  lemma NestedListed(rows: Tables)
    requires HoldsFolders(rows, NESTED)
    ensures Listing(rows, Folder) == [Position(0, "r"), Position(1, "y"), Position(2, "a")]
  {
    HeldParents(rows, NESTED);
    NestedPlaces(rows);
    var list := [Position(0, "r"), Position(1, "y"), Position(2, "a")];
    forall x ensures x in list <==>
      Key(Folder, x.id) in rows && x == PositionOf(rows, Key(Folder, x.id)) && Reached(rows, Key(Folder, x.id))
    {
      assert Key(Folder, x.id) in rows ==> x.id in NESTED;
      assert x.id in NESTED <==> x.id == "r" || x.id == "y" || x.id == "a";
    }
    ListingIs(rows, Folder, list);
  }

  lemma OthersListed(rows: Tables)
    requires HoldsFolders(rows, NESTED)
    ensures Listing(rows, Collection) == [Position(0, "c")] && Listing(rows, Environment) == []
  {
    ListingIs(rows, Collection, [Position(0, "c")]);
    ListingIs(rows, Environment, []);
  }

  lemma ListedAfterMove(rows: Tables, x: Position)
    requires ParentsOf(rows) == NESTED["y" := None] && x in Listing(rows, Folder)
    ensures x.depth == 0 || x == Position(1, "a")
  {
    var p := NESTED["y" := None];
    FolderListedExactly(rows, x);
    if x.depth > 0 {
      assert x.id == "a" && RootAt(p, "y", x.depth - 1);
      assert RootAt(p, "y", 0);
      RootAtOnce(p, "y", x.depth - 1, 0);
    }
  }

  lemma NotPastCursor(x: Position)
    requires x.depth == 0 || x == Position(1, "a")
    ensures !Before(Position(1, "y"), x)
  {}

  /** After the move nothing is past the place where `y` was: `a` has come up to it, and sorts before it. */
  lemma NothingLeft(rows: Tables)
    requires ParentsOf(rows) == NESTED["y" := None]
    ensures Snapshot.After(Listing(rows, Folder), Some(Position(1, "y"))) == []
  {
    var left := Snapshot.After(Listing(rows, Folder), Some(Position(1, "y")));
    ListingIncreases(rows, Folder);
    AfterFacts(Listing(rows, Folder), Some(Position(1, "y")));
    if left != [] {
      var x := left[0];
      assert x in left && Past(x, Some(Position(1, "y")));
      ListedAfterMove(rows, x);
      NotPastCursor(x);
    }
  }

  // ---------------------------------------------------------------- the pages

  /** A page closed among the folders, with the folder still unread. */
  ghost predicate Waiting(sys: System, checkpoint: nat, after: Option<Position>) {
    && sys.client.Downloading? && sys.client.page.closed
    && sys.client.page.next == Some(sys.client.page.cur) && sys.client.page.cur == Cursor(checkpoint, 2, after)
    && CHILD !in Held(sys.client)
  }

  lemma PageEvents(sys: System, q: Query)
    ensures AfterEvents(sys, PAGE, q) == Turn(Turn(Turn(sys, NextPage(1), q), Read, q), ReadFolders, q)
  {
    assert PAGE[..2][..1] == PAGE[..1] && PAGE[..1][..0] == [];
    assert AfterEvents(sys, PAGE[..1], q) == Turn(sys, NextPage(1), q);
    assert AfterEvents(sys, PAGE[..2], q) == Turn(AfterEvents(sys, PAGE[..1], q), Read, q);
  }

  /** The first folders of the new page are listed. */
  lemma PageLists(sys: System, q: Query, checkpoint: nat, after: Option<Position>, list: seq<Position>)
    requires Waiting(sys, checkpoint, after) && Carried(sys.client.page.cur)
    requires list == First(Snapshot.After(Listing(sys.db.rows, Folder), after), 2)
    ensures Turn(Turn(sys, NextPage(1), q), Read, q)
      == System(sys.db, Downloading(Progress(sys.client.page.cur, [], 0, false, None), q.(limit := 1), Some(list), Held(sys.client)))
  {}

  /** Of two rows found a page of one sends the first, and closes there. */
  lemma SendsFirst(s: Progress, q: Query, found: seq<Found>)
    requires !s.closed && s.entities == [] && s.cur.turn == TurnOf(Folder) && q.limit == 1 && |found| == 2
    ensures SentOf(s, q, found) == 1
    ensures var out := Scan(s, q, found); out.closed && out.cur == s.cur.(after := Some(found[0].position)) && out.next == Some(out.cur)
  {
    assert Want(s, q) == 1;
    assert SentOf(s, q, found) == 1;
    ScanSends(s, q, found);
  }

  lemma ReadsFirst(db: Database, c: Client, list: seq<Position>)
    requires Consistent(db) && c.Downloading? && c.page == Progress(c.page.cur, [], 0, false, None)
    requires c.page.cur.turn == TurnOf(Folder) && c.query.limit == 1 && c.listed == Some(list)
    requires |list| == 2 && list[0].id != "a" && CHILD !in c.replica && forall x :: x in list ==> Key(Folder, x.id) in db.rows
    ensures Waiting(System(db, ReadFolderRows(db, c)), c.page.cur.checkpoint, Some(list[0]))
  {
    var found := Load(db.rows, Folder, list);
    LoadKeepsAll(db.rows, Folder, list);
    SendsFirst(c.page, c.query, found);
    assert Held(c) == c.replica;
    ScanHolds(db, c, list, CHILD);
  }

  /** A page of one folder, when more follow. */
  lemma OneFolder(sys: System, q: Query, checkpoint: nat, after: Option<Position>, list: seq<Position>)
    requires Consistent(sys.db) && Waiting(sys, checkpoint, after) && Carried(sys.client.page.cur)
    requires list == First(Snapshot.After(Listing(sys.db.rows, Folder), after), 2) && |list| == 2 && list[0].id != "a"
    ensures var next := AfterEvents(sys, PAGE, q); next.db == sys.db && Waiting(next, checkpoint, Some(list[0]))
  {
    PageEvents(sys, q);
    PageLists(sys, q, checkpoint, after, list);
    FirstFacts(sys.db.rows, Folder, after, 2);
    ReadsFirst(sys.db, Turn(Turn(sys, NextPage(1), q), Read, q).client, list);
  }

  /** A page that finds no folder goes on to the requests. */
  lemma NoFolder(sys: System, q: Query, checkpoint: nat, after: Option<Position>)
    requires Waiting(sys, checkpoint, after) && Carried(sys.client.page.cur)
    requires Snapshot.After(Listing(sys.db.rows, Folder), after) == []
    ensures var next := AfterEvents(sys, PAGE, q);
      next.db == sys.db && next.client.Downloading? && PastFolders(next.client) && CHILD !in Held(next.client)
  {
    PageEvents(sys, q);
    PageLists(sys, q, checkpoint, after, []);
    var c := Turn(Turn(sys, NextPage(1), q), Read, q).client;
    assert Load(sys.db.rows, Folder, []) == [];
    ScanSends(c.page, c.query, []);
    assert Held(c) == Held(sys.client);
  }

  lemma FirstEvents(start: System, q: Query)
    ensures AfterEvents(start, FIRST, q) == Turn(Turn(Turn(Turn(start, Read, q), Read, q), Read, q), ReadFolders, q)
  {
    assert FIRST[..3][..2] == FIRST[..2] && FIRST[..2][..1] == FIRST[..1] && FIRST[..1][..0] == [];
    assert AfterEvents(start, FIRST[..1], q) == Turn(start, Read, q);
    assert AfterEvents(start, FIRST[..2], q) == Turn(AfterEvents(start, FIRST[..1], q), Read, q);
    assert AfterEvents(start, FIRST[..3], q) == Turn(AfterEvents(start, FIRST[..2], q), Read, q);
  }

  /** The first page holds the collection and closes before the folders. */
  lemma FirstPage(db: Database, q: Query)
    requires Consistent(db) && HoldsFolders(db.rows, NESTED) && q.limit == 1
    ensures var next := AfterEvents(Begin(db, q), FIRST, q); next.db == db && Waiting(next, db.checkpoint, None)
  {
    NestedListed(db.rows);
    OthersListed(db.rows);
    AllArePast(db.rows, Collection);
    AllArePast(db.rows, Environment);
    AllArePast(db.rows, Folder);
    Race.FindsOne(db.rows, Collection, Position(0, "c"));
    var c := Race.RaceBeforeDelete(db, q, Found(Position(0, "c"), db.rows[HOME]), Listing(db.rows, Folder));
    FirstEvents(Begin(db, q), q);
    assert "r" in NESTED;
    PeekCloses(db, c);
  }

  /** A full page only peeks at the folders. */
  lemma PeekCloses(db: Database, c: Client)
    requires c.Downloading? && !c.page.closed && |c.page.entities| == 1 && c.query.limit == 1 && c.replica == map[]
    requires c.listed == Some([Position(0, "r")]) && Key(Folder, "r") in db.rows && c.page.cur == Cursor(db.checkpoint, 2, None)
    requires c.page.entities[0].key == HOME
    ensures Waiting(System(db, ReadFolderRows(db, c)), db.checkpoint, None)
  {
    LoadKeepsAll(db.rows, Folder, [Position(0, "r")]);
    assert HoldAll(map[], c.page.entities[..0]) == map[];
  }

  // ---------------------------------------------------------------- the run

  /** Two pages into the folders, with the innermost one to come. */
  lemma BeforeMove(db: Database, q: Query)
    requires HoldsFolders(db.rows, NESTED) && Consistent(db) && q.limit == 1 && db.checkpoint <= CHECKPOINT_MAX
    ensures var sys := AfterEvents(Begin(db, q), BEFORE, q); sys.db == db && Waiting(sys, db.checkpoint, Some(Position(1, "y")))
  {
    var start := Begin(db, q);
    AfterEventsInTwo(start, FIRST, PAGE, q);
    AfterEventsInTwo(start, FIRST + PAGE, PAGE, q);
    FirstPage(db, q);
    TwoFolders(AfterEvents(start, FIRST, q), q, db.checkpoint);
  }

  lemma TwoFolders(sys: System, q: Query, checkpoint: nat)
    requires HoldsFolders(sys.db.rows, NESTED) && Consistent(sys.db) && Waiting(sys, checkpoint, None)
    requires checkpoint <= CHECKPOINT_MAX
    ensures var next := AfterEvents(AfterEvents(sys, PAGE, q), PAGE, q);
      next.db == sys.db && Waiting(next, checkpoint, Some(Position(1, "y")))
  {
    NestedListed(sys.db.rows);
    AllArePast(sys.db.rows, Folder);
    Carries(checkpoint, None);
    OneFolder(sys, q, checkpoint, None, [Position(0, "r"), Position(1, "y")]);
    SecondPage(sys.db);
    Carries(checkpoint, Some(Position(0, "r")));
    OneFolder(AfterEvents(sys, PAGE, q), q, checkpoint, Some(Position(0, "r")), [Position(1, "y"), Position(2, "a")]);
  }

  lemma MoveCommits(sys: System, q: Query)
    ensures AfterEvents(sys, [Commit(MOVE)], q) == Turn(sys, Commit(MOVE), q)
  {
    assert [Commit(MOVE)][..0] == [];
  }

  lemma AfterMove(sys: System, q: Query, checkpoint: nat)
    requires Consistent(sys.db) && Built(sys.db, NESTED) && Waiting(sys, checkpoint, Some(Position(1, "y")))
    requires checkpoint <= CHECKPOINT_MAX
    ensures var end := AfterEvents(Turn(sys, Commit(MOVE), q), PAGE, q); PastFolders(end.client) && CHILD !in Held(end.client)
  {
    FolderMoved(sys.db, NESTED, "y", None);
    StepKeepsConsistent(sys.db, MOVE);
    NothingLeft(Step(sys.db, MOVE).rows);
    Carries(checkpoint, Some(Position(1, "y")));
    NoFolder(Turn(sys, Commit(MOVE), q), q, checkpoint, Some(Position(1, "y")));
  }

  /** The whole run passes the folders without the one that came up. */
  lemma UpwardPassesFolder(db: Database, q: Query)
    requires Built(db, NESTED) && Consistent(db) && q.limit == 1 && db.checkpoint <= CHECKPOINT_MAX
    ensures var mid := AfterEvents(Begin(db, q), UPWARD, q); PastFolders(mid.client) && CHILD !in Held(mid.client)
  {
    var start := Begin(db, q);
    AfterEventsInTwo(start, BEFORE, [Commit(MOVE)], q);
    AfterEventsInTwo(start, BEFORE + [Commit(MOVE)], PAGE, q);
    BeforeMove(db, q);
    MoveCommits(AfterEvents(start, BEFORE, q), q);
    AfterMove(AfterEvents(start, BEFORE, q), q, db.checkpoint);
  }

  lemma SecondPage(db: Database)
    requires Listing(db.rows, Folder) == [Position(0, "r"), Position(1, "y"), Position(2, "a")]
    ensures Snapshot.After(Listing(db.rows, Folder), Some(Position(0, "r"))) == [Position(1, "y"), Position(2, "a")]
  {
    AllArePast(db.rows, Folder);
    ListingIncreases(db.rows, Folder);
    ResumeAfter(Listing(db.rows, Folder), None, 1);
  }

  predicate Carried(c: Cursor) {
    Admitted(c) && Resumed(c) == c
  }

  lemma Carries(checkpoint: nat, after: Option<Position>)
    requires checkpoint <= CHECKPOINT_MAX && after in {None, Some(Position(0, "r")), Some(Position(1, "y"))}
    ensures Carried(Cursor(checkpoint, 2, after))
  {
    FewAreAdmitted(Cursor(checkpoint, 2, after));
    ResumesExactly(Cursor(checkpoint, 2, after));
  }

  /**
   * A desktop pushes three nested folders; another client downloads them one to a page, and after the second page the
   * middle one is moved to the top. However the download goes on, an up-to-date client lacks the innermost folder as
   * long as nobody writes to it.
   */
  lemma UpwardLosesFolder(q: Query, more: seq<Event>)
    requires q.limit == 1
    ensures var start := Begin(Run(EMPTY, History(PUSHES)), q);
      var end := AfterEvents(AfterEvents(start, UPWARD, q), more, q);
      && start.db.log <= end.db.log
      && (UpToDate(end) && !Touched(end.db.log, |start.db.log|, |end.db.log|, CHILD) ==>
            CHILD in View(end.db.rows, q.features) && CHILD !in end.client.replica)
  {
    var db := Run(EMPTY, History(PUSHES));
    var start := Begin(db, q);
    PushesBuild();
    UpwardPassesFolder(db, q);
    AfterEventsInTwo(start, UPWARD, more, q);
    RunGrowsLog(start, q, UPWARD + more);
    var end := AfterEvents(AfterEvents(start, UPWARD, q), more, q);
    if UpToDate(end) && !Touched(end.db.log, |db.log|, |end.db.log|, CHILD) {
      BeginSound(db, q);
      Race.RunIsSound(start, q, UPWARD + more);
      assert CHILD in db.rows by { assert "a" in NESTED; }
      UntouchedRow(db, end.db, CHILD);
      MissingExactly(db, q, UPWARD, more, CHILD);
      ViewAt(end.db.rows, q.features, CHILD);
      OnlyUntouchedFoldersGoMissing(db, q, UPWARD + more, CHILD);
    }
  }
}
