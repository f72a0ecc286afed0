/** A concrete run in which one folder is deleted between the two folder queries and another one is lost. */
module Race {
  import opened Prelude
  import opened Rows
  import opened Tree
  import opened Content
  import opened Integrity
  import opened Journal
  import opened Features
  import opened Snapshot
  import opened SnapshotPages
  import opened Sync
  import opened Convergence
  import opened Bootstrap
  import opened Missing

  const ROW_C := Versioned(1, CollectionRow("c", NO_EXTRAS))
  const ROW_F := Versioned(1, FolderRow("c", None, "f", 0, NO_EXTRAS))
  const TWO_FOLDERS: Tables := map[Key(Collection, "c") := ROW_C, Key(Folder, "a") := ROW_F, Key(Folder, "b") := ROW_F]

  const ADD_C := Rest({}, CreateCollection("c", "c", UNCHANGED))
  const ADD_A := Rest({}, CreateFolder("a", "c", Absent, "f", Absent, UNCHANGED))
  const ADD_B := Rest({}, CreateFolder("b", "c", Absent, "f", Absent, UNCHANGED))
  const HISTORY: seq<Action> := [ADD_C, ADD_A, ADD_B]

  const RACE: seq<Event> := [Read, Read, Read, Commit(DELETE_A), ReadFolders]

  lemma HistoryBuilds()
    ensures Run(EMPTY, HISTORY).rows == TWO_FOLDERS && Consistent(Run(EMPTY, HISTORY))
  {
    RunsAreConsistent(HISTORY);
    RunStep(HISTORY, 0);
    RunStep(HISTORY, 1);
    RunStep(HISTORY, 2);
    assert HISTORY[..3] == HISTORY;
    AddC(EMPTY);
    AddA(Run(EMPTY, HISTORY[..1]));
    AddB(Run(EMPTY, HISTORY[..2]));
  }

  lemma AddC(db: Database)
    requires db.rows == map[]
    ensures Step(db, ADD_C).rows == map[Key(Collection, "c") := ROW_C]
  {}

  lemma AddA(db: Database)
    requires db.rows == map[Key(Collection, "c") := ROW_C]
    ensures Step(db, ADD_A).rows == db.rows[Key(Folder, "a") := ROW_F]
  {}

  lemma AddB(db: Database)
    requires db.rows == map[Key(Collection, "c") := ROW_C][Key(Folder, "a") := ROW_F]
    ensures Step(db, ADD_B).rows == TWO_FOLDERS
  {}

  lemma TwoFoldersAreRoots()
    ensures forall k :: k in TWO_FOLDERS ==> PositionOf(TWO_FOLDERS, k) == Position(0, k.id) && Reached(TWO_FOLDERS, k)
  {
    assert KindsMatch(TWO_FOLDERS);
    var p := ParentsOf(TWO_FOLDERS);
    ParentsFacts(TWO_FOLDERS);
    assert Key(Folder, "a") in TWO_FOLDERS && Key(Folder, "b") in TWO_FOLDERS;
    assert RootAt(p, "a", 0) && RootAt(p, "b", 0);
    PlaceIs(TWO_FOLDERS, Key(Folder, "a"), 0);
    PlaceIs(TWO_FOLDERS, Key(Folder, "b"), 0);
  }

  lemma TwoFoldersListed()
    ensures After(Listing(TWO_FOLDERS, Collection), None) == [Position(0, "c")]
    ensures After(Listing(TWO_FOLDERS, Environment), None) == []
    ensures After(Listing(TWO_FOLDERS, Folder), None) == [Position(0, "a"), Position(0, "b")]
  {
    TwoFoldersAreRoots();
    AllArePast(TWO_FOLDERS, Collection);
    AllArePast(TWO_FOLDERS, Environment);
    AllArePast(TWO_FOLDERS, Folder);
    ListingIs(TWO_FOLDERS, Collection, [Position(0, "c")]);
    ListingIs(TWO_FOLDERS, Environment, []);
    assert Less("a", "b");
    ListingIs(TWO_FOLDERS, Folder, [Position(0, "a"), Position(0, "b")]);
  }

  const KEY_A := Key(Folder, "a")
  const KEY_B := Key(Folder, "b")
  const DELETE_A := Rest({}, DeleteFolder("a", None))

  lemma DeleteDecides()
    ensures var d := Decide(TWO_FOLDERS, {}, DeleteFolder("a", None)); d.Erase? && d.root == KEY_A
    ensures Cascade(TWO_FOLDERS, {KEY_A}) == {KEY_A}
  {
    IdsOfElement(TWO_FOLDERS, Folder, "a");
    assert ParentsOf(TWO_FOLDERS)["a"] == None;
    assert Referrers(TWO_FOLDERS, {KEY_A}) == {};
    CascadeIsLeast(TWO_FOLDERS, {KEY_A}, {KEY_A});
  }

  /** What an erase appends is about its victims. */
  lemma ErasedEntries(db: Database, root: Key, children: seq<Key>, ctx: Context, k: Key)
    requires ListsCascade(db.rows, root, children, root.kind != Collection) && k !in Cascade(db.rows, {root})
    ensures var next := Perform(db, Erase(root, children), ctx);
      db.log <= next.log && !Touched(next.log, |db.log|, |next.log|, k)
  {
    EraseEntriesFacts(db.rows, root, children, ctx, db.checkpoint);
    assert forall i :: 0 <= i < |children + [root]| ==> (children + [root])[i] in SetOf(children + [root]);
  }

  lemma DeleteRemovesOnlyA(db: Database)
    requires Consistent(db) && db.rows == TWO_FOLDERS
    ensures var next := Step(db, DELETE_A);
      KEY_A !in next.rows && db.log <= next.log && !Touched(next.log, |db.log|, |next.log|, KEY_B)
  {
    DeleteDecides();
    DecisionsFit(db.rows, {}, DeleteFolder("a", None));
    var d := Decide(TWO_FOLDERS, {}, DeleteFolder("a", None));
    ErasedEntries(db, KEY_A, d.children, REST_CONTEXT, KEY_B);
  }

  lemma FindsOne(rows: Tables, kind: Kind, x: Position)
    requires Snapshot.After(Listing(rows, kind), None) == [x] && Key(kind, x.id) in rows
    ensures Fetch(rows, kind, None, 2) == [Found(x, rows[Key(kind, x.id)])]
  {
    LoadKeepsAll(rows, kind, [x]);
  }

  /** The one collection fills a page of one; the scan goes on only to peek for more. */
  lemma RaceReadsCollection(db: Database, q: Query, f: Found)
    requires q.limit == 1 && Fetch(db.rows, Collection, None, 2) == [f] && f.position.id == "c"
    ensures var c := ReadTurn(db, Begin(db, q).client);
      && c.page.cur == Cursor(db.checkpoint, 1, None) && |c.page.entities| == 1 && !c.page.closed
      && c.page.entities[0].key == Key(Collection, "c") && c.listed == None && c.replica == map[] && c.query == q
  {
    EmitsOne(Start(Cursor(db.checkpoint, 0, None)), q, f);
    assert First([f], 1) == [f];
  }

  lemma EmitsOne(s: Progress, q: Query, f: Found)
    requires s.entities == []
    ensures Emit(s, q, Collection, [f]) == Emitting(s, q, Collection, f)
  {
    assert [f][1..] == [];
  }

  lemma FullPagePeeksNothing(db: Database, c: Client)
    requires c.Downloading? && !c.page.closed && c.listed == None && c.page.cur.turn == TurnOf(Environment)
    requires Want(c.page, c.query) == 0 && Snapshot.After(Listing(db.rows, Environment), c.page.cur.after) == []
    ensures ReadTurn(db, c) == c.(page := NextTurn(c.page))
  {}

  lemma FullPageListsOne(db: Database, c: Client, list: seq<Position>)
    requires c.Downloading? && !c.page.closed && c.listed == None && c.page.cur.turn == TurnOf(Folder)
    requires Want(c.page, c.query) == 0 && Snapshot.After(Listing(db.rows, Folder), c.page.cur.after) == list && |list| >= 1
    ensures ReadTurn(db, c) == c.(listed := Some([list[0]]))
  {
    assert First(list, 1) == [list[0]];
  }

  lemma RaceSkips(db: Database, c: Client)
    requires KEY_A !in db.rows && c.Downloading? && !c.page.closed && c.listed == Some([Position(0, "a")])
    requires c.query.limit == 1 && |c.page.entities| == 1 && c.page.cur.turn == 2
    ensures ReadFolderRows(db, c) == c.(page := NextTurn(c.page), listed := None)
  {
    assert [Position(0, "a")][1..] == [];
    assert Load(db.rows, Folder, [Position(0, "a")]) == [];
  }

  lemma ThreeReads(db: Database, q: Query, c: Client, c1: Client, c2: Client)
    requires c.Downloading? && !c.page.closed && c.listed.None? && c1 == ReadTurn(db, c)
    requires c1.Downloading? && !c1.page.closed && c1.listed.None? && c2 == ReadTurn(db, c1)
    requires c2.Downloading? && !c2.page.closed && c2.listed.None?
    ensures Turn(Turn(Turn(System(db, c), Read, q), Read, q), Read, q) == System(db, ReadTurn(db, c2))
  {}

  /** The client before the delete: one collection sent, the first folder listed. */
  lemma RaceBeforeDelete(db: Database, q: Query, f: Found, list: seq<Position>) returns (c: Client)
    requires q.limit == 1 && Fetch(db.rows, Collection, None, 2) == [f] && f.position.id == "c"
    requires Snapshot.After(Listing(db.rows, Environment), None) == []
    requires Snapshot.After(Listing(db.rows, Folder), None) == list && |list| >= 1
    ensures Turn(Turn(Turn(Begin(db, q), Read, q), Read, q), Read, q) == System(db, c)
    ensures c.Downloading? && c.page.cur == Cursor(db.checkpoint, 2, None) && |c.page.entities| == 1 && !c.page.closed
    ensures c.page.entities[0].key == Key(Collection, "c") && c.listed == Some([list[0]]) && c.replica == map[] && c.query == q
  {
    RaceReadsCollection(db, q, f);
    var c1 := ReadTurn(db, Begin(db, q).client);
    FullPagePeeksNothing(db, c1);
    var c2 := c1.(page := NextTurn(c1.page));
    FullPageListsOne(db, c2, list);
    ThreeReads(db, q, Begin(db, q).client, c1, c2);
    c := ReadTurn(db, c2);
  }

  lemma DeleteThenRead(db: Database, q: Query, c: Client)
    requires KEY_A !in Step(db, DELETE_A).rows && c.Downloading? && !c.page.closed && c.listed == Some([Position(0, "a")])
    requires c.query.limit == 1 && |c.page.entities| == 1 && c.page.cur.turn == 2
    ensures Turn(Turn(System(db, c), Commit(DELETE_A), q), ReadFolders, q)
      == System(Step(db, DELETE_A), c.(page := NextTurn(c.page), listed := None))
  {
    RaceSkips(Step(db, DELETE_A), c);
  }

  /** After the five events the download is past the folders without having seen the second one. */
  lemma RacePassesFolder(db: Database, q: Query)
    requires Consistent(db) && db.rows == TWO_FOLDERS && q.limit == 1
    ensures var sys := AfterEvents(Begin(db, q), RACE, q);
      db.log <= sys.db.log && PassedBy(sys, KEY_B, |db.log|) && !Touched(sys.db.log, |db.log|, |sys.db.log|, KEY_B)
  {
    TwoFoldersListed();
    FindsOne(db.rows, Collection, Position(0, "c"));
    var c := RaceBeforeDelete(db, q, Found(Position(0, "c"), db.rows[Key(Collection, "c")]), [Position(0, "a"), Position(0, "b")]);
    DeleteRemovesOnlyA(db);
    DeleteThenRead(db, q, c);
    FiveEvents(Begin(db, q), q);
    OneCollectionHeld(c);
  }

  lemma OneCollectionHeld(c: Client)
    requires c.Downloading? && c.replica == map[] && |c.page.entities| == 1 && c.page.entities[0].key == Key(Collection, "c")
    ensures KEY_B !in Held(c.(page := NextTurn(c.page), listed := None))
  {
    assert HoldAll(map[], c.page.entities[..0]) == map[];
  }

  lemma FiveEvents(start: System, q: Query)
    ensures AfterEvents(start, RACE, q)
      == Turn(Turn(Turn(Turn(Turn(start, Read, q), Read, q), Read, q), Commit(DELETE_A), q), ReadFolders, q)
  {
    assert RACE[..4][..3] == RACE[..3] && RACE[..3][..2] == RACE[..2] && RACE[..2][..1] == RACE[..1] && RACE[..1][..0] == [];
    assert AfterEvents(start, RACE[..1], q) == Turn(start, Read, q);
    assert AfterEvents(start, RACE[..2], q) == Turn(AfterEvents(start, RACE[..1], q), Read, q);
    assert AfterEvents(start, RACE[..3], q) == Turn(AfterEvents(start, RACE[..2], q), Read, q);
    assert AfterEvents(start, RACE[..4], q) == Turn(AfterEvents(start, RACE[..3], q), Commit(DELETE_A), q);
  }

  /**
   * The calm hypothesis is needed: one folder deleted between the two folder queries of a full page loses another
   * folder, and however the download goes on, an up-to-date client lacks it as long as nobody writes to it.
   */
  lemma RaceLosesFolder(q: Query, more: seq<Event>)
    requires q.limit == 1
    ensures var start := Begin(Run(EMPTY, HISTORY), q);
      var end := AfterEvents(AfterEvents(start, RACE, q), more, q);
      && start.db.log <= end.db.log
      && (UpToDate(end) && !Touched(end.db.log, |start.db.log|, |end.db.log|, KEY_B) ==>
            KEY_B in View(end.db.rows, q.features) && KEY_B !in end.client.replica)
  {
    var db := Run(EMPTY, HISTORY);
    var start := Begin(db, q);
    HistoryBuilds();
    RacePassesFolder(db, q);
    var mid := AfterEvents(start, RACE, q);
    BeginSound(db, q);
    RunIsSound(start, q, RACE);
    PassedFoldersStayMissing(mid, q, more, KEY_B, |db.log|);
    var end := AfterEvents(mid, more, q);
    if !Touched(end.db.log, |db.log|, |end.db.log|, KEY_B) { UntouchedRow(db, end.db, KEY_B); }
  }

  lemma {:induction false} RunIsSound(start: System, q: Query, events: seq<Event>)
    requires Sound(start, q)
    ensures Sound(AfterEvents(start, events, q), q)
    decreases |events|
  {
    if events != [] {
      RunIsSound(start, q, events[..|events| - 1]);
      TurnIsSound(AfterEvents(start, events[..|events| - 1], q), events[|events| - 1], q);
    }
  }
}
