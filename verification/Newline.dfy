/**
 * The smallest downloads that never end: two folders, and a cursor at the first does not carry its place, because of a
 * line break in its id or because the id is too long once it is written as JSON.
 */
module Newline {
  import opened Prelude
  import opened Rows
  import opened Tree
  import opened Integrity
  import opened Journal
  import opened Features
  import opened Snapshot
  import opened SnapshotPages
  import opened Sync
  import opened Pushed
  import opened Places
  import opened Restarts
  import Cursors

  function Pushes(bad: Id): seq<Placed> {
    [Placed(bad, None), Placed("b", None)]
  }

  function TwoRoots(bad: Id): Parents {
    map[bad := None, "b" := None]
  }

  function At(bad: Id): Cursor {
    Cursor(3, 2, Some(Position(0, bad)))
  }

  lemma PushesBuild(bad: Id)
    requires bad != "b"
    ensures var db := Run(EMPTY, History(Pushes(bad)));
      Built(db, TwoRoots(bad)) && Consistent(db) && db.checkpoint == 3
  {
    var pushes := Pushes(bad);
    assert pushes[..1][..0] == [];
    assert ParentsIn(pushes[..1]) == map[bad := None];
    assert AddedInOrder(pushes[..1]);
    HistoryBuilds(pushes);
  }

  lemma TwoRootsListed(rows: Tables, bad: Id)
    requires HoldsFolders(rows, TwoRoots(bad)) && Less(bad, "b")
    ensures Listing(rows, Folder) == [Position(0, bad), Position(0, "b")]
  {
    HeldParents(rows, TwoRoots(bad));
    PlaceIs(rows, Key(Folder, bad), 0);
    PlaceIs(rows, Key(Folder, "b"), 0);
    ListingIs(rows, Folder, [Position(0, bad), Position(0, "b")]);
  }

  lemma BadBlocks(rows: Tables, bad: Id, features: set<Feature>)
    requires HoldsFolders(rows, TwoRoots(bad)) && Less(bad, "b") && !CarriesPlace(At(bad))
    ensures Blocks(rows, At(bad), features)
  {
    TwoRootsListed(rows, bad);
    TypeSplitAt(rows, Folder, 0, features);
  }

  /** The second row of a listing is left after the first. */
  lemma SecondIsLeft(rows: Tables, checkpoint: nat, features: set<Feature>) returns (b: Entity)
    requires |Listing(rows, Folder)| == 2
    ensures b.key == Key(Folder, Listing(rows, Folder)[1].id)
    ensures b in RestAt(rows, Cursor(checkpoint, 2, Some(Listing(rows, Folder)[0])), features)
  {
    var list := Listing(rows, Folder);
    var found := Load(rows, Folder, list);
    ListedAreThere(rows, Folder);
    LoadKeepsAll(rows, Folder, list);
    TypeSplitAt(rows, Folder, 0, features);
    RestUnfold(rows, 2, Some(list[0]), features);
    AllArePast(rows, Folder);
    b := EntityOf(Folder, found[1], features);
    EntitiesOfAt(Folder, found, features, 1);
    var all, left := RestOfType(rows, Folder, None, features), RestOfType(rows, Folder, Some(list[0]), features);
    assert all[1] == b;
    LastOfTwo(EntitiesOf(Folder, found[..1], features), left, all);
    InFirstPart(left, SnapshotPages.Rest(rows, 3, None, features), b);
  }

  lemma LastOfTwo<T>(a: seq<T>, b: seq<T>, all: seq<T>)
    requires all == a + b && |all| == 2 && |b| == 1
    ensures b[0] == all[1]
  {}

  lemma InFirstPart<T>(a: seq<T>, b: seq<T>, x: T)
    requires |a| == 1 && a[0] == x
    ensures x in a + b
  {
    assert (a + b)[0] == x;
  }

  lemma FewAdmitted(rows: Tables, bad: Id, features: set<Feature>)
    requires HoldsFolders(rows, TwoRoots(bad)) && |bad| <= 40
    ensures AllAdmitted(rows, 3, features)
  {
    forall kind: Kind, x | Visible(kind, features) && x in Listing(rows, kind) ensures Admitted(Cursor(3, TurnOf(kind), Some(x))) {
      ListedIsShort(rows, bad, kind, x);
      FewAreAdmitted(Cursor(3, TurnOf(kind), Some(x)));
    }
  }

  lemma ListedIsShort(rows: Tables, bad: Id, kind: Kind, x: Position)
    requires HoldsFolders(rows, TwoRoots(bad)) && |bad| <= 40 && x in Listing(rows, kind)
    ensures x.depth <= DEPTH_LIMIT && |x.id| <= 40
  {
    ListedDepth(rows, kind, x);
    ListedAreThere(rows, kind);
    if kind == Folder { assert x.id in TwoRoots(bad); }
  }

  /**
   * A desktop pushes one collection and two folders, and another client downloads them one row to a page. If a cursor at
   * the first folder does not carry its place, the download does not end and the second folder is never sent.
   */
  lemma SecondIsNeverSent(bad: Id, n: nat, features: set<Feature>, cap: nat, size: Payload -> nat)
    requires Less(bad, "b") && !CarriesPlace(At(bad))
    ensures var db := Run(EMPTY, History(Pushes(bad)));
      var d := Pages(db.rows, Cursor(db.checkpoint, 0, None), Ones(n), features, cap, size);
      && Consistent(db) && Key(Folder, "b") in db.rows && d.next.Some?
      && (forall e :: e in d.entities ==> e.key != Key(Folder, "b"))
      && (|bad| <= 40 ==> |d.entities| == n)
  {
    LessIrreflexive("b");
    PushesBuild(bad);
    var db := Run(EMPTY, History(Pushes(bad)));
    assert "b" in TwoRoots(bad);
    TwoRootsListed(db.rows, bad);
    BadBlocks(db.rows, bad, features);
    var b := SecondIsLeft(db.rows, 3, features);
    BlockedDownloadsNeverEnd(db.rows, At(bad), n, features, cap, size);
    forall e | e in FirstPart(db.rows, At(bad), features) ensures e.key != Key(Folder, "b") {
      NothingAfterIsSent(db.rows, At(bad), features, e, b);
    }
    if |bad| <= 40 { FewAdmitted(db.rows, bad, features); }
  }

  const BROKEN: Id := "a\nx"

  /** With a line break in the first id the folders start over with every page, for ever. */
  lemma NewlineNeverEnds(n: nat, features: set<Feature>, cap: nat, size: Payload -> nat)
    ensures var db := Run(EMPTY, History(Pushes(BROKEN)));
      var d := Pages(db.rows, Cursor(db.checkpoint, 0, None), Ones(n), features, cap, size);
      && Consistent(db) && Key(Folder, "b") in db.rows
      && d.next.Some? && |d.entities| == n && forall e :: e in d.entities ==> e.key != Key(Folder, "b")
  {
    assert BROKEN[1] == '\n' && BROKEN[1] in BROKEN;
    assert !PlaceReadsBack(At(BROKEN));
    SecondIsNeverSent(BROKEN, n, features, cap, size);
  }

  /** 64 control characters: within the limit for ids. */
  const CONTROLS: Id := seq(Cursors.ID_MAX, _ => '\U{1}')

  /** With such an id the server gives out a cursor that it then refuses. */
  lemma ControlsAreNeverPassed(n: nat, features: set<Feature>, cap: nat, size: Payload -> nat)
    ensures Cursors.Units(CONTROLS) == Cursors.ID_MAX && !Admitted(At(CONTROLS))
    ensures var db := Run(EMPTY, History(Pushes(CONTROLS)));
      var d := Pages(db.rows, Cursor(db.checkpoint, 0, None), Ones(n), features, cap, size);
      && Consistent(db) && Key(Folder, "b") in db.rows
      && d.next.Some? && forall e :: e in d.entities ==> e.key != Key(Folder, "b")
  {
    ControlsAreRefused(At(CONTROLS), '\U{1}');
    SecondIsNeverSent(CONTROLS, n, features, cap, size);
  }
}
