/**
 * Workspaces in which the folder query does not reach every folder, built by pushes: a cycle that the bounded check let
 * through, and a chain deeper than the query goes. Their downloads end as if nothing were missing.
 */
module Unreached {
  import opened Prelude
  import opened Rows
  import opened Tree
  import opened Content
  import opened Integrity
  import opened Journal
  import opened Features
  import opened Snapshot
  import opened SnapshotPages
  import Apply
  import opened Sync
  import opened Pushed
  import opened Restarts

  // ---------------------------------------------------------------- a chain that is too deep

  lemma {:induction false} ChainDepth(last: nat, i: nat)
    requires i <= last
    ensures RootAt(ParentsIn(ChainTo(last)), ChainId(i), i)
    decreases i
  {
    ChainLink(last, i);
    if i > 0 { ChainDepth(last, i - 1); }
  }

  /** Of a chain of folders exactly those within the depth limit are reached; the others are never sent. */
  lemma DeepFolderIsNeverSent(last: nat, i: nat, limits: seq<nat>, features: set<Feature>, cap: nat, size: Payload -> nat)
    requires i <= last && Positive(limits)
    ensures var db := Run(EMPTY, History(ChainTo(last)));
      var d := Pages(db.rows, Cursor(db.checkpoint, 0, None), limits, features, cap, size);
      && Consistent(db) && Key(Folder, ChainId(i)) in db.rows
      && (Reached(db.rows, Key(Folder, ChainId(i))) <==> i <= DEPTH_LIMIT)
      && (i > DEPTH_LIMIT ==> forall e :: e in d.entities ==> e.key != Key(Folder, ChainId(i)))
  {
    var db := Run(EMPTY, History(ChainTo(last)));
    ChainFacts(last);
    HistoryBuilds(ChainTo(last));
    HeldParents(db.rows, ParentsIn(ChainTo(last)));
    ChainLink(last, i);
    ChainDepth(last, i);
    PlaceIs(db.rows, Key(Folder, ChainId(i)), i);
    var d := Pages(db.rows, Cursor(db.checkpoint, 0, None), limits, features, cap, size);
    forall e | e in d.entities ensures Reached(db.rows, e.key) {
      SentIsReached(db.rows, limits, db.checkpoint, features, cap, size, e);
    }
  }

  // ---------------------------------------------------------------- a cycle

  /** The last push of a run that makes a cycle: the first folder of the chain moves under its last. */
  function Closing(last: nat): Action {
    MoveFolder(ChainId(0), Some(ChainId(last)))
  }

  function Ring(last: nat): Parents {
    ParentsIn(ChainTo(last))[ChainId(0) := Some(ChainId(last))]
  }

  lemma {:induction false} ChainMemberIs(last: nat, x: Id) returns (i: nat)
    requires x in ParentsIn(ChainTo(last))
    ensures i <= last && x == ChainId(i)
  {
    ChainGrows(last);
    if x == ChainId(last) { i := last; } else { i := ChainMemberIs(last - 1, x); }
  }

  lemma {:induction false} NoRoots(p: Parents, x: Id, n: nat)
    requires forall y :: y in p ==> p[y].Some? && p[y].value in p
    ensures !RootAt(p, x, n)
    decreases n
  {
    if n > 0 && x in p { NoRoots(p, p[x].value, n - 1); }
  }

  lemma RingHasNoRoots(last: nat, x: Id, n: nat)
    ensures !RootAt(Ring(last), x, n)
  {
    var p := Ring(last);
    ChainLink(last, last);
    forall y | y in p ensures p[y].Some? && p[y].value in p {
      if y != ChainId(0) {
        var i := ChainMemberIs(last, y);
        ChainLink(last, i);
        ChainLink(last, if i > 0 then i - 1 else 0);
      }
    }
    NoRoots(p, x, n);
  }

  lemma NoneIsRooted(last: nat, x: Id)
    ensures !Rooted(Ring(last), x)
  {
    if n: nat :| RootAt(Ring(last), x, n) { RingHasNoRoots(last, x, n); }
  }

  /** The workspace after the move: its folders are the chain's, and the query reaches none of them. */
  lemma RingBuilt(last: nat) returns (db: Database)
    requires WALK_LIMIT < last
    ensures db == Step(Run(EMPTY, History(ChainTo(last))), Closing(last)) && Consistent(db) && db.checkpoint == last + 3
    ensures ParentsOf(db.rows) == Ring(last)
    ensures HOME in db.rows && db.rows[HOME] == HOME_ROW && forall k :: k in db.rows ==> k == HOME || k.kind == Folder
    ensures Key(Folder, ChainId(0)) in db.rows && db.rows[Key(Folder, ChainId(0))].body == FolderAt(Some(ChainId(last)))
    ensures forall o :: Logged(db.log, o) ==> o == "c" || (o != "" && o[0] in {'f', 'm'})
  {
    var before := Run(EMPTY, History(ChainTo(last)));
    ChainFacts(last);
    HistoryBuilds(ChainTo(last));
    ChainMoveAccepted(last);
    FolderMoved(before, ParentsIn(ChainTo(last)), ChainId(0), Some(ChainId(last)));
    StepKeepsConsistent(before, Closing(last));
    ChainLength(last);
    db := Step(before, Closing(last));
  }

  lemma {:induction false} ChainLength(last: nat)
    ensures |ChainTo(last)| == last + 1
  {
    if last > 0 { ChainLength(last - 1); }
  }

  /** No page of any download sends any of the folders on a cycle, although all are live and visible. */
  lemma CycleIsNeverSent(last: nat, i: nat, limits: seq<nat>, features: set<Feature>, cap: nat, size: Payload -> nat)
    requires WALK_LIMIT < last && i <= last && Positive(limits)
    ensures var db := Step(Run(EMPTY, History(ChainTo(last))), Closing(last));
      var d := Pages(db.rows, Cursor(db.checkpoint, 0, None), limits, features, cap, size);
      && Consistent(db) && Key(Folder, ChainId(i)) in db.rows
      && forall e :: e in d.entities ==> e.key.kind != Folder
  {
    var db := RingBuilt(last);
    ChainLink(last, i);
    ParentsFacts(db.rows);
    var d := Pages(db.rows, Cursor(db.checkpoint, 0, None), limits, features, cap, size);
    forall e | e in d.entities ensures e.key.kind != Folder {
      SentIsReached(db.rows, limits, db.checkpoint, features, cap, size, e);
      NoneIsRooted(last, e.key.id);
    }
  }

  // ---------------------------------------------------------------- a request in a folder on a cycle

  const REQUEST := Key(Request, "q")

  /** One more push: a request in this folder. */
  function AddRequest(folder: Id): Action {
    Upserting("q", REQUEST, 0,
      Apply.RequestInput(Given("c"), Given(Some(folder)), Given("n"), Absent, Given("u"), Absent, Absent))
  }

  function RequestIn(folder: Id): Body {
    RequestRow("c", Some(folder), "n", "GET", "u", "{}", 0)
  }

  lemma RequestDecides(rows: Tables, folder: Id, parent: Option<Id>)
    requires HOME in rows && rows[HOME] == HOME_ROW && REQUEST !in rows
    requires Key(Folder, folder) in rows && rows[Key(Folder, folder)].body == FolderAt(parent)
    ensures Apply.DecideOperation(rows, {}, AddRequest(folder).op) == Write(REQUEST, RequestIn(folder))
  {}

  lemma RequestAdded(last: nat) returns (db: Database)
    requires WALK_LIMIT < last
    ensures db == Step(Step(Run(EMPTY, History(ChainTo(last))), Closing(last)), AddRequest(ChainId(0))) && Consistent(db)
    ensures db.checkpoint == last + 4 && ParentsOf(db.rows) == Ring(last)
    ensures REQUEST in db.rows && db.rows[REQUEST].body == RequestIn(ChainId(0)) && Key(Folder, ChainId(0)) in db.rows
    ensures forall k :: k in db.rows ==> k == HOME || k == REQUEST || k.kind == Folder
  {
    var ring := RingBuilt(last);
    db := RequestPushed(ring, ChainId(0), Some(ChainId(last)));
  }

  lemma RequestPushed(db: Database, folder: Id, parent: Option<Id>) returns (next: Database)
    requires Consistent(db) && HOME in db.rows && db.rows[HOME] == HOME_ROW
    requires Key(Folder, folder) in db.rows && db.rows[Key(Folder, folder)].body == FolderAt(parent)
    requires forall k :: k in db.rows ==> k == HOME || k.kind == Folder
    requires forall o :: Logged(db.log, o) ==> o == "c" || (o != "" && o[0] in {'f', 'm'})
    ensures next == Step(db, AddRequest(folder)) && Consistent(next) && next.checkpoint == db.checkpoint + 1
    ensures next.rows == db.rows[REQUEST := Versioned(1, RequestIn(folder))] && ParentsOf(next.rows) == ParentsOf(db.rows)
  {
    next := Step(db, AddRequest(folder));
    RequestDecides(db.rows, folder, parent);
    assert "q"[0] == 'q' && !Logged(db.log, "q");
    WriteLogs(db, AddRequest(folder));
    StepKeepsConsistent(db, AddRequest(folder));
    ParentsAfter(db.rows, REQUEST, Versioned(1, RequestIn(folder)));
  }

  lemma OneListed(rows: Tables, kind: Kind, id: Id)
    requires forall k :: k in rows && k.kind == kind ==> k.id == id
    ensures |Listing(rows, kind)| <= 1
  {
    var list := Listing(rows, kind);
    ListingIncreases(rows, kind);
    if |list| > 1 {
      ListedExactly(rows, kind, list[0]);
      ListedExactly(rows, kind, list[1]);
      BeforeIrreflexive(list[0]);
    }
  }

  lemma FewListed(last: nat, rows: Tables, kind: Kind)
    requires ParentsOf(rows) == Ring(last) && forall k :: k in rows ==> k == HOME || k == REQUEST || k.kind == Folder
    ensures |Listing(rows, kind)| <= 1
  {
    if kind == Folder {
      var list := Listing(rows, Folder);
      if list != [] {
        ListedExactly(rows, Folder, list[0]);
        NoneIsRooted(last, list[0].id);
      }
    } else {
      OneListed(rows, kind, if kind == Collection then "c" else "q");
    }
  }

  /**
   * A download of a workspace with a cycle ends regularly, whatever the limits, with a request whose folder it never
   * sends.
   */
  lemma RequestIsSentAlone(last: nat, limits: seq<nat>, features: set<Feature>, cap: nat, size: Payload -> nat)
    requires WALK_LIMIT < last && last + 4 <= CHECKPOINT_MAX
    ensures var db := Step(Step(Run(EMPTY, History(ChainTo(last))), Closing(last)), AddRequest(ChainId(0)));
      var d := Pages(db.rows, Cursor(db.checkpoint, 0, None), limits, features, cap, size);
      && Consistent(db) && Resumable(db.rows, db.checkpoint, features)
      && REQUEST in db.rows && Key(Folder, ChainId(0)) in Refs(db.rows[REQUEST].body)
      && (Enough(db.rows, limits, features) ==>
            && d.next.None? && (exists e :: e in d.entities && e.key == REQUEST)
            && forall e :: e in d.entities ==> e.key.kind != Folder)
  {
    var db := RequestAdded(last);
    var c := Cursor(db.checkpoint, 0, None);
    forall kind: Kind ensures |Listing(db.rows, kind)| <= 1 { FewListed(last, db.rows, kind); }
    assert Resumable(db.rows, db.checkpoint, features);
    if Enough(db.rows, limits, features) {
      ResumableAllCarry(db.rows, c, limits, features, cap, size);
      PagesDeliverExactly(db.rows, limits, db.checkpoint, features, cap, size);
      var j := RowIsListed(db.rows, features, REQUEST);
      var d := Pages(db.rows, c, limits, features, cap, size);
      assert d.entities[j] in d.entities;
      forall e | e in d.entities ensures e.key.kind != Folder {
        SentIsReached(db.rows, limits, db.checkpoint, features, cap, size, e);
        NoneIsRooted(last, e.key.id);
      }
    }
  }
}
