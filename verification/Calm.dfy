/** Writes that lose no folder: those that bring none closer to the root and delete none that a full list names. */
module Calm {
  import opened Prelude
  import opened Rows
  import opened Tree
  import opened Content
  import opened Integrity
  import opened Journal
  import opened Features
  import opened Snapshot
  import opened SnapshotPages
  import opened Sync
  import opened Convergence
  import opened Bootstrap

  // ---------------------------------------------------------------- what each event does to an unread folder

  lemma ReadKeepsAhead(db: Database, c: Client, k: Key)
    requires Consistent(db) && c.Downloading? && !c.page.closed && c.listed.None? && k.kind == Folder && Ahead(db.rows, c, k)
    ensures Ahead(db.rows, ReadTurn(db, c), k)
  {
    var kind := ORDER[c.page.cur.turn];
    TurnIsUnique(Folder, c.page.cur.turn);
    if kind == Folder {
      PastIsListed(db.rows, Folder, c.page.cur.after, Take(c.page, c.query), k);
    } else {
      EarlierReadKeepsAhead(db, c, k);
    }
  }

  /** Before the folders, a read at most moves on to them. */
  lemma EarlierReadKeepsAhead(db: Database, c: Client, k: Key)
    requires c.Downloading? && !c.page.closed && c.listed.None? && k.kind == Folder && Ahead(db.rows, c, k)
    requires c.page.cur.turn < TurnOf(Folder)
    ensures Ahead(db.rows, ReadTurn(db, c), k)
  {
    var kind := ORDER[c.page.cur.turn];
    TurnIsUnique(Folder, c.page.cur.turn);
    var found := if Visible(kind, c.query.features) then Fetch(db.rows, kind, c.page.cur.after, Take(c.page, c.query)) else [];
    EarlierScan(c.page, c.query, found);
  }

  lemma EarlierScan(s: Progress, q: Query, found: seq<Found>)
    requires !s.closed && s.cur.turn < TurnOf(Folder)
    ensures var cur := Scan(s, q, found).cur; cur.turn < TurnOf(Folder) || (cur.turn == TurnOf(Folder) && cur.after == None)
  {
    if Visible(ORDER[s.cur.turn], q.features) { ScanSends(s, q, found); }
  }

  /**
   * An event that adds no entry about a folder ahead of the download leaves it read or still ahead exactly when it does
   * not lose it.
   */
  lemma LosesExactly(sys: System, e: Event, q: Query, k: Key)
    requires Sound(sys, q) && k.kind == Folder && sys.client.Downloading? && LeavesAlone(sys, e, q, k)
    requires k !in Held(sys.client) && Ahead(sys.db.rows, sys.client, k)
    ensures var next := Turn(sys, e, q);
      && next.client.Downloading?
      && (k in Held(next.client) || Ahead(next.db.rows, next.client, k) <==> !Loses(sys, e, k))
  {
    var c := sys.client;
    if e.Read? && !c.page.closed && c.listed.None? {
      ReadKeepsAhead(sys.db, c, k);
    } else if e.ReadFolders? && !c.page.closed && c.listed.Some? {
      ReadFoldersLosesExactly(sys, q, k);
    } else if e.NextPage? && c.page.closed && c.page.next.Some? {
      ResumesOrRestarts(c.page.next.value);
    }
  }

  // ---------------------------------------------------------------- calm runs

  /**
   * While the folder is unread, a write leaves it within the query's reach and no closer to the root, and keeps the
   * folders of a full list in hand that it comes after.
   */
  ghost predicate Calm(sys: System, e: Event, q: Query, k: Key) {
    e.Commit? && Unread(sys, k) && LeavesAlone(sys, e, q, k) ==>
      var rows, next, c := sys.db.rows, Step(sys.db, e.action).rows, sys.client;
      && Reached(next, k)
      && (Reached(rows, k) ==> PositionOf(next, k).depth >= PositionOf(rows, k).depth)
      && (c.listed.Some? && |c.listed.value| == Take(c.page, c.query) && !InList(c.listed.value, k.id) ==>
            forall x :: x in c.listed.value && Key(Folder, x.id) in rows ==> Key(Folder, x.id) in next)
  }

  /** Every event of the run is calm. */
  ghost predicate CalmRun(start: System, q: Query, events: seq<Event>, k: Key) {
    events == [] ||
    var init, last := events[..|events| - 1], events[|events| - 1];
    CalmRun(start, q, init, k) && Calm(AfterEvents(start, init, q), last, q, k)
  }

  /** The folder is no closer to the root than its list says, or the full list it comes after is all there. */
  ghost predicate Steady(rows: Tables, c: Client, k: Key)
    requires c.Downloading?
  {
    && Reached(rows, k)
    && (c.listed.Some? && k.kind == Folder ==>
          if InList(c.listed.value, k.id) then forall x :: x in c.listed.value && x.id == k.id ==> !Before(PositionOf(rows, k), x)
          else |c.listed.value| == Take(c.page, c.query) ==> forall x :: x in c.listed.value ==> Key(Folder, x.id) in rows)
  }

  /** A folder that is there, untouched and not read is ahead of the download, and steady. */
  ghost predicate Kept(sys: System, k: Key) {
    sys.client.Downloading? && sys.client.page.cur.checkpoint <= |sys.db.log| && k in sys.db.rows && k !in Held(sys.client)
    && !Touched(sys.db.log, sys.client.page.cur.checkpoint, |sys.db.log|, k) ==>
      Ahead(sys.db.rows, sys.client, k) && Steady(sys.db.rows, sys.client, k)
  }

  /** A position that moved on is past whatever it was past, and as far behind a list as it was. */
  lemma MovedOn(p: Position, later: Position, after: Option<Position>)
    requires p == later || Before(p, later)
    ensures Past(p, after) ==> Past(later, after)
    ensures forall x :: !Before(p, x) ==> !Before(later, x)
  {
    if after.Some? && Before(after.value, p) && p != later { BeforeTransitive(after.value, p, later); }
    forall x | Before(later, x) ensures Before(p, x) { if p != later { BeforeTransitive(p, later, x); } }
  }

  lemma CommitIsCalm(sys: System, a: Action, q: Query, k: Key)
    requires Sound(sys, q) && k.kind == Folder && Unread(sys, k) && LeavesAlone(sys, Commit(a), q, k)
    requires Steady(sys.db.rows, sys.client, k) && Calm(sys, Commit(a), q, k)
    ensures var rows := Step(sys.db, a).rows; Ahead(rows, sys.client, k) && Steady(rows, sys.client, k)
  {
    var db, next, c := sys.db, Step(sys.db, a), sys.client;
    StepGrows(db, a);
    StepKeepsConsistent(db, a);
    UntouchedRow(db, next, k);
    ParentsFacts(db.rows);
    ParentsFacts(next.rows);
    assert k == Key(Folder, k.id);
    var p, later := PositionOf(db.rows, k), PositionOf(next.rows, k);
    MovedOn(p, later, c.page.cur.after);
    if c.listed.Some? && !InList(c.listed.value, k.id) && c.listed.value != [] {
      MovedOn(p, later, Some(c.listed.value[|c.listed.value| - 1]));
    }
  }

  lemma ReadIsSteady(db: Database, c: Client, k: Key)
    requires Consistent(db) && c.Downloading? && !c.page.closed && c.listed.None? && k.kind == Folder
    requires Ahead(db.rows, c, k) && Reached(db.rows, k)
    ensures Steady(db.rows, ReadTurn(db, c), k)
  {
    TurnIsUnique(Folder, c.page.cur.turn);
    if ORDER[c.page.cur.turn] == Folder {
      var after, take := c.page.cur.after, Take(c.page, c.query);
      var list := First(Snapshot.After(Listing(db.rows, Folder), after), take);
      FirstFacts(db.rows, Folder, after, take);
      ListingIncreases(db.rows, Folder);
      AfterFacts(Listing(db.rows, Folder), after);
      forall x | x in list && x.id == k.id ensures !Before(PositionOf(db.rows, k), x) {
        assert x in Snapshot.After(Listing(db.rows, Folder), after);
        ListedExactly(db.rows, Folder, x);
        BeforeIrreflexive(x);
      }
    }
  }

  /** A row found in the list is among the first `n`, or still past where those leave the cursor. */
  lemma FoundIsSentOrPast(rows: Tables, list: seq<Position>, after: Option<Position>, n: nat, x: Position, pos: Position)
    requires Increasing(list) && x in list && Past(x, after) && Key(Folder, x.id) in rows && !Before(pos, x)
    requires n <= |Load(rows, Folder, list)|
    ensures SentAmong(Load(rows, Folder, list), n, x.id) || Past(pos, AfterSent(after, Load(rows, Folder, list), n))
  {
    var found := Load(rows, Folder, list);
    var m := LoadHas(rows, Folder, list, x);
    assert found[m].position.id == x.id;
    if n == 0 {
      NotBeforePast(x, pos, after);
    } else if n <= m {
      LoadIncreases(rows, Folder, list, n - 1, m);
      NotBeforePast(x, pos, Some(found[n - 1].position));
    }
  }

  lemma RowsAreNotLost(db: Database, c: Client, k: Key)
    requires Consistent(db) && c.Downloading? && !c.page.closed && c.listed.Some? && PageOk(c) && k.kind == Folder
    requires k in db.rows && Steady(db.rows, c, k) && (InList(c.listed.value, k.id) || |c.listed.value| == Take(c.page, c.query))
    ensures !Loses(System(db, c), ReadFolders, k)
  {
    var list := c.listed.value;
    var n := SentOf(c.page, c.query, Load(db.rows, Folder, list));
    LoadIsShorterExactly(db.rows, Folder, list);
    if InList(list, k.id) {
      var i :| 0 <= i < |list| && list[i].id == k.id;
      assert list[i] in list && Key(Folder, list[i].id) == k;
      FoundIsSentOrPast(db.rows, list, c.page.cur.after, n, list[i], PositionOf(db.rows, k));
    }
  }

  lemma NotBeforePast(x: Position, pos: Position, after: Option<Position>)
    requires !Before(pos, x) && Past(x, after)
    ensures Past(pos, after)
  {
    BeforeTotal(x, pos);
    if after.Some? && x != pos { BeforeTransitive(after.value, x, pos); }
  }

  /** Without writes nothing is lost. */
  lemma ReadingLosesNothing(sys: System, e: Event, q: Query, k: Key)
    requires Sound(sys, q) && k.kind == Folder && sys.client.Downloading? && !e.Commit?
    requires k !in Held(sys.client) && Ahead(sys.db.rows, sys.client, k) && Steady(sys.db.rows, sys.client, k)
    ensures !Loses(sys, e, k)
    ensures var next := Turn(sys, e, q); next.client.Downloading? && Steady(next.db.rows, next.client, k)
  {
    var c := sys.client;
    if e.Read? && !c.page.closed && c.listed.None? {
      ReadIsSteady(sys.db, c, k);
    } else if e.ReadFolders? && !c.page.closed && c.listed.Some? {
      assert sys == System(sys.db, c);
      RowsAreNotLost(sys.db, c, k);
    }
  }

  /** A calm event loses nothing and leaves the folder steady. */
  lemma CalmLosesNothing(sys: System, e: Event, q: Query, k: Key)
    requires Sound(sys, q) && k.kind == Folder && Unread(sys, k) && LeavesAlone(sys, e, q, k)
    requires Steady(sys.db.rows, sys.client, k) && Calm(sys, e, q, k)
    ensures !Loses(sys, e, k)
    ensures var next := Turn(sys, e, q); next.client.Downloading? && Steady(next.db.rows, next.client, k)
  {
    if e.Commit? { CommitIsCalm(sys, e.action, q, k); } else { ReadingLosesNothing(sys, e, q, k); }
  }

  /** What is held stays held, and entries stay in the log. */
  lemma BeforeWasUnread(sys: System, e: Event, q: Query, k: Key)
    requires Sound(sys, q) && k.kind == Folder && Kept(sys, k)
    requires var next := Turn(sys, e, q);
      && next.client.Downloading? && k in next.db.rows && k !in Held(next.client)
      && next.client.page.cur.checkpoint <= |next.db.log|
      && !Touched(next.db.log, next.client.page.cur.checkpoint, |next.db.log|, k)
    ensures Unread(sys, k) && LeavesAlone(sys, e, q, k) && Steady(sys.db.rows, sys.client, k)
    ensures Turn(sys, e, q).client.page.cur.checkpoint == sys.client.page.cur.checkpoint
  {
    var c, log, next := sys.client, sys.db.log, Turn(sys, e, q);
    HeldGrows(sys, e, q, k);
    if e.Commit? {
      StepGrows(sys.db, e.action);
      StepKeepsConsistent(sys.db, e.action);
      assert forall i :: 0 <= i < |log| ==> next.db.log[i] == log[i];
      UntouchedRow(sys.db, next.db, k);
    }
  }

  lemma HeldGrows(sys: System, e: Event, q: Query, k: Key)
    requires Sound(sys, q) && sys.client.Downloading? && Turn(sys, e, q).client.Downloading?
    ensures k in Held(sys.client) ==> k in Held(Turn(sys, e, q).client)
    ensures Turn(sys, e, q).client.page.cur.checkpoint == sys.client.page.cur.checkpoint
  {
    var c := sys.client;
    if e.Read? && !c.page.closed && c.listed.None? && c.page.cur.turn < |ORDER| {
      var kind := ORDER[c.page.cur.turn];
      if Visible(kind, q.features) && kind != Folder {
        var list := First(Snapshot.After(Listing(sys.db.rows, kind), c.page.cur.after), Take(c.page, c.query));
        ScanHolds(sys.db, c, list, k);
        ScanSends(c.page, c.query, Load(sys.db.rows, kind, list));
      }
    } else if e.ReadFolders? && !c.page.closed && c.listed.Some? {
      ScanHolds(sys.db, c, c.listed.value, k);
      ScanSends(c.page, c.query, Load(sys.db.rows, Folder, c.listed.value));
    } else if e.NextPage? && c.page.closed && c.page.next.Some? {
      ResumesOrRestarts(c.page.next.value);
    }
  }

  lemma TurnIsCalm(sys: System, e: Event, q: Query, k: Key)
    requires Sound(sys, q) && k.kind == Folder && Kept(sys, k) && Calm(sys, e, q, k)
    ensures Kept(Turn(sys, e, q), k) && Spares(sys, e, q, k)
  {
    var next := Turn(sys, e, q);
    if Unread(sys, k) && LeavesAlone(sys, e, q, k) {
      CalmLosesNothing(sys, e, q, k);
      LosesExactly(sys, e, q, k);
    }
    if !Kept(next, k) { BeforeWasUnread(sys, e, q, k); }
  }

  /** A calm run loses nothing. */
  lemma {:induction false} CalmRunLosesNothing(start: System, q: Query, events: seq<Event>, k: Key)
    requires Sound(start, q) && k.kind == Folder && Kept(start, k) && CalmRun(start, q, events, k)
    ensures Sound(AfterEvents(start, events, q), q) && Kept(AfterEvents(start, events, q), k) && NoneLost(start, q, events, k)
    decreases |events|
  {
    if events != [] {
      var m := |events| - 1;
      var init, sys := events[..m], AfterEvents(start, events[..m], q);
      CalmRunLosesNothing(start, q, init, k);
      TurnIsCalm(sys, events[m], q, k);
      TurnIsSound(sys, events[m], q);
    }
  }
}
