/** Every event of a bootstrap keeps track of every resource, so every finished bootstrap has converged. */
module Bootstrap {
  import opened Prelude
  import opened Rows
  import opened Tree
  import opened Content
  import opened Integrity
  import opened Journal
  import opened Features
  import Pull
  import opened Snapshot
  import opened SnapshotPages
  import opened Sync
  import opened Convergence

  // ---------------------------------------------------------------- what a scan sends

  /** One turn sends some first rows, and closes the page exactly when not all were sent or more follow. */
  lemma ScanSends(s: Progress, q: Query, found: seq<Found>)
    requires !s.closed && s.cur.turn < |ORDER| && Visible(ORDER[s.cur.turn], q.features)
    ensures var out, n := Scan(s, q, found), SentOf(s, q, found);
      && out.entities == s.entities + EntitiesOf(ORDER[s.cur.turn], found[..n], q.features)
      && (out.closed <==> n < |found| || |found| > Want(s, q))
      && (if out.closed then out.cur == s.cur.(after := AfterSent(s.cur.after, found, n)) && out.next == Some(out.cur)
          else out.cur == Cursor(s.cur.checkpoint, s.cur.turn + 1, None) && out.next == s.next)
  {
    var kind, tried := ORDER[s.cur.turn], First(found, Want(s, q));
    if Want(s, q) == 0 {
      assert found[..0] == [];
      assert s.entities + [] == s.entities;
    } else {
      EmitSendsPrefix(s, q, kind, tried);
      assert tried[..SentOf(s, q, found)] == found[..SentOf(s, q, found)];
    }
  }

  lemma {:induction false} HoldAllOf(r: Replica, a: seq<Entity>, b: seq<Entity>)
    ensures HoldAll(r, a + b) == HoldAll(HoldAll(r, a), b)
  {
    if b == [] {
      assert a + b == a;
    } else {
      HoldAllOf(r, a, b[..|b| - 1]);
      assert (a + b)[..|a + b| - 1] == a + b[..|b| - 1];
    }
  }

  /** What is held of a resource after more entities is what was held, or one of them; a sent resource is held. */
  lemma {:induction false} HoldAllAt(r: Replica, b: seq<Entity>, k: Key)
    ensures At(HoldAll(r, b), k) == At(r, k) || exists i :: 0 <= i < |b| && b[i].key == k && At(HoldAll(r, b), k) == Some(b[i].item)
    ensures (exists i :: 0 <= i < |b| && b[i].key == k) ==> k in HoldAll(r, b)
  {
    if b != [] {
      var init, e := b[..|b| - 1], b[|b| - 1];
      HoldAllAt(r, init, k);
      forall i | 0 <= i < |b| && b[i].key == k ensures k in HoldAll(r, b) {
        if i < |b| - 1 { assert init[i].key == k; }
      }
      if At(HoldAll(r, b), k) != At(HoldAll(r, init), k) { assert b[|b| - 1].key == k; }
      forall i | 0 <= i < |init| && init[i].key == k && At(HoldAll(r, init), k) == Some(init[i].item)
        ensures b[i].key == k && b[i] == init[i] {}
    }
  }

  lemma {:induction false} HoldAllKeeps(r: Replica, b: seq<Entity>, k: Key)
    ensures k in r ==> k in HoldAll(r, b)
  {
    if b != [] { HoldAllKeeps(r, b[..|b| - 1], k); }
  }

  // ---------------------------------------------------------------- what a query finds

  lemma {:induction false} LoadElement(rows: Tables, kind: Kind, list: seq<Position>, i: nat)
    requires i < |Load(rows, kind, list)|
    ensures var f := Load(rows, kind, list)[i];
      f.position in list && Key(kind, f.position.id) in rows && f.row == rows[Key(kind, f.position.id)]
    decreases |list|
  {
    if Key(kind, list[0].id) in rows {
      if i > 0 { LoadElement(rows, kind, list[1..], i - 1); }
    } else {
      LoadElement(rows, kind, list[1..], i);
    }
  }

  lemma {:induction false} LoadHas(rows: Tables, kind: Kind, list: seq<Position>, x: Position) returns (i: nat)
    requires x in list && Key(kind, x.id) in rows
    ensures i < |Load(rows, kind, list)| && Load(rows, kind, list)[i].position == x
    decreases |list|
  {
    if x == list[0] {
      i := 0;
    } else {
      i := LoadHas(rows, kind, list[1..], x);
      if Key(kind, list[0].id) in rows { i := i + 1; }
    }
  }

  lemma {:induction false} LoadIncreases(rows: Tables, kind: Kind, list: seq<Position>, i: nat, j: nat)
    requires Increasing(list) && i < j < |Load(rows, kind, list)|
    ensures Before(Load(rows, kind, list)[i].position, Load(rows, kind, list)[j].position)
    decreases |list|
  {
    assert Increasing(list[1..]);
    if Key(kind, list[0].id) in rows {
      if i > 0 {
        LoadIncreases(rows, kind, list[1..], i - 1, j - 1);
      } else {
        LoadElement(rows, kind, list[1..], j - 1);
        var x := Load(rows, kind, list)[j].position;
        var m :| 0 <= m < |list[1..]| && list[1..][m] == x;
        assert list[m + 1] == x;
      }
    } else {
      LoadIncreases(rows, kind, list[1..], i, j);
    }
  }

  /** Every sent entity is the current row as the client sees it. */
  lemma SentIsCurrent(db: Database, kind: Kind, list: seq<Position>, features: set<Feature>, n: nat, i: nat)
    requires Consistent(db) && Visible(kind, features) && i < n <= |Load(db.rows, kind, list)|
    ensures var e := EntitiesOf(kind, Load(db.rows, kind, list)[..n], features)[i];
      && e.key == Key(kind, Load(db.rows, kind, list)[i].position.id)
      && Some(e.item) == Truth(db.log, |db.log|, e.key, features)
  {
    var found := Load(db.rows, kind, list);
    EntitiesOfAt(kind, found[..n], features, i);
    LoadElement(db.rows, kind, list, i);
    var k := Key(kind, found[i].position.id);
    TruthNow(db, k, features);
    ViewAt(db.rows, features, k);
  }

  /** What a scan turn does to the held copy of a resource: nothing, or it becomes the current row when it is sent. */
  lemma ScanHolds(db: Database, c: Client, list: seq<Position>, k: Key)
    requires Consistent(db) && c.Downloading? && !c.page.closed && c.page.cur.turn < |ORDER|
    requires Visible(ORDER[c.page.cur.turn], c.query.features)
    ensures var kind := ORDER[c.page.cur.turn];
      var found := Load(db.rows, kind, list);
      var held := HoldAll(c.replica, Scan(c.page, c.query, found).entities);
      && (At(held, k) == At(Held(c), k) || At(held, k) == Truth(db.log, |db.log|, k, c.query.features))
      && (k in held <==> k in Held(c) || (k.kind == kind && SentAmong(found, SentOf(c.page, c.query, found), k.id)))
  {
    var kind, s, q := ORDER[c.page.cur.turn], c.page, c.query;
    var found := Load(db.rows, kind, list);
    var n := SentOf(s, q, found);
    ScanSends(s, q, found);
    var sent := EntitiesOf(kind, found[..n], q.features);
    HoldAllOf(c.replica, s.entities, sent);
    HoldAllAt(Held(c), sent, k);
    HoldAllKeeps(Held(c), sent, k);
    forall i | 0 <= i < n ensures sent[i].key == Key(kind, found[i].position.id) && Some(sent[i].item) == Truth(db.log, |db.log|, sent[i].key, q.features) {
      SentIsCurrent(db, kind, list, q.features, n, i);
    }
    if k.kind == kind && SentAmong(found, n, k.id) {
      var i :| 0 <= i < n && found[i].position.id == k.id;
      assert sent[i].key == k;
    }
  }

  // ---------------------------------------------------------------- rows still ahead of the download

  /** A row past the cursor is in the list, or behind a full one. */
  lemma PastIsListed(rows: Tables, kind: Kind, after: Option<Position>, take: nat, k: Key)
    requires k in rows && k.kind == kind && Reached(rows, k) && take >= 1
    requires KindsMatch(rows) && Past(PositionOf(rows, k), after)
    ensures var list, pos := First(After(Listing(rows, kind), after), take), PositionOf(rows, k);
      pos.id == k.id && (pos in list || BehindFull(list, take, pos))
  {
    var pos, all := PositionOf(rows, k), After(Listing(rows, kind), after);
    ListingIncreases(rows, kind);
    AfterFacts(Listing(rows, kind), after);
    ListedExactly(rows, kind, pos);
    var i :| 0 <= i < |all| && all[i] == pos;
    if i < take {
      assert First(all, take)[i] == pos;
    } else {
      assert Before(all[take - 1], all[i]);
    }
  }

  lemma FirstFacts(rows: Tables, kind: Kind, after: Option<Position>, take: nat)
    ensures var list := First(After(Listing(rows, kind), after), take);
      && Increasing(list) && |list| <= take
      && forall x :: x in list ==> Past(x, after) && Key(kind, x.id) in rows
  {
    ListingIncreases(rows, kind);
    ListedAreThere(rows, kind);
    AfterFacts(Listing(rows, kind), after);
    var all := After(Listing(rows, kind), after);
    forall x | x in First(all, take) ensures x in all {}
  }

  /** The rows of a list that is all there are found in its order. */
  lemma SentUpTo(rows: Tables, kind: Kind, list: seq<Position>, after: Option<Position>, n: nat, pos: Position)
    requires Increasing(list) && forall x :: x in list ==> Past(x, after) && Key(kind, x.id) in rows
    requires n <= |Load(rows, kind, list)| && (pos in list || (list != [] && Before(list[|list| - 1], pos)))
    ensures var found := Load(rows, kind, list);
      && |found| == |list|
      && ((pos in list && SentAmong(found, n, pos.id)) || Past(pos, AfterSent(after, found, n)))
      && (pos in list && n == |found| ==> SentAmong(found, n, pos.id))
  {
    LoadKeepsAll(rows, kind, list);
    var found := Load(rows, kind, list);
    if pos in list {
      var i :| 0 <= i < |list| && list[i] == pos;
      if i < n { assert found[i].position.id == pos.id; }
    } else {
      var last := list[|list| - 1];
      assert last in list;
      if after.Some? { BeforeTransitive(after.value, last, pos); }
      if 0 < n < |list| { BeforeTransitive(list[n - 1], last, pos); }
    }
  }

  /** A row that is listed and not sent lies behind the cursor's new place, and the page is closed there. */
  lemma ScanKeepsListed(db: Database, c: Client, list: seq<Position>, k: Key, pos: Position)
    requires Consistent(db) && c.Downloading? && !c.page.closed && c.page.cur.turn < |ORDER|
    requires Visible(ORDER[c.page.cur.turn], c.query.features) && k.kind == ORDER[c.page.cur.turn] && pos.id == k.id
    requires Increasing(list) && forall x :: x in list ==> Past(x, c.page.cur.after) && Key(k.kind, x.id) in db.rows
    requires pos in list || BehindFull(list, Take(c.page, c.query), pos)
    ensures var out := Scan(c.page, c.query, Load(db.rows, k.kind, list));
      k in HoldAll(c.replica, out.entities) || (out.closed && out.cur.turn == c.page.cur.turn && Past(pos, out.cur.after))
  {
    var found := Load(db.rows, k.kind, list);
    ScanHolds(db, c, list, k);
    ScanSends(c.page, c.query, found);
    SentUpTo(db.rows, k.kind, list, c.page.cur.after, SentOf(c.page, c.query, found), pos);
  }

  // ---------------------------------------------------------------- the start

  lemma BeginSound(db: Database, q: Query)
    requires Consistent(db)
    ensures Sound(Begin(db, q), q)
  {}

  lemma BeginTracks(db: Database, q: Query, k: Key)
    requires Consistent(db) && (k in db.rows ==> Reached(db.rows, k))
    ensures Sound(Begin(db, q), q) && Tracks(Begin(db, q), q, k)
  {
    TruthNow(db, k, q.features);
    ViewAt(db.rows, q.features, k);
    assert Held(Begin(db, q).client) == map[];
  }

  // ---------------------------------------------------------------- writes

  lemma StepGrows(db: Database, a: Action)
    ensures db.log <= Step(db, a).log
  {
    StepPerforms(db, a);
  }

  lemma {:induction false} LastUntouched(log: seq<Entry>, n: nat, m: nat, k: Key)
    requires n <= m <= |log| && !Touched(log, n, m, k)
    ensures Last(log[..m], k) == Last(log[..n], k)
    decreases m
  {
    if n < m {
      assert !Touched(log, n, m - 1, k);
      LastUntouched(log, n, m - 1, k);
      assert log[..m] == log[..m - 1] + [log[m - 1]];
      LastOfAppend(log[..m - 1], log[m - 1], k);
    }
  }

  /** A row no new entry is about is unchanged. */
  lemma UntouchedRow(db: Database, next: Database, k: Key)
    requires Consistent(db) && Consistent(next) && db.log <= next.log
    requires !Touched(next.log, |db.log|, |next.log|, k)
    ensures At(Wire(db.rows), k) == At(Wire(next.rows), k)
    ensures k in db.rows <==> k in next.rows
  {
    LastUntouched(next.log, |db.log|, |next.log|, k);
    assert next.log[..|db.log|] == db.log && next.log[..|next.log|] == next.log;
    assert Remains(Last(db.log, k)) == At(Wire(db.rows), k);
    assert Remains(Last(next.log, k)) == At(Wire(next.rows), k);
  }

  /** Replaying in two stretches is replaying in one. */
  lemma CaughtInTwo(log: seq<Entry>, s: Replica, c: nat, m: nat, n: nat, features: set<Feature>)
    requires c <= m <= n <= |log|
    ensures Caught(log, Caught(log, s, c, m, features), m, n, features) == Caught(log, s, c, n, features)
  {
    assert log[c..n] == log[c..m] + log[m..n];
    ShapeLogOfConcat(log[c..m], log[m..n], features);
    ReplayOfConcat(s, ShapeLog(log[c..m], features), ShapeLog(log[m..n], features));
  }

  lemma CaughtOfPrefix(log: seq<Entry>, longer: seq<Entry>, s: Replica, c: nat, features: set<Feature>)
    requires log <= longer && c <= |log|
    ensures Caught(longer, s, c, |log|, features) == Caught(log, s, c, |log|, features)
  {
    assert longer[c..|log|] == log[c..|log|];
  }

  /** A copy that is right at entry `n` is right at the end of the log. */
  lemma RightStaysRight(log: seq<Entry>, s: Replica, n: nat, k: Key, features: set<Feature>)
    requires Lives(log) && n <= |log| && At(s, k) == Truth(log, n, k, features)
    ensures At(Caught(log, s, n, |log|, features), k) == Truth(log, |log|, k, features)
  {
    CopyCatchesUp(log, s, n, n, |log|, k, features);
  }

  lemma CaughtStays(log: seq<Entry>, longer: seq<Entry>, s: Replica, c: nat, k: Key, features: set<Feature>)
    requires Lives(longer) && log <= longer && c <= |log|
    requires At(Caught(log, s, c, |log|, features), k) == Truth(log, |log|, k, features)
    ensures At(Caught(longer, s, c, |longer|, features), k) == Truth(longer, |longer|, k, features)
  {
    CaughtOfPrefix(log, longer, s, c, features);
    TruthOfPrefix(log, longer, |log|, k, features);
    RightStaysRight(longer, Caught(longer, s, c, |log|, features), |log|, k, features);
    CaughtInTwo(longer, s, c, |log|, |longer|, features);
  }

  /** A row that is not a folder keeps its place, so it stays ahead of the download or gets an entry of its own. */
  lemma OthersStayAhead(db: Database, next: Database, c: Client, k: Key)
    requires Consistent(db) && Consistent(next) && db.log <= next.log && c.Downloading? && k.kind != Folder
    requires Ahead(db.rows, c, k) && !Touched(next.log, |db.log|, |next.log|, k)
    ensures Ahead(next.rows, c, k)
  {
    UntouchedRow(db, next, k);
  }

  lemma WriteTracks(sys: System, a: Action, q: Query, k: Key)
    requires Sound(sys, q) && Tracks(sys, q, k) && Spares(sys, Commit(a), q, k)
    ensures Sound(Turn(sys, Commit(a), q), q) && Tracks(Turn(sys, Commit(a), q), q, k)
  {
    var db, next, c := sys.db, Step(sys.db, a), sys.client;
    StepGrows(db, a);
    StepKeepsConsistent(db, a);
    if c.Pulling? {
      CaughtStays(db.log, next.log, c.replica, c.checkpoint, k, q.features);
    } else if Known(db.log, c.page.cur.checkpoint, Held(c), k, q.features) {
      KnownStays(db.log, next.log, c.page.cur.checkpoint, Held(c), k, q.features);
    } else if k.kind != Folder && !Touched(next.log, |db.log|, |next.log|, k) {
      OthersStayAhead(db, next, c, k);
    }
  }

  // ---------------------------------------------------------------- reads

  /** A scan of rows that are all there keeps track of every resource. */
  lemma ScanFollows(db: Database, c: Client, list: seq<Position>, k: Key)
    requires Consistent(db) && c.Downloading? && c.page.cur.checkpoint <= |db.log| && Follows(db, c, k)
    requires !c.page.closed && c.page.cur.turn < |ORDER| && Visible(ORDER[c.page.cur.turn], c.query.features)
    requires k.kind == ORDER[c.page.cur.turn] && !Known(db.log, c.page.cur.checkpoint, Held(c), k, c.query.features) ==>
      var next := c.(page := Scan(c.page, c.query, Load(db.rows, k.kind, list)), listed := None);
      k in Held(next) || Ahead(db.rows, next, k)
    ensures var next := c.(page := Scan(c.page, c.query, Load(db.rows, ORDER[c.page.cur.turn], list)), listed := None);
      next.page.cur.checkpoint == c.page.cur.checkpoint && Follows(db, next, k)
  {
    ScanHolds(db, c, list, k);
    ScanSends(c.page, c.query, Load(db.rows, ORDER[c.page.cur.turn], list));
    TurnIsUnique(k.kind, c.page.cur.turn);
  }

  lemma ReadSound(sys: System, q: Query)
    requires Sound(sys, q)
    ensures Sound(Turn(sys, Read, q), q)
  {
    var c := sys.client;
    if c.Downloading? && !c.page.closed && c.listed.None? && c.page.cur.turn < |ORDER| {
      var kind := ORDER[c.page.cur.turn];
      FirstFacts(sys.db.rows, kind, c.page.cur.after, Take(c.page, c.query));
      var found := Fetch(sys.db.rows, kind, c.page.cur.after, Take(c.page, c.query));
      if Visible(kind, q.features) { ScanSends(c.page, c.query, found); }
      TurnIsUnique(Folder, c.page.cur.turn);
    }
  }

  lemma ListingFollows(db: Database, c: Client, k: Key)
    requires Consistent(db) && c.Downloading? && c.page.cur.checkpoint <= |db.log| && Follows(db, c, k)
    requires !c.page.closed && c.listed.None? && c.page.cur.turn == TurnOf(Folder)
    ensures Follows(db, c.(listed := Some(First(After(Listing(db.rows, Folder), c.page.cur.after), Take(c.page, c.query)))), k)
  {
    if k.kind == Folder && Ahead(db.rows, c, k) {
      PastIsListed(db.rows, Folder, c.page.cur.after, Take(c.page, c.query), k);
    }
  }

  lemma RowsFollow(db: Database, c: Client, k: Key)
    requires Consistent(db) && c.Downloading? && c.page.cur.checkpoint <= |db.log| && Follows(db, c, k)
    requires !c.page.closed && c.listed.None? && c.page.cur.turn < |ORDER|
    requires ORDER[c.page.cur.turn] != Folder && Visible(ORDER[c.page.cur.turn], c.query.features)
    ensures ReadTurn(db, c).page.cur.checkpoint == c.page.cur.checkpoint && Follows(db, ReadTurn(db, c), k)
  {
    var kind, after, take := ORDER[c.page.cur.turn], c.page.cur.after, Take(c.page, c.query);
    TurnIsUnique(kind, c.page.cur.turn);
    FirstFacts(db.rows, kind, after, take);
    if k.kind == kind && Ahead(db.rows, c, k) {
      PastIsListed(db.rows, kind, after, take, k);
      ScanKeepsListed(db, c, First(After(Listing(db.rows, kind), after), take), k, PositionOf(db.rows, k));
    }
    ScanFollows(db, c, First(After(Listing(db.rows, kind), after), take), k);
  }

  /** One query of the download: the current rows are sent or still to be reached. */
  lemma ReadFollows(db: Database, c: Client, k: Key)
    requires Consistent(db) && c.Downloading? && c.page.cur.checkpoint <= |db.log| && Follows(db, c, k)
    requires !c.page.closed && c.listed.None?
    ensures ReadTurn(db, c).page.cur.checkpoint == c.page.cur.checkpoint && Follows(db, ReadTurn(db, c), k)
  {
    if c.page.cur.turn < |ORDER| {
      var kind := ORDER[c.page.cur.turn];
      TurnIsUnique(k.kind, c.page.cur.turn);
      TurnIsUnique(Folder, c.page.cur.turn);
      if Visible(kind, c.query.features) && kind == Folder {
        ListingFollows(db, c, k);
      } else if Visible(kind, c.query.features) {
        RowsFollow(db, c, k);
      }
    }
  }

  lemma ReadTracks(sys: System, q: Query, k: Key)
    requires Sound(sys, q) && Tracks(sys, q, k)
    ensures Sound(Turn(sys, Read, q), q) && Tracks(Turn(sys, Read, q), q, k)
  {
    ReadSound(sys, q);
    var c := sys.client;
    if c.Downloading? && !c.page.closed && c.listed.None? { ReadFollows(sys.db, c, k); }
  }

  lemma ReadFoldersSound(sys: System, q: Query)
    requires Sound(sys, q)
    ensures Sound(Turn(sys, ReadFolders, q), q)
  {
    var c := sys.client;
    if c.Downloading? && !c.page.closed && c.listed.Some? && c.page.cur.turn < |ORDER| {
      ScanSends(c.page, c.query, Load(sys.db.rows, Folder, c.listed.value));
    }
  }

  lemma ListedReadExactly(db: Database, c: Client, k: Key)
    requires Consistent(db) && c.Downloading? && c.listed.Some? && PageOk(c)
    requires k.kind == Folder && k in db.rows && k !in Held(c) && InList(c.listed.value, k.id)
    ensures var found, next := Load(db.rows, Folder, c.listed.value), ReadFolderRows(db, c);
      var n := SentOf(c.page, c.query, found);
      (k in Held(next) || Ahead(db.rows, next, k)) <==>
        SentAmong(found, n, k.id) || (Reached(db.rows, k) && Past(PositionOf(db.rows, k), AfterSent(c.page.cur.after, found, n)))
  {
    var list := c.listed.value;
    var found := Load(db.rows, Folder, list);
    ScanHolds(db, c, list, k);
    ScanSends(c.page, c.query, found);
    var i :| 0 <= i < |list| && list[i].id == k.id;
    var m := LoadHas(db.rows, Folder, list, list[i]);
    assert found[m].position.id == k.id;
  }

  lemma BehindReadExactly(db: Database, c: Client, k: Key)
    requires Consistent(db) && c.Downloading? && c.listed.Some? && PageOk(c)
    requires k.kind == Folder && k in db.rows && k !in Held(c) && !InList(c.listed.value, k.id)
    requires Reached(db.rows, k) && BehindFull(c.listed.value, Take(c.page, c.query), PositionOf(db.rows, k))
    ensures var found, next := Load(db.rows, Folder, c.listed.value), ReadFolderRows(db, c);
      (k in Held(next) || Ahead(db.rows, next, k)) <==> !(SentOf(c.page, c.query, found) == |found| < Take(c.page, c.query))
  {
    var list := c.listed.value;
    var found := Load(db.rows, Folder, list);
    var n := SentOf(c.page, c.query, found);
    ScanHolds(db, c, list, k);
    ScanSends(c.page, c.query, found);
    LoadIsShorterExactly(db.rows, Folder, list);
    if SentAmong(found, n, k.id) {
      var m :| 0 <= m < n && found[m].position.id == k.id;
      LoadElement(db.rows, Folder, list, m);
    }
    SentIsInList(db.rows, list, c.page.cur.after, n, PositionOf(db.rows, k));
  }

  /** However many rows of a list are gone, the cursor stays in the list or where it was. */
  lemma SentIsInList(rows: Tables, list: seq<Position>, after: Option<Position>, n: nat, pos: Position)
    requires Increasing(list) && (forall x :: x in list ==> Past(x, after)) && n <= |Load(rows, Folder, list)|
    requires list != [] && Before(list[|list| - 1], pos)
    ensures Past(pos, AfterSent(after, Load(rows, Folder, list), n))
  {
    var last := list[|list| - 1];
    assert last in list;
    if n > 0 {
      LoadElement(rows, Folder, list, n - 1);
      var x := Load(rows, Folder, list)[n - 1].position;
      var i :| 0 <= i < |list| && list[i] == x;
      if i < |list| - 1 { BeforeTransitive(x, last, pos); }
    } else if after.Some? {
      BeforeTransitive(after.value, last, pos);
    }
  }

  /** Reading the rows of the list in hand leaves an unread folder read or ahead exactly when it does not lose it. */
  lemma ReadFoldersLosesExactly(sys: System, q: Query, k: Key)
    requires Sound(sys, q) && sys.client.Downloading? && sys.client.listed.Some?
    requires k.kind == Folder && k !in Held(sys.client) && Ahead(sys.db.rows, sys.client, k)
    ensures var next := Turn(sys, ReadFolders, q);
      && next.client.Downloading?
      && (k in Held(next.client) || Ahead(next.db.rows, next.client, k) <==> !Loses(sys, ReadFolders, k))
  {
    if InList(sys.client.listed.value, k.id) {
      ListedReadExactly(sys.db, sys.client, k);
    } else {
      BehindReadExactly(sys.db, sys.client, k);
    }
  }

  lemma {:induction false} LoadIsShorterExactly(rows: Tables, kind: Kind, list: seq<Position>)
    ensures |Load(rows, kind, list)| <= |list|
    ensures |Load(rows, kind, list)| == |list| <==> forall x :: x in list ==> Key(kind, x.id) in rows
  {
    if list != [] {
      LoadIsShorterExactly(rows, kind, list[1..]);
      assert list == [list[0]] + list[1..];
    }
  }

  lemma ReadFoldersTracks(sys: System, q: Query, k: Key)
    requires Sound(sys, q) && Tracks(sys, q, k) && Spares(sys, ReadFolders, q, k)
    ensures Sound(Turn(sys, ReadFolders, q), q) && Tracks(Turn(sys, ReadFolders, q), q, k)
  {
    ReadFoldersSound(sys, q);
    var c := sys.client;
    if c.Downloading? && !c.page.closed && c.page.cur.turn < |ORDER| && c.listed.Some? {
      TurnIsUnique(k.kind, c.page.cur.turn);
      if k.kind == Folder && !Known(sys.db.log, c.page.cur.checkpoint, Held(c), k, q.features) {
        ReadFoldersLosesExactly(sys, q, k);
      }
      ScanFollows(sys.db, c, c.listed.value, k);
    }
  }

  // ---------------------------------------------------------------- pages and pulls

  lemma NextPageTracks(sys: System, limit: nat, q: Query, k: Key)
    requires Sound(sys, q) && Tracks(sys, q, k)
    ensures Sound(Turn(sys, NextPage(limit), q), q) && Tracks(Turn(sys, NextPage(limit), q), q, k)
  {
    var c := sys.client;
    if c.Downloading? && c.page.closed && c.page.next.Some? { ResumesOrRestarts(c.page.next.value); }
  }

  lemma FinishTracks(sys: System, q: Query, k: Key)
    requires Sound(sys, q) && Tracks(sys, q, k)
    ensures Sound(Turn(sys, Finish, q), q) && Tracks(Turn(sys, Finish, q), q, k)
  {
    var c := sys.client;
    if c.Downloading? && c.page.closed && c.page.next.None? {
      KnownCatchesUp(sys.db.log, c.page.cur.checkpoint, Held(c), k, q.features);
    }
  }

  lemma PullSound(sys: System, limit: nat, q: Query)
    requires Sound(sys, q)
    ensures Sound(Turn(sys, PullMore(limit), q), q)
  {
    var c, log := sys.client, sys.db.log;
    if c.Pulling? && limit >= 1 {
      Pull.PageProgress(log, c.checkpoint, limit, q.cap, q.size, q.features);
      assert Turn(sys, PullMore(limit), q) == System(sys.db, PullTurn(sys.db, c, limit, q));
    } else {
      assert Turn(sys, PullMore(limit), q) == sys;
    }
  }

  lemma PullTurnIsCaught(log: seq<Entry>, r: Replica, after: nat, limit: nat, q: Query)
    requires after <= |log| && limit >= 1
    ensures var p := Pull.PullPage(log, after, limit, q.cap, q.size, q.features);
      && after <= p.checkpoint <= |log|
      && Replay(r, p.operations) == Caught(log, r, after, p.checkpoint, q.features)
      && Caught(log, Replay(r, p.operations), p.checkpoint, |log|, q.features) == Caught(log, r, after, |log|, q.features)
  {
    var p := Pull.PullPage(log, after, limit, q.cap, q.size, q.features);
    Pull.PageProgress(log, after, limit, q.cap, q.size, q.features);
    CaughtInTwo(log, r, after, p.checkpoint, |log|, q.features);
  }

  lemma PullKeepsCatchingUp(log: seq<Entry>, r: Replica, after: nat, limit: nat, q: Query, k: Key)
    requires after <= |log| && limit >= 1 && CatchesUp(log, r, after, k, q.features)
    ensures var p := Pull.PullPage(log, after, limit, q.cap, q.size, q.features);
      after <= p.checkpoint <= |log| && CatchesUp(log, Replay(r, p.operations), p.checkpoint, k, q.features)
  {
    PullTurnIsCaught(log, r, after, limit, q);
  }

  lemma PullTracks(sys: System, limit: nat, q: Query, k: Key)
    requires Sound(sys, q) && Tracks(sys, q, k)
    ensures Sound(Turn(sys, PullMore(limit), q), q) && Tracks(Turn(sys, PullMore(limit), q), q, k)
  {
    PullSound(sys, limit, q);
    var c := sys.client;
    if c.Pulling? && limit >= 1 {
      assert Turn(sys, PullMore(limit), q) == System(sys.db, PullTurn(sys.db, c, limit, q));
      PullKeepsCatchingUp(sys.db.log, c.replica, c.checkpoint, limit, q, k);
    } else {
      assert Turn(sys, PullMore(limit), q) == sys;
    }
  }

  // ---------------------------------------------------------------- whole runs

  lemma TurnIsSound(sys: System, e: Event, q: Query)
    requires Sound(sys, q)
    ensures Sound(Turn(sys, e, q), q)
  {
    match e
    case Commit(a) => StepGrows(sys.db, a); StepKeepsConsistent(sys.db, a);
    case Read => ReadSound(sys, q);
    case ReadFolders => ReadFoldersSound(sys, q);
    case NextPage(limit) =>
      var c := sys.client;
      if c.Downloading? && c.page.closed && c.page.next.Some? { ResumesOrRestarts(c.page.next.value); }
    case Finish =>
    case PullMore(limit) => PullSound(sys, limit, q);
  }

  lemma TurnTracks(sys: System, e: Event, q: Query, k: Key)
    requires Sound(sys, q) && Tracks(sys, q, k) && Spares(sys, e, q, k)
    ensures Sound(Turn(sys, e, q), q) && Tracks(Turn(sys, e, q), q, k)
  {
    match e
    case Commit(a) => WriteTracks(sys, a, q, k);
    case Read => ReadTracks(sys, q, k);
    case ReadFolders => ReadFoldersTracks(sys, q, k);
    case NextPage(limit) => NextPageTracks(sys, limit, q, k);
    case Finish => FinishTracks(sys, q, k);
    case PullMore(limit) => PullTracks(sys, limit, q, k);
  }

  lemma {:induction false} RunTracks(start: System, q: Query, events: seq<Event>, k: Key)
    requires Sound(start, q) && Tracks(start, q, k) && (k.kind == Folder ==> NoneLost(start, q, events, k))
    ensures var end := AfterEvents(start, events, q); Sound(end, q) && Tracks(end, q, k)
    decreases |events|
  {
    if events != [] {
      var m := |events| - 1;
      RunTracks(start, q, events[..m], k);
      TurnTracks(AfterEvents(start, events[..m], q), events[m], q, k);
    }
  }

  /** The client has loaded the last page, and its latest pull reported nothing more and nothing was written since. */
  predicate UpToDate(sys: System) {
    sys.client.Pulling? && sys.client.done
  }

  lemma UpToDateIsTruth(sys: System, q: Query, k: Key)
    requires Sound(sys, q) && Tracks(sys, q, k) && UpToDate(sys)
    ensures At(sys.client.replica, k) == At(View(sys.db.rows, q.features), k)
  {
    var log := sys.db.log;
    assert log[|log|..|log|] == [];
    TruthNow(sys.db, k, q.features);
  }

  /**
   * Convergence, one resource at a time: whatever was written between the queries of the download and between the
   * pulls, an up-to-date client holds of every resource exactly what the tables do. For a folder this takes that its
   * own chain of parents ended within the limit at the start and that no event of the run lost it while it was unread.
   */
  lemma BootstrapConverges(db: Database, q: Query, events: seq<Event>, k: Key)
    requires Consistent(db) && UpToDate(AfterEvents(Begin(db, q), events, q))
    requires k.kind == Folder ==> (k in db.rows ==> Reached(db.rows, k)) && NoneLost(Begin(db, q), q, events, k)
    ensures var end := AfterEvents(Begin(db, q), events, q);
      At(end.client.replica, k) == At(View(end.db.rows, q.features), k)
  {
    BeginTracks(db, q, k);
    RunTracks(Begin(db, q), q, events, k);
    UpToDateIsTruth(AfterEvents(Begin(db, q), events, q), q, k);
  }
}
