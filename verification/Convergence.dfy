/**
 * A client that bootstraps while others write: snapshot queries, committed writes and pulls interleave arbitrarily,
 * and when a pull reports nothing more the client's replica is the server's tables.
 */
module Convergence {
  import opened Prelude
  import opened Rows
  import opened Tree
  import opened Content
  import opened Integrity
  import opened Journal
  import opened Features
  import Pull
  import opened Snapshot
  import opened SnapshotPages
  import opened Sync

  // ---------------------------------------------------------------- one resource over time

  /** What a client with these features would hold of a resource if it were up to date with the first `n` entries. */
  function Truth(log: seq<Entry>, n: nat, k: Key, features: set<Feature>): Option<Item>
    requires n <= |log|
  {
    if !Visible(k.kind, features) then None
    else
      match Remains(Last(log[..n], k))
      case None => None
      case Some(item) => Some(ShapeItem(k, item, features))
  }

  predicate Touched(log: seq<Entry>, from: nat, to: nat, k: Key)
    requires from <= to <= |log|
  {
    exists i :: from <= i < to && log[i].key == k
  }

  lemma TruthStep(log: seq<Entry>, n: nat, k: Key, features: set<Feature>)
    requires n < |log|
    ensures log[n].key != k ==> Truth(log, n + 1, k, features) == Truth(log, n, k, features)
    ensures log[n].key == k && Visible(k.kind, features) ==>
      Truth(log, n + 1, k, features)
        == (if log[n].change.Deletion? then None else Some(ShapeItem(k, Item(log[n].version, log[n].payload), features)))
  {
    assert log[..n + 1] == log[..n] + [log[n]];
    LastOfAppend(log[..n], log[n], k);
  }

  lemma TruthOfPrefix(log: seq<Entry>, longer: seq<Entry>, n: nat, k: Key, features: set<Feature>)
    requires log <= longer && n <= |log|
    ensures Truth(longer, n, k, features) == Truth(log, n, k, features)
  {
    assert longer[..n] == log[..n];
  }

  lemma TruthNow(db: Database, k: Key, features: set<Feature>)
    requires Consistent(db)
    ensures Truth(db.log, |db.log|, k, features) == At(View(db.rows, features), k)
  {
    assert db.log[..|db.log|] == db.log;
    assert Remains(Last(db.log, k)) == At(Wire(db.rows), k);
    ViewAt(db.rows, features, k);
  }

  /** The replica of a client that starts from `s` at checkpoint `c` and has replayed up to entry `n`. */
  function Caught(log: seq<Entry>, s: Replica, c: nat, n: nat, features: set<Feature>): Replica
    requires c <= n <= |log|
  {
    Replay(s, ShapeLog(log[c..n], features))
  }

  lemma CaughtStep(log: seq<Entry>, s: Replica, c: nat, n: nat, features: set<Feature>)
    requires c <= n < |log|
    ensures Caught(log, s, c, n + 1, features) ==
      if Visible(log[n].key.kind, features) then ApplyEntry(Caught(log, s, c, n, features), ShapeEntry(log[n], features))
      else Caught(log, s, c, n, features)
  {
    SliceGrows(log, c, n);
    ShapeLogOfLast(log[c..n], log[n], features);
    if Visible(log[n].key.kind, features) { ReplayOfAppend(s, ShapeLog(log[c..n], features), ShapeEntry(log[n], features)); }
  }

  lemma SliceGrows(log: seq<Entry>, c: nat, n: nat)
    requires c <= n < |log|
    ensures log[c..n + 1] == log[c..n] + [log[n]]
  {}

  lemma ShapeLogOfLast(log: seq<Entry>, e: Entry, features: set<Feature>)
    ensures ShapeLog(log + [e], features) ==
      if Visible(e.key.kind, features) then ShapeLog(log, features) + [ShapeEntry(e, features)] else ShapeLog(log, features)
  {
    assert (log + [e])[..|log|] == log;
  }

  /** What one entry does to what a client holds of a resource. */
  function Advanced(x: Option<Item>, e: Entry, k: Key, features: set<Feature>): Option<Item> {
    if e.key != k || !Visible(k.kind, features) then x
    else if e.change.Deletion? then None
    else if x.None? || e.version >= x.value.version then Some(ShapeItem(k, Item(e.version, e.payload), features))
    else x
  }

  lemma CaughtAdvances(log: seq<Entry>, s: Replica, c: nat, n: nat, k: Key, features: set<Feature>)
    requires c <= n < |log|
    ensures At(Caught(log, s, c, n + 1, features), k) == Advanced(At(Caught(log, s, c, n, features), k), log[n], k, features)
  {
    CaughtStep(log, s, c, n, features);
  }

  lemma CaughtStarts(log: seq<Entry>, s: Replica, c: nat, features: set<Feature>)
    requires c <= |log|
    ensures Caught(log, s, c, c, features) == s
  {
    assert log[c..c] == [];
  }

  /** The truth advances the same way, and an upsert always finds an older version or none. */
  lemma TruthAdvances(log: seq<Entry>, n: nat, k: Key, features: set<Feature>)
    requires Lives(log) && n < |log|
    ensures Truth(log, n + 1, k, features) == Advanced(Truth(log, n, k, features), log[n], k, features)
  {
    TruthStep(log, n, k, features);
    assert Continues(Remains(Last(log[..n], log[n].key)), log[n]);
  }

  /** A copy read at a later point `j` stays ahead until replay reaches it, and is the truth from then on. */
  lemma {:induction false} CopyCatchesUp(log: seq<Entry>, s: Replica, c: nat, j: nat, n: nat, k: Key,
      features: set<Feature>)
    requires Lives(log) && c <= j <= |log| && c <= n <= |log|
    requires At(s, k) == Truth(log, j, k, features)
    ensures var x := At(Caught(log, s, c, n, features), k);
      x == Truth(log, n, k, features) || (n < j && x == Truth(log, j, k, features))
    decreases n
  {
    if n == c {
      CaughtStarts(log, s, c, features);
    } else {
      CopyCatchesUp(log, s, c, j, n - 1, k, features);
      var x := At(Caught(log, s, c, n - 1, features), k);
      CaughtAdvances(log, s, c, n - 1, k, features);
      AdvancesToTruth(log, n - 1, x, k, features);
      if x == Truth(log, n - 1, k, features) { TruthAdvances(log, n - 1, k, features); }
    }
  }

  /** An entry leaves a copy as it is or makes it the truth. */
  lemma AdvancesToTruth(log: seq<Entry>, n: nat, x: Option<Item>, k: Key, features: set<Feature>)
    requires n < |log|
    ensures Advanced(x, log[n], k, features) in {x, Truth(log, n + 1, k, features)}
  {
    TruthStep(log, n, k, features);
  }

  /** A resource that was never read is caught up by its first entry. */
  lemma {:induction false} AbsentCatchesUp(log: seq<Entry>, s: Replica, c: nat, n: nat, k: Key, features: set<Feature>)
    requires Lives(log) && c <= n <= |log| && k !in s
    ensures var x := At(Caught(log, s, c, n, features), k);
      x == Truth(log, n, k, features) || (x == None && !Touched(log, c, n, k))
    decreases n
  {
    if n == c {
      CaughtStarts(log, s, c, features);
    } else {
      AbsentCatchesUp(log, s, c, n - 1, k, features);
      CaughtAdvances(log, s, c, n - 1, k, features);
      TruthStep(log, n - 1, k, features);
      TruthAdvances(log, n - 1, k, features);
      assert Touched(log, c, n, k) ==> Touched(log, c, n - 1, k) || log[n - 1].key == k;
    }
  }

  /** What is held of a resource was its state at some point since the checkpoint, or its first entry is still to come. */
  ghost predicate Known(log: seq<Entry>, c: nat, s: Replica, k: Key, features: set<Feature>)
    requires c <= |log|
  {
    (exists j :: c <= j <= |log| && At(s, k) == Truth(log, j, k, features))
    || (k !in s && Touched(log, c, |log|, k))
  }

  lemma KnownCatchesUp(log: seq<Entry>, c: nat, s: Replica, k: Key, features: set<Feature>)
    requires Lives(log) && c <= |log| && Known(log, c, s, k, features)
    ensures At(Caught(log, s, c, |log|, features), k) == Truth(log, |log|, k, features)
  {
    if j :| c <= j <= |log| && At(s, k) == Truth(log, j, k, features) {
      CopyCatchesUp(log, s, c, j, |log|, k, features);
    } else {
      AbsentCatchesUp(log, s, c, |log|, k, features);
    }
  }

  lemma KnownStays(log: seq<Entry>, longer: seq<Entry>, c: nat, s: Replica, k: Key, features: set<Feature>)
    requires log <= longer && c <= |log| && Known(log, c, s, k, features)
    ensures Known(longer, c, s, k, features)
  {
    if j :| c <= j <= |log| && At(s, k) == Truth(log, j, k, features) {
      TruthOfPrefix(log, longer, j, k, features);
    } else {
      var i :| c <= i < |log| && log[i].key == k;
      assert longer[i].key == k;
    }
  }

  // ---------------------------------------------------------------- the client and its events

  /** Applying a snapshot entity twice is harmless: an older copy never replaces a newer one. */
  function Hold(r: Replica, e: Entity): Replica {
    if e.key !in r || e.item.version >= r[e.key].version then r[e.key := e.item] else r
  }

  function HoldAll(r: Replica, entities: seq<Entity>): Replica {
    if entities == [] then r else Hold(HoldAll(r, entities[..|entities| - 1]), entities[|entities| - 1])
  }

  /** `listed` holds the folder positions of a first query whose rows are still to be read. */
  datatype Client =
    | Downloading(page: Progress, query: Query, listed: Option<seq<Position>>, replica: Replica)
    | Pulling(checkpoint: nat, replica: Replica, done: bool)

  datatype System = System(db: Database, client: Client)

  datatype Event =
    | Commit(action: Action)
    | Read
    | ReadFolders
    | NextPage(limit: nat)
    | Finish
    | PullMore(limit: nat)

  function ReadTurn(db: Database, c: Client): Client
    requires c.Downloading? && !c.page.closed && c.listed.None?
  {
    var s, q := c.page, c.query;
    if s.cur.turn >= |ORDER| then c.(page := s.(closed := true, next := None))
    else
      var kind := ORDER[s.cur.turn];
      if !Visible(kind, q.features) then c.(page := Scan(s, q, []))
      else if kind == Folder then c.(listed := Some(First(After(Listing(db.rows, Folder), s.cur.after), Take(s, q))))
      else c.(page := Scan(s, q, Fetch(db.rows, kind, s.cur.after, Take(s, q))))
  }

  function ReadFolderRows(db: Database, c: Client): Client
    requires c.Downloading? && !c.page.closed && c.page.cur.turn < |ORDER| && c.listed.Some?
  {
    c.(page := Scan(c.page, c.query, Load(db.rows, Folder, c.listed.value)), listed := None)
  }

  function PullTurn(db: Database, c: Client, limit: nat, q: Query): Client
    requires c.Pulling?
  {
    var p := Pull.PullPage(db.log, c.checkpoint, limit, q.cap, q.size, q.features);
    Pulling(p.checkpoint, Replay(c.replica, p.operations), !p.hasMore)
  }

  /** One event; an event that does not apply changes nothing. `q` fixes the features, byte cap and sizes. */
  function Turn(sys: System, e: Event, q: Query): System {
    var db, c := sys.db, sys.client;
    match e
    case Commit(a) =>
      System(Step(db, a), if c.Pulling? then c.(done := false) else c)
    case Read =>
      if c.Downloading? && !c.page.closed && c.listed.None? then System(db, ReadTurn(db, c)) else sys
    case ReadFolders =>
      if c.Downloading? && !c.page.closed && c.page.cur.turn < |ORDER| && c.listed.Some? then System(db, ReadFolderRows(db, c)) else sys
    case NextPage(limit) =>
      if c.Downloading? && c.page.closed && c.page.next.Some? && Admitted(c.page.next.value) then
        System(db, Downloading(Start(c.page.next.value), q.(limit := limit), None, HoldAll(c.replica, c.page.entities)))
      else sys
    case Finish =>
      if c.Downloading? && c.page.closed && c.page.next.None? then
        System(db, Pulling(c.page.cur.checkpoint, HoldAll(c.replica, c.page.entities), false))
      else sys
    case PullMore(limit) =>
      if c.Pulling? && limit >= 1 then System(db, PullTurn(db, c, limit, q)) else sys
  }

  function Begin(db: Database, q: Query): System {
    System(db, Downloading(Start(Cursor(db.checkpoint, 0, None)), q, None, map[]))
  }

  function AfterEvents(sys: System, events: seq<Event>, q: Query): System {
    if events == [] then sys else Turn(AfterEvents(sys, events[..|events| - 1], q), events[|events| - 1], q)
  }

  // ---------------------------------------------------------------- invariants

  function Held(c: Client): Replica {
    if c.Downloading? then HoldAll(c.replica, c.page.entities) else c.replica
  }

  predicate InList(list: seq<Position>, id: Id) {
    exists i :: 0 <= i < |list| && list[i].id == id
  }

  /** The list in hand is full and ends before the position, so the next page will get there. */
  predicate BehindFull(list: seq<Position>, take: nat, pos: Position) {
    |list| == take && list != [] && Before(list[|list| - 1], pos)
  }

  /** A row the download has not passed yet. */
  ghost predicate Ahead(rows: Tables, c: Client, k: Key)
    requires c.Downloading?
  {
    var cur := c.page.cur;
    && k in rows && Visible(k.kind, c.query.features)
    && if TurnOf(k.kind) > cur.turn then Reached(rows, k)
       else TurnOf(k.kind) == cur.turn && AheadInType(rows, c, k)
  }

  /** The same within the row's type: in the list in hand or behind it, or past the cursor. */
  ghost predicate AheadInType(rows: Tables, c: Client, k: Key)
    requires c.Downloading?
  {
    if c.listed.Some? && k.kind == Folder then
      InList(c.listed.value, k.id) || (Reached(rows, k) && BehindFull(c.listed.value, Take(c.page, c.query), PositionOf(rows, k)))
    else Reached(rows, k) && Past(PositionOf(rows, k), c.page.cur.after)
  }

  ghost predicate PageOk(c: Client)
    requires c.Downloading?
  {
    && (!c.page.closed ==> c.page.next.None?)
    && (c.page.closed && c.page.next.Some? ==> c.page.next == Some(c.page.cur))
    && (c.page.closed && c.page.next.None? ==> c.page.cur.turn >= |ORDER|)
    && (c.listed.Some? ==>
          && !c.page.closed && c.page.cur.turn == TurnOf(Folder) && Visible(Folder, c.query.features)
          && Increasing(c.listed.value) && |c.listed.value| <= Take(c.page, c.query)
          && forall x :: x in c.listed.value ==> Past(x, c.page.cur.after))
  }

  /** What holds of the system, and what holds of resource `k` in it. */
  ghost predicate Sound(sys: System, q: Query) {
    && Consistent(sys.db)
    && match sys.client
       case Downloading(page, query, _, _) =>
         page.cur.checkpoint <= |sys.db.log| && query.features == q.features && PageOk(sys.client)
       case Pulling(checkpoint, _, done) => checkpoint <= |sys.db.log| && (done ==> checkpoint == |sys.db.log|)
  }

  /** A downloading client holds a state of the resource since the checkpoint, or has yet to reach its row. */
  ghost predicate Follows(db: Database, c: Client, k: Key)
    requires c.Downloading? && c.page.cur.checkpoint <= |db.log|
  {
    Known(db.log, c.page.cur.checkpoint, Held(c), k, c.query.features) || (k !in Held(c) && Ahead(db.rows, c, k))
  }

  /** A pulling client that replays the rest of the log has the resource right. */
  ghost predicate CatchesUp(log: seq<Entry>, r: Replica, c: nat, k: Key, features: set<Feature>)
    requires c <= |log|
  {
    At(Caught(log, r, c, |log|, features), k) == Truth(log, |log|, k, features)
  }

  ghost predicate Tracks(sys: System, q: Query, k: Key)
    requires Sound(sys, q)
  {
    match sys.client
    case Downloading(_, _, _, _) => Follows(sys.db, sys.client, k)
    case Pulling(checkpoint, replica, _) => CatchesUp(sys.db.log, replica, checkpoint, k, q.features)
  }

  // ---------------------------------------------------------------- how the download can lose a folder

  /** How many of the found rows a scan turn sends. */
  function SentOf(s: Progress, q: Query, found: seq<Found>): (n: nat)
    requires s.cur.turn < |ORDER|
    ensures n <= |found|
  {
    if Want(s, q) == 0 then 0 else Emitted(s, q, ORDER[s.cur.turn], First(found, Want(s, q)))
  }

  /** Where the cursor stands after `n` of the found rows were sent. */
  function AfterSent(after: Option<Position>, found: seq<Found>, n: nat): Option<Position>
    requires n <= |found|
  {
    if n == 0 then after else Some(found[n - 1].position)
  }

  predicate SentAmong(found: seq<Found>, n: nat, id: Id)
    requires n <= |found|
  {
    exists i :: 0 <= i < n && found[i].position.id == id
  }

  /** The client has yet to read this resource, and no entry since its checkpoint is about it. */
  ghost predicate Unread(sys: System, k: Key) {
    && sys.client.Downloading? && sys.client.page.cur.checkpoint <= |sys.db.log|
    && k !in Held(sys.client) && Ahead(sys.db.rows, sys.client, k)
    && !Touched(sys.db.log, sys.client.page.cur.checkpoint, |sys.db.log|, k)
  }

  /**
   * The event takes a folder that the client has yet to read out of its reach. A write does so by taking it to a place
   * that the download is past. Reading the rows of a list does so when the folder is in the list, is not sent and has
   * meanwhile moved to or before the last row sent, or when it comes after the list, which has lost a row and is sent
   * to its end.
   */
  ghost predicate Loses(sys: System, e: Event, k: Key) {
    var db, c := sys.db, sys.client;
    c.Downloading? && k.kind == Folder &&
    match e
    case Commit(a) => !Ahead(Step(db, a).rows, c, k)
    case ReadFolders =>
      !c.page.closed && c.page.cur.turn < |ORDER| && c.listed.Some? &&
      var found := Load(db.rows, Folder, c.listed.value);
      var n := SentOf(c.page, c.query, found);
      if InList(c.listed.value, k.id) then
        !SentAmong(found, n, k.id)
        && !(Reached(db.rows, k) && Past(PositionOf(db.rows, k), AfterSent(c.page.cur.after, found, n)))
      else n == |found| < Take(c.page, c.query)
    case _ => false
  }

  /** The event adds no entry about the resource. */
  ghost predicate LeavesAlone(sys: System, e: Event, q: Query, k: Key) {
    var log, next := sys.db.log, Turn(sys, e, q).db.log;
    |log| <= |next| && !Touched(next, |log|, |next|, k)
  }

  /** The event does not lose the folder while it is unread. */
  ghost predicate Spares(sys: System, e: Event, q: Query, k: Key) {
    k.kind == Folder && Unread(sys, k) && LeavesAlone(sys, e, q, k) ==> !Loses(sys, e, k)
  }

  /** No event of the run loses the folder while it is unread. */
  ghost predicate NoneLost(start: System, q: Query, events: seq<Event>, k: Key) {
    events == [] ||
    var init, last := events[..|events| - 1], events[|events| - 1];
    NoneLost(start, q, init, k) && Spares(AfterEvents(start, init, q), last, q, k)
  }
}
