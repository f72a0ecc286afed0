/**
 * The append-only sync log. Performing a decision changes the tables and appends one entry per changed row; replaying
 * the log rebuilds the tables, and each resource's entries are lives of the form upsert 1, 2, ..., n, delete n.
 */
module Journal {
  import opened Prelude
  import opened Rows
  import opened Content
  import opened Integrity

  datatype Change = Upsert | Deletion

  /** `operation` is the client's operation id; entries the server makes on its own get a fresh one, shown as None. */
  datatype Entry = Entry(number: nat, operation: Option<string>, key: Key, change: Change, version: nat, payload: Payload,
    client: Option<string>, base: nat)

  datatype Context = Context(operation: Option<string>, client: Option<string>, base: nat)

  datatype Database = Database(rows: Tables, log: seq<Entry>, checkpoint: nat)

  const EMPTY := Database(map[], [], 0)

  // ---------------------------------------------------------------- replicas

  datatype Item = Item(version: nat, payload: Payload)

  type Replica = map<Key, Item>

  function At(r: Replica, k: Key): Option<Item> {
    if k in r then Some(r[k]) else None
  }

  /** Deletes always apply; an upsert applies when the resource is absent or not newer. */
  function ApplyEntry(r: Replica, e: Entry): Replica {
    if e.change.Deletion? then r - {e.key}
    else if e.key !in r || e.version >= r[e.key].version then r[e.key := Item(e.version, e.payload)]
    else r
  }

  function Replay(r: Replica, entries: seq<Entry>): Replica {
    if entries == [] then r
    else ApplyEntry(Replay(r, entries[..|entries| - 1]), entries[|entries| - 1])
  }

  /** The tables as a client with every feature sees them. */
  function Wire(rows: Tables): Replica {
    map k | k in rows :: Item(rows[k].version, SyncPayload(rows[k].body))
  }

  // ---------------------------------------------------------------- performing a decision

  function NextVersion(rows: Tables, key: Key): nat {
    if key in rows then rows[key].version + 1 else 1
  }

  function RowsAfter(rows: Tables, d: Decision): Tables {
    match d
    case Refused(_) => rows
    case Already(_) => rows
    case Write(key, b) => rows[key := Versioned(NextVersion(rows, key), b)]
    case Erase(root, children) => rows - Cascade(rows, {root})
  }

  function UpsertEntry(rows: Tables, key: Key, b: Body, ctx: Context, n: nat): Entry {
    Entry(n + 1, ctx.operation, key, Upsert, NextVersion(rows, key), SyncPayload(b), ctx.client, ctx.base)
  }

  /** A tombstone carries the version the row had, and an empty payload. */
  function Tombstone(rows: Tables, key: Key, ctx: Context, n: nat): Entry {
    Entry(n + 1, ctx.operation, key, Deletion, if key in rows then rows[key].version else 0, map[], ctx.client, ctx.base)
  }

  function Cascaded(ctx: Context): Context {
    ctx.(operation := None)
  }

  function Tombstones(rows: Tables, keys: seq<Key>, ctx: Context, n: nat): (r: seq<Entry>)
    ensures |r| == |keys|
    ensures forall i :: 0 <= i < |keys| ==> r[i] == Tombstone(rows, keys[i], ctx, n + i)
  {
    seq(|keys|, i requires 0 <= i < |keys| => Tombstone(rows, keys[i], ctx, n + i))
  }

  function EntriesOf(rows: Tables, d: Decision, ctx: Context, n: nat): seq<Entry> {
    match d
    case Refused(_) => []
    case Already(_) => []
    case Write(key, b) => [UpsertEntry(rows, key, b, ctx, n)]
    case Erase(root, children) =>
      Tombstones(rows, children, Cascaded(ctx), n) + [Tombstone(rows, root, ctx, n + |children|)]
  }

  function Perform(db: Database, d: Decision, ctx: Context): Database {
    var entries := EntriesOf(db.rows, d, ctx, db.checkpoint);
    Database(RowsAfter(db.rows, d), db.log + entries, db.checkpoint + |entries|)
  }

  // ---------------------------------------------------------------- histories

  function Last(log: seq<Entry>, key: Key): Option<Entry> {
    if log == [] then None
    else if log[|log| - 1].key == key then Some(log[|log| - 1])
    else Last(log[..|log| - 1], key)
  }

  /** What the entries so far leave of a resource. */
  function Remains(last: Option<Entry>): Option<Item> {
    if last.Some? && last.value.change.Upsert? then Some(Item(last.value.version, last.value.payload)) else None
  }

  /** An upsert starts a life at version 1 or continues it by one; a delete ends a life at its last version. */
  predicate Continues(before: Option<Item>, e: Entry) {
    match e.change
    case Upsert => e.version == if before.Some? then before.value.version + 1 else 1
    case Deletion => before.Some? && e.version == before.value.version
  }

  ghost predicate Lives(log: seq<Entry>) {
    forall i :: 0 <= i < |log| ==> Continues(Remains(Last(log[..i], log[i].key)), log[i])
  }

  predicate Numbered(log: seq<Entry>) {
    forall i :: 0 <= i < |log| ==> log[i].number == i + 1
  }

  predicate OperationsOnce(log: seq<Entry>) {
    forall i, j :: 0 <= i < j < |log| && log[i].operation.Some? ==> log[i].operation != log[j].operation
  }

  predicate SecretFreeLog(log: seq<Entry>) {
    forall i :: 0 <= i < |log| ==> SecretFree(log[i].payload)
  }

  predicate Logged(log: seq<Entry>, operation: string) {
    exists i :: 0 <= i < |log| && log[i].operation == Some(operation)
  }

  /** The last entry of every resource is its row. */
  ghost predicate LogMatches(log: seq<Entry>, rows: Tables) {
    forall k :: Remains(Last(log, k)) == At(Wire(rows), k)
  }

  ghost predicate Consistent(db: Database) {
    && WellFormed(db.rows)
    && db.checkpoint == |db.log|
    && Numbered(db.log)
    && Lives(db.log)
    && OperationsOnce(db.log)
    && SecretFreeLog(db.log)
    && LogMatches(db.log, db.rows)
  }

  lemma LastOfAppend(log: seq<Entry>, e: Entry, key: Key)
    ensures Last(log + [e], key) == if e.key == key then Some(e) else Last(log, key)
  {
    assert (log + [e])[..|log|] == log;
  }

  lemma ReplayOfAppend(r: Replica, log: seq<Entry>, e: Entry)
    ensures Replay(r, log + [e]) == ApplyEntry(Replay(r, log), e)
  {
    assert (log + [e])[..|log|] == log;
  }

  lemma {:induction false} ReplayOfConcat(r: Replica, a: seq<Entry>, b: seq<Entry>)
    ensures Replay(r, a + b) == Replay(Replay(r, a), b)
  {
    if b == [] {
      assert a + b == a;
    } else {
      var c := b[..|b| - 1];
      ReplayOfConcat(r, a, c);
      assert a + b == (a + c) + [b[|b| - 1]];
      ReplayOfAppend(r, a + c, b[|b| - 1]);
    }
  }

  lemma LivesOfAppend(log: seq<Entry>, e: Entry)
    requires Lives(log) && Continues(Remains(Last(log, e.key)), e)
    ensures Lives(log + [e])
  {
    var next := log + [e];
    forall i | 0 <= i < |next| ensures Continues(Remains(Last(next[..i], next[i].key)), next[i]) {
      if i < |log| { assert next[..i] == log[..i]; } else { assert next[..i] == log; }
    }
  }

  lemma LivesOfPrefix(log: seq<Entry>, n: nat)
    requires Lives(log) && n <= |log|
    ensures Lives(log[..n])
  {
    forall i | 0 <= i < n ensures Continues(Remains(Last(log[..n][..i], log[..n][i].key)), log[..n][i]) {
      assert log[..n][..i] == log[..i];
    }
  }

  /** In a log of lives the replica's version check never drops an entry: replay keeps what the last entries leave. */
  lemma {:induction false} ReplayIsLast(log: seq<Entry>, key: Key)
    requires Lives(log)
    ensures At(Replay(map[], log), key) == Remains(Last(log, key))
  {
    if log != [] {
      var init, e := log[..|log| - 1], log[|log| - 1];
      LivesOfPrefix(log, |log| - 1);
      ReplayIsLast(init, key);
      if e.key == key { assert Continues(Remains(Last(init, key)), e); }
    }
  }

  lemma SameEverywhere(r: Replica, w: Replica)
    requires forall k :: At(r, k) == At(w, k)
    ensures r == w
  {
    assert forall k :: k in r <==> At(r, k).Some?;
    assert forall k :: k in w <==> At(w, k).Some?;
    assert forall k :: k in r ==> r[k] == At(r, k).value == At(w, k).value == w[k];
  }

  lemma RebuildsWhatMatches(log: seq<Entry>, rows: Tables)
    requires Lives(log) && LogMatches(log, rows)
    ensures Replay(map[], log) == Wire(rows)
  {
    var r, w := Replay(map[], log), Wire(rows);
    forall k ensures At(r, k) == At(w, k) { ReplayIsLast(log, k); }
    SameEverywhere(r, w);
  }

  /** The log is complete: replaying all of it from nothing gives exactly the live rows, versions and payloads. */
  lemma LogRebuildsTables(db: Database)
    requires Consistent(db)
    ensures Replay(map[], db.log) == Wire(db.rows)
  {
    RebuildsWhatMatches(db.log, db.rows);
  }

  /** Checkpoints are exactly 1, 2, ..., n: the entries after checkpoint c are the log without its first c entries. */
  lemma EntriesAfterCheckpoint(db: Database, c: nat)
    requires Consistent(db) && c <= db.checkpoint
    ensures forall i :: 0 <= i < |db.log| ==> (db.log[i].number > c <==> i >= c)
  {}

  // ---------------------------------------------------------------- one decision keeps it all

  /** The entry a write appends continues the row's life and leaves the row behind. */
  lemma WriteEntryMatches(log: seq<Entry>, rows: Tables, key: Key, b: Body, e: Entry)
    requires Lives(log) && LogMatches(log, rows)
    requires e.key == key && e.change == Upsert && e.version == NextVersion(rows, key) && e.payload == SyncPayload(b)
    ensures Lives(log + [e]) && LogMatches(log + [e], rows[key := Versioned(NextVersion(rows, key), b)])
  {
    var next := rows[key := Versioned(NextVersion(rows, key), b)];
    assert Remains(Last(log, key)) == At(Wire(rows), key);
    LivesOfAppend(log, e);
    forall k ensures Remains(Last(log + [e], k)) == At(Wire(next), k) {
      LastOfAppend(log, e, k);
      assert Remains(Last(log, k)) == At(Wire(rows), k);
    }
  }

  /** Appending entries of which only the last carries an operation id, and a new one, keeps ids unique. */
  lemma OperationsStayOnce(log: seq<Entry>, more: seq<Entry>, operation: Option<string>)
    requires OperationsOnce(log) && (operation.Some? ==> !Logged(log, operation.value))
    requires forall i :: 0 <= i < |more| ==> more[i].operation == if i < |more| - 1 then None else operation
    ensures OperationsOnce(log + more)
  {
    var all := log + more;
    forall i, j | 0 <= i < j < |all| && all[i].operation.Some? ensures all[i].operation != all[j].operation {
      if i < |log| <= j { assert log[i] == all[i]; }
    }
  }

  lemma PerformWrite(db: Database, key: Key, b: Body, ctx: Context)
    requires Consistent(db) && WriteFits(db.rows, key, b)
    requires ctx.operation.Some? ==> !Logged(db.log, ctx.operation.value)
    ensures Consistent(Perform(db, Write(key, b), ctx))
  {
    var next, e := Perform(db, Write(key, b), ctx), UpsertEntry(db.rows, key, b, ctx, db.checkpoint);
    assert next.log == db.log + [e];
    WriteKeepsWellFormed(db.rows, key, b, NextVersion(db.rows, key));
    WriteEntryMatches(db.log, db.rows, key, b, e);
    PayloadsAreSecretFree(b);
    OperationsStayOnce(db.log, [e], ctx.operation);
  }

  /** The tables while a delete's tombstones are being replayed. */
  function Partly(rows: Tables, victims: seq<Key>, m: nat): Tables
    requires m <= |victims|
  {
    rows - SetOf(victims[..m])
  }

  lemma {:induction false} TombstonesContinue(log: seq<Entry>, rows: Tables, victims: seq<Key>, entries: seq<Entry>,
      m: nat)
    requires Lives(log) && LogMatches(log, rows)
    requires NoDuplicates(victims) && SetOf(victims) <= rows.Keys
    requires |entries| == |victims| && m <= |victims|
    requires forall i :: 0 <= i < |victims| ==>
      entries[i].key == victims[i] && entries[i].change == Deletion && victims[i] in rows && entries[i].version == rows[victims[i]].version
    ensures Lives(log + entries[..m]) && LogMatches(log + entries[..m], Partly(rows, victims, m))
  {
    if m == 0 {
      assert log + entries[..0] == log;
      assert Partly(rows, victims, 0) == rows;
    } else {
      TombstonesContinue(log, rows, victims, entries, m - 1);
      var sofar, e := log + entries[..m - 1], entries[m - 1];
      var before, after := Partly(rows, victims, m - 1), Partly(rows, victims, m);
      assert log + entries[..m] == sofar + [e];
      assert victims[..m] == victims[..m - 1] + [e.key];
      assert e.key !in victims[..m - 1] && e.key in before;
      assert Remains(Last(sofar, e.key)) == At(Wire(before), e.key);
      LivesOfAppend(sofar, e);
      forall k ensures Remains(Last(sofar + [e], k)) == At(Wire(after), k) {
        LastOfAppend(sofar, e, k);
        assert Remains(Last(sofar, k)) == At(Wire(before), k);
      }
    }
  }

  lemma EraseEntriesFacts(rows: Tables, root: Key, children: seq<Key>, ctx: Context, n: nat)
    requires ListsCascade(rows, root, children, root.kind != Collection)
    ensures var victims, entries := children + [root], EntriesOf(rows, Erase(root, children), ctx, n);
      && |entries| == |victims|
      && forall i :: 0 <= i < |victims| ==>
        entries[i].key == victims[i] && entries[i].change == Deletion && victims[i] in rows
        && entries[i].version == rows[victims[i]].version && entries[i].number == n + i + 1
        && entries[i].payload == map[] && entries[i].operation == if i < |children| then None else ctx.operation
  {
    var victims := children + [root];
    forall i | 0 <= i < |victims| ensures victims[i] in rows { assert victims[i] in SetOf(victims); }
  }

  lemma PerformErase(db: Database, root: Key, children: seq<Key>, ctx: Context)
    requires Consistent(db) && ListsCascade(db.rows, root, children, root.kind != Collection)
    requires ctx.operation.Some? ==> !Logged(db.log, ctx.operation.value)
    ensures Consistent(Perform(db, Erase(root, children), ctx))
  {
    var victims := children + [root];
    var entries := EntriesOf(db.rows, Erase(root, children), ctx, db.checkpoint);
    var next := Perform(db, Erase(root, children), ctx);
    EraseEntriesFacts(db.rows, root, children, ctx, db.checkpoint);
    TombstonesContinue(db.log, db.rows, victims, entries, |victims|);
    assert entries[..|victims|] == entries && victims[..|victims|] == victims;
    EraseKeepsWellFormed(db.rows, root);
    OperationsStayOnce(db.log, entries, ctx.operation);
    assert Numbered(next.log);
    assert SecretFreeLog(next.log);
  }

  lemma PerformKeepsConsistent(db: Database, foreign: set<Key>, d: Decision, ctx: Context)
    requires Consistent(db) && Fits(db.rows, foreign, d)
    requires ctx.operation.Some? ==> !Logged(db.log, ctx.operation.value)
    ensures Consistent(Perform(db, d, ctx))
  {
    match d
    case Refused(_) => assert Perform(db, d, ctx) == db;
    case Already(_) => assert Perform(db, d, ctx) == db;
    case Write(key, b) => PerformWrite(db, key, b, ctx);
    case Erase(root, children) => PerformErase(db, root, children, ctx);
  }

  // ---------------------------------------------------------------- references at every prefix

  /** Nothing in the replica refers to something missing; `parents` says whether the parents of folders count. */
  ghost predicate Closed(r: Replica, parents: bool) {
    forall k :: k in r ==>
      && PayloadContainer(r[k].payload) <= r.Keys
      && (parents || k.kind != Folder ==> PayloadFolder(r[k].payload) <= r.Keys)
  }

  lemma TablesAreClosed(rows: Tables)
    requires WellFormed(rows)
    ensures Closed(Wire(rows), true)
  {
    forall k | k in rows ensures PayloadContainer(SyncPayload(rows[k].body)) <= rows.Keys && PayloadFolder(SyncPayload(rows[k].body)) <= rows.Keys {
      PayloadShowsRefs(rows[k].body);
    }
  }

  /** A row left part way through a delete refers to none of the removed rows. */
  lemma LeftRefersToLeft(rows: Tables, root: Key, children: seq<Key>, parents: bool, m: nat, k: Key)
    requires WellFormed(rows) && ListsCascade(rows, root, children, parents) && m <= |children| + 1
    requires k in Partly(rows, children + [root], m)
    ensures RefsBut(rows[k].body, parents) <= Partly(rows, children + [root], m).Keys
  {
    var victims := children + [root];
    if k in SetOf(victims) {
      var j :| 0 <= j < |victims| && victims[j] == k;
      assert j >= m;
      forall r | r in RefsBut(rows[k].body, parents) ensures r !in victims[..m] {}
    } else {
      assert k !in Referrers(rows, SetOf(victims));
      forall r | r in Refs(rows[k].body) ensures r !in SetOf(victims) { assert r !in Refs(rows[k].body) * SetOf(victims); }
    }
  }

  /** Part way through a delete every remaining row still finds what it refers to. */
  lemma PartlyIsClosed(rows: Tables, root: Key, children: seq<Key>, parents: bool, m: nat)
    requires WellFormed(rows) && ListsCascade(rows, root, children, parents) && m <= |children| + 1
    ensures Closed(Wire(Partly(rows, children + [root], m)), parents)
  {
    var left := Partly(rows, children + [root], m);
    forall k | k in left ensures PayloadContainer(SyncPayload(rows[k].body)) <= left.Keys
      && (parents || k.kind != Folder ==> PayloadFolder(SyncPayload(rows[k].body)) <= left.Keys)
    {
      LeftRefersToLeft(rows, root, children, parents, m, k);
      PayloadShowsRefs(rows[k].body);
    }
  }

  lemma ErasePrefixClosed(db: Database, root: Key, children: seq<Key>, ctx: Context, m: nat)
    requires Consistent(db) && ListsCascade(db.rows, root, children, root.kind != Collection) && m <= |children| + 1
    ensures m <= |EntriesOf(db.rows, Erase(root, children), ctx, db.checkpoint)|
    ensures Closed(Replay(map[], db.log + EntriesOf(db.rows, Erase(root, children), ctx, db.checkpoint)[..m]), root.kind != Collection)
  {
    var entries, victims := EntriesOf(db.rows, Erase(root, children), ctx, db.checkpoint), children + [root];
    EraseEntriesFacts(db.rows, root, children, ctx, db.checkpoint);
    TombstonesContinue(db.log, db.rows, victims, entries, m);
    RebuildsWhatMatches(db.log + entries[..m], Partly(db.rows, victims, m));
    PartlyIsClosed(db.rows, root, children, root.kind != Collection, m);
  }

  lemma WriteIsClosed(db: Database, key: Key, b: Body, ctx: Context)
    requires Consistent(db) && WriteFits(db.rows, key, b)
    requires ctx.operation.Some? ==> !Logged(db.log, ctx.operation.value)
    ensures Closed(Replay(map[], Perform(db, Write(key, b), ctx).log), true)
  {
    PerformWrite(db, key, b, ctx);
    LogRebuildsTables(Perform(db, Write(key, b), ctx));
    TablesAreClosed(Perform(db, Write(key, b), ctx).rows);
  }

  /**
   * Every prefix of what one decision appends replays to a replica without dangling references, except that a
   * collection delete may remove a folder before the folders inside it.
   */
  lemma PrefixesClosed(db: Database, foreign: set<Key>, d: Decision, ctx: Context, m: nat)
    requires Consistent(db) && Fits(db.rows, foreign, d) && m <= |EntriesOf(db.rows, d, ctx, db.checkpoint)|
    requires ctx.operation.Some? ==> !Logged(db.log, ctx.operation.value)
    ensures Closed(Replay(map[], db.log + EntriesOf(db.rows, d, ctx, db.checkpoint)[..m]), d.Erase? ==> d.root.kind != Collection)
  {
    var entries := EntriesOf(db.rows, d, ctx, db.checkpoint);
    if m == 0 {
      assert db.log + entries[..0] == db.log;
      LogRebuildsTables(db);
      TablesAreClosed(db.rows);
    } else if d.Write? {
      assert entries[..m] == entries;
      WriteIsClosed(db, d.key, d.body, ctx);
    } else {
      ErasePrefixClosed(db, d.root, d.children, ctx, m);
    }
  }
}
