/**
 * The workspace as the server keeps it: tables, log, checkpoint and audit rows, changed in place by one method per
 * mutation. Every method is proved to perform exactly the decision the specification makes on the state it started in.
 */
module Engine {
  import opened Prelude
  import opened Rows
  import opened Tree
  import opened Content
  import opened Integrity
  import opened Journal
  import opened Apply
  import opened Features
  import opened Pull
  import opened Snapshot
  import opened SnapshotPages
  import opened Sync
  import opened Audit

  /** A mutation throws, leaving nothing behind, or returns the version of its row. */
  datatype Outcome = Thrown(error: Error) | Returned(version: nat)

  function OutcomeOf(rows: Tables, d: Decision): Outcome {
    if d.Refused? then Thrown(d.error) else Returned(ResultVersion(rows, d))
  }

  /** The audit rows of a batch of pushed operations. */
  function BatchAudits(db: Database, foreign: set<Key>, ops: seq<Incoming>, parts: Parts): seq<AuditRow> {
    if ops == [] then []
    else
      var mid, op := PushAll(db, foreign, ops[..|ops| - 1]).0, ops[|ops| - 1];
      BatchAudits(db, foreign, ops[..|ops| - 1], parts)
      + AuditsOf(mid, DecisionOf(mid, Push(foreign, |mid.log|, op)), ContextOf(op), parts)
  }

  /** The operation was answered from the log, found at once or after losing to a concurrent push of it. */
  predicate IsReplay(db: Database, seen: nat, foreign: set<Key>, op: Incoming) {
    Logged(Seen(db.log, seen), op.operation)
    || (op.workspaceMatches && TransactionDecision(db, foreign, op) == Refused(UniqueViolation) && Logged(db.log,
        op.operation))
  }

  /** How many operations of a batch were applied before. */
  function ReplaysIn(db: Database, foreign: set<Key>, ops: seq<Incoming>): nat {
    if ops == [] then 0
    else
      var mid, op := PushAll(db, foreign, ops[..|ops| - 1]).0, ops[|ops| - 1];
      ReplaysIn(db, foreign, ops[..|ops| - 1]) + if Recorded(mid.log, op.operation).Some? then 1 else 0
  }

  lemma VerdictAppended(verdicts: seq<Verdict>, v: Verdict)
    ensures AcceptedOf(verdicts + [v]) == AcceptedOf(verdicts) + (if v.Accepted? then [v] else [])
    ensures RejectedOf(verdicts + [v]) == RejectedOf(verdicts) + (if v.Rejected? then [v] else [])
  {
    assert (verdicts + [v])[..|verdicts|] == verdicts;
  }

  lemma BatchStep(db: Database, foreign: set<Key>, ops: seq<Incoming>, i: nat, parts: Parts, mid: Database,
      next: Database, v: Verdict)
    requires i < |ops| && PushAll(db, foreign, ops[..i]).0 == mid
    requires PushOne(mid, |mid.log|, foreign, ops[i]) == (next, v)
    ensures PushAll(db, foreign, ops[..i + 1]).0 == next
    ensures var before, after := PushAll(db, foreign, ops[..i]).1, PushAll(db, foreign, ops[..i + 1]).1;
      && AcceptedOf(after) == AcceptedOf(before) + (if v.Accepted? then [v] else [])
      && RejectedOf(after) == RejectedOf(before) + (if v.Rejected? then [v] else [])
    ensures BatchAudits(db, foreign, ops[..i + 1], parts) == BatchAudits(db, foreign, ops[..i], parts)
      + AuditsOf(mid, DecisionOf(mid, Push(foreign, |mid.log|, ops[i])), ContextOf(ops[i]), parts)
    ensures ReplaysIn(db, foreign, ops[..i + 1]) == ReplaysIn(db, foreign, ops[..i]) + if IsReplay(mid, |mid.log|,
        foreign, ops[i]) then 1 else 0
  {
    assert ops[..i + 1][..i] == ops[..i];
    assert Seen(mid.log, |mid.log|) == mid.log;
    VerdictAppended(PushAll(db, foreign, ops[..i]).1, v);
  }

  /** Reading one entry more than asked for finds the entries asked for, and whether there are others. */
  lemma OneMoreThanAsked(log: seq<Entry>, after: nat, limit: nat)
    requires after < |log|
    ensures var found := log[after..Min(after + limit + 1, |log|)];
      && (|found| > limit <==> |log| - after > limit)
      && (if |found| > limit then found[..limit] else found) == log[after..after + Min(limit, |log| - after)]
  {}

  /** A page put together from the entries read is the page of the log. */
  lemma PageOfCut(log: seq<Entry>, after: nat, limit: nat, cap: nat, size: Sizes, features: set<Feature>)
    requires Numbered(log) && after < |log|
    ensures var list := log[after..after + Min(limit, |log| - after)];
      var n := Fitting(list, 0, 0, cap, size);
      Pull.PullPage(log, after, limit, cap, size, features)
        == Page(ShapeLog(list[..n], features), if n > 0 then list[n - 1].number else after, n < |list| || |log| - after > limit)
  {
    var m := Min(limit, |log| - after);
    SliceOfSlice(log, after, m, Fitting(log[after..after + m], 0, 0, cap, size));
  }

  class Workspace {
    var rows: Tables
    var log: seq<Entry>
    var checkpoint: nat
    var audit: seq<AuditRow>
    /** Ids that rows of other workspaces hold. */
    var foreign: set<Key>
    const parts: Parts

    constructor (foreign: set<Key>, parts: Parts)
      ensures Db() == EMPTY && audit == [] && this.foreign == foreign && this.parts == parts
    {
      rows, log, checkpoint, audit := map[], [], 0, [];
      this.foreign, this.parts := foreign, parts;
    }

    function Db(): Database
      reads `rows, `log, `checkpoint
    {
      Database(rows, log, checkpoint)
    }

    /** The decision was performed, audited and answered, and nothing else happened. */
    twostate predicate Performed(d: Decision, ctx: Context, r: Outcome)
      reads this
    {
      && Db() == Perform(old(Db()), d, ctx)
      && audit == old(audit) + AuditsOf(old(Db()), d, ctx, parts)
      && r == OutcomeOf(old(rows), d)
    }

    /** Whichever mutation was performed, a consistent workspace stays consistent. */
    twostate lemma KeepsConsistent(c: Command, ctx: Context, r: Outcome)
      requires old(Consistent(Db())) && Performed(Decide(old(rows), old(foreign), c), ctx, r)
      requires ctx.operation.Some? ==> !Logged(old(log), ctx.operation.value)
      ensures Consistent(Db())
    {
      DecisionsFit(old(rows), old(foreign), c);
      PerformKeepsConsistent(old(Db()), old(foreign), Decide(old(rows), old(foreign), c), ctx);
    }

    // -------------------------------------------------------------- log and audit

    method RecordChange(key: Key, change: Change, version: nat, payload: Payload, ctx: Context)
      modifies `log, `checkpoint
      ensures checkpoint == old(checkpoint) + 1
      ensures log == old(log) + [Entry(checkpoint, ctx.operation, key, change, version, payload, ctx.client, ctx.base)]
    {
      checkpoint := checkpoint + 1;
      log := log + [Entry(checkpoint, ctx.operation, key, change, version, payload, ctx.client, ctx.base)];
    }

    method AuditChange(key: Key, before: Option<Payload>, after: Option<Payload>, version: nat)
      modifies `audit
      ensures audit == old(audit) + AuditRows(key, before, after, version, parts)
    {
      var action := if after.None? then Deleted else if before.Some? || version > 1 then Updated else Created;
      var changes: seq<ContentChange> := [];
      if action == Updated && before.Some? && after.Some? {
        changes := DiffPayloads(key.kind, before.value, after.value, parts);
        if changes == [] { return; }
      }
      audit := audit + [AuditRow(action, key, NameOf(if after.Some? then after else before), changes)];
    }

    method Log(key: Key, row: Versioned, change: Change, ctx: Context, cascaded: bool)
      modifies `log, `checkpoint, `audit
      ensures checkpoint == old(checkpoint) + 1
      ensures var after := if change.Deletion? then None else Some(SyncPayload(row.body));
        && log == old(log) + [Entry(checkpoint, ctx.operation, key, change, row.version, if after.Some? then after.value else map[],
             ctx.client, ctx.base)]
        && audit == old(audit) + (if cascaded then []
             else AuditRows(key, BeforeOf(old(log), key, change, row), after, row.version, parts))
    {
      var after := if change.Deletion? then None else Some(SyncPayload(row.body));
      if !cascaded {
        var last := Last(log, key);
        var before := if last.Some? && last.value.change.Upsert? then Some(last.value.payload) else None;
        if before.None? && change.Deletion? && key.kind != EnvironmentVariable { before := Some(SyncPayload(row.body)); }
        AuditChange(key, before, after, row.version);
      }
      RecordChange(key, change, row.version, if after.Some? then after.value else map[], ctx);
    }

    // -------------------------------------------------------------- inserting, updating, deleting rows

    method InsertRow(key: Key, body: Body, ctx: Context) returns (r: Outcome)
      modifies `rows, `log, `checkpoint, `audit
      ensures Performed(Insert(old(rows), foreign, key, body), ctx, r)
    {
      if key in rows || key in foreign { return Thrown(UniqueViolation); }
      rows := rows[key := Versioned(1, body)];
      Log(key, rows[key], Upsert, ctx, false);
      r := Returned(1);
    }

    method UpdateRow(key: Key, body: Body, ctx: Context) returns (r: Outcome)
      requires key in rows
      modifies `rows, `log, `checkpoint, `audit
      ensures Performed(Write(key, body), ctx, r)
    {
      rows := rows[key := Versioned(rows[key].version + 1, body)];
      Log(key, rows[key], Upsert, ctx, false);
      r := Returned(rows[key].version);
    }

    /** The database removes the row and, by its foreign keys, everything that refers to it; each removed row is logged. */
    method DeleteRow(root: Key, children: seq<Key>, ctx: Context) returns (r: Outcome)
      requires root in rows && forall k :: k in children ==> k in rows
      modifies `rows, `log, `checkpoint, `audit
      ensures Performed(Erase(root, children), ctx, r)
    {
      var was := rows;
      rows := rows - Cascade(rows, {root});
      ghost var tombstones := Tombstones(was, children, Cascaded(ctx), old(checkpoint));
      for i := 0 to |children|
        invariant rows == was - Cascade(was, {root}) && audit == old(audit)
        invariant checkpoint == old(checkpoint) + i && log == old(log) + tombstones[..i]
      {
        Log(children[i], was[children[i]], Deletion, Cascaded(ctx), true);
        assert tombstones[..i + 1] == tombstones[..i] + [tombstones[i]];
      }
      assert tombstones[..|children|] == tombstones;
      Log(root, was[root], Deletion, ctx, false);
      assert log == old(log) + (tombstones + [Tombstone(was, root, ctx, old(checkpoint) + |children|)]);
      r := Returned(was[root].version);
    }

    /** Removes a row nothing refers to. */
    method DeleteLeaf(kind: Kind, id: Id, given: Option<nat>, ctx: Context) returns (r: Outcome)
      modifies `rows, `log, `checkpoint, `audit
      ensures Performed(DecideDelete(old(rows), kind, id, given), ctx, r)
    {
      var row := Find(rows, kind, id);
      if row.None? { return Thrown(NotFound); }
      if given.Some? && given.value != row.value.version { return Thrown(VersionMismatch(row.value.version)); }
      r := DeleteRow(Key(kind, id), [], ctx);
    }

    // -------------------------------------------------------------- collections

    method UpdateCollection(id: Id, newName: Patch<string>, extras: ExtrasPatch, expected: nat,
        ctx: Context) returns (r: Outcome)
      modifies `rows, `log, `checkpoint, `audit
      ensures Performed(DecideUpdateCollection(old(rows),
        Command.UpdateCollection(id, newName, extras, expected)), ctx, r)
    {
      var cur := Find(rows, Collection, id);
      if cur.None? { return Thrown(NotFound); }
      if cur.value.version != expected { return Thrown(VersionMismatch(cur.value.version)); }
      var b := cur.value.body;
      r := UpdateRow(Key(Collection, id), CollectionRow(newName.Or(b.name), extras.On(b.extras)), ctx);
    }

    method DeleteCollection(id: Id, given: Option<nat>, ctx: Context) returns (r: Outcome)
      modifies `rows, `log, `checkpoint, `audit
      ensures Performed(DecideDeleteCollection(old(rows), Command.DeleteCollection(id, given)), ctx, r)
    {
      var cur, key := Find(rows, Collection, id), Key(Collection, id);
      if cur.None? { return Thrown(NotFound); }
      if given.Some? && given.value != cur.value.version { return Thrown(VersionMismatch(cur.value.version)); }
      var variables, versions := Inside(rows, CollectionVariable, key), Inside(rows, CollectionVersion, key);
      var requests, folders := Inside(rows, Request, key), Inside(rows, Folder, key);
      InsideFacts(rows, CollectionVariable, key);
      InsideFacts(rows, CollectionVersion, key);
      InsideFacts(rows, Request, key);
      InsideFacts(rows, Folder, key);
      r := DeleteRow(key, variables + versions + requests + folders, ctx);
    }

    // -------------------------------------------------------------- folders

    /** A folder that is not there at all is not found; one of another collection is an invalid reference. */
    method AssertFolder(collectionId: Id, folderId: Id) returns (e: Option<Error>)
      ensures e == FolderError(rows, collectionId, folderId)
    {
      var f := Find(rows, Folder, folderId);
      if f.None? { return Some(NotFound); }
      if f.value.body.collectionId != collectionId { return Some(InvalidRequest); }
      e := None;
    }

    /** Walks up from the new parent, at most `WALK_LIMIT` folders, to see that it does not come by the moved folder. */
    method AssertParentFolder(collectionId: Id, parent: Option<Id>, self: Option<Id>) returns (e: Option<Error>)
      ensures e == ParentError(rows, collectionId, parent, self)
    {
      if parent.None? { return None; }
      if parent == self { return Some(InvalidRequest); }
      e := AssertFolder(collectionId, parent.value);
      if e.Some? || self.None? { return; }
      var p := ParentsOf(rows);
      var cur, i := InFolder(rows[Key(Folder, parent.value)].body), 0;
      while cur.Some? && i < WALK_LIMIT
        invariant i <= WALK_LIMIT
        invariant WalkMeets(p, InFolder(rows[Key(Folder, parent.value)].body), self.value, WALK_LIMIT)
          == WalkMeets(p, cur, self.value, WALK_LIMIT - i)
      {
        if cur == self { return Some(InvalidRequest); }
        cur, i := if cur.value in p then p[cur.value] else None, i + 1;
      }
    }

    method CreateFolder(id: Id, collectionId: Id, parent: Patch<Option<Id>>, name: string, order: Patch<nat>,
        extras: ExtrasPatch, ctx: Context) returns (r: Outcome)
      modifies `rows, `log, `checkpoint, `audit
      ensures Performed(DecideCreateFolder(old(rows), foreign,
        Command.CreateFolder(id, collectionId, parent, name, order, extras)), ctx, r)
    {
      if Find(rows, Collection, collectionId).None? { return Thrown(NotFound); }
      var e := AssertParentFolder(collectionId, parent.Or(None), None);
      if e.Some? { return Thrown(e.value); }
      r := InsertRow(Key(Folder, id), FolderRow(collectionId, parent.Or(None), name, order.Or(0),
          extras.On(NO_EXTRAS)), ctx);
    }

    method UpdateFolder(id: Id, parent: Patch<Option<Id>>, newName: Patch<string>, order: Patch<nat>, extras: ExtrasPatch,
        expected: nat, ctx: Context) returns (r: Outcome)
      modifies `rows, `log, `checkpoint, `audit
      ensures Performed(DecideUpdateFolder(old(rows),
        Command.UpdateFolder(id, parent, newName, order, extras, expected)), ctx, r)
    {
      var cur := Find(rows, Folder, id);
      if cur.None? { return Thrown(NotFound); }
      var b := cur.value.body;
      if parent.Given? {
        var e := AssertParentFolder(b.collectionId, parent.value, Some(id));
        if e.Some? { return Thrown(e.value); }
      }
      if cur.value.version != expected { return Thrown(VersionMismatch(cur.value.version)); }
      r := UpdateRow(Key(Folder, id),
        FolderRow(b.collectionId, parent.Or(b.parent), newName.Or(b.name), order.Or(b.sortOrder),
            extras.On(b.extras)), ctx);
    }

    method DeleteFolder(id: Id, given: Option<nat>, ctx: Context) returns (r: Outcome)
      modifies `rows, `log, `checkpoint, `audit
      ensures Performed(DecideDeleteFolder(old(rows), Command.DeleteFolder(id, given)), ctx, r)
    {
      var cur, p := Find(rows, Folder, id), ParentsOf(rows);
      if cur.None? { return Thrown(NotFound); }
      if given.Some? && given.value != cur.value.version { return Thrown(VersionMismatch(cur.value.version)); }
      if OnCycle(p, id) { return Thrown(Diverged); }
      var descendants := DeepestFirst(Subtree(p, id));
      var requests := RequestsIn(rows, {id} + Union(Subtree(p, id)));
      SubtreeFacts(p, id);
      RequestsInFacts(rows, {id} + Union(Subtree(p, id)));
      KeysOfFacts(Folder, descendants);
      r := DeleteRow(Key(Folder, id), requests + KeysOf(Folder, descendants), ctx);
    }

    // -------------------------------------------------------------- requests

    method CreateRequest(id: Id, collectionId: Id, folder: Patch<Option<Id>>, name: string, verb: string, url: string,
        document: string, order: Patch<nat>, ctx: Context) returns (r: Outcome)
      modifies `rows, `log, `checkpoint, `audit
      ensures Performed(DecideCreateRequest(old(rows), foreign,
        Command.CreateRequest(id, collectionId, folder, name, verb, url, document, order)), ctx, r)
    {
      if Find(rows, Collection, collectionId).None? { return Thrown(NotFound); }
      if folder.Or(None).Some? {
        var e := AssertFolder(collectionId, folder.Or(None).value);
        if e.Some? { return Thrown(e.value); }
      }
      r := InsertRow(Key(Request, id), RequestRow(collectionId, folder.Or(None), name, verb, url, document,
          order.Or(0)), ctx);
    }

    method UpdateRequest(id: Id, target: Patch<Id>, folder: Patch<Option<Id>>, newName: Patch<string>,
        newVerb: Patch<string>,
        newUrl: Patch<string>, newDocument: Patch<string>, order: Patch<nat>, expected: nat, ctx: Context) returns (r: Outcome)
      modifies `rows, `log, `checkpoint, `audit
      ensures Performed(DecideUpdateRequest(old(rows),
        Command.UpdateRequest(id, target, folder, newName, newVerb, newUrl, newDocument, order, expected)), ctx, r)
    {
      var cur := Find(rows, Request, id);
      if cur.None? { return Thrown(NotFound); }
      var b := cur.value.body;
      var collectionId := target.Or(b.collectionId);
      var moving := collectionId != b.collectionId;
      if moving && Find(rows, Collection, collectionId).None? { return Thrown(NotFound); }
      if (folder.Given? || moving) && folder.Or(b.folderId).Some? {
        var e := AssertFolder(collectionId, folder.Or(b.folderId).value);
        if e.Some? { return Thrown(e.value); }
      }
      if cur.value.version != expected { return Thrown(VersionMismatch(cur.value.version)); }
      r := UpdateRow(Key(Request, id), RequestRow(collectionId, folder.Or(b.folderId), newName.Or(b.name),
          newVerb.Or(b.verb),
        newUrl.Or(b.url), newDocument.Or(b.document), order.Or(b.sortOrder)), ctx);
    }

    // -------------------------------------------------------------- environments

    method UpdateEnvironment(id: Id, newName: Patch<string>, expected: nat, ctx: Context) returns (r: Outcome)
      modifies `rows, `log, `checkpoint, `audit
      ensures Performed(DecideUpdateEnvironment(old(rows), Command.UpdateEnvironment(id, newName, expected)), ctx, r)
    {
      var cur := Find(rows, Environment, id);
      if cur.None? { return Thrown(NotFound); }
      if cur.value.version != expected { return Thrown(VersionMismatch(cur.value.version)); }
      r := UpdateRow(Key(Environment, id), EnvironmentRow(newName.Or(cur.value.body.name)), ctx);
    }

    method DeleteEnvironment(id: Id, given: Option<nat>, ctx: Context) returns (r: Outcome)
      modifies `rows, `log, `checkpoint, `audit
      ensures Performed(DecideDeleteEnvironment(old(rows), Command.DeleteEnvironment(id, given)), ctx, r)
    {
      var cur, key := Find(rows, Environment, id), Key(Environment, id);
      if cur.None? { return Thrown(NotFound); }
      if given.Some? && given.value != cur.value.version { return Thrown(VersionMismatch(cur.value.version)); }
      InsideFacts(rows, EnvironmentVariable, key);
      r := DeleteRow(key, Inside(rows, EnvironmentVariable, key), ctx);
    }

    // -------------------------------------------------------------- variables

    /** REST write by (environment, key): a secret is encrypted, an existing variable keeps its id. */
    method PutVariable(freshId: Id, environmentId: Id, key: string, value: string, isSecret: bool, given: Option<nat>,
        ctx: Context)
      returns (r: Outcome)
      modifies `rows, `log, `checkpoint, `audit
      ensures Performed(DecidePutVariable(old(rows), foreign,
        Command.PutVariable(freshId, environmentId, key, value, isSecret, given)), ctx, r)
    {
      if Find(rows, Environment, environmentId).None? { return Thrown(NotFound); }
      var stored := if isSecret then Cipher(value) else Plain(value);
      var existing := FirstOf(Holders(rows, EnvironmentKey(environmentId, key)));
      if existing.None? {
        r := InsertRow(Key(EnvironmentVariable, freshId), EnvironmentVariableRow(environmentId, key, stored,
            isSecret), ctx);
        return;
      }
      var cur := Find(rows, EnvironmentVariable, existing.value);
      if cur.None? { return Thrown(NotFound); }
      if given.Some? && given.value != cur.value.version { return Thrown(VersionMismatch(cur.value.version)); }
      r := UpdateRow(Key(EnvironmentVariable, existing.value), EnvironmentVariableRow(environmentId, key, stored,
          isSecret), ctx);
    }

    method DeleteVariable(environmentId: Id, key: string, given: Option<nat>, ctx: Context) returns (r: Outcome)
      modifies `rows, `log, `checkpoint, `audit
      ensures Performed(DecideDeleteVariable(old(rows), Command.DeleteVariable(environmentId, key, given)), ctx, r)
    {
      var holder := FirstOf(Holders(rows, EnvironmentKey(environmentId, key)));
      if holder.None? { return Thrown(NotFound); }
      r := DeleteLeaf(EnvironmentVariable, holder.value, given, ctx);
    }

    /** Sync write by id: a secret never comes with a value, and a ciphertext stored before survives. */
    method SyncPutVariable(id: Id, environmentId: Id, key: string, sent: Option<string>, isSecret: bool, ctx: Context)
      returns (r: Outcome)
      modifies `rows, `log, `checkpoint, `audit
      ensures Performed(DecideSyncPutVariable(old(rows), foreign,
        Command.SyncPutVariable(id, environmentId, key, sent, isSecret)), ctx, r)
    {
      var cur := Find(rows, EnvironmentVariable, id);
      if isSecret && sent.Some? { return Thrown(InvalidRequest); }
      if Find(rows, Environment, environmentId).None? { return Thrown(NotFound); }
      var clash := FirstOf(Holders(rows, EnvironmentKey(environmentId, key)) - {id});
      if clash.Some? { return Thrown(DuplicateKey(clash.value)); }
      var stored := if isSecret then Nothing else Plain(if sent.Some? then sent.value else "");
      if cur.Some? {
        if cur.value.body.environmentId != environmentId { return Thrown(InvalidRequest); }
        if isSecret && cur.value.body.isSecret { stored := cur.value.body.stored; }
        r := UpdateRow(Key(EnvironmentVariable, id), EnvironmentVariableRow(environmentId, key, stored, isSecret), ctx);
      } else {
        r := InsertRow(Key(EnvironmentVariable, id), EnvironmentVariableRow(environmentId, key, stored, isSecret), ctx);
      }
    }

    // -------------------------------------------------------------- collection versions

    method CreateCollectionVersion(id: Id, d: VersionData, ctx: Context) returns (r: Outcome)
      modifies `rows, `log, `checkpoint, `audit
      ensures Performed(DecideCreateCollectionVersion(old(rows), foreign,
        Command.CreateCollectionVersion(id, d)), ctx, r)
    {
      if Find(rows, Collection, d.collectionId).None? { return Thrown(NotFound); }
      var clash := FirstOf(Holders(rows, SemverKey(d.collectionId, d.semver)));
      if clash.Some? { return Thrown(DuplicateKey(clash.value)); }
      r := InsertRow(Key(CollectionVersion, id), CollectionVersionRow(d.collectionId, d.semver, d.notes, d.snapshot,
        d.folderCount, d.requestCount, d.createdAt, d.author), ctx);
    }

    // -------------------------------------------------------------- collection variables and globals

    method SyncPutCollectionVariable(id: Id, container: Patch<Id>, newKey: Patch<string>, newValue: Patch<string>,
        enabled: Patch<bool>, note: Patch<Option<string>>, order: Patch<nat>, ctx: Context) returns (r: Outcome)
      modifies `rows, `log, `checkpoint, `audit
      ensures Performed(DecideSyncPutCollectionVariable(old(rows), foreign,
        Command.SyncPutCollectionVariable(id, container, newKey, newValue, enabled, note, order)), ctx, r)
    {
      var cur, key := Find(rows, CollectionVariable, id), Key(CollectionVariable, id);
      if cur.None? && (container.Absent? || newKey.Absent?) { return Thrown(Malformed); }
      var collectionId := if container.Given? then container.value else cur.value.body.collectionId;
      if Find(rows, Collection, collectionId).None? { return Thrown(NotFound); }
      if cur.Some? && collectionId != cur.value.body.collectionId { return Thrown(InvalidRequest); }
      var name := if newKey.Given? then newKey.value else cur.value.body.key;
      var clash := FirstOf(Holders(rows, CollectionKey(collectionId, name)) - {id});
      if clash.Some? { return Thrown(DuplicateKey(clash.value)); }
      if cur.Some? {
        var b := cur.value.body;
        r := UpdateRow(key, CollectionVariableRow(collectionId, name, newValue.Or(b.value), enabled.Or(b.enabled),
            note.Or(b.note),
          order.Or(b.sortOrder)), ctx);
      } else {
        r := InsertRow(key, CollectionVariableRow(collectionId, name, newValue.Or(""), enabled.Or(true), note.Or(None), order.Or(0)), ctx);
      }
    }

    method SyncPutGlobalVariable(id: Id, newKey: Patch<string>, plain: Patch<Option<string>>, secret: Patch<bool>,
        enabled: Patch<bool>, note: Patch<Option<string>>, order: Patch<nat>, ctx: Context) returns (r: Outcome)
      modifies `rows, `log, `checkpoint, `audit
      ensures Performed(DecideSyncPutGlobalVariable(old(rows), foreign,
        Command.SyncPutGlobalVariable(id, newKey, plain, secret, enabled, note, order)), ctx, r)
    {
      var cur, key := Find(rows, GlobalVariable, id), Key(GlobalVariable, id);
      if cur.None? && newKey.Absent? { return Thrown(Malformed); }
      var given := if plain.Absent? && cur.None? then Given(Some("")) else plain;
      var isSecret := if secret.Given? then secret.value else cur.Some? && cur.value.body.isSecret;
      if isSecret && given.Given? && given.value.Some? { return Thrown(InvalidRequest); }
      var value: Option<string> := None;
      if !isSecret {
        if given.Given? { value := Some(if given.value.Some? then given.value.value else ""); }
        else { value := Some(if !cur.value.body.isSecret && cur.value.body.plain.Some? then cur.value.body.plain.value else ""); }
      }
      var name := if newKey.Given? then newKey.value else cur.value.body.key;
      var clash := FirstOf(Holders(rows, GlobalKey(name)) - {id});
      if clash.Some? { return Thrown(DuplicateKey(clash.value)); }
      if cur.Some? {
        var b := cur.value.body;
        r := UpdateRow(key, GlobalVariableRow(name, value, isSecret, enabled.Or(b.enabled), note.Or(b.note),
            order.Or(b.sortOrder)), ctx);
      } else {
        r := InsertRow(key, GlobalVariableRow(name, value, isSecret, enabled.Or(true), note.Or(None), order.Or(0)), ctx);
      }
    }

    // -------------------------------------------------------------- dispatch

    method ExecuteDelete(c: Command, ctx: Context) returns (r: Outcome)
      requires Deletes(c)
      modifies `rows, `log, `checkpoint, `audit
      ensures Performed(Decide(old(rows), foreign, c), ctx, r)
    {
      match c
      case DeleteCollection(id, given) => r := DeleteCollection(id, given, ctx);
      case DeleteFolder(id, given) => r := DeleteFolder(id, given, ctx);
      case DeleteRequest(id, given) => r := DeleteLeaf(Request, id, given, ctx);
      case DeleteEnvironment(id, given) => r := DeleteEnvironment(id, given, ctx);
      case DeleteVariable(environmentId, key, given) => r := DeleteVariable(environmentId, key, given, ctx);
      case DeleteCollectionVersion(id, given) => r := DeleteLeaf(CollectionVersion, id, given, ctx);
      case DeleteCollectionVariable(id, given) => r := DeleteLeaf(CollectionVariable, id, given, ctx);
      case DeleteGlobalVariable(id, given) => r := DeleteLeaf(GlobalVariable, id, given, ctx);
    }

    method ExecuteWrite(c: Command, ctx: Context) returns (r: Outcome)
      requires !Deletes(c)
      modifies `rows, `log, `checkpoint, `audit
      ensures Performed(Decide(old(rows), foreign, c), ctx, r)
    {
      match c
      case CreateCollection(id, name, extras) =>
        r := InsertRow(Key(Collection, id), CollectionRow(name, extras.On(NO_EXTRAS)), ctx);
      case UpdateCollection(id, newName, extras, expected) => r := UpdateCollection(id, newName, extras, expected, ctx);
      case CreateFolder(id, collectionId, parent, name, order, extras) =>
        r := CreateFolder(id, collectionId, parent, name, order, extras, ctx);
      case UpdateFolder(id, parent, newName, order, extras, expected) =>
        r := UpdateFolder(id, parent, newName, order, extras, expected, ctx);
      case CreateRequest(id, collectionId, folder, name, verb, url, document, order) =>
        r := CreateRequest(id, collectionId, folder, name, verb, url, document, order, ctx);
      case UpdateRequest(id, target, folder, newName, newVerb, newUrl, newDocument, order, expected) =>
        r := UpdateRequest(id, target, folder, newName, newVerb, newUrl, newDocument, order, expected, ctx);
      case CreateEnvironment(id, name) => r := InsertRow(Key(Environment, id), EnvironmentRow(name), ctx);
      case UpdateEnvironment(id, newName, expected) => r := UpdateEnvironment(id, newName, expected, ctx);
      case PutVariable(freshId, environmentId, key, value, isSecret, given) =>
        r := PutVariable(freshId, environmentId, key, value, isSecret, given, ctx);
      case SyncPutVariable(id, environmentId, key, sent, isSecret) => r := SyncPutVariable(id, environmentId, key,
          sent, isSecret, ctx);
      case CreateCollectionVersion(id, d) => r := CreateCollectionVersion(id, d, ctx);
      case SyncPutCollectionVariable(id, container, newKey, newValue, enabled, note, order) =>
        r := SyncPutCollectionVariable(id, container, newKey, newValue, enabled, note, order, ctx);
      case SyncPutGlobalVariable(id, newKey, plain, secret, enabled, note, order) =>
        r := SyncPutGlobalVariable(id, newKey, plain, secret, enabled, note, order, ctx);
    }

    /** A REST write. */
    method Execute(c: Command, ctx: Context) returns (r: Outcome)
      modifies `rows, `log, `checkpoint, `audit
      ensures Performed(Decide(old(rows), foreign, c), ctx, r)
      ensures old(Consistent(Db())) && (ctx.operation.Some? ==> !Logged(old(log), ctx.operation.value)) ==> Consistent(Db())
    {
      if Consistent(Db()) && (ctx.operation.Some? ==> !Logged(log, ctx.operation.value)) {
        DecisionsFit(rows, foreign, c);
        PerformKeepsConsistent(Db(), foreign, Decide(rows, foreign, c), ctx);
      }
      if Deletes(c) { r := ExecuteDelete(c, ctx); } else { r := ExecuteWrite(c, ctx); }
    }

    // -------------------------------------------------------------- push

    method ApplyOperation(op: Incoming) returns (r: Outcome)
      modifies `rows, `log, `checkpoint, `audit
      ensures Performed(DecideOperation(old(rows), foreign, op), ContextOf(op), r)
    {
      var t := Translate(rows, foreign, op);
      if t.Run? {
        r := Execute(t.command, ContextOf(op));
      } else {
        r := OutcomeOf(rows, t.decision);
      }
    }

    /** One operation in its own transaction: a second entry with its id breaks a unique index and rolls all of it back. */
    method Transact(op: Incoming) returns (r: Outcome)
      modifies `rows, `log, `checkpoint, `audit
      ensures Performed(TransactionDecision(old(Db()), foreign, op), ContextOf(op), r)
    {
      var before, auditBefore := Db(), audit;
      r := ApplyOperation(op);
      if r.Returned? && |log| > |before.log| && Recorded(before.log, op.operation).Some? {
        rows, log, checkpoint, audit := before.rows, before.log, before.checkpoint, auditBefore;
        r := Thrown(UniqueViolation);
      }
    }

    /** One operation of a push, whose first lookup saw `seen` entries: answered from the log when it was applied before. */
    method PushOperation(op: Incoming, seen: nat) returns (v: Verdict, replayed: bool)
      modifies `rows, `log, `checkpoint, `audit
      ensures (Db(), v) == PushOne(old(Db()), seen, foreign, op)
      ensures old(Consistent(Db())) ==> Consistent(Db())
      ensures audit == old(audit) + AuditsOf(old(Db()), DecisionOf(old(Db()), Push(foreign, seen, op)), ContextOf(op), parts)
      ensures replayed == IsReplay(old(Db()), seen, foreign, op)
    {
      if Consistent(Db()) { StepKeepsConsistent(Db(), Push(foreign, seen, op)); }
      var before := Recorded(Seen(log, seen), op.operation);
      if before.Some? { return Replayed(before.value, op), true; }
      if !op.workspaceMatches { return Rejected(op.operation, InvalidRequest), false; }
      var r := Transact(op);
      if r.Returned? { return Accepted(op.operation, op.key.id, r.version), false; }
      if r.error == UniqueViolation {
        assert Db() == old(Db()) by { assert old(log) + [] == old(log); }
        var again := Recorded(log, op.operation);
        if again.Some? { return Replayed(again.value, op), true; }
      }
      return Rejected(op.operation, r.error), false;
    }

    /** Goes over the operations in order; every one lands in `accepted` or in `rejected`. */
    method PushOperations(ops: seq<Incoming>) returns (accepted: seq<Verdict>, rejected: seq<Verdict>, replays: nat)
      modifies `rows, `log, `checkpoint, `audit
      ensures Db() == PushAll(old(Db()), foreign, ops).0
      ensures old(Consistent(Db())) ==> Consistent(Db())
      ensures accepted == AcceptedOf(PushAll(old(Db()), foreign, ops).1)
      ensures rejected == RejectedOf(PushAll(old(Db()), foreign, ops).1)
      ensures audit == old(audit) + BatchAudits(old(Db()), foreign, ops, parts)
      ensures replays == ReplaysIn(old(Db()), foreign, ops)
    {
      accepted, rejected, replays := [], [], 0;
      ghost var start := Db();
      if Consistent(start) { BatchKeepsConsistent(start, foreign, ops); }
      for i := 0 to |ops|
        invariant Db() == PushAll(start, foreign, ops[..i]).0
        invariant accepted == AcceptedOf(PushAll(start, foreign, ops[..i]).1)
        invariant rejected == RejectedOf(PushAll(start, foreign, ops[..i]).1)
        invariant audit == old(audit) + BatchAudits(start, foreign, ops[..i], parts)
        invariant replays == ReplaysIn(start, foreign, ops[..i])
      {
        ghost var mid := Db();
        var v, replayed := PushOperation(ops[i], |log|);
        if v.Accepted? { accepted := accepted + [v]; } else { rejected := rejected + [v]; }
        if replayed { replays := replays + 1; }
        BatchStep(start, foreign, ops, i, parts, mid, Db(), v);
        Associate(old(audit), BatchAudits(start, foreign, ops[..i], parts),
          AuditsOf(mid, DecisionOf(mid, Push(foreign, |mid.log|, ops[i])), ContextOf(ops[i]), parts));
      }
      assert ops[..|ops|] == ops;
    }

    // -------------------------------------------------------------- pull and snapshot

    /** Goes over the entries until the next one would pass the byte cap; the first one always counts. */
    method CutAtCap(list: seq<Entry>, cap: nat, size: Sizes) returns (n: nat)
      ensures n == Fitting(list, 0, 0, cap, size)
    {
      var bytes: nat := 0;
      for i := 0 to |list|
        invariant Fitting(list, i, bytes, cap, size) == Fitting(list, 0, 0, cap, size)
      {
        bytes := bytes + size(list[i].payload) + ENTRY_OVERHEAD;
        if bytes > cap && i > 0 { return i; }
      }
      n := |list|;
    }

    /** One page of the log: reads one entry more than asked for, to see whether more follow. */
    method PullPage(after: nat, limit: nat, cap: nat, size: Sizes, features: set<Feature>) returns (page: Page)
      requires Numbered(log)
      ensures page == Pull.PullPage(log, after, limit, cap, size, features)
    {
      if after >= |log| {
        assert after == |log| ==> log[after..] == [];
        return Page([], after, false);
      }
      var found := log[after..Min(after + limit + 1, |log|)];
      var list := if |found| > limit then found[..limit] else found;
      OneMoreThanAsked(log, after, limit);
      var n := CutAtCap(list, cap, size);
      PageOfCut(log, after, limit, cap, size, features);
      page := Page(ShapeLog(list[..n], features), if n > 0 then list[n - 1].number else after,
          n < |list| || |found| > limit);
    }

    /** Sends rows until they are all out or the byte cap would be passed. */
    method EmitRows(s: Progress, q: Query, kind: Kind, found: seq<Found>) returns (out: Progress)
      requires !s.closed
      ensures out == Emit(s, q, kind, found)
    {
      out := s;
      for i := 0 to |found|
        invariant !out.closed && Emit(out, q, kind, found[i..]) == Emit(s, q, kind, found)
      {
        var e := EntityOf(kind, found[i], q.features);
        var size := q.size(e.item.payload) + ENTITY_OVERHEAD;
        if |out.entities| > 0 && out.bytes + size > q.cap { return CloseWith(out); }
        assert found[i..][1..] == found[i + 1..];
        out := Progress(out.cur.(after := Some(found[i].position)), out.entities + [e], out.bytes + size, false,
            out.next);
      }
    }

    /** One turn of the scan: sends rows of one type while there is room, or peeks for more when there is none. */
    method ScanType(s: Progress, q: Query) returns (out: Progress)
      requires !s.closed && s.cur.turn < |ORDER|
      ensures out == Scan(s, q, Fetch(rows, ORDER[s.cur.turn], s.cur.after, Take(s, q)))
    {
      var kind := ORDER[s.cur.turn];
      if !Visible(kind, q.features) { return NextTurn(s); }
      var remaining := if |s.entities| < q.limit then q.limit - |s.entities| else 0;
      var want := if kind == CollectionVersion && remaining > VERSION_BATCH then VERSION_BATCH else remaining;
      assert want == Want(s, q) && want + 1 == Take(s, q);
      var found := Fetch(rows, kind, s.cur.after, want + 1);
      ScanCases(s, q, found);
      if remaining == 0 { return if found != [] then CloseWith(s) else NextTurn(s); }
      out := EmitRows(s, q, kind, First(found, want));
      if !out.closed { out := if |found| > want then CloseWith(out) else NextTurn(out); }
    }

    /** One snapshot page, from a cursor or from the start at the current checkpoint. */
    method ReadSnapshotPage(start: Option<Cursor>, q: Query) returns (page: Option<Progress>)
      ensures page ==
        if start.Some? && !Admitted(start.value) then None
        else Some(ScanAll(Start(if start.Some? then start.value else Cursor(checkpoint, 0, None)), q, rows))
    {
      if start.Some? && !Admitted(start.value) { return None; }
      var s := Start(if start.Some? then start.value else Cursor(checkpoint, 0, None));
      ghost var target := ScanAll(s, q, rows);
      while s.cur.turn < |ORDER| && !s.closed
        invariant ScanAll(s, q, rows) == target && (!s.closed ==> s.next == None)
        decreases if s.cur.turn < |ORDER| then |ORDER| - s.cur.turn else 0, if s.closed then 0 else 1
      {
        ghost var was := s;
        s := ScanType(s, q);
        ScanTurn(was, q, Fetch(rows, ORDER[was.cur.turn], was.cur.after, Take(was, q)));
        ScanLeavesNext(was, q, Fetch(rows, ORDER[was.cur.turn], was.cur.after, Take(was, q)));
      }
      page := Some(s.(closed := true));
    }
  }
}
