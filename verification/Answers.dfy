/**
 * What a push does and answers, told from outside: an accepted write shows the pushed fields, an accepted delete removes
 * the row and all that hangs on it, and a rejection says why.
 */
module Answers {
  import opened Prelude
  import opened Rows
  import opened Tree
  import opened Content
  import opened Integrity
  import opened Journal
  import Apply
  import opened Sync
  import opened Writes

  type Incoming = Apply.Incoming

  // ---------------------------------------------------------------- pushed writes

  /** The payload was read as one of the row's kind. */
  predicate Reads(kind: Kind, i: Apply.Input) {
    match kind
    case Collection => i.CollectionInput?
    case Environment => i.EnvironmentInput?
    case Folder => i.FolderInput?
    case Request => i.RequestInput?
    case EnvironmentVariable => i.VariableInput?
    case CollectionVersion => i.VersionInput?
    case CollectionVariable => i.CollectionVariableInput?
    case GlobalVariable => i.GlobalInput?
  }

  function FieldsOf(i: Apply.Input): Fields {
    match i
    case Unreadable => map[]
    case CollectionInput(name, extras) => CollectionFields(name, extras)
    case FolderInput(container, parent, name, order, extras) => FolderFields(container, parent, name, order, extras)
    case RequestInput(container, folder, name, verb, url, document, order) =>
      RequestFields(container, folder, name, verb, url, document, order)
    case EnvironmentInput(name) => map[Name := OfText(name)]
    case VariableInput(environmentId, key, sent, isSecret) => VariableFields(environmentId, key, sent, isSecret)
    case VersionInput(data) => VersionFields(data)
    case CollectionVariableInput(container, key, value, enabled, note, order) =>
      CollectionVariableFields(container, key, value, enabled, note, order)
    case GlobalInput(key, plain, secret, enabled, note, order) => GlobalFields(key, plain, secret, enabled, note, order)
  }

  /** An existing row is edited from the version it has, a new one from none. */
  predicate BaseFits(rows: Tables, op: Incoming) {
    op.base == if op.key in rows then rows[op.key].version else 0
  }

  ghost predicate PushAccepts(rows: Tables, foreign: set<Key>, op: Incoming) {
    var g := FieldsOf(op.input);
    Reads(op.key.kind, op.input) && BaseFits(rows, op) && Welcome(rows, foreign, op.key, g) && !SecretSent(rows, op.key, g)
  }

  /** A collection version is sent again with nothing changed; its time and author do not count. */
  predicate Identical(rows: Tables, op: Incoming) {
    && op.key.kind == CollectionVersion && op.key in rows && op.input.VersionInput?
    && AllSentAgain(SyncPayload(rows[op.key].body), FieldsOf(op.input))
  }

  predicate AllSentAgain(p: Payload, g: Fields) {
    forall f :: f in {CollectionId, Semver, Notes, SnapshotJson, FolderCount, RequestCount} ==> SentAgain(p, g, f)
  }

  predicate SentAgain(p: Payload, g: Fields, f: Field) {
    f in p && Gives(g, f) && g[f].value == p[f]
  }

  lemma IdenticalExactly(b: Body, d: VersionData)
    requires b.CollectionVersionRow?
    ensures AllSentAgain(SyncPayload(b), VersionFields(d)) <==> Apply.SameVersion(b, d)
  {
    var p, g := SyncPayload(b), VersionFields(d);
    assert SentAgain(p, g, CollectionId) <==> d.collectionId == b.collectionId;
    assert SentAgain(p, g, Semver) <==> d.semver == b.semver;
    assert SentAgain(p, g, Notes) <==> d.notes == b.notes;
    assert SentAgain(p, g, SnapshotJson) <==> d.snapshot == b.snapshot;
    assert SentAgain(p, g, FolderCount) <==> d.folderCount == b.folderCount;
    assert SentAgain(p, g, RequestCount) <==> d.requestCount == b.requestCount;
  }

  /** A mutation asks for the same as a pushed payload: the same row, fields that come to the same, nothing else to mind. */
  ghost predicate AsksTheSame(rows: Tables, c: Command, k: Key, g: Fields) {
    && WritesById(c) && KeyOf(c) == k && VersionFits(rows, c)
    && Wanted(rows, k, GivenBy(c)) == Wanted(rows, k, g)
    && (k !in rows ==> forall f :: f in Required(k.kind) ==> (Gives(GivenBy(c), f) <==> Gives(g, f)))
    && (ParentOutside(rows, k, GivenBy(c)) <==> ParentOutside(rows, k, g))
    && (SecretSent(rows, k, g) <==> (c.SyncPutVariable? || c.SyncPutGlobalVariable?) && SecretSent(rows, k, GivenBy(c)))
  }

  lemma AcceptsTheSame(rows: Tables, foreign: set<Key>, c: Command, k: Key, g: Fields)
    requires AsksTheSame(rows, c, k, g)
    ensures Accepts(rows, foreign, c) <==> Welcome(rows, foreign, k, g) && !SecretSent(rows, k, g)
  {}

  lemma NoSecretSent(rows: Tables, k: Key, g: Fields)
    requires KindsMatch(rows) && k.kind !in {EnvironmentVariable, GlobalVariable} && !Gives(g, IsSecret)
    ensures !SecretSent(rows, k, g)
  {
    if k in rows { assert KindOf(rows[k].body) == k.kind; }
  }

  predicate PutsSecrets(c: Command) {
    c.SyncPutVariable? || c.SyncPutGlobalVariable?
  }

  lemma GivesTheSame(rows: Tables, c: Command, k: Key, g: Fields)
    requires KindsMatch(rows) && WritesById(c) && KeyOf(c) == k && VersionFits(rows, c) && GivenBy(c) == g
    requires PutsSecrets(c) || !Gives(g, IsSecret)
    ensures AsksTheSame(rows, c, k, g)
  {
    if !PutsSecrets(c) { NoSecretSent(rows, k, g); }
  }

  function After(p: Payload, g: Fields, f: Field): Option<Json> {
    if Gives(g, f) then Some(g[f].value) else if f in p then Some(p[f]) else None
  }

  lemma SamePatch(p: Payload, g: Fields, h: Fields)
    requires forall f :: After(p, g, f) == After(p, h, f)
    ensures Patched(p, g) == Patched(p, h)
  {
    var q, r := Patched(p, g), Patched(p, h);
    forall f ensures (f in q <==> f in r) && (f in q ==> q[f] == r[f]) { assert After(p, g, f) == After(p, h, f); }
  }

  lemma GivenAgain(p: Payload, g: Fields, f: Field, v: Patch<Json>)
    requires f in g && !Gives(g, f) && f in p && (v == Absent || v == Given(p[f]))
    ensures Patched(p, g[f := v]) == Patched(p, g)
  {
    forall e ensures After(p, g[f := v], e) == After(p, g, e) {}
    SamePatch(p, g[f := v], g);
  }

  lemma FolderNamesAgain(container: Patch<Id>, parent: Patch<Option<Id>>, name: Patch<string>, order: Patch<nat>, x: ExtrasPatch)
    ensures FolderFields(container, parent, name, order, x) == FolderFields(Absent, parent, name, order, x)[CollectionId := OfText(container)]
  {}

  lemma FolderShowsCollection(b: Body)
    requires b.FolderRow?
    ensures CollectionId in SyncPayload(b) && SyncPayload(b)[CollectionId] == Text(b.collectionId)
  {}

  /** A pushed folder keeps its collection, which it may name again. */
  lemma FolderAsksTheSame(rows: Tables, c: Command, container: Patch<Id>)
    requires KindsMatch(rows) && c.UpdateFolder? && VersionFits(rows, c)
    requires container.Or(rows[KeyOf(c)].body.collectionId) == rows[KeyOf(c)].body.collectionId
    ensures AsksTheSame(rows, c, KeyOf(c), FolderFields(container, c.parent, c.newName, c.order, c.extras))
  {
    var k, g := KeyOf(c), FolderFields(container, c.parent, c.newName, c.order, c.extras);
    var b := rows[k].body;
    FolderNamesAgain(container, c.parent, c.newName, c.order, c.extras);
    FolderShowsCollection(b);
    GivenAgain(SyncPayload(b), GivenBy(c), CollectionId, OfText(container));
    NoSecretSent(rows, k, g);
  }

  lemma RequestComesToTheSame(container: Id, folder: Patch<Option<Id>>, name: string, verb: Patch<string>, url: string,
      document: Patch<string>, order: Patch<nat>, f: Field)
    ensures After(Defaults(Request), RequestFields(Given(container), folder, Given(name), Given(verb.Or("GET")), Given(url),
        Given(document.Or("{}")), order), f)
      == After(Defaults(Request), RequestFields(Given(container), folder, Given(name), verb, Given(url), document, order), f)
  {}

  /** A pushed new request may leave out its verb and its document. */
  lemma RequestAsksTheSame(rows: Tables, c: Command, verb: Patch<string>, document: Patch<string>)
    requires KindsMatch(rows) && c.CreateRequest? && VersionFits(rows, c)
    requires c.verb == verb.Or("GET") && c.document == document.Or("{}")
    ensures AsksTheSame(rows, c, KeyOf(c), RequestFields(Given(c.collectionId), c.folder, Given(c.name), verb, Given(c.url), document, c.order))
  {
    var k, g := KeyOf(c), RequestFields(Given(c.collectionId), c.folder, Given(c.name), verb, Given(c.url), document, c.order);
    forall f ensures After(Defaults(Request), GivenBy(c), f) == After(Defaults(Request), g, f) {
      RequestComesToTheSame(c.collectionId, c.folder, c.name, verb, c.url, document, c.order, f);
    }
    SamePatch(Defaults(Request), GivenBy(c), g);
    NoSecretSent(rows, k, g);
  }

  /** What a pushed write turns into: a mutation asking for the same, or an answer already certain. */
  ghost predicate TurnsInto(rows: Tables, foreign: set<Key>, op: Incoming, t: Apply.Translation) {
    match t
    case Run(c) => Reads(op.key.kind, op.input) && BaseFits(rows, op) && AsksTheSame(rows, c, op.key, FieldsOf(op.input))
    case Stop(Already(v)) => Identical(rows, op) && v == rows[op.key].version
    case Stop(Refused(_)) => !Identical(rows, op) && !PushAccepts(rows, foreign, op)
    case _ => false
  }

  /** What an update that cannot be read, or leaves its folder's collection, lacks. */
  lemma UpdateStops(rows: Tables, foreign: set<Key>, op: Incoming)
    requires KindsMatch(rows) && op.key in rows && op.key.kind != CollectionVersion
    requires Apply.TranslateUpdate(rows[op.key], op).Stop?
    ensures Apply.TranslateUpdate(rows[op.key], op).decision.Refused? && !PushAccepts(rows, foreign, op)
  {
    if Reads(op.key.kind, op.input) { FolderLeaves(rows, op); }
  }

  lemma FolderLeaves(rows: Tables, op: Incoming)
    requires KindsMatch(rows) && op.key in rows && op.key.kind == Folder && op.input.FolderInput?
    requires op.input.container.Given? && op.input.container.value != rows[op.key].body.collectionId
    ensures !ContainerKept(rows, op.key, Wanted(rows, op.key, FieldsOf(op.input)))
  {
    var g := FieldsOf(op.input);
    assert g[CollectionId] == Given(Text(op.input.container.value));
    assert Wanted(rows, op.key, g)[CollectionId] == g[CollectionId].value;
    assert Key(Collection, op.input.container.value) in PayloadContainer(Wanted(rows, op.key, g));
  }

  lemma UpdateRuns(rows: Tables, op: Incoming)
    requires KindsMatch(rows) && op.key in rows && op.key.kind != CollectionVersion
    requires Apply.TranslateUpdate(rows[op.key], op).Run?
    ensures Reads(op.key.kind, op.input)
    ensures var c := Apply.TranslateUpdate(rows[op.key], op).command;
      && WritesById(c) && KeyOf(c) == op.key && VersionFits(rows, c)
      && (PutsSecrets(c) || !Gives(FieldsOf(op.input), IsSecret))
      && (op.key.kind != Folder ==> GivenBy(c) == FieldsOf(op.input))
  {}

  lemma UpdateTurnsInto(rows: Tables, foreign: set<Key>, op: Incoming)
    requires WellFormed(rows) && op.change.Upsert? && op.key in rows && op.key.kind != CollectionVersion && BaseFits(rows, op)
    ensures TurnsInto(rows, foreign, op, Apply.TranslateUpdate(rows[op.key], op))
  {
    var k, t := op.key, Apply.TranslateUpdate(rows[op.key], op);
    if t.Stop? {
      UpdateStops(rows, foreign, op);
    } else {
      UpdateRuns(rows, op);
      if k.kind == Folder {
        FolderAsksTheSame(rows, t.command, op.input.container);
      } else {
        GivesTheSame(rows, t.command, k, FieldsOf(op.input));
      }
    }
  }

  lemma CreateStops(rows: Tables, foreign: set<Key>, op: Incoming)
    requires op.key !in rows && op.key.kind != CollectionVersion && Apply.TranslateCreate(foreign, op).Stop?
    ensures Apply.TranslateCreate(foreign, op).decision.Refused?
    ensures op.key in foreign || !Reads(op.key.kind, op.input) || exists f :: f in Required(op.key.kind) && !Gives(FieldsOf(op.input), f)
  {
    var k, g := op.key, FieldsOf(op.input);
    if k !in foreign && Reads(k.kind, op.input) && k.kind in {Collection, Environment, Folder, Request} {
      assert !Gives(g, Name) || !Gives(g, CollectionId) || !Gives(g, Url);
    }
  }

  lemma CreateRuns(rows: Tables, foreign: set<Key>, op: Incoming)
    requires op.key !in rows && op.key.kind != CollectionVersion && Apply.TranslateCreate(foreign, op).Run?
    ensures Reads(op.key.kind, op.input) && op.key !in foreign
    ensures var c := Apply.TranslateCreate(foreign, op).command;
      && WritesById(c) && KeyOf(c) == op.key && VersionFits(rows, c)
      && (PutsSecrets(c) || !Gives(FieldsOf(op.input), IsSecret))
      && (op.key.kind != Request ==> GivenBy(c) == FieldsOf(op.input))
  {}

  lemma CreateTurnsInto(rows: Tables, foreign: set<Key>, op: Incoming)
    requires WellFormed(rows) && op.change.Upsert? && op.key !in rows && op.key.kind != CollectionVersion && op.base == 0
    ensures TurnsInto(rows, foreign, op, Apply.TranslateCreate(foreign, op))
  {
    var k, t := op.key, Apply.TranslateCreate(foreign, op);
    if t.Stop? {
      CreateStops(rows, foreign, op);
    } else {
      CreateRuns(rows, foreign, op);
      if k.kind == Request {
        RequestAsksTheSame(rows, t.command, op.input.newVerb, op.input.newDocument);
      } else {
        GivesTheSame(rows, t.command, k, FieldsOf(op.input));
      }
    }
  }

  lemma VersionTurnsInto(rows: Tables, foreign: set<Key>, op: Incoming)
    requires WellFormed(rows) && op.change.Upsert? && op.key.kind == CollectionVersion
    ensures TurnsInto(rows, foreign, op, Apply.TranslateVersion(Find(rows, CollectionVersion, op.key.id), foreign, op))
  {
    var k, t := op.key, Apply.TranslateVersion(Find(rows, CollectionVersion, op.key.id), foreign, op);
    assert k == Key(CollectionVersion, k.id);
    if k in rows && op.input.VersionInput? {
      IdenticalExactly(rows[k].body, op.input.data);
      assert Identical(rows, op) <==> Apply.SameVersion(rows[k].body, op.input.data);
    }
    if t.Run? { GivesTheSame(rows, t.command, k, FieldsOf(op.input)); }
  }

  lemma UpsertTurnsInto(rows: Tables, foreign: set<Key>, op: Incoming)
    requires WellFormed(rows) && op.change.Upsert?
    ensures TurnsInto(rows, foreign, op, Apply.Translate(rows, foreign, op))
  {
    var k := op.key;
    assert k == Key(k.kind, k.id);
    if k.kind == CollectionVersion {
      VersionTurnsInto(rows, foreign, op);
    } else if BaseFits(rows, op) {
      if k in rows { UpdateTurnsInto(rows, foreign, op); } else { CreateTurnsInto(rows, foreign, op); }
    }
  }

  /** A pushed write is the write it asks for, exactly when it is to be accepted; nothing at all when nothing changed. */
  lemma PushedWriteDecides(rows: Tables, foreign: set<Key>, op: Incoming)
    requires WellFormed(rows) && op.change.Upsert?
    ensures var d := Apply.DecideOperation(rows, foreign, op);
      if Identical(rows, op) then d == Already(rows[op.key].version)
      else if PushAccepts(rows, foreign, op) then WritesWanted(rows, d, op.key, FieldsOf(op.input), None)
      else d.Refused?
  {
    UpsertTurnsInto(rows, foreign, op);
    var t := Apply.Translate(rows, foreign, op);
    if t.Run? {
      AcceptsTheSame(rows, foreign, t.command, op.key, FieldsOf(op.input));
      WritesAreRight(rows, foreign, t.command);
    }
  }

  // ---------------------------------------------------------------- the state after a write

  /** One row was written, showing what is wanted and one version on; the log tells it in one more entry. */
  ghost predicate Wrote(db: Database, next: Database, k: Key, given: Fields, sealed: Option<string>, ctx: Context) {
    && k in next.rows && next.rows == db.rows[k := next.rows[k]]
    && next.rows[k].version == (if k in db.rows then db.rows[k].version + 1 else 1)
    && KindOf(next.rows[k].body) == k.kind
    && SyncPayload(next.rows[k].body) == Wanted(db.rows, k, given)
    && Stores(OldBody(db.rows, k), next.rows[k].body, sealed)
    && next.checkpoint == db.checkpoint + 1
    && next.log == db.log + [Entry(next.checkpoint, ctx.operation, k, Upsert, next.rows[k].version,
         Wanted(db.rows, k, given), ctx.client, ctx.base)]
  }

  lemma PerformWrites(db: Database, d: Decision, k: Key, given: Fields, sealed: Option<string>, ctx: Context)
    requires WritesWanted(db.rows, d, k, given, sealed)
    ensures Wrote(db, Perform(db, d, ctx), k, given, sealed, ctx)
  {}

  /**
   * A pushed write: accepted exactly when it is to be, and then its row shows the pushed fields as pushed and the others as
   * they were or by default; a version sent again is accepted without a change; anything else is rejected without one.
   */
  lemma PushedWriteIsRight(db: Database, seen: nat, foreign: set<Key>, op: Incoming)
    requires Consistent(db) && op.change.Upsert? && op.workspaceMatches && !Logged(db.log, op.operation)
    ensures var (next, v) := PushOne(db, seen, foreign, op);
      if Identical(db.rows, op) then next == db && v == Accepted(op.operation, op.key.id, db.rows[op.key].version)
      else if PushAccepts(db.rows, foreign, op) then
        Wrote(db, next, op.key, FieldsOf(op.input), None, ContextOf(op)) && v == Accepted(op.operation, op.key.id, next.rows[op.key].version)
      else next == db && v.Rejected? && v.operation == op.operation
  {
    var d := Apply.DecideOperation(db.rows, foreign, op);
    PushedWriteDecides(db.rows, foreign, op);
    PushDecides(db, seen, foreign, op);
    if WritesWanted(db.rows, d, op.key, FieldsOf(op.input), None) {
      PerformWrites(db, d, op.key, FieldsOf(op.input), None, ContextOf(op));
    }
  }

  /** An operation not in the log is decided in the tables it finds. */
  lemma PushDecides(db: Database, seen: nat, foreign: set<Key>, op: Incoming)
    requires op.workspaceMatches && !Logged(db.log, op.operation)
    ensures var d := Apply.DecideOperation(db.rows, foreign, op);
      PushOne(db, seen, foreign, op) == (Perform(db, d, ContextOf(op)),
        if d.Refused? then Rejected(op.operation, d.error) else Accepted(op.operation, op.key.id, Apply.ResultVersion(db.rows, d)))
    ensures Apply.DecideOperation(db.rows, foreign, op).Refused? ==> PushOne(db, seen, foreign, op).0 == db
  {
    var d := Apply.DecideOperation(db.rows, foreign, op);
    if d.Refused? { assert Perform(db, d, ContextOf(op)) == db; }
    assert Logged(Seen(db.log, seen), op.operation) ==> Logged(db.log, op.operation);
  }

  /** A mutation that writes by id, performed on its own. */
  lemma WriteIsRight(db: Database, foreign: set<Key>, c: Command)
    requires Consistent(db) && WritesById(c)
    ensures var next := Step(db, Rest(foreign, c));
      if Accepts(db.rows, foreign, c) then Wrote(db, next, KeyOf(c), GivenBy(c), None, REST_CONTEXT) else next == db
  {
    var d := Decide(db.rows, foreign, c);
    WritesAreRight(db.rows, foreign, c);
    if d.Refused? {
      assert Perform(db, d, REST_CONTEXT) == db;
    } else {
      PerformWrites(db, d, KeyOf(c), GivenBy(c), None, REST_CONTEXT);
    }
  }

  /** The REST write of a variable, told on the variable it goes to. */
  lemma PutVariableIsRight(db: Database, foreign: set<Key>, c: Command)
    requires Consistent(db) && c.PutVariable?
    ensures var next, g := Step(db, Rest(foreign, c)), VariableFields(c.environmentId, c.key, Some(c.value), c.isSecret);
      && (forall k :: AcceptsVariable(db.rows, foreign, c, k) ==>
            Wrote(db, next, k, g, if c.isSecret then Some(c.value) else None, REST_CONTEXT))
      && ((forall k :: !AcceptsVariable(db.rows, foreign, c, k)) ==> next == db)
  {
    var d, g := Decide(db.rows, foreign, c), VariableFields(c.environmentId, c.key, Some(c.value), c.isSecret);
    var sealed := if c.isSecret then Some(c.value) else None;
    VariableWriteRight(db.rows, foreign, c);
    if d.Write? {
      PerformWrites(db, d, d.key, g, sealed, REST_CONTEXT);
      forall k | AcceptsVariable(db.rows, foreign, c, k) ensures k == d.key { OneVariable(db.rows, foreign, c, k, d.key); }
    } else {
      assert Perform(db, d, REST_CONTEXT) == db;
    }
  }

  lemma OneVariable(rows: Tables, foreign: set<Key>, c: Command, k: Key, l: Key)
    requires WellFormed(rows) && c.PutVariable? && AcceptsVariable(rows, foreign, c, k) && AcceptsVariable(rows, foreign, c, l)
    ensures k == l
  {
    VariableWriteAccepted(rows, foreign, c);
  }

  // ---------------------------------------------------------------- the state after a delete

  /** The row and all that refers to it, directly or not, are gone, and nothing else. */
  ghost predicate Removed(rows: Tables, next: Tables, root: Key) {
    var gone := rows.Keys - next.Keys;
    && root in gone && next == rows - gone
    && (forall k :: k in next ==> Refs(next[k].body) !! gone)
    && gone == Cascade(rows, {root})
  }

  predicate Buries(e: Entry, number: nat, rows: Tables, root: Key, ctx: Context) {
    && e.key in rows
    && e == Entry(number, if e.key == root then ctx.operation else None, e.key, Deletion, rows[e.key].version, map[], ctx.client, ctx.base)
  }

  /** The log has one more tombstone for each row that is gone, the root's own last and alone under the operation. */
  ghost predicate Buried(log: seq<Entry>, more: seq<Entry>, rows: Tables, gone: set<Key>, root: Key, ctx: Context) {
    && |more| == |gone| && gone <= rows.Keys
    && (forall k :: k in gone ==> exists i :: 0 <= i < |more| && more[i].key == k)
    && (forall i :: 0 <= i < |more| ==> more[i].key in gone && Buries(more[i], |log| + i + 1, rows, root, ctx))
    && |more| > 0 && more[|more| - 1].key == root
  }

  ghost predicate Erased(db: Database, next: Database, root: Key, ctx: Context) {
    && Removed(db.rows, next.rows, root)
    && db.log <= next.log && next.checkpoint == |next.log|
    && Buried(db.log, next.log[|db.log|..], db.rows, db.rows.Keys - next.rows.Keys, root, ctx)
  }

  lemma {:induction false} SizeOfList<T>(s: seq<T>)
    requires NoDuplicates(s)
    ensures |SetOf(s)| == |s|
  {
    if s != [] {
      var init, last := s[..|s| - 1], s[|s| - 1];
      SizeOfList(init);
      assert s == init + [last];
      assert SetOf(s) == SetOf(init) + {last} && last !in SetOf(init);
    }
  }

  lemma CascadeIsRemoved(rows: Tables, root: Key, children: seq<Key>)
    requires WellFormed(rows) && ListsCascade(rows, root, children, root.kind != Collection)
    ensures Removed(rows, rows - Cascade(rows, {root}), root)
    ensures rows.Keys - (rows - Cascade(rows, {root})).Keys == Cascade(rows, {root})
  {
    var gone := Cascade(rows, {root});
    var next := rows - gone;
    assert root in SetOf(children + [root]);
    forall k | k in next ensures Refs(next[k].body) !! gone { assert k !in Referrers(rows, gone); }
    assert rows.Keys - next.Keys == gone;
  }

  lemma VictimIsBuried(rows: Tables, root: Key, children: seq<Key>, ctx: Context, n: nat, i: nat)
    requires ListsCascade(rows, root, children, root.kind != Collection) && i <= |children|
    ensures var e, victims := EntriesOf(rows, Erase(root, children), ctx, n)[i], children + [root];
      e.key == victims[i] && e.key in SetOf(victims) && Buries(e, n + i + 1, rows, root, ctx)
  {
    var victims := children + [root];
    assert victims[|children|] == root && victims[i] in SetOf(victims);
  }

  lemma CascadeIsBuried(log: seq<Entry>, rows: Tables, root: Key, children: seq<Key>, ctx: Context)
    requires ListsCascade(rows, root, children, root.kind != Collection)
    ensures Buried(log, EntriesOf(rows, Erase(root, children), ctx, |log|), rows, Cascade(rows, {root}), root, ctx)
  {
    var victims := children + [root];
    var more := EntriesOf(rows, Erase(root, children), ctx, |log|);
    SizeOfList(victims);
    forall i | 0 <= i < |more| ensures more[i].key == victims[i] && more[i].key in SetOf(victims) && Buries(more[i], |log| + i + 1, rows, root, ctx) {
      VictimIsBuried(rows, root, children, ctx, |log|, i);
    }
    forall k | k in SetOf(victims) ensures exists i :: 0 <= i < |more| && more[i].key == k {
      var i :| 0 <= i < |victims| && victims[i] == k;
      assert more[i].key == k;
    }
  }

  lemma PerformErases(db: Database, root: Key, children: seq<Key>, ctx: Context)
    requires Consistent(db) && ListsCascade(db.rows, root, children, root.kind != Collection)
    ensures Erased(db, Perform(db, Erase(root, children), ctx), root, ctx)
  {
    var next := Perform(db, Erase(root, children), ctx);
    CascadeIsRemoved(db.rows, root, children);
    CascadeIsBuried(db.log, db.rows, root, children, ctx);
    assert next.log[|db.log|..] == EntriesOf(db.rows, Erase(root, children), ctx, |db.log|);
  }

  /** The row that a delete names, by id or as the variable that shows the key. */
  predicate Targets(rows: Tables, c: Command, k: Key) {
    k in rows &&
    match c
    case DeleteCollection(id, _) => k == Key(Collection, id)
    case DeleteFolder(id, _) => k == Key(Folder, id)
    case DeleteRequest(id, _) => k == Key(Request, id)
    case DeleteEnvironment(id, _) => k == Key(Environment, id)
    case DeleteVariable(environmentId, key, _) => ShowsVariable(rows, k, environmentId, key)
    case DeleteCollectionVersion(id, _) => k == Key(CollectionVersion, id)
    case DeleteCollectionVariable(id, _) => k == Key(CollectionVariable, id)
    case DeleteGlobalVariable(id, _) => k == Key(GlobalVariable, id)
    case _ => false
  }

  /** A folder that is met again going up from its own parent. */
  ghost predicate Circular(rows: Tables, k: Key) {
    k.kind == Folder && k in rows && InFolder(rows[k].body).Some? && Below(ParentsOf(rows), k.id, InFolder(rows[k].body).value)
  }

  lemma CircularExactly(rows: Tables, k: Key)
    requires KindsMatch(rows) && k.kind == Folder && k in rows
    ensures Circular(rows, k) <==> OnCycle(ParentsOf(rows), k.id)
  {
    ParentsFacts(rows);
    OnCycleExactly(ParentsOf(rows), k.id);
    assert k == Key(Folder, k.id);
  }

  /** What comes of a delete: its row's removal, or the one reason why not. */
  ghost predicate DeleteDecided(rows: Tables, d: Decision, k: Key, given: Option<nat>) {
    && k in rows
    && if given.Some? && given.value != rows[k].version then d == Refused(VersionMismatch(rows[k].version))
       else if Circular(rows, k) then d == Refused(Diverged)
       else d.Erase? && d.root == k
  }

  lemma ContentDeleteDecides(rows: Tables, foreign: set<Key>, c: Command, k: Key)
    requires WellFormed(rows) && Targets(rows, c, k) && !c.DeleteVariable?
    ensures DeleteDecided(rows, Decide(rows, foreign, c), k, c.given)
  {
    if k.kind == Folder { CircularExactly(rows, k); }
  }

  lemma VariableDeleteDecides(rows: Tables, foreign: set<Key>, c: Command, k: Key)
    requires WellFormed(rows) && Targets(rows, c, k) && c.DeleteVariable?
    ensures DeleteDecided(rows, Decide(rows, foreign, c), k, c.given)
  {
    VariableIsOne(rows, k, c.environmentId, c.key);
    assert k == Key(EnvironmentVariable, k.id);
  }

  lemma DeleteDecides(rows: Tables, foreign: set<Key>, c: Command, k: Key)
    requires WellFormed(rows) && Targets(rows, c, k)
    ensures DeleteDecided(rows, Decide(rows, foreign, c), k, c.given)
  {
    if c.DeleteVariable? { VariableDeleteDecides(rows, foreign, c, k); } else { ContentDeleteDecides(rows, foreign, c, k); }
  }

  lemma NoTargetIsNotFound(rows: Tables, foreign: set<Key>, c: Command)
    requires WellFormed(rows) && Apply.Deletes(c)
    ensures Decide(rows, foreign, c) == Refused(NotFound) || exists k :: Targets(rows, c, k)
  {
    match c
    case DeleteCollection(id, _) => NotTargeted(rows, c, Key(Collection, id));
    case DeleteFolder(id, _) => NotTargeted(rows, c, Key(Folder, id));
    case DeleteRequest(id, _) => NotTargeted(rows, c, Key(Request, id));
    case DeleteEnvironment(id, _) => NotTargeted(rows, c, Key(Environment, id));
    case DeleteVariable(environmentId, key, _) => NoVariableIsNotFound(rows, c);
    case DeleteCollectionVersion(id, _) => NotTargeted(rows, c, Key(CollectionVersion, id));
    case DeleteCollectionVariable(id, _) => NotTargeted(rows, c, Key(CollectionVariable, id));
    case DeleteGlobalVariable(id, _) => NotTargeted(rows, c, Key(GlobalVariable, id));
  }

  lemma NotTargeted(rows: Tables, c: Command, k: Key)
    requires KindsMatch(rows) && (k in rows ==> Targets(rows, c, k))
    ensures Find(rows, k.kind, k.id) == None || exists l :: Targets(rows, c, l)
  {
    assert k == Key(k.kind, k.id);
  }

  lemma NoVariableIsNotFound(rows: Tables, c: Command)
    requires WellFormed(rows) && c.DeleteVariable?
    ensures DecideDeleteVariable(rows, c) == Refused(NotFound) || exists k :: Targets(rows, c, k)
  {
    var held := FirstOf(Holders(rows, EnvironmentKey(c.environmentId, c.key)));
    if held.Some? {
      ShowsExactly(rows, Key(EnvironmentVariable, held.value), c.environmentId, c.key);
      assert Targets(rows, c, Key(EnvironmentVariable, held.value));
    }
  }

  /** A delete deletes: the version given, if any, must be the row's, and a folder must not lie on a cycle. */
  lemma DeleteIsRight(db: Database, foreign: set<Key>, c: Command)
    requires Consistent(db) && Apply.Deletes(c)
    ensures var next := Step(db, Rest(foreign, c));
      && (forall k :: Targets(db.rows, c, k) ==>
            if (c.given.Some? ==> c.given.value == db.rows[k].version) && !Circular(db.rows, k) then Erased(db, next, k, REST_CONTEXT)
            else next == db)
      && ((forall k :: !Targets(db.rows, c, k)) ==> next == db)
  {
    var d := Decide(db.rows, foreign, c);
    DecisionsFit(db.rows, foreign, c);
    if d.Refused? { assert Perform(db, d, REST_CONTEXT) == db; }
    forall k | Targets(db.rows, c, k)
      ensures DeleteDecided(db.rows, d, k, c.given) && (d.Erase? ==> Erased(db, Step(db, Rest(foreign, c)), k, REST_CONTEXT))
    {
      DeleteDecides(db.rows, foreign, c, k);
      if d.Erase? { PerformErases(db, k, d.children, REST_CONTEXT); }
    }
    NoTargetIsNotFound(db.rows, foreign, c);
  }

  /** What a pushed delete turns into targets the row it names. */
  lemma PushedDeleteTargets(rows: Tables, foreign: set<Key>, op: Incoming)
    requires WellFormed(rows) && op.change.Deletion? && op.key in rows && op.base == rows[op.key].version
    ensures var t := Apply.Translate(rows, foreign, op);
      t.Run? && Targets(rows, t.command, op.key) && t.command.given == None
  {
    assert op.key == Key(op.key.kind, op.key.id);
  }

  /**
   * A pushed delete deletes: from the version the row has it is accepted with that version, and then the row, all that
   * refers to it and nothing else are gone; from another version, or without the row, it is rejected for that reason.
   */
  lemma PushedDeleteIsRight(db: Database, seen: nat, foreign: set<Key>, op: Incoming)
    requires Consistent(db) && op.change.Deletion? && op.workspaceMatches && !Logged(db.log, op.operation)
    ensures var (next, v) := PushOne(db, seen, foreign, op);
      if op.key !in db.rows then next == db && v == Rejected(op.operation, NotFound)
      else if op.base != db.rows[op.key].version then next == db && v == Rejected(op.operation, VersionMismatch(db.rows[op.key].version))
      else if Circular(db.rows, op.key) then next == db && v == Rejected(op.operation, Diverged)
      else Erased(db, next, op.key, ContextOf(op)) && v == Accepted(op.operation, op.key.id, op.base)
  {
    var d := Apply.DecideOperation(db.rows, foreign, op);
    PushDecides(db, seen, foreign, op);
    Apply.OperationsFit(db.rows, foreign, op);
    assert op.key == Key(op.key.kind, op.key.id);
    if op.key in db.rows && op.base == db.rows[op.key].version {
      PushedDeleteTargets(db.rows, foreign, op);
      DeleteDecides(db.rows, foreign, Apply.Translate(db.rows, foreign, op).command, op.key);
      if d.Erase? { PerformErases(db, op.key, d.children, ContextOf(op)); }
    }
  }
}
