/** Why a mutation or a pushed operation is refused: every reason given is a true one, and some are given exactly when true. */
module Reasons {
  import opened Prelude
  import opened Rows
  import opened Tree
  import opened Content
  import opened Integrity
  import opened Journal
  import Apply
  import opened Sync
  import opened Writes
  import opened Answers

  predicate FolderMissing(rows: Tables, p: Payload, f: Field) {
    f in p && p[f].Text? && Key(Folder, p[f].text) !in rows
  }

  predicate FolderElsewhere(rows: Tables, p: Payload, f: Field) {
    !FolderMissing(rows, p, f) && !FolderThere(rows, p, f)
  }

  /** The container or a folder that the row would name is not in the workspace. */
  predicate Missing(rows: Tables, p: Payload) {
    !ContainerThere(rows, p) || FolderMissing(rows, p, FolderId) || FolderMissing(rows, p, ParentFolderId)
  }

  /** The row would leave its container, or go into a folder of another collection or of its own subtree. */
  ghost predicate Misplaced(rows: Tables, k: Key, given: Fields) {
    var p := Wanted(rows, k, given);
    || FolderElsewhere(rows, p, FolderId) || FolderElsewhere(rows, p, ParentFolderId)
    || !ContainerKept(rows, k, p) || !ParentOutside(rows, k, given)
  }

  /** A new row without a field it cannot do without. */
  predicate Incomplete(rows: Tables, k: Key, given: Fields) {
    k !in rows && exists f :: f in Required(k.kind) && !Gives(given, f)
  }

  predicate Updates(c: Command) {
    c.UpdateCollection? || c.UpdateFolder? || c.UpdateRequest? || c.UpdateEnvironment?
  }

  /** The reason is true of the mutation and the rows it finds. */
  ghost predicate Explains(rows: Tables, foreign: set<Key>, c: Command, e: Error)
    requires WritesById(c)
  {
    var k, g := KeyOf(c), GivenBy(c);
    match e
    case VersionMismatch(n) => Updates(c) && k in rows && n == rows[k].version && n != c.expected
    case UniqueViolation => !Updates(c) && if VersionFits(rows, c) then k !in rows && k in foreign else k in rows
    case NotFound => (Updates(c) && k !in rows) || Missing(rows, Wanted(rows, k, g))
    case InvalidRequest => Misplaced(rows, k, g) || (PutsSecrets(c) && SecretSent(rows, k, g))
    case Malformed => Incomplete(rows, k, g)
    case DuplicateKey(id) => Holds(rows, Key(k.kind, id), k, Wanted(rows, k, g)) || (id == k.id && !VersionFits(rows, c))
    case _ => false
  }

  // ---------------------------------------------------------------- mutations

  /** What a row shows in a field after a write, other than a value. */
  lemma WantedAt(rows: Tables, k: Key, g: Fields, f: Field)
    requires f != Value
    ensures Gives(g, f) ==> f in Wanted(rows, k, g) && Wanted(rows, k, g)[f] == g[f].value
    ensures !Gives(g, f) ==> (f in Wanted(rows, k, g) <==> f in ShownAt(rows, k))
    ensures !Gives(g, f) && f in ShownAt(rows, k) ==> Wanted(rows, k, g)[f] == ShownAt(rows, k)[f]
  {}

  lemma CollectionReasons(rows: Tables, foreign: set<Key>, c: Command)
    requires WellFormed(rows) && (c.CreateCollection? || c.UpdateCollection? || c.CreateEnvironment? || c.UpdateEnvironment?)
    ensures var d := Decide(rows, foreign, c); d.Refused? ==> Explains(rows, foreign, c, d.error)
  {}

  lemma FolderCreateReasons(rows: Tables, foreign: set<Key>, c: Command)
    requires WellFormed(rows) && c.CreateFolder?
    ensures var d := Decide(rows, foreign, c); d.Refused? ==> Explains(rows, foreign, c, d.error)
  {
    GivenPlaceReasons(rows, KeyOf(c), GivenBy(c), ParentFolderId, c.collectionId, c.parent);
  }

  /** The same of a place that is given, a folder or none at all. */
  lemma GivenPlaceReasons(rows: Tables, k: Key, g: Fields, f: Field, target: Id, folder: Patch<Option<Id>>)
    requires KindsMatch(rows) && f in {FolderId, ParentFolderId}
    requires CollectionId in g && g[CollectionId] == Given(Text(target)) && f in g && g[f] == OfNullable(folder)
    ensures Key(Collection, target) !in rows ==> Missing(rows, Wanted(rows, k, g))
    ensures folder.Given? ==> match RequestFolderError(rows, target, folder.value)
      case Some(NotFound) => Missing(rows, Wanted(rows, k, g))
      case Some(e) => e == InvalidRequest && Misplaced(rows, k, g)
      case None => true
  {
    WantedAt(rows, k, g, CollectionId);
    WantedAt(rows, k, g, f);
    if folder.Given? { PlaceReasons(rows, k, g, f, target, folder.value); }
  }

  lemma FolderUpdateReasons(rows: Tables, foreign: set<Key>, c: Command)
    requires WellFormed(rows) && c.UpdateFolder?
    ensures var d := Decide(rows, foreign, c); d.Refused? ==> Explains(rows, foreign, c, d.error)
  {
    var k := KeyOf(c);
    if k in rows && c.parent.Given? && c.parent.value.Some? {
      ParentReasons(rows, k, GivenBy(c), c.parent.value.value);
    }
  }

  /** What the check of a new parent says is true of the payload wanted. */
  lemma ParentReasons(rows: Tables, k: Key, g: Fields, parent: Id)
    requires KindsMatch(rows) && k in rows && k.kind == Folder
    requires !Gives(g, CollectionId) && ParentFolderId in g && g[ParentFolderId] == Given(Text(parent))
    ensures match ParentError(rows, rows[k].body.collectionId, Some(parent), Some(k.id))
      case Some(NotFound) => Missing(rows, Wanted(rows, k, g))
      case Some(e) => e == InvalidRequest && Misplaced(rows, k, g)
      case None => true
  {
    WantedAt(rows, k, g, CollectionId);
    WantedAt(rows, k, g, ParentFolderId);
    FolderShowsCollection(rows[k].body);
    ParentErrorExactly(rows, rows[k].body.collectionId, parent, k.id);
  }

  lemma RequestCreateReasons(rows: Tables, foreign: set<Key>, c: Command)
    requires WellFormed(rows) && c.CreateRequest?
    ensures var d := Decide(rows, foreign, c); d.Refused? ==> Explains(rows, foreign, c, d.error)
  {
    GivenPlaceReasons(rows, KeyOf(c), GivenBy(c), FolderId, c.collectionId, c.folder);
  }

  lemma RequestUpdateReasons(rows: Tables, foreign: set<Key>, c: Command)
    requires WellFormed(rows) && c.UpdateRequest?
    ensures var d := Decide(rows, foreign, c); d.Refused? ==> Explains(rows, foreign, c, d.error)
  {
    var k, d := KeyOf(c), Decide(rows, foreign, c);
    if k in rows && d.Refused? {
      var b := rows[k].body;
      RequestRefusals(rows, c);
      RequestWanted(rows, c);
      PlaceReasons(rows, k, GivenBy(c), FolderId, c.target.Or(b.collectionId), c.folder.Or(b.folderId));
    }
  }

  lemma RequestRefusals(rows: Tables, c: Command)
    requires KindsMatch(rows) && c.UpdateRequest? && KeyOf(c) in rows && DecideUpdateRequest(rows, c).Refused?
    ensures var cur, e := rows[KeyOf(c)], DecideUpdateRequest(rows, c).error;
      var target, folder := c.target.Or(cur.body.collectionId), c.folder.Or(cur.body.folderId);
      || (e == NotFound && Key(Collection, target) !in rows)
      || Some(e) == RequestFolderError(rows, target, folder)
      || (e == VersionMismatch(cur.version) && c.expected != cur.version)
  {}

  lemma RequestWanted(rows: Tables, c: Command)
    requires KindsMatch(rows) && c.UpdateRequest? && KeyOf(c) in rows
    ensures var b, p := rows[KeyOf(c)].body, Wanted(rows, KeyOf(c), GivenBy(c));
      && CollectionId in p && p[CollectionId] == Text(c.target.Or(b.collectionId))
      && FolderId in p && p[FolderId] == OrNull(c.folder.Or(b.folderId))
  {
    WantedAt(rows, KeyOf(c), GivenBy(c), CollectionId);
    WantedAt(rows, KeyOf(c), GivenBy(c), FolderId);
  }

  /** What the check of a place says is true of the payload wanted. */
  lemma PlaceReasons(rows: Tables, k: Key, g: Fields, f: Field, target: Id, folder: Option<Id>)
    requires KindsMatch(rows) && f in {FolderId, ParentFolderId}
    requires var p := Wanted(rows, k, g);
      CollectionId in p && p[CollectionId] == Text(target) && f in p && p[f] == OrNull(folder)
    ensures Key(Collection, target) !in rows ==> Missing(rows, Wanted(rows, k, g))
    ensures match RequestFolderError(rows, target, folder)
      case Some(NotFound) => Missing(rows, Wanted(rows, k, g))
      case Some(e) => e == InvalidRequest && Misplaced(rows, k, g)
      case None => true
  {}

  /** The payload shows the unique key. */
  predicate ShowsKey(p: Payload, kind: Kind, u: UniqueKey) {
    match u
    case EnvironmentKey(e, key) => kind == EnvironmentVariable && Shows(p, EnvironmentId, e) && Shows(p, VariableKey, key)
    case SemverKey(o, v) => kind == CollectionVersion && Shows(p, CollectionId, o) && Shows(p, Semver, v)
    case CollectionKey(o, key) => kind == CollectionVariable && Shows(p, CollectionId, o) && Shows(p, VariableKey, key)
    case GlobalKey(key) => kind == GlobalVariable && Shows(p, VariableKey, key)
  }

  predicate Shows(p: Payload, f: Field, text: string) {
    f in p && p[f] == Text(text)
  }

  lemma RowShowsKey(b: Body, u: UniqueKey)
    requires UniqueOf(b) == Some(u)
    ensures ShowsKey(SyncPayload(b), KindOf(b), u)
  {}

  /** The other holder of a unique key, told on payloads. */
  lemma HolderHolds(rows: Tables, k: Key, u: UniqueKey, id: Id, p: Payload)
    requires WellFormed(rows) && id in Holders(rows, u) && id != k.id && ShowsKey(p, k.kind, u)
    ensures Holds(rows, Key(k.kind, id), k, p)
  {
    HolderFacts(rows, u, k.kind);
    RowShowsKey(rows[Key(k.kind, id)].body, u);
  }

  lemma VariableRefusals(rows: Tables, foreign: set<Key>, c: Command)
    requires KindsMatch(rows) && c.SyncPutVariable? && DecideSyncPutVariable(rows, foreign, c).Refused?
    ensures var k := KeyOf(c);
      match DecideSyncPutVariable(rows, foreign, c).error
      case InvalidRequest => (c.isSecret && c.sent.Some?) || (k in rows && rows[k].body.environmentId != c.environmentId)
      case NotFound => Key(Environment, c.environmentId) !in rows
      case DuplicateKey(id) => id in Holders(rows, EnvironmentKey(c.environmentId, c.key)) && id != c.id
      case UniqueViolation => k !in rows && k in foreign
      case _ => false
  {}

  lemma VariableReasons(rows: Tables, foreign: set<Key>, c: Command)
    requires WellFormed(rows) && c.SyncPutVariable?
    ensures var d := Decide(rows, foreign, c); d.Refused? ==> Explains(rows, foreign, c, d.error)
  {
    var d := Decide(rows, foreign, c);
    if d.Refused? {
      VariableRefusals(rows, foreign, c);
      match d.error
      case InvalidRequest => VariableIsInvalid(rows, c);
      case NotFound => VariableIsMissing(rows, c);
      case DuplicateKey(id) => VariableIsHeld(rows, c, id);
      case _ =>
    }
  }

  lemma VariableIsMissing(rows: Tables, c: Command)
    requires c.SyncPutVariable? && Key(Environment, c.environmentId) !in rows
    ensures Missing(rows, Wanted(rows, KeyOf(c), GivenBy(c)))
  {
    WantedAt(rows, KeyOf(c), GivenBy(c), EnvironmentId);
  }

  lemma VariableIsHeld(rows: Tables, c: Command, id: Id)
    requires WellFormed(rows) && c.SyncPutVariable? && id in Holders(rows, EnvironmentKey(c.environmentId, c.key)) && id != c.id
    ensures Holds(rows, Key(EnvironmentVariable, id), KeyOf(c), Wanted(rows, KeyOf(c), GivenBy(c)))
  {
    WantedAt(rows, KeyOf(c), GivenBy(c), EnvironmentId);
    WantedAt(rows, KeyOf(c), GivenBy(c), VariableKey);
    HolderHolds(rows, KeyOf(c), EnvironmentKey(c.environmentId, c.key), id, Wanted(rows, KeyOf(c), GivenBy(c)));
  }

  lemma VariableIsInvalid(rows: Tables, c: Command)
    requires KindsMatch(rows) && c.SyncPutVariable?
    ensures c.isSecret && c.sent.Some? ==> SecretSent(rows, KeyOf(c), GivenBy(c))
    ensures KeyOf(c) in rows && rows[KeyOf(c)].body.environmentId != c.environmentId ==>
      !ContainerKept(rows, KeyOf(c), Wanted(rows, KeyOf(c), GivenBy(c)))
  {
    WantedAt(rows, KeyOf(c), GivenBy(c), EnvironmentId);
    assert Key(Environment, c.environmentId) in PayloadContainer(Wanted(rows, KeyOf(c), GivenBy(c)));
  }

  lemma VersionRefusals(rows: Tables, foreign: set<Key>, c: Command)
    requires c.CreateCollectionVersion? && DecideCreateCollectionVersion(rows, foreign, c).Refused?
    ensures match DecideCreateCollectionVersion(rows, foreign, c).error
      case NotFound => !Has(rows, Key(Collection, c.data.collectionId))
      case DuplicateKey(id) => id in Holders(rows, SemverKey(c.data.collectionId, c.data.semver))
      case UniqueViolation => KeyOf(c) in rows || KeyOf(c) in foreign
      case _ => false
  {}

  lemma VersionReasons(rows: Tables, foreign: set<Key>, c: Command)
    requires WellFormed(rows) && c.CreateCollectionVersion?
    ensures var d := Decide(rows, foreign, c); d.Refused? ==> Explains(rows, foreign, c, d.error)
  {
    var k, g, d := KeyOf(c), GivenBy(c), Decide(rows, foreign, c);
    if d.Refused? {
      var u := SemverKey(c.data.collectionId, c.data.semver);
      VersionRefusals(rows, foreign, c);
      HolderFacts(rows, u, CollectionVersion);
      WantedAt(rows, k, g, CollectionId);
      WantedAt(rows, k, g, Semver);
      assert ShowsKey(Wanted(rows, k, g), CollectionVersion, u);
      if d.error.DuplicateKey? && d.error.holder != k.id { HolderHolds(rows, k, u, d.error.holder, Wanted(rows, k, g)); }
    }
  }

  lemma CollectionVariableRefusals(rows: Tables, foreign: set<Key>, c: Command)
    requires KindsMatch(rows) && c.SyncPutCollectionVariable? && DecideSyncPutCollectionVariable(rows, foreign, c).Refused?
    requires KeyOf(c) in rows || (c.container.Given? && c.newKey.Given?)
    ensures var k := KeyOf(c);
      var container := if k in rows then c.container.Or(rows[k].body.collectionId) else c.container.value;
      var name := if k in rows then c.newKey.Or(rows[k].body.key) else c.newKey.value;
      match DecideSyncPutCollectionVariable(rows, foreign, c).error
      case NotFound => Key(Collection, container) !in rows
      case InvalidRequest => k in rows && container != rows[k].body.collectionId
      case DuplicateKey(id) => id in Holders(rows, CollectionKey(container, name)) && id != c.id
      case UniqueViolation => k !in rows && k in foreign
      case _ => false
  {}

  lemma CollectionVariableWanted(rows: Tables, c: Command)
    requires KindsMatch(rows) && c.SyncPutCollectionVariable? && (KeyOf(c) in rows || (c.container.Given? && c.newKey.Given?))
    ensures var k, p := KeyOf(c), Wanted(rows, KeyOf(c), GivenBy(c));
      && CollectionId in p && p[CollectionId] == Text(if k in rows then c.container.Or(rows[k].body.collectionId) else c.container.value)
      && VariableKey in p && p[VariableKey] == Text(if k in rows then c.newKey.Or(rows[k].body.key) else c.newKey.value)
  {
    WantedAt(rows, KeyOf(c), GivenBy(c), CollectionId);
    WantedAt(rows, KeyOf(c), GivenBy(c), VariableKey);
  }

  lemma CollectionVariableReasons(rows: Tables, foreign: set<Key>, c: Command)
    requires WellFormed(rows) && c.SyncPutCollectionVariable?
    ensures var d := Decide(rows, foreign, c); d.Refused? ==> Explains(rows, foreign, c, d.error)
  {
    var k, d := KeyOf(c), Decide(rows, foreign, c);
    if k !in rows && (c.container.Absent? || c.newKey.Absent?) {
      assert !Gives(GivenBy(c), if c.container.Absent? then CollectionId else VariableKey);
    } else if d.Refused? {
      CollectionVariableRefusals(rows, foreign, c);
      CollectionVariableIs(rows, c, d.error);
    }
  }

  /** What is wrong with a collection variable, told on the payload wanted. */
  lemma CollectionVariableIs(rows: Tables, c: Command, e: Error)
    requires WellFormed(rows) && c.SyncPutCollectionVariable? && (KeyOf(c) in rows || (c.container.Given? && c.newKey.Given?))
    ensures var k, p := KeyOf(c), Wanted(rows, KeyOf(c), GivenBy(c));
      var container := if k in rows then c.container.Or(rows[k].body.collectionId) else c.container.value;
      var name := if k in rows then c.newKey.Or(rows[k].body.key) else c.newKey.value;
      && (Key(Collection, container) !in rows ==> Missing(rows, p))
      && (k in rows && container != rows[k].body.collectionId ==> !ContainerKept(rows, k, p))
      && (e.DuplicateKey? && e.holder in Holders(rows, CollectionKey(container, name)) && e.holder != c.id ==>
            Holds(rows, Key(CollectionVariable, e.holder), k, p))
  {
    var k, p := KeyOf(c), Wanted(rows, KeyOf(c), GivenBy(c));
    CollectionVariableWanted(rows, c);
    var u := CollectionKey(p[CollectionId].text, p[VariableKey].text);
    assert Key(Collection, p[CollectionId].text) in PayloadContainer(p);
    if e.DuplicateKey? && e.holder in Holders(rows, u) && e.holder != c.id { HolderHolds(rows, k, u, e.holder, p); }
  }

  lemma GlobalRefusals(rows: Tables, foreign: set<Key>, c: Command)
    requires WellFormed(rows) && c.SyncPutGlobalVariable? && DecideSyncPutGlobalVariable(rows, foreign, c).Refused?
    requires KeyOf(c) in rows || c.newKey.Given?
    ensures var k := KeyOf(c);
      var name := if k in rows then c.newKey.Or(rows[k].body.key) else c.newKey.value;
      match DecideSyncPutGlobalVariable(rows, foreign, c).error
      case InvalidRequest => SecretSent(rows, k, GivenBy(c))
      case DuplicateKey(id) => id in Holders(rows, GlobalKey(name)) && id != c.id
      case UniqueViolation => k !in rows && k in foreign
      case _ => false
  {
    GlobalSecretSent(rows, c);
  }

  lemma GlobalReasons(rows: Tables, foreign: set<Key>, c: Command)
    requires WellFormed(rows) && c.SyncPutGlobalVariable?
    ensures var d := Decide(rows, foreign, c); d.Refused? ==> Explains(rows, foreign, c, d.error)
  {
    var d := Decide(rows, foreign, c);
    if KeyOf(c) !in rows && c.newKey.Absent? {
      assert !Gives(GivenBy(c), VariableKey);
    } else if d.Refused? {
      GlobalRefusals(rows, foreign, c);
      if d.error.DuplicateKey? { GlobalIsHeld(rows, c, d.error.holder); }
    }
  }

  lemma GlobalIsHeld(rows: Tables, c: Command, id: Id)
    requires WellFormed(rows) && c.SyncPutGlobalVariable? && (KeyOf(c) in rows || c.newKey.Given?) && id != c.id
    requires id in Holders(rows, GlobalKey(if KeyOf(c) in rows then c.newKey.Or(rows[KeyOf(c)].body.key) else c.newKey.value))
    ensures Holds(rows, Key(GlobalVariable, id), KeyOf(c), Wanted(rows, KeyOf(c), GivenBy(c)))
  {
    var k, g := KeyOf(c), GivenBy(c);
    WantedAt(rows, k, g, VariableKey);
    HolderHolds(rows, k, GlobalKey(if k in rows then c.newKey.Or(rows[k].body.key) else c.newKey.value), id, Wanted(rows, k, g));
  }

  /** Every reason a write by id is refused for is true of it. */
  lemma ReasonsAreTrue(rows: Tables, foreign: set<Key>, c: Command)
    requires WellFormed(rows) && WritesById(c)
    ensures var d := Decide(rows, foreign, c); d.Refused? ==> Explains(rows, foreign, c, d.error)
  {
    match c
    case CreateFolder(_, _, _, _, _, _) => FolderCreateReasons(rows, foreign, c);
    case UpdateFolder(_, _, _, _, _, _) => FolderUpdateReasons(rows, foreign, c);
    case CreateRequest(_, _, _, _, _, _, _, _) => RequestCreateReasons(rows, foreign, c);
    case UpdateRequest(_, _, _, _, _, _, _, _, _) => RequestUpdateReasons(rows, foreign, c);
    case SyncPutVariable(_, _, _, _, _) => VariableReasons(rows, foreign, c);
    case CreateCollectionVersion(_, _) => VersionReasons(rows, foreign, c);
    case SyncPutCollectionVariable(_, _, _, _, _, _, _) => CollectionVariableReasons(rows, foreign, c);
    case SyncPutGlobalVariable(_, _, _, _, _, _, _) => GlobalReasons(rows, foreign, c);
    case _ => CollectionReasons(rows, foreign, c);
  }

  // ---------------------------------------------------------------- pushed operations

  /** The reason is true of the pushed operation and the rows it finds. */
  ghost predicate Tells(rows: Tables, foreign: set<Key>, op: Incoming, e: Error) {
    var k, g := op.key, FieldsOf(op.input);
    match e
    case VersionMismatch(n) => k in rows && n == rows[k].version && op.base != n && (k.kind == CollectionVersion ==> op.change.Deletion?)
    case Gone => op.change.Upsert? && k !in rows && op.base > 0
    case IdInUse => op.change.Upsert? && k !in rows && op.base == 0 && k in foreign
    case Immutable(n) => op.change.Upsert? && k.kind == CollectionVersion && k in rows && n == rows[k].version
        && op.input.VersionInput? && !Identical(rows, op)
    case Diverged => op.change.Deletion? && Circular(rows, k)
    case NotFound => if op.change.Deletion? then k !in rows else Missing(rows, Wanted(rows, k, g))
    case InvalidRequest => op.change.Upsert? && (Misplaced(rows, k, g) || SecretSent(rows, k, g))
    case Malformed => op.change.Upsert? && (!Reads(k.kind, op.input) || Incomplete(rows, k, g))
    case DuplicateKey(id) => op.change.Upsert? && Holds(rows, Key(k.kind, id), k, Wanted(rows, k, g))
    case UniqueViolation => false
  }

  lemma UpdateStopsForReason(rows: Tables, op: Incoming)
    requires KindsMatch(rows) && op.key in rows && op.key.kind != CollectionVersion
    requires Apply.TranslateUpdate(rows[op.key], op).Stop?
    ensures var d := Apply.TranslateUpdate(rows[op.key], op).decision;
      if Reads(op.key.kind, op.input) then d == Refused(InvalidRequest) && Misplaced(rows, op.key, FieldsOf(op.input)) else d == Refused(Malformed)
  {
    if Reads(op.key.kind, op.input) { FolderLeaves(rows, op); }
  }

  lemma CreateStopsForReason(rows: Tables, foreign: set<Key>, op: Incoming)
    requires op.key !in rows && op.key.kind != CollectionVersion && Apply.TranslateCreate(foreign, op).Stop?
    ensures var d := Apply.TranslateCreate(foreign, op).decision;
      || (d == Refused(IdInUse) && op.key in foreign)
      || (d == Refused(Malformed) && (!Reads(op.key.kind, op.input) || Incomplete(rows, op.key, FieldsOf(op.input))))
  {
    CreateStops(rows, foreign, op);
  }

  lemma StoppedForReason(rows: Tables, foreign: set<Key>, op: Incoming)
    requires WellFormed(rows) && op.change.Upsert?
    ensures match Apply.Translate(rows, foreign, op)
      case Stop(Refused(e)) => Tells(rows, foreign, op, e)
      case Stop(_) => true
      case Run(c) => op.key in rows || op.key !in foreign
  {
    var k, t := op.key, Apply.Translate(rows, foreign, op);
    assert k == Key(k.kind, k.id);
    if k.kind == CollectionVersion {
      VersionTurnsInto(rows, foreign, op);
    } else if BaseFits(rows, op) {
      if k in rows {
        if t.Stop? { UpdateStopsForReason(rows, op); }
      } else if t.Stop? {
        CreateStopsForReason(rows, foreign, op);
      } else {
        CreateRuns(rows, foreign, op);
      }
    }
  }

  lemma SameReason(rows: Tables, foreign: set<Key>, op: Incoming, c: Command, e: Error)
    requires WellFormed(rows) && op.change.Upsert? && (op.key in rows || op.key !in foreign)
    requires AsksTheSame(rows, c, op.key, FieldsOf(op.input)) && Explains(rows, foreign, c, e)
    ensures Tells(rows, foreign, op, e)
  {}

  /** Every reason a pushed operation is rejected for is true of it. */
  lemma RejectionsAreTrue(db: Database, seen: nat, foreign: set<Key>, op: Incoming)
    requires Consistent(db) && op.workspaceMatches && !Logged(db.log, op.operation)
    ensures var v := PushOne(db, seen, foreign, op).1; v.Rejected? ==> Tells(db.rows, foreign, op, v.error)
  {
    PushDecides(db, seen, foreign, op);
    if op.change.Deletion? {
      PushedDeleteIsRight(db, seen, foreign, op);
    } else {
      StoppedForReason(db.rows, foreign, op);
      UpsertTurnsInto(db.rows, foreign, op);
      var t := Apply.Translate(db.rows, foreign, op);
      if t.Run? && Decide(db.rows, foreign, t.command).Refused? {
        ReasonsAreTrue(db.rows, foreign, t.command);
        SameReason(db.rows, foreign, op, t.command, Decide(db.rows, foreign, t.command).error);
      }
    }
  }

  /**
   * A stale base is answered with the stored version, an edit of something deleted with gone, and a change of a collection
   * version with immutable, each exactly when it is so and whatever else is wrong.
   */
  lemma GateAnswersExactly(db: Database, seen: nat, foreign: set<Key>, op: Incoming, n: nat)
    requires Consistent(db) && op.workspaceMatches && !Logged(db.log, op.operation)
    ensures PushOne(db, seen, foreign, op).1 == Rejected(op.operation, VersionMismatch(n)) <==>
      op.key in db.rows && n == db.rows[op.key].version && op.base != n && (op.key.kind == CollectionVersion ==> op.change.Deletion?)
    ensures (op.key.kind == CollectionVersion ==> op.change.Deletion? || op.input.VersionInput?) ==>
      (PushOne(db, seen, foreign, op).1 == Rejected(op.operation, Gone) <==> op.change.Upsert? && op.key !in db.rows && op.base > 0)
    ensures PushOne(db, seen, foreign, op).1 == Rejected(op.operation, Immutable(n)) <==>
      && op.change.Upsert? && op.key.kind == CollectionVersion && op.key in db.rows && n == db.rows[op.key].version
      && op.input.VersionInput? && !Identical(db.rows, op)
  {
    PushDecides(db, seen, foreign, op);
    RejectionsAreTrue(db, seen, foreign, op);
    assert op.key == Key(op.key.kind, op.key.id);
    if op.change.Upsert? { PushedWriteIsRight(db, seen, foreign, op); }
  }

  /** A new row under an id that another workspace holds is answered so, if its payload can be read. */
  lemma IdInUseExactly(db: Database, seen: nat, foreign: set<Key>, op: Incoming)
    requires Consistent(db) && op.workspaceMatches && !Logged(db.log, op.operation) && Reads(op.key.kind, op.input)
    ensures PushOne(db, seen, foreign, op).1 == Rejected(op.operation, IdInUse) <==>
      op.change.Upsert? && op.key !in db.rows && op.base == 0 && op.key in foreign
  {
    PushDecides(db, seen, foreign, op);
    RejectionsAreTrue(db, seen, foreign, op);
    assert op.key == Key(op.key.kind, op.key.id);
  }

  /** A pushed write that only wants for its unique key is told which row holds it. */
  lemma HolderIsNamed(db: Database, seen: nat, foreign: set<Key>, op: Incoming)
    requires Consistent(db) && op.workspaceMatches && !Logged(db.log, op.operation) && op.change.Upsert?
    requires var k, g := op.key, FieldsOf(op.input);
      && Reads(k.kind, op.input) && BaseFits(db.rows, op) && !SecretSent(db.rows, k, g) && (k in db.rows ==> k.kind != CollectionVersion)
      && (k !in db.rows ==> k !in foreign && !Incomplete(db.rows, k, g))
      && !Missing(db.rows, Wanted(db.rows, k, g)) && !Misplaced(db.rows, k, g) && !KeyFree(db.rows, k, Wanted(db.rows, k, g))
    ensures var v, k := PushOne(db, seen, foreign, op).1, op.key;
      v.Rejected? && v.error.DuplicateKey? && Holds(db.rows, Key(k.kind, v.error.holder), k, Wanted(db.rows, k, FieldsOf(op.input)))
  {
    PushedWriteIsRight(db, seen, foreign, op);
    RejectionsAreTrue(db, seen, foreign, op);
  }

  /** After a version mismatch, the same edit pushed from the version it was told goes through exactly when it is welcome. */
  lemma MergeGoesThrough(db: Database, seen: nat, foreign: set<Key>, op: Incoming, n: nat, again: Incoming, seen': nat)
    requires Consistent(db) && op.workspaceMatches && !Logged(db.log, op.operation) && op.change.Upsert?
    requires PushOne(db, seen, foreign, op).1 == Rejected(op.operation, VersionMismatch(n))
    requires again.(operation := op.operation, input := op.input) == op.(base := n) && !Logged(db.log, again.operation)
    ensures var (next, v), g := PushOne(PushOne(db, seen, foreign, op).0, seen', foreign, again), FieldsOf(again.input);
      if Reads(op.key.kind, again.input) && Welcome(db.rows, foreign, op.key, g) && !SecretSent(db.rows, op.key, g)
      then v == Accepted(again.operation, op.key.id, n + 1) && Wrote(db, next, op.key, g, None, ContextOf(again))
      else v.Rejected? && next == db
  {
    GateAnswersExactly(db, seen, foreign, op, n);
    PushDecides(db, seen, foreign, op);
    PushedWriteIsRight(db, seen', foreign, again);
  }

  /** The tables let the operation through: it would write or remove its row. */
  ghost predicate GoesThrough(rows: Tables, foreign: set<Key>, op: Incoming) {
    if op.change.Upsert? then PushAccepts(rows, foreign, op)
    else op.key in rows && op.base == rows[op.key].version && !Circular(rows, op.key)
  }

  /** The answer is the acceptance that an entry of the log records. */
  predicate OfEntry(log: seq<Entry>, operation: string, v: Verdict) {
    exists i :: 0 <= i < |log| && log[i].operation == Some(operation) && v == Accepted(operation, log[i].key.id, log[i].version)
  }

  /**
   * Nothing but a new operation of this workspace changes anything: one that the lookup finds in the log is answered by its
   * entry, one of another workspace as invalid, and one logged since the lookup by its entry if the tables let it through.
   */
  lemma OthersChangeNothing(db: Database, seen: nat, foreign: set<Key>, op: Incoming)
    requires Consistent(db) && (Logged(db.log, op.operation) || !op.workspaceMatches)
    ensures PushOne(db, seen, foreign, op).0 == db && PushOne(db, seen, foreign, op).1.operation == op.operation
    ensures var v := PushOne(db, seen, foreign, op).1;
      if Logged(Seen(db.log, seen), op.operation) then OfEntry(db.log, op.operation, v)
      else if !op.workspaceMatches then v == Rejected(op.operation, InvalidRequest)
      else GoesThrough(db.rows, foreign, op) ==> OfEntry(db.log, op.operation, v)
  {
    if Logged(db.log, op.operation) { LoggedPushIsNoOp(db, seen, foreign, op); }
    if Logged(Seen(db.log, seen), op.operation) {
      RecordedStays(Seen(db.log, seen), db.log, op.operation);
    } else if op.workspaceMatches && GoesThrough(db.rows, foreign, op) {
      ThroughIsDecided(db.rows, foreign, op);
    }
  }

  lemma ThroughIsDecided(rows: Tables, foreign: set<Key>, op: Incoming)
    requires WellFormed(rows) && GoesThrough(rows, foreign, op)
    ensures var d := Apply.DecideOperation(rows, foreign, op); d.Write? || d.Erase?
  {
    if op.change.Upsert? {
      PushedWriteDecides(rows, foreign, op);
    } else {
      PushedDeleteTargets(rows, foreign, op);
      DeleteDecides(rows, foreign, Apply.Translate(rows, foreign, op).command, op.key);
    }
  }
}
