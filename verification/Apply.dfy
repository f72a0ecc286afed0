/** One pushed operation: the optimistic-concurrency gate and the mutation it turns into. */
module Apply {
  import opened Prelude
  import opened Rows
  import opened Content
  import opened Integrity
  import opened Journal

  /** A pushed payload after shape validation; `Unreadable` when validation refused it. */
  datatype Input =
    | Unreadable
    | CollectionInput(newName: Patch<string>, extras: ExtrasPatch)
    | FolderInput(container: Patch<Id>, parent: Patch<Option<Id>>, newName: Patch<string>, order: Patch<nat>,
        extras: ExtrasPatch)
    | RequestInput(container: Patch<Id>, folder: Patch<Option<Id>>, newName: Patch<string>, newVerb: Patch<string>,
        newUrl: Patch<string>, newDocument: Patch<string>, order: Patch<nat>)
    | EnvironmentInput(newName: Patch<string>)
    | VariableInput(environmentId: Id, key: string, sent: Option<string>, isSecret: bool)
    | VersionInput(data: VersionData)
    | CollectionVariableInput(container: Patch<Id>, newKey: Patch<string>, newValue: Patch<string>, enabled: Patch<bool>,
        note: Patch<Option<string>>, order: Patch<nat>)
    | GlobalInput(newKey: Patch<string>, plain: Patch<Option<string>>, secret: Patch<bool>, enabled: Patch<bool>,
        note: Patch<Option<string>>, order: Patch<nat>)

  datatype Incoming = Incoming(operation: string, client: string, key: Key, change: Change, base: nat, input: Input,
    workspaceMatches: bool)

  /** What an operation turns into: a mutation to decide, or a decision already made. */
  datatype Translation = Run(command: Command) | Stop(decision: Decision)

  function BaseError(cur: Option<Versioned>, op: Incoming): Option<Error> {
    if cur.Some? then
      if op.base != cur.value.version then Some(VersionMismatch(cur.value.version)) else None
    else if op.change.Upsert? && op.base > 0 then Some(Gone)
    else None
  }

  function DeleteCommand(cur: Versioned, key: Key): Command
    requires KindOf(cur.body) == key.kind
  {
    match key.kind
    case Collection => DeleteCollection(key.id, None)
    case Folder => DeleteFolder(key.id, None)
    case Request => DeleteRequest(key.id, None)
    case Environment => DeleteEnvironment(key.id, None)
    case EnvironmentVariable => DeleteVariable(cur.body.environmentId, cur.body.key, None)
    case CollectionVersion => DeleteCollectionVersion(key.id, None)
    case CollectionVariable => DeleteCollectionVariable(key.id, None)
    case GlobalVariable => DeleteGlobalVariable(key.id, None)
  }

  function SameVersion(b: Body, d: VersionData): bool
    requires b.CollectionVersionRow?
  {
    b.collectionId == d.collectionId && b.semver == d.semver && b.notes == d.notes && b.snapshot == d.snapshot
    && b.folderCount == d.folderCount && b.requestCount == d.requestCount
  }

  /** Collection versions are immutable: an identical re-send succeeds without a change, anything else is refused. */
  function TranslateVersion(cur: Option<Versioned>, foreign: set<Key>, op: Incoming): Translation
    requires cur.Some? ==> KindOf(cur.value.body) == CollectionVersion
  {
    if !op.input.VersionInput? then Stop(Refused(Malformed))
    else if cur.Some? then
      if SameVersion(cur.value.body, op.input.data) then Stop(Already(cur.value.version))
      else Stop(Refused(Immutable(cur.value.version)))
    else if op.base > 0 then Stop(Refused(Gone))
    else if op.key in foreign then Stop(Refused(IdInUse))
    else Run(CreateCollectionVersion(op.key.id, op.input.data))
  }

  function TranslateUpdate(cur: Versioned, op: Incoming): Translation
    requires KindOf(cur.body) == op.key.kind
  {
    var id, i := op.key.id, op.input;
    match op.key.kind
    case Collection =>
      if !i.CollectionInput? then Stop(Refused(Malformed))
      else Run(UpdateCollection(id, i.newName, i.extras, cur.version))
    case Folder =>
      if !i.FolderInput? then Stop(Refused(Malformed))
      else if i.container.Or(cur.body.collectionId) != cur.body.collectionId then Stop(Refused(InvalidRequest))
      else Run(UpdateFolder(id, i.parent, i.newName, i.order, i.extras, cur.version))
    case Request =>
      if !i.RequestInput? then Stop(Refused(Malformed))
      else Run(UpdateRequest(id, i.container, i.folder, i.newName, i.newVerb, i.newUrl, i.newDocument, i.order,
          cur.version))
    case Environment =>
      if !i.EnvironmentInput? then Stop(Refused(Malformed)) else Run(UpdateEnvironment(id, i.newName, cur.version))
    case EnvironmentVariable =>
      if !i.VariableInput? then Stop(Refused(Malformed))
      else Run(SyncPutVariable(id, i.environmentId, i.key, i.sent, i.isSecret))
    case CollectionVersion => Stop(Refused(Immutable(cur.version)))
    case CollectionVariable =>
      if !i.CollectionVariableInput? then Stop(Refused(Malformed))
      else Run(SyncPutCollectionVariable(id, i.container, i.newKey, i.newValue, i.enabled, i.note, i.order))
    case GlobalVariable =>
      if !i.GlobalInput? then Stop(Refused(Malformed))
      else Run(SyncPutGlobalVariable(id, i.newKey, i.plain, i.secret, i.enabled, i.note, i.order))
  }

  function TranslateCreate(foreign: set<Key>, op: Incoming): Translation {
    var id, i, taken := op.key.id, op.input, op.key in foreign;
    match op.key.kind
    case Collection =>
      if taken then Stop(Refused(IdInUse))
      else if !i.CollectionInput? || i.newName.Absent? then Stop(Refused(Malformed))
      else Run(CreateCollection(id, i.newName.value, i.extras))
    case Folder =>
      if taken then Stop(Refused(IdInUse))
      else if !i.FolderInput? || i.newName.Absent? || i.container.Absent? then Stop(Refused(Malformed))
      else Run(CreateFolder(id, i.container.value, i.parent, i.newName.value, i.order, i.extras))
    case Request =>
      if taken then Stop(Refused(IdInUse))
      else if !i.RequestInput? || i.newName.Absent? || i.container.Absent? || i.newUrl.Absent? then Stop(Refused(Malformed))
      else Run(CreateRequest(id, i.container.value, i.folder, i.newName.value, i.newVerb.Or("GET"), i.newUrl.value,
        i.newDocument.Or("{}"), i.order))
    case Environment =>
      if taken then Stop(Refused(IdInUse))
      else if !i.EnvironmentInput? || i.newName.Absent? then Stop(Refused(Malformed))
      else Run(CreateEnvironment(id, i.newName.value))
    case EnvironmentVariable =>
      if !i.VariableInput? then Stop(Refused(Malformed))
      else if taken then Stop(Refused(IdInUse))
      else Run(SyncPutVariable(id, i.environmentId, i.key, i.sent, i.isSecret))
    case CollectionVersion => Stop(Refused(Malformed))
    case CollectionVariable =>
      if taken then Stop(Refused(IdInUse))
      else if !i.CollectionVariableInput? then Stop(Refused(Malformed))
      else Run(SyncPutCollectionVariable(id, i.container, i.newKey, i.newValue, i.enabled, i.note, i.order))
    case GlobalVariable =>
      if taken then Stop(Refused(IdInUse))
      else if !i.GlobalInput? then Stop(Refused(Malformed))
      else Run(SyncPutGlobalVariable(id, i.newKey, i.plain, i.secret, i.enabled, i.note, i.order))
  }

  function Translate(rows: Tables, foreign: set<Key>, op: Incoming): Translation {
    var cur := Find(rows, op.key.kind, op.key.id);
    if op.key.kind == CollectionVersion && op.change.Upsert? then TranslateVersion(cur, foreign, op)
    else if BaseError(cur, op).Some? then Stop(Refused(BaseError(cur, op).value))
    else if op.change.Deletion? then
      if cur.None? then Stop(Refused(NotFound)) else Run(DeleteCommand(cur.value, op.key))
    else if cur.Some? then TranslateUpdate(cur.value, op)
    else TranslateCreate(foreign, op)
  }

  function DecideOperation(rows: Tables, foreign: set<Key>, op: Incoming): Decision {
    match Translate(rows, foreign, op)
    case Run(c) => Decide(rows, foreign, c)
    case Stop(d) => d
  }

  function ResultVersion(rows: Tables, d: Decision): nat {
    match d
    case Refused(_) => 0
    case Already(v) => v
    case Write(key, _) => NextVersion(rows, key)
    case Erase(root, _) => if root in rows then rows[root].version else 0
  }

  lemma OperationsFit(rows: Tables, foreign: set<Key>, op: Incoming)
    requires WellFormed(rows)
    ensures Fits(rows, foreign, DecideOperation(rows, foreign, op))
  {
    match Translate(rows, foreign, op)
    case Run(c) => DecisionsFit(rows, foreign, c);
    case Stop(d) =>
  }

  /** The mutation names this resource, by id or (deleting a variable) by its unique key. */
  predicate Names(rows: Tables, c: Command, key: Key) {
    match c
    case CreateCollection(id, _, _) => key == Key(Collection, id)
    case UpdateCollection(id, _, _, _) => key == Key(Collection, id)
    case DeleteCollection(id, _) => key == Key(Collection, id)
    case CreateFolder(id, _, _, _, _, _) => key == Key(Folder, id)
    case UpdateFolder(id, _, _, _, _, _) => key == Key(Folder, id)
    case DeleteFolder(id, _) => key == Key(Folder, id)
    case CreateRequest(id, _, _, _, _, _, _, _) => key == Key(Request, id)
    case UpdateRequest(id, _, _, _, _, _, _, _, _) => key == Key(Request, id)
    case DeleteRequest(id, _) => key == Key(Request, id)
    case CreateEnvironment(id, _) => key == Key(Environment, id)
    case UpdateEnvironment(id, _, _) => key == Key(Environment, id)
    case DeleteEnvironment(id, _) => key == Key(Environment, id)
    case PutVariable(_, _, _, _, _, _) => false
    case DeleteVariable(e, name, _) => key in rows && UniqueOf(rows[key].body) == Some(EnvironmentKey(e, name))
    case SyncPutVariable(id, _, _, _, _) => key == Key(EnvironmentVariable, id)
    case CreateCollectionVersion(id, _) => key == Key(CollectionVersion, id)
    case DeleteCollectionVersion(id, _) => key == Key(CollectionVersion, id)
    case SyncPutCollectionVariable(id, _, _, _, _, _, _) => key == Key(CollectionVariable, id)
    case DeleteCollectionVariable(id, _) => key == Key(CollectionVariable, id)
    case SyncPutGlobalVariable(id, _, _, _, _, _, _) => key == Key(GlobalVariable, id)
    case DeleteGlobalVariable(id, _) => key == Key(GlobalVariable, id)
  }

  predicate ActsOn(d: Decision, key: Key) {
    match d
    case Write(k, _) => k == key
    case Erase(root, _) => root == key
    case _ => true
  }

  lemma ContentDecisionTarget(rows: Tables, foreign: set<Key>, c: Command, key: Key)
    requires KindsMatch(rows) && Names(rows, c, key) && key.kind in {Collection, Folder, Request, Environment}
    ensures ActsOn(Decide(rows, foreign, c), key)
  {}

  lemma VariableDecisionTarget(rows: Tables, foreign: set<Key>, c: Command, key: Key)
    requires WellFormed(rows) && Names(rows, c, key) && key.kind !in {Collection, Folder, Request, Environment}
    ensures ActsOn(Decide(rows, foreign, c), key)
  {
    if c.DeleteVariable? {
      HolderFacts(rows, EnvironmentKey(c.environmentId, c.key), EnvironmentVariable);
      assert forall id :: id in Holders(rows, EnvironmentKey(c.environmentId, c.key)) ==> Key(EnvironmentVariable, id) == key;
    }
  }

  /** A mutation acts on the resource it names and nothing else, apart from the rows a delete takes along. */
  lemma DecisionTarget(rows: Tables, foreign: set<Key>, c: Command, key: Key)
    requires WellFormed(rows) && Names(rows, c, key)
    ensures ActsOn(Decide(rows, foreign, c), key)
  {
    if key.kind in {Collection, Folder, Request, Environment} {
      ContentDecisionTarget(rows, foreign, c, key);
    } else {
      VariableDecisionTarget(rows, foreign, c, key);
    }
  }

  /**
   * No lost update: a pushed operation writes or removes exactly the resource it names, an existing one only when its
   * base version is the version being replaced, and a new one only when it claims to know none.
   */
  lemma NoLostUpdate(rows: Tables, foreign: set<Key>, op: Incoming)
    requires WellFormed(rows)
    ensures match DecideOperation(rows, foreign, op)
      case Write(k, _) => op.change == Upsert && k == op.key && op.base == if k in rows then rows[k].version else 0
      case Erase(root, _) => op.change == Deletion && root == op.key && root in rows && op.base == rows[root].version
      case _ => true
  {
    var cur := Find(rows, op.key.kind, op.key.id);
    assert cur.Some? <==> op.key in rows;
    var t := Translate(rows, foreign, op);
    if t.Run? {
      TranslatedTarget(rows, foreign, op);
      DecisionTarget(rows, foreign, t.command, op.key);
      RunKind(rows, foreign, op);
    }
  }

  /** A stale or missing base version is answered with the server's version, whatever the payload is. */
  lemma StaleBaseRefused(rows: Tables, foreign: set<Key>, op: Incoming)
    requires WellFormed(rows) && op.key in rows && op.base != rows[op.key].version
    requires op.key.kind != CollectionVersion || op.change.Deletion?
    ensures DecideOperation(rows, foreign, op) == Refused(VersionMismatch(rows[op.key].version))
  {}

  /** An edit of something deleted meanwhile is refused, never turned into a new row. */
  lemma EditOfDeletedRefused(rows: Tables, foreign: set<Key>, op: Incoming)
    requires op.key !in rows && op.change.Upsert? && op.base > 0
    requires op.key.kind == CollectionVersion ==> op.input.VersionInput?
    ensures DecideOperation(rows, foreign, op) == Refused(Gone)
  {
    assert Find(rows, op.key.kind, op.key.id) == None;
  }

  predicate Deletes(c: Command) {
    c.DeleteCollection? || c.DeleteFolder? || c.DeleteRequest? || c.DeleteEnvironment? || c.DeleteVariable?
    || c.DeleteCollectionVersion? || c.DeleteCollectionVariable? || c.DeleteGlobalVariable?
  }

  lemma RunKind(rows: Tables, foreign: set<Key>, op: Incoming)
    requires Translate(rows, foreign, op).Run?
    ensures var c := Translate(rows, foreign, op).command;
      (Deletes(c) <==> op.change.Deletion?) && (Decide(rows, foreign, c).Erase? ==> Deletes(c)) && (Decide(rows, foreign, c).Write? ==> !Deletes(c))
  {}

  lemma TranslatedTarget(rows: Tables, foreign: set<Key>, op: Incoming)
    requires WellFormed(rows) && Translate(rows, foreign, op).Run?
    ensures Names(rows, Translate(rows, foreign, op).command, op.key)
  {}
}
