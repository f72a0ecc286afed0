/**
 * What the server sends can be pushed back: reading a wire payload as input and applying it gives the row the payload
 * was made from, less what a payload never carries.
 */
module Echo {
  import opened Prelude
  import opened Rows
  import opened Tree
  import opened Content
  import opened Integrity
  import opened Journal
  import opened Apply

  function TextPatch(p: Payload, f: Field): Patch<string> {
    if f in p && p[f].Text? then Given(p[f].text) else Absent
  }

  /** A field that may be null. */
  function NullablePatch(p: Payload, f: Field): Patch<Option<string>> {
    if f !in p then Absent
    else
      match p[f]
      case Text(t) => Given(Some(t))
      case Null => Given(None)
      case _ => Absent
  }

  function NumberPatch(p: Payload, f: Field): Patch<nat> {
    if f in p && p[f].Number? && p[f].number >= 0 then Given(p[f].number) else Absent
  }

  function FlagPatch(p: Payload, f: Field): Patch<bool> {
    if f in p && p[f].Flag? then Given(p[f].flag) else Absent
  }

  function ExtrasIn(p: Payload): ExtrasPatch {
    ExtrasPatch(NullablePatch(p, ScriptsJson), NullablePatch(p, Description), NullablePatch(p, DescriptionType),
      NullablePatch(p, AuthJson))
  }

  /** A pushed payload as the schemas of its kind read it; the author of a version is the pushing user. */
  function InputOf(kind: Kind, p: Payload, author: Option<Author>): Input {
    match kind
    case Collection => CollectionInput(TextPatch(p, Name), ExtrasIn(p))
    case Folder => FolderInput(TextPatch(p, CollectionId), NullablePatch(p, ParentFolderId), TextPatch(p, Name),
      NumberPatch(p, SortOrder), ExtrasIn(p))
    case Request => RequestInput(TextPatch(p, CollectionId), NullablePatch(p, FolderId), TextPatch(p, Name),
        TextPatch(p, Method),
      TextPatch(p, Url), TextPatch(p, DocumentJson), NumberPatch(p, SortOrder))
    case Environment => EnvironmentInput(TextPatch(p, Name))
    case EnvironmentVariable =>
      if TextPatch(p, EnvironmentId).Absent? || TextPatch(p, VariableKey).Absent? || NullablePatch(p, Value).Absent? then Unreadable
      else VariableInput(TextPatch(p, EnvironmentId).value, TextPatch(p, VariableKey).value, NullablePatch(p,
          Value).value,
        FlagPatch(p, IsSecret).Or(false))
    case CollectionVersion =>
      if TextPatch(p, CollectionId).Absent? || TextPatch(p, Semver).Absent? || TextPatch(p, SnapshotJson).Absent? then Unreadable
      else VersionInput(VersionData(TextPatch(p, CollectionId).value, TextPatch(p, Semver).value, NullablePatch(p,
          Notes).Or(None),
        TextPatch(p, SnapshotJson).value, NumberPatch(p, FolderCount).Or(0), NumberPatch(p, RequestCount).Or(0),
        TextPatch(p, CreatedAt).Or(""), author))
    case CollectionVariable => CollectionVariableInput(TextPatch(p, CollectionId), TextPatch(p, VariableKey),
        TextPatch(p, Value),
      FlagPatch(p, Enabled), NullablePatch(p, Description), NumberPatch(p, SortOrder))
    case GlobalVariable => GlobalInput(TextPatch(p, VariableKey), NullablePatch(p, Value), FlagPatch(p, IsSecret),
      FlagPatch(p, Enabled), NullablePatch(p, Description), NumberPatch(p, SortOrder))
  }

  /** What a payload does not carry: the ciphertext of a secret, and (by rule) the author of a pushed version. */
  function Carried(b: Body, author: Option<Author>): Body {
    match b
    case EnvironmentVariableRow(e, key, stored, isSecret) => EnvironmentVariableRow(e, key,
        if isSecret then Nothing else stored, isSecret)
    case CollectionVersionRow(c, semver, notes, snapshot, folders, requests, at, _) =>
      CollectionVersionRow(c, semver, notes, snapshot, folders, requests, at, author)
    case _ => b
  }

  function Pushing(key: Key, base: nat, p: Payload, author: Option<Author>, operation: string, client: string): Incoming {
    Incoming(operation, client, key, Upsert, base, InputOf(key.kind, p, author), true)
  }

  lemma HoldersOfOwn(rows: Tables, key: Key)
    requires WellFormed(rows) && key in rows && UniqueOf(rows[key].body).Some?
    ensures Holders(rows, UniqueOf(rows[key].body).value) == {key.id}
  {
    var u := UniqueOf(rows[key].body).value;
    HolderFacts(rows, u, key.kind);
    forall id | id in Holders(rows, u) ensures id == key.id {
      assert rows[Key(key.kind, id)].body == rows[Key(key.kind, id)].body;
    }
    assert key.id in Holders(rows, u);
  }

  // ---------------------------------------------------------------- pushing a payload back

  function GivenExtras(x: Extras): ExtrasPatch {
    ExtrasPatch(Given(x.scripts), Given(x.description), Given(x.descriptionType), Given(x.auth))
  }

  /** The mutation that a row's own payload asks for. */
  function EchoCommand(id: Id, v: Versioned): Command
    requires !v.body.CollectionVersionRow?
  {
    match v.body
    case CollectionRow(name, x) => UpdateCollection(id, Given(name), GivenExtras(x), v.version)
    case EnvironmentRow(name) => UpdateEnvironment(id, Given(name), v.version)
    case FolderRow(_, parent, name, order, x) => UpdateFolder(id, Given(parent), Given(name), Given(order),
        GivenExtras(x), v.version)
    case RequestRow(c, f, name, verb, url, document, order) =>
      UpdateRequest(id, Given(c), Given(f), Given(name), Given(verb), Given(url), Given(document), Given(order),
          v.version)
    case EnvironmentVariableRow(e, key, stored, isSecret) =>
      SyncPutVariable(id, e, key, if isSecret || !stored.Plain? then None else Some(stored.text), isSecret)
    case CollectionVariableRow(c, key, value, enabled, note, order) =>
      SyncPutCollectionVariable(id, Given(c), Given(key), Given(value), Given(enabled), Given(note), Given(order))
    case GlobalVariableRow(key, plain, isSecret, enabled, note, order) =>
      SyncPutGlobalVariable(id, Given(key), Given(if isSecret then None else Some(if plain.Some? then plain.value else "")),
        Given(isSecret), Given(enabled), Given(note), Given(order))
  }

  /** The command an input turns into for an existing row. */
  lemma ReadsBackPlainKinds(id: Id, v: Versioned, author: Option<Author>, op: Incoming)
    requires v.body.CollectionRow? || v.body.EnvironmentRow? || v.body.FolderRow? || v.body.RequestRow?
    requires op == Pushing(Key(KindOf(v.body), id), v.version, SyncPayload(v.body), author, op.operation, op.client)
    ensures TranslateUpdate(v, op) == Run(EchoCommand(id, v))
  {}

  lemma ReadsBackVariables(id: Id, v: Versioned, author: Option<Author>, op: Incoming)
    requires v.body.EnvironmentVariableRow? || v.body.CollectionVariableRow? || v.body.GlobalVariableRow?
    requires SecretStored(v.body)
    requires op == Pushing(Key(KindOf(v.body), id), v.version, SyncPayload(v.body), author, op.operation, op.client)
    ensures TranslateUpdate(v, op) == Run(EchoCommand(id, v))
  {}

  // ---------------------------------------------------------------- pushing a payload back

  /** In a forest the walk from a folder's own parent never comes by the folder. */
  lemma OwnParentNotMet(p: Parents, id: Id, parent: Id)
    requires Forest(p) && id in p && p[id] == Some(parent)
    ensures parent in p && parent != id && !WalkMeets(p, p[parent], id, WALK_LIMIT)
  {
    var d := Depths(p);
    assert LabelAt(p, d, id);
    WalkMeetsExactly(p, p[parent], id, WALK_LIMIT);
    forall n: nat ensures !Meets(p, p[parent], id, n) {
      UpDepth(p, d, parent, n + 1);
      assert Up(p, Some(parent), n + 1) == Up(p, p[parent], n);
    }
  }

  lemma FolderRowOf(b: Body)
    ensures KindOf(b) == Folder <==> b.FolderRow?
  {}

  lemma OwnParentAccepted(rows: Tables, id: Id, b: Body)
    requires WellFormed(rows) && Forest(ParentsOf(rows))
    requires Key(Folder, id) in rows && rows[Key(Folder, id)].body == b && b.FolderRow?
    ensures ParentError(rows, b.collectionId, b.parent, Some(id)) == None
  {
    if b.parent.Some? {
      ParentsFacts(rows);
      KeptFolderFits(rows, Key(Folder, id));
      OwnParentNotMet(ParentsOf(rows), id, b.parent.value);
    }
  }

  lemma FolderEchoes(rows: Tables, foreign: set<Key>, id: Id, v: Versioned)
    requires Find(rows, Folder, id) == Some(v) && v.body.FolderRow?
    requires ParentError(rows, v.body.collectionId, v.body.parent, Some(id)) == None
    ensures Decide(rows, foreign, EchoCommand(id, v)) == Write(Key(Folder, id), v.body)
  {}

  lemma RequestEchoes(rows: Tables, key: Key)
    requires WellFormed(rows) && key in rows && key.kind == Request
    ensures DecideUpdateRequest(rows, EchoCommand(key.id, rows[key])) == Write(key, rows[key].body)
  {
    if InFolder(rows[key].body).Some? { KeptFolderFits(rows, key); }
  }

  lemma EnvironmentVariableEchoes(rows: Tables, foreign: set<Key>, key: Key)
    requires WellFormed(rows) && key in rows && key.kind == EnvironmentVariable
    ensures DecideSyncPutVariable(rows, foreign, EchoCommand(key.id, rows[key])) == Write(key, rows[key].body)
  {
    var b := rows[key].body;
    HoldersOfOwn(rows, key);
    assert Holders(rows, EnvironmentKey(b.environmentId, b.key)) - {key.id} == {};
    assert Key(Environment, b.environmentId) in Refs(b) && SecretStored(b);
  }

  lemma CollectionVariableEchoes(rows: Tables, foreign: set<Key>, key: Key)
    requires WellFormed(rows) && key in rows && key.kind == CollectionVariable
    ensures DecideSyncPutCollectionVariable(rows, foreign, EchoCommand(key.id, rows[key])) == Write(key, rows[key].body)
  {
    var b := rows[key].body;
    HoldersOfOwn(rows, key);
    assert Holders(rows, CollectionKey(b.collectionId, b.key)) - {key.id} == {};
    assert Key(Collection, b.collectionId) in Refs(b);
  }

  lemma GlobalVariableEchoes(rows: Tables, foreign: set<Key>, key: Key)
    requires WellFormed(rows) && key in rows && key.kind == GlobalVariable
    ensures DecideSyncPutGlobalVariable(rows, foreign, EchoCommand(key.id, rows[key])) == Write(key, rows[key].body)
  {
    HoldersOfOwn(rows, key);
    assert Holders(rows, GlobalKey(rows[key].body.key)) - {key.id} == {};
    assert SecretStored(rows[key].body);
  }

  lemma ContainerEchoes(rows: Tables, foreign: set<Key>, key: Key)
    requires Has(rows, key) && (key.kind == Collection || key.kind == Environment)
    ensures Decide(rows, foreign, EchoCommand(key.id, rows[key])) == Write(key, rows[key].body)
  {}

  lemma ContentEchoes(rows: Tables, foreign: set<Key>, key: Key)
    requires WellFormed(rows) && key in rows && key.kind in {Collection, Environment, Folder, Request}
    requires key.kind == Folder ==> Forest(ParentsOf(rows))
    ensures Decide(rows, foreign, EchoCommand(key.id, rows[key])) == Write(key, rows[key].body)
  {
    if key.kind == Folder {
      FolderRowOf(rows[key].body);
      OwnParentAccepted(rows, key.id, rows[key].body);
      FolderEchoes(rows, foreign, key.id, rows[key]);
    } else if key.kind == Request {
      RequestEchoes(rows, key);
    } else {
      ContainerEchoes(rows, foreign, key);
    }
  }

  lemma VariableEchoes(rows: Tables, foreign: set<Key>, key: Key)
    requires WellFormed(rows) && key in rows && key.kind in {EnvironmentVariable, CollectionVariable, GlobalVariable}
    ensures Decide(rows, foreign, EchoCommand(key.id, rows[key])) == Write(key, rows[key].body)
  {
    if key.kind == EnvironmentVariable {
      EnvironmentVariableEchoes(rows, foreign, key);
    } else if key.kind == CollectionVariable {
      CollectionVariableEchoes(rows, foreign, key);
    } else {
      GlobalVariableEchoes(rows, foreign, key);
    }
  }

  /** An update of a row from the version it has is that row's update, whatever the kind. */
  lemma EchoTranslates(rows: Tables, foreign: set<Key>, key: Key, v: Versioned, author: Option<Author>, op: Incoming)
    requires Find(rows, key.kind, key.id) == Some(v) && key.kind != CollectionVersion && SecretStored(v.body)
    requires op == Pushing(key, v.version, SyncPayload(v.body), author, op.operation, op.client)
    ensures Translate(rows, foreign, op) == Run(EchoCommand(key.id, v))
  {
    if v.body.CollectionRow? || v.body.EnvironmentRow? || v.body.FolderRow? || v.body.RequestRow? {
      ReadsBackPlainKinds(key.id, v, author, op);
    } else {
      ReadsBackVariables(key.id, v, author, op);
    }
  }

  lemma VersionResent(rows: Tables, foreign: set<Key>, key: Key, v: Versioned, author: Option<Author>, op: Incoming)
    requires Find(rows, key.kind, key.id) == Some(v) && key.kind == CollectionVersion
    requires op == Pushing(key, v.version, SyncPayload(v.body), author, op.operation, op.client)
    ensures DecideOperation(rows, foreign, op) == Already(v.version)
  {}

  /**
   * Pushing the payload the server sent, with its version, writes the very row it was made from, ciphertext included;
   * an immutable collection version accepts it without a write.
   */
  lemma EchoKeepsRow(rows: Tables, foreign: set<Key>, key: Key, author: Option<Author>, operation: string, client: string)
    requires WellFormed(rows) && key in rows && (key.kind == Folder ==> Forest(ParentsOf(rows)))
    ensures DecideOperation(rows, foreign, Pushing(key, rows[key].version, SyncPayload(rows[key].body), author, operation, client))
      == if key.kind == CollectionVersion then Already(rows[key].version) else Write(key, rows[key].body)
  {
    var v := rows[key];
    var op := Pushing(key, v.version, SyncPayload(v.body), author, operation, client);
    assert SecretStored(v.body);
    if key.kind == CollectionVersion {
      VersionResent(rows, foreign, key, v, author, op);
    } else {
      EchoTranslates(rows, foreign, key, v, author, op);
      if key.kind in {Collection, Environment, Folder, Request} { ContentEchoes(rows, foreign,
          key); } else { VariableEchoes(rows, foreign, key); }
    }
  }

  // ---------------------------------------------------------------- leaving fields out

  /** The update of a row that gives none of its fields. */
  function EmptyUpdate(id: Id, v: Versioned): Command
    requires !v.body.CollectionVersionRow? && !v.body.EnvironmentVariableRow?
  {
    match v.body
    case CollectionRow(_, _) => UpdateCollection(id, Absent, UNCHANGED, v.version)
    case EnvironmentRow(_) => UpdateEnvironment(id, Absent, v.version)
    case FolderRow(_, _, _, _, _) => UpdateFolder(id, Absent, Absent, Absent, UNCHANGED, v.version)
    case RequestRow(_, _, _, _, _, _, _) => UpdateRequest(id, Absent, Absent, Absent, Absent, Absent, Absent, Absent,
        v.version)
    case CollectionVariableRow(_, _, _, _, _, _) => SyncPutCollectionVariable(id, Absent, Absent, Absent, Absent,
        Absent, Absent)
    case GlobalVariableRow(_, _, _, _, _, _) => SyncPutGlobalVariable(id, Absent, Absent, Absent, Absent, Absent, Absent)
  }

  lemma AbsentKeepsContent(rows: Tables, foreign: set<Key>, key: Key, v: Versioned)
    requires Find(rows, key.kind, key.id) == Some(v) && key.kind in {Collection, Environment, Folder, Request}
    ensures Decide(rows, foreign, EmptyUpdate(key.id, v)) == Write(key, v.body)
  {}

  lemma AbsentKeepsCollectionVariable(rows: Tables, foreign: set<Key>, key: Key)
    requires WellFormed(rows) && key in rows && key.kind == CollectionVariable
    ensures DecideSyncPutCollectionVariable(rows, foreign, EmptyUpdate(key.id, rows[key])) == Write(key, rows[key].body)
  {
    HoldersOfOwn(rows, key);
    var b := rows[key].body;
    assert Holders(rows, CollectionKey(b.collectionId, b.key)) - {key.id} == {};
    assert Key(Collection, b.collectionId) in Refs(b);
  }

  lemma AbsentKeepsGlobal(rows: Tables, foreign: set<Key>, key: Key)
    requires WellFormed(rows) && key in rows && key.kind == GlobalVariable
    ensures DecideSyncPutGlobalVariable(rows, foreign, EmptyUpdate(key.id, rows[key])) == Write(key, rows[key].body)
  {
    HoldersOfOwn(rows, key);
    assert Holders(rows, GlobalKey(rows[key].body.key)) - {key.id} == {};
    assert SecretStored(rows[key].body);
  }

  /** A field left out is unchanged: an update that gives nothing writes the same row. */
  lemma AbsentKeepsRow(rows: Tables, foreign: set<Key>, key: Key)
    requires WellFormed(rows) && key in rows && key.kind != CollectionVersion && key.kind != EnvironmentVariable
    ensures Decide(rows, foreign, EmptyUpdate(key.id, rows[key])) == Write(key, rows[key].body)
  {
    if key.kind in {Collection, Environment, Folder, Request} {
      AbsentKeepsContent(rows, foreign, key, rows[key]);
    } else if key.kind == CollectionVariable {
      AbsentKeepsCollectionVariable(rows, foreign, key);
    } else {
      AbsentKeepsGlobal(rows, foreign, key);
    }
  }

  // ---------------------------------------------------------------- pushing a deleted row again

  /** The mutation that a row's payload asks for where the row is not there. */
  function CreateCommand(id: Id, b: Body, author: Option<Author>): Command {
    match b
    case CollectionRow(name, x) => CreateCollection(id, name, GivenExtras(x))
    case EnvironmentRow(name) => CreateEnvironment(id, name)
    case FolderRow(c, parent, name, order, x) => CreateFolder(id, c, Given(parent), name, Given(order), GivenExtras(x))
    case RequestRow(c, f, name, verb, url, document, order) => CreateRequest(id, c, Given(f), name, verb, url,
        document, Given(order))
    case CollectionVersionRow(c, semver, notes, snapshot, folders, requests, at, _) =>
      CreateCollectionVersion(id, VersionData(c, semver, notes, snapshot, folders, requests, at, author))
    case _ => EchoCommand(id, Versioned(0, b))
  }

  lemma ReadsBackPlainCreates(foreign: set<Key>, key: Key, b: Body, author: Option<Author>, op: Incoming)
    requires key !in foreign && KindOf(b) == key.kind && key.kind in {Collection, Environment, Folder, Request}
    requires op == Pushing(key, 0, SyncPayload(b), author, op.operation, op.client)
    ensures TranslateCreate(foreign, op) == Run(CreateCommand(key.id, b, author))
  {}

  lemma ReadsBackVariableCreates(foreign: set<Key>, key: Key, b: Body, author: Option<Author>, op: Incoming)
    requires key !in foreign && KindOf(b) == key.kind && key.kind in {EnvironmentVariable, CollectionVariable, GlobalVariable}
    requires SecretStored(b) && op == Pushing(key, 0, SyncPayload(b), author, op.operation, op.client)
    ensures TranslateCreate(foreign, op) == Run(CreateCommand(key.id, b, author))
  {}

  lemma ReadsBackVersionCreate(foreign: set<Key>, key: Key, b: Body, author: Option<Author>, op: Incoming)
    requires key !in foreign && KindOf(b) == key.kind == CollectionVersion
    requires op == Pushing(key, 0, SyncPayload(b), author, op.operation, op.client)
    ensures TranslateVersion(None, foreign, op) == Run(CreateCommand(key.id, b, author))
  {}

  lemma ReadsBackCreates(rows: Tables, foreign: set<Key>, key: Key, b: Body, author: Option<Author>, op: Incoming)
    requires key !in rows && key !in foreign && KindOf(b) == key.kind && SecretStored(b)
    requires op == Pushing(key, 0, SyncPayload(b), author, op.operation, op.client)
    ensures Translate(rows, foreign, op) == Run(CreateCommand(key.id, b, author))
  {
    if key.kind == CollectionVersion {
      ReadsBackVersionCreate(foreign, key, b, author, op);
    } else if key.kind in {Collection, Environment, Folder, Request} {
      ReadsBackPlainCreates(foreign, key, b, author, op);
    } else {
      ReadsBackVariableCreates(foreign, key, b, author, op);
    }
  }

  lemma NoHolders(rows: Tables, key: Key, b: Body)
    requires WriteFits(rows, key, b) && key !in rows && UniqueOf(b).Some?
    ensures Holders(rows, UniqueOf(b).value) == {} && Holders(rows, UniqueOf(b).value) - {key.id} == {}
  {}

  lemma TreeCreates(rows: Tables, foreign: set<Key>, key: Key, b: Body, author: Option<Author>)
    requires KindsMatch(rows) && WriteFits(rows, key, b) && key !in rows && key !in foreign
    requires key.kind == Folder || key.kind == Request
    ensures Decide(rows, foreign, CreateCommand(key.id, b, author)) == Write(key, b)
  {
    assert Key(Collection, b.collectionId) in Refs(b);
    if InFolder(b).Some? { FolderErrorFacts(rows, b.collectionId, InFolder(b).value); }
  }

  lemma VariableCreates(rows: Tables, foreign: set<Key>, key: Key, b: Body, author: Option<Author>)
    requires KindsMatch(rows) && WriteFits(rows, key, b) && key !in rows && key !in foreign
    requires b.EnvironmentVariableRow? || b.CollectionVersionRow?
    ensures Decide(rows, foreign, CreateCommand(key.id, b, author)) == Write(key, Carried(b, author))
  {
    NoHolders(rows, key, b);
    if b.EnvironmentVariableRow? { assert Key(Environment,
        b.environmentId) in Refs(b); } else { assert Key(Collection, b.collectionId) in Refs(b); }
  }

  lemma SharedVariableCreates(rows: Tables, foreign: set<Key>, key: Key, b: Body, author: Option<Author>)
    requires KindsMatch(rows) && WriteFits(rows, key, b) && key !in rows && key !in foreign
    requires b.CollectionVariableRow? || b.GlobalVariableRow?
    ensures Decide(rows, foreign, CreateCommand(key.id, b, author)) == Write(key, b)
  {
    NoHolders(rows, key, b);
    if b.CollectionVariableRow? { assert Key(Collection, b.collectionId) in Refs(b); }
  }

  /** Where a row would fit and is not there, pushing its payload as new makes it again, less what payloads do not carry. */
  lemma EchoRecreatesRow(rows: Tables, foreign: set<Key>, key: Key, b: Body, author: Option<Author>,
      operation: string, client: string)
    requires KindsMatch(rows) && WriteFits(rows, key, b) && key !in rows && key !in foreign
    ensures DecideOperation(rows, foreign, Pushing(key, 0, SyncPayload(b), author, operation, client)) == Write(key, Carried(b, author))
  {
    ReadsBackCreates(rows, foreign, key, b, author, Pushing(key, 0, SyncPayload(b), author, operation, client));
    if key.kind == Folder || key.kind == Request {
      TreeCreates(rows, foreign, key, b, author);
    } else if b.EnvironmentVariableRow? || b.CollectionVersionRow? {
      VariableCreates(rows, foreign, key, b, author);
    } else if b.CollectionVariableRow? || b.GlobalVariableRow? {
      SharedVariableCreates(rows, foreign, key, b, author);
    }
  }
}
