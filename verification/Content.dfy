/** What every content mutation decides: which row it writes, which rows it removes, or why it is refused. */
module Content {
  import opened Prelude
  import opened Rows
  import opened Tree

  datatype Error =
    | NotFound | Gone | VersionMismatch(current: nat) | InvalidRequest | Malformed | DuplicateKey(holder: Id)
    | IdInUse | Immutable(current: nat) | UniqueViolation | Diverged

  /** A decision names the one row written, or the row removed last together with the rows removed with it. */
  datatype Decision =
    | Refused(error: Error)
    | Already(version: nat)
    | Write(key: Key, body: Body)
    | Erase(root: Key, children: seq<Key>)

  datatype ExtrasPatch = ExtrasPatch(
    scripts: Patch<Option<string>>, description: Patch<Option<string>>, descriptionType: Patch<Option<string>>,
    auth: Patch<Option<string>>)
  {
    function On(x: Extras): Extras {
      Extras(scripts.Or(x.scripts), description.Or(x.description), descriptionType.Or(x.descriptionType), auth.Or(x.auth))
    }
  }

  const NO_EXTRAS := Extras(None, None, None, None)
  const UNCHANGED := ExtrasPatch(Absent, Absent, Absent, Absent)

  datatype VersionData = VersionData(
    collectionId: Id, semver: string, notes: Option<string>, snapshot: string, folderCount: nat, requestCount: nat,
    createdAt: string, author: Option<Author>)

  datatype Command =
    | CreateCollection(id: Id, name: string, extras: ExtrasPatch)
    | UpdateCollection(id: Id, newName: Patch<string>, extras: ExtrasPatch, expected: nat)
    | DeleteCollection(id: Id, given: Option<nat>)
    | CreateFolder(id: Id, collectionId: Id, parent: Patch<Option<Id>>, name: string, order: Patch<nat>,
        extras: ExtrasPatch)
    | UpdateFolder(id: Id, parent: Patch<Option<Id>>, newName: Patch<string>, order: Patch<nat>, extras: ExtrasPatch,
        expected: nat)
    | DeleteFolder(id: Id, given: Option<nat>)
    | CreateRequest(id: Id, collectionId: Id, folder: Patch<Option<Id>>, name: string, verb: string, url: string,
        document: string, order: Patch<nat>)
    | UpdateRequest(id: Id, target: Patch<Id>, folder: Patch<Option<Id>>, newName: Patch<string>, newVerb: Patch<string>,
        newUrl: Patch<string>, newDocument: Patch<string>, order: Patch<nat>, expected: nat)
    | DeleteRequest(id: Id, given: Option<nat>)
    | CreateEnvironment(id: Id, name: string)
    | UpdateEnvironment(id: Id, newName: Patch<string>, expected: nat)
    | DeleteEnvironment(id: Id, given: Option<nat>)
    | PutVariable(freshId: Id, environmentId: Id, key: string, value: string, isSecret: bool, given: Option<nat>)
    | DeleteVariable(environmentId: Id, key: string, given: Option<nat>)
    | SyncPutVariable(id: Id, environmentId: Id, key: string, sent: Option<string>, isSecret: bool)
    | CreateCollectionVersion(id: Id, data: VersionData)
    | DeleteCollectionVersion(id: Id, given: Option<nat>)
    | SyncPutCollectionVariable(id: Id, container: Patch<Id>, newKey: Patch<string>, newValue: Patch<string>,
        enabled: Patch<bool>, note: Patch<Option<string>>, order: Patch<nat>)
    | DeleteCollectionVariable(id: Id, given: Option<nat>)
    | SyncPutGlobalVariable(id: Id, newKey: Patch<string>, plain: Patch<Option<string>>, secret: Patch<bool>,
        enabled: Patch<bool>, note: Patch<Option<string>>, order: Patch<nat>)
    | DeleteGlobalVariable(id: Id, given: Option<nat>)

  // ---------------------------------------------------------------- queries

  function Find(rows: Tables, kind: Kind, id: Id): (r: Option<Versioned>)
    ensures r.Some? ==> Key(kind, id) in rows && r.value == rows[Key(kind, id)] && KindOf(r.value.body) == kind
  {
    if Has(rows, Key(kind, id)) then Some(rows[Key(kind, id)]) else None
  }

  /** Ids are primary keys across all workspaces: `foreign` are the ones other workspaces hold. */
  predicate Taken(rows: Tables, foreign: set<Key>, key: Key) {
    key in rows || key in foreign
  }

  datatype UniqueKey = EnvironmentKey(owner: Id, key: string) | SemverKey(owner: Id, key: string)
    | CollectionKey(owner: Id, key: string) | GlobalKey(key: string)

  function UniqueOf(b: Body): Option<UniqueKey> {
    match b
    case EnvironmentVariableRow(e, key, _, _) => Some(EnvironmentKey(e, key))
    case CollectionVersionRow(c, semver, _, _, _, _, _, _) => Some(SemverKey(c, semver))
    case CollectionVariableRow(c, key, _, _, _, _) => Some(CollectionKey(c, key))
    case GlobalVariableRow(key, _, _, _, _, _) => Some(GlobalKey(key))
    case _ => None
  }

  function Holders(rows: Tables, u: UniqueKey): set<Id> {
    set k | k in rows && UniqueOf(rows[k].body) == Some(u) :: k.id
  }

  function FirstOf(ids: set<Id>): (r: Option<Id>)
    ensures r.None? <==> ids == {}
    ensures r.Some? ==> r.value in ids
  {
    var s := Sorted(ids);
    if s == [] then None else assert s[0] in s; Some(s[0])
  }

  /** Rows of `kind` whose foreign key `ref` points at the given row, by id. */
  function Inside(rows: Tables, kind: Kind, ref: Key): seq<Key> {
    KeysOf(kind, Sorted(set k | k in rows && k.kind == kind && ref in Container(rows[k].body) :: k.id))
  }

  function RequestsIn(rows: Tables, folders: set<Id>): seq<Key> {
    KeysOf(Request, Sorted(set k | k in rows && k.kind == Request &&
      InFolder(rows[k].body).Some? && InFolder(rows[k].body).value in folders :: k.id))
  }

  /** A folder absent from the workspace is not found; one living in another collection is an invalid reference. */
  function FolderError(rows: Tables, collectionId: Id, folder: Id): Option<Error> {
    match Find(rows, Folder, folder)
    case None => Some(NotFound)
    case Some(f) => if f.body.collectionId == collectionId then None else Some(InvalidRequest)
  }

  function ParentError(rows: Tables, collectionId: Id, parent: Option<Id>, self: Option<Id>): Option<Error> {
    if parent.None? then None
    else if parent == self then Some(InvalidRequest)
    else if FolderError(rows, collectionId, parent.value).Some? then FolderError(rows, collectionId, parent.value)
    else if self.Some? && WalkMeets(ParentsOf(rows), InFolder(rows[Key(Folder, parent.value)].body), self.value,
        WALK_LIMIT)
      then Some(InvalidRequest)
    else None
  }

  function RequestFolderError(rows: Tables, collectionId: Id, folder: Option<Id>): Option<Error> {
    if folder.None? then None else FolderError(rows, collectionId, folder.value)
  }

  /** Optimistic concurrency: the row must exist and be at the expected version. */
  function VersionError(row: Option<Versioned>, expected: nat): Option<Error> {
    if row.None? then Some(NotFound)
    else if row.value.version != expected then Some(VersionMismatch(row.value.version))
    else None
  }

  function DeleteError(row: Option<Versioned>, given: Option<nat>): Option<Error> {
    if row.None? then Some(NotFound)
    else if given.Some? && given.value != row.value.version then Some(VersionMismatch(row.value.version))
    else None
  }

  // ---------------------------------------------------------------- one decision per mutation

  function Insert(rows: Tables, foreign: set<Key>, key: Key, body: Body): Decision {
    if Taken(rows, foreign, key) then Refused(UniqueViolation) else Write(key, body)
  }

  function DecideUpdateCollection(rows: Tables, c: Command): Decision
    requires c.UpdateCollection?
  {
    var cur := Find(rows, Collection, c.id);
    if VersionError(cur, c.expected).Some? then Refused(VersionError(cur, c.expected).value)
    else Write(Key(Collection, c.id), CollectionRow(c.newName.Or(cur.value.body.name),
        c.extras.On(cur.value.body.extras)))
  }

  function DecideDeleteCollection(rows: Tables, c: Command): Decision
    requires c.DeleteCollection?
  {
    var cur, key := Find(rows, Collection, c.id), Key(Collection, c.id);
    if DeleteError(cur, c.given).Some? then Refused(DeleteError(cur, c.given).value)
    else Erase(key, Inside(rows, CollectionVariable, key) + Inside(rows, CollectionVersion, key)
      + Inside(rows, Request, key) + Inside(rows, Folder, key))
  }

  function DecideCreateFolder(rows: Tables, foreign: set<Key>, c: Command): Decision
    requires c.CreateFolder?
  {
    if Find(rows, Collection, c.collectionId).None? then Refused(NotFound)
    else
      var parent := c.parent.Or(None);
      if ParentError(rows, c.collectionId, parent, None).Some?
      then Refused(ParentError(rows, c.collectionId, parent, None).value)
      else Insert(rows, foreign, Key(Folder, c.id),
        FolderRow(c.collectionId, parent, c.name, c.order.Or(0), c.extras.On(NO_EXTRAS)))
  }

  function DecideUpdateFolder(rows: Tables, c: Command): Decision
    requires c.UpdateFolder?
  {
    var cur := Find(rows, Folder, c.id);
    if cur.None? then Refused(NotFound)
    else
      var b := cur.value.body;
      if c.parent.Given? && ParentError(rows, b.collectionId, c.parent.value, Some(c.id)).Some?
      then Refused(ParentError(rows, b.collectionId, c.parent.value, Some(c.id)).value)
      else if VersionError(cur, c.expected).Some? then Refused(VersionError(cur, c.expected).value)
      else Write(Key(Folder, c.id),
        FolderRow(b.collectionId, c.parent.Or(b.parent), c.newName.Or(b.name), c.order.Or(b.sortOrder),
            c.extras.On(b.extras)))
  }

  /** A cycle through the folder makes the recursive descendant query run forever, so the transaction never commits. */
  function DecideDeleteFolder(rows: Tables, c: Command): Decision
    requires c.DeleteFolder?
  {
    var cur, p := Find(rows, Folder, c.id), ParentsOf(rows);
    if DeleteError(cur, c.given).Some? then Refused(DeleteError(cur, c.given).value)
    else if OnCycle(p, c.id) then Refused(Diverged)
    else Erase(Key(Folder, c.id),
      RequestsIn(rows, {c.id} + Union(Subtree(p, c.id))) + KeysOf(Folder, DeepestFirst(Subtree(p, c.id))))
  }

  function DecideCreateRequest(rows: Tables, foreign: set<Key>, c: Command): Decision
    requires c.CreateRequest?
  {
    if Find(rows, Collection, c.collectionId).None? then Refused(NotFound)
    else
      var folder := c.folder.Or(None);
      if RequestFolderError(rows, c.collectionId, folder).Some?
      then Refused(RequestFolderError(rows, c.collectionId, folder).value)
      else Insert(rows, foreign, Key(Request, c.id),
        RequestRow(c.collectionId, folder, c.name, c.verb, c.url, c.document, c.order.Or(0)))
  }

  /** A move to another collection must end in a folder of that collection, given or kept. */
  function DecideUpdateRequest(rows: Tables, c: Command): Decision
    requires c.UpdateRequest?
  {
    var cur := Find(rows, Request, c.id);
    if cur.None? then Refused(NotFound)
    else
      var b := cur.value.body;
      var target, folder := c.target.Or(b.collectionId), c.folder.Or(b.folderId);
      var moving := target != b.collectionId;
      if moving && Find(rows, Collection, target).None? then Refused(NotFound)
      else if (c.folder.Given? || moving) && RequestFolderError(rows, target, folder).Some?
      then Refused(RequestFolderError(rows, target, folder).value)
      else if VersionError(cur, c.expected).Some? then Refused(VersionError(cur, c.expected).value)
      else Write(Key(Request, c.id), RequestRow(target, folder, c.newName.Or(b.name), c.newVerb.Or(b.verb),
        c.newUrl.Or(b.url), c.newDocument.Or(b.document), c.order.Or(b.sortOrder)))
  }

  function DecideUpdateEnvironment(rows: Tables, c: Command): Decision
    requires c.UpdateEnvironment?
  {
    var cur := Find(rows, Environment, c.id);
    if VersionError(cur, c.expected).Some? then Refused(VersionError(cur, c.expected).value)
    else Write(Key(Environment, c.id), EnvironmentRow(c.newName.Or(cur.value.body.name)))
  }

  function DecideDeleteEnvironment(rows: Tables, c: Command): Decision
    requires c.DeleteEnvironment?
  {
    var cur, key := Find(rows, Environment, c.id), Key(Environment, c.id);
    if DeleteError(cur, c.given).Some? then Refused(DeleteError(cur, c.given).value)
    else Erase(key, Inside(rows, EnvironmentVariable, key))
  }

  /** Removal of a row nothing refers to. */
  function DecideDelete(rows: Tables, kind: Kind, id: Id, given: Option<nat>): Decision {
    var cur := Find(rows, kind, id);
    if DeleteError(cur, given).Some? then Refused(DeleteError(cur, given).value) else Erase(Key(kind, id), [])
  }

  /** REST write of a variable by (environment, key): a secret is stored encrypted. */
  function DecidePutVariable(rows: Tables, foreign: set<Key>, c: Command): Decision
    requires c.PutVariable?
  {
    if Find(rows, Environment, c.environmentId).None? then Refused(NotFound)
    else
      var body := EnvironmentVariableRow(c.environmentId, c.key, if c.isSecret then Cipher(c.value) else Plain(c.value), c.isSecret);
      match FirstOf(Holders(rows, EnvironmentKey(c.environmentId, c.key)))
      case None => Insert(rows, foreign, Key(EnvironmentVariable, c.freshId), body)
      case Some(id) =>
        var cur := Find(rows, EnvironmentVariable, id);
        if DeleteError(cur, c.given).Some? then Refused(DeleteError(cur, c.given).value)
        else Write(Key(EnvironmentVariable, id), body)
  }

  function DecideDeleteVariable(rows: Tables, c: Command): Decision
    requires c.DeleteVariable?
  {
    match FirstOf(Holders(rows, EnvironmentKey(c.environmentId, c.key)))
    case None => Refused(NotFound)
    case Some(id) => DecideDelete(rows, EnvironmentVariable, id, c.given)
  }

  /** Sync write of a variable by id: secrets are metadata only, and a stored ciphertext survives. */
  function DecideSyncPutVariable(rows: Tables, foreign: set<Key>, c: Command): Decision
    requires c.SyncPutVariable?
  {
    var cur, key := Find(rows, EnvironmentVariable, c.id), Key(EnvironmentVariable, c.id);
    if c.isSecret && c.sent.Some? then Refused(InvalidRequest)
    else if Find(rows, Environment, c.environmentId).None? then Refused(NotFound)
    else
      var clash := FirstOf(Holders(rows, EnvironmentKey(c.environmentId, c.key)) - {c.id});
      var plain := Plain(if c.sent.Some? then c.sent.value else "");
      if clash.Some? then Refused(DuplicateKey(clash.value))
      else if cur.None? then
        Insert(rows, foreign, key,
          EnvironmentVariableRow(c.environmentId, c.key, if c.isSecret then Nothing else plain, c.isSecret))
      else if cur.value.body.environmentId != c.environmentId then Refused(InvalidRequest)
      else
        var kept := if cur.value.body.isSecret then cur.value.body.stored else Nothing;
        Write(key, EnvironmentVariableRow(c.environmentId, c.key, if c.isSecret then kept else plain, c.isSecret))
  }

  function DecideCreateCollectionVersion(rows: Tables, foreign: set<Key>, c: Command): Decision
    requires c.CreateCollectionVersion?
  {
    var d := c.data;
    var clash := FirstOf(Holders(rows, SemverKey(d.collectionId, d.semver)));
    if Find(rows, Collection, d.collectionId).None? then Refused(NotFound)
    else if clash.Some? then Refused(DuplicateKey(clash.value))
    else Insert(rows, foreign, Key(CollectionVersion, c.id),
      CollectionVersionRow(d.collectionId, d.semver, d.notes, d.snapshot, d.folderCount, d.requestCount, d.createdAt,
          d.author))
  }

  function DecideSyncPutCollectionVariable(rows: Tables, foreign: set<Key>, c: Command): Decision
    requires c.SyncPutCollectionVariable?
  {
    var cur, key := Find(rows, CollectionVariable, c.id), Key(CollectionVariable, c.id);
    if cur.None? && (c.container.Absent? || c.newKey.Absent?) then Refused(Malformed)
    else
      var container := if cur.Some? then c.container.Or(cur.value.body.collectionId) else c.container.value;
      var name := if cur.Some? then c.newKey.Or(cur.value.body.key) else c.newKey.value;
      var clash := FirstOf(Holders(rows, CollectionKey(container, name)) - {c.id});
      if Find(rows, Collection, container).None? then Refused(NotFound)
      else if cur.Some? && container != cur.value.body.collectionId then Refused(InvalidRequest)
      else if clash.Some? then Refused(DuplicateKey(clash.value))
      else if cur.None? then
        Insert(rows, foreign, key,
          CollectionVariableRow(container, name, c.newValue.Or(""), c.enabled.Or(true), c.note.Or(None), c.order.Or(0)))
      else
        var b := cur.value.body;
        Write(key, CollectionVariableRow(container, name, c.newValue.Or(b.value), c.enabled.Or(b.enabled),
          c.note.Or(b.note), c.order.Or(b.sortOrder)))
  }

  /** Sync write of a global: a secret global stores no value at all. */
  function DecideSyncPutGlobalVariable(rows: Tables, foreign: set<Key>, c: Command): Decision
    requires c.SyncPutGlobalVariable?
  {
    var cur, key := Find(rows, GlobalVariable, c.id), Key(GlobalVariable, c.id);
    if cur.None? && c.newKey.Absent? then Refused(Malformed)
    else
      var secret := c.secret.Or(cur.Some? && cur.value.body.isSecret);
      var sent := if cur.None? then c.plain.Or(Some("")) else c.plain.Or(None);
      var given := c.plain.Given? || cur.None?;
      // A create without a value carries the schema's default, which a secret refuses like any other value.
      if secret && sent.Some? then Refused(InvalidRequest)
      else
        var name := if cur.Some? then c.newKey.Or(cur.value.body.key) else c.newKey.value;
        var text := if given then (if sent.Some? then sent.value else "")
          else if !cur.value.body.isSecret && cur.value.body.plain.Some? then cur.value.body.plain.value else "";
        var clash := FirstOf(Holders(rows, GlobalKey(name)) - {c.id});
        var stored := if secret then None else Some(text);
        if clash.Some? then Refused(DuplicateKey(clash.value))
        else if cur.None? then
          Insert(rows, foreign, key,
            GlobalVariableRow(name, stored, secret, c.enabled.Or(true), c.note.Or(None), c.order.Or(0)))
        else
          var b := cur.value.body;
          Write(key, GlobalVariableRow(name, stored, secret, c.enabled.Or(b.enabled), c.note.Or(b.note),
              c.order.Or(b.sortOrder)))
  }

  function Decide(rows: Tables, foreign: set<Key>, c: Command): Decision {
    match c
    case CreateCollection(id, name, extras) =>
      Insert(rows, foreign, Key(Collection, id), CollectionRow(name, extras.On(NO_EXTRAS)))
    case UpdateCollection(_, _, _, _) => DecideUpdateCollection(rows, c)
    case DeleteCollection(_, _) => DecideDeleteCollection(rows, c)
    case CreateFolder(_, _, _, _, _, _) => DecideCreateFolder(rows, foreign, c)
    case UpdateFolder(_, _, _, _, _, _) => DecideUpdateFolder(rows, c)
    case DeleteFolder(_, _) => DecideDeleteFolder(rows, c)
    case CreateRequest(_, _, _, _, _, _, _, _) => DecideCreateRequest(rows, foreign, c)
    case UpdateRequest(_, _, _, _, _, _, _, _, _) => DecideUpdateRequest(rows, c)
    case DeleteRequest(id, given) => DecideDelete(rows, Request, id, given)
    case CreateEnvironment(id, name) => Insert(rows, foreign, Key(Environment, id), EnvironmentRow(name))
    case UpdateEnvironment(_, _, _) => DecideUpdateEnvironment(rows, c)
    case DeleteEnvironment(_, _) => DecideDeleteEnvironment(rows, c)
    case PutVariable(_, _, _, _, _, _) => DecidePutVariable(rows, foreign, c)
    case DeleteVariable(_, _, _) => DecideDeleteVariable(rows, c)
    case SyncPutVariable(_, _, _, _, _) => DecideSyncPutVariable(rows, foreign, c)
    case CreateCollectionVersion(_, _) => DecideCreateCollectionVersion(rows, foreign, c)
    case DeleteCollectionVersion(id, given) => DecideDelete(rows, CollectionVersion, id, given)
    case SyncPutCollectionVariable(_, _, _, _, _, _, _) => DecideSyncPutCollectionVariable(rows, foreign, c)
    case DeleteCollectionVariable(id, given) => DecideDelete(rows, CollectionVariable, id, given)
    case SyncPutGlobalVariable(_, _, _, _, _, _, _) => DecideSyncPutGlobalVariable(rows, foreign, c)
    case DeleteGlobalVariable(id, given) => DecideDelete(rows, GlobalVariable, id, given)
  }
}
