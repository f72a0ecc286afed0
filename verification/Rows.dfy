/** The content tables of one workspace and the wire payload of each kind of row. */
module Rows {
  import opened Prelude

  datatype Kind =
    | Collection | Environment | Folder | Request | EnvironmentVariable
    | CollectionVersion | CollectionVariable | GlobalVariable

  /** Ids are unique per table only, so a resource is named by its kind and its id. */
  datatype Key = Key(kind: Kind, id: Id)

  datatype Extras = Extras(
    scripts: Option<string>, description: Option<string>, descriptionType: Option<string>, auth: Option<string>)

  /** What the value column of an environment variable holds. Ciphertext is opaque: it only remembers its plaintext. */
  datatype StoredValue = Nothing | Plain(text: string) | Cipher(of: string)

  datatype Author = Author(id: Option<Id>, displayName: string)

  datatype Body =
    | CollectionRow(name: string, extras: Extras)
    | EnvironmentRow(name: string)
    | FolderRow(collectionId: Id, parent: Option<Id>, name: string, sortOrder: nat, extras: Extras)
    | RequestRow(collectionId: Id, folderId: Option<Id>, name: string, verb: string, url: string, document: string,
        sortOrder: nat)
    | EnvironmentVariableRow(environmentId: Id, key: string, stored: StoredValue, isSecret: bool)
    | CollectionVersionRow(collectionId: Id, semver: string, notes: Option<string>, snapshot: string,
        folderCount: nat, requestCount: nat, createdAt: string, author: Option<Author>)
    | CollectionVariableRow(collectionId: Id, key: string, value: string, enabled: bool, note: Option<string>,
        sortOrder: nat)
    | GlobalVariableRow(key: string, plain: Option<string>, isSecret: bool, enabled: bool, note: Option<string>,
        sortOrder: nat)

  datatype Versioned = Versioned(version: nat, body: Body)

  type Tables = map<Key, Versioned>

  function KindOf(b: Body): Kind {
    match b
    case CollectionRow(_, _) => Collection
    case EnvironmentRow(_) => Environment
    case FolderRow(_, _, _, _, _) => Folder
    case RequestRow(_, _, _, _, _, _, _) => Request
    case EnvironmentVariableRow(_, _, _, _) => EnvironmentVariable
    case CollectionVersionRow(_, _, _, _, _, _, _, _) => CollectionVersion
    case CollectionVariableRow(_, _, _, _, _, _) => CollectionVariable
    case GlobalVariableRow(_, _, _, _, _, _) => GlobalVariable
  }

  predicate Has(rows: Tables, key: Key) {
    key in rows && KindOf(rows[key].body) == key.kind
  }

  function IdsOf(rows: Tables, kind: Kind): set<Id> {
    set k | k in rows && k.kind == kind :: k.id
  }

  function KeysOf(kind: Kind, ids: seq<Id>): (r: seq<Key>)
    ensures |r| == |ids| && forall i :: 0 <= i < |ids| ==> r[i] == Key(kind, ids[i])
  {
    seq(|ids|, i requires 0 <= i < |ids| => Key(kind, ids[i]))
  }

  // ---------------------------------------------------------------- foreign keys

  /** The container a row lives in (its collection or environment), which is a foreign key. */
  function Container(b: Body): set<Key> {
    match b
    case FolderRow(c, _, _, _, _) => {Key(Collection, c)}
    case RequestRow(c, _, _, _, _, _, _) => {Key(Collection, c)}
    case EnvironmentVariableRow(e, _, _, _) => {Key(Environment, e)}
    case CollectionVersionRow(c, _, _, _, _, _, _, _) => {Key(Collection, c)}
    case CollectionVariableRow(c, _, _, _, _, _) => {Key(Collection, c)}
    case _ => {}
  }

  /** The folder a row lives in: the folder of a request, the parent of a folder. */
  function InFolder(b: Body): Option<Id> {
    match b
    case FolderRow(_, p, _, _, _) => p
    case RequestRow(_, f, _, _, _, _, _) => f
    case _ => None
  }

  function FolderRef(b: Body): set<Key> {
    match InFolder(b)
    case Some(f) => {Key(Folder, f)}
    case None => {}
  }

  /** Every foreign key of a row; all of them cascade on delete (server/prisma/schema.prisma:243-423). */
  function Refs(b: Body): set<Key> {
    Container(b) + FolderRef(b)
  }

  // ---------------------------------------------------------------- wire payloads

  datatype Json = Null | Text(text: string) | Number(number: int) | Flag(flag: bool) | AuthorRef(author: Author)

  datatype Field =
    | Name | ScriptsJson | Description | DescriptionType | AuthJson | CollectionId | ParentFolderId | SortOrder
    | FolderId | Method | Url | DocumentJson | EnvironmentId | VariableKey | Value | IsSecret | Semver | Notes
    | SnapshotJson | FolderCount | RequestCount | CreatedAt | CreatedBy | Enabled

  type Payload = map<Field, Json>

  function OrNull(s: Option<string>): Json {
    if s.Some? then Text(s.value) else Null
  }

  function SyncPayload(b: Body): Payload {
    match b
    case CollectionRow(name, x) =>
      map[Name := Text(name), ScriptsJson := OrNull(x.scripts), Description := OrNull(x.description),
          DescriptionType := OrNull(x.descriptionType), AuthJson := OrNull(x.auth)]
    case EnvironmentRow(name) => map[Name := Text(name)]
    case FolderRow(c, p, name, order, x) =>
      map[CollectionId := Text(c), ParentFolderId := OrNull(p), Name := Text(name), SortOrder := Number(order),
          ScriptsJson := OrNull(x.scripts), Description := OrNull(x.description),
          DescriptionType := OrNull(x.descriptionType), AuthJson := OrNull(x.auth)]
    case RequestRow(c, f, name, verb, url, document, order) =>
      map[CollectionId := Text(c), FolderId := OrNull(f), Name := Text(name), Method := Text(verb), Url := Text(url),
          DocumentJson := Text(document), SortOrder := Number(order)]
    case EnvironmentVariableRow(e, key, stored, isSecret) =>
      map[EnvironmentId := Text(e), VariableKey := Text(key), Value := if isSecret then Null else PlainOf(stored),
          IsSecret := Flag(isSecret)]
    case CollectionVersionRow(c, semver, notes, snapshot, folders, requests, at, author) =>
      map[CollectionId := Text(c), Semver := Text(semver), Notes := OrNull(notes), SnapshotJson := Text(snapshot),
          FolderCount := Number(folders), RequestCount := Number(requests), CreatedAt := Text(at),
          CreatedBy := if author.Some? then AuthorRef(author.value) else Null]
    case CollectionVariableRow(c, key, value, enabled, note, order) =>
      map[CollectionId := Text(c), VariableKey := Text(key), Value := Text(value), Enabled := Flag(enabled),
          Description := OrNull(note), SortOrder := Number(order)]
    case GlobalVariableRow(key, plain, isSecret, enabled, note, order) =>
      map[VariableKey := Text(key),
          Value := if isSecret then Null else Text(if plain.Some? then plain.value else ""),
          IsSecret := Flag(isSecret), Enabled := Flag(enabled), Description := OrNull(note), SortOrder := Number(order)]
  }

  /** The value column as it is sent for a variable that is not secret. */
  function PlainOf(v: StoredValue): Json {
    match v
    case Nothing => Null
    case Plain(t) => Text(t)
    case Cipher(t) => Text("cipher:" + t)
  }

  function TextRef(p: Payload, f: Field, kind: Kind): set<Key> {
    if f in p && p[f].Text? then {Key(kind, p[f].text)} else {}
  }

  /** The references a replica can see in a payload. */
  function PayloadContainer(p: Payload): set<Key> {
    TextRef(p, CollectionId, Collection) + TextRef(p, EnvironmentId, Environment)
  }

  function PayloadFolder(p: Payload): set<Key> {
    TextRef(p, FolderId, Folder) + TextRef(p, ParentFolderId, Folder)
  }

  /** A payload shows exactly the foreign keys of its row. */
  lemma PayloadShowsRefs(b: Body)
    ensures PayloadContainer(SyncPayload(b)) == Container(b)
    ensures PayloadFolder(SyncPayload(b)) == FolderRef(b)
  {
    PayloadShowsContainer(b);
    PayloadShowsFolder(b);
  }

  lemma PayloadShowsContainer(b: Body)
    ensures PayloadContainer(SyncPayload(b)) == Container(b)
  {}

  lemma PayloadShowsFolder(b: Body)
    ensures PayloadFolder(SyncPayload(b)) == FolderRef(b)
  {}

  /** Nothing marked secret carries a value. */
  predicate SecretFree(p: Payload) {
    IsSecret in p && p[IsSecret] == Flag(true) ==> Value in p && p[Value] == Null
  }

  lemma PayloadsAreSecretFree(b: Body)
    ensures SecretFree(SyncPayload(b))
  {}
}
