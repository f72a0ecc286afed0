/**
 * What a write does, told from outside: the payload fields it gives, the payload its row shows afterwards, and when it is
 * welcome. The mutations are proved to do exactly that.
 */
module Writes {
  import opened Prelude
  import opened Rows
  import opened Tree
  import opened Content
  import opened Integrity

  // ---------------------------------------------------------------- the fields a write gives

  /** What a write says of each field it knows: a value, or nothing. */
  type Fields = map<Field, Patch<Json>>

  function OfText(p: Patch<string>): Patch<Json> {
    if p.Given? then Given(Text(p.value)) else Absent
  }

  function OfNullable(p: Patch<Option<string>>): Patch<Json> {
    if p.Given? then Given(OrNull(p.value)) else Absent
  }

  function OfNumber(p: Patch<nat>): Patch<Json> {
    if p.Given? then Given(Number(p.value)) else Absent
  }

  function OfFlag(p: Patch<bool>): Patch<Json> {
    if p.Given? then Given(Flag(p.value)) else Absent
  }

  function CollectionFields(name: Patch<string>, x: ExtrasPatch): Fields {
    map[Name := OfText(name), ScriptsJson := OfNullable(x.scripts), Description := OfNullable(x.description),
        DescriptionType := OfNullable(x.descriptionType), AuthJson := OfNullable(x.auth)]
  }

  function FolderFields(container: Patch<Id>, parent: Patch<Option<Id>>, name: Patch<string>, order: Patch<nat>,
      x: ExtrasPatch): Fields {
    map[CollectionId := OfText(container), ParentFolderId := OfNullable(parent), Name := OfText(name),
        SortOrder := OfNumber(order), ScriptsJson := OfNullable(x.scripts), Description := OfNullable(x.description),
        DescriptionType := OfNullable(x.descriptionType), AuthJson := OfNullable(x.auth)]
  }

  function RequestFields(container: Patch<Id>, folder: Patch<Option<Id>>, name: Patch<string>, verb: Patch<string>,
      url: Patch<string>, document: Patch<string>, order: Patch<nat>): Fields {
    map[CollectionId := OfText(container), FolderId := OfNullable(folder), Name := OfText(name), Method := OfText(verb),
        Url := OfText(url), DocumentJson := OfText(document), SortOrder := OfNumber(order)]
  }

  function VariableFields(environmentId: Id, key: string, value: Option<string>, isSecret: bool): Fields {
    map[EnvironmentId := Given(Text(environmentId)), VariableKey := Given(Text(key)), Value := Given(OrNull(value)),
        IsSecret := Given(Flag(isSecret))]
  }

  function VersionFields(d: VersionData): Fields {
    map[CollectionId := Given(Text(d.collectionId)), Semver := Given(Text(d.semver)), Notes := Given(OrNull(d.notes)),
        SnapshotJson := Given(Text(d.snapshot)), FolderCount := Given(Number(d.folderCount)),
        RequestCount := Given(Number(d.requestCount)), CreatedAt := Given(Text(d.createdAt)),
        CreatedBy := Given(if d.author.Some? then AuthorRef(d.author.value) else Null)]
  }

  function CollectionVariableFields(container: Patch<Id>, key: Patch<string>, value: Patch<string>, enabled: Patch<bool>,
      note: Patch<Option<string>>, order: Patch<nat>): Fields {
    map[CollectionId := OfText(container), VariableKey := OfText(key), Value := OfText(value), Enabled := OfFlag(enabled),
        Description := OfNullable(note), SortOrder := OfNumber(order)]
  }

  function GlobalFields(key: Patch<string>, value: Patch<Option<string>>, secret: Patch<bool>, enabled: Patch<bool>,
      note: Patch<Option<string>>, order: Patch<nat>): Fields {
    map[VariableKey := OfText(key), Value := OfNullable(value), IsSecret := OfFlag(secret), Enabled := OfFlag(enabled),
        Description := OfNullable(note), SortOrder := OfNumber(order)]
  }

  predicate Gives(g: Fields, f: Field) {
    f in g && g[f].Given?
  }

  /** Given fields as given, the others as they were. */
  function Patched(p: Payload, g: Fields): Payload {
    map f | f in p.Keys + g.Keys && (f in p || Gives(g, f)) :: if Gives(g, f) then g[f].value else p[f]
  }

  /** A mutation that creates or updates a row by id. */
  predicate WritesById(c: Command) {
    c.CreateCollection? || c.UpdateCollection? || c.CreateFolder? || c.UpdateFolder? || c.CreateRequest?
    || c.UpdateRequest? || c.CreateEnvironment? || c.UpdateEnvironment? || c.SyncPutVariable?
    || c.CreateCollectionVersion? || c.SyncPutCollectionVariable? || c.SyncPutGlobalVariable?
  }

  function KeyOf(c: Command): Key
    requires WritesById(c)
  {
    match c
    case CreateCollection(id, _, _) => Key(Collection, id)
    case UpdateCollection(id, _, _, _) => Key(Collection, id)
    case CreateFolder(id, _, _, _, _, _) => Key(Folder, id)
    case UpdateFolder(id, _, _, _, _, _) => Key(Folder, id)
    case CreateRequest(id, _, _, _, _, _, _, _) => Key(Request, id)
    case UpdateRequest(id, _, _, _, _, _, _, _, _) => Key(Request, id)
    case CreateEnvironment(id, _) => Key(Environment, id)
    case UpdateEnvironment(id, _, _) => Key(Environment, id)
    case SyncPutVariable(id, _, _, _, _) => Key(EnvironmentVariable, id)
    case CreateCollectionVersion(id, _) => Key(CollectionVersion, id)
    case SyncPutCollectionVariable(id, _, _, _, _, _, _) => Key(CollectionVariable, id)
    case SyncPutGlobalVariable(id, _, _, _, _, _, _) => Key(GlobalVariable, id)
  }

  function GivenBy(c: Command): Fields
    requires WritesById(c)
  {
    match c
    case CreateCollection(_, name, extras) => CollectionFields(Given(name), extras)
    case UpdateCollection(_, name, extras, _) => CollectionFields(name, extras)
    case CreateFolder(_, container, parent, name, order, extras) => FolderFields(Given(container), parent, Given(name), order, extras)
    case UpdateFolder(_, parent, name, order, extras, _) => FolderFields(Absent, parent, name, order, extras)
    case CreateRequest(_, container, folder, name, verb, url, document, order) =>
      RequestFields(Given(container), folder, Given(name), Given(verb), Given(url), Given(document), order)
    case UpdateRequest(_, container, folder, name, verb, url, document, order, _) =>
      RequestFields(container, folder, name, verb, url, document, order)
    case CreateEnvironment(_, name) => map[Name := Given(Text(name))]
    case UpdateEnvironment(_, name, _) => map[Name := OfText(name)]
    case SyncPutVariable(_, environmentId, key, sent, isSecret) => VariableFields(environmentId, key, sent, isSecret)
    case CreateCollectionVersion(_, data) => VersionFields(data)
    case SyncPutCollectionVariable(_, container, key, value, enabled, note, order) =>
      CollectionVariableFields(container, key, value, enabled, note, order)
    case SyncPutGlobalVariable(_, key, plain, secret, enabled, note, order) => GlobalFields(key, plain, secret, enabled, note, order)
  }

  // ---------------------------------------------------------------- what the row shows afterwards

  /** What a new row shows in the fields that may be left out. */
  function Defaults(kind: Kind): Payload {
    match kind
    case Collection => map[ScriptsJson := Null, Description := Null, DescriptionType := Null, AuthJson := Null]
    case Folder => map[ParentFolderId := Null, SortOrder := Number(0), ScriptsJson := Null, Description := Null,
        DescriptionType := Null, AuthJson := Null]
    case Request => map[FolderId := Null, Method := Text("GET"), DocumentJson := Text("{}"), SortOrder := Number(0)]
    case CollectionVariable => map[Value := Text(""), Enabled := Flag(true), Description := Null, SortOrder := Number(0)]
    case GlobalVariable => map[Value := Text(""), IsSecret := Flag(false), Enabled := Flag(true), Description := Null,
        SortOrder := Number(0)]
    case _ => map[]
  }

  /** The fields a new row cannot do without. */
  function Required(kind: Kind): set<Field> {
    match kind
    case Collection => {Name}
    case Environment => {Name}
    case Folder => {CollectionId, Name}
    case Request => {CollectionId, Name, Url}
    case EnvironmentVariable => {EnvironmentId, VariableKey, Value, IsSecret}
    case CollectionVersion => {CollectionId, Semver, SnapshotJson}
    case CollectionVariable => {CollectionId, VariableKey}
    case GlobalVariable => {VariableKey}
  }

  function ShownAt(rows: Tables, k: Key): Payload {
    if k in rows then SyncPayload(rows[k].body) else Defaults(k.kind)
  }

  predicate SecretIn(p: Payload) {
    IsSecret in p && p[IsSecret] == Flag(true)
  }

  /** A secret shows no value; what is not secret shows the value there is, or an empty one. */
  function Settled(p: Payload): Payload {
    if IsSecret !in p then p
    else p[Value := if SecretIn(p) then Null else if Value in p && p[Value].Text? then p[Value] else Text("")]
  }

  /** What a row shows after a write: given fields as given, the others as they were or by default. */
  function Wanted(rows: Tables, k: Key, given: Fields): Payload {
    Settled(Patched(ShownAt(rows, k), given))
  }

  // ---------------------------------------------------------------- when a write is welcome

  function UniqueFields(kind: Kind): set<Field> {
    match kind
    case EnvironmentVariable => {EnvironmentId, VariableKey}
    case CollectionVersion => {CollectionId, Semver}
    case CollectionVariable => {CollectionId, VariableKey}
    case GlobalVariable => {VariableKey}
    case _ => {}
  }

  /** The row `l` holds the unique key that row `k` would show. */
  predicate Holds(rows: Tables, l: Key, k: Key, p: Payload) {
    l in rows && l.kind == k.kind && l != k && UniqueFields(k.kind) != {} &&
    var q := SyncPayload(rows[l].body);
    forall f :: f in UniqueFields(k.kind) ==> f in p && f in q && q[f] == p[f]
  }

  ghost predicate KeyFree(rows: Tables, k: Key, p: Payload) {
    forall l :: l in rows ==> !Holds(rows, l, k, p)
  }

  /** The container that a payload names is there. */
  predicate ContainerThere(rows: Tables, p: Payload) {
    && (CollectionId in p && p[CollectionId].Text? ==> Key(Collection, p[CollectionId].text) in rows)
    && (EnvironmentId in p && p[EnvironmentId].Text? ==> Key(Environment, p[EnvironmentId].text) in rows)
  }

  /** The folder that a payload names is there, in the collection that the payload names. */
  predicate FolderThere(rows: Tables, p: Payload, f: Field) {
    f in p && p[f].Text? ==>
      var k := Key(Folder, p[f].text);
      k in rows && CollectionId in p && rows[k].body.FolderRow? && p[CollectionId] == Text(rows[k].body.collectionId)
  }

  /** Folders, variables and versions stay in their container. */
  predicate ContainerKept(rows: Tables, k: Key, p: Payload) {
    k in rows && (k.kind == Folder || k.kind == EnvironmentVariable || k.kind == CollectionVariable) ==>
      PayloadContainer(p) == Container(rows[k].body)
  }

  /** A given parent is not the folder itself and not met going up to it within the limit. */
  ghost predicate ParentOutside(rows: Tables, k: Key, given: Fields) {
    k in rows && k.kind == Folder && Gives(given, ParentFolderId) && given[ParentFolderId].value.Text? ==>
      forall n: nat :: n <= WALK_LIMIT ==> !Meets(ParentsOf(rows), Some(given[ParentFolderId].value.text), k.id, n)
  }

  ghost predicate Welcome(rows: Tables, foreign: set<Key>, k: Key, given: Fields) {
    var p := Wanted(rows, k, given);
    && (k !in rows ==> k !in foreign && forall f :: f in Required(k.kind) ==> Gives(given, f))
    && (k in rows ==> k.kind != CollectionVersion)
    && ContainerThere(rows, p) && ContainerKept(rows, k, p)
    && FolderThere(rows, p, FolderId) && FolderThere(rows, p, ParentFolderId) && ParentOutside(rows, k, given)
    && KeyFree(rows, k, p)
  }

  /** By sync a secret comes without a value; a new global without one counts as having the empty one. */
  predicate SecretSent(rows: Tables, k: Key, given: Fields) {
    var sent := Patched(if k in rows then map[] else Defaults(k.kind), given);
    SecretIn(Patched(ShownAt(rows, k), given)) && Value in sent && sent[Value].Text?
  }

  /** What the row keeps of a value: plain text, nothing for a secret global, a sealed or an earlier secret. */
  predicate Stores(was: Option<Body>, b: Body, sealed: Option<string>) {
    match b
    case EnvironmentVariableRow(_, _, stored, isSecret) =>
      if !isSecret then SyncPayload(b)[Value].Text? && stored == Plain(SyncPayload(b)[Value].text)
      else if sealed.Some? then stored == Cipher(sealed.value)
      else stored == if was.Some? && was.value.EnvironmentVariableRow? && was.value.isSecret then was.value.stored else Nothing
    case GlobalVariableRow(_, plain, isSecret, _, _, _) =>
      if isSecret then plain == None else SyncPayload(b)[Value].Text? && plain == Some(SyncPayload(b)[Value].text)
    case _ => true
  }

  function OldBody(rows: Tables, k: Key): Option<Body> {
    if k in rows then Some(rows[k].body) else None
  }

  /** The decision writes the row, showing what is wanted. */
  predicate WritesWanted(rows: Tables, d: Decision, k: Key, given: Fields, sealed: Option<string>) {
    && d.Write? && d.key == k && KindOf(d.body) == k.kind && SyncPayload(d.body) == Wanted(rows, k, given)
    && Stores(OldBody(rows, k), d.body, sealed)
  }

  /** A mutation that creates a row, or the version it expects of the row it updates. */
  predicate VersionFits(rows: Tables, c: Command)
    requires WritesById(c)
  {
    var k := KeyOf(c);
    match c
    case UpdateCollection(_, _, _, expected) => k in rows && rows[k].version == expected
    case UpdateFolder(_, _, _, _, _, expected) => k in rows && rows[k].version == expected
    case UpdateRequest(_, _, _, _, _, _, _, _, expected) => k in rows && rows[k].version == expected
    case UpdateEnvironment(_, _, expected) => k in rows && rows[k].version == expected
    case SyncPutVariable(_, _, _, _, _) => true
    case SyncPutCollectionVariable(_, _, _, _, _, _, _) => true
    case SyncPutGlobalVariable(_, _, _, _, _, _, _) => true
    case _ => k !in rows
  }

  ghost predicate Accepts(rows: Tables, foreign: set<Key>, c: Command)
    requires WritesById(c)
  {
    && VersionFits(rows, c) && Welcome(rows, foreign, KeyOf(c), GivenBy(c))
    && (c.SyncPutVariable? || c.SyncPutGlobalVariable? ==> !SecretSent(rows, KeyOf(c), GivenBy(c)))
  }

  /** The decision is the write that the mutation asks for, exactly when it is to be accepted. */
  ghost predicate Right(rows: Tables, foreign: set<Key>, c: Command, d: Decision)
    requires WritesById(c)
  {
    if Accepts(rows, foreign, c) then WritesWanted(rows, d, KeyOf(c), GivenBy(c), None) else d.Refused?
  }

  // ---------------------------------------------------------------- the payloads of patched rows

  /** A payload is the patched one when it is so field by field. */
  lemma IsPatched(q: Payload, p: Payload, g: Fields)
    requires forall f :: PatchedAt(q, p, g, f)
    ensures q == Patched(p, g)
  {
    var r := Patched(p, g);
    forall f ensures (f in q <==> f in r) && (f in q ==> q[f] == r[f]) { assert PatchedAt(q, p, g, f); }
  }

  predicate PatchedAt(q: Payload, p: Payload, g: Fields, f: Field) {
    if Gives(g, f) then f in q && q[f] == g[f].value else (f in q <==> f in p) && (f in q ==> q[f] == p[f])
  }

  lemma CollectionPatchedAt(b: Body, name: Patch<string>, x: ExtrasPatch, f: Field)
    requires b.CollectionRow?
    ensures PatchedAt(SyncPayload(CollectionRow(name.Or(b.name), x.On(b.extras))), SyncPayload(b), CollectionFields(name, x), f)
  {
    var g, next := CollectionFields(name, x), CollectionRow(name.Or(b.name), x.On(b.extras));
    if f in g { assert f in SyncPayload(b) && f in SyncPayload(next); } else { assert f !in SyncPayload(b) && f !in SyncPayload(next); }
  }

  lemma CollectionPatched(b: Body, name: Patch<string>, x: ExtrasPatch)
    requires b.CollectionRow?
    ensures SyncPayload(CollectionRow(name.Or(b.name), x.On(b.extras))) == Patched(SyncPayload(b), CollectionFields(name, x))
  {
    var next, g := CollectionRow(name.Or(b.name), x.On(b.extras)), CollectionFields(name, x);
    forall f ensures PatchedAt(SyncPayload(next), SyncPayload(b), g, f) { CollectionPatchedAt(b, name, x, f); }
    IsPatched(SyncPayload(next), SyncPayload(b), g);
  }

  lemma FolderPatched(b: Body, parent: Patch<Option<Id>>, name: Patch<string>, order: Patch<nat>, x: ExtrasPatch)
    requires b.FolderRow?
    ensures SyncPayload(FolderRow(b.collectionId, parent.Or(b.parent), name.Or(b.name), order.Or(b.sortOrder), x.On(b.extras)))
      == Patched(SyncPayload(b), FolderFields(Absent, parent, name, order, x))
  {
    var next := FolderRow(b.collectionId, parent.Or(b.parent), name.Or(b.name), order.Or(b.sortOrder), x.On(b.extras));
    IsPatched(SyncPayload(next), SyncPayload(b), FolderFields(Absent, parent, name, order, x));
  }

  lemma RequestPatchedAt(b: Body, next: Body, container: Patch<Id>, folder: Patch<Option<Id>>, name: Patch<string>,
      verb: Patch<string>, url: Patch<string>, document: Patch<string>, order: Patch<nat>, f: Field)
    requires b.RequestRow?
    requires next == RequestRow(container.Or(b.collectionId), folder.Or(b.folderId), name.Or(b.name), verb.Or(b.verb),
      url.Or(b.url), document.Or(b.document), order.Or(b.sortOrder))
    ensures PatchedAt(SyncPayload(next), SyncPayload(b), RequestFields(container, folder, name, verb, url, document, order), f)
  {
    var g := RequestFields(container, folder, name, verb, url, document, order);
    if f in g { assert f in SyncPayload(b) && f in SyncPayload(next); } else { assert f !in SyncPayload(b) && f !in SyncPayload(next); }
  }

  lemma RequestPatched(b: Body, container: Patch<Id>, folder: Patch<Option<Id>>, name: Patch<string>, verb: Patch<string>,
      url: Patch<string>, document: Patch<string>, order: Patch<nat>)
    requires b.RequestRow?
    ensures SyncPayload(RequestRow(container.Or(b.collectionId), folder.Or(b.folderId), name.Or(b.name), verb.Or(b.verb),
        url.Or(b.url), document.Or(b.document), order.Or(b.sortOrder)))
      == Patched(SyncPayload(b), RequestFields(container, folder, name, verb, url, document, order))
  {
    var next := RequestRow(container.Or(b.collectionId), folder.Or(b.folderId), name.Or(b.name), verb.Or(b.verb),
      url.Or(b.url), document.Or(b.document), order.Or(b.sortOrder));
    var g := RequestFields(container, folder, name, verb, url, document, order);
    forall f ensures PatchedAt(SyncPayload(next), SyncPayload(b), g, f) {
      RequestPatchedAt(b, next, container, folder, name, verb, url, document, order, f);
    }
    IsPatched(SyncPayload(next), SyncPayload(b), g);
  }

  lemma NewCollection(name: string, x: ExtrasPatch)
    ensures SyncPayload(CollectionRow(name, x.On(NO_EXTRAS))) == Patched(Defaults(Collection), CollectionFields(Given(name), x))
  {
    IsPatched(SyncPayload(CollectionRow(name, x.On(NO_EXTRAS))), Defaults(Collection), CollectionFields(Given(name), x));
  }

  lemma NewFolder(container: Id, parent: Patch<Option<Id>>, name: string, order: Patch<nat>, x: ExtrasPatch)
    ensures SyncPayload(FolderRow(container, parent.Or(None), name, order.Or(0), x.On(NO_EXTRAS)))
      == Patched(Defaults(Folder), FolderFields(Given(container), parent, Given(name), order, x))
  {
    var next := FolderRow(container, parent.Or(None), name, order.Or(0), x.On(NO_EXTRAS));
    IsPatched(SyncPayload(next), Defaults(Folder), FolderFields(Given(container), parent, Given(name), order, x));
  }

  lemma NewRequest(container: Id, folder: Patch<Option<Id>>, name: string, verb: string, url: string, document: string,
      order: Patch<nat>)
    ensures SyncPayload(RequestRow(container, folder.Or(None), name, verb, url, document, order.Or(0)))
      == Patched(Defaults(Request), RequestFields(Given(container), folder, Given(name), Given(verb), Given(url), Given(document), order))
  {
    IsPatched(SyncPayload(RequestRow(container, folder.Or(None), name, verb, url, document, order.Or(0))), Defaults(Request),
      RequestFields(Given(container), folder, Given(name), Given(verb), Given(url), Given(document), order));
  }

  lemma NewVersion(d: VersionData)
    ensures SyncPayload(CollectionVersionRow(d.collectionId, d.semver, d.notes, d.snapshot, d.folderCount, d.requestCount,
        d.createdAt, d.author))
      == Patched(Defaults(CollectionVersion), VersionFields(d))
  {
    IsPatched(SyncPayload(CollectionVersionRow(d.collectionId, d.semver, d.notes, d.snapshot, d.folderCount, d.requestCount,
      d.createdAt, d.author)), Defaults(CollectionVersion), VersionFields(d));
  }

  lemma CollectionVariablePatched(b: Body, container: Patch<Id>, key: Patch<string>, value: Patch<string>, enabled: Patch<bool>,
      note: Patch<Option<string>>, order: Patch<nat>)
    requires b.CollectionVariableRow?
    ensures SyncPayload(CollectionVariableRow(container.Or(b.collectionId), key.Or(b.key), value.Or(b.value),
        enabled.Or(b.enabled), note.Or(b.note), order.Or(b.sortOrder)))
      == Patched(SyncPayload(b), CollectionVariableFields(container, key, value, enabled, note, order))
  {
    IsPatched(SyncPayload(CollectionVariableRow(container.Or(b.collectionId), key.Or(b.key), value.Or(b.value),
      enabled.Or(b.enabled), note.Or(b.note), order.Or(b.sortOrder))), SyncPayload(b),
      CollectionVariableFields(container, key, value, enabled, note, order));
  }

  lemma NewCollectionVariable(container: Id, key: string, value: Patch<string>, enabled: Patch<bool>, note: Patch<Option<string>>,
      order: Patch<nat>)
    ensures SyncPayload(CollectionVariableRow(container, key, value.Or(""), enabled.Or(true), note.Or(None), order.Or(0)))
      == Patched(Defaults(CollectionVariable), CollectionVariableFields(Given(container), Given(key), value, enabled, note, order))
  {
    IsPatched(SyncPayload(CollectionVariableRow(container, key, value.Or(""), enabled.Or(true), note.Or(None), order.Or(0))),
      Defaults(CollectionVariable), CollectionVariableFields(Given(container), Given(key), value, enabled, note, order));
  }

  // ---------------------------------------------------------------- welcome, told on rows

  predicate FolderOk(rows: Tables, b: Body) {
    InFolder(b).Some? ==>
      var k := Key(Folder, InFolder(b).value);
      k in rows && Container(rows[k].body) == Container(b)
  }

  ghost predicate UniqueFree(rows: Tables, k: Key, b: Body) {
    forall l :: l in rows && l != k && UniqueOf(b).Some? ==> UniqueOf(rows[l].body) != UniqueOf(b)
  }

  ghost predicate WelcomeRow(rows: Tables, foreign: set<Key>, k: Key, given: Fields, b: Body) {
    && (k !in rows ==> k !in foreign && forall f :: f in Required(k.kind) ==> Gives(given, f))
    && (k in rows ==> k.kind != CollectionVersion)
    && Container(b) <= rows.Keys
    && (k in rows && (k.kind == Folder || k.kind == EnvironmentVariable || k.kind == CollectionVariable) ==>
          Container(b) == Container(rows[k].body))
    && FolderOk(rows, b) && ParentOutside(rows, k, given)
    && UniqueFree(rows, k, b)
  }

  lemma ContainerThereExactly(rows: Tables, b: Body)
    ensures ContainerThere(rows, SyncPayload(b)) <==> Container(b) <= rows.Keys
  {}

  lemma FolderThereExactly(rows: Tables, b: Body)
    requires KindsMatch(rows)
    ensures FolderThere(rows, SyncPayload(b), FolderId) && FolderThere(rows, SyncPayload(b), ParentFolderId) <==> FolderOk(rows, b)
  {}

  lemma HoldsExactly(rows: Tables, l: Key, k: Key, b: Body)
    requires KindsMatch(rows) && KindOf(b) == k.kind && l in rows
    ensures Holds(rows, l, k, SyncPayload(b)) <==> l != k && UniqueOf(b).Some? && UniqueOf(rows[l].body) == UniqueOf(b)
  {}

  lemma WelcomeExactly(rows: Tables, foreign: set<Key>, k: Key, given: Fields, b: Body)
    requires WellFormed(rows) && KindOf(b) == k.kind && Wanted(rows, k, given) == SyncPayload(b)
    ensures Welcome(rows, foreign, k, given) <==> WelcomeRow(rows, foreign, k, given, b)
  {
    ContainerThereExactly(rows, b);
    FolderThereExactly(rows, b);
    PayloadShowsContainer(b);
    forall l | l in rows ensures Holds(rows, l, k, SyncPayload(b)) <==> l != k && UniqueOf(b).Some? && UniqueOf(rows[l].body) == UniqueOf(b) {
      HoldsExactly(rows, l, k, b);
    }
  }

  // ---------------------------------------------------------------- the mutations do it

  /** A decision that writes a row showing what is wanted, exactly when it is welcome, is right. */
  lemma RightIntro(rows: Tables, foreign: set<Key>, c: Command, d: Decision, b: Body)
    requires WellFormed(rows) && WritesById(c) && KindOf(b) == KeyOf(c).kind
    requires SyncPayload(b) == Wanted(rows, KeyOf(c), GivenBy(c)) && Stores(OldBody(rows, KeyOf(c)), b, None)
    requires var k := KeyOf(c);
      if VersionFits(rows, c) && Allows(rows, foreign, c, b)
        && (c.SyncPutVariable? || c.SyncPutGlobalVariable? ==> !SecretSent(rows, k, GivenBy(c)))
      then d == Write(k, b) else d.Refused?
    ensures Right(rows, foreign, c, d)
  {
    WelcomeExactly(rows, foreign, KeyOf(c), GivenBy(c), b);
  }

  lemma CollectionCreateRight(rows: Tables, foreign: set<Key>, c: Command)
    requires WellFormed(rows) && c.CreateCollection?
    ensures Right(rows, foreign, c, Decide(rows, foreign, c))
  {
    if KeyOf(c) !in rows {
      NewCollection(c.name, c.extras);
      RightIntro(rows, foreign, c, Decide(rows, foreign, c), CollectionRow(c.name, c.extras.On(NO_EXTRAS)));
    }
  }

  lemma CollectionUpdateRight(rows: Tables, foreign: set<Key>, c: Command)
    requires WellFormed(rows) && c.UpdateCollection?
    ensures Right(rows, foreign, c, Decide(rows, foreign, c))
  {
    if KeyOf(c) in rows {
      var b := rows[KeyOf(c)].body;
      CollectionPatched(b, c.newName, c.extras);
      RightIntro(rows, foreign, c, Decide(rows, foreign, c), CollectionRow(c.newName.Or(b.name), c.extras.On(b.extras)));
    }
  }

  lemma EnvironmentWriteRight(rows: Tables, foreign: set<Key>, c: Command)
    requires WellFormed(rows) && (c.CreateEnvironment? || c.UpdateEnvironment?)
    ensures Right(rows, foreign, c, Decide(rows, foreign, c))
  {
    var d := Decide(rows, foreign, c);
    if c.CreateEnvironment? {
      if KeyOf(c) !in rows {
        IsPatched(SyncPayload(EnvironmentRow(c.name)), Defaults(Environment), GivenBy(c));
        RightIntro(rows, foreign, c, d, EnvironmentRow(c.name));
      }
    } else if KeyOf(c) in rows {
      var b := rows[KeyOf(c)].body;
      IsPatched(SyncPayload(EnvironmentRow(c.newName.Or(b.name))), SyncPayload(b), GivenBy(c));
      RightIntro(rows, foreign, c, d, EnvironmentRow(c.newName.Or(b.name)));
    }
  }

  /** What a write of this body is refused or accepted for, apart from its version. */
  ghost predicate Allows(rows: Tables, foreign: set<Key>, c: Command, b: Body)
    requires WritesById(c)
  {
    WelcomeRow(rows, foreign, KeyOf(c), GivenBy(c), b)
  }

  /** A row's folder is there in its collection exactly when the folder check has nothing to say. */
  lemma FolderErrorExactly(rows: Tables, b: Body, collectionId: Id)
    requires KindsMatch(rows) && Container(b) == {Key(Collection, collectionId)}
    ensures FolderOk(rows, b) <==> InFolder(b).None? || FolderError(rows, collectionId, InFolder(b).value) == None
  {}

  /** What a new row without a unique key is refused for. */
  lemma NewIsWelcome(rows: Tables, foreign: set<Key>, k: Key, g: Fields, b: Body)
    requires k !in rows && UniqueOf(b) == None && forall f :: f in Required(k.kind) ==> Gives(g, f)
    ensures WelcomeRow(rows, foreign, k, g, b) <==> k !in foreign && Container(b) <= rows.Keys && FolderOk(rows, b)
  {}

  lemma ContainerFound(rows: Tables, kind: Kind, id: Id)
    requires KindsMatch(rows)
    ensures {Key(kind, id)} <= rows.Keys <==> Find(rows, kind, id).Some?
  {}

  lemma CreatesGiveRequired(c: Command)
    requires c.CreateFolder? || c.CreateRequest?
    ensures forall f :: f in Required(KeyOf(c).kind) ==> Gives(GivenBy(c), f)
  {}

  lemma FolderCreateAllowed(rows: Tables, foreign: set<Key>, c: Command, b: Body)
    requires WellFormed(rows) && c.CreateFolder? && KeyOf(c) !in rows
    requires b.FolderRow? && b.collectionId == c.collectionId && b.parent == c.parent.Or(None)
    ensures Allows(rows, foreign, c, b) <==>
      && KeyOf(c) !in foreign && Find(rows, Collection, c.collectionId).Some?
      && ParentError(rows, c.collectionId, c.parent.Or(None), None) == None
  {
    CreatesGiveRequired(c);
    NewIsWelcome(rows, foreign, KeyOf(c), GivenBy(c), b);
    ContainerFound(rows, Collection, c.collectionId);
    FolderErrorExactly(rows, b, c.collectionId);
  }

  lemma FolderCreateDecides(rows: Tables, foreign: set<Key>, c: Command, b: Body)
    requires WellFormed(rows) && c.CreateFolder? && KeyOf(c) !in rows
    requires b == FolderRow(c.collectionId, c.parent.Or(None), c.name, c.order.Or(0), c.extras.On(NO_EXTRAS))
    ensures if Allows(rows, foreign, c, b) then Decide(rows, foreign, c) == Write(KeyOf(c), b) else Decide(rows, foreign, c).Refused?
  {
    FolderCreateAllowed(rows, foreign, c, b);
  }

  lemma FolderCreateRight(rows: Tables, foreign: set<Key>, c: Command)
    requires WellFormed(rows) && c.CreateFolder?
    ensures Right(rows, foreign, c, Decide(rows, foreign, c))
  {
    if KeyOf(c) !in rows {
      var b := FolderRow(c.collectionId, c.parent.Or(None), c.name, c.order.Or(0), c.extras.On(NO_EXTRAS));
      NewFolder(c.collectionId, c.parent, c.name, c.order, c.extras);
      FolderCreateDecides(rows, foreign, c, b);
      RightIntro(rows, foreign, c, Decide(rows, foreign, c), b);
    }
  }

  /** The parent check has nothing to say exactly when the parent is in the collection and not below the folder. */
  lemma ParentErrorExactly(rows: Tables, collectionId: Id, parent: Id, self: Id)
    requires KindsMatch(rows)
    ensures ParentError(rows, collectionId, Some(parent), Some(self)) == None <==>
      var k := Key(Folder, parent);
      && k in rows && Container(rows[k].body) == {Key(Collection, collectionId)}
      && forall n: nat :: n <= WALK_LIMIT ==> !Meets(ParentsOf(rows), Some(parent), self, n)
  {
    ParentsFacts(rows);
    if parent == self { assert Meets(ParentsOf(rows), Some(parent), self, 0); }
    if parent in ParentsOf(rows) { MoveRefusedExactly(ParentsOf(rows), self, parent); }
  }

  lemma FolderUpdateRight(rows: Tables, foreign: set<Key>, c: Command)
    requires WellFormed(rows) && c.UpdateFolder?
    ensures Right(rows, foreign, c, Decide(rows, foreign, c))
  {
    var k := KeyOf(c);
    if k in rows {
      var b := rows[k].body;
      FolderPatched(b, c.parent, c.newName, c.order, c.extras);
      assert Refs(b) <= rows.Keys && FolderFits(rows, b);
      var next := FolderRow(b.collectionId, c.parent.Or(b.parent), c.newName.Or(b.name), c.order.Or(b.sortOrder), c.extras.On(b.extras));
      FolderUpdateAllowed(rows, foreign, c, next);
      RightIntro(rows, foreign, c, Decide(rows, foreign, c), next);
    }
  }

  lemma FolderUpdateAllowed(rows: Tables, foreign: set<Key>, c: Command, next: Body)
    requires WellFormed(rows) && c.UpdateFolder? && KeyOf(c) in rows
    requires var b := rows[KeyOf(c)].body;
      && Refs(b) <= rows.Keys && FolderFits(rows, b) && next.FolderRow? && next.collectionId == b.collectionId
      && next.parent == c.parent.Or(b.parent)
    ensures WelcomeRow(rows, foreign, KeyOf(c), GivenBy(c), next) <==>
      c.parent.Given? ==> ParentError(rows, next.collectionId, c.parent.value, Some(c.id)) == None
  {
    assert GivenBy(c)[ParentFolderId] == OfNullable(c.parent);
    assert InFolder(next) == next.parent && Container(next) == {Key(Collection, next.collectionId)};
    if c.parent.Given? && c.parent.value.Some? { ParentErrorExactly(rows, next.collectionId, c.parent.value.value, c.id); }
  }

  lemma RequestCreateAllowed(rows: Tables, foreign: set<Key>, c: Command, b: Body)
    requires WellFormed(rows) && c.CreateRequest? && KeyOf(c) !in rows
    requires b.RequestRow? && b.collectionId == c.collectionId && b.folderId == c.folder.Or(None)
    ensures Allows(rows, foreign, c, b) <==>
      && KeyOf(c) !in foreign && Find(rows, Collection, c.collectionId).Some?
      && RequestFolderError(rows, c.collectionId, c.folder.Or(None)) == None
  {
    CreatesGiveRequired(c);
    NewIsWelcome(rows, foreign, KeyOf(c), GivenBy(c), b);
    ContainerFound(rows, Collection, c.collectionId);
    FolderErrorExactly(rows, b, c.collectionId);
  }

  lemma RequestCreateDecides(rows: Tables, foreign: set<Key>, c: Command, b: Body)
    requires WellFormed(rows) && c.CreateRequest? && KeyOf(c) !in rows
    requires b == RequestRow(c.collectionId, c.folder.Or(None), c.name, c.verb, c.url, c.document, c.order.Or(0))
    ensures if Allows(rows, foreign, c, b) then Decide(rows, foreign, c) == Write(KeyOf(c), b) else Decide(rows, foreign, c).Refused?
  {
    RequestCreateAllowed(rows, foreign, c, b);
  }

  lemma RequestCreateRight(rows: Tables, foreign: set<Key>, c: Command)
    requires WellFormed(rows) && c.CreateRequest?
    ensures Right(rows, foreign, c, Decide(rows, foreign, c))
  {
    if KeyOf(c) !in rows {
      var b := RequestRow(c.collectionId, c.folder.Or(None), c.name, c.verb, c.url, c.document, c.order.Or(0));
      NewRequest(c.collectionId, c.folder, c.name, c.verb, c.url, c.document, c.order);
      RequestCreateDecides(rows, foreign, c, b);
      RightIntro(rows, foreign, c, Decide(rows, foreign, c), b);
    }
  }

  lemma RequestUpdateAllowed(rows: Tables, foreign: set<Key>, c: Command, b: Body)
    requires WellFormed(rows) && c.UpdateRequest? && KeyOf(c) in rows && b.RequestRow?
    requires var o := rows[KeyOf(c)].body;
      && b.collectionId == c.target.Or(o.collectionId) && b.folderId == c.folder.Or(o.folderId)
      && Refs(o) <= rows.Keys && FolderFits(rows, o)
    ensures var o := rows[KeyOf(c)].body;
      Allows(rows, foreign, c, b) <==>
        && (b.collectionId != o.collectionId ==> Find(rows, Collection, b.collectionId).Some?)
        && (c.folder.Given? || b.collectionId != o.collectionId ==> RequestFolderError(rows, b.collectionId, b.folderId) == None)
  {
    FolderErrorExactly(rows, b, b.collectionId);
    FolderErrorExactly(rows, rows[KeyOf(c)].body, rows[KeyOf(c)].body.collectionId);
  }

  lemma RequestUpdateDecides(rows: Tables, foreign: set<Key>, c: Command, b: Body)
    requires WellFormed(rows) && c.UpdateRequest? && KeyOf(c) in rows
    requires var o := rows[KeyOf(c)].body;
      b == RequestRow(c.target.Or(o.collectionId), c.folder.Or(o.folderId), c.newName.Or(o.name), c.newVerb.Or(o.verb),
        c.newUrl.Or(o.url), c.newDocument.Or(o.document), c.order.Or(o.sortOrder))
    ensures var d := Decide(rows, foreign, c);
      if rows[KeyOf(c)].version == c.expected && Allows(rows, foreign, c, b) then d == Write(KeyOf(c), b) else d.Refused?
  {
    assert Refs(rows[KeyOf(c)].body) <= rows.Keys && FolderFits(rows, rows[KeyOf(c)].body);
    RequestUpdateAllowed(rows, foreign, c, b);
  }

  lemma RequestUpdateRight(rows: Tables, foreign: set<Key>, c: Command)
    requires WellFormed(rows) && c.UpdateRequest?
    ensures Right(rows, foreign, c, Decide(rows, foreign, c))
  {
    var k := KeyOf(c);
    if k in rows {
      var o := rows[k].body;
      var b := RequestRow(c.target.Or(o.collectionId), c.folder.Or(o.folderId), c.newName.Or(o.name), c.newVerb.Or(o.verb),
        c.newUrl.Or(o.url), c.newDocument.Or(o.document), c.order.Or(o.sortOrder));
      RequestPatched(o, c.target, c.folder, c.newName, c.newVerb, c.newUrl, c.newDocument, c.order);
      RequestUpdateDecides(rows, foreign, c, b);
      RightIntro(rows, foreign, c, Decide(rows, foreign, c), b);
    }
  }

  lemma VersionCreateAllowed(rows: Tables, foreign: set<Key>, c: Command, b: Body)
    requires WellFormed(rows) && c.CreateCollectionVersion? && KeyOf(c) !in rows && b.CollectionVersionRow?
    requires b.collectionId == c.data.collectionId && b.semver == c.data.semver
    ensures Allows(rows, foreign, c, b) <==>
      && KeyOf(c) !in foreign && Find(rows, Collection, b.collectionId).Some?
      && FirstOf(Holders(rows, SemverKey(b.collectionId, b.semver))) == None
  {
    NoClashExactly(rows, KeyOf(c), b);
  }

  lemma VersionCreateDecides(rows: Tables, foreign: set<Key>, c: Command, b: Body)
    requires WellFormed(rows) && c.CreateCollectionVersion? && KeyOf(c) !in rows
    requires var e := c.data;
      b == CollectionVersionRow(e.collectionId, e.semver, e.notes, e.snapshot, e.folderCount, e.requestCount, e.createdAt, e.author)
    ensures if Allows(rows, foreign, c, b) then Decide(rows, foreign, c) == Write(KeyOf(c), b) else Decide(rows, foreign, c).Refused?
  {
    VersionCreateAllowed(rows, foreign, c, b);
  }

  lemma VersionCreateRight(rows: Tables, foreign: set<Key>, c: Command)
    requires WellFormed(rows) && c.CreateCollectionVersion?
    ensures Right(rows, foreign, c, Decide(rows, foreign, c))
  {
    var e := c.data;
    if KeyOf(c) !in rows {
      var b := CollectionVersionRow(e.collectionId, e.semver, e.notes, e.snapshot, e.folderCount, e.requestCount, e.createdAt, e.author);
      NewVersion(e);
      VersionCreateDecides(rows, foreign, c, b);
      RightIntro(rows, foreign, c, Decide(rows, foreign, c), b);
    } else {
      VersionTaken(rows, foreign, c);
    }
  }

  lemma VersionTaken(rows: Tables, foreign: set<Key>, c: Command)
    requires c.CreateCollectionVersion? && KeyOf(c) in rows
    ensures Decide(rows, foreign, c).Refused?
  {}

  /** There is no other holder of the unique key exactly when the key is free. */
  lemma NoClashExactly(rows: Tables, k: Key, b: Body)
    requires WellFormed(rows) && KindOf(b) == k.kind && UniqueOf(b).Some?
    ensures FirstOf(Holders(rows, UniqueOf(b).value) - {k.id}) == None <==> UniqueFree(rows, k, b)
    ensures k !in rows ==> (FirstOf(Holders(rows, UniqueOf(b).value)) == None <==> UniqueFree(rows, k, b))
  {
    var u := UniqueOf(b).value;
    HolderFacts(rows, u, k.kind);
    if UniqueFree(rows, k, b) {
      forall id | id in Holders(rows, u) ensures id == k.id && k in rows { assert Key(k.kind, id) in rows; }
    } else {
      var l :| l in rows && l != k && UniqueOf(rows[l].body) == UniqueOf(b);
      assert l.kind == k.kind && l.id in Holders(rows, u);
    }
  }

  /** A variable shows the four fields it is given, whatever it showed before. */
  lemma VariableShows(p: Payload, b: Body, value: Option<string>)
    requires b.EnvironmentVariableRow? && p.Keys <= {EnvironmentId, VariableKey, Value, IsSecret}
    requires !b.isSecret ==> b.stored == Plain(if value.Some? then value.value else "")
    ensures SyncPayload(b) == Settled(Patched(p, VariableFields(b.environmentId, b.key, value, b.isSecret)))
  {
    IsSettled(b, p, VariableFields(b.environmentId, b.key, value, b.isSecret));
  }

  lemma VariableShowsFour(rows: Tables, k: Key)
    requires KindsMatch(rows) && k.kind == EnvironmentVariable
    ensures ShownAt(rows, k).Keys <= {EnvironmentId, VariableKey, Value, IsSecret}
  {
    if k in rows { assert rows[k].body.EnvironmentVariableRow?; }
  }

  lemma VariablePutRight(rows: Tables, foreign: set<Key>, c: Command)
    requires WellFormed(rows) && c.SyncPutVariable?
    ensures Right(rows, foreign, c, Decide(rows, foreign, c))
  {
    var k := KeyOf(c);
    var kept := if k in rows && rows[k].body.isSecret then rows[k].body.stored else Nothing;
    var b := EnvironmentVariableRow(c.environmentId, c.key,
      if c.isSecret then kept else Plain(if c.sent.Some? then c.sent.value else ""), c.isSecret);
    VariableShowsFour(rows, k);
    VariableShows(ShownAt(rows, k), b, c.sent);
    NoClashExactly(rows, k, b);
    VariablePutAllowed(rows, foreign, c, b);
    VariablePutDecides(rows, foreign, c, b);
    RightIntro(rows, foreign, c, Decide(rows, foreign, c), b);
  }

  lemma VariablePutDecides(rows: Tables, foreign: set<Key>, c: Command, b: Body)
    requires WellFormed(rows) && c.SyncPutVariable?
    requires var k := KeyOf(c);
      b == EnvironmentVariableRow(c.environmentId, c.key, if c.isSecret then
          (if k in rows && rows[k].body.isSecret then rows[k].body.stored else Nothing)
        else Plain(if c.sent.Some? then c.sent.value else ""), c.isSecret)
    ensures var k, d := KeyOf(c), Decide(rows, foreign, c);
      if !(c.isSecret && c.sent.Some?) && Find(rows, Environment, c.environmentId).Some?
        && FirstOf(Holders(rows, EnvironmentKey(c.environmentId, c.key)) - {c.id}) == None
        && (if k in rows then rows[k].body.environmentId == c.environmentId else k !in foreign)
      then d == Write(k, b) else d.Refused?
  {}

  /** What a variable written by sync is refused for. */
  lemma PutIsWelcome(rows: Tables, foreign: set<Key>, k: Key, g: Fields, b: Body)
    requires k.kind in {EnvironmentVariable, CollectionVariable, GlobalVariable} && KindOf(b) == k.kind
    requires k !in rows ==> forall f :: f in Required(k.kind) ==> Gives(g, f)
    ensures WelcomeRow(rows, foreign, k, g, b) <==>
      && (k !in rows ==> k !in foreign) && Container(b) <= rows.Keys && UniqueFree(rows, k, b)
      && (k in rows && k.kind != GlobalVariable ==> Container(b) == Container(rows[k].body))
  {}

  lemma VariableSecretSent(rows: Tables, c: Command)
    requires c.SyncPutVariable?
    ensures SecretSent(rows, KeyOf(c), GivenBy(c)) <==> c.isSecret && c.sent.Some?
  {}

  lemma VariableGivesRequired(c: Command)
    requires c.SyncPutVariable? || (c.SyncPutCollectionVariable? && c.container.Given? && c.newKey.Given?) || (c.SyncPutGlobalVariable? && c.newKey.Given?)
    ensures forall f :: f in Required(KeyOf(c).kind) ==> Gives(GivenBy(c), f)
  {}

  lemma VariablePutAllowed(rows: Tables, foreign: set<Key>, c: Command, b: Body)
    requires WellFormed(rows) && c.SyncPutVariable? && b.EnvironmentVariableRow? && b.environmentId == c.environmentId && b.key == c.key
    requires FirstOf(Holders(rows, UniqueOf(b).value) - {c.id}) == None <==> UniqueFree(rows, KeyOf(c), b)
    ensures WelcomeRow(rows, foreign, KeyOf(c), GivenBy(c), b) <==>
      && Find(rows, Environment, c.environmentId).Some? && FirstOf(Holders(rows, EnvironmentKey(c.environmentId, c.key)) - {c.id}) == None
      && if KeyOf(c) in rows then rows[KeyOf(c)].body.environmentId == c.environmentId else KeyOf(c) !in foreign
    ensures SecretSent(rows, KeyOf(c), GivenBy(c)) <==> c.isSecret && c.sent.Some?
  {
    VariableSecretSent(rows, c);
    VariableGivesRequired(c);
    PutIsWelcome(rows, foreign, KeyOf(c), GivenBy(c), b);
    ContainerFound(rows, Environment, c.environmentId);
  }

  /** A payload is the settled patched one when it is so field by field. */
  lemma IsSettled(b: Body, p: Payload, g: Fields)
    requires var q := SyncPayload(b);
      && IsSecret in q && Value in q && (Gives(g, IsSecret) || IsSecret in p)
      && (forall f :: f != Value ==> PatchedAt(q, p, g, f))
      && var raw := Patched(p, g);
         q[Value] == if SecretIn(raw) then Null else if Value in raw && raw[Value].Text? then raw[Value] else Text("")
    ensures SyncPayload(b) == Settled(Patched(p, g))
  {
    var q, r := SyncPayload(b), Settled(Patched(p, g));
    forall f ensures (f in q <==> f in r) && (f in q ==> q[f] == r[f]) { if f != Value { assert PatchedAt(q, p, g, f); } }
  }

  lemma CollectionVariableAllowed(rows: Tables, foreign: set<Key>, c: Command, b: Body)
    requires WellFormed(rows) && c.SyncPutCollectionVariable? && b.CollectionVariableRow?
    requires KeyOf(c) !in rows ==> c.container.Given? && c.newKey.Given?
    ensures Allows(rows, foreign, c, b) <==>
      && Find(rows, Collection, b.collectionId).Some?
      && (if KeyOf(c) in rows then b.collectionId == rows[KeyOf(c)].body.collectionId else KeyOf(c) !in foreign)
      && FirstOf(Holders(rows, CollectionKey(b.collectionId, b.key)) - {c.id}) == None
  {
    if KeyOf(c) !in rows { VariableGivesRequired(c); }
    PutIsWelcome(rows, foreign, KeyOf(c), GivenBy(c), b);
    ContainerFound(rows, Collection, b.collectionId);
    NoClashExactly(rows, KeyOf(c), b);
  }

  lemma CollectionVariableUpdateDecides(rows: Tables, foreign: set<Key>, c: Command, b: Body)
    requires WellFormed(rows) && c.SyncPutCollectionVariable? && KeyOf(c) in rows
    requires var o := rows[KeyOf(c)].body;
      b == CollectionVariableRow(c.container.Or(o.collectionId), c.newKey.Or(o.key), c.newValue.Or(o.value),
        c.enabled.Or(o.enabled), c.note.Or(o.note), c.order.Or(o.sortOrder))
    ensures if Allows(rows, foreign, c, b) then Decide(rows, foreign, c) == Write(KeyOf(c), b) else Decide(rows, foreign, c).Refused?
  {
    CollectionVariableAllowed(rows, foreign, c, b);
  }

  lemma CollectionVariableCreateDecides(rows: Tables, foreign: set<Key>, c: Command, b: Body)
    requires WellFormed(rows) && c.SyncPutCollectionVariable? && KeyOf(c) !in rows && c.container.Given? && c.newKey.Given?
    requires b == CollectionVariableRow(c.container.value, c.newKey.value, c.newValue.Or(""), c.enabled.Or(true), c.note.Or(None), c.order.Or(0))
    ensures if Allows(rows, foreign, c, b) then Decide(rows, foreign, c) == Write(KeyOf(c), b) else Decide(rows, foreign, c).Refused?
  {
    CollectionVariableAllowed(rows, foreign, c, b);
  }

  lemma CollectionVariablePutRight(rows: Tables, foreign: set<Key>, c: Command)
    requires WellFormed(rows) && c.SyncPutCollectionVariable?
    ensures Right(rows, foreign, c, Decide(rows, foreign, c))
  {
    var k := KeyOf(c);
    if k in rows {
      CollectionVariableUpdateRight(rows, foreign, c);
    } else if c.container.Given? && c.newKey.Given? {
      CollectionVariableCreateRight(rows, foreign, c);
    } else {
      IncompleteIsRefused(rows, foreign, c, if c.container.Given? then VariableKey else CollectionId);
    }
  }

  /** A new variable without a field it cannot do without. */
  lemma IncompleteIsRefused(rows: Tables, foreign: set<Key>, c: Command, f: Field)
    requires (c.SyncPutCollectionVariable? && (c.container.Absent? || c.newKey.Absent?)) || (c.SyncPutGlobalVariable? && c.newKey.Absent?)
    requires KeyOf(c) !in rows && f in Required(KeyOf(c).kind) && !Gives(GivenBy(c), f)
    ensures Right(rows, foreign, c, Decide(rows, foreign, c))
  {
    assert !Welcome(rows, foreign, KeyOf(c), GivenBy(c));
  }

  lemma CollectionVariableCreateRight(rows: Tables, foreign: set<Key>, c: Command)
    requires WellFormed(rows) && c.SyncPutCollectionVariable? && KeyOf(c) !in rows && c.container.Given? && c.newKey.Given?
    ensures Right(rows, foreign, c, Decide(rows, foreign, c))
  {
    var b := CollectionVariableRow(c.container.value, c.newKey.value, c.newValue.Or(""), c.enabled.Or(true), c.note.Or(None), c.order.Or(0));
    NewCollectionVariable(c.container.value, c.newKey.value, c.newValue, c.enabled, c.note, c.order);
    CollectionVariableCreateDecides(rows, foreign, c, b);
    RightIntro(rows, foreign, c, Decide(rows, foreign, c), b);
  }

  lemma CollectionVariableUpdateRight(rows: Tables, foreign: set<Key>, c: Command)
    requires WellFormed(rows) && c.SyncPutCollectionVariable? && KeyOf(c) in rows
    ensures Right(rows, foreign, c, Decide(rows, foreign, c))
  {
    var o := rows[KeyOf(c)].body;
    var b := CollectionVariableRow(c.container.Or(o.collectionId), c.newKey.Or(o.key), c.newValue.Or(o.value),
      c.enabled.Or(o.enabled), c.note.Or(o.note), c.order.Or(o.sortOrder));
    CollectionVariablePatched(o, c.container, c.newKey, c.newValue, c.enabled, c.note, c.order);
    CollectionVariableUpdateDecides(rows, foreign, c, b);
    RightIntro(rows, foreign, c, Decide(rows, foreign, c), b);
  }

  /** What becomes of the text of a global that is not a secret. */
  function GlobalText(o: Option<Body>, plain: Patch<Option<string>>): string
    requires o.Some? ==> o.value.GlobalVariableRow?
  {
    if plain.Given? then (if plain.value.Some? then plain.value.value else "")
    else if o.Some? && !o.value.isSecret && o.value.plain.Some? then o.value.plain.value
    else ""
  }

  function GlobalAfter(o: Option<Body>, c: Command): Body
    requires c.SyncPutGlobalVariable? && (o.Some? ==> o.value.GlobalVariableRow?) && (o.None? ==> c.newKey.Given?)
  {
    var secret := c.secret.Or(o.Some? && o.value.isSecret);
    var stored := if secret then None else Some(GlobalText(o, c.plain));
    if o.Some? then
      GlobalVariableRow(c.newKey.Or(o.value.key), stored, secret, c.enabled.Or(o.value.enabled), c.note.Or(o.value.note),
        c.order.Or(o.value.sortOrder))
    else GlobalVariableRow(c.newKey.value, stored, secret, c.enabled.Or(true), c.note.Or(None), c.order.Or(0))
  }

  /** The value that a settled, patched payload shows. */
  function ValueShown(p: Payload, g: Fields): Json {
    var secret := if Gives(g, IsSecret) then g[IsSecret].value == Flag(true) else SecretIn(p);
    var value := if Gives(g, Value) then g[Value].value else if Value in p then p[Value] else Null;
    if secret then Null else if value.Text? then value else Text("")
  }

  lemma SettledShows(b: Body, p: Payload, g: Fields)
    requires IsSecret in SyncPayload(b) && (Gives(g, IsSecret) || IsSecret in p)
    requires forall f :: f != Value ==> PatchedAt(SyncPayload(b), p, g, f)
    requires Value in SyncPayload(b) && SyncPayload(b)[Value] == ValueShown(p, g)
    ensures SyncPayload(b) == Settled(Patched(p, g))
  {
    IsSettled(b, p, g);
  }

  lemma GlobalFieldsShown(o: Body, c: Command, f: Field)
    requires c.SyncPutGlobalVariable? && o.GlobalVariableRow? && f != Value
    ensures PatchedAt(SyncPayload(GlobalAfter(Some(o), c)), SyncPayload(o), GivenBy(c), f)
  {}

  lemma GlobalValueShown(o: Body, c: Command)
    requires c.SyncPutGlobalVariable? && o.GlobalVariableRow? && (!o.isSecret ==> o.plain.Some?)
    ensures SyncPayload(GlobalAfter(Some(o), c))[Value] == ValueShown(SyncPayload(o), GivenBy(c))
  {}

  lemma GlobalShows(o: Body, c: Command)
    requires c.SyncPutGlobalVariable? && o.GlobalVariableRow? && (!o.isSecret ==> o.plain.Some?)
    ensures SyncPayload(GlobalAfter(Some(o), c)) == Settled(Patched(SyncPayload(o), GivenBy(c)))
  {
    forall f | f != Value ensures PatchedAt(SyncPayload(GlobalAfter(Some(o), c)), SyncPayload(o), GivenBy(c), f) {
      GlobalFieldsShown(o, c, f);
    }
    GlobalValueShown(o, c);
    SettledShows(GlobalAfter(Some(o), c), SyncPayload(o), GivenBy(c));
  }

  lemma NewGlobalFieldsShown(c: Command, f: Field)
    requires c.SyncPutGlobalVariable? && c.newKey.Given? && f != Value
    ensures PatchedAt(SyncPayload(GlobalAfter(None, c)), Defaults(GlobalVariable), GivenBy(c), f)
  {
    if f !in {VariableKey, IsSecret, Enabled, Description, SortOrder} { NoSuchField(c, f); }
  }

  lemma NoSuchField(c: Command, f: Field)
    requires c.SyncPutGlobalVariable? && c.newKey.Given? && f !in {VariableKey, IsSecret, Enabled, Description, SortOrder, Value}
    ensures f !in SyncPayload(GlobalAfter(None, c)) && f !in GivenBy(c) && f !in Defaults(GlobalVariable)
  {}

  lemma NewGlobalShows(c: Command)
    requires c.SyncPutGlobalVariable? && c.newKey.Given?
    ensures SyncPayload(GlobalAfter(None, c)) == Settled(Patched(Defaults(GlobalVariable), GivenBy(c)))
  {
    forall f | f != Value ensures PatchedAt(SyncPayload(GlobalAfter(None, c)), Defaults(GlobalVariable), GivenBy(c), f) {
      NewGlobalFieldsShown(c, f);
    }
    SettledShows(GlobalAfter(None, c), Defaults(GlobalVariable), GivenBy(c));
  }

  lemma GlobalPutDecides(rows: Tables, foreign: set<Key>, c: Command)
    requires WellFormed(rows) && c.SyncPutGlobalVariable? && (KeyOf(c) !in rows ==> c.newKey.Given?)
    ensures var k, o, d := KeyOf(c), OldBody(rows, KeyOf(c)), Decide(rows, foreign, c);
      var b := GlobalAfter(o, c);
      if !SecretSent(rows, k, GivenBy(c)) && FirstOf(Holders(rows, GlobalKey(b.key)) - {c.id}) == None && (k in rows || k !in foreign)
      then d == Write(k, b) else d.Refused?
  {
    GlobalSecretSent(rows, c);
  }

  lemma GlobalSecretSent(rows: Tables, c: Command)
    requires WellFormed(rows) && c.SyncPutGlobalVariable?
    ensures var k := KeyOf(c);
      SecretSent(rows, k, GivenBy(c)) <==>
        && c.secret.Or(k in rows && rows[k].body.isSecret)
        && (if k in rows then c.plain.Or(None) else c.plain.Or(Some(""))).Some?
  {}

  lemma GlobalAllowed(rows: Tables, foreign: set<Key>, c: Command, b: Body)
    requires WellFormed(rows) && c.SyncPutGlobalVariable? && b.GlobalVariableRow? && (KeyOf(c) !in rows ==> c.newKey.Given?)
    ensures Allows(rows, foreign, c, b) <==>
      FirstOf(Holders(rows, GlobalKey(b.key)) - {c.id}) == None && (KeyOf(c) in rows || KeyOf(c) !in foreign)
  {
    if KeyOf(c) !in rows { VariableGivesRequired(c); }
    PutIsWelcome(rows, foreign, KeyOf(c), GivenBy(c), b);
    NoClashExactly(rows, KeyOf(c), b);
  }

  lemma GlobalPutRight(rows: Tables, foreign: set<Key>, c: Command)
    requires WellFormed(rows) && c.SyncPutGlobalVariable?
    ensures Right(rows, foreign, c, Decide(rows, foreign, c))
  {
    if KeyOf(c) !in rows && c.newKey.Absent? {
      IncompleteIsRefused(rows, foreign, c, VariableKey);
    } else {
      var b := GlobalAfter(OldBody(rows, KeyOf(c)), c);
      GlobalShowsWanted(rows, c, b);
      GlobalAllowed(rows, foreign, c, b);
      GlobalPutDecides(rows, foreign, c);
      RightIntro(rows, foreign, c, Decide(rows, foreign, c), b);
    }
  }

  lemma GlobalShowsWanted(rows: Tables, c: Command, b: Body)
    requires WellFormed(rows) && c.SyncPutGlobalVariable? && (KeyOf(c) in rows || c.newKey.Given?)
    requires b == GlobalAfter(OldBody(rows, KeyOf(c)), c)
    ensures SyncPayload(b) == Wanted(rows, KeyOf(c), GivenBy(c)) && Stores(OldBody(rows, KeyOf(c)), b, None)
  {
    if KeyOf(c) in rows {
      assert SecretStored(rows[KeyOf(c)].body);
      GlobalShows(rows[KeyOf(c)].body, c);
    } else {
      NewGlobalShows(c);
    }
  }

  /**
   * Every mutation that writes by id does exactly what is asked: it is accepted if and only if its version fits and it is
   * welcome, and then its row shows the given fields as given and the others as they were or by default.
   */
  lemma WritesAreRight(rows: Tables, foreign: set<Key>, c: Command)
    requires WellFormed(rows) && WritesById(c)
    ensures Right(rows, foreign, c, Decide(rows, foreign, c))
  {
    match c
    case CreateCollection(_, _, _) => CollectionCreateRight(rows, foreign, c);
    case UpdateCollection(_, _, _, _) => CollectionUpdateRight(rows, foreign, c);
    case CreateFolder(_, _, _, _, _, _) => FolderCreateRight(rows, foreign, c);
    case UpdateFolder(_, _, _, _, _, _) => FolderUpdateRight(rows, foreign, c);
    case CreateRequest(_, _, _, _, _, _, _, _) => RequestCreateRight(rows, foreign, c);
    case UpdateRequest(_, _, _, _, _, _, _, _, _) => RequestUpdateRight(rows, foreign, c);
    case CreateEnvironment(_, _) => EnvironmentWriteRight(rows, foreign, c);
    case UpdateEnvironment(_, _, _) => EnvironmentWriteRight(rows, foreign, c);
    case SyncPutVariable(_, _, _, _, _) => VariablePutRight(rows, foreign, c);
    case CreateCollectionVersion(_, _) => VersionCreateRight(rows, foreign, c);
    case SyncPutCollectionVariable(_, _, _, _, _, _, _) => CollectionVariablePutRight(rows, foreign, c);
    case SyncPutGlobalVariable(_, _, _, _, _, _, _) => GlobalPutRight(rows, foreign, c);
  }

  /** The environment variable that shows this key, by REST the target of a write or a delete. */
  predicate ShowsVariable(rows: Tables, k: Key, environmentId: Id, key: string) {
    && k in rows && k.kind == EnvironmentVariable
    && var p := SyncPayload(rows[k].body);
       EnvironmentId in p && p[EnvironmentId] == Text(environmentId) && VariableKey in p && p[VariableKey] == Text(key)
  }

  /** A REST write of a variable, at its target: the variable that shows the key, or a new one. */
  ghost predicate AcceptsVariable(rows: Tables, foreign: set<Key>, c: Command, k: Key)
    requires c.PutVariable?
  {
    && Key(Environment, c.environmentId) in rows
    && (ShowsVariable(rows, k, c.environmentId, c.key) ==> (c.given.Some? ==> c.given.value == rows[k].version))
    && (!ShowsVariable(rows, k, c.environmentId, c.key) ==>
          && k == Key(EnvironmentVariable, c.freshId) && k !in rows && k !in foreign
          && forall l :: !ShowsVariable(rows, l, c.environmentId, c.key))
  }

  lemma ShowsExactly(rows: Tables, k: Key, environmentId: Id, key: string)
    requires WellFormed(rows)
    ensures ShowsVariable(rows, k, environmentId, key)
      <==> k.kind == EnvironmentVariable && k.id in Holders(rows, EnvironmentKey(environmentId, key))
  {
    var u := EnvironmentKey(environmentId, key);
    HolderFacts(rows, u, EnvironmentVariable);
    if k in rows { assert rows[k].body == rows[k].body && KindOf(rows[k].body) == k.kind; }
    if k.kind == EnvironmentVariable && k.id in Holders(rows, u) { assert k == Key(EnvironmentVariable, k.id); }
  }

  /** The decision in terms of the holder of the key. */
  lemma VariableWriteDecides(rows: Tables, foreign: set<Key>, c: Command)
    requires WellFormed(rows) && c.PutVariable?
    ensures var d, held := Decide(rows, foreign, c), FirstOf(Holders(rows, EnvironmentKey(c.environmentId, c.key)));
      var k := Key(EnvironmentVariable, if held.Some? then held.value else c.freshId);
      if Key(Environment, c.environmentId) in rows
        && (if held.Some? then k in rows && (c.given.Some? ==> c.given.value == rows[k].version) else k !in rows && k !in foreign)
      then d == Write(k, EnvironmentVariableRow(c.environmentId, c.key, if c.isSecret then Cipher(c.value) else Plain(c.value), c.isSecret))
      else d.Refused?
  {
    HolderFacts(rows, EnvironmentKey(c.environmentId, c.key), EnvironmentVariable);
  }

  /**
   * A REST write of a variable goes to the variable that shows the key, or else makes a new one; it shows the value unless
   * it is a secret, and stores a secret sealed.
   */
  lemma VariableWriteRight(rows: Tables, foreign: set<Key>, c: Command)
    requires WellFormed(rows) && c.PutVariable?
    ensures var d, g := Decide(rows, foreign, c), VariableFields(c.environmentId, c.key, Some(c.value), c.isSecret);
      && (d.Write? <==> exists k :: AcceptsVariable(rows, foreign, c, k))
      && (d.Write? ==> AcceptsVariable(rows, foreign, c, d.key) && WritesWanted(rows, d, d.key, g, if c.isSecret then Some(c.value) else None))
      && (d.Write? || d.Refused?)
  {
    VariableWriteDecides(rows, foreign, c);
    VariableWriteAccepted(rows, foreign, c);
    var d := Decide(rows, foreign, c);
    if d.Write? {
      assert AcceptsVariable(rows, foreign, c, d.key);
      VariableShowsFour(rows, d.key);
      VariableShows(ShownAt(rows, d.key), d.body, Some(c.value));
    }
  }

  lemma VariableWriteAccepted(rows: Tables, foreign: set<Key>, c: Command)
    requires WellFormed(rows) && c.PutVariable?
    ensures var held := FirstOf(Holders(rows, EnvironmentKey(c.environmentId, c.key)));
      var k := Key(EnvironmentVariable, if held.Some? then held.value else c.freshId);
      forall l :: AcceptsVariable(rows, foreign, c, l) <==>
        && l == k && Key(Environment, c.environmentId) in rows
        && if held.Some? then k in rows && (c.given.Some? ==> c.given.value == rows[k].version) else k !in rows && k !in foreign
  {
    var u := EnvironmentKey(c.environmentId, c.key);
    var held := FirstOf(Holders(rows, u));
    forall l ensures ShowsVariable(rows, l, c.environmentId, c.key) <==> l.kind == EnvironmentVariable && l.id in Holders(rows, u) {
      ShowsExactly(rows, l, c.environmentId, c.key);
    }
    if held.Some? { VariableIsOne(rows, Key(EnvironmentVariable, held.value), c.environmentId, c.key); }
  }

  lemma VariableIsOne(rows: Tables, k: Key, environmentId: Id, key: string)
    requires WellFormed(rows) && ShowsVariable(rows, k, environmentId, key)
    ensures Holders(rows, EnvironmentKey(environmentId, key)) == {k.id}
  {
    var u := EnvironmentKey(environmentId, key);
    HolderFacts(rows, u, EnvironmentVariable);
    forall id | id in Holders(rows, u) ensures id == k.id { assert Key(EnvironmentVariable, id) in rows; }
  }
}
