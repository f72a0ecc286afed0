/**
 * The audit row of a content write. What the item was before is taken from its last log entry; an update that changed
 * nothing worth showing writes no row.
 */
module Audit {
  import opened Prelude
  import opened Rows
  import opened Content
  import opened Integrity
  import opened Journal

  datatype AuditAction = Created | Updated | Deleted

  /** A changed field, with its old and new value when they may be shown; a part of a request document; a new position. */
  datatype ContentChange =
    | FieldChange(field: Field, values: Option<(Json, Json)>)
    | PartChange(part: string)
    | PositionChange

  datatype AuditRow = AuditRow(action: AuditAction, key: Key, name: Option<string>, changes: seq<ContentChange>)

  /** The names of the parts of a request document that differ, given the two document texts. */
  type Parts = (Json, Json) -> seq<string>

  const VALUE_FIELDS := {Name, Method, Url, VariableKey, Value, Enabled, IsSecret, Semver, DescriptionType}
  const IGNORED_FIELDS := {SortOrder, FolderCount, RequestCount, CreatedAt, CreatedBy}
  const MAX_VALUE: nat := 200

  const ALL_FIELDS: seq<Field> := [
    Name, ScriptsJson, Description, DescriptionType, AuthJson, CollectionId, ParentFolderId, SortOrder, FolderId, Method,
    Url, DocumentJson, EnvironmentId, VariableKey, Value, IsSecret, Semver, Notes, SnapshotJson, FolderCount, RequestCount,
    CreatedAt, CreatedBy, Enabled]

  function IndexOf(f: Field): nat {
    match f
    case Name => 0 case ScriptsJson => 1 case Description => 2 case DescriptionType => 3 case AuthJson => 4
    case CollectionId => 5 case ParentFolderId => 6 case SortOrder => 7 case FolderId => 8 case Method => 9
    case Url => 10 case DocumentJson => 11 case EnvironmentId => 12 case VariableKey => 13 case Value => 14
    case IsSecret => 15 case Semver => 16 case Notes => 17 case SnapshotJson => 18 case FolderCount => 19
    case RequestCount => 20 case CreatedAt => 21 case CreatedBy => 22 case Enabled => 23
  }

  /** Every field is listed, and at one place only. */
  lemma AllFieldsListed(f: Field)
    ensures IndexOf(f) < |ALL_FIELDS| && ALL_FIELDS[IndexOf(f)] == f
    ensures forall i :: 0 <= i < |ALL_FIELDS| && ALL_FIELDS[i] == f ==> i == IndexOf(f)
  {
    assert forall i :: 0 <= i < |ALL_FIELDS| ==> IndexOf(ALL_FIELDS[i]) == i;
  }

  // ---------------------------------------------------------------- differences

  function OrAbsent(p: Payload, f: Field): Json {
    if f in p then p[f] else Null
  }

  /** An absent field and a null one are the same. */
  predicate Same(before: Payload, after: Payload, f: Field) {
    OrAbsent(before, f) == OrAbsent(after, f)
  }

  function Shown(v: Json): Json {
    if v.Text? && |v.text| > MAX_VALUE then Text(v.text[..MAX_VALUE] + "…") else v
  }

  predicate MarkedSecret(p: Payload) {
    OrAbsent(p, IsSecret) == Flag(true)
  }

  function PartChanges(parts: seq<string>): seq<ContentChange> {
    seq(|parts|, i requires 0 <= i < |parts| => PartChange(parts[i]))
  }

  /** What one field contributes. */
  function ChangesOf(kind: Kind, before: Payload, after: Payload, f: Field, parts: Parts): seq<ContentChange> {
    if f in IGNORED_FIELDS || Same(before, after, f) then []
    else if f == DocumentJson && kind == Request then PartChanges(parts(OrAbsent(before, f), OrAbsent(after, f)))
    else if f == Value && (MarkedSecret(before) || MarkedSecret(after)) then [FieldChange(Value, None)]
    else if f in VALUE_FIELDS then [FieldChange(f, Some((Shown(OrAbsent(before, f)), Shown(OrAbsent(after, f)))))]
    else [FieldChange(f, None)]
  }

  function FieldChanges(kind: Kind, before: Payload, after: Payload, n: nat, parts: Parts): seq<ContentChange>
    requires n <= |ALL_FIELDS|
  {
    if n == 0 then []
    else FieldChanges(kind, before, after, n - 1, parts) + ChangesOf(kind, before, after, ALL_FIELDS[n - 1], parts)
  }

  function Diff(kind: Kind, before: Payload, after: Payload, parts: Parts): seq<ContentChange> {
    var changes := FieldChanges(kind, before, after, |ALL_FIELDS|, parts);
    if changes != [] then changes
    else if !Same(before, after, SortOrder) then [PositionChange]
    else if MarkedSecret(after) then [FieldChange(Value, None)]
    else []
  }

  /** Goes over the fields of both payloads, in the order of `ALL_FIELDS`. */
  method DiffPayloads(kind: Kind, before: Payload, after: Payload, parts: Parts) returns (changes: seq<ContentChange>)
    ensures changes == Diff(kind, before, after, parts)
  {
    changes := [];
    for i := 0 to |ALL_FIELDS|
      invariant changes == FieldChanges(kind, before, after, i, parts)
    {
      var f := ALL_FIELDS[i];
      if f !in before.Keys + after.Keys || f in IGNORED_FIELDS || Same(before, after, f) { continue; }
      if f == DocumentJson && kind == Request {
        changes := changes + PartChanges(parts(OrAbsent(before, f), OrAbsent(after, f)));
      } else if f == Value && (MarkedSecret(before) || MarkedSecret(after)) {
        changes := changes + [FieldChange(Value, None)];
      } else if f in VALUE_FIELDS {
        changes := changes + [FieldChange(f, Some((Shown(OrAbsent(before, f)), Shown(OrAbsent(after, f)))))];
      } else {
        changes := changes + [FieldChange(f, None)];
      }
    }
    if changes == [] && !Same(before, after, SortOrder) { changes := changes + [PositionChange]; }
    if changes == [] && MarkedSecret(after) { changes := changes + [FieldChange(Value, None)]; }
  }

  /** Two payloads differ in a field the audit cares about. */
  predicate Differs(kind: Kind, before: Payload, after: Payload, f: Field, parts: Parts) {
    && f !in IGNORED_FIELDS && !Same(before, after, f)
    && (kind == Request && f == DocumentJson ==> parts(OrAbsent(before, f), OrAbsent(after, f)) != [])
  }

  lemma {:induction false} FieldChangesExactly(kind: Kind, before: Payload, after: Payload, n: nat, parts: Parts)
    requires n <= |ALL_FIELDS|
    ensures FieldChanges(kind, before, after, n, parts) == []
      <==> forall i :: 0 <= i < n ==> !Differs(kind, before, after, ALL_FIELDS[i], parts)
  {
    if n > 0 {
      FieldChangesExactly(kind, before, after, n - 1, parts);
      var f := ALL_FIELDS[n - 1];
      assert ChangesOf(kind, before, after, f, parts) == [] <==> !Differs(kind, before, after, f, parts) by {
        assert |PartChanges(parts(OrAbsent(before, f), OrAbsent(after, f)))| == |parts(OrAbsent(before, f), OrAbsent(after, f))|;
      }
    }
  }

  /** The difference is empty exactly when no field it cares about differs, the position is the same and nothing is secret. */
  lemma EmptyDiffExactly(kind: Kind, before: Payload, after: Payload, parts: Parts)
    ensures Diff(kind, before, after, parts) == [] <==>
      && (forall f :: !Differs(kind, before, after, f, parts))
      && Same(before, after, SortOrder)
      && !MarkedSecret(after)
  {
    FieldChangesExactly(kind, before, after, |ALL_FIELDS|, parts);
    forall f | Differs(kind, before, after, f, parts)
      ensures exists i :: 0 <= i < |ALL_FIELDS| && Differs(kind, before, after, ALL_FIELDS[i], parts)
    {
      AllFieldsListed(f);
      assert Differs(kind, before, after, ALL_FIELDS[IndexOf(f)], parts);
    }
  }

  /** Every entry names a field that differs and shows its two values; the value of anything secret is never shown. */
  lemma {:induction false} FieldChangesAreTrue(kind: Kind, before: Payload, after: Payload, n: nat, parts: Parts,
      c: ContentChange)
    requires n <= |ALL_FIELDS| && c in FieldChanges(kind, before, after, n, parts) && c.FieldChange?
    ensures c.field !in IGNORED_FIELDS && !Same(before, after, c.field)
    ensures c.values.Some? ==> c.values.value == (Shown(OrAbsent(before, c.field)), Shown(OrAbsent(after, c.field)))
    ensures c.field == Value && (MarkedSecret(before) || MarkedSecret(after)) ==> c.values == None
  {
    if c !in ChangesOf(kind, before, after, ALL_FIELDS[n - 1], parts) {
      FieldChangesAreTrue(kind, before, after, n - 1, parts, c);
    }
  }

  /** A change to tell of: a field that counts and differs, with both values if they are short and not secret. */
  predicate ToTell(kind: Kind, before: Payload, after: Payload, c: ContentChange)
    requires c.FieldChange?
  {
    var f := c.field;
    && f !in {SortOrder, FolderCount, RequestCount, CreatedAt, CreatedBy} && !(kind == Request && f == DocumentJson)
    && OrAbsent(before, f) != OrAbsent(after, f)
    && var hidden := f == Value && (MarkedSecret(before) || MarkedSecret(after));
       c.values == if f in {Name, Method, Url, VariableKey, Value, Enabled, IsSecret, Semver, DescriptionType} && !hidden
         then Some((Shown(OrAbsent(before, f)), Shown(OrAbsent(after, f)))) else None
  }

  lemma {:induction false} PartsOnce(parts: seq<string>, p: string)
    ensures multiset(PartChanges(parts))[PartChange(p)] == multiset(parts)[p]
  {
    if parts != [] {
      var init, last := parts[..|parts| - 1], parts[|parts| - 1];
      PartsOnce(init, p);
      assert parts == init + [last];
      assert PartChanges(parts) == PartChanges(init) + [PartChange(last)];
    }
  }

  /** How often the difference of one field tells of a change. */
  function Times(kind: Kind, before: Payload, after: Payload, parts: Parts, c: ContentChange): nat {
    match c
    case FieldChange(_, _) => if ToTell(kind, before, after, c) then 1 else 0
    case PartChange(p) =>
      if kind == Request && OrAbsent(before, DocumentJson) != OrAbsent(after, DocumentJson)
      then multiset(parts(OrAbsent(before, DocumentJson), OrAbsent(after, DocumentJson)))[p] else 0
    case PositionChange => 0
  }

  /** The field that a change is about. */
  function About(c: ContentChange): Field {
    if c.FieldChange? then c.field else DocumentJson
  }

  lemma NoPartTells(kind: Kind, before: Payload, after: Payload, f: Field, parts: Parts, c: ContentChange)
    requires !(kind == Request && f == DocumentJson)
    ensures var told := ChangesOf(kind, before, after, f, parts);
      if c.FieldChange? && c.field == f && ToTell(kind, before, after, c) then told == [c] else c !in told
  {}

  lemma PartsTell(before: Payload, after: Payload, parts: Parts)
    ensures ChangesOf(Request, before, after, DocumentJson, parts)
      == if Same(before, after, DocumentJson) then [] else PartChanges(parts(OrAbsent(before, DocumentJson), OrAbsent(after, DocumentJson)))
  {}

  lemma ChangesOfField(kind: Kind, before: Payload, after: Payload, f: Field, parts: Parts, c: ContentChange)
    ensures multiset(ChangesOf(kind, before, after, f, parts))[c] == if f == About(c) then Times(kind, before, after, parts, c) else 0
  {
    if kind == Request && f == DocumentJson {
      var texts := parts(OrAbsent(before, f), OrAbsent(after, f));
      PartsTell(before, after, parts);
      if c.PartChange? { PartsOnce(texts, c.part); } else { assert c !in PartChanges(texts); }
    } else {
      NoPartTells(kind, before, after, f, parts, c);
    }
  }

  lemma CountOfTwo<T>(a: seq<T>, b: seq<T>, c: T)
    ensures multiset(a + b)[c] == multiset(a)[c] + multiset(b)[c]
  {}

  /** The first `n` fields tell of a change as often as they should. */
  predicate Counted(kind: Kind, before: Payload, after: Payload, n: nat, parts: Parts, c: ContentChange)
    requires n <= |ALL_FIELDS|
  {
    multiset(FieldChanges(kind, before, after, n, parts))[c]
      == if IndexOf(About(c)) < n then Times(kind, before, after, parts, c) else 0
  }

  lemma CountedNext(kind: Kind, before: Payload, after: Payload, n: nat, parts: Parts, c: ContentChange)
    requires n < |ALL_FIELDS| && Counted(kind, before, after, n, parts, c)
    ensures Counted(kind, before, after, n + 1, parts, c)
  {
    CountOfTwo(FieldChanges(kind, before, after, n, parts), ChangesOf(kind, before, after, ALL_FIELDS[n], parts), c);
    ChangesOfField(kind, before, after, ALL_FIELDS[n], parts, c);
    ListedAt(n, About(c));
  }

  lemma {:induction false} FieldChangesCount(kind: Kind, before: Payload, after: Payload, n: nat, parts: Parts, c: ContentChange)
    requires n <= |ALL_FIELDS|
    ensures Counted(kind, before, after, n, parts, c)
  {
    if n > 0 {
      FieldChangesCount(kind, before, after, n - 1, parts, c);
      CountedNext(kind, before, after, n - 1, parts, c);
    }
  }

  lemma ListedAt(i: nat, f: Field)
    requires i < |ALL_FIELDS|
    ensures ALL_FIELDS[i] == f <==> i == IndexOf(f)
  {
    AllFieldsListed(f);
  }

  /**
   * An update tells of every change once and of nothing else: each field that differs, the parts of a request document;
   * failing these, a new position; failing that too, the value of a secret.
   */
  lemma DiffTellsExactly(kind: Kind, before: Payload, after: Payload, parts: Parts, c: ContentChange)
    ensures multiset(Diff(kind, before, after, parts))[c] ==
      if exists f :: Differs(kind, before, after, f, parts) then Times(kind, before, after, parts, c)
      else if OrAbsent(before, SortOrder) != OrAbsent(after, SortOrder) then (if c == PositionChange then 1 else 0)
      else if c == FieldChange(Value, None) && MarkedSecret(after) then 1
      else 0
  {
    FieldChangesExactly(kind, before, after, |ALL_FIELDS|, parts);
    FieldChangesCount(kind, before, after, |ALL_FIELDS|, parts, c);
    AllFieldsListed(About(c));
    if f :| Differs(kind, before, after, f, parts) { AllFieldsListed(f); }
  }

  lemma DiffShowsNoSecret(kind: Kind, before: Payload, after: Payload, parts: Parts, c: ContentChange)
    requires c in Diff(kind, before, after, parts) && c.FieldChange? && c.field == Value
    requires MarkedSecret(before) || MarkedSecret(after)
    ensures c.values == None
  {
    if c in FieldChanges(kind, before, after, |ALL_FIELDS|, parts) {
      FieldChangesAreTrue(kind, before, after, |ALL_FIELDS|, parts, c);
    }
  }

  // ---------------------------------------------------------------- audit rows

  /**
   * The item's previous payload: what its last entry left; failing that, a deleted row that carries its workspace
   * (every kind but environment variables) speaks for itself.
   */
  function BeforeOf(log: seq<Entry>, key: Key, change: Change, row: Versioned): Option<Payload> {
    match Remains(Last(log, key))
    case Some(item) => Some(item.payload)
    case None => if change.Deletion? && key.kind != EnvironmentVariable then Some(SyncPayload(row.body)) else None
  }

  function TextIn(p: Payload, f: Field): Option<string> {
    if f in p && p[f].Text? && p[f].text != "" then Some(p[f].text) else None
  }

  function NameOf(p: Option<Payload>): Option<string> {
    if p.None? then None
    else if TextIn(p.value, Name).Some? then TextIn(p.value, Name)
    else if TextIn(p.value, VariableKey).Some? then TextIn(p.value, VariableKey)
    else TextIn(p.value, Semver)
  }

  function OwnName(b: Body): string {
    match b
    case EnvironmentVariableRow(_, key, _, _) => key
    case CollectionVersionRow(_, semver, _, _, _, _, _, _) => semver
    case CollectionVariableRow(_, key, _, _, _, _) => key
    case GlobalVariableRow(key, _, _, _, _, _) => key
    case _ => b.name
  }

  /** An item goes by its own name, key or version, unless that is empty. */
  lemma RowsGoByTheirName(b: Body)
    ensures NameOf(Some(SyncPayload(b))) == if OwnName(b) == "" then None else Some(OwnName(b))
  {}

  function ActionOf(before: Option<Payload>, after: Option<Payload>, version: nat): AuditAction {
    if after.None? then Deleted else if before.Some? || version > 1 then Updated else Created
  }

  /** The rows one change adds to the audit log: one, or none for an update without a visible difference. */
  function AuditRows(key: Key, before: Option<Payload>, after: Option<Payload>, version: nat,
      parts: Parts): seq<AuditRow> {
    var action, name := ActionOf(before, after, version), NameOf(if after.Some? then after else before);
    if action == Updated && before.Some? && after.Some? then
      var changes := Diff(key.kind, before.value, after.value, parts);
      if changes == [] then [] else [AuditRow(action, key, name, changes)]
    else [AuditRow(action, key, name, [])]
  }

  /** The rows a whole decision adds: rows removed with a deleted parent get none of their own. */
  function AuditsOf(db: Database, d: Decision, ctx: Context, parts: Parts): seq<AuditRow> {
    match d
    case Write(key, b) =>
      var v := Versioned(NextVersion(db.rows, key), b);
      AuditRows(key, BeforeOf(db.log, key, Upsert, v), Some(SyncPayload(b)), v.version, parts)
    case Erase(root, children) =>
      if root !in db.rows then [] else
        var log := db.log + Tombstones(db.rows, children, Cascaded(ctx), db.checkpoint);
        AuditRows(root, BeforeOf(log, root, Deletion, db.rows[root]), None, db.rows[root].version, parts)
    case _ => []
  }

  /** What the tables held of an item. */
  function PayloadAt(rows: Tables, key: Key): Option<Payload> {
    if key in rows then Some(SyncPayload(rows[key].body)) else None
  }

  /** The last log entry speaks for the row: before a write it shows the row's payload, and none for a new item. */
  lemma BeforeIsTheRow(db: Database, key: Key, change: Change, row: Versioned)
    requires Consistent(db) && (key in db.rows ==> row == db.rows[key]) && (change.Deletion? ==> key in db.rows)
    ensures BeforeOf(db.log, key, change, row) == PayloadAt(db.rows, key)
  {
    assert Remains(Last(db.log, key)) == At(Wire(db.rows), key);
  }

  lemma {:induction false} LastOfOthers(log: seq<Entry>, more: seq<Entry>, key: Key)
    requires forall i :: 0 <= i < |more| ==> more[i].key != key
    ensures Last(log + more, key) == Last(log, key)
  {
    if more == [] {
      assert log + more == log;
    } else {
      LastOfOthers(log, more[..|more| - 1], key);
      assert log + more == (log + more[..|more| - 1]) + [more[|more| - 1]];
      LastOfAppend(log + more[..|more| - 1], more[|more| - 1], key);
    }
  }

  /**
   * The audit of a write tells the truth: created exactly for an item the tables did not have, updated exactly for one
   * they had, with the difference to the payload it replaced, and no row exactly when that difference is empty.
   */
  lemma WritesAuditedRightly(db: Database, key: Key, b: Body, ctx: Context, parts: Parts)
    requires Consistent(db)
    ensures var audits := AuditsOf(db, Write(key, b), ctx, parts);
      if key !in db.rows then audits == [AuditRow(Created, key, NameOf(Some(SyncPayload(b))), [])]
      else
        var changes := Diff(key.kind, SyncPayload(db.rows[key].body), SyncPayload(b), parts);
        if changes == [] then audits == []
        else audits == [AuditRow(Updated, key, NameOf(Some(SyncPayload(b))), changes)]
  {
    assert Remains(Last(db.log, key)) == At(Wire(db.rows), key);
  }

  /** The audit of a delete: one row, named after what the row was, for the root only. */
  lemma DeletesAuditedRightly(db: Database, root: Key, children: seq<Key>, ctx: Context, parts: Parts)
    requires Consistent(db) && ListsCascade(db.rows, root, children, root.kind != Collection)
    ensures AuditsOf(db, Erase(root, children), ctx, parts)
      == [AuditRow(Deleted, root, NameOf(PayloadAt(db.rows, root)), [])]
  {
    var victims, more := children + [root], Tombstones(db.rows, children, Cascaded(ctx), db.checkpoint);
    assert root in SetOf(victims) && victims[|children|] == root;
    forall i | 0 <= i < |more| ensures more[i].key != root { assert victims[i] == children[i]; }
    LastOfOthers(db.log, more, root);
    BeforeIsTheRow(db, root, Deletion, db.rows[root]);
  }
}
