/** Extension features: what a client that declared some of them sees of payloads, replicas and logs. */
module Features {
  import opened Prelude
  import opened Rows
  import opened Journal

  datatype Feature = FolderScripts | Docs | CollectionVariables | Globals | VersionAuthors | ContainerAuth

  predicate Visible(kind: Kind, features: set<Feature>) {
    match kind
    case CollectionVariable => CollectionVariables in features
    case GlobalVariable => Globals in features
    case _ => true
  }

  /** Collection and folder fields that only exist for clients declaring the feature. */
  const FIELD_FEATURES: seq<(Field, Feature)> :=
    [(ScriptsJson, FolderScripts), (Description, Docs), (DescriptionType, Docs), (AuthJson, ContainerAuth)]

  /** The fields among the first `n` gated ones whose feature was not declared. */
  function Hidden(features: set<Feature>, n: nat): set<Field>
    requires n <= |FIELD_FEATURES|
  {
    set i | 0 <= i < n && FIELD_FEATURES[i].1 !in features :: FIELD_FEATURES[i].0
  }

  function Shape(kind: Kind, p: Payload, features: set<Feature>): Payload {
    if kind == CollectionVersion then
      if VersionAuthors in features then
        if CreatedBy in p || Semver !in p then p else p[CreatedBy := Null]
      else p - {CreatedBy}
    else if kind == Collection || kind == Folder then p - Hidden(features, |FIELD_FEATURES|)
    else p
  }

  /** Copies the payload and deletes the undeclared fields one by one. */
  method ShapePayload(kind: Kind, p: Payload, features: set<Feature>) returns (out: Payload)
    ensures out == Shape(kind, p, features)
  {
    if kind == CollectionVersion {
      if VersionAuthors in features {
        if CreatedBy in p || Semver !in p { return p; }
        return p[CreatedBy := Null];
      }
      if CreatedBy !in p { return p; }
      return p - {CreatedBy};
    }
    if kind != Collection && kind != Folder { return p; }
    out := p;
    for i := 0 to |FIELD_FEATURES|
      invariant out == p - Hidden(features, i)
    {
      var (field, feature) := FIELD_FEATURES[i];
      assert Hidden(features, i + 1) == Hidden(features, i) + if feature !in features then {field} else {};
      if field in p && feature !in features { out := out - {field}; }
    }
  }

  /** A field survives shaping exactly when it was there and its feature is declared or it needs none. */
  lemma ShapeKeepsExactly(kind: Kind, p: Payload, features: set<Feature>, f: Field)
    requires kind == Collection || kind == Folder
    ensures f in Shape(kind, p, features) <==>
      f in p && (forall i :: 0 <= i < |FIELD_FEATURES| && FIELD_FEATURES[i].0 == f ==> FIELD_FEATURES[i].1 in features)
    ensures f in Shape(kind, p, features) ==> Shape(kind, p, features)[f] == p[f]
  {
    assert forall i, j :: 0 <= i < j < |FIELD_FEATURES| ==> FIELD_FEATURES[i].0 != FIELD_FEATURES[j].0;
  }

  /** A version shows an author field, null if need be, exactly to clients declaring it; tombstones stay empty. */
  lemma VersionShownExactly(p: Payload, features: set<Feature>, f: Field)
    ensures var shaped := Shape(CollectionVersion, p, features);
      && (CreatedBy in shaped <==> VersionAuthors in features && (CreatedBy in p || Semver in p))
      && (f != CreatedBy ==> (f in shaped <==> f in p))
      && (f in p && f in shaped ==> shaped[f] == p[f])
      && (CreatedBy in shaped && CreatedBy !in p ==> shaped[CreatedBy] == Null)
    ensures Shape(CollectionVersion, map[], features) == map[]
  {
    var empty: Payload := map[];
    assert empty - {CreatedBy} == empty;
  }

  /** Which feature shows which field of a collection or a folder; other kinds but versions show all their fields always. */
  lemma FieldsShownExactly(kind: Kind, p: Payload, features: set<Feature>)
    ensures var s := Shape(kind, p, features);
      kind == Collection || kind == Folder ==>
        && (ScriptsJson in s <==> ScriptsJson in p && FolderScripts in features)
        && (Description in s <==> Description in p && Docs in features)
        && (DescriptionType in s <==> DescriptionType in p && Docs in features)
        && (AuthJson in s <==> AuthJson in p && ContainerAuth in features)
        && (forall f :: f !in {ScriptsJson, Description, DescriptionType, AuthJson} ==> (f in s <==> f in p))
        && (forall f :: f in s ==> s[f] == p[f])
    ensures kind != Collection && kind != Folder && kind != CollectionVersion ==> Shape(kind, p, features) == p
  {
    if kind == Collection || kind == Folder {
      var s := Shape(kind, p, features);
      forall f ensures f in s <==> f in p && f !in Hidden(features, 4) {}
      assert FIELD_FEATURES[0] == (ScriptsJson, FolderScripts) && FIELD_FEATURES[1] == (Description, Docs);
      assert FIELD_FEATURES[2] == (DescriptionType, Docs) && FIELD_FEATURES[3] == (AuthJson, ContainerAuth);
    }
  }

  function ShapeItem(k: Key, item: Item, features: set<Feature>): Item {
    Item(item.version, Shape(k.kind, item.payload, features))
  }

  /** The visible part of a replica. */
  function ShapeReplica(r: Replica, features: set<Feature>): Replica {
    map k | k in r && Visible(k.kind, features) :: ShapeItem(k, r[k], features)
  }

  function ShapeEntry(e: Entry, features: set<Feature>): Entry {
    e.(payload := Shape(e.key.kind, e.payload, features))
  }

  function ShapeLog(entries: seq<Entry>, features: set<Feature>): seq<Entry> {
    if entries == [] then []
    else
      var init, e := ShapeLog(entries[..|entries| - 1], features), entries[|entries| - 1];
      if Visible(e.key.kind, features) then init + [ShapeEntry(e, features)] else init
  }

  lemma {:induction false} ShapeLogOfConcat(a: seq<Entry>, b: seq<Entry>, features: set<Feature>)
    ensures ShapeLog(a + b, features) == ShapeLog(a, features) + ShapeLog(b, features)
  {
    if b == [] {
      assert a + b == a;
    } else {
      var c := b[..|b| - 1];
      ShapeLogOfConcat(a, c, features);
      assert (a + b)[..|a + b| - 1] == a + c;
    }
  }

  lemma ApplyCommutes(r: Replica, e: Entry, features: set<Feature>)
    ensures ShapeReplica(ApplyEntry(r, e), features) ==
      if Visible(e.key.kind, features) then ApplyEntry(ShapeReplica(r, features), ShapeEntry(e, features))
      else ShapeReplica(r, features)
  {}

  /** Shaping commutes with replay: the visible part of the full replica is the replay of the visible part of the log. */
  lemma {:induction false} ShapeCommutesWithReplay(r: Replica, entries: seq<Entry>, features: set<Feature>)
    ensures ShapeReplica(Replay(r, entries), features) == Replay(ShapeReplica(r, features), ShapeLog(entries, features))
  {
    if entries != [] {
      var init, e := entries[..|entries| - 1], entries[|entries| - 1];
      ShapeCommutesWithReplay(r, init, features);
      ApplyCommutes(Replay(r, init), e, features);
      if Visible(e.key.kind, features) {
        ReplayOfAppend(ShapeReplica(r, features), ShapeLog(init, features), ShapeEntry(e, features));
      }
    }
  }

  /** The tables as a client with these features sees them; a client with all of them sees everything. */
  function View(rows: Tables, features: set<Feature>): Replica {
    ShapeReplica(Wire(rows), features)
  }

  lemma ViewAt(rows: Tables, features: set<Feature>, k: Key)
    ensures At(View(rows, features), k) == if k in rows && Visible(k.kind, features)
      then Some(Item(rows[k].version, Shape(k.kind, SyncPayload(rows[k].body), features))) else None
  {}

  /** Which rows a client sees at all: all but the two kinds whose feature it did not declare, at their versions. */
  lemma RowsShownExactly(rows: Tables, features: set<Feature>, k: Key)
    ensures k in View(rows, features) <==>
      && k in rows && (k.kind == CollectionVariable ==> CollectionVariables in features)
      && (k.kind == GlobalVariable ==> Globals in features)
    ensures k in View(rows, features) ==> View(rows, features)[k].version == rows[k].version
  {
    ViewAt(rows, features, k);
  }

  /** A client that replays the visible, shaped log from nothing holds the shaped view of the tables. */
  lemma ShapedLogRebuildsView(db: Database, features: set<Feature>)
    requires Consistent(db)
    ensures Replay(map[], ShapeLog(db.log, features)) == View(db.rows, features)
  {
    LogRebuildsTables(db);
    ShapeCommutesWithReplay(map[], db.log, features);
    assert ShapeReplica(map[], features) == map[];
  }

  const ALL_FEATURES := {FolderScripts, Docs, CollectionVariables, Globals, VersionAuthors, ContainerAuth}

  lemma AllFeaturesSeeEverything(rows: Tables)
    requires forall k :: k in rows ==> KindOf(rows[k].body) == k.kind
    ensures View(rows, ALL_FEATURES) == Wire(rows)
  {
    assert Hidden(ALL_FEATURES, |FIELD_FEATURES|) == {};
    forall k | k in rows ensures Shape(k.kind, SyncPayload(rows[k].body), ALL_FEATURES) == SyncPayload(rows[k].body) {
      assert SyncPayload(rows[k].body) - {} == SyncPayload(rows[k].body);
    }
  }
}
