/**
 * What holds of the tables between mutations: references resolve inside one collection, unique keys are unique and
 * secrets have no plaintext. Deletes cascade along the foreign keys; the rows listed by a delete are exactly those.
 */
module Integrity {
  import opened Prelude
  import opened Rows
  import opened Tree
  import opened Content

  // ---------------------------------------------------------------- invariants

  predicate KindsMatch(rows: Tables) {
    forall k :: k in rows ==> KindOf(rows[k].body) == k.kind && rows[k].version >= 1
  }

  predicate RefsResolve(rows: Tables) {
    forall k :: k in rows ==> Refs(rows[k].body) <= rows.Keys
  }

  /** The folder a row lives in belongs to the row's own collection. */
  predicate FolderFits(rows: Tables, b: Body) {
    InFolder(b).Some? ==>
      var f := Key(Folder, InFolder(b).value);
      f in rows && Container(rows[f].body) == Container(b)
  }

  predicate OneCollection(rows: Tables) {
    forall k :: k in rows ==> FolderFits(rows, rows[k].body)
  }

  ghost predicate KeysUnique(rows: Tables) {
    forall k, l :: k in rows && l in rows && UniqueOf(rows[k].body).Some? && UniqueOf(rows[k].body) == UniqueOf(rows[l].body)
      ==> k == l
  }

  /** A secret environment variable stores nothing or ciphertext, a secret global stores nothing. */
  predicate SecretStored(b: Body) {
    match b
    case EnvironmentVariableRow(_, _, stored, isSecret) => if isSecret then !stored.Plain? else stored.Plain?
    case GlobalVariableRow(_, plain, isSecret, _, _, _) => isSecret <==> plain.None?
    case _ => true
  }

  predicate SecretsStored(rows: Tables) {
    forall k :: k in rows ==> SecretStored(rows[k].body)
  }

  ghost predicate WellFormed(rows: Tables) {
    KindsMatch(rows) && RefsResolve(rows) && OneCollection(rows) && KeysUnique(rows) && SecretsStored(rows)
  }

  // ---------------------------------------------------------------- cascading deletes

  /** Rows with a foreign key into `s`. */
  function Referrers(rows: Tables, s: set<Key>): set<Key> {
    set k | k in rows && Refs(rows[k].body) * s != {}
  }

  /** What ON DELETE CASCADE removes: `s` and, repeatedly, every row referring to a removed row. */
  function Cascade(rows: Tables, s: set<Key>): (r: set<Key>)
    ensures s <= r && Referrers(rows, r) <= r
    decreases |rows.Keys - s|
  {
    var more := Referrers(rows, s) - s;
    if more == {} then s else
      assert rows.Keys - (s + more) == (rows.Keys - s) - more;
      Shrinks(rows.Keys - s, more);
      Cascade(rows, s + more)
  }

  lemma {:induction false} CascadeIsLeast(rows: Tables, s: set<Key>, t: set<Key>)
    requires s <= t && Referrers(rows, t) <= t
    ensures Cascade(rows, s) <= t
    decreases |rows.Keys - s|
  {
    var more := Referrers(rows, s) - s;
    if more != {} {
      assert rows.Keys - (s + more) == (rows.Keys - s) - more;
      Shrinks(rows.Keys - s, more);
      forall k | k in more ensures k in t {
        var r :| r in Refs(rows[k].body) * s;
        assert r in Refs(rows[k].body) * t;
      }
      CascadeIsLeast(rows, s + more, t);
    }
  }

  /** The foreign keys of a row; without `parents`, not the parent of a folder. */
  function RefsBut(b: Body, parents: bool): set<Key> {
    if parents || !b.FolderRow? then Refs(b) else Container(b)
  }

  /** No entry refers to an earlier one; `parents` says whether the parents of folders count. */
  predicate ReferrersFirst(rows: Tables, victims: seq<Key>, parents: bool) {
    forall i, j :: 0 <= i < j < |victims| && victims[j] in rows ==> victims[i] !in RefsBut(rows[victims[j]].body, parents)
  }

  /** The rows a delete lists for the log: exactly the cascade, each once, every row before what it refers to. */
  ghost predicate ListsCascade(rows: Tables, root: Key, children: seq<Key>, parents: bool) {
    var victims := children + [root];
    && SetOf(victims) <= rows.Keys
    && NoDuplicates(victims)
    && SetOf(victims) == Cascade(rows, {root})
    && ReferrersFirst(rows, victims, parents)
  }

  lemma ListsCascadeIntro(rows: Tables, root: Key, children: seq<Key>, parents: bool)
    requires root in rows && root !in children && SetOf(children) <= rows.Keys && NoDuplicates(children)
    requires Referrers(rows, {root} + SetOf(children)) <= SetOf(children)
    requires SetOf(children) <= Cascade(rows, {root})
    requires ReferrersFirst(rows, children, parents)
    ensures ListsCascade(rows, root, children, parents)
  {
    var victims := children + [root];
    assert SetOf(victims) == {root} + SetOf(children);
    CascadeIsLeast(rows, {root}, SetOf(victims));
    forall i, j | 0 <= i < j < |victims| && victims[j] in rows
      ensures victims[i] !in RefsBut(rows[victims[j]].body, parents)
    {
      if j == |children| {
        assert root !in Referrers(rows, {root} + SetOf(children));
        assert victims[i] in SetOf(children) && victims[i] !in Refs(rows[root].body) * ({root} + SetOf(children));
      }
    }
  }

  /** A delete of a row nothing refers to. */
  lemma LeafListsCascade(rows: Tables, root: Key)
    requires WellFormed(rows) && root in rows
    requires root.kind != Collection && root.kind != Environment && root.kind != Folder
    ensures ListsCascade(rows, root, [], true)
  {
    forall k | k in rows ensures root !in Refs(rows[k].body) { RefKinds(rows[k].body); }
    ListsCascadeIntro(rows, root, [], true);
  }

  lemma RefKinds(b: Body)
    ensures forall r :: r in Refs(b) ==> r.kind == Collection || r.kind == Environment || r.kind == Folder
    ensures forall r :: r in Container(b) ==> r.kind != Folder
    ensures forall r :: r in FolderRef(b) ==> r.kind == Folder
    ensures KindOf(b) == Collection || KindOf(b) == Environment ==> Refs(b) == {}
    ensures FolderRef(b) != {} ==> KindOf(b) == Folder || KindOf(b) == Request
  {}

  lemma InsideFacts(rows: Tables, kind: Kind, ref: Key)
    ensures NoDuplicates(Inside(rows, kind, ref))
    ensures forall k :: k in Inside(rows, kind, ref) <==> k in rows && k.kind == kind && ref in Container(rows[k].body)
  {
    var ids := set k | k in rows && k.kind == kind && ref in Container(rows[k].body) :: k.id;
    SortedNoDuplicates(ids);
    KeysOfFacts(kind, Sorted(ids));
    forall k | k in rows && k.kind == kind && ref in Container(rows[k].body) ensures k in Inside(rows, kind, ref) {
      assert k.id in ids && k == Key(kind, k.id);
    }
    forall k | k in Inside(rows, kind, ref) ensures k in rows && k.kind == kind && ref in Container(rows[k].body) {
      assert k.id in ids;
    }
  }

  lemma KeysOfFacts(kind: Kind, ids: seq<Id>)
    ensures NoDuplicates(ids) ==> NoDuplicates(KeysOf(kind, ids))
    ensures forall k :: k in KeysOf(kind, ids) <==> k.kind == kind && k.id in ids
  {
    var r := KeysOf(kind, ids);
    forall k: Key | k.kind == kind && k.id in ids ensures k in r {
      var i :| 0 <= i < |ids| && ids[i] == k.id;
      assert r[i] == k;
    }
  }

  lemma RequestsInFacts(rows: Tables, folders: set<Id>)
    ensures NoDuplicates(RequestsIn(rows, folders))
    ensures forall k :: k in RequestsIn(rows, folders) <==>
      k in rows && k.kind == Request && InFolder(rows[k].body).Some? && InFolder(rows[k].body).value in folders
  {
    var ids := set k | k in rows && k.kind == Request &&
      InFolder(rows[k].body).Some? && InFolder(rows[k].body).value in folders :: k.id;
    SortedNoDuplicates(ids);
    KeysOfFacts(Request, Sorted(ids));
    forall k | k in rows && k.kind == Request && InFolder(rows[k].body).Some? && InFolder(rows[k].body).value in folders
      ensures k in RequestsIn(rows, folders)
    {
      assert k.id in ids && k == Key(Request, k.id);
    }
    forall k | k in RequestsIn(rows, folders)
      ensures k in rows && InFolder(rows[k].body).Some? && InFolder(rows[k].body).value in folders
    {
      assert k.id in ids;
    }
  }

  lemma ConcatFacts(a: seq<Key>, b: seq<Key>)
    requires NoDuplicates(a) && NoDuplicates(b) && forall k :: k in a ==> k !in b
    ensures NoDuplicates(a + b) && SetOf(a + b) == SetOf(a) + SetOf(b)
  {
    var c := a + b;
    forall i, j | 0 <= i < j < |c| ensures c[i] != c[j] {
      if i < |a| <= j { assert c[i] in a && c[j] in b; }
    }
  }

  /** Every row that names the container directly. */
  function ContainedIn(rows: Tables, root: Key): set<Key> {
    set k | k in rows && root in Container(rows[k].body)
  }

  lemma DirectReferrersCascade(rows: Tables, root: Key)
    requires root in rows
    ensures forall k :: k in rows && root in Refs(rows[k].body) ==> k in Cascade(rows, {root})
  {
    var c := Cascade(rows, {root});
    forall k | k in rows && root in Refs(rows[k].body) ensures k in c {
      assert root in Refs(rows[k].body) * c;
      assert k in Referrers(rows, c);
    }
  }

  predicate FoldersLast(list: seq<Key>) {
    forall i, j :: 0 <= i < j < |list| && list[i].kind == Folder ==> list[j].kind == Folder
  }

  /** A collection's cascade is everything that names the collection, because folders never cross collections. */
  lemma CollectionListsCascade(rows: Tables, root: Key, children: seq<Key>)
    requires WellFormed(rows) && root in rows && root.kind == Collection
    requires NoDuplicates(children) && SetOf(children) == ContainedIn(rows, root)
    requires FoldersLast(children)
    ensures ListsCascade(rows, root, children, false)
  {
    RefKinds(rows[root].body);
    assert root !in children by { assert root in children ==> root in SetOf(children); }
    forall k | k in Referrers(rows, {root} + SetOf(children)) ensures k in SetOf(children) {
      var b := rows[k].body;
      RefKinds(b);
      var r :| r in Refs(b) * ({root} + SetOf(children));
      if r != root {
        RefKinds(rows[r].body);
        assert r !in Container(b);
        assert Container(rows[r].body) == Container(b);
      }
    }
    DirectReferrersCascade(rows, root);
    forall i, j | 0 <= i < j < |children| && children[j] in rows
      ensures children[i] !in RefsBut(rows[children[j]].body, false)
    {
      assert children[i] in SetOf(children) && root in Container(rows[children[i]].body);
      RefKinds(rows[children[j]].body);
      RefKinds(rows[children[i]].body);
    }
    ListsCascadeIntro(rows, root, children, false);
  }

  /** An environment's cascade is its variables. */
  lemma EnvironmentListsCascade(rows: Tables, root: Key, children: seq<Key>)
    requires WellFormed(rows) && root in rows && root.kind == Environment
    requires NoDuplicates(children) && SetOf(children) == ContainedIn(rows, root)
    requires forall k :: k in children ==> k.kind == EnvironmentVariable
    ensures ListsCascade(rows, root, children, true)
  {
    forall k | k in Referrers(rows, {root} + SetOf(children)) ensures k in SetOf(children) {
      var b := rows[k].body;
      RefKinds(b);
      var r :| r in Refs(b) * ({root} + SetOf(children));
      assert r == root;
    }
    DirectReferrersCascade(rows, root);
    forall i, j | 0 <= i < j < |children| && children[j] in rows ensures children[i] !in Refs(rows[children[j]].body) {
      assert children[i] in SetOf(children);
      RefKinds(rows[children[j]].body);
    }
    ListsCascadeIntro(rows, root, children, true);
  }

  lemma ParentsFacts(rows: Tables)
    requires KindsMatch(rows)
    ensures forall id :: id in ParentsOf(rows) <==> Key(Folder, id) in rows
    ensures forall id :: id in ParentsOf(rows) ==> ParentsOf(rows)[id] == InFolder(rows[Key(Folder, id)].body)
  {
    forall id | Key(Folder, id) in rows ensures id in ParentsOf(rows) {
      assert Key(Folder, id).id in IdsOf(rows, Folder);
    }
  }

  /** All levels below folders of a closed set of keys stay in that set. */
  lemma {:induction false} LevelsInClosure(rows: Tables, frontier: set<Id>, rest: set<Id>, closed: set<Key>)
    requires KindsMatch(rows) && Referrers(rows, closed) <= closed
    requires forall f :: f in frontier ==> Key(Folder, f) in closed
    ensures forall f :: f in Union(Levels(ParentsOf(rows), frontier, rest)) ==> Key(Folder, f) in closed
    decreases |rest|
  {
    var p := ParentsOf(rows);
    ParentsFacts(rows);
    var next := ChildrenOf(p, frontier) * rest;
    if next != {} {
      Shrinks(rest, next);
      forall f | f in next ensures Key(Folder, f) in closed {
        assert Key(Folder, p[f].value) in Refs(rows[Key(Folder, f)].body) * closed;
        assert Key(Folder, f) in Referrers(rows, closed);
      }
      LevelsInClosure(rows, next, rest - next, closed);
    }
  }

  /** A folder's cascade is its requests, the folders below it deepest first, and their requests. */
  lemma FolderListsCascade(rows: Tables, id: Id)
    requires WellFormed(rows) && Key(Folder, id) in rows && !OnCycle(ParentsOf(rows), id)
    ensures ListsCascade(rows, Key(Folder, id), RequestsIn(rows, {id} + Union(Subtree(ParentsOf(rows), id)))
      + KeysOf(Folder, DeepestFirst(Subtree(ParentsOf(rows), id))), true)
  {
    var p, root := ParentsOf(rows), Key(Folder, id);
    var below := Union(Subtree(p, id));
    var folders := KeysOf(Folder, DeepestFirst(Subtree(p, id)));
    var requests := RequestsIn(rows, {id} + below);
    ParentsFacts(rows);
    SubtreeFacts(p, id);
    KeysOfFacts(Folder, DeepestFirst(Subtree(p, id)));
    RequestsInFacts(rows, {id} + below);
    ConcatFacts(requests, folders);
    var closed := Cascade(rows, {root});
    LevelsInClosure(rows, {id}, p.Keys - {id}, closed);
    forall k | k in requests ensures k in closed {
      assert Key(Folder, InFolder(rows[k].body).value) in Refs(rows[k].body) * closed;
      assert k in Referrers(rows, closed);
    }
    FolderReferrers(rows, id, below, requests, folders);
    FolderOrder(rows, DeepestFirst(Subtree(p, id)), requests, folders);
    ListsCascadeIntro(rows, root, requests + folders, true);
  }

  lemma FolderReferrers(rows: Tables, id: Id, below: set<Id>, requests: seq<Key>, folders: seq<Key>)
    requires WellFormed(rows) && Key(Folder, id) in rows
    requires ChildrenOf(ParentsOf(rows), {id} + below) == below
    requires forall k :: k in folders <==> k.kind == Folder && k.id in below
    requires forall k :: k in requests <==>
      k in rows && k.kind == Request && InFolder(rows[k].body).Some? && InFolder(rows[k].body).value in {id} + below
    ensures Referrers(rows, {Key(Folder, id)} + SetOf(requests + folders)) <= SetOf(requests + folders)
  {
    var all := {Key(Folder, id)} + SetOf(requests + folders);
    ParentsFacts(rows);
    forall r | r in all ensures r.kind == Folder ==> r.id in {id} + below {}
    forall k | k in Referrers(rows, all) ensures k in SetOf(requests + folders) {
      var f := ReferrerFolder(rows, all, k);
      assert f in {id} + below;
      if k.kind == Folder { assert k.id in ChildrenOf(ParentsOf(rows), {id} + below); }
    }
  }

  /** A row referring to folders and requests only can do so through its folder. */
  lemma ReferrerFolder(rows: Tables, all: set<Key>, k: Key) returns (f: Id)
    requires KindsMatch(rows) && k in Referrers(rows, all)
    requires forall r :: r in all ==> r.kind == Folder || r.kind == Request
    ensures InFolder(rows[k].body) == Some(f) && Key(Folder, f) in all
    ensures k.kind == Folder || k.kind == Request
  {
    var b := rows[k].body;
    RefKinds(b);
    var r :| r in Refs(b) * all;
    assert r in FolderRef(b);
    f := r.id;
  }

  lemma FolderOrder(rows: Tables, list: seq<Id>, requests: seq<Key>, folders: seq<Key>)
    requires KindsMatch(rows) && ChildrenFirst(ParentsOf(rows), list) && folders == KeysOf(Folder, list)
    requires forall k :: k in requests ==> k.kind == Request
    ensures ReferrersFirst(rows, requests + folders, true)
  {
    var all, n := requests + folders, |requests|;
    forall i, j | 0 <= i < j < |all| && all[j] in rows ensures all[i] !in Refs(rows[all[j]].body) {
      if i < n {
        assert all[i] in requests;
        RefKinds(rows[all[j]].body);
      } else {
        assert all[i] == Key(Folder, list[i - n]) && all[j] == Key(Folder, list[j - n]);
        LaterIsNotChild(rows, list, i - n, j - n);
      }
    }
  }

  lemma LaterIsNotChild(rows: Tables, list: seq<Id>, i: nat, j: nat)
    requires KindsMatch(rows) && i < j < |list| && Key(Folder, list[j]) in rows
    requires ChildrenFirst(ParentsOf(rows), list)
    ensures Key(Folder, list[i]) !in Refs(rows[Key(Folder, list[j])].body)
  {
    ParentsFacts(rows);
    RefKinds(rows[Key(Folder, list[j])].body);
  }

  // ---------------------------------------------------------------- decisions are safe

  ghost predicate WriteFits(rows: Tables, key: Key, b: Body) {
    && KindOf(b) == key.kind
    && Refs(b) <= rows.Keys
    && FolderFits(rows, b)
    && SecretStored(b)
    && (key in rows && key.kind == Folder ==> Container(b) == Container(rows[key].body))
    && forall k :: k in rows && k != key && UniqueOf(b).Some? ==> UniqueOf(rows[k].body) != UniqueOf(b)
  }

  /** Only a collection delete lists folders without regard to their depth. */
  ghost predicate Fits(rows: Tables, foreign: set<Key>, d: Decision) {
    match d
    case Refused(_) => true
    case Already(_) => true
    case Write(key, b) => WriteFits(rows, key, b) && (key in rows || key !in foreign)
    case Erase(root, children) => ListsCascade(rows, root, children, root.kind != Collection)
  }

  lemma HolderFacts(rows: Tables, u: UniqueKey, kind: Kind)
    requires KindsMatch(rows)
    requires kind == match u
      case EnvironmentKey(_, _) => EnvironmentVariable
      case SemverKey(_, _) => CollectionVersion
      case CollectionKey(_, _) => CollectionVariable
      case GlobalKey(_) => GlobalVariable
    ensures forall k :: k in rows && UniqueOf(rows[k].body) == Some(u) ==> k.kind == kind && k.id in Holders(rows, u)
    ensures forall id :: id in Holders(rows, u) ==> Key(kind, id) in rows && UniqueOf(rows[Key(kind, id)].body) == Some(u)
  {
    forall id | id in Holders(rows, u) ensures Key(kind, id) in rows && UniqueOf(rows[Key(kind, id)].body) == Some(u) {
      var k :| k in rows && UniqueOf(rows[k].body) == Some(u) && k.id == id;
      assert k == Key(kind, id);
    }
  }

  lemma CollectionDeleteFits(rows: Tables, key: Key)
    requires WellFormed(rows) && key in rows && key.kind == Collection
    ensures ListsCascade(rows, key, Inside(rows, CollectionVariable, key) + Inside(rows, CollectionVersion, key)
      + Inside(rows, Request, key) + Inside(rows, Folder, key), false)
  {
    InsideFacts(rows, CollectionVariable, key);
    InsideFacts(rows, CollectionVersion, key);
    InsideFacts(rows, Request, key);
    InsideFacts(rows, Folder, key);
    var a, b := Inside(rows, CollectionVariable, key), Inside(rows, CollectionVersion, key);
    var r, f := Inside(rows, Request, key), Inside(rows, Folder, key);
    JoinFour(a, b, r, f);
    CollectionContents(rows, key);
    CollectionListsCascade(rows, key, a + b + r + f);
  }

  lemma JoinFour(a: seq<Key>, b: seq<Key>, r: seq<Key>, f: seq<Key>)
    requires NoDuplicates(a) && NoDuplicates(b) && NoDuplicates(r) && NoDuplicates(f)
    requires forall k :: k in a ==> k.kind == CollectionVariable
    requires forall k :: k in b ==> k.kind == CollectionVersion
    requires forall k :: k in r ==> k.kind == Request
    requires forall k :: k in f ==> k.kind == Folder
    ensures NoDuplicates(a + b + r + f)
    ensures SetOf(a + b + r + f) == SetOf(a) + SetOf(b) + SetOf(r) + SetOf(f)
    ensures FoldersLast(a + b + r + f)
  {
    ConcatFacts(a, b);
    ConcatFacts(a + b, r);
    forall k | k in a + b + r ensures k.kind != Folder {}
    ConcatFacts(a + b + r, f);
    assert forall i :: 0 <= i < |a + b + r| ==> (a + b + r)[i] in a + b + r;
    assert forall i :: 0 <= i < |f| ==> f[i] in f;
  }

  lemma CollectionDecisionsFit(rows: Tables, foreign: set<Key>, c: Command)
    requires WellFormed(rows)
    requires c.CreateCollection? || c.UpdateCollection? || c.DeleteCollection?
    ensures Fits(rows, foreign, Decide(rows, foreign, c))
  {
    if c.DeleteCollection? && Decide(rows, foreign, c).Erase? { CollectionDeleteFits(rows, Key(Collection, c.id)); }
  }

  lemma CollectionContents(rows: Tables, key: Key)
    requires WellFormed(rows) && key.kind == Collection
    ensures ContainedIn(rows, key) == SetOf(Inside(rows, CollectionVariable, key)) + SetOf(Inside(rows, CollectionVersion, key))
      + SetOf(Inside(rows, Request, key)) + SetOf(Inside(rows, Folder, key))
  {
    forall k { ContainedExactly(rows, key, k); }
    FourLists(ContainedIn(rows, key), Inside(rows, CollectionVariable, key), Inside(rows, CollectionVersion, key),
      Inside(rows, Request, key), Inside(rows, Folder, key));
  }

  lemma ContainedExactly(rows: Tables, key: Key, k: Key)
    requires KindsMatch(rows) && key.kind == Collection
    ensures k in ContainedIn(rows, key) <==>
      || k in Inside(rows, CollectionVariable, key) || k in Inside(rows, CollectionVersion, key)
      || k in Inside(rows, Request, key) || k in Inside(rows, Folder, key)
  {
    InsideFacts(rows, CollectionVariable, key);
    InsideFacts(rows, CollectionVersion, key);
    InsideFacts(rows, Request, key);
    InsideFacts(rows, Folder, key);
    if k in ContainedIn(rows, key) { ContainerKind(rows, k, key); }
  }

  lemma FourLists(all: set<Key>, a: seq<Key>, b: seq<Key>, r: seq<Key>, f: seq<Key>)
    requires forall k :: k in all <==> k in a || k in b || k in r || k in f
    ensures all == SetOf(a) + SetOf(b) + SetOf(r) + SetOf(f)
  {}

  predicate InCollection(kind: Kind) {
    kind == CollectionVariable || kind == CollectionVersion || kind == Request || kind == Folder
  }

  lemma ContainerKind(rows: Tables, k: Key, key: Key)
    requires KindsMatch(rows) && k in rows && key.kind == Collection && key in Container(rows[k].body)
    ensures InCollection(k.kind)
  {}

  /** A folder passes the reference check exactly when it is a folder of that collection. */
  lemma FolderErrorFacts(rows: Tables, collectionId: Id, folder: Id)
    requires KindsMatch(rows)
    ensures FolderError(rows, collectionId, folder).None? <==>
      Key(Folder, folder) in rows && Container(rows[Key(Folder, folder)].body) == {Key(Collection, collectionId)}
  {
    if Key(Folder, folder) in rows {
      var b := rows[Key(Folder, folder)].body;
      assert Container(b) == {Key(Collection, b.collectionId)};
      assert Key(Collection, b.collectionId) in Container(b);
    }
  }

  lemma InnerRowFits(rows: Tables, key: Key, b: Body, collectionId: Id)
    requires WellFormed(rows) && KindOf(b) == key.kind && (b.FolderRow? || b.RequestRow?)
    requires b.collectionId == collectionId && Key(Collection, collectionId) in rows
    requires InFolder(b).Some? ==> FolderError(rows, collectionId, InFolder(b).value).None?
    requires key in rows && b.FolderRow? ==> Container(rows[key].body) == {Key(Collection, collectionId)}
    ensures WriteFits(rows, key, b)
  {
    if InFolder(b).Some? { FolderErrorFacts(rows, collectionId, InFolder(b).value); }
  }

  lemma FolderDecisionsFit(rows: Tables, foreign: set<Key>, c: Command)
    requires WellFormed(rows)
    requires c.CreateFolder? || c.UpdateFolder? || c.DeleteFolder?
    ensures Fits(rows, foreign, Decide(rows, foreign, c))
  {
    var d := Decide(rows, foreign, c);
    if d.Erase? {
      FolderListsCascade(rows, c.id);
    } else if d.Write? {
      var cur := Find(rows, Folder, c.id);
      if c.UpdateFolder? {
        assert cur.Some? && cur.value.body.FolderRow?;
        assert Key(Collection, cur.value.body.collectionId) in Refs(cur.value.body);
        if cur.value.body.parent.Some? { KeptFolderFits(rows, d.key); }
      }
      InnerRowFits(rows, d.key, d.body, d.body.collectionId);
    }
  }

  /** The folder a row already lives in still passes the reference check. */
  lemma KeptFolderFits(rows: Tables, key: Key)
    requires WellFormed(rows) && key in rows && InFolder(rows[key].body).Some?
    ensures rows[key].body.FolderRow? || rows[key].body.RequestRow?
    ensures FolderError(rows, rows[key].body.collectionId, InFolder(rows[key].body).value).None?
  {
    RefKinds(rows[key].body);
    assert FolderFits(rows, rows[key].body);
    FolderErrorFacts(rows, rows[key].body.collectionId, InFolder(rows[key].body).value);
  }

  lemma RequestDecisionsFit(rows: Tables, foreign: set<Key>, c: Command)
    requires WellFormed(rows)
    requires c.CreateRequest? || c.UpdateRequest? || c.DeleteRequest?
    ensures Fits(rows, foreign, Decide(rows, foreign, c))
  {
    var d := Decide(rows, foreign, c);
    if d.Erase? {
      LeafListsCascade(rows, Key(Request, c.id));
    } else if d.Write? {
      var cur := Find(rows, Request, c.id);
      if c.UpdateRequest? {
        assert cur.Some? && cur.value.body.RequestRow?;
        assert Key(Collection, cur.value.body.collectionId) in Refs(cur.value.body);
        if cur.value.body.folderId.Some? { KeptFolderFits(rows, d.key); }
      }
      InnerRowFits(rows, d.key, d.body, d.body.collectionId);
    }
  }

  lemma EnvironmentDecisionsFit(rows: Tables, foreign: set<Key>, c: Command)
    requires WellFormed(rows)
    requires c.CreateEnvironment? || c.UpdateEnvironment? || c.DeleteEnvironment?
    ensures Fits(rows, foreign, Decide(rows, foreign, c))
  {
    if c.DeleteEnvironment? && Decide(rows, foreign, c).Erase? {
      var key := Key(Environment, c.id);
      InsideFacts(rows, EnvironmentVariable, key);
      forall k | k in ContainedIn(rows, key) ensures k.kind == EnvironmentVariable {
        assert key in Container(rows[k].body);
      }
      EnvironmentListsCascade(rows, key, Inside(rows, EnvironmentVariable, key));
    }
  }

  lemma PutVariableFits(rows: Tables, foreign: set<Key>, c: Command)
    requires WellFormed(rows) && c.PutVariable?
    ensures Fits(rows, foreign, DecidePutVariable(rows, foreign, c))
  {
    var d := DecidePutVariable(rows, foreign, c);
    HolderFacts(rows, EnvironmentKey(c.environmentId, c.key), EnvironmentVariable);
    if d.Write? { VariableFits(rows, d.key, d.body); }
  }

  lemma DeleteVariableFits(rows: Tables, foreign: set<Key>, c: Command)
    requires WellFormed(rows) && c.DeleteVariable?
    ensures Fits(rows, foreign, DecideDeleteVariable(rows, c))
  {
    var d := DecideDeleteVariable(rows, c);
    if d.Erase? { LeafListsCascade(rows, d.root); }
  }

  lemma SyncPutVariableFits(rows: Tables, foreign: set<Key>, c: Command)
    requires WellFormed(rows) && c.SyncPutVariable?
    ensures Fits(rows, foreign, DecideSyncPutVariable(rows, foreign, c))
  {
    var d := DecideSyncPutVariable(rows, foreign, c);
    HolderFacts(rows, EnvironmentKey(c.environmentId, c.key), EnvironmentVariable);
    if d.Write? { VariableFits(rows, d.key, d.body); }
  }

  lemma VariableDecisionsFit(rows: Tables, foreign: set<Key>, c: Command)
    requires WellFormed(rows)
    requires c.PutVariable? || c.DeleteVariable? || c.SyncPutVariable?
    ensures Fits(rows, foreign, Decide(rows, foreign, c))
  {
    if c.PutVariable? { PutVariableFits(rows, foreign, c); }
    else if c.DeleteVariable? { DeleteVariableFits(rows, foreign, c); }
    else { SyncPutVariableFits(rows, foreign, c); }
  }

  lemma VariableFits(rows: Tables, key: Key, b: Body)
    requires WellFormed(rows) && key.kind == EnvironmentVariable && b.EnvironmentVariableRow? && SecretStored(b)
    requires Key(Environment, b.environmentId) in rows
    requires forall id :: id in Holders(rows, EnvironmentKey(b.environmentId, b.key)) ==> id == key.id
    ensures WriteFits(rows, key, b)
  {
    HolderFacts(rows, EnvironmentKey(b.environmentId, b.key), EnvironmentVariable);
  }

  lemma VersionDecisionsFit(rows: Tables, foreign: set<Key>, c: Command)
    requires WellFormed(rows)
    requires c.CreateCollectionVersion? || c.DeleteCollectionVersion?
    ensures Fits(rows, foreign, Decide(rows, foreign, c))
  {
    if c.CreateCollectionVersion? {
      HolderFacts(rows, SemverKey(c.data.collectionId, c.data.semver), CollectionVersion);
    } else if Decide(rows, foreign, c).Erase? {
      LeafListsCascade(rows, Key(CollectionVersion, c.id));
    }
  }

  lemma CollectionVariableDecisionsFit(rows: Tables, foreign: set<Key>, c: Command)
    requires WellFormed(rows)
    requires c.SyncPutCollectionVariable? || c.DeleteCollectionVariable?
    ensures Fits(rows, foreign, Decide(rows, foreign, c))
  {
    var d := Decide(rows, foreign, c);
    if c.SyncPutCollectionVariable? && d.Write? {
      HolderFacts(rows, CollectionKey(d.body.collectionId, d.body.key), CollectionVariable);
    } else if d.Erase? {
      LeafListsCascade(rows, Key(CollectionVariable, c.id));
    }
  }

  lemma GlobalDecisionsFit(rows: Tables, foreign: set<Key>, c: Command)
    requires WellFormed(rows)
    requires c.SyncPutGlobalVariable? || c.DeleteGlobalVariable?
    ensures Fits(rows, foreign, Decide(rows, foreign, c))
  {
    var d := Decide(rows, foreign, c);
    if c.SyncPutGlobalVariable? && d.Write? {
      HolderFacts(rows, GlobalKey(d.body.key), GlobalVariable);
    } else if d.Erase? {
      LeafListsCascade(rows, Key(GlobalVariable, c.id));
    }
  }

  lemma DecisionsFit(rows: Tables, foreign: set<Key>, c: Command)
    requires WellFormed(rows)
    ensures Fits(rows, foreign, Decide(rows, foreign, c))
  {
    if c.CreateCollection? || c.UpdateCollection? || c.DeleteCollection? { CollectionDecisionsFit(rows, foreign, c); }
    else if c.CreateFolder? || c.UpdateFolder? || c.DeleteFolder? { FolderDecisionsFit(rows, foreign, c); }
    else if c.CreateRequest? || c.UpdateRequest? || c.DeleteRequest? { RequestDecisionsFit(rows, foreign, c); }
    else if c.CreateEnvironment? || c.UpdateEnvironment? || c.DeleteEnvironment? { EnvironmentDecisionsFit(rows,
        foreign, c); }
    else if c.PutVariable? || c.DeleteVariable? || c.SyncPutVariable? { VariableDecisionsFit(rows, foreign, c); }
    else if c.CreateCollectionVersion? || c.DeleteCollectionVersion? { VersionDecisionsFit(rows, foreign, c); }
    else if c.SyncPutCollectionVariable? || c.DeleteCollectionVariable? { CollectionVariableDecisionsFit(rows,
        foreign, c); }
    else { GlobalDecisionsFit(rows, foreign, c); }
  }

  // ---------------------------------------------------------------- and keep the invariants

  lemma WriteKeepsWellFormed(rows: Tables, key: Key, b: Body, version: nat)
    requires WellFormed(rows) && WriteFits(rows, key, b) && version >= 1
    ensures WellFormed(rows[key := Versioned(version, b)])
  {
    var next := rows[key := Versioned(version, b)];
    forall k | k in next ensures FolderFits(next, next[k].body) && Refs(next[k].body) <= next.Keys {
      RefKinds(next[k].body);
      if k != key && InFolder(rows[k].body).Some? {
        assert Key(Folder, InFolder(rows[k].body).value) in rows;
      }
    }
  }

  lemma EraseKeepsWellFormed(rows: Tables, root: Key)
    requires WellFormed(rows)
    ensures WellFormed(rows - Cascade(rows, {root}))
  {
    var gone := Cascade(rows, {root});
    var next := rows - gone;
    forall k | k in next ensures Refs(next[k].body) <= next.Keys && FolderFits(next, next[k].body) {
      assert k !in Referrers(rows, gone);
      forall r | r in Refs(rows[k].body) ensures r !in gone { assert r !in Refs(rows[k].body) * gone; }
      if InFolder(rows[k].body).Some? {
        assert Key(Folder, InFolder(rows[k].body).value) in Refs(rows[k].body);
      }
    }
  }
}
