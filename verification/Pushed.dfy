/** Workspaces that a desktop client builds by pushing one collection and then folders, with ids of its own choosing. */
module Pushed {
  import opened Prelude
  import opened Rows
  import opened Tree
  import opened Content
  import opened Integrity
  import opened Journal
  import Apply
  import opened Sync
  import Cursors

  const HOME := Key(Collection, "c")
  const HOME_ROW := Versioned(1, CollectionRow("c", NO_EXTRAS))

  function FolderAt(parent: Option<Id>): Body {
    FolderRow("c", parent, "f", 0, NO_EXTRAS)
  }

  function Upserting(operation: string, key: Key, base: nat, input: Apply.Input): Action {
    Push({}, 0, Apply.Incoming(operation, "desktop", key, Upsert, base, input, true))
  }

  const ADD_HOME := Upserting("c", HOME, 0, Apply.CollectionInput(Given("c"), UNCHANGED))

  /** Operation ids are the letter of what is done and the folder it is done to. */
  function AddFolder(id: Id, parent: Option<Id>): Action {
    Upserting("f" + id, Key(Folder, id), 0, Apply.FolderInput(Given("c"), Given(parent), Given("f"), Absent, UNCHANGED))
  }

  function MoveFolder(id: Id, parent: Option<Id>): Action {
    Upserting("m" + id, Key(Folder, id), 1, Apply.FolderInput(Absent, Given(parent), Absent, Absent, UNCHANGED))
  }

  /** A folder and the folder it is put in, if any. */
  datatype Placed = Placed(id: Id, parent: Option<Id>)

  function History(folders: seq<Placed>): (r: seq<Action>)
    ensures |r| == |folders| + 1
  {
    if folders == [] then [ADD_HOME]
    else
      var f := folders[|folders| - 1];
      History(folders[..|folders| - 1]) + [AddFolder(f.id, f.parent)]
  }

  function ParentsIn(folders: seq<Placed>): Parents {
    if folders == [] then map[]
    else
      var f := folders[|folders| - 1];
      ParentsIn(folders[..|folders| - 1])[f.id := f.parent]
  }

  /** Folders are added once, and after their parents. */
  predicate AddedInOrder(folders: seq<Placed>) {
    folders == [] ||
    var init, f := folders[..|folders| - 1], folders[|folders| - 1];
    AddedInOrder(init) && f.id !in ParentsIn(init) && (f.parent.Some? ==> f.parent.value in ParentsIn(init))
  }

  /** One collection, and these folders in it, each at its first version. */
  ghost predicate HoldsFolders(rows: Tables, p: Parents) {
    && HOME in rows && rows[HOME] == HOME_ROW
    && (forall id :: id in p <==> Key(Folder, id) in rows)
    && (forall id :: id in p ==> rows[Key(Folder, id)] == Versioned(1, FolderAt(p[id])))
    && (forall k :: k in rows ==> k == HOME || k.kind == Folder)
  }

  /** So far only the collection and these folders were added. */
  ghost predicate Built(db: Database, p: Parents) {
    && HoldsFolders(db.rows, p)
    && (forall o :: Logged(db.log, o) ==> o == "c" || (o != "" && o[0] == 'f' && o[1..] in p))
  }

  lemma HeldParents(rows: Tables, p: Parents)
    requires HoldsFolders(rows, p)
    ensures ParentsOf(rows) == p
  {
    forall id ensures id in IdsOf(rows, Folder) <==> id in p {
      if id in p { assert Key(Folder, id) in rows && Key(Folder, id).id == id; }
    }
  }

  lemma WriteLogs(db: Database, a: Action)
    requires a.Push? && a.seen == 0 && Apply.DecideOperation(db.rows, a.foreign, a.op).Write? && !Logged(db.log, a.op.operation)
    requires a.op.workspaceMatches
    ensures var d, next := Apply.DecideOperation(db.rows, a.foreign, a.op), Step(db, a);
      && DecisionOf(db, a) == d && next.rows == RowsAfter(db.rows, d)
      && |next.log| == |db.log| + 1
      && forall o :: Logged(next.log, o) ==> Logged(db.log, o) || o == a.op.operation
  {
    assert Seen(db.log, 0) == [];
    var next := Step(db, a);
    forall o | Logged(next.log, o) ensures Logged(db.log, o) || o == a.op.operation {
      var i :| 0 <= i < |next.log| && next.log[i].operation == Some(o);
      if i < |db.log| { assert db.log[i].operation == Some(o); }
    }
  }

  lemma HomeAdded()
    ensures Built(Step(EMPTY, ADD_HOME), map[]) && |Step(EMPTY, ADD_HOME).log| == 1
  {
    assert Apply.DecideOperation(map[], {}, ADD_HOME.op) == Write(HOME, HOME_ROW.body);
    WriteLogs(EMPTY, ADD_HOME);
  }

  lemma AddDecides(rows: Tables, p: Parents, id: Id, parent: Option<Id>)
    requires HoldsFolders(rows, p) && id !in p && (parent.Some? ==> parent.value in p)
    ensures Apply.DecideOperation(rows, {}, AddFolder(id, parent).op) == Write(Key(Folder, id), FolderAt(parent))
  {
    if parent.Some? { assert rows[Key(Folder, parent.value)] == Versioned(1, FolderAt(p[parent.value])); }
  }

  lemma FolderAdded(db: Database, p: Parents, id: Id, parent: Option<Id>)
    requires Built(db, p) && id !in p && (parent.Some? ==> parent.value in p)
    ensures Built(Step(db, AddFolder(id, parent)), p[id := parent]) && |Step(db, AddFolder(id, parent)).log| == |db.log| + 1
  {
    AddDecides(db.rows, p, id, parent);
    var o := "f" + id;
    assert o[0] == 'f' && o[1..] == id;
    WriteLogs(db, AddFolder(id, parent));
  }

  /** The pushes build what they say. */
  lemma {:induction false} HistoryBuilds(folders: seq<Placed>)
    requires AddedInOrder(folders)
    ensures Built(Run(EMPTY, History(folders)), ParentsIn(folders)) && Consistent(Run(EMPTY, History(folders)))
    ensures Run(EMPTY, History(folders)).checkpoint == |folders| + 1
  {
    RunsAreConsistent(History(folders));
    var all := History(folders);
    RunStep(all, |all| - 1);
    assert all[..|all|] == all;
    if folders == [] {
      assert all[..0] == [];
      HomeAdded();
    } else {
      var init, f := folders[..|folders| - 1], folders[|folders| - 1];
      HistoryBuilds(init);
      assert all[..|all| - 1] == History(init);
      FolderAdded(Run(EMPTY, History(init)), ParentsIn(init), f.id, f.parent);
    }
  }

  /** A move of a folder at its first version goes through when the parent check has nothing against it. */
  lemma FolderMoved(db: Database, p: Parents, id: Id, parent: Option<Id>)
    requires Built(db, p) && id in p && (parent.Some? ==> MoveAccepted(p, id, parent.value))
    ensures var a := MoveFolder(id, parent); var next := Step(db, a);
      && DecisionOf(db, a) == Write(Key(Folder, id), FolderAt(parent))
      && next.rows == db.rows[Key(Folder, id) := Versioned(2, FolderAt(parent))]
      && ParentsOf(next.rows) == p[id := parent]
      && next.log != [] && |next.log| == |db.log| + 1
      && forall o :: Logged(next.log, o) ==> Logged(db.log, o) || o == "m" + id
  {
    var a := MoveFolder(id, parent);
    var o := "m" + id;
    assert o[0] == 'm' && o == a.op.operation;
    HeldParents(db.rows, p);
    if parent.Some? { assert db.rows[Key(Folder, parent.value)] == Versioned(1, FolderAt(p[parent.value])); }
    assert db.rows[Key(Folder, id)] == Versioned(1, FolderAt(p[id]));
    assert Apply.DecideOperation(db.rows, {}, a.op) == Write(Key(Folder, id), FolderAt(parent));
    WriteLogs(db, a);
    var next := Step(db, a).rows;
    forall x ensures x in IdsOf(next, Folder) <==> x in p {
      if x in p { assert Key(Folder, x) in next && Key(Folder, x).id == x; }
    }
  }

  // ---------------------------------------------------------------- a chain deeper than the cycle check walks

  function ChainId(i: nat): Id {
    Cursors.Decimal(i)
  }

  /** Folder `i` of the chain lies in folder `i - 1`. */
  function ChainTo(last: nat): seq<Placed> {
    if last == 0 then [Placed(ChainId(0), None)] else ChainTo(last - 1) + [Placed(ChainId(last), Some(ChainId(last - 1)))]
  }

  predicate OfChain(x: Id, last: nat) {
    Cursors.AllDigits(x) && Cursors.Number(x) <= last
  }

  lemma Appended(folders: seq<Placed>, f: Placed)
    ensures ParentsIn(folders + [f]) == ParentsIn(folders)[f.id := f.parent]
    ensures AddedInOrder(folders + [f]) <==>
      AddedInOrder(folders) && f.id !in ParentsIn(folders) && (f.parent.Some? ==> f.parent.value in ParentsIn(folders))
  {
    assert (folders + [f])[..|folders|] == folders;
  }

  /** The chain one folder longer. */
  lemma ChainGrows(last: nat)
    ensures ParentsIn(ChainTo(0)) == map[ChainId(0) := None] && AddedInOrder(ChainTo(0))
    ensures last > 0 ==> var p := ParentsIn(ChainTo(last - 1));
      && ParentsIn(ChainTo(last)) == p[ChainId(last) := Some(ChainId(last - 1))]
      && (AddedInOrder(ChainTo(last)) <==> AddedInOrder(ChainTo(last - 1)) && ChainId(last) !in p && ChainId(last - 1) in p)
  {
    Appended([], Placed(ChainId(0), None));
    assert [] + [Placed(ChainId(0), None)] == ChainTo(0);
    if last > 0 { Appended(ChainTo(last - 1), Placed(ChainId(last), Some(ChainId(last - 1)))); }
  }

  lemma {:induction false} ChainMember(last: nat, x: Id)
    requires x in ParentsIn(ChainTo(last))
    ensures OfChain(x, last)
  {
    ChainGrows(last);
    Cursors.NumberOfDecimal(last);
    if x != ChainId(last) { ChainMember(last - 1, x); }
  }

  lemma NotOfChain(last: nat)
    requires last > 0
    ensures !OfChain(ChainId(last), last - 1)
  {
    Cursors.NumberOfDecimal(last);
  }

  lemma ChainIdIsNew(last: nat)
    requires last > 0
    ensures ChainId(last) !in ParentsIn(ChainTo(last - 1))
  {
    NotOfChain(last);
    var x := ChainId(last);
    if x in ParentsIn(ChainTo(last - 1)) { ChainMember(last - 1, x); }
  }

  lemma {:induction false} ChainFacts(last: nat)
    ensures AddedInOrder(ChainTo(last)) && Forest(ParentsIn(ChainTo(last)))
  {
    ChainGrows(last);
    if last == 0 {
      assert Labels(map[], map[]);
      LeafKeepsForest(map[], ChainId(0), None);
    } else {
      ChainFacts(last - 1);
      ChainIdIsNew(last);
      ChainLink(last - 1, last - 1);
      LeafKeepsForest(ParentsIn(ChainTo(last - 1)), ChainId(last), Some(ChainId(last - 1)));
    }
  }

  lemma {:induction false} ChainLink(last: nat, i: nat)
    requires i <= last
    ensures ChainId(i) in ParentsIn(ChainTo(last))
    ensures ParentsIn(ChainTo(last))[ChainId(i)] == if i == 0 then None else Some(ChainId(i - 1))
    decreases last
  {
    ChainGrows(last);
    if i < last {
      ChainLink(last - 1, i);
      Cursors.NumberOfDecimal(i);
      Cursors.NumberOfDecimal(last);
    }
  }

  lemma {:induction false} ChainUp(last: nat, i: nat, n: nat)
    requires n <= i <= last
    ensures Up(ParentsIn(ChainTo(last)), Some(ChainId(i)), n) == Some(ChainId(i - n))
    decreases n
  {
    if n > 0 {
      ChainLink(last, i);
      ChainUp(last, i - 1, n - 1);
    }
  }

  lemma ChainMoveAccepted(last: nat)
    requires last > WALK_LIMIT
    ensures var p := ParentsIn(ChainTo(last));
      && ChainId(0) in p && ChainId(last) in p && MoveAccepted(p, ChainId(0), ChainId(last))
      && !Forest(p[ChainId(0) := Some(ChainId(last))])
  {
    var p := ParentsIn(ChainTo(last));
    ChainFacts(last);
    ChainLink(last, 0);
    ChainLink(last, last);
    ChainUp(last, last, last);
    assert Meets(p, Some(ChainId(last)), ChainId(0), last);
    CyclesAcceptedExactly(p, ChainId(0), ChainId(last));
  }

  /**
   * A chain of more than `WALK_LIMIT` folders below the first can be pushed, with ids as short as the server asks for,
   * and then one more push moves the first folder under the last: it is accepted and leaves a cycle.
   */
  lemma DeepRunMakesCycle(last: nat)
    requires WALK_LIMIT < last < Cursors.PowerOfTen(Cursors.ID_MAX)
    ensures var db, move := Run(EMPTY, History(ChainTo(last))), MoveFolder(ChainId(0), Some(ChainId(last)));
      && Consistent(db) && Forest(ParentsOf(db.rows))
      && DecisionOf(db, move).Write? && !Forest(ParentsOf(Step(db, move).rows))
    ensures forall i: nat :: i <= last ==> 1 <= |ChainId(i)| <= Cursors.ID_MAX
  {
    var p := ParentsIn(ChainTo(last));
    var db := Run(EMPTY, History(ChainTo(last)));
    ChainFacts(last);
    ChainLink(last, 0);
    HistoryBuilds(ChainTo(last));
    HeldParents(db.rows, p);
    ChainMoveAccepted(last);
    FolderMoved(db, p, ChainId(0), Some(ChainId(last)));
    forall i: nat | i <= last ensures |ChainId(i)| <= Cursors.ID_MAX { Cursors.DecimalLength(i, Cursors.ID_MAX); }
  }
}
