/** Pushing operations, and every run of REST writes and pushed operations on one workspace. */
module Sync {
  import opened Prelude
  import opened Rows
  import opened Tree
  import opened Content
  import opened Integrity
  import opened Journal
  import opened Apply

  datatype Verdict =
    | Accepted(operation: string, resource: Id, version: nat)
    | Rejected(operation: string, error: Error)

  function ContextOf(op: Incoming): Context {
    Context(Some(op.operation), Some(op.client), op.base)
  }

  /** The entry of an operation id, if it was logged. */
  function Recorded(log: seq<Entry>, operation: string): (r: Option<Entry>)
    ensures r.Some? <==> Logged(log, operation)
    ensures r.Some? ==> r.value in log && r.value.operation == Some(operation)
  {
    if log == [] then None
    else if log[|log| - 1].operation == Some(operation) then Some(log[|log| - 1])
    else
      var r := Recorded(log[..|log| - 1], operation);
      assert r.Some? <==> Logged(log, operation) by {
        assert Logged(log[..|log| - 1], operation) ==> Logged(log, operation);
      }
      r
  }

  function Replayed(e: Entry, op: Incoming): Verdict {
    Accepted(op.operation, e.key.id, e.version)
  }

  /** Operation ids are unique per workspace: a second entry with the same id aborts its transaction. */
  function TransactionDecision(db: Database, foreign: set<Key>, op: Incoming): Decision {
    var d := DecideOperation(db.rows, foreign, op);
    if (d.Write? || d.Erase?) && Logged(db.log, op.operation) then Refused(UniqueViolation) else d
  }

  function VerdictOf(db: Database, d: Decision, op: Incoming): Verdict {
    match d
    case Refused(UniqueViolation) =>
      // A unique violation is a concurrent replay if the operation is in the log by now.
      if Recorded(db.log, op.operation).Some? then Replayed(Recorded(db.log, op.operation).value, op)
      else Rejected(op.operation, UniqueViolation)
    case Refused(e) => Rejected(op.operation, e)
    case _ => Accepted(op.operation, op.key.id, ResultVersion(db.rows, d))
  }

  /** The log as it was when it had `n` entries. */
  function Seen(log: seq<Entry>, n: nat): seq<Entry> {
    if n <= |log| then log[..n] else log
  }

  /**
   * One operation of a push. Its replay lookup reads the log as it was at length `seen`; other writers may commit
   * before its transaction runs.
   */
  function PushOne(db: Database, seen: nat, foreign: set<Key>, op: Incoming): (Database, Verdict) {
    var before := Recorded(Seen(db.log, seen), op.operation);
    if before.Some? then (db, Replayed(before.value, op))
    else if !op.workspaceMatches then (db, Rejected(op.operation, InvalidRequest))
    else
      var d := TransactionDecision(db, foreign, op);
      (Perform(db, d, ContextOf(op)), VerdictOf(db, d, op))
  }

  // ---------------------------------------------------------------- runs

  datatype Action =
    | Rest(foreign: set<Key>, command: Command)
    | Push(foreign: set<Key>, seen: nat, op: Incoming)

  const REST_CONTEXT := Context(None, None, 0)

  function Step(db: Database, a: Action): Database {
    match a
    case Rest(foreign, c) => Perform(db, Decide(db.rows, foreign, c), REST_CONTEXT)
    case Push(foreign, seen, op) => PushOne(db, seen, foreign, op).0
  }

  function Run(db: Database, actions: seq<Action>): Database {
    if actions == [] then db else Step(Run(db, actions[..|actions| - 1]), actions[|actions| - 1])
  }

  /** The decision an action performs. */
  function DecisionOf(db: Database, a: Action): Decision {
    match a
    case Rest(foreign, c) => Decide(db.rows, foreign, c)
    case Push(foreign, seen, op) =>
      if Recorded(Seen(db.log, seen), op.operation).Some? || !op.workspaceMatches then Already(0)
      else TransactionDecision(db, foreign, op)
  }

  function ContextOfAction(a: Action): Context {
    match a
    case Rest(_, _) => REST_CONTEXT
    case Push(_, _, op) => ContextOf(op)
  }

  lemma StepPerforms(db: Database, a: Action)
    ensures Step(db, a) == Perform(db, DecisionOf(db, a), ContextOfAction(a))
  {}

  lemma DecisionOfFits(db: Database, a: Action)
    requires Consistent(db)
    ensures Fits(db.rows, a.foreign, DecisionOf(db, a))
    ensures (DecisionOf(db, a).Write? || DecisionOf(db, a).Erase?) && ContextOfAction(a).operation.Some?
      ==> !Logged(db.log, ContextOfAction(a).operation.value)
  {
    if a.Rest? { DecisionsFit(db.rows, a.foreign, a.command); } else { OperationsFit(db.rows, a.foreign, a.op); }
  }

  lemma StepKeepsConsistent(db: Database, a: Action)
    requires Consistent(db)
    ensures Consistent(Step(db, a))
  {
    StepPerforms(db, a);
    DecisionOfFits(db, a);
    var d, ctx := DecisionOf(db, a), ContextOfAction(a);
    if d.Write? || d.Erase? {
      PerformKeepsConsistent(db, a.foreign, d, ctx);
    } else {
      assert Perform(db, d, ctx) == db;
    }
  }

  lemma EmptyIsConsistent()
    ensures Consistent(EMPTY)
  {
    assert forall k :: Remains(Last(EMPTY.log, k)) == At(Wire(EMPTY.rows), k);
  }

  /** Everything that holds between mutations holds after every run from an empty workspace. */
  lemma {:induction false} RunsAreConsistent(actions: seq<Action>)
    ensures Consistent(Run(EMPTY, actions))
  {
    if actions == [] {
      EmptyIsConsistent();
    } else {
      RunsAreConsistent(actions[..|actions| - 1]);
      StepKeepsConsistent(Run(EMPTY, actions[..|actions| - 1]), actions[|actions| - 1]);
    }
  }

  /** After every run, replaying the whole log from nothing gives exactly the live rows. */
  lemma LogIsComplete(actions: seq<Action>)
    ensures var db := Run(EMPTY, actions); Replay(map[], db.log) == Wire(db.rows)
  {
    RunsAreConsistent(actions);
    LogRebuildsTables(Run(EMPTY, actions));
  }

  /** After every run, whatever conversions between plain and secret it made: unique keys are unique and secrets hidden. */
  lemma KeysAndSecretsHold(actions: seq<Action>, k: Key, l: Key, i: nat)
    requires var db := Run(EMPTY, actions); k in db.rows && l in db.rows && i < |db.log|
    ensures var db := Run(EMPTY, actions);
      && (UniqueOf(db.rows[k].body).Some? && UniqueOf(db.rows[k].body) == UniqueOf(db.rows[l].body) ==> k == l)
      && SecretStored(db.rows[k].body)
      && SecretFree(db.log[i].payload)
      && (InFolder(db.rows[k].body).Some? ==>
            var f := Key(Folder, InFolder(db.rows[k].body).value);
            f in db.rows && Container(db.rows[f].body) == Container(db.rows[k].body))
  {
    RunsAreConsistent(actions);
    assert FolderFits(Run(EMPTY, actions).rows, Run(EMPTY, actions).rows[k].body);
  }

  lemma {:induction false} LogOnlyGrows(db: Database, actions: seq<Action>)
    ensures db.log <= Run(db, actions).log
  {
    if actions != [] {
      LogOnlyGrows(db, actions[..|actions| - 1]);
      StepPerforms(Run(db, actions[..|actions| - 1]), actions[|actions| - 1]);
    }
  }

  // ---------------------------------------------------------------- idempotence

  /** An operation that was applied is in the log, with the version and id its acceptance reported. */
  lemma AppliedIsLogged(db: Database, seen: nat, foreign: set<Key>, op: Incoming)
    requires Consistent(db) && PushOne(db, seen, foreign, op).0 != db
    ensures var (next, v) := PushOne(db, seen, foreign, op);
      && !Logged(db.log, op.operation)
      && Recorded(next.log, op.operation).Some?
      && v == Replayed(Recorded(next.log, op.operation).value, op)
  {
    var d := TransactionDecision(db, foreign, op);
    var entries := EntriesOf(db.rows, d, ContextOf(op), db.checkpoint);
    var next := Perform(db, d, ContextOf(op));
    assert !d.Write? && !d.Erase? ==> next == db;
    NoLostUpdate(db.rows, foreign, op);
    var e := entries[|entries| - 1];
    assert next.log[|next.log| - 1] == e && e.operation == Some(op.operation) && e.key == op.key;
  }

  lemma {:induction false} RecordedStays(log: seq<Entry>, longer: seq<Entry>, operation: string)
    requires log <= longer && Logged(log, operation) && OperationsOnce(longer)
    ensures Recorded(longer, operation) == Recorded(log, operation)
  {
    var e, f := Recorded(log, operation).value, Recorded(longer, operation).value;
    var i :| 0 <= i < |log| && log[i] == e;
    assert longer[i] == e;
    assert Logged(longer, operation);
    var j :| 0 <= j < |longer| && longer[j] == f;
    assert i == j;
  }

  /** Pushing a logged operation changes nothing; a lookup that sees its entry answers with that entry. */
  lemma LoggedPushIsNoOp(db: Database, seen: nat, foreign: set<Key>, op: Incoming)
    requires OperationsOnce(db.log) && Logged(db.log, op.operation)
    ensures PushOne(db, seen, foreign, op).0 == db
    ensures Logged(Seen(db.log, seen), op.operation) ==>
      PushOne(db, seen, foreign, op).1 == Replayed(Recorded(db.log, op.operation).value, op)
  {
    var d := TransactionDecision(db, foreign, op);
    assert Perform(db, d, ContextOf(op)) == db;
    if Logged(Seen(db.log, seen), op.operation) { RecordedStays(Seen(db.log, seen), db.log, op.operation); }
  }

  /**
   * At most once: after an operation was applied, in every later state of every run pushing it again changes nothing,
   * whatever its replay lookup saw; when the lookup sees the entry, the answer is the original one.
   */
  lemma PushIsIdempotent(db: Database, seen: nat, foreign: set<Key>, op: Incoming, later: seq<Action>, seen': nat,
      foreign': set<Key>)
    requires Consistent(db) && PushOne(db, seen, foreign, op).0 != db
    ensures var (next, first) := PushOne(db, seen, foreign, op);
      var end := Run(next, later);
      var (after, again) := PushOne(end, seen', foreign', op);
      after == end && (Logged(Seen(end.log, seen'), op.operation) ==> again == first)
  {
    var next := PushOne(db, seen, foreign, op).0;
    var end := Run(next, later);
    AppliedIsLogged(db, seen, foreign, op);
    StepKeepsConsistent(db, Push(foreign, seen, op));
    LaterStaysLogged(next, later, op.operation);
    LoggedPushIsNoOp(end, seen', foreign', op);
  }

  lemma LaterStaysLogged(db: Database, later: seq<Action>, operation: string)
    requires Consistent(db) && Logged(db.log, operation)
    ensures OperationsOnce(Run(db, later).log) && Logged(Run(db, later).log, operation)
    ensures Recorded(Run(db, later).log, operation) == Recorded(db.log, operation)
  {
    RunKeepsConsistent(db, later);
    LogOnlyGrows(db, later);
    var i :| 0 <= i < |db.log| && db.log[i].operation == Some(operation);
    assert Run(db, later).log[i].operation == Some(operation);
    RecordedStays(db.log, Run(db, later).log, operation);
  }

  lemma {:induction false} RunKeepsConsistent(db: Database, actions: seq<Action>)
    requires Consistent(db)
    ensures Consistent(Run(db, actions))
  {
    if actions != [] {
      RunKeepsConsistent(db, actions[..|actions| - 1]);
      StepKeepsConsistent(Run(db, actions[..|actions| - 1]), actions[|actions| - 1]);
    }
  }

  /** A rejected operation leaves no trace; an accepted one is named in its verdict. */
  lemma RejectionLeavesNoTrace(db: Database, seen: nat, foreign: set<Key>, op: Incoming)
    ensures PushOne(db, seen, foreign, op).1.operation == op.operation
    ensures PushOne(db, seen, foreign, op).1.Rejected? ==> PushOne(db, seen, foreign, op).0 == db
  {
    var d := TransactionDecision(db, foreign, op);
    if d.Refused? { assert Perform(db, d, ContextOf(op)) == db; }
  }

  // ---------------------------------------------------------------- batches

  /** A whole push: the operations in order, each in its own transaction, each answered once. */
  function PushAll(db: Database, foreign: set<Key>, ops: seq<Incoming>): (Database, seq<Verdict>) {
    if ops == [] then (db, [])
    else
      var (mid, verdicts) := PushAll(db, foreign, ops[..|ops| - 1]);
      var (next, v) := PushOne(mid, |mid.log|, foreign, ops[|ops| - 1]);
      (next, verdicts + [v])
  }

  function AcceptedOf(verdicts: seq<Verdict>): seq<Verdict> {
    if verdicts == [] then []
    else AcceptedOf(verdicts[..|verdicts| - 1]) + (if verdicts[|verdicts| - 1].Accepted? then [verdicts[|verdicts| - 1]] else [])
  }

  function RejectedOf(verdicts: seq<Verdict>): seq<Verdict> {
    if verdicts == [] then []
    else RejectedOf(verdicts[..|verdicts| - 1]) + (if verdicts[|verdicts| - 1].Rejected? then [verdicts[|verdicts| - 1]] else [])
  }

  /** The two lists share out the answers: each is in one of them as often as it was given. */
  lemma {:induction false} AnswersArePartitioned(verdicts: seq<Verdict>, v: Verdict)
    ensures multiset(AcceptedOf(verdicts))[v] + multiset(RejectedOf(verdicts))[v] == multiset(verdicts)[v]
    ensures v in AcceptedOf(verdicts) <==> v in verdicts && v.Accepted?
  {
    if verdicts != [] {
      var init, last := verdicts[..|verdicts| - 1], verdicts[|verdicts| - 1];
      AnswersArePartitioned(init, v);
      assert verdicts == init + [last];
    }
  }

  /** Every operation is done and answered exactly once, in order, in the state that those before it left; a rejected one leaves it. */
  lemma {:induction false} BatchAnswersEach(db: Database, foreign: set<Key>, ops: seq<Incoming>, i: nat)
    requires i < |ops|
    ensures var (end, verdicts) := PushAll(db, foreign, ops);
      var mid := PushAll(db, foreign, ops[..i]).0;
      && |verdicts| == |ops| && verdicts[i].operation == ops[i].operation
      && (PushAll(db, foreign, ops[..i + 1]).0, verdicts[i]) == PushOne(mid, |mid.log|, foreign, ops[i])
      && (verdicts[i].Rejected? ==> PushAll(db, foreign, ops[..i + 1]).0 == mid)
    decreases |ops|
  {
    BatchAnswers(db, foreign, ops);
    BatchPrefix(db, foreign, ops, i + 1);
    var mid := PushAll(db, foreign, ops[..i]).0;
    assert ops[..i + 1][..i] == ops[..i];
    RejectionLeavesNoTrace(mid, |mid.log|, foreign, ops[i]);
    BatchAnswers(db, foreign, ops[..i]);
  }

  lemma {:induction false} BatchAnswers(db: Database, foreign: set<Key>, ops: seq<Incoming>)
    ensures |PushAll(db, foreign, ops).1| == |ops|
  {
    if ops != [] { BatchAnswers(db, foreign, ops[..|ops| - 1]); }
  }

  lemma {:induction false} BatchPrefix(db: Database, foreign: set<Key>, ops: seq<Incoming>, n: nat)
    requires n <= |ops|
    ensures PushAll(db, foreign, ops[..n]).1 <= PushAll(db, foreign, ops).1
    decreases |ops|
  {
    if n == |ops| {
      assert ops[..n] == ops;
    } else {
      BatchPrefix(db, foreign, ops[..|ops| - 1], n);
      assert ops[..|ops| - 1][..n] == ops[..n];
    }
  }

  lemma {:induction false} BatchKeepsConsistent(db: Database, foreign: set<Key>, ops: seq<Incoming>)
    requires Consistent(db)
    ensures Consistent(PushAll(db, foreign, ops).0)
  {
    if ops != [] {
      BatchKeepsConsistent(db, foreign, ops[..|ops| - 1]);
      var mid := PushAll(db, foreign, ops[..|ops| - 1]).0;
      StepKeepsConsistent(mid, Push(foreign, |mid.log|, ops[|ops| - 1]));
    }
  }

  // ---------------------------------------------------------------- references at every prefix of every log

  /** What a replica holds after any prefix of the log of any run refers to nothing missing, parents of folders aside. */
  lemma {:induction false} EveryPrefixIsClosed(actions: seq<Action>, n: nat)
    requires n <= |Run(EMPTY, actions).log|
    ensures Closed(Replay(map[], Run(EMPTY, actions).log[..n]), false)
  {
    if actions != [] {
      var earlier, a := actions[..|actions| - 1], actions[|actions| - 1];
      var db := Run(EMPTY, earlier);
      RunsAreConsistent(earlier);
      StepPerforms(db, a);
      if n <= |db.log| {
        EveryPrefixIsClosed(earlier, n);
        assert Run(EMPTY, actions).log[..n] == db.log[..n];
      } else {
        StepPrefixIsClosed(db, a, n - |db.log|);
      }
    }
  }

  /** Parents of folders resolve too at every prefix that does not end inside a collection delete. */
  lemma StepPrefixIsClosed(db: Database, a: Action, m: nat)
    requires Consistent(db) && |db.log| + m <= |Step(db, a).log|
    ensures PrefixIsClosed(db, a, m)
    ensures Closed(Replay(map[], Step(db, a).log[..|db.log| + m]), false)
  {
    StepPerforms(db, a);
    DecisionOfFits(db, a);
    var d, ctx := DecisionOf(db, a), ContextOfAction(a);
    var entries := EntriesOf(db.rows, d, ctx, db.checkpoint);
    assert Step(db, a).log[..|db.log| + m] == db.log + entries[..m];
    if d.Write? || d.Erase? {
      PrefixesClosed(db, a.foreign, d, ctx, m);
    } else {
      assert db.log + entries[..m] == db.log;
      LogRebuildsTables(db);
      TablesAreClosed(db.rows);
    }
  }

  /** What a replica holds `m` entries into an action refers to nothing missing, parents counting unless a collection goes. */
  ghost predicate PrefixIsClosed(db: Database, a: Action, m: nat)
    requires |db.log| + m <= |Step(db, a).log|
  {
    Closed(Replay(map[], Step(db, a).log[..|db.log| + m]), !DeletesCollection(db, a))
  }

  predicate DeletesCollection(db: Database, a: Action) {
    DecisionOf(db, a).Erase? && DecisionOf(db, a).root.kind == Collection
  }

  /** The same over whole runs: `m` entries into what the last action of a run appends. */
  lemma PrefixesInRunsAreClosed(earlier: seq<Action>, a: Action, m: nat)
    requires |Run(EMPTY, earlier).log| + m <= |Step(Run(EMPTY, earlier), a).log|
    ensures PrefixIsClosed(Run(EMPTY, earlier), a, m)
  {
    RunsAreConsistent(earlier);
    StepPrefixIsClosed(Run(EMPTY, earlier), a, m);
  }

  lemma RunStep(actions: seq<Action>, i: nat)
    requires i < |actions|
    ensures Run(EMPTY, actions[..i + 1]) == Step(Run(EMPTY, actions[..i]), actions[i])
  {
    assert actions[..i + 1][..i] == actions[..i];
  }

  // ---------------------------------------------------------------- the forest over runs

  /** What a decision does to the parent of a folder: nothing, a root, or a parent the cycle check let through. */
  predicate ParentChecked(rows: Tables, d: Decision) {
    d.Write? && d.key.kind == Folder && d.key in rows ==>
      var parent := InFolder(d.body);
      parent == InFolder(rows[d.key].body) || parent == None || MoveAccepted(ParentsOf(rows), d.key.id, parent.value)
  }

  lemma UpdateFolderChecks(rows: Tables, c: Command)
    requires KindsMatch(rows) && c.UpdateFolder?
    ensures ParentChecked(rows, DecideUpdateFolder(rows, c))
  {
    ParentsFacts(rows);
  }

  lemma OnlyFolderCommandsWriteFolders(rows: Tables, foreign: set<Key>, c: Command)
    ensures var d := Decide(rows, foreign, c);
      d.Write? && d.key.kind == Folder ==> c.UpdateFolder? || (c.CreateFolder? && d.key !in rows)
  {}

  lemma CommandsCheckParents(rows: Tables, foreign: set<Key>, c: Command)
    requires WellFormed(rows)
    ensures ParentChecked(rows, Decide(rows, foreign, c))
  {
    OnlyFolderCommandsWriteFolders(rows, foreign, c);
    if c.UpdateFolder? { UpdateFolderChecks(rows, c); }
  }

  lemma OperationsCheckParents(rows: Tables, foreign: set<Key>, op: Incoming)
    requires WellFormed(rows)
    ensures ParentChecked(rows, DecideOperation(rows, foreign, op))
  {
    match Translate(rows, foreign, op)
    case Run(c) => CommandsCheckParents(rows, foreign, c);
    case Stop(d) =>
  }

  /** An existing folder is written with a parent in its own subtree. */
  ghost predicate MovesIntoSubtree(rows: Tables, d: Decision) {
    d.Write? && d.key.kind == Folder && d.key in rows && InFolder(d.body).Some?
    && Below(ParentsOf(rows), d.key.id, InFolder(d.body).value)
  }

  lemma WriteKeepsForestExactly(rows: Tables, key: Key, b: Body, version: nat)
    requires WellFormed(rows) && WriteFits(rows, key, b) && Forest(ParentsOf(rows))
    ensures Forest(ParentsOf(rows[key := Versioned(version, b)])) <==> !MovesIntoSubtree(rows, Write(key, b))
  {
    var p, parent := ParentsOf(rows), InFolder(b);
    ParentsFacts(rows);
    ParentsAfter(rows, key, Versioned(version, b));
    if key.kind == Folder {
      assert parent.Some? ==> Key(Folder, parent.value) in Refs(b);
      if key !in rows {
        LeafKeepsForest(p, key.id, parent);
      } else if parent == None {
        RootKeepsForest(p, key.id);
      } else {
        MoveKeepsForestExactly(p, key.id, parent.value);
      }
    }
  }

  lemma ParentsAfter(rows: Tables, key: Key, v: Versioned)
    requires KindsMatch(rows) && KindOf(v.body) == key.kind
    ensures ParentsOf(rows[key := v]) == if key.kind == Folder then ParentsOf(rows)[key.id := InFolder(v.body)] else ParentsOf(rows)
  {
    FolderIdsAfter(rows, key, v);
  }

  lemma FolderIdsAfter(rows: Tables, key: Key, v: Versioned)
    requires KindsMatch(rows)
    ensures IdsOf(rows[key := v], Folder) == IdsOf(rows, Folder) + if key.kind == Folder then {key.id} else {}
  {
    var next := rows[key := v];
    forall id | id in IdsOf(rows, Folder) ensures id in IdsOf(next, Folder) {
      assert Key(Folder, id) in next && Key(Folder, id).id == id;
    }
    if key.kind == Folder { assert key in next && key.id in IdsOf(next, Folder); }
  }

  lemma EraseKeepsForest(rows: Tables, gone: set<Key>)
    requires WellFormed(rows) && Forest(ParentsOf(rows)) && RefsResolve(rows - gone)
    ensures Forest(ParentsOf(rows - gone))
    ensures forall f :: f in ParentsOf(rows - gone) ==>
      f in ParentsOf(rows) && Depths(ParentsOf(rows - gone))[f] == Depths(ParentsOf(rows))[f]
  {
    var next := rows - gone;
    ParentsFacts(rows);
    ParentsFacts(next);
    var p, q := ParentsOf(rows), ParentsOf(next);
    forall f | f in q ensures q[f] == p[f] && (q[f].Some? ==> q[f].value in q) {
      assert Refs(next[Key(Folder, f)].body) <= next.Keys;
      if q[f].Some? { assert Key(Folder, q[f].value) in Refs(next[Key(Folder, f)].body); }
    }
    RestrictKeepsForest(p, q);
  }

  /** A single action turns a forest into something else exactly when it moves a folder into its own subtree. */
  lemma StepKeepsForestExactly(db: Database, a: Action)
    requires Consistent(db) && Forest(ParentsOf(db.rows))
    ensures Forest(ParentsOf(Step(db, a).rows)) <==> !MovesIntoSubtree(db.rows, DecisionOf(db, a))
  {
    StepPerforms(db, a);
    DecisionOfFits(db, a);
    var d := DecisionOf(db, a);
    if d.Write? {
      WriteKeepsForestExactly(db.rows, d.key, d.body, NextVersion(db.rows, d.key));
    } else if d.Erase? {
      EraseKeepsWellFormed(db.rows, d.root);
      EraseKeepsForest(db.rows, Cascade(db.rows, {d.root}));
    }
  }

  /** The cycle check keeps folders with at most `WALK_LIMIT` ancestors from moving into their own subtree. */
  lemma ShallowMovesStayOutside(rows: Tables, d: Decision)
    requires WellFormed(rows) && d.Write? && WriteFits(rows, d.key, d.body)
    requires Shallow(ParentsOf(rows)) && ParentChecked(rows, d)
    ensures !MovesIntoSubtree(rows, d)
  {
    if d.key.kind == Folder && d.key in rows && InFolder(d.body).Some? {
      ParentsFacts(rows);
      assert Key(Folder, InFolder(d.body).value) in Refs(d.body);
      CheckedParentIsOutside(ParentsOf(rows), d.key.id, InFolder(d.body).value);
    }
  }

  lemma ShallowStepKeepsForest(db: Database, a: Action)
    requires Consistent(db) && Shallow(ParentsOf(db.rows))
    ensures Forest(ParentsOf(Step(db, a).rows))
  {
    if a.Rest? { CommandsCheckParents(db.rows, a.foreign, a.command); } else { OperationsCheckParents(db.rows, a.foreign, a.op); }
    DecisionOfFits(db, a);
    StepKeepsForestExactly(db, a);
    if DecisionOf(db, a).Write? { ShallowMovesStayOutside(db.rows, DecisionOf(db, a)); }
  }

  /** Along every run whose folders never have more than `WALK_LIMIT` ancestors, the folders form a forest. */
  lemma {:induction false} ShallowRunsKeepForest(actions: seq<Action>)
    requires forall n :: 0 <= n < |actions| ==>
      Forest(ParentsOf(Run(EMPTY, actions[..n]).rows)) ==> Shallow(ParentsOf(Run(EMPTY, actions[..n]).rows))
    ensures Forest(ParentsOf(Run(EMPTY, actions).rows))
  {
    if actions == [] {
      assert Labels(ParentsOf(EMPTY.rows), map[]);
    } else {
      var earlier := actions[..|actions| - 1];
      forall n | 0 <= n < |earlier| ensures
        Forest(ParentsOf(Run(EMPTY, earlier[..n]).rows)) ==> Shallow(ParentsOf(Run(EMPTY, earlier[..n]).rows))
      {
        assert earlier[..n] == actions[..n];
      }
      ShallowRunsKeepForest(earlier);
      RunsAreConsistent(earlier);
      ShallowStepKeepsForest(Run(EMPTY, earlier), actions[|actions| - 1]);
    }
  }
}
