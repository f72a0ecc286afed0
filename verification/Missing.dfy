/** What a bootstrap can get wrong whatever is written meanwhile: folders nobody wrote to since, and nothing else. */
module Missing {
  import opened Prelude
  import opened Rows
  import opened Tree
  import opened Content
  import opened Integrity
  import opened Journal
  import opened Features
  import Pull
  import opened Snapshot
  import opened SnapshotPages
  import opened Sync
  import opened Convergence
  import opened Bootstrap
  import opened Calm

  // ---------------------------------------------------------------- every failure is a missing, untouched folder

  /** What is held was right at some point; what a pulling client lacks has had no entry since entry `c`. */
  ghost predicate RightOrAbsent(sys: System, q: Query, k: Key, c: nat)
    requires Sound(sys, q) && c <= |sys.db.log|
  {
    var log := sys.db.log;
    match sys.client
    case Downloading(page, _, _, _) => page.cur.checkpoint == c && (k in Held(sys.client) ==> Known(log, c, Held(sys.client), k, q.features))
    case Pulling(checkpoint, replica, _) =>
      checkpoint >= c && (CatchesUp(log, replica, checkpoint, k, q.features) || (k !in replica && !Touched(log, c,
          |log|, k)))
  }

  lemma CommitKeepsRight(sys: System, a: Action, q: Query, k: Key, c: nat)
    requires Sound(sys, q) && c <= |sys.db.log| && RightOrAbsent(sys, q, k, c)
    requires Consistent(Step(sys.db, a)) && sys.db.log <= Step(sys.db, a).log && Sound(Turn(sys, Commit(a), q), q)
    ensures RightOrAbsent(Turn(sys, Commit(a), q), q, k, c)
  {
    var log, longer, client := sys.db.log, Step(sys.db, a).log, sys.client;
    if client.Downloading? {
      if k in Held(client) { KnownStays(log, longer, c, Held(client), k, q.features); }
    } else if CatchesUp(log, client.replica, client.checkpoint, k, q.features) {
      CaughtStays(log, longer, client.replica, client.checkpoint, k, q.features);
    } else {
      AbsentCatchesUp(longer, client.replica, client.checkpoint, |longer|, k, q.features);
      if i :| c <= i < |longer| && longer[i].key == k { assert i >= |log|; }
    }
  }

  lemma PullKeepsRight(log: seq<Entry>, r: Replica, after: nat, limit: nat, q: Query, k: Key, c: nat)
    requires Lives(log) && c <= after <= |log| && limit >= 1
    requires CatchesUp(log, r, after, k, q.features) || (k !in r && !Touched(log, c, |log|, k))
    ensures var p := Pull.PullPage(log, after, limit, q.cap, q.size, q.features);
      var next := Replay(r, p.operations);
      && after <= p.checkpoint <= |log|
      && (CatchesUp(log, next, p.checkpoint, k, q.features) || (k !in next && !Touched(log, c, |log|, k)))
  {
    var p := Pull.PullPage(log, after, limit, q.cap, q.size, q.features);
    var next := Replay(r, p.operations);
    PullTurnIsCaught(log, r, after, limit, q);
    if !CatchesUp(log, r, after, k, q.features) {
      AbsentCatchesUp(log, r, after, p.checkpoint, k, q.features);
      if At(next, k) == Truth(log, p.checkpoint, k, q.features) {
        CopyCatchesUp(log, next, p.checkpoint, p.checkpoint, |log|, k, q.features);
      }
    }
  }

  lemma ScanKeepsRight(db: Database, c: Client, list: seq<Position>, k: Key)
    requires Consistent(db) && c.Downloading? && c.page.cur.checkpoint <= |db.log|
    requires !c.page.closed && c.page.cur.turn < |ORDER| && Visible(ORDER[c.page.cur.turn], c.query.features)
    requires k in Held(c) ==> Known(db.log, c.page.cur.checkpoint, Held(c), k, c.query.features)
    ensures var held := HoldAll(c.replica, Scan(c.page, c.query, Load(db.rows, ORDER[c.page.cur.turn], list)).entities);
      k in held ==> Known(db.log, c.page.cur.checkpoint, held, k, c.query.features)
  {
    ScanHolds(db, c, list, k);
  }

  lemma ReadKeepsRight(db: Database, c: Client, k: Key)
    requires Consistent(db) && c.Downloading? && c.page.cur.checkpoint <= |db.log| && !c.page.closed && c.listed.None?
    requires k in Held(c) ==> Known(db.log, c.page.cur.checkpoint, Held(c), k, c.query.features)
    ensures var next := ReadTurn(db, c);
      next.page.cur.checkpoint == c.page.cur.checkpoint
      && (k in Held(next) ==> Known(db.log, c.page.cur.checkpoint, Held(next), k, c.query.features))
  {
    if c.page.cur.turn < |ORDER| && Visible(ORDER[c.page.cur.turn], c.query.features) && ORDER[c.page.cur.turn] != Folder {
      var kind := ORDER[c.page.cur.turn];
      var list := First(After(Listing(db.rows, kind), c.page.cur.after), Take(c.page, c.query));
      ScanKeepsRight(db, c, list, k);
      ScanTurn(c.page, c.query, Load(db.rows, kind, list));
    }
  }

  /** A new page begins with nothing read, in the type where the last one closed, with the checkpoint kept. */
  lemma TurnsThePage(sys: System, limit: nat, q: Query)
    requires Sound(sys, q)
    ensures var c, next := sys.client, Turn(sys, NextPage(limit), q).client;
      c.Downloading? ==>
        && next.Downloading? && Held(next) == Held(c) && next.page.cur.checkpoint == c.page.cur.checkpoint
        && next.page.cur.turn == c.page.cur.turn
        && (c.page.closed && c.page.next.Some? && Admitted(c.page.next.value) ==>
              !next.page.closed && next.listed.None? && next.page.cur == Resumed(c.page.next.value))
  {
    var c := sys.client;
    if c.Downloading? && c.page.closed && c.page.next.Some? { ResumesOrRestarts(c.page.next.value); }
  }

  lemma TurnKeepsRight(sys: System, e: Event, q: Query, k: Key, c: nat)
    requires Sound(sys, q) && c <= |sys.db.log| && RightOrAbsent(sys, q, k, c)
    ensures Sound(Turn(sys, e, q), q) && c <= |Turn(sys, e, q).db.log| && RightOrAbsent(Turn(sys, e, q), q, k, c)
  {
    TurnIsSound(sys, e, q);
    var db, client := sys.db, sys.client;
    match e
    case Commit(a) =>
      StepGrows(db, a);
      CommitKeepsRight(sys, a, q, k, c);
    case Read =>
      if client.Downloading? && !client.page.closed && client.listed.None? { ReadKeepsRight(db, client, k); }
    case ReadFolders =>
      if client.Downloading? && !client.page.closed && client.page.cur.turn < |ORDER| && client.listed.Some? {
        ScanKeepsRight(db, client, client.listed.value, k);
        ScanTurn(client.page, client.query, Load(db.rows, Folder, client.listed.value));
      }
    case NextPage(limit) => TurnsThePage(sys, limit, q);
    case Finish =>
      if k in Held(client) || Touched(db.log, c, |db.log|, k) {
        if client.Downloading? && client.page.closed && client.page.next.None? { KnownCatchesUp(db.log, c, Held(client), k, q.features); }
      }
    case PullMore(limit) =>
      if client.Pulling? && limit >= 1 { PullKeepsRight(db.log, client.replica, client.checkpoint, limit, q, k, c); }
  }

  lemma {:induction false} RunKeepsRight(start: System, q: Query, events: seq<Event>, k: Key, c: nat)
    requires Sound(start, q) && c <= |start.db.log| && RightOrAbsent(start, q, k, c)
    ensures var end := AfterEvents(start, events, q); Sound(end, q) && c <= |end.db.log| && RightOrAbsent(end, q, k, c)
    decreases |events|
  {
    if events != [] {
      RunKeepsRight(start, q, events[..|events| - 1], k, c);
      TurnKeepsRight(AfterEvents(start, events[..|events| - 1], q), events[|events| - 1], q, k, c);
    }
  }

  /**
   * Without any hypothesis on the writes, an up-to-date client is right about every resource, or the resource is a
   * folder it does not hold although the tables do, and no entry since the download began is about that folder.
   */
  lemma OnlyUntouchedFoldersGoMissing(db: Database, q: Query, events: seq<Event>, k: Key)
    requires Consistent(db) && UpToDate(AfterEvents(Begin(db, q), events, q))
    ensures var end := AfterEvents(Begin(db, q), events, q);
      || At(end.client.replica, k) == At(View(end.db.rows, q.features), k)
      || (k.kind == Folder && k !in end.client.replica && k in end.db.rows
          && |db.log| <= |end.db.log| && !Touched(end.db.log, |db.log|, |end.db.log|, k))
  {
    var end := AfterEvents(Begin(db, q), events, q);
    if k.kind != Folder {
      BootstrapConverges(db, q, events, k);
    } else {
      BeginSound(db, q);
      RunKeepsRight(Begin(db, q), q, events, k, |db.log|);
      EndIsRight(end, q, k, |db.log|);
    }
  }

  lemma EndIsRight(sys: System, q: Query, k: Key, c: nat)
    requires Sound(sys, q) && c <= |sys.db.log| && RightOrAbsent(sys, q, k, c) && UpToDate(sys)
    ensures || At(sys.client.replica, k) == At(View(sys.db.rows, q.features), k)
            || (k !in sys.client.replica && k in sys.db.rows && !Touched(sys.db.log, c, |sys.db.log|, k))
  {
    var log := sys.db.log;
    assert log[|log|..|log|] == [];
    TruthNow(sys.db, k, q.features);
    ViewAt(sys.db.rows, q.features, k);
  }

  // ---------------------------------------------------------------- how a folder goes missing

  /**
   * The folder query reads twice. After a full listing, more folders may follow; the scan nevertheless goes on to the
   * next type exactly when a listed folder was deleted in between and what is left of the list fits the page.
   */
  lemma FoldersSkippedExactly(s: Progress, q: Query, first: Tables, second: Tables)
    requires !s.closed && s.cur.turn == TurnOf(Folder)
    requires |First(After(Listing(first, Folder), s.cur.after), Take(s, q))| == Take(s, q)
    ensures var list := First(After(Listing(first, Folder), s.cur.after), Take(s, q));
      var found := Load(second, Folder, list);
      Scan(s, q, found).cur.turn > TurnOf(Folder) <==>
        (exists x :: x in list && Key(Folder, x.id) !in second) && Emitted(s, q, Folder, found) == |found|
  {
    var list := First(After(Listing(first, Folder), s.cur.after), Take(s, q));
    var found := Load(second, Folder, list);
    LoadIsShorterExactly(second, Folder, list);
    TurnIsUnique(Folder, s.cur.turn);
    ScanTurn(s, q, found);
    if |found| <= Want(s, q) {
      assert First(found, Want(s, q)) == found;
      EmitSendsPrefix(s, q, Folder, found);
    } else if Want(s, q) > 0 {
      EmitSendsPrefix(s, q, Folder, First(found, Want(s, q)));
    }
  }

  /** The download is past the folders without this one, or an entry since `c` is about it. */
  ghost predicate PassedBy(sys: System, k: Key, c: nat)
    requires c <= |sys.db.log|
  {
    Touched(sys.db.log, c, |sys.db.log|, k)
    || match sys.client
       case Downloading(page, _, _,
           _) => page.cur.checkpoint == c && page.cur.turn > TurnOf(Folder) && k !in Held(sys.client)
       case Pulling(checkpoint, replica, _) => checkpoint >= c && k !in replica
  }

  lemma ReadStaysPassed(db: Database, c: Client, k: Key)
    requires Consistent(db) && c.Downloading? && !c.page.closed && c.listed.None?
    requires k.kind == Folder && c.page.cur.turn > TurnOf(Folder) && k !in Held(c)
    ensures var next := ReadTurn(db, c);
      next.page.cur.checkpoint == c.page.cur.checkpoint && next.page.cur.turn > TurnOf(Folder) && k !in Held(next)
  {
    if c.page.cur.turn < |ORDER| {
      var kind := ORDER[c.page.cur.turn];
      TurnIsUnique(Folder, c.page.cur.turn);
      if Visible(kind, c.query.features) {
        var list := First(After(Listing(db.rows, kind), c.page.cur.after), Take(c.page, c.query));
        ScanHolds(db, c, list, k);
        ScanTurn(c.page, c.query, Load(db.rows, kind, list));
      }
    }
  }

  lemma TurnStaysPassed(sys: System, e: Event, q: Query, k: Key, c: nat)
    requires Sound(sys, q) && c <= |sys.db.log| && k.kind == Folder && PassedBy(sys, k, c)
    ensures sys.db.log <= Turn(sys, e, q).db.log && PassedBy(Turn(sys, e, q), k, c)
  {
    var client, log := sys.client, sys.db.log;
    match e
    case Commit(a) =>
      StepGrows(sys.db, a);
      if i :| c <= i < |log| && log[i].key == k { assert Step(sys.db, a).log[i].key == k; }
    case Read =>
      if client.Downloading? && !client.page.closed && client.listed.None? && !Touched(log, c, |log|,
          k) { ReadStaysPassed(sys.db, client, k); }
    case ReadFolders =>
    case NextPage(limit) => TurnsThePage(sys, limit, q);
    case Finish =>
    case PullMore(limit) =>
      if client.Pulling? && limit >= 1 && !Touched(log, c, |log|, k) {
        var p := Pull.PullPage(log, client.checkpoint, limit, q.cap, q.size, q.features);
        PullTurnIsCaught(log, client.replica, client.checkpoint, limit, q);
        UntouchedStays(log, client.replica, client.checkpoint, p.checkpoint, k, q.features);
      }
  }

  /** Replaying entries about other resources leaves what is held of this one. */
  lemma {:induction false} UntouchedStays(log: seq<Entry>, r: Replica, c: nat, n: nat, k: Key, features: set<Feature>)
    requires c <= n <= |log| && !Touched(log, c, n, k)
    ensures At(Caught(log, r, c, n, features), k) == At(r, k)
    decreases n
  {
    if n == c {
      CaughtStarts(log, r, c, features);
    } else {
      assert log[n - 1].key != k && !Touched(log, c, n - 1, k);
      UntouchedStays(log, r, c, n - 1, k, features);
      CaughtAdvances(log, r, c, n - 1, k, features);
    }
  }

  /**
   * A folder the download passed by stays missing, up to date or not, until something is written about it: pulling
   * more does not repair a skipped folder.
   */
  lemma {:induction false} PassedFoldersStayMissing(start: System, q: Query, events: seq<Event>, k: Key, c: nat)
    requires Sound(start, q) && c <= |start.db.log| && k.kind == Folder && PassedBy(start, k, c)
    ensures var end := AfterEvents(start, events, q);
      Sound(end, q) && start.db.log <= end.db.log && PassedBy(end, k, c)
    decreases |events|
  {
    if events != [] {
      PassedFoldersStayMissing(start, q, events[..|events| - 1], k, c);
      var sys := AfterEvents(start, events[..|events| - 1], q);
      TurnIsSound(sys, events[|events| - 1], q);
      TurnStaysPassed(sys, events[|events| - 1], q, k, c);
    }
  }

  // ---------------------------------------------------------------- exactly which folders are missing

  function CheckpointOf(c: Client): nat {
    if c.Downloading? then c.page.cur.checkpoint else c.checkpoint
  }

  /** What the client holds it keeps while no entry is about it. */
  lemma TurnKeepsHeld(sys: System, e: Event, q: Query, k: Key, c: nat)
    requires Sound(sys, q) && c <= CheckpointOf(sys.client) && k in Held(sys.client)
    requires !Touched(sys.db.log, c, |sys.db.log|, k)
    ensures var next := Turn(sys, e, q); c <= CheckpointOf(next.client) && k in Held(next.client)
  {
    var client, log, next := sys.client, sys.db.log, Turn(sys, e, q);
    if client.Downloading? && next.client.Downloading? {
      HeldGrows(sys, e, q, k);
    } else if e.PullMore? && client.Pulling? && e.limit >= 1 {
      var p := Pull.PullPage(log, client.checkpoint, e.limit, q.cap, q.size, q.features);
      PullTurnIsCaught(log, client.replica, client.checkpoint, e.limit, q);
      UntouchedStays(log, client.replica, client.checkpoint, p.checkpoint, k, q.features);
    }
  }

  lemma TurnGrowsLog(sys: System, e: Event, q: Query)
    ensures sys.db.log <= Turn(sys, e, q).db.log
  {
    if e.Commit? { StepGrows(sys.db, e.action); }
  }

  lemma {:induction false} RunKeepsHeld(start: System, q: Query, events: seq<Event>, k: Key, c: nat)
    requires Sound(start, q) && c <= CheckpointOf(start.client) && k in Held(start.client)
    ensures var end := AfterEvents(start, events, q);
      && Sound(end, q) && start.db.log <= end.db.log && c <= |end.db.log|
      && (!Touched(end.db.log, c, |end.db.log|, k) ==> c <= CheckpointOf(end.client) && k in Held(end.client))
    decreases |events|
  {
    if events != [] {
      var sys, e := AfterEvents(start, events[..|events| - 1], q), events[|events| - 1];
      RunKeepsHeld(start, q, events[..|events| - 1], k, c);
      TurnIsSound(sys, e, q);
      TurnGrowsLog(sys, e, q);
      var log, longer := sys.db.log, Turn(sys, e, q).db.log;
      if !Touched(longer, c, |longer|, k) {
        assert forall i :: c <= i < |log| ==> longer[i] == log[i];
        TurnKeepsHeld(sys, e, q, k, c);
      }
    }
  }

  lemma {:induction false} AfterEventsInTwo(start: System, a: seq<Event>, b: seq<Event>, q: Query)
    ensures AfterEvents(start, a + b, q) == AfterEvents(AfterEvents(start, a, q), b, q)
    decreases |b|
  {
    if b == [] {
      assert a + b == a;
    } else {
      AfterEventsInTwo(start, a, b[..|b| - 1], q);
      assert (a + b)[..|a + b| - 1] == a + b[..|b| - 1];
    }
  }

  /** The download is past the folders. */
  predicate PastFolders(c: Client) {
    c.Downloading? ==> c.page.cur.turn > TurnOf(Folder)
  }

  /**
   * Whatever was written when: at any point past the folders it is settled what an up-to-date client gets wrong. It is
   * exactly the folders that exist, that it does not hold at that point, and that no entry since the snapshot's
   * checkpoint is about.
   */
  lemma MissingExactly(db: Database, q: Query, events: seq<Event>, more: seq<Event>, k: Key)
    requires Consistent(db) && PastFolders(AfterEvents(Begin(db, q), events, q).client)
    requires UpToDate(AfterEvents(AfterEvents(Begin(db, q), events, q), more, q))
    ensures var mid := AfterEvents(Begin(db, q), events, q);
      var end := AfterEvents(mid, more, q);
      && |db.log| <= |end.db.log|
      && (At(end.client.replica, k) != At(View(end.db.rows, q.features), k) <==>
            k.kind == Folder && k in end.db.rows && k !in Held(mid.client) && !Touched(end.db.log, |db.log|, |end.db.log|, k))
  {
    var start := Begin(db, q);
    var mid := AfterEvents(start, events, q);
    var end := AfterEvents(mid, more, q);
    AfterEventsInTwo(start, events, more, q);
    BeginSound(db, q);
    RunKeepsRight(start, q, events, k, |db.log|);
    OnlyUntouchedFoldersGoMissing(db, q, events + more, k);
    ViewAt(end.db.rows, q.features, k);
    RunGrowsLog(start, q, events + more);
    if k in Held(mid.client) {
      RunKeepsHeld(mid, q, more, k, |db.log|);
    } else if k.kind == Folder {
      PassedFoldersStayMissing(mid, q, more, k, |db.log|);
    }
  }

  lemma {:induction false} RunGrowsLog(start: System, q: Query, events: seq<Event>)
    ensures start.db.log <= AfterEvents(start, events, q).db.log
  {
    if events != [] {
      RunGrowsLog(start, q, events[..|events| - 1]);
      TurnGrowsLog(AfterEvents(start, events[..|events| - 1], q), events[|events| - 1], q);
    }
  }

  /** What the folder query did not reach when the download began, and nobody wrote to since. */
  ghost predicate OutOfReach(db: Database, end: Database, k: Key)
    requires |db.log| <= |end.log|
  {
    k.kind == Folder && k in db.rows && !Reached(db.rows, k) && k in end.rows && !Touched(end.log, |db.log|, |end.log|, k)
  }

  /**
   * After a run that is calm for every folder, from any workspace that REST and push built, the replica agrees with the
   * shaped view of the tables on every resource that was in reach when the download began, or was written to since; so
   * it is that view when every folder was in reach.
   */
  lemma CalmBootstrapRebuildsView(history: seq<Action>, q: Query, events: seq<Event>)
    requires UpToDate(AfterEvents(Begin(Run(EMPTY, history), q), events, q))
    requires forall k: Key :: k.kind == Folder ==> CalmRun(Begin(Run(EMPTY, history), q), q, events, k)
    ensures var db := Run(EMPTY, history);
      var end := AfterEvents(Begin(db, q), events, q);
      && |db.log| <= |end.db.log|
      && (forall k :: At(end.client.replica, k) == At(View(end.db.rows, q.features), k) || OutOfReach(db, end.db, k))
      && (AllReached(db.rows) ==> end.client.replica == View(end.db.rows, q.features))
  {
    var db := Run(EMPTY, history);
    RunsAreConsistent(history);
    var end := AfterEvents(Begin(db, q), events, q);
    RunGrowsLog(Begin(db, q), q, events);
    forall k ensures At(end.client.replica, k) == At(View(end.db.rows, q.features), k) || OutOfReach(db, end.db, k) {
      if k.kind == Folder && k in db.rows && !Reached(db.rows, k) {
        OnlyUntouchedFoldersGoMissing(db, q, events, k);
      } else {
        if k.kind == Folder {
          BeginSound(db, q);
          CalmRunLosesNothing(Begin(db, q), q, events, k);
        }
        BootstrapConverges(db, q, events, k);
      }
    }
    if AllReached(db.rows) { SameEverywhere(end.client.replica, View(end.db.rows, q.features)); }
  }
}
