/** How a folder falls behind the download: which writes take it there, and what becomes of it. */
module Falling {
  import opened Prelude
  import opened Rows
  import opened Tree
  import opened Content
  import opened Integrity
  import opened Journal
  import opened Features
  import opened Snapshot
  import opened SnapshotPages
  import opened Sync
  import opened Restarts
  import opened Convergence
  import opened Bootstrap
  import opened Calm
  import opened Missing

  // ---------------------------------------------------------------- depths after a write

  ghost predicate Resolved(p: Parents) {
    forall x :: x in p && p[x].Some? ==> p[x].value in p
  }

  /** A chain of parents is the same wherever its folders are there with the same parents. */
  lemma {:induction false} KeptChain(p: Parents, r: Parents, x: Id, n: nat)
    requires Resolved(p) && x in p && forall y :: y in p ==> y in r && r[y] == p[y]
    ensures RootAt(r, x, n) <==> RootAt(p, x, n)
    decreases n
  {
    if n > 0 && p[x].Some? { KeptChain(p, r, p[x].value, n - 1); }
  }

  lemma {:induction false} SameBelow(p: Parents, r: Parents, f: Id, x: Id, n: nat)
    requires f in p && f in r && r == p[f := r[f]] && Up(p, Some(x), n) == Some(f)
    ensures Below(r, f, x)
    decreases n
  {
    if x == f {
      assert Up(r, Some(x), 0) == Some(f);
    } else {
      SameBelow(p, r, f, p[x].value, n - 1);
      BelowParent(r, f, x);
    }
  }

  /** Moving `f` leaves alone what is below it and what is not. */
  lemma BelowStays(p: Parents, r: Parents, f: Id, x: Id)
    requires f in p && f in r && r == p[f := r[f]]
    ensures Below(p, f, x) <==> Below(r, f, x)
  {
    if Below(p, f, x) {
      var n: nat :| Up(p, Some(x), n) == Some(f);
      SameBelow(p, r, f, x, n);
    }
    if Below(r, f, x) {
      var n: nat :| Up(r, Some(x), n) == Some(f);
      assert p == r[f := p[f]];
      SameBelow(r, p, f, x, n);
    }
  }

  /** A chain through `f` changes with it from there on; a chain that does not come by `f` stays as it is. */
  lemma {:induction false} MovedChain(p: Parents, r: Parents, f: Id, x: Id, n: nat, m: nat) returns (k: nat)
    requires Resolved(p) && f in p && f in r && r == p[f := r[f]] && RootAt(p, x, n)
    ensures Below(p, f, x) ==> k <= n && RootAt(p, f, k) && (RootAt(r, x, m) <==> m >= n - k && RootAt(r, f, m - (n - k)))
    ensures !Below(p, f, x) ==> (RootAt(r, x, m) <==> RootAt(p, x, m))
    decreases n
  {
    BelowParent(p, f, x);
    k := n;
    if x != f && n > 0 {
      if m > 0 {
        k := MovedChain(p, r, f, p[x].value, n - 1, m - 1);
      } else {
        k := MovedChain(p, r, f, p[x].value, n - 1, 0);
      }
    }
  }

  /** The depth a folder gets under this parent: none when the parent's own chain does not end or comes by the folder. */
  ghost function DepthUnder(p: Parents, f: Id, parent: Option<Id>): Option<nat> {
    match parent
    case None => Some(0)
    case Some(q) => if Rooted(p, q) && !Below(p, f, q) then Some(DepthOf(p, q) + 1) else None
  }

  lemma MovedIntoSubtree(r: Parents, f: Id, m: nat)
    requires Resolved(r) && f in r && r[f].Some? && Below(r, f, r[f].value)
    ensures !RootAt(r, f, m)
  {
    if RootAt(r, f, m) {
      var k := MovedChain(r, r, f, r[f].value, m - 1, 0);
      RootAtOnce(r, f, k, m);
    }
  }

  /** Where the chain of a moved folder ends, seen from before the move. */
  lemma NewDepth(p: Parents, f: Id, parent: Option<Id>, m: nat)
    requires Resolved(p) && f in p && (parent.Some? ==> parent.value in p)
    ensures RootAt(p[f := parent], f, m) <==> DepthUnder(p, f, parent) == Some(m)
  {
    var r := p[f := parent];
    if parent.Some? {
      var q := parent.value;
      BelowStays(p, r, f, q);
      if Below(p, f, q) {
        MovedIntoSubtree(r, f, m);
      } else {
        if Rooted(p, q) && m > 0 {
          var k := MovedChain(p, r, f, q, DepthOf(p, q), m - 1);
          if RootAt(p, q, m - 1) { DepthIs(p, q, m - 1); }
        }
        if RootAt(r, f, m) {
          assert p == r[f := p[f]];
          var k := MovedChain(r, p, f, q, m - 1, m - 1);
        }
      }
    }
  }

  /** The write moves a folder that lies above this one. */
  ghost predicate MovesAbove(p: Parents, d: Decision, x: Id) {
    d.Write? && d.key.kind == Folder && d.key.id in p && d.key.id != x && Below(p, d.key.id, x)
  }

  lemma AboveIsRooted(p: Parents, f: Id, x: Id)
    requires Resolved(p) && f in p && Rooted(p, x) && Below(p, f, x)
    ensures Rooted(p, f) && DepthOf(p, f) <= DepthOf(p, x)
  {
    var k := MovedChain(p, p, f, x, DepthOf(p, x), 0);
    DepthIs(p, f, k);
  }

  /** The depth of a folder after a write, computed before it; none when its chain of parents no longer ends. */
  ghost function DepthAfter(p: Parents, d: Decision, x: Id): Option<nat>
    requires Resolved(p) && Rooted(p, x)
  {
    if MovesAbove(p, d, x) then
      AboveIsRooted(p, d.key.id, x);
      match DepthUnder(p, d.key.id, InFolder(d.body))
      case None => None
      case Some(n) => Some(DepthOf(p, x) - DepthOf(p, d.key.id) + n)
    else Some(DepthOf(p, x))
  }

  /** A folder that is not written itself moves with a folder above it, and otherwise stays where it is. */
  lemma DepthAfterWrite(p: Parents, d: Decision, x: Id, m: nat)
    requires Resolved(p) && Rooted(p, x) && d.Write? && d.key.kind == Folder && d.key.id != x
    requires InFolder(d.body).Some? ==> InFolder(d.body).value in p
    ensures RootAt(p[d.key.id := InFolder(d.body)], x, m) <==> DepthAfter(p, d, x) == Some(m)
  {
    var f, parent, n := d.key.id, InFolder(d.body), DepthOf(p, x);
    var r := p[f := parent];
    if RootAt(p, x, m) { DepthIs(p, x, m); }
    if f !in p {
      RootedIsThere(p, x, n);
      KeptChain(p, r, x, m);
    } else {
      var k := MovedChain(p, r, f, x, n, m);
      if Below(p, f, x) {
        DepthIs(p, f, k);
        if m >= n - k { NewDepth(p, f, parent, m - (n - k)); }
      }
    }
  }

  lemma RootedIsThere(p: Parents, x: Id, n: nat)
    requires RootAt(p, x, n)
    ensures x in p
  {}

  lemma ParentsResolve(rows: Tables)
    requires WellFormed(rows)
    ensures Resolved(ParentsOf(rows))
  {
    ParentsFacts(rows);
    forall x | x in ParentsOf(rows) && ParentsOf(rows)[x].Some? ensures ParentsOf(rows)[x].value in ParentsOf(rows) {
      var b := rows[Key(Folder, x)].body;
      assert Key(Folder, InFolder(b).value) in Refs(b);
    }
  }

  lemma ChainAfterWrite(rows: Tables, d: Decision, k: Key, m: nat)
    requires WellFormed(rows) && d.Write? && WriteFits(rows, d.key, d.body) && k.kind == Folder && k != d.key
    requires Resolved(ParentsOf(rows)) && Rooted(ParentsOf(rows), k.id)
    ensures RootAt(ParentsOf(RowsAfter(rows, d)), k.id, m) <==> DepthAfter(ParentsOf(rows), d, k.id) == Some(m)
  {
    var p, parent := ParentsOf(rows), InFolder(d.body);
    ParentsFacts(rows);
    ParentsAfter(rows, d.key, Versioned(NextVersion(rows, d.key), d.body));
    if d.key.kind == Folder {
      assert d.key == Key(Folder, d.key.id) && k == Key(Folder, k.id);
      assert parent.Some? ==> Key(Folder, parent.value) in Refs(d.body);
      DepthAfterWrite(p, d, k.id, m);
    } else if RootAt(p, k.id, m) {
      DepthIs(p, k.id, m);
    }
  }

  lemma ChainAfterErase(rows: Tables, d: Decision, k: Key, m: nat)
    requires WellFormed(rows) && d.Erase? && k.kind == Folder && k in RowsAfter(rows, d)
    ensures RootAt(ParentsOf(RowsAfter(rows, d)), k.id, m) <==> RootAt(ParentsOf(rows), k.id, m)
  {
    var next := RowsAfter(rows, d);
    EraseKeepsWellFormed(rows, d.root);
    ParentsFacts(rows);
    ParentsFacts(next);
    ParentsResolve(next);
    assert k == Key(Folder, k.id);
    KeptChain(ParentsOf(next), ParentsOf(rows), k.id, m);
  }

  /** Where an action that adds no entry about a folder leaves it. */
  lemma ChainAfterStep(db: Database, a: Action, k: Key, m: nat)
    requires Consistent(db) && k.kind == Folder && k in db.rows
    requires Resolved(ParentsOf(db.rows)) && Rooted(ParentsOf(db.rows), k.id)
    requires |db.log| <= |Step(db, a).log| && !Touched(Step(db, a).log, |db.log|, |Step(db, a).log|, k)
    ensures var d, next := DecisionOf(db, a), Step(db, a).rows;
      && k in next
      && (RootAt(ParentsOf(next), k.id, m) <==> DepthAfter(ParentsOf(db.rows), d, k.id) == Some(m))
  {
    var d, next, p := DecisionOf(db, a), Step(db, a), ParentsOf(db.rows);
    StepPerforms(db, a);
    StepGrows(db, a);
    StepKeepsConsistent(db, a);
    DecisionOfFits(db, a);
    UntouchedRow(db, next, k);
    if d.Write? {
      WrittenIsTouched(db, d, ContextOfAction(a));
      ChainAfterWrite(db.rows, d, k, m);
    } else {
      if d.Erase? { ChainAfterErase(db.rows, d, k, m); }
      if RootAt(p, k.id, m) { DepthIs(p, k.id, m); }
    }
  }

  /** A depth at which the download has yet to read a folder that is not in the list in hand: within the limit, and past what was read. */
  predicate StillToCome(c: Client, depth: Option<nat>, id: Id)
    requires c.Downloading?
  {
    && depth.Some? && depth.value <= DEPTH_LIMIT
    && var place := Position(depth.value, id);
    && (c.page.cur.turn < TurnOf(Folder)
        || if c.listed.Some? then BehindFull(c.listed.value, Take(c.page, c.query), place) else Past(place, c.page.cur.after))
  }

  /** The step leaves the folder still to come exactly when its new depth does. */
  lemma AheadAfterStep(db: Database, next: Tables, c: Client, k: Key, depth: Option<nat>)
    requires c.Downloading? && k.kind == Folder && k in next && c.page.cur.turn <= TurnOf(Folder)
    requires PageOk(c) && !(c.listed.Some? && InList(c.listed.value, k.id))
    requires forall m: nat :: RootAt(ParentsOf(next), k.id, m) <==> depth == Some(m)
    ensures Ahead(next, c, k) <==> StillToCome(c, depth, k.id)
  {
    if depth.Some? {
      assert RootAt(ParentsOf(next), k.id, depth.value);
      PlaceIs(next, k, depth.value);
    }
  }

  /**
   * A write that is not about an unread folder takes it out of the download's reach exactly when the folder is not in
   * the list in hand, and the write moves a folder above this one to where this one's chain of parents no longer ends,
   * or ends deeper than the query goes, or its new depth and id are at or before what was read.
   */
  lemma CommitLosesExactly(sys: System, a: Action, q: Query, k: Key)
    requires Sound(sys, q) && sys.client.Downloading? && k.kind == Folder && Ahead(sys.db.rows, sys.client, k)
    requires LeavesAlone(sys, Commit(a), q, k)
    ensures var c, p, d := sys.client, ParentsOf(sys.db.rows), DecisionOf(sys.db, a);
      if c.listed.Some? && InList(c.listed.value, k.id) then !Loses(sys, Commit(a), k)
      else
        Resolved(p) && Rooted(p, k.id)
        && (Loses(sys, Commit(a), k) <==> MovesAbove(p, d, k.id) && !StillToCome(c, DepthAfter(p, d, k.id), k.id))
  {
    var c, db, next := sys.client, sys.db, Step(sys.db, a).rows;
    if c.listed.Some? && InList(c.listed.value, k.id) {
      StepGrows(db, a);
      StepKeepsConsistent(db, a);
      UntouchedRow(db, Step(db, a), k);
    } else {
      var p, d := ParentsOf(db.rows), DecisionOf(db, a);
      ParentsResolve(db.rows);
      assert Rooted(p, k.id);
      forall m: nat ensures k in next && (RootAt(ParentsOf(next), k.id, m) <==> DepthAfter(p, d, k.id) == Some(m)) {
        ChainAfterStep(db, a, k, m);
      }
      AheadAfterStep(db, next, c, k, DepthAfter(p, d, k.id));
    }
  }

  lemma WrittenIsTouched(db: Database, d: Decision, ctx: Context)
    requires d.Write?
    ensures var next := Perform(db, d, ctx); |db.log| <= |next.log| && Touched(next.log, |db.log|, |next.log|, d.key)
  {
    var next := Perform(db, d, ctx);
    assert next.log[|db.log|].key == d.key;
  }

  // ---------------------------------------------------------------- what becomes of a folder that fell behind

  /** An unread folder at or before the cursor that is not in the list in hand either. */
  ghost predicate Behind(sys: System, k: Key) {
    && sys.client.Downloading? && k.kind == Folder && k in sys.db.rows && k !in Held(sys.client) && Reached(sys.db.rows, k)
    && sys.client.page.cur.turn == TurnOf(Folder)
    && !Past(PositionOf(sys.db.rows, k), sys.client.page.cur.after)
    && (sys.client.listed.Some? ==> !InList(sys.client.listed.value, k.id))
  }

  /** The new page begins with the first folder again, for its cursor does not carry its place. */
  predicate RestartsFolders(sys: System, e: Event) {
    && e.NextPage? && sys.client.Downloading? && sys.client.page.closed && sys.client.page.next.Some?
    && Admitted(sys.client.page.next.value) && sys.client.page.next.value.turn == TurnOf(Folder)
    && Resumed(sys.client.page.next.value) != sys.client.page.next.value
  }

  /** Out of reach for good, unless something is written: behind the cursor, or missing when the folders are over. */
  ghost predicate Out(sys: System, k: Key) {
    sys.client.Downloading? ==>
      Behind(sys, k) || (k !in Held(sys.client) && sys.client.page.cur.turn > TurnOf(Folder))
  }

  /** Read, or certain to be read before the folders are over, unless something is written. */
  ghost predicate In(sys: System, k: Key) {
    sys.client.Downloading? ==>
      k in Held(sys.client) || (Ahead(sys.db.rows, sys.client, k) && Steady(sys.db.rows, sys.client, k))
  }

  lemma ListedArePastCursor(rows: Tables, after: Option<Position>, take: nat, k: Key)
    requires k.kind == Folder && Reached(rows, k) && !Past(PositionOf(rows, k), after)
    ensures !InList(First(Snapshot.After(Listing(rows, Folder), after), take), k.id)
  {
    var list := First(Snapshot.After(Listing(rows, Folder), after), take);
    ListingIncreases(rows, Folder);
    AfterFacts(Listing(rows, Folder), after);
    if i :| 0 <= i < |list| && list[i].id == k.id {
      assert list[i] in Snapshot.After(Listing(rows, Folder), after);
      ListedExactly(rows, Folder, list[i]);
    }
  }

  /** Reading a list without the folder does not send it, and the cursor only moves on. */
  lemma RowsKeepBehind(db: Database, c: Client, k: Key)
    requires Consistent(db) && Behind(System(db, c), k) && PageOk(c) && c.listed.Some?
    ensures Out(System(db, ReadFolderRows(db, c)), k)
  {
    var list, pos := c.listed.value, PositionOf(db.rows, k);
    var found := Load(db.rows, Folder, list);
    var n := SentOf(c.page, c.query, found);
    ScanHolds(db, c, list, k);
    ScanSends(c.page, c.query, found);
    if SentAmong(found, n, k.id) {
      var m :| 0 <= m < n && found[m].position.id == k.id;
      LoadElement(db.rows, Folder, list, m);
    }
    if n > 0 {
      LoadElement(db.rows, Folder, list, n - 1);
      if Past(pos, Some(found[n - 1].position)) { BeforeTransitive(c.page.cur.after.value, found[n - 1].position, pos); }
    }
  }

  lemma ReadStaysOut(db: Database, c: Client, k: Key)
    requires Consistent(db) && k.kind == Folder && c.Downloading? && Out(System(db, c), k) && !c.page.closed && c.listed.None?
    ensures Out(System(db, ReadTurn(db, c)), k)
  {
    if c.page.cur.turn > TurnOf(Folder) {
      ReadStaysPassed(db, c, k);
    } else {
      ListedArePastCursor(db.rows, c.page.cur.after, Take(c.page, c.query), k);
    }
  }

  /** Without writes a folder that is out comes back exactly when the folders start over. */
  lemma OutComesBackExactly(sys: System, e: Event, q: Query, k: Key)
    requires Sound(sys, q) && k.kind == Folder && k in sys.db.rows && Reached(sys.db.rows, k)
    requires !e.Commit? && sys.client.Downloading? && Out(sys, k)
    ensures var next := Turn(sys, e, q);
      next.db == sys.db && (if RestartsFolders(sys, e) then In(next, k) else Out(next, k))
  {
    var c := sys.client;
    match e
    case Read => if !c.page.closed && c.listed.None? { ReadStaysOut(sys.db, c, k); }
    case ReadFolders => if !c.page.closed && c.listed.Some? { RowsKeepBehind(sys.db, c, k); }
    case NextPage(limit) =>
      TurnsThePage(sys, limit, q);
      if c.page.closed && c.page.next.Some? { ResumesOrRestarts(c.page.next.value); }
    case Finish =>
    case PullMore(_) =>
  }

  lemma InStaysIn(sys: System, e: Event, q: Query, k: Key)
    requires Sound(sys, q) && k.kind == Folder && !e.Commit? && sys.client.Downloading? && In(sys, k)
    ensures Turn(sys, e, q).db == sys.db && In(Turn(sys, e, q), k)
  {
    if k in Held(sys.client) {
      if Turn(sys, e, q).client.Downloading? { HeldGrows(sys, e, q, k); }
    } else {
      ReadingLosesNothing(sys, e, q, k);
      LosesExactly(sys, e, q, k);
    }
  }

  /** Some event of the run did. */
  predicate Restarted(sys: System, q: Query, reading: seq<Event>) {
    reading != [] &&
    var init, last := reading[..|reading| - 1], reading[|reading| - 1];
    Restarted(sys, q, init) || RestartsFolders(AfterEvents(sys, init, q), last)
  }

  lemma DownloadOnly(sys: System, e: Event, q: Query)
    ensures Turn(sys, e, q).client.Downloading? ==> sys.client.Downloading?
  {}

  lemma {:induction false} ReadingSettles(sys: System, q: Query, reading: seq<Event>, k: Key)
    requires Sound(sys, q) && Behind(sys, k) && forall i :: 0 <= i < |reading| ==> !reading[i].Commit?
    ensures var end := AfterEvents(sys, reading, q);
      && Sound(end, q)
      && (end.client.Downloading? ==>
            end.db == sys.db && if Restarted(sys, q, reading) then In(end, k) else Out(end, k))
    decreases |reading|
  {
    if reading != [] {
      var m := |reading| - 1;
      var mid := AfterEvents(sys, reading[..m], q);
      ReadingSettles(sys, q, reading[..m], k);
      TurnIsSound(mid, reading[m], q);
      DownloadOnly(mid, reading[m], q);
      if mid.client.Downloading? {
        if Restarted(sys, q, reading[..m]) { InStaysIn(mid, reading[m], q, k); } else { OutComesBackExactly(mid, reading[m], q, k); }
      }
    }
  }

  /**
   * A folder that fell behind the cursor unread, with nothing written until the download is past the folders: it is
   * read after all exactly when some page meanwhile closed at a folder whose id does not read back.
   */
  lemma FallenBehindExactly(sys: System, q: Query, reading: seq<Event>, k: Key)
    requires Sound(sys, q) && Behind(sys, k) && forall i :: 0 <= i < |reading| ==> !reading[i].Commit?
    requires var c := AfterEvents(sys, reading, q).client; c.Downloading? && PastFolders(c)
    ensures k in Held(AfterEvents(sys, reading, q).client) <==> Restarted(sys, q, reading)
  {
    ReadingSettles(sys, q, reading, k);
  }
}
