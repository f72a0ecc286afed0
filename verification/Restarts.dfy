/**
 * Following the cursors of a snapshot on tables nobody writes to: exactly when every visible row comes once and the
 * download ends, and what happens when a cursor does not carry its place.
 */
module Restarts {
  import opened Prelude
  import opened Rows
  import opened Content
  import opened Integrity
  import opened Journal
  import opened Features
  import opened Snapshot
  import opened SnapshotPages
  import opened Places

  datatype Loaded = Loaded(entities: seq<Entity>, next: Option<Cursor>)

  /**
   * Following `next_cursor` with a limit per page, for at most as many pages as there are limits. A cursor that the
   * server refuses ends it, with that cursor as the next.
   */
  function Pages(rows: Tables, c: Cursor, limits: seq<nat>, features: set<Feature>, cap: nat,
      size: Payload -> nat): Loaded
    decreases |limits|
  {
    if limits == [] then Loaded([], Some(c))
    else
      var page := ScanAll(Start(c), Query(limits[0], features, cap, size), rows);
      if page.next.None? || !Admitted(page.next.value) then Loaded(page.entities, page.next)
      else
        var rest := Pages(rows, page.next.value, limits[1..], features, cap, size);
        Loaded(page.entities + rest.entities, rest.next)
  }

  /** The cursor is at the beginning of a type, or at a row whose id reads back. */
  predicate PlaceReadsBack(c: Cursor) {
    c.turn < |ORDER| && c.after.Some? ==> ReadsBack(ORDER[c.turn], c.after.value.id)
  }

  /** The server takes the cursor and reads its place back. */
  predicate CarriesPlace(c: Cursor) {
    Admitted(c) && PlaceReadsBack(c)
  }

  /** Every page that another one follows closes with a cursor that carries its place. */
  predicate AllCarry(rows: Tables, c: Cursor, limits: seq<nat>, features: set<Feature>, cap: nat, size: Payload -> nat)
    decreases |limits|
  {
    limits == [] ||
    var next := ScanAll(Start(c), Query(limits[0], features, cap, size), rows).next;
    next.None? || (CarriesPlace(next.value) && AllCarry(rows, next.value, limits[1..], features, cap, size))
  }

  predicate Positive(limits: seq<nat>) {
    forall i :: 0 <= i < |limits| ==> limits[i] >= 1
  }

  lemma ResumesWhereReadBack(rows: Tables, c: Cursor, features: set<Feature>)
    requires Standing(rows, c, features)
    ensures Resumed(c) == c <==> PlaceReadsBack(c)
  {
    if c.after.Some? {
      ListedDepth(rows, ORDER[c.turn], c.after.value);
      ResumesExactly(c);
    }
  }

  /** One page from a standing cursor. */
  lemma PageStands(rows: Tables, c: Cursor, q: Query)
    requires q.limit >= 1 && Standing(rows, c, q.features)
    ensures var page := ScanAll(Start(c), q, rows);
      && RestAt(rows, Resumed(c), q.features) == page.entities + RestOfNext(rows, page.next, q.features)
      && (page.next.Some? ==> Standing(rows, page.next.value, q.features) && MoreOfType(rows, page.next.value, q.features))
      && (RestAt(rows, Resumed(c), q.features) != [] ==> page.entities != [])
  {
    PageIsPrefix(rows, c, q);
    ResumedStands(rows, c, q.features);
    ScanAllStands(Start(c), q, rows);
  }

  /** Starting a type over finds more than its place would. */
  lemma RestartFindsMore(rows: Tables, c: Cursor, features: set<Feature>)
    requires Standing(rows, c, features)
    ensures |RestAt(rows, Resumed(c), features)| >= |RestAt(rows, c, features)|
    ensures !PlaceReadsBack(c) ==> |RestAt(rows, Resumed(c), features)| > |RestAt(rows, c, features)|
  {
    ResumesWhereReadBack(rows, c, features);
    ResumesOrRestarts(c);
    if Resumed(c) != c {
      var i := PlaceInType(rows, c, features);
      RestUnfold(rows, c.turn, c.after, features);
      RestUnfold(rows, c.turn, None, features);
    }
  }

  /** Pages that never restart send a first part of the list, and while there is a next page each has sent something. */
  lemma {:induction false} PagesWithoutRestart(rows: Tables, c: Cursor, limits: seq<nat>, features: set<Feature>,
      cap: nat, size: Payload -> nat)
    requires Positive(limits) && Standing(rows, c, features) && PlaceReadsBack(c)
    requires AllCarry(rows, c, limits, features, cap, size)
    ensures var d := Pages(rows, c, limits, features, cap, size);
      && RestAt(rows, c, features) == d.entities + RestOfNext(rows, d.next, features)
      && (limits != [] && d.next.Some? ==> |d.entities| >= |limits| && RestOfNext(rows, d.next, features) != [])
    decreases |limits|
  {
    ResumesWhereReadBack(rows, c, features);
    if limits != [] {
      var q := Query(limits[0], features, cap, size);
      var page := ScanAll(Start(c), q, rows);
      PageStands(rows, c, q);
      if page.next.Some? {
        MoreOfTypeIsMore(rows, page.next.value, features);
        PagesWithoutRestart(rows, page.next.value, limits[1..], features, cap, size);
        var rest := Pages(rows, page.next.value, limits[1..], features, cap, size);
        Associate(page.entities, rest.entities, RestOfNext(rows, rest.next, features));
      }
    }
  }

  /** Pages that come to an end have sent all there was from where they resumed, and more than that after a restart. */
  lemma {:induction false} PagesThatEnd(rows: Tables, c: Cursor, limits: seq<nat>, features: set<Feature>, cap: nat,
      size: Payload -> nat)
    requires Positive(limits) && Standing(rows, c, features)
    ensures var d, all := Pages(rows, c, limits, features, cap, size), RestAt(rows, Resumed(c), features);
      d.next.None? ==> |d.entities| >= |all| && (!AllCarry(rows, c, limits, features, cap, size) ==> |d.entities| > |all|)
    decreases |limits|
  {
    if limits != [] {
      var q := Query(limits[0], features, cap, size);
      var page := ScanAll(Start(c), q, rows);
      PageStands(rows, c, q);
      if page.next.Some? && Admitted(page.next.value) {
        PagesThatEnd(rows, page.next.value, limits[1..], features, cap, size);
        RestartFindsMore(rows, page.next.value, features);
      }
    }
  }

  lemma AllSent<T>(all: seq<T>, sent: seq<T>, left: seq<T>)
    requires all == sent + left
    ensures |sent| >= |all| ==> left == []
    ensures left == [] ==> sent == all
  {}

  lemma CarryingDelivers(rows: Tables, c: Cursor, limits: seq<nat>, features: set<Feature>, cap: nat, size: Payload -> nat)
    requires Positive(limits) && |limits| >= 1 && |limits| >= |RestAt(rows, c, features)| && Standing(rows, c, features)
    requires PlaceReadsBack(c) && AllCarry(rows, c, limits, features, cap, size)
    ensures Pages(rows, c, limits, features, cap, size) == Loaded(RestAt(rows, c, features), None)
  {
    var d := Pages(rows, c, limits, features, cap, size);
    PagesWithoutRestart(rows, c, limits, features, cap, size);
    AllSent(RestAt(rows, c, features), d.entities, RestOfNext(rows, d.next, features));
  }

  /**
   * On fixed tables, for any limits, byte cap and sizes: the pages end, with everything the queries list, each row once
   * and in order, exactly when every page closes with a cursor that carries its place.
   */
  lemma PagesDeliverExactly(rows: Tables, limits: seq<nat>, checkpoint: nat, features: set<Feature>, cap: nat,
      size: Payload -> nat)
    requires Enough(rows, limits, features)
    ensures Pages(rows, Cursor(checkpoint, 0, None), limits, features, cap, size) == Loaded(Rest(rows, 0, None, features), None)
      <==> AllCarry(rows, Cursor(checkpoint, 0, None), limits, features, cap, size)
  {
    var c := Cursor(checkpoint, 0, None);
    if AllCarry(rows, c, limits, features, cap, size) {
      CarryingDelivers(rows, c, limits, features, cap, size);
    } else {
      PagesThatEnd(rows, c, limits, features, cap, size);
    }
  }

  // ---------------------------------------------------------------- what a client has of the tables

  /** Every visible row was sent, at its version and payload, once, and nothing else; and there is no next page. */
  ghost predicate Complete(rows: Tables, d: Loaded, features: set<Feature>) {
    && d.next.None?
    && (forall e :: e in d.entities <==> At(View(rows, features), e.key) == Some(e.item))
    && Distinct(d.entities)
  }

  ghost predicate Distinct(entities: seq<Entity>) {
    forall i, j :: 0 <= i < j < |entities| ==> entities[i].key != entities[j].key
  }

  /** What a client has received after any number of pages is a first part of the full list, however often it restarted. */
  lemma {:induction false} ReceivedIsFirstPart(rows: Tables, c: Cursor, limits: seq<nat>, features: set<Feature>, cap: nat,
      size: Payload -> nat, n: nat) returns (m: nat)
    requires Positive(limits) && Standing(rows, c, features) && c.turn <= |ORDER|
    requires n <= |Rest(rows, 0, None, features)| <= n + |RestAt(rows, Resumed(c), features)|
    ensures n <= m <= |Rest(rows, 0, None, features)|
    ensures var d, all := Pages(rows, c, limits, features, cap, size), Rest(rows, 0, None, features);
      forall e :: e in all[..n] || e in d.entities <==> e in all[..m]
    decreases |limits|
  {
    if limits == [] {
      m := n;
    } else {
      var q := Query(limits[0], features, cap, size);
      var page := ScanAll(Start(c), q, rows);
      m := PageIsSlice(rows, c, q, n);
      if page.next.Some? && Admitted(page.next.value) {
        var k := m;
        m := ReceivedIsFirstPart(rows, page.next.value, limits[1..], features, cap, size, k);
      }
    }
  }

  /** A page that begins within the first `n` rows extends them, and the next one begins within those. */
  lemma PageIsSlice(rows: Tables, c: Cursor, q: Query, n: nat) returns (m: nat)
    requires q.limit >= 1 && Standing(rows, c, q.features) && c.turn <= |ORDER|
    requires n <= |Rest(rows, 0, None, q.features)| <= n + |RestAt(rows, Resumed(c), q.features)|
    ensures var all, page := Rest(rows, 0, None, q.features), ScanAll(Start(c), q, rows);
      && n <= m <= |all|
      && (forall e :: e in all[..n] || e in page.entities <==> e in all[..m])
      && (page.next.Some? ==>
            && Standing(rows, page.next.value, q.features) && page.next.value.turn <= |ORDER|
            && |all| <= m + |RestAt(rows, Resumed(page.next.value), q.features)|)
  {
    var all, page := Rest(rows, 0, None, q.features), ScanAll(Start(c), q, rows);
    PageStands(rows, c, q);
    ResumesOrRestarts(c);
    ResumedStands(rows, c, q.features);
    RestIsSuffix(rows, Resumed(c), q.features);
    m := SliceExtends(all, RestAt(rows, Resumed(c), q.features), page.entities, RestOfNext(rows, page.next, q.features), n);
    if page.next.Some? { RestartFindsMore(rows, page.next.value, q.features); }
  }

  lemma SliceExtends<T>(all: seq<T>, end: seq<T>, sent: seq<T>, left: seq<T>, n: nat) returns (m: nat)
    requires IsSuffix(end, all) && end == sent + left && n <= |all| <= n + |end|
    ensures n <= m <= |all| && |all| <= m + |left|
    ensures forall e :: e in all[..n] || e in sent <==> e in all[..m]
  {
    var i := |all| - |end|;
    m := if n >= i + |sent| then n else i + |sent|;
    forall j | 0 <= j < |sent| ensures all[i + j] == sent[j] { assert all[i..][j] == end[j] == sent[j]; }
    forall j | 0 <= j < n ensures all[j] in all[..n] { assert all[..n][j] == all[j]; }
    forall e ensures e in all[..n] || e in sent <==> e in all[..m] {
      if e in sent {
        var j :| 0 <= j < |sent| && sent[j] == e;
        assert all[..m][i + j] == e;
      }
      if e in all[..n] {
        var j :| 0 <= j < n && all[..n][j] == e;
        assert all[..m][j] == e;
      }
      if e in all[..m] && e !in all[..n] {
        var j :| 0 <= j < m && all[..m][j] == e;
        assert sent[j - i] == e;
      }
    }
  }

  /** The same from the beginning of a download. */
  lemma Received(rows: Tables, limits: seq<nat>, checkpoint: nat, features: set<Feature>, cap: nat, size: Payload -> nat)
    returns (m: nat)
    requires Positive(limits)
    ensures var d, all := Pages(rows, Cursor(checkpoint, 0, None), limits, features, cap, size), Rest(rows, 0, None, features);
      m <= |all| && forall e :: e in d.entities <==> e in all[..m]
  {
    m := ReceivedIsFirstPart(rows, Cursor(checkpoint, 0, None), limits, features, cap, size, 0);
  }

  /** What is sent is a row that the queries reach. */
  lemma SentIsReached(rows: Tables, limits: seq<nat>, checkpoint: nat, features: set<Feature>, cap: nat,
      size: Payload -> nat, e: Entity)
    requires Positive(limits) && e in Pages(rows, Cursor(checkpoint, 0, None), limits, features, cap, size).entities
    ensures e.key in rows && Reached(rows, e.key)
  {
    var m := Received(rows, limits, checkpoint, features, cap, size);
    var i := IndexInFirst(Rest(rows, 0, None, features), m, e);
    ListedIsRow(rows, features, i);
  }

  /**
   * After any number of pages, restarts or not, what a received row refers to was received exactly when the folder query
   * reaches it; collections, environments and the parents of received folders always were.
   */
  lemma ReceivedIsClosedExactly(rows: Tables, limits: seq<nat>, checkpoint: nat, features: set<Feature>, cap: nat,
      size: Payload -> nat, e: Entity, r: Key)
    requires WellFormed(rows) && Positive(limits)
    requires e in Pages(rows, Cursor(checkpoint, 0, None), limits, features, cap, size).entities
    requires e.key in rows ==> r in Refs(rows[e.key].body)
    ensures var d := Pages(rows, Cursor(checkpoint, 0, None), limits, features, cap, size);
      && ((exists f :: f in d.entities && f.key == r) <==> Reached(rows, r))
      && (e.key.kind == Folder || r.kind != Folder ==> Reached(rows, r))
  {
    var m := Received(rows, limits, checkpoint, features, cap, size);
    FirstPartIsClosedExactly(rows, features, m, e, r);
  }

  lemma FirstPartIsClosedExactly(rows: Tables, features: set<Feature>, m: nat, e: Entity, r: Key)
    requires WellFormed(rows) && m <= |Rest(rows, 0, None, features)| && e in Rest(rows, 0, None, features)[..m]
    requires e.key in rows ==> r in Refs(rows[e.key].body)
    ensures (exists f :: f in Rest(rows, 0, None, features)[..m] && f.key == r) <==> Reached(rows, r)
    ensures e.key.kind == Folder || r.kind != Folder ==> Reached(rows, r)
  {
    var all := Rest(rows, 0, None, features);
    var i := IndexInFirst(all, m, e);
    ParentsComeFirst(rows, features, i, r);
    if Reached(rows, r) {
      var j :| 0 <= j < i && all[j].key == r;
      assert all[..m][j] in all[..m];
    }
    if f :| f in all[..m] && f.key == r {
      var j := IndexInFirst(all, m, f);
      ListedIsRow(rows, features, j);
    }
  }

  lemma IndexInFirst<T>(all: seq<T>, m: nat, x: T) returns (i: nat)
    requires m <= |all| && x in all[..m]
    ensures i < m && all[i] == x
  {
    i :| 0 <= i < m && all[..m][i] == x;
  }

  lemma {:induction false} NoMoreThan<T>(a: seq<T>, b: seq<T>)
    requires forall i, j :: 0 <= i < j < |a| ==> a[i] != a[j]
    requires forall x :: x in a ==> x in b
    ensures |a| <= |b|
  {
    if a != [] {
      var init, x := a[..|a| - 1], a[|a| - 1];
      assert x in b;
      var k :| 0 <= k < |b| && b[k] == x;
      var others := b[..k] + b[k + 1..];
      forall y | y in init ensures y in others {
        var i :| 0 <= i < |init| && init[i] == y;
        assert a[i] in a && y != x;
        var j :| 0 <= j < |b| && b[j] == y;
        assert others[if j < k then j else j - 1] == y;
      }
      NoMoreThan(init, others);
    }
  }

  lemma CompleteIsAllReached(rows: Tables, limits: seq<nat>, checkpoint: nat, features: set<Feature>, cap: nat,
      size: Payload -> nat)
    requires Positive(limits) && Complete(rows, Pages(rows, Cursor(checkpoint, 0, None), limits, features, cap, size), features)
    ensures AllReached(rows)
  {
    var d, all := Pages(rows, Cursor(checkpoint, 0, None), limits, features, cap, size), Rest(rows, 0, None, features);
    var m := Received(rows, limits, checkpoint, features, cap, size);
    forall k | k in rows ensures Reached(rows, k) {
      if k.kind == Folder {
        ViewAt(rows, features, k);
        var e := Entity(k, At(View(rows, features), k).value);
        assert e in d.entities;
        assert e in all[..m] && e in all;
        RestElement(rows, 0, features, e);
      }
    }
  }

  lemma CompleteNeverRestarts(rows: Tables, limits: seq<nat>, checkpoint: nat, features: set<Feature>, cap: nat,
      size: Payload -> nat)
    requires Positive(limits) && Complete(rows, Pages(rows, Cursor(checkpoint, 0, None), limits, features, cap, size), features)
    ensures AllCarry(rows, Cursor(checkpoint, 0, None), limits, features, cap, size)
  {
    var c := Cursor(checkpoint, 0, None);
    var d, all := Pages(rows, c, limits, features, cap, size), Rest(rows, 0, None, features);
    var m := Received(rows, limits, checkpoint, features, cap, size);
    forall e | e in d.entities ensures e in all { assert e in all[..m]; }
    NoMoreThan(d.entities, all);
    PagesThatEnd(rows, c, limits, features, cap, size);
  }

  lemma ListIsComplete(rows: Tables, features: set<Feature>)
    requires AllReached(rows)
    ensures Complete(rows, Loaded(Rest(rows, 0, None, features), None), features)
  {
    var all := Rest(rows, 0, None, features);
    forall e ensures e in all <==> At(View(rows, features), e.key) == Some(e.item) {
      RestElement(rows, 0, features, e);
      ViewAt(rows, features, e.key);
    }
    forall i, j | 0 <= i < j < |all| ensures all[i].key != all[j].key { NoneSentTwice(rows, features, i, j); }
  }

  /**
   * On fixed tables, for any limits (enough of them), byte cap and sizes: the pages end with every visible row of the
   * tables, once, exactly when every page closes with a cursor that carries its place and the folder query reaches every
   * folder.
   */
  lemma PagesCompleteExactly(rows: Tables, limits: seq<nat>, checkpoint: nat, features: set<Feature>, cap: nat,
      size: Payload -> nat)
    requires Enough(rows, limits, features)
    ensures Complete(rows, Pages(rows, Cursor(checkpoint, 0, None), limits, features, cap, size), features)
      <==> AllCarry(rows, Cursor(checkpoint, 0, None), limits, features, cap, size) && AllReached(rows)
  {
    var c := Cursor(checkpoint, 0, None);
    PagesDeliverExactly(rows, limits, checkpoint, features, cap, size);
    if Complete(rows, Pages(rows, c, limits, features, cap, size), features) {
      CompleteIsAllReached(rows, limits, checkpoint, features, cap, size);
      CompleteNeverRestarts(rows, limits, checkpoint, features, cap, size);
    }
    if AllReached(rows) { ListIsComplete(rows, features); }
  }

  // ---------------------------------------------------------------- which tables can be downloaded

  /** Of every visible type, a cursor at each listed row but the last carries its place. */
  predicate Resumable(rows: Tables, checkpoint: nat, features: set<Feature>) {
    forall kind: Kind, i :: Visible(kind, features) && 0 <= i < |Listing(rows, kind)| - 1 ==>
      CarriesPlace(Cursor(checkpoint, TurnOf(kind), Some(Listing(rows, kind)[i])))
  }

  lemma ScanKeepsCheckpoint(s: Progress, q: Query, rows: Tables)
    requires s.next.Some? ==> s.next.value.checkpoint == s.cur.checkpoint
    ensures var next := ScanAll(s, q, rows).next; next.Some? ==> next.value.checkpoint == s.cur.checkpoint
    decreases if s.cur.turn < |ORDER| then |ORDER| - s.cur.turn else 0, if s.closed then 0 else 1
  {
    if !s.closed && s.cur.turn < |ORDER| {
      var found := Fetch(rows, ORDER[s.cur.turn], s.cur.after, Take(s, q));
      ScanTurn(s, q, found);
      ScanLeavesNext(s, q, found);
      ScanKeepsCheckpoint(Scan(s, q, found), q, rows);
    }
  }

  lemma PageKeepsCheckpoint(rows: Tables, c: Cursor, q: Query)
    ensures var next := ScanAll(Start(c), q, rows).next; next.Some? ==> next.value.checkpoint == c.checkpoint
  {
    ResumesOrRestarts(c);
    ScanKeepsCheckpoint(Start(c), q, rows);
  }

  /** A page closes before the last row of a type, so on resumable tables its cursor carries its place. */
  lemma {:induction false} ResumableAllCarry(rows: Tables, c: Cursor, limits: seq<nat>, features: set<Feature>,
      cap: nat, size: Payload -> nat)
    requires Resumable(rows, c.checkpoint, features) && c.checkpoint <= CHECKPOINT_MAX
    requires Positive(limits) && Standing(rows, c, features)
    ensures AllCarry(rows, c, limits, features, cap, size)
    decreases |limits|
  {
    if limits != [] {
      var q := Query(limits[0], features, cap, size);
      var page := ScanAll(Start(c), q, rows);
      PageStands(rows, c, q);
      PageKeepsCheckpoint(rows, c, q);
      if page.next.Some? {
        NextCarries(rows, page.next.value, features);
        ResumableAllCarry(rows, page.next.value, limits[1..], features, cap, size);
      }
    }
  }

  lemma NextCarries(rows: Tables, next: Cursor, features: set<Feature>)
    requires Resumable(rows, next.checkpoint, features) && next.checkpoint <= CHECKPOINT_MAX
    requires Standing(rows, next, features) && MoreOfType(rows, next, features)
    ensures CarriesPlace(next)
  {
    if next.after.Some? {
      var i := PlaceInType(rows, next, features);
      NextCarriesAt(rows, next, i, features);
    } else {
      BeginningIsAdmitted(next);
    }
  }

  /** A row before the last of its type where a cursor does not carry its place. */
  predicate Blocks(rows: Tables, at: Cursor, features: set<Feature>) {
    at.after.Some? && Standing(rows, at, features) && MoreOfType(rows, at, features) && !CarriesPlace(at)
  }

  ghost predicate Blocked(rows: Tables, checkpoint: nat, features: set<Feature>) {
    exists at :: Blocks(rows, at, features) && at.checkpoint == checkpoint
  }

  lemma BlockingRow(rows: Tables, checkpoint: nat, features: set<Feature>) returns (at: Cursor)
    requires !Resumable(rows, checkpoint, features)
    ensures Blocks(rows, at, features) && at.checkpoint == checkpoint
  {
    var kind: Kind, i :| Visible(kind, features) && 0 <= i < |Listing(rows, kind)| - 1
      && !CarriesPlace(Cursor(checkpoint, TurnOf(kind), Some(Listing(rows, kind)[i])));
    at := Cursor(checkpoint, TurnOf(kind), Some(Listing(rows, kind)[i]));
    TypeSplitAt(rows, kind, i, features);
  }

  /** Tables are resumable exactly when no row blocks. */
  lemma ResumableExactly(rows: Tables, checkpoint: nat, features: set<Feature>)
    ensures Resumable(rows, checkpoint, features) <==> !Blocked(rows, checkpoint, features)
  {
    if !Resumable(rows, checkpoint, features) {
      var at := BlockingRow(rows, checkpoint, features);
    } else if Blocked(rows, checkpoint, features) {
      var at :| Blocks(rows, at, features) && at.checkpoint == checkpoint;
      var i := PlaceInType(rows, at, features);
      NextCarriesAt(rows, at, i, features);
    }
  }

  lemma NextCarriesAt(rows: Tables, at: Cursor, i: nat, features: set<Feature>)
    requires Resumable(rows, at.checkpoint, features) && at.turn < |ORDER| && Visible(ORDER[at.turn], features)
    requires i < |Listing(rows, ORDER[at.turn])| - 1 && at.after == Some(Listing(rows, ORDER[at.turn])[i])
    ensures CarriesPlace(at)
  {
    TurnIsUnique(ORDER[at.turn], at.turn);
    assert at == Cursor(at.checkpoint, TurnOf(ORDER[at.turn]), Some(Listing(rows, ORDER[at.turn])[i]));
  }

  /** Tables with ordinary ids are resumable. */
  lemma OrdinaryIsResumable(rows: Tables, checkpoint: nat, features: set<Feature>)
    requires checkpoint <= CHECKPOINT_MAX && forall k :: k in rows ==> Ordinary(k.id)
    ensures Resumable(rows, checkpoint, features)
  {
    forall kind: Kind, i | Visible(kind, features) && 0 <= i < |Listing(rows, kind)| - 1
      ensures CarriesPlace(Cursor(checkpoint, TurnOf(kind), Some(Listing(rows, kind)[i])))
    {
      var x := Listing(rows, kind)[i];
      ListedDepth(rows, kind, x);
      ListedAreThere(rows, kind);
      OrdinaryIsCarried(Cursor(checkpoint, TurnOf(kind), Some(x)));
    }
  }

  /** No cursor of the download is too long. */
  predicate AllAdmitted(rows: Tables, checkpoint: nat, features: set<Feature>) {
    checkpoint <= CHECKPOINT_MAX &&
    forall kind: Kind, x :: Visible(kind, features) && x in Listing(rows, kind) ==> Admitted(Cursor(checkpoint, TurnOf(kind), Some(x)))
  }

  lemma StandingIsAdmitted(rows: Tables, c: Cursor, features: set<Feature>)
    requires AllAdmitted(rows, c.checkpoint, features) && Standing(rows, c, features) && c.turn < |ORDER|
    ensures Admitted(c)
  {
    if c.after.Some? {
      TurnIsUnique(ORDER[c.turn], c.turn);
      assert c == Cursor(c.checkpoint, TurnOf(ORDER[c.turn]), c.after);
    } else {
      BeginningIsAdmitted(c);
    }
  }

  /** A page that begins with this cursor begins before the blocking row. */
  predicate BeforeBlock(rows: Tables, c: Cursor, at: Cursor, features: set<Feature>) {
    && Standing(rows, c, features) && c.turn <= |ORDER| && c.checkpoint == at.checkpoint
    && |RestAt(rows, Resumed(c), features)| > |RestAt(rows, at, features)|
  }

  /** A page of one row, from before a blocking one: it sends one row of those up to it, and does not get past it. */
  lemma OneRowPage(rows: Tables, c: Cursor, at: Cursor, q: Query)
    requires q.limit == 1 && Blocks(rows, at, q.features) && BeforeBlock(rows, c, at, q.features)
    ensures var page := ScanAll(Start(c), q, rows);
      && page.next.Some? && Standing(rows, page.next.value, q.features) && page.next.value.turn < |ORDER|
      && page.next.value.checkpoint == c.checkpoint
      && (Admitted(page.next.value) ==> BeforeBlock(rows, page.next.value, at, q.features))
      && |page.entities| == 1
      && page.entities[0] in FirstPart(rows, at, q.features)
  {
    var all, page := Rest(rows, 0, None, q.features), ScanAll(Start(c), q, rows);
    PageStands(rows, c, q);
    PageKeepsCheckpoint(rows, c, q);
    PageInBounds(Start(c), q, rows);
    MoreOfTypeIsMore(rows, at, q.features);
    var next := page.next.value;
    RestartFindsMore(rows, next, q.features);
    if CarriesPlace(next) && |RestAt(rows, next, q.features)| == |RestAt(rows, at, q.features)| {
      SamePlace(rows, next, at, q.features);
      assert false;
    }
    ResumesOrRestarts(c);
    ResumedStands(rows, c, q.features);
    RestIsSuffix(rows, Resumed(c), q.features);
    RestIsSuffix(rows, at, q.features);
    var n := |all| - |RestAt(rows, Resumed(c), q.features)|;
    assert page.entities[0] == RestAt(rows, Resumed(c), q.features)[0] == all[n] == FirstPart(rows, at, q.features)[n];
  }

  /** The full list up to the row the cursor stands at. */
  function FirstPart(rows: Tables, at: Cursor, features: set<Feature>): seq<Entity> {
    var all, left := Rest(rows, 0, None, features), RestAt(rows, at, features);
    if |left| <= |all| then all[..|all| - |left|] else []
  }

  function Ones(n: nat): (r: seq<nat>)
    ensures |r| == n && Positive(r)
  {
    seq(n, _ => 1)
  }

  /** There is a next page, and only these entities were sent, at most one a page. */
  predicate GoesOn(d: Loaded, pages: nat, part: seq<Entity>) {
    d.next.Some? && |d.entities| <= pages && forall e :: e in d.entities ==> e in part
  }

  lemma OneMoreGoesOn(e: Entity, rest: Loaded, pages: nat, part: seq<Entity>)
    requires e in part && GoesOn(rest, pages, part)
    ensures GoesOn(Loaded([e] + rest.entities, rest.next), pages + 1, part)
  {}

  /** A download one row to a page: its first page sends this, and either nothing follows a refusal or the rest does. */
  predicate BeginsWith(rows: Tables, c: Cursor, n: nat, features: set<Feature>, cap: nat, size: Payload -> nat, e: Entity,
      next: Cursor)
    requires n > 0
  {
    var rest := Pages(rows, next, Ones(n - 1), features, cap, size);
    Pages(rows, c, Ones(n), features, cap, size)
      == if Admitted(next) then Loaded([e] + rest.entities, rest.next) else Loaded([e], Some(next))
  }

  lemma OnesUnfold(rows: Tables, c: Cursor, n: nat, features: set<Feature>, cap: nat, size: Payload -> nat, page: Progress,
      e: Entity, next: Cursor)
    requires n > 0 && page == ScanAll(Start(c), Query(1, features, cap, size), rows)
    requires |page.entities| == 1 && page.entities[0] == e && page.next == Some(next)
    ensures BeginsWith(rows, c, n, features, cap, size, e, next)
  {
    assert Ones(n)[0] == 1 && Ones(n)[1..] == Ones(n - 1) && page.entities == [e];
  }

  lemma OneMorePage(rows: Tables, c: Cursor, at: Cursor, n: nat, features: set<Feature>, cap: nat, size: Payload -> nat)
    returns (e: Entity, next: Cursor)
    requires n > 0 && Blocks(rows, at, features) && BeforeBlock(rows, c, at, features)
    ensures e in FirstPart(rows, at, features) && BeginsWith(rows, c, n, features, cap, size, e, next)
    ensures Standing(rows, next, features) && next.turn < |ORDER| && next.checkpoint == at.checkpoint
    ensures Admitted(next) ==> BeforeBlock(rows, next, at, features)
  {
    var q := Query(1, features, cap, size);
    OneRowPage(rows, c, at, q);
    var page := ScanAll(Start(c), q, rows);
    e, next := page.entities[0], page.next.value;
    OnesUnfold(rows, c, n, features, cap, size, page, e, next);
  }

  lemma {:induction false} OneRowPagesGoOn(rows: Tables, c: Cursor, at: Cursor, n: nat, features: set<Feature>, cap: nat,
      size: Payload -> nat)
    requires Blocks(rows, at, features) && BeforeBlock(rows, c, at, features)
    ensures GoesOn(Pages(rows, c, Ones(n), features, cap, size), n, FirstPart(rows, at, features))
    decreases n
  {
    if n > 0 {
      var e, next := OneMorePage(rows, c, at, n, features, cap, size);
      if Admitted(next) {
        OneRowPagesGoOn(rows, next, at, n - 1, features, cap, size);
        OneMoreGoesOn(e, Pages(rows, next, Ones(n - 1), features, cap, size), n - 1, FirstPart(rows, at, features));
      } else {
        OneMoreGoesOn(e, Loaded([], Some(next)), n - 1, FirstPart(rows, at, features));
        assert [e] + [] == [e];
      }
    }
  }

  lemma {:induction false} OneRowPagesAllSend(rows: Tables, c: Cursor, at: Cursor, n: nat, features: set<Feature>, cap: nat,
      size: Payload -> nat)
    requires Blocks(rows, at, features) && BeforeBlock(rows, c, at, features) && AllAdmitted(rows, at.checkpoint, features)
    ensures |Pages(rows, c, Ones(n), features, cap, size).entities| == n
    decreases n
  {
    if n > 0 {
      var e, next := OneMorePage(rows, c, at, n, features, cap, size);
      StandingIsAdmitted(rows, next, features);
      OneRowPagesAllSend(rows, next, at, n - 1, features, cap, size);
    }
  }

  /**
   * With one row to a page a download of tables with a blocking row never ends: it is refused or goes round in circles,
   * for ever when no cursor is too long, and however many pages are loaded, nothing after that row is ever sent.
   */
  lemma BlockedDownloadsNeverEnd(rows: Tables, at: Cursor, n: nat, features: set<Feature>, cap: nat, size: Payload -> nat)
    requires Blocks(rows, at, features)
    ensures var d := Pages(rows, Cursor(at.checkpoint, 0, None), Ones(n), features, cap, size);
      && GoesOn(d, n, FirstPart(rows, at, features))
      && (AllAdmitted(rows, at.checkpoint, features) ==> |d.entities| == n)
  {
    var start := Cursor(at.checkpoint, 0, None);
    RestUnfold(rows, at.turn, at.after, features);
    RestUnfold(rows, at.turn, None, features);
    RestShrinks(rows, 0, at.turn, features);
    var i := PlaceInType(rows, at, features);
    OneRowPagesGoOn(rows, start, at, n, features, cap, size);
    if AllAdmitted(rows, at.checkpoint, features) { OneRowPagesAllSend(rows, start, at, n, features, cap, size); }
  }

  /** No page of such a download is about a row that follows the blocking one. */
  lemma NothingAfterIsSent(rows: Tables, at: Cursor, features: set<Feature>, e: Entity, f: Entity)
    requires Blocks(rows, at, features)
    requires e in FirstPart(rows, at, features) && f in RestAt(rows, at, features)
    ensures e.key != f.key
  {
    RestIsSuffix(rows, at, features);
    var all, left := Rest(rows, 0, None, features), RestAt(rows, at, features);
    var i := EarlyIndex(left, all, e);
    var j := LateIndex(left, all, f);
    NoneSentTwice(rows, features, i, j);
  }

  lemma EarlyIndex<T>(end: seq<T>, all: seq<T>, x: T) returns (i: nat)
    requires |end| <= |all| && x in all[..|all| - |end|]
    ensures i < |all| - |end| && all[i] == x
  {
    i :| 0 <= i < |all| - |end| && all[..|all| - |end|][i] == x;
  }

  lemma LateIndex<T>(end: seq<T>, all: seq<T>, x: T) returns (i: nat)
    requires IsSuffix(end, all) && x in end
    ensures |all| - |end| <= i < |all| && all[i] == x
  {
    var j :| 0 <= j < |end| && end[j] == x;
    assert all[|all| - |end|..][j] == x;
    i := |all| - |end| + j;
  }

  ghost predicate CompletesWith(rows: Tables, limits: seq<nat>, checkpoint: nat, features: set<Feature>, cap: nat,
      size: Payload -> nat) {
    Complete(rows, Pages(rows, Cursor(checkpoint, 0, None), limits, features, cap, size), features)
  }

  /** At least one page, and one for every row there is to send. */
  predicate Enough(rows: Tables, limits: seq<nat>, features: set<Feature>) {
    Positive(limits) && |limits| >= 1 && |limits| >= |Rest(rows, 0, None, features)|
  }

  /**
   * Every way to page through the tables ends with every visible row once, exactly when of every visible type a cursor
   * at each listed row but the last carries its place and the chain of parents of every folder ends within the limit.
   */
  lemma EveryPagingCompletesExactly(rows: Tables, checkpoint: nat, features: set<Feature>, cap: nat, size: Payload -> nat)
    requires checkpoint <= CHECKPOINT_MAX
    ensures (forall limits :: Enough(rows, limits, features) ==> CompletesWith(rows, limits, checkpoint, features, cap, size))
      <==> Resumable(rows, checkpoint, features) && AllReached(rows)
  {
    var c := Cursor(checkpoint, 0, None);
    var n := |Rest(rows, 0, None, features)| + 1;
    if Resumable(rows, checkpoint, features) {
      forall limits | Enough(rows, limits, features)
        ensures CompletesWith(rows, limits, checkpoint, features, cap, size) <==> AllReached(rows) {
        ResumableAllCarry(rows, c, limits, features, cap, size);
        PagesCompleteExactly(rows, limits, checkpoint, features, cap, size);
      }
      assert Enough(rows, Ones(n), features);
    } else {
      ResumableExactly(rows, checkpoint, features);
      var at :| Blocks(rows, at, features) && at.checkpoint == checkpoint;
      BlockedDownloadsNeverEnd(rows, at, n, features, cap, size);
      assert Enough(rows, Ones(n), features) && !CompletesWith(rows, Ones(n), checkpoint, features, cap, size);
    }
  }
}
