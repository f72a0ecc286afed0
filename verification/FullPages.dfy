/** A snapshot page stops early only for a reason: it is full, or the next row would not fit. */
module FullPages {
  import opened Prelude
  import opened Rows
  import opened Features
  import opened Snapshot
  import opened SnapshotPages

  predicate VersionsLast(entities: seq<Entity>, n: nat) {
    n <= |entities| && forall i :: |entities| - n <= i < |entities| ==> entities[i].key.kind == CollectionVersion
  }

  /** The page is full, the next entity would pass the byte cap, or a batch of twenty collection versions was sent. */
  predicate StopsFor(entities: seq<Entity>, q: Query, next: Entity) {
    || |entities| == q.limit
    || (entities != [] && BytesOf(entities, q.size) + q.size(next.item.payload) + 200 > q.cap)
    || (next.key.kind == CollectionVersion && VersionsLast(entities, 20))
  }

  lemma {:induction false} EmitClosesFor(s: Progress, q: Query, kind: Kind, rows: seq<Found>)
    requires !s.closed
    ensures var out, n := Emit(s, q, kind, rows), Emitted(s, q, kind, rows);
      n < |rows| ==> |out.entities| > 0 && out.bytes + q.size(EntityOf(kind, rows[n], q.features).item.payload) + ENTITY_OVERHEAD > q.cap
    decreases |rows|
  {
    if rows != [] {
      var e := EntityOf(kind, rows[0], q.features);
      if !(|s.entities| > 0 && s.bytes + q.size(e.item.payload) + ENTITY_OVERHEAD > q.cap) {
        EmitClosesFor(Emitting(s, q, kind, rows[0]), q, kind, rows[1..]);
      }
    }
  }

  /** The first row that a cursor after `n` listed rows finds. */
  lemma FirstOfRest(rows: Tables, kind: Kind, after: Option<Position>, n: nat, features: set<Feature>)
    requires Visible(kind, features) && n < |After(Listing(rows, kind), after)|
    ensures var list := After(Listing(rows, kind), after);
      var found, rest := Load(rows, kind, list), RestOfType(rows, kind, Here(list, after, n), features);
      |found| == |list| && rest != [] && rest[0] == EntityOf(kind, found[n], features)
  {
    LoadedPast(rows, kind, after, n);
  }

  lemma EmittedIsHere(s: Progress, q: Query, rows: Tables, kind: Kind, tried: seq<Found>)
    requires !s.closed && tried <= Load(rows, kind, After(Listing(rows, kind), s.cur.after))
    ensures var list, n, out := After(Listing(rows, kind), s.cur.after), Emitted(s, q, kind, tried), Emit(s, q, kind, tried);
      n <= |list| && out.cur.after == Here(list, s.cur.after, n) && |out.entities| == |s.entities| + n
  {
    var n := Emitted(s, q, kind, tried);
    LoadedPast(rows, kind, s.cur.after, 0);
    EmitSendsPrefix(s, q, kind, tried);
    PrefixTakes(tried, Load(rows, kind, After(Listing(rows, kind), s.cur.after)), n);
  }

  lemma {:induction false} EntitiesHaveKind(kind: Kind, found: seq<Found>, features: set<Feature>)
    ensures forall e :: e in EntitiesOf(kind, found, features) ==> e.key.kind == kind
  {
    if found != [] { EntitiesHaveKind(kind, found[1..], features); }
  }

  /** A batch of versions was sent: they are the last entities of the page. */
  lemma BatchIsLast(s: Progress, q: Query, tried: seq<Found>)
    requires !s.closed && !Emit(s, q, CollectionVersion, tried).closed
    ensures VersionsLast(Emit(s, q, CollectionVersion, tried).entities, |tried|)
  {
    EmitSendsPrefix(s, q, CollectionVersion, tried);
    assert tried[..|tried|] == tried;
    EntitiesHaveKind(CollectionVersion, tried, q.features);
    var out := Emit(s, q, CollectionVersion, tried);
    forall i | |s.entities| <= i < |out.entities| ensures out.entities[i].key.kind == CollectionVersion {
      assert out.entities[i] == EntitiesOf(CollectionVersion, tried, q.features)[i - |s.entities|];
    }
  }

  /** The next row is there, and the page stops at it for a reason. */
  predicate StopsAt(rows: Tables, q: Query, kind: Kind, out: Progress) {
    var rest := RestOfType(rows, kind, out.cur.after, q.features);
    rest != [] && StopsFor(out.entities, q, rest[0])
  }

  /** The loop stopped at a row that has no room. */
  lemma NoRoomStops(s: Progress, q: Query, rows: Tables, kind: Kind, tried: seq<Found>)
    requires !s.closed && Visible(kind, q.features) && InBounds(s, q) && |s.entities| + |tried| <= q.limit
    requires tried <= Load(rows, kind, After(Listing(rows, kind), s.cur.after)) && Emit(s, q, kind, tried).closed
    ensures StopsAt(rows, q, kind, Emit(s, q, kind, tried))
  {
    var all, n := Load(rows, kind, After(Listing(rows, kind), s.cur.after)), Emitted(s, q, kind, tried);
    EmittedIsHere(s, q, rows, kind, tried);
    EmitSendsPrefix(s, q, kind, tried);
    EmitClosesFor(s, q, kind, tried);
    EmitInBounds(s, q, kind, tried);
    LoadedPast(rows, kind, s.cur.after, 0);
    PrefixTakes(tried, all, n + 1);
    FirstOfRest(rows, kind, s.cur.after, n, q.features);
  }

  /** What a turn wants is all there is room for, or a batch of versions. */
  lemma WantIs(s: Progress, q: Query)
    requires s.cur.turn < |ORDER| && |s.entities| <= q.limit
    ensures |s.entities| + Want(s, q) == q.limit || (ORDER[s.cur.turn] == CollectionVersion && Want(s, q) == 20)
  {}

  /** The loop sent all that was wanted, which is reason enough. */
  lemma WantedIsReason(s: Progress, q: Query, kind: Kind, tried: seq<Found>, next: Entity)
    requires !s.closed && s.cur.turn < |ORDER| && kind == ORDER[s.cur.turn] && |tried| == Want(s, q) && |s.entities| <= q.limit
    requires next.key.kind == kind && !Emit(s, q, kind, tried).closed
    requires |Emit(s, q, kind, tried).entities| == |s.entities| + |tried|
    ensures StopsFor(Emit(s, q, kind, tried).entities, q, next)
  {
    WantIs(s, q);
    if kind == CollectionVersion { BatchIsLast(s, q, tried); }
  }

  /** The loop sent all that was wanted, and there are more. */
  lemma AllWantedStops(s: Progress, q: Query, rows: Tables, kind: Kind, want: nat)
    requires !s.closed && s.cur.turn < |ORDER| && kind == ORDER[s.cur.turn] && Visible(kind, q.features) && want == Want(s, q) > 0
    requires |s.entities| <= q.limit
    requires var all := Load(rows, kind, After(Listing(rows, kind), s.cur.after));
      |all| > want && !Emit(s, q, kind, First(all, want)).closed
    ensures var all := Load(rows, kind, After(Listing(rows, kind), s.cur.after));
      StopsAt(rows, q, kind, Emit(s, q, kind, First(all, want)))
  {
    var all := Load(rows, kind, After(Listing(rows, kind), s.cur.after));
    var tried := First(all, want);
    EmittedIsHere(s, q, rows, kind, tried);
    EmittedAll(s, q, kind, tried);
    LoadedPast(rows, kind, s.cur.after, 0);
    FirstOfRest(rows, kind, s.cur.after, want, q.features);
    WantedIsReason(s, q, kind, tried, EntityOf(kind, all[want], q.features));
  }

  lemma EmittedAll(s: Progress, q: Query, kind: Kind, tried: seq<Found>)
    requires !s.closed && !Emit(s, q, kind, tried).closed
    ensures Emitted(s, q, kind, tried) == |tried|
  {
    EmitSendsPrefix(s, q, kind, tried);
  }

  /** A turn that closes the page while it still wanted rows. */
  lemma WantingStopsFor(s: Progress, q: Query, rows: Tables, kind: Kind)
    requires !s.closed && s.cur.turn < |ORDER| && kind == ORDER[s.cur.turn] && Visible(kind, q.features)
    requires Want(s, q) > 0 && InBounds(s, q)
    ensures var out := Scan(s, q, Fetch(rows, kind, s.cur.after, Take(s, q))); out.closed ==> StopsAt(rows, q, kind, out)
  {
    var want := Want(s, q);
    var all := Load(rows, kind, After(Listing(rows, kind), s.cur.after));
    WantedOfAll(rows, kind, s.cur.after, want);
    ScanCases(s, q, Fetch(rows, kind, s.cur.after, want + 1));
    FirstIsPrefix(all, want);
    if Emit(s, q, kind, First(all, want)).closed {
      NoRoomStops(s, q, rows, kind, First(all, want));
    } else if |all| > want {
      AllWantedStops(s, q, rows, kind, want);
    }
  }

  lemma ScanStopsFor(s: Progress, q: Query, rows: Tables)
    requires !s.closed && s.cur.turn < |ORDER| && InBounds(s, q)
    ensures var kind := ORDER[s.cur.turn];
      var out := Scan(s, q, Fetch(rows, kind, s.cur.after, Take(s, q)));
      out.closed ==> StopsAt(rows, q, kind, out)
  {
    var kind := ORDER[s.cur.turn];
    if Visible(kind, q.features) {
      if Want(s, q) > 0 {
        WantingStopsFor(s, q, rows, kind);
      } else {
        FetchIsFirst(rows, kind, s.cur.after, 1);
        if After(Listing(rows, kind), s.cur.after) != [] { FirstOfRest(rows, kind, s.cur.after, 0, q.features); }
      }
    }
  }

  ghost predicate StopsRightly(rows: Tables, q: Query, page: Progress) {
    page.next.Some? ==>
      var rest := RestAt(rows, page.next.value, q.features); rest != [] && StopsFor(page.entities, q, rest[0])
  }

  lemma {:induction false} ScanAllStopsFor(s: Progress, q: Query, rows: Tables)
    requires InBounds(s, q) && s.next == (if s.closed then Some(s.cur) else None) && (s.closed ==> StopsRightly(rows, q, s))
    ensures StopsRightly(rows, q, ScanAll(s, q, rows))
    decreases if s.cur.turn < |ORDER| then |ORDER| - s.cur.turn else 0, if s.closed then 0 else 1
  {
    if !s.closed && s.cur.turn < |ORDER| {
      var found := Fetch(rows, ORDER[s.cur.turn], s.cur.after, Take(s, q));
      var out := Scan(s, q, found);
      ScanTurn(s, q, found);
      ScanInBounds(s, q, found);
      ScanLeavesNext(s, q, found);
      ScanStopsFor(s, q, rows);
      if out.closed { RestUnfold(rows, out.cur.turn, out.cur.after, q.features); }
      ScanAllStopsFor(out, q, rows);
    }
  }

  /** A page that leaves rows to its cursor is full, has no room for the next, or ends with a batch of versions. */
  lemma PageStopsForReason(rows: Tables, c: Cursor, q: Query)
    ensures StopsRightly(rows, q, ScanAll(Start(c), q, rows))
  {
    ScanAllStopsFor(Start(c), q, rows);
  }
}
