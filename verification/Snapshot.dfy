/** Downloading the current state page by page: type by type, parents before children, resumable at a position. */
module Snapshot {
  import opened Prelude
  import opened Rows
  import opened Tree
  import opened Content
  import opened Integrity
  import opened Journal
  import opened Features
  import Cursors

  // ---------------------------------------------------------------- positions and listings

  /** Folders are listed by (depth, id); everything else by id, at depth 0. */
  datatype Position = Position(depth: nat, id: Id)

  predicate Before(a: Position, b: Position) {
    a.depth < b.depth || (a.depth == b.depth && Less(a.id, b.id))
  }

  lemma BeforeTransitive(a: Position, b: Position, c: Position)
    requires Before(a, b) && Before(b, c)
    ensures Before(a, c)
  {
    if a.depth == b.depth == c.depth { LessTransitive(a.id, b.id, c.id); }
  }

  lemma BeforeIrreflexive(a: Position)
    ensures !Before(a, a)
  {
    LessIrreflexive(a.id);
  }

  lemma BeforeTotal(a: Position, b: Position)
    ensures a == b || Before(a, b) || Before(b, a)
  {
    LessTotal(a.id, b.id);
  }

  predicate Past(p: Position, after: Option<Position>) {
    after.None? || Before(after.value, p)
  }

  predicate Increasing(s: seq<Position>) {
    forall i, j :: 0 <= i < j < |s| ==> Before(s[i], s[j])
  }

  const DEPTH_LIMIT: nat := 10000

  /** Folders whose parent is missing (or that have none) start the tree. */
  function Roots(p: Parents): set<Id> {
    set x | x in p && (p[x].None? || p[x].value !in p)
  }

  function PositionsAt(depth: nat, ids: seq<Id>): (r: seq<Position>)
    ensures |r| == |ids| && forall i :: 0 <= i < |ids| ==> r[i] == Position(depth, ids[i])
  {
    seq(|ids|, i requires 0 <= i < |ids| => Position(depth, ids[i]))
  }

  /** The recursive folder query: the given level, the one below it, and so on down to the depth limit. */
  function FoldersFrom(p: Parents, depth: nat, level: set<Id>, rest: set<Id>): seq<Position>
    decreases |rest|
  {
    var here, next := PositionsAt(depth, Sorted(level)), ChildrenOf(p, level) * rest;
    if next == {} || depth >= DEPTH_LIMIT then here else
      assert next <= rest;
      Shrinks(rest, next);
      here + FoldersFrom(p, depth + 1, next, rest - next)
  }

  function Listing(rows: Tables, kind: Kind): seq<Position> {
    if kind == Folder then
      var p := ParentsOf(rows);
      FoldersFrom(p, 0, Roots(p), p.Keys - Roots(p))
    else PositionsAt(0, Sorted(IdsOf(rows, kind)))
  }

  /** The positions past the cursor, in order. */
  function After(list: seq<Position>, after: Option<Position>): seq<Position> {
    if list == [] then []
    else if Past(list[0], after) then [list[0]] + After(list[1..], after)
    else After(list[1..], after)
  }

  function First<T>(s: seq<T>, n: nat): seq<T> {
    if n <= |s| then s[..n] else s
  }

  // ---------------------------------------------------------------- reading rows

  datatype Found = Found(position: Position, row: Versioned)

  /** The rows of the listed positions that are there; for folders this is a second query. */
  function Load(rows: Tables, kind: Kind, list: seq<Position>): seq<Found> {
    if list == [] then []
    else
      var key := Key(kind, list[0].id);
      (if key in rows then [Found(list[0], rows[key])] else []) + Load(rows, kind, list[1..])
  }

  function Fetch(rows: Tables, kind: Kind, after: Option<Position>, take: nat): seq<Found> {
    Load(rows, kind, First(After(Listing(rows, kind), after), take))
  }

  // ---------------------------------------------------------------- pages

  const ORDER: seq<Kind> :=
    [Collection, Environment, Folder, Request, EnvironmentVariable, CollectionVersion, CollectionVariable, GlobalVariable]

  datatype Entity = Entity(key: Key, item: Item)

  /** `checkpoint` is the one read before the first page, `turn` the type being read, `after` the last row returned. */
  datatype Cursor = Cursor(checkpoint: nat, turn: nat, after: Option<Position>)

  datatype Query = Query(limit: nat, features: set<Feature>, cap: nat, size: Payload -> nat)

  datatype Progress = Progress(cur: Cursor, entities: seq<Entity>, bytes: nat, closed: bool, next: Option<Cursor>)

  const VERSION_BATCH: nat := 20
  const ENTITY_OVERHEAD: nat := 200

  /** How a cursor names the row it stands at. */
  function PlaceText(c: Cursor): string {
    if c.after.None? then ""
    else if c.turn < |ORDER| && ORDER[c.turn] == Folder then Cursors.EncodePosition(c.after.value.depth, c.after.value.id)
    else c.after.value.id
  }

  const JSON_FRAME := "{\"c\":,\"t\":,\"a\":\"\"}"

  /** The length of the text a cursor travels as: the base64url text of its JSON. */
  function CursorLength(c: Cursor): nat {
    Cursors.EncodedLength(
      |JSON_FRAME| + |Cursors.Decimal(c.checkpoint)| + |Cursors.Decimal(c.turn)| + Cursors.JsonLength(PlaceText(c)))
  }

  const CURSOR_MAX: nat := 512
  const PLACE_MAX: nat := 96

  /** A cursor that a client sends back is taken only when it, and the place it names, is short enough. */
  predicate Admitted(c: Cursor) {
    c.turn < |ORDER| && Cursors.Units(PlaceText(c)) <= PLACE_MAX && CursorLength(c) <= CURSOR_MAX
  }

  /** Checkpoints are 32-bit integers. */
  const CHECKPOINT_MAX: nat := 0x7fff_ffff

  lemma DigitsOfCheckpoint(c: Cursor)
    requires c.turn < |ORDER| && c.checkpoint <= CHECKPOINT_MAX
    ensures |Cursors.Decimal(c.checkpoint)| <= 10 && |Cursors.Decimal(c.turn)| == 1
  {
    Cursors.TenDigits();
    Cursors.DecimalLength(c.checkpoint, 10);
    Cursors.DecimalLength(c.turn, 1);
  }

  lemma PlaceLengths(c: Cursor)
    requires c.after.Some? && c.after.value.depth <= DEPTH_LIMIT
    ensures var id := c.after.value.id;
      && Cursors.Units(id) <= Cursors.Units(PlaceText(c)) <= Cursors.Units(id) + 6
      && Cursors.JsonLength(id) <= Cursors.JsonLength(PlaceText(c)) <= Cursors.JsonLength(id) + 6
  {
    var digits, id := Cursors.Decimal(c.after.value.depth), c.after.value.id;
    Cursors.TenDigits();
    Cursors.DecimalLength(c.after.value.depth, 5);
    Cursors.DigitsArePlain(digits);
    Cursors.LengthsOfConcat(digits, ":");
    Cursors.LengthsOfConcat(digits + ":", id);
    assert ":"[..0] == "";
  }

  lemma BeginningIsAdmitted(c: Cursor)
    requires c.turn < |ORDER| && c.checkpoint <= CHECKPOINT_MAX && c.after.None?
    ensures Admitted(c)
  {
    DigitsOfCheckpoint(c);
  }

  /** An id as long as the server asks for, without control characters and line terminators. */
  predicate Ordinary(id: Id) {
    1 <= Cursors.Units(id) <= Cursors.ID_MAX && Cursors.Printable(id) && forall c :: c in id ==> c !in Cursors.LINE_TERMINATORS
  }

  lemma OrdinaryIsCarried(c: Cursor)
    requires c.turn < |ORDER| && c.checkpoint <= CHECKPOINT_MAX && c.after.Some? && c.after.value.depth <= DEPTH_LIMIT
    requires Ordinary(c.after.value.id)
    ensures Admitted(c) && ReadsBack(ORDER[c.turn], c.after.value.id)
  {
    DigitsOfCheckpoint(c);
    PlaceLengths(c);
    Cursors.PrintableIsShort(c.after.value.id);
  }

  /** Few characters are admitted, whatever they are. */
  lemma FewAreAdmitted(c: Cursor)
    requires c.turn < |ORDER| && c.checkpoint <= CHECKPOINT_MAX
    requires c.after.Some? ==> c.after.value.depth <= DEPTH_LIMIT && |c.after.value.id| <= 40
    ensures Admitted(c)
  {
    DigitsOfCheckpoint(c);
    if c.after.Some? {
      PlaceLengths(c);
      Cursors.LengthsAreBounded(c.after.value.id);
    }
  }

  /** An id of 64 control characters is within the limit for ids, and a cursor at its row is refused. */
  lemma ControlsAreRefused(c: Cursor, x: char)
    requires c.after.Some? && c.after.value.depth <= DEPTH_LIMIT && c.after.value.id == seq(Cursors.ID_MAX, _ => x)
    requires Cursors.JsonBytes(x) == 6
    ensures Cursors.Units(c.after.value.id) == Cursors.ID_MAX && !Admitted(c)
  {
    PlaceLengths(c);
    Cursors.LengthOfSame(x, Cursors.ID_MAX);
  }

  /**
   * A cursor travels as text. The next page begins where its position is read back to: the place itself, or the
   * beginning of the type when the text does not read as a position.
   */
  function Resumed(c: Cursor): Cursor {
    if c.after.None? then c
    else if c.turn < |ORDER| && ORDER[c.turn] == Folder then
      match Cursors.DecodePosition(Cursors.EncodePosition(c.after.value.depth, c.after.value.id))
      case None => c.(after := None)
      case Some((depth, id)) => c.(after := Some(Position(depth, id)))
    else if c.after.value.id == "" then c.(after := None)
    else c
  }

  /** An id that a cursor can carry: the pattern for folder positions does not match across lines. */
  predicate ReadsBack(kind: Kind, id: Id) {
    id != "" && (kind == Folder ==> forall c :: c in id ==> c !in Cursors.LINE_TERMINATORS)
  }

  /** Reading back never leads anywhere else than to the place or to the beginning of the type. */
  lemma ResumesOrRestarts(c: Cursor)
    ensures Resumed(c) == c || (c.after.Some? && Resumed(c) == c.(after := None))
  {
    if c.after.Some? { Cursors.PositionReadsAsItself(c.after.value.depth, c.after.value.id); }
  }

  /** It leads back to the place exactly when the id reads back, down to every depth that the folder query reaches. */
  lemma ResumesExactly(c: Cursor)
    requires c.turn < |ORDER| && (c.after.Some? ==> c.after.value.depth <= DEPTH_LIMIT)
    ensures Resumed(c) == c <==> c.after.None? || ReadsBack(ORDER[c.turn], c.after.value.id)
  {
    if c.after.Some? {
      Cursors.PositionRoundTrip(c.after.value.depth, c.after.value.id);
      Cursors.NineDigits();
    }
  }

  function Start(c: Cursor): Progress {
    Progress(Resumed(c), [], 0, false, None)
  }

  function EntityOf(kind: Kind, f: Found, features: set<Feature>): Entity {
    Entity(Key(kind, f.position.id), Item(f.row.version, Shape(kind, SyncPayload(f.row.body), features)))
  }

  function NextTurn(s: Progress): Progress {
    s.(cur := Cursor(s.cur.checkpoint, s.cur.turn + 1, None))
  }

  function CloseWith(s: Progress): Progress {
    s.(closed := true, next := Some(s.cur))
  }

  /** The rows still wanted from the current type; collection versions come in small batches. */
  function Want(s: Progress, q: Query): nat {
    var remaining := if |s.entities| < q.limit then q.limit - |s.entities| else 0;
    if s.cur.turn < |ORDER| && ORDER[s.cur.turn] == CollectionVersion && remaining > VERSION_BATCH then VERSION_BATCH else remaining
  }

  /** How many rows the next query asks for: one more than wanted, to see whether more follow. */
  function Take(s: Progress, q: Query): nat {
    Want(s, q) + 1
  }

  function Emitting(s: Progress, q: Query, kind: Kind, f: Found): Progress {
    var e := EntityOf(kind, f, q.features);
    s.(bytes := s.bytes + q.size(e.item.payload) + ENTITY_OVERHEAD, entities := s.entities + [e],
       cur := s.cur.(after := Some(f.position)))
  }

  /** Emits rows until they are all out or the byte cap would be passed. */
  function Emit(s: Progress, q: Query, kind: Kind, rows: seq<Found>): Progress
    decreases |rows|
  {
    if rows == [] then s
    else
      var e := EntityOf(kind, rows[0], q.features);
      var size := q.size(e.item.payload) + ENTITY_OVERHEAD;
      if |s.entities| > 0 && s.bytes + size > q.cap then CloseWith(s)
      else
        Emit(Emitting(s, q, kind, rows[0]), q, kind, rows[1..])
  }

  /** One turn of the scan loop, given what its query found. */
  function Scan(s: Progress, q: Query, found: seq<Found>): Progress
    requires !s.closed && s.cur.turn < |ORDER|
  {
    var kind := ORDER[s.cur.turn];
    if !Visible(kind, q.features) then NextTurn(s)
    else if Want(s, q) == 0 then if found != [] then CloseWith(s) else NextTurn(s)
    else
      var out := Emit(s, q, kind, First(found, Want(s, q)));
      if out.closed then out
      else if |found| > Want(s, q) then CloseWith(out)
      else NextTurn(out)
  }

  /** A page read from one state of the tables. */
  function ScanAll(s: Progress, q: Query, rows: Tables): Progress
    decreases if s.cur.turn < |ORDER| then |ORDER| - s.cur.turn else 0, if s.closed then 0 else 1
  {
    if s.closed then s
    else if s.cur.turn >= |ORDER| then s.(closed := true, next := None)
    else
      ScanTurn(s, q, Fetch(rows, ORDER[s.cur.turn], s.cur.after, Take(s, q)));
      ScanAll(Scan(s, q, Fetch(rows, ORDER[s.cur.turn], s.cur.after, Take(s, q))), q, rows)
  }

  function EntitiesOf(kind: Kind, found: seq<Found>, features: set<Feature>): (r: seq<Entity>)
    ensures |r| == |found|
  {
    if found == [] then [] else [EntityOf(kind, found[0], features)] + EntitiesOf(kind, found[1..], features)
  }

  /** How many of the rows are emitted before the byte cap would be passed. */
  function Emitted(s: Progress, q: Query, kind: Kind, rows: seq<Found>): (n: nat)
    ensures n <= |rows| && (rows != [] && s.entities == [] ==> n >= 1)
    decreases |rows|
  {
    if rows == [] then 0
    else
      var e := EntityOf(kind, rows[0], q.features);
      var size := q.size(e.item.payload) + ENTITY_OVERHEAD;
      if |s.entities| > 0 && s.bytes + size > q.cap then 0
      else 1 + Emitted(Emitting(s, q, kind, rows[0]), q, kind, rows[1..])
  }

  /** Emitting sends a prefix of the rows, leaves the cursor at its last row, and closes the page unless all fit. */
  lemma {:induction false} EmitSendsPrefix(s: Progress, q: Query, kind: Kind, rows: seq<Found>)
    requires !s.closed
    ensures var out, n := Emit(s, q, kind, rows), Emitted(s, q, kind, rows);
      && out.entities == s.entities + EntitiesOf(kind, rows[..n], q.features)
      && out.cur == s.cur.(after := if n == 0 then s.cur.after else Some(rows[n - 1].position))
      && (out.closed <==> n < |rows|)
      && out.next == if out.closed then Some(out.cur) else s.next
    decreases |rows|
  {
    if rows == [] {
      assert rows[..0] == [];
    } else {
      var e := EntityOf(kind, rows[0], q.features);
      var size := q.size(e.item.payload) + ENTITY_OVERHEAD;
      if |s.entities| > 0 && s.bytes + size > q.cap {
        assert rows[..0] == [];
      } else {
        var t := Emitting(s, q, kind, rows[0]);
        EmitSendsPrefix(t, q, kind, rows[1..]);
        var n := Emitted(t, q, kind, rows[1..]);
        assert rows[..n + 1][1..] == rows[1..][..n];
        assert EntitiesOf(kind, rows[..n + 1], q.features) == [e] + EntitiesOf(kind, rows[1..][..n], q.features);
        Associate(s.entities, [e], EntitiesOf(kind, rows[1..][..n], q.features));
      }
    }
  }

  lemma ScanTurn(s: Progress, q: Query, found: seq<Found>)
    requires !s.closed && s.cur.turn < |ORDER|
    ensures var out := Scan(s, q, found);
      && out.cur.checkpoint == s.cur.checkpoint
      && if out.closed then out.cur.turn == s.cur.turn && out.next == Some(out.cur) else out.cur.turn == s.cur.turn + 1
  {
    EmitSendsPrefix(s, q, ORDER[s.cur.turn], First(found, Want(s, q)));
  }
}
