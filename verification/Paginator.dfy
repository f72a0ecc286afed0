/**
 * The dashboard's list state: a load restarts the list, load-more appends to it, and answers arrive in any order or not
 * at all. Calls of superseded loads are recognised by their generation and ignored.
 */
module Paginator {
  import opened Prelude
  import opened Keyset

  datatype Status = Idle | Loading | Ready | Failing

  datatype Answer<T> = Got(page: Page<T>) | Failed(message: string)

  /** A call in flight remembers the generation it was made in and the cursor it asked for. */
  datatype Call = Call(more: bool, generation: nat, cursor: Option<string>)

  datatype View<T> = View(items: seq<T>, status: Status, error: Option<string>, loadingMore: bool,
      loadMoreError: Option<string>,
    hasMore: bool, cursor: Option<string>, generation: nat)

  function Blank<T>(): View<T> {
    View([], Idle, None, false, None, false, None, 0)
  }

  function BeginLoad<T>(v: View<T>): View<T> {
    v.(generation := v.generation + 1, status := Loading, error := None, loadMoreError := None, loadingMore := false)
  }

  function EndLoad<T>(v: View<T>, call: Call, a: Answer<T>): View<T> {
    if call.generation != v.generation then v
    else
      match a
      case Got(p) => v.(items := p.items, cursor := p.next, hasMore := p.hasMore && p.next.Some?, status := Ready)
      case Failed(m) => v.(error := Some(m), status := Failing)
  }

  predicate MayLoadMore<T>(v: View<T>) {
    !v.loadingMore && v.hasMore && v.status == Ready
  }

  function BeginMore<T>(v: View<T>): View<T> {
    v.(loadingMore := true, loadMoreError := None)
  }

  function EndMore<T>(v: View<T>, call: Call, a: Answer<T>): View<T> {
    if call.generation != v.generation then v
    else
      match a
      case Got(p) =>
        v.(items := v.items + p.items, cursor := p.next, hasMore := p.hasMore && p.next.Some?, loadingMore := false)
      case Failed(m) => v.(loadMoreError := Some(m), loadingMore := false)
  }

  class List<T> {
    var items: seq<T>
    var status: Status
    var error: Option<string>
    var loadingMore: bool
    var loadMoreError: Option<string>
    var hasMore: bool
    var cursor: Option<string>
    var generation: nat

    constructor ()
      ensures Shown() == Blank()
    {
      items, status, error, loadingMore, loadMoreError, hasMore, cursor, generation := [], Idle, None, false, None, false, None, 0;
    }

    function Shown(): View<T>
      reads this
    {
      View(items, status, error, loadingMore, loadMoreError, hasMore, cursor, generation)
    }

    /** The part of a load before its answer: the call it makes. */
    method Load() returns (call: Call)
      modifies this
      ensures Shown() == BeginLoad(old(Shown())) && call == Call(false, generation, None)
    {
      generation := generation + 1;
      status, error, loadMoreError, loadingMore := Loading, None, None, false;
      call := Call(false, generation, None);
    }

    method Loaded(call: Call, a: Answer<T>)
      modifies this
      ensures Shown() == EndLoad(old(Shown()), call, a)
    {
      if call.generation != generation { return; }
      match a {
        case Got(p) =>
          items, cursor, hasMore, status := p.items, p.next, p.hasMore && p.next.Some?, Ready;
        case Failed(m) =>
          error, status := Some(m), Failing;
      }
    }

    method LoadMore() returns (call: Option<Call>)
      modifies this
      ensures if MayLoadMore(old(Shown())) then
          Shown() == BeginMore(old(Shown())) && call == Some(Call(true, generation, cursor))
        else Shown() == old(Shown()) && call == None
    {
      if loadingMore || !hasMore || status != Ready { return None; }
      loadingMore, loadMoreError := true, None;
      call := Some(Call(true, generation, cursor));
    }

    method LoadedMore(call: Call, a: Answer<T>)
      modifies this
      ensures Shown() == EndMore(old(Shown()), call, a)
    {
      if call.generation != generation { return; }
      match a {
        case Got(p) =>
          items, cursor, hasMore := items + p.items, p.next, p.hasMore && p.next.Some?;
        case Failed(m) =>
          loadMoreError := Some(m);
      }
      loadingMore := false;
    }
  }

  // ---------------------------------------------------------------- runs

  datatype Fetched<T> = Fetched(cursor: Option<string>, page: Page<T>)

  /** The list, the calls in flight, and the fetches whose pages it has taken in since its last successful load. */
  datatype Dashboard<T> = Dashboard(view: View<T>, pending: seq<Call>, taken: seq<Fetched<T>>)

  /** `Answered(i, a)` answers the i-th call in flight, in whatever order the user and the network choose. */
  datatype Event<T> = Load | LoadMore | Answered(i: nat, answer: Answer<T>)

  function Start<T>(): Dashboard<T> {
    Dashboard(Blank(), [], [])
  }

  function Without(pending: seq<Call>, i: nat): seq<Call>
    requires i < |pending|
  {
    pending[..i] + pending[i + 1..]
  }

  function Taking<T>(d: Dashboard<T>, call: Call, a: Answer<T>): seq<Fetched<T>> {
    if call.generation != d.view.generation || a.Failed? then d.taken
    else if call.more then d.taken + [Fetched(call.cursor, a.page)]
    else [Fetched(call.cursor, a.page)]
  }

  function Turn<T>(d: Dashboard<T>, e: Event<T>): Dashboard<T> {
    match e
    case Load => Dashboard(BeginLoad(d.view), d.pending + [Call(false, d.view.generation + 1, None)], d.taken)
    case LoadMore =>
      if MayLoadMore(d.view) then
        Dashboard(BeginMore(d.view), d.pending + [Call(true, d.view.generation, d.view.cursor)], d.taken)
      else d
    case Answered(i, a) =>
      if i >= |d.pending| then d
      else
        var call := d.pending[i];
        Dashboard(if call.more then EndMore(d.view, call, a) else EndLoad(d.view, call, a), Without(d.pending, i),
            Taking(d, call, a))
  }

  function After<T>(events: seq<Event<T>>): Dashboard<T> {
    if events == [] then Start() else Turn(After(events[..|events| - 1]), events[|events| - 1])
  }

  function Items<T>(taken: seq<Fetched<T>>): seq<T> {
    if taken == [] then [] else Items(taken[..|taken| - 1]) + taken[|taken| - 1].page.items
  }

  /** One cursor chain: the first page, then each time the page its predecessor pointed to. */
  predicate IsChain<T>(taken: seq<Fetched<T>>) {
    taken == [] || (IsChain(taken[..|taken| - 1]) && Continues(taken[..|taken| - 1], taken[|taken| - 1].cursor))
  }

  predicate Continues<T>(before: seq<Fetched<T>>, cursor: Option<string>) {
    if before == [] then cursor == None else cursor == before[|before| - 1].page.next && cursor.Some?
  }

  /** The list shows the pages it took in, and knows where the last one leads. */
  predicate ShowsChain<T(==)>(d: Dashboard<T>) {
    && IsChain(d.taken) && d.view.items == Items(d.taken)
    && if d.taken == [] then !d.view.hasMore
       else
         var last := d.taken[|d.taken| - 1].page;
         d.view.cursor == last.next && d.view.hasMore == (last.hasMore && last.next.Some?)
  }

  /** At most one call in flight belongs to the current generation, and it is the one the list is waiting for. */
  predicate CallsFit<T>(d: Dashboard<T>) {
    && (forall i :: 0 <= i < |d.pending| ==> d.pending[i].generation <= d.view.generation)
    && (forall i, j :: 0 <= i < j < |d.pending| ==>
          d.pending[i].generation < d.view.generation || d.pending[j].generation < d.view.generation)
    && (forall i :: 0 <= i < |d.pending| && d.pending[i].generation == d.view.generation ==>
          if d.pending[i].more then d.view.loadingMore && d.view.status == Ready && d.view.hasMore && d.pending[i].cursor == d.view.cursor
          else d.view.status == Loading && d.pending[i].cursor == None)
  }

  lemma TurnKeepsCalls<T>(d: Dashboard<T>, e: Event<T>)
    requires CallsFit(d)
    ensures CallsFit(Turn(d, e))
  {
    if e.Answered? && e.i < |d.pending| {
      var rest := Without(d.pending, e.i);
      forall j | 0 <= j < |rest| ensures rest[j] == d.pending[if j < e.i then j else j + 1] {}
    }
  }

  lemma ChainGrows<T>(taken: seq<Fetched<T>>, next: Fetched<T>)
    requires IsChain(taken) && Continues(taken, next.cursor)
    ensures IsChain(taken + [next]) && Items(taken + [next]) == Items(taken) + next.page.items
  {
    assert (taken + [next])[..|taken|] == taken;
  }

  lemma ChainStarts<T>(next: Fetched<T>)
    requires next.cursor == None
    ensures IsChain([next]) && Items([next]) == next.page.items
  {
    var none: seq<Fetched<T>> := [];
    assert [next][..0] == none && Items(none) == [];
  }

  /** An answer of the current generation starts the chain anew or extends it. */
  lemma AnswerKeepsChain<T>(d: Dashboard<T>, call: Call, page: Page<T>)
    requires ShowsChain(d) && call.generation == d.view.generation
    requires if call.more then d.view.hasMore && call.cursor == d.view.cursor else call.cursor == None
    ensures var view := if call.more then EndMore(d.view, call, Got(page)) else EndLoad(d.view, call, Got(page));
      ShowsChain(Dashboard(view, [], Taking(d, call, Got(page))))
  {
    if call.more { ChainGrows(d.taken, Fetched(call.cursor, page)); } else { ChainStarts(Fetched(call.cursor, page)); }
  }

  lemma TurnKeepsChain<T>(d: Dashboard<T>, e: Event<T>)
    requires CallsFit(d) && ShowsChain(d)
    ensures ShowsChain(Turn(d, e))
  {
    if e.Answered? && e.i < |d.pending| && d.pending[e.i].generation == d.view.generation && e.answer.Got? {
      AnswerKeepsChain(d, d.pending[e.i], e.answer.page);
    }
  }

  /**
   * Under any interleaving of loads, load-mores and answers, late, failed or superseded ones included, the list shows
   * the pages of one cursor chain from the first page.
   */
  lemma {:induction false} ListIsOneChain<T>(events: seq<Event<T>>)
    ensures CallsFit(After(events)) && ShowsChain(After(events))
  {
    if events != [] {
      ListIsOneChain(events[..|events| - 1]);
      TurnKeepsCalls(After(events[..|events| - 1]), events[|events| - 1]);
      TurnKeepsChain(After(events[..|events| - 1]), events[|events| - 1]);
    }
  }

  // ---------------------------------------------------------------- what the list waits for and says

  predicate InFlight(pending: seq<Call>, more: bool, generation: nat) {
    exists i :: 0 <= i < |pending| && pending[i].more == more && pending[i].generation == generation
  }

  /** The list says it is loading exactly while a call of its generation is in flight, and shows no stale message. */
  predicate SaysWhatItWaitsFor<T>(d: Dashboard<T>) {
    var v := d.view;
    && (v.status == Loading <==> InFlight(d.pending, false, v.generation))
    && (v.loadingMore <==> InFlight(d.pending, true, v.generation))
    && (v.error.Some? <==> v.status == Failing)
    && (v.loadMoreError.Some? ==> v.status == Ready && !v.loadingMore)
    && (v.status == Ready ==> d.taken != [])
  }

  lemma MadeIsInFlight(pending: seq<Call>, call: Call, more: bool, generation: nat)
    ensures InFlight(pending + [call], more, generation)
      <==> InFlight(pending, more, generation) || (call.more == more && call.generation == generation)
  {
    var next := pending + [call];
    assert next[|pending|] == call;
    if InFlight(pending, more, generation) {
      var i :| 0 <= i < |pending| && pending[i].more == more && pending[i].generation == generation;
      assert next[i] == pending[i];
    }
  }

  /** Once a call is answered, another is in flight exactly when it was besides this one. */
  lemma AnsweredIsNotInFlight(pending: seq<Call>, i: nat, more: bool, generation: nat)
    requires i < |pending|
    ensures InFlight(Without(pending, i), more, generation)
      <==> exists j :: 0 <= j < |pending| && j != i && pending[j].more == more && pending[j].generation == generation
  {
    var rest := Without(pending, i);
    if InFlight(rest, more, generation) {
      var j :| 0 <= j < |rest| && rest[j].more == more && rest[j].generation == generation;
      assert rest[j] == pending[if j < i then j else j + 1];
    }
    if j :| 0 <= j < |pending| && j != i && pending[j].more == more && pending[j].generation == generation {
      assert rest[if j < i then j else j - 1] == pending[j];
    }
  }

  /** A superseded answer leaves what is in flight for the current generation. */
  lemma SupersededIsNotMissed(pending: seq<Call>, i: nat, more: bool, generation: nat)
    requires i < |pending| && pending[i].generation != generation
    ensures InFlight(Without(pending, i), more, generation) <==> InFlight(pending, more, generation)
  {
    AnsweredIsNotInFlight(pending, i, more, generation);
  }

  lemma NoOlderInFlight<T>(d: Dashboard<T>, more: bool)
    requires CallsFit(d)
    ensures !InFlight(d.pending, more, d.view.generation + 1)
  {}

  /** The answer the list was waiting for was the only one. */
  lemma NothingElseInFlight<T>(d: Dashboard<T>, i: nat, more: bool)
    requires CallsFit(d) && i < |d.pending| && d.pending[i].generation == d.view.generation
    ensures !InFlight(Without(d.pending, i), more, d.view.generation)
  {
    AnsweredIsNotInFlight(d.pending, i, more, d.view.generation);
  }

  lemma TurnSaysWhatItWaitsFor<T>(d: Dashboard<T>, e: Event<T>)
    requires CallsFit(d) && SaysWhatItWaitsFor(d)
    ensures SaysWhatItWaitsFor(Turn(d, e))
  {
    var g := d.view.generation;
    match e
    case Load =>
      NoOlderInFlight(d, true);
      NoOlderInFlight(d, false);
      MadeIsInFlight(d.pending, Call(false, g + 1, None), true, g + 1);
      MadeIsInFlight(d.pending, Call(false, g + 1, None), false, g + 1);
    case LoadMore =>
      if MayLoadMore(d.view) {
        MadeIsInFlight(d.pending, Call(true, g, d.view.cursor), true, g);
        MadeIsInFlight(d.pending, Call(true, g, d.view.cursor), false, g);
      }
    case Answered(i, a) => if i < |d.pending| { AnswerSaysWhatItWaitsFor(d, i, a); }
  }

  lemma AnswerSaysWhatItWaitsFor<T>(d: Dashboard<T>, i: nat, a: Answer<T>)
    requires CallsFit(d) && SaysWhatItWaitsFor(d) && i < |d.pending|
    ensures SaysWhatItWaitsFor(Turn(d, Answered(i, a)))
  {
    var g, call := d.view.generation, d.pending[i];
    if call.generation == g {
      NothingElseInFlight(d, i, true);
      NothingElseInFlight(d, i, false);
      assert InFlight(d.pending, call.more, g);
    } else {
      SupersededIsNotMissed(d.pending, i, true, g);
      SupersededIsNotMissed(d.pending, i, false, g);
    }
  }

  /** Under any interleaving the list says it is loading exactly while a call of its generation is in flight. */
  lemma {:induction false} ListSaysWhatItWaitsFor<T>(events: seq<Event<T>>)
    ensures SaysWhatItWaitsFor(After(events))
  {
    if events != [] {
      ListSaysWhatItWaitsFor(events[..|events| - 1]);
      ListIsOneChain(events[..|events| - 1]);
      TurnSaysWhatItWaitsFor(After(events[..|events| - 1]), events[|events| - 1]);
    }
  }

  /** A load asks for the first page at once, and no answer to an earlier call shows any more. */
  lemma LoadSupersedes<T>(events: seq<Event<T>>, i: nat, a: Answer<T>)
    requires i < |After(events).pending|
    ensures var d := After(events);
      var next := Turn(d, Load);
      && next.view.status == Loading && next.view.items == d.view.items
      && next.pending == d.pending + [Call(false, next.view.generation, None)]
      && Turn(next, Answered(i, a)).view == next.view
  {
    ListIsOneChain(events);
    assert Turn(After(events), Load).pending[i] == After(events).pending[i];
  }

  /** A list that has more gets at it: the next load-more asks for it, unless one in flight already does. */
  lemma MoreIsWithinReach<T>(events: seq<Event<T>>)
    requires After(events).view.status == Ready && After(events).view.hasMore
    ensures var d := After(events);
      && d.view.cursor.Some? && (InFlight(d.pending, true, d.view.generation) || MayLoadMore(d.view))
      && (!InFlight(d.pending, true, d.view.generation) ==>
            Turn(d, LoadMore).pending == d.pending + [Call(true, d.view.generation, d.view.cursor)])
      && (forall i :: 0 <= i < |d.pending| && d.pending[i].generation == d.view.generation ==> d.pending[i].cursor == d.view.cursor)
  {
    ListSaysWhatItWaitsFor(events);
    ListIsOneChain(events);
  }

  /** A failed answer of the current generation shows its message and leaves items and cursor alone; more can be asked for again. */
  lemma FailuresAreShown<T>(events: seq<Event<T>>, i: nat, message: string)
    requires i < |After(events).pending| && After(events).pending[i].generation == After(events).view.generation
    ensures var d := After(events);
      var v, w := d.view, Turn(d, Answered(i, Failed(message))).view;
      && w.items == v.items && w.cursor == v.cursor && w.hasMore == v.hasMore && w.generation == v.generation
      && if d.pending[i].more then w.loadMoreError == Some(message) && w.status == Ready && w.error == None && MayLoadMore(w)
         else w.error == Some(message) && w.status == Failing && w.loadMoreError == None && !w.loadingMore
  {
    var d := After(events);
    ListSaysWhatItWaitsFor(events);
    ListIsOneChain(events);
    assert InFlight(d.pending, d.pending[i].more, d.view.generation);
  }

  /** A page of the current generation is shown: it replaces the items of a load and follows those of a load-more. */
  lemma PagesAreShown<T>(events: seq<Event<T>>, i: nat, page: Page<T>)
    requires i < |After(events).pending| && After(events).pending[i].generation == After(events).view.generation
    ensures var d := After(events);
      var v, w := d.view, Turn(d, Answered(i, Got(page))).view;
      && w.items == (if d.pending[i].more then v.items else []) + page.items
      && w.cursor == page.next && w.hasMore == (page.hasMore && page.next.Some?)
      && w.status == Ready && !w.loadingMore && w.error == None && w.loadMoreError == None
  {
    var d := After(events);
    ListSaysWhatItWaitsFor(events);
    ListIsOneChain(events);
    assert InFlight(d.pending, d.pending[i].more, d.view.generation);
    AnswerSaysWhatItWaitsFor(d, i, Got(page));
    NothingElseInFlight(d, i, true);
  }

  // ---------------------------------------------------------------- against a fixed table

  /** A page the server would send for this cursor, whatever page size it was asked for. */
  ghost predicate IsPage(f: Format, table: seq<Row>, ascending: bool, cursor: Option<string>, page: Page<Row>) {
    exists limit: nat :: limit >= 1 && PageAt(f, table, ascending, cursor, limit) == Some(page)
  }

  /** Every answer that came back with a page is the server's page for the call's cursor. */
  ghost predicate Honest(f: Format, table: seq<Row>, ascending: bool, events: seq<Event<Row>>) {
    forall n :: 0 <= n < |events| ==> HonestAnswer(f, table, ascending, After(events[..n]), events[n])
  }

  ghost predicate HonestAnswer(f: Format, table: seq<Row>, ascending: bool, d: Dashboard<Row>, e: Event<Row>) {
    e.Answered? && e.i < |d.pending| && e.answer.Got? ==> IsPage(f, table, ascending, d.pending[e.i].cursor, e.answer.page)
  }

  lemma InitIsHonest(f: Format, table: seq<Row>, ascending: bool, events: seq<Event<Row>>)
    requires Honest(f, table, ascending, events) && events != []
    ensures Honest(f, table, ascending, events[..|events| - 1])
    ensures HonestAnswer(f, table, ascending, After(events[..|events| - 1]), events[|events| - 1])
  {
    var m := |events| - 1;
    forall n | 0 <= n < m ensures HonestAnswer(f, table, ascending, After(events[..m][..n]), events[..m][n]) {
      assert events[..m][..n] == events[..n];
      assert HonestAnswer(f, table, ascending, After(events[..n]), events[n]);
    }
  }

  lemma {:induction false} TakenPagesAreHonest(f: Format, table: seq<Row>, ascending: bool, events: seq<Event<Row>>, x: Fetched<Row>)
    requires Honest(f, table, ascending, events) && x in After(events).taken
    ensures IsPage(f, table, ascending, x.cursor, x.page)
    decreases |events|
  {
    if events != [] {
      var init, e := events[..|events| - 1], events[|events| - 1];
      InitIsHonest(f, table, ascending, events);
      if x in After(init).taken { TakenPagesAreHonest(f, table, ascending, init, x); } else { TurnTakes(After(init), e, x); }
    }
  }

  lemma TurnTakes<T>(d: Dashboard<T>, e: Event<T>, x: Fetched<T>)
    requires x in Turn(d, e).taken && x !in d.taken
    ensures e.Answered? && e.i < |d.pending| && e.answer.Got? && x == Fetched(d.pending[e.i].cursor, e.answer.page)
  {}

  /** What a prefix of `n` rows, taken in as whole pages, knows about the rest. */
  ghost predicate EndsAt(f: Format, rows: seq<Row>, n: nat, last: Page<Row>) {
    n <= |rows| && last.hasMore == (n < |rows|) && (n < |rows| ==> n > 0 && last.next == CursorAfter(f, rows, n))
  }

  lemma RowsExtend(f: Format, rows: seq<Row>, sofar: seq<Row>, n: nat, m: nat, page: Page<Row>)
    requires n <= m <= |rows| && (m < |rows| ==> m > 0) && sofar == rows[..n]
    requires page == Page(rows[n..m], if m < |rows| then CursorAfter(f, rows, m) else None, m < |rows|)
    ensures sofar + page.items == rows[..m] && EndsAt(f, rows, m, page)
  {}

  lemma PageIsNext(f: Format, table: seq<Row>, ascending: bool, n: nat, page: Page<Row>) returns (m: nat)
    requires Ordered(true, table) && Faithful(f, table) && n <= |InOrder(ascending, table)|
    requires IsPage(f, table, ascending, CursorAfter(f, InOrder(ascending, table), n), page)
    ensures var rows := InOrder(ascending, table);
      && n <= m <= |rows| && (n < |rows| ==> n < m) && (m < |rows| ==> m > 0)
      && page == Page(rows[n..m], if m < |rows| then CursorAfter(f, rows, m) else None, m < |rows|)
  {
    var rows := InOrder(ascending, table);
    var limit: nat :| limit >= 1 && PageAt(f, table, ascending, CursorAfter(f, rows, n), limit) == Some(page);
    m := if n + limit <= |rows| then n + limit else |rows|;
    PageContinues(f, table, ascending, n, limit);
  }

  /** One more page of the chain: the rows after those before it. */
  lemma PageExtends(f: Format, table: seq<Row>, ascending: bool, sofar: seq<Row>, n: nat, next: Fetched<Row>) returns (m: nat)
    requires Ordered(true, table) && Faithful(f, table)
    requires n <= |InOrder(ascending, table)| && sofar == InOrder(ascending, table)[..n]
    requires next.cursor == CursorAfter(f, InOrder(ascending, table), n) && IsPage(f, table, ascending, next.cursor, next.page)
    ensures EndsAt(f, InOrder(ascending, table), m, next.page)
    ensures sofar + next.page.items == InOrder(ascending, table)[..m]
  {
    m := PageIsNext(f, table, ascending, n, next.page);
    RowsExtend(f, InOrder(ascending, table), sofar, n, m, next.page);
  }

  lemma ItemsOfLast<T>(taken: seq<Fetched<T>>)
    requires taken != []
    ensures Items(taken) == Items(taken[..|taken| - 1]) + taken[|taken| - 1].page.items
    ensures |taken| == 1 ==> Items(taken) == taken[0].page.items
  {
    if |taken| == 1 { assert Items(taken[..0]) == []; }
  }

  /** A chain of the server's pages is a prefix of the ordered table, and its end knows how much that is. */
  lemma {:induction false} ChainIsPrefix(f: Format, table: seq<Row>, ascending: bool, taken: seq<Fetched<Row>>) returns (n: nat)
    requires Ordered(true, table) && Faithful(f, table) && IsChain(taken) && taken != []
    requires forall x :: x in taken ==> IsPage(f, table, ascending, x.cursor, x.page)
    ensures EndsAt(f, InOrder(ascending, table), n, taken[|taken| - 1].page)
    ensures Items(taken) == InOrder(ascending, table)[..n]
    decreases |taken|
  {
    var init, last := taken[..|taken| - 1], taken[|taken| - 1];
    ItemsOfLast(taken);
    if init == [] {
      n := PageExtends(f, table, ascending, [], 0, last);
    } else {
      var m := ChainIsPrefix(f, table, ascending, init);
      HasNextMeansMore(f, table, ascending, init[|init| - 1]);
      n := PageExtends(f, table, ascending, Items(init), m, last);
    }
  }

  lemma HasNextMeansMore(f: Format, table: seq<Row>, ascending: bool, fetched: Fetched<Row>)
    requires IsPage(f, table, ascending, fetched.cursor, fetched.page) && fetched.page.next.Some?
    ensures fetched.page.hasMore
  {}

  lemma OrderedHasNoDuplicates(ascending: bool, rows: seq<Row>)
    requires Ordered(ascending, rows)
    ensures NoDuplicates(rows)
  {
    forall i, j | 0 <= i < j < |rows| ensures rows[i] != rows[j] { ComesIsStrictOrder(ascending, rows[i], rows[j], rows[j]); }
  }

  /** How much of the table is shown, and what the last page taken in knows about the rest. */
  lemma ShownIsPrefix(f: Format, table: seq<Row>, ascending: bool, events: seq<Event<Row>>) returns (n: nat)
    requires Ordered(true, table) && Faithful(f, table) && Honest(f, table, ascending, events)
    ensures var d, rows := After(events), InOrder(ascending, table);
      && n <= |rows| && d.view.items == rows[..n]
      && (d.taken != [] ==> EndsAt(f, rows, n, d.taken[|d.taken| - 1].page))
  {
    var d := After(events);
    ListIsOneChain(events);
    if d.taken == [] {
      n := 0;
    } else {
      forall x | x in d.taken ensures IsPage(f, table, ascending, x.cursor, x.page) {
        TakenPagesAreHonest(f, table, ascending, events, x);
      }
      n := ChainIsPrefix(f, table, ascending, d.taken);
    }
  }

  /** The last page knows of more exactly when the list does. */
  lemma LastPageKnows(f: Format, table: seq<Row>, ascending: bool, events: seq<Event<Row>>)
    requires Honest(f, table, ascending, events) && After(events).taken != []
    ensures var d := After(events); d.view.hasMore == (d.taken[|d.taken| - 1].page.hasMore && d.taken[|d.taken| - 1].page.next.Some?)
  {
    ListIsOneChain(events);
  }

  /**
   * Against keyset paging of a fixed table the list is always a prefix of the ordered table, in either direction, and
   * so without duplicates; once it says there is no more after a load, it is the whole table.
   */
  lemma ListIsPrefix(f: Format, table: seq<Row>, ascending: bool, events: seq<Event<Row>>)
    requires Ordered(true, table) && Faithful(f, table) && Honest(f, table, ascending, events)
    ensures var v, rows := After(events).view, InOrder(ascending, table);
      && |v.items| <= |rows| && v.items == rows[..|v.items|] && NoDuplicates(v.items)
      && (After(events).taken != [] && !v.hasMore ==> v.items == rows)
  {
    var n := ShownIsPrefix(f, table, ascending, events);
    InOrderIsOrdered(ascending, table);
    OrderedHasNoDuplicates(ascending, InOrder(ascending, table));
    if After(events).taken != [] { LastPageKnows(f, table, ascending, events); }
  }

  lemma LoadMoreAppends<T>(d: Dashboard<T>, page: Page<T>)
    requires MayLoadMore(d.view)
    ensures var w := Turn(Turn(d, LoadMore), Answered(|d.pending|, Got(page))).view;
      && w.items == d.view.items + page.items && w.hasMore == (page.hasMore && page.next.Some?)
      && w.status == Ready && !w.loadingMore
  {
    assert Turn(d, LoadMore).pending[|d.pending|] == Call(true, d.view.generation, d.view.cursor);
  }

  /** Where a list that has more stands: in the middle of the table, at the cursor of its next row. */
  lemma MoreStandsAt(f: Format, table: seq<Row>, ascending: bool, events: seq<Event<Row>>) returns (n: nat)
    requires Ordered(true, table) && Faithful(f, table) && Honest(f, table, ascending, events)
    requires After(events).view.hasMore && After(events).view.status == Ready
    ensures var v, rows := After(events).view, InOrder(ascending, table);
      n < |rows| && v.items == rows[..n] && v.cursor == CursorAfter(f, rows, n)
  {
    ListSaysWhatItWaitsFor(events);
    LastPageKnows(f, table, ascending, events);
    ListIsOneChain(events);
    n := ShownIsPrefix(f, table, ascending, events);
  }

  /** Against a fixed table every page that a load-more brings makes the list longer, until it is the whole table. */
  lemma MoreRowsCome(f: Format, table: seq<Row>, ascending: bool, events: seq<Event<Row>>, page: Page<Row>)
    requires Ordered(true, table) && Faithful(f, table) && Honest(f, table, ascending, events)
    requires MayLoadMore(After(events).view) && IsPage(f, table, ascending, After(events).view.cursor, page)
    ensures var d, rows := After(events), InOrder(ascending, table);
      var w := Turn(Turn(d, LoadMore), Answered(|d.pending|, Got(page))).view;
      && |d.view.items| < |w.items| <= |rows| && w.items == rows[..|w.items|]
      && w.status == Ready && !w.loadingMore && (w.hasMore <==> |w.items| < |rows|)
  {
    var rows := InOrder(ascending, table);
    var n := MoreStandsAt(f, table, ascending, events);
    var m := PageIsNext(f, table, ascending, n, page);
    RowsExtend(f, rows, rows[..n], n, m, page);
    LoadMoreAppends(After(events), page);
  }
}
