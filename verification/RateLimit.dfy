/** The in-memory fixed-window rate limiter: one counting bucket per key, a sweep, and a bound on the number of keys. */
module RateLimit {
  import opened Prelude

  datatype Bucket = Bucket(count: nat, expiresAt: nat)

  /** The buckets and the keys in insertion order; a key written again keeps its place. */
  datatype Store = Store(buckets: map<string, Bucket>, order: seq<string>) {
    ghost predicate Valid() {
      NoDuplicates(order) && forall k :: k in order <==> k in buckets
    }
  }

  datatype Hit = Hit(count: nat, ttl: nat)

  function Dropping(order: seq<string>, gone: set<string>): seq<string> {
    if order == [] then []
    else if order[0] in gone then Dropping(order[1..], gone)
    else [order[0]] + Dropping(order[1..], gone)
  }

  function Expired(s: Store, now: nat): set<string> {
    set k | k in s.buckets && s.buckets[k].expiresAt <= now
  }

  function Drop(s: Store, gone: set<string>): Store {
    Store(s.buckets - gone, Dropping(s.order, gone))
  }

  function Swept(s: Store, now: nat): Store {
    Drop(s, Expired(s, now))
  }

  function Put(s: Store, key: string, b: Bucket): Store {
    Store(s.buckets[key := b], if key in s.buckets then s.order else s.order + [key])
  }

  /** Room for a new key: sweep when full, and drop the oldest key when that did not help. */
  function MakeRoom(s: Store, now: nat, maxEntries: int): Store {
    if |s.buckets| < maxEntries then s
    else
      var t := Swept(s, now);
      if |t.buckets| < maxEntries || t.order == [] then t else Drop(t, {t.order[0]})
  }

  predicate Live(s: Store, key: string, now: nat) {
    key in s.buckets && s.buckets[key].expiresAt > now
  }

  function AfterHit(s: Store, key: string, window: nat, now: nat, maxEntries: int): Store {
    if Live(s, key, now) then Put(s, key, Bucket(s.buckets[key].count + 1, s.buckets[key].expiresAt))
    else Put(if key in s.buckets then s else MakeRoom(s, now, maxEntries), key, Bucket(1, now + window))
  }

  function HitResult(s: Store, key: string, window: nat, now: nat): Hit {
    if Live(s, key, now) then Hit(s.buckets[key].count + 1, s.buckets[key].expiresAt - now) else Hit(1, window)
  }

  class MemoryRateLimitStore {
    var buckets: map<string, Bucket>
    var order: seq<string>
    const maxEntries: int

    constructor (maxEntries: int)
      ensures State() == Store(map[], []) && this.maxEntries == maxEntries
    {
      buckets, order, this.maxEntries := map[], [], maxEntries;
    }

    function State(): Store
      reads this
    {
      Store(buckets, order)
    }

    method Remove(key: string)
      requires State().Valid()
      modifies this
      ensures State() == Drop(old(State()), {key})
    {
      buckets, order := buckets - {key}, Dropping(order, {key});
    }

    /** Goes over the keys and drops the expired ones. */
    method Sweep(now: nat)
      requires State().Valid()
      modifies this
      ensures State() == Swept(old(State()), now) && State().Valid()
    {
      var keys := order;
      ghost var s := State();
      DropNothing(s);
      assert Expired(s, now) * SetOf(keys[..0]) == {};
      for i := 0 to |keys|
        invariant State() == Drop(s, Expired(s, now) * SetOf(keys[..i]))
      {
        SweepStep(s, now, i);
        if buckets[keys[i]].expiresAt <= now { Remove(keys[i]); }
      }
      assert keys[..|keys|] == keys && Expired(s, now) * SetOf(keys) == Expired(s, now);
      DropKeepsValid(s, Expired(s, now));
    }

    method FreeSlot(now: nat)
      requires State().Valid()
      modifies this
      ensures State() == MakeRoom(old(State()), now, maxEntries) && State().Valid()
    {
      if |buckets| >= maxEntries { Sweep(now); } else { return; }
      if |buckets| >= maxEntries && order != [] {
        DropKeepsValid(State(), {order[0]});
        Remove(order[0]);
      }
    }

    method Record(key: string, window: nat, now: nat) returns (hit: Hit)
      requires State().Valid()
      modifies this
      ensures State() == AfterHit(old(State()), key, window, now, maxEntries) && State().Valid()
      ensures hit == HitResult(old(State()), key, window, now)
    {
      if key !in buckets || buckets[key].expiresAt <= now {
        if key !in buckets {
          FreeSlot(now);
          MakeRoomKeepsAbsent(old(State()), now, maxEntries, key);
          order := order + [key];
        }
        buckets := buckets[key := Bucket(0, now + window)];
      }
      buckets := buckets[key := Bucket(buckets[key].count + 1, buckets[key].expiresAt)];
      hit := Hit(buckets[key].count, buckets[key].expiresAt - now);
    }
  }

  lemma MakeRoomKeepsAbsent(s: Store, now: nat, maxEntries: int, key: string)
    requires key !in s.buckets
    ensures key !in MakeRoom(s, now, maxEntries).buckets
  {}

  /** One key of the sweep: dropped when expired, kept otherwise. */
  lemma SweepStep(s: Store, now: nat, i: nat)
    requires s.Valid() && i < |s.order|
    ensures var done, key := Drop(s, Expired(s, now) * SetOf(s.order[..i])), s.order[i];
      && done.Valid() && key in done.buckets && done.buckets[key] == s.buckets[key]
      && Drop(s, Expired(s, now) * SetOf(s.order[..i + 1])) == if s.buckets[key].expiresAt <= now then Drop(done, {key}) else done
  {
    var gone, key := Expired(s, now) * SetOf(s.order[..i]), s.order[i];
    assert SetOf(s.order[..i + 1]) == SetOf(s.order[..i]) + {key} && key !in s.order[..i];
    DropKeepsValid(s, gone);
    DropTwice(s, gone, {key});
    assert Expired(s, now) * SetOf(s.order[..i + 1]) == if s.buckets[key].expiresAt <= now then gone + {key} else gone;
  }

  lemma {:induction false} DroppingFacts(order: seq<string>, gone: set<string>)
    requires NoDuplicates(order)
    ensures NoDuplicates(Dropping(order, gone))
    ensures forall k :: k in Dropping(order, gone) <==> k in order && k !in gone
  {
    if order != [] {
      assert NoDuplicates(order[1..]);
      DroppingFacts(order[1..], gone);
      var rest := Dropping(order[1..], gone);
      assert order == [order[0]] + order[1..];
      assert order[0] !in order[1..];
      assert order[0] !in rest;
    }
  }

  lemma DropKeepsValid(s: Store, gone: set<string>)
    requires s.Valid()
    ensures Drop(s, gone).Valid()
  {
    DroppingFacts(s.order, gone);
  }

  lemma {:induction false} DroppingNothing(order: seq<string>)
    ensures Dropping(order, {}) == order
  {
    if order != [] { DroppingNothing(order[1..]); }
  }

  lemma DropNothing(s: Store)
    ensures Drop(s, {}) == s
  {
    DroppingNothing(s.order);
  }

  lemma {:induction false} DroppingTwice(order: seq<string>, a: set<string>, b: set<string>)
    ensures Dropping(Dropping(order, a), b) == Dropping(order, a + b)
  {
    if order != [] {
      DroppingTwice(order[1..], a, b);
      assert ([order[0]] + Dropping(order[1..], a))[1..] == Dropping(order[1..], a);
    }
  }

  lemma DropTwice(s: Store, a: set<string>, b: set<string>)
    ensures Drop(Drop(s, a), b) == Drop(s, a + b)
  {
    DroppingTwice(s.order, a, b);
    assert s.buckets - a - b == s.buckets - (a + b);
  }

  // ---------------------------------------------------------------- runs

  datatype Event = HitEvent(key: string, time: nat) | SweepEvent(time: nat)

  /** The store after these events; `windows` is the window length of each key. */
  function StoreAfter(events: seq<Event>, windows: string -> nat, maxEntries: int): Store {
    if events == [] then Store(map[], [])
    else
      var s := StoreAfter(events[..|events| - 1], windows, maxEntries);
      match events[|events| - 1]
      case HitEvent(key, time) => AfterHit(s, key, windows(key), time, maxEntries)
      case SweepEvent(time) => Swept(s, time)
  }

  predicate Clock(events: seq<Event>) {
    forall i, j :: 0 <= i < j < |events| ==> events[i].time <= events[j].time
  }

  lemma RoomKeepsValid(s: Store, now: nat, maxEntries: int)
    requires s.Valid() && |s.buckets| <= maxEntries && maxEntries > 0
    ensures MakeRoom(s, now, maxEntries).Valid() && |MakeRoom(s, now, maxEntries).buckets| < maxEntries
  {
    SweepKeepsValid(s, now);
    var t := Swept(s, now);
    if t.order != [] {
      DropKeepsValid(t, {t.order[0]});
      assert t.order[0] in t.buckets && Drop(t, {t.order[0]}).buckets.Keys == t.buckets.Keys - {t.order[0]};
    } else {
      assert t.buckets.Keys == {};
    }
  }

  lemma SweepKeepsValid(s: Store, now: nat)
    requires s.Valid()
    ensures Swept(s, now).Valid() && |Swept(s, now).buckets| <= |s.buckets|
  {
    DropKeepsValid(s, Expired(s, now));
    Smaller(Swept(s, now).buckets.Keys, s.buckets.Keys);
  }

  lemma Smaller<T>(a: set<T>, b: set<T>)
    requires a <= b
    ensures |a| <= |b|
  {
    assert b == a + (b - a) && a !! (b - a);
  }

  lemma PutGrows(s: Store, key: string, b: Bucket)
    requires s.Valid()
    ensures Put(s, key, b).Valid() && |Put(s, key, b).buckets| == |s.buckets| + if key in s.buckets then 0 else 1
  {
    assert Put(s, key, b).buckets.Keys == s.buckets.Keys + {key};
    if key in s.buckets { assert s.buckets.Keys + {key} == s.buckets.Keys; }
  }

  /** However many keys come by, the map never holds more than a positive `maxEntries` of them. */
  lemma {:induction false} StoreStaysBounded(events: seq<Event>, windows: string -> nat, maxEntries: int)
    requires maxEntries > 0
    ensures StoreAfter(events, windows, maxEntries).Valid() && |StoreAfter(events, windows, maxEntries).buckets| <= maxEntries
  {
    if events != [] {
      StoreStaysBounded(events[..|events| - 1], windows, maxEntries);
      var s, e := StoreAfter(events[..|events| - 1], windows, maxEntries), events[|events| - 1];
      if e.SweepEvent? {
        SweepKeepsValid(s, e.time);
      } else {
        HitStaysBounded(s, e.key, windows(e.key), e.time, maxEntries);
      }
    }
  }

  lemma HitStaysBounded(s: Store, key: string, window: nat, now: nat, maxEntries: int)
    requires s.Valid() && |s.buckets| <= maxEntries && maxEntries > 0
    ensures AfterHit(s, key, window, now, maxEntries).Valid() && |AfterHit(s, key, window, now, maxEntries).buckets| <= maxEntries
  {
    RoomKeepsValid(s, now, maxEntries);
    if Live(s, key, now) {
      PutGrows(s, key, Bucket(s.buckets[key].count + 1, s.buckets[key].expiresAt));
    } else {
      PutGrows(if key in s.buckets then s else MakeRoom(s, now, maxEntries), key, Bucket(1, now + window));
    }
  }

  // ---------------------------------------------------------------- what a result depends on

  /** The times at which a key was hit. */
  function HitsOf(events: seq<Event>, key: string): seq<nat> {
    if events == [] then []
    else
      var e := events[|events| - 1];
      HitsOf(events[..|events| - 1], key) + (if e.HitEvent? && e.key == key then [e.time] else [])
  }

  function LiveAt(b: Option<Bucket>, now: nat): Option<Bucket> {
    if b.Some? && b.value.expiresAt > now then b else None
  }

  /** The bucket of a key that nothing but its own hits ever touches. */
  function WindowOf(times: seq<nat>, window: nat): Option<Bucket> {
    if times == [] then None
    else
      var now := times[|times| - 1];
      match LiveAt(WindowOf(times[..|times| - 1], window), now)
      case Some(b) => Some(Bucket(b.count + 1, b.expiresAt))
      case None => Some(Bucket(1, now + window))
  }

  function Lookup(s: Store, key: string): Option<Bucket> {
    if key in s.buckets then Some(s.buckets[key]) else None
  }

  /** No hit of the run had to drop a live key to make room. */
  predicate NoEviction(events: seq<Event>, windows: string -> nat, maxEntries: int) {
    forall i :: 0 <= i < |events| ==> EvictsNothing(StoreAfter(events[..i], windows, maxEntries), events[i], maxEntries)
  }

  predicate EvictsNothing(s: Store, e: Event, maxEntries: int) {
    e.HitEvent? ==> e.key in s.buckets || MakeRoom(s, e.time, maxEntries) in {s, Swept(s, e.time)}
  }

  lemma InitRun(events: seq<Event>, windows: string -> nat, maxEntries: int)
    requires Clock(events) && NoEviction(events, windows, maxEntries) && events != []
    ensures var n := |events| - 1;
      && Clock(events[..n]) && NoEviction(events[..n], windows, maxEntries)
      && EvictsNothing(StoreAfter(events[..n], windows, maxEntries), events[n], maxEntries)
      && forall i :: 0 <= i < n ==> events[..n][i].time <= events[n].time
  {
    var n := |events| - 1;
    forall i | 0 <= i < n ensures EvictsNothing(StoreAfter(events[..n][..i], windows, maxEntries), events[..n][i], maxEntries) {
      assert events[..n][..i] == events[..i];
    }
  }

  /** Another key's hit, or a sweep, leaves the live bucket of a key alone. */
  lemma OthersDoNotShow(s: Store, e: Event, window: nat, maxEntries: int, key: string, now: nat)
    requires e.time <= now && (e.HitEvent? ==> e.key != key)
    requires EvictsNothing(s, e, maxEntries)
    ensures var next := if e.HitEvent? then AfterHit(s, e.key, window, e.time, maxEntries) else Swept(s, e.time);
      LiveAt(Lookup(next, key), now) == LiveAt(Lookup(s, key), now)
  {}

  lemma OwnHitShows(s: Store, key: string, window: nat, time: nat, maxEntries: int)
    ensures Lookup(AfterHit(s, key, window, time, maxEntries), key) == Some(
      match LiveAt(Lookup(s, key), time)
      case Some(b) => Bucket(b.count + 1, b.expiresAt)
      case None => Bucket(1, time + window))
  {}

  lemma HitsOfLast(events: seq<Event>, key: string)
    requires events != []
    ensures var n := |events| - 1;
      HitsOf(events, key) == if events[n].HitEvent? && events[n].key == key then HitsOf(events[..n],
          key) + [events[n].time]
        else HitsOf(events[..n], key)
  {}

  lemma WindowOfLast(times: seq<nat>, now: nat, window: nat)
    ensures WindowOf(times + [now], window) == Some(
      match LiveAt(WindowOf(times, window), now)
      case Some(b) => Bucket(b.count + 1, b.expiresAt)
      case None => Bucket(1, now + window))
  {
    assert (times + [now])[..|times|] == times;
  }

  /**
   * As long as nothing is evicted, the live bucket of a key is what its own hits made it: the other keys, sweeps and
   * the housekeeping of other hits never show.
   */
  lemma {:induction false} OnlyOwnHitsCount(events: seq<Event>, windows: string -> nat, maxEntries: int, key: string,
      now: nat)
    requires Clock(events) && NoEviction(events, windows, maxEntries)
    requires forall i :: 0 <= i < |events| ==> events[i].time <= now
    ensures LiveAt(Lookup(StoreAfter(events, windows, maxEntries), key), now) == LiveAt(WindowOf(HitsOf(events, key), windows(key)), now)
    decreases |events|
  {
    if events != [] {
      var n := |events| - 1;
      var init, e := events[..n], events[n];
      var s := StoreAfter(init, windows, maxEntries);
      InitRun(events, windows, maxEntries);
      HitsOfLast(events, key);
      if e.HitEvent? && e.key == key {
        OnlyOwnHitsCount(init, windows, maxEntries, key, e.time);
        OwnHitCounts(s, HitsOf(init, key), key, windows(key), e.time, maxEntries, now);
      } else {
        OnlyOwnHitsCount(init, windows, maxEntries, key, now);
        OthersDoNotShow(s, e, if e.HitEvent? then windows(e.key) else 0, maxEntries, key, now);
      }
    }
  }

  lemma OwnHitCounts(s: Store, times: seq<nat>, key: string, window: nat, time: nat, maxEntries: int, now: nat)
    requires LiveAt(Lookup(s, key), time) == LiveAt(WindowOf(times, window), time)
    ensures LiveAt(Lookup(AfterHit(s, key, window, time, maxEntries), key), now) == LiveAt(WindowOf(times + [time], window), now)
  {
    OwnHitShows(s, key, window, time, maxEntries);
    WindowOfLast(times, time, window);
  }

  /** A hit answers from the hits of its own key alone; in particular sweeping, whenever it happens, changes no answer. */
  lemma HitAnswersFromOwnHits(events: seq<Event>, windows: string -> nat, maxEntries: int, key: string, now: nat)
    requires Clock(events) && NoEviction(events, windows, maxEntries)
    requires forall i :: 0 <= i < |events| ==> events[i].time <= now
    ensures var b := WindowOf(HitsOf(events, key) + [now], windows(key)).value;
      HitResult(StoreAfter(events, windows, maxEntries), key, windows(key), now) == Hit(b.count, b.expiresAt - now)
  {
    OnlyOwnHitsCount(events, windows, maxEntries, key, now);
    WindowOfLast(HitsOf(events, key), now, windows(key));
  }

  /** Two runs with the same hits of a key, swept whenever they like, answer its next hit alike. */
  lemma SweepsChangeNoAnswer(a: seq<Event>, b: seq<Event>, windows: string -> nat, maxEntries: int, key: string, now: nat)
    requires Clock(a) && NoEviction(a, windows, maxEntries) && forall i :: 0 <= i < |a| ==> a[i].time <= now
    requires Clock(b) && NoEviction(b, windows, maxEntries) && forall i :: 0 <= i < |b| ==> b[i].time <= now
    requires HitsOf(a, key) == HitsOf(b, key)
    ensures HitResult(StoreAfter(a, windows, maxEntries), key, windows(key), now)
      == HitResult(StoreAfter(b, windows, maxEntries), key, windows(key), now)
  {
    HitAnswersFromOwnHits(a, windows, maxEntries, key, now);
    HitAnswersFromOwnHits(b, windows, maxEntries, key, now);
  }

  // ---------------------------------------------------------------- the bound

  predicate Rising(times: seq<nat>) {
    forall i, j :: 0 <= i < j < |times| ==> times[i] <= times[j]
  }

  /** The bucket right after the i-th hit; its count is what that hit was answered. */
  function BucketAt(times: seq<nat>, window: nat, i: nat): Bucket
    requires i < |times|
  {
    WindowOf(times[..i + 1], window).value
  }

  lemma BucketStep(times: seq<nat>, window: nat, i: nat)
    requires i < |times|
    ensures BucketAt(times, window, i) ==
      if i > 0 && BucketAt(times, window, i - 1).expiresAt > times[i] then
        Bucket(BucketAt(times, window, i - 1).count + 1, BucketAt(times, window, i - 1).expiresAt)
      else Bucket(1, times[i] + window)
  {
    assert times[..i + 1][..i] == times[..i];
    if i == 0 { assert WindowOf(times[..0], window) == None; }
  }

  /** A later hit falls into the same window, with a higher count, or into one that ends a whole window later. */
  lemma {:induction false} LaterBucket(times: seq<nat>, window: nat, i: nat, j: nat)
    requires Rising(times) && i <= j < |times|
    ensures var b, c := BucketAt(times, window, i), BucketAt(times, window, j);
      && b.expiresAt <= times[i] + window
      && (if times[j] < b.expiresAt || j == i then c.expiresAt == b.expiresAt && c.count == b.count + (j - i)
          else c.expiresAt >= b.expiresAt + window)
      && c.count >= 1
    decreases j
  {
    BucketStep(times, window, j);
    if j > i {
      LaterBucket(times, window, i, j - 1);
    } else if i > 0 {
      LaterBucket(times, window, i - 1, i - 1);
    }
  }

  /** The count of a hit is its place among the hits since the one that opened its window. */
  lemma {:induction false} CountIsPlace(times: seq<nat>, window: nat, j: nat)
    requires Rising(times) && j < |times|
    ensures var b := BucketAt(times, window, j);
      && 1 <= b.count <= j + 1
      && b.expiresAt == times[j + 1 - b.count] + window
      && (b.count > 1 ==> times[j] < b.expiresAt)
    decreases j
  {
    BucketStep(times, window, j);
    if j > 0 { CountIsPlace(times, window, j - 1); }
  }

  /** A hit is refused only when more than `limit` hits of its key, itself included, fall within one window's length. */
  lemma RefusedOnlyOverLimit(times: seq<nat>, window: nat, limit: nat, j: nat)
    requires Rising(times) && j < |times| && limit >= 1 && BucketAt(times, window, j).count > limit
    ensures j >= limit && times[j] < times[j - limit] + window
  {
    CountIsPlace(times, window, j);
  }

  /** Indices whose counts rise with them stay as few as the counts allow. */
  lemma {:induction false} RisingCounts(s: set<nat>, counts: seq<nat>, top: nat)
    requires forall i :: i in s ==> i < |counts| && 1 <= counts[i] <= top
    requires forall i, j :: i in s && j in s && i < j ==> counts[i] < counts[j]
    ensures |s| <= top
    decreases top
  {
    if s != {} {
      var last := Greatest(s);
      var rest := s - {last};
      assert |s| == |rest| + 1;
      RisingCounts(rest, counts, top - 1);
    }
  }

  lemma {:induction false} Greatest(s: set<nat>) returns (m: nat)
    requires s != {}
    ensures m in s && forall i :: i in s ==> i <= m
  {
    var x :| x in s;
    m := x;
    if s != {x} {
      var n := Greatest(s - {x});
      m := if n > x then n else x;
    }
    assert forall i :: i in s ==> i == x || i in s - {x};
  }

  lemma {:induction false} Least(s: set<nat>) returns (m: nat)
    requires s != {}
    ensures m in s && forall i :: i in s ==> m <= i
  {
    var x :| x in s;
    m := x;
    if s != {x} {
      var n := Least(s - {x});
      m := if n < x then n else x;
    }
    assert forall i :: i in s ==> i == x || i in s - {x};
  }

  /** The allowed hits among the given ones: those answered with a count of at most `limit`. */
  function AllowedIn(times: seq<nat>, window: nat, limit: nat, from: nat): set<nat> {
    set i | 0 <= i < |times| && from <= times[i] < from + window && BucketAt(times, window, i).count <= limit
  }

  /** Hits of one window are allowed at most `limit` times. */
  lemma OneWindow(times: seq<nat>, window: nat, limit: nat, s: set<nat>, first: nat)
    requires Rising(times) && first < |times|
    requires forall i :: i in s ==> first <= i < |times| && BucketAt(times, window, i).count <= limit
    requires forall i :: i in s ==> times[i] < BucketAt(times, window, first).expiresAt
    ensures |s| <= limit
  {
    var counts := seq(|times|, i requires 0 <= i < |times| => BucketAt(times, window, i).count);
    forall i | i in s ensures counts[i] >= 1 { LaterBucket(times, window, i, i); }
    forall i, j | i in s && j in s && i < j ensures counts[i] < counts[j] {
      LaterBucket(times, window, first, i);
      LaterBucket(times, window, i, j);
    }
    RisingCounts(s, counts, limit);
  }

  /** In any interval of one window's length a key is allowed at most twice the limit, whatever its hits were. */
  lemma AtMostTwiceTheLimit(times: seq<nat>, window: nat, limit: nat, from: nat)
    requires Rising(times)
    ensures |AllowedIn(times, window, limit, from)| <= 2 * limit
  {
    var all := AllowedIn(times, window, limit, from);
    if all != {} {
      var p := Least(all);
      LaterBucket(times, window, p, p);
      BucketStep(times, window, p);
      var ends := BucketAt(times, window, p).expiresAt;
      var early, late := set i | i in all && times[i] < ends, set i | i in all && times[i] >= ends;
      assert all == early + late && early !! late;
      OneWindow(times, window, limit, early, p);
      if late != {} {
        var r := Least(late);
        LaterBucket(times, window, p, r);
        OneWindow(times, window, limit, late, r);
      }
    }
  }

  // ---------------------------------------------------------------- the bound over runs of the store

  predicate HitsKey(e: Event, key: string) {
    e.HitEvent? && e.key == key
  }

  /** What a hit of the run was answered. */
  function AnswerAt(events: seq<Event>, windows: string -> nat, maxEntries: int, i: nat): Hit
    requires i < |events| && events[i].HitEvent?
  {
    HitResult(StoreAfter(events[..i], windows, maxEntries), events[i].key, windows(events[i].key), events[i].time)
  }

  /** How many hits of the key came before the i-th event. */
  function PlaceOf(events: seq<Event>, key: string, i: nat): nat
    requires i <= |events|
  {
    |HitsOf(events[..i], key)|
  }

  lemma {:induction false} HitsOfPrefix(events: seq<Event>, key: string, i: nat)
    requires i <= |events|
    ensures HitsOf(events[..i], key) <= HitsOf(events, key)
    decreases |events|
  {
    if i == |events| {
      assert events[..i] == events;
    } else {
      var init := events[..|events| - 1];
      HitsOfPrefix(init, key, i);
      assert init[..i] == events[..i];
      HitsOfLast(events, key);
    }
  }

  /** The i-th event's place among the hits of its key, and its time there. */
  lemma PlaceFacts(events: seq<Event>, key: string, i: nat)
    requires i < |events| && HitsKey(events[i], key)
    ensures var times, j := HitsOf(events, key), PlaceOf(events, key, i);
      && j < |times| && times[j] == events[i].time
      && times[..j] == HitsOf(events[..i], key) && times[..j + 1] == HitsOf(events[..i], key) + [events[i].time]
      && PlaceOf(events, key, i + 1) == j + 1
  {
    HitsOfPrefix(events, key, i + 1);
    assert events[..i + 1][..i] == events[..i];
    HitsOfLast(events[..i + 1], key);
    BeginsWith(HitsOf(events, key), HitsOf(events[..i], key), events[i].time);
  }

  lemma BeginsWith(times: seq<nat>, before: seq<nat>, t: nat)
    requires before + [t] <= times
    ensures |before| < |times| && times[|before|] == t
    ensures times[..|before|] == before && times[..|before| + 1] == before + [t]
  {
    assert times[..|before + [t]|] == before + [t];
  }

  lemma {:induction false} PlacesRise(events: seq<Event>, key: string, i: nat, k: nat)
    requires i < k <= |events| && HitsKey(events[i], key)
    ensures PlaceOf(events, key, i) < PlaceOf(events, key, k)
  {
    PlaceFacts(events, key, i);
    HitsOfPrefix(events[..k], key, i + 1);
    assert events[..k][..i + 1] == events[..i + 1];
  }

  lemma {:induction false} HitsRise(events: seq<Event>, key: string)
    requires Clock(events)
    ensures Rising(HitsOf(events, key))
    ensures forall t :: t in HitsOf(events, key) ==> exists i :: 0 <= i < |events| && events[i].time == t
  {
    if events != [] {
      var n := |events| - 1;
      HitsRise(events[..n], key);
      HitsOfLast(events, key);
      var earlier := HitsOf(events[..n], key);
      forall t | t in earlier ensures t <= events[n].time && exists i :: 0 <= i < |events| && events[i].time == t {
        var i :| 0 <= i < n && events[..n][i].time == t;
        assert events[i].time == t;
      }
      forall i | 0 <= i < |earlier| ensures earlier[i] <= events[n].time { assert earlier[i] in earlier; }
    }
  }

  lemma PrefixIsCalm(events: seq<Event>, windows: string -> nat, maxEntries: int, i: nat)
    requires Clock(events) && NoEviction(events, windows, maxEntries) && i < |events|
    ensures Clock(events[..i]) && NoEviction(events[..i], windows, maxEntries)
    ensures forall n :: 0 <= n < i ==> events[..i][n].time <= events[i].time
  {
    forall n | 0 <= n < i ensures EvictsNothing(StoreAfter(events[..i][..n], windows, maxEntries), events[..i][n], maxEntries) {
      assert events[..i][..n] == events[..n];
    }
  }

  /** In a run without eviction a hit is answered the count it has among the hits of its key. */
  lemma AnswerIsCount(events: seq<Event>, windows: string -> nat, maxEntries: int, key: string, i: nat)
    requires Clock(events) && NoEviction(events, windows, maxEntries) && i < |events| && HitsKey(events[i], key)
    ensures var times, j := HitsOf(events, key), PlaceOf(events, key, i);
      j < |times| && times[j] == events[i].time
      && AnswerAt(events, windows, maxEntries, i).count == BucketAt(times, windows(key), j).count
  {
    PlaceFacts(events, key, i);
    PrefixIsCalm(events, windows, maxEntries, i);
    HitAnswersFromOwnHits(events[..i], windows, maxEntries, key, events[i].time);
  }

  /** The hits of a key within one window's length that were answered with a count of at most `limit`. */
  function AllowedHits(events: seq<Event>, windows: string -> nat, maxEntries: int, key: string, limit: nat, from: nat): set<nat> {
    set i | 0 <= i < |events| && HitsKey(events[i], key) && from <= events[i].time < from + windows(key)
      && AnswerAt(events, windows, maxEntries, i).count <= limit
  }

  lemma {:induction false} ImageSize(s: set<nat>, places: map<nat, nat>, t: set<nat>)
    requires s <= places.Keys && forall i :: i in s ==> places[i] in t
    requires forall i, j :: i in s && j in s && i < j ==> places[i] < places[j]
    ensures |s| <= |t|
    decreases s
  {
    if s != {} {
      var i :| i in s;
      ImageSize(s - {i}, places, t - {places[i]});
    }
  }

  /**
   * Over every run of the store in which nothing is evicted, with any sweeps and any hits of other keys in between: in
   * any interval of one window's length a key is allowed at most twice the limit.
   */
  lemma RunAllowsAtMostTwice(events: seq<Event>, windows: string -> nat, maxEntries: int, key: string, limit: nat, from: nat)
    requires Clock(events) && NoEviction(events, windows, maxEntries)
    ensures |AllowedHits(events, windows, maxEntries, key, limit, from)| <= 2 * limit
  {
    var hits, times := AllowedHits(events, windows, maxEntries, key, limit, from), HitsOf(events, key);
    var places := map i | i in hits :: PlaceOf(events, key, i);
    HitsRise(events, key);
    AtMostTwiceTheLimit(times, windows(key), limit, from);
    forall i | i in hits ensures places[i] in AllowedIn(times, windows(key), limit, from) {
      AnswerIsCount(events, windows, maxEntries, key, i);
    }
    forall i, j | i in hits && j in hits && i < j ensures places[i] < places[j] { PlacesRise(events, key, i, j); }
    ImageSize(hits, places, AllowedIn(times, windows(key), limit, from));
  }

  lemma TakenAt(times: seq<nat>, before: seq<nat>, j: nat, i: nat)
    requires i < j <= |times| && before == times[..j]
    ensures before[i] == times[i]
  {}

  /** A hit of such a run is refused only when the last `limit` hits of its key before it fall within one window of it. */
  lemma RunRefusesOnlyOverLimit(events: seq<Event>, windows: string -> nat, maxEntries: int, key: string, limit: nat, i: nat)
    requires Clock(events) && NoEviction(events, windows, maxEntries) && limit >= 1
    requires i < |events| && HitsKey(events[i], key) && AnswerAt(events, windows, maxEntries, i).count > limit
    ensures var before := HitsOf(events[..i], key);
      |before| >= limit && events[i].time < before[|before| - limit] + windows(key)
  {
    var times, j := HitsOf(events, key), PlaceOf(events, key, i);
    PlaceFacts(events, key, i);
    AnswerIsCount(events, windows, maxEntries, key, i);
    HitsRise(events, key);
    RefusedOnlyOverLimit(times, windows(key), limit, j);
    TakenAt(times, HitsOf(events[..i], key), j, j - limit);
  }

  // ---------------------------------------------------------------- eviction

  /** Every key in the order before this one has expired. */
  predicate OldestLive(s: Store, key: string, now: nat) {
    exists i :: 0 <= i < |s.order| && IsFirstLive(s, key, now, i)
  }

  predicate IsFirstLive(s: Store, key: string, now: nat, i: nat) {
    i < |s.order| && s.order[i] == key && Live(s, key, now) && forall j :: 0 <= j < i ==> !Live(s, s.order[j], now)
  }

  lemma {:induction false} FirstKept(order: seq<string>, gone: set<string>, i: nat)
    requires i < |order| && order[i] !in gone && forall j :: 0 <= j < i ==> order[j] in gone
    ensures Dropping(order, gone) != [] && Dropping(order, gone)[0] == order[i]
  {
    if i > 0 { FirstKept(order[1..], gone, i - 1); }
  }

  lemma {:induction false} FirstKeptAt(order: seq<string>, gone: set<string>) returns (i: nat)
    requires Dropping(order, gone) != []
    ensures i < |order| && order[i] == Dropping(order, gone)[0] && order[i] !in gone && forall j :: 0 <= j < i ==> order[j] in gone
  {
    if order[0] in gone {
      i := FirstKeptAt(order[1..], gone);
      assert forall j :: 1 <= j < i + 1 ==> order[j] == order[1..][j - 1];
      i := i + 1;
    } else {
      i := 0;
    }
  }

  /** The first key that a sweep keeps is the oldest live one. */
  lemma SweepKeepsOldest(s: Store, key: string, now: nat)
    requires s.Valid() && Live(s, key, now)
    ensures Swept(s, now).order != [] && (Swept(s, now).order[0] == key <==> OldestLive(s, key, now))
  {
    var gone := Expired(s, now);
    DroppingFacts(s.order, gone);
    assert key in Swept(s, now).order;
    var i := FirstKeptAt(s.order, gone);
    if s.order[i] == key { assert IsFirstLive(s, key, now, i); }
    if OldestLive(s, key, now) {
      var k: nat :| k < |s.order| && IsFirstLive(s, key, now, k);
      forall j | 0 <= j < k ensures s.order[j] in gone { assert s.order[j] in s.order; }
      FirstKept(s.order, gone, k);
    }
  }

  /**
   * A hit of another key makes a live bucket forget its count exactly when that key is new, the live buckets alone fill
   * the map, and this one is the oldest of them.
   */
  lemma ForgetsExactly(s: Store, key: string, other: string, window: nat, now: nat, maxEntries: int)
    requires s.Valid() && Live(s, key, now) && other != key
    ensures Lookup(AfterHit(s, other, window, now, maxEntries), key) ==
      if other !in s.buckets && |Swept(s, now).buckets| >= maxEntries && OldestLive(s, key, now) then None else Lookup(s, key)
  {
    SweepKeepsOldest(s, key, now);
    SweepKeepsValid(s, now);
    var t := Swept(s, now);
    assert Lookup(t, key) == Lookup(s, key);
    if !Live(s, other, now) && other !in s.buckets {
      var room := MakeRoom(s, now, maxEntries);
      assert Lookup(AfterHit(s, other, window, now, maxEntries), key) == Lookup(room, key);
      assert room == if |s.buckets| < maxEntries then s else if |t.buckets| < maxEntries then t else Drop(t, {t.order[0]});
      assert |t.buckets| >= maxEntries ==> (Lookup(room, key) == if t.order[0] == key then None else Lookup(s, key));
    }
  }
}
