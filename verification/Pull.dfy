/** Pulling the log page by page. */
module Pull {
  import opened Prelude
  import opened Rows
  import opened Journal
  import opened Features

  /** The size in characters of a payload as JSON text; any function will do. */
  type Sizes = Payload -> nat

  datatype Page = Page(operations: seq<Entry>, checkpoint: nat, hasMore: bool)

  const ENTRY_OVERHEAD: nat := 300

  function Min(a: nat, b: nat): nat {
    if a < b then a else b
  }

  /** How many leading entries stay within the byte cap, the first one always counting. */
  function Fitting(page: seq<Entry>, i: nat, bytes: nat, cap: nat, size: Sizes): (n: nat)
    requires i <= |page|
    ensures i <= n <= |page| && (page != [] ==> n >= 1)
    decreases |page| - i
  {
    if i == |page| then i
    else
      var total := bytes + size(page[i].payload) + ENTRY_OVERHEAD;
      if total > cap && i > 0 then i else Fitting(page, i + 1, total, cap, size)
  }

  function SizeOf(entries: seq<Entry>, size: Sizes): nat {
    if entries == [] then 0
    else SizeOf(entries[..|entries| - 1], size) + size(entries[|entries| - 1].payload) + ENTRY_OVERHEAD
  }

  lemma SizeOfNext(page: seq<Entry>, i: nat, size: Sizes)
    requires i < |page|
    ensures SizeOf(page[..i + 1], size) == SizeOf(page[..i], size) + size(page[i].payload) + ENTRY_OVERHEAD
  {
    assert page[..i + 1][..i] == page[..i];
  }

  /** The count of entries that fit is the largest within the cap, except that one entry always fits. */
  lemma {:induction false} FittingIsLargest(page: seq<Entry>, i: nat, bytes: nat, cap: nat, size: Sizes)
    requires i <= |page| && bytes == SizeOf(page[..i], size) && (i <= 1 || bytes <= cap)
    ensures var n := Fitting(page, i, bytes, cap, size);
      && (n <= 1 || SizeOf(page[..n], size) <= cap)
      && (n < |page| ==> SizeOf(page[..n + 1], size) > cap)
    decreases |page| - i
  {
    if i < |page| {
      SizeOfNext(page, i, size);
      var total := bytes + size(page[i].payload) + ENTRY_OVERHEAD;
      if total <= cap || i == 0 { FittingIsLargest(page, i + 1, total, cap, size); }
    }
  }

  /** How many entries the page after checkpoint `after` holds. */
  function PageCount(log: seq<Entry>, after: nat, limit: nat, cap: nat, size: Sizes): (n: nat)
    ensures after <= |log| ==> after + n <= |log|
    ensures after > |log| ==> n == 0
    ensures n <= limit
    ensures after < |log| && limit > 0 ==> n >= 1
  {
    if after >= |log| then 0
    else Fitting(log[after..after + Min(limit, |log| - after)], 0, 0, cap, size)
  }

  /**
   * One page: the next entries as far as limit and byte cap allow, the visible ones shaped. The checkpoint moves past
   * hidden ones too, and there is more exactly when the page stops before the end of the log.
   */
  function PullPage(log: seq<Entry>, after: nat, limit: nat, cap: nat, size: Sizes, features: set<Feature>): Page {
    var n := PageCount(log, after, limit, cap, size);
    if after > |log| then Page([], after, false)
    else Page(ShapeLog(log[after..after + n], features), after + n, after + n < |log|)
  }

  /** Every page makes progress while there is any, and says so when it ends. */
  lemma PageProgress(log: seq<Entry>, after: nat, limit: nat, cap: nat, size: Sizes, features: set<Feature>)
    requires limit >= 1
    ensures var p := PullPage(log, after, limit, cap, size, features);
      && after <= p.checkpoint <= after + limit
      && (after < |log| ==> after < p.checkpoint <= |log|)
      && (p.hasMore <==> p.checkpoint < |log|)
  {}

  /** A page stops before the end of the log only at its limit, or where one more entry would pass the byte cap. */
  lemma PageIsFull(log: seq<Entry>, after: nat, limit: nat, cap: nat, size: Sizes, features: set<Feature>)
    requires limit >= 1 && after <= |log|
    ensures var end := PullPage(log, after, limit, cap, size, features).checkpoint;
      && after <= end <= |log|
      && (end > after + 1 ==> SizeOf(log[after..end], size) <= cap)
      && (end < |log| ==> end == after + limit || SizeOf(log[after..end + 1], size) > cap)
  {
    if after < |log| {
      var m := Min(limit, |log| - after);
      var page, n := log[after..after + m], PageCount(log, after, limit, cap, size);
      FittingIsLargest(page, 0, 0, cap, size);
      SliceOfSlice(log, after, m, n);
      if n < m { SliceOfSlice(log, after, m, n + 1); }
    }
  }

  // ---------------------------------------------------------------- what the entries say

  /**
   * The operations are the visible entries numbered above `from` up to `end`, in order and each once; each is its entry of
   * the log in everything but the payload, which is shaped.
   */
  ghost predicate Delivered(log: seq<Entry>, from: nat, end: nat, features: set<Feature>, operations: seq<Entry>)
    requires from <= end <= |log|
  {
    && (forall i :: 0 <= i < |operations| ==> IsEntry(log, from, end, features, operations[i]))
    && (forall i, j :: 0 <= i < j < |operations| ==> operations[i].number < operations[j].number)
    && (forall m :: from <= m < end && Visible(log[m].key.kind, features) ==> Numbers(operations, m + 1))
  }

  predicate Numbers(operations: seq<Entry>, n: nat) {
    exists i :: 0 <= i < |operations| && operations[i].number == n
  }

  predicate IsEntry(log: seq<Entry>, from: nat, end: nat, features: set<Feature>, e: Entry)
    requires from <= end <= |log|
  {
    && from < e.number <= end && Visible(e.key.kind, features)
    && var was := log[e.number - 1];
       e == Entry(was.number, was.operation, was.key, was.change, was.version, Shape(was.key.kind, was.payload, features),
         was.client, was.base)
  }

  lemma NumbersMore(operations: seq<Entry>, e: Entry, n: nat)
    requires Numbers(operations, n) || e.number == n
    ensures Numbers(operations + [e], n)
  {
    var more := operations + [e];
    if Numbers(operations, n) {
      var i :| 0 <= i < |operations| && operations[i].number == n;
      assert more[i].number == n;
    } else {
      assert more[|operations|].number == n;
    }
  }

  lemma DeliveredNext(log: seq<Entry>, from: nat, end: nat, features: set<Feature>, operations: seq<Entry>)
    requires Numbered(log) && from <= end < |log| && Delivered(log, from, end, features, operations)
    requires Visible(log[end].key.kind, features)
    ensures Delivered(log, from, end + 1, features, operations + [ShapeEntry(log[end], features)])
  {
    var e := ShapeEntry(log[end], features);
    var more := operations + [e];
    forall i | 0 <= i < |more| ensures IsEntry(log, from, end + 1, features, more[i]) && more[i].number <= end + 1
      && (i < |operations| ==> more[i].number <= end)
    {
      if i < |operations| { assert IsEntry(log, from, end, features, operations[i]); }
    }
    forall m | from <= m < end + 1 && Visible(log[m].key.kind, features) ensures Numbers(more, m + 1) {
      NumbersMore(operations, e, m + 1);
    }
  }

  lemma HiddenNext(log: seq<Entry>, from: nat, end: nat, features: set<Feature>, operations: seq<Entry>)
    requires from <= end < |log| && Delivered(log, from, end, features, operations)
    requires !Visible(log[end].key.kind, features)
    ensures Delivered(log, from, end + 1, features, operations)
  {
    forall i | 0 <= i < |operations| ensures IsEntry(log, from, end + 1, features, operations[i]) {
      assert IsEntry(log, from, end, features, operations[i]);
    }
  }

  lemma ShapeLogNext(log: seq<Entry>, from: nat, end: nat, features: set<Feature>)
    requires from <= end < |log|
    ensures var sofar := ShapeLog(log[from..end], features);
      ShapeLog(log[from..end + 1], features)
        == if Visible(log[end].key.kind, features) then sofar + [ShapeEntry(log[end], features)] else sofar
  {
    SliceOfSlice(log, from, end + 1 - from, end - from);
  }

  lemma {:induction false} ShapedIsDelivered(log: seq<Entry>, from: nat, end: nat, features: set<Feature>)
    requires Numbered(log) && from <= end <= |log|
    ensures Delivered(log, from, end, features, ShapeLog(log[from..end], features))
    decreases end
  {
    if end > from {
      ShapedIsDelivered(log, from, end - 1, features);
      ShapeLogNext(log, from, end - 1, features);
      NextIsDelivered(log, from, end - 1, features, ShapeLog(log[from..end - 1], features), ShapeLog(log[from..end], features));
    } else {
      NothingIsDelivered(log, from, features, ShapeLog(log[from..end], features));
    }
  }

  lemma NothingIsDelivered(log: seq<Entry>, from: nat, features: set<Feature>, operations: seq<Entry>)
    requires from <= |log| && operations == []
    ensures Delivered(log, from, from, features, operations)
  {}

  lemma NextIsDelivered(log: seq<Entry>, from: nat, end: nat, features: set<Feature>, sofar: seq<Entry>, next: seq<Entry>)
    requires Numbered(log) && from <= end < |log| && Delivered(log, from, end, features, sofar)
    requires next == if Visible(log[end].key.kind, features) then sofar + [ShapeEntry(log[end], features)] else sofar
    ensures Delivered(log, from, end + 1, features, next)
  {
    if Visible(log[end].key.kind, features) {
      DeliveredNext(log, from, end, features, sofar);
    } else {
      HiddenNext(log, from, end, features, sofar);
    }
  }

  /** One page sends what was logged after the checkpoint asked for, up to the checkpoint it answers. */
  lemma PageSendsTheLog(log: seq<Entry>, after: nat, limit: nat, cap: nat, size: Sizes, features: set<Feature>)
    requires Numbered(log) && after <= |log|
    ensures var p := PullPage(log, after, limit, cap, size, features);
      p.checkpoint <= |log| && after <= p.checkpoint && Delivered(log, after, p.checkpoint, features, p.operations)
  {
    ShapedIsDelivered(log, after, PullPage(log, after, limit, cap, size, features).checkpoint, features);
  }

  lemma ShapeLogInTwo(log: seq<Entry>, a: nat, b: nat, c: nat, features: set<Feature>)
    requires a <= b <= c <= |log|
    ensures ShapeLog(log[a..c], features) == ShapeLog(log[a..b], features) + ShapeLog(log[b..c], features)
  {
    assert log[a..c] == log[a..b] + log[b..c];
    ShapeLogOfConcat(log[a..b], log[b..c], features);
  }

  datatype Download = Download(operations: seq<Entry>, checkpoint: nat, hasMore: bool)

  /** Repeated pulls, each with its own limit, until the server says there is no more. */
  function PullAll(log: seq<Entry>, after: nat, limits: seq<nat>, cap: nat, size: Sizes, features: set<Feature>): Download
    decreases |limits|
  {
    if limits == [] then Download([], after, true)
    else
      var p := PullPage(log, after, limits[0], cap, size, features);
      if !p.hasMore then Download(p.operations, p.checkpoint, false)
      else
        var rest := PullAll(log, p.checkpoint, limits[1..], cap, size, features);
        Download(p.operations + rest.operations, rest.checkpoint, rest.hasMore)
  }

  /**
   * Whatever the limits and the byte cap, repeated pulls deliver the visible entries after the starting checkpoint in
   * order, each once, and reach the end of the log after at most as many pages as there are entries.
   */
  lemma {:induction false} PullsDeliverTheLog(log: seq<Entry>, after: nat, limits: seq<nat>, cap: nat, size: Sizes,
      features: set<Feature>)
    requires after <= |log| && forall i :: 0 <= i < |limits| ==> limits[i] >= 1
    ensures var d := PullAll(log, after, limits, cap, size, features);
      && after <= d.checkpoint <= |log|
      && d.operations == ShapeLog(log[after..d.checkpoint], features)
      && (!d.hasMore ==> d.checkpoint == |log|)
      && (|limits| > 0 && |limits| >= |log| - after ==> !d.hasMore)
    decreases |limits|
  {
    if limits != [] {
      var p := PullPage(log, after, limits[0], cap, size, features);
      PageProgress(log, after, limits[0], cap, size, features);
      if p.hasMore {
        PullsDeliverTheLog(log, p.checkpoint, limits[1..], cap, size, features);
        var d := PullAll(log, p.checkpoint, limits[1..], cap, size, features);
        ShapeLogInTwo(log, after, p.checkpoint, d.checkpoint, features);
      }
    }
  }

  /** The same of repeated pulls; asked after a checkpoint that is not there yet, they send nothing. */
  lemma PullsSendTheLog(log: seq<Entry>, after: nat, limits: seq<nat>, cap: nat, size: Sizes, features: set<Feature>)
    requires Numbered(log) && forall i :: 0 <= i < |limits| ==> limits[i] >= 1
    ensures var d := PullAll(log, after, limits, cap, size, features);
      if after > |log| then d.operations == [] && d.checkpoint == after && (limits != [] ==> !d.hasMore)
      else after <= d.checkpoint <= |log| && Delivered(log, after, d.checkpoint, features, d.operations)
  {
    if after <= |log| {
      PullsDeliverTheLog(log, after, limits, cap, size, features);
      ShapedIsDelivered(log, after, PullAll(log, after, limits, cap, size, features).checkpoint, features);
    }
  }
}
