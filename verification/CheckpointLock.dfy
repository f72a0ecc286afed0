/**
 * Checkpoint allocation by interleaved transactions. Incrementing the workspace's checkpoint takes the lock on its row,
 * which is held to the end of the transaction; entries and checkpoint become visible together, at commit.
 */
module CheckpointLock {
  import opened Prelude

  type Transaction = nat

  /** An entry is its number and whatever it says. */
  datatype Numbered<T> = Numbered(number: nat, what: T)

  /** `log` and `checkpoint` are what readers see; `writing` holds what open transactions wrote so far. */
  datatype State<T> = State(checkpoint: nat, log: seq<Numbered<T>>, lock: Option<Transaction>,
      writing: map<Transaction, seq<Numbered<T>>>)

  datatype Step<T> =
    | Open(t: Transaction)
    | Record(t: Transaction, what: T)
    | Commit(t: Transaction)
    | Abort(t: Transaction)

  function Initial<T>(): State<T> {
    State(0, [], None, map[])
  }

  /** The row lock is free, or this transaction has it; otherwise the increment waits. */
  predicate MayIncrement<T>(s: State<T>, t: Transaction) {
    t in s.writing && (s.lock == None || s.lock == Some(t))
  }

  function Release<T>(s: State<T>, t: Transaction): Option<Transaction> {
    if s.lock == Some(t) then None else s.lock
  }

  /** One step of one transaction; a step that has to wait, or makes no sense, changes nothing. */
  function Next<T>(s: State<T>, e: Step<T>): State<T> {
    match e
    case Open(t) => if t in s.writing then s else s.(writing := s.writing[t := []])
    case Record(t, what) =>
      if !MayIncrement(s, t) then s
      else
        // The holder of the lock reads its own increments, which nobody else can see.
        var number := s.checkpoint + |s.writing[t]| + 1;
        s.(lock := Some(t), writing := s.writing[t := s.writing[t] + [Numbered(number, what)]])
    case Commit(t) =>
      if t !in s.writing then s
      else State(s.checkpoint + |s.writing[t]|, s.log + s.writing[t], Release(s, t), s.writing - {t})
    case Abort(t) => if t !in s.writing then s else s.(lock := Release(s, t), writing := s.writing - {t})
  }

  function After<T>(s: State<T>, steps: seq<Step<T>>): State<T> {
    if steps == [] then s else Next(After(s, steps[..|steps| - 1]), steps[|steps| - 1])
  }

  /** Only the holder of the lock has written entries, and they continue the visible numbers. */
  ghost predicate Serialized<T(!new)>(s: State<T>) {
    && |s.log| == s.checkpoint
    && (forall i :: 0 <= i < |s.log| ==> s.log[i].number == i + 1)
    && (forall t :: t in s.writing && s.writing[t] != [] ==> s.lock == Some(t))
    && (forall t :: t in s.writing ==> forall i :: 0 <= i < |s.writing[t]| ==> s.writing[t][i].number == s.checkpoint + i + 1)
    && (s.lock.Some? ==> s.lock.value in s.writing)
  }

  lemma NextKeepsSerialized<T(!new)>(s: State<T>, e: Step<T>)
    requires Serialized(s)
    ensures Serialized(Next(s, e))
  {
    var next := Next(s, e);
    if e.Commit? && e.t in s.writing {
      assert s.writing[e.t] == [] || forall t :: t in next.writing ==> s.writing[t] == [];
    }
  }

  /** Whatever the interleaving, the visible entries carry exactly the numbers 1 to the visible checkpoint, in order. */
  lemma {:induction false} VisibleNumbersAreExact<T(!new)>(steps: seq<Step<T>>)
    ensures Serialized(After(Initial(), steps))
  {
    if steps != [] {
      VisibleNumbersAreExact(steps[..|steps| - 1]);
      NextKeepsSerialized(After(Initial(), steps[..|steps| - 1]), steps[|steps| - 1]);
    }
  }

  lemma {:induction false} VisibleLogGrows<T(!new)>(s: State<T>, more: seq<Step<T>>)
    requires Serialized(s)
    ensures Serialized(After(s, more)) && s.log <= After(s, more).log
  {
    if more != [] {
      VisibleLogGrows(s, more[..|more| - 1]);
      NextKeepsSerialized(After(s, more[..|more| - 1]), more[|more| - 1]);
    }
  }

  /**
   * Once a reader has seen a checkpoint, the entries up to it are complete for good: whatever appears later has a
   * higher number.
   */
  lemma SeenCheckpointIsFinal<T(!new)>(steps: seq<Step<T>>, more: seq<Step<T>>, i: nat)
    requires i < |After(After(Initial(), steps), more).log|
    ensures var seen, later := After(Initial(), steps), After(After(Initial(), steps), more);
      later.log[i].number <= seen.checkpoint <==> i < |seen.log| && later.log[i] == seen.log[i]
  {
    VisibleNumbersAreExact(steps);
    VisibleLogGrows(After(Initial(), steps), more);
  }

  /** A transaction's entries appear all at once and next to each other, or, aborted, not at all. */
  lemma CommitIsAtomic<T(!new)>(s: State<T>, t: Transaction)
    requires Serialized(s) && t in s.writing
    ensures var entries, next := s.writing[t], Next(s, Step<T>.Commit(t));
      && next.log == s.log + entries && next.checkpoint == s.checkpoint + |entries|
      && forall i :: 0 <= i < |entries| ==> entries[i].number == s.checkpoint + i + 1
    ensures Next(s, Step<T>.Abort(t)).log == s.log && Next(s, Step<T>.Abort(t)).checkpoint == s.checkpoint
  {}

  /** The lock is never stuck: its holder may always write on, and ending the holder's transaction frees it. */
  lemma LockIsFreed<T(!new)>(steps: seq<Step<T>>)
    ensures var s := After(Initial(), steps);
      s.lock.Some? ==>
        && MayIncrement(s, s.lock.value)
        && Next(s, Step<T>.Commit(s.lock.value)).lock == None
        && Next(s, Step<T>.Abort(s.lock.value)).lock == None
  {
    VisibleNumbersAreExact(steps);
  }
}
