/** The folder forest: parent links, the bounded cycle check, subtrees by level, and what a move does to acyclicity. */
module Tree {
  import opened Prelude
  import opened Rows

  /** The parent of every folder. */
  type Parents = map<Id, Option<Id>>

  function ParentsOf(rows: Tables): Parents {
    map id | id in IdsOf(rows, Folder) :: InFolder(rows[Key(Folder, id)].body)
  }

  predicate LabelAt(p: Parents, depth: map<Id, nat>, f: Id)
    requires depth.Keys == p.Keys && f in p
  {
    match p[f]
    case None => depth[f] == 0
    case Some(q) => q in p && depth[f] == depth[q] + 1
  }

  /** Every folder is labelled one more than its parent; proofs look at the label of one folder at a time. */
  ghost predicate Labels(p: Parents, depth: map<Id, nat>) {
    depth.Keys == p.Keys && forall f {:trigger LabelAt(p, depth, f)} :: f in p ==> LabelAt(p, depth, f)
  }

  /** Every chain of parents ends at a root: the links can be labelled with depths. */
  ghost predicate Forest(p: Parents) {
    exists depth :: Labels(p, depth)
  }

  lemma {:induction false} LabelsAgree(p: Parents, d: map<Id, nat>, e: map<Id, nat>, f: Id)
    requires Labels(p, d) && Labels(p, e) && f in p
    ensures d[f] == e[f]
    decreases d[f]
  {
    assert LabelAt(p, d, f) && LabelAt(p, e, f);
    if p[f].Some? { LabelsAgree(p, d, e, p[f].value); }
  }

  lemma LabelsUnique(p: Parents, d: map<Id, nat>, e: map<Id, nat>)
    requires Labels(p, d) && Labels(p, e)
    ensures d == e
  {
    forall f | f in p ensures d[f] == e[f] { LabelsAgree(p, d, e, f); }
  }

  /** The number of proper ancestors of every folder. */
  ghost function Depths(p: Parents): (d: map<Id, nat>)
    requires Forest(p)
    ensures Labels(p, d)
  {
    var d :| Labels(p, d); d
  }

  // ---------------------------------------------------------------- folders one at a time

  /** A folder whose parent is none, or not there: where the tree starts. */
  predicate IsRoot(p: Parents, x: Id) {
    x in p && (p[x].None? || p[x].value !in p)
  }

  /** The chain of parents of `x` ends at a root after `n` links. */
  predicate RootAt(p: Parents, x: Id, n: nat)
    decreases n
  {
    if n == 0 then IsRoot(p, x) else x in p && p[x].Some? && p[x].value in p && RootAt(p, p[x].value, n - 1)
  }

  lemma {:induction false} RootAtOnce(p: Parents, x: Id, m: nat, n: nat)
    requires RootAt(p, x, m) && RootAt(p, x, n)
    ensures m == n
    decreases m
  {
    if m > 0 && n > 0 { RootAtOnce(p, p[x].value, m - 1, n - 1); }
  }

  ghost predicate Rooted(p: Parents, x: Id) {
    exists n: nat :: RootAt(p, x, n)
  }

  /** The number of proper ancestors of a folder whose chain of parents ends, whatever other chains do. */
  ghost function DepthOf(p: Parents, x: Id): (n: nat)
    requires Rooted(p, x)
    ensures RootAt(p, x, n)
  {
    var n: nat :| RootAt(p, x, n); n
  }

  lemma DepthIs(p: Parents, x: Id, n: nat)
    requires RootAt(p, x, n)
    ensures Rooted(p, x) && DepthOf(p, x) == n
  {
    RootAtOnce(p, x, n, DepthOf(p, x));
  }

  /** In a forest every chain ends, and the labels are these depths. */
  lemma {:induction false} LabelledIsRooted(p: Parents, d: map<Id, nat>, x: Id)
    requires Labels(p, d) && x in p
    ensures RootAt(p, x, d[x])
    decreases d[x]
  {
    assert LabelAt(p, d, x);
    if p[x].Some? { LabelledIsRooted(p, d, p[x].value); }
  }

  /** Where all parents are there, the chains of all folders end exactly in a forest. */
  lemma ForestExactly(p: Parents)
    requires forall x :: x in p && p[x].Some? ==> p[x].value in p
    ensures Forest(p) <==> forall x :: x in p ==> Rooted(p, x)
  {
    if Forest(p) {
      forall x | x in p ensures Rooted(p, x) { LabelledIsRooted(p, Depths(p), x); }
    }
    if forall x :: x in p ==> Rooted(p, x) {
      var d: map<Id, nat> := map x | x in p :: DepthOf(p, x);
      forall x | x in p ensures LabelAt(p, d, x) {
        if p[x].Some? {
          assert d[x] != 0;
          RootAtOnce(p, p[x].value, d[x] - 1, d[p[x].value]);
        }
      }
      assert Labels(p, d);
    }
  }

  /** The folder `n` links above `f`, if there is one. */
  function Up(p: Parents, f: Option<Id>, n: nat): Option<Id>
    decreases n
  {
    if n == 0 || f.None? then f
    else if f.value in p then Up(p, p[f.value], n - 1)
    else None
  }

  /** `x` is `f` or lies in its subtree. */
  ghost predicate Below(p: Parents, f: Id, x: Id) {
    exists n: nat :: Up(p, Some(x), n) == Some(f)
  }

  lemma {:induction false} UpStep(p: Parents, f: Option<Id>, n: nat)
    ensures Up(p, f, n + 1) == Up(p, Up(p, f, n), 1)
    decreases n
  {
    if n > 0 && f.Some? && f.value in p { UpStep(p, p[f.value], n - 1); }
  }

  lemma {:induction false} UpDepth(p: Parents, d: map<Id, nat>, x: Id, n: nat)
    requires Labels(p, d) && x in p
    ensures match Up(p, Some(x), n) case None => n > d[x] case Some(y) => y in p && d[x] == d[y] + n
    decreases n
  {
    if n > 0 {
      assert LabelAt(p, d, x);
      assert Up(p, Some(x), n) == Up(p, p[x], n - 1);
      if p[x].Some? { UpDepth(p, d, p[x].value, n - 1); } else { assert Up(p, None, n - 1) == None; }
    }
  }

  /** The subtree relation one link at a time. */
  lemma BelowParent(p: Parents, f: Id, x: Id)
    requires x in p
    ensures Below(p, f, x) <==> x == f || (p[x].Some? && Below(p, f, p[x].value))
  {
    if Below(p, f, x) && x != f {
      var n: nat :| Up(p, Some(x), n) == Some(f);
      assert n > 0 && Up(p, p[x], n - 1) == Some(f);
    }
    if x == f { assert Up(p, Some(x), 0) == Some(f); }
    if p[x].Some? && Below(p, f, p[x].value) {
      var n: nat :| Up(p, p[x], n) == Some(f);
      assert Up(p, Some(x), n + 1) == Some(f);
    }
  }

  // ---------------------------------------------------------------- the bounded ancestor walk

  const WALK_LIMIT: nat := 1000

  /** The walk of the cycle check: is `self` met within `fuel` folders, starting at `cur` and going up? */
  function WalkMeets(p: Parents, cur: Option<Id>, self: Id, fuel: nat): bool
    decreases fuel
  {
    fuel > 0 && cur.Some? &&
    (cur.value == self || WalkMeets(p, if cur.value in p then p[cur.value] else None, self, fuel - 1))
  }

  ghost predicate Meets(p: Parents, cur: Option<Id>, self: Id, n: nat) {
    Up(p, cur, n) == Some(self)
  }

  lemma {:induction false} WalkMeetsExactly(p: Parents, cur: Option<Id>, self: Id, fuel: nat)
    ensures WalkMeets(p, cur, self, fuel) <==> exists n: nat :: n < fuel && Meets(p, cur, self, n)
    decreases fuel
  {
    if fuel > 0 && cur.Some? {
      var next := if cur.value in p then p[cur.value] else None;
      WalkMeetsExactly(p, next, self, fuel - 1);
      if cur.value == self { assert Meets(p, cur, self, 0); }
      if n: nat :| n < fuel - 1 && Meets(p, next, self, n) {
        assert cur.value in p;
        assert Meets(p, cur, self, n + 1);
      }
      forall n: nat | n < fuel && Meets(p, cur, self, n) ensures WalkMeets(p, cur, self, fuel) {
        if n > 0 { assert Meets(p, next, self, n - 1); }
      }
    }
  }

  /** A move of `self` under `parent` that the check lets through. */
  predicate MoveAccepted(p: Parents, self: Id, parent: Id) {
    parent != self && parent in p && !WalkMeets(p, p[parent], self, WALK_LIMIT)
  }

  /**
   * The check refuses exactly the moves under the folder itself or under a descendant of it that is at most
   * `WALK_LIMIT` levels below it.
   */
  lemma MoveRefusedExactly(p: Parents, self: Id, parent: Id)
    requires parent in p
    ensures MoveAccepted(p, self, parent) <==> forall n: nat :: n <= WALK_LIMIT ==> !Meets(p, Some(parent), self, n)
  {
    WalkMeetsExactly(p, p[parent], self, WALK_LIMIT);
    if parent == self { assert Meets(p, Some(parent), self, 0); }
    if n: nat :| n < WALK_LIMIT && Meets(p, p[parent], self, n) { assert Meets(p, Some(parent), self, n + 1); }
    forall n: nat | n <= WALK_LIMIT && MoveAccepted(p, self, parent) ensures !Meets(p, Some(parent), self, n) {
      if n > 0 { assert Meets(p, Some(parent), self, n) == Meets(p, p[parent], self, n - 1); }
    }
  }

  // ---------------------------------------------------------------- what changes keep the forest

  lemma LeafKeepsForest(p: Parents, f: Id, parent: Option<Id>)
    requires Forest(p) && f !in p
    requires parent.Some? ==> parent.value in p
    ensures Forest(p[f := parent])
  {
    var d := Depths(p);
    var e, r := d[f := if parent.Some? then d[parent.value] + 1 else 0], p[f := parent];
    forall x | x in r ensures LabelAt(r, e, x) {
      if x != f { assert LabelAt(p, d, x); }
    }
    assert Labels(r, e);
  }

  lemma RootKeepsForest(p: Parents, f: Id)
    requires Forest(p) && f in p
    ensures Forest(p[f := None])
  {
    var d, r := Depths(p), p[f := None];
    forall x | x in p ensures Below(p, f, x) ==> d[f] <= d[x] { BelowIsDeeper(p, d, f, x); }
    var e: map<Id, nat> := map x | x in p :: if Below(p, f, x) then d[x] - d[f] else d[x];
    forall x | x in r ensures LabelAt(r, e, x) {
      assert LabelAt(p, d, x);
      BelowParent(p, f, x);
    }
    assert Labels(r, e);
  }

  lemma BelowIsDeeper(p: Parents, d: map<Id, nat>, f: Id, x: Id)
    requires Labels(p, d) && x in p
    ensures Below(p, f, x) ==> f in p && d[f] <= d[x] && (d[f] == d[x] ==> f == x)
  {
    if Below(p, f, x) {
      var n: nat :| Up(p, Some(x), n) == Some(f);
      UpDepth(p, d, x, n);
    }
  }

  /** Moving `f` under `q` keeps the forest exactly when `q` is not in the subtree of `f`. */
  lemma MoveKeepsForestExactly(p: Parents, f: Id, q: Id)
    requires Forest(p) && f in p && q in p
    ensures Forest(p[f := Some(q)]) <==> !Below(p, f, q)
  {
    if Below(p, f, q) {
      if Forest(p[f := Some(q)]) { MoveIntoSubtreeCycles(p, f, q); }
    } else {
      MoveOutsideKeepsForest(p, f, q);
    }
  }

  lemma MoveOutsideKeepsForest(p: Parents, f: Id, q: Id)
    requires Forest(p) && f in p && q in p && !Below(p, f, q)
    ensures Forest(p[f := Some(q)])
  {
    var d := Depths(p);
    forall x | x in p ensures Below(p, f, x) ==> d[f] <= d[x] { BelowIsDeeper(p, d, f, x); }
    var e: map<Id, nat> := map x | x in p :: if Below(p, f, x) then d[x] - d[f] + d[q] + 1 else d[x];
    var r := p[f := Some(q)];
    forall x | x in r ensures LabelAt(r, e, x) {
      assert LabelAt(p, d, x);
      BelowParent(p, f, x);
    }
    assert Labels(r, e);
  }

  lemma MoveIntoSubtreeCycles(p: Parents, f: Id, q: Id)
    requires Forest(p) && f in p && q in p && Below(p, f, q)
    ensures !Forest(p[f := Some(q)])
  {
    var r := p[f := Some(q)];
    if Forest(r) {
      var d, e := Depths(p), Depths(r);
      BelowIsDeeper(p, d, f, q);
      assert LabelAt(r, e, f);
      ChainUnchanged(p, d, r, e, f, q);
    }
  }

  /** Links strictly below `f` are untouched by moving `f`, so the distance to `f` is the same before and after. */
  lemma {:induction false} ChainUnchanged(p: Parents, d: map<Id, nat>, r: Parents, e: map<Id, nat>, f: Id, x: Id)
    requires Labels(p, d) && Labels(r, e) && f in p && x in p && Below(p, f, x)
    requires r.Keys == p.Keys && forall y :: y in p && y != f ==> r[y] == p[y]
    ensures e[x] >= e[f]
    decreases d[x]
  {
    BelowParent(p, f, x);
    assert LabelAt(p, d, x) && LabelAt(r, e, x);
    if x != f { ChainUnchanged(p, d, r, e, f, p[x].value); }
  }

  lemma RestrictKeepsForest(p: Parents, r: Parents)
    requires Forest(p) && r.Keys <= p.Keys
    requires forall f :: f in r ==> r[f] == p[f] && (r[f].Some? ==> r[f].value in r)
    ensures Forest(r)
    ensures forall f :: f in r ==> Depths(r)[f] == Depths(p)[f]
  {
    var d := Depths(p);
    var e := map f | f in r :: d[f];
    forall f | f in r ensures LabelAt(r, e, f) { assert LabelAt(p, d, f); }
    assert Labels(r, e);
    LabelsUnique(r, Depths(r), e);
  }

  ghost predicate Shallow(p: Parents) {
    Forest(p) && forall f :: f in p ==> Depths(p)[f] <= WALK_LIMIT
  }

  /** Within the limit the check is complete: a kept parent, or one it let through, is outside the folder's subtree. */
  lemma CheckedParentIsOutside(p: Parents, self: Id, parent: Id)
    requires Shallow(p) && self in p && parent in p
    requires p[self] == Some(parent) || MoveAccepted(p, self, parent)
    ensures !Below(p, self, parent)
  {
    assert LabelAt(p, Depths(p), self);
    BelowIsDeeper(p, Depths(p), self, parent);
    MoveRefusedExactly(p, self, parent);
    forall n: nat ensures !Meets(p, Some(parent), self, n) || p[self] == Some(parent) { UpDepth(p, Depths(p), parent, n); }
    assert forall n: nat :: Up(p, Some(parent), n) == Some(self) ==> Meets(p, Some(parent), self, n);
  }

  /**
   * The check lets a move through that makes a cycle exactly when the folder lies more than `WALK_LIMIT` levels above
   * its new parent.
   */
  lemma CyclesAcceptedExactly(p: Parents, f: Id, q: Id)
    requires Forest(p) && f in p && q in p
    ensures MoveAccepted(p, f, q) && !Forest(p[f := Some(q)]) <==> exists n: nat :: n > WALK_LIMIT && Meets(p, Some(q), f, n)
  {
    var d := Depths(p);
    MoveKeepsForestExactly(p, f, q);
    MoveRefusedExactly(p, f, q);
    forall n: nat | Meets(p, Some(q), f, n) ensures Below(p, f, q) && d[q] == d[f] + n {
      assert Up(p, Some(q), n) == Some(f);
      UpDepth(p, d, q, n);
    }
    if Below(p, f, q) {
      var n: nat :| Up(p, Some(q), n) == Some(f);
      assert Meets(p, Some(q), f, n);
    }
  }

  // ---------------------------------------------------------------- subtrees by level

  function ChildrenOf(p: Parents, s: set<Id>): set<Id> {
    set x | x in p && p[x].Some? && p[x].value in s
  }

  /** The levels below `frontier`: its children, their children, and so on. */
  function Levels(p: Parents, frontier: set<Id>, rest: set<Id>): seq<set<Id>>
    decreases |rest|
  {
    var next := ChildrenOf(p, frontier) * rest;
    if next == {} then [] else
      assert next <= rest;
      Shrinks(rest, next);
      [next] + Levels(p, next, rest - next)
  }

  lemma Shrinks<T>(s: set<T>, t: set<T>)
    requires t <= s && t != {}
    ensures |s - t| < |s|
  {
    var x :| x in t;
    assert s == (s - t) + t && (s - t) !! t;
    assert |s| == |s - t| + |t|;
  }

  function Union(levels: seq<set<Id>>): set<Id> {
    if levels == [] then {} else levels[0] + Union(levels[1..])
  }

  /** The levels deepest first, the ids of one level ascending. */
  function DeepestFirst(levels: seq<set<Id>>): (r: seq<Id>)
    ensures forall x :: x in r <==> x in Union(levels)
  {
    if levels == [] then [] else DeepestFirst(levels[1..]) + Sorted(levels[0])
  }

  function Subtree(p: Parents, f: Id): seq<set<Id>> {
    Levels(p, {f}, p.Keys - {f})
  }

  /** `f` lies on a cycle of parent links, so a recursive query for its descendants has no end. */
  predicate OnCycle(p: Parents, f: Id) {
    f in p && p[f].Some? && p[f].value in {f} + Union(Subtree(p, f))
  }

  /** No entry of the list is the parent of a later one. */
  predicate ChildrenFirst(p: Parents, list: seq<Id>) {
    forall i, j :: 0 <= i < j < |list| && list[j] in p ==> p[list[j]] != Some(list[i])
  }

  lemma AppendLevel(p: Parents, frontier: set<Id>, list: seq<Id>, level: seq<Id>)
    requires NoDuplicates(list) && NoDuplicates(level)
    requires forall x :: x in list ==> x !in level && x !in frontier
    requires forall x :: x in level ==> x !in frontier && x in ChildrenOf(p, frontier)
    requires ChildrenFirst(p, list)
    ensures NoDuplicates(list + level) && ChildrenFirst(p, list + level)
  {
    var all := list + level;
    forall i, j | 0 <= i < j < |all| ensures all[i] != all[j] && (all[j] in p ==> p[all[j]] != Some(all[i])) {
      if j >= |list| {
        assert all[j] in level;
        if i < |list| { assert all[i] in list; } else { assert all[i] in level; }
      }
    }
  }

  lemma {:induction false} LevelsFacts(p: Parents, frontier: set<Id>, rest: set<Id>)
    requires frontier !! rest
    ensures Union(Levels(p, frontier, rest)) <= rest
    ensures ChildrenOf(p, frontier + Union(Levels(p, frontier, rest))) * rest <= Union(Levels(p, frontier, rest))
    decreases |rest|
  {
    var next := ChildrenOf(p, frontier) * rest;
    if next != {} {
      Shrinks(rest, next);
      LevelsFacts(p, next, rest - next);
      var deeper := Levels(p, next, rest - next);
      assert Levels(p, frontier, rest) == [next] + deeper;
      assert Union([next] + deeper) == next + Union(deeper);
    }
  }

  lemma {:induction false} LevelsOrder(p: Parents, frontier: set<Id>, rest: set<Id>)
    requires frontier !! rest
    ensures NoDuplicates(DeepestFirst(Levels(p, frontier, rest)))
    ensures ChildrenFirst(p, DeepestFirst(Levels(p, frontier, rest)))
    decreases |rest|
  {
    var next := ChildrenOf(p, frontier) * rest;
    if next != {} {
      Shrinks(rest, next);
      LevelsOrder(p, next, rest - next);
      var deeper := Levels(p, next, rest - next);
      LevelsFacts(p, next, rest - next);
      assert Levels(p, frontier, rest) == [next] + deeper;
      assert ([next] + deeper)[1..] == deeper;
      SortedNoDuplicates(next);
      AppendLevel(p, frontier, DeepestFirst(deeper), Sorted(next));
    }
  }

  /** The descendant query on rows without a cycle through `f`: everything below `f`, each once, children first. */
  lemma SubtreeFacts(p: Parents, f: Id)
    ensures f !in Union(Subtree(p, f)) && Union(Subtree(p, f)) <= p.Keys
    ensures !OnCycle(p, f) ==> ChildrenOf(p, {f} + Union(Subtree(p, f))) == Union(Subtree(p, f))
    ensures NoDuplicates(DeepestFirst(Subtree(p, f)))
    ensures ChildrenFirst(p, DeepestFirst(Subtree(p, f)))
  {
    LevelsFacts(p, {f}, p.Keys - {f});
    LevelsOrder(p, {f}, p.Keys - {f});
    LevelsAreBelow(p, {f}, p.Keys - {f});
    if !OnCycle(p, f) {
      var u := Union(Subtree(p, f));
      assert f !in ChildrenOf(p, {f} + u);
    }
  }

  /** Every folder in a level has its parent in the frontier or in the levels. */
  lemma {:induction false} LevelsAreBelow(p: Parents, frontier: set<Id>, rest: set<Id>)
    requires frontier !! rest
    ensures Union(Levels(p, frontier, rest)) <= ChildrenOf(p, frontier + Union(Levels(p, frontier, rest)))
    decreases |rest|
  {
    var next := ChildrenOf(p, frontier) * rest;
    if next != {} {
      Shrinks(rest, next);
      LevelsAreBelow(p, next, rest - next);
      var deeper := Levels(p, next, rest - next);
      assert Levels(p, frontier, rest) == [next] + deeper;
      assert Union([next] + deeper) == next + Union(deeper);
    }
  }

  /** Every folder in a level leads up to the frontier. */
  lemma {:induction false} LevelsLeadUp(p: Parents, frontier: set<Id>, rest: set<Id>, x: Id) returns (n: nat, g: Id)
    requires frontier !! rest && x in Union(Levels(p, frontier, rest))
    ensures g in frontier && Up(p, Some(x), n) == Some(g)
    decreases |rest|
  {
    var next := ChildrenOf(p, frontier) * rest;
    Shrinks(rest, next);
    if x in next {
      n, g := 1, p[x].value;
      assert Up(p, Some(g), 0) == Some(g);
    } else {
      var y;
      n, y := LevelsLeadUp(p, next, rest - next, x);
      UpStep(p, Some(x), n);
      g := p[y].value;
      assert Up(p, Some(g), 0) == Some(g);
      n := n + 1;
    }
  }

  lemma {:induction false} BelowIsClosed(p: Parents, f: Id, u: set<Id>, x: Id, n: nat)
    requires ChildrenOf(p, {f} + u) <= u && Up(p, Some(x), n) == Some(f)
    ensures x == f || x in u
    decreases n
  {
    if n > 0 && x in p {
      if p[x].Some? { BelowIsClosed(p, f, u, p[x].value, n - 1); }
    }
  }

  /** The recursive query has no end exactly when the folder is met again going up from its own parent. */
  lemma OnCycleExactly(p: Parents, f: Id)
    ensures OnCycle(p, f) <==> f in p && p[f].Some? && Below(p, f, p[f].value)
  {
    if f in p && p[f].Some? {
      var q, u := p[f].value, Union(Subtree(p, f));
      if Below(p, f, q) && !OnCycle(p, f) {
        var n: nat :| Up(p, Some(q), n) == Some(f);
        SubtreeFacts(p, f);
        BelowIsClosed(p, f, u, q, n);
        assert false;
      }
      if q == f { assert Up(p, Some(q), 0) == Some(f); }
      if q in u { var n, g := LevelsLeadUp(p, {f}, p.Keys - {f}, q); }
    }
  }

  /** In a forest there is no cycle, and the descendants are exactly the folders strictly below. */
  lemma ForestSubtree(p: Parents, f: Id)
    requires Forest(p) && f in p
    ensures !OnCycle(p, f)
    ensures forall x :: x in Union(Subtree(p, f)) <==> x in p && x != f && Below(p, f, x)
  {
    SubtreeFacts(p, f);
    var u, d := Union(Subtree(p, f)), Depths(p);
    LevelsAreBelow(p, {f}, p.Keys - {f});
    LevelsFacts(p, {f}, p.Keys - {f});
    forall x | x in u ensures Below(p, f, x) { InUnionIsBelow(p, d, f, u, x); }
    forall x | x in p && x != f && Below(p, f, x) ensures x in u { BelowIsInUnion(p, d, f, u, x); }
    if OnCycle(p, f) {
      var q := p[f].value;
      assert Below(p, f, f) by { assert Up(p, Some(f), 0) == Some(f); }
      assert LabelAt(p, d, f) && Below(p, f, q);
      BelowIsDeeper(p, d, f, q);
    }
  }

  lemma {:induction false} InUnionIsBelow(p: Parents, d: map<Id, nat>, f: Id, u: set<Id>, x: Id)
    requires Labels(p, d) && x in u && u <= ChildrenOf(p, {f} + u)
    ensures x in p && Below(p, f, x)
    decreases if x in d then d[x] else 0
  {
    var q := p[x].value;
    assert LabelAt(p, d, x);
    BelowParent(p, f, x);
    if q == f { assert Up(p, Some(f), 0) == Some(f); } else { InUnionIsBelow(p, d, f, u, q); }
  }

  lemma {:induction false} BelowIsInUnion(p: Parents, d: map<Id, nat>, f: Id, u: set<Id>, x: Id)
    requires Labels(p, d) && x in p && x != f && Below(p, f, x)
    requires ChildrenOf(p, {f} + u) * (p.Keys - {f}) <= u
    ensures x in u
    decreases d[x]
  {
    BelowParent(p, f, x);
    assert LabelAt(p, d, x);
    var q := p[x].value;
    if q != f { BelowIsInUnion(p, d, f, u, q); }
    assert x in ChildrenOf(p, {f} + u);
  }

  /** The rounds of a recursive descendant query: every round is all children of the one before, the last has none. */
  predicate IsQueryResult(p: Parents, frontier: set<Id>, rounds: seq<set<Id>>)
    decreases |rounds|
  {
    if rounds == [] then ChildrenOf(p, frontier) == {}
    else rounds[0] != {} && rounds[0] == ChildrenOf(p, frontier) && IsQueryResult(p, rounds[0], rounds[1..])
  }

  lemma {:induction false} LevelsAreRounds(p: Parents, f: Id, visited: set<Id>, frontier: set<Id>)
    requires f in visited && frontier <= visited
    requires forall y :: y in visited && y != f ==> y in p && p[y].Some? && p[y].value in visited - frontier
    requires f !in ChildrenOf(p, visited + Union(Levels(p, frontier, p.Keys - visited)))
    ensures IsQueryResult(p, frontier, Levels(p, frontier, p.Keys - visited))
    decreases |p.Keys - visited|
  {
    var rest := p.Keys - visited;
    var next := ChildrenOf(p, frontier) * rest;
    assert next == ChildrenOf(p, frontier);
    if next != {} {
      Shrinks(rest, next);
      var deeper := Levels(p, next, rest - next);
      assert rest - next == p.Keys - (visited + next);
      assert Union([next] + deeper) == next + Union(deeper);
      LevelsAreRounds(p, f, visited + next, next);
      assert ([next] + deeper)[1..] == deeper;
    }
  }

  /** Off cycles, the levels of a subtree are exactly the rounds of the recursive query, which therefore ends. */
  lemma SubtreeIsQueryResult(p: Parents, f: Id)
    requires !OnCycle(p, f)
    ensures IsQueryResult(p, {f}, Subtree(p, f))
  {
    LevelsAreRounds(p, f, {f}, {f});
  }
}
