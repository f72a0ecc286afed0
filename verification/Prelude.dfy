/** Optional values, the order on resource ids, and sorted listings of id sets. */
module Prelude {
  datatype Option<+T> = None | Some(value: T)

  /** A field of a partial update: `Absent` leaves the stored value unchanged. */
  datatype Patch<+T> = Absent | Given(value: T) {
    function Or(current: T): T {
      if Given? then value else current
    }
  }

  /** Resource ids are text, compared character by character. */
  type Id = string

  predicate Less(a: Id, b: Id) {
    b != [] && (a == [] || a[0] < b[0] || (a[0] == b[0] && Less(a[1..], b[1..])))
  }

  lemma {:induction false} LessIrreflexive(a: Id)
    ensures !Less(a, a)
  {
    if a != [] { LessIrreflexive(a[1..]); }
  }

  lemma {:induction false} LessTransitive(a: Id, b: Id, c: Id)
    requires Less(a, b) && Less(b, c)
    ensures Less(a, c)
  {
    if a != [] && a[0] == b[0] && b[0] == c[0] { LessTransitive(a[1..], b[1..], c[1..]); }
  }

  lemma {:induction false} LessTotal(a: Id, b: Id)
    ensures a == b || Less(a, b) || Less(b, a)
  {
    if a != [] && b != [] && a[0] == b[0] {
      LessTotal(a[1..], b[1..]);
      assert a == [a[0]] + a[1..] && b == [b[0]] + b[1..];
    }
  }

  lemma LessAsymmetric(a: Id, b: Id)
    requires Less(a, b)
    ensures !Less(b, a)
  {
    if Less(b, a) { LessTransitive(a, b, a); LessIrreflexive(a); }
  }

  predicate IsLeast(m: Id, s: set<Id>) {
    m in s && forall x :: x in s && x != m ==> Less(m, x)
  }

  lemma {:induction false} LeastExists(s: set<Id>)
    requires s != {}
    ensures exists m :: IsLeast(m, s)
  {
    var x :| x in s;
    if s == {x} {
      assert IsLeast(x, s);
    } else {
      LeastExists(s - {x});
      var m :| IsLeast(m, s - {x});
      LessTotal(m, x);
      if Less(x, m) {
        forall y | y in s && y != x ensures Less(x, y) {
          if y != m { LessTransitive(x, m, y); }
        }
        assert IsLeast(x, s);
      } else {
        assert IsLeast(m, s);
      }
    }
  }

  lemma LeastUnique(s: set<Id>)
    ensures forall a, b :: IsLeast(a, s) && IsLeast(b, s) ==> a == b
  {
    forall a, b | IsLeast(a, s) && IsLeast(b, s) ensures a == b {
      if a != b { LessAsymmetric(a, b); }
    }
  }

  predicate Ascending(s: seq<Id>) {
    forall i, j :: 0 <= i < j < |s| ==> Less(s[i], s[j])
  }

  /** The ids of `s` in ascending order, each once. */
  function Sorted(s: set<Id>): (r: seq<Id>)
    ensures forall x :: x in r <==> x in s
    ensures Ascending(r)
  {
    if s == {} then [] else
      LeastExists(s);
      LeastUnique(s);
      var m :| IsLeast(m, s);
      var rest := Sorted(s - {m});
      assert forall i :: 0 <= i < |rest| ==> rest[i] in s - {m};
      [m] + rest
  }

  predicate NoDuplicates<T(==)>(s: seq<T>) {
    forall i, j :: 0 <= i < j < |s| ==> s[i] != s[j]
  }

  lemma SortedNoDuplicates(s: set<Id>)
    ensures NoDuplicates(Sorted(s))
  {
    var r := Sorted(s);
    forall i, j | 0 <= i < j < |r| ensures r[i] != r[j] { LessIrreflexive(r[i]); }
  }

  lemma Associate<T>(a: seq<T>, b: seq<T>, c: seq<T>)
    ensures a + (b + c) == (a + b) + c
  {}

  function SetOf<T>(s: seq<T>): set<T> {
    set x | x in s
  }

  lemma SliceOfSlice<T>(s: seq<T>, from: nat, m: nat, n: nat)
    requires n <= m && from + m <= |s|
    ensures s[from..from + m][..n] == s[from..from + n]
    ensures n > 0 ==> s[from..from + m][n - 1] == s[from + n - 1]
  {}
}
