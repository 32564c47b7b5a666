/** The ascending enumeration of a finite set of IDs, as `sorted(...)` yields it. */
module SortedSets {

  ghost predicate Distinct(q: seq<nat>) {
    forall i, j | 0 <= i < j < |q| :: q[i] != q[j]
  }

  ghost predicate Ascending(q: seq<nat>) {
    forall i, j | 0 <= i < j < |q| :: q[i] < q[j]
  }

  lemma SuffixStep(q: seq<nat>, i: nat)
    ensures i < |q| ==>
        && q[i..] != [] && q[i..][0] == q[i] && q[i..][1..] == q[i + 1..]
        && q[..i + 1] == q[..i] + [q[i]]
  {
  }

  function Elems(q: seq<nat>): (s: set<nat>)
    ensures forall x :: x in s <==> x in q
  {
    set x | x in q
  }

  lemma {:induction false} MinExists(s: set<nat>) returns (m: nat)
    requires s != {}
    ensures m in s && forall x | x in s :: m <= x
    decreases |s|
  {
    var any :| any in s;
    var rest := s - {any};
    assert forall x | x in s :: x == any || x in rest;
    m := any;
    if rest != {} {
      assert |rest| < |s|;
      var r := MinExists(rest);
      m := if any <= r then any else r;
    }
  }

  function MinOf(s: set<nat>): (m: nat)
    requires s != {}
    ensures m in s && forall x | x in s :: m <= x
  {
    assert exists m :: m in s && forall x | x in s :: m <= x by {
      var m := MinExists(s);
    }
    var m :| m in s && forall x | x in s :: m <= x;
    m
  }

  function Sorted(s: set<nat>): (q: seq<nat>)
    ensures Ascending(q)
    ensures forall x :: x in q <==> x in s
    ensures |q| == |s|
    decreases |s|
  {
    if s == {} then []
    else
      var m := MinOf(s);
      var rest := Sorted(s - {m});
      assert forall i | 0 <= i < |rest| :: rest[i] in s - {m};
      [m] + rest
  }
}
