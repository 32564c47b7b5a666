/** Which alarms are linked to a dashboard: those that read their way to one of its keys. */
module Alarms {

  type Edges = map<string, seq<string>>

  /** A walk along the reads edges, from an alarm through alarms to a root. */
  ghost predicate Leads(edges: Edges, roots: set<string>, p: seq<string>) {
    && |p| >= 2 && p[|p| - 1] in roots
    && forall i | 0 <= i < |p| - 1 :: p[i] in edges && p[i + 1] in edges[p[i]]
  }

  ghost predicate Reaches(edges: Edges, roots: set<string>, a: string) {
    exists p :: Leads(edges, roots, p) && p[0] == a
  }

  ghost function Linked(edges: Edges, roots: set<string>): (s: set<string>)
    ensures forall a :: a in s <==> a in edges && Reaches(edges, roots, a)
  {
    set a | a in edges && Reaches(edges, roots, a)
  }

  predicate Touches(keys: seq<string>, reached: set<string>) {
    exists i :: 0 <= i < |keys| && keys[i] in reached
  }

  /** Nothing outside x reads something inside it or a root. */
  ghost predicate Closed(edges: Edges, roots: set<string>, x: set<string>) {
    forall a | a in edges && Touches(edges[a], roots + x) :: a in x
  }

  /** One more edge at the front. */
  lemma Extends(edges: Edges, roots: set<string>, a: string, k: string)
    requires a in edges && k in edges[a]
    requires k in roots || Reaches(edges, roots, k)
    ensures Reaches(edges, roots, a)
  {
    if k in roots {
      assert Leads(edges, roots, [a, k]);
    } else {
      var p :| Leads(edges, roots, p) && p[0] == k;
      var q := [a] + p;
      forall i | 0 <= i < |q| - 1 ensures q[i] in edges && q[i + 1] in edges[q[i]] {
        if i > 0 {
          assert q[i] == p[i - 1] && q[i + 1] == p[i];
        }
      }
      assert q[|q| - 1] == p[|p| - 1];
      assert Leads(edges, roots, q);
    }
  }

  lemma TouchingExtends(edges: Edges, roots: set<string>, linked: set<string>, a: string)
    requires a in edges && Touches(edges[a], roots + linked)
    requires forall x | x in linked :: Reaches(edges, roots, x)
    ensures Reaches(edges, roots, a)
  {
    var i :| 0 <= i < |edges[a]| && edges[a][i] in roots + linked;
    Extends(edges, roots, a, edges[a][i]);
  }

  /** A closed set holds everything that leads to a root. */
  lemma {:induction false} ClosedHolds(edges: Edges, roots: set<string>, x: set<string>, p: seq<string>)
    requires Closed(edges, roots, x) && Leads(edges, roots, p)
    ensures p[0] in x
    decreases |p|
  {
    var keys := edges[p[0]];
    assert p[0] in edges && p[1] in keys;
    if |p| > 2 {
      assert forall i | 0 <= i < |p[1..]| :: p[1..][i] == p[i + 1];
      ClosedHolds(edges, roots, x, p[1..]);
    }
    var i :| 0 <= i < |keys| && keys[i] == p[1];
    assert Touches(keys, roots + x);
  }

  /** Being linked is the least fixed point: it is closed, and within every closed set. */
  lemma LeastFixedPoint(edges: Edges, roots: set<string>)
    ensures Closed(edges, roots, Linked(edges, roots))
    ensures forall x | Closed(edges, roots, x) :: Linked(edges, roots) <= x
  {
    var linked := Linked(edges, roots);
    forall a | a in edges && Touches(edges[a], roots + linked) ensures a in linked {
      var i :| 0 <= i < |edges[a]| && edges[a][i] in roots + linked;
      Extends(edges, roots, a, edges[a][i]);
    }
    forall x | Closed(edges, roots, x) ensures linked <= x {
      forall a | a in linked ensures a in x {
        var p :| Leads(edges, roots, p) && p[0] == a;
        ClosedHolds(edges, roots, x, p);
      }
    }
  }

  /** More roots and more edges never unlink an alarm. */
  lemma LinkedIsMonotone(edges: Edges, roots: set<string>, edges': Edges, roots': set<string>)
    requires roots <= roots'
    requires forall a | a in edges :: a in edges' && forall k | k in edges[a] :: k in edges'[a]
    ensures Linked(edges, roots) <= Linked(edges', roots')
  {
    forall a | a in Linked(edges, roots) ensures a in Linked(edges', roots') {
      var p :| Leads(edges, roots, p) && p[0] == a;
      assert p[0] in edges;
      assert Leads(edges', roots', p);
    }
  }

  /** Everything linked so far leads to a root, and `reached` follows suit. */
  ghost predicate Good(edges: Edges, roots: set<string>, linked: set<string>, reached: set<string>) {
    linked <= edges.Keys && reached == roots + linked && forall a | a in linked :: Reaches(edges, roots, a)
  }

  /** The first i entries have nothing left to link. */
  ghost predicate Quiet(edges: Edges, order: seq<string>, i: nat, linked: set<string>, reached: set<string>) {
    && i <= |order|
    && forall j | 0 <= j < i :: order[j] in edges && (order[j] in linked || !Touches(edges[order[j]], reached))
  }

  lemma LinkOne(edges: Edges, roots: set<string>, linked: set<string>, reached: set<string>, a: string)
    requires Good(edges, roots, linked, reached) && a in edges && a !in linked && Touches(edges[a], reached)
    ensures Good(edges, roots, linked + {a}, reached + {a})
    ensures |edges.Keys - (linked + {a})| < |edges.Keys - linked|
  {
    TouchingExtends(edges, roots, linked, a);
    OneFewer(edges.Keys, linked, a);
  }

  lemma QuietStep(edges: Edges, order: seq<string>, i: nat, linked: set<string>, reached: set<string>)
    requires Quiet(edges, order, i, linked, reached) && i < |order| && order[i] in edges
    requires order[i] in linked || !Touches(edges[order[i]], reached)
    ensures Quiet(edges, order, i + 1, linked, reached)
  {
  }

  lemma Start(edges: Edges, order: seq<string>, roots: set<string>, linked: set<string>, reached: set<string>)
    ensures Good(edges, roots, {}, roots) && Quiet(edges, order, 0, linked, reached)
  {
  }

  /** `order` is the order in which the map lists its keys; the answer is the same for
      every order, although `reached` grows while a pass goes on. */
  method LinkedAlarms(edges: Edges, order: seq<string>, roots: set<string>) returns (linked: set<string>)
    requires forall a :: a in order <==> a in edges
    ensures linked == Linked(edges, roots)
  {
    hide *;
    var reached := roots;
    linked := {};
    Start(edges, order, roots, linked, reached);
    var grew := true;
    while grew
      invariant Good(edges, roots, linked, reached)
      invariant !grew ==> Quiet(edges, order, |order|, linked, reached)
      decreases |edges.Keys - linked|, grew
    {
      ghost var before := linked;
      grew := false;
      var i := 0;
      Start(edges, order, roots, linked, reached);
      while i < |order|
        invariant 0 <= i <= |order|
        invariant Good(edges, roots, linked, reached)
        invariant if grew then |edges.Keys - linked| < |edges.Keys - before| else linked == before
        invariant !grew ==> Quiet(edges, order, i, linked, reached)
      {
        var alarm := order[i];
        if alarm !in linked && Touches(edges[alarm], reached) {
          LinkOne(edges, roots, linked, reached, alarm);
          linked := linked + {alarm};
          reached := reached + {alarm};
          grew := true;
        } else if !grew {
          QuietStep(edges, order, i, linked, reached);
        }
        i := i + 1;
      }
    }
    QuietIsLinked(edges, order, roots, linked, reached);
  }

  lemma QuietIsLinked(edges: Edges, order: seq<string>, roots: set<string>, linked: set<string>, reached: set<string>)
    requires forall a :: a in order <==> a in edges
    requires Good(edges, roots, linked, reached) && Quiet(edges, order, |order|, linked, reached)
    ensures linked == Linked(edges, roots)
  {
    PassIsClosed(edges, order, roots, linked);
    ClosedIsLinked(edges, roots, linked);
  }

  /** A whole pass that links nothing. */
  lemma PassIsClosed(edges: Edges, order: seq<string>, roots: set<string>, linked: set<string>)
    requires forall a :: a in order <==> a in edges
    requires forall j | 0 <= j < |order| :: order[j] in linked || !Touches(edges[order[j]], roots + linked)
    ensures Closed(edges, roots, linked)
  {
    forall a | a in edges && Touches(edges[a], roots + linked) ensures a in linked {
      var j :| 0 <= j < |order| && order[j] == a;
    }
  }

  lemma ClosedIsLinked(edges: Edges, roots: set<string>, linked: set<string>)
    requires linked <= edges.Keys && Closed(edges, roots, linked)
    requires forall a | a in linked :: Reaches(edges, roots, a)
    ensures linked == Linked(edges, roots)
  {
    LeastFixedPoint(edges, roots);
  }

  lemma OneFewer(all: set<string>, some: set<string>, x: string)
    requires x in all && x !in some
    ensures |all - (some + {x})| < |all - some|
  {
    assert all - some == (all - (some + {x})) + {x};
  }
}
