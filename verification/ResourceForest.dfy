/** The forest of live Resources inside one generation, and the two post-order
    sweeps over it: the pending cascade of a release, and the full sweep of a
    generation teardown. Everything here is about values; the class that walks
    and mutates the forest is in ResourceServer.dfy. */
module ResourceForest {
  import opened SortedSets

  /** One server-side Resource. `parent` is 0 for a generation's root. Routes are
      tokens for the active ResourceRpc tasks. */
  datatype Resource = Resource(id: nat, parent: nat, pending: bool, routes: set<nat>)

  type Forest = map<nat, Resource>

  ghost predicate Planted(res: Forest) {
    forall c | c in res :: res[c].id == c && res[c].parent < c
  }

  /** Every pending Resource still has its parent. Adopted ones may outlive theirs. */
  ghost predicate PendingAttached(res: Forest) {
    forall c | c in res && res[c].pending :: res[c].parent in res
  }

  /** The live children of p that a sweep visits: all of them, or only the pending ones. */
  function Kids(res: Forest, p: nat, all: bool): set<nat> {
    set c | c in res && res[c].parent == p && (all || res[c].pending)
  }

  function Parents(res: Forest): set<nat> {
    set c | c in res && res[c].parent != 0 :: res[c].parent
  }

  /** The children index that a forest determines: no key without a live child. */
  function Index(res: Forest): map<nat, set<nat>> {
    map p | p in Parents(res) :: Kids(res, p, true)
  }

  /** x hangs below p through a chain of visited Resources, read upwards from x. */
  ghost predicate Under(res: Forest, p: nat, x: nat, all: bool)
    requires Planted(res)
    decreases x
  {
    x in res && (all || res[x].pending) && (res[x].parent == p || Under(res, p, res[x].parent, all))
  }

  ghost function Above(res: Forest, p: nat): set<nat> {
    set c | c in res && c > p
  }

  /** The Resources strictly below p, children before parents, siblings ascending. */
  ghost function PostOrder(res: Forest, p: nat, all: bool): seq<nat>
    requires Planted(res)
    decreases Above(res, p), 1, 0
  {
    PostOrders(res, p, Sorted(Kids(res, p, all)), all)
  }

  /** The subtrees of `ks`, one after another, each followed by its own top. */
  ghost function PostOrders(res: Forest, p: nat, ks: seq<nat>, all: bool): seq<nat>
    requires Planted(res)
    requires forall k | k in ks :: k in res && k > p
    decreases Above(res, p), 0, |ks|
  {
    if ks == [] then []
    else
      assert ks[0] in ks && ks[0] in Above(res, p) && ks[0] !in Above(res, ks[0]);
      assert forall k | k in ks[1..] :: k in ks;
      PostOrder(res, ks[0], all) + [ks[0]] + PostOrders(res, p, ks[1..], all)
  }

  // ----- reachability

  lemma {:induction false} UnderIsAbove(res: Forest, p: nat, x: nat, all: bool)
    requires Planted(res) && Under(res, p, x, all)
    ensures p < x && x in res
    decreases x
  {
    if res[x].parent != p {
      UnderIsAbove(res, p, res[x].parent, all);
    }
  }

  /** Below p means at or below exactly one child of p. */
  lemma {:induction false} UnderViaKid(res: Forest, p: nat, x: nat, all: bool) returns (k: nat)
    requires Planted(res) && Under(res, p, x, all)
    ensures k in Kids(res, p, all) && (x == k || Under(res, k, x, all))
    decreases x
  {
    if res[x].parent == p {
      k := x;
    } else {
      k := UnderViaKid(res, p, res[x].parent, all);
    }
  }

  lemma {:induction false} UnderTransitive(res: Forest, p: nat, k: nat, x: nat, all: bool)
    requires Planted(res) && Under(res, p, k, all) && Under(res, k, x, all)
    ensures Under(res, p, x, all)
    decreases x
  {
    if res[x].parent != k {
      UnderTransitive(res, p, k, res[x].parent, all);
    }
  }

  /** Chains do not fork upwards: two ancestors of x are comparable. */
  lemma {:induction false} UnderComparable(res: Forest, a: nat, b: nat, x: nat, all: bool)
    requires Planted(res) && Under(res, a, x, all) && Under(res, b, x, all) && a < b
    ensures Under(res, a, b, all)
    decreases x
  {
    UnderIsAbove(res, b, x, all);
    if res[x].parent == b {
    } else if res[x].parent == a {
      UnderIsAbove(res, b, a, all);
    } else {
      UnderComparable(res, a, b, res[x].parent, all);
    }
  }

  ghost predicate In(res: Forest, k: nat, x: nat, all: bool)
    requires Planted(res)
  {
    x == k || Under(res, k, x, all)
  }

  /** Subtrees of two siblings do not meet. */
  lemma SiblingsDisjoint(res: Forest, p: nat, j: nat, k: nat, x: nat, all: bool)
    requires Planted(res) && j in res && k in res && j != k
    requires res[j].parent == p == res[k].parent
    ensures !(In(res, j, x, all) && In(res, k, x, all))
  {
    if In(res, j, x, all) && In(res, k, x, all) {
      var a, b := if j < k then j else k, if j < k then k else j;
      if x != a && x != b {
        UnderComparable(res, a, b, x, all);
      } else if x == a {
        UnderIsAbove(res, b, x, all);
      }
      assert Under(res, a, b, all);
      UnderIsAbove(res, a, p, all);
    }
  }

  // ----- what the sweep lists

  /** A list of tops whose subtrees are pairwise apart. */
  ghost predicate Apart(res: Forest, ks: seq<nat>, all: bool)
    requires Planted(res)
  {
    forall i, j, x | 0 <= i < j < |ks| :: !(In(res, ks[i], x, all) && In(res, ks[j], x, all))
  }

  lemma KidsApart(res: Forest, p: nat, all: bool)
    requires Planted(res)
    ensures Apart(res, Sorted(Kids(res, p, all)), all)
  {
    var ks := Sorted(Kids(res, p, all));
    forall i, j, x | 0 <= i < j < |ks| ensures !(In(res, ks[i], x, all) && In(res, ks[j], x, all)) {
      assert ks[i] in ks && ks[j] in ks;
      SiblingsDisjoint(res, p, ks[i], ks[j], x, all);
    }
  }

  /** The sweep below p lists exactly the Resources below p. */
  lemma {:induction false} PostOrderMembers(res: Forest, p: nat, x: nat, all: bool)
    requires Planted(res)
    ensures x in PostOrder(res, p, all) <==> Under(res, p, x, all)
    decreases Above(res, p), 1, 0
  {
    var ks := Sorted(Kids(res, p, all));
    PostOrdersMembers(res, p, ks, x, all);
    if Under(res, p, x, all) {
      var k := UnderViaKid(res, p, x, all);
      assert k in ks && In(res, k, x, all);
    }
    forall k | k in ks && In(res, k, x, all) ensures Under(res, p, x, all) {
      if x != k {
        UnderTransitive(res, p, k, x, all);
      }
    }
  }

  lemma {:induction false} PostOrdersMembers(res: Forest, p: nat, ks: seq<nat>, x: nat, all: bool)
    requires Planted(res)
    requires forall k | k in ks :: k in res && k > p
    ensures x in PostOrders(res, p, ks, all) <==> exists k :: k in ks && In(res, k, x, all)
    decreases Above(res, p), 0, |ks|
  {
    if ks != [] {
      assert ks[0] in ks && ks[0] in Above(res, p) && ks[0] !in Above(res, ks[0]);
      assert forall k :: k in ks <==> k == ks[0] || k in ks[1..];
      PostOrderMembers(res, ks[0], x, all);
      PostOrdersMembers(res, p, ks[1..], x, all);
    }
  }

  lemma DistinctConcat(a: seq<nat>, b: seq<nat>)
    requires Distinct(a) && Distinct(b) && forall x :: !(x in a && x in b)
    ensures Distinct(a + b)
  {
    var q := a + b;
    forall i, j | 0 <= i < j < |q| ensures q[i] != q[j] {
      if i < |a| <= j {
        assert q[i] in a && q[j] in b;
      }
    }
  }

  /** Nothing is listed twice. */
  lemma {:induction false} PostOrdersDistinct(res: Forest, p: nat, ks: seq<nat>, all: bool)
    requires Planted(res)
    requires forall k | k in ks :: k in res && k > p
    requires Apart(res, ks, all)
    ensures Distinct(PostOrders(res, p, ks, all))
    decreases Above(res, p), 0, |ks|
  {
    if ks != [] {
      var k := ks[0];
      assert k in ks && k in Above(res, p) && k !in Above(res, k);
      assert forall c | c in ks[1..] :: c in ks;
      var below, rest := PostOrder(res, k, all), PostOrders(res, p, ks[1..], all);
      KidsApart(res, k, all);
      PostOrdersDistinct(res, k, Sorted(Kids(res, k, all)), all);
      TailApart(res, ks, all);
      PostOrdersDistinct(res, p, ks[1..], all);
      forall x ensures !(x in below && x in [k]) {
        PostOrderMembers(res, k, x, all);
        if x in below {
          UnderIsAbove(res, k, x, all);
        }
      }
      DistinctConcat(below, [k]);
      forall x ensures !(x in below + [k] && x in rest) {
        PostOrderMembers(res, k, x, all);
        if x in below + [k] {
          RestApart(res, p, ks, x, all);
        }
      }
      DistinctConcat(below + [k], rest);
    }
  }

  /** Descendants come before their ancestors. */
  ghost predicate ChildFirst(res: Forest, q: seq<nat>, all: bool)
    requires Planted(res)
  {
    forall i, j | 0 <= i < |q| && 0 <= j < |q| && Under(res, q[j], q[i], all) :: i < j
  }

  lemma {:induction false} PostOrdersChildFirst(res: Forest, p: nat, ks: seq<nat>, all: bool)
    requires Planted(res)
    requires forall k | k in ks :: k in res && k > p
    requires Apart(res, ks, all)
    ensures ChildFirst(res, PostOrders(res, p, ks, all), all)
    decreases Above(res, p), 0, |ks|
  {
    if ks != [] {
      var k := ks[0];
      assert k in ks && k in Above(res, p) && k !in Above(res, k);
      assert forall c | c in ks[1..] :: c in ks;
      var below, rest := PostOrder(res, k, all), PostOrders(res, p, ks[1..], all);
      KidsApart(res, k, all);
      PostOrdersChildFirst(res, k, Sorted(Kids(res, k, all)), all);
      TailApart(res, ks, all);
      PostOrdersChildFirst(res, p, ks[1..], all);
      forall x ensures x in below <==> Under(res, k, x, all) {
        PostOrderMembers(res, k, x, all);
      }
      forall x | In(res, k, x, all) ensures x !in rest {
        RestApart(res, p, ks, x, all);
      }
      assert PostOrders(res, p, ks, all) == below + [k] + rest;
      hide PostOrder, PostOrders;
      ChildFirstJoins(res, below, k, rest, all);
    }
  }

  lemma TailApart(res: Forest, ks: seq<nat>, all: bool)
    requires Planted(res) && ks != [] && Apart(res, ks, all)
    ensures Apart(res, ks[1..], all)
  {
    forall i, j, x | 0 <= i < j < |ks[1..]| ensures !(In(res, ks[1..][i], x, all) && In(res, ks[1..][j], x, all)) {
      assert ks[1..][i] == ks[i + 1] && ks[1..][j] == ks[j + 1];
    }
  }

  lemma ChildFirstJoins(res: Forest, below: seq<nat>, k: nat, rest: seq<nat>, all: bool)
    requires Planted(res) && ChildFirst(res, below, all) && ChildFirst(res, rest, all)
    requires forall x :: x in below <==> Under(res, k, x, all)
    requires forall x | In(res, k, x, all) :: x !in rest
    ensures ChildFirst(res, below + [k] + rest, all)
  {
    var q, n := below + [k] + rest, |below|;
    forall i, j | 0 <= i < |q| && 0 <= j < |q| && Under(res, q[j], q[i], all) ensures i < j {
      var d, a := q[i], q[j];
      UnderIsAbove(res, a, d, all);
      assert i > n ==> rest[i - n - 1] == d;
      if j <= n {
        // a is at or below k, hence so is d
        if j < n {
          assert a in below;
          UnderTransitive(res, k, a, d, all);
        }
        assert In(res, k, d, all);
      } else if i > n {
        assert rest[j - n - 1] == a;
      }
    }
  }

  lemma RestApart(res: Forest, p: nat, ks: seq<nat>, x: nat, all: bool)
    requires Planted(res) && ks != []
    requires forall k | k in ks :: k in res && k > p
    requires Apart(res, ks, all) && In(res, ks[0], x, all)
    ensures forall k | k in ks[1..] :: k in res && k > p
    ensures x !in PostOrders(res, p, ks[1..], all)
  {
    assert forall k | k in ks[1..] :: k in ks;
    PostOrdersMembers(res, p, ks[1..], x, all);
  }

  // ----- the sweep under removal

  /** Removing Resources outside p's subtree does not change the sweep below p. */
  lemma {:induction false} PostOrderFrame(res: Forest, gone: set<nat>, p: nat, all: bool)
    requires Planted(res)
    requires forall x | x in gone :: !Under(res, p, x, all)
    ensures Planted(res - gone)
    ensures PostOrder(res - gone, p, all) == PostOrder(res, p, all)
    decreases Above(res, p), 1, 0
  {
    assert Kids(res - gone, p, all) == Kids(res, p, all) by {
      forall c | c in Kids(res, p, all) ensures c in Kids(res - gone, p, all) {
        assert Under(res, p, c, all);
      }
    }
    var ks := Sorted(Kids(res, p, all));
    forall k, x | k in ks && x in gone ensures !In(res, k, x, all) {
      if Under(res, k, x, all) {
        assert Under(res, p, k, all);
        UnderTransitive(res, p, k, x, all);
      }
    }
    PostOrdersFrame(res, gone, p, ks, all);
  }

  lemma {:induction false} PostOrdersFrame(res: Forest, gone: set<nat>, p: nat, ks: seq<nat>, all: bool)
    requires Planted(res) && Planted(res - gone)
    requires forall k | k in ks :: k in res && k > p
    requires forall k, x | k in ks && x in gone :: !In(res, k, x, all)
    ensures forall k | k in ks :: k in res - gone
    ensures PostOrders(res - gone, p, ks, all) == PostOrders(res, p, ks, all)
    decreases Above(res, p), 0, |ks|
  {
    if ks != [] {
      assert ks[0] in ks && ks[0] in Above(res, p) && ks[0] !in Above(res, ks[0]);
      assert forall x | x in gone :: !In(res, ks[0], x, all);
      assert forall k | k in ks[1..] :: k in ks;
      PostOrderFrame(res, gone, ks[0], all);
      PostOrdersFrame(res, gone, p, ks[1..], all);
    }
  }

  // ----- the batch of one release

  /** What releasing `id` removes, in order; the root is swept below but kept. */
  ghost function Batch(res: Forest, id: nat, retain: bool): seq<nat>
    requires Planted(res)
  {
    PostOrder(res, id, false) + (if retain then [] else [id])
  }

  lemma AppendTop(res: Forest, below: seq<nat>, id: nat, all: bool)
    requires Planted(res) && Distinct(below) && ChildFirst(res, below, all)
    requires forall x | x in below :: id < x
    ensures Distinct(below + [id]) && ChildFirst(res, below + [id], all)
  {
    DistinctConcat(below, [id]);
    var b := below + [id];
    forall i, j | 0 <= i < |b| && 0 <= j < |b| && Under(res, b[j], b[i], all) ensures i < j {
      UnderIsAbove(res, b[j], b[i], all);
      assert j < |below| ==> b[j] == below[j] && id < b[j] by {
        if j < |below| {
          assert below[j] in below;
        }
      }
      assert i < |below| ==> b[i] == below[i];
    }
  }

  /** A release removes the target, unless retained, and everything reachable from
      it through pending children: each once, and descendants before ancestors. */
  lemma ExactCascade(res: Forest, id: nat, retain: bool)
    requires Planted(res)
    ensures var b := Batch(res, id, retain);
      && Distinct(b)
      && ChildFirst(res, b, false)
      && (forall x :: x in b <==> Under(res, id, x, false) || (x == id && !retain))
  {
    var below := PostOrder(res, id, false);
    KidsApart(res, id, false);
    PostOrdersDistinct(res, id, Sorted(Kids(res, id, false)), false);
    PostOrdersChildFirst(res, id, Sorted(Kids(res, id, false)), false);
    forall x ensures x in below <==> Under(res, id, x, false) {
      PostOrderMembers(res, id, x, false);
    }
    forall x | x in below ensures id < x {
      UnderIsAbove(res, id, x, false);
    }
    if !retain {
      AppendTop(res, below, id, false);
    }
  }

  /** In a batch whatever lies below a Resource of it does so through pending ones. */
  lemma {:induction false} ChainIsPending(res: Forest, id: nat, y: nat, x: nat)
    requires Planted(res) && id <= y && (Under(res, id, x, false) || x == id) && Under(res, y, x, true)
    ensures Under(res, y, x, false)
    decreases x
  {
    UnderIsAbove(res, y, x, true);
    if res[x].parent != y {
      UnderIsAbove(res, y, res[x].parent, true);
      ChainIsPending(res, id, y, res[x].parent);
    }
  }

  lemma BatchChildFirst(res: Forest, id: nat, retain: bool)
    requires Planted(res)
    ensures ChildFirst(res, Batch(res, id, retain), true)
  {
    ExactCascade(res, id, retain);
    var b := Batch(res, id, retain);
    hide Batch;
    forall i, j | 0 <= i < |b| && 0 <= j < |b| && Under(res, b[j], b[i], true) ensures i < j {
      assert b[i] in b && b[j] in b;
      if b[j] != id {
        UnderIsAbove(res, id, b[j], false);
      }
      ChainIsPending(res, id, b[j], b[i]);
    }
  }

  // ----- the sweep of a teardown

  function Orphans(res: Forest, root: nat): set<nat> {
    set c | c in res && c != root && res[c].parent !in res
  }

  /** Teardown sweeps the root's tree, then every orphaned adopted subtree. */
  ghost function TeardownOrder(res: Forest, root: nat): seq<nat>
    requires Planted(res) && root in res
  {
    PostOrders(res, 0, [root] + Sorted(Orphans(res, root)), true)
  }

  /** Trees whose tops have no live parent do not meet. */
  lemma TopsDisjoint(res: Forest, j: nat, k: nat, x: nat)
    requires Planted(res) && j in res && k in res && j != k
    requires res[j].parent !in res && res[k].parent !in res
    ensures !(In(res, j, x, true) && In(res, k, x, true))
  {
    if In(res, j, x, true) && In(res, k, x, true) {
      var a, b := if j < k then j else k, if j < k then k else j;
      if x != a && x != b {
        UnderComparable(res, a, b, x, true);
      } else if x == a {
        UnderIsAbove(res, b, x, true);
      }
      UnderParentLive(res, a, b, true);
    }
  }

  lemma TopsApart(res: Forest, root: nat)
    requires Planted(res) && root in res && res[root].parent == 0
    ensures Apart(res, [root] + Sorted(Orphans(res, root)), true)
  {
    var ks := [root] + Sorted(Orphans(res, root));
    forall i, j, x | 0 <= i < j < |ks| ensures !(In(res, ks[i], x, true) && In(res, ks[j], x, true)) {
      assert ks[j] in Sorted(Orphans(res, root));
      assert i > 0 ==> ks[i] in Sorted(Orphans(res, root));
      TopsDisjoint(res, ks[i], ks[j], x);
    }
  }

  lemma UnderParentLive(res: Forest, p: nat, x: nat, all: bool)
    requires Planted(res) && p in res && Under(res, p, x, all)
    ensures res[x].parent in res
  {
  }

  lemma {:induction false} TopOf(res: Forest, root: nat, x: nat) returns (k: nat)
    requires Planted(res) && root in res && x in res
    ensures k == root || k in Orphans(res, root)
    ensures In(res, k, x, true)
    decreases x
  {
    if x == root || res[x].parent !in res {
      k := x;
    } else {
      k := TopOf(res, root, res[x].parent);
    }
  }

  /** Teardown lists every live Resource once, descendants before ancestors. */
  lemma TeardownIsComplete(res: Forest, root: nat)
    requires Planted(res) && root in res && res[root].parent == 0
    ensures var t := TeardownOrder(res, root);
      && Distinct(t)
      && ChildFirst(res, t, true)
      && (forall x :: x in t <==> x in res)
  {
    var ks := [root] + Sorted(Orphans(res, root));
    TopsApart(res, root);
    PostOrdersDistinct(res, 0, ks, true);
    PostOrdersChildFirst(res, 0, ks, true);
    forall x ensures x in TeardownOrder(res, root) <==> x in res {
      TeardownMembers(res, root, x);
    }
  }

  lemma TeardownMembers(res: Forest, root: nat, x: nat)
    requires Planted(res) && root in res && res[root].parent == 0
    ensures x in TeardownOrder(res, root) <==> x in res
  {
    var ks := [root] + Sorted(Orphans(res, root));
    PostOrdersMembers(res, 0, ks, x, true);
    if x in res {
      var k := TopOf(res, root, x);
      assert k in ks;
    }
  }
}
