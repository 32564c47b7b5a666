/** The two walks over a generation's forest as transformations of the fields they
    mutate: the pending cascade, which keeps the children index exact, and the
    teardown walk, which does not touch it. Proof support for ResourceServer.dfy. */
module ResourceWalk {
  import opened Options
  import opened SortedSets
  import opened ResourceForest
  import opened ResourceGeneration

  // ----- sequences of children

  /** The pending members of a list of children. */
  ghost function PendingOf(res: Forest, ks: seq<nat>): (ps: seq<nat>)
    requires forall k | k in ks :: k in res
    ensures forall k | k in ps :: k in ks && res[k].pending
  {
    if ks == [] then []
    else (if res[ks[0]].pending then [ks[0]] else []) + PendingOf(res, ks[1..])
  }

  lemma {:induction false} PendingOfMembers(res: Forest, ks: seq<nat>)
    requires forall k | k in ks :: k in res
    ensures forall k :: k in PendingOf(res, ks) <==> k in ks && res[k].pending
    ensures Ascending(ks) ==> Ascending(PendingOf(res, ks))
  {
    if ks != [] {
      PendingOfMembers(res, ks[1..]);
      var rest := PendingOf(res, ks[1..]);
      forall k ensures k in PendingOf(res, ks) <==> k in ks && res[k].pending {
        assert k in ks <==> k == ks[0] || k in ks[1..];
      }
      if Ascending(ks) {
        assert Ascending(ks[1..]);
        assert forall j | 0 <= j < |rest| :: rest[j] in ks[1..];
      }
    }
  }

  lemma HeadIn(q: seq<nat>)
    ensures q != [] ==> q[0] in q
  {
  }

  lemma {:induction false} AscendingUnique(a: seq<nat>, b: seq<nat>)
    requires Ascending(a) && Ascending(b) && forall x :: x in a <==> x in b
    ensures a == b
  {
    if a == [] {
      if b != [] {
        HeadIn(b);
      }
    } else {
      assert a[0] in b && b[0] in a;
      var i :| 0 <= i < |b| && b[i] == a[0];
      var j :| 0 <= j < |a| && a[j] == b[0];
      assert a[0] == b[0];
      forall x ensures x in a[1..] <==> x in b[1..] {
        assert x in a <==> x == a[0] || x in a[1..];
        assert x in b <==> x == b[0] || x in b[1..];
      }
      assert Ascending(a[1..]) && Ascending(b[1..]);
      AscendingUnique(a[1..], b[1..]);
    }
  }

  lemma PendingKids(res: Forest, p: nat)
    ensures var ks := Sorted(Kids(res, p, true));
      (forall k | k in ks :: k in res) && PendingOf(res, ks) == Sorted(Kids(res, p, false))
  {
    var ks := Sorted(Kids(res, p, true));
    PendingOfMembers(res, ks);
    AscendingUnique(PendingOf(res, ks), Sorted(Kids(res, p, false)));
  }

  lemma ParentsAre(res: Forest, q: nat)
    ensures q in Parents(res) <==> q != 0 && Kids(res, q, true) != {}
  {
    if q in Parents(res) {
      var c :| c in res && res[c].parent != 0 && res[c].parent == q;
      assert c in Kids(res, q, true);
    }
  }

  lemma IndexAfterRemove(res: Forest, id: nat)
    requires id in res
    ensures var p := res[id].parent;
      Index(res - {id}) ==
        if p == 0 then Index(res)
        else if Kids(res, p, true) == {id} then Index(res) - {p}
        else Index(res)[p := Kids(res, p, true) - {id}]
  {
    var p := res[id].parent;
    var res' := res - {id};
    forall q ensures Kids(res', q, true) == Kids(res, q, true) - {id} {
    }
    forall q ensures q != p ==> id !in Kids(res, q, true) {
    }
    forall q
      ensures q in Parents(res) <==> q != 0 && Kids(res, q, true) != {}
      ensures q in Parents(res') <==> q != 0 && Kids(res', q, true) != {}
    {
      ParentsAre(res, q);
      ParentsAre(res', q);
    }
    assert id in Kids(res, p, true);
    forall q | q != p ensures Kids(res', q, true) == Kids(res, q, true) {
      assert Kids(res', q, true) == Kids(res, q, true) - {id};
    }
    assert Kids(res', p, true) == Kids(res, p, true) - {id};
    if p != 0 {
      if Kids(res, p, true) == {id} {
        assert Index(res').Keys == Index(res).Keys - {p};
      } else {
        assert exists c :: c in Kids(res, p, true) && c != id;
        assert Index(res').Keys == Index(res).Keys;
      }
    } else {
      assert Index(res').Keys == Index(res).Keys;
    }
  }

  // ----- the state one sweep works on

  /** The fields a sweep mutates, with its `removed` list. */
  datatype Walk = Walk(resources: Forest, children: map<nat, set<nat>>, tombstones: set<nat>, removed: seq<Resource>)

  ghost function Walked(w: Walk, ids: seq<nat>): Walk {
    var res := w.resources - Elems(ids);
    Walk(res, Index(res), w.tombstones + Elems(ids), w.removed + Picked(w.resources, ids))
  }

  lemma WalkedTwice(w: Walk, a: seq<nat>, b: seq<nat>)
    requires forall x | x in b :: x in w.resources && x !in a
    ensures Walked(Walked(w, a), b) == Walked(w, a + b)
  {
    hide Index;
    var res := w.resources;
    var q := a + b;
    assert Elems(a) + Elems(b) == Elems(q);
    assert res - Elems(a) - Elems(b) == res - Elems(q);
    assert w.tombstones + Elems(a) + Elems(b) == w.tombstones + Elems(q);
    PickedConcat(res, a, b);
    assert w.removed + Picked(res, a) + Picked(res - Elems(a), b) == w.removed + Picked(res, q);
  }

  lemma ElemsConcat(a: seq<nat>, b: seq<nat>)
    ensures Elems(a + b) == Elems(a) + Elems(b)
  {
  }

  lemma PickedConcat(res: Forest, a: seq<nat>, b: seq<nat>)
    requires forall x | x in b :: x in res && x !in a
    ensures Picked(res, a) + Picked(res - Elems(a), b) == Picked(res, a + b)
  {
    var q := a + b;
    forall i | 0 <= i < |b| ensures q[|a| + i] == b[i] && b[i] in b {
    }
    forall i | 0 <= i < |a| ensures q[i] == a[i] {
    }
    var left, right := Picked(res, a) + Picked(res - Elems(a), b), Picked(res, q);
    forall i | 0 <= i < |q| ensures left[i] == right[i] {
      if i >= |a| {
        assert q[i] == b[i - |a|] && b[i - |a|] in res - Elems(a);
      }
    }
  }

  /** The release of a live Resource, step by step: walk, settle, notify. */
  lemma ReleaseSteps(g: Gen, id: nat, notifyTarget: bool, keepRoot: bool, caller: Option<nat>)
    requires Planted(g.resources) && !g.closing && id in g.resources
    ensures var w := Walked(Walk(g.resources, g.children, g.tombstones, []),
                            Batch(g.resources, id, keepRoot && id == g.root));
      var (g', outcome) := ReleaseResource(g, id, notifyTarget, keepRoot, caller);
      && g' == Gen(g.root, w.resources, w.children, w.tombstones, g.lastControlId, g.closing,
                   g.settled + SettleAll(w.removed, caller),
                   g.responses + Notices(w.removed, id, notifyTarget))
      && outcome == Done(true, CallerIn(w.removed, caller))
  {
    var ids := Batch(g.resources, id, keepRoot && id == g.root);
    assert [] + Picked(g.resources, ids) == Picked(g.resources, ids);
  }

  lemma WalkedNone(w: Walk)
    requires w.children == Index(w.resources)
    ensures Walked(w, []) == w
  {
    assert w.resources - {} == w.resources;
    assert w.tombstones + {} == w.tombstones;
    assert w.removed + [] == w.removed;
  }

  lemma SweepIsLive(res: Forest, p: nat, all: bool)
    requires Planted(res)
    ensures forall x | x in PostOrder(res, p, all) :: x in res && x > p
  {
    forall x | x in PostOrder(res, p, all) ensures x in res && x > p {
      PostOrderMembers(res, p, x, all);
      UnderIsAbove(res, p, x, all);
    }
  }

  /** `done` holds only Resources at or below one of the visited children. */
  ghost predicate Visited(res: Forest, kids: seq<nat>, done: seq<nat>)
    requires Planted(res)
  {
    forall x | x in done :: exists k :: k in kids && In(res, k, x, false)
  }

  /** `done`, then what the sweep of the remaining children will add to it. */
  ghost function RestOf(res: Forest, parent: nat, ks: seq<nat>, done: seq<nat>): seq<nat>
    requires Planted(res)
  {
    if forall k | k in ks :: k in res && k > parent
    then done + PostOrders(res, parent, PendingOf(res, ks), false)
    else []
  }

  lemma RestStep(res: Forest, parent: nat, ks: seq<nat>, done: seq<nat>)
    requires Planted(res) && ks != []
    requires forall k | k in ks :: k in res && k > parent
    ensures RestOf(res, parent, ks, done) == RestOf(res, parent, ks[1..],
      done + (if res[ks[0]].pending then PostOrder(res, ks[0], false) + [ks[0]] else []))
  {
    assert forall k | k in ks[1..] :: k in ks;
    var rest := PendingOf(res, ks[1..]);
    if res[ks[0]].pending {
      var block := PostOrder(res, ks[0], false) + [ks[0]];
      ConcatAssoc(done, block, PostOrders(res, parent, rest, false));
    } else {
      assert PendingOf(res, ks) == rest;
      assert done + [] == done;
    }
  }

  lemma ConcatAssoc(a: seq<nat>, b: seq<nat>, c: seq<nat>)
    ensures (a + b) + c == a + (b + c)
  {
  }

  lemma KidsSuffix(res: Forest, parent: nat, queue: seq<nat>, i: nat)
    requires Planted(res) && queue == Sorted(Kids(res, parent, true)) && i < |queue|
    ensures forall k | k in queue[i..] :: k in res && k > parent
  {
    forall k | k in queue[i..] ensures k in res && k > parent {
      assert k in queue;
    }
  }

  lemma VisitedMore(res: Forest, queue: seq<nat>, i: nat, done: seq<nat>, block: seq<nat>)
    requires Planted(res) && i < |queue| && Visited(res, queue[..i], done)
    requires forall x | x in block :: In(res, queue[i], x, false)
    ensures Visited(res, queue[..i + 1], done + block)
  {
    assert queue[..i + 1] == queue[..i] + [queue[i]];
    assert queue[i] in queue[..i + 1];
  }

  /** The sweep below `parent` has removed `done` and has the children from `i` on to go. */
  ghost predicate Sweeping(start: Walk, parent: nat, queue: seq<nat>, i: nat, done: seq<nat>) {
    var res := start.resources;
    && Planted(res) && start.children == Index(res)
    && queue == Sorted(Kids(res, parent, true)) && i <= |queue|
    && (forall x | x in done :: x in res)
    && Visited(res, queue[..i], done)
    && RestOf(res, parent, queue[i..], done) == PostOrder(res, parent, false)
  }

  lemma SweepStart(start: Walk, parent: nat, queue: seq<nat>) returns (done: seq<nat>)
    requires Planted(start.resources) && start.children == Index(start.resources) && 0 < parent
    requires queue == Sorted(if parent in start.children then start.children[parent] else {})
    ensures Sweeping(start, parent, queue, 0, done) && Walked(start, done) == start
  {
    var res := start.resources;
    done := [];
    assert queue == Sorted(Kids(res, parent, true)) by {
      ParentsAre(res, parent);
    }
    WalkedNone(start);
    RestOfAll(res, parent);
    assert queue[0..] == queue;
  }

  lemma RestOfAll(res: Forest, parent: nat)
    requires Planted(res)
    ensures RestOf(res, parent, Sorted(Kids(res, parent, true)), []) == PostOrder(res, parent, false)
  {
    PendingKids(res, parent);
  }

  lemma SweepEnd(start: Walk, parent: nat, queue: seq<nat>, done: seq<nat>)
    requires Sweeping(start, parent, queue, |queue|, done)
    ensures done == PostOrder(start.resources, parent, false)
  {
    assert queue[|queue|..] == [];
    assert done + [] == done;
  }

  lemma SweepReady(start: Walk, parent: nat, queue: seq<nat>, i: nat, done: seq<nat>)
    requires Sweeping(start, parent, queue, i, done) && i < |queue|
    ensures var child, now := queue[i], Walked(start, done);
      && child in now.resources && child > parent
      && now.resources[child] == start.resources[child]
      && Planted(now.resources) && now.children == Index(now.resources)
      && PostOrder(now.resources, child, false) == PostOrder(start.resources, child, false)
      && Above(now.resources, child) < Above(start.resources, parent)
  {
    var child, now := queue[i], Walked(start, done);
    assert child in queue;
    ChildUntouched(start.resources, parent, queue, i, done);
    PostOrderFrame(start.resources, Elems(done), child, false);
    assert child in Above(start.resources, parent) && child !in Above(now.resources, child);
  }

  lemma SweepSkip(start: Walk, parent: nat, queue: seq<nat>, i: nat, done: seq<nat>)
    requires Sweeping(start, parent, queue, i, done) && i < |queue|
    requires queue[i] in start.resources && !start.resources[queue[i]].pending
    ensures Sweeping(start, parent, queue, i + 1, done)
  {
    KidsSuffix(start.resources, parent, queue, i);
    SuffixStep(queue, i);
    RestStep(start.resources, parent, queue[i..], done);
    VisitedMore(start.resources, queue, i, done, []);
    assert done + [] == done;
  }

  lemma SweepChild(start: Walk, parent: nat, queue: seq<nat>, i: nat, done: seq<nat>) returns (done': seq<nat>)
    requires Sweeping(start, parent, queue, i, done) && i < |queue|
    requires queue[i] in start.resources && start.resources[queue[i]].pending
    ensures Sweeping(start, parent, queue, i + 1, done')
    ensures var block := PostOrder(start.resources, queue[i], false) + [queue[i]];
      Walked(Walked(start, done), block) == Walked(start, done')
  {
    var res, child := start.resources, queue[i];
    var block := PostOrder(res, child, false) + [child];
    done' := done + block;
    KidsSuffix(res, parent, queue, i);
    SuffixStep(queue, i);
    BlockIsSubtree(res, child);
    ChildUntouched(res, parent, queue, i, done);
    WalkedTwice(start, done, block);
    RestStep(res, parent, queue[i..], done);
    VisitedMore(res, queue, i, done, block);
  }

  lemma ChildUntouched(res: Forest, parent: nat, queue: seq<nat>, i: nat, done: seq<nat>)
    requires Planted(res) && queue == Sorted(Kids(res, parent, true)) && i < |queue|
    requires Visited(res, queue[..i], done)
    ensures forall x | x in done :: !In(res, queue[i], x, false)
  {
    forall x | x in done ensures !In(res, queue[i], x, false) {
      var k :| k in queue[..i] && In(res, k, x, false);
      assert k in queue && queue[i] in queue;
      SiblingsDisjoint(res, parent, k, queue[i], x, false);
    }
  }

  lemma BlockIsSubtree(res: Forest, child: nat)
    requires Planted(res) && child in res
    ensures forall x | x in PostOrder(res, child, false) + [child] :: x in res && In(res, child, x, false)
  {
    forall x | x in PostOrder(res, child, false) ensures x in res && In(res, child, x, false) {
      PostOrderMembers(res, child, x, false);
    }
  }

  /** Once swept, nothing pending is left below p. */
  lemma SweptOnce(res: Forest, p: nat)
    requires Planted(res)
    ensures Planted(res - Elems(PostOrder(res, p, false)))
    ensures PostOrder(res - Elems(PostOrder(res, p, false)), p, false) == []
  {
    var res' := res - Elems(PostOrder(res, p, false));
    forall c | c in Kids(res, p, false) ensures c !in res' {
      assert Under(res, p, c, false);
      PostOrderMembers(res, p, c, false);
    }
    assert Kids(res', p, false) == {};
  }

  // ----- the walk of a teardown, which leaves the children index alone

  ghost function Felled(w: Walk, ids: seq<nat>): Walk {
    Walk(w.resources - Elems(ids), w.children, w.tombstones + Elems(ids), w.removed + Picked(w.resources, ids))
  }

  lemma FelledOne(w: Walk, done: seq<nat>, id: nat)
    requires id in w.resources && id !in done
    ensures var f := Felled(w, done);
      Felled(w, done + [id]) == Walk(f.resources - {id}, f.children, f.tombstones + {id}, f.removed + [w.resources[id]])
  {
    var q := done + [id];
    assert Elems(q) == Elems(done) + {id};
    assert w.resources - Elems(done) - {id} == w.resources - Elems(q);
    assert Picked(w.resources, q) == Picked(w.resources, done) + [w.resources[id]];
  }

  /** Nothing of id's subtree has been visited or removed. */
  ghost predicate Untouched(res: Forest, id: nat, visited: set<nat>)
    requires Planted(res)
  {
    id in res && forall x | x in visited :: !In(res, id, x, true)
  }

  /** Below `id`, `acc` is removed and the children from `i` on are to go. */
  ghost predicate Felling(res: Forest, id: nat, queue: seq<nat>, i: nat, acc: seq<nat>)
    requires Planted(res)
  {
    && queue == Sorted(Kids(res, id, true)) && i <= |queue|
    && (forall k | k in queue[i..] :: k in res && k > id)
    && Below(res, id, acc)
    && InTrees(res, queue[..i], acc)
    && acc + PostOrders(res, id, queue[i..], true) == PostOrder(res, id, true)
  }

  ghost predicate Below(res: Forest, id: nat, acc: seq<nat>)
    requires Planted(res)
  {
    forall x | x in acc :: Under(res, id, x, true)
  }

  ghost predicate InTrees(res: Forest, ks: seq<nat>, acc: seq<nat>)
    requires Planted(res)
  {
    forall x | x in acc :: exists k :: k in ks && In(res, k, x, true)
  }

  /** Where the loop of one RemoveTree call stands, `done` being removed before it. */
  ghost predicate InTree(start: Walk, id: nat, queue: seq<nat>, i: nat, done: seq<nat>, acc: seq<nat>,
                         visited: set<nat>) {
    && Planted(start.resources)
    && Felling(start.resources, id, queue, i, acc)
    && Untouched(start.resources, id, visited)
    && Elems(done) <= visited
  }

  lemma IndexedQueue(res: Forest, children: map<nat, set<nat>>, id: nat)
    requires children == Index(res) && 0 < id
    ensures (if id in children then children[id] else {}) == Kids(res, id, true)
  {
    ParentsAre(res, id);
  }

  lemma FellStart(start: Walk, id: nat, queue: seq<nat>, done: seq<nat>, visited: set<nat>)
    requires Planted(start.resources) && queue == Sorted(Kids(start.resources, id, true))
    requires Untouched(start.resources, id, visited) && Elems(done) <= visited
    ensures InTree(start, id, queue, 0, done, [], visited)
  {
    hide Untouched;
    assert queue[0..] == queue;
  }

  lemma FellReady(start: Walk, id: nat, queue: seq<nat>, i: nat, done: seq<nat>, acc: seq<nat>, visited: set<nat>)
    requires InTree(start, id, queue, i, done, acc, visited) && i < |queue|
    ensures var seen := visited + {id} + Elems(acc);
      && Untouched(start.resources, queue[i], seen)
      && queue[i] !in seen && queue[i] > 0
      && Elems(done + acc) <= seen
    ensures Above(start.resources, queue[i]) < Above(start.resources, id)
  {
    var res, child := start.resources, queue[i];
    assert child in queue;
    assert Under(res, id, child, true);
    assert In(res, child, child, true);
    forall x | x in visited + {id} + Elems(acc) ensures !In(res, child, x, true) {
      if x in acc {
        var k :| k in queue[..i] && In(res, k, x, true);
        assert k in queue;
        SiblingsDisjoint(res, id, k, child, x, true);
      } else if Under(res, child, x, true) {
        UnderTransitive(res, id, child, x, true);
        UnderIsAbove(res, child, x, true);
      }
    }
    assert child in Above(res, id) && child !in Above(res, child);
  }

  lemma FellChild(start: Walk, id: nat, queue: seq<nat>, i: nat, done: seq<nat>, acc: seq<nat>, visited: set<nat>)
    returns (acc': seq<nat>)
    requires InTree(start, id, queue, i, done, acc, visited) && i < |queue|
    ensures InTree(start, id, queue, i + 1, done, acc', visited)
    ensures var block := PostOrder(start.resources, queue[i], true) + [queue[i]];
      (done + acc) + block == done + acc' && Elems(acc) + Elems(block) == Elems(acc')
  {
    hide Below, InTrees;
    var res, child := start.resources, queue[i];
    var block := PostOrder(res, child, true) + [child];
    acc' := acc + block;
    assert child in queue;
    SuffixStep(queue, i);
    ConcatAssoc(done, acc, block);
    ElemsConcat(acc, block);
    FellBlock(res, id, child, queue[..i], acc);
    FellRest(res, id, queue[i..], acc);
    assert forall k | k in queue[i + 1..] :: k in queue[i..];
  }

  lemma FellRest(res: Forest, id: nat, ks: seq<nat>, acc: seq<nat>)
    requires Planted(res) && ks != []
    requires forall k | k in ks :: k in res && k > id
    requires forall k | k in ks[1..] :: k in res && k > id
    ensures acc + PostOrders(res, id, ks, true)
         == (acc + (PostOrder(res, ks[0], true) + [ks[0]])) + PostOrders(res, id, ks[1..], true)
  {
    ConcatAssoc(acc, PostOrder(res, ks[0], true) + [ks[0]], PostOrders(res, id, ks[1..], true));
  }

  lemma FellBlock(res: Forest, id: nat, child: nat, ks: seq<nat>, acc: seq<nat>)
    requires Planted(res) && child in Kids(res, id, true)
    requires Below(res, id, acc) && InTrees(res, ks, acc)
    ensures Below(res, id, acc + (PostOrder(res, child, true) + [child]))
    ensures InTrees(res, ks + [child], acc + (PostOrder(res, child, true) + [child]))
  {
    var block := PostOrder(res, child, true) + [child];
    assert Under(res, id, child, true) && child in ks + [child];
    forall x | x in block ensures Under(res, id, x, true) && In(res, child, x, true) {
      PostOrderMembers(res, child, x, true);
      if x != child {
        UnderTransitive(res, id, child, x, true);
      }
    }
  }

  lemma FellEnd(start: Walk, id: nat, queue: seq<nat>, done: seq<nat>, acc: seq<nat>, visited: set<nat>)
    requires InTree(start, id, queue, |queue|, done, acc, visited)
    ensures var block := PostOrder(start.resources, id, true) + [id];
      && visited + {id} + Elems(acc) == visited + Elems(block)
      && var f := Felled(start, done + acc);
        && id in f.resources
        && Felled(start, done + block)
           == Walk(f.resources - {id}, f.children, f.tombstones + {id}, f.removed + [f.resources[id]])
  {
    var res := start.resources;
    hide InTrees;
    assert queue[|queue|..] == [];
    assert acc + [] == acc;
    assert In(res, id, id, true);
    forall x | x in acc ensures x != id {
      UnderIsAbove(res, id, x, true);
    }
    FelledOne(start, done + acc, id);
    ConcatAssoc(done, acc, [id]);
  }

  /** The orphans in a list of live IDs. */
  ghost function OrphansOf(res: Forest, ks: seq<nat>): (os: seq<nat>)
    requires forall k | k in ks :: k in res
    ensures forall k :: k in os <==> k in ks && res[k].parent !in res
    ensures Ascending(ks) ==> Ascending(os)
  {
    if ks == [] then []
    else
      var rest := OrphansOf(res, ks[1..]);
      assert forall j | 0 <= j < |rest| :: rest[j] in rest;
      (if res[ks[0]].parent !in res then [ks[0]] else []) + rest
  }

  /** `ids` lists the live Resources outside the root's tree, or at least its orphans. */
  ghost predicate Listed(res: Forest, root: nat, ids: seq<nat>) {
    && Ascending(ids)
    && (forall k | k in ids :: k in res && k != root)
    && (forall k | k in Orphans(res, root) :: k in ids)
  }

  /** `acc` holds the trees of the root and of the orphans in `ks`. */
  ghost predicate Covers(res: Forest, root: nat, ks: seq<nat>, acc: seq<nat>)
    requires Planted(res)
  {
    forall x :: x in acc <==> exists k :: (k == root || (k in ks && k in Orphans(res, root))) && In(res, k, x, true)
  }

  /** `acc`, then the trees of the orphans in `ks`, is the whole teardown order. */
  ghost predicate Toward(res: Forest, root: nat, ks: seq<nat>, acc: seq<nat>)
    requires Planted(res) && root in res
    requires forall k | k in ks :: k in res
  {
    acc + PostOrders(res, 0, OrphansOf(res, ks), true) == TeardownOrder(res, root)
  }

  /** After the root's tree and the trees of the orphans in `ids[..i]`. */
  ghost predicate Clearing(res: Forest, root: nat, ids: seq<nat>, i: nat, acc: seq<nat>)
    requires Planted(res) && root in res
  {
    && Listed(res, root, ids) && i <= |ids|
    && Covers(res, root, ids[..i], acc)
    && (forall k | k in ids[i..] :: k in res)
    && Toward(res, root, ids[i..], acc)
  }

  lemma ListedStart(res: Forest, root: nat, acc: seq<nat>, ids: seq<nat>)
    requires Planted(res) && root in res
    requires forall x :: x in acc <==> In(res, root, x, true)
    requires ids == Sorted((res - Elems(acc)).Keys)
    ensures Listed(res, root, ids)
  {
    assert forall k | k in ids :: k in res - Elems(acc);
    assert In(res, root, root, true);
    forall k | k in Orphans(res, root) ensures k in ids {
      if Under(res, root, k, true) {
        UnderParentLive(res, root, k, true);
      }
      assert k in res - Elems(acc);
    }
  }

  lemma TowardStart(res: Forest, root: nat, acc: seq<nat>, ids: seq<nat>)
    requires Planted(res) && root in res && Listed(res, root, ids)
    requires acc == PostOrder(res, root, true) + [root]
    ensures Toward(res, root, ids, acc)
  {
    AscendingUnique(OrphansOf(res, ids), Sorted(Orphans(res, root)));
    assert ([root] + Sorted(Orphans(res, root)))[1..] == Sorted(Orphans(res, root));
  }

  lemma ClearStart(res: Forest, root: nat, acc: seq<nat>, ids: seq<nat>)
    requires Planted(res) && root in res && res[root].parent == 0
    requires acc == PostOrder(res, root, true) + [root]
    requires ids == Sorted((res - Elems(acc)).Keys)
    ensures Clearing(res, root, ids, 0, acc)
  {
    forall x ensures x in acc <==> In(res, root, x, true) {
      PostOrderMembers(res, root, x, true);
    }
    ListedStart(res, root, acc, ids);
    TowardStart(res, root, acc, ids);
    assert ids[0..] == ids;
  }

  lemma TowardStep(res: Forest, root: nat, ks: seq<nat>, acc: seq<nat>)
    requires Planted(res) && root in res && ks != []
    requires forall k | k in ks :: k in res
    requires forall k | k in ks[1..] :: k in res
    requires Toward(res, root, ks, acc)
    ensures res[ks[0]].parent in res ==> Toward(res, root, ks[1..], acc)
    ensures res[ks[0]].parent !in res ==> Toward(res, root, ks[1..], acc + (PostOrder(res, ks[0], true) + [ks[0]]))
  {
    var rest := OrphansOf(res, ks[1..]);
    if res[ks[0]].parent in res {
      assert OrphansOf(res, ks) == rest;
    } else {
      assert OrphansOf(res, ks) == [ks[0]] + rest;
      assert ([ks[0]] + rest)[1..] == rest;
      ConcatAssoc(acc, PostOrder(res, ks[0], true) + [ks[0]], PostOrders(res, 0, rest, true));
    }
  }

  lemma ClearStep(res: Forest, root: nat, ids: seq<nat>, i: nat, acc: seq<nat>)
    requires Planted(res) && root in res && res[root].parent == 0
    requires Clearing(res, root, ids, i, acc) && i < |ids|
    ensures ids[i] in res && ids[i] > 0
    ensures ids[i] in acc ==> Clearing(res, root, ids, i + 1, acc)
    ensures ids[i] !in acc ==>
      && Untouched(res, ids[i], Elems(acc))
      && Clearing(res, root, ids, i + 1, acc + (PostOrder(res, ids[i], true) + [ids[i]]))
  {
    hide Covers, Toward, PostOrder, Untouched;
    var id := ids[i];
    SuffixStep(ids, i);
    forall k | k in ids[i..] + ids[i + 1..] ensures k in ids {
    }
    assert id in ids;
    TowardStep(res, root, ids[i..], acc);
    if res[id].parent in res {
      NotOrphanCleared(res, root, ids, i, acc);
      CoversSkip(res, root, ids[..i], id, acc);
    } else {
      OrphanUncleared(res, root, ids, i, acc);
      CoversMore(res, root, ids[..i], id, acc);
    }
  }

  lemma CoversSkip(res: Forest, root: nat, ks: seq<nat>, id: nat, acc: seq<nat>)
    requires Planted(res) && Covers(res, root, ks, acc) && id !in Orphans(res, root)
    ensures Covers(res, root, ks + [id], acc)
  {
    forall k ensures k in ks + [id] <==> k in ks || k == id {
    }
  }

  lemma ClearEnd(res: Forest, root: nat, ids: seq<nat>, acc: seq<nat>)
    requires Planted(res) && root in res && Clearing(res, root, ids, |ids|, acc)
    ensures acc == TeardownOrder(res, root)
  {
    assert ids[|ids|..] == [];
    assert acc + [] == acc;
  }

  lemma CoversMore(res: Forest, root: nat, ks: seq<nat>, id: nat, acc: seq<nat>)
    requires Planted(res) && Covers(res, root, ks, acc) && id in Orphans(res, root)
    ensures Covers(res, root, ks + [id], acc + (PostOrder(res, id, true) + [id]))
  {
    var block := PostOrder(res, id, true) + [id];
    forall x ensures x in block <==> In(res, id, x, true) {
      PostOrderMembers(res, id, x, true);
    }
    forall k ensures k in ks + [id] <==> k in ks || k == id {
    }
  }

  lemma NotOrphanCleared(res: Forest, root: nat, ids: seq<nat>, i: nat, acc: seq<nat>)
    requires Planted(res) && root in res
    requires Listed(res, root, ids) && i < |ids| && Covers(res, root, ids[..i], acc)
    requires ids[i] in res && res[ids[i]].parent in res
    ensures ids[i] in acc
  {
    var k := TopOf(res, root, ids[i]);
    if k != root {
      UnderIsAbove(res, k, ids[i], true);
      assert k in ids;
      var j :| 0 <= j < |ids| && ids[j] == k;
      assert j < i;
      assert ids[..i][j] == k;
    }
  }

  lemma OrphanUncleared(res: Forest, root: nat, ids: seq<nat>, i: nat, acc: seq<nat>)
    requires Planted(res) && root in res && res[root].parent == 0
    requires Listed(res, root, ids) && i < |ids| && Covers(res, root, ids[..i], acc)
    requires ids[i] in res && res[ids[i]].parent !in res
    ensures Untouched(res, ids[i], Elems(acc)) && ids[i] !in acc
  {
    assert In(res, ids[i], ids[i], true);
    forall x | x in acc ensures !In(res, ids[i], x, true) {
      var k :| (k == root || (k in ids[..i] && k in Orphans(res, root))) && In(res, k, x, true);
      assert ids[i] in ids && ids[i] != root;
      assert k != ids[i] by {
        if k in ids[..i] {
          var j :| 0 <= j < i && ids[..i][j] == k;
          assert ids[j] < ids[i];
        }
      }
      TopsDisjoint(res, k, ids[i], x);
    }
  }

  /** The teardown of an open generation, step by step: walk, settle, end. */
  lemma TeardownSteps(g: Gen, caller: Option<nat>)
    requires Planted(g.resources) && !g.closing && g.root in g.resources && g.resources[g.root].parent == 0
    ensures var w := Felled(Walk(g.resources, g.children, g.tombstones, []), TeardownOrder(g.resources, g.root));
      Teardown(g, caller) == Gen(g.root, w.resources, map[], w.tombstones, g.lastControlId, true,
                                 g.settled + SettleAll(w.removed, caller), g.responses + [End])
  {
    var ids := TeardownOrder(g.resources, g.root);
    assert [] + Picked(g.resources, ids) == Picked(g.resources, ids);
  }
}
