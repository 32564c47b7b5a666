/** One client generation on the server, as a value: what each lifecycle-locked
    section does to it, and what every one of them keeps. */
module ResourceGeneration {
  import opened Options
  import opened SortedSets
  import opened ResourceForest

  datatype Body = Adopt(id: nat) | Release(id: nat) | Init

  /** A client request on the control stream. */
  datatype Control = Control(controlId: nat, body: Body)

  /** What the server queues for the client. `Failure` is a raised exception and
      `End` the stream end. */
  datatype Response = Released(id: nat) | Ack(controlId: nat) | Failure | End

  /** One `on_release` invocation, with the routes awaited before it. */
  datatype Settlement = Settlement(id: nat, joined: set<nat>)

  datatype Gen = Gen(
    root: nat,
    resources: Forest,
    children: map<nat, set<nat>>,
    tombstones: set<nat>,
    lastControlId: nat,
    closing: bool,
    settled: seq<Settlement>,
    responses: seq<Response>)

  datatype ReleaseOutcome = Done(released: bool, callerRemoved: bool) | NotFound

  const MAX_ID: nat := 0xFFFF_FFFF

  // ----- operations

  function Opened(root: nat): Gen {
    Gen(root, map[root := Resource(root, 0, false, {})], map[], {}, 0, false, [], [])
  }

  function ConstructChild(g: Gen, parent: nat, id: nat): Gen {
    var res := g.resources[id := Resource(id, parent, true, {})];
    g.(resources := res, children := Index(res))
  }

  /** The Resources behind a list of live IDs. */
  function Picked(res: Forest, ids: seq<nat>): (rs: seq<Resource>)
    ensures |rs| == |ids|
    ensures forall i | 0 <= i < |ids| && ids[i] in res :: rs[i] == res[ids[i]]
  {
    seq(|ids|, i requires 0 <= i < |ids| =>
      if ids[i] in res then res[ids[i]] else Resource(ids[i], 0, false, {}))
  }

  function Without(route: Option<nat>): set<nat> {
    if route.Some? then {route.value} else {}
  }

  function SettleAll(rs: seq<Resource>, caller: Option<nat>): (s: seq<Settlement>)
    ensures |s| == |rs|
    ensures forall i | 0 <= i < |rs| :: s[i] == Settlement(rs[i].id, rs[i].routes - Without(caller))
  {
    seq(|rs|, i requires 0 <= i < |rs| => Settlement(rs[i].id, rs[i].routes - Without(caller)))
  }

  /** The caller's own route belongs to one of these Resources. */
  ghost predicate CallerIn(rs: seq<Resource>, caller: Option<nat>) {
    caller.Some? && exists r | r in rs :: caller.value in r.routes
  }

  /** The notices for a removed batch; the target's own only when asked for. */
  function Notices(rs: seq<Resource>, target: nat, notifyTarget: bool): seq<Response> {
    if rs == [] then []
    else (if notifyTarget || rs[0].id != target then [Released(rs[0].id)] else [])
         + Notices(rs[1..], target, notifyTarget)
  }

  /** Take a batch out of the forest, tombstone it and settle it. */
  ghost function Removal(g: Gen, ids: seq<nat>, caller: Option<nat>): Gen {
    var res := g.resources - Elems(ids);
    g.(resources := res,
    children := Index(res),
    tombstones := g.tombstones + Elems(ids),
    settled := g.settled + SettleAll(Picked(g.resources, ids), caller))
  }

  ghost function ReleaseResource(g: Gen, id: nat, notifyTarget: bool, keepRoot: bool, caller: Option<nat>)
    : (Gen, ReleaseOutcome)
    requires Planted(g.resources)
  {
    if g.closing then (g, Done(false, false))
    else if id !in g.resources then (g, if id in g.tombstones then Done(false, false) else NotFound)
    else
      var ids := Batch(g.resources, id, keepRoot && id == g.root);
      var rs := Picked(g.resources, ids);
      var g' := Removal(g, ids, caller);
      (g'.(responses := g.responses + Notices(rs, id, notifyTarget)),
       Done(true, CallerIn(rs, caller)))
  }

  /** None when the adopt fails the generation. */
  function AdoptResource(g: Gen, id: nat): Option<Gen> {
    if g.closing then None
    else if id in g.resources then
      Some(g.(resources := g.resources[id := g.resources[id].(pending := false)]))
    else if id !in g.tombstones then None
    else Some(g.(responses := g.responses + [Released(id)]))
  }

  /** None when the control fails the generation. The control reader is no route. */
  ghost function ApplyControl(g: Gen, c: Control): Option<Gen>
    requires Planted(g.resources)
  {
    if c.controlId == 0 || c.controlId != g.lastControlId + 1 then None
    else
      var applied :=
        match c.body
        case Adopt(id) => AdoptResource(g, id)
        case Release(id) =>
          var (g', outcome) := ReleaseResource(g, id, false, true, None);
          if outcome == NotFound then None else Some(g')
        case Init => None;
      if applied.None? then None
      else Some(applied.value.(
                lastControlId := c.controlId,
                responses := applied.value.responses + [Ack(c.controlId)]))
  }

  ghost function Teardown(g: Gen, caller: Option<nat>): Gen
    requires Planted(g.resources)
    requires !g.closing ==> g.root in g.resources && g.resources[g.root].parent == 0
  {
    if g.closing then g
    else
      Removal(g, TeardownOrder(g.resources, g.root), caller).(
      closing := true,
      children := map[],
      responses := g.responses + [End])
  }

  // ----- what every operation keeps

  ghost function SettledIds(g: Gen): seq<nat> {
    seq(|g.settled|, i requires 0 <= i < |g.settled| => g.settled[i].id)
  }

  /** The forest invariant, and exactly one settlement for each dead Resource. */
  ghost predicate Valid(g: Gen) {
    && Planted(g.resources)
    && PendingAttached(g.resources)
    && g.children == Index(g.resources)
    && g.resources.Keys !! g.tombstones
    && 0 < g.root && 0 !in g.tombstones
    && (if g.closing then g.resources == map[]
        else g.root in g.resources && g.resources[g.root].parent == 0 && !g.resources[g.root].pending)
    && Distinct(SettledIds(g))
    && (forall x :: x in SettledIds(g) <==> x in g.tombstones)
  }

  lemma ValidIsPlanted(g: Gen)
    ensures Valid(g) ==> Planted(g.resources)
  {
  }

  /** Every Resource this generation ever constructed. */
  function Known(g: Gen): set<nat> {
    g.resources.Keys + g.tombstones
  }

  lemma LiveIsKnown(g: Gen, x: nat)
    ensures x in g.resources ==> x in Known(g)
  {
  }

  lemma OpenedIsOpen(root: nat)
    ensures !Opened(root).closing && Known(Opened(root)) == {root}
  {
  }

  lemma OpenedValid(root: nat)
    requires 0 < root
    ensures Valid(Opened(root)) && Known(Opened(root)) == {root}
  {
  }

  lemma IndexAfterConstruct(res: Forest, parent: nat, id: nat)
    requires id !in res && 0 < parent
    ensures Index(res[id := Resource(id, parent, true, {})])
         == Index(res)[parent := Kids(res, parent, true) + {id}]
  {
    var r := Resource(id, parent, true, {});
    var res' := res[id := r];
    assert Parents(res') == Parents(res) + {parent} by {
      assert id in res' && res'[id].parent == parent;
      forall p | p in Parents(res) ensures p in Parents(res') {
        var c :| c in res && res[c].parent != 0 && res[c].parent == p;
        assert res'[c].parent == p;
      }
    }
    forall p | p in Parents(res')
      ensures Kids(res', p, true) == if p == parent then Kids(res, p, true) + {id} else Kids(res, p, true)
    {
    }
  }

  lemma ConstructChildValid(g: Gen, parent: nat, id: nat)
    requires Valid(g) && parent in g.resources && id !in Known(g) && parent < id
    ensures Valid(ConstructChild(g, parent, id))
    ensures Known(ConstructChild(g, parent, id)) == Known(g) + {id}
  {
    var g' := ConstructChild(g, parent, id);
    assert SettledIds(g') == SettledIds(g);
  }

  /** Removing a batch that takes every pending child along keeps the invariant. */
  lemma RemovalValid(g: Gen, ids: seq<nat>, caller: Option<nat>)
    requires Valid(g) && Distinct(ids) && g.root !in ids
    requires forall x | x in ids :: x in g.resources
    requires forall c | c in g.resources && g.resources[c].pending && g.resources[c].parent in ids :: c in ids
    ensures Valid(Removal(g, ids, caller))
    ensures Known(Removal(g, ids, caller)) == Known(g)
  {
    RemovalSettles(g, ids, caller);
    hide SettledIds, Picked, SettleAll;
  }

  lemma SettlingIds(g: Gen, ids: seq<nat>, caller: Option<nat>)
    requires Planted(g.resources) && forall x | x in ids :: x in g.resources
    ensures SettledIds(Removal(g, ids, caller)) == SettledIds(g) + ids
  {
    var rs := Picked(g.resources, ids);
    forall i | 0 <= i < |ids| ensures rs[i].id == ids[i] {
      assert ids[i] in ids;
    }
  }

  /** The pending cascade leaves no pending orphan, and never takes the root. */
  lemma BatchIsClosed(g: Gen, id: nat)
    requires Valid(g) && id in g.resources
    ensures var b := Batch(g.resources, id, id == g.root);
      && Distinct(b) && g.root !in b
      && (forall x | x in b :: x in g.resources)
      && (forall c | c in g.resources && g.resources[c].pending && g.resources[c].parent in b :: c in b)
  {
    ExactCascade(g.resources, id, id == g.root);
    assert !Under(g.resources, id, g.root, false);
    var b := Batch(g.resources, id, id == g.root);
    forall c | c in g.resources && g.resources[c].pending && g.resources[c].parent in b ensures c in b {
      assert Under(g.resources, id, c, false);
    }
  }

  /** A release keeps the invariant, whoever asked for it, whatever the target. */
  lemma ReleaseValid(g: Gen, id: nat, notifyTarget: bool, caller: Option<nat>)
    requires Valid(g)
    ensures var g' := ReleaseResource(g, id, notifyTarget, true, caller).0;
      Valid(g') && Known(g') == Known(g) && g'.closing == g.closing
  {
    if !g.closing && id in g.resources {
      BatchIsClosed(g, id);
      var ids := Batch(g.resources, id, id == g.root);
      RemovalValid(g, ids, caller);
      var g' := ReleaseResource(g, id, notifyTarget, true, caller).0;
      assert SettledIds(g') == SettledIds(Removal(g, ids, caller));
    }
  }

  lemma AdoptValid(g: Gen, id: nat)
    requires Valid(g) && AdoptResource(g, id).Some?
    ensures Valid(AdoptResource(g, id).value)
    ensures Known(AdoptResource(g, id).value) == Known(g)
  {
    var g' := AdoptResource(g, id).value;
    assert SettledIds(g') == SettledIds(g);
    assert Parents(g'.resources) == Parents(g.resources) by {
      forall p | p in Parents(g.resources) ensures p in Parents(g'.resources) {
        var c :| c in g.resources && g.resources[c].parent != 0 && g.resources[c].parent == p;
        assert g'.resources[c].parent == p;
      }
    }
    forall p ensures Kids(g'.resources, p, true) == Kids(g.resources, p, true) {
    }
  }

  lemma ApplyControlValid(g: Gen, c: Control)
    requires Valid(g) && ApplyControl(g, c).Some?
    ensures Valid(ApplyControl(g, c).value)
    ensures Known(ApplyControl(g, c).value) == Known(g)
  {
    var g' := ApplyControl(g, c).value;
    match c.body
    case Adopt(id) =>
      AdoptValid(g, id);
      assert SettledIds(g') == SettledIds(AdoptResource(g, id).value);
    case Release(id) =>
      ReleaseValid(g, id, false, None);
      assert SettledIds(g') == SettledIds(ReleaseResource(g, id, false, true, None).0);
  }

  /** What the settlements of a removed batch add up to. */
  lemma RemovalSettles(g: Gen, ids: seq<nat>, caller: Option<nat>)
    requires Valid(g) && Distinct(ids) && forall x | x in ids :: x in g.resources
    ensures var r := Removal(g, ids, caller);
      Distinct(SettledIds(r)) && forall x :: x in SettledIds(r) <==> x in r.tombstones
  {
    var r := Removal(g, ids, caller);
    SettlingIds(g, ids, caller);
    DistinctConcat(SettledIds(g), ids);
    hide Planted, PendingAttached, Picked, SettleAll, Index, SettledIds;
    forall x ensures x in SettledIds(r) <==> x in r.tombstones {
      assert x in SettledIds(r) <==> x in SettledIds(g) || x in ids;
    }
  }

  lemma RemovalEmpty(g: Gen, ids: seq<nat>, caller: Option<nat>)
    requires Valid(g) && Distinct(ids) && forall x :: x in ids <==> x in g.resources
    ensures var r := Removal(g, ids, caller);
      && r.resources == map[] && Index(map[]) == map[] && Known(r) == Known(g)
      && 0 !in r.tombstones
      && Distinct(SettledIds(r))
      && (forall x :: x in SettledIds(r) <==> x in r.tombstones)
  {
    RemovalSettles(g, ids, caller);
    hide SettledIds, Picked, SettleAll, PendingAttached;
    assert g.resources - Elems(ids) == map[];
  }

  /** Teardown leaves nothing live, orphaned subtrees included, and settles what was. */
  lemma TeardownValid(g: Gen, caller: Option<nat>)
    requires Valid(g)
    ensures Valid(Teardown(g, caller)) && Known(Teardown(g, caller)) == Known(g)
    ensures Teardown(g, caller).closing && Teardown(g, caller).resources == map[]
  {
    if !g.closing {
      TeardownIsComplete(g.resources, g.root);
      var ids := TeardownOrder(g.resources, g.root);
      RemovalEmpty(g, ids, caller);
      var g', r := Teardown(g, caller), Removal(g, ids, caller);
      assert SettledIds(g') == SettledIds(r);
    }
  }

  // ----- routes

  function OpenRoute(g: Gen, id: nat, route: nat): Gen
    requires id in g.resources
  {
    var r := g.resources[id];
    g.(resources := g.resources[id := r.(routes := r.routes + {route})])
  }

  function CloseRoute(g: Gen, id: nat, route: nat): Gen {
    if id !in g.resources then g
    else
      var r := g.resources[id];
      g.(resources := g.resources[id := r.(routes := r.routes - {route})])
  }

  lemma RoutesKeepForest(g: Gen, id: nat, routes: set<nat>)
    requires Valid(g) && id in g.resources
    ensures var g' := g.(resources := g.resources[id := g.resources[id].(routes := routes)]);
      Valid(g') && Known(g') == Known(g)
  {
    var g' := g.(resources := g.resources[id := g.resources[id].(routes := routes)]);
    assert SettledIds(g') == SettledIds(g);
    assert Parents(g'.resources) == Parents(g.resources) by {
      forall p | p in Parents(g.resources) ensures p in Parents(g'.resources) {
        var c :| c in g.resources && g.resources[c].parent != 0 && g.resources[c].parent == p;
        assert g'.resources[c].parent == p;
      }
    }
    forall p ensures Kids(g'.resources, p, true) == Kids(g.resources, p, true) {
    }
  }

  // ----- notices

  /** A batch notifies each removed Resource, its target only on request. */
  lemma {:induction false} NoticesExact(rs: seq<Resource>, target: nat, notifyTarget: bool, x: Response)
    ensures x in Notices(rs, target, notifyTarget)
       <==> exists r | r in rs :: x == Released(r.id) && (notifyTarget || r.id != target)
  {
    if rs != [] {
      NoticesExact(rs[1..], target, notifyTarget, x);
      assert forall r :: r in rs <==> r == rs[0] || r in rs[1..];
    }
  }

  /** Notices keep the order of the batch. */
  lemma {:induction false} NoticesInOrder(rs: seq<Resource>, target: nat, notifyTarget: bool, i: nat, j: nat)
    returns (p: nat, q: nat)
    requires i < j < |Notices(rs, target, notifyTarget)|
    ensures p < q < |rs|
    ensures Notices(rs, target, notifyTarget)[i] == Released(rs[p].id)
    ensures Notices(rs, target, notifyTarget)[j] == Released(rs[q].id)
  {
    var n, rest := Notices(rs, target, notifyTarget), Notices(rs[1..], target, notifyTarget);
    var told := notifyTarget || rs[0].id != target;
    assert n == if told then [Released(rs[0].id)] + rest else rest;
    hide Notices;
    if told && i == 0 {
      NoticesExact(rs[1..], target, notifyTarget, rest[j - 1]);
      var r :| r in rs[1..] && rest[j - 1] == Released(r.id);
      var k :| 0 <= k < |rs[1..]| && rs[1..][k] == r;
      p, q := 0, k + 1;
    } else {
      var at := if told then 1 else 0;
      p, q := NoticesInOrder(rs[1..], target, notifyTarget, i - at, j - at);
      p, q := p + 1, q + 1;
    }
  }

  /** These responses tell, once each, of all that went between g and g' but for the
      silent ones: of a Resource only behind all that hung below it. */
  ghost predicate Announced(g: Gen, g': Gen, rs: seq<Response>, silent: set<nat>)
    requires Planted(g.resources)
  {
    && (forall i | 0 <= i < |rs| :: rs[i].Released?)
    && (forall y :: Released(y) in rs <==> y in g.resources && y !in g'.resources && y !in silent)
    && (forall i, j | 0 <= i < j < |rs| :: rs[i] != rs[j])
    && (forall i, j | 0 <= i < |rs| && 0 <= j < |rs| && Under(g.resources, rs[j].id, rs[i].id, true) :: i < j)
  }

  lemma BatchAnnounced(g: Gen, g': Gen, ids: seq<nat>, target: nat, notifyTarget: bool)
    requires Planted(g.resources) && Distinct(ids) && ChildFirst(g.resources, ids, true)
    requires (forall y | y in ids :: y in g.resources) && g'.resources == g.resources - Elems(ids)
    ensures Announced(g, g', Notices(Picked(g.resources, ids), target, notifyTarget),
                      if notifyTarget then {} else {target})
  {
    var rs := Picked(g.resources, ids);
    var ns := Notices(rs, target, notifyTarget);
    forall i | 0 <= i < |ids| ensures rs[i].id == ids[i] {
      assert ids[i] in ids;
    }
    hide Picked, Notices;
    forall i | 0 <= i < |ns| ensures ns[i].Released? {
      NoticesExact(rs, target, notifyTarget, ns[i]);
      assert ns[i] in ns;
    }
    forall y ensures Released(y) in ns <==> y in ids && (notifyTarget || y != target) {
      NoticesExact(rs, target, notifyTarget, Released(y));
      if y in ids {
        var i :| 0 <= i < |ids| && ids[i] == y;
        assert rs[i] in rs;
      }
    }
    forall i, j | 0 <= i < j < |ns| ensures ns[i] != ns[j] && !Under(g.resources, ns[i].id, ns[j].id, true) {
      var p, q := NoticesInOrder(rs, target, notifyTarget, i, j);
      assert ns[i] == Released(ids[p]) && ns[j] == Released(ids[q]);
    }
    forall i, j | 0 <= i < |ns| && 0 <= j < |ns| && Under(g.resources, ns[j].id, ns[i].id, true) ensures i < j {
      UnderIsAbove(g.resources, ns[j].id, ns[i].id, true);
    }
  }

  /** What a release queues: one notice for each Resource it removed, children first, and
      one for its target only on request. */
  lemma ReleaseAnnounces(g: Gen, id: nat, notifyTarget: bool, caller: Option<nat>)
    requires Valid(g)
    ensures var g' := ReleaseResource(g, id, notifyTarget, true, caller).0;
      && |g.responses| <= |g'.responses| && g'.responses[..|g.responses|] == g.responses
      && Announced(g, g', g'.responses[|g.responses|..], if notifyTarget then {} else {id})
  {
    var g' := ReleaseResource(g, id, notifyTarget, true, caller).0;
    if !g.closing && id in g.resources {
      var ids := Batch(g.resources, id, id == g.root);
      BatchIsClosed(g, id);
      BatchChildFirst(g.resources, id, id == g.root);
      BatchAnnounced(g, g', ids, id, notifyTarget);
      hide Announced, Batch, Notices, Picked, ChildFirst;
      assert g'.responses[|g.responses|..] == Notices(Picked(g.resources, ids), id, notifyTarget);
    }
  }

  /** What a release answers: whether it removed something, and whether the caller's own
      route belonged to any of it. Only an ID that was never constructed is not found. */
  lemma ReleaseAnswers(g: Gen, id: nat, notifyTarget: bool, caller: Option<nat>)
    requires Valid(g)
    ensures var (g', outcome) := ReleaseResource(g, id, notifyTarget, true, caller);
      && (outcome == NotFound <==> !g.closing && id !in Known(g))
      && (outcome.Done? ==>
            && (outcome.released <==> !g.closing && id in g.resources)
            && (outcome.callerRemoved <==>
                  exists y :: y in g.resources && y !in g'.resources && caller.Some?
                    && caller.value in g.resources[y].routes))
  {
    var (g', outcome) := ReleaseResource(g, id, notifyTarget, true, caller);
    if !g.closing && id in g.resources {
      var ids := Batch(g.resources, id, id == g.root);
      BatchIsClosed(g, id);
      CallerInBatch(g.resources, ids, caller);
      hide Batch, Valid, CallerIn, Distinct, Notices;
      assert forall y :: y in g.resources && y !in g'.resources <==> y in ids;
    }
  }

  lemma CallerInBatch(res: Forest, ids: seq<nat>, caller: Option<nat>)
    requires forall y | y in ids :: y in res
    ensures CallerIn(Picked(res, ids), caller)
       <==> exists y :: y in ids && caller.Some? && caller.value in res[y].routes
  {
    var rs := Picked(res, ids);
    if caller.Some? {
      forall y | y in ids ensures res[y] in rs {
        var i :| 0 <= i < |ids| && ids[i] == y;
        assert rs[i] == res[y];
      }
      forall r | r in rs ensures exists y :: y in ids && r == res[y] {
        var i :| 0 <= i < |rs| && rs[i] == r;
        assert ids[i] in ids && rs[i] == res[ids[i]];
      }
    }
  }

  // ----- what constructing, settling and controls come to

  /** A new child is pending under its parent and has no routes; nothing else moves. */
  lemma ConstructMeans(g: Gen, parent: nat, id: nat)
    requires Valid(g) && parent in g.resources && id !in Known(g)
    ensures var g' := ConstructChild(g, parent, id);
      && g'.resources.Keys == g.resources.Keys + {id}
      && g'.resources[id].parent == parent && g'.resources[id].pending && g'.resources[id].routes == {}
      && (forall x | x in g.resources :: g'.resources[x] == g.resources[x])
      && (forall p, c :: p in g'.children && c in g'.children[p]
            <==> (p in g.children && c in g.children[p]) || (p == parent && c == id))
      && g'.tombstones == g.tombstones && g'.settled == g.settled && g'.responses == g.responses
      && g'.root == g.root && g'.lastControlId == g.lastControlId && g'.closing == g.closing
  {
    var g' := ConstructChild(g, parent, id);
    assert parent > 0 by {
      assert parent in Known(g) && 0 !in g.tombstones;
    }
    IndexAfterConstruct(g.resources, parent, id);
    forall p, c
      ensures p in g'.children && c in g'.children[p]
         <==> (p in g.children && c in g.children[p]) || (p == parent && c == id)
    {
      assert p in g.children && c in g.children[p] <==> p in Parents(g.resources) && c in Kids(g.resources, p, true);
      assert c in Kids(g.resources, parent, true) ==> parent in Parents(g.resources);
    }
  }

  /** The settlements that g' has and g had not join the routes open on their Resources,
      all but the caller's. */
  ghost predicate Joins(g: Gen, g': Gen, caller: Option<nat>) {
    && |g.settled| <= |g'.settled| && g'.settled[..|g.settled|] == g.settled
    && forall i | |g.settled| <= i < |g'.settled| ::
         && g'.settled[i].id in g.resources
         && forall r :: r in g'.settled[i].joined <==> r in g.resources[g'.settled[i].id].routes && caller != Some(r)
  }

  lemma RemovalJoins(g: Gen, ids: seq<nat>, caller: Option<nat>)
    requires Planted(g.resources) && forall x | x in ids :: x in g.resources
    ensures Joins(g, Removal(g, ids, caller), caller)
  {
    var rs, g' := Picked(g.resources, ids), Removal(g, ids, caller);
    forall i | |g.settled| <= i < |g'.settled|
      ensures g'.settled[i].id in g.resources
      ensures forall r :: r in g'.settled[i].joined <==> r in g.resources[g'.settled[i].id].routes && caller != Some(r)
    {
      var k := i - |g.settled|;
      assert ids[k] in ids && rs[k] == g.resources[ids[k]] && rs[k].id == ids[k];
      assert g'.settled[i] == SettleAll(rs, caller)[k];
    }
  }

  lemma ReleaseJoins(g: Gen, id: nat, notifyTarget: bool, caller: Option<nat>)
    requires Valid(g)
    ensures Joins(g, ReleaseResource(g, id, notifyTarget, true, caller).0, caller)
  {
    if !g.closing && id in g.resources {
      BatchIsClosed(g, id);
      RemovalJoins(g, Batch(g.resources, id, id == g.root), caller);
    }
  }

  lemma TeardownJoins(g: Gen, caller: Option<nat>)
    requires Valid(g)
    ensures Joins(g, Teardown(g, caller), caller)
  {
    if !g.closing {
      TeardownIsComplete(g.resources, g.root);
      RemovalJoins(g, TeardownOrder(g.resources, g.root), caller);
    }
  }

  /** Which controls are accepted: the next one, if it adopts a known ID of a generation
      that stands, or releases any known ID, or any at all once the generation closes. */
  lemma ControlAcceptedIff(g: Gen, c: Control)
    requires Valid(g)
    ensures ApplyControl(g, c).Some?
       <==> && c.controlId == g.lastControlId + 1
            && (match c.body
                case Adopt(id) => !g.closing && id in Known(g)
                case Release(id) => g.closing || id in Known(g)
                case Init => false)
  {
    if c.body.Release? {
      ReleaseAnswers(g, c.body.id, false, None);
    }
    hide ReleaseResource;
  }
}
