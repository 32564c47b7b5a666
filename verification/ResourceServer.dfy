/** The Resource server: its generations, and the methods that mutate them in place.
    One method body is one section run under `generation.lifecycle`. */
module ResourceServer {
  import opened Options
  import opened SortedSets
  import opened ResourceForest
  import opened ResourceGeneration
  import opened ResourceWalk

  class Generation {
    const id: nat
    const root: nat
    var resources: map<nat, Resource>
    var children: map<nat, set<nat>>
    var tombstones: set<nat>
    var lastControlId: nat
    var closing: bool
    var settled: seq<Settlement>
    var responses: seq<Response>

    ghost function State(): Gen
      reads this
    {
      Gen(root, resources, children, tombstones, lastControlId, closing, settled, responses)
    }

    constructor (id: nat, root: nat)
      requires 0 < root
      ensures this.id == id && this.root == root
      ensures State() == Opened(root) && ResourceGeneration.Valid(State())
    {
      this.id, this.root := id, root;
      resources := map[root := Resource(root, 0, false, {})];
      children, tombstones, lastControlId := map[], {}, 0;
      closing, settled, responses := false, [], [];
      new;
      OpenedValid(root);
    }

    ghost function Now(removed: seq<Resource>): Walk
      reads this
    {
      Walk(resources, children, tombstones, removed)
    }

    /** Sweep the pending children of `parent` into `removed`, lowest ID first. */
    method RemovePending(parent: nat, removed: seq<Resource>) returns (removed': seq<Resource>)
      requires Planted(resources) && children == Index(resources) && 0 < parent
      modifies this`resources, this`children, this`tombstones
      ensures Now(removed') == Walked(old(Now(removed)), PostOrder(old(resources), parent, false))
      decreases Above(resources, parent), 1
    {
      ghost var start := Now(removed);
      var queue := Sorted(if parent in children then children[parent] else {});
      removed' := removed;
      ghost var done := SweepStart(start, parent, queue);
      for i := 0 to |queue|
        invariant Sweeping(start, parent, queue, i, done)
        invariant Now(removed') == Walked(start, done)
      {
        var child := queue[i];
        SweepReady(start, parent, queue, i, done);
        if child in resources && resources[child].pending {
          removed' := RemoveOne(child, removed');
          done := SweepChild(start, parent, queue, i, done);
        } else {
          SweepSkip(start, parent, queue, i, done);
        }
      }
      SweepEnd(start, parent, queue, done);
    }

    /** Take one Resource out of the forest and out of its parent's children. */
    method Pop(resource: Resource, removed: seq<Resource>) returns (removed': seq<Resource>)
      requires Planted(resources) && children == Index(resources)
      requires resource.id in resources && resources[resource.id] == resource
      modifies this`resources, this`children, this`tombstones
      ensures Now(removed') == Walked(old(Now(removed)), [resource.id])
    {
      IndexAfterRemove(resources, resource.id);
      ParentsAre(resources, resource.parent);
      assert Elems([resource.id]) == {resource.id};
      resources := resources - {resource.id};
      if resource.parent in children {
        var siblings := children[resource.parent] - {resource.id};
        if siblings == {} {
          children := children - {resource.parent};
        } else {
          children := children[resource.parent := siblings];
        }
      }
      tombstones := tombstones + {resource.id};
      removed' := removed + [resource];
    }

    /** Remove `selected` after its pending subtree. */
    method RemoveOne(selected: nat, removed: seq<Resource>) returns (removed': seq<Resource>)
      requires Planted(resources) && children == Index(resources) && 0 < selected
      modifies this`resources, this`children, this`tombstones
      ensures selected !in old(resources) ==> Now(removed') == old(Now(removed))
      ensures selected in old(resources) ==>
          Now(removed') == Walked(old(Now(removed)), PostOrder(old(resources), selected, false) + [selected])
      decreases Above(resources, selected), 2
    {
      if selected !in resources {
        return removed;
      }
      ghost var start := Now(removed);
      ghost var ids := PostOrder(resources, selected, false);
      SweepIsLive(resources, selected, false);
      var resource := resources[selected];
      removed' := RemovePending(selected, removed);
      removed' := Pop(resource, removed');
      WalkedTwice(start, ids, [selected]);
    }

    method RemoveLocked(id: nat, retainTarget: bool) returns (removed: seq<Resource>)
      requires Planted(resources) && children == Index(resources) && id in resources && 0 < id
      modifies this`resources, this`children, this`tombstones
      ensures Now(removed) == Walked(old(Now([])), Batch(old(resources), id, retainTarget))
    {
      ghost var start := Now([]);
      ghost var below := PostOrder(resources, id, false);
      SweepIsLive(resources, id, false);
      removed := RemovePending(id, []);
      assert below + [] == below;
      if !retainTarget {
        SweptOnce(start.resources, id);
        removed := RemoveOne(id, removed);
        assert [] + [id] == [id];
        WalkedTwice(start, below, [id]);
      }
    }

    // ----- settling and releasing

    /** Await every route but the caller's, then run the release callback, in order. */
    method SettleRemoved(removed: seq<Resource>, caller: Option<nat>)
      modifies this`settled
      ensures settled == old(settled) + SettleAll(removed, caller)
    {
      for i := 0 to |removed|
        invariant settled == old(settled) + SettleAll(removed, caller)[..i]
      {
        var waiting := removed[i].routes - Without(caller);
        var joined: set<nat> := {};
        while waiting != {}
          invariant joined + waiting == removed[i].routes - Without(caller)
        {
          var route :| route in waiting;
          waiting, joined := waiting - {route}, joined + {route};
        }
        settled := settled + [Settlement(removed[i].id, joined)];
        assert SettleAll(removed, caller)[..i + 1]
            == SettleAll(removed, caller)[..i] + [SettleAll(removed, caller)[i]];
      }
    }

    method NotifyRemoved(removed: seq<Resource>, target: nat, notifyTarget: bool)
      modifies this`responses
      ensures responses == old(responses) + Notices(removed, target, notifyTarget)
    {
      for i := 0 to |removed|
        invariant responses + Notices(removed[i..], target, notifyTarget)
               == old(responses) + Notices(removed, target, notifyTarget)
      {
        assert removed[i..][0] == removed[i] && removed[i..][1..] == removed[i + 1..];
        if notifyTarget || removed[i].id != target {
          responses := responses + [Released(removed[i].id)];
        }
      }
      assert removed[|removed|..] == [];
    }

    method AnyRoute(removed: seq<Resource>, caller: Option<nat>) returns (found: bool)
      ensures found == CallerIn(removed, caller)
    {
      found := false;
      for i := 0 to |removed|
        invariant found <==> caller.Some? && exists j | 0 <= j < i :: caller.value in removed[j].routes
      {
        if caller.Some? && caller.value in removed[i].routes {
          found := true;
        }
      }
    }

    method ReleaseOwned(id: nat, notifyTarget: bool, keepRoot: bool, caller: Option<nat>)
      returns (outcome: ReleaseOutcome)
      requires ResourceGeneration.Valid(State())
      modifies this
      ensures (State(), outcome) == ReleaseResource(old(State()), id, notifyTarget, keepRoot, caller)
    {
      if closing {
        return Done(false, false);
      }
      if id !in resources {
        return if id in tombstones then Done(false, false) else NotFound;
      }
      outcome := ReleaseLive(id, notifyTarget, keepRoot, caller);
    }

    method ReleaseLive(id: nat, notifyTarget: bool, keepRoot: bool, caller: Option<nat>)
      returns (outcome: ReleaseOutcome)
      requires Planted(resources) && children == Index(resources)
      requires !closing && id in resources && 0 < id
      modifies this
      ensures State() == ReleaseResource(old(State()), id, notifyTarget, keepRoot, caller).0
      ensures outcome == ReleaseResource(old(State()), id, notifyTarget, keepRoot, caller).1
    {
      hide ReleaseResource, Walked, Batch, SettleAll, Notices, CallerIn, Planted, Index;
      ReleaseSteps(State(), id, notifyTarget, keepRoot, caller);
      var removed := RemoveLocked(id, keepRoot && id == root);
      var callerRemoved := AnyRoute(removed, caller);
      SettleRemoved(removed, caller);
      NotifyRemoved(removed, id, notifyTarget);
      outcome := Done(true, callerRemoved);
    }

    method Adopt(id: nat) returns (found: bool)
      modifies this`resources, this`responses
      ensures found == AdoptResource(old(State()), id).Some?
      ensures State() == if found then AdoptResource(old(State()), id).value else old(State())
    {
      if closing {
        return false;
      }
      if id in resources {
        resources := resources[id := resources[id].(pending := false)];
        return true;
      }
      if id !in tombstones {
        return false;
      }
      responses := responses + [Released(id)];
      return true;
    }

    /** One control from the client; false when it fails the generation. */
    method Apply(control: Control) returns (ok: bool)
      requires ResourceGeneration.Valid(State())
      modifies this
      ensures ok == ApplyControl(old(State()), control).Some?
      ensures State() == if ok then ApplyControl(old(State()), control).value else old(State())
    {
      if control.controlId == 0 || control.controlId != lastControlId + 1 {
        return false;
      }
      match control.body {
        case Adopt(id) =>
          ok := Adopt(id);
        case Release(id) =>
          var outcome := ReleaseOwned(id, false, true, None);
          ok := outcome != NotFound;
        case Init =>
          ok := false;
      }
      if !ok {
        return;
      }
      lastControlId := control.controlId;
      responses := responses + [Ack(control.controlId)];
    }

    method Construct(parent: nat, id: nat) returns (ok: bool)
      requires ResourceGeneration.Valid(State()) && id !in Known(State())
      modifies this`resources, this`children
      ensures ok == (!old(closing) && parent in old(resources))
      ensures State() == if ok then ConstructChild(old(State()), parent, id) else old(State())
    {
      if closing || parent !in resources {
        return false;
      }
      IndexAfterConstruct(resources, parent, id);
      ParentsAre(resources, parent);
      resources := resources[id := Resource(id, parent, true, {})];
      var siblings := if parent in children then children[parent] else {};
      children := children[parent := siblings + {id}];
      return true;
    }

    /** A ResourceRpc route opens on, or leaves, a Resource. */
    method AddRoute(id: nat, route: nat)
      requires ResourceGeneration.Valid(State()) && id in resources
      modifies this`resources
      ensures State() == OpenRoute(old(State()), id, route) && ResourceGeneration.Valid(State())
    {
      RoutesKeepForest(State(), id, resources[id].routes + {route});
      resources := resources[id := resources[id].(routes := resources[id].routes + {route})];
    }

    method DropRoute(id: nat, route: nat)
      requires ResourceGeneration.Valid(State())
      modifies this`resources
      ensures State() == CloseRoute(old(State()), id, route) && ResourceGeneration.Valid(State())
    {
      if id in resources {
        RoutesKeepForest(State(), id, resources[id].routes - {route});
        resources := resources[id := resources[id].(routes := resources[id].routes - {route})];
      }
    }

    // ----- teardown

    method RemoveTree(id: nat, visited: set<nat>, removed: seq<Resource>, ghost start: Walk, ghost done: seq<nat>)
      returns (visited': set<nat>, removed': seq<Resource>)
      requires Planted(start.resources) && start.children == Index(start.resources) && 0 < id
      requires Now(removed) == Felled(start, done)
      requires Elems(done) <= visited
      requires id !in visited ==> Untouched(start.resources, id, visited)
      modifies this`resources, this`tombstones
      ensures id in visited ==> visited' == visited && Now(removed') == Felled(start, done)
      ensures id !in visited ==>
        var block := PostOrder(start.resources, id, true) + [id];
        && Now(removed') == Felled(start, done + block)
        && visited' == visited + Elems(block)
      decreases Above(start.resources, id), 1
    {
      hide PostOrder, Untouched, Planted, Index, InTree, Kids;
      visited', removed' := visited, removed;
      if id in visited {
        return;
      }
      IndexedQueue(start.resources, children, id);
      visited' := visited + {id};
      var queue := Sorted(if id in children then children[id] else {});
      ghost var acc := [];
      visited', removed', acc := RemoveTrees(id, queue, visited', removed', start, done, visited);
      FellEnd(start, id, queue, done, acc, visited);
      if id in resources {
        removed' := removed' + [resources[id]];
        resources := resources - {id};
        tombstones := tombstones + {id};
      }
    }

    method RemoveTrees(id: nat, queue: seq<nat>, seen: set<nat>, removed: seq<Resource>,
                       ghost start: Walk, ghost done: seq<nat>, ghost visited: set<nat>)
      returns (seen': set<nat>, removed': seq<Resource>, ghost acc: seq<nat>)
      requires Planted(start.resources) && start.children == Index(start.resources)
      requires queue == Sorted(Kids(start.resources, id, true))
      requires Untouched(start.resources, id, visited) && Elems(done) <= visited && seen == visited + {id}
      requires Now(removed) == Felled(start, done)
      modifies this`resources, this`tombstones
      ensures InTree(start, id, queue, |queue|, done, acc, visited)
      ensures Now(removed') == Felled(start, done + acc)
      ensures seen' == visited + {id} + Elems(acc)
      decreases Above(start.resources, id), 0
    {
      hide *;
      seen', removed', acc := seen, removed, [];
      FellStart(start, id, queue, done, visited);
      assert done + [] == done;
      for i := 0 to |queue|
        invariant InTree(start, id, queue, i, done, acc, visited)
        invariant Now(removed') == Felled(start, done + acc)
        invariant seen' == visited + {id} + Elems(acc)
      {
        FellReady(start, id, queue, i, done, acc, visited);
        seen', removed' := RemoveTree(queue[i], seen', removed', start, done + acc);
        acc := FellChild(start, id, queue, i, done, acc, visited);
      }
    }

    /** Invalidate the generation: sweep the root's tree, then the orphaned trees. */
    method ReleaseGenerationOwned(caller: Option<nat>)
      requires ResourceGeneration.Valid(State())
      modifies this
      ensures State() == Teardown(old(State()), caller)
    {
      if closing {
        return;
      }
      Dismantle(caller);
    }

    method Dismantle(caller: Option<nat>)
      requires Planted(resources) && children == Index(resources) && !closing
      requires root in resources && resources[root].parent == 0 && 0 < root
      modifies this
      ensures State() == Teardown(old(State()), caller)
    {
      hide Teardown, Felled, TeardownOrder, SettleAll, Planted, Index;
      TeardownSteps(State(), caller);
      closing := true;
      var removed := RemoveAll();
      children := map[];
      SettleRemoved(removed, caller);
      responses := responses + [End];
    }

    method RemoveAll() returns (removed: seq<Resource>)
      requires Planted(resources) && children == Index(resources)
      requires root in resources && resources[root].parent == 0 && 0 < root
      modifies this`resources, this`tombstones
      ensures Now(removed) == Felled(old(Now([])), TeardownOrder(old(resources), root))
    {
      ghost var start := Now([]);
      assert Untouched(resources, root, {});
      ghost var acc := PostOrder(resources, root, true) + [root];
      assert [] + acc == acc;
      var visited;
      visited, removed := RemoveTree(root, {}, [], start, []);
      assert {} + Elems(acc) == Elems(acc);
      removed := RemoveOrphans(visited, removed, start, acc);
    }

    /** Whatever the root's tree left behind, lowest ID first. */
    method RemoveOrphans(visited: set<nat>, removed: seq<Resource>, ghost start: Walk, ghost tree: seq<nat>)
      returns (removed': seq<Resource>)
      requires Planted(start.resources) && start.children == Index(start.resources)
      requires root in start.resources && start.resources[root].parent == 0
      requires tree == PostOrder(start.resources, root, true) + [root]
      requires Now(removed) == Felled(start, tree) && visited == Elems(tree)
      modifies this`resources, this`tombstones
      ensures Now(removed') == Felled(start, TeardownOrder(start.resources, root))
    {
      var ids := Sorted(resources.Keys);
      ClearStart(start.resources, root, tree, ids);
      removed' := RemoveListed(ids, visited, removed, start, tree);
    }

    method RemoveListed(ids: seq<nat>, visited: set<nat>, removed: seq<Resource>, ghost start: Walk,
                        ghost tree: seq<nat>)
      returns (removed': seq<Resource>)
      requires Planted(start.resources) && start.children == Index(start.resources)
      requires root in start.resources && start.resources[root].parent == 0
      requires Clearing(start.resources, root, ids, 0, tree)
      requires Now(removed) == Felled(start, tree) && visited == Elems(tree)
      modifies this`resources, this`tombstones
      ensures Now(removed') == Felled(start, TeardownOrder(start.resources, root))
    {
      hide *;
      ghost var acc, res := tree, start.resources;
      var seen;
      seen, removed' := visited, removed;
      var i := 0;
      while i < |ids|
        invariant 0 <= i <= |ids|
        invariant Clearing(res, root, ids, i, acc)
        invariant Now(removed') == Felled(start, acc)
        invariant seen == Elems(acc)
      {
        ClearStep(res, root, ids, i, acc);
        ghost var was := acc;
        ghost var block := PostOrder(res, ids[i], true) + [ids[i]];
        if ids[i] !in seen {
          acc := acc + block;
        }
        seen, removed' := RemoveTree(ids[i], seen, removed', start, was);
        i := i + 1;
      }
      ClearEnd(res, root, ids, acc);
    }
  }
  /** A control adds no ID to a generation, and closes none. */
  lemma AppliedStaysOpen(g: Gen, control: Control)
    requires ResourceGeneration.Valid(g)
    ensures ApplyControl(g, control).Some? ==>
        var g' := ApplyControl(g, control).value;
        ResourceGeneration.Valid(g') && Known(g') == Known(g) && g'.closing == g.closing
  {
    if ApplyControl(g, control).Some? {
      ApplyControlValid(g, control);
      if control.body.Release? {
        ReleaseValid(g, control.body.id, false, None);
      }
    }
  }

  class Server {
    var nextId: nat
    var generations: map<nat, Generation>
    var closed: bool

    ghost function Held(g: Generation): set<nat>
      reads g
    {
      Known(g.State()) + {g.id}
    }

    /** Every open generation is well formed, and no ID is shared between two of them. */
    ghost predicate Valid()
      reads this, generations.Values
    {
      && (forall k | k in generations ::
            && generations[k].id == k
            && ResourceGeneration.Valid(generations[k].State())
            && !generations[k].closing
            && (forall x | x in Held(generations[k]) :: x <= nextId))
      && (forall j, k | j in generations && k in generations && j != k ::
            Held(generations[j]) !! Held(generations[k]))
    }

    constructor ()
      ensures Valid() && generations == map[] && nextId == 0 && !closed
    {
      nextId, generations, closed := 0, map[], false;
    }

    /** The counter moves on even when the ID space is exhausted. */
    method AllocateId() returns (id: Option<nat>)
      modifies this`nextId
      ensures nextId == old(nextId) + 1
      ensures id == if nextId > MAX_ID then None else Some(nextId)
    {
      nextId := nextId + 1;
      id := if nextId > MAX_ID then None else Some(nextId);
    }

    method OpenClient() returns (generation: Generation?)
      requires Valid()
      modifies this
      ensures Valid() && closed == old(closed)
      ensures generation == null ==> generations == old(generations)
      ensures generation == null <==> old(closed) || old(nextId) + 2 > MAX_ID
      ensures generation != null ==>
        && fresh(generation) && generation.State() == Opened(old(nextId) + 2)
        && generation.id == old(nextId) + 1
        && generations == old(generations)[generation.id := generation]
    {
      hide ResourceGeneration.Valid, Known;
      if closed {
        return null;
      }
      var generationId := AllocateId();
      if generationId.None? {
        return null;
      }
      var rootId := AllocateId();
      if rootId.None? {
        return null;
      }
      generation := Register(generationId.value, rootId.value);
    }

    method Register(generationId: nat, rootId: nat) returns (generation: Generation)
      requires Valid() && 0 < generationId < rootId <= nextId
      requires forall k | k in generations :: generationId !in Held(generations[k]) && rootId !in Held(generations[k])
      requires generationId !in generations
      modifies this`generations
      ensures Valid()
      ensures fresh(generation) && generation.State() == Opened(rootId) && generation.id == generationId
      ensures generations == old(generations)[generationId := generation]
    {
      hide ResourceGeneration.Valid, Known, Opened;
      generation := new Generation(generationId, rootId);
      OpenedValid(rootId);
      assert !generation.closing && Held(generation) == {rootId, generationId} by {
        OpenedIsOpen(rootId);
      }
      hide Held;
      assert forall k | k in generations :: Held(generations[k]) == old(Held(generations[k]));
      generations := generations[generationId := generation];
    }

    method ConstructChild(generation: Generation, parent: nat) returns (id: Option<nat>)
      requires Valid() && generation in generations.Values
      modifies this`nextId, generation
      ensures Valid() && nextId >= old(nextId)
      ensures id.Some? <==> parent in old(generation.resources) && old(nextId) + 1 <= MAX_ID
      ensures id.Some? ==>
        && id.value == old(nextId) + 1
        && (forall k | k in generations :: id.value !in old(Held(generations[k])))
        && generation.State() == ResourceGeneration.ConstructChild(old(generation.State()), parent, id.value)
      ensures id.None? ==> generation.State() == old(generation.State())
    {
      hide ResourceGeneration.Valid, ResourceGeneration.ConstructChild, Known;
      if generation.closing || parent !in generation.resources {
        return None;
      }
      id := AllocateId();
      if id.None? {
        return;
      }
      LiveIsKnown(generation.State(), parent);
      ConstructChildValid(generation.State(), parent, id.value);
      label before:
      ghost var held := Held(generation);
      var ok := generation.Construct(parent, id.value);
      assert Held(generation) == held + {id.value};
      forall k | k in generations && generations[k] != generation
        ensures Held(generations[k]) == old@before(Held(generations[k]))
      {
      }
      forall j, k | j in generations && k in generations && j != k
        ensures Held(generations[j]) !! Held(generations[k])
      {
        hide Held;
        assert generations[j] != generations[k];
        assert old@before(Held(generations[j])) !! old@before(Held(generations[k]));
      }
    }

    /** Whichever order the generations come in, the answer is the only possible one. */
    method FindResource(id: nat) returns (generation: Generation?)
      requires Valid()
      ensures generation == null ==> forall k | k in generations :: id !in generations[k].resources
      ensures generation != null ==> generation in generations.Values && id in generation.resources
      ensures generation != null ==>
        forall k | k in generations && id in generations[k].resources :: generations[k] == generation
    {
      var rest := generations.Keys;
      while rest != {}
        invariant rest <= generations.Keys
        invariant forall k | k in generations && k !in rest :: id !in generations[k].resources
      {
        var k :| k in rest;
        rest := rest - {k};
        if !generations[k].closing && id in generations[k].resources {
          return generations[k];
        }
      }
      return null;
    }

    /** The reader of one generation applies its next control; no other is touched. */
    method ApplyControl(generation: Generation, control: Control) returns (ok: bool)
      requires Valid() && generation in generations.Values
      modifies generation
      ensures Valid()
      ensures ok == ResourceGeneration.ApplyControl(old(generation.State()), control).Some?
      ensures generation.State()
           == if ok then ResourceGeneration.ApplyControl(old(generation.State()), control).value
              else old(generation.State())
    {
      hide ResourceGeneration.Valid, Known, ResourceGeneration.ApplyControl;
      AppliedStaysOpen(generation.State(), control);
      ok := generation.Apply(control);
    }

    /** A route of a handler opens on, or leaves, one of the generation's Resources. */
    method AddRoute(generation: Generation, id: nat, route: nat)
      requires Valid() && generation in generations.Values && id in generation.resources
      modifies generation
      ensures Valid() && generation.State() == OpenRoute(old(generation.State()), id, route)
    {
      hide ResourceGeneration.Valid;
      RoutesKeepForest(generation.State(), id, generation.resources[id].routes + {route});
      generation.AddRoute(id, route);
    }

    method DropRoute(generation: Generation, id: nat, route: nat)
      requires Valid() && generation in generations.Values
      modifies generation
      ensures Valid() && generation.State() == CloseRoute(old(generation.State()), id, route)
    {
      hide ResourceGeneration.Valid;
      if id in generation.resources {
        RoutesKeepForest(generation.State(), id, generation.resources[id].routes - {route});
      }
      generation.DropRoute(id, route);
    }

    /** A handler releases a Resource it constructed, notifying the generation. */
    method ReleaseResource(generation: Generation, id: nat, caller: Option<nat>) returns (outcome: ReleaseOutcome)
      requires Valid() && generation in generations.Values
      modifies generation
      ensures Valid()
      ensures (generation.State(), outcome)
           == ResourceGeneration.ReleaseResource(old(generation.State()), id, true, true, caller)
    {
      hide ResourceGeneration.Valid, Known, ResourceGeneration.ReleaseResource;
      ReleaseValid(generation.State(), id, true, caller);
      outcome := generation.ReleaseOwned(id, true, true, caller);
    }

    method ReleaseGeneration(generation: Generation, caller: Option<nat>)
      requires Valid() && generation in generations.Values
      modifies this`generations, generation
      ensures Valid() && generations == old(generations) - {generation.id}
      ensures generation.State() == Teardown(old(generation.State()), caller)
      ensures generation.closing && generation.resources == map[]
    {
      hide ResourceGeneration.Valid, Known, Teardown, Held;
      TeardownValid(generation.State(), caller);
      generation.ReleaseGenerationOwned(caller);
      generations := generations - {generation.id};
      forall k | k in generations
        ensures generations[k] != generation && Held(generations[k]) == old(Held(generations[k]))
      {
      }
    }

    /** Invalidate every generation; none can be opened afterwards. */
    method Close()
      requires Valid()
      modifies this, generations.Values
      ensures Valid() && closed && generations == map[]
      ensures forall k | k in old(generations) :: old(generations)[k].closing && old(generations)[k].resources == map[]
    {
      hide ResourceGeneration.Valid, Known, Teardown, Held;
      closed := true;
      var all := generations;
      while generations != map[]
        invariant Valid() && closed
        invariant generations.Keys <= all.Keys
        invariant forall k | k in all :: all[k].id == k && (k in generations ==> generations[k] == all[k])
        invariant forall k | k in all && k !in generations :: all[k].closing && all[k].resources == map[]
        decreases generations.Keys
      {
        var k :| k in generations.Keys;
        ReleaseGeneration(generations[k], None);
        forall j | j in all && j !in generations ensures all[j].closing && all[j].resources == map[] {
          assert j != k ==> all[j] != all[k];
        }
      }
    }
  }
}
