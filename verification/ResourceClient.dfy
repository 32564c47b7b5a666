/** The client generation as the object that its callbacks, tasks and public calls
    update in place. Each method is tied to the step it takes on the value `State()`. */
module ResourceClient {
  import opened ResourceGeneration
  import opened ResourceClientSpec

  class ResourceClient {
    var states: seq<Incarnation>
    var resources: map<nat, nat>
    var refs: seq<nat>
    var released: set<nat>
    var tasked: set<nat>
    var begun: set<nat>
    var waiting: set<nat>
    var closeList: seq<nat>
    var controls: seq<Item>
    var controlWaiters: set<nat>
    var pendingControlIds: set<nat>
    var controlId: nat
    var ackedControlId: nat
    var requestClosed: bool
    var closing: bool
    var closeStage: nat
    var terminal: Terminal
    ghost var sent: seq<nat>
    ghost var revoked: set<nat>

    ghost function State(): Client
      reads this
    {
      Client(states, resources, refs, released, tasked, begun, waiting, closeList, controls, controlWaiters,
             pendingControlIds, controlId, ackedControlId, requestClosed, closing, closeStage, terminal, sent, revoked)
    }

    constructor ()
      ensures State() == Fresh()
    {
      states, resources, refs, released := [], map[], [], {};
      tasked, begun, waiting, closeList, controls := {}, {}, {}, [], [];
      controlWaiters, pendingControlIds, controlId, ackedControlId := {}, {}, 0, 0;
      requestClosed, closing, closeStage, terminal := false, false, 0, Open;
      sent, revoked := [], {};
    }

    /** False stands for the exception: the generation failed, or no ID is left. */
    method EnqueueControl(body: Body) returns (queued: bool)
      modifies `controlId, `controlWaiters, `pendingControlIds, `controls
      ensures queued == old(CanEnqueue(State()))
      ensures State() == if queued then Enqueue(old(State()), body) else old(State())
    {
      if terminal != Open || controlId == MAX_ID {
        return false;
      }
      controlId := controlId + 1;
      controlWaiters := controlWaiters + {controlId};
      pendingControlIds := pendingControlIds + {controlId};
      controls := controls + [Send(Control(controlId, body))];
      return true;
    }

    method CreateResourceReference(x: nat) returns (outcome: RefOutcome)
      requires ClientInv(State())
      modifies this
      ensures (State(), outcome) == CreateReference(old(State()), x)
      ensures ClientInv(State())
    {
      CreateReferenceKeeps(State(), x);
      hide ClientInv, Enqueue, AddRef;
      if terminal != Open || closing {
        return NotLive;
      }
      if x == 0 {
        return EmptyId;
      }
      var k := |states|;
      if x in resources {
        TableEntry(State(), x);
        k := resources[x];
      } else {
        states := states + [Incarnation(x, {}, {}, false)];
        resources := resources[x := k];
        var queued := EnqueueControl(Adopt(x));
        if !queued {
          return Exhausted;
        }
        AdoptQueued(k, x);
      }
      outcome := AddReference(k);
    }

    /** The new incarnation remembers its Adopt's control ID. */
    method AdoptQueued(k: nat, x: nat)
      requires k < |states| && states[k] == Incarnation(x, {}, {}, false)
      modifies `states
      ensures State() == old(State()).(states := old(states)[k := Incarnation(x, {}, {controlId}, false)])
    {
      assert {} + {controlId} == {controlId};
      states := states[k := states[k].(controls := states[k].controls + {controlId})];
    }

    method AddReference(k: nat) returns (outcome: RefOutcome)
      requires k < |states|
      modifies `states, `refs
      ensures (State(), outcome) == AddRef(old(State()), k)
    {
      var r := |refs|;
      refs := refs + [k];
      states := states[k := states[k].(refs := states[k].refs + {r})];
      return Ref(r);
    }

    predicate StateIsLive(k: nat)
      reads this
    {
      k < |states| && !states[k].terminal && states[k].id in resources && resources[states[k].id] == k
    }

    method CloneReference(r: nat) returns (outcome: RefOutcome)
      requires ClientInv(State())
      modifies this
      ensures (State(), outcome) == Clone(old(State()), r)
      ensures ClientInv(State())
    {
      if r < |refs| && r !in released && terminal == Open && !closing && StateIsLive(refs[r]) {
        outcome := CreateResourceReference(states[refs[r]].id);
      } else {
        outcome := NotLive;
      }
    }

    method Release(r: nat)
      modifies this
      ensures State() == BeginRelease(old(State()), r)
    {
      if r !in tasked {
        released := released + {r};
        tasked := tasked + {r};
        begun := begun + {r};
      }
    }

    /** The release task of r up to its first suspension; routesOpen says whether it
        suspends in `_retire_state`. */
    method ReleaseReference(r: nat, routesOpen: bool)
      requires ClientInv(State()) && r in begun
      modifies this
      ensures State() == RunRelease(old(State()), r, routesOpen)
      ensures ClientInv(State())
    {
      RunReleaseKeeps(State(), r, routesOpen);
      DropRefKeeps(State(), r);
      hide ClientInv, DropRef, Retire, SendRelease;
      var k := refs[r];
      DropReference(r);
      if states[k].refs != {} || states[k].terminal {
        return;
      }
      RetireKeepsHistory(State(), k);
      RetireState(k);
      if routesOpen {
        waiting := waiting + {k};
      } else {
        FinishRelease(k);
      }
    }

    method DropReference(r: nat)
      requires r < |refs| && refs[r] < |states|
      modifies `begun, `states
      ensures State() == DropRef(old(State()), r)
      ensures |states| == old(|states|)
    {
      var k := refs[r];
      begun := begun - {r};
      states := states[k := states[k].(refs := states[k].refs - {r})];
    }

    /** The rest of the release task, once the routes of its incarnation are closed. */
    method ReleaseResumes(k: nat)
      requires ClientInv(State()) && k in waiting
      modifies this
      ensures State() == ResumeRelease(old(State()), k)
      ensures ClientInv(State())
    {
      ResumeReleaseKeeps(State(), k);
      NoLongerWaiting(State(), k);
      hide ClientInv;
      waiting := waiting - {k};
      FinishRelease(k);
    }

    method FinishRelease(k: nat)
      requires k < |states|
      modifies `controlId, `controlWaiters, `pendingControlIds, `controls, `sent
      ensures State() == if old(terminal) != Open then old(State()) else SendRelease(old(State()), k)
    {
      if terminal != Open {
        return;
      }
      var queued := EnqueueControl(ResourceGeneration.Body.Release(states[k].id));
      if queued {
        sent := sent + [k];
      }
    }

    /** Retire one incarnation: complete its controls' waiters, drop its table entry and
        mark its references. */
    method RetireState(k: nat)
      requires k < |states|
      modifies `states, `controlWaiters, `resources, `released
      ensures State() == Retire(old(State()), k)
    {
      if states[k].terminal {
        return;
      }
      ghost var was := states;
      var s := states[k];
      states := states[k := s.(terminal := true)];
      CompleteWaiters(s.controls);
      DropEntry(s.id, k);
      MarkReleased(s.refs);
      states := states[k := s.(terminal := true, refs := {})];
      assert states == was[k := s.(terminal := true, refs := {})];
    }

    method DropEntry(id: nat, k: nat)
      modifies `resources
      ensures resources
           == if id in old(resources) && old(resources)[id] == k then old(resources) - {id} else old(resources)
    {
      if id in resources && resources[id] == k {
        resources := resources - {id};
      }
    }

    method CompleteWaiters(ids: set<nat>)
      modifies `controlWaiters
      ensures controlWaiters == old(controlWaiters) - ids
    {
      var rest := ids;
      while rest != {}
        invariant rest <= ids && controlWaiters == old(controlWaiters) - (ids - rest)
      {
        var id :| id in rest;
        rest := rest - {id};
        controlWaiters := controlWaiters - {id};
      }
    }

    method MarkReleased(rs: set<nat>)
      modifies `released
      ensures released == old(released) + rs
    {
      var rest := rs;
      while rest != {}
        invariant rest <= rs && released == old(released) + (rs - rest)
      {
        var r :| r in rest;
        rest := rest - {r};
        released := released + {r};
      }
    }

    /** False stands for the protocol error. */
    method AcknowledgeControl(n: nat) returns (expected: bool)
      modifies this
      ensures expected == AckExpected(old(State()), n)
      ensures State() == if expected then Acknowledge(old(State()), n) else old(State())
    {
      if n == 0 || n != ackedControlId + 1 || n > controlId {
        return false;
      }
      if n !in pendingControlIds {
        return false;
      }
      pendingControlIds := pendingControlIds - {n};
      controlWaiters := controlWaiters - {n};
      ackedControlId := n;
      return true;
    }

    method HandleResponse(r: Response)
      requires ClientInv(State()) && terminal == Open
      modifies this
      ensures State() == Handle(old(State()), r)
      ensures ClientInv(State())
    {
      HandleKeeps(State(), r);
      match r
      case Ack(n) =>
        var expected := AcknowledgeControl(n);
        if !expected {
          RetireGeneration();
        }
      case Released(x) =>
        if x == 0 {
          RetireGeneration();
        } else if x in resources {
          ghost var k := resources[x];
          RetireState(resources[x]);
          revoked := revoked + {k};
        }
      case Failure =>
        RetireGeneration();
      case End =>
        if !closing || controlWaiters != {} {
          RetireGeneration();
        }
    }

    /** End every incarnation in the table, whichever order it lists them in. */
    method TerminateAll(ks: set<nat>)
      requires forall k | k in ks :: k < |states|
      modifies `states, `released
      ensures states == Terminated(old(states), ks)
      ensures released == old(released) + AllRefs(old(states), ks)
    {
      ghost var was, marked := states, released;
      var rest := ks;
      while rest != {}
        invariant rest <= ks
        invariant states == Terminated(was, ks - rest) && released == marked + AllRefs(was, ks - rest)
      {
        var k :| k in rest;
        ghost var done := ks - rest;
        rest := rest - {k};
        assert ks - rest == done + {k};
        AllRefsMore(was, done, k);
        assert states[k] == was[k];
        released := released + states[k].refs;
        states := states[k := states[k].(terminal := true, refs := {})];
        assert states == Terminated(was, done + {k});
        hide AllRefs, Terminated;
      }
      assert ks - rest == ks;
    }

    lemma AllRefsMore(all: seq<Incarnation>, ks: set<nat>, k: nat)
      requires k < |all|
      ensures AllRefs(all, ks + {k}) == AllRefs(all, ks) + all[k].refs
    {
    }

    lemma TableValues(c: Client)
      requires ClientInv(c)
      ensures forall k | k in c.resources.Values :: k < |c.states|
    {
      hide Referred, Counted, Sends;
    }

    /** End every incarnation in the table, and take no more. */
    method ClearTable()
      requires forall k | k in resources.Values :: k < |states|
      modifies `closing, `resources, `states, `released
      ensures State() == EndAll(old(State()))
    {
      hide Terminated, AllRefs;
      closing := true;
      var ks := resources.Values;
      resources := map[];
      TerminateAll(ks);
    }

    method RetireGeneration()
      requires ClientInv(State())
      modifies this
      ensures State() == ResourceClientSpec.RetireGeneration(old(State()))
      ensures ClientInv(State())
    {
      RetireGenerationKeeps(State());
      TableValues(State());
      hide ClientInv, EndAll, ResourceClientSpec.FinishControls;
      if terminal == Open {
        ClearTable();
        EndControls();
        FinishControls(true);
      }
    }

    method EndControls()
      modifies `terminal, `controlWaiters, `pendingControlIds
      ensures State() == old(State()).(terminal := Failed, waiters := {}, pending := {})
    {
      terminal := Failed;
      controlWaiters := {};
      pendingControlIds := {};
    }

    method FinishControls(discard: bool)
      modifies `requestClosed, `controls
      ensures State() == ResourceClientSpec.FinishControls(old(State()), discard)
    {
      if !requestClosed {
        requestClosed := true;
        controls := controls + [QueueEnd];
      }
      if discard {
        ghost var was := State();
        while controls != []
          invariant State() == was.(controls := controls)
          decreases |controls|
        {
          controls := controls[1..];
        }
      }
    }

    /** `_close` up to joining the release tasks. */
    method CloseBegins()
      requires ClientInv(State()) && terminal == Open && !closing
      modifies this
      ensures State() == BeginClose(old(State()))
      ensures ClientInv(State())
    {
      BeginCloseKeeps(State());
      TableValues(State());
      hide ClientInv, EndAll, InIdOrder;
      closeList := InIdOrder(resources);
      closeStage := 1;
      ClearTable();
    }

    /** `_close` after the join: the Releases of what it retired, by resource ID. */
    method CloseReleases()
      requires ClientInv(State()) && closeStage == 1 && waiting == {}
      modifies this
      ensures State() == CloseRelease(old(State()))
      ensures ClientInv(State())
    {
      CloseReleaseKeeps(State());
      TakenListKeeps(State());
      hide ClientInv, SendReleases;
      var ks := closeList;
      closeList, closeStage := [], 2;
      if terminal == Open {
        ReleaseEach(ks);
      }
    }

    method ReleaseEach(ks: seq<nat>)
      requires terminal == Open && forall k | k in ks :: k < |states|
      modifies `controlId, `controlWaiters, `pendingControlIds, `controls, `sent
      ensures State() == SendReleases(old(State()), ks)
    {
      hide SendRelease;
      ghost var goal := SendReleases(State(), ks);
      var i := 0;
      while i < |ks|
        invariant 0 <= i <= |ks|
        invariant SendReleases(State(), ks[i..]) == goal
      {
        assert ks[i..][0] == ks[i] && ks[i..][1..] == ks[i + 1..] && ks[i] in ks;
        FinishRelease(ks[i]);
        i := i + 1;
      }
    }

    /** `_close` after its last control was acknowledged, or lost its waiter. */
    method CloseFinishes()
      requires ClientInv(State()) && closeStage == 2
      modifies this
      ensures State() == FinishClose(old(State()))
      ensures ClientInv(State())
    {
      FinishCloseKeeps(State());
      FinishControls(false);
      closeStage := 3;
    }

    method Closed()
      requires ClientInv(State()) && closeStage == 3
      modifies this
      ensures State() == ClosedDown(old(State()))
      ensures ClientInv(State())
    {
      ClosedDownKeeps(State());
      if terminal == Open {
        terminal := Terminal.Closed;
      }
    }
  }
}
