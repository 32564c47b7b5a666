/** One client generation, as a value: what each callback, task step or public call
    does to it, and what every one of them keeps. */
module ResourceClientSpec {
  import opened SortedSets
  import opened ResourceGeneration

  /** One `_ResourceState`: one incarnation of a resource ID at this client. */
  datatype Incarnation = Incarnation(id: nat, refs: set<nat>, controls: set<nat>, terminal: bool)

  /** The control queue, and the marker that ends it. */
  datatype Item = Send(control: Control) | QueueEnd

  datatype Terminal = Open | Failed | Closed

  /** `states` and `refs` list every `_ResourceState` and `ResourceRef` ever made;
      a position stands for the object. `tasked` are the references with a release
      task and `begun` those whose task has not run yet; `waiting` are retired incarnations whose release
      task still awaits its routes before it enqueues Release; `closeList` is held by
      `_close` between clearing the table and enqueueing those Releases, and
      `closeStage` says how far `_close` has come.
      `sent` and `revoked` are history: the incarnations that enqueued Release, and
      those that a ResourceReleased notice retired. */
  datatype Client = Client(
    states: seq<Incarnation>,
    resources: map<nat, nat>,
    refs: seq<nat>,
    released: set<nat>,
    tasked: set<nat>,
    begun: set<nat>,
    waiting: set<nat>,
    closeList: seq<nat>,
    controls: seq<Item>,
    waiters: set<nat>,
    pending: set<nat>,
    controlId: nat,
    acked: nat,
    requestClosed: bool,
    closing: bool,
    closeStage: nat,
    terminal: Terminal,
    sent: seq<nat>,
    revoked: set<nat>)

  datatype RefOutcome = Ref(ref: nat) | NotLive | EmptyId | Exhausted

  function Fresh(): Client {
    Client([], map[], [], {}, {}, {}, {}, [], [], {}, {}, 0, 0, false, false, 0, Open, [], {})
  }

  predicate Live(c: Client) {
    c.terminal == Open && !c.closing
  }

  predicate CanEnqueue(c: Client) {
    c.terminal == Open && c.controlId != MAX_ID
  }

  function Enqueue(c: Client, body: Body): Client {
    var id := c.controlId + 1;
    c.(controlId := id,
    waiters := c.waiters + {id},
    pending := c.pending + {id},
    controls := c.controls + [Send(Control(id, body))])
  }

  /** The table entry comes before the Adopt; running out of control IDs raises in
      between and leaves the entry behind. */
  function CreateReference(c: Client, x: nat): (Client, RefOutcome) {
    if !Live(c) then (c, NotLive)
    else if x == 0 then (c, EmptyId)
    else if x in c.resources then AddRef(c, c.resources[x])
    else
      var k := |c.states|;
      var c1 := c.(states := c.states + [Incarnation(x, {}, {}, false)], resources := c.resources[x := k]);
      if !CanEnqueue(c) then (c1, Exhausted)
      else
        var c2 := Enqueue(c1, Adopt(x));
        AddRef(c2.(states := c2.states[k := Incarnation(x, {}, {c2.controlId}, false)]), k)
  }

  function AddRef(c: Client, k: nat): (Client, RefOutcome) {
    if k < |c.states| then
      var r := |c.refs|;
      (c.(refs := c.refs + [k], states := c.states[k := c.states[k].(refs := c.states[k].refs + {r})]), Ref(r))
    else (c, NotLive)
  }

  predicate StateLive(c: Client, k: nat) {
    k < |c.states| && !c.states[k].terminal
    && c.states[k].id in c.resources && c.resources[c.states[k].id] == k
  }

  predicate RefLive(c: Client, r: nat) {
    r < |c.refs| && r !in c.released && Live(c) && StateLive(c, c.refs[r])
  }

  function Clone(c: Client, r: nat): (Client, RefOutcome) {
    if !RefLive(c, r) then (c, NotLive)
    else CreateReference(c, c.states[c.refs[r]].id)
  }

  /** `release()` marks the reference and creates its release task, once. */
  function BeginRelease(c: Client, r: nat): Client {
    if r in c.tasked then c
    else c.(released := c.released + {r}, tasked := c.tasked + {r}, begun := c.begun + {r})
  }

  function Retire(c: Client, k: nat): Client {
    if k >= |c.states| || c.states[k].terminal then c
    else
      var s := c.states[k];
      c.(states := c.states[k := s.(terminal := true, refs := {})],
      waiters := c.waiters - s.controls,
      resources := if s.id in c.resources && c.resources[s.id] == k then c.resources - {s.id} else c.resources,
      released := c.released + s.refs)
  }

  function SendRelease(c: Client, k: nat): Client {
    if k < |c.states| && CanEnqueue(c) then Enqueue(c, Release(c.states[k].id)).(sent := c.sent + [k]) else c
  }

  /** Running a release task drops its reference, and only its reference. */
  function DropRef(c: Client, r: nat): Client
    requires r < |c.refs| && c.refs[r] < |c.states|
  {
    var k := c.refs[r];
    c.(begun := c.begun - {r}, states := c.states[k := c.states[k].(refs := c.states[k].refs - {r})])
  }

  /** The release task of r runs up to its first suspension. With routes to close
      it suspends between retiring the incarnation and enqueueing its Release. */
  function RunRelease(c: Client, r: nat, routesOpen: bool): Client {
    if r >= |c.refs| || c.refs[r] >= |c.states| then c
    else
      var k := c.refs[r];
      var c1 := DropRef(c, r);
      if c1.states[k].refs != {} || c1.states[k].terminal then c1
      else
        var c2 := Retire(c1, k);
        if routesOpen then c2.(waiting := c2.waiting + {k})
        else if c2.terminal != Open then c2
        else SendRelease(c2, k)
  }

  /** The release task of incarnation k resumes after its routes closed. */
  function ResumeRelease(c: Client, k: nat): Client {
    var c1 := c.(waiting := c.waiting - {k});
    if c1.terminal != Open then c1 else SendRelease(c1, k)
  }

  predicate AckExpected(c: Client, n: nat) {
    n != 0 && n == c.acked + 1 && n <= c.controlId && n in c.pending
  }

  function Acknowledge(c: Client, n: nat): Client {
    c.(pending := c.pending - {n}, waiters := c.waiters - {n}, acked := n)
  }

  function FinishControls(c: Client, discard: bool): Client {
    var c1 := if c.requestClosed then c else c.(requestClosed := true, controls := c.controls + [QueueEnd]);
    if discard then c1.(controls := []) else c1
  }

  function AllRefs(states: seq<Incarnation>, ks: set<nat>): set<nat> {
    set k, r | k in ks && k < |states| && r in states[k].refs :: r
  }

  function Terminated(states: seq<Incarnation>, ks: set<nat>): seq<Incarnation> {
    seq(|states|, k requires 0 <= k < |states| =>
      if k in ks then states[k].(terminal := true, refs := {}) else states[k])
  }

  /** Every live incarnation is in the table, so clearing the table ends them all. */
  function EndAll(c: Client): Client {
    var ks := c.resources.Values;
    c.(resources := map[], closing := true,
    states := Terminated(c.states, ks), released := c.released + AllRefs(c.states, ks))
  }

  function RetireGeneration(c: Client): Client {
    if c.terminal != Open then c
    else FinishControls(EndAll(c).(terminal := Failed, waiters := {}, pending := {}), true)
  }

  /** One response from the server; a protocol error retires the generation. */
  function Handle(c: Client, r: Response): Client {
    match r
    case Ack(n) => if AckExpected(c, n) then Acknowledge(c, n) else RetireGeneration(c)
    case Released(x) =>
      if x == 0 then RetireGeneration(c)
      else if x in c.resources then Retire(c, c.resources[x]).(revoked := c.revoked + {c.resources[x]})
      else c
    case Failure => RetireGeneration(c)
    case End => if !c.closing || c.waiters != {} then RetireGeneration(c) else c
  }

  /** `_close` up to joining the release tasks: every live incarnation is retired. */
  function BeginClose(c: Client): Client {
    if c.terminal != Open then FinishControls(c, true)
    else EndAll(c).(closeList := InIdOrder(c.resources), closeStage := 1)
  }

  /** The table's incarnations by ascending resource ID. */
  function InIdOrder(resources: map<nat, nat>): (ks: seq<nat>)
    ensures |ks| == |resources|
  {
    var ids := Sorted(resources.Keys);
    seq(|ids|, i requires 0 <= i < |ids| => assert ids[i] in ids; resources[ids[i]])
  }

  function SendReleases(c: Client, ks: seq<nat>): Client
    decreases |ks|
  {
    if ks == [] then c else SendReleases(SendRelease(c, ks[0]), ks[1..])
  }

  /** `_close` after the join: one Release for each retired incarnation, by ID. */
  function CloseRelease(c: Client): Client {
    var c1 := c.(closeList := [], closeStage := 2);
    if c.terminal != Open then c1 else SendReleases(c1, c.closeList)
  }

  /** `_close` after its last control is acknowledged or its waiter is gone. */
  function FinishClose(c: Client): Client {
    FinishControls(c, false).(closeStage := 3)
  }

  function ClosedDown(c: Client): Client {
    if c.terminal == Open then c.(terminal := Closed) else c
  }

  // ----- what every client step keeps

  function Range(lo: nat, hi: nat): (s: set<nat>)
    ensures forall n :: n in s <==> lo <= n <= hi
    decreases hi
  {
    if hi < lo then {} else if hi == 0 then {0} else Range(lo, hi - 1) + {hi}
  }

  /** The incarnations that still owe their Release. */
  function Owing(c: Client): set<nat> {
    c.waiting + Elems(c.closeList)
  }

  /** The table and the incarnations agree. */
  ghost predicate Tabled(states: seq<Incarnation>, resources: map<nat, nat>) {
    && (forall x | x in resources ::
          resources[x] < |states| && states[resources[x]].id == x && !states[resources[x]].terminal)
    && (forall k | 0 <= k < |states| ::
          && states[k].id != 0
          && (states[k].terminal ==> states[k].refs == {})
          && (!states[k].terminal ==> states[k].id in resources && resources[states[k].id] == k))
  }

  /** References belong where they say, and stay until their release task runs. */
  ghost predicate Referred(states: seq<Incarnation>, refs: seq<nat>, tasked: set<nat>, begun: set<nat>) {
    && (forall k, r {:trigger r in states[k].refs} | 0 <= k < |states| && r in states[k].refs ::
          r < |refs| && refs[r] == k && (r in tasked ==> r in begun))
    && (forall r | 0 <= r < |refs| :: refs[r] < |states|)
    && begun <= tasked && (forall r | r in tasked :: r < |refs|)
  }

  ghost predicate TableInv(c: Client) {
    Tabled(c.states, c.resources) && Referred(c.states, c.refs, c.tasked, c.begun)
  }

  ghost predicate Counted(controlId: nat, acked: nat, pending: set<nat>, waiters: set<nat>) {
    acked <= controlId <= MAX_ID && pending == Range(acked + 1, controlId) && waiters <= pending
  }

  /** Pending controls are exactly those after the last acknowledged one. */
  ghost predicate CounterInv(c: Client) {
    c.terminal == Open ==> Counted(c.controlId, c.acked, c.pending, c.waiters)
  }

  ghost predicate Sends(states: seq<Incarnation>, sent: seq<nat>, revoked: set<nat>, owing: set<nat>) {
    && Distinct(sent)
    && (forall k | k in sent || k in revoked || k in owing :: k < |states| && states[k].terminal)
    && (forall k | k in sent :: k !in revoked && k !in owing)
    && (forall k | k in revoked :: k !in owing)
  }

  /** No incarnation sends twice, and none that was revoked sends at all. */
  ghost predicate SentInv(c: Client) {
    && Sends(c.states, c.sent, c.revoked, Owing(c))
    && Distinct(c.closeList) && c.waiting !! Elems(c.closeList)
  }

  /** How far `_close` has come. */
  ghost predicate StageInv(c: Client) {
    && (c.closing ==> c.resources == map[])
    && (c.closeStage > 0 ==> c.closing)
    && (c.closing && c.terminal == Open ==> c.closeStage > 0)
    && (c.closeList != [] ==> c.closeStage == 1)
    && (c.closeStage >= 2 && c.terminal != Failed ==> c.waiting == {})
    && (c.requestClosed && c.terminal == Open ==> c.closeStage >= 3)
  }

  ghost predicate ClientInv(c: Client) {
    TableInv(c) && CounterInv(c) && SentInv(c) && StageInv(c)
  }

  ghost predicate Settles(states: seq<Incarnation>, sent: seq<nat>, revoked: set<nat>, owing: set<nat>) {
    forall k | 0 <= k < |states| && states[k].terminal :: k in sent || k in revoked || k in owing
  }

  /** A retired incarnation sent its Release, owes it, or was revoked. */
  ghost predicate Accounted(c: Client) {
    c.terminal == Open ==> Settles(c.states, c.sent, c.revoked, Owing(c))
  }

  /** The same incarnations, none of them revived; `fresh` may have been retired. */
  ghost predicate Lasting(states: seq<Incarnation>, states': seq<Incarnation>) {
    && |states| <= |states'|
    && forall k | 0 <= k < |states| :: states'[k].id == states[k].id && (states[k].terminal ==> states'[k].terminal)
  }

  lemma SendsLasting(states: seq<Incarnation>, states': seq<Incarnation>, sent: seq<nat>, revoked: set<nat>,
                     owing: set<nat>)
    ensures Sends(states, sent, revoked, owing) && Lasting(states, states') ==>
        Sends(states', sent, revoked, owing)
  {
    hide Distinct;
  }

  lemma SettlesLive(states: seq<Incarnation>, states': seq<Incarnation>, sent: seq<nat>, revoked: set<nat>,
                    owing: set<nat>)
    requires Settles(states, sent, revoked, owing)
    requires forall k | 0 <= k < |states'| && states'[k].terminal :: k < |states| && states[k].terminal
    ensures Settles(states', sent, revoked, owing)
  {
  }

  lemma EnqueueKeepsCounters(c: Client, body: Body)
    requires CounterInv(c) && CanEnqueue(c)
    ensures CounterInv(Enqueue(c, body))
  {
    assert Range(c.acked + 1, c.controlId + 1) == Range(c.acked + 1, c.controlId) + {c.controlId + 1};
  }

  /** Fewer waiters are no harm. */
  lemma FewerWaiters(controlId: nat, acked: nat, pending: set<nat>, waiters: set<nat>, fewer: set<nat>)
    ensures Counted(controlId, acked, pending, waiters) && fewer <= waiters ==>
        Counted(controlId, acked, pending, fewer)
  {
  }

  /** The table speaks only of each incarnation's ID and whether it is live. */
  lemma TabledSame(states: seq<Incarnation>, states': seq<Incarnation>, resources: map<nat, nat>)
    requires Tabled(states, resources) && |states'| == |states|
    requires forall k | 0 <= k < |states| ::
      && states'[k].id == states[k].id && states'[k].terminal == states[k].terminal
      && (states[k].terminal ==> states'[k].refs == states[k].refs)
    ensures Tabled(states', resources) && Lasting(states, states')
  {
    forall k | 0 <= k < |states'|
      ensures states'[k].id != 0 && (states'[k].terminal ==> states'[k].refs == {})
      ensures !states'[k].terminal ==> states'[k].id in resources && resources[states'[k].id] == k
    {
      assert states'[k].id == states[k].id;
    }
  }

  /** Losing references does no harm. */
  lemma ReferredFewer(states: seq<Incarnation>, states': seq<Incarnation>, refs: seq<nat>, tasked: set<nat>,
                      begun: set<nat>)
    requires Referred(states, refs, tasked, begun) && |states'| >= |states|
    requires forall k | 0 <= k < |states'| :: states'[k].refs <= if k < |states| then states[k].refs else {}
    ensures Referred(states', refs, tasked, begun)
  {
    forall k, r | 0 <= k < |states'| && r in states'[k].refs
      ensures r < |refs| && refs[r] == k && (r in tasked ==> r in begun)
    {
      var bound := if k < |states| then states[k].refs else {};
      assert states'[k].refs <= bound && r in bound;
      assert k < |states|;
      assert r in states[k].refs;
      assert r < |refs|;
      assert refs[r] == k;
      assert r in tasked ==> r in begun;
    }
  }

  /** One more reference to a live incarnation. */
  lemma AddRefTable(c: Client, k: nat)
    requires TableInv(c) && k < |c.states| && !c.states[k].terminal
    ensures TableInv(AddRef(c, k).0) && Lasting(c.states, AddRef(c, k).0.states)
  {
    var c' := AddRef(c, k).0;
    TabledSame(c.states, c'.states, c.resources);
    hide Tabled;
    forall j, r | 0 <= j < |c'.states| && r in c'.states[j].refs
      ensures r < |c'.refs| && c'.refs[r] == j && (r in c.tasked ==> r in c.begun)
    {
      if j != k || r != |c.refs| {
        assert r in c.states[j].refs;
      }
    }
  }

  lemma AddRefKeeps(c: Client, k: nat)
    requires ClientInv(c) && k < |c.states| && !c.states[k].terminal
    ensures ClientInv(AddRef(c, k).0)
    ensures Accounted(c) ==> Accounted(AddRef(c, k).0)
  {
    hide Tabled, Referred, Counted, Sends, Settles, Lasting;
    var c' := AddRef(c, k).0;
    AddRefTable(c, k);
    SendsLasting(c.states, c'.states, c.sent, c.revoked, Owing(c));
    if Accounted(c) && c.terminal == Open {
      SettlesLive(c.states, c'.states, c.sent, c.revoked, Owing(c));
    }
  }

  /** A table entry for an ID that had none. */
  function NewState(c: Client, x: nat): Client {
    c.(states := c.states + [Incarnation(x, {}, {}, false)], resources := c.resources[x := |c.states|])
  }

  function AdoptState(c: Client, k: nat): Client
    requires k < |c.states|
  {
    var c' := Enqueue(c, Adopt(c.states[k].id));
    c'.(states := c'.states[k := c.states[k].(controls := {c'.controlId})])
  }

  lemma NewStateTable(c: Client, x: nat)
    requires TableInv(c) && x != 0 && x !in c.resources
    ensures TableInv(NewState(c, x)) && Lasting(c.states, NewState(c, x).states)
  {
    ReferredFewer(c.states, NewState(c, x).states, c.refs, c.tasked, c.begun);
    hide Referred;
  }

  lemma NewStateKeeps(c: Client, x: nat)
    requires ClientInv(c) && x != 0 && x !in c.resources && Live(c)
    ensures ClientInv(NewState(c, x))
    ensures Accounted(c) ==> Accounted(NewState(c, x))
  {
    hide Tabled, Referred, Counted, Sends, Settles, Lasting;
    var c' := NewState(c, x);
    NewStateTable(c, x);
    SendsLasting(c.states, c'.states, c.sent, c.revoked, Owing(c));
    if Accounted(c) {
      SettlesLive(c.states, c'.states, c.sent, c.revoked, Owing(c));
    }
  }

  lemma AdoptStateTable(c: Client, k: nat)
    requires TableInv(c) && k < |c.states|
    ensures TableInv(AdoptState(c, k)) && Lasting(c.states, AdoptState(c, k).states)
  {
    var c' := AdoptState(c, k);
    TabledSame(c.states, c'.states, c.resources);
    ReferredFewer(c.states, c'.states, c.refs, c.tasked, c.begun);
    hide Tabled, Referred;
  }

  lemma AdoptStateKeeps(c: Client, k: nat)
    requires ClientInv(c) && k < |c.states| && !c.states[k].terminal && CanEnqueue(c) && !c.closing
    ensures ClientInv(AdoptState(c, k))
    ensures Accounted(c) ==> Accounted(AdoptState(c, k))
  {
    hide Tabled, Referred, Counted, Sends, Settles, Lasting;
    var c' := AdoptState(c, k);
    EnqueueKeepsCounters(c, Adopt(c.states[k].id));
    AdoptStateTable(c, k);
    SendsLasting(c.states, c'.states, c.sent, c.revoked, Owing(c));
    if Accounted(c) {
      SettlesLive(c.states, c'.states, c.sent, c.revoked, Owing(c));
    }
  }

  lemma CreateReferenceKeeps(c: Client, x: nat)
    requires ClientInv(c)
    ensures ClientInv(CreateReference(c, x).0)
    ensures Accounted(c) ==> Accounted(CreateReference(c, x).0)
  {
    hide ClientInv, Accounted;
    if Live(c) && x != 0 {
      if x in c.resources {
        TableEntry(c, x);
        AddRefKeeps(c, c.resources[x]);
      } else {
        var k := |c.states|;
        NewStateKeeps(c, x);
        if CanEnqueue(c) {
          AdoptStateKeeps(NewState(c, x), k);
          AddRefKeeps(AdoptState(NewState(c, x), k), k);
        }
      }
    }
  }

  lemma TableEntry(c: Client, x: nat)
    ensures ClientInv(c) && x in c.resources ==>
        && c.resources[x] < |c.states| && c.states[c.resources[x]].id == x != 0
        && !c.states[c.resources[x]].terminal && !c.closing
  {
    hide Counted, Sends;
  }

  lemma BeginReleaseKeeps(c: Client, r: nat)
    ensures ClientInv(c) && r < |c.refs| ==>
        ClientInv(BeginRelease(c, r)) && (Accounted(c) ==> Accounted(BeginRelease(c, r)))
  {
    hide Tabled, Counted, Sends, Settles;
  }

  lemma RetireTable(c: Client, k: nat)
    requires TableInv(c) && k < |c.states| && !c.states[k].terminal
    ensures TableInv(Retire(c, k)) && Lasting(c.states, Retire(c, k).states)
    ensures Retire(c, k).resources == c.resources - {c.states[k].id} && Retire(c, k).states[k].terminal
  {
    ReferredFewer(c.states, Retire(c, k).states, c.refs, c.tasked, c.begun);
    hide Referred;
  }

  /** Retiring a live incarnation leaves it owing nothing yet. */
  lemma RetireKeeps(c: Client, k: nat)
    requires ClientInv(c) && k < |c.states| && !c.states[k].terminal
    ensures var c' := Retire(c, k);
      && ClientInv(c') && c'.states[k].terminal
      && k !in c'.sent && k !in c'.revoked && k !in Owing(c')
      && c'.resources == c.resources - {c.states[k].id}
    ensures Accounted(c) ==> Accounted(Retire(c, k).(sent := c.sent + [k]))
  {
    hide Tabled, Referred, Counted, Lasting;
    var c' := Retire(c, k);
    RetireTable(c, k);
    SendsLasting(c.states, c'.states, c.sent, c.revoked, Owing(c));
    if c.terminal == Open {
      FewerWaiters(c.controlId, c.acked, c.pending, c.waiters, c'.waiters);
    }
  }

  lemma SendReleaseKeeps(c: Client, k: nat)
    requires ClientInv(c) && k < |c.states| && c.states[k].terminal
    requires k !in c.sent && k !in c.revoked && k !in Owing(c)
    requires c.terminal == Open ==> c.closeStage <= 2
    ensures ClientInv(SendRelease(c, k))
    ensures CanEnqueue(c) && Accounted(c.(sent := c.sent + [k])) ==> Accounted(SendRelease(c, k))
  {
    hide Tabled, Referred, Counted, Settles;
    if CanEnqueue(c) {
      EnqueueKeepsCounters(c, Release(c.states[k].id));
      assert Distinct(c.sent + [k]);
    }
  }

  lemma WaitKeeps(c: Client, k: nat)
    requires ClientInv(c) && k < |c.states| && c.states[k].terminal && !c.closing
    requires k !in c.sent && k !in c.revoked && k !in Owing(c)
    ensures ClientInv(c.(waiting := c.waiting + {k}))
    ensures Accounted(c.(sent := c.sent + [k])) ==> Accounted(c.(waiting := c.waiting + {k}))
  {
    hide Tabled, Referred, Counted, Distinct;
    assert forall j :: j in Owing(c.(waiting := c.waiting + {k})) <==> j in Owing(c) || j == k;
  }

  lemma DropRefTable(c: Client, r: nat)
    requires TableInv(c) && r in c.begun
    ensures r < |c.refs| && c.refs[r] < |c.states|
    ensures TableInv(DropRef(c, r)) && Lasting(c.states, DropRef(c, r).states)
  {
    assert r in c.tasked;
    if c.states[c.refs[r]].terminal {
      assert c.states[c.refs[r]].refs - {r} == {};
    }
    TabledSame(c.states, DropRef(c, r).states, c.resources);
    hide Tabled;
  }

  lemma DropRefKeeps(c: Client, r: nat)
    requires ClientInv(c) && r in c.begun
    ensures r < |c.refs| && c.refs[r] < |c.states|
    ensures ClientInv(DropRef(c, r)) && (Accounted(c) ==> Accounted(DropRef(c, r)))
    ensures !c.states[c.refs[r]].terminal ==> !c.closing
  {
    hide Counted, Sends, Settles, Lasting, Referred;
    DropRefTable(c, r);
    var c' := DropRef(c, r);
    SendsLasting(c.states, c'.states, c.sent, c.revoked, Owing(c));
    if Accounted(c) && c.terminal == Open {
      SettlesLive(c.states, c'.states, c.sent, c.revoked, Owing(c));
    }
  }

  lemma RunReleaseKeeps(c: Client, r: nat, routesOpen: bool)
    requires ClientInv(c) && r in c.begun
    ensures ClientInv(RunRelease(c, r, routesOpen))
    ensures Accounted(c) && (!routesOpen ==> c.controlId < MAX_ID) ==> Accounted(RunRelease(c, r, routesOpen))
  {
    hide ClientInv, Settles;
    DropRefKeeps(c, r);
    var k, c1 := c.refs[r], DropRef(c, r);
    if c1.states[k].refs == {} && !c1.states[k].terminal {
      RetireKeeps(c1, k);
      var c2 := Retire(c1, k);
      StageEarly(c2);
      if routesOpen {
        WaitKeeps(c2, k);
      } else if c2.terminal == Open {
        SendReleaseKeeps(c2, k);
      }
    }
  }

  lemma StageEarly(c: Client)
    ensures ClientInv(c) ==>
        && (!c.closing ==> c.closeStage == 0)
        && (c.terminal == Open && Owing(c) != {} ==> c.closeStage <= 1)
  {
    hide Tabled, Referred, Counted, Sends;
  }

  lemma ResumeReleaseKeeps(c: Client, k: nat)
    requires ClientInv(c) && k in c.waiting
    ensures ClientInv(ResumeRelease(c, k))
    ensures Accounted(c) && c.controlId < MAX_ID ==> Accounted(ResumeRelease(c, k))
  {
    var c1 := c.(waiting := c.waiting - {k});
    NoLongerWaiting(c, k);
    StageEarly(c);
    if c1.terminal == Open {
      hide ClientInv, Settles;
      SendReleaseKeeps(c1, k);
    }
  }

  lemma NoLongerWaiting(c: Client, k: nat)
    requires ClientInv(c) && k in c.waiting
    ensures var c1 := c.(waiting := c.waiting - {k});
      && ClientInv(c1) && k < |c.states| && c.states[k].terminal
      && k in Owing(c) && k !in c.sent && k !in c.revoked && k !in Owing(c1)
      && (Accounted(c) ==> Accounted(c1.(sent := c1.sent + [k])))
  {
    hide Tabled, Referred, Counted, Distinct;
    var c1 := c.(waiting := c.waiting - {k});
    assert k in Owing(c);
    assert forall j :: j in Owing(c1) <==> j in Owing(c) && j != k;
  }

  lemma AcknowledgeKeeps(c: Client, n: nat)
    requires ClientInv(c) && AckExpected(c, n)
    ensures ClientInv(Acknowledge(c, n)) && (Accounted(c) ==> Accounted(Acknowledge(c, n)))
  {
    hide Tabled, Referred, Sends, Settles, Distinct;
    assert Range(n + 1, c.controlId) == Range(n, c.controlId) - {n};
  }

  lemma EndAllTable(c: Client)
    requires ClientInv(c)
    ensures TableInv(EndAll(c)) && Lasting(c.states, EndAll(c).states) && |EndAll(c).states| == |c.states|
    ensures forall k | 0 <= k < |c.states| :: EndAll(c).states[k].terminal
    ensures forall k | 0 <= k < |c.states| && !c.states[k].terminal ::
        c.states[k].id in c.resources && c.resources[c.states[k].id] == k
  {
    hide SentInv, CounterInv, StageInv;
    var c' := EndAll(c);
    forall k | 0 <= k < |c.states| ensures c'.states[k].terminal && c'.states[k].id == c.states[k].id {
      if !c.states[k].terminal {
        assert c.resources[c.states[k].id] == k;
      }
    }
  }

  lemma RetireGenerationKeeps(c: Client)
    requires ClientInv(c)
    ensures ClientInv(RetireGeneration(c)) && (Accounted(c) ==> Accounted(RetireGeneration(c)))
    ensures if c.terminal == Open then RetireGeneration(c).terminal == Failed else RetireGeneration(c) == c
  {
    hide Tabled, Referred, Counted, Sends, Settles, Lasting;
    if c.terminal == Open {
      EndAllTable(c);
      var c' := RetireGeneration(c);
      assert c'.states == EndAll(c).states;
      SendsLasting(c.states, c'.states, c.sent, c.revoked, Owing(c));
    }
  }

  lemma HandleKeeps(c: Client, r: Response)
    requires ClientInv(c) && c.terminal == Open
    ensures ClientInv(Handle(c, r)) && (Accounted(c) ==> Accounted(Handle(c, r)))
  {
    hide ClientInv, Accounted, Retire, RetireGeneration;
    RetireGenerationKeeps(c);
    match r
    case Ack(n) =>
      if AckExpected(c, n) {
        AcknowledgeKeeps(c, n);
      }
    case Released(x) =>
      if x != 0 && x in c.resources {
        TableEntry(c, x);
        RetireKeeps(c, c.resources[x]);
        RetireKeepsHistory(c, c.resources[x]);
        RevokeKeeps(Retire(c, c.resources[x]), c.resources[x]);
      }
    case Failure =>
    case End =>
  }

  lemma RetireKeepsHistory(c: Client, k: nat)
    ensures Retire(c, k).sent == c.sent && Retire(c, k).revoked == c.revoked
    ensures |Retire(c, k).states| == |c.states|
  {
  }

  lemma RevokeKeeps(c: Client, k: nat)
    ensures && ClientInv(c) && k < |c.states| && c.states[k].terminal
            && k !in c.sent && k !in c.revoked && k !in Owing(c) ==>
        && ClientInv(c.(revoked := c.revoked + {k}))
        && (Accounted(c.(sent := c.sent + [k])) ==> Accounted(c.(revoked := c.revoked + {k})))
  {
    hide Tabled, Referred, Counted, Distinct;
  }

  lemma InIdOrderExact(c: Client)
    requires Tabled(c.states, c.resources)
    ensures var ks := InIdOrder(c.resources);
      && Distinct(ks)
      && (forall k :: k in ks <==> k in c.resources.Values)
  {
    hide Sorted;
    var ids, ks := Sorted(c.resources.Keys), InIdOrder(c.resources);
    forall i | 0 <= i < |ids| ensures ids[i] in c.resources && ks[i] == c.resources[ids[i]] {
      assert ids[i] in ids;
    }
    DistinctById(c, ids, ks);
    forall x | x in c.resources ensures c.resources[x] in ks {
      assert x in ids;
      var i :| 0 <= i < |ids| && ids[i] == x;
      assert ks[i] == c.resources[x];
    }
  }

  lemma DistinctById(c: Client, ids: seq<nat>, ks: seq<nat>)
    requires Tabled(c.states, c.resources) && Ascending(ids) && |ks| == |ids|
    requires forall i | 0 <= i < |ids| :: ids[i] in c.resources && ks[i] == c.resources[ids[i]]
    ensures Distinct(ks)
  {
    forall i, j | 0 <= i < j < |ks| ensures ks[i] != ks[j] {
      assert c.states[ks[i]].id == ids[i] && c.states[ks[j]].id == ids[j];
    }
  }

  /** `_close` makes every incarnation it retires owe its Release. */
  lemma BeginCloseOwing(c: Client)
    requires ClientInv(c) && c.terminal == Open && !c.closing
    ensures var c' := BeginClose(c);
      && Distinct(c'.closeList) && c'.waiting !! Elems(c'.closeList)
      && (forall k :: k in Owing(c') <==> k in Owing(c) || k in c.resources.Values)
      && (forall k | k in c.resources.Values :: k < |c.states| && !c.states[k].terminal)
  {
    hide Counted, Referred;
    InIdOrderExact(c);
    assert c.closeList == [];
    forall k | k in c.waiting ensures k !in c.resources.Values {
      assert k in Owing(c);
    }
  }

  lemma BeginCloseKeeps(c: Client)
    requires ClientInv(c) && c.terminal == Open && !c.closing
    ensures ClientInv(BeginClose(c)) && (Accounted(c) ==> Accounted(BeginClose(c)))
    ensures forall k | k in BeginClose(c).closeList :: k < |c.states| && !c.states[k].terminal
  {
    hide Tabled, Referred, Counted, Distinct, InIdOrder, Owing;
    EndAllTable(c);
    BeginCloseOwing(c);
    var c' := BeginClose(c);
    assert c'.states == EndAll(c).states;
    assert forall k | k in c'.closeList :: k in Owing(c') by {
      OwingList(c');
    }
    InIdOrderExact(c) by {
      TableParts(c);
    }
    assert ClientInv(c') by {
      TableSame(EndAll(c), c');
    }
  }

  lemma OwingList(c: Client)
    ensures forall k | k in c.closeList :: k in Owing(c)
  {
  }

  lemma TableParts(c: Client)
    ensures TableInv(c) ==> Tabled(c.states, c.resources)
  {
  }

  lemma TableSame(c: Client, c': Client)
    requires TableInv(c) && c'.states == c.states && c'.resources == c.resources
    requires c'.refs == c.refs && c'.tasked == c.tasked && c'.begun == c.begun
    ensures TableInv(c')
  {
  }

  lemma {:induction false} SendReleasesKeeps(c: Client, ks: seq<nat>)
    requires ClientInv(c) && Distinct(ks) && (c.terminal == Open ==> c.closeStage <= 2)
    requires forall k | k in ks :: k < |c.states| && c.states[k].terminal
    requires forall k | k in ks :: k !in c.sent && k !in c.revoked && k !in Owing(c)
    ensures ClientInv(SendReleases(c, ks))
    ensures c.terminal == Open && Accounted(c.(sent := c.sent + ks)) && c.controlId + |ks| <= MAX_ID
        ==> Accounted(SendReleases(c, ks))
    decreases |ks|
  {
    hide ClientInv, Settles, SendRelease;
    if ks == [] {
      assert c.sent + ks == c.sent;
    } else {
      var k, c' := ks[0], SendRelease(c, ks[0]);
      assert k in ks;
      SentStep(c, ks);
      assert Distinct(ks[1..]);
      forall j | j in ks[1..] ensures j in ks && j != k {
      }
      SendReleasesKeeps(c', ks[1..]);
    }
  }

  lemma SentStep(c: Client, ks: seq<nat>)
    requires ClientInv(c) && ks != [] && ks[0] < |c.states| && c.states[ks[0]].terminal
    requires ks[0] !in c.sent && ks[0] !in c.revoked && ks[0] !in Owing(c)
    requires c.terminal == Open ==> c.closeStage <= 2
    ensures var c' := SendRelease(c, ks[0]);
      && ClientInv(c') && c'.states == c.states && c'.revoked == c.revoked && Owing(c') == Owing(c)
      && c'.terminal == c.terminal && c'.closeStage == c.closeStage
      && (c'.sent == c.sent || c'.sent == c.sent + [ks[0]])
      && (CanEnqueue(c) ==> c'.controlId == c.controlId + 1 && c'.sent + ks[1..] == c.sent + ks)
  {
    hide ClientInv;
    SendReleaseKeeps(c, ks[0]);
    assert [ks[0]] + ks[1..] == ks;
  }

  /** `_close` takes its list in hand. */
  lemma TakenListKeeps(c: Client)
    requires ClientInv(c) && c.closeStage == 1 && c.waiting == {}
    ensures var c1 := c.(closeList := [], closeStage := 2);
      && ClientInv(c1) && Distinct(c.closeList)
      && (forall k | k in c.closeList :: k < |c.states| && c.states[k].terminal)
      && (forall k | k in c.closeList :: k !in c.sent && k !in c.revoked && k !in Owing(c1))
      && (Accounted(c) ==> Accounted(c1.(sent := c.sent + c.closeList)))
  {
    hide Tabled, Referred, Counted;
    assert forall k | k in c.closeList :: k in Owing(c);
  }

  lemma CloseReleaseKeeps(c: Client)
    requires ClientInv(c) && c.closeStage == 1 && c.waiting == {}
    ensures ClientInv(CloseRelease(c))
    ensures Accounted(c) && c.controlId + |c.closeList| <= MAX_ID ==> Accounted(CloseRelease(c))
  {
    hide ClientInv, Settles;
    TakenListKeeps(c);
    if c.terminal == Open {
      SendReleasesKeeps(c.(closeList := [], closeStage := 2), c.closeList);
    }
  }

  lemma FinishCloseKeeps(c: Client)
    ensures ClientInv(c) && c.closeStage >= 2 ==>
        ClientInv(FinishClose(c)) && (Accounted(c) ==> Accounted(FinishClose(c)))
  {
    hide Tabled, Referred, Counted, Sends, Settles, Distinct;
  }

  lemma ClosedDownKeeps(c: Client)
    ensures ClientInv(c) ==> ClientInv(ClosedDown(c)) && (Accounted(c) ==> Accounted(ClosedDown(c)))
  {
    hide Tabled, Referred, Counted, Sends, Settles, Distinct;
  }
}
