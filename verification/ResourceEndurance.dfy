/** A generation whose client names only IDs that the generation itself gave out never
    fails of its own accord: no control is refused and no response is unexpected. */
module ResourceEndurance {
  import opened Options
  import opened ResourceForest
  import opened ResourceGeneration
  import opened ResourceClientSpec
  import opened ResourceProtocol
  import opened ResourceRuns

  /** The step names a known ID, and is no failure from outside. */
  ghost predicate FaithfulStep(s: Pair, a: Action) {
    && (a.Reference? ==> a.x == 0 || a.x in Known(s.gen))
    && !a.StreamFails? && !a.EndGeneration?
  }

  ghost predicate Faithful(s: Pair, run: seq<Action>)
    requires Doable(s, run)
    decreases |run|
  {
    run == [] || (FaithfulStep(s, run[0]) && Faithful(Do(s, run[0]), run[1..]))
  }

  // ----- what stays true

  ghost predicate StatesKnown(states: seq<Incarnation>, known: set<nat>) {
    forall k | 0 <= k < |states| :: states[k].id in known
  }

  ghost predicate ControlsKnown(q: seq<Item>, known: set<nat>) {
    forall i | 0 <= i < |q| && q[i].Send? && !q[i].control.body.Init? :: q[i].control.body.id in known
  }

  /** Every acknowledgement stands ahead of the stream's end. */
  ghost predicate AcksBeforeEnd(rs: seq<Response>) {
    rs == [] || (if rs[0] == End then AckIds(rs) == [] else AcksBeforeEnd(rs[1..]))
  }

  /** Once the server has met the end of the controls, nothing is left to consume and
      every control was acknowledged. */
  ghost predicate Ended(s: Pair) {
    && s.client.requestClosed && s.client.controls == []
    && (s.client.terminal == Open ==> s.gen.lastControlId == s.client.controlId)
  }

  ghost predicate Answers(s: Pair) {
    && Failure !in s.gen.responses && AcksBeforeEnd(s.gen.responses)
    && (if s.consuming then End !in s.gen.responses else Ended(s))
  }

  ghost predicate Healthy(s: Pair) {
    && s.client.terminal != Failed && !s.gen.closing
    && Drained(s.client)
    && StatesKnown(s.client.states, Known(s.gen))
    && ControlsKnown(s.client.controls, Known(s.gen))
    && Answers(s)
  }

  // ----- responses

  lemma {:induction false} AckIdsNone(rs: seq<Response>)
    requires End !in rs
    ensures AcksBeforeEnd(rs)
  {
    if rs != [] {
      assert rs[0] in rs;
      AckIdsNone(rs[1..]);
    }
  }

  lemma {:induction false} AcksBeforeEndMore(rs: seq<Response>, more: seq<Response>)
    requires AcksBeforeEnd(rs) && AckIds(more) == []
    ensures AcksBeforeEnd(rs + more)
    decreases |rs|
  {
    if rs == [] {
      assert rs + more == more;
      NoAcksAtAll(more);
    } else {
      assert (rs + more)[0] == rs[0] && (rs + more)[1..] == rs[1..] + more;
      AckIdsConcat(rs, more);
      if rs[0] != End {
        AcksBeforeEndMore(rs[1..], more);
      }
    }
  }

  lemma {:induction false} NoAcksAtAll(rs: seq<Response>)
    requires AckIds(rs) == []
    ensures AcksBeforeEnd(rs)
  {
    if rs != [] {
      NoAcksAtAll(rs[1..]);
    }
  }

  /** A section that only adds notices. */
  lemma NoticesAnswer(s: Pair, g: Gen, more: seq<Response>)
    requires Answers(s) && g.responses == s.gen.responses + more && g.lastControlId == s.gen.lastControlId
    requires forall r | r in more :: r.Released?
    ensures Answers(s.(gen := g))
  {
    NoticesCarryNoAcks(more);
    AcksBeforeEndMore(s.gen.responses, more);
  }

  lemma {:induction false} NoticesCarryNoAcks(rs: seq<Response>)
    requires forall r | r in rs :: r.Released?
    ensures AckIds(rs) == []
  {
    if rs != [] {
      assert rs[0] in rs;
      NoticesCarryNoAcks(rs[1..]);
    }
  }

  // ----- client steps

  lemma StatesKnownGrow(states: seq<Incarnation>, states': seq<Incarnation>, known: set<nat>)
    requires StatesKnown(states, known) && |states'| == |states|
    requires forall k | 0 <= k < |states| :: states'[k].id == states[k].id
    ensures StatesKnown(states', known)
  {
  }

  /** The client names known IDs only, in its table and in its queue. */
  ghost predicate Names(c: Client, known: set<nat>) {
    StatesKnown(c.states, known) && ControlsKnown(c.controls, known)
  }

  lemma ReferenceNames(c: Client, x: nat, known: set<nat>)
    requires Names(c, known) && ClientInv(c) && (x == 0 || x in known)
    ensures Names(CreateReference(c, x).0, known)
  {
    hide Counted, Sends, Referred;
  }

  lemma SendReleaseNames(c: Client, k: nat, known: set<nat>)
    ensures Names(c, known) ==> Names(SendRelease(c, k), known)
  {
  }

  lemma {:induction false} SendReleasesName(c: Client, ks: seq<nat>, known: set<nat>)
    requires Names(c, known)
    ensures Names(SendReleases(c, ks), known)
    decreases |ks|
  {
    hide Names, SendRelease;
    if ks != [] {
      SendReleaseNames(c, ks[0], known);
      SendReleasesName(SendRelease(c, ks[0]), ks[1..], known);
    }
  }

  lemma RunReleaseNames(c: Client, r: nat, routesOpen: bool, known: set<nat>)
    requires Names(c, known) && ClientInv(c) && r in c.begun
    ensures Names(RunRelease(c, r, routesOpen), known)
  {
    DropRefKeeps(c, r);
    var k, c1 := c.refs[r], DropRef(c, r);
    StatesKnownGrow(c.states, c1.states, known);
    StatesKnownGrow(c1.states, Retire(c1, k).states, known);
    hide ClientInv, DropRef, SendRelease, StatesKnown;
    if c1.states[k].refs == {} && !c1.states[k].terminal {
      SendReleaseNames(Retire(c1, k), k, known);
    }
  }

  lemma FinishCloseNames(c: Client, known: set<nat>)
    ensures Names(c, known) ==> Names(FinishClose(c), known)
  {
  }

  lemma ClientStepNames(s: Pair, a: Action)
    requires Base(s) && Enabled(s, a) && AtClient(a) && FaithfulStep(s, a)
    requires Names(s.client, Known(s.gen))
    ensures Names(Do(s, a).client, Known(s.gen))
  {
    hide ClientInv, Ordered, NoticesAreDead, Valid, CreateReference, RunRelease, SendRelease, SendReleases, FinishClose,
      StatesKnown, ControlsKnown;
    var c, known := s.client, Known(s.gen);
    hide Known;
    match a
    case Reference(x) => ReferenceNames(c, x, known);
    case CloneRef(r) =>
      if RefLive(c, r) {
        StateIsKnown(c, c.refs[r], known);
        ReferenceNames(c, c.states[c.refs[r]].id, known);
      }
    case RunReleaseTask(r, routesOpen) => RunReleaseNames(c, r, routesOpen, known);
    case ResumeReleaseTask(k) => SendReleaseNames(c.(waiting := c.waiting - {k}), k, known);
    case ReleaseAll => SendReleasesName(c.(closeList := [], closeStage := 2), c.closeList, known);
    case StartClose => StatesKnownGrow(c.states, BeginClose(c).states, known);
    case EndControls => FinishCloseNames(c, known);
    case _ =>
  }

  lemma StateIsKnown(c: Client, k: nat, known: set<nat>)
    ensures Names(c, known) && k < |c.states| ==> c.states[k].id in known
  {
  }

  /** After the end of the controls the client queues nothing more. */
  lemma ClientStepEnded(s: Pair, a: Action)
    requires Base(s) && Enabled(s, a) && AtClient(a) && FaithfulStep(s, a) && Ended(s) && s.client.terminal != Failed
    ensures Ended(Do(s, a)) && Do(s, a).client.terminal != Failed
  {
    hide Counted, Sends, Referred, Tabled, Ordered, NoticesAreDead, Known, Valid, CreateReference, RunRelease;
    var c := s.client;
    match a
    case Reference(x) => NoReference(c, x);
    case CloneRef(r) =>
    case RunReleaseTask(r, routesOpen) => NoRelease(c, r, routesOpen);
    case ResumeReleaseTask(k) =>
    case _ =>
  }

  lemma NoReference(c: Client, x: nat)
    ensures StageInv(c) && c.requestClosed ==>
        && (c.terminal == Open ==> CreateReference(c, x).0 == c)
        && CreateReference(c, x).0.controls == c.controls && CreateReference(c, x).0.requestClosed
        && CreateReference(c, x).0.terminal == c.terminal && CreateReference(c, x).0.controlId == c.controlId
  {
  }

  lemma NoRelease(c: Client, r: nat, routesOpen: bool)
    requires ClientInv(c) && c.requestClosed && r in c.begun
    ensures var c' := RunRelease(c, r, routesOpen);
      && c'.controls == c.controls && c'.requestClosed && c'.terminal == c.terminal && c'.controlId == c.controlId
  {
    DropRefKeeps(c, r);
    var k := c.refs[r];
    if c.terminal == Open && !c.states[k].terminal {
      NotYetClosed(c, k);
    }
    hide ClientInv;
  }

  lemma ClientStepHealthy(s: Pair, a: Action)
    requires Base(s) && Enabled(s, a) && AtClient(a) && FaithfulStep(s, a) && Healthy(s)
    ensures Healthy(Do(s, a))
  {
    hide ClientInv, Ordered, NoticesAreDead, Known, Valid, StatesKnown, ControlsKnown, Drained, AcksBeforeEnd;
    ClientOnward(s, a);
    ClientStepNames(s, a);
    if !s.consuming {
      ClientStepEnded(s, a);
    }
  }

  // ----- receiving

  /** When the end of the stream is received every control was acknowledged. */
  lemma EndFindsNoWaiters(s: Pair)
    requires Base(s) && Healthy(s) && s.client.terminal == Open && s.gen.responses != [] && s.gen.responses[0] == End
    ensures s.client.closing && s.client.waiters == {}
  {
    hide Valid, NoticesAreDead, Known, Tabled, Referred, Sends, StatesKnown, ControlsKnown;
    assert End in s.gen.responses;
    assert AckIds(s.gen.responses) == [];
  }

  lemma ReceiveHealthy(s: Pair)
    requires Base(s) && Enabled(s, Receive) && Healthy(s)
    ensures Healthy(Do(s, Receive))
  {
    hide ClientInv, Ordered, NoticesAreDead, Known, Valid, ControlsInOrder, AcksInOrder, ControlsKnown;
    var r, s' := s.gen.responses[0], Do(s, Receive);
    assert r in s.gen.responses && r != Failure;
    ReceiveKeepsOrder(s);
    if r == End {
      EndFindsNoWaiters(s);
    }
    NoEmptyNotice(s.gen);
    HandledNames(s.client, r, Known(s.gen));
    SameKnown(s.gen, s.gen.responses[1..]);
    assert forall x :: x in s.gen.responses[1..] ==> x in s.gen.responses;
    TailAnswers(s.gen.responses);
  }

  lemma TailAnswers(rs: seq<Response>)
    requires rs != [] && AcksBeforeEnd(rs)
    ensures AcksBeforeEnd(rs[1..])
  {
    if rs[0] == End {
      NoAcksAtAll(rs[1..]);
    }
  }

  lemma HandledNames(c: Client, r: Response, known: set<nat>)
    requires StatesKnown(c.states, known)
    requires r.Ack? ==> AckExpected(c, r.controlId)
    requires r != Failure && r != Released(0) && (r == End ==> c.closing && c.waiters == {})
    ensures var c' := Handle(c, r);
      && StatesKnown(c'.states, known) && c'.controls == c.controls && c'.terminal == c.terminal
      && c'.requestClosed == c.requestClosed && c'.controlId == c.controlId && c'.closeStage == c.closeStage
  {
    if r.Released? && r.id in c.resources {
      StatesKnownGrow(c.states, Retire(c, c.resources[r.id]).states, known);
    }
  }

  // ----- consuming

  /** A control that names a known ID is never refused. */
  lemma KnownControlIsAccepted(g: Gen, control: Control)
    requires Valid(g) && !g.closing && control.controlId == g.lastControlId + 1
    requires !control.body.Init? && control.body.id in Known(g)
    ensures ApplyControl(g, control).Some? && !ApplyControl(g, control).value.closing
  {
    if control.body.Release? {
      ReleaseValid(g, control.body.id, false, None);
    }
    hide Removal, Batch, Picked, Notices;
  }

  lemma ConsumeHealthy(s: Pair)
    requires Base(s) && Enabled(s, Consume) && Healthy(s)
    ensures Healthy(Do(s, Consume))
  {
    hide ClientInv, NoticesAreDead, Known, Valid, ApplyControl, StatesKnown, AcksBeforeEnd;
    var q, g := s.client.controls, s.gen;
    ConsumeIsSection(s);
    ConsumeKeepsOrder(s);
    assert s.client.terminal == Open;
    match q[0]
    case QueueEnd =>
      ConsumedEnd(s);
    case Send(control) =>
      assert control.body.id in Known(g);
      ValidIsPlanted(g);
      KnownControlIsAccepted(g, control);
      AckFollowsNotices(g, control);
      ConsumedAnswers(g.responses, ApplyControl(g, control).value.responses, control.controlId);
      assert forall i | 0 <= i < |q| - 1 :: q[1..][i] == q[i + 1];
  }

  lemma ConsumedEnd(s: Pair)
    requires Healthy(s) && s.consuming && s.client.controls == [QueueEnd] && s.client.requestClosed
    requires s.client.terminal == Open && s.gen.lastControlId == s.client.controlId
    requires Valid(s.gen)
    ensures Healthy(ConsumeStep(s))
  {
    hide Valid, Known;
    assert AckIds([End]) == [];
    AcksBeforeEndMore(s.gen.responses, [End]);
    SameKnown(s.gen, s.gen.responses + [End]);
    ValidIsPlanted(s.gen);
  }

  lemma ConsumedAnswers(was: seq<Response>, now: seq<Response>, n: nat)
    requires End !in was && Failure !in was
    requires |was| < |now| && now[..|was|] == was && now[|now| - 1] == Ack(n)
    requires forall i | |was| <= i < |now| - 1 :: now[i].Released?
    ensures End !in now && Failure !in now && AcksBeforeEnd(now)
  {
    forall i | 0 <= i < |now| ensures now[i] != End && now[i] != Failure {
      if i < |was| {
        assert now[i] == was[i] && was[i] in was;
      }
    }
    AckIdsNone(now);
  }

  // ----- the other steps

  lemma KnownGrows(c: Client, known: set<nat>, more: set<nat>)
    ensures Names(c, known) && known <= more ==> Names(c, more)
  {
  }

  lemma RevokeHealthy(s: Pair, x: nat, caller: Option<nat>)
    requires Base(s) && Healthy(s)
    ensures Healthy(Do(s, Revoke(x, caller)))
  {
    hide ClientInv, Ordered, NoticesAreDead, AcksBeforeEnd, StatesKnown, ControlsKnown, Answers;
    var g' := ReleaseResource(s.gen, x, true, true, caller).0;
    ReleaseIsSection(s.gen, x, true, caller);
    if !s.gen.closing && x in s.gen.resources {
      var ids := Batch(s.gen.resources, x, x == s.gen.root);
      BatchIsClosed(s.gen, x);
      BatchNoticesDead(s.gen, ids, x, true);
      hide Valid, Known, Batch;
      NoticesAnswer(s, g', Notices(Picked(s.gen.resources, ids), x, true));
    }
  }

  lemma StepHealthy(s: Pair, a: Action)
    requires Base(s) && Enabled(s, a) && FaithfulStep(s, a) && Healthy(s)
    ensures Healthy(Do(s, a))
  {
    hide ClientInv, Ordered, NoticesAreDead, Known, Valid, ReleaseResource, ConstructChild, StatesKnown, ControlsKnown,
      AcksBeforeEnd, Drained, ConsumeStep, Handle;
    if AtClient(a) {
      ClientStepHealthy(s, a);
    } else {
      match a
      case Receive => ReceiveHealthy(s);
      case Consume => ConsumeHealthy(s);
      case Construct(parent) => ConstructHealthy(s, parent);
      case Revoke(x, caller) => RevokeHealthy(s, x, caller);
      case RouteOpens(x, route) => RoutesAreSection(s.gen, x, route);
      case RouteCloses(x, route) => RoutesAreSection(s.gen, x, route);
      case AllocateElsewhere =>
    }
  }

  lemma ConstructHealthy(s: Pair, parent: nat)
    requires Base(s) && Enabled(s, Construct(parent)) && Healthy(s)
    ensures Healthy(Do(s, Construct(parent)))
  {
    hide ClientInv, Ordered, NoticesAreDead, AcksBeforeEnd, Valid;
    ConstructKnows(s, parent);
    var t := Do(s, Construct(parent));
    KnownGrows(s.client, Known(s.gen), Known(t.gen));
  }

  lemma {:induction false} RunStaysHealthy(s: Pair, run: seq<Action>)
    requires Base(s) && Healthy(s) && Doable(s, run) && Faithful(s, run)
    ensures Healthy(After(s, run)) && Base(After(s, run))
    decreases |run|
  {
    hide Base, Do, Enabled, Healthy, FaithfulStep;
    if run != [] {
      BaseKept(s, run[0]);
      StepHealthy(s, run[0]);
      RunStaysHealthy(Do(s, run[0]), run[1..]);
    }
  }

  /** In every run in which the client names only IDs its generation gave out, and neither
      the stream nor the server ends it, the client is never failed: the server refuses no
      control, and the client no response. Overtaken Releases and exhausted control IDs do
      not change that. */
  lemma NeverFailsByItself(s: Pair, run: seq<Action>)
    requires Opening(s) && Doable(s, run) && Faithful(s, run)
    ensures After(s, run).client.terminal != Failed
    ensures Failure !in After(s, run).gen.responses
    ensures !After(s, run).consuming ==> After(s, run).client.requestClosed
  {
    hide Base, Do, Enabled, Doable, After, Faithful;
    OpeningIsBase(s);
    RunStaysHealthy(s, run);
  }
}
