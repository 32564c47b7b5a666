/** What holds over whole runs of a generation, from its opening on. A run is the list
    of the steps taken; every state it passes through ends one of its prefixes. */
module ResourceRuns {
  import opened Options
  import opened SortedSets
  import opened ResourceForest
  import opened ResourceGeneration
  import opened ResourceClientSpec
  import opened ResourceProtocol
  import opened ResourceFate
  import opened ResourceAgreement

  ghost predicate Doable(s: Pair, run: seq<Action>)
    decreases |run|
  {
    run == [] || (Valid(s.gen) && Enabled(s, run[0]) && Doable(Do(s, run[0]), run[1..]))
  }

  ghost function After(s: Pair, run: seq<Action>): Pair
    requires Doable(s, run)
    decreases |run|
  {
    if run == [] then s else After(Do(s, run[0]), run[1..])
  }

  /** What single steps keep, whole runs keep. */
  lemma {:induction false} RunKeeps(s: Pair, run: seq<Action>)
    requires Base(s) && Ending(s) && Doable(s, run)
    ensures Base(After(s, run)) && Ending(After(s, run))
    ensures Told(s) && Orderly(s, run) ==> Told(After(s, run))
    ensures Kept(s) && Thrifty(s, run) ==> Kept(After(s, run))
    ensures Accounted(s.client) && ControlsLast(s, run) ==> Accounted(After(s, run).client)
    ensures SentInQueue(s.client) ==> SentInQueue(After(s, run).client)
    ensures Usable(s.client) ==> Usable(After(s, run).client)
    decreases |run|
  {
    hide Base, Ending, Do, Enabled, Told, Kept, Misleads, Forgets, Accounted, Unsent, SentInQueue, Usable;
    if run != [] {
      var a := run[0];
      BaseKept(s, a);
      EndingKept(s, a);
      if Told(s) && !Misleads(s, a) {
        ToldKept(s, a);
      }
      if Kept(s) && !Forgets(s, a) {
        KeptKept(s, a);
      }
      if Accounted(s.client) {
        AccountedKept(s, a);
      }
      if SentInQueue(s.client) {
        SentInQueueKept(s, a);
      }
      if Usable(s.client) {
        UsableKept(s, a);
      }
      RunKeeps(Do(s, a), run[1..]);
    }
  }

  // ----- ordering

  /** The step raises one of the protocol's ordering errors, or is handed an ID of zero. */
  predicate OrderError(s: Pair, a: Action) {
    match a
    case Consume => s.client.controls != [] && s.client.controls[0].Send?
                    && s.client.controls[0].control.controlId != s.gen.lastControlId + 1
    case Receive => s.gen.responses != []
                    && ((s.gen.responses[0].Ack? && !AckExpected(s.client, s.gen.responses[0].controlId))
                        || s.gen.responses[0] == Released(0))
    case _ => false
  }

  /** No run of the two ends reaches an ordering error: every control arrives as the
      server's last ID + 1, every acknowledgement as the client's acked ID + 1 and
      pending, and no notice is empty. */
  lemma OrderingSafety(s: Pair, run: seq<Action>, a: Action)
    requires Opening(s) && Doable(s, run) && Enabled(After(s, run), a)
    ensures !OrderError(After(s, run), a)
    ensures Ordered(After(s, run)) && NoticesAreDead(After(s, run).gen)
  {
    hide ClientInv, Ordered, Valid, NoticesAreDead, Known, ConsumeStep, Handle, Told, Kept, Accounted, SentInQueue,
      Usable, Orderly, Thrifty, ControlsLast, Doable, After;
    OpeningIsBase(s);
    RunKeeps(s, run);
    var t := After(s, run);
    match a
    case Consume => ConsumeKeepsOrder(t);
    case Receive =>
      ReceiveKeepsOrder(t);
      NoEmptyNotice(t.gen);
    case _ =>
  }

  lemma NoEmptyNotice(g: Gen)
    ensures Valid(g) && NoticesAreDead(g) ==> Released(0) !in g.responses
  {
  }

  // ----- agreement

  /** No step of the run misleads the client. */
  ghost predicate Orderly(s: Pair, run: seq<Action>)
    requires Doable(s, run)
    decreases |run|
  {
    run == [] || (!Misleads(s, run[0]) && Orderly(Do(s, run[0]), run[1..]))
  }

  /** No step of the run forgets a Release that is still wanted. */
  ghost predicate Thrifty(s: Pair, run: seq<Action>)
    requires Doable(s, run)
    decreases |run|
  {
    run == [] || (!Forgets(s, run[0]) && Thrifty(Do(s, run[0]), run[1..]))
  }

  lemma OpeningIsTold(s: Pair)
    requires Opening(s)
    ensures Told(s) && Kept(s)
  {
    forall x: nat ensures KeptAt(s, x) {
      assert s.client.controls == [] && (x in s.gen.resources ==> x == s.gen.root);
      assert !Wanted(s.gen, s.nextId, [], x);
    }
  }

  /** Joint agreement, in every state that a run without a misleading reference reaches,
      torn down or failed at the server included. */
  lemma JointAgreement(s: Pair, run: seq<Action>)
    requires Opening(s) && Doable(s, run) && Orderly(s, run)
    ensures Agreement(After(s, run))
  {
    hide Base, Do, Enabled, Told, Kept, Agreement;
    OpeningIsBase(s);
    OpeningIsTold(s);
    RunKeeps(s, run);
    ToldMeans(After(s, run));
  }

  /** Nothing adopted is forgotten, whatever is referenced when: only a Release that no
      control ID is left for can break it, or the failure of the client. */
  lemma NothingForgotten(s: Pair, run: seq<Action>)
    requires Opening(s) && Doable(s, run) && Thrifty(s, run)
    ensures NoLeak(After(s, run))
  {
    hide Base, Do, Enabled, Told, Kept, NoLeak;
    OpeningIsBase(s);
    OpeningIsTold(s);
    RunKeeps(s, run);
    KeptMeans(After(s, run));
  }

  /** Once `_close` has sent its Releases, nothing but the root is left adopted for which
      no Release is queued: nothing at all once the server has taken every control, the
      end marker included, and so when the client is closed. */
  lemma CloseDrains(s: Pair, run: seq<Action>, x: nat)
    requires Opening(s) && Doable(s, run) && Thrifty(s, run)
    requires var c := After(s, run).client;
      c.terminal != Failed && c.closeStage >= 2 && !ReleaseQueued(c.controls, x)
    ensures Adopted(After(s, run).gen, x) ==> x == After(s, run).gen.root
  {
    hide Doable, After, Thrifty, Orderly, Ordered, Valid, NoticesAreDead, Known, Ending, TableInv, CounterInv, Told,
      Kept, Accounted, SentInQueue, Usable, ControlsLast;
    NothingForgotten(s, run);
    OpeningIsBase(s);
    RunKeeps(s, run);
  }

  /** A client that ended its controls without failing, and has none left to be taken, or
      that closed, leaves only the root adopted. */
  lemma ClosedLeavesRoot(s: Pair, run: seq<Action>, x: nat)
    requires Opening(s) && Doable(s, run) && Thrifty(s, run)
    requires var c := After(s, run).client;
      c.terminal == Closed || (c.terminal == Open && c.requestClosed && c.controls == [])
    ensures Adopted(After(s, run).gen, x) ==> x == After(s, run).gen.root
  {
    hide Doable, After, Thrifty, Orderly, Ordered, Valid, NoticesAreDead, Known, Ends, TableInv, CounterInv, Told, Kept,
      Accounted, SentInQueue, Usable, ControlsLast, Adopted;
    OpeningIsBase(s);
    RunKeeps(s, run);
    CloseDrains(s, run, x);
  }

  // ----- the life of a Resource

  /** The IDs a run constructs. */
  ghost function Constructed(s: Pair, run: seq<Action>): set<nat>
    requires Doable(s, run)
    decreases |run|
  {
    if run == [] then {}
    else
      (if run[0].Construct? && s.nextId + 1 <= MAX_ID then {s.nextId + 1} else {})
      + Constructed(Do(s, run[0]), run[1..])
  }

  /** Settled once, settled for good: the settlements of a step are added at the end. */
  ghost predicate Extends(g: Gen, g': Gen) {
    && |g.settled| <= |g'.settled| && g'.settled[..|g.settled|] == g.settled
    && g.tombstones <= g'.tombstones && g'.root == g.root
  }

  ghost predicate Longer(a: seq<Settlement>, b: seq<Settlement>) {
    |a| <= |b| && b[..|a|] == a
  }

  lemma ReleaseSettlesMore(g: Gen, x: nat, notifyTarget: bool, caller: Option<nat>)
    requires Planted(g.resources)
    ensures Longer(g.settled, ReleaseResource(g, x, notifyTarget, true, caller).0.settled)
  {
  }

  lemma ControlSettlesMore(g: Gen, c: Control)
    requires Planted(g.resources) && ApplyControl(g, c).Some?
    ensures Longer(g.settled, ApplyControl(g, c).value.settled)
  {
    hide ReleaseResource;
    if c.body.Release? {
      ReleaseSettlesMore(g, c.body.id, false, None);
    }
  }

  lemma ConsumeExtends(s: Pair)
    requires Base(s) && s.consuming && s.client.controls != []
    ensures Longer(s.gen.settled, ConsumeStep(s).gen.settled) && Known(ConsumeStep(s).gen) == Known(s.gen)
  {
    hide ClientInv, Ordered, NoticesAreDead, Known, Valid, ApplyControl, ServerSection;
    ConsumeIsSection(s);
    ValidIsPlanted(s.gen);
    if s.client.controls[0].Send? && ApplyControl(s.gen, s.client.controls[0].control).Some? {
      ControlSettlesMore(s.gen, s.client.controls[0].control);
    }
  }

  lemma ConstructKnows(s: Pair, parent: nat)
    requires Base(s) && Enabled(s, Construct(parent))
    ensures Known(ConstructStep(s, parent).gen)
         == Known(s.gen) + if s.nextId + 1 <= MAX_ID then {s.nextId + 1} else {}
  {
    hide Base, Valid, Index;
  }

  lemma SettlingMore(s: Pair, a: Action)
    requires Base(s) && Enabled(s, a)
    ensures Longer(s.gen.settled, Do(s, a).gen.settled)
    ensures Known(Do(s, a).gen)
         == Known(s.gen) + if a.Construct? && s.nextId + 1 <= MAX_ID then {s.nextId + 1} else {}
  {
    hide ClientInv, Ordered, NoticesAreDead, Known, Valid, ReleaseResource, Teardown, ServerSection, ConsumeStep;
    if !AtClient(a) {
      match a
      case Consume => ConsumeExtends(s);
      case Construct(parent) => ConstructKnows(s, parent);
      case Revoke(x, caller) =>
        ReleaseIsSection(s.gen, x, true, caller);
        ReleaseSettlesMore(s.gen, x, true, caller) by {
          ValidIsPlanted(s.gen);
        }
      case RouteOpens(x, route) => RoutesAreSection(s.gen, x, route);
      case RouteCloses(x, route) => RoutesAreSection(s.gen, x, route);
      case EndGeneration(caller) =>
        TeardownIsSection(s.gen, caller);
        TeardownSettlesMore(s.gen, caller);
      case Receive => SameKnown(s.gen, s.gen.responses[1..]);
      case AllocateElsewhere =>
    }
  }

  lemma SameKnown(g: Gen, rs: seq<Response>)
    ensures Known(g.(responses := rs)) == Known(g)
  {
  }

  lemma TeardownSettlesMore(g: Gen, caller: Option<nat>)
    ensures Valid(g) ==> Longer(g.settled, Teardown(g, caller).settled)
  {
  }

  lemma StepExtends(s: Pair, a: Action)
    requires Base(s) && Enabled(s, a)
    ensures Extends(s.gen, Do(s, a).gen)
    ensures Known(Do(s, a).gen)
         == Known(s.gen) + if a.Construct? && s.nextId + 1 <= MAX_ID then {s.nextId + 1} else {}
  {
    hide Base, Enabled, Do, Valid, NoticesAreDead, Known;
    BaseKept(s, a);
    SettlingMore(s, a);
  }

  lemma {:induction false} RunExtends(s: Pair, run: seq<Action>)
    requires Base(s) && Doable(s, run)
    ensures Base(After(s, run)) && Extends(s.gen, After(s, run).gen)
    ensures Known(After(s, run).gen) == Known(s.gen) + Constructed(s, run)
    decreases |run|
  {
    hide Base, Do, Enabled, Known, Extends;
    if run == [] {
      ExtendsItself(s.gen);
    } else {
      BaseKept(s, run[0]);
      StepExtends(s, run[0]);
      RunExtends(Do(s, run[0]), run[1..]);
      ExtendsOn(s.gen, Do(s, run[0]).gen, After(s, run).gen);
    }
  }

  lemma ExtendsItself(g: Gen)
    ensures Extends(g, g)
  {
  }

  lemma ExtendsOn(g: Gen, g': Gen, g'': Gen)
    ensures Extends(g, g') && Extends(g', g'') ==> Extends(g, g'')
  {
    if Extends(g, g') && Extends(g', g'') {
      assert g''.settled[..|g.settled|] == g''.settled[..|g'.settled|][..|g.settled|];
    }
  }

  /** Death is final: what a run has tombstoned and settled stays so, in the same order,
      and never lives again. */
  lemma DeadStaysDead(s: Pair, run: seq<Action>, more: seq<Action>)
    requires Opening(s) && Doable(s, run) && Doable(After(s, run), more)
    ensures var g, g' := After(s, run).gen, After(After(s, run), more).gen;
      && Longer(g.settled, g'.settled)
      && forall x | x in g.tombstones :: x in g'.tombstones && x !in g'.resources
  {
    hide Do, Enabled, ClientInv, Ordered, NoticesAreDead, Known, Doable, After;
    OpeningIsBase(s);
    RunExtends(s, run);
    RunExtends(After(s, run), more);
  }

  /** Over any run that ends with the generation torn down, everything it ever
      constructed has been settled, and nothing twice. */
  lemma ExactlyOnce(s: Pair, run: seq<Action>)
    requires Opening(s) && Doable(s, run) && After(s, run).gen.closing
    ensures var ids := SettledIds(After(s, run).gen);
      Distinct(ids) && forall x :: x in ids <==> x == s.gen.root || x in Constructed(s, run)
  {
    hide Do, Enabled, Doable, After, ClientInv, Ordered, NoticesAreDead, Constructed, SettledIds, Distinct;
    OpeningIsBase(s);
    RunExtends(s, run);
    OpenedIsOpen(s.gen.root);
  }

  // ----- the order of settlements

  /** What the step from g to g' settles: what it ended, each behind all that hung below it. */
  ghost predicate SettlesInOrder(g: Gen, g': Gen, ids: seq<nat>)
    requires Planted(g.resources)
  {
    && SettledIds(g') == SettledIds(g) + ids
    && ChildFirst(g.resources, ids, true)
    && forall x :: x in ids <==> x in g.resources && x !in g'.resources
  }

  lemma NothingSettles(g: Gen, g': Gen)
    requires Planted(g.resources)
    ensures g'.settled == g.settled && g.resources.Keys <= g'.resources.Keys ==> SettlesInOrder(g, g', [])
  {
    assert g'.settled == g.settled ==> SettledIds(g') == SettledIds(g) + [];
  }

  lemma RemovalSettlesInOrder(g: Gen, g': Gen, ids: seq<nat>, caller: Option<nat>)
    requires Valid(g) && (forall x | x in ids :: x in g.resources) && ChildFirst(g.resources, ids, true)
    requires g'.settled == Removal(g, ids, caller).settled && g'.resources == g.resources - Elems(ids)
    ensures SettlesInOrder(g, g', ids)
  {
    SettlingIds(g, ids, caller);
    assert SettledIds(g') == SettledIds(Removal(g, ids, caller));
    hide ChildFirst, Valid, SettledIds, Removal;
  }

  lemma ReleaseSettlesInOrder(g: Gen, x: nat, notifyTarget: bool, caller: Option<nat>) returns (ids: seq<nat>)
    requires Valid(g)
    ensures SettlesInOrder(g, ReleaseResource(g, x, notifyTarget, true, caller).0, ids)
  {
    hide ChildFirst, SettledIds, SettlesInOrder;
    var g' := ReleaseResource(g, x, notifyTarget, true, caller).0;
    if !g.closing && x in g.resources {
      ids := Batch(g.resources, x, x == g.root);
      BatchIsClosed(g, x);
      BatchChildFirst(g.resources, x, x == g.root);
      RemovalSettlesInOrder(g, g', ids, caller);
    } else {
      ids := [];
      NothingSettles(g, g');
    }
  }

  lemma ConsumeSettlesInOrder(s: Pair) returns (ids: seq<nat>)
    requires Base(s) && s.consuming && s.client.controls != []
    ensures Planted(s.gen.resources) && SettlesInOrder(s.gen, ConsumeStep(s).gen, ids)
  {
    hide ClientInv, Ordered, NoticesAreDead, Known, ReleaseResource, ChildFirst, SettledIds;
    ValidIsPlanted(s.gen);
    var g, i := s.gen, s.client.controls[0];
    if i.Send? && ApplyControl(g, i.control).Some? && i.control.body.Release? {
      ids := ReleaseSettlesInOrder(g, i.control.body.id, false, None);
      SameSettled(ReleaseResource(g, i.control.body.id, false, true, None).0, ConsumeStep(s).gen);
    } else {
      ids := [];
      hide Valid;
      NothingSettles(g, ConsumeStep(s).gen);
    }
  }

  lemma SameSettled(g: Gen, g': Gen)
    ensures g'.settled == g.settled ==> SettledIds(g') == SettledIds(g)
  {
  }

  lemma TeardownSettlesInOrder(g: Gen, caller: Option<nat>) returns (ids: seq<nat>)
    requires Valid(g)
    ensures SettlesInOrder(g, Teardown(g, caller), ids)
  {
    hide ChildFirst, SettledIds, SettlesInOrder;
    if g.closing {
      ids := [];
      NothingSettles(g, g);
    } else {
      ids := TeardownOrder(g.resources, g.root);
      TeardownIsComplete(g.resources, g.root);
      RemovalSettlesInOrder(g, Teardown(g, caller), ids, caller);
    }
  }

  /** In every state that a run reaches, the next step settles exactly what it ends, and
      no Resource ahead of one that hung below it, adopted or not. */
  lemma SettlesChildFirst(s: Pair, run: seq<Action>, a: Action) returns (ids: seq<nat>)
    requires Opening(s) && Doable(s, run) && Enabled(After(s, run), a)
    ensures Valid(After(s, run).gen) && SettlesInOrder(After(s, run).gen, Do(After(s, run), a).gen, ids)
  {
    hide ClientInv, Ordered, NoticesAreDead, Known, Ending, Doable, After, SettlesInOrder, ReleaseResource, Teardown,
      ConsumeStep, Told, Kept, Orderly, Thrifty, ControlsLast, Accounted, SentInQueue, Usable;
    OpeningIsBase(s);
    RunKeeps(s, run);
    var t := After(s, run);
    if a.Consume? {
      ids := ConsumeSettlesInOrder(t);
    } else if a.Revoke? {
      ids := ReleaseSettlesInOrder(t.gen, a.x, true, a.caller);
    } else if a.EndGeneration? {
      ids := TeardownSettlesInOrder(t.gen, a.caller);
    } else {
      ids := [];
      hide Valid;
      NothingSettles(t.gen, Do(t, a).gen);
    }
  }

  // ----- one Release per incarnation

  /** A Release is due and there is no control ID left for it. */
  predicate Unsent(c: Client, a: Action) {
    c.terminal == Open
    && match a
       case RunReleaseTask(r, routesOpen) => !routesOpen && c.controlId == MAX_ID && LastReference(c, r)
       case ResumeReleaseTask(_) => c.controlId == MAX_ID
       case ReleaseAll => c.controlId + |c.closeList| > MAX_ID
       case _ => false
  }

  ghost predicate ControlsLast(s: Pair, run: seq<Action>)
    requires Doable(s, run)
    decreases |run|
  {
    run == [] || (!Unsent(s.client, run[0]) && ControlsLast(Do(s, run[0]), run[1..]))
  }

  lemma NotAccounted(c: Client, k: nat)
    requires c.terminal == Open && k < |c.states| && c.states[k].terminal
    requires k !in c.sent && k !in c.revoked && k !in Owing(c)
    ensures !Accounted(c)
  {
  }

  lemma RunReleaseAccounts(c: Client, r: nat, routesOpen: bool)
    requires ClientInv(c) && r in c.begun && Accounted(c)
    ensures Accounted(RunRelease(c, r, routesOpen)) <==> !Unsent(c, RunReleaseTask(r, routesOpen))
  {
    hide ClientInv, Accounted, Owing;
    RunReleaseKeeps(c, r, routesOpen);
    DropRefKeeps(c, r);
    var k, c1 := c.refs[r], DropRef(c, r);
    assert c.states[k].refs - {r} == {} <==> c.states[k].refs <= {r};
    if c.terminal != Open {
      EndedIsAccounted(RunRelease(c, r, routesOpen));
    } else {
      CounterBound(c);
      if c1.states[k].refs == {} && !c1.states[k].terminal && Unsent(c, RunReleaseTask(r, routesOpen)) {
        RetireKeeps(c1, k);
        NotAccounted(Retire(c1, k), k);
      }
    }
  }

  lemma EndedIsAccounted(c: Client)
    ensures c.terminal != Open ==> Accounted(c)
  {
  }

  lemma ResumeAccounts(c: Client, k: nat)
    requires ClientInv(c) && k in c.waiting && Accounted(c)
    ensures Accounted(ResumeRelease(c, k)) <==> !Unsent(c, ResumeReleaseTask(k))
  {
    hide ClientInv, Accounted, Owing;
    ResumeReleaseKeeps(c, k);
    if c.terminal != Open {
      EndedIsAccounted(ResumeRelease(c, k));
    } else {
      CounterBound(c);
      if c.controlId == MAX_ID {
        NoLongerWaiting(c, k);
        NotAccounted(c.(waiting := c.waiting - {k}), k);
      }
    }
  }

  /** As many of the Releases are sent as there are control IDs, in order. */
  lemma {:induction false} SendReleasesExact(c: Client, ks: seq<nat>)
    requires c.terminal == Open && c.controlId <= MAX_ID && forall k | k in ks :: k < |c.states|
    ensures var c', n := SendReleases(c, ks), if |ks| <= MAX_ID - c.controlId then |ks| else MAX_ID - c.controlId;
      && c'.sent == c.sent + ks[..n] && c'.controlId == c.controlId + n
      && c'.states == c.states && c'.revoked == c.revoked && Owing(c') == Owing(c) && c'.terminal == Open
    decreases |ks|
  {
    hide Owing, SendRelease;
    if ks != [] {
      assert ks[0] in ks && forall k | k in ks[1..] :: k in ks;
      SendReleaseStep(c, ks[0]);
      var c1 := SendRelease(c, ks[0]);
      SendReleasesExact(c1, ks[1..]);
      assert SendReleases(c, ks) == SendReleases(c1, ks[1..]);
      hide SendReleases;
      var n := if |ks| <= MAX_ID - c.controlId then |ks| else MAX_ID - c.controlId;
      if c.controlId < MAX_ID {
        SentHead(c.sent, ks, n);
      } else {
        assert ks[..n] == ks[1..][..n];
      }
    }
  }

  lemma SentHead(sent: seq<nat>, ks: seq<nat>, n: nat)
    ensures 0 < n <= |ks| ==> sent + [ks[0]] + ks[1..][..n - 1] == sent + ks[..n]
  {
  }

  lemma SendReleaseStep(c: Client, k: nat)
    ensures c.terminal == Open && k < |c.states| ==>
        var c' := SendRelease(c, k);
        && c'.sent == (if c.controlId == MAX_ID then c.sent else c.sent + [k])
        && c'.controlId == (if c.controlId == MAX_ID then MAX_ID else c.controlId + 1)
        && c'.states == c.states && c'.revoked == c.revoked && Owing(c') == Owing(c) && c'.terminal == Open
  {
  }

  lemma CloseAccounts(c: Client)
    requires ClientInv(c) && c.closeStage == 1 && c.waiting == {} && Accounted(c)
    ensures Accounted(CloseRelease(c)) <==> !Unsent(c, ReleaseAll)
  {
    hide ClientInv, Accounted, Owing;
    CloseReleaseKeeps(c);
    if c.terminal != Open {
      EndedIsAccounted(CloseRelease(c));
    } else {
      CounterBound(c);
      TakenListKeeps(c);
      var c1, ks := c.(closeList := [], closeStage := 2), c.closeList;
      SendReleasesExact(c1, ks);
      if c.controlId + |ks| > MAX_ID {
        var n := MAX_ID - c.controlId;
        assert ks[n] in ks;
        NotAccounted(SendReleases(c1, ks), ks[n]);
      }
    }
  }

  /** A retired incarnation stays accounted for exactly until a Release finds no control ID. */
  lemma AccountedKept(s: Pair, a: Action)
    requires Base(s) && Enabled(s, a) && Accounted(s.client)
    ensures Accounted(Do(s, a).client) <==> !Unsent(s.client, a)
  {
    hide ClientInv, Ordered, NoticesAreDead, Known, Valid, Settles, CreateReference, RunRelease, ResumeRelease,
      BeginRelease, BeginClose, CloseRelease, FinishClose, RetireGeneration, Handle, ClosedDown, ApplyControl;
    var c := s.client;
    match a
    case Reference(x) => CreateReferenceKeeps(c, x);
    case CloneRef(r) =>
      if RefLive(c, r) {
        CreateReferenceKeeps(c, c.states[c.refs[r]].id);
      }
    case StartRelease(r) => BeginReleaseKeeps(c, r);
    case RunReleaseTask(r, routesOpen) => RunReleaseAccounts(c, r, routesOpen);
    case ResumeReleaseTask(k) => ResumeAccounts(c, k);
    case StartClose => BeginCloseKeeps(c);
    case ReleaseAll => CloseAccounts(c);
    case EndControls => FinishCloseKeeps(c);
    case FinishClosing => ClosedDownKeeps(c);
    case StreamFails => RetireGenerationKeeps(c);
    case Receive => HandleKeeps(c, s.gen.responses[0]);
    case _ =>
  }

  /** The resource IDs of the Releases in a queue. */
  function ReleaseIds(q: seq<Item>): seq<nat> {
    if q == [] then []
    else (if q[0].Send? && q[0].control.body.Release? then [q[0].control.body.id] else []) + ReleaseIds(q[1..])
  }

  lemma {:induction false} ReleaseIdsSnoc(q: seq<Item>, i: Item)
    ensures ReleaseIds(q + [i])
         == ReleaseIds(q) + if i.Send? && i.control.body.Release? then [i.control.body.id] else []
  {
    if q == [] {
      assert (q + [i])[1..] == [];
    } else {
      assert (q + [i])[1..] == q[1..] + [i];
      ReleaseIdsSnoc(q[1..], i);
    }
  }

  /** The resource IDs of the incarnations that sent a Release, in order. */
  function SentIds(states: seq<Incarnation>, sent: seq<nat>): (ids: seq<nat>)
    ensures |ids| == |sent|
  {
    seq(|sent|, i requires 0 <= i < |sent| => if sent[i] < |states| then states[sent[i]].id else 0)
  }

  /** The Releases still queued are those of the incarnations that sent last, in order. */
  ghost predicate SentQueued(states: seq<Incarnation>, sent: seq<nat>, ids: seq<nat>) {
    && |ids| <= |sent| && SentIds(states, sent)[|sent| - |ids|..] == ids
    && forall i | 0 <= i < |sent| :: sent[i] < |states|
  }

  ghost predicate SentInQueue(c: Client) {
    SentQueued(c.states, c.sent, ReleaseIds(c.controls))
  }

  lemma SentQueuedLasting(states: seq<Incarnation>, states': seq<Incarnation>, sent: seq<nat>, ids: seq<nat>)
    requires SentQueued(states, sent, ids) && Lasting(states, states')
    ensures SentQueued(states', sent, ids)
  {
    assert SentIds(states', sent) == SentIds(states, sent);
  }

  /** What one client step may do to the queue: nothing, add something other than a
      Release, add the Release of one incarnation, or drop it whole. */
  ghost predicate QueueStep(c: Client, c': Client) {
    && Lasting(c.states, c'.states)
    && (|| (c'.sent == c.sent && (c'.controls == c.controls || c'.controls == []))
        || (c'.sent == c.sent && c'.controls != []
            && AddedOther(c.controls, c'.controls[|c'.controls| - 1], c'.controls))
        || (c'.sent != [] && AddedRelease(c, c'.sent[|c'.sent| - 1], c')))
  }

  predicate AddedOther(q: seq<Item>, i: Item, q': seq<Item>) {
    q' == q + [i] && !(i.Send? && i.control.body.Release?)
  }

  predicate AddedRelease(c: Client, k: nat, c': Client) {
    && k < |c.states| && c'.sent == c.sent + [k]
    && c'.controls == c.controls + [Send(Control(c'.controlId, Release(c.states[k].id)))]
  }

  lemma QueueStepKeeps(c: Client, c': Client)
    requires SentInQueue(c) && QueueStep(c, c')
    ensures SentInQueue(c')
  {
    hide Lasting, SentQueued, ReleaseIds;
    SentQueuedLasting(c.states, c'.states, c.sent, ReleaseIds(c.controls));
    if c'.sent == c.sent && c'.controls == c.controls {
    } else if c'.sent == c.sent && c'.controls == [] {
      NothingQueued(c'.states, c'.sent, ReleaseIds(c.controls));
    } else if c'.sent == c.sent {
      var i := c'.controls[|c'.controls| - 1];
      ReleaseIdsSnoc(c.controls, i);
      assert ReleaseIds(c.controls) + [] == ReleaseIds(c.controls);
    } else {
      var k := c'.sent[|c'.sent| - 1];
      ReleaseIdsSnoc(c.controls, Send(Control(c'.controlId, Release(c.states[k].id))));
      OneMoreSent(c'.states, c.sent, ReleaseIds(c.controls), k) by {
        LastingAt(c.states, c'.states, k);
      }
      LastingAt(c.states, c'.states, k);
    }
  }

  lemma LastingAt(states: seq<Incarnation>, states': seq<Incarnation>, k: nat)
    ensures Lasting(states, states') && k < |states| ==> k < |states'| && states'[k].id == states[k].id
  {
  }

  lemma NothingQueued(states: seq<Incarnation>, sent: seq<nat>, ids: seq<nat>)
    ensures SentQueued(states, sent, ids) ==> SentQueued(states, sent, ReleaseIds([]))
  {
  }

  lemma OneMoreSent(states: seq<Incarnation>, sent: seq<nat>, ids: seq<nat>, k: nat)
    requires SentQueued(states, sent, ids) && k < |states|
    ensures SentQueued(states, sent + [k], ids + [states[k].id])
  {
    assert SentIds(states, sent + [k]) == SentIds(states, sent) + [states[k].id];
  }

  lemma OneFewerQueued(states: seq<Incarnation>, sent: seq<nat>, q: seq<Item>)
    requires q != [] && SentQueued(states, sent, ReleaseIds(q))
    ensures SentQueued(states, sent, ReleaseIds(q[1..]))
  {
    var ids, rest := ReleaseIds(q), ReleaseIds(q[1..]);
    if ids != rest {
      assert ids == [ids[0]] + rest;
      assert rest == ids[1..];
      assert SentIds(states, sent)[|sent| - |rest|..] == SentIds(states, sent)[|sent| - |ids|..][1..];
    }
  }

  lemma SendReleaseQueues(c: Client, k: nat)
    requires k < |c.states|
    ensures QueueStep(c, SendRelease(c, k))
  {
    if CanEnqueue(c) {
      assert AddedRelease(c, k, SendRelease(c, k));
    }
  }

  lemma {:induction false} SendReleasesQueue(c: Client, ks: seq<nat>)
    requires SentInQueue(c) && forall k | k in ks :: k < |c.states|
    ensures SentInQueue(SendReleases(c, ks))
    decreases |ks|
  {
    hide SentInQueue, QueueStep, Lasting;
    if ks != [] {
      assert ks[0] in ks && forall k | k in ks[1..] :: k in ks;
      SendReleaseQueues(c, ks[0]);
      QueueStepKeeps(c, SendRelease(c, ks[0]));
      SendReleasesQueue(SendRelease(c, ks[0]), ks[1..]);
    }
  }

  lemma ReferenceQueues(c: Client, x: nat)
    requires ClientInv(c)
    ensures QueueStep(c, CreateReference(c, x).0)
  {
    hide Referred, Counted, Sends, Distinct;
    if Live(c) && x != 0 && x !in c.resources && CanEnqueue(c) {
      assert AddedOther(c.controls, Send(Control(c.controlId + 1, Adopt(x))), CreateReference(c, x).0.controls);
    }
  }

  lemma RunQueues(c: Client, r: nat, routesOpen: bool)
    requires SentInQueue(c) && ClientInv(c) && r in c.begun
    ensures SentInQueue(RunRelease(c, r, routesOpen))
  {
    hide SentInQueue, ClientInv, QueueStep, Retire;
    DropRefKeeps(c, r);
    var k, c1 := c.refs[r], DropRef(c, r);
    DropRefQueues(c, r);
    QueueStepKeeps(c, c1);
    if c1.states[k].refs == {} && !c1.states[k].terminal {
      var c2 := Retire(c1, k);
      RetireQueues(c1, k);
      QueueStepKeeps(c1, c2);
      if routesOpen {
        WaitingQueues(c2, c2.waiting + {k});
      } else if c2.terminal == Open {
        RetireKeepsHistory(c1, k);
        SendReleaseQueues(c2, k);
        QueueStepKeeps(c2, SendRelease(c2, k));
      }
    }
  }

  lemma WaitingQueues(c: Client, waiting: set<nat>)
    ensures SentInQueue(c) ==> SentInQueue(c.(waiting := waiting))
  {
    hide SentQueued;
  }

  lemma DropRefQueues(c: Client, r: nat)
    ensures r < |c.refs| && c.refs[r] < |c.states| ==> QueueStep(c, DropRef(c, r))
  {
  }

  lemma RetireQueues(c: Client, k: nat)
    ensures QueueStep(c, Retire(c, k))
  {
  }

  lemma ResumeQueues(c: Client, k: nat)
    requires SentInQueue(c) && ClientInv(c) && k in c.waiting
    ensures SentInQueue(ResumeRelease(c, k))
  {
    hide SentInQueue, ClientInv, QueueStep;
    NoLongerWaiting(c, k);
    var c1 := c.(waiting := c.waiting - {k});
    WaitingQueues(c, c1.waiting);
    if c1.terminal == Open {
      SendReleaseQueues(c1, k);
      QueueStepKeeps(c1, SendRelease(c1, k));
    }
  }

  lemma EndQueues(c: Client)
    requires ClientInv(c)
    ensures QueueStep(c, RetireGeneration(c))
    ensures c.terminal == Open && !c.closing ==> QueueStep(c, BeginClose(c))
    ensures QueueStep(c, FinishClose(c)) && QueueStep(c, ClosedDown(c))
  {
    EndAllTable(c);
    hide ClientInv, EndAll;
    assert c.requestClosed || AddedOther(c.controls, QueueEnd, FinishClose(c).controls);
    EndAllSends(c);
  }

  lemma EndAllSends(c: Client)
    ensures EndAll(c).sent == c.sent && EndAll(c).controls == c.controls
  {
  }

  lemma HandleQueues(c: Client, r: Response)
    requires ClientInv(c) && SentInQueue(c)
    ensures SentInQueue(Handle(c, r))
  {
    hide SentQueued, ClientInv, QueueStep, RetireGeneration, Retire;
    EndQueues(c);
    QueueStepKeeps(c, RetireGeneration(c));
    if r.Released? && r.id in c.resources {
      RetireQueues(c, c.resources[r.id]);
      QueueStepKeeps(c, Retire(c, c.resources[r.id]));
    }
  }

  lemma CloseReleaseQueues(c: Client)
    requires ClientInv(c) && SentInQueue(c) && c.closeStage == 1 && c.waiting == {}
    ensures SentInQueue(CloseRelease(c))
  {
    hide ClientInv, SentQueued;
    TakenListKeeps(c);
    if c.terminal == Open {
      SendReleasesQueue(c.(closeList := [], closeStage := 2), c.closeList);
    }
  }

  lemma SentInQueueKept(s: Pair, a: Action)
    requires Base(s) && Enabled(s, a) && SentInQueue(s.client)
    ensures SentInQueue(Do(s, a).client)
  {
    hide ClientInv, Ordered, NoticesAreDead, Known, Valid, QueueStep, SentQueued, CreateReference, RunRelease,
      ResumeRelease, BeginClose, CloseRelease, FinishClose, RetireGeneration, Handle, ClosedDown, ApplyControl;
    var c := s.client;
    match a
    case Reference(x) =>
      ReferenceQueues(c, x);
      QueueStepKeeps(c, CreateReference(c, x).0);
    case CloneRef(r) =>
      if RefLive(c, r) {
        ReferenceQueues(c, c.states[c.refs[r]].id);
        QueueStepKeeps(c, CreateReference(c, c.states[c.refs[r]].id).0);
      }
    case RunReleaseTask(r, routesOpen) => RunQueues(c, r, routesOpen);
    case ResumeReleaseTask(k) => ResumeQueues(c, k);
    case ReleaseAll => CloseReleaseQueues(c);
    case StartClose =>
      EndQueues(c);
      QueueStepKeeps(c, BeginClose(c));
    case EndControls =>
      EndQueues(c);
      QueueStepKeeps(c, FinishClose(c));
    case FinishClosing =>
      EndQueues(c);
      QueueStepKeeps(c, ClosedDown(c));
    case StreamFails =>
      EndQueues(c);
      QueueStepKeeps(c, RetireGeneration(c));
    case Receive => HandleQueues(c, s.gen.responses[0]);
    case Consume => OneFewerQueued(c.states, c.sent, c.controls);
    case _ =>
  }

  /** Under any interleaving an incarnation sends at most one Release, only once it is
      retired, and none if a notice retired it. While the generation is open a retired
      one has sent its Release, or was revoked, or still owes it; at the end of `_close`
      nothing is owed. */
  lemma OneRelease(s: Pair, run: seq<Action>, k: nat)
    requires Opening(s) && Doable(s, run) && k < |After(s, run).client.states|
    ensures var c := After(s, run).client;
      && Distinct(c.sent) && SentInQueue(c)
      && (k in c.sent || k in c.revoked || k in Owing(c) ==> c.states[k].terminal)
      && !(k in c.sent && k in c.revoked) && !(k in c.sent && k in Owing(c)) && !(k in c.revoked && k in Owing(c))
      && (c.terminal == Open && c.states[k].terminal && ControlsLast(s, run) ==>
            k in c.sent || k in c.revoked || k in Owing(c))
      && (c.terminal == Open && c.closeStage >= 2 ==> Owing(c) == {} && c.states[k].terminal)
  {
    hide Do, Enabled, Doable, After, ControlsLast, Ordered, SentQueued, SentIds, NoticesAreDead, Known, Valid, TableInv,
      CounterInv, Distinct, Told, Kept, Usable, Ending, Orderly, Thrifty;
    OpeningIsBase(s);
    RunKeeps(s, run);
    NothingSent(s.client);
    var c := After(s, run).client;
    if c.terminal == Open && c.closeStage >= 2 {
      NoneLive(c, k);
    }
  }

  lemma NoneLive(c: Client, k: nat)
    ensures ClientInv(c) && c.resources == map[] && k < |c.states| ==> c.states[k].terminal
  {
    hide Referred, Counted, Sends;
  }

  lemma NothingSent(c: Client)
    ensures c == Fresh() ==> SentInQueue(c)
  {
  }

  /** While the client is open its pending controls are exactly those after the last
      acknowledged one, and only those have waiters. */
  lemma PendingExact(s: Pair, run: seq<Action>, n: nat)
    requires Opening(s) && Doable(s, run) && After(s, run).client.terminal == Open
    ensures var c := After(s, run).client;
      (n in c.pending <==> c.acked < n <= c.controlId) && (n in c.waiters ==> n in c.pending)
  {
    hide Do, Enabled, Doable, After, Ordered, NoticesAreDead, Known, Valid, TableInv, SentInv, StageInv, Told, Kept,
      Accounted, SentInQueue, Usable, Ending, Orderly, Thrifty, ControlsLast;
    OpeningIsBase(s);
    RunKeeps(s, run);
  }

  // ----- references

  /** A reference is released before its task runs, and one that is not released is held
      by its incarnation. */
  ghost predicate Usable(c: Client) {
    && c.tasked <= c.released && (forall r | r in c.released :: r < |c.refs|)
    && forall r | 0 <= r < |c.refs| && r !in c.released :: c.refs[r] < |c.states| && r in c.states[c.refs[r]].refs
  }

  lemma AddRefUsable(c: Client, k: nat)
    requires Usable(c) && k < |c.states|
    ensures Usable(AddRef(c, k).0)
  {
    var c' := AddRef(c, k).0;
    forall r | 0 <= r < |c'.refs| && r !in c'.released
      ensures c'.refs[r] < |c'.states| && r in c'.states[c'.refs[r]].refs
    {
      if r < |c.refs| {
        assert c'.refs[r] == c.refs[r];
      }
    }
  }

  lemma ReferenceUsable(c: Client, x: nat)
    requires Usable(c) && ClientInv(c)
    ensures Usable(CreateReference(c, x).0)
  {
    if Live(c) && x != 0 {
      if x in c.resources {
        TableEntry(c, x);
        AddRefUsable(c, c.resources[x]);
      } else {
        hide ClientInv;
        var c1 := NewState(c, x);
        assert Usable(c1);
        if CanEnqueue(c) {
          var c2 := AdoptState(c1, |c.states|);
          assert c2 == CreateReferenceUpTo(c, x);
          assert Usable(c2) by {
            assert forall k | 0 <= k < |c2.states| :: c2.states[k].refs == c1.states[k].refs;
          }
          AddRefUsable(c2, |c.states|);
        }
      }
    }
  }

  /** Everything `create_resource_reference` does to a new ID before it makes the reference. */
  function CreateReferenceUpTo(c: Client, x: nat): Client {
    var k := |c.states|;
    var c2 := Enqueue(NewState(c, x), Adopt(x));
    c2.(states := c2.states[k := Incarnation(x, {}, {c2.controlId}, false)])
  }

  lemma SendReleaseUsable(c: Client, k: nat)
    ensures Usable(c) ==> Usable(SendRelease(c, k))
  {
  }

  lemma {:induction false} SendReleasesUsable(c: Client, ks: seq<nat>)
    requires Usable(c)
    ensures Usable(SendReleases(c, ks))
    decreases |ks|
  {
    hide Usable, SendRelease;
    if ks != [] {
      SendReleaseUsable(c, ks[0]);
      SendReleasesUsable(SendRelease(c, ks[0]), ks[1..]);
    }
  }

  lemma RunReleaseUsable(c: Client, r: nat, routesOpen: bool)
    requires Usable(c) && ClientInv(c) && r in c.begun
    ensures Usable(RunRelease(c, r, routesOpen))
  {
    DropRefKeeps(c, r);
    hide ClientInv, DropRef, Retire, SendRelease;
    var k, c1 := c.refs[r], DropRef(c, r);
    if c1.states[k].refs == {} && !c1.states[k].terminal {
      SendReleaseUsable(Retire(c1, k), k);
    }
  }

  /** Ending every incarnation in the table releases every reference. */
  lemma EndAllUsable(c: Client)
    requires Usable(c) && ClientInv(c)
    ensures Usable(EndAll(c))
  {
    EndAllTable(c);
    var c' := EndAll(c);
    forall r | 0 <= r < |c'.refs| ensures r in c'.released {
    }
  }

  lemma FailedUsable(c: Client)
    requires Usable(c) && ClientInv(c)
    ensures Usable(RetireGeneration(c))
  {
    EndAllUsable(c);
    hide ClientInv, EndAll;
  }

  lemma HandleUsable(c: Client, r: Response)
    requires Usable(c) && ClientInv(c)
    ensures Usable(Handle(c, r))
  {
    FailedUsable(c);
    hide ClientInv, RetireGeneration, Retire;
  }

  lemma UsableKept(s: Pair, a: Action)
    requires Base(s) && Enabled(s, a) && Usable(s.client)
    ensures Usable(Do(s, a).client)
  {
    hide ClientInv, Ordered, NoticesAreDead, Known, Valid, CreateReference, RunRelease, SendRelease, SendReleases,
      EndAll, RetireGeneration, Handle, ApplyControl;
    var c := s.client;
    match a
    case Reference(x) => ReferenceUsable(c, x);
    case CloneRef(r) =>
      if RefLive(c, r) {
        ReferenceUsable(c, c.states[c.refs[r]].id);
      }
    case RunReleaseTask(r, routesOpen) => RunReleaseUsable(c, r, routesOpen);
    case ResumeReleaseTask(k) => SendReleaseUsable(c.(waiting := c.waiting - {k}), k);
    case ReleaseAll => SendReleasesUsable(c.(closeList := [], closeStage := 2), c.closeList);
    case StartClose => EndAllUsable(c);
    case StreamFails => FailedUsable(c);
    case Receive => HandleUsable(c, s.gen.responses[0]);
    case _ =>
  }

  /** In every run a reference that does not report itself released is one that can be
      used: its incarnation is live, stands in the table under its ID and lists the
      reference. So revocation, closing and failure mark every reference they end. */
  lemma UnreleasedIsLive(s: Pair, run: seq<Action>, r: nat)
    requires Opening(s) && Doable(s, run)
    requires var c := After(s, run).client; r < |c.refs| && r !in c.released
    ensures var c := After(s, run).client;
      && c.refs[r] < |c.states| && r in c.states[c.refs[r]].refs && StateLive(c, c.refs[r])
      && !c.closing && RefLive(c, r) == (c.terminal == Open)
  {
    hide Do, Enabled, Doable, After, Ordered, NoticesAreDead, Known, Valid, Counted, Sends, Referred, Told, Kept,
      Accounted, SentInQueue, Ending, Orderly, Thrifty, ControlsLast;
    OpeningIsBase(s);
    RunKeeps(s, run);
  }

  // ----- routes

  /** Whether the last thing the run did to route r of x was to open it. */
  function RouteOpen(run: seq<Action>, x: nat, r: nat, now: bool): bool {
    if run == [] then now
    else RouteOpen(run[1..], x, r, if run[0] == RouteOpens(x, r) then true
                                   else if run[0] == RouteCloses(x, r) then false else now)
  }

  ghost predicate Routed(g: Gen, x: nat, r: nat) {
    x in g.resources && r in g.resources[x].routes
  }

  lemma ReleaseKeepsRoutes(g: Gen, id: nat, notifyTarget: bool, caller: Option<nat>, x: nat)
    requires Valid(g)
    ensures var res' := ReleaseResource(g, id, notifyTarget, true, caller).0.resources;
      x in res' ==> x in g.resources && res'[x] == g.resources[x]
  {
  }

  lemma ConsumeKeepsRoutes(s: Pair, x: nat)
    requires Base(s) && s.consuming && s.client.controls != []
    ensures var res' := ConsumeStep(s).gen.resources;
      x in res' ==> x in s.gen.resources && res'[x].routes == s.gen.resources[x].routes
  {
    hide ClientInv, Ordered, NoticesAreDead, Known, ReleaseResource;
    var g, i := s.gen, s.client.controls[0];
    if i.Send? && i.control.body.Release? {
      ReleaseKeepsRoutes(g, i.control.body.id, false, None, x);
    }
    hide Valid;
  }

  /** Only its own opening and closing touch a route of what stays. */
  lemma StepRoutes(s: Pair, a: Action, x: nat, r: nat)
    requires Base(s) && Enabled(s, a) && x in Do(s, a).gen.resources
    ensures Routed(Do(s, a).gen, x, r)
       <==> if a == RouteOpens(x, r) then true else if a == RouteCloses(x, r) then false else Routed(s.gen, x, r)
    ensures x in s.gen.resources || (a.Construct? && x == s.nextId + 1)
  {
    hide ClientInv, Ordered, NoticesAreDead, ReleaseResource, Teardown, ConsumeStep;
    match a
    case Consume => ConsumeKeepsRoutes(s, x);
    case Construct(_) => assert s.nextId + 1 !in Known(s.gen);
    case Revoke(id, caller) => ReleaseKeepsRoutes(s.gen, id, true, caller, x);
    case EndGeneration(caller) => TeardownValid(s.gen, caller);
    case _ => hide Valid;
  }

  lemma {:induction false} RunRoutes(s: Pair, run: seq<Action>, x: nat, r: nat)
    requires Base(s) && Doable(s, run) && x in After(s, run).gen.resources
    ensures Routed(After(s, run).gen, x, r) <==> RouteOpen(run, x, r, Routed(s.gen, x, r))
    decreases |run|
  {
    hide Base, Do, Enabled, Routed;
    if run != [] {
      var t := Do(s, run[0]);
      BaseKept(s, run[0]);
      RunRoutes(t, run[1..], x, r);
      if x in t.gen.resources {
        StepRoutes(s, run[0], x, r);
      } else {
        NotYetRouted(s, run, x, r);
      }
    }
  }

  /** What lives at the end of a run and is not there after its first step was not there
      ahead of it. */
  lemma NotYetRouted(s: Pair, run: seq<Action>, x: nat, r: nat)
    requires Base(s) && Doable(s, run) && run != [] && x in After(s, run).gen.resources
    requires x !in Do(s, run[0]).gen.resources
    ensures !Routed(s.gen, x, r) && !Routed(Do(s, run[0]).gen, x, r) && run[0] != RouteOpens(x, r)
  {
    hide ClientInv, Ordered, NoticesAreDead, Extends, Do;
    BaseKept(s, run[0]);
    StepExtends(s, run[0]);
    RunExtends(Do(s, run[0]), run[1..]);
    assert x in s.gen.resources ==> x in Do(s, run[0]).gen.tombstones;
    StaysTombstoned(Do(s, run[0]).gen, After(s, run).gen, x);
    OpenedStays(s, x, r);
  }

  lemma StaysTombstoned(g: Gen, g': Gen, x: nat)
    ensures Valid(g') && Extends(g, g') && x in g.tombstones ==> x !in g'.resources
  {
  }

  lemma OpenedStays(s: Pair, x: nat, r: nat)
    ensures Valid(s.gen) && x in s.gen.resources ==> x in Do(s, RouteOpens(x, r)).gen.resources
  {
    hide Valid;
  }

  /** Whose route a step runs on, if any: the control reader runs on none. */
  function CallerOf(a: Action): Option<nat> {
    match a
    case Revoke(_, caller) => caller
    case EndGeneration(caller) => caller
    case _ => None
  }

  lemma StepJoins(s: Pair, a: Action)
    requires Base(s) && Enabled(s, a)
    ensures Joins(s.gen, Do(s, a).gen, CallerOf(a))
  {
    hide ClientInv, Ordered, NoticesAreDead, Known, ReleaseResource, Teardown;
    match a
    case Consume =>
      if s.client.controls[0].Send? && s.client.controls[0].control.body.Release? {
        ReleaseJoins(s.gen, s.client.controls[0].control.body.id, false, None);
      }
      hide Valid;
    case Revoke(id, caller) => ReleaseJoins(s.gen, id, true, caller);
    case EndGeneration(caller) => TeardownJoins(s.gen, caller);
    case _ => hide Valid;
  }

  /** In every state of every run, what the next step settles has had exactly those routes
      joined that the run opened on it last and did not close, the caller's left out. */
  lemma SettlesAfterRoutes(s: Pair, run: seq<Action>, a: Action, i: nat, r: nat)
    requires Opening(s) && Doable(s, run) && Enabled(After(s, run), a)
    ensures var t := After(s, run);
      && Valid(t.gen)
      && var was, now := t.gen.settled, Do(t, a).gen.settled;
      |was| <= i < |now| ==>
        (r in now[i].joined <==> RouteOpen(run, now[i].id, r, false) && CallerOf(a) != Some(r))
  {
    hide ClientInv, Ordered, NoticesAreDead, Known, Ending, Do, Enabled, Told, Kept, Orderly, Thrifty, ControlsLast,
      Accounted, SentInQueue, Usable;
    OpeningIsBase(s);
    RunKeeps(s, run);
    StepJoins(After(s, run), a);
    var was, now := After(s, run).gen.settled, Do(After(s, run), a).gen.settled;
    if |was| <= i < |now| {
      RunRoutes(s, run, now[i].id, r);
    }
  }
}
