/** Runs from a generation's opening that reach the states where a reference misleads and
    where a release forgets, so that the conditions of ResourceWindows are met in fact. */
module ResourceWitness {
  import opened SortedSets
  import opened ResourceForest
  import opened ResourceGeneration
  import opened ResourceClientSpec
  import opened ResourceProtocol
  import opened ResourceFate
  import opened ResourceAgreement
  import opened ResourceRuns
  import opened ResourceEndurance
  import opened ResourceWindows

  /** A run in which nothing is amiss: no step misleads or forgets, and the client names
      known IDs only. */
  ghost predicate Proper(s: Pair, run: seq<Action>) {
    Doable(s, run) && Orderly(s, run) && Thrifty(s, run) && Faithful(s, run)
  }

  ghost predicate ProperStep(s: Pair, a: Action) {
    Valid(s.gen) && Enabled(s, a) && !Misleads(s, a) && !Forgets(s, a) && FaithfulStep(s, a)
  }

  lemma {:induction false} ProperMore(s: Pair, run: seq<Action>, a: Action)
    requires Proper(s, run) && ProperStep(After(s, run), a)
    ensures Proper(s, run + [a]) && After(s, run + [a]) == Do(After(s, run), a)
    decreases |run|
  {
    hide Valid, Enabled, Misleads, Forgets, FaithfulStep, Do;
    var all := run + [a];
    if run == [] {
      assert all == [a] && all[1..] == [];
      var t := Do(s, a);
      assert Doable(t, []) && After(t, []) == t && Orderly(t, []) && Thrifty(t, []) && Faithful(t, []);
    } else {
      assert all[0] == run[0] && all[1..] == run[1..] + [a];
      ProperMore(Do(s, run[0]), run[1..], a);
    }
  }

  // ----- a Resource constructed, referenced and adopted

  function Held(n: nat): Client {
    Fresh().(states := [Incarnation(n, {0}, {1}, false)], resources := map[n := 0], refs := [0], waiters := {1},
    pending := {1}, controlId := 1)
  }

  lemma Constructs(s: Pair)
    requires Opening(s) && s.nextId + 1 <= MAX_ID
    ensures var t, n := Do(s, Construct(s.gen.root)), s.nextId + 1;
      && ProperStep(s, Construct(s.gen.root))
      && t == s.(gen := ConstructChild(s.gen, s.gen.root, n), nextId := n) && Base(t)
  {
    hide ClientInv, Ordered, NoticesAreDead, Known, Valid, ConstructChild, Misleads, Forgets, ServerSection;
    OpeningIsBase(s);
    BaseKept(s, Construct(s.gen.root));
    NoReferenceNoRelease(s, Construct(s.gen.root));
  }

  lemma NoReferenceNoRelease(s: Pair, a: Action)
    ensures !a.Reference? && !a.RunReleaseTask? && !a.ResumeReleaseTask? && !a.ReleaseAll? ==>
        !Misleads(s, a) && !Forgets(s, a)
  {
  }

  /** Short of exhaustion nothing is forgotten, and only what owes a Release can mislead. */
  lemma IdsLeft(s: Pair, a: Action)
    requires s.client.controlId < MAX_ID && !a.ReleaseAll?
    ensures a.Reference? && a.x != s.gen.root && !Owed(s.client, a.x) && s.client.terminal == Open ==> !Misleads(s, a)
    ensures a.Reference? && a.x == s.gen.root && s.client.terminal == Open ==> !Misleads(s, a)
    ensures !a.Reference? ==> !Misleads(s, a)
    ensures !Forgets(s, a)
  {
    hide Owed, Steer, Known;
  }

  lemma References(s: Pair, n: nat)
    requires Base(s) && s.client == Fresh() && n != 0 && n in Known(s.gen)
    ensures ProperStep(s, Reference(n)) && Base(Do(s, Reference(n)))
    ensures Do(s, Reference(n)) == s.(client := Held(n).(controls := [Send(Control(1, Adopt(n)))]))
  {
    BaseKept(s, Reference(n));
    assert Owing(s.client) == {};
    IdsLeft(s, Reference(n));
    hide Base, Valid, Misleads, Forgets, Known;
    HeldByReference(n);
  }

  lemma HeldByReference(n: nat)
    requires n != 0
    ensures CreateReference(Fresh(), n).0 == Held(n).(controls := [Send(Control(1, Adopt(n)))])
  {
    var none: set<nat> := {};
    assert none + {0} == {0} && none + {1} == {1};
    var c := CreateReference(Fresh(), n).0;
    assert c.states == [Incarnation(n, {0}, {1}, false)];
    assert c.refs == [0];
  }

  /** The generation with the new child adopted. */
  lemma AdoptsNew(s: Pair, n: nat)
    requires Base(s) && s.client == Held(n).(controls := [Send(Control(1, Adopt(n)))]) && s.consuming
    requires n in s.gen.resources && !s.gen.closing && s.gen.lastControlId == 0
    ensures var t := Do(s, Consume);
      && ProperStep(s, Consume) && Base(t) && Running(t) && t.client == Held(n) && Adopted(t.gen, n)
      && t.gen.root == s.gen.root && Known(t.gen) == Known(s.gen) && t.nextId == s.nextId
  {
    BaseKept(s, Consume);
    NoReferenceNoRelease(s, Consume);
    ConsumeIsSection(s);
    hide Base, Valid, Misleads, Forgets, Known;
  }

  /** What the start reaches: n is adopted and held by reference 0. */
  ghost predicate Started(s: Pair, n: nat) {
    Base(s) && Running(s) && s.client == Held(n) && Adopted(s.gen, n) && n != s.gen.root
  }

  lemma Start(s: Pair) returns (run: seq<Action>)
    requires Opening(s) && s.nextId + 1 <= MAX_ID
    ensures var n := s.nextId + 1;
      && run == [Construct(s.gen.root), Reference(n), Consume] && Proper(s, run)
      && Started(After(s, run), n) && After(s, run).gen.root == s.gen.root
  {
    hide Proper, ClientInv, Ordered, NoticesAreDead, Do, Doable, After, Orderly, Thrifty, Faithful, Valid, Known,
      Misleads, Forgets, ConstructChild;
    var n := s.nextId + 1;
    Constructs(s);
    var t1 := Do(s, Construct(s.gen.root));
    NewIsKnown(s.gen, s.gen.root, n);
    References(t1, n);
    var t2 := Do(t1, Reference(n));
    AdoptsNew(t2, n);
    ProperThree(s, Construct(s.gen.root), Reference(n), Consume);
    run := [Construct(s.gen.root), Reference(n), Consume];
  }

  lemma NewIsKnown(g: Gen, root: nat, n: nat)
    ensures var g' := ConstructChild(g, root, n);
      && n in Known(g') && n in g'.resources && g'.closing == g.closing && g'.root == g.root
      && g'.lastControlId == g.lastControlId
  {
  }

  lemma ProperThree(s: Pair, a: Action, b: Action, c: Action)
    requires ProperStep(s, a) && ProperStep(Do(s, a), b) && ProperStep(Do(Do(s, a), b), c)
    ensures Proper(s, [a, b, c]) && After(s, [a, b, c]) == Do(Do(Do(s, a), b), c)
  {
    hide ProperStep, Do;
    assert Proper(s, []) && After(s, []) == s;
    ProperMore(s, [], a);
    ProperMore(s, [] + [a], b);
    ProperMore(s, [] + [a] + [b], c);
    assert [] + [a] + [b] + [c] == [a, b, c];
  }

  // ----- a reference made over a Release still owed

  lemma StartsRelease(s: Pair, r: nat)
    requires Base(s) && r < |s.client.refs| && r !in s.client.tasked
    ensures ProperStep(s, StartRelease(r)) && Base(Do(s, StartRelease(r)))
    ensures var c := s.client;
      Do(s, StartRelease(r))
      == s.(client := c.(released := c.released + {r}, tasked := c.tasked + {r}, begun := c.begun + {r}))
  {
    hide ClientInv, Ordered, NoticesAreDead, Valid, Known;
    BaseKept(s, StartRelease(r));
    NoReferenceNoRelease(s, StartRelease(r));
  }

  /** n's only reference is released, its routes still open. */
  lemma Waits(s: Pair, n: nat)
    requires Base(s) && Running(s) && Adopted(s.gen, n) && n != s.gen.root
    requires s.client == Held(n).(released := {0}, tasked := {0}, begun := {0})
    ensures var a := RunReleaseTask(0, true);
      && ProperStep(s, a) && Base(Do(s, a)) && Running(Do(s, a)) && Do(s, a).client.controls == []
      && n in Known(Do(s, a).gen) && Misleads(Do(s, a), Reference(n))
  {
    var a, c' := RunReleaseTask(0, true), RunRelease(s.client, 0, true);
    hide Misleads, Forgets, Base, Valid, Known;
    BaseKept(s, a);
    IdsLeft(s, a);
    LiveIsKnown(s.gen, n);
    assert c'.resources == map[] && 0 in Owing(c') && c'.states[0].id == n && n != 0;
    MisleadsMeans(Do(s, a), n);
  }

  /** Every generation that can construct one Resource reaches a state in which
      referencing it again misleads: here with no control left in the queue. */
  lemma OvertakingIsReached(s: Pair) returns (run: seq<Action>)
    requires Opening(s) && s.nextId + 1 <= MAX_ID
    ensures var n := s.nextId + 1;
      run == [Construct(s.gen.root), Reference(n), Consume, StartRelease(0), RunReleaseTask(0, true)]
    ensures Proper(s, run) && Fit(After(s, run)) && Told(After(s, run)) && Kept(After(s, run))
    ensures After(s, run).client.controls == [] && Misleads(After(s, run), Reference(s.nextId + 1))
    ensures !AlwaysAgreed(Do(After(s, run), Reference(s.nextId + 1)))
  {
    hide ClientInv, Ordered, NoticesAreDead, Do, Doable, After, Orderly, Thrifty, Faithful, Valid, Misleads, Forgets,
      Known, AlwaysAgreed, Told, Kept, Names;
    var n := s.nextId + 1;
    run := Start(s);
    var t := After(s, run);
    StartsRelease(t, 0);
    Waits(Do(t, StartRelease(0)), n);
    ProperMore(s, run, StartRelease(0));
    ProperMore(s, run + [StartRelease(0)], RunReleaseTask(0, true));
    run := run + [StartRelease(0)] + [RunReleaseTask(0, true)];
    MisledFrom(s, run, n);
  }

  lemma MisledFrom(s: Pair, run: seq<Action>, n: nat)
    requires Opening(s) && Proper(s, run) && Running(After(s, run)) && Misleads(After(s, run), Reference(n))
    requires n in Known(After(s, run).gen)
    ensures var t := After(s, run); Fit(t) && Told(t) && Kept(t) && !AlwaysAgreed(Do(t, Reference(n)))
  {
    hide Misleads, AlwaysAgreed, Told, Kept, Names, Do, Known, ClientInv, Ordered, NoticesAreDead, Valid, Doable, After,
      Orderly, Thrifty, Faithful;
    RunStaysFit(s, run);
    ReferenceSafeIff(After(s, run), Reference(n));
  }

  // ----- running out of control IDs

  /** The client referenced and released its root, over and over: nothing else changed. */
  ghost predicate Spun(c: Client, c': Client, root: nat) {
    && c.terminal == Open == c'.terminal && c'.closing == c.closing && c'.resources == c.resources
    && c'.waiting == c.waiting && c'.closeList == c.closeList && c'.begun == c.begun
    && |c.states| <= |c'.states| && c'.states[..|c.states|] == c.states
    && |c.refs| <= |c'.refs| && c'.refs[..|c.refs|] == c.refs
    && (forall r | 0 <= r < |c.refs| :: r in c'.tasked <==> r in c.tasked)
    && (forall x | x != root :: AdoptQueued(c'.controls, x) <==> AdoptQueued(c.controls, x))
    && (forall x | x != root :: ReleaseQueued(c'.controls, x) <==> ReleaseQueued(c.controls, x))
  }

  /** x referenced for the first time. */
  function Entered(c: Client, x: nat): Client {
    var id := c.controlId + 1;
    c.(states := c.states + [Incarnation(x, {|c.refs|}, {id}, false)], resources := c.resources[x := |c.states|],
    refs := c.refs + [|c.states|], controlId := id, waiters := c.waiters + {id}, pending := c.pending + {id},
    controls := c.controls + [Send(Control(id, Adopt(x)))])
  }

  lemma EntersReference(c: Client, x: nat)
    requires Live(c) && CanEnqueue(c) && x != 0 && x !in c.resources
    ensures CreateReference(c, x).0 == Entered(c, x)
  {
    var none: set<nat>, r := {}, |c.refs|;
    assert none + {r} == {r};
    assert CreateReference(c, x).0.states == c.states + [Incarnation(x, {r}, {c.controlId + 1}, false)];
  }

  /** That reference released, and its task run to the end. */
  lemma EnteredAndReleased(c: Client, x: nat)
    requires Live(c) && x !in c.resources && c.controlId + 2 <= MAX_ID && |c.refs| !in c.tasked && |c.refs| !in c.begun
    ensures var r := |c.refs|;
      var c' := RunRelease(BeginRelease(Entered(c, x), r), r, false);
      && c'.controlId == c.controlId + 2 && Spun(c, c', x)
  {
    var r, k, id := |c.refs|, |c.states|, c.controlId + 1;
    var c2 := BeginRelease(Entered(c, x), r);
    var c3 := DropRef(c2, r);
    assert c3.states[k].refs == {} && c3.begun == c.begun;
    assert c.resources[x := k] - {x} == c.resources;
    var c' := RunRelease(c2, r, false);
    assert c'.states[..k] == c.states;
    var i, j := Send(Control(id, Adopt(x))), Send(Control(id + 1, Release(x)));
    assert c'.controls == c.controls + [i] + [j];
    QueuedMore(c.controls, i, j, x);
  }

  lemma QueuedMore(q: seq<Item>, i: Item, j: Item, x: nat)
    requires Adopts(i, x) && Releases(j, x)
    ensures forall y | y != x :: AdoptQueued(q + [i] + [j], y) <==> AdoptQueued(q, y)
    ensures forall y | y != x :: ReleaseQueued(q + [i] + [j], y) <==> ReleaseQueued(q, y)
  {
    hide AdoptQueued, ReleaseQueued;
    forall y | y != x
      ensures AdoptQueued(q + [i] + [j], y) <==> AdoptQueued(q, y)
      ensures ReleaseQueued(q + [i] + [j], y) <==> ReleaseQueued(q, y)
    {
      AdoptQueuedSnoc(q, i, y);
      AdoptQueuedSnoc(q + [i], j, y);
      ReleaseQueuedSnoc(q, i, y);
      ReleaseQueuedSnoc(q + [i], j, y);
    }
  }

  /** A client that can go on like that. */
  ghost predicate Spinning(s: Pair) {
    Base(s) && Running(s) && Live(s.client) && s.gen.root !in s.client.resources
  }

  ghost predicate SpunPair(s: Pair, s': Pair) {
    s' == s.(client := s'.client) && Spun(s.client, s'.client, s.gen.root)
  }

  lemma RootKnown(g: Gen)
    ensures Valid(g) && !g.closing ==> g.root in Known(g) && g.root != 0
  {
  }

  lemma NewRefIsUntasked(c: Client)
    ensures ClientInv(c) ==> |c.refs| !in c.tasked && |c.refs| !in c.begun
  {
    hide Tabled, Counted, Sends;
  }

  lemma SpinOnce(s: Pair) returns (run: seq<Action>)
    requires Spinning(s) && s.client.controlId + 2 <= MAX_ID
    ensures Proper(s, run) && Spinning(After(s, run)) && SpunPair(s, After(s, run))
    ensures After(s, run).client.controlId == s.client.controlId + 2
  {
    hide ClientInv, Ordered, NoticesAreDead, Valid, Known, Misleads, Forgets, CreateReference, RunRelease, Proper, Spun,
      BeginRelease, After, Entered;
    var root, r := s.gen.root, |s.client.refs|;
    var a, b, c := Reference(root), StartRelease(r), RunReleaseTask(r, false);
    RootKnown(s.gen);
    NewRefIsUntasked(s.client);
    EntersReference(s.client, root);
    IdsLeft(s, a);
    BaseKept(s, a);
    var s1 := Do(s, a);
    EnteredShape(s.client, root);
    IdsLeft(s1, b);
    BaseKept(s1, b);
    var s2 := Do(s1, b);
    BegunShape(s1.client, r);
    IdsLeft(s2, c);
    BaseKept(s2, c);
    EnteredAndReleased(s.client, root);
    run := [a, b, c];
    ProperThree(s, a, b, c);
  }

  lemma EnteredShape(c: Client, x: nat)
    ensures var c' := Entered(c, x);
      |c'.refs| == |c.refs| + 1 && c'.controlId == c.controlId + 1 && c'.tasked == c.tasked && c'.terminal == c.terminal
  {
  }

  lemma BegunShape(c: Client, r: nat)
    ensures r !in c.tasked ==>
        && r in BeginRelease(c, r).begun && BeginRelease(c, r).controlId == c.controlId
        && BeginRelease(c, r).terminal == c.terminal
  {
  }

  lemma SpunOn(c: Client, c': Client, d: Client, root: nat)
    requires Spun(c, c', root) && Spun(c', d, root)
    ensures Spun(c, d, root)
  {
    hide AdoptQueued, ReleaseQueued;
    assert d.states[..|c.states|] == d.states[..|c'.states|][..|c.states|];
    assert d.refs[..|c.refs|] == d.refs[..|c'.refs|][..|c.refs|];
  }

  lemma SpunNone(c: Client, root: nat)
    ensures c.terminal == Open ==> Spun(c, c, root)
  {
  }

  lemma {:induction false} ProperConcat(s: Pair, run: seq<Action>, more: seq<Action>)
    requires Proper(s, run) && Proper(After(s, run), more)
    ensures Proper(s, run + more) && After(s, run + more) == After(After(s, run), more)
    decreases |run|
  {
    hide Valid, Enabled, Misleads, Forgets, FaithfulStep, Do;
    if run == [] {
      assert run + more == more;
    } else {
      assert (run + more)[0] == run[0] && (run + more)[1..] == run[1..] + more;
      ProperConcat(Do(s, run[0]), run[1..], more);
    }
  }

  /** Any even number of control IDs can be used up like that. */
  lemma {:induction false} Spin(s: Pair, times: nat) returns (run: seq<Action>)
    requires Spinning(s) && s.client.controlId + 2 * times <= MAX_ID
    ensures Proper(s, run) && Spinning(After(s, run)) && SpunPair(s, After(s, run))
    ensures After(s, run).client.controlId == s.client.controlId + 2 * times
    decreases times
  {
    hide Spinning, Spun, After, Doable, Orderly, Thrifty, Faithful;
    if times == 0 {
      run := [];
      NothingRun(s);
      SpinningIsOpen(s);
      SpunNone(s.client, s.gen.root);
    } else {
      var first := SpinOnce(s);
      var rest := Spin(After(s, first), times - 1);
      run := first + rest;
      ProperConcat(s, first, rest);
      SpunOn(s.client, After(s, first).client, After(s, run).client, s.gen.root);
    }
  }

  lemma SpinningIsOpen(s: Pair)
    ensures Spinning(s) ==> s.client.terminal == Open
  {
  }

  lemma NothingRun(s: Pair)
    ensures Proper(s, []) && After(s, []) == s
  {
  }

  // ----- the states in which none is left

  /** n still held by reference 0, and nothing queued for it. */
  lemma StillHeld(c: Client, n: nat, root: nat)
    requires Spun(Held(n), c, root) && n != root
    ensures c.refs != [] && c.refs[0] == 0 && c.states != [] && c.states[0] == Incarnation(n, {0}, {1}, false)
    ensures 0 !in c.tasked && Owing(c) == {} && !ReleaseQueued(c.controls, n)
  {
    assert c.states[..1][0] == Held(n).states[0] && c.refs[..1][0] == Held(n).refs[0];
  }

  lemma ReleasingForgets(s: Pair, n: nat)
    requires Base(s) && Running(s) && Adopted(s.gen, n) && n != s.gen.root && s.client.controlId == MAX_ID
    requires var c := s.client;
      && c.refs != [] && c.refs[0] == 0 && c.states != [] && c.states[0] == Incarnation(n, {0}, {1}, false)
      && 0 in c.begun && Owing(c) == {} && !ReleaseQueued(c.controls, n)
    ensures Forgets(s, RunReleaseTask(0, false))
  {
    hide Base, Valid, Forgets, Owing, ReleaseQueued;
    assert !OwedBesides(s.client, n, 0);
    ForgetsMeans(s, 0);
  }

  /** Every generation that can construct one Resource reaches a state in which releasing
      its last reference forgets it: every control ID is used up. */
  lemma ForgettingIsReached(s: Pair) returns (run: seq<Action>)
    requires Opening(s) && s.nextId + 1 <= MAX_ID
    ensures Proper(s, run) && Fit(After(s, run)) && Told(After(s, run)) && Kept(After(s, run))
    ensures Enabled(After(s, run), RunReleaseTask(0, false)) && Forgets(After(s, run), RunReleaseTask(0, false))
    ensures !NeverLeaks(Do(After(s, run), RunReleaseTask(0, false)))
  {
    hide ClientInv, Ordered, NoticesAreDead, Do, Doable, After, Orderly, Thrifty, Faithful, Valid, Misleads, Forgets,
      Known, NeverLeaks, Told, Kept, Names, Spun, ReleaseQueued;
    var n := s.nextId + 1;
    var first := Start(s);
    var t := After(s, first);
    var rest := Spin(t, (MAX_ID - 1) / 2);
    var u := After(t, rest);
    StillHeld(u.client, n, t.gen.root);
    StartsRelease(u, 0);
    ProperConcat(s, first, rest);
    ProperMore(s, first + rest, StartRelease(0));
    run := first + rest + [StartRelease(0)];
    var v := After(s, run);
    assert Owing(v.client) == Owing(u.client);
    ReleasingForgets(v, n);
    RunStaysFit(s, run);
    ReleaseSafeIff(v, RunReleaseTask(0, false));
  }

  /** n's only reference is released and its Release queued. */
  lemma LetsGo(s: Pair, n: nat)
    requires Base(s) && Running(s) && s.client == Held(n).(released := {0}, tasked := {0}, begun := {0})
    ensures var a := RunReleaseTask(0, false);
      && ProperStep(s, a) && Base(Do(s, a)) && Do(s, a) == s.(client := Do(s, a).client)
      && var c := Do(s, a).client;
         && Live(c) && c.resources == map[] && c.controlId == 2 && c.controls == [Send(Control(2, Release(n)))]
  {
    hide ClientInv, Ordered, NoticesAreDead, Valid, Known, Misleads, Forgets;
    var a := RunReleaseTask(0, false);
    IdsLeft(s, a);
    BaseKept(s, a);
    var c1 := DropRef(s.client, 0);
    assert c1.states == [Incarnation(n, {}, {1}, false)];
  }

  /** Its Release is consumed: it is dead, and the client is not told. */
  lemma DiesUnheard(s: Pair, n: nat)
    requires Base(s) && Running(s) && s.client.controls == [Send(Control(2, Release(n)))]
    requires Adopted(s.gen, n) && n != s.gen.root
    ensures var t := Do(s, Consume);
      && ProperStep(s, Consume) && Base(t) && Running(t) && t.client == s.client.(controls := [])
      && t.gen.root == s.gen.root && n in t.gen.tombstones && Released(n) !in t.gen.responses
  {
    hide ClientInv, Ordered, Misleads, Forgets, ApplyControl, PendingAttached, SettledIds, Index, Distinct;
    var control := Control(2, Release(n));
    ConsumeKeepsOrder(s);
    KnownControlIsAccepted(s.gen, control);
    NoReferenceNoRelease(s, Consume);
    BaseKept(s, Consume);
    ApplyTells(s.gen, control, n);
    SteeredIsApplied(s.gen, control);
    hide Steered;
    assert s.client.controls[1..] == [];
  }

  lemma MisleadsAtTheEnd(s: Pair, n: nat)
    requires Base(s) && Running(s) && Live(s.client) && s.client.controlId == MAX_ID && n !in s.client.resources
    requires n in s.gen.tombstones && Released(n) !in s.gen.responses && !AdoptQueued(s.client.controls, n)
    ensures Misleads(s, Reference(n)) && n in Known(s.gen)
  {
    hide ClientInv, Ordered, NoticesAreDead, Misleads, AdoptQueued, PendingAttached, SettledIds, Index, Distinct;
    MisleadsMeans(s, n);
  }

  /** The last control ID goes to a reference to the root. */
  lemma UsesTheLast(s: Pair, n: nat)
    requires Spinning(s) && s.client.controlId == MAX_ID - 1 && n !in s.client.resources
    requires n in s.gen.tombstones && Released(n) !in s.gen.responses && !AdoptQueued(s.client.controls, n)
    ensures var a, t := Reference(s.gen.root), Do(s, Reference(s.gen.root));
      && ProperStep(s, a) && Running(t) && Misleads(t, Reference(n)) && n in Known(t.gen)
      && t.client.controlId == MAX_ID && t.gen == s.gen
  {
    hide ClientInv, Ordered, NoticesAreDead, Valid, Known, Misleads, Forgets, AdoptQueued, CreateReference;
    var root := s.gen.root;
    RootKnown(s.gen);
    IdsLeft(s, Reference(root));
    BaseKept(s, Reference(root));
    EntersReference(s.client, root);
    AdoptQueuedSnoc(s.client.controls, Send(Control(MAX_ID, Adopt(root))), n);
    RootIsNotDead(s.gen);
    MisleadsAtTheEnd(Do(s, Reference(root)), n);
  }

  lemma RootIsNotDead(g: Gen)
    ensures Valid(g) && !g.closing ==> g.root !in g.tombstones
  {
  }

  /** A run that releases n, and then uses up all control IDs but the last. */
  lemma NearTheEnd(s: Pair) returns (run: seq<Action>)
    requires Opening(s) && s.nextId + 1 <= MAX_ID
    ensures Proper(s, run) && Spinning(After(s, run)) && After(s, run).client.controlId == MAX_ID - 1
    ensures var t, n := After(s, run), s.nextId + 1;
      && n in t.gen.tombstones && Released(n) !in t.gen.responses
      && !AdoptQueued(t.client.controls, n) && n !in t.client.resources
  {
    hide ClientInv, Ordered, NoticesAreDead, Do, Doable, After, Orderly, Thrifty, Faithful, Valid, Misleads, Forgets,
      Known, Spun;
    var n := s.nextId + 1;
    var first := Start(s);
    var t := After(s, first);
    StartsRelease(t, 0);
    var t1 := Do(t, StartRelease(0));
    LetsGo(t1, n);
    var t2 := Do(t1, RunReleaseTask(0, false));
    DiesUnheard(t2, n);
    var t3 := Do(t2, Consume);
    ProperThree(t, StartRelease(0), RunReleaseTask(0, false), Consume);
    ProperConcat(s, first, [StartRelease(0), RunReleaseTask(0, false), Consume]);
    run := first + [StartRelease(0), RunReleaseTask(0, false), Consume];
    assert !AdoptQueued(t3.client.controls, n);
    var rest := Spin(t3, (MAX_ID - 3) / 2);
    ProperConcat(s, run, rest);
    run := run + rest;
    SpunQueue(t3.client, After(s, run).client, s.gen.root, n);
  }

  lemma SpunQueue(c: Client, c': Client, root: nat, x: nat)
    ensures Spun(c, c', root) && x != root ==>
        && (AdoptQueued(c'.controls, x) <==> AdoptQueued(c.controls, x))
        && c'.resources == c.resources
  {
  }

  /** And one reaches a state in which no control ID is left, and referencing a Resource
      that died of its own Release misleads. */
  lemma ExhaustionIsReached(s: Pair) returns (run: seq<Action>)
    requires Opening(s) && s.nextId + 1 <= MAX_ID
    ensures Proper(s, run) && Fit(After(s, run)) && Told(After(s, run)) && Kept(After(s, run))
    ensures After(s, run).client.controlId == MAX_ID && s.nextId + 1 in After(s, run).gen.tombstones
    ensures Misleads(After(s, run), Reference(s.nextId + 1))
    ensures !AlwaysAgreed(Do(After(s, run), Reference(s.nextId + 1)))
  {
    hide ClientInv, Ordered, NoticesAreDead, Do, Doable, After, Orderly, Thrifty, Faithful, Valid, Misleads, Forgets,
      Known, AlwaysAgreed, Told, Kept, Names, AdoptQueued;
    var n := s.nextId + 1;
    run := NearTheEnd(s);
    var t := After(s, run);
    UsesTheLast(t, n);
    ProperMore(s, run, Reference(t.gen.root));
    run := run + [Reference(t.gen.root)];
    MisledFrom(s, run, n);
  }
}
