/** Agreement of the two ends of a generation over every run: what the client holds is
    live, or about to be adopted, or about to be revoked; and what the server keeps
    adopted is held, or about to be released. The first is broken only by a reference
    made over a Release still owed, or made of a dying ID with no control ID left; the
    second only by a Release that no control ID is left for. */
module ResourceAgreement {
  import opened Options
  import opened SortedSets
  import opened ResourceForest
  import opened ResourceGeneration
  import opened ResourceClientSpec
  import opened ResourceProtocol
  import opened ResourceFate

  predicate Adopted(g: Gen, x: nat) {
    x in g.resources && !g.resources[x].pending
  }

  /** x's Release is still owed: its task awaits routes, or `_close` holds it. */
  predicate Owed(c: Client, x: nat) {
    exists k :: k in Owing(c) && k < |c.states| && c.states[k].id == x
  }

  predicate Running(s: Pair) {
    s.client.terminal == Open && !s.gen.closing && s.consuming
  }

  // ----- the two statements

  /** What an open client holds is live, will be adopted, or will be revoked, unless the
      end of all of it is on its way; notices are final. */
  ghost predicate Agreement(s: Pair) {
    && (s.client.terminal == Open ==> forall x | x in s.client.resources && x in Known(s.gen) ::
          || x in s.gen.resources || AdoptQueued(s.client.controls, x) || Released(x) in s.gen.responses
          || Ends(s.gen.responses))
    && NoticesAreDead(s.gen)
  }

  /** Nothing adopted is forgotten, unless the client failed: it is held, or its Release
      is queued or owed. */
  ghost predicate NoLeak(s: Pair) {
    s.client.terminal != Failed ==> forall x | Adopted(s.gen, x) && x != s.gen.root ::
        x in s.client.resources || ReleaseQueued(s.client.controls, x) || Owed(s.client, x)
  }

  // ----- what the queue will do to an ID

  /** An ID that this generation may still construct. */
  ghost predicate Coming(g: Gen, nextId: nat, x: nat) {
    x !in Known(g) && x > nextId
  }

  /** x still stands, or may, once the queue is consumed. */
  ghost predicate Stands(g: Gen, nextId: nat, q: seq<Item>, x: nat) {
    x != g.root
    && if x in g.resources then Planted(g.resources) && x in Steer(g.resources, g.root, q) else Coming(g, nextId, x)
  }

  /** x stands adopted once the queue is consumed. */
  ghost predicate Wanted(g: Gen, nextId: nat, q: seq<Item>, x: nat) {
    Stands(g, nextId, q, x)
    && if x in g.resources then !Steer(g.resources, g.root, q)[x].pending else Latest(q, x, false)
  }

  /** The queue kills x and the client is not told. */
  ghost predicate Dying(g: Gen, nextId: nat, q: seq<Item>, x: nat) {
    x != g.root
    && if x in g.resources then Planted(g.resources) && Silent(g.resources, g.root, q, x)
       else Coming(g, nextId, x) && !Latest(q, x, true)
  }

  /** x is dead and nothing on its way says so. */
  ghost predicate Untold(g: Gen, q: seq<Item>, x: nat) {
    x in g.tombstones && !AdoptQueued(q, x) && Released(x) !in g.responses
  }

  // ----- the invariants behind the two statements

  ghost predicate ToldAt(s: Pair, x: nat) {
    && !Dying(s.gen, s.nextId, s.client.controls, x)
    && !Untold(s.gen, s.client.controls, x)
    && (Owed(s.client, x) && s.client.controlId < MAX_ID ==> !Stands(s.gen, s.nextId, s.client.controls, x))
  }

  /** What the client holds will not die unheard, not even of a Release still owed. */
  ghost predicate Told(s: Pair) {
    Running(s) ==> forall x | x in s.client.resources :: ToldAt(s, x)
  }

  ghost predicate KeptAt(s: Pair, x: nat) {
    Wanted(s.gen, s.nextId, s.client.controls, x) ==> x in s.client.resources || Owed(s.client, x)
  }

  /** What will stand adopted is held, or its Release is owed. */
  ghost predicate Kept(s: Pair) {
    s.client.terminal != Failed ==> forall x: nat :: KeptAt(s, x)
  }

  // ----- the steps that break them

  /** A reference that enters a table entry for an ID which will die unheard: the Adopt
      goes ahead of a Release still owed, or there is no control ID for an Adopt. */
  ghost predicate Misleads(s: Pair, a: Action) {
    a.Reference? && Live(s.client) && a.x != 0 && a.x !in s.client.resources
    && if CanEnqueue(s.client) then
         Owed(s.client, a.x) && s.client.controlId + 2 <= MAX_ID
         && Stands(s.gen, s.nextId, s.client.controls, a.x)
       else
         Dying(s.gen, s.nextId, s.client.controls, a.x) || Untold(s.gen, s.client.controls, a.x)
  }

  /** Another incarnation than k owes a Release of x. */
  predicate OwedBesides(c: Client, x: nat, k: nat) {
    exists j :: j in Owing(c) && j != k && j < |c.states| && c.states[j].id == x
  }

  /** Incarnation k is the last to answer for an ID that will stand adopted. */
  ghost predicate LastToAnswer(s: Pair, k: nat) {
    && k < |s.client.states|
    && Wanted(s.gen, s.nextId, s.client.controls, s.client.states[k].id)
    && !OwedBesides(s.client, s.client.states[k].id, k)
  }

  /** Running r's release task retires its incarnation: r is the last reference. */
  predicate LastReference(c: Client, r: nat) {
    r < |c.refs| && c.refs[r] < |c.states| && !c.states[c.refs[r]].terminal && c.states[c.refs[r]].refs <= {r}
  }

  /** One of `_close`'s Releases is due beyond the last control ID, for an ID that will
      stand adopted and that none of those sent releases. */
  ghost predicate LeftOut(s: Pair, i: nat) {
    var c := s.client;
    && i < |c.closeList| && c.controlId + i >= MAX_ID && c.closeList[i] < |c.states|
    && Wanted(s.gen, s.nextId, c.controls, c.states[c.closeList[i]].id)
    && forall j | 0 <= j < i && c.controlId + j < MAX_ID && c.closeList[j] < |c.states| ::
         c.states[c.closeList[j]].id != c.states[c.closeList[i]].id
  }

  /** A Release is due for an ID that will stand adopted, nothing else will release it,
      and no control ID is left. */
  ghost predicate Forgets(s: Pair, a: Action) {
    s.client.terminal == Open
    && match a
       case RunReleaseTask(r, routesOpen) =>
         !routesOpen && s.client.controlId == MAX_ID && LastReference(s.client, r) && LastToAnswer(s, s.client.refs[r])
       case ResumeReleaseTask(k) =>
         s.client.controlId == MAX_ID && LastToAnswer(s, k) && s.client.states[k].id !in s.client.resources
       case ReleaseAll => exists i: nat :: LeftOut(s, i)
       case _ => false
  }

  /** The statements follow from the invariants. */
  lemma ToldMeans(s: Pair)
    requires Base(s) && Ending(s) && Told(s)
    ensures Agreement(s)
  {
    hide ClientInv, Ordered, Ends;
    if s.client.terminal == Open && !Ends(s.gen.responses) {
      forall x | x in s.client.resources && x in Known(s.gen)
        ensures x in s.gen.resources || AdoptQueued(s.client.controls, x) || Released(x) in s.gen.responses
      {
        TableEntry(s.client, x);
        assert ToldAt(s, x);
      }
    }
  }

  lemma KeptMeans(s: Pair)
    requires Base(s) && Kept(s)
    ensures NoLeak(s)
  {
    hide ClientInv, Ordered, NoticesAreDead, Steer;
    ValidIsPlanted(s.gen);
    if s.client.terminal != Failed {
      var res, root, q := s.gen.resources, s.gen.root, s.client.controls;
      forall x | Adopted(s.gen, x) && x != root && !ReleaseQueued(q, x)
        ensures x in s.client.resources || Owed(s.client, x)
      {
        AdoptedFate(res, root, q, x);
        FateByQueue(res, root, q, x);
        StaysLatest(q, x);
        assert KeptAt(s, x);
      }
    }
  }

  lemma {:induction false} StaysLatest(q: seq<Item>, x: nat)
    requires !ReleaseQueued(q, x)
    ensures Latest(q, x, true)
  {
    if q != [] {
      QueuedHead(q, x);
      StaysLatest(q[1..], x);
    }
  }

  /** The first invariant survives every step but a misleading one. */
  lemma ToldKept(s: Pair, a: Action)
    requires Base(s) && Told(s) && Enabled(s, a) && !Misleads(s, a)
    ensures Told(Do(s, a))
  {
    hide ClientInv, Ordered, Valid, NoticesAreDead, Known, Do, Enabled, Misleads, Forgets, ToldAt, KeptAll;
    if Running(Do(s, a)) {
      StillRunning(s, a);
      if AtClient(a) {
        ClientStepHolds(s, a);
      } else {
        ServerStepHolds(s, a);
      }
    }
  }

  /** The second survives every step but a forgetful one. */
  lemma KeptKept(s: Pair, a: Action)
    requires Base(s) && Ending(s) && Kept(s) && Enabled(s, a) && !Forgets(s, a)
    ensures Kept(Do(s, a))
  {
    hide ClientInv, Ordered, Valid, NoticesAreDead, Known, Do, Enabled, Misleads, Forgets, KeptAt, ToldAll, Ends;
    var s' := Do(s, a);
    if s'.client.terminal != Failed {
      NotYetFailed(s, a);
      if !AtClient(a) {
        ServerStepHolds(s, a);
      } else if s'.client.terminal == Open {
        ClientStepHolds(s, a);
      } else {
        ClosedHolds(s, a);
      }
    }
  }

  lemma NotYetFailed(s: Pair, a: Action)
    requires Base(s) && Enabled(s, a) && Do(s, a).client.terminal != Failed
    ensures s.client.terminal != Failed && (Do(s, a).client.terminal == Open ==> s.client.terminal == Open)
    ensures !AtClient(a) ==> Do(s, a).client.terminal == s.client.terminal
  {
    hide ClientInv, Ordered, Valid, NoticesAreDead, Known, ReleaseResource, ConstructChild, Teardown, ApplyControl;
    if AtClient(a) {
      ClientOnward(s, a);
    }
  }

  // ----- what the server's next control does

  /** An accepted control names a known ID, and answers for what it finds or makes dead,
      its own target excepted. */
  lemma ApplyTells(g: Gen, c: Control, y: nat)
    requires Valid(g) && !g.closing && ApplyControl(g, c).Some?
    ensures var g', i := ApplyControl(g, c).value, Send(c);
      && g'.root == g.root && Known(g') == Known(g) && !g'.closing
      && (Adopts(i, y) || Releases(i, y) ==> y in Known(g))
      && (y in g.tombstones ==> y in g'.tombstones)
      && (Released(y) in g'.responses
          <==> || Released(y) in g.responses
               || (y in g.tombstones && Adopts(i, y))
               || (y in g'.tombstones && y !in g.tombstones && !Releases(i, y)))
  {
    ApplyControlValid(g, c);
    if c.body.Release? && c.body.id in g.resources {
      var x := c.body.id;
      var ids := Batch(g.resources, x, x == g.root);
      BatchIsClosed(g, x);
      BatchNoticesDead(g, ids, x, false);
      NoticesExact(Picked(g.resources, ids), x, false, Released(y));
      hide Batch, Picked, SettleAll, Index, Notices, SettledIds, Distinct, Under;
      assert ApplyControl(g, c).value.tombstones == g.tombstones + Elems(ids);
    }
  }

  /** The fate of an ID is what it was, with one control fewer to come. */
  lemma FateAfterControl(s: Pair, s': Pair, c: Control, y: nat)
    requires Valid(s.gen) && NoticesAreDead(s.gen) && !s.gen.closing
    requires s.client.controls != [] && s.client.controls[0] == Send(c)
    requires ApplyControl(s.gen, c).Some? && s'.gen == ApplyControl(s.gen, c).value && s'.nextId == s.nextId
    ensures var q, q' := s.client.controls, s.client.controls[1..];
      && (Stands(s'.gen, s'.nextId, q', y) <==> Stands(s.gen, s.nextId, q, y))
      && (Wanted(s'.gen, s'.nextId, q', y) <==> Wanted(s.gen, s.nextId, q, y))
      && (Dying(s'.gen, s'.nextId, q', y) || Untold(s'.gen, q', y)
          <==> Dying(s.gen, s.nextId, q, y) || Untold(s.gen, q, y))
  {
    ApplyControlValid(s.gen, c);
    SteeredIsApplied(s.gen, c);
    ApplyTells(s.gen, c, y);
    QueuedHead(s.client.controls, y);
    hide ApplyControl, KilledBy, PendingAttached, SettledIds, Index, Distinct, AdoptQueued;
  }

  // ----- what a longer queue does

  lemma AdoptMore(g: Gen, n: nat, q: seq<Item>, i: Item, x: nat, y: nat)
    requires Valid(g) && Adopts(i, x)
    ensures Dying(g, n, q + [i], y) <==> y != x && Dying(g, n, q, y)
    ensures Stands(g, n, q + [i], y) <==> Stands(g, n, q, y)
    ensures Wanted(g, n, q + [i], y) <==> if y == x then Stands(g, n, q, y) else Wanted(g, n, q, y)
  {
    hide Known, Steer, Silent;
    LatestSnoc(q, i, y, true);
    LatestSnoc(q, i, y, false);
    if y in g.resources && y != g.root {
      SteerSnoc(g.resources, g.root, q, i);
      SilentSnoc(g.resources, g.root, q, i, y);
    }
  }

  lemma ReleaseMore(g: Gen, n: nat, q: seq<Item>, i: Item, x: nat, y: nat)
    requires Valid(g) && Releases(i, x)
    ensures Dying(g, n, q + [i], y) <==> Dying(g, n, q, y) || (y == x && Stands(g, n, q, y))
    ensures Stands(g, n, q + [i], y) ==> Stands(g, n, q, y)
    ensures Wanted(g, n, q + [i], y) <==> y != x && Wanted(g, n, q, y)
  {
    hide Known, Steer, Silent;
    LatestSnoc(q, i, y, true);
    LatestSnoc(q, i, y, false);
    if y in g.resources && y != g.root {
      SteerSnoc(g.resources, g.root, q, i);
      SilentSnoc(g.resources, g.root, q, i, y);
    }
    if y == x && y !in g.resources {
      LatestAnyway(q, y);
    }
  }

  lemma {:induction false} LatestAnyway(q: seq<Item>, x: nat)
    ensures Latest(q, x, false) ==> Latest(q, x, true)
  {
    if q != [] {
      LatestAnyway(q[1..], x);
    }
  }

  lemma EndMore(g: Gen, n: nat, q: seq<Item>, y: nat)
    requires Valid(g)
    ensures Dying(g, n, q + [QueueEnd], y) <==> Dying(g, n, q, y)
    ensures Stands(g, n, q + [QueueEnd], y) <==> Stands(g, n, q, y)
    ensures Wanted(g, n, q + [QueueEnd], y) <==> Wanted(g, n, q, y)
  {
    hide Known, Steer, Silent;
    LatestSnoc(q, QueueEnd, y, true);
    LatestSnoc(q, QueueEnd, y, false);
    if y in g.resources && y != g.root {
      SteerSnoc(g.resources, g.root, q, QueueEnd);
      SilentSnoc(g.resources, g.root, q, QueueEnd, y);
    }
  }

  // ----- client steps

  /** All that the two invariants look at, but for the guard. */
  ghost predicate ToldAll(s: Pair) {
    forall x | x in s.client.resources :: ToldAt(s, x)
  }

  ghost predicate KeptAll(s: Pair) {
    forall x: nat :: KeptAt(s, x)
  }

  ghost predicate SameIds(c: Client, c': Client) {
    |c.states| <= |c'.states| && forall k | 0 <= k < |c.states| :: c'.states[k].id == c.states[k].id
  }

  /** The client queued nothing: it may have let go of IDs, or of owed Releases. */
  lemma LessTold(s: Pair, s': Pair)
    requires ToldAll(s) && s'.gen == s.gen && s'.nextId == s.nextId
    requires s'.client.controls == s.client.controls && s'.client.resources.Keys <= s.client.resources.Keys
    requires forall x | x in s'.client.resources && Owed(s'.client, x) :: Owed(s.client, x)
    requires s'.client.controlId >= s.client.controlId
    ensures ToldAll(s')
  {
    hide Dying, Stands, Untold, Owed;
    forall x | x in s'.client.resources ensures ToldAt(s', x) {
      assert ToldAt(s, x);
    }
  }

  /** Whoever answered for a wanted ID still does, or the ID is excused. */
  lemma StillKept(s: Pair, s': Pair, excused: set<nat>)
    requires KeptAll(s) && s'.gen == s.gen && s'.nextId == s.nextId && s'.client.controls == s.client.controls
    requires forall x | (x in s.client.resources || Owed(s.client, x)) && x !in excused ::
      x in s'.client.resources || Owed(s'.client, x)
    requires forall x | x in excused :: !Wanted(s.gen, s.nextId, s.client.controls, x)
    ensures KeptAll(s')
  {
    hide Wanted, Owed;
    forall x: nat ensures KeptAt(s', x) {
      assert KeptAt(s, x);
    }
  }

  lemma OwedSame(c: Client, c': Client)
    requires Owing(c') == Owing(c) && |c'.states| == |c.states| && SameIds(c, c')
    ensures forall x :: Owed(c', x) <==> Owed(c, x)
  {
  }

  /** Nothing the invariants look at changed. */
  lemma Unchanged(s: Pair, s': Pair)
    requires s'.gen == s.gen && s'.nextId == s.nextId && s'.client.controls == s.client.controls
    requires s'.client.resources == s.client.resources && s'.client.controlId == s.client.controlId
    requires Owing(s'.client) == Owing(s.client) && |s'.client.states| == |s.client.states|
    requires SameIds(s.client, s'.client)
    ensures ToldAll(s) ==> ToldAll(s')
    ensures KeptAll(s) ==> KeptAll(s')
  {
    OwedSame(s.client, s'.client);
    hide Owed, Owing, SameIds;
    if ToldAll(s) {
      LessTold(s, s');
    }
    if KeptAll(s) {
      StillKept(s, s', {});
    }
  }

  lemma OwedAfter(c: Client, c': Client, k: nat)
    ensures k in Owing(c) && k < |c.states| && Owing(c') == Owing(c) - {k} && c'.states == c.states ==>
        && (forall y :: Owed(c', y) ==> Owed(c, y))
        && (forall y | y != c.states[k].id :: Owed(c, y) ==> Owed(c', y))
        && (Owed(c, c.states[k].id) && (Owed(c', c.states[k].id) <==> OwedBesides(c, c.states[k].id, k)))
  {
  }

  /** One owing incarnation sends its Release. */
  lemma SentHolds(s: Pair, s': Pair, k: nat)
    requires Valid(s.gen) && s'.gen == s.gen && s'.nextId == s.nextId
    requires k in Owing(s.client) && k < |s.client.states| && s.client.controlId < MAX_ID
    requires s'.client.states == s.client.states && s'.client.resources == s.client.resources
    requires Owing(s'.client) == Owing(s.client) - {k} && s'.client.controlId == s.client.controlId + 1
    requires s'.client.controls
          == s.client.controls + [Send(Control(s'.client.controlId, Release(s.client.states[k].id)))]
    ensures ToldAll(s) ==> ToldAll(s')
    ensures KeptAll(s) ==> KeptAll(s')
  {
    var c, q, g, n := s.client, s.client.controls, s.gen, s.nextId;
    var x := c.states[k].id;
    var i := Send(Control(s'.client.controlId, Release(x)));
    OwedAfter(c, s'.client, k);
    hide Dying, Stands, Wanted, Owed, Owing, Valid;
    forall y ensures (y in c.resources && ToldAt(s, y) ==> ToldAt(s', y)) && (KeptAt(s, y) ==> KeptAt(s', y)) {
      ReleaseMore(g, n, q, i, x, y);
      AdoptQueuedSnoc(q, i, y);
    }
  }

  /** One owing incarnation finds no control ID for its Release. */
  lemma UnsentHolds(s: Pair, s': Pair, k: nat)
    requires s'.gen == s.gen && s'.nextId == s.nextId && k in Owing(s.client) && k < |s.client.states|
    requires s'.client.states == s.client.states && s'.client.resources == s.client.resources
    requires Owing(s'.client) == Owing(s.client) - {k} && s'.client.controlId == s.client.controlId
    requires s'.client.controls == s.client.controls
    ensures ToldAll(s) ==> ToldAll(s')
    ensures KeptAll(s) && !(LastToAnswer(s, k) && s.client.states[k].id !in s.client.resources) ==> KeptAll(s')
  {
    OwedAfter(s.client, s'.client, k);
    hide Owed, Owing, Wanted, OwedBesides;
    if ToldAll(s) {
      LessTold(s, s');
    }
    var x := s.client.states[k].id;
    if KeptAll(s) && !(LastToAnswer(s, k) && x !in s.client.resources) {
      StillKept(s, s', if Wanted(s.gen, s.nextId, s.client.controls, x) then {} else {x});
    }
  }

  /** A held incarnation is retired and owes its Release. */
  lemma WaitingHolds(s: Pair, s': Pair, k: nat)
    requires s'.gen == s.gen && s'.nextId == s.nextId && k < |s.client.states|
    requires var x := s.client.states[k].id;
      x in s.client.resources && s'.client.resources == s.client.resources - {x}
    requires SameIds(s.client, s'.client) && |s'.client.states| == |s.client.states|
    requires Owing(s'.client) == Owing(s.client) + {k} && s'.client.controlId == s.client.controlId
    requires s'.client.controls == s.client.controls
    ensures ToldAll(s) ==> ToldAll(s')
    ensures KeptAll(s) ==> KeptAll(s')
  {
    forall y ensures Owed(s'.client, y) <==> Owed(s.client, y) || y == s.client.states[k].id {
    }
    hide Owed, Owing;
    if ToldAll(s) {
      LessTold(s, s');
    }
    if KeptAll(s) {
      StillKept(s, s', {});
    }
  }

  /** A new incarnation is entered; the queue may have got its Adopt. */
  lemma OwedWithEntry(c: Client, c': Client)
    ensures ClientInv(c) && SameIds(c, c') && Owing(c') == Owing(c) ==> (forall y :: Owed(c', y) <==> Owed(c, y))
  {
  }

  lemma EnteredHolds(s: Pair, s': Pair, x: nat)
    requires Valid(s.gen) && ClientInv(s.client) && s'.gen == s.gen && s'.nextId == s.nextId
    requires CanEnqueue(s.client) && s'.client.controlId == s.client.controlId + 1
    requires SameIds(s.client, s'.client) && Owing(s'.client) == Owing(s.client)
    requires s'.client.resources.Keys == s.client.resources.Keys + {x}
    requires s'.client.controls == s.client.controls + [Send(Control(s'.client.controlId, Adopt(x)))]
    ensures var misled :=
        Owed(s.client, x) && s.client.controlId + 2 <= MAX_ID && Stands(s.gen, s.nextId, s.client.controls, x);
      ToldAll(s) && !misled ==> ToldAll(s')
    ensures KeptAll(s) ==> KeptAll(s')
  {
    OwedWithEntry(s.client, s'.client);
    hide Dying, Stands, Wanted, Owed, Owing, Valid, ClientInv;
    var i := Send(Control(s'.client.controlId, Adopt(x)));
    forall y
      ensures (y in s.client.resources && y != x && ToldAt(s, y) ==> ToldAt(s', y)) && (KeptAt(s, y) ==> KeptAt(s', y))
    {
      AdoptMore(s.gen, s.nextId, s.client.controls, i, x, y);
      AdoptQueuedSnoc(s.client.controls, i, y);
    }
    AdoptMore(s.gen, s.nextId, s.client.controls, i, x, x);
    AdoptQueuedSnoc(s.client.controls, i, x);
  }

  lemma UnadoptedHolds(s: Pair, s': Pair, x: nat)
    requires ClientInv(s.client) && s'.gen == s.gen && s'.nextId == s.nextId
    requires s.client.controlId == MAX_ID == s'.client.controlId && s'.client.controls == s.client.controls
    requires SameIds(s.client, s'.client) && Owing(s'.client) == Owing(s.client)
    requires s'.client.resources.Keys == s.client.resources.Keys + {x}
    ensures var misled := Dying(s.gen, s.nextId, s.client.controls, x) || Untold(s.gen, s.client.controls, x);
      ToldAll(s) && !misled ==> ToldAll(s')
    ensures KeptAll(s) ==> KeptAll(s')
  {
    OwedWithEntry(s.client, s'.client);
    hide Dying, Stands, Untold, Owed, Owing, ClientInv;
    forall y | y in s'.client.resources && y != x && ToldAll(s) ensures ToldAt(s', y) {
      assert ToldAt(s, y);
    }
    if KeptAll(s) {
      StillKept(s, s', {});
    }
  }

  lemma ReferenceHolds(s: Pair, x: nat)
    requires Valid(s.gen) && ClientInv(s.client)
    ensures ToldAll(s) && !Misleads(s, Reference(x)) ==> ToldAll(s.(client := CreateReference(s.client, x).0))
    ensures KeptAll(s) ==> KeptAll(s.(client := CreateReference(s.client, x).0))
  {
    hide Dying, Stands, Untold, Owed, ToldAll, KeptAll, Valid;
    var c := s.client;
    var s' := s.(client := CreateReference(c, x).0);
    if Live(c) && x != 0 {
      if x in c.resources {
        TableEntry(c, x);
        Unchanged(s, s');
      } else if CanEnqueue(c) {
        EnteredHolds(s, s', x);
      } else {
        UnadoptedHolds(s, s', x);
      }
    }
  }

  lemma DropRefHolds(s: Pair, r: nat)
    requires ClientInv(s.client) && r in s.client.begun
    requires r < |s.client.refs| && s.client.refs[r] < |s.client.states|
    ensures ToldAll(s) ==> ToldAll(s.(client := DropRef(s.client, r)))
    ensures KeptAll(s) ==> KeptAll(s.(client := DropRef(s.client, r)))
  {
    Unchanged(s, s.(client := DropRef(s.client, r)));
  }

  lemma ResumeHolds(s: Pair, k: nat)
    requires Valid(s.gen) && ClientInv(s.client) && k in s.client.waiting && s.client.terminal == Open
    ensures ToldAll(s) ==> ToldAll(s.(client := ResumeRelease(s.client, k)))
    ensures KeptAll(s) && !Forgets(s, ResumeReleaseTask(k)) ==> KeptAll(s.(client := ResumeRelease(s.client, k)))
  {
    hide ToldAll, KeptAll, LastToAnswer, Valid;
    var c := s.client;
    assert k in Owing(c);
    CounterBound(c);
    var s' := s.(client := ResumeRelease(c, k));
    NoLongerWaiting(c, k);
    assert Owing(s'.client) == Owing(c) - {k};
    if CanEnqueue(c) {
      SentHolds(s, s', k);
    } else {
      UnsentHolds(s, s', k);
    }
  }

  lemma CounterBound(c: Client)
    ensures ClientInv(c) && c.terminal == Open ==> c.controlId <= MAX_ID
  {
    hide TableInv, SentInv;
  }

  /** The release task run in one go is the same as waiting and resuming at once. */
  lemma RunIsWaitThenResume(c: Client, r: nat)
    requires ClientInv(c) && r in c.begun && c.terminal == Open
    ensures r < |c.refs| && c.refs[r] < |c.states|
    ensures var w := RunRelease(c, r, true);
      RunRelease(c, r, false) == if c.refs[r] in w.waiting && c.refs[r] !in c.waiting
                                 then ResumeRelease(w, c.refs[r]) else w
  {
    DropRefKeeps(c, r);
    var k, c1 := c.refs[r], DropRef(c, r);
    if c1.states[k].refs == {} && !c1.states[k].terminal {
      RetireKeeps(c1, k);
      var c2 := Retire(c1, k);
      assert k !in c2.waiting;
      assert c2.waiting + {k} - {k} == c2.waiting;
      assert c2.(waiting := c2.waiting + {k}).(waiting := c2.waiting + {k} - {k}) == c2;
    }
  }

  lemma RunWaitsHolds(s: Pair, r: nat)
    requires ClientInv(s.client) && r in s.client.begun
    ensures ToldAll(s) ==> ToldAll(s.(client := RunRelease(s.client, r, true)))
    ensures KeptAll(s) ==> KeptAll(s.(client := RunRelease(s.client, r, true)))
  {
    hide ToldAll, KeptAll;
    var c := s.client;
    DropRefKeeps(c, r);
    DropRefHolds(s, r);
    var k, c1 := c.refs[r], DropRef(c, r);
    if c1.states[k].refs == {} && !c1.states[k].terminal {
      RetireKeeps(c1, k);
      var s1, s' := s.(client := c1), s.(client := RunRelease(c, r, true));
      assert c1.states[k].id in c1.resources;
      assert Owing(s'.client) == Owing(c1) + {k};
      WaitingHolds(s1, s', k);
    }
  }

  /** What is retired and waits was held by its last reference, and owed nothing yet. */
  lemma RunWaitsShape(c: Client, r: nat)
    requires ClientInv(c) && r in c.begun && c.terminal == Open
    ensures r < |c.refs| && c.refs[r] < |c.states|
    ensures var k, w := c.refs[r], RunRelease(c, r, true);
      && w.controlId == c.controlId && w.terminal == c.terminal && w.controls == c.controls
      && |w.states| == |c.states| && SameIds(c, w)
      && (k in w.waiting && k !in c.waiting <==> LastReference(c, r))
      && (LastReference(c, r) ==> Owing(w) == Owing(c) + {k} && k !in Owing(c) && c.states[k].id !in w.resources)
  {
    DropRefKeeps(c, r);
    var k, c1 := c.refs[r], DropRef(c, r);
    assert c.states[k].refs - {r} == {} <==> c.states[k].refs <= {r};
    if c1.states[k].refs == {} && !c1.states[k].terminal {
      RetireKeeps(c1, k);
      assert Owing(RunRelease(c, r, true)) == Owing(c) + {k};
      assert c.states[k].id == c1.states[k].id;
    }
  }

  /** Being the last to answer, seen before and after the incarnation starts to wait. */
  lemma LastEitherWay(s: Pair, s': Pair, k: nat)
    requires s'.gen == s.gen && s'.nextId == s.nextId && s'.client.controls == s.client.controls
    requires SameIds(s.client, s'.client) && |s'.client.states| == |s.client.states| && k < |s.client.states|
    requires Owing(s'.client) == Owing(s.client) + {k}
    ensures LastToAnswer(s', k) <==> LastToAnswer(s, k)
  {
  }

  lemma RunReleaseHolds(s: Pair, r: nat, routesOpen: bool)
    requires Valid(s.gen) && ClientInv(s.client) && r in s.client.begun && s.client.terminal == Open
    ensures ToldAll(s) ==> ToldAll(s.(client := RunRelease(s.client, r, routesOpen)))
    ensures KeptAll(s) && !Forgets(s, RunReleaseTask(r, routesOpen)) ==>
        KeptAll(s.(client := RunRelease(s.client, r, routesOpen)))
  {
    hide ToldAll, KeptAll, ClientInv, RunRelease, ResumeRelease, LastToAnswer, LastReference, Valid, SameIds;
    RunWaitsHolds(s, r);
    if !routesOpen {
      RunIsWaitThenResume(s.client, r);
      RunReleaseKeeps(s.client, r, true);
      RunWaitsShape(s.client, r);
      var k, w := s.client.refs[r], RunRelease(s.client, r, true);
      if k in w.waiting && k !in s.client.waiting {
        LastEitherWay(s, s.(client := w), k);
        ResumeHolds(s.(client := w), k);
      }
    }
  }

  ghost predicate NoneLeftOut(s: Pair) {
    forall i: nat :: !LeftOut(s, i)
  }

  /** `_close` works its list off. */
  lemma {:induction false} SendReleasesHold(s: Pair, ks: seq<nat>)
    requires Valid(s.gen) && s.client.terminal == Open && s.client.controlId <= MAX_ID
    requires s.client.closeList == ks && Distinct(ks) && s.client.waiting == {}
    requires forall k | k in ks :: k < |s.client.states|
    ensures ToldAll(s) ==> ToldAll(s.(client := SendReleases(s.client.(closeList := []), ks)))
    ensures KeptAll(s) && NoneLeftOut(s) ==> KeptAll(s.(client := SendReleases(s.client.(closeList := []), ks)))
    decreases |ks|
  {
    hide ToldAll, KeptAll, NoneLeftOut, Valid, Distinct, SendRelease;
    var c := s.client;
    if ks == [] {
      assert c.(closeList := []) == c;
    } else {
      assert ks[0] in ks && forall j | j in ks[1..] :: j in ks;
      var s' := s.(client := SendRelease(c, ks[0]).(closeList := ks[1..]));
      SendReleaseLater(c, ks[0], ks[1..]);
      OneReleaseHolds(s, s', ks);
      SendReleasesHold(s', ks[1..]);
    }
  }

  lemma SendReleaseLater(c: Client, k: nat, ks: seq<nat>)
    ensures SendRelease(c, k).(closeList := []) == SendRelease(c.(closeList := []), k)
    ensures SendRelease(c, k).(closeList := ks).(closeList := []) == SendRelease(c.(closeList := []), k)
  {
  }

  /** The first Release of the list. */
  lemma OneReleaseHolds(s: Pair, s': Pair, ks: seq<nat>)
    requires Valid(s.gen) && s.client.terminal == Open && s.client.controlId <= MAX_ID
    requires s.client.closeList == ks != [] && Distinct(ks) && s.client.waiting == {}
    requires ks[0] < |s.client.states|
    requires s' == s.(client := SendRelease(s.client, ks[0]).(closeList := ks[1..]))
    ensures ToldAll(s) ==> ToldAll(s')
    ensures KeptAll(s) && NoneLeftOut(s) ==> KeptAll(s')
    ensures NoneLeftOut(s) ==> NoneLeftOut(s')
    ensures s'.client.terminal == Open && s'.client.controlId <= MAX_ID && Distinct(ks[1..])
    ensures s'.client.waiting == {} && s'.client.states == s.client.states
  {
    hide ToldAll, KeptAll, LeftOut, LastToAnswer, Valid, Owing, Distinct;
    var c := s.client;
    TailOwing(c, s'.client, ks);
    if c.controlId < MAX_ID {
      SentHolds(s, s', ks[0]);
    } else {
      UnsentHolds(s, s', ks[0]);
      if NoneLeftOut(s) {
        assert !LeftOut(s, 0);
        FirstLeftOut(s, ks[0]);
      }
    }
    forall i: nat | NoneLeftOut(s) ensures !LeftOut(s', i) {
      assert !LeftOut(s, i + 1);
      LeftOutLater(s, s', ks, i);
    }
  }

  lemma TailOwing(c: Client, c': Client, ks: seq<nat>)
    requires ks != [] && Distinct(ks) && c.closeList == ks && c.waiting == {} == c'.waiting && c'.closeList == ks[1..]
    ensures Owing(c') == Owing(c) - {ks[0]} && ks[0] in Owing(c) && Distinct(ks[1..])
  {
    assert ks == [ks[0]] + ks[1..];
  }

  lemma FirstLeftOut(s: Pair, k: nat)
    ensures s.client.closeList != [] && k == s.client.closeList[0] && s.client.controlId >= MAX_ID && !LeftOut(s, 0) ==>
        !LastToAnswer(s, k)
  {
  }

  /** What is left out after one Release was left out before. */
  lemma LeftOutLater(s: Pair, s': Pair, ks: seq<nat>, i: nat)
    requires Valid(s.gen) && s'.gen == s.gen && s'.nextId == s.nextId && s.client.closeList == ks != []
    requires s'.client.closeList == ks[1..] && s'.client.states == s.client.states && ks[0] < |s.client.states|
    requires if s.client.controlId < MAX_ID then
        s'.client.controlId == s.client.controlId + 1
        && s'.client.controls
           == s.client.controls + [Send(Control(s.client.controlId + 1, Release(s.client.states[ks[0]].id)))]
      else s'.client.controlId == s.client.controlId && s'.client.controls == s.client.controls
    ensures LeftOut(s', i) ==> LeftOut(s, i + 1)
  {
    hide Wanted, Valid;
    var c := s.client;
    if LeftOut(s', i) {
      var x := c.states[ks[i + 1]].id;
      if c.controlId < MAX_ID {
        var item := Send(Control(c.controlId + 1, Release(c.states[ks[0]].id)));
        ReleaseMore(s.gen, s.nextId, c.controls, item, c.states[ks[0]].id, x);
      }
      forall j | 0 <= j < i + 1 && c.controlId + j < MAX_ID && ks[j] < |c.states| ensures c.states[ks[j]].id != x {
        if j > 0 {
          assert ks[1..][j - 1] == ks[j];
        }
      }
    }
  }

  lemma CloseReleaseHolds(s: Pair)
    requires Valid(s.gen) && ClientInv(s.client) && s.client.closeStage == 1 && s.client.waiting == {}
    requires s.client.terminal == Open
    ensures ToldAll(s) ==> ToldAll(s.(client := CloseRelease(s.client)))
    ensures KeptAll(s) && !Forgets(s, ReleaseAll) ==> KeptAll(s.(client := CloseRelease(s.client)))
  {
    hide ToldAll, KeptAll, LeftOut, Valid;
    var c := s.client;
    TakenListKeeps(c);
    CounterBound(c);
    var s1 := s.(client := c.(closeStage := 2));
    Unchanged(s, s1);
    SendReleasesHold(s1, c.closeList);
    forall i: nat ensures LeftOut(s1, i) <==> LeftOut(s, i) {
      LeftOutSame(s, s1, i);
    }
  }

  lemma LeftOutSame(s: Pair, s': Pair, i: nat)
    ensures s' == s.(client := s.client.(closeStage := 2)) ==> (LeftOut(s', i) <==> LeftOut(s, i))
  {
    hide Wanted;
  }

  /** `_close` turns every held incarnation into one that owes its Release. */
  lemma BeginCloseOwes(c: Client)
    requires ClientInv(c) && c.terminal == Open && !c.closing
    ensures var c' := BeginClose(c);
      && SameIds(c, c') && |c'.states| == |c.states|
      && (forall k :: k in Owing(c') <==> k in Owing(c) || k in c.resources.Values)
  {
    InIdOrderExact(c);
    EndAllTable(c);
    assert c.closeList == [];
  }

  lemma BeginCloseHolds(s: Pair)
    requires ClientInv(s.client) && s.client.terminal == Open && !s.client.closing
    ensures ToldAll(s.(client := BeginClose(s.client)))
    ensures KeptAll(s) ==> KeptAll(s.(client := BeginClose(s.client)))
  {
    hide ClientInv, BeginClose;
    var c := s.client;
    var s' := s.(client := BeginClose(c));
    BeginCloseOwes(c);
    BeginCloseShape(c);
    forall x | x in c.resources
      ensures c.resources[x] < |c.states| && c.states[c.resources[x]].id == x
    {
      TableEntry(c, x);
    }
    forall x ensures Owed(s'.client, x) <==> Owed(c, x) || x in c.resources {
      OwedAtClose(c, s'.client, x);
    }
    hide Owed, Owing, SameIds;
    if KeptAll(s) {
      StillKept(s, s', {});
    }
  }

  lemma OwedAtClose(c: Client, c': Client, x: nat)
    requires SameIds(c, c') && |c'.states| == |c.states|
    requires forall y | y in c.resources :: c.resources[y] < |c.states| && c.states[c.resources[y]].id == y
    requires forall k :: k in Owing(c') <==> k in Owing(c) || k in c.resources.Values
    ensures Owed(c', x) <==> Owed(c, x) || x in c.resources
  {
    hide Owing;
    if x in c.resources {
      assert c.resources[x] in Owing(c') && c'.states[c.resources[x]].id == x;
    }
    if Owed(c', x) {
      var k :| k in Owing(c') && k < |c'.states| && c'.states[k].id == x;
      assert k in Owing(c) || k in c.resources.Values;
    }
  }

  lemma BeginCloseShape(c: Client)
    ensures c.terminal == Open ==>
        && BeginClose(c).resources == map[] && BeginClose(c).controls == c.controls
        && BeginClose(c).terminal == Open && BeginClose(c).controlId == c.controlId
  {
  }

  lemma EndControlsHolds(s: Pair)
    requires Valid(s.gen)
    ensures ToldAll(s) ==> ToldAll(s.(client := FinishClose(s.client)))
    ensures KeptAll(s) ==> KeptAll(s.(client := FinishClose(s.client)))
  {
    var c, s' := s.client, s.(client := FinishClose(s.client));
    OwedSame(c, s'.client);
    if c.requestClosed {
      Unchanged(s, s');
    } else {
      hide Dying, Stands, Wanted, Owed, Owing, Valid;
      forall y ensures (y in c.resources && ToldAt(s, y) ==> ToldAt(s', y)) && (KeptAt(s, y) ==> KeptAt(s', y)) {
        EndMore(s.gen, s.nextId, c.controls, y);
        AdoptQueuedSnoc(c.controls, QueueEnd, y);
      }
    }
  }

  lemma HandledShape(c: Client, r: Response)
    requires ClientInv(c) && c.terminal == Open
    ensures var c' := Handle(c, r);
      c'.terminal == Open ==>
        && c'.controls == c.controls
        && c'.resources == (if r.Released? then c.resources - {r.id} else c.resources)
        && c'.controlId == c.controlId
        && Owing(c') == Owing(c) && |c'.states| == |c.states| && SameIds(c, c')
  {
    if r.Released? && r.id in c.resources {
      TableEntry(c, r.id);
    }
  }

  /** One response is taken off, for a client that no longer holds what it revoked. */
  lemma TakenHolds(s: Pair, s': Pair, r: Response)
    requires NoticesAreDead(s.gen) && Valid(s.gen) && s.gen.responses != [] && r == s.gen.responses[0]
    requires s'.gen == s.gen.(responses := s.gen.responses[1..]) && s'.nextId == s.nextId
    requires s'.client.controls == s.client.controls && s'.client.controlId == s.client.controlId
    requires s'.client.resources == if r.Released? then s.client.resources - {r.id} else s.client.resources
    requires Owing(s'.client) == Owing(s.client) && |s'.client.states| == |s.client.states|
    requires SameIds(s.client, s'.client)
    ensures ToldAll(s) ==> ToldAll(s')
    ensures KeptAll(s) ==> KeptAll(s')
  {
    OwedSame(s.client, s'.client);
    hide Owed, Owing, Steer, Silent, Valid;
    assert r in s.gen.responses;
    forall y | y in s'.client.resources && ToldAll(s) ensures ToldAt(s', y) {
      assert ToldAt(s, y);
      if y in s.gen.tombstones && Released(y) in s.gen.responses {
        var i :| 0 <= i < |s.gen.responses| && s.gen.responses[i] == Released(y);
        assert s'.gen.responses[i - 1] == Released(y);
      }
    }
    forall y: nat | KeptAll(s) ensures KeptAt(s', y) {
      assert KeptAt(s, y);
    }
  }

  lemma ReceiveHolds(s: Pair)
    requires Base(s) && Enabled(s, Receive) && Do(s, Receive).client.terminal == Open
    ensures ToldAll(s) ==> ToldAll(Do(s, Receive))
    ensures KeptAll(s) ==> KeptAll(Do(s, Receive))
  {
    hide ToldAll, KeptAll, Ordered, NoticesAreDead, Valid, ClientInv;
    var s' := Do(s, Receive);
    HandledShape(s.client, s.gen.responses[0]);
    TakenHolds(s, s', s.gen.responses[0]);
  }

  // ----- server steps

  /** A section that revokes with notices, or constructs, leaves the fate of the rest. */
  lemma FateAfterSection(s: Pair, s': Pair, y: nat)
    requires Valid(s.gen) && Valid(s'.gen) && s'.client == s.client
    requires Quiet(s, s')
    ensures var q := s.client.controls;
      && (Dying(s'.gen, s'.nextId, q, y) ==> Dying(s.gen, s.nextId, q, y))
      && (Stands(s'.gen, s'.nextId, q, y) ==> Stands(s.gen, s.nextId, q, y))
      && (Wanted(s'.gen, s'.nextId, q, y) ==> Wanted(s.gen, s.nextId, q, y))
      && (Untold(s'.gen, q, y) ==> Untold(s.gen, q, y))
  {
    hide Steer, Silent, Alike, PendingAttached, SettledIds, Index, Distinct;
    var res, res', root, q := s.gen.resources, s'.gen.resources, s.gen.root, s.client.controls;
    if y in res' && y != root {
      if y in res {
        SameFate(res, res', root, q, y);
      } else {
        FateByQueue(res', root, q, y);
      }
    }
  }

  /** What such a section may do. */
  ghost predicate Quiet(s: Pair, s': Pair) {
    var g, g' := s.gen, s'.gen;
    && g'.root == g.root && s'.nextId >= s.nextId && Alike(g.resources, g'.resources)
    && Known(g) <= Known(g') && g.tombstones <= g'.tombstones
    && (forall y | y in g'.tombstones && y !in g.tombstones :: Released(y) in g'.responses)
    && (forall r | r in g.responses :: r in g'.responses)
    && (forall y | y in g'.resources && y !in g.resources :: g'.resources[y].pending && Coming(g, s.nextId, y))
  }

  lemma SectionHolds(s: Pair, s': Pair)
    requires Valid(s.gen) && Valid(s'.gen) && s'.client == s.client && Quiet(s, s')
    ensures ToldAll(s) ==> ToldAll(s')
    ensures KeptAll(s) ==> KeptAll(s')
  {
    hide Quiet, Valid, Dying, Stands, Wanted, Untold, Owed;
    forall y: nat
      ensures y in s.client.resources && ToldAt(s, y) ==> ToldAt(s', y)
      ensures KeptAt(s, y) ==> KeptAt(s', y)
    {
      FateAfterSection(s, s', y);
    }
  }

  lemma GrownIsAlike(res: Forest, r: Resource)
    ensures (r.id !in res && forall c | c in res :: res[c].parent < r.id) ==>
        Alike(res, res[r.id := r])
  {
  }

  lemma RevokeIsQuiet(s: Pair, x: nat, caller: Option<nat>)
    requires Valid(s.gen)
    ensures Quiet(s, s.(gen := ReleaseResource(s.gen, x, true, true, caller).0))
  {
    var g := s.gen;
    if !g.closing && x in g.resources {
      var ids := Batch(g.resources, x, x == g.root);
      BatchIsClosed(g, x);
      BatchNoticesDead(g, ids, x, true);
      hide Batch, Picked, SettleAll, Index, Notices, Valid, Under;
      hide Alike, Distinct;
      assert ReleaseResource(g, x, true, true, caller).0.tombstones == g.tombstones + Elems(ids);
    }
  }

  lemma ConstructIsQuiet(s: Pair, parent: nat)
    requires Base(s) && parent in s.gen.resources
    ensures Quiet(s, ConstructStep(s, parent))
  {
    hide ClientInv, Ordered, NoticesAreDead, SettledIds, Index, Distinct;
    var id := s.nextId + 1;
    assert id !in Known(s.gen);
    if id <= MAX_ID {
      forall c | c in s.gen.resources ensures s.gen.resources[c].parent < id {
        LiveIsKnown(s.gen, c);
      }
      GrownIsAlike(s.gen.resources, Resource(id, parent, true, {}));
      hide Alike, Valid;
      assert Coming(s.gen, s.nextId, id);
    }
  }

  lemma RoutesAreQuiet(s: Pair, x: nat, route: nat)
    ensures Valid(s.gen) ==>
        && (x in s.gen.resources ==> Quiet(s, s.(gen := OpenRoute(s.gen, x, route))))
        && Quiet(s, s.(gen := CloseRoute(s.gen, x, route)))
  {
    hide PendingAttached, SettledIds, Index, Distinct;
  }

  lemma AllocateIsQuiet(s: Pair)
    ensures Quiet(s, s.(nextId := s.nextId + 1))
  {
  }

  lemma ConsumeTells(s: Pair)
    requires Base(s) && Enabled(s, Consume) && Running(Do(s, Consume))
    ensures ToldAll(s) ==> ToldAll(Do(s, Consume))
  {
    hide ClientInv, Ordered, Valid, NoticesAreDead, Known, ApplyControl, Owed, Dying, Stands, Wanted, Untold, Owing,
      SameIds;
    StillRunning(s, Consume);
    var s' := Do(s, Consume);
    var c := s.client.controls[0].control;
    TakenControlSame(s.client);
    forall y: nat ensures y in s.client.resources && ToldAt(s, y) ==> ToldAt(s', y) {
      FateAfterControl(s, s', c, y);
    }
  }

  /** Accepted or refused, or the end marker: the forest after it is the steered one. */
  lemma ConsumedForest(s: Pair)
    requires Base(s) && s.consuming && s.client.controls != [] && s.client.terminal == Open
    ensures var g, g' := s.gen, ConsumeStep(s).gen;
      && g'.resources == Steered(g.resources, g.root, s.client.controls[0])
      && g'.root == g.root && Known(g') == Known(g) && Valid(g')
  {
    ConsumeIsSection(s);
    ConsumeKeepsOrder(s);
    hide ClientInv, Ordered, NoticesAreDead, PendingAttached, SettledIds, Index, Distinct;
    var g, i := s.gen, s.client.controls[0];
    if i.Send? && ApplyControl(g, i.control).Some? && !g.closing {
      SteeredIsApplied(g, i.control);
    } else {
      hide ReleaseResource;
      if i.Send? && ApplyControl(g, i.control).None? {
        RefusedIsUnknown(g, i.control);
      }
      assert ConsumeStep(s).gen.resources == g.resources;
      assert forall x | x in g.resources :: !KilledBy(g.resources, g.root, i, x);
    }
  }

  lemma RefusedIsUnknown(g: Gen, c: Control)
    requires Valid(g) && c.controlId == g.lastControlId + 1 && !c.body.Init? && ApplyControl(g, c).None?
    ensures c.body.id !in g.resources
  {
    hide Removal, Batch, Picked, Notices;
  }

  /** What is wanted with one control fewer to come was wanted before. */
  lemma WantedBefore(g: Gen, g': Gen, n: nat, q: seq<Item>, y: nat)
    requires Valid(g) && Valid(g') && q != [] && g'.resources == Steered(g.resources, g.root, q[0])
    requires g'.root == g.root && Known(g') == Known(g)
    ensures Wanted(g', n, q[1..], y) ==> Wanted(g, n, q, y)
  {
    hide KilledBy, PendingAttached, SettledIds, Index, Distinct;
    LatestAnyway(q[1..], y);
  }

  lemma ConsumeHolds(s: Pair)
    requires Base(s) && Enabled(s, Consume) && s.client.terminal == Open
    ensures KeptAll(s) ==> KeptAll(Do(s, Consume))
  {
    hide ClientInv, Ordered, Valid, NoticesAreDead, Known, ApplyControl, Owed, Wanted, Owing, SameIds, Steered;
    ValidIsPlanted(s.gen);
    var s' := Do(s, Consume);
    ConsumedForest(s);
    TakenControlSame(s.client);
    forall y: nat | KeptAll(s) ensures KeptAt(s', y) {
      assert KeptAt(s, y);
      WantedBefore(s.gen, s'.gen, s.nextId, s.client.controls, y);
    }
  }

  /** Teardown leaves nothing to want. */
  lemma TeardownHolds(s: Pair, caller: Option<nat>)
    requires Valid(s.gen)
    ensures KeptAll(s) ==> KeptAll(s.(gen := Teardown(s.gen, caller)))
  {
    TeardownValid(s.gen, caller);
    hide Valid, Owed, TeardownOrder, SettleAll, Picked;
    forall y: nat | KeptAll(s) ensures KeptAt(s.(gen := Teardown(s.gen, caller)), y) {
      assert KeptAt(s, y);
    }
  }

  lemma TakenControlSame(c: Client)
    requires c.controls != []
    ensures forall x :: Owed(c.(controls := c.controls[1..]), x) <==> Owed(c, x)
  {
    OwedSame(c, c.(controls := c.controls[1..]));
  }

  // ----- every step

  lemma StillRunning(s: Pair, a: Action)
    requires Base(s) && Enabled(s, a) && Running(Do(s, a))
    ensures Running(s) && !a.FinishClosing? && !a.StreamFails? && !a.EndGeneration?
  {
    hide ClientInv, Ordered, Valid, NoticesAreDead, Known, ReleaseResource, ConstructChild, Teardown, ApplyControl;
    BaseKept(s, a);
    TeardownCloses(s.gen, if a.EndGeneration? then a.caller else None);
  }

  lemma TeardownCloses(g: Gen, caller: Option<nat>)
    ensures Valid(g) ==> Teardown(g, caller).closing
  {
    hide Removal;
  }

  /** A clone finds the table entry it clones from. */
  lemma CloneHolds(s: Pair, r: nat)
    requires ClientInv(s.client)
    ensures ToldAll(s) ==> ToldAll(s.(client := Clone(s.client, r).0))
    ensures KeptAll(s) ==> KeptAll(s.(client := Clone(s.client, r).0))
  {
    hide ToldAll, KeptAll;
    if RefLive(s.client, r) {
      var x := s.client.states[s.client.refs[r]].id;
      TableEntry(s.client, x);
      Unchanged(s, s.(client := CreateReference(s.client, x).0));
    }
  }

  lemma ServerStepHolds(s: Pair, a: Action)
    requires Base(s) && Enabled(s, a) && !AtClient(a) && (s.client.terminal == Closed ==> s.client.controls == [])
    ensures Running(Do(s, a)) && ToldAll(s) ==> ToldAll(Do(s, a))
    ensures Do(s, a).client.terminal != Failed && KeptAll(s) ==> KeptAll(Do(s, a))
  {
    hide ToldAll, KeptAll, ClientInv, Ordered, Valid, NoticesAreDead, Known, Quiet, ReleaseResource, Teardown,
      ConstructStep, ConsumeStep, Handle;
    if Do(s, a).client.terminal != Failed {
      NotYetFailed(s, a);
    }
    if Running(Do(s, a)) {
      StillRunning(s, a);
    }
    BaseKept(s, a);
    match a
    case Receive =>
      if Do(s, a).client.terminal == Open {
        ReceiveHolds(s);
      }
    case Consume =>
      if Running(Do(s, a)) {
        ConsumeTells(s);
      }
      if s.client.terminal == Open {
        ConsumeHolds(s);
      }
    case EndGeneration(caller) => TeardownHolds(s, caller);
    case Construct(parent) =>
      ConstructIsQuiet(s, parent);
      ConstructLeavesClient(s, parent);
      SectionHolds(s, Do(s, a));
    case Revoke(x, caller) =>
      RevokeIsQuiet(s, x, caller);
      SectionHolds(s, Do(s, a));
    case RouteOpens(x, route) =>
      RoutesAreQuiet(s, x, route);
      SectionHolds(s, Do(s, a));
    case RouteCloses(x, route) =>
      RoutesAreQuiet(s, x, route);
      SectionHolds(s, Do(s, a));
    case AllocateElsewhere =>
      AllocateIsQuiet(s);
      SectionHolds(s, Do(s, a));
  }

  lemma ConstructLeavesClient(s: Pair, parent: nat)
    ensures ConstructStep(s, parent).client == s.client
  {
  }

  lemma ClientStepHolds(s: Pair, a: Action)
    requires Base(s) && Enabled(s, a) && s.client.terminal == Open == Do(s, a).client.terminal && AtClient(a)
    ensures ToldAll(s) && !Misleads(s, a) ==> ToldAll(Do(s, a))
    ensures KeptAll(s) && !Forgets(s, a) ==> KeptAll(Do(s, a))
  {
    hide ToldAll, KeptAll, ClientInv, Ordered, Valid, NoticesAreDead, Known, CreateReference, RunRelease, ResumeRelease,
      BeginClose, CloseRelease, FinishClose, Misleads, Forgets;
    match a
    case Reference(x) => ReferenceHolds(s, x);
    case CloneRef(r) => CloneHolds(s, r);
    case StartRelease(r) => Unchanged(s, Do(s, a));
    case RunReleaseTask(r, routesOpen) => RunReleaseHolds(s, r, routesOpen);
    case ResumeReleaseTask(k) => ResumeHolds(s, k);
    case StartClose => BeginCloseHolds(s);
    case ReleaseAll => CloseReleaseHolds(s);
    case EndControls => EndControlsHolds(s);
    case _ =>
  }

  /** A client that closes, or has closed, has nothing queued, and what was wanted of it
      was nothing. */
  lemma ClosedHolds(s: Pair, a: Action)
    requires Base(s) && Ending(s) && Enabled(s, a) && AtClient(a) && Do(s, a).client.terminal == Closed
    ensures KeptAll(s) ==> KeptAll(Do(s, a))
  {
    hide Valid, Ordered, NoticesAreDead, Known, TableInv, CounterInv, CreateReference, RunRelease, ResumeRelease,
      BeginClose, CloseRelease, Wanted;
    ClientOnward(s, a);
    var s' := Do(s, a);
    assert s.client.controls == [] == s'.client.controls && Owing(s.client) == {} && s.client.resources == map[];
    forall y: nat | KeptAll(s) ensures KeptAt(s', y) {
      assert KeptAt(s, y);
    }
  }
}
