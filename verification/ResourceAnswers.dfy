/** What the client's calls, release tasks and responses come to, as their callers see it:
    which reference is handed out, what is queued and who waits for it, and what is gone. */
module ResourceAnswers {
  import opened SortedSets
  import opened ResourceGeneration
  import opened ResourceClientSpec
  import opened ResourceProtocol
  import opened ResourceAgreement
  import opened ResourceRuns

  // ----- references

  /** When a reference is refused, with which error, and what that leaves behind: the table
      entry of a first use that found no control ID, and nothing else. */
  lemma ReferenceOutcome(c: Client, x: nat)
    requires ClientInv(c)
    ensures var o := CreateReference(c, x).1;
      && (o == NotLive <==> c.terminal != Open || c.closing)
      && (o == EmptyId <==> c.terminal == Open && !c.closing && x == 0)
      && (o == Exhausted <==>
            c.terminal == Open && !c.closing && x != 0 && x !in c.resources && c.controlId == MAX_ID)
      && (o.Ref? <==>
            c.terminal == Open && !c.closing && x != 0 && (x in c.resources || c.controlId < MAX_ID))
    ensures var (c', o) := CreateReference(c, x);
      && (o in {NotLive, EmptyId} ==> c' == c)
      && (o == Exhausted ==>
            && c'.controls == c.controls && c'.refs == c.refs && c'.waiters == c.waiters
            && (forall y :: y in c'.resources <==> y in c.resources || y == x)
            && (forall y | y in c.resources :: c'.resources[y] == c.resources[y])
            && |c'.states| == |c.states| + 1 && c'.states[..|c.states|] == c.states
            && c'.resources[x] == |c.states| && c'.states[|c.states|] == Incarnation(x, {}, {}, false))
  {
    if x in c.resources {
      TableEntry(c, x);
    }
    hide TableInv, SentInv, StageInv;
  }

  /** n is a new reference to x, live and not released; the older references and what they
      belong to are as they were. */
  ghost predicate HandedOut(c: Client, c': Client, n: nat, x: nat) {
    && |c.refs| <= n < |c'.refs| == |c.refs| + 1 && |c.states| <= |c'.states|
    && n !in c'.released && RefLive(c', n)
    && x in c'.resources && c'.refs[n] == c'.resources[x] && c'.states[c'.refs[n]].id == x
    && n in c'.states[c'.refs[n]].refs
    && (forall r | 0 <= r < |c.refs| :: c'.refs[r] == c.refs[r] && (RefLive(c', r) <==> RefLive(c, r)))
    && (forall k, r | 0 <= k < |c.states| && r != n :: r in c'.states[k].refs <==> r in c.states[k].refs)
    && c'.released == c.released && c'.tasked == c.tasked
  }

  /** A first use queues an Adopt and waits for it; any other queues nothing. */
  ghost predicate AdoptsOnce(c: Client, c': Client, x: nat) {
    if x in c.resources then
      && c'.resources == c.resources && c'.controls == c.controls && c'.controlId == c.controlId
      && c'.waiters == c.waiters && c'.pending == c.pending
    else
      var id := c.controlId + 1;
      && c'.controls == c.controls + [Send(Control(id, Adopt(x)))] && c'.controlId == id
      && (forall m :: m in c'.waiters <==> m in c.waiters || m == id)
      && (forall y :: y in c'.resources <==> y in c.resources || y == x)
      && (forall y | y in c.resources :: c'.resources[y] == c.resources[y])
      && (forall m :: x in c'.resources && c'.resources[x] < |c'.states| ==>
            (m in c'.states[c'.resources[x]].controls <==> m == id))
  }

  lemma ReferenceHandsOut(c: Client, x: nat)
    requires ClientInv(c) && Usable(c) && CreateReference(c, x).1.Ref?
    ensures var (c', o) := CreateReference(c, x); HandedOut(c, c', o.ref, x) && AdoptsOnce(c, c', x)
  {
    if x in c.resources {
      TableEntry(c, x);
    }
    hide CounterInv, SentInv, StageInv;
  }

  /** A clone is refused only for a reference that is not live, and is a new reference to
      the same incarnation. */
  lemma CloneHandsOut(c: Client, r: nat)
    requires ClientInv(c) && Usable(c)
    ensures var (c', o) := Clone(c, r);
      && (o == NotLive <==> !RefLive(c, r)) && (o.Ref? <==> RefLive(c, r))
      && (o == NotLive ==> c' == c)
      && (o.Ref? ==>
            && c.refs[r] < |c.states| && HandedOut(c, c', o.ref, c.states[c.refs[r]].id)
            && c'.refs[o.ref] == c.refs[r] && AdoptsOnce(c, c', c.states[c.refs[r]].id))
  {
    if RefLive(c, r) {
      var x := c.states[c.refs[r]].id;
      TableEntry(c, x);
      hide HandedOut, AdoptsOnce;
      ReferenceOutcome(c, x);
      ReferenceHandsOut(c, x);
      assert HandedOut(c, Clone(c, r).0, Clone(c, r).1.ref, x);
      SameIncarnation(c, Clone(c, r).0, Clone(c, r).1.ref, x);
    }
  }

  lemma SameIncarnation(c: Client, c': Client, n: nat, x: nat)
    ensures HandedOut(c, c', n, x) && x in c.resources && AdoptsOnce(c, c', x) ==> c'.refs[n] == c.resources[x]
  {
  }

  /** In every state of every run. */
  lemma ReferencesAreNew(s: Pair, run: seq<Action>, x: nat)
    requires Opening(s) && Doable(s, run)
    ensures var c := After(s, run).client;
      var (c', o) := CreateReference(c, x);
      o.Ref? ==> HandedOut(c, c', o.ref, x) && AdoptsOnce(c, c', x)
  {
    hide Do, Enabled, Doable, After, Ordered, NoticesAreDead, Known, Valid, ClientInv, Usable, Told, Kept, Accounted,
      SentInQueue, Ending, Orderly, Thrifty, ControlsLast, HandedOut, AdoptsOnce, CreateReference;
    OpeningIsBase(s);
    assert Usable(s.client) by {
      FreshIsUsable();
    }
    RunKeeps(s, run);
    if CreateReference(After(s, run).client, x).1.Ref? {
      ReferenceHandsOut(After(s, run).client, x);
    }
  }

  lemma FreshIsUsable()
    ensures Usable(Fresh())
  {
  }

  // ----- releasing

  /** `release()` marks its reference, and its task is to run once, whatever is called again. */
  lemma ReleaseMarks(c: Client, r: nat)
    ensures var c' := BeginRelease(c, r);
      && (r in c.tasked ==> c' == c)
      && (r !in c.tasked ==>
            && r in c'.tasked && r in c'.begun && r in c'.released && BeginRelease(c', r) == c'
            && (forall q | q != r ::
                  (q in c'.released <==> q in c.released) && (q in c'.tasked <==> q in c.tasked)
                  && (q in c'.begun <==> q in c.begun))
            && c'.states == c.states && c'.resources == c.resources && c'.controls == c.controls)
  {
  }

  /** What retiring an incarnation takes away: its references, released all; those who wait
      for its controls; and its own table entry, never another's. */
  ghost predicate Retired(c: Client, c': Client, k: nat)
    requires k < |c.states|
  {
    && |c'.states| == |c.states| && c'.states[k].terminal && c'.states[k].refs == {}
    && (forall j | 0 <= j < |c.states| && j != k :: c'.states[j] == c.states[j])
    && (forall m :: m in c'.waiters <==> m in c.waiters && m !in c.states[k].controls)
    && (forall r :: r in c'.released <==> r in c.released || r in c.states[k].refs)
    && (forall x :: x in c'.resources <==> x in c.resources && c.resources[x] != k)
    && (forall x | x in c'.resources :: c'.resources[x] == c.resources[x])
    && c'.controls == c.controls && c'.controlId == c.controlId && c'.pending == c.pending && c'.acked == c.acked
  }

  lemma RetireTakes(c: Client, k: nat)
    requires ClientInv(c) && k < |c.states| && !c.states[k].terminal
    ensures Retired(c, Retire(c, k), k)
  {
    hide CounterInv, SentInv, StageInv, Referred;
  }

  /** What sending a Release adds: the next control, and one that waits for it. */
  ghost predicate ReleaseSent(c: Client, c': Client, x: nat) {
    var id := c.controlId + 1;
    && c'.controls == c.controls + [Send(Control(id, Release(x)))] && c'.controlId == id
    && (forall m :: m in c'.waiters <==> m in c.waiters || m == id)
    && (forall m :: m in c'.pending <==> m in c.pending || m == id)
    && c'.states == c.states && c'.resources == c.resources && c'.released == c.released
  }

  /** A release task drops its own reference. Unless that was the last one of a live
      incarnation nothing else changes. If it was, the incarnation is retired, and its
      Release is sent at once, or is owed until the routes have closed. */
  lemma ReleaseTaskRuns(c: Client, r: nat, routesOpen: bool)
    requires ClientInv(c) && r in c.begun && c.terminal == Open
    ensures r < |c.refs| && c.refs[r] < |c.states|
    ensures var c', c1, k := RunRelease(c, r, routesOpen), DropRef(c, r), c.refs[r];
      && (forall q :: q in c1.states[k].refs <==> q in c.states[k].refs && q != r)
      && (forall j | 0 <= j < |c.states| && j != k :: c1.states[j] == c.states[j])
      && c1.controls == c.controls && c1.resources == c.resources && c1.waiters == c.waiters
      && (!LastReference(c, r) ==> c' == c1)
      && (LastReference(c, r) ==>
            exists mid: Client :: Retired(c1, mid, k) && mid.waiting == c.waiting
              && (if routesOpen then c' == mid.(waiting := c.waiting + {k})
                  else if c.controlId == MAX_ID then c' == mid
                  else ReleaseSent(mid, c', c.states[k].id)))
  {
    DropRefKeeps(c, r);
    var k, c1 := c.refs[r], DropRef(c, r);
    assert c.states[k].refs - {r} == {} <==> c.states[k].refs <= {r};
    if LastReference(c, r) {
      RetireTakes(c1, k);
      hide ClientInv, Retired, ReleaseSent, SendRelease;
      var mid := Retire(c1, k);
      RetireRests(c1, k);
      hide Retire;
      ReleaseQueued(mid, k);
      assert Retired(c1, mid, k) && mid.waiting == c.waiting;
    }
  }

  lemma RetireRests(c: Client, k: nat)
    ensures var c' := Retire(c, k);
      && c'.waiting == c.waiting && c'.terminal == c.terminal && c'.controlId == c.controlId
      && |c'.states| == |c.states| && (k < |c.states| ==> c'.states[k].id == c.states[k].id)
  {
  }

  /** The task that comes back from closing its routes sends what it owes, or nothing when
      the client failed meanwhile or no control ID is left. */
  lemma ReleaseTaskResumes(c: Client, k: nat)
    requires ClientInv(c) && k in c.waiting
    ensures var c', c1 := ResumeRelease(c, k), c.(waiting := c.waiting - {k});
      && k < |c.states|
      && if c.terminal == Open && c.controlId < MAX_ID then ReleaseSent(c1, c', c.states[k].id) else c' == c1
  {
    NoLongerWaiting(c, k);
    hide TableInv, SentInv, StageInv;
  }

  // ----- responses

  /** A client that failed holds, awaits and queues nothing, and all its references that
      were in use are released. */
  ghost predicate AllGone(c: Client, c': Client) {
    && c'.terminal == Failed && c'.closing && c'.requestClosed
    && c'.resources == map[] && c'.controls == [] && c'.waiters == {} && c'.pending == {}
    && |c'.states| == |c.states| && c'.refs == c.refs
    && (forall k | 0 <= k < |c.states| :: c'.states[k].terminal && c'.states[k].refs == {})
    && (forall r :: r in c'.released <==> r in c.released || exists k :: 0 <= k < |c.states| && r in c.states[k].refs)
  }

  lemma FailingTakesAll(c: Client)
    requires ClientInv(c) && c.terminal == Open
    ensures AllGone(c, RetireGeneration(c))
  {
    EndAllTable(c);
    EndAllReleases(c);
    hide CounterInv, SentInv, StageInv, Referred;
    var c' := RetireGeneration(c);
    forall k | 0 <= k < |c.states| ensures c'.states[k].terminal && c'.states[k].refs == {} {
      assert c.states[k].terminal ==> c.states[k].refs == {};
    }
  }

  lemma EndAllReleases(c: Client)
    requires ClientInv(c)
    ensures forall r :: r in EndAll(c).released <==>
        r in c.released || exists k :: 0 <= k < |c.states| && r in c.states[k].refs
  {
    hide CounterInv, SentInv, StageInv, Referred;
    forall k, r {:trigger r in c.states[k].refs} | 0 <= k < |c.states| && r in c.states[k].refs
      ensures k in c.resources.Values
    {
      assert !c.states[k].terminal && c.resources[c.states[k].id] == k;
    }
  }

  /** What each response does. An acknowledgement that is expected frees its own waiter and
      no other; a notice retires the incarnation held under its ID, or does nothing; the end
      is expected only when closing, with nobody waiting; all else fails the client. */
  lemma ResponseMeans(c: Client, r: Response)
    requires ClientInv(c) && c.terminal == Open
    ensures var c' := Handle(c, r);
      match r
      case Ack(n) =>
        if n != 0 && n == c.acked + 1 && n <= c.controlId then
          && c'.terminal == Open && c'.acked == n
          && (forall m :: m in c'.waiters <==> m in c.waiters && m != n)
          && (forall m :: m in c'.pending <==> m in c.pending && m != n)
          && c'.states == c.states && c'.resources == c.resources && c'.controls == c.controls
        else AllGone(c, c')
      case Released(x) =>
        if x == 0 then AllGone(c, c')
        else if x in c.resources then
          var k := c.resources[x];
          k < |c.states| && Retired(c, c'.(revoked := c.revoked), k) && c'.revoked == c.revoked + {k}
        else c' == c
      case Failure => AllGone(c, c')
      case End => if c.closing && c.waiters == {} then c' == c else AllGone(c, c')
  {
    FailingTakesAll(c);
    hide RetireGeneration, AllGone;
    match r
    case Ack(n) => hide TableInv, SentInv, StageInv;
    case Released(x) =>
      if x != 0 && x in c.resources {
        TableEntry(c, x);
        RetireTakes(c, c.resources[x]);
        RetireKeepsHistory(c, c.resources[x]);
        hide ClientInv, Retire;
      }
    case _ => hide ClientInv;
  }

  // ----- closing

  /** By ascending resource ID. */
  ghost predicate Ranked(states: seq<Incarnation>, ks: seq<nat>) {
    && (forall i | 0 <= i < |ks| :: ks[i] < |states|)
    && (forall i, j | 0 <= i < j < |ks| :: states[ks[i]].id < states[ks[j]].id)
  }

  lemma TableIsRanked(c: Client)
    requires Tabled(c.states, c.resources)
    ensures Ranked(c.states, InIdOrder(c.resources))
  {
    hide Sorted;
    var ids, ks := Sorted(c.resources.Keys), InIdOrder(c.resources);
    forall i | 0 <= i < |ids| ensures ids[i] in c.resources && ks[i] == c.resources[ids[i]] {
      assert ids[i] in ids;
    }
  }

  /** Closing holds nothing any more, and owes a Release for each incarnation it held, by
      ascending ID. It queues nothing yet. */
  lemma ClosingOwes(c: Client)
    requires ClientInv(c) && c.terminal == Open && !c.closing
    ensures var c' := BeginClose(c);
      && c'.closing && c'.resources == map[] && Ranked(c'.states, c'.closeList)
      && (forall k :: k in c'.closeList <==> k in c.resources.Values)
      && (forall k | 0 <= k < |c.states| ::
            k < |c'.states| && c'.states[k].terminal && c'.states[k].id == c.states[k].id)
      && (forall r :: r in c'.released <==> r in c.released || exists k :: 0 <= k < |c.states| && r in c.states[k].refs)
      && c'.controls == c.controls && c'.controlId == c.controlId && c'.waiters == c.waiters
  {
    TableParts(c);
    TableIsRanked(c);
    InIdOrderExact(c);
    EndAllTable(c);
    EndAllReleases(c);
    EndAllSends(c);
    EndAllRests(c);
    hide ClientInv, InIdOrder, Tabled, EndAll, Ranked;
    var c' := BeginClose(c);
    assert c' == EndAll(c).(closeList := InIdOrder(c.resources), closeStage := 1);
    RankedLasting(c.states, c'.states, c'.closeList);
  }

  lemma EndAllRests(c: Client)
    ensures var c' := EndAll(c);
      c'.closing && c'.resources == map[] && c'.controlId == c.controlId && c'.waiters == c.waiters
  {
  }

  /** What `_close` has in hand stays ranked until it sends its Releases. */
  lemma StaysRanked(s: Pair, a: Action)
    requires Base(s) && Enabled(s, a) && Ranked(s.client.states, s.client.closeList)
    ensures Ranked(Do(s, a).client.states, Do(s, a).client.closeList)
  {
    hide Ranked;
    StatesLast(s, a);
    if a.StartClose? {
      ClosingOwes(s.client);
    } else {
      NothingRanked(Do(s, a).client.states);
      RankedLasting(s.client.states, Do(s, a).client.states, s.client.closeList);
    }
  }

  lemma RankedLasting(states: seq<Incarnation>, states': seq<Incarnation>, ks: seq<nat>)
    requires Lasting(states, states') && Ranked(states, ks)
    ensures Ranked(states', ks)
  {
    forall i, j | 0 <= i < j < |ks| ensures states'[ks[i]].id < states'[ks[j]].id {
      assert states'[ks[i]].id == states[ks[i]].id && states'[ks[j]].id == states[ks[j]].id;
    }
  }

  lemma RunLasts(c: Client, r: nat, routesOpen: bool)
    ensures Lasting(c.states, RunRelease(c, r, routesOpen).states)
    ensures RunRelease(c, r, routesOpen).closeList == c.closeList
  {
    if r < |c.refs| && c.refs[r] < |c.states| {
      var c1 := DropRef(c, r);
      assert Lasting(c.states, c1.states) && c1.closeList == c.closeList;
      RetireLasts(c1, c.refs[r]);
      hide DropRef, Retire;
    }
  }

  lemma RetireLasts(c: Client, k: nat)
    ensures Lasting(c.states, Retire(c, k).states) && Retire(c, k).closeList == c.closeList
  {
  }

  lemma {:induction false} SendReleasesLast(c: Client, ks: seq<nat>)
    ensures SendReleases(c, ks).states == c.states && SendReleases(c, ks).closeList == c.closeList
    decreases |ks|
  {
    if ks != [] {
      SendReleasesLast(SendRelease(c, ks[0]), ks[1..]);
    }
  }

  lemma ReferenceLasts(c: Client, x: nat)
    requires ClientInv(c)
    ensures Lasting(c.states, CreateReference(c, x).0.states) && CreateReference(c, x).0.closeList == c.closeList
  {
    hide ClientInv;
  }

  lemma EndAllLasts(c: Client)
    ensures Lasting(c.states, EndAll(c).states) && EndAll(c).closeList == c.closeList
  {
  }

  lemma StatesLast(s: Pair, a: Action)
    requires Base(s) && Enabled(s, a)
    ensures Lasting(s.client.states, Do(s, a).client.states)
    ensures var was, now := s.client.closeList, Do(s, a).client.closeList; now == was || now == [] || a.StartClose?
  {
    hide ClientInv, Ordered, NoticesAreDead, Known, Valid, Lasting, CreateReference, RunRelease, SendReleases, EndAll,
      ApplyControl;
    var c := s.client;
    LastsItself(c.states);
    match a
    case Reference(x) => ReferenceLasts(c, x);
    case CloneRef(r) =>
      if RefLive(c, r) {
        ReferenceLasts(c, c.states[c.refs[r]].id);
      }
    case RunReleaseTask(r, routesOpen) => RunLasts(c, r, routesOpen);
    case ReleaseAll => SendReleasesLast(c.(closeList := [], closeStage := 2), c.closeList);
    case StartClose => EndAllLasts(c);
    case StreamFails => EndAllLasts(c);
    case Receive => HandledLasts(c, s.gen.responses[0]);
    case _ =>
  }

  lemma LastsItself(states: seq<Incarnation>)
    ensures Lasting(states, states)
  {
  }

  lemma HandledLasts(c: Client, r: Response)
    ensures Lasting(c.states, Handle(c, r).states) && Handle(c, r).closeList == c.closeList
  {
    EndAllLasts(c);
    hide EndAll;
  }

  lemma {:induction false} RunStaysRanked(s: Pair, run: seq<Action>)
    requires Base(s) && Doable(s, run) && Ranked(s.client.states, s.client.closeList)
    ensures Ranked(After(s, run).client.states, After(s, run).client.closeList)
    decreases |run|
  {
    hide Base, Do, Enabled, Ranked;
    if run != [] {
      BaseKept(s, run[0]);
      StaysRanked(s, run[0]);
      RunStaysRanked(Do(s, run[0]), run[1..]);
    }
  }

  lemma {:induction false} QueueGrows(c: Client, ks: seq<nat>)
    requires c.terminal == Open && c.controlId <= MAX_ID && forall k | k in ks :: k < |c.states|
    ensures var c' := SendReleases(c, ks);
      && |c'.controls| - |c.controls| == c'.controlId - c.controlId >= 0
      && c'.controls[..|c.controls|] == c.controls
    decreases |ks|
  {
    if ks != [] {
      assert ks[0] in ks && forall k | k in ks[1..] :: k in ks;
      var c1, c' := SendRelease(c, ks[0]), SendReleases(c, ks);
      ReleaseQueued(c, ks[0]);
      hide SendRelease;
      QueueGrows(c1, ks[1..]);
      assert c' == SendReleases(c1, ks[1..]);
      hide SendReleases;
      if c.controlId < MAX_ID {
        StillAhead(c.controls, c1.controls[|c.controls|], c'.controls);
      }
    }
  }

  /** The n-th Release that closing queues. */
  lemma {:induction false} ReleaseQueuedAt(c: Client, ks: seq<nat>, n: nat)
    requires c.terminal == Open && forall k | k in ks :: k < |c.states|
    requires n < |ks| && c.controlId + n < MAX_ID && ks[n] < |c.states|
    ensures var q := SendReleases(c, ks).controls;
      |c.controls| + n < |q|
      && q[|c.controls| + n] == Send(Control(c.controlId + 1 + n, Release(c.states[ks[n]].id)))
    decreases n
  {
    assert ks[0] in ks && forall k | k in ks[1..] :: k in ks;
    var c1 := SendRelease(c, ks[0]);
    ReleaseQueued(c, ks[0]);
    hide SendRelease;
    if n == 0 {
      QueueGrows(c1, ks[1..]);
      var q := SendReleases(c1, ks[1..]).controls;
      assert q[|c.controls|] == q[..|c1.controls|][|c.controls|];
    } else {
      ReleaseQueuedAt(c1, ks[1..], n - 1);
    }
  }

  /** And the client waits for each of them. */
  lemma {:induction false} ReleasesAwaited(c: Client, ks: seq<nat>)
    requires c.terminal == Open && c.controlId <= MAX_ID && forall k | k in ks :: k < |c.states|
    ensures var c', n := SendReleases(c, ks), if |ks| <= MAX_ID - c.controlId then |ks| else MAX_ID - c.controlId;
      forall m :: m in c'.waiters <==> m in c.waiters || c.controlId < m <= c.controlId + n
    decreases |ks|
  {
    if ks != [] {
      assert ks[0] in ks && forall k | k in ks[1..] :: k in ks;
      ReleaseQueued(c, ks[0]);
      hide SendRelease;
      ReleasesAwaited(SendRelease(c, ks[0]), ks[1..]);
    }
  }

  lemma StillAhead(q: seq<Item>, i: Item, q': seq<Item>)
    requires |q| < |q'| && q'[..|q| + 1] == q + [i]
    ensures q'[..|q|] == q && q'[|q|] == i
  {
    assert q'[..|q|] == q'[..|q| + 1][..|q|] && q'[|q|] == q'[..|q| + 1][|q|];
  }

  lemma ReleaseQueued(c: Client, k: nat)
    ensures c.terminal == Open && k < |c.states| ==>
        var c' := SendRelease(c, k);
        && c'.terminal == Open && c'.states == c.states
        && (if c.controlId == MAX_ID then c' == c else ReleaseSent(c, c', c.states[k].id))
  {
  }

  /** In every state of every run, what closing then sends is one Release for each
      incarnation it owes one, under consecutive control IDs and by ascending resource ID,
      as far as the control IDs go. */
  lemma CloseSendsInOrder(s: Pair, run: seq<Action>)
    requires Opening(s) && Doable(s, run) && Enabled(After(s, run), ReleaseAll)
    requires After(s, run).client.terminal == Open
    ensures var c := After(s, run).client;
      var c', ks := CloseRelease(c), c.closeList;
      var n := if |ks| <= MAX_ID - c.controlId then |ks| else MAX_ID - c.controlId;
      && Ranked(c.states, ks) && (forall k | k in ks :: k < |c.states| && c.states[k].terminal)
      && 0 <= n && |c'.controls| == |c.controls| + n && c'.controls[..|c.controls|] == c.controls
      && (forall i | 0 <= i < n && ks[i] < |c.states| ::
            c'.controls[|c.controls| + i] == Send(Control(c.controlId + 1 + i, Release(c.states[ks[i]].id))))
      && (forall m :: m in c'.waiters <==> m in c.waiters || c.controlId < m <= c.controlId + n)
  {
    hide Do, Doable, After, Ordered, NoticesAreDead, Known, Valid, ClientInv, Told, Kept, Accounted, SentInQueue,
      Usable, Ending, Orderly, Thrifty, ControlsLast, Ranked, SendReleases;
    OpeningIsBase(s);
    RunKeeps(s, run);
    assert Ranked(s.client.states, s.client.closeList) by {
      NothingRanked(s.client.states);
    }
    RunStaysRanked(s, run);
    var c := After(s, run).client;
    TakenListKeeps(c);
    CounterBound(c);
    SendReleasesExact(c.(closeList := [], closeStage := 2), c.closeList);
    QueueGrows(c.(closeList := [], closeStage := 2), c.closeList);
    forall i: nat | i < |c.closeList| && c.controlId + i < MAX_ID && c.closeList[i] < |c.states|
      ensures var q := CloseRelease(c).controls;
        |c.controls| + i < |q|
        && q[|c.controls| + i] == Send(Control(c.controlId + 1 + i, Release(c.states[c.closeList[i]].id)))
    {
      ReleaseQueuedAt(c.(closeList := [], closeStage := 2), c.closeList, i);
    }
    ReleasesAwaited(c.(closeList := [], closeStage := 2), c.closeList);
  }

  lemma NothingRanked(states: seq<Incarnation>)
    ensures Ranked(states, [])
  {
  }
}
