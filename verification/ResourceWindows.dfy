/** When the two statements of ResourceAgreement fail, exactly. In a running generation
    whose client names IDs that the generation gave out, each of the two invariants holds
    if and only if its statement does in every future, and the steps that break it are
    the misleading references and the forgetful releases, and no others. */
module ResourceWindows {
  import opened SortedSets
  import opened ResourceForest
  import opened ResourceGeneration
  import opened ResourceClientSpec
  import opened ResourceProtocol
  import opened ResourceFate
  import opened ResourceAgreement
  import opened ResourceRuns
  import opened ResourceEndurance

  /** A generation at work, whose client names known IDs only. */
  ghost predicate Fit(s: Pair) {
    Base(s) && Ending(s) && Running(s) && Names(s.client, Known(s.gen))
  }

  // ----- the results

  ghost predicate AlwaysAgreed(s: Pair) {
    forall run | Doable(s, run) && Orderly(s, run) :: Agreement(After(s, run))
  }

  ghost predicate NeverLeaks(s: Pair) {
    forall run | Doable(s, run) && Thrifty(s, run) :: NoLeak(After(s, run))
  }

  /** The first invariant is the weakest one: it holds exactly if every future agrees. */
  lemma AgreementForever(s: Pair)
    requires Fit(s)
    ensures Told(s) <==> AlwaysAgreed(s)
  {
    hide Base, Names, Agreement, Doable, Orderly, After, ToldAt;
    if Told(s) {
      ToldIsSafe(s);
    } else {
      var x :| x in s.client.resources && !ToldAt(s, x);
      var run := ToldFails(s, x);
    }
  }

  /** So is the second. */
  lemma NoLeakForever(s: Pair)
    requires Fit(s)
    ensures Kept(s) <==> NeverLeaks(s)
  {
    hide Base, Names, NoLeak, Doable, Thrifty, After, Wanted, Owed;
    if Kept(s) {
      KeptIsSafe(s);
    } else {
      var x: nat :| !KeptAt(s, x);
      var run := DrainKept(s, x);
    }
  }

  /** A step is safe for agreement, in every orderly future, exactly unless it misleads. */
  lemma ReferenceSafeIff(s: Pair, a: Action)
    requires Fit(s) && Told(s) && Enabled(s, a) && (a.Reference? ==> a.x in Known(s.gen))
    ensures AlwaysAgreed(Do(s, a)) <==> !Misleads(s, a)
  {
    hide ClientInv, Ordered, NoticesAreDead, Told, ToldAt, Agreement, Doable, Orderly, After, Enabled, Do, Names, Known;
    if Misleads(s, a) {
      MisledIsFit(s, a.x);
      var run := ToldFails(Do(s, a), a.x);
    } else {
      BaseKept(s, a);
      EndingKept(s, a);
      ToldKept(s, a);
      ToldIsSafe(Do(s, a));
    }
  }

  /** A step is safe against leaks, in every thrifty future, exactly unless it forgets. */
  lemma ReleaseSafeIff(s: Pair, a: Action)
    requires Fit(s) && Kept(s) && Enabled(s, a)
    ensures NeverLeaks(Do(s, a)) <==> !Forgets(s, a)
  {
    hide ClientInv, Ordered, NoticesAreDead, Kept, KeptAt, NoLeak, Doable, Thrifty, After, Enabled, Do, Names, Known;
    if Forgets(s, a) {
      ForgetfulStaysFit(s, a);
      var x := ForgetfulLeaves(s, a);
      StillLeaks(Do(s, a), x);
    } else {
      BaseKept(s, a);
      EndingKept(s, a);
      KeptKept(s, a);
      KeptIsSafe(Do(s, a));
    }
  }

  // ----- the guards, in the caller's terms

  /** In the caller's terms. Short of exhaustion a reference misleads for a living ID that
      owes a Release and has none queued, nor one of what it hangs below while pending;
      with no control ID left, for one whose first queued Release finds it standing and
      has no Adopt behind it, and for a dead one of which nothing tells. */
  lemma MisleadsMeans(s: Pair, x: nat)
    requires Base(s) && Running(s) && Live(s.client) && x != 0 && x !in s.client.resources
    ensures x == s.gen.root ==> !Misleads(s, Reference(x))
    ensures x in s.gen.resources && x != s.gen.root ==>
        (Misleads(s, Reference(x)) <==>
          if s.client.controlId < MAX_ID then
            Owed(s.client, x) && s.client.controlId + 2 <= MAX_ID && Upheld(s.gen.resources, s.client.controls, x)
          else Unanswered(s.client.controls, x) && Upheld(s.gen.resources, UpToRelease(s.client.controls, x), x))
    ensures Adopted(s.gen, x) && x != s.gen.root ==>
        (Misleads(s, Reference(x)) <==>
          if s.client.controlId < MAX_ID then
            Owed(s.client, x) && s.client.controlId + 2 <= MAX_ID && !ReleaseQueued(s.client.controls, x)
          else Unanswered(s.client.controls, x))
    ensures x in s.gen.tombstones ==>
        (Misleads(s, Reference(x)) <==>
          && s.client.controlId == MAX_ID
          && !AdoptQueued(s.client.controls, x) && Released(x) !in s.gen.responses)
  {
    hide TableInv, SentInv, StageInv, Ordered, NoticesAreDead, Steer, Silent, Upheld, PendingAttached, SettledIds,
      Index, Distinct;
    CounterBound(s.client);
    var res, root, q := s.gen.resources, s.gen.root, s.client.controls;
    if x in res && x != root {
      UpheldStands(res, root, q, x);
      SilentByQueue(res, root, q, x);
      UpheldStands(res, root, UpToRelease(q, x), x);
    }
    if Adopted(s.gen, x) && x != root {
      AdoptedFate(res, root, q, x);
    }
  }

  /** x will stand adopted, as its caller can read it off the queue. */
  ghost predicate Due(s: Pair, x: nat)
    requires Planted(s.gen.resources)
  {
    && x != s.gen.root && Upheld(s.gen.resources, s.client.controls, x)
    && Latest(s.client.controls, x, Adopted(s.gen, x))
  }

  lemma WantedMeans(s: Pair, x: nat)
    requires Valid(s.gen) && x in Known(s.gen)
    ensures Wanted(s.gen, s.nextId, s.client.controls, x) <==> Due(s, x)
    ensures Adopted(s.gen, x) ==> (Due(s, x) <==> x != s.gen.root && !ReleaseQueued(s.client.controls, x))
  {
    hide Steer, PendingAttached, SettledIds, Index, Distinct;
    var res, root, q := s.gen.resources, s.gen.root, s.client.controls;
    if x in res && x != root {
      UpheldStands(res, root, q, x) by {
        assert PendingAttached(res);
      }
      FateByQueue(res, root, q, x);
      if !ReleaseQueued(q, x) {
        StaysLatest(q, x);
      }
    }
  }

  /** In the caller's terms: with no control ID left, releasing the last reference of a
      Resource forgets it if it is due to stand adopted, and no other incarnation owes its
      Release. An adopted one is due unless it is the root, or its Release is queued. */
  lemma ForgetsMeans(s: Pair, r: nat)
    requires Base(s) && Running(s) && r in s.client.begun
    requires var c := s.client; r < |c.refs| && c.refs[r] < |c.states| && c.states[c.refs[r]].id in Known(s.gen)
    ensures var c, k, x := s.client, s.client.refs[r], s.client.states[s.client.refs[r]].id;
      && (Forgets(s, RunReleaseTask(r, false)) <==>
            c.controlId == MAX_ID && LastReference(c, r) && Due(s, x) && !OwedBesides(c, x, k))
      && (Adopted(s.gen, x) ==> (Due(s, x) <==> x != s.gen.root && !ReleaseQueued(c.controls, x)))
  {
    hide ClientInv, Ordered, NoticesAreDead, Valid, Known, Due, Wanted, LastReference, OwedBesides;
    WantedMeans(s, s.client.states[s.client.refs[r]].id);
  }

  /** The same for a release that comes back from closing its routes: it forgets unless the
      ID was referenced anew meanwhile. */
  lemma ResumeForgets(s: Pair, k: nat)
    requires Base(s) && Running(s) && k in s.client.waiting && k < |s.client.states|
    requires s.client.states[k].id in Known(s.gen)
    ensures var c, x := s.client, s.client.states[k].id;
      Forgets(s, ResumeReleaseTask(k)) <==>
        c.controlId == MAX_ID && Due(s, x) && !OwedBesides(c, x, k) && x !in c.resources
  {
    hide ClientInv, Ordered, NoticesAreDead, Valid, Known, Due, Wanted, OwedBesides;
    WantedMeans(s, s.client.states[k].id);
  }

  /** The n-th Release of `_close` finds no control ID, for an ID that is due to stand
      adopted and that no Release sent ahead of it names. */
  ghost predicate CutOff(s: Pair, n: nat)
    requires Planted(s.gen.resources)
  {
    var c := s.client;
    && n < |c.closeList| && c.controlId + n >= MAX_ID && c.closeList[n] < |c.states|
    && Due(s, c.states[c.closeList[n]].id)
    && forall j | 0 <= j < n && c.controlId + j < MAX_ID && c.closeList[j] < |c.states| ::
         c.states[c.closeList[j]].id != c.states[c.closeList[n]].id
  }

  /** And for closing. */
  lemma CloseForgets(s: Pair)
    requires Base(s) && Running(s)
    requires StatesKnown(s.client.states, Known(s.gen))
    ensures Forgets(s, ReleaseAll) <==> exists n: nat :: CutOff(s, n)
  {
    hide ClientInv, Ordered, NoticesAreDead, Known, Due, Wanted;
    forall n: nat ensures LeftOut(s, n) <==> CutOff(s, n) {
      var c := s.client;
      if n < |c.closeList| && c.closeList[n] < |c.states| {
        assert c.closeList[n] in c.closeList;
        WantedMeans(s, c.states[c.closeList[n]].id);
      }
    }
  }

  /** And it is forgotten at once. */
  lemma ForgottenAtOnce(s: Pair, r: nat)
    requires Fit(s) && Kept(s) && r in s.client.begun
    requires var c := s.client; r < |c.refs| && c.refs[r] < |c.states| && Adopted(s.gen, c.states[c.refs[r]].id)
    ensures NoLeak(Do(s, RunReleaseTask(r, false))) <==> !Forgets(s, RunReleaseTask(r, false))
  {
    hide Kept, Names, NoticesAreDead, Ordered, Known, Valid, ClientInv, RunRelease, Forgets, Wanted, Owed,
      LastReference, OwedBesides, ReleaseQueued;
    var a := RunReleaseTask(r, false);
    if Forgets(s, a) {
      LiveIsKnown(s.gen, s.client.states[s.client.refs[r]].id);
      ForgetsMeans(s, r);
      ForgottenRun(s, r);
      ForgottenKeepsQueue(s.client, r);
      RunOnward(s.client, r, false);
    } else {
      BaseKept(s, a);
      EndingKept(s, a);
      KeptKept(s, a);
      KeptMeans(Do(s, a));
    }
  }

  // ----- how states come to fit

  /** Every run of a client that names known IDs stays so while it runs. */
  lemma RunStaysFit(s: Pair, run: seq<Action>)
    requires Opening(s) && Doable(s, run) && Faithful(s, run) && Running(After(s, run))
    ensures Fit(After(s, run))
    ensures Orderly(s, run) ==> Told(After(s, run))
    ensures Thrifty(s, run) ==> Kept(After(s, run))
  {
    hide Base, Do, Enabled, Told, Kept, Doable, After, Faithful;
    OpeningIsBase(s);
    OpeningIsTold(s);
    RunStaysHealthy(s, run);
    RunKeeps(s, run);
  }

  // ----- draining the queue

  lemma ConsumeStaysFit(s: Pair)
    requires Fit(s) && s.client.controls != [] && s.client.controls[0].Send?
    ensures var c, s' := s.client.controls[0].control, Do(s, Consume);
      && Fit(s') && ApplyControl(s.gen, c).Some? && s'.gen == ApplyControl(s.gen, c).value
      && s' == s.(client := s.client.(controls := s.client.controls[1..]), gen := s'.gen)
      && Known(s'.gen) == Known(s.gen)
  {
    hide ClientInv, Ordered, Valid, NoticesAreDead, Known, ApplyControl, StatesKnown;
    var q := s.client.controls;
    ConsumeKeepsOrder(s);
    assert q[0].control.body.id in Known(s.gen);
    KnownControlIsAccepted(s.gen, q[0].control);
    BaseKept(s, Consume);
    EndingKept(s, Consume);
    ConsumeIsSection(s);
    assert forall i | 0 <= i < |q| - 1 :: q[1..][i] == q[i + 1];
  }

  /** While something is held, the controls are not ended. */
  lemma HeldQueueSends(s: Pair, x: nat)
    requires Fit(s) && x in s.client.resources
    ensures s.client.controls != [] ==> s.client.controls[0].Send?
    ensures x in Known(s.gen) && Live(s.client)
  {
    hide Counted, Sends, Referred, Valid, NoticesAreDead, ControlsKnown, Known;
    TableEntry(s.client, x);
  }

  /** What will die unheard and is held makes the two ends disagree in the end. */
  lemma {:induction false} DrainTold(s: Pair, x: nat) returns (run: seq<Action>)
    requires Fit(s) && x in s.client.resources
    requires Dying(s.gen, s.nextId, s.client.controls, x) || Untold(s.gen, s.client.controls, x)
    ensures Doable(s, run) && Orderly(s, run) && !Agreement(After(s, run))
    decreases |s.client.controls|
  {
    hide ClientInv, Ordered, Valid, NoticesAreDead, Names, ApplyControl, ConsumeStep, Dying, Untold, Agreement, Known;
    HeldQueueSends(s, x);
    if s.client.controls == [] {
      run := [];
      DrainedDisagrees(s, x);
    } else {
      var t := Do(s, Consume);
      ConsumeStaysFit(s);
      FateAfterControl(s, t, s.client.controls[0].control, x);
      var rest := DrainTold(t, x);
      run := [Consume] + rest;
    }
  }

  lemma DrainedDisagrees(s: Pair, x: nat)
    requires Fit(s) && x in s.client.resources && s.client.controls == []
    requires Dying(s.gen, s.nextId, [], x) || Untold(s.gen, [], x)
    ensures !Agreement(s)
  {
    hide ClientInv, Ordered, NoticesAreDead, ControlsKnown;
    HeldQueueSends(s, x);
  }

  /** What will stand adopted and nobody answers for leaks in the end. */
  lemma {:induction false} DrainKept(s: Pair, x: nat) returns (run: seq<Action>)
    requires Fit(s) && x !in s.client.resources && !Owed(s.client, x)
    requires Wanted(s.gen, s.nextId, s.client.controls, x)
    ensures Doable(s, run) && Thrifty(s, run) && !NoLeak(After(s, run))
    decreases |s.client.controls|
  {
    hide ClientInv, Ordered, Valid, NoticesAreDead, Names, ApplyControl, ConsumeStep, Wanted, NoLeak, Known, Owed;
    if s.client.controls == [] || s.client.controls[0] == QueueEnd {
      run := [];
      DrainedLeaks(s, x);
    } else {
      var t := Do(s, Consume);
      ConsumeStaysFit(s);
      TakenControlSame(s.client);
      FateAfterControl(s, t, s.client.controls[0].control, x);
      var rest := DrainKept(t, x);
      run := [Consume] + rest;
    }
  }

  lemma DrainedLeaks(s: Pair, x: nat)
    requires Fit(s) && x !in s.client.resources && !Owed(s.client, x)
    requires Wanted(s.gen, s.nextId, s.client.controls, x)
    requires s.client.controls == [] || s.client.controls[0] == QueueEnd
    ensures !NoLeak(s)
  {
    hide ClientInv, NoticesAreDead, ControlsKnown, StatesKnown, Owed;
    if s.client.controls != [] {
      assert s.client.controls == [] + [QueueEnd];
      EndMore(s.gen, s.nextId, [], x);
    }
    assert Wanted(s.gen, s.nextId, [], x);
    assert !ReleaseQueued(s.client.controls, x);
  }

  // ----- the invariants are the statements, for ever

  lemma WaitingWitness(c: Client, x: nat) returns (k: nat)
    requires ClientInv(c) && Live(c) && Owed(c, x)
    ensures k in c.waiting && k < |c.states| && c.states[k].id == x
  {
    k :| k in Owing(c) && k < |c.states| && c.states[k].id == x;
    hide Tabled, Referred, Counted;
    StageEarly(c);
  }

  lemma ResumeDooms(s: Pair, x: nat, k: nat)
    requires Fit(s) && Live(s.client) && x in s.client.resources && s.client.controlId < MAX_ID
    requires k in s.client.waiting && k < |s.client.states| && s.client.states[k].id == x
    requires Stands(s.gen, s.nextId, s.client.controls, x)
    ensures var t := Do(s, ResumeReleaseTask(k));
      && Fit(t) && x in t.client.resources && Dying(t.gen, t.nextId, t.client.controls, x)
  {
    hide ClientInv, Ordered, Valid, NoticesAreDead, Stands, Dying, StatesKnown, ControlsKnown;
    var c := s.client;
    BaseKept(s, ResumeReleaseTask(k));
    EndingKept(s, ResumeReleaseTask(k));
    SendReleaseNames(c.(waiting := c.waiting - {k}), k, Known(s.gen));
    ReleaseMore(s.gen, s.nextId, c.controls, Send(Control(c.controlId + 1, Release(x))), x, x);
  }

  lemma ToldFails(s: Pair, x: nat) returns (run: seq<Action>)
    requires Fit(s) && x in s.client.resources && !ToldAt(s, x)
    ensures Doable(s, run) && Orderly(s, run) && !Agreement(After(s, run))
  {
    hide ClientInv, Ordered, Valid, NoticesAreDead, Names, Stands, Dying, Untold, Agreement, ResumeRelease, Known;
    HeldQueueSends(s, x);
    if Dying(s.gen, s.nextId, s.client.controls, x) || Untold(s.gen, s.client.controls, x) {
      run := DrainTold(s, x);
    } else {
      var k := WaitingWitness(s.client, x);
      ResumeDooms(s, x, k);
      var rest := DrainTold(Do(s, ResumeReleaseTask(k)), x);
      run := [ResumeReleaseTask(k)] + rest;
    }
  }

  lemma ToldIsSafe(s: Pair)
    requires Base(s) && Ending(s) && Told(s)
    ensures AlwaysAgreed(s)
  {
    hide Base, Ending, Told, Agreement, Doable, Orderly, After;
    forall run | Doable(s, run) && Orderly(s, run) ensures Agreement(After(s, run)) {
      RunKeeps(s, run);
      ToldMeans(After(s, run));
    }
  }

  lemma KeptIsSafe(s: Pair)
    requires Base(s) && Ending(s) && Kept(s)
    ensures NeverLeaks(s)
  {
    hide Base, Ending, Kept, NoLeak, Doable, Thrifty, After;
    forall run | Doable(s, run) && Thrifty(s, run) ensures NoLeak(After(s, run)) {
      RunKeeps(s, run);
      KeptMeans(After(s, run));
    }
  }

  // ----- which references mislead

  lemma MisledIsFit(s: Pair, x: nat)
    requires Fit(s) && Misleads(s, Reference(x)) && x in Known(s.gen)
    ensures var t := Do(s, Reference(x)); Fit(t) && x in t.client.resources && !ToldAt(t, x)
  {
    hide ClientInv, Ordered, Valid, NoticesAreDead, Stands, Dying, Untold, StatesKnown, ControlsKnown, Owed;
    var c, t := s.client, Do(s, Reference(x));
    BaseKept(s, Reference(x));
    EndingKept(s, Reference(x));
    ReferenceNames(c, x, Known(s.gen));
    OwedWithEntry(c, t.client);
    if CanEnqueue(c) {
      AdoptMore(s.gen, s.nextId, c.controls, Send(Control(c.controlId + 1, Adopt(x))), x, x);
    }
  }

  // ----- which releases forget

  lemma ForgottenResume(s: Pair, k: nat)
    requires ClientInv(s.client) && k in s.client.waiting && s.client.controlId == MAX_ID
    requires LastToAnswer(s, k) && s.client.states[k].id !in s.client.resources
    ensures var t := s.(client := ResumeRelease(s.client, k)); !KeptAt(t, s.client.states[k].id)
  {
    hide Wanted, ClientInv;
    NoLongerWaiting(s.client, k);
    var t := s.(client := ResumeRelease(s.client, k));
    assert Owing(t.client) == Owing(s.client) - {k};
    OwedAfter(s.client, t.client, k);
  }

  lemma ForgottenRun(s: Pair, r: nat)
    requires ClientInv(s.client) && r in s.client.begun && Forgets(s, RunReleaseTask(r, false))
    ensures s.client.refs[r] < |s.client.states|
    ensures var t := s.(client := RunRelease(s.client, r, false)); !KeptAt(t, s.client.states[s.client.refs[r]].id)
  {
    hide ClientInv, RunRelease, ResumeRelease, LastReference, Wanted, OwedBesides;
    RunIsWaitThenResume(s.client, r);
    RunWaitsShape(s.client, r);
    RunReleaseKeeps(s.client, r, true);
    var k, w := s.client.refs[r], RunRelease(s.client, r, true);
    LastEitherWay(s, s.(client := w), k);
    ForgottenResume(s.(client := w), k);
  }

  /** Sending Releases of other IDs leaves x wanted. */
  lemma {:induction false} WantedAfterSends(g: Gen, n: nat, c: Client, ks: seq<nat>, x: nat)
    requires Valid(g) && Wanted(g, n, c.controls, x) && c.terminal == Open && c.controlId <= MAX_ID
    requires forall j | 0 <= j < |ks| :: ks[j] < |c.states| && (c.controlId + j < MAX_ID ==> c.states[ks[j]].id != x)
    ensures Wanted(g, n, SendReleases(c, ks).controls, x)
    decreases |ks|
  {
    hide Valid, Wanted;
    if ks != [] {
      var c' := SendRelease(c, ks[0]);
      if c.controlId < MAX_ID {
        var id := c.states[ks[0]].id;
        ReleaseMore(g, n, c.controls, Send(Control(c.controlId + 1, Release(id))), id, x);
      }
      forall j | 0 <= j < |ks[1..]|
        ensures ks[1..][j] < |c.states| && (c'.controlId + j < MAX_ID ==> c.states[ks[1..][j]].id != x)
      {
        assert ks[1..][j] == ks[j + 1];
      }
      WantedAfterSends(g, n, c', ks[1..], x);
    }
  }

  lemma ForgottenClose(s: Pair, i: nat)
    requires Valid(s.gen) && ClientInv(s.client) && s.client.closeStage == 1 && s.client.waiting == {}
    requires s.client.terminal == Open && LeftOut(s, i)
    ensures var t := s.(client := CloseRelease(s.client)); !KeptAt(t, s.client.states[s.client.closeList[i]].id)
  {
    hide Valid, Wanted, TableInv, CounterInv;
    var c, ks := s.client, s.client.closeList;
    TakenListKeeps(c);
    CounterBound(c);
    var c1 := c.(closeList := [], closeStage := 2);
    assert forall j | 0 <= j < |ks| :: ks[j] in ks;
    WantedAfterSends(s.gen, s.nextId, c1, ks, c.states[ks[i]].id);
    SendReleasesExact(c1, ks);
    SendReleasesTable(c1, ks);
    assert Owing(c1) == {};
  }

  lemma {:induction false} SendReleasesTable(c: Client, ks: seq<nat>)
    ensures SendReleases(c, ks).resources == c.resources
    decreases |ks|
  {
    if ks != [] {
      SendReleasesTable(SendRelease(c, ks[0]), ks[1..]);
    }
  }

  lemma ForgetfulStaysFit(s: Pair, a: Action)
    requires Fit(s) && Enabled(s, a) && Forgets(s, a)
    ensures Fit(Do(s, a)) && AtClient(a)
  {
    hide ClientInv, Ordered, Valid, NoticesAreDead, Known, StatesKnown, ControlsKnown, RunRelease, SendReleases,
      LastToAnswer, LeftOut;
    BaseKept(s, a);
    EndingKept(s, a);
    ClientStepNames(s, a);
    ClientOnward(s, a);
  }

  lemma ForgetfulLeaves(s: Pair, a: Action) returns (x: nat)
    requires Fit(s) && Enabled(s, a) && Forgets(s, a)
    ensures !KeptAt(Do(s, a), x)
  {
    hide Ordered, Valid, NoticesAreDead, Known, Names, RunRelease, ResumeRelease, CloseRelease, LeftOut, KeptAt,
      ClientInv;
    match a
    case RunReleaseTask(r, routesOpen) =>
      ForgottenRun(s, r);
      x := s.client.states[s.client.refs[r]].id;
    case ResumeReleaseTask(k) =>
      ForgottenResume(s, k);
      x := s.client.states[k].id;
    case ReleaseAll =>
      var i: nat :| LeftOut(s, i);
      ForgottenClose(s, i);
      LeftOutInRange(s, i);
      x := s.client.states[s.client.closeList[i]].id;
  }

  lemma LeftOutInRange(s: Pair, i: nat)
    ensures LeftOut(s, i) ==> i < |s.client.closeList| && s.client.closeList[i] < |s.client.states|
  {
  }

  lemma StillLeaks(s: Pair, x: nat)
    requires Fit(s) && !KeptAt(s, x)
    ensures !NeverLeaks(s)
  {
    hide Base, Names, NoLeak, Doable, Thrifty, After, Wanted, Owed;
    var run := DrainKept(s, x);
  }

  lemma ForgottenKeepsQueue(c: Client, r: nat)
    ensures c.controlId == MAX_ID ==> RunRelease(c, r, false).controls == c.controls
  {
  }

  // ----- over runs

  /** In every running state that an orderly, faithful run reaches, the next step is safe
      for agreement exactly unless it misleads. */
  lemma MisleadingExactly(s: Pair, run: seq<Action>, a: Action)
    requires Opening(s) && Doable(s, run) && Orderly(s, run) && Faithful(s, run) && Running(After(s, run))
    requires Enabled(After(s, run), a) && (a.Reference? ==> a.x in Known(After(s, run).gen))
    ensures Valid(After(s, run).gen) && (AlwaysAgreed(Do(After(s, run), a)) <==> !Misleads(After(s, run), a))
  {
    hide Doable, After, Orderly, Thrifty, Faithful, Enabled, Do, Known, Told, Kept, Names, AlwaysAgreed, Misleads,
      ClientInv, Ordered, NoticesAreDead, Valid;
    RunStaysFit(s, run);
    ReferenceSafeIff(After(s, run), a);
  }

  /** And in every running state of a thrifty, faithful one, safe against leaks exactly
      unless it forgets: misleading steps may have gone before. */
  lemma ForgettingExactly(s: Pair, run: seq<Action>, a: Action)
    requires Opening(s) && Doable(s, run) && Thrifty(s, run) && Faithful(s, run) && Running(After(s, run))
    requires Enabled(After(s, run), a)
    ensures Valid(After(s, run).gen) && (NeverLeaks(Do(After(s, run), a)) <==> !Forgets(After(s, run), a))
  {
    hide Doable, After, Orderly, Thrifty, Faithful, Enabled, Do, Known, Told, Kept, Names, NeverLeaks, Forgets,
      ClientInv, Ordered, NoticesAreDead, Valid;
    RunStaysFit(s, run);
    ReleaseSafeIff(After(s, run), a);
  }
}
