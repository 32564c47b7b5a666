/** The two ends of one generation joined by two FIFO queues: the client's controls
    and the generation's responses. A run interleaves client tasks, the server's
    lifecycle sections, its handlers, and ID allocation for other generations. */
module ResourceProtocol {
  import opened Options
  import opened SortedSets
  import opened ResourceForest
  import opened ResourceGeneration
  import opened ResourceClientSpec

  /** `consuming` says that the server still reads this generation's controls. */
  datatype Pair = Pair(client: Client, gen: Gen, consuming: bool, nextId: nat)

  datatype Action =
    // the client's public calls and task steps
    | Reference(x: nat)
    | CloneRef(r: nat)
    | StartRelease(r: nat)
    | RunReleaseTask(r: nat, routesOpen: bool)
    | ResumeReleaseTask(k: nat)
    | StartClose
    | ReleaseAll
    | EndControls
    | FinishClosing
    | StreamFails
    | Receive
    // the server's sections
    | Consume
    | Construct(parent: nat)
    | Revoke(x: nat, caller: Option<nat>)
    | RouteOpens(x: nat, route: nat)
    | RouteCloses(x: nat, route: nat)
    | EndGeneration(caller: Option<nat>)
    | AllocateElsewhere

  predicate Enabled(s: Pair, a: Action) {
    var c := s.client;
    match a
    case Reference(x) => true
    case CloneRef(r) => r < |c.refs|
    case StartRelease(r) => r < |c.refs|
    case RunReleaseTask(r, _) => r in c.begun
    case ResumeReleaseTask(k) => k in c.waiting
    case StartClose => c.terminal == Open && !c.closing
    case ReleaseAll => c.closeStage == 1 && c.waiting == {}
    case EndControls => c.closeStage == 2 && (c.acked >= c.controlId || c.controlId !in c.waiters)
    case FinishClosing => c.closeStage == 3 && c.controls == []
    case StreamFails => true
    case Receive => c.terminal == Open && s.gen.responses != []
    case Consume => s.consuming && c.controls != []
    case Construct(parent) => !s.gen.closing && parent in s.gen.resources
    case Revoke(x, _) => true
    case RouteOpens(x, _) => x in s.gen.resources
    case RouteCloses(x, _) => true
    case EndGeneration(_) => true
    case AllocateElsewhere => true
  }

  /** The server takes the next control, or meets the end of the stream. */
  ghost function ConsumeStep(s: Pair): Pair
    requires Planted(s.gen.resources) && s.client.controls != []
  {
    var c := s.client.(controls := s.client.controls[1..]);
    match s.client.controls[0]
    case QueueEnd => s.(client := c, gen := s.gen.(responses := s.gen.responses + [End]), consuming := false)
    case Send(control) =>
      match ApplyControl(s.gen, control)
      case Some(g) => s.(client := c, gen := g)
      case None => s.(client := c, gen := s.gen.(responses := s.gen.responses + [Failure]), consuming := false)
  }

  ghost function ConstructStep(s: Pair, parent: nat): Pair {
    var id := s.nextId + 1;
    if id > MAX_ID then s.(nextId := id) else s.(nextId := id, gen := ConstructChild(s.gen, parent, id))
  }

  ghost function Do(s: Pair, a: Action): Pair
    requires Valid(s.gen) && Enabled(s, a)
  {
    var c, g := s.client, s.gen;
    match a
    case Reference(x) => s.(client := CreateReference(c, x).0)
    case CloneRef(r) => s.(client := Clone(c, r).0)
    case StartRelease(r) => s.(client := BeginRelease(c, r))
    case RunReleaseTask(r, routesOpen) => s.(client := RunRelease(c, r, routesOpen))
    case ResumeReleaseTask(k) => s.(client := ResumeRelease(c, k))
    case StartClose => s.(client := BeginClose(c))
    case ReleaseAll => s.(client := CloseRelease(c))
    case EndControls => s.(client := FinishClose(c))
    case FinishClosing => s.(client := ClosedDown(c))
    case StreamFails => s.(client := RetireGeneration(c))
    case Receive => s.(client := Handle(c, g.responses[0]), gen := g.(responses := g.responses[1..]))
    case Consume => ConsumeStep(s)
    case Construct(parent) => ConstructStep(s, parent)
    case Revoke(x, caller) => s.(gen := ReleaseResource(g, x, true, true, caller).0)
    case RouteOpens(x, route) => s.(gen := OpenRoute(g, x, route))
    case RouteCloses(x, route) => s.(gen := CloseRoute(g, x, route))
    case EndGeneration(caller) => s.(gen := Teardown(g, caller))
    case AllocateElsewhere => s.(nextId := s.nextId + 1)
  }

  ghost predicate Opening(s: Pair) {
    && s.client == Fresh() && s.gen == Opened(s.gen.root) && s.consuming
    && 0 < s.gen.root <= s.nextId
  }

  // ----- what every step of every run keeps

  /** The acknowledgements in a response queue, oldest first. */
  function AckIds(rs: seq<Response>): seq<nat> {
    if rs == [] then [] else (if rs[0].Ack? then [rs[0].controlId] else []) + AckIds(rs[1..])
  }

  lemma {:induction false} AckIdsConcat(a: seq<Response>, b: seq<Response>)
    ensures AckIds(a + b) == AckIds(a) + AckIds(b)
  {
    if a == [] {
      assert a + b == b;
    } else {
      assert (a + b)[0] == a[0] && (a + b)[1..] == a[1..] + b;
      AckIdsConcat(a[1..], b);
      var head, x, y := if a[0].Ack? then [a[0].controlId] else [], AckIds(a[1..]), AckIds(b);
      assert AckIds(a) == head + x && AckIds(a + b) == head + AckIds(a[1..] + b);
      hide AckIds;
      assert head + (x + y) == head + x + y;
    }
  }

  lemma {:induction false} NoticesHaveNoAcks(rs: seq<Resource>, target: nat, notifyTarget: bool)
    ensures AckIds(Notices(rs, target, notifyTarget)) == []
  {
    if rs != [] {
      NoticesHaveNoAcks(rs[1..], target, notifyTarget);
      var head := if notifyTarget || rs[0].id != target then [Released(rs[0].id)] else [];
      AckIdsConcat(head, Notices(rs[1..], target, notifyTarget));
    }
  }

  /** The queued controls are the server's last ID + 1 up to the client's last ID. */
  ghost predicate ControlsInOrder(s: Pair) {
    var q, last := s.client.controls, s.gen.lastControlId;
    var n := if s.client.requestClosed then |q| - 1 else |q|;
    && 0 <= n && last + n == s.client.controlId
    && (s.client.requestClosed ==> q[n] == QueueEnd)
    && (forall i | 0 <= i < n :: q[i].Send? && q[i].control.controlId == last + 1 + i && !q[i].control.body.Init?)
  }

  /** The queued acknowledgements are the client's acked ID + 1 up to the server's last ID. */
  ghost predicate AcksInOrder(s: Pair) {
    var acks := AckIds(s.gen.responses);
    && s.client.acked + |acks| == s.gen.lastControlId <= s.client.controlId
    && (forall i | 0 <= i < |acks| :: acks[i] == s.client.acked + 1 + i)
  }

  ghost predicate NoticesAreDead(g: Gen) {
    forall r | r in g.responses && r.Released? :: r.id in g.tombstones
  }

  ghost predicate Base(s: Pair) {
    && Valid(s.gen) && ClientInv(s.client)
    && NoticesAreDead(s.gen)
    && (forall x | x in Known(s.gen) :: x <= s.nextId)
    && Ordered(s)
  }

  /** Both queue orders, while the client is open. */
  ghost predicate Ordered(s: Pair) {
    s.client.terminal == Open ==> (s.consuming ==> ControlsInOrder(s)) && AcksInOrder(s)
  }

  lemma OpeningIsBase(s: Pair)
    requires Opening(s)
    ensures Base(s) && Ending(s)
  {
    OpenedValid(s.gen.root);
    assert Owing(s.client) == {};
  }

  // ----- Base: client steps

  lemma SendReleaseKeepsOrder(s: Pair, k: nat)
    ensures Ordered(s) && !s.client.requestClosed ==>
        && Ordered(s.(client := SendRelease(s.client, k)))
        && !SendRelease(s.client, k).requestClosed && SendRelease(s.client, k).terminal == s.client.terminal
  {
  }

  lemma {:induction false} SendReleasesKeepOrder(s: Pair, ks: seq<nat>)
    requires Ordered(s) && !s.client.requestClosed
    ensures Ordered(s.(client := SendReleases(s.client, ks)))
    decreases |ks|
  {
    if ks != [] {
      SendReleaseKeepsOrder(s, ks[0]);
      SendReleasesKeepOrder(s.(client := SendRelease(s.client, ks[0])), ks[1..]);
    }
  }

  lemma CreateReferenceKeepsOrder(s: Pair, x: nat)
    ensures Ordered(s) && ClientInv(s.client) ==> Ordered(s.(client := CreateReference(s.client, x).0))
  {
  }

  lemma RunReleaseKeepsOrder(s: Pair, r: nat, routesOpen: bool)
    requires Ordered(s) && ClientInv(s.client) && r in s.client.begun
    ensures Ordered(s.(client := RunRelease(s.client, r, routesOpen)))
  {
    DropRefKeeps(s.client, r);
    var k, c1 := s.client.refs[r], DropRef(s.client, r);
    OrderIsOfQueues(s, RunRelease(s.client, r, routesOpen));
    if c1.states[k].refs == {} && !c1.states[k].terminal {
      NotYetClosed(c1, k);
      var c2 := Retire(c1, k);
      assert c2.requestClosed == c1.requestClosed && c2.terminal == c1.terminal;
      hide ClientInv;
      OrderIsOfQueues(s, c2);
      if !routesOpen && c2.terminal == Open {
        hide Retire, DropRef, Ordered, SendRelease;
        SendReleaseKeepsOrder(s.(client := c2), k);
      }
    }
  }

  /** The order is that of the queues and the counters. */
  lemma OrderIsOfQueues(s: Pair, c: Client)
    requires Ordered(s)
    ensures var was := s.client;
      (c.terminal == was.terminal && c.controls == was.controls && c.controlId == was.controlId
       && c.acked == was.acked && c.requestClosed == was.requestClosed)
      ==> Ordered(s.(client := c))
  {
  }

  /** A live incarnation, or one that still owes, means the stream is not ended. */
  lemma NotYetClosed(c: Client, k: nat)
    requires ClientInv(c) && k < |c.states| && (!c.states[k].terminal || k in Owing(c))
    ensures c.terminal == Open ==> !c.requestClosed
  {
  }

  lemma ResumeReleaseKeepsOrder(s: Pair, k: nat)
    requires Ordered(s) && ClientInv(s.client) && k in s.client.waiting
    ensures Ordered(s.(client := ResumeRelease(s.client, k)))
  {
    var c1 := s.client.(waiting := s.client.waiting - {k});
    assert k in Owing(s.client);
    NotYetClosed(s.client, k);
    if c1.terminal == Open {
      SendReleaseKeepsOrder(s.(client := c1), k);
    }
  }

  lemma CloseReleaseKeepsOrder(s: Pair)
    requires Ordered(s) && ClientInv(s.client) && s.client.closeStage == 1
    ensures Ordered(s.(client := CloseRelease(s.client)))
  {
    var c1 := s.client.(closeList := [], closeStage := 2);
    if s.client.terminal == Open {
      SendReleasesKeepOrder(s.(client := c1), s.client.closeList);
    }
  }

  /** Handling a response moves only the acknowledgement count, unless it fails. */
  lemma HandleShape(c: Client, r: Response)
    requires c.terminal == Open
    ensures var c' := Handle(c, r);
      c'.terminal == Open ==>
        && c'.controls == c.controls && c'.controlId == c.controlId && c'.requestClosed == c.requestClosed
        && c'.acked == (if r.Ack? then r.controlId else c.acked)
  {
  }

  lemma HeadAck(s: Pair)
    requires AcksInOrder(s) && ClientInv(s.client) && s.client.terminal == Open && s.gen.responses != []
    ensures var r, rest := s.gen.responses[0], AckIds(s.gen.responses[1..]);
      && (r.Ack? ==> AckExpected(s.client, r.controlId))
      && s.client.acked + (if r.Ack? then 1 else 0) + |rest| == s.gen.lastControlId
      && (forall i | 0 <= i < |rest| :: rest[i] == s.client.acked + (if r.Ack? then 1 else 0) + 1 + i)
  {
    var rs := s.gen.responses;
    var acks, rest := AckIds(rs), AckIds(rs[1..]);
    if rs[0].Ack? {
      assert acks[0] == rs[0].controlId;
      assert forall i | 0 <= i < |rest| :: rest[i] == acks[i + 1];
    } else {
      assert acks == rest;
    }
  }

  lemma ReceiveKeepsOrder(s: Pair)
    requires Ordered(s) && ClientInv(s.client) && s.client.terminal == Open && s.gen.responses != []
    ensures Ordered(s.(client := Handle(s.client, s.gen.responses[0]),
                       gen := s.gen.(responses := s.gen.responses[1..])))
    ensures s.gen.responses[0].Ack? ==> AckExpected(s.client, s.gen.responses[0].controlId)
  {
    hide Handle, ClientInv;
    HandleShape(s.client, s.gen.responses[0]);
    HeadAck(s);
  }

  // ----- Base: server steps

  /** What a server section does to its own generation. */
  ghost predicate ServerSection(g: Gen, g': Gen) {
    && Valid(g') && NoticesAreDead(g') && Known(g) <= Known(g') && g.tombstones <= g'.tombstones
    && g'.root == g.root && (g.closing ==> g'.closing)
  }

  lemma ReleaseIsSection(g: Gen, x: nat, notifyTarget: bool, caller: Option<nat>)
    requires Valid(g) && NoticesAreDead(g)
    ensures var g' := ReleaseResource(g, x, notifyTarget, true, caller).0;
      && ServerSection(g, g') && Known(g') == Known(g)
      && AckIds(g'.responses) == AckIds(g.responses) && g'.lastControlId == g.lastControlId
  {
    ReleaseValid(g, x, notifyTarget, caller);
    if !g.closing && x in g.resources {
      var ids := Batch(g.resources, x, x == g.root);
      var rs := Picked(g.resources, ids);
      BatchIsClosed(g, x);
      NoticesHaveNoAcks(rs, x, notifyTarget);
      AckIdsConcat(g.responses, Notices(rs, x, notifyTarget));
      BatchNoticesDead(g, ids, x, notifyTarget);
    }
  }

  lemma BatchNoticesDead(g: Gen, ids: seq<nat>, x: nat, notifyTarget: bool)
    requires Planted(g.resources) && forall y | y in ids :: y in g.resources
    ensures forall r | r in Notices(Picked(g.resources, ids), x, notifyTarget) :: r.Released? && r.id in ids
    ensures forall y | y in ids && (notifyTarget || y != x) ::
        Released(y) in Notices(Picked(g.resources, ids), x, notifyTarget)
  {
    var rs := Picked(g.resources, ids);
    forall i | 0 <= i < |ids| ensures rs[i].id == ids[i] {
      assert ids[i] in ids;
    }
    forall r | r in Notices(rs, x, notifyTarget) ensures r.Released? && r.id in ids {
      NoticesExact(rs, x, notifyTarget, r);
    }
    forall y | y in ids && (notifyTarget || y != x) ensures Released(y) in Notices(rs, x, notifyTarget) {
      var i :| 0 <= i < |ids| && ids[i] == y;
      assert rs[i] in rs;
      NoticesExact(rs, x, notifyTarget, Released(y));
    }
  }

  lemma ConsumeIsSection(s: Pair)
    requires Base(s) && s.consuming && s.client.controls != []
    ensures ServerSection(s.gen, ConsumeStep(s).gen) && Known(ConsumeStep(s).gen) == Known(s.gen)
    ensures ClientInv(ConsumeStep(s).client)
  {
    hide Valid, ClientInv, ApplyControl, NoticesAreDead, Known, ServerSection;
    ValidIsPlanted(s.gen);
    var g := s.gen;
    ControlsAreNotKept(s.client, s.client.controls[1..]);
    match s.client.controls[0]
    case QueueEnd =>
      AnswerIsSection(g, End);
    case Send(control) =>
      if ApplyControl(g, control).Some? {
        ApplyIsSection(g, control);
      } else {
        AnswerIsSection(g, Failure);
      }
  }

  lemma ControlsAreNotKept(c: Client, q: seq<Item>)
    ensures ClientInv(c) ==> ClientInv(c.(controls := q))
  {
    hide Tabled, Referred, Counted, Sends, Distinct;
  }

  lemma AnswerIsSection(g: Gen, r: Response)
    ensures Valid(g) && NoticesAreDead(g) && !r.Released? ==>
        var g' := g.(responses := g.responses + [r]); ServerSection(g, g') && Known(g') == Known(g)
  {
    var g' := g.(responses := g.responses + [r]);
    assert SettledIds(g') == SettledIds(g);
  }

  lemma ApplyIsSection(g: Gen, control: Control)
    requires Valid(g) && NoticesAreDead(g) && ApplyControl(g, control).Some?
    ensures var g' := ApplyControl(g, control).value;
      && ServerSection(g, g') && Known(g') == Known(g)
      && g'.lastControlId == control.controlId
      && AckIds(g'.responses) == AckIds(g.responses) + [control.controlId]
  {
    hide Valid, ReleaseResource, Notices, NoticesAreDead;
    ValidIsPlanted(g);
    ApplyControlValid(g, control);
    var g' := ApplyControl(g, control).value;
    var id := control.controlId;
    match control.body
    case Adopt(x) =>
      var mid := AdoptResource(g, x).value;
      AckIdsConcat(mid.responses, [Ack(id)]);
      AckIdsConcat(g.responses, [Released(x)]);
      NoticesDead(g, mid, Released(x));
      NoticesDead(mid, g', Ack(id));
    case Release(x) =>
      ReleaseIsSection(g, x, false, None);
      var mid := ReleaseResource(g, x, false, true, None).0;
      AckIdsConcat(mid.responses, [Ack(id)]);
      NoticesDead(mid, g', Ack(id));
  }

  lemma NoticesDead(g: Gen, g': Gen, r: Response)
    requires NoticesAreDead(g) && g'.tombstones == g.tombstones
    requires || g'.responses == g.responses
             || (g'.responses == g.responses + [r] && (r.Released? ==> r.id in g.tombstones))
    ensures NoticesAreDead(g')
  {
  }

  /** An applied control is acknowledged behind the notices it caused, and nothing else
      is added. */
  lemma AckFollowsNotices(g: Gen, control: Control)
    requires Valid(g) && ApplyControl(g, control).Some?
    ensures var was, now := g.responses, ApplyControl(g, control).value.responses;
      && |was| < |now| && now[..|was|] == was && now[|now| - 1] == Ack(control.controlId)
      && forall i | |was| <= i < |now| - 1 :: now[i].Released?
  {
    if control.body.Release? {
      ReleaseApplied(g, control);
      ReleaseAnnounces(g, control.body.id, false, None);
      var mid := ReleaseResource(g, control.body.id, false, true, None).0;
      AnnouncedAreNotices(g, mid, mid.responses[|g.responses|..], {control.body.id});
      hide ApplyControl, ReleaseResource, Valid, Announced;
      NoticesThenAck(g.responses, mid.responses, control.controlId);
    }
  }

  lemma ReleaseApplied(g: Gen, control: Control)
    requires Planted(g.resources) && ApplyControl(g, control).Some? && control.body.Release?
    ensures ApplyControl(g, control).value.responses
         == ReleaseResource(g, control.body.id, false, true, None).0.responses + [Ack(control.controlId)]
  {
    hide ReleaseResource, Planted;
  }

  lemma AnnouncedAreNotices(g: Gen, g': Gen, rs: seq<Response>, silent: set<nat>)
    requires Planted(g.resources)
    ensures Announced(g, g', rs, silent) ==> forall i | 0 <= i < |rs| :: rs[i].Released?
  {
  }

  lemma NoticesThenAck(was: seq<Response>, mid: seq<Response>, n: nat)
    requires |was| <= |mid| && mid[..|was|] == was && forall i | 0 <= i < |mid[|was|..]| :: mid[|was|..][i].Released?
    ensures var now := mid + [Ack(n)];
      && |was| < |now| && now[..|was|] == was && now[|now| - 1] == Ack(n)
      && forall i | |was| <= i < |now| - 1 :: now[i].Released?
  {
    var now := mid + [Ack(n)];
    forall i | |was| <= i < |now| - 1 ensures now[i].Released? {
      assert now[i] == mid[|was|..][i - |was|];
    }
  }

  lemma ConsumeKeepsOrder(s: Pair)
    requires Base(s) && s.consuming && s.client.controls != []
    ensures Ordered(ConsumeStep(s))
    ensures s.client.terminal == Open && s.client.controls[0].Send? ==>
        s.client.controls[0].control.controlId == s.gen.lastControlId + 1 != 0
        && !s.client.controls[0].control.body.Init?
  {
    hide Valid, ClientInv, ApplyControl, NoticesAreDead, Known;
    ValidIsPlanted(s.gen);
    if s.client.terminal == Open {
      match s.client.controls[0]
      case QueueEnd =>
        AckIdsConcat(s.gen.responses, [End]);
      case Send(control) =>
        if ApplyControl(s.gen, control).Some? {
          ApplyIsSection(s.gen, control);
          ConsumedOrder(s, ApplyControl(s.gen, control).value);
        } else {
          AckIdsConcat(s.gen.responses, [Failure]);
        }
    }
  }

  /** A step of the client alone. */
  predicate AtClient(a: Action) {
    a.Reference? || a.CloneRef? || a.StartRelease? || a.RunReleaseTask? || a.ResumeReleaseTask?
    || a.StartClose? || a.ReleaseAll? || a.EndControls? || a.FinishClosing? || a.StreamFails?
  }

  lemma ClientStepKeepsBase(s: Pair, a: Action)
    requires Base(s) && Enabled(s, a) && AtClient(a)
    ensures ClientInv(Do(s, a).client) && Ordered(Do(s, a))
  {
    hide ClientInv, Ordered, Valid, NoticesAreDead, Known, CreateReference, BeginRelease, RunRelease, ResumeRelease,
      BeginClose, CloseRelease, FinishClose, RetireGeneration;
    var c := s.client;
    match a
    case Reference(x) =>
      CreateReferenceKeeps(c, x);
      CreateReferenceKeepsOrder(s, x);
    case CloneRef(r) =>
      if RefLive(c, r) {
        CreateReferenceKeeps(c, c.states[c.refs[r]].id);
        CreateReferenceKeepsOrder(s, c.states[c.refs[r]].id);
      }
    case StartRelease(r) =>
      BeginReleaseKeeps(c, r);
      BeginReleaseKeepsOrder(s, r);
    case RunReleaseTask(r, routesOpen) =>
      RunReleaseKeeps(c, r, routesOpen);
      RunReleaseKeepsOrder(s, r, routesOpen);
    case ResumeReleaseTask(k) =>
      ResumeReleaseKeeps(c, k);
      ResumeReleaseKeepsOrder(s, k);
    case StartClose =>
      BeginCloseKeeps(c);
      BeginCloseKeepsOrder(s);
    case ReleaseAll =>
      CloseReleaseKeeps(c);
      CloseReleaseKeepsOrder(s);
    case EndControls =>
      FinishCloseKeeps(c);
      EndControlsKeepsOrder(s);
    case FinishClosing =>
      ClosedDownKeeps(c);
      TerminalIsOrdered(s, ClosedDown(c));
    case StreamFails =>
      RetireGenerationKeeps(c);
      TerminalIsOrdered(s, RetireGeneration(c));
  }

  lemma BeginReleaseKeepsOrder(s: Pair, r: nat)
    ensures Ordered(s) ==> Ordered(s.(client := BeginRelease(s.client, r)))
  {
  }

  lemma BeginCloseKeepsOrder(s: Pair)
    ensures Ordered(s) && s.client.terminal == Open ==> Ordered(s.(client := BeginClose(s.client)))
  {
  }

  lemma TerminalIsOrdered(s: Pair, c: Client)
    ensures Ordered(s) && (c.terminal != Open || c == s.client) ==> Ordered(s.(client := c))
  {
  }

  lemma EndControlsKeepsOrder(s: Pair)
    ensures Ordered(s) ==> Ordered(s.(client := FinishClose(s.client)))
  {
  }

  lemma SectionKeepsBase(s: Pair, g: Gen)
    requires Base(s) && ServerSection(s.gen, g) && Known(g) == Known(s.gen)
    requires AckIds(g.responses) == AckIds(s.gen.responses) && g.lastControlId == s.gen.lastControlId
    ensures Base(s.(gen := g))
  {
    hide Valid, ClientInv, NoticesAreDead, Known;
  }

  lemma ConstructKeepsBase(s: Pair, parent: nat)
    requires Base(s) && parent in s.gen.resources
    ensures Base(ConstructStep(s, parent))
    ensures ServerSection(s.gen, ConstructStep(s, parent).gen)
  {
    hide Valid, ClientInv;
    var id := s.nextId + 1;
    assert parent in Known(s.gen);
    if id <= MAX_ID {
      ConstructChildValid(s.gen, parent, id);
    }
  }

  lemma RoutesAreSection(g: Gen, x: nat, route: nat)
    requires Valid(g) && NoticesAreDead(g)
    ensures x in g.resources ==> ServerSection(g, OpenRoute(g, x, route)) && Known(OpenRoute(g, x, route)) == Known(g)
    ensures ServerSection(g, CloseRoute(g, x, route)) && Known(CloseRoute(g, x, route)) == Known(g)
  {
    if x in g.resources {
      RoutesKeepForest(g, x, g.resources[x].routes + {route});
      RoutesKeepForest(g, x, g.resources[x].routes - {route});
    }
  }

  lemma ReceiveKeepsBase(s: Pair)
    requires Base(s) && Enabled(s, Receive)
    ensures Base(Do(s, Receive)) && ServerSection(s.gen, Do(s, Receive).gen)
  {
    var g' := s.gen.(responses := s.gen.responses[1..]);
    HandleKeeps(s.client, s.gen.responses[0]);
    ReceiveKeepsOrder(s);
    assert SettledIds(g') == SettledIds(s.gen);
    assert Known(g') == Known(s.gen);
    assert forall r | r in g'.responses :: r in s.gen.responses;
  }

  /** Every step of every run keeps the order of both queues and both ends' invariants. */
  lemma BaseKept(s: Pair, a: Action)
    requires Base(s) && Enabled(s, a)
    ensures Base(Do(s, a)) && ServerSection(s.gen, Do(s, a).gen)
  {
    hide ClientInv, Ordered, Valid, ServerSection, NoticesAreDead, Known;
    if AtClient(a) {
      ClientStepKeepsBase(s, a);
      NoSection(s.gen);
    } else {
      match a
      case Receive => ReceiveKeepsBase(s);
      case Consume =>
        ConsumeIsSection(s);
        ConsumeKeepsOrder(s);
        SectionNotices(s.gen, Do(s, a).gen);
      case Construct(parent) => ConstructKeepsBase(s, parent);
      case Revoke(x, caller) =>
        ReleaseIsSection(s.gen, x, true, caller);
        SectionKeepsBase(s, Do(s, a).gen);
      case RouteOpens(x, route) =>
        RoutesAreSection(s.gen, x, route);
        SectionKeepsBase(s, Do(s, a).gen);
      case RouteCloses(x, route) =>
        RoutesAreSection(s.gen, x, route);
        SectionKeepsBase(s, Do(s, a).gen);
      case EndGeneration(caller) =>
        TeardownIsSection(s.gen, caller);
        SectionKeepsBase(s, Do(s, a).gen);
      case AllocateElsewhere =>
        NoSection(s.gen);
        OrderIgnoresIds(s, s.nextId + 1);
    }
  }

  lemma OrderIgnoresIds(s: Pair, n: nat)
    ensures Ordered(s) ==> Ordered(s.(nextId := n))
  {
  }

  lemma NoSection(g: Gen)
    ensures Valid(g) && NoticesAreDead(g) ==> ServerSection(g, g)
  {
  }

  lemma SectionNotices(g: Gen, g': Gen)
    ensures ServerSection(g, g') ==> Valid(g') && NoticesAreDead(g')
  {
  }

  lemma ConsumedOrder(s: Pair, g: Gen)
    requires Ordered(s) && s.client.terminal == Open && s.consuming && s.client.controls != []
             && s.client.controls[0].Send?
    requires g.lastControlId == s.client.controls[0].control.controlId
    requires AckIds(g.responses) == AckIds(s.gen.responses) + [g.lastControlId]
    ensures Ordered(s.(client := s.client.(controls := s.client.controls[1..]), gen := g))
  {
  }

  lemma TeardownIsSection(g: Gen, caller: Option<nat>)
    requires Valid(g) && NoticesAreDead(g)
    ensures var g' := Teardown(g, caller);
      && ServerSection(g, g') && Known(g') == Known(g)
      && AckIds(g'.responses) == AckIds(g.responses) && g'.lastControlId == g.lastControlId
  {
    TeardownValid(g, caller);
    if !g.closing {
      AckIdsConcat(g.responses, [End]);
    }
  }

  // ----- how a generation ends

  /** A client that is no longer open has nothing queued, and queues nothing. */
  predicate Drained(c: Client) {
    && (c.terminal == Failed ==> c.controls == [] && c.requestClosed)
    && (c.terminal == Closed ==> c.controls == [] && c.closeStage == 3)
  }

  /** The stream's end, or the failure that ends it, is on its way to the client. */
  predicate Ends(rs: seq<Response>) {
    End in rs || Failure in rs
  }

  /** The server stops, and the client closes, only with something said. */
  ghost predicate Ending(s: Pair) {
    && Drained(s.client)
    && (Live(s.client) ==> (s.consuming && !s.gen.closing <==> !Ends(s.gen.responses)))
  }

  /** The client only ever closes, and stays drained once it has. */
  predicate Onward(c: Client, c': Client) {
    && (c'.terminal == Open ==> c.terminal == Open) && (c.closing ==> c'.closing)
    && (Drained(c) ==> Drained(c'))
  }

  lemma ReferenceOnward(c: Client, x: nat)
    ensures Onward(c, CreateReference(c, x).0) && CreateReference(c, x).0.terminal == c.terminal
  {
  }

  lemma RunOnward(c: Client, r: nat, routesOpen: bool)
    ensures Onward(c, RunRelease(c, r, routesOpen)) && RunRelease(c, r, routesOpen).terminal == c.terminal
  {
  }

  lemma {:induction false} SendReleasesShape(c: Client, ks: seq<nat>)
    ensures var c' := SendReleases(c, ks);
      && c'.terminal == c.terminal && c'.requestClosed == c.requestClosed && c'.closing == c.closing
      && (c.terminal != Open ==> c' == c)
    decreases |ks|
  {
    if ks != [] {
      SendReleasesShape(SendRelease(c, ks[0]), ks[1..]);
    }
  }

  lemma ClientOnward(s: Pair, a: Action)
    requires Valid(s.gen) && Enabled(s, a) && AtClient(a)
    ensures Onward(s.client, Do(s, a).client)
    ensures a.FinishClosing? || a.StreamFails? || Do(s, a).client.terminal == s.client.terminal
  {
    hide Valid, CreateReference, RunRelease;
    match a
    case Reference(x) => ReferenceOnward(s.client, x);
    case CloneRef(r) =>
      if RefLive(s.client, r) {
        ReferenceOnward(s.client, s.client.states[s.client.refs[r]].id);
      }
    case RunReleaseTask(r, routesOpen) => RunOnward(s.client, r, routesOpen);
    case ReleaseAll => SendReleasesShape(s.client.(closeList := [], closeStage := 2), s.client.closeList);
    case _ =>
  }

  lemma ReleaseEndsNothing(g: Gen, x: nat, notifyTarget: bool, caller: Option<nat>)
    requires Valid(g)
    ensures var g' := ReleaseResource(g, x, notifyTarget, true, caller).0;
      (Ends(g'.responses) <==> Ends(g.responses)) && g'.closing == g.closing
  {
    ReleaseValid(g, x, notifyTarget, caller);
    if !g.closing && x in g.resources {
      var ids := Batch(g.resources, x, x == g.root);
      BatchIsClosed(g, x);
      BatchNoticesDead(g, ids, x, notifyTarget);
    }
  }

  lemma ControlEndsNothing(g: Gen, control: Control)
    requires Valid(g) && ApplyControl(g, control).Some?
    ensures var g' := ApplyControl(g, control).value;
      (Ends(g'.responses) <==> Ends(g.responses)) && g'.closing == g.closing
  {
    if control.body.Release? {
      ReleaseEndsNothing(g, control.body.id, false, None);
    }
    hide ReleaseResource, Valid;
  }

  lemma ConsumeEnding(s: Pair)
    requires Base(s) && Ending(s) && s.consuming && s.client.controls != []
    ensures Ending(ConsumeStep(s))
  {
    hide ClientInv, Ordered, Valid, NoticesAreDead, Known, ApplyControl;
    ValidIsPlanted(s.gen);
    match s.client.controls[0]
    case QueueEnd =>
    case Send(control) =>
      if ApplyControl(s.gen, control).Some? {
        ControlEndsNothing(s.gen, control);
      }
  }

  lemma ReceiveEnding(s: Pair)
    requires Base(s) && Ending(s) && Enabled(s, Receive)
    ensures Ending(Do(s, Receive))
  {
    hide ClientInv, Ordered, Valid, NoticesAreDead, Known, Handle, Drained;
    var rs := s.gen.responses;
    HandleOnward(s.client, rs[0]);
    assert rs == [rs[0]] + rs[1..];
  }

  /** A client that stays live was sent no end. */
  lemma HandleOnward(c: Client, r: Response)
    ensures c.terminal == Open && Live(Handle(c, r)) ==> Live(c) && r != End && r != Failure
    ensures c.terminal == Open ==> Drained(Handle(c, r))
  {
  }

  lemma EndingKept(s: Pair, a: Action)
    requires Base(s) && Ending(s) && Enabled(s, a)
    ensures Ending(Do(s, a))
  {
    hide ClientInv, Ordered, Valid, NoticesAreDead, Known, ReleaseResource, Teardown, ConstructChild, ConsumeStep,
      Handle;
    if AtClient(a) {
      ClientOnward(s, a);
    } else {
      match a
      case Receive => ReceiveEnding(s);
      case Consume => ConsumeEnding(s);
      case Revoke(x, caller) => ReleaseEndsNothing(s.gen, x, true, caller);
      case EndGeneration(caller) => TeardownEnds(s.gen, caller);
      case Construct(parent) => ConstructEndsNothing(s, parent);
      case _ =>
    }
  }

  lemma ConstructEndsNothing(s: Pair, parent: nat)
    ensures ConstructStep(s, parent).client == s.client && ConstructStep(s, parent).consuming == s.consuming
    ensures var g' := ConstructStep(s, parent).gen; g'.responses == s.gen.responses && g'.closing == s.gen.closing
  {
  }

  lemma TeardownEnds(g: Gen, caller: Option<nat>)
    requires Valid(g)
    ensures var g' := Teardown(g, caller);
      g'.closing && (if g.closing then g' == g else g'.responses == g.responses + [End])
  {
    hide Removal;
  }

  // ----- notices, step by step

  /** A handler's release tells of all it ended, its target included. */
  lemma RevokeAnnounces(s: Pair, x: nat, caller: Option<nat>)
    requires Base(s)
    ensures var g, g' := s.gen, Do(s, Revoke(x, caller)).gen;
      && |g.responses| <= |g'.responses| && g'.responses[..|g.responses|] == g.responses
      && Announced(g, g', g'.responses[|g.responses|..], {})
  {
    hide ClientInv, Ordered, NoticesAreDead, Known, ReleaseResource, Announced;
    ReleaseAnnounces(s.gen, x, true, caller);
  }

  /** A Release from the client is silent on its own target, and is acknowledged behind
      its notices. */
  lemma ConsumeAnnounces(s: Pair)
    requires Valid(s.gen) && s.client.controls != [] && s.client.controls[0].Send?
    requires s.client.controls[0].control.body.Release?
    requires ApplyControl(s.gen, s.client.controls[0].control).Some?
    ensures var g, g', control := s.gen, ConsumeStep(s).gen, s.client.controls[0].control;
      var last := |g'.responses| - 1;
      && |g.responses| <= last && g'.responses[..|g.responses|] == g.responses
      && g'.responses[last] == Ack(control.controlId)
      && Announced(g, g', g'.responses[|g.responses|..last], {control.body.id})
  {
    hide ReleaseResource, Announced;
    var g, g', control := s.gen, ConsumeStep(s).gen, s.client.controls[0].control;
    var mid := ReleaseResource(g, control.body.id, false, true, None).0;
    ReleaseAnnounces(g, control.body.id, false, None);
    assert g'.responses == mid.responses + [Ack(control.controlId)];
    assert g'.responses[|g.responses|..|g'.responses| - 1] == mid.responses[|g.responses|..];
    SameAnnounced(g, mid, g', mid.responses[|g.responses|..], {control.body.id});
  }

  lemma SameAnnounced(g: Gen, mid: Gen, g': Gen, rs: seq<Response>, silent: set<nat>)
    requires Planted(g.resources) && mid.resources == g'.resources
    ensures Announced(g, mid, rs, silent) <==> Announced(g, g', rs, silent)
  {
  }
}
