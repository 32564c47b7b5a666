/** What becomes of a Resource while the server consumes a queue of controls: whether it
    still stands at the end, whether it stands adopted, and whether it dies without a
    word to the client. */
module ResourceFate {
  import opened SortedSets
  import opened ResourceForest
  import opened ResourceGeneration
  import opened ResourceClientSpec

  // ----- queues

  predicate Adopts(i: Item, x: nat) {
    i.Send? && i.control.body == Adopt(x)
  }

  predicate Releases(i: Item, x: nat) {
    i.Send? && i.control.body == Release(x)
  }

  /** Whether x will stand adopted once the queue is consumed, if it stands so now and
      nothing else is released. */
  function Latest(q: seq<Item>, x: nat, now: bool): bool {
    if q == [] then now
    else Latest(q[1..], x, if Adopts(q[0], x) then true else if Releases(q[0], x) then false else now)
  }

  predicate AdoptQueued(q: seq<Item>, x: nat) {
    exists i | 0 <= i < |q| :: Adopts(q[i], x)
  }

  predicate ReleaseQueued(q: seq<Item>, x: nat) {
    exists i | 0 <= i < |q| :: Releases(q[i], x)
  }

  lemma {:induction false} LatestSnoc(q: seq<Item>, i: Item, x: nat, now: bool)
    ensures Latest(q + [i], x, now)
         == if Adopts(i, x) then true else if Releases(i, x) then false else Latest(q, x, now)
  {
    if q == [] {
      assert (q + [i])[1..] == [];
    } else {
      assert (q + [i])[1..] == q[1..] + [i];
      LatestSnoc(q[1..], i, x, if Adopts(q[0], x) then true else if Releases(q[0], x) then false else now);
    }
  }

  lemma {:induction false} LatestTrue(q: seq<Item>, x: nat)
    requires Latest(q, x, false)
    ensures AdoptQueued(q, x)
  {
    if Adopts(q[0], x) {
      assert Adopts(q[0], x);
    } else {
      LatestTrue(q[1..], x);
      QueuedHead(q, x);
    }
  }

  lemma QueuedHead(q: seq<Item>, x: nat)
    requires q != []
    ensures AdoptQueued(q, x) <==> Adopts(q[0], x) || AdoptQueued(q[1..], x)
    ensures ReleaseQueued(q, x) <==> Releases(q[0], x) || ReleaseQueued(q[1..], x)
  {
    assert q == [q[0]] + q[1..];
  }

  lemma AdoptQueuedSnoc(q: seq<Item>, i: Item, x: nat)
    ensures AdoptQueued(q + [i], x) <==> AdoptQueued(q, x) || Adopts(i, x)
  {
    assert (q + [i])[|q|] == i;
    if AdoptQueued(q, x) {
      var j :| 0 <= j < |q| && Adopts(q[j], x);
      assert (q + [i])[j] == q[j];
    }
    if AdoptQueued(q + [i], x) {
      var j :| 0 <= j < |q + [i]| && Adopts((q + [i])[j], x);
      assert j < |q| ==> (q + [i])[j] == q[j];
    }
  }

  lemma ReleaseQueuedSnoc(q: seq<Item>, i: Item, x: nat)
    ensures ReleaseQueued(q + [i], x) <==> ReleaseQueued(q, x) || Releases(i, x)
  {
    assert (q + [i])[|q|] == i;
    if ReleaseQueued(q, x) {
      var j :| 0 <= j < |q| && Releases(q[j], x);
      assert (q + [i])[j] == q[j];
    }
    if ReleaseQueued(q + [i], x) {
      var j :| 0 <= j < |q + [i]| && Releases((q + [i])[j], x);
      assert j < |q| ==> (q + [i])[j] == q[j];
    }
  }

  // ----- one control

  /** A release of t takes x along. */
  ghost predicate Killed(res: Forest, root: nat, t: nat, x: nat)
    requires Planted(res)
  {
    t in res && (Under(res, t, x, false) || (x == t && t != root))
  }

  ghost predicate KilledBy(res: Forest, root: nat, i: Item, x: nat)
    requires Planted(res)
  {
    i.Send? && i.control.body.Release? && Killed(res, root, i.control.body.id, x)
  }

  /** The forest after one control; one that the server would refuse changes nothing. */
  ghost function Steered(res: Forest, root: nat, i: Item): (r: Forest)
    requires Planted(res)
    ensures Planted(r)
    ensures forall x :: x in r <==> x in res && !KilledBy(res, root, i, x)
    ensures forall x | x in r :: r[x].parent == res[x].parent && r[x].pending == (res[x].pending && !Adopts(i, x))
  {
    map x | x in res && !KilledBy(res, root, i, x) :: res[x].(pending := res[x].pending && !Adopts(i, x))
  }

  /** Which is what the server makes of its forest. */
  lemma SteeredIsApplied(g: Gen, c: Control)
    requires Valid(g) && !g.closing && ApplyControl(g, c).Some?
    ensures ApplyControl(g, c).value.resources == Steered(g.resources, g.root, Send(c))
  {
    var g' := ApplyControl(g, c).value;
    match c.body
    case Adopt(id) =>
      assert id in g.resources ==> g'.resources == g.resources[id := g.resources[id].(pending := false)];
    case Release(id) =>
      if id in g.resources {
        var ids := Batch(g.resources, id, id == g.root);
        ExactCascade(g.resources, id, id == g.root);
        hide PostOrder, Batch, Valid, Index, SettleAll, Picked, Notices;
        assert g'.resources == g.resources - Elems(ids);
        assert forall x | x in g'.resources :: g.resources[x].(pending := g.resources[x].pending) == g.resources[x];
      }
  }

  // ----- a whole queue

  /** The forest once the queue is consumed. */
  ghost function Steer(res: Forest, root: nat, q: seq<Item>): (r: Forest)
    requires Planted(res)
    ensures Planted(r) && r.Keys <= res.Keys
    decreases |q|
  {
    if q == [] then res else Steer(Steered(res, root, q[0]), root, q[1..])
  }

  /** x dies of a Release of its own, with no Adopt of it behind: the server sends no
      notice for the target of a release. */
  ghost predicate Silent(res: Forest, root: nat, q: seq<Item>, x: nat)
    requires Planted(res)
    decreases |q|
  {
    x in res && q != []
    && if KilledBy(res, root, q[0], x) then Releases(q[0], x) && !AdoptQueued(q[1..], x)
       else Silent(Steered(res, root, q[0]), root, q[1..], x)
  }

  lemma {:induction false} SteerSnoc(res: Forest, root: nat, q: seq<Item>, i: Item)
    requires Planted(res)
    ensures Steer(res, root, q + [i]) == Steered(Steer(res, root, q), root, i)
    decreases |q|
  {
    hide Steered;
    if q == [] {
      assert (q + [i])[1..] == [] && (q + [i])[0] == i;
    } else {
      assert (q + [i])[1..] == q[1..] + [i] && (q + [i])[0] == q[0];
      SteerSnoc(Steered(res, root, q[0]), root, q[1..], i);
    }
  }

  /** One more control silences x only if it releases x while x still stands. */
  lemma {:induction false} SilentSnoc(res: Forest, root: nat, q: seq<Item>, i: Item, x: nat)
    requires Planted(res) && x in res && x != root
    ensures Silent(res, root, q + [i], x)
       <==> !Adopts(i, x) && (Silent(res, root, q, x) || (x in Steer(res, root, q) && Releases(i, x)))
    decreases |q|
  {
    hide Steered;
    if q == [] {
      assert (q + [i])[1..] == [] && (q + [i])[0] == i;
    } else {
      assert (q + [i])[1..] == q[1..] + [i] && (q + [i])[0] == q[0];
      AdoptQueuedSnoc(q[1..], i, x);
      if !KilledBy(res, root, q[0], x) {
        SilentSnoc(Steered(res, root, q[0]), root, q[1..], i, x);
      }
    }
  }

  /** The fate of x as its own controls tell it: it stands only if none releases it, and
      then adopted as the last of them says; it can be silenced only if that is a Release. */
  lemma {:induction false} FateByQueue(res: Forest, root: nat, q: seq<Item>, x: nat)
    requires Planted(res) && x in res && x != root
    ensures Silent(res, root, q, x) ==> !Latest(q, x, true)
    ensures x in Steer(res, root, q) ==>
        !ReleaseQueued(q, x) && Steer(res, root, q)[x].pending == !Latest(q, x, !res[x].pending)
    decreases |q|
  {
    hide Steered;
    if q != [] {
      var res' := Steered(res, root, q[0]);
      QueuedHead(q, x);
      if KilledBy(res, root, q[0], x) {
        assert res'.Keys >= Steer(res', root, q[1..]).Keys;
        if Latest(q, x, true) && Releases(q[0], x) {
          LatestTrue(q[1..], x);
        }
      } else {
        FateByQueue(res', root, q[1..], x);
        assert !Releases(q[0], x);
      }
    }
  }

  /** The first Release of x has no Adopt of x behind it. */
  predicate Unanswered(q: seq<Item>, x: nat) {
    q != [] && if Releases(q[0], x) then !AdoptQueued(q[1..], x) else Unanswered(q[1..], x)
  }

  /** An adopted Resource dies of nothing but its own Release. */
  lemma {:induction false} AdoptedFate(res: Forest, root: nat, q: seq<Item>, x: nat)
    requires Planted(res) && x in res && x != root && !res[x].pending
    ensures x in Steer(res, root, q) <==> !ReleaseQueued(q, x)
    ensures Silent(res, root, q, x) <==> Unanswered(q, x)
    decreases |q|
  {
    hide Steered;
    if q != [] {
      QueuedHead(q, x);
      assert KilledBy(res, root, q[0], x) <==> Releases(q[0], x);
      if !Releases(q[0], x) {
        AdoptedFate(Steered(res, root, q[0]), root, q[1..], x);
      }
    }
  }

  // ----- the fate of a pending Resource, read off the queue

  /** The controls ahead of the first Adopt of x. */
  function UpToAdopt(q: seq<Item>, x: nat): seq<Item> {
    if q == [] || Adopts(q[0], x) then [] else [q[0]] + UpToAdopt(q[1..], x)
  }

  /** The controls ahead of the first Release of x. */
  function UpToRelease(q: seq<Item>, x: nat): seq<Item> {
    if q == [] || Releases(q[0], x) then [] else [q[0]] + UpToRelease(q[1..], x)
  }

  /** No Release of x is queued; nor, while x is still pending, of what it hangs below
      through pending Resources. */
  ghost predicate Upheld(res: Forest, q: seq<Item>, x: nat)
    requires Planted(res)
    decreases x
  {
    && x in res && !ReleaseQueued(q, x)
    && (res[x].pending ==> Upheld(res, UpToAdopt(q, x), res[x].parent))
  }

  lemma {:induction false} UpheldNow(res: Forest, x: nat)
    requires Planted(res) && PendingAttached(res) && x in res
    ensures Upheld(res, [], x)
    decreases x
  {
    if res[x].pending {
      UpheldNow(res, res[x].parent);
    }
  }

  /** One control fewer to come: it must spare x, and what x hangs below. */
  lemma {:induction false} UpheldHead(res: Forest, root: nat, q: seq<Item>, x: nat)
    requires Planted(res) && PendingAttached(res) && (root in res ==> !res[root].pending) && x in res && q != []
    ensures Upheld(res, q, x)
       <==> && !Releases(q[0], x) && !KilledBy(res, root, q[0], x)
            && Upheld(Steered(res, root, q[0]), q[1..], x)
    decreases x
  {
    QueuedHead(q, x);
    if res[x].pending {
      var p := res[x].parent;
      if Adopts(q[0], x) {
        UpheldNow(res, p);
      } else {
        var b := UpToAdopt(q[1..], x);
        assert ([q[0]] + b)[0] == q[0] && ([q[0]] + b)[1..] == b;
        UpheldHead(res, root, [q[0]] + b, p);
      }
    }
  }

  lemma StaysAttached(res: Forest, root: nat, i: Item)
    requires Planted(res) && PendingAttached(res)
    ensures PendingAttached(Steered(res, root, i))
  {
    var r := Steered(res, root, i);
    forall x | x in r && r[x].pending ensures r[x].parent in r {
      if KilledBy(res, root, i, res[x].parent) {
        ParentSurvives(res, root, i, x);
      }
    }
  }

  /** Exactly what is upheld still stands once the queue is consumed. */
  lemma {:induction false} UpheldStands(res: Forest, root: nat, q: seq<Item>, x: nat)
    requires Planted(res) && PendingAttached(res) && (root in res ==> !res[root].pending) && x in res && x != root
    ensures x in Steer(res, root, q) <==> Upheld(res, q, x)
    decreases |q|
  {
    if q == [] {
      UpheldNow(res, x);
    } else {
      UpheldHead(res, root, q, x);
      StaysAttached(res, root, q[0]);
      assert Releases(q[0], x) ==> KilledBy(res, root, q[0], x);
      hide Upheld, KilledBy, Adopts, Releases, PendingAttached;
      var r := Steered(res, root, q[0]);
      if x in r {
        UpheldStands(r, root, q[1..], x);
      }
    }
  }

  /** x dies unheard if its first Release finds it standing and no Adopt follows. */
  lemma {:induction false} SilentByQueue(res: Forest, root: nat, q: seq<Item>, x: nat)
    requires Planted(res) && x in res && x != root
    ensures Silent(res, root, q, x) <==> Unanswered(q, x) && x in Steer(res, root, UpToRelease(q, x))
    decreases |q|
  {
    if q != [] {
      var u := UpToRelease(q[1..], x);
      assert ([q[0]] + u)[0] == q[0] && ([q[0]] + u)[1..] == u;
      assert Releases(q[0], x) ==> KilledBy(res, root, q[0], x);
      hide Steered, KilledBy;
      var r := Steered(res, root, q[0]);
      if !KilledBy(res, root, q[0], x) {
        SilentByQueue(r, root, q[1..], x);
      }
    }
  }

  // ----- forests that differ elsewhere

  /** The two forests agree on what they share, and on which of it is pending below what:
      Resources were revoked or constructed, or routes opened and closed, between them. */
  ghost predicate Alike(res: Forest, res': Forest) {
    forall x | x in res && x in res' ::
      && res'[x].parent == res[x].parent && res'[x].pending == res[x].pending
      && (res[x].pending ==> (res[x].parent in res <==> res[x].parent in res'))
  }

  lemma {:induction false} UnderAlike(res: Forest, res': Forest, t: nat, x: nat)
    requires Planted(res) && Planted(res') && Alike(res, res') && x in res'
    requires t in res && Under(res, t, x, false)
    ensures t in res' && Under(res', t, x, false)
    decreases x
  {
    if res[x].parent != t {
      UnderAlike(res, res', t, res[x].parent);
    }
  }

  lemma KilledAlike(res: Forest, res': Forest, root: nat, i: Item, x: nat)
    requires Planted(res) && Planted(res') && Alike(res, res') && x in res && x in res'
    ensures KilledBy(res, root, i, x) <==> KilledBy(res', root, i, x)
  {
    if i.Send? && i.control.body.Release? {
      var t := i.control.body.id;
      if t in res && Under(res, t, x, false) {
        UnderAlike(res, res', t, x);
      }
      if t in res' && Under(res', t, x, false) {
        UnderAlike(res', res, t, x);
      }
    }
  }

  /** A pending Resource that survives a release has its parent survive too. */
  lemma ParentSurvives(res: Forest, root: nat, i: Item, x: nat)
    ensures && Planted(res) && x in res && res[x].pending && res[x].parent in res
            && KilledBy(res, root, i, res[x].parent) ==>
        KilledBy(res, root, i, x)
  {
  }

  lemma SteeredAlike(res: Forest, res': Forest, root: nat, i: Item)
    requires Planted(res) && Planted(res') && Alike(res, res')
    ensures Alike(Steered(res, root, i), Steered(res', root, i))
  {
    hide Under;
    var r, r' := Steered(res, root, i), Steered(res', root, i);
    forall x | x in r && x in r'
      ensures r'[x].parent == r[x].parent && r'[x].pending == r[x].pending
      ensures r[x].pending ==> (r[x].parent in r <==> r[x].parent in r')
    {
      if r[x].pending {
        var p := res[x].parent;
        if p in res && KilledBy(res, root, i, p) {
          ParentSurvives(res, root, i, x);
        }
        if p in res' && KilledBy(res', root, i, p) {
          ParentSurvives(res', root, i, x);
        }
      }
    }
  }

  /** What the forests share meets the same fate in both. */
  lemma {:induction false} SameFate(res: Forest, res': Forest, root: nat, q: seq<Item>, x: nat)
    requires Planted(res) && Planted(res') && Alike(res, res') && x in res && x in res'
    ensures Silent(res, root, q, x) <==> Silent(res', root, q, x)
    ensures x in Steer(res, root, q) <==> x in Steer(res', root, q)
    ensures x in Steer(res, root, q) ==> Steer(res', root, q)[x].pending == Steer(res, root, q)[x].pending
    decreases |q|
  {
    if q != [] {
      KilledAlike(res, res', root, q[0], x);
      SteeredAlike(res, res', root, q[0]);
      hide Steered, KilledBy, Alike;
      var r, r' := Steered(res, root, q[0]), Steered(res', root, q[0]);
      if x in r {
        SameFate(r, r', root, q[1..], x);
      } else {
        assert x !in Steer(r, root, q[1..]) && x !in Steer(r', root, q[1..]);
      }
    }
  }
}
