/** The order of the tabs in one document, kept over the shared records. */
module TabOrder {
  import opened TabStore

  /** The IDs of `order` that are allowed and not yet seen, each at its first place. */
  function Kept(order: seq<string>, ids: set<string>, seen: set<string>): seq<string> {
    if order == [] then []
    else if order[0] in ids && order[0] !in seen then [order[0]] + Kept(order[1..], ids, seen + {order[0]})
    else Kept(order[1..], ids, seen)
  }

  // ----- records by creation

  function Insert(rs: seq<TabRecord>, r: TabRecord): seq<TabRecord> {
    if rs == [] then [r]
    else if r.sequence < rs[|rs| - 1].sequence then Insert(rs[..|rs| - 1], r) + [rs[|rs| - 1]]
    else rs + [r]
  }

  /** The stable sort by creation sequence. */
  function BySequence(rs: seq<TabRecord>): seq<TabRecord> {
    if rs == [] then [] else Insert(BySequence(rs[..|rs| - 1]), rs[|rs| - 1])
  }

  ghost predicate Sorted(rs: seq<TabRecord>) {
    forall i, j | 0 <= i < j < |rs| :: rs[i].sequence <= rs[j].sequence
  }

  lemma {:induction false} InsertSorted(rs: seq<TabRecord>, r: TabRecord)
    requires Sorted(rs)
    ensures Sorted(Insert(rs, r)) && multiset(Insert(rs, r)) == multiset(rs) + multiset{r}
  {
    if rs != [] && r.sequence < rs[|rs| - 1].sequence {
      var last := rs[|rs| - 1];
      assert rs == rs[..|rs| - 1] + [last];
      InsertSorted(rs[..|rs| - 1], r);
      var q := Insert(rs[..|rs| - 1], r);
      hide Insert;
      forall i | 0 <= i < |q| ensures q[i].sequence <= last.sequence {
        assert q[i] in multiset(q);
        assert q[i] in rs[..|rs| - 1] || q[i] == r;
      }
    }
  }

  lemma {:induction false} BySequenceSorted(rs: seq<TabRecord>)
    ensures Sorted(BySequence(rs)) && multiset(BySequence(rs)) == multiset(rs)
  {
    if rs != [] {
      var init, last := rs[..|rs| - 1], rs[|rs| - 1];
      assert rs == init + [last];
      BySequenceSorted(init);
      InsertSorted(BySequence(init), last);
      hide Insert, Sorted;
    }
  }

  function OfSequence(rs: seq<TabRecord>, n: int): seq<TabRecord> {
    if rs == [] then []
    else OfSequence(rs[..|rs| - 1], n) + (if rs[|rs| - 1].sequence == n then [rs[|rs| - 1]] else [])
  }

  lemma {:induction false} InsertStable(rs: seq<TabRecord>, r: TabRecord, n: int)
    requires Sorted(rs)
    ensures OfSequence(Insert(rs, r), n) == OfSequence(rs, n) + (if r.sequence == n then [r] else [])
  {
    var q := Insert(rs, r);
    if rs != [] && r.sequence < rs[|rs| - 1].sequence {
      InsertStable(rs[..|rs| - 1], r, n);
      assert q[..|q| - 1] == Insert(rs[..|rs| - 1], r);
    } else {
      assert q[..|q| - 1] == rs;
    }
  }

  /** Records that share a number keep their order. */
  lemma {:induction false} BySequenceStable(rs: seq<TabRecord>, n: int)
    ensures OfSequence(BySequence(rs), n) == OfSequence(rs, n)
  {
    if rs != [] {
      var init := rs[..|rs| - 1];
      BySequenceStable(init, n);
      BySequenceSorted(init);
      InsertStable(BySequence(init), rs[|rs| - 1], n);
    }
  }

  function IdsInOrder(rs: seq<TabRecord>): (ids: seq<string>)
    ensures |ids| == |rs| && forall i | 0 <= i < |rs| :: ids[i] == rs[i].id
  {
    seq(|rs|, i requires 0 <= i < |rs| => rs[i].id)
  }

  /** The order's own IDs first, then the records it does not name. */
  function Normalize(order: seq<string>, rs: seq<TabRecord>): seq<string> {
    Kept(order + IdsInOrder(BySequence(rs)), Ids(rs), {})
  }

  // ----- facts about keeping

  ghost predicate Distinct(q: seq<string>) {
    forall i, j | 0 <= i < j < |q| :: q[i] != q[j]
  }

  lemma {:induction false} KeptMembers(order: seq<string>, ids: set<string>, seen: set<string>)
    ensures forall x :: x in Kept(order, ids, seen) <==> x in order && x in ids && x !in seen
    ensures Distinct(Kept(order, ids, seen))
    decreases |order|
  {
    if order != [] {
      var seen' := if order[0] in ids && order[0] !in seen then seen + {order[0]} else seen;
      KeptMembers(order[1..], ids, seen');
      assert forall x :: x in order <==> x == order[0] || x in order[1..];
      var rest := Kept(order[1..], ids, seen');
      forall j | 0 <= j < |rest| ensures rest[j] in order[1..] && rest[j] !in seen' {
        assert rest[j] in rest;
      }
    }
  }

  lemma {:induction false} KeptConcat(a: seq<string>, b: seq<string>, ids: set<string>, seen: set<string>)
    ensures Kept(a + b, ids, seen)
         == Kept(a, ids, seen) + Kept(b, ids, seen + (set x | x in a && x in ids))
    decreases |a|
  {
    if a == [] {
      assert a + b == b && seen + (set x | x in a && x in ids) == seen;
    } else {
      assert (a + b)[1..] == a[1..] + b && (a + b)[0] == a[0];
      var seen' := if a[0] in ids && a[0] !in seen then seen + {a[0]} else seen;
      KeptConcat(a[1..], b, ids, seen');
      assert seen' + (set x | x in a[1..] && x in ids) == seen + (set x | x in a && x in ids);
    }
  }

  /** Keeping everything there is to keep. */
  lemma {:induction false} KeptWhole(q: seq<string>, ids: set<string>, seen: set<string>)
    requires Distinct(q) && forall x | x in q :: x in ids && x !in seen
    ensures Kept(q, ids, seen) == q
    decreases |q|
  {
    if q != [] {
      assert q == [q[0]] + q[1..];
      forall x | x in q[1..] ensures x in ids && x !in seen + {q[0]} {
        var i :| 0 <= i < |q[1..]| && q[1..][i] == x;
        assert q[i + 1] == x;
      }
      KeptWhole(q[1..], ids, seen + {q[0]});
    }
  }

  lemma {:induction false} KeptNothing(q: seq<string>, ids: set<string>, seen: set<string>)
    requires ids <= seen
    ensures Kept(q, ids, seen) == []
    decreases |q|
  {
    if q != [] {
      KeptNothing(q[1..], ids, seen);
    }
  }

  /** Where an ID first stands. */
  function First(q: seq<string>, x: string): nat
    requires x in q
  {
    if q[0] == x then 0 else 1 + First(q[1..], x)
  }

  /** Kept IDs stand in the order of their first places. */
  lemma {:induction false} KeptInOrder(order: seq<string>, ids: set<string>, seen: set<string>, i: nat, j: nat)
    requires i < j < |Kept(order, ids, seen)|
    ensures var q := Kept(order, ids, seen); q[i] in order && q[j] in order && First(order, q[i]) < First(order, q[j])
    decreases |order|
  {
    var q := Kept(order, ids, seen);
    KeptMembers(order, ids, seen);
    assert q[i] in q && q[j] in q;
    if order[0] in ids && order[0] !in seen {
      var rest := Kept(order[1..], ids, seen + {order[0]});
      KeptMembers(order[1..], ids, seen + {order[0]});
      assert q[j] == rest[j - 1] && rest[j - 1] in rest;
      if i > 0 {
        assert q[i] == rest[i - 1] && rest[i - 1] in rest;
        KeptInOrder(order[1..], ids, seen + {order[0]}, i - 1, j - 1);
      }
    } else {
      KeptInOrder(order[1..], ids, seen, i, j);
    }
  }

  lemma {:induction false} FirstIsFirst(q: seq<string>, x: string, i: nat)
    requires i < |q| && q[i] == x
    ensures x in q && First(q, x) <= i && q[First(q, x)] == x
    decreases |q|
  {
    if q[0] != x {
      assert q[1..][i - 1] == x;
      FirstIsFirst(q[1..], x, i - 1);
    }
  }

  lemma {:induction false} FirstOfConcat(a: seq<string>, b: seq<string>, x: string)
    requires x in a || x in b
    ensures x in a + b && First(a + b, x) == if x in a then First(a, x) else |a| + First(b, x)
    decreases |a|
  {
    if a == [] {
      assert a + b == b;
    } else if a[0] != x {
      assert (a + b)[1..] == a[1..] + b;
      FirstOfConcat(a[1..], b, x);
    }
  }

  // ----- the visible order

  lemma SortedIdsMembers(rs: seq<TabRecord>)
    ensures forall x :: x in IdsInOrder(BySequence(rs)) <==> x in Ids(rs)
  {
    BySequenceSorted(rs);
    var s, q := BySequence(rs), IdsInOrder(BySequence(rs));
    forall x | x in q ensures x in Ids(rs) {
      var i :| 0 <= i < |q| && q[i] == x;
      assert s[i] in multiset(s) && s[i] in rs;
    }
    forall x | x in Ids(rs) ensures x in q {
      var r :| r in rs && r.id == x;
      assert r in multiset(rs) && r in s;
      var i :| 0 <= i < |s| && s[i] == r;
      assert q[i] == x;
    }
  }

  /** The result names every record's ID exactly once, and nothing else. */
  lemma NormalizeIsPermutation(order: seq<string>, rs: seq<TabRecord>)
    ensures Distinct(Normalize(order, rs)) && forall x :: x in Normalize(order, rs) <==> x in Ids(rs)
  {
    SortedIdsMembers(rs);
    KeptMembers(order + IdsInOrder(BySequence(rs)), Ids(rs), {});
  }

  /** IDs that the document already ordered keep their relative order and come first;
      the others follow in the order in which their tabs were created. */
  lemma NormalizeKeepsOrder(order: seq<string>, rs: seq<TabRecord>, i: nat, j: nat)
    requires i < j < |Normalize(order, rs)|
    ensures var q := Normalize(order, rs);
      && (q[j] in order ==> q[i] in order && First(order, q[i]) < First(order, q[j]))
      && (q[i] !in order && UniqueIds(rs) ==>
            forall r, s | r in rs && s in rs && r.id == q[i] && s.id == q[j] :: r.sequence <= s.sequence)
  {
    var tail := IdsInOrder(BySequence(rs));
    var q := Normalize(order, rs);
    KeptInOrder(order + tail, Ids(rs), {}, i, j);
    FirstOfConcat(order, tail, q[i]);
    FirstOfConcat(order, tail, q[j]);
    if q[j] in order {
      FirstWithin(order, q[j]);
    }
    if q[i] !in order && UniqueIds(rs) {
      forall r, s | r in rs && s in rs && r.id == q[i] && s.id == q[j] ensures r.sequence <= s.sequence {
        CreatedBefore(rs, r, s);
      }
    }
  }

  lemma {:induction false} FirstWithin(q: seq<string>, x: string)
    requires x in q
    ensures First(q, x) < |q| && q[First(q, x)] == x
    decreases |q|
  {
    if q[0] != x {
      FirstWithin(q[1..], x);
    }
  }

  lemma CreatedBefore(rs: seq<TabRecord>, r: TabRecord, s: TabRecord)
    requires UniqueIds(rs) && r in rs && s in rs
    requires var tail := IdsInOrder(BySequence(rs));
      r.id in tail && s.id in tail && First(tail, r.id) < First(tail, s.id)
    ensures r.sequence <= s.sequence
  {
    BySequenceSorted(rs);
    var sorted := BySequence(rs);
    var tail := IdsInOrder(sorted);
    var i, j := First(tail, r.id), First(tail, s.id);
    FirstWithin(tail, r.id);
    FirstWithin(tail, s.id);
    assert sorted[i] in multiset(sorted) && sorted[j] in multiset(sorted);
    SameRecord(rs, sorted[i], r);
    SameRecord(rs, sorted[j], s);
  }

  lemma SameRecord(rs: seq<TabRecord>, r: TabRecord, s: TabRecord)
    requires UniqueIds(rs) && r in rs && s in rs && r.id == s.id
    ensures r == s
  {
    var i :| 0 <= i < |rs| && rs[i] == r;
    var j :| 0 <= j < |rs| && rs[j] == s;
  }

  lemma NormalizeIdempotent(order: seq<string>, rs: seq<TabRecord>)
    ensures Normalize(Normalize(order, rs), rs) == Normalize(order, rs)
  {
    var q, tail, ids := Normalize(order, rs), IdsInOrder(BySequence(rs)), Ids(rs);
    NormalizeIsPermutation(order, rs);
    KeptConcat(q, tail, ids, {});
    KeptWhole(q, ids, {});
    KeptNothing(tail, ids, {} + (set x | x in q && x in ids));
  }

  // ----- inserting a tab

  function Removed(order: seq<string>, id: string): seq<string> {
    if order == [] then []
    else if order[0] == id then Removed(order[1..], id)
    else [order[0]] + Removed(order[1..], id)
  }

  /** An empty anchor counts as none. */
  function InsertTabId(order: seq<string>, id: string, after: string): seq<string> {
    var q := Removed(order, id);
    if after != "" && after in q then
      FirstWithin(q, after);
      q[..First(q, after) + 1] + [id] + q[First(q, after) + 1..]
    else q + [id]
  }

  lemma {:induction false} RemovedMembers(order: seq<string>, id: string)
    ensures forall x :: x in Removed(order, id) <==> x in order && x != id
  {
    if order != [] {
      RemovedMembers(order[1..], id);
      assert forall x :: x in order <==> x == order[0] || x in order[1..];
    }
  }

  lemma {:induction false} RemovedJoins(a: seq<string>, b: seq<string>, id: string)
    ensures Removed(a + b, id) == Removed(a, id) + Removed(b, id)
  {
    if a == [] {
      assert a + b == b;
    } else {
      assert (a + b)[0] == a[0] && (a + b)[1..] == a[1..] + b;
      RemovedJoins(a[1..], b, id);
    }
  }

  /** Nothing else is left out, and nothing moves: removal goes element by element. */
  lemma RemovedExact(a: seq<string>, x: string, b: seq<string>, id: string)
    ensures Removed([], id) == []
    ensures Removed(a + [x] + b, id) == Removed(a, id) + (if x == id then [] else [x]) + Removed(b, id)
  {
    RemovedJoins(a + [x], b, id);
    RemovedJoins(a, [x], id);
    assert [x][1..] == [];
  }

  /** A tab inserted is there once, immediately behind the first place of a live anchor and
      else last, and the others are as they were. */
  lemma InsertedExactly(order: seq<string>, id: string, after: string) returns (i: nat)
    ensures var q := InsertTabId(order, id, after);
      && i < |q| && q[i] == id && id !in q[..i] && id !in q[i + 1..]
      && q[..i] + q[i + 1..] == Removed(order, id)
      && (if after != "" && after != id && after in order then
            0 < i && q[i - 1] == after && after !in q[..i - 1]
          else i == |q| - 1)
  {
    RemovedMembers(order, id);
    var r := Removed(order, id);
    if after != "" && after in r {
      BeforeFirst(r, after);
      FirstWithin(r, after);
      i := First(r, after) + 1;
      assert r[..i][..i - 1] == r[..i - 1];
    } else {
      i := |r|;
      assert r[..i] == r && r[i..] == [] && r + [id] + [] == r + [id];
    }
    var q := InsertTabId(order, id, after);
    assert q == r[..i] + [id] + r[i..];
    hide InsertTabId, Removed, First;
    InsertedAt(r, i, id);
  }

  lemma InsertedAt(r: seq<string>, i: nat, x: string)
    requires i <= |r| && x !in r
    ensures var q := r[..i] + [x] + r[i..];
      q[i] == x && q[..i] == r[..i] && q[i + 1..] == r[i..] && r[..i] + r[i..] == r && x !in r[..i] && x !in r[i..]
  {
  }

  /** After normalising, a new tab stands immediately behind its anchor. */
  lemma InsertedAfterAnchor(order: seq<string>, rs: seq<TabRecord>, id: string, after: string)
    requires id in Ids(rs) && after in Ids(rs) && after in order && after != id && after != ""
    ensures var q := Normalize(InsertTabId(order, id, after), rs);
      exists i :: 0 <= i < |q| - 1 && q[i] == after && q[i + 1] == id
  {
    var ids, tail, q := Ids(rs), IdsInOrder(BySequence(rs)), Removed(order, id);
    RemovedMembers(order, id);
    FirstWithin(q, after);
    var k := First(q, after);
    var head, rest := q[..k], q[k + 1..] + tail;
    BeforeFirst(q, after);
    InsertSplits(order, id, after, tail);
    assert forall x | x in head :: x in q;
    hide Removed, InsertTabId, First, BySequence;
    KeptConcat(head, [after, id] + rest, ids, {});
    var seen := {} + set x | x in head && x in ids;
    KeptPair(after, id, rest, ids, seen);
    hide Kept;
    var a, b := Kept(head, ids, {}), Kept(rest, ids, seen + {after} + {id});
    assert Normalize(InsertTabId(order, id, after), rs) == a + ([after, id] + b);
    assert (a + ([after, id] + b))[|a|] == after && (a + ([after, id] + b))[|a| + 1] == id;
  }

  lemma InsertSplits(order: seq<string>, id: string, after: string, tail: seq<string>)
    requires after in Removed(order, id) && after != ""
    ensures var q := Removed(order, id); var k := First(q, after);
      && k < |q| && q[k] == after
      && InsertTabId(order, id, after) + tail == q[..k] + ([after, id] + (q[k + 1..] + tail))
  {
    var q := Removed(order, id);
    var k := First(q, after);
    FirstWithin(q, after);
    assert q[..k + 1] == q[..k] + [after];
    hide *;
    Regroup(q[..k], after, id, q[k + 1..], tail);
  }

  lemma Regroup(a: seq<string>, x: string, y: string, b: seq<string>, c: seq<string>)
    ensures a + [x] + [y] + b + c == a + ([x, y] + (b + c))
  {
    assert [x, y] == [x] + [y];
  }

  /** What is left of the order, then of the records behind it. */
  lemma NextLeft(order: seq<string>, tail: seq<string>, i: nat)
    requires i < |order|
    ensures var left := order[i..] + tail; left != [] && left[0] == order[i] && left[1..] == order[i + 1..] + tail
  {
  }

  lemma KeptPair(x: string, y: string, rest: seq<string>, ids: set<string>, seen: set<string>)
    requires x in ids && y in ids && x != y && x !in seen && y !in seen
    ensures Kept([x, y] + rest, ids, seen) == [x, y] + Kept(rest, ids, seen + {x} + {y})
  {
    var q := [x, y] + rest;
    assert q[0] == x && q[1..] == [y] + rest && ([y] + rest)[0] == y && ([y] + rest)[1..] == rest;
    assert [x] + ([y] + Kept(rest, ids, seen + {x} + {y})) == [x, y] + Kept(rest, ids, seen + {x} + {y});
  }

  /** Without an anchor the new tab stands behind every tab the document had ordered,
      and ahead of those it had not. */
  lemma InsertedLast(order: seq<string>, rs: seq<TabRecord>, id: string, after: string)
    requires id in Ids(rs) && (after == "" || after !in order || after == id)
    ensures var q, ahead := Normalize(InsertTabId(order, id, after), rs), Kept(Removed(order, id), Ids(rs), {});
      |ahead| < |q| && q[..|ahead|] == ahead && q[|ahead|] == id
  {
    var ids, tail, r := Ids(rs), IdsInOrder(BySequence(rs)), Removed(order, id);
    RemovedMembers(order, id);
    var seen := {} + set x | x in r && x in ids;
    assert InsertTabId(order, id, after) == r + [id];
    assert r + [id] + tail == r + ([id] + tail);
    hide InsertTabId, Removed, BySequence;
    KeptConcat(r, [id] + tail, ids, {});
    assert ([id] + tail)[0] == id && ([id] + tail)[1..] == tail;
    var a, b := Kept(r, ids, {}), Kept(tail, ids, seen + {id});
    assert Kept([id] + tail, ids, seen) == [id] + b;
    hide Kept;
    assert Normalize(InsertTabId(order, id, after), rs) == a + ([id] + b);
    assert (a + ([id] + b))[|a|] == id;
  }

  lemma {:induction false} BeforeFirst(q: seq<string>, x: string)
    requires x in q
    ensures First(q, x) < |q| && x !in q[..First(q, x)]
    decreases |q|
  {
    if q[0] != x {
      BeforeFirst(q[1..], x);
      assert q[..First(q, x)] == [q[0]] + q[1..][..First(q[1..], x)];
    }
  }

  // ----- as the document runs them

  method NormalizeLocalOrder(order: seq<string>, rs: seq<TabRecord>) returns (normalized: seq<string>)
    ensures normalized == Normalize(order, rs)
  {
    hide Kept, BySequence, Ids;
    var ids := Ids(rs);
    var seen: set<string> := {};
    normalized := [];
    var sorted := BySequence(rs);
    ghost var tail := IdsInOrder(sorted);
    var i := 0;
    assert order[0..] + tail == order + tail;
    while i < |order|
      invariant 0 <= i <= |order|
      invariant normalized + Kept(order[i..] + tail, ids, seen) == Normalize(order, rs)
    {
      ghost var left := order[i..] + tail;
      NextLeft(order, tail, i);
      KeptStep(normalized, left, ids, seen);
      if order[i] in ids && order[i] !in seen {
        normalized := normalized + [order[i]];
        seen := seen + {order[i]};
      }
      i := i + 1;
    }
    assert order[i..] + tail == tail == tail[0..];
    SortedIdsMembers(rs);
    i := 0;
    while i < |sorted|
      invariant 0 <= i <= |sorted|
      invariant normalized + Kept(tail[i..], ids, seen) == Normalize(order, rs)
    {
      ghost var left := tail[i..];
      NextLeft(tail, [], i);
      assert left + [] == left && tail[i + 1..] + [] == tail[i + 1..] && tail[i] in tail;
      KeptStep(normalized, left, ids, seen);
      if sorted[i].id !in seen {
        normalized := normalized + [sorted[i].id];
        seen := seen + {sorted[i].id};
      }
      i := i + 1;
    }
    assert tail[i..] == [];
    KeptNone(ids, seen);
  }

  lemma KeptNone(ids: set<string>, seen: set<string>)
    ensures Kept([], ids, seen) == []
  {
  }

  lemma KeptStep(done: seq<string>, left: seq<string>, ids: set<string>, seen: set<string>)
    requires left != []
    ensures done + Kept(left, ids, seen)
         == if left[0] in ids && left[0] !in seen then done + [left[0]] + Kept(left[1..], ids, seen + {left[0]})
            else done + Kept(left[1..], ids, seen)
  {
    if left[0] in ids && left[0] !in seen {
      assert done + ([left[0]] + Kept(left[1..], ids, seen + {left[0]}))
          == done + [left[0]] + Kept(left[1..], ids, seen + {left[0]});
    }
  }

  datatype EntryKind = Fresh | Handoff | Continuation

  function ReconcileActiveTabId(current: string, ids: set<string>, pending: string, kind: EntryKind, first: string)
    : (active: string)
    ensures active in ids || active == first || (active == "" && kind != Continuation)
  {
    if pending != "" && pending in ids then pending
    else if current != "" && current in ids then current
    else if current == "" && kind != Continuation then current
    else first
  }

  /** With records there is always an active tab, save in a fresh document that has made
      none yet; and a second look changes nothing. */
  lemma ActiveTabIsStable(current: string, ids: set<string>, pending: string, kind: EntryKind, first: string)
    requires first in ids && first != ""
    ensures var active := ReconcileActiveTabId(current, ids, pending, kind, first);
      && (active in ids || (active == "" && current == "" && kind != Continuation))
      && ReconcileActiveTabId(active, ids, pending, kind, first) == active
      && (if pending != "" && pending in ids then active == pending
          else if current != "" && current in ids then active == current
          else if current == "" && kind in {Fresh, Handoff} then active == ""
          else active == first)
  {
  }
}
