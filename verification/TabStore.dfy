/** The shared tab store: one snapshot in browser storage, changed under an exclusive
    lock, and a view of it in every document, kept current by storage events. */
module TabStore {
  import opened Options

  const SCHEMA: int := 1
  const MAX_SAFE: int := 0x1F_FFFF_FFFF_FFFF

  datatype TabRecord = TabRecord(id: string, path: string, name: string, customName: Option<string>, sequence: int)

  datatype Snapshot = Snapshot(schemaVersion: int, epoch: int, revision: int, records: seq<TabRecord>)

  /** What the storage key holds: `Text` is an object whose fields all have their types.
      `Broken` stands for text that is no object, or one with a good version and an entry
      of another type among its records; `Misshapen` for any other object. */
  datatype Stored = Missing | Broken | Misshapen | Text(snapshot: Snapshot)

  datatype Error = StaleVersion | InvalidSnapshot | IdCollision | RecordNotFound

  datatype Result<T> = Ok(value: T) | Err(error: Error)

  datatype Version = Version(schemaVersion: Option<int>, epoch: Option<int>, revision: Option<int>)

  const EMPTY := Snapshot(SCHEMA, 0, 0, [])

  // ----- reading

  predicate IsRecord(r: TabRecord) {
    r.id != "" && r.name != "" && 0 < r.sequence <= MAX_SAFE
  }

  predicate IsVersion(s: Snapshot) {
    s.schemaVersion == SCHEMA && 0 <= s.epoch <= MAX_SAFE && 0 <= s.revision <= MAX_SAFE
  }

  ghost predicate UniqueIds(rs: seq<TabRecord>) {
    forall i, j | 0 <= i < j < |rs| :: rs[i].id != rs[j].id
  }

  ghost predicate UniqueSequences(rs: seq<TabRecord>) {
    forall i, j | 0 <= i < j < |rs| :: rs[i].sequence != rs[j].sequence
  }

  ghost predicate Good(rs: seq<TabRecord>) {
    (forall i | 0 <= i < |rs| :: IsRecord(rs[i])) && UniqueIds(rs) && UniqueSequences(rs)
  }

  ghost predicate Valid(s: Snapshot) {
    IsVersion(s) && Good(s.records)
  }

  ghost function Parse(stored: Stored): Result<Snapshot> {
    match stored
    case Missing => Ok(EMPTY)
    case Broken => Err(InvalidSnapshot)
    case Misshapen => Err(StaleVersion)
    case Text(s) => if !IsVersion(s) then Err(StaleVersion) else if Valid(s) then Ok(s) else Err(InvalidSnapshot)
  }

  lemma ParseText(stored: Stored)
    ensures Parse(Missing) == Ok(EMPTY)
    ensures Parse(Broken) == Err(InvalidSnapshot)
    ensures Parse(Misshapen) == Err(StaleVersion)
    ensures stored.Text? && !IsVersion(stored.snapshot) ==> Parse(stored) == Err(StaleVersion)
    ensures stored.Text? && IsVersion(stored.snapshot) ==>
        Parse(stored) == if Good(stored.snapshot.records) then Ok(stored.snapshot) else Err(InvalidSnapshot)
  {
  }

  method ParseSnapshot(stored: Stored) returns (r: Result<Snapshot>)
    ensures r == Parse(stored)
  {
    ParseText(stored);
    hide Parse, Valid;
    match stored
    case Missing => return Ok(EMPTY);
    case Broken => return Err(InvalidSnapshot);
    case Misshapen => return Err(StaleVersion);
    case Text(s) =>
      if !IsVersion(s) {
        return Err(StaleVersion);
      }
      var records: seq<TabRecord> := [];
      var i := 0;
      while i < |s.records|
        invariant 0 <= i <= |s.records| && records == s.records[..i]
        invariant forall j | 0 <= j < i :: IsRecord(s.records[j])
      {
        if !IsRecord(s.records[i]) {
          return Err(InvalidSnapshot);
        }
        records := records + [s.records[i]];
        i := i + 1;
      }
      assert records == s.records;
      var ids: set<string>, sequences: set<int> := {}, {};
      i := 0;
      while i < |records|
        invariant 0 <= i <= |records|
        invariant forall x :: x in ids <==> exists j :: 0 <= j < i && records[j].id == x
        invariant forall x :: x in sequences <==> exists j :: 0 <= j < i && records[j].sequence == x
        invariant UniqueIds(records[..i]) && UniqueSequences(records[..i])
      {
        if records[i].id in ids || records[i].sequence in sequences {
          return Err(InvalidSnapshot);
        }
        ids := ids + {records[i].id};
        sequences := sequences + {records[i].sequence};
        i := i + 1;
      }
      assert records[..i] == records;
      return Ok(Snapshot(s.schemaVersion, s.epoch, s.revision, records));
  }

  // ----- versions

  predicate VersionMatches(s: Snapshot, v: Option<Version>) {
    v.Some? ==>
      && (v.value.schemaVersion.Some? ==> v.value.schemaVersion.value == s.schemaVersion)
      && (v.value.epoch.Some? ==> v.value.epoch.value == s.epoch)
      && (v.value.revision.Some? ==> v.value.revision.value == s.revision)
  }

  /** Epoch first, then revision. */
  predicate Newer(a: Snapshot, b: Snapshot) {
    a.epoch > b.epoch || (a.epoch == b.epoch && a.revision > b.revision)
  }

  predicate SameVersion(a: Snapshot, b: Snapshot) {
    a.epoch == b.epoch && a.revision == b.revision
  }

  // ----- a fresh tab ID

  function Digit(d: nat): char
    requires d < 10
  {
    "0123456789"[d]
  }

  function Decimal(n: nat): string {
    if n < 10 then [Digit(n)] else Decimal(n / 10) + [Digit(n % 10)]
  }

  /** The k-th ID tried, for a generator that gives `gen(k)` on its k-th call. */
  function Candidate(gen: nat -> string, k: nat): string {
    if k == 0 then gen(0) else gen(k) + "-" + Decimal(k)
  }

  lemma {:induction false} DecimalDigits(n: nat)
    ensures Decimal(n) != [] && '-' !in Decimal(n)
  {
    if n >= 10 {
      DecimalDigits(n / 10);
    }
  }

  lemma {:induction false} DecimalInjective(m: nat, n: nat)
    requires Decimal(m) == Decimal(n)
    ensures m == n
  {
    if m < 10 && n < 10 {
    } else if m >= 10 && n >= 10 {
      var a, b := Decimal(m), Decimal(n);
      assert a[..|a| - 1] == Decimal(m / 10) && b[..|b| - 1] == Decimal(n / 10);
      DecimalInjective(m / 10, n / 10);
      assert a[|a| - 1] == b[|b| - 1];
    } else {
      DecimalDigits(m / 10);
      DecimalDigits(n / 10);
      assert false;
    }
  }

  /** The number a string of digits stands for. */
  function Value(s: string): int {
    if s == "" then 0 else 10 * Value(s[..|s| - 1]) + (s[|s| - 1] as int - '0' as int)
  }

  lemma {:induction false} DecimalMeans(n: nat)
    ensures Value(Decimal(n)) == n && Decimal(n) != ""
    ensures forall c | c in Decimal(n) :: '0' <= c <= '9'
    ensures Decimal(n)[0] == '0' ==> n == 0
  {
    var s := Decimal(n);
    if n >= 10 {
      DecimalMeans(n / 10);
      assert s[..|s| - 1] == Decimal(n / 10);
    } else {
      assert s[..0] == "";
    }
  }

  /** What follows the last hyphen tells the tries apart. */
  lemma SuffixInjective(a: string, b: string, m: nat, n: nat)
    requires a + "-" + Decimal(m) == b + "-" + Decimal(n)
    ensures m == n
  {
    DecimalDigits(m);
    DecimalDigits(n);
    var s, x, y := a + "-" + Decimal(m), Decimal(m), Decimal(n);
    assert s == b + "-" + y;
    assert s[|a|] == '-' && s[|b|] == '-';
    forall i | |a| < i < |s| ensures s[i] != '-' {
      assert s[i] == x[i - |a| - 1];
    }
    forall i | |b| < i < |s| ensures s[i] != '-' {
      assert s[i] == y[i - |b| - 1];
    }
    assert x == s[|a| + 1..] && y == s[|b| + 1..];
    DecimalInjective(m, n);
  }

  function Tried(gen: nat -> string, k: nat): set<string> {
    set j | 1 <= j <= k :: Candidate(gen, j)
  }

  lemma {:induction false} TriedDistinct(gen: nat -> string, k: nat)
    ensures |Tried(gen, k)| == k
  {
    if k == 0 {
      assert Tried(gen, 0) == {};
    } else {
      TriedDistinct(gen, k - 1);
      forall j | 1 <= j < k ensures Candidate(gen, j) != Candidate(gen, k) {
        if Candidate(gen, j) == Candidate(gen, k) {
          SuffixInjective(gen(j), gen(k), j, k);
        }
      }
      assert Tried(gen, k) == Tried(gen, k - 1) + {Candidate(gen, k)};
    }
  }

  lemma SubsetSize(a: set<string>, b: set<string>)
    requires a <= b
    ensures |a| <= |b|
  {
    assert b == a + (b - a);
  }

  /** Whatever the generator gives, at most |ids| + 1 retries collide. */
  lemma CollisionsEnd(ids: set<string>, gen: nat -> string, k: nat)
    requires forall j | 0 <= j <= k :: Candidate(gen, j) in ids
    ensures k <= |ids|
  {
    TriedDistinct(gen, k);
    assert Tried(gen, k) <= ids;
    SubsetSize(Tried(gen, k), ids);
  }

  /** The first try, from the k-th on, that collides with nothing. */
  function FirstFree(ids: set<string>, gen: nat -> string, k: nat): (n: nat)
    requires k <= |ids| + 1 && forall j | 0 <= j < k :: Candidate(gen, j) in ids
    ensures k <= n && Candidate(gen, n) !in ids && forall j | 0 <= j < n :: Candidate(gen, j) in ids
    ensures n <= |ids| + 1
    decreases |ids| + 2 - k
  {
    if Candidate(gen, k) !in ids then k
    else
      CollisionsEnd(ids, gen, k);
      FirstFree(ids, gen, k + 1)
  }

  lemma WholeSet(a: set<string>, b: set<string>)
    requires a <= b && |a| == |b|
    ensures a == b
  {
    assert b == a + (b - a);
  }

  /** The last try is needed exactly when the IDs are the suffixed candidates and nothing
      else, and the plain one is among them too. */
  lemma LastTryIff(ids: set<string>, gen: nat -> string)
    ensures FirstFree(ids, gen, 0) == |ids| + 1 <==> ids == Tried(gen, |ids|) && gen(0) in ids
  {
    var n := FirstFree(ids, gen, 0);
    TriedDistinct(gen, |ids|);
    if n == |ids| + 1 {
      assert Candidate(gen, 0) in ids && Tried(gen, |ids|) <= ids;
      WholeSet(Tried(gen, |ids|), ids);
    }
    if ids == Tried(gen, |ids|) && gen(0) in ids {
      forall j | 0 <= j <= |ids| ensures Candidate(gen, j) in ids {
        assert 1 <= j <= |ids| ==> Candidate(gen, j) in Tried(gen, |ids|);
      }
    }
  }

  /** So a generator that first gives none of the suffixed candidates needs one try fewer. */
  lemma LastTryUnneeded(ids: set<string>, gen: nat -> string)
    requires forall k | 1 <= k <= |ids| :: gen(0) != Candidate(gen, k)
    ensures FirstFree(ids, gen, 0) <= |ids|
  {
    LastTryIff(ids, gen);
  }

  /** A generator that does need it: it repeats a suffixed ID. */
  lemma LastTryIsReached()
    ensures var gen := (k: nat) => if k == 0 then "x-1" else "x"; FirstFree({"x-1"}, gen, 0) == |{"x-1"}| + 1
  {
    var gen := (k: nat) => if k == 0 then "x-1" else "x";
    assert Candidate(gen, 0) == "x-1" && Candidate(gen, 1) == "x-1";
    assert FirstFree({"x-1"}, gen, 0) >= 2;
  }

  function Ids(rs: seq<TabRecord>): set<string> {
    set r | r in rs :: r.id
  }

  function FreshDefault(rs: seq<TabRecord>, gen: nat -> string): TabRecord {
    TabRecord(Candidate(gen, FirstFree(Ids(rs), gen, 0)), "/", "Home", None, 1)
  }

  /** Within |records| + 2 tries, for any generator. */
  method CreateFreshDefaultRecord(rs: seq<TabRecord>, gen: nat -> string) returns (r: TabRecord, tries: nat)
    ensures r == FreshDefault(rs, gen)
    ensures tries == FirstFree(Ids(rs), gen, 0) + 1 <= |Ids(rs)| + 2
  {
    var ids := Ids(rs);
    var id := gen(0);
    var collision: nat := 0;
    while id in ids
      invariant id == Candidate(gen, collision)
      invariant forall j | 0 <= j < collision :: Candidate(gen, j) in ids
      invariant collision <= |ids| + 1
      decreases |ids| + 1 - collision
    {
      CollisionsEnd(ids, gen, collision);
      collision := collision + 1;
      id := gen(collision) + "-" + Decimal(collision);
    }
    assert collision == FirstFree(ids, gen, 0) by {
      var n := FirstFree(ids, gen, 0);
      assert Candidate(gen, n) !in ids;
    }
    r := TabRecord(id, "/", "Home", None, 1);
    tries := collision + 1;
  }

  // ----- mutations

  /** One call of the store's API, with what it reads of the world: a derived tab name
      is given by `nameOf`, generated IDs by `gen`, the clock by `now`. */
  datatype Op =
    | Create(id: string, path: string, name: string, customName: string)
    | UpdatePath(id: string, path: string)
    | UpdateName(id: string, name: string)
    | Rename(id: string, customName: string)
    | Close(id: string, gen: nat -> string)
    | Reset(givenId: Option<string>, givenPath: Option<string>, givenName: Option<string>, customName: string,
            now: string)

  function Or(a: string, b: string): string {
    if a != "" then a else b
  }

  function Unless(a: string): Option<string> {
    if a != "" then Some(a) else None
  }

  function HasId(rs: seq<TabRecord>, id: string): bool {
    exists i :: 0 <= i < |rs| && rs[i].id == id
  }

  function MaxSequence(rs: seq<TabRecord>): (m: int)
    ensures 0 <= m && forall i | 0 <= i < |rs| :: rs[i].sequence <= m
    ensures m == 0 || exists i :: 0 <= i < |rs| && rs[i].sequence == m
  {
    if rs == [] then 0
    else
      var m := MaxSequence(rs[..|rs| - 1]);
      var last := rs[|rs| - 1].sequence;
      assert forall i | 0 <= i < |rs| - 1 :: rs[..|rs| - 1][i] == rs[i];
      if last > m then last else m
  }

  /** Replace the record that has this ID. */
  function Changed(rs: seq<TabRecord>, id: string, change: TabRecord -> TabRecord): (rs': seq<TabRecord>)
    ensures |rs'| == |rs|
    ensures forall i | 0 <= i < |rs| :: rs'[i] == if rs[i].id == id then change(rs[i]) else rs[i]
  {
    seq(|rs|, i requires 0 <= i < |rs| => if rs[i].id == id then change(rs[i]) else rs[i])
  }

  function WithoutId(rs: seq<TabRecord>, id: string): seq<TabRecord> {
    if rs == [] then []
    else if rs[0].id == id then WithoutId(rs[1..], id)
    else [rs[0]] + WithoutId(rs[1..], id)
  }

  function Repath(nameOf: string -> string, path: string): TabRecord -> TabRecord {
    (r: TabRecord) => r.(path := path, name := nameOf(path))
  }

  function Retitle(nameOf: string -> string, name: string): TabRecord -> TabRecord {
    (r: TabRecord) => r.(name := Or(name, nameOf(r.path)))
  }

  function Relabel(customName: string): TabRecord -> TabRecord {
    (r: TabRecord) => r.(customName := Unless(customName))
  }

  /** What a mutation makes of the snapshot it finds. */
  function Transition(nameOf: string -> string, s: Snapshot, op: Op): Result<Snapshot> {
    match op
    case Create(id, path, name, customName) =>
      if HasId(s.records, id) then Err(IdCollision)
      else
        var r := TabRecord(id, path, Or(name, nameOf(path)), Unless(customName), MaxSequence(s.records) + 1);
        Ok(Revised(s, s.records + [r]))
    case UpdatePath(id, path) =>
      if !HasId(s.records, id) then Err(RecordNotFound)
      else Ok(Revised(s, Changed(s.records, id, Repath(nameOf, path))))
    case UpdateName(id, name) =>
      if !HasId(s.records, id) then Err(RecordNotFound)
      else Ok(Revised(s, Changed(s.records, id, Retitle(nameOf, name))))
    case Rename(id, customName) =>
      if !HasId(s.records, id) then Err(RecordNotFound)
      else Ok(Revised(s, Changed(s.records, id, Relabel(customName))))
    case Close(id, gen) =>
      if !HasId(s.records, id) then Err(RecordNotFound)
      else if |s.records| == 1 then Ok(Revised(s, [FreshDefault(s.records, gen)]))
      else Ok(Revised(s, WithoutId(s.records, id)))
    case Reset(id, path, name, customName, now) =>
      var p := if path.Some? then path.value else "/";
      var r := TabRecord(if id.Some? then id.value else "home-" + now, p,
                         if name.Some? then name.value else nameOf(p), Unless(customName), 1);
      Ok(Snapshot(s.schemaVersion, s.epoch + 1, 1, [r]))
  }

  function Revised(s: Snapshot, rs: seq<TabRecord>): Snapshot {
    Snapshot(s.schemaVersion, s.epoch, s.revision + 1, rs)
  }

  /** One mutation under the lock: read, compare the version, apply. */
  ghost function Commit(nameOf: string -> string, stored: Stored, v: Option<Version>, op: Op): Result<Snapshot> {
    match Parse(stored)
    case Err(e) => Err(e)
    case Ok(s) => if !VersionMatches(s, v) then Err(StaleVersion) else Transition(nameOf, s, op)
  }

  lemma CommitIsNewer(nameOf: string -> string, stored: Stored, v: Option<Version>, op: Op)
    requires Commit(nameOf, stored, v, op).Ok?
    ensures Parse(stored).Ok? && VersionMatches(Parse(stored).value, v)
    ensures Newer(Commit(nameOf, stored, v, op).value, Parse(stored).value)
    ensures Transition(nameOf, Parse(stored).value, op) == Commit(nameOf, stored, v, op)
    ensures Commit(nameOf, stored, v, op).value.schemaVersion == SCHEMA
  {
  }

  // ----- what a commit leaves behind

  ghost predicate AscendingSequences(rs: seq<TabRecord>) {
    forall i, j | 0 <= i < j < |rs| :: rs[i].sequence < rs[j].sequence
  }

  /** The inputs and counters with which an accepted mutation leaves a readable snapshot. */
  predicate Fine(nameOf: string -> string, s: Snapshot, op: Op) {
    match op
    case Create(id, path, name, _) =>
      id != "" && (name != "" || nameOf(path) != "") && MaxSequence(s.records) < MAX_SAFE && s.revision < MAX_SAFE
    case UpdatePath(_, path) => nameOf(path) != "" && s.revision < MAX_SAFE
    case UpdateName(id, name) =>
      (name != "" || forall i | 0 <= i < |s.records| && s.records[i].id == id :: nameOf(s.records[i].path) != "")
      && s.revision < MAX_SAFE
    case Rename(_, _) => s.revision < MAX_SAFE
    case Close(_, gen) => (|s.records| == 1 ==> FreshDefault(s.records, gen).id != "") && s.revision < MAX_SAFE
    case Reset(id, path, name, _, _) =>
      && (id.Some? ==> id.value != "") && s.epoch < MAX_SAFE
      && (if name.Some? then name.value != "" else nameOf(if path.Some? then path.value else "/") != "")
  }

  lemma {:induction false} WithoutIdMembers(rs: seq<TabRecord>, id: string)
    ensures forall r :: r in WithoutId(rs, id) <==> r in rs && r.id != id
  {
    if rs != [] {
      WithoutIdMembers(rs[1..], id);
      assert forall r :: r in rs <==> r == rs[0] || r in rs[1..];
    }
  }

  ghost predicate Pairwise(rs: seq<TabRecord>, rel: (TabRecord, TabRecord) -> bool) {
    forall i, j | 0 <= i < j < |rs| :: rel(rs[i], rs[j])
  }

  lemma {:induction false} WithoutIdPairwise(rs: seq<TabRecord>, id: string, rel: (TabRecord, TabRecord) -> bool)
    requires Pairwise(rs, rel)
    ensures Pairwise(WithoutId(rs, id), rel)
  {
    if rs != [] {
      var rest, q := rs[1..], WithoutId(rs, id);
      assert forall i | 0 <= i < |rest| :: rest[i] == rs[i + 1];
      WithoutIdPairwise(rest, id, rel);
      WithoutIdMembers(rest, id);
      if rs[0].id != id {
        forall j | 0 < j < |q| ensures rel(q[0], q[j]) {
          assert q[j] == WithoutId(rest, id)[j - 1] && q[j] in WithoutId(rest, id);
          var k :| 0 <= k < |rest| && rest[k] == q[j];
          assert rel(rs[0], rs[k + 1]);
        }
        forall i, j | 0 < i < j < |q| ensures rel(q[i], q[j]) {
          assert q[i] == WithoutId(rest, id)[i - 1] && q[j] == WithoutId(rest, id)[j - 1];
        }
      }
    }
  }

  /** Closing one of several tabs leaves the others, in order. */
  lemma WithoutIdKeeps(rs: seq<TabRecord>, id: string)
    requires UniqueIds(rs)
    ensures var q := WithoutId(rs, id);
      && UniqueIds(q) && (UniqueSequences(rs) ==> UniqueSequences(q))
      && (AscendingSequences(rs) ==> AscendingSequences(q))
      && (|rs| > 1 ==> q != [])
  {
    var ids := (a: TabRecord, b: TabRecord) => a.id != b.id;
    var sequences := (a: TabRecord, b: TabRecord) => a.sequence != b.sequence;
    var order := (a: TabRecord, b: TabRecord) => a.sequence < b.sequence;
    hide WithoutId;
    assert Pairwise(rs, ids);
    WithoutIdPairwise(rs, id, ids);
    assert UniqueSequences(rs) ==> Pairwise(rs, sequences);
    if UniqueSequences(rs) {
      WithoutIdPairwise(rs, id, sequences);
    }
    if AscendingSequences(rs) {
      assert Pairwise(rs, order);
      WithoutIdPairwise(rs, id, order);
    }
    WithoutIdMembers(rs, id);
    if |rs| > 1 {
      assert rs[0] in rs && rs[1] in rs;
      assert rs[0] in WithoutId(rs, id) || rs[1] in WithoutId(rs, id);
    }
  }

  lemma ChangedKeeps(rs: seq<TabRecord>, id: string, change: TabRecord -> TabRecord)
    requires forall r: TabRecord :: change(r).id == r.id && change(r).sequence == r.sequence
    ensures var q := Changed(rs, id, change);
      && (UniqueIds(rs) ==> UniqueIds(q)) && (UniqueSequences(rs) ==> UniqueSequences(q))
      && (AscendingSequences(rs) ==> AscendingSequences(q))
  {
    var q := Changed(rs, id, change);
    assert forall i | 0 <= i < |rs| :: q[i].id == rs[i].id && q[i].sequence == rs[i].sequence;
  }

  lemma OnlyRecord(r: TabRecord)
    ensures UniqueIds([r]) && UniqueSequences([r]) && AscendingSequences([r])
  {
  }

  /** The record an accepted mutation of one record finds. */
  lemma FoundRecord(rs: seq<TabRecord>, id: string) returns (i: nat)
    requires HasId(rs, id)
    ensures i < |rs| && rs[i].id == id
  {
    i :| 0 <= i < |rs| && rs[i].id == id;
  }

  ghost predicate AllRecords(rs: seq<TabRecord>) {
    forall i | 0 <= i < |rs| :: IsRecord(rs[i])
  }

  lemma RevisedValidIff(s: Snapshot, rs: seq<TabRecord>)
    ensures Valid(s) && UniqueIds(rs) && UniqueSequences(rs) ==>
        (Valid(Revised(s, rs)) <==> AllRecords(rs) && s.revision < MAX_SAFE)
  {
  }

  lemma CreateValidIff(nameOf: string -> string, s: Snapshot, op: Op)
    requires Valid(s) && op.Create? && Transition(nameOf, s, op).Ok?
    ensures Valid(Transition(nameOf, s, op).value) <==> Fine(nameOf, s, op)
  {
    var r := TabRecord(op.id, op.path, Or(op.name, nameOf(op.path)), Unless(op.customName), MaxSequence(s.records) + 1);
    RevisedValidIff(s, s.records + [r]);
    hide Valid, UniqueIds, UniqueSequences;
    assert AllRecords(s.records) by {
      ValidRecords(s);
    }
    assert AllRecords(s.records + [r]) <==> IsRecord(r) by {
      assert (s.records + [r])[|s.records|] == r;
    }
  }

  lemma ValidRecords(s: Snapshot)
    requires Valid(s)
    ensures AllRecords(s.records) && UniqueIds(s.records) && UniqueSequences(s.records)
  {
  }

  /** Changing one record keeps the snapshot readable exactly when its new name is not empty. */
  lemma ChangeValidIff(s: Snapshot, id: string, change: TabRecord -> TabRecord)
    requires Valid(s)
    requires forall r: TabRecord :: change(r).id == r.id && change(r).sequence == r.sequence
    ensures Valid(Revised(s, Changed(s.records, id, change))) <==>
        && s.revision < MAX_SAFE
        && forall i | 0 <= i < |s.records| && s.records[i].id == id :: change(s.records[i]).name != ""
  {
    ChangedKeeps(s.records, id, change);
    RevisedValidIff(s, Changed(s.records, id, change));
    ValidRecords(s);
    hide Valid, UniqueIds, UniqueSequences;
    var q := Changed(s.records, id, change);
    forall i | 0 <= i < |q| ensures IsRecord(q[i]) <==> (s.records[i].id == id ==> change(s.records[i]).name != "") {
      assert IsRecord(s.records[i]);
    }
  }

  lemma CloseValidIff(nameOf: string -> string, s: Snapshot, op: Op)
    requires Valid(s) && op.Close? && Transition(nameOf, s, op).Ok?
    ensures Valid(Transition(nameOf, s, op).value) <==> Fine(nameOf, s, op)
  {
    ValidRecords(s);
    if |s.records| == 1 {
      var r := FreshDefault(s.records, op.gen);
      OnlyRecord(r);
      RevisedValidIff(s, [r]);
      assert AllRecords([r]) <==> IsRecord([r][0]);
    } else {
      var q := WithoutId(s.records, op.id);
      WithoutIdMembers(s.records, op.id);
      WithoutIdKeeps(s.records, op.id);
      RevisedValidIff(s, q);
      assert AllRecords(q) by {
        forall i | 0 <= i < |q| ensures IsRecord(q[i]) {
          assert q[i] in q;
        }
      }
    }
  }

  lemma UpdatePathValidIff(nameOf: string -> string, s: Snapshot, op: Op)
    requires Valid(s) && op.UpdatePath? && Transition(nameOf, s, op).Ok?
    ensures Valid(Transition(nameOf, s, op).value) <==> Fine(nameOf, s, op)
  {
    var change := Repath(nameOf, op.path);
    ChangeValidIff(s, op.id, change);
    var i := FoundRecord(s.records, op.id);
    hide Valid;
    assert change(s.records[i]).name == nameOf(op.path);
  }

  lemma UpdateNameValidIff(nameOf: string -> string, s: Snapshot, op: Op)
    requires Valid(s) && op.UpdateName? && Transition(nameOf, s, op).Ok?
    ensures Valid(Transition(nameOf, s, op).value) <==> Fine(nameOf, s, op)
  {
    var change := Retitle(nameOf, op.name);
    ChangeValidIff(s, op.id, change);
    var k := FoundRecord(s.records, op.id);
    hide Valid;
    forall i | 0 <= i < |s.records| && s.records[i].id == op.id
      ensures change(s.records[i]).name != "" <==> op.name != "" || nameOf(s.records[i].path) != ""
    {
      RetitleName(nameOf, op.name, s.records[i]);
    }
  }

  lemma RetitleName(nameOf: string -> string, name: string, r: TabRecord)
    ensures Retitle(nameOf, name)(r).name == Or(name, nameOf(r.path))
  {
  }

  lemma RenameValidIff(nameOf: string -> string, s: Snapshot, op: Op)
    requires Valid(s) && op.Rename? && Transition(nameOf, s, op).Ok?
    ensures Valid(Transition(nameOf, s, op).value) <==> Fine(nameOf, s, op)
  {
    var change := Relabel(op.customName);
    ChangeValidIff(s, op.id, change);
    ValidRecords(s);
    hide Valid;
    forall i | 0 <= i < |s.records| && s.records[i].id == op.id ensures change(s.records[i]).name != "" {
      assert IsRecord(s.records[i]);
    }
  }

  lemma ResetValidIff(nameOf: string -> string, s: Snapshot, op: Op)
    requires Valid(s) && op.Reset? && Transition(nameOf, s, op).Ok?
    ensures Valid(Transition(nameOf, s, op).value) <==> Fine(nameOf, s, op)
  {
    var t := Transition(nameOf, s, op).value;
    OnlyRecord(t.records[0]);
    assert AllRecords(t.records) <==> IsRecord(t.records[0]);
  }

  /** An accepted mutation of a readable snapshot leaves a readable one exactly when its
      inputs are not empty and its counters have room. */
  lemma TransitionValidIff(nameOf: string -> string, s: Snapshot, op: Op)
    requires Valid(s) && Transition(nameOf, s, op).Ok?
    ensures Valid(Transition(nameOf, s, op).value) <==> Fine(nameOf, s, op)
  {
    hide Valid, Transition, Fine;
    match op
    case Create(_, _, _, _) => CreateValidIff(nameOf, s, op);
    case UpdatePath(_, _) => UpdatePathValidIff(nameOf, s, op);
    case UpdateName(_, _) => UpdateNameValidIff(nameOf, s, op);
    case Rename(_, _) => RenameValidIff(nameOf, s, op);
    case Close(_, _) => CloseValidIff(nameOf, s, op);
    case Reset(_, _, _, _, _) => ResetValidIff(nameOf, s, op);
  }

  /** No mutation empties the store or breaks the order of creation. */
  lemma TransitionKeepsOrder(nameOf: string -> string, s: Snapshot, op: Op)
    requires UniqueIds(s.records) && AscendingSequences(s.records) && Transition(nameOf, s, op).Ok?
    ensures var t := Transition(nameOf, s, op).value; AscendingSequences(t.records) && t.records != []
  {
    var t := Transition(nameOf, s, op).value;
    match op
    case Create(id, path, name, customName) =>
    case UpdatePath(id, path) =>
      ChangedKeeps(s.records, id, Repath(nameOf, path));
    case UpdateName(id, name) =>
      ChangedKeeps(s.records, id, Retitle(nameOf, name));
    case Rename(id, customName) =>
      ChangedKeeps(s.records, id, Relabel(customName));
    case Close(id, gen) =>
      var i := FoundRecord(s.records, id);
      if |s.records| == 1 {
        OnlyRecord(FreshDefault(s.records, gen));
      } else {
        WithoutIdKeeps(s.records, id);
      }
    case Reset(id, path, name, customName, now) =>
  }

  lemma {:induction false} WithoutIdConcat(a: seq<TabRecord>, b: seq<TabRecord>, id: string)
    ensures WithoutId(a + b, id) == WithoutId(a, id) + WithoutId(b, id)
  {
    if a == [] {
      assert a + b == b;
    } else {
      assert (a + b)[0] == a[0] && (a + b)[1..] == a[1..] + b;
      WithoutIdConcat(a[1..], b, id);
    }
  }

  lemma {:induction false} WithoutIdTwice(rs: seq<TabRecord>, id: string)
    ensures WithoutId(WithoutId(rs, id), id) == WithoutId(rs, id)
  {
    if rs != [] {
      WithoutIdTwice(rs[1..], id);
      var rest := WithoutId(rs[1..], id);
      assert rs[0].id != id ==> ([rs[0]] + rest)[0] == rs[0] && ([rs[0]] + rest)[1..] == rest;
    }
  }

  lemma {:induction false} WithoutChanged(rs: seq<TabRecord>, id: string, change: TabRecord -> TabRecord)
    requires forall r: TabRecord :: change(r).id == r.id
    ensures WithoutId(Changed(rs, id, change), id) == WithoutId(rs, id)
  {
    if rs != [] {
      var q := Changed(rs, id, change);
      assert q[1..] == Changed(rs[1..], id, change);
      WithoutChanged(rs[1..], id, change);
    }
  }

  /** The tab an operation is about. */
  function Target(op: Op): string {
    match op
    case Create(id, _, _, _) => id
    case UpdatePath(id, _) => id
    case UpdateName(id, _) => id
    case Rename(id, _) => id
    case Close(id, _) => id
    case Reset(_, _, _, _, _) => ""
  }

  /** Short of a reset, a mutation leaves every other tab as it was, in its place; only
      closing the last tab brings in another. */
  lemma OtherTabsUntouched(nameOf: string -> string, s: Snapshot, op: Op)
    requires Transition(nameOf, s, op).Ok? && !op.Reset? && (op.Close? ==> |s.records| != 1)
    ensures WithoutId(Transition(nameOf, s, op).value.records, Target(op)) == WithoutId(s.records, Target(op))
    ensures op.Close? ==> !HasId(Transition(nameOf, s, op).value.records, Target(op))
  {
    match op
    case Create(id, path, name, customName) =>
      var r := TabRecord(id, path, Or(name, nameOf(path)), Unless(customName), MaxSequence(s.records) + 1);
      WithoutIdConcat(s.records, [r], id);
      assert [r][1..] == [] && WithoutId(s.records, id) + [] == WithoutId(s.records, id);
    case UpdatePath(id, path) => WithoutChanged(s.records, id, Repath(nameOf, path));
    case UpdateName(id, name) => WithoutChanged(s.records, id, Retitle(nameOf, name));
    case Rename(id, customName) => WithoutChanged(s.records, id, Relabel(customName));
    case Close(id, _) =>
      WithoutIdTwice(s.records, id);
      WithoutIdMembers(s.records, id);
      var q := WithoutId(s.records, id);
      assert forall i | 0 <= i < |q| :: q[i] in q;
  }

  /** What happens to the tab itself: a path brings its own name and keeps the custom one,
      a name and a custom name touch nothing else, and no change moves a tab in time. */
  lemma TargetIsChanged(nameOf: string -> string, s: Snapshot, op: Op, i: nat)
    requires Transition(nameOf, s, op).Ok? && (op.UpdatePath? || op.UpdateName? || op.Rename?)
    requires i < |s.records| && s.records[i].id == Target(op)
    ensures var rs := Transition(nameOf, s, op).value.records;
      && |rs| == |s.records|
      && var was, now := s.records[i], rs[i];
      && now.id == was.id && now.sequence == was.sequence
      && (if op.UpdatePath? then now.path == op.path && now.name == nameOf(op.path) && now.customName == was.customName
          else if op.UpdateName? then
            now.path == was.path && now.customName == was.customName
            && now.name == (if op.name != "" then op.name else nameOf(was.path))
          else now.path == was.path && now.name == was.name
               && now.customName == (if op.customName != "" then Some(op.customName) else None))
  {
    match op
    case UpdatePath(id, path) =>
      assert Changed(s.records, id, Repath(nameOf, path))[i] == Repath(nameOf, path)(s.records[i]);
    case UpdateName(id, name) => RetitleName(nameOf, name, s.records[i]);
    case Rename(id, customName) =>
  }

  /** A new tab stands behind the others, newer than each, and is what it was asked to be. */
  lemma CreateAdds(nameOf: string -> string, s: Snapshot, op: Op)
    requires op.Create? && Transition(nameOf, s, op).Ok?
    ensures var rs := Transition(nameOf, s, op).value.records;
      && |rs| == |s.records| + 1 && rs[..|s.records|] == s.records
      && var r := rs[|s.records|];
      && r.id == op.id && r.path == op.path
      && r.name == (if op.name != "" then op.name else nameOf(op.path))
      && r.customName == (if op.customName != "" then Some(op.customName) else None)
      && (forall i | 0 <= i < |s.records| :: s.records[i].id != op.id && s.records[i].sequence < r.sequence)
      && 1 <= r.sequence
      && (r.sequence == 1 || exists i :: 0 <= i < |s.records| && s.records[i].sequence == r.sequence - 1)
  {
    var m := MaxSequence(s.records);
    assert m == 0 || exists i :: 0 <= i < |s.records| && s.records[i].sequence == m;
  }

  /** A reset leaves one tab: the one asked for, and the home tab where nothing is given. */
  lemma ResetLeaves(nameOf: string -> string, s: Snapshot, op: Op)
    requires op.Reset?
    ensures Transition(nameOf, s, op).Ok?
    ensures var rs := Transition(nameOf, s, op).value.records;
      && |rs| == 1
      && rs[0].id == (match op.givenId case Some(id) => id case None => "home-" + op.now)
      && rs[0].path == (match op.givenPath case Some(path) => path case None => "/")
      && rs[0].name == (match op.givenName case Some(name) => name case None => nameOf(rs[0].path))
      && rs[0].customName == (if op.customName != "" then Some(op.customName) else None)
      && rs[0].sequence == 1
  {
  }

  /** Closing the last tab leaves a home tab of another ID: a generated one, with the count
      of the collisions behind it when there were any. */
  lemma LastCloseLeaves(nameOf: string -> string, s: Snapshot, op: Op)
    requires op.Close? && |s.records| == 1 && Transition(nameOf, s, op).Ok?
    ensures var rs := Transition(nameOf, s, op).value.records;
      && |rs| == 1 && rs[0].id != op.id
      && rs[0].path == "/" && rs[0].name == "Home" && rs[0].customName == None && rs[0].sequence == 1
      && rs[0].id == (if op.gen(0) != op.id then op.gen(0)
                      else if op.gen(1) + "-1" != op.id then op.gen(1) + "-1"
                      else op.gen(2) + "-2")
  {
    var ids := Ids(s.records);
    assert s.records[0] in s.records;
    assert ids == {op.id};
    var n := FirstFree(ids, op.gen, 0);
    assert n <= 2;
    assert Candidate(op.gen, 0) == op.gen(0);
    assert Candidate(op.gen, 1) == op.gen(1) + "-1";
    assert Candidate(op.gen, 2) == op.gen(2) + "-2";
    assert n >= 1 ==> Candidate(op.gen, 0) in ids;
    assert n >= 2 ==> Candidate(op.gen, 1) in ids;
  }

  lemma VersionAfter(nameOf: string -> string, s: Snapshot, op: Op)
    requires Transition(nameOf, s, op).Ok?
    ensures var t := Transition(nameOf, s, op).value;
      && t.schemaVersion == s.schemaVersion
      && (if op.Reset? then t.epoch == s.epoch + 1 && t.revision == 1
          else t.epoch == s.epoch && t.revision == s.revision + 1)
  {
  }

  /** What is read, and what of it is refused: too new or too old a version ahead of any
      record that is not one, or is there twice. */
  lemma ParseIff(stored: Stored)
    ensures Parse(Missing) == Ok(Snapshot(1, 0, 0, []))
    ensures Parse(stored) == Err(StaleVersion) <==>
        stored.Misshapen?
        || (stored.Text? && var s := stored.snapshot;
            !(s.schemaVersion == 1 && 0 <= s.epoch <= 9007199254740991 && 0 <= s.revision <= 9007199254740991))
    ensures stored.Text? ==>
        (Parse(stored) == Ok(stored.snapshot) <==>
          var s, rs := stored.snapshot, stored.snapshot.records;
          && s.schemaVersion == 1 && 0 <= s.epoch <= 9007199254740991 && 0 <= s.revision <= 9007199254740991
          && (forall r | r in rs :: r.id != "" && r.name != "" && 1 <= r.sequence <= 9007199254740991)
          && (forall i, j | 0 <= i < j < |rs| :: rs[i].id != rs[j].id && rs[i].sequence != rs[j].sequence))
    ensures Parse(stored).Ok? ==> stored.Missing? || stored == Text(Parse(stored).value)
    ensures Parse(stored).Err? ==> Parse(stored).error in {StaleVersion, InvalidSnapshot}
  {
    if stored.Text? {
      var s, rs := stored.snapshot, stored.snapshot.records;
      assert (forall r | r in rs :: IsRecord(r)) <==> AllRecords(rs);
    }
  }

  predicate Differs(wanted: Option<int>, found: int) {
    wanted != None && wanted != Some(found)
  }

  predicate Known(rs: seq<TabRecord>, id: string) {
    exists r :: r in rs && r.id == id
  }

  /** A new tab needs an ID of its own, and any other mutation the tab it names. */
  lemma TransitionIff(nameOf: string -> string, s: Snapshot, op: Op)
    ensures var r, found := Transition(nameOf, s, op), Known(s.records, Target(op));
      && (r == Err(IdCollision) <==> op.Create? && found)
      && (r == Err(RecordNotFound) <==> !op.Create? && !op.Reset? && !found)
      && (r.Err? ==> r.error in {IdCollision, RecordNotFound})
  {
    FoundIff(s.records, Target(op));
    hide HasId, Known;
  }

  /** When a mutation is refused, and why: first what is stored, then the version it was
      made for, then the tab it names. */
  lemma CommitIff(nameOf: string -> string, stored: Stored, v: Option<Version>, op: Op)
    ensures var r, p := Commit(nameOf, stored, v, op), Parse(stored);
      && (r == Err(InvalidSnapshot) <==> p == Err(InvalidSnapshot))
      && (r == Err(StaleVersion) <==>
          p == Err(StaleVersion)
          || (p.Ok? && v.Some?
              && (Differs(v.value.schemaVersion, p.value.schemaVersion)
                  || Differs(v.value.epoch, p.value.epoch)
                  || Differs(v.value.revision, p.value.revision))))
      && (r == Err(IdCollision) <==>
          p.Ok? && r != Err(StaleVersion) && op.Create? && Known(p.value.records, op.id))
      && (r == Err(RecordNotFound) <==>
          p.Ok? && r != Err(StaleVersion) && !op.Create? && !op.Reset? && !Known(p.value.records, Target(op)))
  {
    ParseIff(stored);
    if Parse(stored).Ok? {
      TransitionIff(nameOf, Parse(stored).value, op);
    }
    hide Parse, Transition, Known;
  }

  lemma FoundIff(rs: seq<TabRecord>, id: string)
    ensures HasId(rs, id) <==> Known(rs, id)
  {
    if t :| t in rs && t.id == id {
      var i :| 0 <= i < |rs| && rs[i] == t;
      assert rs[i].id == id;
    }
    if HasId(rs, id) {
      var i := FoundRecord(rs, id);
      assert rs[i] in rs;
    }
  }

  // ----- storage events

  /** What a storage event does to a view: it is taken only if readable and newer. */
  ghost function Seen(view: Snapshot, event: Stored): Snapshot {
    match Parse(event)
    case Err(_) => view
    case Ok(next) => if next.schemaVersion != view.schemaVersion || !Newer(next, view) then view else next
  }

  ghost function ViewAfter(view: Snapshot, events: seq<Stored>): Snapshot
    decreases |events|
  {
    if events == [] then view else ViewAfter(Seen(view, events[0]), events[1..])
  }

  /** The view after any events is the greatest version among the one it began with and
      the readable ones it was sent. */
  lemma {:induction false} ViewIsGreatest(view: Snapshot, events: seq<Stored>)
    requires view.schemaVersion == SCHEMA
    ensures var v := ViewAfter(view, events);
      && v.schemaVersion == SCHEMA && !Newer(view, v)
      && (v == view || exists i :: 0 <= i < |events| && Parse(events[i]) == Ok(v))
      && (forall i | 0 <= i < |events| && Parse(events[i]).Ok? :: !Newer(Parse(events[i]).value, v))
    decreases |events|
  {
    hide Valid;
    if events != [] {
      var view' := Seen(view, events[0]);
      ViewIsGreatest(view', events[1..]);
      var v := ViewAfter(view, events);
      forall i | 0 <= i < |events| && Parse(events[i]).Ok? ensures !Newer(Parse(events[i]).value, v) {
        if i > 0 {
          assert events[i] == events[1..][i - 1];
        }
      }
      if v != view' {
        var j :| 0 <= j < |events[1..]| && Parse(events[1..][j]) == Ok(v);
        assert events[j + 1] == events[1..][j];
      } else if view' != view {
        assert Parse(events[0]) == Ok(v);
      }
    }
  }

  /** No two different snapshots among these carry one version. */
  ghost predicate OneEach(view: Snapshot, events: seq<Stored>) {
    && (forall i, j | 0 <= i < |events| && 0 <= j < |events| && Parse(events[i]).Ok? && Parse(events[j]).Ok?
          && SameVersion(Parse(events[i]).value, Parse(events[j]).value) :: Parse(events[i]) == Parse(events[j]))
    && (forall i | 0 <= i < |events| && Parse(events[i]).Ok? && SameVersion(Parse(events[i]).value, view) ::
          Parse(events[i]).value == view)
  }

  /** Late, repeated or reordered events make no difference: only which ones arrive. */
  lemma ViewIgnoresOrder(view: Snapshot, events: seq<Stored>, others: seq<Stored>)
    requires view.schemaVersion == SCHEMA && OneEach(view, events)
    requires forall e :: e in events <==> e in others
    ensures ViewAfter(view, events) == ViewAfter(view, others)
  {
    hide Parse, ViewAfter;
    ViewIsGreatest(view, events);
    ViewIsGreatest(view, others);
    var a, b := ViewAfter(view, events), ViewAfter(view, others);
    if a != view {
      var i :| 0 <= i < |events| && Parse(events[i]) == Ok(a);
      assert events[i] in others;
      var k :| 0 <= k < |others| && others[k] == events[i];
      assert !Newer(a, b);
    }
    if b != view {
      var j :| 0 <= j < |others| && Parse(others[j]) == Ok(b);
      assert others[j] in events;
      var k :| 0 <= k < |events| && events[k] == others[j];
      assert !Newer(b, a);
    }
    assert SameVersion(a, b);
  }

  // ----- documents and storage together

  /** The storage key, one view per open document, and every snapshot ever committed. */
  datatype World = World(stored: Stored, views: seq<Snapshot>, log: seq<Snapshot>)

  /** `Deliver` is a storage event: any committed snapshot, at any time, any number of
      times, in any order. */
  datatype Step =
    | Open
    | Mutate(doc: nat, version: Option<Version>, op: Op)
    | Deliver(doc: nat, entry: nat)
    | ReadBack(doc: nat)

  predicate Possible(w: World, step: Step) {
    match step
    case Open => true
    case Mutate(doc, _, _) => doc < |w.views|
    case Deliver(doc, entry) => doc < |w.views| && entry < |w.log|
    case ReadBack(doc) => doc < |w.views|
  }

  ghost function Take(nameOf: string -> string, w: World, step: Step): World
    requires Possible(w, step)
  {
    match step
    case Open => w.(views := w.views + [if Parse(w.stored).Ok? then Parse(w.stored).value else EMPTY])
    case Mutate(doc, version, op) =>
      (match Commit(nameOf, w.stored, version, op)
       case Err(_) => w
       case Ok(next) => World(Text(next), w.views[doc := next], w.log + [next]))
    case Deliver(doc, entry) => w.(views := w.views[doc := Seen(w.views[doc], Text(w.log[entry]))])
    case ReadBack(doc) =>
      if Parse(w.stored).Ok? then w.(views := w.views[doc := Parse(w.stored).value]) else w
  }

  ghost predicate Performable(nameOf: string -> string, w: World, run: seq<Step>)
    decreases |run|
  {
    run == [] || (Possible(w, run[0]) && Performable(nameOf, Take(nameOf, w, run[0]), run[1..]))
  }

  ghost function Outcome(nameOf: string -> string, w: World, run: seq<Step>): World
    requires Performable(nameOf, w, run)
    decreases |run|
  {
    if run == [] then w else Outcome(nameOf, Take(nameOf, w, run[0]), run[1..])
  }

  /** Commits only ever move the version forward, lexicographically. */
  ghost predicate Increasing(log: seq<Snapshot>) {
    && (forall i, j | 0 <= i < j < |log| :: Newer(log[j], log[i]))
    && (forall i | 0 <= i < |log| :: Newer(log[i], EMPTY) && log[i].schemaVersion == SCHEMA)
  }

  ghost predicate Issued(w: World, s: Snapshot) {
    s == EMPTY || s in w.log
  }

  /** The storage holds the last commit, and every view some commit. */
  ghost predicate Consistent(w: World) {
    && Increasing(w.log)
    && w.stored == (if w.log == [] then Missing else Text(w.log[|w.log| - 1]))
    && (forall d | 0 <= d < |w.views| :: Issued(w, w.views[d]))
  }

  /** A version is issued once. */
  lemma VersionsAreUnique(w: World, s: Snapshot, t: Snapshot)
    requires Increasing(w.log) && Issued(w, s) && Issued(w, t) && SameVersion(s, t)
    ensures s == t
  {
    if s in w.log && t in w.log {
      var i :| 0 <= i < |w.log| && w.log[i] == s;
      var j :| 0 <= j < |w.log| && w.log[j] == t;
      assert i < j ==> Newer(w.log[j], w.log[i]);
      assert j < i ==> Newer(w.log[i], w.log[j]);
    }
  }

  lemma StoredIsLatest(w: World, s: Snapshot)
    requires Consistent(w) && Parse(w.stored).Ok? && Issued(w, s)
    ensures !Newer(s, Parse(w.stored).value) && Issued(w, Parse(w.stored).value)
    ensures Parse(w.stored).value.schemaVersion == SCHEMA
  {
    hide Valid;
    if s in w.log {
      var i :| 0 <= i < |w.log| && w.log[i] == s;
      assert i < |w.log| - 1 ==> Newer(w.log[|w.log| - 1], w.log[i]);
    }
  }

  lemma CommitIncreases(nameOf: string -> string, w: World, version: Option<Version>, op: Op)
    requires Consistent(w) && Commit(nameOf, w.stored, version, op).Ok?
    ensures Increasing(w.log + [Commit(nameOf, w.stored, version, op).value])
  {
    hide Commit, Transition, Parse, VersionMatches;
    var next := Commit(nameOf, w.stored, version, op).value;
    CommitIsNewer(nameOf, w.stored, version, op);
    forall i | 0 <= i < |w.log| ensures Newer(next, w.log[i]) {
      StoredIsLatest(w, w.log[i]);
    }
    StoredIsLatest(w, EMPTY);
  }

  lemma StepKeepsConsistent(nameOf: string -> string, w: World, step: Step)
    requires Consistent(w) && Possible(w, step)
    ensures Consistent(Take(nameOf, w, step))
  {
    hide Increasing, Valid, Transition, Newer;
    if step.Mutate? && Commit(nameOf, w.stored, step.version, step.op).Ok? {
      CommitIncreases(nameOf, w, step.version, step.op);
    }
  }

  /** A document's view never goes back to an older version. */
  lemma ViewNeverGoesBack(nameOf: string -> string, w: World, step: Step, d: nat)
    requires Consistent(w) && Possible(w, step) && d < |w.views|
    ensures var w' := Take(nameOf, w, step); d < |w'.views| && !Newer(w.views[d], w'.views[d])
  {
    hide Increasing, Valid, Transition;
    match step
    case Open =>
    case Mutate(doc, version, op) =>
      if Commit(nameOf, w.stored, version, op).Ok? {
        CommitIsNewer(nameOf, w.stored, version, op);
        StoredIsLatest(w, w.views[d]);
      }
    case Deliver(_, _) =>
    case ReadBack(doc) =>
      if Parse(w.stored).Ok? {
        StoredIsLatest(w, w.views[d]);
      }
  }

  ghost predicate Beginning(w: World) {
    w == World(Missing, [], [])
  }

  lemma {:induction false} RunKeepsConsistent(nameOf: string -> string, w: World, run: seq<Step>)
    requires Consistent(w) && Performable(nameOf, w, run)
    ensures Consistent(Outcome(nameOf, w, run))
    decreases |run|
  {
    hide Consistent, Take, Possible;
    if run != [] {
      StepKeepsConsistent(nameOf, w, run[0]);
      RunKeepsConsistent(nameOf, Take(nameOf, w, run[0]), run[1..]);
    }
  }

  /** In any interleaving of documents versions only increase, so equal versions mean
      equal records: none is ever issued twice. */
  lemma VersionsIncrease(nameOf: string -> string, w: World, run: seq<Step>, s: Snapshot, t: Snapshot)
    requires Beginning(w) && Performable(nameOf, w, run)
    requires Issued(Outcome(nameOf, w, run), s) && Issued(Outcome(nameOf, w, run), t)
    ensures Increasing(Outcome(nameOf, w, run).log) && (SameVersion(s, t) ==> s == t)
  {
    hide Take, Possible, Performable, Outcome;
    RunKeepsConsistent(nameOf, w, run);
    if SameVersion(s, t) {
      VersionsAreUnique(Outcome(nameOf, w, run), s, t);
    }
  }

  /** A mutation that carries the version of a snapshot commits only as a transition of
      that very snapshot. */
  lemma NoLostUpdate(nameOf: string -> string, w: World, run: seq<Step>, s: Snapshot, v: Version, op: Op)
    requires Beginning(w) && Performable(nameOf, w, run) && Issued(Outcome(nameOf, w, run), s)
    requires v.epoch == Some(s.epoch) && v.revision == Some(s.revision)
    requires Commit(nameOf, Outcome(nameOf, w, run).stored, Some(v), op).Ok?
    ensures Parse(Outcome(nameOf, w, run).stored) == Ok(s)
    ensures Commit(nameOf, Outcome(nameOf, w, run).stored, Some(v), op) == Transition(nameOf, s, op)
  {
    hide Take, Possible, Performable, Outcome, Transition, Parse;
    RunKeepsConsistent(nameOf, w, run);
    var t := Outcome(nameOf, w, run);
    CommitIsNewer(nameOf, t.stored, Some(v), op);
    StoredIsLatest(t, s);
    VersionsAreUnique(t, s, Parse(t.stored).value);
  }

  // ----- convergence

  /** The events name commits of this world. */
  ghost predicate FromLog(w: World, events: seq<Stored>) {
    forall i | 0 <= i < |events| :: events[i].Text? && events[i].snapshot in w.log
  }

  lemma LogEventsAreOneEach(w: World, view: Snapshot, events: seq<Stored>)
    requires Increasing(w.log) && Issued(w, view) && FromLog(w, events)
    ensures OneEach(view, events)
  {
    hide Valid, Increasing, SameVersion;
    forall i, j | 0 <= i < |events| && 0 <= j < |events| && Parse(events[i]).Ok? && Parse(events[j]).Ok?
        && SameVersion(Parse(events[i]).value, Parse(events[j]).value)
      ensures Parse(events[i]) == Parse(events[j])
    {
      VersionsAreUnique(w, events[i].snapshot, events[j].snapshot);
    }
    forall i | 0 <= i < |events| && Parse(events[i]).Ok? && SameVersion(Parse(events[i]).value, view)
      ensures Parse(events[i]).value == view
    {
      VersionsAreUnique(w, events[i].snapshot, view);
    }
  }

  /** A document that receives the same commits in another order, or some of them again,
      has the same view. */
  lemma EventsInAnyOrder(w: World, d: nat, events: seq<Stored>, others: seq<Stored>)
    requires Consistent(w) && d < |w.views| && FromLog(w, events) && forall e :: e in events <==> e in others
    ensures ViewAfter(w.views[d], events) == ViewAfter(w.views[d], others)
  {
    hide Increasing, ViewAfter, FromLog;
    IssuedSchema(w, w.views[d]);
    LogEventsAreOneEach(w, w.views[d], events);
    ViewIgnoresOrder(w.views[d], events, others);
  }

  /** Once the last commit's event is among those a document received, in whatever order
      and however often, its view is what storage holds: exactly when that commit is
      readable, or the document made it. */
  lemma ConvergesIff(w: World, d: nat, events: seq<Stored>)
    requires Consistent(w) && w.log != [] && d < |w.views|
    requires FromLog(w, events) && w.stored in events
    ensures ViewAfter(w.views[d], events) == w.log[|w.log| - 1]
       <==> Valid(w.log[|w.log| - 1]) || w.views[d] == w.log[|w.log| - 1]
  {
    hide Increasing, ViewAfter, Valid;
    var view, last := w.views[d], w.log[|w.log| - 1];
    IssuedSchema(w, view);
    IssuedSchema(w, last);
    ViewIsGreatest(view, events);
    var v := ViewAfter(view, events);
    var k :| 0 <= k < |events| && events[k] == w.stored;
    assert Issued(w, v) by {
      if v != view {
        var i :| 0 <= i < |events| && Parse(events[i]) == Ok(v);
        assert events[i].snapshot in w.log;
      }
    }
    NoneNewer(w, v);
    if Valid(last) {
      ValidParses(last);
      assert Parse(events[k]) == Ok(last);
      VersionsAreUnique(w, v, last);
    } else if view == last {
      VersionsAreUnique(w, v, last);
    }
  }

  lemma ValidParses(s: Snapshot)
    ensures Valid(s) ==> Parse(Text(s)) == Ok(s)
  {
  }

  lemma IssuedSchema(w: World, s: Snapshot)
    ensures Increasing(w.log) && Issued(w, s) ==> s.schemaVersion == SCHEMA
  {
  }

  lemma NoneNewer(w: World, s: Snapshot)
    requires Increasing(w.log) && w.log != [] && Issued(w, s)
    ensures !Newer(s, w.log[|w.log| - 1])
  {
    if s in w.log {
      var i :| 0 <= i < |w.log| && w.log[i] == s;
      assert i < |w.log| - 1 ==> Newer(w.log[|w.log| - 1], w.log[i]);
    } else {
      assert Newer(w.log[|w.log| - 1], EMPTY);
    }
  }

  // ----- convergence in a whole run

  /** The document that made the last commit of the run. */
  ghost function Author(nameOf: string -> string, w: World, run: seq<Step>, now: Option<nat>): Option<nat>
    requires Performable(nameOf, w, run)
    decreases |run|
  {
    if run == [] then now
    else
      var step := run[0];
      var made := step.Mutate? && Commit(nameOf, w.stored, step.version, step.op).Ok?;
      Author(nameOf, Take(nameOf, w, step), run[1..], if made then Some(step.doc) else now)
  }

  /** The last commit is in its author's view, and an unreadable one is in no other. */
  ghost predicate Authored(w: World, author: Option<nat>) {
    w.log != [] ==>
      var last := w.log[|w.log| - 1];
      && author.Some? && author.value < |w.views| && w.views[author.value] == last
      && forall d | 0 <= d < |w.views| && w.views[d] == last :: Valid(last) || author == Some(d)
  }

  lemma CommitAuthors(nameOf: string -> string, w: World, doc: nat, version: Option<Version>, op: Op)
    requires Consistent(w) && doc < |w.views| && Commit(nameOf, w.stored, version, op).Ok?
    ensures Authored(Take(nameOf, w, Mutate(doc, version, op)), Some(doc))
  {
    hide Commit, Valid;
    CommitIncreases(nameOf, w, version, op);
    var next := Commit(nameOf, w.stored, version, op).value;
    var log' := w.log + [next];
    assert log'[|log'| - 1] == next;
    forall d | 0 <= d < |w.views| ensures w.views[d] != next {
      NotIssuedYet(w, next, w.views[d]);
    }
  }

  lemma NotIssuedYet(w: World, next: Snapshot, s: Snapshot)
    requires Increasing(w.log + [next]) && Issued(w, s)
    ensures s != next
  {
    var log' := w.log + [next];
    assert log'[|w.log|] == next;
    if s in w.log {
      var i :| 0 <= i < |w.log| && w.log[i] == s;
      assert log'[i] == s && Newer(log'[|w.log|], log'[i]);
    }
  }

  lemma StepKeepsAuthored(nameOf: string -> string, w: World, step: Step, author: Option<nat>)
    requires Consistent(w) && Authored(w, author) && Possible(w, step)
    ensures var made := step.Mutate? && Commit(nameOf, w.stored, step.version, step.op).Ok?;
      Authored(Take(nameOf, w, step), if made then Some(step.doc) else author)
  {
    hide Commit, Valid, Increasing;
    match step
    case Mutate(doc, version, op) =>
      if Commit(nameOf, w.stored, version, op).Ok? {
        CommitAuthors(nameOf, w, doc, version, op);
      }
    case Open => EmptyIsOld(w);
    case Deliver(doc, entry) => DeliveryKeepsAuthored(w, doc, entry, author);
    case ReadBack(doc) =>
  }

  /** The empty view is no commit. */
  lemma EmptyIsOld(w: World)
    requires Increasing(w.log)
    ensures w.log != [] ==> w.log[|w.log| - 1] != EMPTY
  {
    assert w.log != [] ==> Newer(w.log[|w.log| - 1], EMPTY);
  }

  lemma DeliveryKeepsAuthored(w: World, doc: nat, entry: nat, author: Option<nat>)
    requires Consistent(w) && Authored(w, author) && doc < |w.views| && entry < |w.log|
    ensures Authored(w.(views := w.views[doc := Seen(w.views[doc], Text(w.log[entry]))]), author)
  {
    hide Valid, Increasing;
    NoneNewer(w, w.log[entry]);
  }

  lemma {:induction false} RunKeepsAuthored(nameOf: string -> string, w: World, run: seq<Step>, author: Option<nat>)
    requires Consistent(w) && Authored(w, author) && Performable(nameOf, w, run)
    ensures Authored(Outcome(nameOf, w, run), Author(nameOf, w, run, author))
    decreases |run|
  {
    hide Consistent, Take, Possible, Authored, Commit;
    if run != [] {
      var step := run[0];
      var made := step.Mutate? && Commit(nameOf, w.stored, step.version, step.op).Ok?;
      StepKeepsConsistent(nameOf, w, step);
      StepKeepsAuthored(nameOf, w, step, author);
      RunKeepsAuthored(nameOf, Take(nameOf, w, step), run[1..], if made then Some(step.doc) else author);
    }
  }

  /** Over a whole run the log only grows and no view goes back. */
  lemma {:induction false} RunNeverGoesBack(nameOf: string -> string, w: World, run: seq<Step>, d: nat)
    requires Consistent(w) && Performable(nameOf, w, run) && d < |w.views|
    ensures var t := Outcome(nameOf, w, run); d < |t.views| && !Newer(w.views[d], t.views[d])
    decreases |run|
  {
    hide Consistent, Take, Possible;
    if run != [] {
      StepKeepsConsistent(nameOf, w, run[0]);
      ViewNeverGoesBack(nameOf, w, run[0], d);
      RunNeverGoesBack(nameOf, Take(nameOf, w, run[0]), run[1..], d);
    }
  }

  lemma {:induction false} LogOnlyGrows(nameOf: string -> string, w: World, run: seq<Step>)
    requires Performable(nameOf, w, run)
    ensures var t := Outcome(nameOf, w, run); |w.log| <= |t.log| && t.log[..|w.log|] == w.log
    decreases |run|
  {
    hide Possible, Commit, Parse, Seen;
    if run != [] {
      var w', t := Take(nameOf, w, run[0]), Outcome(nameOf, w, run);
      LogOnlyGrows(nameOf, w', run[1..]);
      assert w'.log[..|w.log|] == w.log;
      assert t.log[..|w.log|] == t.log[..|w'.log|][..|w.log|];
    }
  }

  /** A readable commit that was delivered to a document bounds its view from then on,
      whatever else the run commits and delivers. */
  lemma {:induction false} DeliveredIsSeen(nameOf: string -> string, w: World, run: seq<Step>, i: nat, d: nat,
                                           entry: nat)
    requires Consistent(w) && Performable(nameOf, w, run) && i < |run| && run[i] == Deliver(d, entry)
    ensures var t := Outcome(nameOf, w, run);
      d < |t.views| && entry < |t.log| && (Valid(t.log[entry]) ==> !Newer(t.log[entry], t.views[d]))
    decreases |run|
  {
    hide Consistent, Valid, Commit;
    var w', t := Take(nameOf, w, run[0]), Outcome(nameOf, w, run);
    StepKeepsConsistent(nameOf, w, run[0]);
    if i == 0 {
      RunNeverGoesBack(nameOf, w', run[1..], d);
      LogOnlyGrows(nameOf, w, run);
      assert w.log[entry] == t.log[..|w.log|][entry];
      if Valid(t.log[entry]) {
        DeliveredAtOnce(w, d, entry);
      }
    } else {
      assert run[1..][i - 1] == run[i];
      DeliveredIsSeen(nameOf, w', run[1..], i - 1, d, entry);
    }
  }

  lemma DeliveredAtOnce(w: World, d: nat, entry: nat)
    requires Consistent(w) && d < |w.views| && entry < |w.log| && Valid(w.log[entry])
    ensures !Newer(w.log[entry], Seen(w.views[d], Text(w.log[entry])))
  {
    ValidParses(w.log[entry]);
    hide Valid, Parse;
    IssuedSchema(w, w.views[d]);
    IssuedSchema(w, w.log[entry]);
  }

  /** In any interleaving of commits, events and reads, a document that was sent the last
      commit, at whatever point, ends up showing what storage holds: exactly when that
      commit is readable, or the document made it itself. */
  lemma ConvergesInRun(nameOf: string -> string, w: World, run: seq<Step>, i: nat, d: nat)
    requires Beginning(w) && Performable(nameOf, w, run) && Outcome(nameOf, w, run).log != []
    requires i < |run| && run[i] == Deliver(d, |Outcome(nameOf, w, run).log| - 1)
    ensures var t := Outcome(nameOf, w, run);
      var last := t.log[|t.log| - 1];
      d < |t.views| && t.stored == Text(last)
      && (t.views[d] == last <==> Valid(last) || Author(nameOf, w, run, None) == Some(d))
  {
    hide Take, Possible, Performable, Outcome, Author, Valid, Increasing, Commit;
    assert Increasing([]) by {
      NothingIncreases();
    }
    RunKeepsConsistent(nameOf, w, run);
    RunKeepsAuthored(nameOf, w, run, None);
    var t := Outcome(nameOf, w, run);
    var last := t.log[|t.log| - 1];
    DeliveredIsSeen(nameOf, w, run, i, d, |t.log| - 1);
    NoneNewer(t, t.views[d]);
    if Valid(last) {
      VersionsAreUnique(t, t.views[d], last);
    }
  }

  lemma NothingIncreases()
    ensures Increasing([])
  {
  }

  // ----- every commit readable

  /** Every mutation of the run has inputs that are not empty and room in its counters. */
  ghost predicate AllFine(nameOf: string -> string, w: World, run: seq<Step>)
    requires Performable(nameOf, w, run)
    decreases |run|
  {
    run == []
    || ((run[0].Mutate? && Commit(nameOf, w.stored, run[0].version, run[0].op).Ok? ==>
           Fine(nameOf, Parse(w.stored).value, run[0].op))
        && AllFine(nameOf, Take(nameOf, w, run[0]), run[1..]))
  }

  /** Readable, in order of creation, and never empty. */
  ghost predicate Sound(s: Snapshot) {
    Valid(s) && AscendingSequences(s.records) && s.records != []
  }

  ghost predicate AllSound(w: World) {
    forall i | 0 <= i < |w.log| :: Sound(w.log[i])
  }

  lemma StepKeepsSound(nameOf: string -> string, w: World, step: Step)
    requires Consistent(w) && AllSound(w) && Possible(w, step)
    requires step.Mutate? && Commit(nameOf, w.stored, step.version, step.op).Ok? ==>
      Fine(nameOf, Parse(w.stored).value, step.op)
    ensures AllSound(Take(nameOf, w, step))
  {
    hide Fine, Increasing, Transition, Valid, UniqueIds, AscendingSequences;
    if step.Mutate? && Commit(nameOf, w.stored, step.version, step.op).Ok? {
      CommitIsNewer(nameOf, w.stored, step.version, step.op);
      var s := Parse(w.stored).value;
      assert Valid(s) && AscendingSequences(s.records) by {
        StoredIsSound(w);
      }
      ValidRecords(s);
      TransitionValidIff(nameOf, s, step.op);
      TransitionKeepsOrder(nameOf, s, step.op);
    }
  }

  lemma StoredIsSound(w: World)
    ensures Consistent(w) && AllSound(w) ==>
        Parse(w.stored).Ok? && Valid(Parse(w.stored).value) && AscendingSequences(Parse(w.stored).value.records)
  {
  }

  lemma {:induction false} RunKeepsSound(nameOf: string -> string, w: World, run: seq<Step>)
    requires Consistent(w) && AllSound(w) && Performable(nameOf, w, run) && AllFine(nameOf, w, run)
    ensures AllSound(Outcome(nameOf, w, run))
    decreases |run|
  {
    hide Consistent, Take, Possible, AllSound, Fine, Commit;
    if run != [] {
      StepKeepsConsistent(nameOf, w, run[0]);
      StepKeepsSound(nameOf, w, run[0]);
      RunKeepsSound(nameOf, Take(nameOf, w, run[0]), run[1..]);
    }
  }

  /** From empty storage, with no empty input and counters in range, everything ever
      committed can be read, has unique IDs, is in order of creation and is not empty. */
  lemma StoreStaysSound(nameOf: string -> string, w: World, run: seq<Step>)
    requires Beginning(w) && Performable(nameOf, w, run) && AllFine(nameOf, w, run)
    ensures AllSound(Outcome(nameOf, w, run)) && Parse(Outcome(nameOf, w, run).stored).Ok?
  {
    hide Take, Possible, Performable, Outcome, AllFine, Sound;
    RunKeepsConsistent(nameOf, w, run);
    RunKeepsSound(nameOf, w, run);
    StoredIsSound(Outcome(nameOf, w, run));
  }

  /** One commit with an empty name ends the store: nothing is accepted after it. */
  lemma BadCommitIsFinal(nameOf: string -> string, s: Snapshot, op: Op, v: Option<Version>, later: Op)
    requires Valid(s) && Transition(nameOf, s, op).Ok? && !Fine(nameOf, s, op)
    ensures Commit(nameOf, Text(Transition(nameOf, s, op).value), v, later).Err?
  {
    TransitionValidIff(nameOf, s, op);
    hide Transition, Fine;
  }

  // ----- the store as an object

  class Storage {
    var stored: Stored

    constructor ()
      ensures stored == Missing
    {
      stored := Missing;
    }
  }

  /** The store of one document over the storage it shares with the others. */
  class BrowserShellTabsStore {
    var snapshot: Snapshot
    const storage: Storage

    constructor (storage: Storage)
      ensures this.storage == storage
      ensures snapshot == if Parse(storage.stored).Ok? then Parse(storage.stored).value else EMPTY
    {
      this.storage := storage;
      var parsed := ParseSnapshot(storage.stored);
      snapshot := if parsed.Ok? then parsed.value else EMPTY;
    }

    method Read() returns (r: Result<Snapshot>)
      modifies this`snapshot
      ensures r == Parse(storage.stored)
      ensures snapshot == if r.Ok? then r.value else old(snapshot)
    {
      r := ParseSnapshot(storage.stored);
      if r.Ok? {
        snapshot := r.value;
      }
    }

    /** Everything under the lock: read, compare, write, show. */
    method RunMutation(nameOf: string -> string, version: Option<Version>, op: Op) returns (r: Result<Snapshot>)
      modifies this`snapshot, storage
      ensures r == Commit(nameOf, old(storage.stored), version, op)
      ensures r.Ok? ==> storage.stored == Text(r.value) && snapshot == r.value
      ensures r.Err? ==> storage.stored == old(storage.stored) && snapshot == old(snapshot)
    {
      hide Transition;
      var current := ParseSnapshot(storage.stored);
      if current.Err? {
        return Err(current.error);
      }
      if !VersionMatches(current.value, version) {
        return Err(StaleVersion);
      }
      r := Transition(nameOf, current.value, op);
      if r.Ok? {
        storage.stored := Text(r.value);
        snapshot := r.value;
      }
    }

    method HandleStorageEvent(event: Stored)
      modifies this`snapshot
      ensures snapshot == Seen(old(snapshot), event)
    {
      var next := ParseSnapshot(event);
      if next.Err? {
        return;
      }
      var current := snapshot;
      if next.value.schemaVersion != current.schemaVersion || next.value.epoch < current.epoch
         || (next.value.epoch == current.epoch && next.value.revision <= current.revision) {
        return;
      }
      snapshot := next.value;
    }
  }
}
