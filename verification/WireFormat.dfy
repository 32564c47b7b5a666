/** What the wire format says, apart from any codec: the value of a varint, the length of a
    record, and the fields that are skipped or kept unread. */
module WireFormat {
  import opened Wire

  // ----- varints

  /** What a varint stands for: groups of seven bits, the lowest first. */
  function Groups(v: seq<byte>): nat {
    if v == [] then 0 else Groups(v[..|v| - 1]) + v[|v| - 1] % 128 * Pow128(|v| - 1)
  }

  lemma {:induction false} GroupsHead(v: seq<byte>)
    requires v != []
    ensures Groups(v) == v[0] % 128 + 128 * Groups(v[1..])
    decreases |v|
  {
    if |v| == 1 {
      assert v[..0] == [] == v[1..] && Pow128(0) == 1;
    } else {
      var init, tail, top := v[..|v| - 1], v[1..], v[|v| - 1] % 128;
      GroupsHead(init);
      assert init[0] == v[0] && init[1..] == tail[..|tail| - 1] && tail[|tail| - 1] == v[|v| - 1];
      assert top * Pow128(|v| - 1) == 128 * (top * Pow128(|tail| - 1));
    }
  }

  /** A varint takes k bytes of the data: all but the last of them are marked. */
  predicate Marked(data: seq<byte>, k: nat) {
    0 < k <= |data| && data[k - 1] < 128 && forall i | 0 <= i < k - 1 :: data[i] >= 128
  }

  lemma MarkedTail(data: seq<byte>, k: nat)
    requires data != [] && data[0] >= 128 && 0 < k <= |data|
    ensures Marked(data, k) <==> Marked(data[1..], k - 1)
    ensures Groups(data[..k]) == data[0] - 128 + 128 * Groups(data[1..][..k - 1])
  {
    GroupsHead(data[..k]);
    assert data[..k][1..] == data[1..][..k - 1];
    if Marked(data[1..], k - 1) {
      forall i | 0 <= i < k - 1 ensures data[i] >= 128 {
        assert i > 0 ==> data[i] == data[1..][i - 1];
      }
    }
  }

  /** The varint of n has the value n, marks all its bytes but the last, and is the
      shortest that does: its last group is not zero unless it is the only one. */
  lemma {:induction false} VarintMeans(n: nat)
    ensures var v := Varint(n);
      Groups(v) == n && Marked(v, |v|) && (|v| > 1 ==> v[|v| - 1] != 0)
  {
    var v := Varint(n);
    if n < 128 {
      GroupsHead(v);
      assert v[1..] == [];
    } else {
      VarintMeans(n / 128);
      var rest := Varint(n / 128);
      assert v == [n % 128 + 128] + rest && v[1..] == rest && v[..|v|] == v && rest[..|rest|] == rest;
      MarkedTail(v, |v|);
      hide Varint, Groups, Marked;
      assert n / 128 > 0 && v[|v| - 1] == rest[|rest| - 1];
      if |rest| == 1 {
        OneGroup(rest);
      }
    }
  }

  lemma OneGroup(v: seq<byte>)
    requires |v| == 1
    ensures Groups(v) == v[0] % 128
  {
    GroupsHead(v);
    assert v[1..] == [];
  }

  lemma {:induction false} RawVarintReads(data: seq<byte>, room: nat, k: nat)
    requires Marked(data, k) && k <= room
    ensures RawVarint(data, room) == Got(Groups(data[..k]), k)
    decreases room
  {
    if data[0] < 128 {
      GroupsHead(data[..1]);
      assert data[..1][1..] == [];
    } else {
      MarkedTail(data, k);
      hide Marked, Groups;
      RawVarintReads(data[1..], room - 1, k - 1);
    }
  }

  lemma {:induction false} RawVarintMarked(data: seq<byte>, room: nat)
    requires RawVarint(data, room).Got?
    ensures RawVarint(data, room).size <= room && Marked(data, RawVarint(data, room).size)
    decreases room
  {
    if data[0] >= 128 {
      RawVarintMarked(data[1..], room - 1);
      MarkedTail(data, RawVarint(data, room).size);
    }
  }

  /** A varint is read exactly if it ends within ten bytes, and then as its value modulo
      2^64, whether it is the shortest or not. */
  lemma ReadVarintMeans(data: seq<byte>, x: uint64, k: nat)
    ensures ReadVarint(data) == Got(x, k) <==> k <= 10 && Marked(data, k) && x == Groups(data[..k]) % TWO64
  {
    if k <= 10 && Marked(data, k) {
      RawVarintReads(data, 10, k);
    }
    var r := RawVarint(data, 10);
    if r.Got? {
      RawVarintMarked(data, 10);
      RawVarintReads(data, 10, r.size);
    }
    hide RawVarint, Marked, Groups;
  }

  // ----- records

  /** A record is its length, as a varint, and that many bytes; nothing short is read. */
  lemma ReadBytesMeans(data: seq<byte>, d: seq<byte>, k: nat)
    ensures ReadBytes(data) == Got(d, k) <==>
        exists n: nat :: n <= 10 && Marked(data, n) && |d| == Groups(data[..n]) % TWO64
          && k == n + |d| <= |data| && d == data[n..k]
  {
    hide Groups, ReadVarint;
    forall n: nat | n <= 10 && Marked(data, n) && |d| == Groups(data[..n]) % TWO64
      ensures ReadVarint(data) == Got(|d|, n)
    {
      ReadVarintMeans(data, |d|, n);
    }
    if ReadBytes(data) == Got(d, k) {
      var n := ReadVarint(data).size;
      ReadVarintMeans(data, ReadVarint(data).value, n);
      assert |d| == ReadVarint(data).value && d == data[n..k];
    }
  }

  // ----- what is skipped

  /** Any field of the wire format, known to a schema or not. */
  datatype Raw =
    | VarintRaw(num: nat, v: seq<byte>)
    | Fixed64Raw(num: nat, d: seq<byte>)
    | BytesRaw(num: nat, d: seq<byte>)
    | GroupRaw(num: nat, fields: seq<Raw>)
    | Fixed32Raw(num: nat, d: seq<byte>)

  /** The wire types in the tag: 0, 1, 2, 3 with 4 at the end of the group, and 5. */
  function RawBytes(f: Raw): seq<byte>
    decreases f
  {
    match f
    case VarintRaw(num, v) => Varint(num * 8) + v
    case Fixed64Raw(num, d) => Varint(num * 8 + 1) + d
    case BytesRaw(num, d) => Varint(num * 8 + 2) + (Varint(|d|) + d)
    case GroupRaw(num, fields) => Varint(num * 8 + 3) + (AllRawBytes(fields) + Varint(num * 8 + 4))
    case Fixed32Raw(num, d) => Varint(num * 8 + 5) + d
  }

  function AllRawBytes(fs: seq<Raw>): seq<byte>
    decreases fs
  {
    if fs == [] then [] else RawBytes(fs[0]) + AllRawBytes(fs[1..])
  }

  /** Numbers fit a tag, and payloads have the length that their wire type says. */
  predicate FitsWire(f: Raw)
    decreases f
  {
    && f.num < 0x2000_0000
    && match f
       case VarintRaw(_, v) => |v| <= 10 && Marked(v, |v|)
       case Fixed64Raw(_, d) => |d| == 8
       case BytesRaw(_, d) => |d| < TWO64
       case GroupRaw(_, fields) => AllFitWire(fields)
       case Fixed32Raw(_, d) => |d| == 4
  }

  predicate AllFitWire(fs: seq<Raw>)
    decreases fs
  {
    fs == [] || (FitsWire(fs[0]) && AllFitWire(fs[1..]))
  }

  /** What skipping comes to once n bytes are behind it. */
  function SkipOn(depth: nat, n: nat, rest: seq<byte>): Read<()> {
    if depth == 0 then Got((), n)
    else match Skip(rest, depth) case Bad => Bad case Got(_, more) => Got((), n + more)
  }

  lemma SkipToken(tag: uint64, p: seq<byte>, rest: seq<byte>, depth: nat, depth': nat)
    requires Payload(tag % 8, p + rest, depth) == Got(depth', |p|)
    ensures Skip(Varint(tag) + p + rest, depth) == SkipOn(depth', |Varint(tag)| + |p|, rest)
  {
    hide Varint, ReadVarint, Payload, Skip, SkipOn;
    var t := Varint(tag);
    Parts(t, p, rest);
    VarintRoundTrip(tag, p + rest);
    SkipStep(t + p + rest, depth);
  }

  lemma Parts(a: seq<byte>, b: seq<byte>, c: seq<byte>)
    ensures a + b + c == a + (b + c) && (a + b + c)[|a|..] == b + c && (a + b + c)[|a| + |b|..] == c
  {
  }

  /** One turn of the loop. */
  lemma SkipStep(data: seq<byte>, depth: nat)
    requires ReadVarint(data).Got?
    ensures var tag, n := ReadVarint(data).value, ReadVarint(data).size;
      var p := Payload(tag % 8, data[n..], depth);
      Skip(data, depth) == if p == Bad || n + p.size > |data| then Bad
                           else SkipOn(p.value, n + p.size, data[n + p.size..])
  {
    hide ReadVarint, Payload;
  }

  /** Skipping takes exactly one field, groups within groups included. */
  lemma {:induction false} SkipTakesField(f: Raw, rest: seq<byte>, depth: nat)
    requires FitsWire(f)
    ensures Skip(RawBytes(f) + rest, depth) == SkipOn(depth, |RawBytes(f)|, rest)
    decreases f
  {
    hide Skip, Varint, ReadBytes, RawVarint, Marked, SkipOn;
    match f
    case VarintRaw(num, v) =>
      VarintPayload(v, rest, depth);
      SkipToken(num * 8, v, rest, depth, depth);
    case Fixed64Raw(num, d) => SkipToken(num * 8 + 1, d, rest, depth, depth);
    case BytesRaw(num, d) =>
      BytesRoundTrip(d, rest);
      SkipToken(num * 8 + 2, Varint(|d|) + d, rest, depth, depth);
    case GroupRaw(num, fields) => SkipTakesGroup(num, fields, rest, depth);
    case Fixed32Raw(num, d) => SkipToken(num * 8 + 5, d, rest, depth, depth);
  }

  lemma VarintPayload(v: seq<byte>, rest: seq<byte>, depth: nat)
    requires |v| <= 10 && Marked(v, |v|)
    ensures Payload(0, v + rest, depth) == Got(depth, |v|)
  {
    assert Marked(v + rest, |v|);
    RawVarintReads(v + rest, 10, |v|);
  }

  lemma {:induction false} SkipTakesGroup(num: nat, fields: seq<Raw>, rest: seq<byte>, depth: nat)
    requires num < 0x2000_0000 && AllFitWire(fields)
    ensures Skip(RawBytes(GroupRaw(num, fields)) + rest, depth)
         == SkipOn(depth, |RawBytes(GroupRaw(num, fields))|, rest)
    decreases fields, 1
  {
    var start, body, end := Varint(num * 8 + 3), AllRawBytes(fields), Varint(num * 8 + 4);
    assert RawBytes(GroupRaw(num, fields)) == start + (body + end);
    GroupTags(num, body + (end + rest), depth);
    GroupTags(num, rest, depth);
    hide RawBytes, AllRawBytes, Varint, Skip, Payload;
    hide SkipOn;
    SkipMark(num * 8 + 3, body + (end + rest), depth, depth + 1);
    SkipTakesFields(fields, end + rest, depth + 1);
    SkipMark(num * 8 + 4, rest, depth + 1, depth);
    SkipJoins(start, body, end, rest, depth);
  }

  lemma SkipJoins(start: seq<byte>, body: seq<byte>, end: seq<byte>, rest: seq<byte>, depth: nat)
    requires Skip(start + (body + (end + rest)), depth) == SkipOn(depth + 1, |start|, body + (end + rest))
    requires Skip(body + (end + rest), depth + 1) == SkipOn(depth + 1, |body|, end + rest)
    requires Skip(end + rest, depth + 1) == SkipOn(depth, |end|, rest)
    ensures Skip(start + (body + end) + rest, depth) == SkipOn(depth, |start + (body + end)|, rest)
  {
    hide Skip;
    Parts(start, body + end, rest);
    Parts(body, end, rest);
  }

  lemma GroupTags(num: nat, rest: seq<byte>, depth: nat)
    ensures Payload((num * 8 + 3) % 8, rest, depth) == Got(depth + 1, 0)
    ensures Payload((num * 8 + 4) % 8, rest, depth + 1) == Got(depth, 0)
  {
    assert (num * 8 + 3) % 8 == 3 && (num * 8 + 4) % 8 == 4;
  }

  /** The tags around a group have no payload. */
  lemma SkipMark(tag: uint64, rest: seq<byte>, depth: nat, depth': nat)
    requires Payload(tag % 8, rest, depth) == Got(depth', 0)
    ensures Skip(Varint(tag) + rest, depth) == SkipOn(depth', |Varint(tag)|, rest)
  {
    assert [] + rest == rest && Varint(tag) + [] == Varint(tag);
    SkipToken(tag, [], rest, depth, depth');
  }

  lemma {:induction false} SkipTakesFields(fs: seq<Raw>, rest: seq<byte>, depth: nat)
    requires AllFitWire(fs) && depth > 0
    ensures Skip(AllRawBytes(fs) + rest, depth) == SkipOn(depth, |AllRawBytes(fs)|, rest)
    decreases fs, 0
  {
    hide Skip, RawBytes;
    if fs == [] {
      assert [] + rest == rest;
      assert Skip(rest, depth).Got? ==> Skip(rest, depth).value == ();
    } else {
      var head, tail := RawBytes(fs[0]), AllRawBytes(fs[1..]);
      assert AllRawBytes(fs) == head + tail;
      hide AllRawBytes;
      assert head + tail + rest == head + (tail + rest);
      SkipTakesField(fs[0], tail + rest, depth);
      SkipTakesFields(fs[1..], rest, depth);
    }
  }

  /** And it takes nothing else: no tag, a wire type that does not exist, the end of a group
      that was not begun, or a payload that is cut short. */
  lemma SkipRefuses(data: seq<byte>, depth: nat)
    ensures ReadVarint(data) == Bad ==> Skip(data, depth) == Bad
    ensures ReadVarint(data).Got? ==>
        var tag, n := ReadVarint(data).value, ReadVarint(data).size;
        tag % 8 == 6 || tag % 8 == 7 || (tag % 8 == 4 && depth == 0)
        || (tag % 8 == 0 && RawVarint(data[n..], 10) == Bad) || (tag % 8 == 1 && |data| < n + 8)
        || (tag % 8 == 2 && ReadBytes(data[n..]) == Bad) || (tag % 8 == 5 && |data| < n + 4)
        ==> Skip(data, depth) == Bad
  {
    hide ReadVarint, RawVarint, ReadBytes;
  }

  // ----- fields

  lemma Int32Means(n: nat)
    ensures (Int32(n) - n) % 0x1_0000_0000 == 0
  {
  }

  /** What a tag decides. A field the schema knows is read as its kind, and refused under
      any other wire type; an unknown one is kept whole, unless its number is zero or it
      ends a group. */
  lemma TagDecides(schema: Schema, num: nat, wireType: nat, rest: seq<byte>)
    requires num < 0x1000_0000 && wireType < 8
    ensures var tag := Varint(num * 8 + wireType);
      var r := NextField(schema, tag + rest);
      && (num == 0 || wireType == 4 ==> r == Bad)
      && (num > 0 && num in schema && schema[num] == Uint ==>
            if wireType != 0 then r == Bad
            else forall v: uint64, k: nat :: r == Got(Number(num, v), |tag| + k) <==> ReadVarint(rest) == Got(v, k))
      && (num > 0 && num in schema && schema[num] == Delimited ==>
            if wireType != 2 then r == Bad
            else forall d, k: nat :: r == Got(Chunk(num, d), |tag| + k) <==> ReadBytes(rest) == Got(d, k))
  {
    VarintRoundTrip(num * 8 + wireType, rest);
    var tag := Varint(num * 8 + wireType);
    assert (tag + rest)[|tag|..] == rest;
    hide Varint, ReadVarint, ReadBytes, Skip;
    TagOf(num, wireType);
    hide Int32;
  }

  lemma TagOf(num: nat, wireType: nat)
    ensures num < 0x1000_0000 && wireType < 8 ==>
        var tag := num * 8 + wireType; tag / 8 == num && tag % 8 == wireType && Int32(num) == num
  {
  }

  lemma UnknownIsKept(schema: Schema, f: Raw, rest: seq<byte>)
    requires FitsWire(f) && 0 < f.num < 0x1000_0000 && f.num !in schema
    ensures NextField(schema, RawBytes(f) + rest) == Got(Unknown(RawBytes(f)), |RawBytes(f)|)
  {
    var data := RawBytes(f) + rest;
    SkipTakesField(f, rest, 0);
    FirstTag(f, rest);
    assert data[..|RawBytes(f)|] == RawBytes(f);
    TagOf(f.num, 0);
    hide Skip, Varint, ReadVarint, RawBytes, Int32, FitsWire, ReadBytes;
  }

  lemma FirstTag(f: Raw, rest: seq<byte>)
    requires f.num < 0x1000_0000
    ensures var r := ReadVarint(RawBytes(f) + rest); r.Got? && r.value / 8 == f.num && r.value % 8 != 4
  {
    var (tag, tail) :=
      match f
      case VarintRaw(num, v) => (num * 8, v)
      case Fixed64Raw(num, d) => (num * 8 + 1, d)
      case BytesRaw(num, d) => (num * 8 + 2, Varint(|d|) + d)
      case GroupRaw(num, fields) => (num * 8 + 3, AllRawBytes(fields) + Varint(num * 8 + 4))
      case Fixed32Raw(num, d) => (num * 8 + 5, d);
    assert RawBytes(f) + rest == Varint(tag) + (tail + rest);
    VarintRoundTrip(tag, tail + rest);
  }
}
