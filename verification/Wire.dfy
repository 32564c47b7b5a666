/** The Protocol Buffers wire format the generated codecs rely on: base 128 varints,
    length-delimited records, and the skipping of fields a schema does not know. */
module Wire {
  import opened Options

  type byte = x: int | 0 <= x < 256

  const TWO64: int := 0x1_0000_0000_0000_0000
  type uint64 = x: int | 0 <= x < TWO64

  datatype Read<T> = Got(value: T, size: nat) | Bad

  // ----- varints

  function Varint(n: nat): (v: seq<byte>)
    ensures v != []
  {
    if n < 128 then [n] else [n % 128 + 128] + Varint(n / 128)
  }

  function SizeVarint(n: nat): (k: nat)
    ensures k == |Varint(n)|
  {
    if n < 128 then 1 else 1 + SizeVarint(n / 128)
  }

  /** At most `room` bytes, low groups first. */
  function RawVarint(data: seq<byte>, room: nat): (r: Read<nat>)
    ensures r.Got? ==> 0 < r.size <= |data|
    decreases room
  {
    if room == 0 || data == [] then Bad
    else if data[0] < 128 then Got(data[0], 1)
    else
      match RawVarint(data[1..], room - 1)
      case Got(v, n) => Got(data[0] - 128 + 128 * v, n + 1)
      case Bad => Bad
  }

  /** Ten bytes at most; bits past the 64th are lost. */
  function ReadVarint(data: seq<byte>): (r: Read<uint64>)
    ensures r.Got? ==> 0 < r.size <= |data|
  {
    match RawVarint(data, 10)
    case Got(v, n) => Got(v % TWO64, n)
    case Bad => Bad
  }

  function Pow128(k: nat): nat {
    if k == 0 then 1 else 128 * Pow128(k - 1)
  }

  lemma {:induction false} RawVarintRoundTrip(n: nat, rest: seq<byte>, room: nat)
    requires n < Pow128(room) && room > 0
    ensures RawVarint(Varint(n) + rest, room) == Got(n, |Varint(n)|)
    decreases room
  {
    if n >= 128 {
      assert n / 128 < Pow128(room - 1) && room > 1;
      assert n == n % 128 + 128 * (n / 128) && (Varint(n) + rest)[0] == n % 128 + 128;
      assert (Varint(n) + rest)[1..] == Varint(n / 128) + rest;
      RawVarintRoundTrip(n / 128, rest, room - 1);
    }
  }

  lemma VarintRoundTrip(n: uint64, rest: seq<byte>)
    ensures ReadVarint(Varint(n) + rest) == Got(n, |Varint(n)|)
  {
    assert Pow128(2) == 0x4000 && Pow128(5) == 0x8_0000_0000 && Pow128(8) == 0x100_0000_0000_0000;
    assert Pow128(10) == 0x40_0000_0000_0000_0000;
    RawVarintRoundTrip(n, rest, 10);
  }

  /** Two inputs agree on their first n bytes. */
  ghost predicate Agree(a: seq<byte>, b: seq<byte>, n: nat) {
    n <= |a| && n <= |b| && a[..n] == b[..n]
  }

  lemma AgreeTail(a: seq<byte>, b: seq<byte>, n: nat, k: nat)
    requires Agree(a, b, n) && k <= n
    ensures Agree(a[k..], b[k..], n - k) && Agree(a, b, k) && a[..k] == b[..k]
  {
    assert a[k..][..n - k] == a[..n][k..] && b[k..][..n - k] == b[..n][k..];
    assert a[..k] == a[..n][..k] && b[..k] == b[..n][..k];
  }

  lemma {:induction false} RawVarintLocal(a: seq<byte>, b: seq<byte>, room: nat)
    requires RawVarint(a, room).Got? && Agree(a, b, RawVarint(a, room).size)
    ensures RawVarint(b, room) == RawVarint(a, room)
    decreases room
  {
    var n := RawVarint(a, room).size;
    AgreeTail(a, b, n, 1);
    assert a[0] == a[..1][0] && b[0] == b[..1][0];
    if a[0] >= 128 {
      RawVarintLocal(a[1..], b[1..], room - 1);
    }
  }

  lemma VarintLocal(a: seq<byte>, b: seq<byte>)
    requires ReadVarint(a).Got? && Agree(a, b, ReadVarint(a).size)
    ensures ReadVarint(b) == ReadVarint(a)
  {
    RawVarintLocal(a, b, 10);
  }

  // ----- length-delimited records

  function ReadBytes(data: seq<byte>): (r: Read<seq<byte>>)
    ensures r.Got? ==> 0 < r.size <= |data|
  {
    match ReadVarint(data)
    case Bad => Bad
    case Got(length, n) => if n + length > |data| then Bad else Got(data[n..n + length], n + length)
  }

  lemma BytesRoundTrip(d: seq<byte>, rest: seq<byte>)
    requires |d| < TWO64
    ensures ReadBytes(Varint(|d|) + d + rest) == Got(d, |Varint(|d|)| + |d|)
  {
    VarintRoundTrip(|d|, d + rest);
    assert Varint(|d|) + d + rest == Varint(|d|) + (d + rest);
    var n := |Varint(|d|)|;
    assert (Varint(|d|) + d + rest)[n..n + |d|] == d;
  }

  lemma BytesLocal(a: seq<byte>, b: seq<byte>)
    requires ReadBytes(a).Got? && Agree(a, b, ReadBytes(a).size)
    ensures ReadBytes(b) == ReadBytes(a)
  {
    hide RawVarint, ReadVarint, Agree;
    var n, size := ReadVarint(a).size, ReadBytes(a).size;
    assert size <= |b| && a[..size] == b[..size] by {
      AgreeTail(a, b, size, size);
    }
    AgreeTail(a, b, size, n);
    VarintLocal(a, b);
    assert a[n..size] == a[..size][n..] && b[n..size] == b[..size][n..];
  }

  // ----- skipping

  /** The payload size of one wire type, and the group depth after it. */
  function Payload(wireType: nat, data: seq<byte>, depth: nat): Read<nat> {
    match wireType
    case 0 => (match RawVarint(data, 10) case Got(_, n) => Got(depth, n) case Bad => Bad)
    case 1 => if 8 > |data| then Bad else Got(depth, 8)
    case 2 => (match ReadBytes(data) case Got(_, n) => Got(depth, n) case Bad => Bad)
    case 3 => Got(depth + 1, 0)
    case 4 => if depth == 0 then Bad else Got(depth - 1, 0)
    case 5 => if 4 > |data| then Bad else Got(depth, 4)
    case _ => Bad
  }

  lemma PayloadLocal(wireType: nat, a: seq<byte>, b: seq<byte>, depth: nat)
    requires Payload(wireType, a, depth).Got? && Agree(a, b, Payload(wireType, a, depth).size)
    ensures Payload(wireType, b, depth) == Payload(wireType, a, depth)
  {
    match wireType
    case 0 => RawVarintLocal(a, b, 10);
    case 2 => BytesLocal(a, b);
    case _ =>
  }

  /** One whole field, nested groups included. */
  function Skip(data: seq<byte>, depth: nat): (r: Read<()>)
    ensures r.Got? ==> 0 < r.size <= |data|
    decreases |data|
  {
    match ReadVarint(data)
    case Bad => Bad
    case Got(wire, n) =>
      match Payload(wire % 8, data[n..], depth)
      case Bad => Bad
      case Got(depth', k) =>
        if n + k > |data| then Bad
        else if depth' == 0 then Got((), n + k)
        else
          match Skip(data[n + k..], depth')
          case Bad => Bad
          case Got(_, more) => Got((), n + k + more)
  }

  /** Skipping a field looks at nothing past its end. */
  lemma {:induction false} SkipLocal(a: seq<byte>, b: seq<byte>, depth: nat)
    requires Skip(a, depth).Got? && Agree(a, b, Skip(a, depth).size)
    ensures Skip(b, depth) == Skip(a, depth)
    decreases |a|
  {
    hide ReadVarint, Payload, Agree;
    var size := Skip(a, depth).size;
    var wire, n := ReadVarint(a).value, ReadVarint(a).size;
    AgreeTail(a, b, size, n);
    VarintLocal(a, b);
    var depth', k := Payload(wire % 8, a[n..], depth).value, Payload(wire % 8, a[n..], depth).size;
    AgreeTail(a[n..], b[n..], size - n, k);
    PayloadLocal(wire % 8, a[n..], b[n..], depth);
    if depth' != 0 {
      AgreeTail(a, b, size, n + k);
      SkipLocal(a[n + k..], b[n + k..], depth');
    }
  }

  // ----- fields

  datatype Kind = Uint | Delimited

  /** The fields a message knows, by number. */
  type Schema = map<nat, Kind>

  datatype Field =
    | Number(num: nat, value: uint64)
    | Chunk(num: nat, data: seq<byte>)
    | Unknown(raw: seq<byte>)

  function Int32(n: nat): (i: int)
    ensures -0x8000_0000 <= i < 0x8000_0000
  {
    var m := n % 0x1_0000_0000;
    if m < 0x8000_0000 then m else m - 0x1_0000_0000
  }

  /** One turn of a decode loop: the tag, then the field's payload, or a field to keep
      unread. */
  function NextField(schema: Schema, data: seq<byte>): (r: Read<Field>)
    ensures r.Got? ==> 0 < r.size <= |data|
    ensures r.Got? && r.value.Unknown? ==> r.value.raw == data[..r.size]
  {
    match ReadVarint(data)
    case Bad => Bad
    case Got(wire, n) =>
      var num, wireType := Int32(wire / 8), wire % 8;
      if wireType == 4 || num <= 0 then Bad
      else if num !in schema then
        match Skip(data, 0)
        case Bad => Bad
        case Got(_, k) => Got(Unknown(data[..k]), k)
      else
        match schema[num]
        case Uint =>
          if wireType != 0 then Bad
          else (match ReadVarint(data[n..]) case Bad => Bad case Got(v, k) => Got(Number(num, v), n + k))
        case Delimited =>
          if wireType != 2 then Bad
          else (match ReadBytes(data[n..]) case Bad => Bad case Got(d, k) => Got(Chunk(num, d), n + k))
  }

  /** Reading a field looks at nothing past its end. */
  lemma NextFieldLocal(schema: Schema, a: seq<byte>, b: seq<byte>)
    requires NextField(schema, a).Got? && Agree(a, b, NextField(schema, a).size)
    ensures NextField(schema, b) == NextField(schema, a)
  {
    var size := NextField(schema, a).size;
    var wire, n := ReadVarint(a).value, ReadVarint(a).size;
    var num := Int32(wire / 8);
    if num !in schema {
      AgreeTail(a, b, size, n);
      VarintLocal(a, b);
      SkipLocal(a, b, 0);
    } else {
      AgreeTail(a, b, size, n);
      VarintLocal(a, b);
      if schema[num] == Uint {
        VarintLocal(a[n..], b[n..]);
      } else {
        BytesLocal(a[n..], b[n..]);
      }
    }
  }

  // ----- whole messages

  /** All fields of a message, in order; every turn of the loop consumes input. */
  function Parse(schema: Schema, data: seq<byte>): Option<seq<Field>>
    decreases |data|
  {
    if data == [] then Some([])
    else
      match NextField(schema, data)
      case Bad => None
      case Got(f, n) =>
        match Parse(schema, data[n..])
        case None => None
        case Some(fs) => Some([f] + fs)
  }

  function Joined(a: Option<seq<Field>>, b: Option<seq<Field>>): Option<seq<Field>> {
    if a.Some? && b.Some? then Some(a.value + b.value) else None
  }

  /** Parsing is a stream action: after a whole message, whatever follows is parsed on
      its own, and fails on its own. */
  lemma {:induction false} ParseConcat(schema: Schema, a: seq<byte>, b: seq<byte>)
    requires Parse(schema, a).Some?
    ensures Parse(schema, a + b) == Joined(Parse(schema, a), Parse(schema, b))
    decreases |a|
  {
    hide NextField;
    if a == [] {
      assert a + b == b;
      assert Parse(schema, b).Some? ==> [] + Parse(schema, b).value == Parse(schema, b).value;
    } else {
      var n := NextField(schema, a).size;
      assert Agree(a, a + b, n) by {
        assert (a + b)[..n] == a[..n];
      }
      NextFieldLocal(schema, a, a + b);
      assert (a + b)[n..] == a[n..] + b;
      ParseConcat(schema, a[n..], b);
      if Parse(schema, b).Some? {
        var f, fs := NextField(schema, a).value, Parse(schema, a[n..]).value;
        assert [f] + (fs + Parse(schema, b).value) == [f] + fs + Parse(schema, b).value;
      }
    }
  }

  // ----- printing

  function PrintField(f: Field): seq<byte>
  {
    match f
    case Number(num, v) => Varint(num * 8) + Varint(v)
    case Chunk(num, d) => Varint(num * 8 + 2) + (Varint(|d|) + d)
    case Unknown(raw) => raw
  }

  ghost predicate Printable(schema: Schema, f: Field) {
    match f
    case Number(num, _) => 0 < num < 0x1000_0000 && num in schema && schema[num] == Uint
    case Chunk(num, d) => 0 < num < 0x1000_0000 && num in schema && schema[num] == Delimited && |d| < TWO64
    case Unknown(raw) => NextField(schema, raw) == Got(f, |raw|)
  }

  lemma FieldRoundTrip(schema: Schema, f: Field, rest: seq<byte>)
    requires Printable(schema, f)
    ensures NextField(schema, PrintField(f) + rest) == Got(f, |PrintField(f)|)
  {
    hide ReadVarint, ReadBytes, Varint, Skip;
    var p := PrintField(f) + rest;
    match f
    case Number(num, v) =>
      var tag := Varint(num * 8);
      assert p == tag + (Varint(v) + rest);
      VarintRoundTrip(num * 8, Varint(v) + rest);
      VarintRoundTrip(v, rest);
      assert p[|tag|..] == Varint(v) + rest;
    case Chunk(num, d) =>
      var tag := Varint(num * 8 + 2);
      assert p == tag + (Varint(|d|) + d + rest);
      VarintRoundTrip(num * 8 + 2, Varint(|d|) + d + rest);
      BytesRoundTrip(d, rest);
      assert p[|tag|..] == Varint(|d|) + d + rest;
    case Unknown(raw) =>
      assert Agree(raw, raw + rest, |raw|) by {
        assert (raw + rest)[..|raw|] == raw && raw[..|raw|] == raw;
      }
      NextFieldLocal(schema, raw, raw + rest);
  }

  ghost predicate AllPrintable(schema: Schema, fs: seq<Field>) {
    forall i | 0 <= i < |fs| :: Printable(schema, fs[i])
  }

  function Print(fs: seq<Field>): seq<byte>
  {
    if fs == [] then [] else PrintField(fs[0]) + Print(fs[1..])
  }

  /** Parsing undoes printing, field by field. */
  lemma {:induction false} ParsePrint(schema: Schema, fs: seq<Field>)
    requires AllPrintable(schema, fs)
    ensures Parse(schema, Print(fs)) == Some(fs)
  {
    hide NextField, PrintField, Printable;
    if fs != [] {
      var head, tail := PrintField(fs[0]), Print(fs[1..]);
      FieldRoundTrip(schema, fs[0], tail);
      assert (head + tail)[|head|..] == tail;
      ParsePrint(schema, fs[1..]);
      assert [fs[0]] + fs[1..] == fs;
    }
  }

  // ----- unknown fields

  function UnknownBytes(fs: seq<Field>): seq<byte> {
    if fs == [] then [] else (if fs[0].Unknown? then fs[0].raw else []) + UnknownBytes(fs[1..])
  }

  lemma {:induction false} UnknownBytesConcat(a: seq<Field>, b: seq<Field>)
    ensures UnknownBytes(a + b) == UnknownBytes(a) + UnknownBytes(b)
  {
    if a == [] {
      assert a + b == b;
    } else {
      assert (a + b)[1..] == a[1..] + b;
      UnknownBytesConcat(a[1..], b);
    }
  }

  ghost predicate AllUnknown(fs: seq<Field>) {
    forall i | 0 <= i < |fs| :: fs[i].Unknown?
  }

  /** Bytes that hold only fields the schema does not know. */
  ghost predicate UnknownOnly(schema: Schema, raw: seq<byte>) {
    Parse(schema, raw).Some? && AllUnknown(Parse(schema, raw).value)
  }

  /** A parse keeps as unknown at most what it read, and all of it exactly when it knew
      none of the fields. */
  lemma {:induction false} UnknownShare(schema: Schema, data: seq<byte>)
    requires Parse(schema, data).Some?
    ensures var fs := Parse(schema, data).value;
      && |UnknownBytes(fs)| <= |data|
      && (AllUnknown(fs) <==> |UnknownBytes(fs)| == |data|)
      && (AllUnknown(fs) ==> UnknownBytes(fs) == data)
    decreases |data|
  {
    hide NextField;
    if data != [] {
      var f, n := NextField(schema, data).value, NextField(schema, data).size;
      var rest := Parse(schema, data[n..]).value;
      UnknownShare(schema, data[n..]);
      assert ([f] + rest)[1..] == rest;
      assert AllUnknown([f] + rest) <==> f.Unknown? && AllUnknown(rest) by {
        if AllUnknown([f] + rest) {
          assert ([f] + rest)[0] == f;
          forall i | 0 <= i < |rest| ensures rest[i].Unknown? {
            assert ([f] + rest)[i + 1] == rest[i];
          }
        }
      }
      assert data == data[..n] + data[n..];
    }
  }

  /** The unknown fields of a parse, taken alone, parse as themselves. */
  lemma {:induction false} UnknownIsUnknown(schema: Schema, data: seq<byte>)
    requires Parse(schema, data).Some?
    ensures UnknownOnly(schema, UnknownBytes(Parse(schema, data).value))
    decreases |data|
  {
    hide NextField;
    if data != [] {
      var f, n := NextField(schema, data).value, NextField(schema, data).size;
      var rest := Parse(schema, data[n..]).value;
      UnknownIsUnknown(schema, data[n..]);
      assert ([f] + rest)[1..] == rest;
      if f.Unknown? {
        assert Agree(data, f.raw, n) by {
          assert f.raw[..n] == f.raw;
        }
        NextFieldLocal(schema, data, f.raw);
        assert f.raw != [] && f.raw[n..] == [] && [f] + [] == [f];
        assert Parse(schema, []) == Some([]) && Parse(schema, f.raw) == Some([f]);
        UnknownOnlyConcat(schema, f.raw, UnknownBytes(rest));
      } else {
        assert [] + UnknownBytes(rest) == UnknownBytes(rest);
      }
    }
  }

  lemma UnknownOnlyConcat(schema: Schema, a: seq<byte>, b: seq<byte>)
    requires UnknownOnly(schema, a) && UnknownOnly(schema, b)
    ensures UnknownOnly(schema, a + b)
  {
    ParseConcat(schema, a, b);
  }

  // ----- decoding into a message

  /** The decode loop of a message: `apply` merges one field, or fails on it. */
  function Fold<M>(apply: (M, Field) -> Option<M>, m: M, fs: seq<Field>): Option<M>
    decreases |fs|
  {
    if fs == [] then Some(m)
    else
      match apply(m, fs[0])
      case None => None
      case Some(m') => Fold(apply, m', fs[1..])
  }

  function Decode<M>(schema: Schema, apply: (M, Field) -> Option<M>, m: M, data: seq<byte>): Option<M> {
    match Parse(schema, data)
    case None => None
    case Some(fs) => Fold(apply, m, fs)
  }

  lemma {:induction false} FoldConcat<M>(apply: (M, Field) -> Option<M>, m: M, a: seq<Field>, b: seq<Field>)
    ensures Fold(apply, m, a + b)
         == match Fold(apply, m, a) case None => None case Some(m') => Fold(apply, m', b)
    decreases |a|
  {
    if a == [] {
      assert a + b == b;
    } else {
      assert (a + b)[0] == a[0] && (a + b)[1..] == a[1..] + b;
      match apply(m, a[0])
      case None =>
      case Some(m') => FoldConcat(apply, m', a[1..], b);
    }
  }

  /** Decoding is a stream action: if a decodes on its own, decoding a followed by b is
      decoding b into the result, for every message and every b. */
  lemma DecodeConcat<M>(schema: Schema, apply: (M, Field) -> Option<M>, m: M, a: seq<byte>, b: seq<byte>)
    requires Decode(schema, apply, m, a).Some?
    ensures Decode(schema, apply, m, a + b) == Decode(schema, apply, Decode(schema, apply, m, a).value, b)
  {
    ParseConcat(schema, a, b);
    if Parse(schema, b).Some? {
      FoldConcat(apply, m, Parse(schema, a).value, Parse(schema, b).value);
    }
  }

  /** One turn of the loop: the first field, then the rest of the input. */
  lemma DecodeStep<M>(schema: Schema, apply: (M, Field) -> Option<M>, m: M, data: seq<byte>)
    requires data != []
    ensures Decode(schema, apply, m, data).Some? ==>
        && NextField(schema, data).Got? && apply(m, NextField(schema, data).value).Some?
    ensures NextField(schema, data).Got? && apply(m, NextField(schema, data).value).Some? ==>
        Decode(schema, apply, m, data) == Decode(schema, apply, apply(m, NextField(schema, data).value).value,
                                                 data[NextField(schema, data).size..])
  {
    if NextField(schema, data).Got? && Parse(schema, data[NextField(schema, data).size..]).Some? {
      var f, fs := NextField(schema, data).value, Parse(schema, data[NextField(schema, data).size..]).value;
      assert ([f] + fs)[0] == f && ([f] + fs)[1..] == fs;
    }
  }

  /** How a message holds its unknown bytes: a lens, which `apply` writes only to add
      the unknown fields it is given. */
  ghost predicate Lawful<M(!new)>(apply: (M, Field) -> Option<M>, unknown: M -> seq<byte>, put: (M, seq<byte>) -> M) {
    && (forall m: M, f :: apply(m, f).Some? ==>
          unknown(apply(m, f).value) == unknown(m) + if f.Unknown? then f.raw else [])
    && (forall m: M, raw :: apply(m, Unknown(raw)) == Some(put(m, unknown(m) + raw)))
    && (forall m: M, a :: unknown(put(m, a)) == a)
    && (forall m: M, a, b :: put(put(m, a), b) == put(m, b))
    && (forall m: M :: put(m, unknown(m)) == m)
  }

  /** The laws at one message and one field. */
  lemma LawfulAt<M(!new)>(apply: (M, Field) -> Option<M>, unknown: M -> seq<byte>, put: (M, seq<byte>) -> M,
                          m: M, f: Field, b: seq<byte>)
    requires Lawful(apply, unknown, put)
    ensures apply(m, f).Some? ==> unknown(apply(m, f).value) == unknown(m) + if f.Unknown? then f.raw else []
    ensures f.Unknown? ==> apply(m, f).Some? && put(apply(m, f).value, b) == put(m, b)
    ensures put(m, unknown(m)) == m
  {
    if f.Unknown? {
      assert apply(m, Unknown(f.raw)) == Some(put(m, unknown(m) + f.raw));
    }
  }

  /** A message's unknown bytes grow by exactly the unknown fields read into it. */
  lemma {:induction false} FoldUnknown<M(!new)>(apply: (M, Field) -> Option<M>, unknown: M -> seq<byte>,
                                                put: (M, seq<byte>) -> M, m: M, fs: seq<Field>)
    requires Lawful(apply, unknown, put) && Fold(apply, m, fs).Some?
    ensures unknown(Fold(apply, m, fs).value) == unknown(m) + UnknownBytes(fs)
    ensures AllUnknown(fs) ==> Fold(apply, m, fs).value == put(m, unknown(m) + UnknownBytes(fs))
    decreases |fs|
  {
    hide Lawful;
    if fs == [] {
      assert unknown(m) + [] == unknown(m);
      LawfulAt(apply, unknown, put, m, Unknown([]), []);
    } else {
      var raw, rest, m' := if fs[0].Unknown? then fs[0].raw else [], UnknownBytes(fs[1..]), apply(m, fs[0]).value;
      assert unknown(m) + (raw + rest) == unknown(m) + raw + rest;
      LawfulAt(apply, unknown, put, m, fs[0], unknown(m) + raw + rest);
      FoldUnknown(apply, unknown, put, m', fs[1..]);
      if AllUnknown(fs) {
        assert fs[0].Unknown? && AllUnknown(fs[1..]);
      }
    }
  }

  lemma {:induction false} UnknownAlwaysFolds<M(!new)>(apply: (M, Field) -> Option<M>, unknown: M -> seq<byte>,
                                                       put: (M, seq<byte>) -> M, m: M, fs: seq<Field>)
    requires Lawful(apply, unknown, put) && AllUnknown(fs)
    ensures Fold(apply, m, fs).Some?
    decreases |fs|
  {
    hide Lawful;
    if fs != [] {
      assert fs[0].Unknown?;
      LawfulAt(apply, unknown, put, m, fs[0], []);
      UnknownAlwaysFolds(apply, unknown, put, apply(m, fs[0]).value, fs[1..]);
    }
  }

  /** What was read as unknown stays readable as unknown. */
  lemma DecodedUnknown<M(!new)>(schema: Schema, apply: (M, Field) -> Option<M>, unknown: M -> seq<byte>,
                                put: (M, seq<byte>) -> M, m: M, data: seq<byte>)
    requires Lawful(apply, unknown, put) && Decode(schema, apply, m, data).Some? && UnknownOnly(schema, unknown(m))
    ensures UnknownOnly(schema, unknown(Decode(schema, apply, m, data).value))
  {
    hide Lawful;
    var fs := Parse(schema, data).value;
    FoldUnknown(apply, unknown, put, m, fs);
    UnknownIsUnknown(schema, data);
    UnknownOnlyConcat(schema, unknown(m), UnknownBytes(fs));
  }

  ghost predicate AllKnown(fs: seq<Field>) {
    forall i | 0 <= i < |fs| :: !fs[i].Unknown?
  }

  lemma {:induction false} KnownBytes(fs: seq<Field>)
    requires AllKnown(fs)
    ensures UnknownBytes(fs) == []
  {
    if fs != [] {
      KnownBytes(fs[1..]);
    }
  }

  /** Known fields printed ahead of the unknown bytes decode to the message m exactly
      when the unknown bytes hold unknown fields only and the known ones build m. */
  lemma MessageRoundTrip<M(!new)>(schema: Schema, apply: (M, Field) -> Option<M>, unknown: M -> seq<byte>,
                                  put: (M, seq<byte>) -> M, empty: M, fs: seq<Field>, m: M)
    requires Lawful(apply, unknown, put) && unknown(empty) == []
    requires AllPrintable(schema, fs) && AllKnown(fs)
    ensures Decode(schema, apply, empty, Print(fs) + unknown(m)) == Some(m)
       <==> UnknownOnly(schema, unknown(m)) && Fold(apply, empty, fs) == Some(put(m, []))
  {
    var raw := unknown(m);
    ParsePrint(schema, fs);
    ParseConcat(schema, Print(fs), raw);
    if Parse(schema, raw).Some? && Fold(apply, empty, fs).Some? {
      var us, k := Parse(schema, raw).value, Fold(apply, empty, fs).value;
      FoldConcat(apply, empty, fs, us);
      FoldUnknown(apply, unknown, put, empty, fs);
      KnownBytes(fs);
      assert unknown(k) == [];
      UnknownShare(schema, raw);
      if Fold(apply, k, us).Some? {
        FoldUnknown(apply, unknown, put, k, us);
        assert [] + UnknownBytes(us) == UnknownBytes(us);
      }
      if AllUnknown(us) {
        UnknownAlwaysFolds(apply, unknown, put, k, us);
        assert Fold(apply, k, us).value == put(k, raw);
        assert put(put(m, []), raw) == m && put(put(k, raw), []) == k;
      }
    } else if Parse(schema, raw).Some? {
      FoldConcat(apply, empty, fs, Parse(schema, raw).value);
    }
  }

  // ----- building the field list of a message

  /** A field that is printed only when it is present. */
  function Opt(present: bool, f: Field): seq<Field> {
    if present then [f] else []
  }

  lemma FoldOpt<M>(apply: (M, Field) -> Option<M>, m: M, present: bool, f: Field, rest: seq<Field>)
    ensures Fold(apply, m, Opt(present, f) + rest)
         == if !present then Fold(apply, m, rest)
            else match apply(m, f) case None => None case Some(m') => Fold(apply, m', rest)
  {
    if present {
      assert ([f] + rest)[0] == f && ([f] + rest)[1..] == rest;
    } else {
      assert [] + rest == rest;
    }
  }

  /** Fields the schema knows, of any length. */
  ghost predicate Known(schema: Schema, f: Field) {
    !f.Unknown? && 0 < f.num < 0x1000_0000 && f.num in schema && schema[f.num] == if f.Number? then Uint else Delimited
  }

  ghost predicate Shaped(schema: Schema, fs: seq<Field>) {
    forall i | 0 <= i < |fs| :: Known(schema, fs[i])
  }

  /** A list of fields that prints within the 64-bit range is printable. */
  lemma {:induction false} ShapedPrintable(schema: Schema, fs: seq<Field>)
    requires Shaped(schema, fs) && |Print(fs)| < TWO64
    ensures AllPrintable(schema, fs) && AllKnown(fs)
  {
    if fs != [] {
      assert Print(fs) == PrintField(fs[0]) + Print(fs[1..]);
      ShapedPrintable(schema, fs[1..]);
      forall i | 0 <= i < |fs| ensures Printable(schema, fs[i]) {
        if i > 0 {
          assert fs[i] == fs[1..][i - 1];
        }
      }
    }
  }

  lemma {:induction false} PrintConcat(a: seq<Field>, b: seq<Field>)
    ensures Print(a + b) == Print(a) + Print(b)
  {
    if a == [] {
      assert a + b == b;
    } else {
      assert (a + b)[1..] == a[1..] + b;
      PrintConcat(a[1..], b);
    }
  }
}
