/** The generated codec in place: messages that a decode loop fills field by field,
    and encoders that write a presized buffer from its end backwards. */
module IdentityCodec {
  import opened Options
  import opened Wire
  import opened Identity

  // ----- decoding

  class KeypairMessage {
    var peerId: seq<byte>
    var pubKey: seq<byte>
    var authMethodId: seq<byte>
    var authMethodParams: seq<byte>
    var unknownFields: seq<byte>

    function Value(): Keypair
      reads this
    {
      Keypair(peerId, pubKey, authMethodId, authMethodParams, unknownFields)
    }

    constructor (m: Keypair)
      ensures Value() == m
    {
      peerId := m.peerId;
      pubKey := m.pubKey;
      authMethodId := m.authMethodId;
      authMethodParams := m.authMethodParams;
      unknownFields := m.unknown;
    }

    /** Take in one field; false stands for the decode error. */
    method Merge(f: Field) returns (ok: bool)
      modifies this
      ensures ok <==> ApplyKeypair(old(Value()), f).Some?
      ensures ok ==> ApplyKeypair(old(Value()), f) == Some(Value())
    {
      match f {
        case Unknown(raw) => unknownFields := unknownFields + raw;
        case Number(_, _) => return false;
        case Chunk(num, d) =>
          if num == 1 {
            peerId := d;
          } else if num == 2 {
            pubKey := d;
          } else if num == 3 {
            authMethodId := d;
          } else if num == 4 {
            authMethodParams := d;
          } else {
            return false;
          }
      }
      return true;
    }

    method UnmarshalVT(data: seq<byte>) returns (ok: bool)
      modifies this
      ensures ok <==> DecodeKeypair(old(Value()), data).Some?
      ensures ok ==> DecodeKeypair(old(Value()), data) == Some(Value())
    {
      hide ApplyKeypair, NextField;
      ghost var goal := DecodeKeypair(Value(), data);
      var i := 0;
      while i < |data|
        invariant 0 <= i <= |data|
        invariant DecodeKeypair(Value(), data[i..]) == goal
      {
        DecodeStep(KEYPAIR, ApplyKeypair, Value(), data[i..]);
        hide Decode;
        var next := NextField(KEYPAIR, data[i..]);
        if next.Bad? {
          return false;
        }
        var merged := Merge(next.value);
        if !merged {
          return false;
        }
        assert data[i..][next.size..] == data[i + next.size..];
        i := i + next.size;
      }
      return true;
    }
  }

  class SignatureMessage {
    var pubKey: seq<byte>
    var hashType: int32
    var sigData: seq<byte>
    var unknownFields: seq<byte>

    function Value(): Signature
      reads this
    {
      Signature(pubKey, hashType, sigData, unknownFields)
    }

    constructor (m: Signature)
      ensures Value() == m
    {
      pubKey := m.pubKey;
      hashType := m.hashType;
      sigData := m.sigData;
      unknownFields := m.unknown;
    }

    /** Take in one field; false stands for the decode error. */
    method Merge(f: Field) returns (ok: bool)
      modifies this
      ensures ok <==> ApplySignature(old(Value()), f).Some?
      ensures ok ==> ApplySignature(old(Value()), f) == Some(Value())
    {
      match f {
        case Unknown(raw) => unknownFields := unknownFields + raw;
        case Number(num, v) =>
          if num != 2 {
            return false;
          }
          hashType := Int32(v);
        case Chunk(num, d) =>
          if num == 1 {
            pubKey := d;
          } else if num == 3 {
            sigData := d;
          } else {
            return false;
          }
      }
      return true;
    }

    method UnmarshalVT(data: seq<byte>) returns (ok: bool)
      modifies this
      ensures ok <==> DecodeSignature(old(Value()), data).Some?
      ensures ok ==> DecodeSignature(old(Value()), data) == Some(Value())
    {
      hide ApplySignature, NextField;
      ghost var goal := DecodeSignature(Value(), data);
      var i := 0;
      while i < |data|
        invariant 0 <= i <= |data|
        invariant DecodeSignature(Value(), data[i..]) == goal
      {
        DecodeStep(SIGNATURE, ApplySignature, Value(), data[i..]);
        hide Decode;
        var next := NextField(SIGNATURE, data[i..]);
        if next.Bad? {
          return false;
        }
        var merged := Merge(next.value);
        if !merged {
          return false;
        }
        assert data[i..][next.size..] == data[i + next.size..];
        i := i + next.size;
      }
      return true;
    }
  }

  class EntityKeypairMessage {
    var entityId: seq<byte>
    var domainId: seq<byte>
    var keypair: Option<Keypair>
    var unknownFields: seq<byte>

    function Value(): EntityKeypair
      reads this
    {
      EntityKeypair(entityId, domainId, keypair, unknownFields)
    }

    constructor (m: EntityKeypair)
      ensures Value() == m
    {
      entityId := m.entityId;
      domainId := m.domainId;
      keypair := m.keypair;
      unknownFields := m.unknown;
    }

    /** Take in one field; false stands for the decode error. */
    method Merge(f: Field) returns (ok: bool)
      modifies this
      ensures ok <==> ApplyEntityKeypair(old(Value()), f).Some?
      ensures ok ==> ApplyEntityKeypair(old(Value()), f) == Some(Value())
    {
      match f {
        case Unknown(raw) => unknownFields := unknownFields + raw;
        case Number(_, _) => return false;
        case Chunk(num, d) =>
          if num == 1 {
            entityId := d;
          } else if num == 2 {
            domainId := d;
          } else if num == 3 {
            var nested := new KeypairMessage(if keypair.Some? then keypair.value else NO_KEYPAIR);
            var read := nested.UnmarshalVT(d);
            if !read {
              return false;
            }
            keypair := Some(nested.Value());
          } else {
            return false;
          }
      }
      return true;
    }

    method UnmarshalVT(data: seq<byte>) returns (ok: bool)
      modifies this
      ensures ok <==> DecodeEntityKeypair(old(Value()), data).Some?
      ensures ok ==> DecodeEntityKeypair(old(Value()), data) == Some(Value())
    {
      hide ApplyEntityKeypair, NextField;
      ghost var goal := DecodeEntityKeypair(Value(), data);
      var i := 0;
      while i < |data|
        invariant 0 <= i <= |data|
        invariant DecodeEntityKeypair(Value(), data[i..]) == goal
      {
        DecodeStep(ENTITY_KEYPAIR, ApplyEntityKeypair, Value(), data[i..]);
        hide Decode;
        var next := NextField(ENTITY_KEYPAIR, data[i..]);
        if next.Bad? {
          return false;
        }
        var merged := Merge(next.value);
        if !merged {
          return false;
        }
        assert data[i..][next.size..] == data[i + next.size..];
        i := i + next.size;
      }
      return true;
    }
  }

  class EntityKeypairSetMessage {
    var entityKeypairs: seq<seq<byte>>
    var entityKeypairSignatures: seq<Option<Signature>>
    var unknownFields: seq<byte>

    function Value(): KeypairSet
      reads this
    {
      KeypairSet(entityKeypairs, entityKeypairSignatures, unknownFields)
    }

    constructor (m: KeypairSet)
      ensures Value() == m
    {
      entityKeypairs := m.keypairs;
      entityKeypairSignatures := m.signatures;
      unknownFields := m.unknown;
    }

    /** Take in one field; false stands for the decode error. */
    method Merge(f: Field) returns (ok: bool)
      modifies this
      ensures ok <==> ApplyKeypairSet(old(Value()), f).Some?
      ensures ok ==> ApplyKeypairSet(old(Value()), f) == Some(Value())
    {
      match f {
        case Unknown(raw) => unknownFields := unknownFields + raw;
        case Number(_, _) => return false;
        case Chunk(num, d) =>
          if num == 1 {
            entityKeypairs := entityKeypairs + [d];
          } else if num == 2 {
            var nested := new SignatureMessage(NO_SIGNATURE);
            var read := nested.UnmarshalVT(d);
            if !read {
              return false;
            }
            entityKeypairSignatures := entityKeypairSignatures + [Some(nested.Value())];
          } else {
            return false;
          }
      }
      return true;
    }

    method UnmarshalVT(data: seq<byte>) returns (ok: bool)
      modifies this
      ensures ok <==> DecodeKeypairSet(old(Value()), data).Some?
      ensures ok ==> DecodeKeypairSet(old(Value()), data) == Some(Value())
    {
      hide ApplyKeypairSet, NextField;
      ghost var goal := DecodeKeypairSet(Value(), data);
      var i := 0;
      while i < |data|
        invariant 0 <= i <= |data|
        invariant DecodeKeypairSet(Value(), data[i..]) == goal
      {
        DecodeStep(KEYPAIR_SET, ApplyKeypairSet, Value(), data[i..]);
        hide Decode;
        var next := NextField(KEYPAIR_SET, data[i..]);
        if next.Bad? {
          return false;
        }
        var merged := Merge(next.value);
        if !merged {
          return false;
        }
        assert data[i..][next.size..] == data[i + next.size..];
        i := i + next.size;
      }
      return true;
    }
  }

  class EntityMessage {
    var entityId: seq<byte>
    var entityUuid: seq<byte>
    var domainId: seq<byte>
    var epoch: uint64
    var entityKeypairSet: Option<KeypairSet>
    var unknownFields: seq<byte>

    function Value(): Entity
      reads this
    {
      Entity(entityId, entityUuid, domainId, epoch, entityKeypairSet, unknownFields)
    }

    constructor (m: Entity)
      ensures Value() == m
    {
      entityId := m.entityId;
      entityUuid := m.entityUuid;
      domainId := m.domainId;
      epoch := m.epoch;
      entityKeypairSet := m.keypairSet;
      unknownFields := m.unknown;
    }

    /** Take in one field; false stands for the decode error. */
    method Merge(f: Field) returns (ok: bool)
      modifies this
      ensures ok <==> ApplyEntity(old(Value()), f).Some?
      ensures ok ==> ApplyEntity(old(Value()), f) == Some(Value())
    {
      match f {
        case Unknown(raw) => unknownFields := unknownFields + raw;
        case Number(num, v) =>
          if num != 4 {
            return false;
          }
          epoch := v;
        case Chunk(num, d) =>
          if num == 1 {
            entityId := d;
          } else if num == 2 {
            entityUuid := d;
          } else if num == 3 {
            domainId := d;
          } else if num == 5 {
            var nested := new EntityKeypairSetMessage(
              if entityKeypairSet.Some? then entityKeypairSet.value else NO_KEYPAIR_SET);
            var read := nested.UnmarshalVT(d);
            if !read {
              return false;
            }
            entityKeypairSet := Some(nested.Value());
          } else {
            return false;
          }
      }
      return true;
    }

    method UnmarshalVT(data: seq<byte>) returns (ok: bool)
      modifies this
      ensures ok <==> DecodeEntity(old(Value()), data).Some?
      ensures ok ==> DecodeEntity(old(Value()), data) == Some(Value())
    {
      hide ApplyEntity, NextField;
      ghost var goal := DecodeEntity(Value(), data);
      var i := 0;
      while i < |data|
        invariant 0 <= i <= |data|
        invariant DecodeEntity(Value(), data[i..]) == goal
      {
        DecodeStep(ENTITY, ApplyEntity, Value(), data[i..]);
        hide Decode;
        var next := NextField(ENTITY, data[i..]);
        if next.Bad? {
          return false;
        }
        var merged := Merge(next.value);
        if !merged {
          return false;
        }
        assert data[i..][next.size..] == data[i + next.size..];
        i := i + next.size;
      }
      return true;
    }
  }

  // ----- encoding: every writer puts its bytes below those already written

  /** From `was` to `s`, bytes were written from i to end only, and they are `above`. */
  ghost predicate Written(was: seq<byte>, s: seq<byte>, i: nat, end: nat, above: seq<byte>) {
    i <= end <= |s| == |was| && s[i..end] == above && s[..i] == was[..i] && s[end..] == was[end..]
  }

  lemma WrittenFits(was: seq<byte>, s: seq<byte>, i: nat, end: nat, above: seq<byte>)
    ensures Written(was, s, i, end, above) ==> i <= end <= |s|
  {
  }

  /** A message written just below what stood there already. */
  lemma Stacked(s0: seq<byte>, s1: seq<byte>, s2: seq<byte>, i: nat, j: nat, end: nat, above: seq<byte>,
                below: seq<byte>)
    requires Written(s0, s1, j, end, above) && Written(s1, s2, i, j, below)
    ensures Written(s0, s2, i, end, below + above)
  {
    assert s2[i..end] == s2[i..j] + s2[j..end] && s2[j..end] == s2[j..][..end - j] && s1[j..end] == s1[j..][..end - j];
    assert s1[..i] == s1[..j][..i] && s0[..i] == s0[..j][..i];
    assert s2[end..] == s2[j..][end - j..] && s1[end..] == s1[j..][end - j..];
  }

  method PutRaw(buf: array<byte>, j: nat, end: nat, d: seq<byte>, ghost was: seq<byte>, ghost above: seq<byte>)
    returns (i: nat)
    requires |d| <= j && Written(was, buf[..], j, end, above)
    modifies buf
    ensures i == j - |d| && Written(was, buf[..], i, end, d + above)
  {
    ghost var s1 := buf[..];
    i := j - |d|;
    forall k | 0 <= k < |d| {
      buf[i + k] := d[k];
    }
    assert buf[..][i..j] == d;
    Stacked(was, s1, buf[..], i, j, end, above, d);
  }

  method PutByte(buf: array<byte>, j: nat, end: nat, b: byte, ghost was: seq<byte>, ghost above: seq<byte>)
    returns (i: nat)
    requires 1 <= j && Written(was, buf[..], j, end, above)
    modifies buf
    ensures i == j - 1 && Written(was, buf[..], i, end, [b] + above)
  {
    ghost var s1 := buf[..];
    i := j - 1;
    buf[i] := b;
    assert buf[..][i..j] == [b];
    Stacked(was, s1, buf[..], i, j, end, above, [b]);
  }

  method PutVarint(buf: array<byte>, j: nat, end: nat, v: nat, ghost was: seq<byte>, ghost above: seq<byte>)
    returns (i: nat)
    requires |Varint(v)| <= j && Written(was, buf[..], j, end, above)
    modifies buf
    ensures i == j - |Varint(v)| && Written(was, buf[..], i, end, Varint(v) + above)
  {
    ghost var s1 := buf[..];
    i := j - SizeVarint(v);
    var at, rest := i, v;
    while rest >= 128
      invariant i <= at < j && j - at == |Varint(rest)|
      invariant buf[i..at] + Varint(rest) == Varint(v)
      invariant buf[..i] == s1[..i] && buf[j..] == s1[j..]
    {
      ghost var low := buf[i..at];
      buf[at] := rest % 128 + 128;
      assert buf[i..at + 1] == low + [rest % 128 + 128];
      assert low + ([rest % 128 + 128] + Varint(rest / 128)) == low + [rest % 128 + 128] + Varint(rest / 128);
      rest := rest / 128;
      at := at + 1;
    }
    ghost var low := buf[i..at];
    buf[at] := rest;
    assert buf[i..j] == low + [rest];
    assert Written(s1, buf[..], i, j, Varint(v)) by {
      hide Varint;
    }
    Stacked(was, s1, buf[..], i, j, end, above, Varint(v));
  }

  lemma PrintHead(f: Field, fs: seq<Field>)
    ensures Print([f] + fs) == PrintField(f) + Print(fs)
  {
    assert ([f] + fs)[0] == f && ([f] + fs)[1..] == fs;
  }

  lemma SmallTag(t: byte)
    ensures t < 128 ==> Varint(t) == [t]
  {
  }

  lemma ChunkAbove(num: nat, d: seq<byte>, fs: seq<Field>, raw: seq<byte>)
    requires 0 < num < 16
    ensures [num * 8 + 2] + (Varint(|d|) + (d + (Print(fs) + raw))) == Print([Chunk(num, d)] + fs) + raw
  {
    hide Varint, Print;
    PrintHead(Chunk(num, d), fs);
    SmallTag(num * 8 + 2);
    assert [] + (Varint(|d|) + (d + (Print(fs) + raw))) == Varint(|d|) + (d + (Print(fs) + raw));
    assert [] + Varint(|d|) == Varint(|d|);
  }

  lemma NumberAbove(num: nat, v: uint64, fs: seq<Field>, raw: seq<byte>)
    requires 0 < num < 16
    ensures [num * 8] + (Varint(v) + (Print(fs) + raw)) == Print([Number(num, v)] + fs) + raw
  {
    hide Varint, Print;
    PrintHead(Number(num, v), fs);
    SmallTag(num * 8);
  }

  /** The length and tag of a field whose payload is already written. */
  method PutHeader(buf: array<byte>, j: nat, end: nat, num: nat, size: nat, ghost d: seq<byte>,
                   ghost was: seq<byte>, ghost fs: seq<Field>, ghost raw: seq<byte>) returns (i: nat)
    requires 0 < num < 16 && size == |d| && 1 + SizeVarint(size) <= j
    requires Written(was, buf[..], j, end, d + (Print(fs) + raw))
    modifies buf
    ensures i == j - 1 - SizeVarint(size) && Written(was, buf[..], i, end, Print([Chunk(num, d)] + fs) + raw)
  {
    hide Written, Print, Varint, SizeVarint;
    ghost var above := d + (Print(fs) + raw);
    i := PutVarint(buf, j, end, size, was, above);
    i := PutByte(buf, i, end, num * 8 + 2, was, Varint(size) + above);
    ChunkAbove(num, d, fs, raw);
  }

  /** A string or bytes field, left out when empty. */
  method PutNonEmpty(buf: array<byte>, j: nat, end: nat, num: nat, d: seq<byte>,
                     ghost was: seq<byte>, ghost fs: seq<Field>, ghost raw: seq<byte>) returns (i: nat)
    requires 0 < num < 16 && SizeBytesNonEmpty(d) <= j
    requires Written(was, buf[..], j, end, Print(fs) + raw)
    modifies buf
    ensures i == j - SizeBytesNonEmpty(d)
    ensures Written(was, buf[..], i, end, Print(Opt(d != [], Chunk(num, d)) + fs) + raw)
  {
    hide Written, Print, Varint, SizeVarint;
    i := j;
    if d == [] {
      assert [] + fs == fs;
    } else {
      i := PutRaw(buf, i, end, d, was, Print(fs) + raw);
      i := PutHeader(buf, i, end, num, |d|, d, was, fs, raw);
    }
  }

  /** A varint field, left out when zero. */
  method PutNonZero(buf: array<byte>, j: nat, end: nat, num: nat, v: uint64,
                    ghost was: seq<byte>, ghost fs: seq<Field>, ghost raw: seq<byte>) returns (i: nat)
    requires 0 < num < 16 && SizeVarintNonZero(v) <= j
    requires Written(was, buf[..], j, end, Print(fs) + raw)
    modifies buf
    ensures i == j - SizeVarintNonZero(v)
    ensures Written(was, buf[..], i, end, Print(Opt(v != 0, Number(num, v)) + fs) + raw)
  {
    hide Written, Print, Varint, SizeVarint;
    i := j;
    if v == 0 {
      assert [] + fs == fs;
    } else {
      i := PutVarint(buf, i, end, v, was, Print(fs) + raw);
      i := PutByte(buf, i, end, num * 8, was, Varint(v) + (Print(fs) + raw));
      NumberAbove(num, v, fs, raw);
    }
  }

  /** The unknown bytes, last in the message and so first to be written. */
  method PutUnknown(buf: array<byte>, end: nat, raw: seq<byte>) returns (i: nat)
    requires |raw| <= end <= buf.Length
    modifies buf
    ensures i == end - |raw| && Written(old(buf[..]), buf[..], i, end, Print([]) + raw)
  {
    i := PutRaw(buf, end, end, raw, buf[..], []);
    assert raw + [] == raw && [] + raw == raw;
  }

  method MarshalKeypair(m: Keypair, buf: array<byte>, end: nat) returns (i: nat)
    requires SizeKeypair(m) <= end <= buf.Length
    modifies buf
    ensures i == end - SizeKeypair(m) && Written(old(buf[..]), buf[..], i, end, EncodeKeypair(m))
  {
    hide Print, Opt, Varint, SizeVarint, Written;
    ghost var was := buf[..];
    ghost var f4 := Opt(m.authMethodParams != [], Chunk(4, m.authMethodParams)) + [];
    ghost var f3 := Opt(m.authMethodId != [], Chunk(3, m.authMethodId)) + f4;
    ghost var f2 := Opt(m.pubKey != [], Chunk(2, m.pubKey)) + f3;
    i := PutUnknown(buf, end, m.unknown);
    i := PutNonEmpty(buf, i, end, 4, m.authMethodParams, was, [], m.unknown);
    i := PutNonEmpty(buf, i, end, 3, m.authMethodId, was, f4, m.unknown);
    i := PutNonEmpty(buf, i, end, 2, m.pubKey, was, f3, m.unknown);
    i := PutNonEmpty(buf, i, end, 1, m.peerId, was, f2, m.unknown);
  }

  method MarshalSignature(m: Signature, buf: array<byte>, end: nat) returns (i: nat)
    requires SizeSignature(m) <= end <= buf.Length
    modifies buf
    ensures i == end - SizeSignature(m) && Written(old(buf[..]), buf[..], i, end, EncodeSignature(m))
  {
    hide Print, Opt, Varint, SizeVarint, Written;
    ghost var was := buf[..];
    ghost var f3 := Opt(m.sigData != [], Chunk(3, m.sigData)) + [];
    ghost var f2 := Opt(m.hashType != 0, Number(2, Uint64Of(m.hashType))) + f3;
    i := PutUnknown(buf, end, m.unknown);
    i := PutNonEmpty(buf, i, end, 3, m.sigData, was, [], m.unknown);
    i := PutNonZero(buf, i, end, 2, Uint64Of(m.hashType), was, f3, m.unknown);
    i := PutNonEmpty(buf, i, end, 1, m.pubKey, was, f2, m.unknown);
  }

  method MarshalEntityKeypair(m: EntityKeypair, buf: array<byte>, end: nat) returns (i: nat)
    requires SizeEntityKeypair(m) <= end <= buf.Length
    modifies buf
    ensures i == end - SizeEntityKeypair(m) && Written(old(buf[..]), buf[..], i, end, EncodeEntityKeypair(m))
  {
    hide Print, Opt, Varint, SizeVarint, Written, EncodeKeypair, SizeKeypair;
    ghost var was := buf[..];
    ghost var f3: seq<Field> := if m.keypair.Some? then [Chunk(3, EncodeKeypair(m.keypair.value))] else [];
    i := PutUnknown(buf, end, m.unknown);
    if m.keypair.Some? {
      ghost var s1, j, d := buf[..], i, EncodeKeypair(m.keypair.value);
      i := MarshalKeypair(m.keypair.value, buf, i);
      Stacked(was, s1, buf[..], i, j, end, Print([]) + m.unknown, d);
      i := PutHeader(buf, i, end, 3, SizeKeypair(m.keypair.value), d, was, [], m.unknown);
      assert [Chunk(3, d)] + [] == f3;
    }
    i := PutNonEmpty(buf, i, end, 2, m.domainId, was, f3, m.unknown);
    i := PutNonEmpty(buf, i, end, 1, m.entityId, was, Opt(m.domainId != [], Chunk(2, m.domainId)) + f3, m.unknown);
  }

  /** The signatures from the last to the first, each below the one after it. */
  method PutSignatures(ss: seq<Option<Signature>>, buf: array<byte>, j: nat, end: nat,
                       ghost was: seq<byte>, ghost raw: seq<byte>) returns (i: nat)
    requires SizeSignatures(ss) <= j && Written(was, buf[..], j, end, Print([]) + raw)
    modifies buf
    ensures i == j - SizeSignatures(ss) && Written(was, buf[..], i, end, Print(SignatureChunks(ss)) + raw)
  {
    hide Print, Written, Varint, SizeVarint, EncodeSignature, SizeSignature;
    i := j;
    var k := |ss|;
    while k > 0
      invariant 0 <= k <= |ss| && i == j - SizeSignatures(ss[k..]) && SizeSignatures(ss) <= j
      invariant Written(was, buf[..], i, end, Print(SignatureChunks(ss[k..])) + raw)
    {
      k := k - 1;
      assert ss[k..][1..] == ss[k + 1..] && ss[k..][0] == ss[k];
      SizesFrom(ss, k);
      ghost var s1, at, d := buf[..], i, SignatureBytes(ss[k]);
      ghost var above := Print(SignatureChunks(ss[k + 1..])) + raw;
      var size := if ss[k].Some? then SizeSignature(ss[k].value) else 0;
      if ss[k].Some? {
        WrittenFits(was, s1, i, end, above);
        i := MarshalSignature(ss[k].value, buf, i);
        Stacked(was, s1, buf[..], i, at, end, above, d);
      } else {
        assert [] + above == above;
      }
      i := PutHeader(buf, i, end, 2, size, d, was, SignatureChunks(ss[k + 1..]), raw);
    }
    assert ss[0..] == ss;
  }

  lemma {:induction false} SizesFrom(ss: seq<Option<Signature>>, k: nat)
    requires k <= |ss|
    ensures SizeSignatures(ss[k..]) <= SizeSignatures(ss)
  {
    hide SizeMessage, SizeSignature;
    if k > 0 {
      assert ss[1..][k - 1..] == ss[k..];
      SizesFrom(ss[1..], k - 1);
    }
  }

  lemma {:induction false} KeypairSizesFrom(ks: seq<seq<byte>>, k: nat)
    requires k <= |ks|
    ensures SizeKeypairs(ks[k..]) <= SizeKeypairs(ks)
  {
    hide SizeMessage;
    if k > 0 {
      assert ks[1..][k - 1..] == ks[k..];
      KeypairSizesFrom(ks[1..], k - 1);
    }
  }

  method PutKeypairs(ks: seq<seq<byte>>, buf: array<byte>, j: nat, end: nat,
                     ghost was: seq<byte>, ghost fs: seq<Field>, ghost raw: seq<byte>) returns (i: nat)
    requires SizeKeypairs(ks) <= j && Written(was, buf[..], j, end, Print(fs) + raw)
    modifies buf
    ensures i == j - SizeKeypairs(ks) && Written(was, buf[..], i, end, Print(KeypairChunks(ks) + fs) + raw)
  {
    hide Print, Written, Varint, SizeVarint;
    i := j;
    var k := |ks|;
    assert [] + fs == fs;
    while k > 0
      invariant 0 <= k <= |ks| && i == j - SizeKeypairs(ks[k..]) && SizeKeypairs(ks) <= j
      invariant Written(was, buf[..], i, end, Print(KeypairChunks(ks[k..]) + fs) + raw)
    {
      k := k - 1;
      assert ks[k..][1..] == ks[k + 1..] && ks[k..][0] == ks[k];
      KeypairSizesFrom(ks, k);
      ghost var rest := KeypairChunks(ks[k + 1..]) + fs;
      i := PutRaw(buf, i, end, ks[k], was, Print(rest) + raw);
      i := PutHeader(buf, i, end, 1, |ks[k]|, ks[k], was, rest, raw);
      assert [Chunk(1, ks[k])] + rest == KeypairChunks(ks[k..]) + fs;
    }
    assert ks[0..] == ks;
  }

  method MarshalKeypairSet(m: KeypairSet, buf: array<byte>, end: nat) returns (i: nat)
    requires SizeKeypairSet(m) <= end <= buf.Length
    modifies buf
    ensures i == end - SizeKeypairSet(m) && Written(old(buf[..]), buf[..], i, end, EncodeKeypairSet(m))
  {
    hide Print, Written, KeypairChunks, SignatureChunks, SizeKeypairs, SizeSignatures;
    ghost var was := buf[..];
    i := PutUnknown(buf, end, m.unknown);
    i := PutSignatures(m.signatures, buf, i, end, was, m.unknown);
    i := PutKeypairs(m.keypairs, buf, i, end, was, SignatureChunks(m.signatures), m.unknown);
  }

  method MarshalEntity(m: Entity, buf: array<byte>, end: nat) returns (i: nat)
    requires SizeEntity(m) <= end <= buf.Length
    modifies buf
    ensures i == end - SizeEntity(m) && Written(old(buf[..]), buf[..], i, end, EncodeEntity(m))
  {
    hide Print, Opt, Varint, SizeVarint, Written, EncodeKeypairSet, SizeKeypairSet;
    ghost var was := buf[..];
    ghost var f5: seq<Field> := if m.keypairSet.Some? then [Chunk(5, EncodeKeypairSet(m.keypairSet.value))] else [];
    ghost var f4 := Opt(m.epoch != 0, Number(4, m.epoch)) + f5;
    ghost var f3 := Opt(m.domainId != [], Chunk(3, m.domainId)) + f4;
    ghost var f2 := Opt(m.entityUuid != [], Chunk(2, m.entityUuid)) + f3;
    i := PutUnknown(buf, end, m.unknown);
    if m.keypairSet.Some? {
      ghost var s1, j, d := buf[..], i, EncodeKeypairSet(m.keypairSet.value);
      i := MarshalKeypairSet(m.keypairSet.value, buf, i);
      Stacked(was, s1, buf[..], i, j, end, Print([]) + m.unknown, d);
      i := PutHeader(buf, i, end, 5, SizeKeypairSet(m.keypairSet.value), d, was, [], m.unknown);
      assert [Chunk(5, d)] + [] == f5;
    }
    i := PutNonZero(buf, i, end, 4, m.epoch, was, f5, m.unknown);
    i := PutNonEmpty(buf, i, end, 3, m.domainId, was, f4, m.unknown);
    i := PutNonEmpty(buf, i, end, 2, m.entityUuid, was, f3, m.unknown);
    i := PutNonEmpty(buf, i, end, 1, m.entityId, was, f2, m.unknown);
  }

  /** The computed size is exactly what is written: the backward index ends at zero. */
  method MarshalVT(m: Entity) returns (data: seq<byte>)
    ensures data == EncodeEntity(m)
  {
    var buf := new byte[SizeEntity(m)];
    var i := MarshalEntity(m, buf, buf.Length);
    assert i == 0;
    data := buf[i..];
    assert buf[..][0..buf.Length] == buf[..];
  }
}
