/** What the decoders of the identity messages make of each field, byte by byte: the last
    one wins, repeated ones are appended, and nested ones are merged. */
module IdentityFields {
  import opened Options
  import opened Wire
  import opened WireFormat
  import opened Identity

  /** A message of one field. */
  lemma OneField<M>(schema: Schema, apply: (M, Field) -> Option<M>, m: M, f: Field)
    requires Printable(schema, f)
    ensures Decode(schema, apply, m, PrintField(f)) == apply(m, f)
  {
    assert Print([f]) == PrintField(f) by {
      assert [f][1..] == [] && Print([]) == [];
    }
    ParsePrint(schema, [f]);
    assert [f][1..] == [];
    assert apply(m, f).Some? ==> Fold(apply, apply(m, f).value, []) == Some(apply(m, f).value);
  }

  /** A tag below 128, the length, and the bytes. */
  function Record(tag: byte, d: seq<byte>): seq<byte> {
    [tag] + Varint(|d|) + d
  }

  lemma ChunkBytes(num: nat, d: seq<byte>)
    requires 0 < num < 16
    ensures PrintField(Chunk(num, d)) == Record(num * 8 + 2, d)
  {
    assert Varint(num * 8 + 2) == [num * 8 + 2];
  }

  lemma NumberBytes(num: nat, v: uint64)
    requires 0 < num < 16
    ensures PrintField(Number(num, v)) == [num * 8] + Varint(v)
  {
    assert Varint(num * 8) == [num * 8];
  }

  lemma OneChunk<M>(schema: Schema, apply: (M, Field) -> Option<M>, m: M, num: nat, d: seq<byte>)
    requires 0 < num < 16 && num in schema && schema[num] == Delimited && |d| < TWO64
    ensures Decode(schema, apply, m, Record(num * 8 + 2, d)) == apply(m, Chunk(num, d))
  {
    ChunkBytes(num, d);
    hide Record, PrintField;
    OneField(schema, apply, m, Chunk(num, d));
  }

  lemma OneNumber<M>(schema: Schema, apply: (M, Field) -> Option<M>, m: M, num: nat, v: uint64)
    requires 0 < num < 16 && num in schema && schema[num] == Uint
    ensures Decode(schema, apply, m, [num * 8] + Varint(v)) == apply(m, Number(num, v))
  {
    NumberBytes(num, v);
    hide PrintField, Varint;
    OneField(schema, apply, m, Number(num, v));
  }

  /** Every field of a keypair replaces what was there, also when it is empty. */
  lemma KeypairFieldIsSet(m: Keypair, d: seq<byte>)
    requires |d| < TWO64
    ensures DecodeKeypair(m, Record(0x0a, d)) == Some(m.(peerId := d))
    ensures DecodeKeypair(m, Record(0x12, d)) == Some(m.(pubKey := d))
    ensures DecodeKeypair(m, Record(0x1a, d)) == Some(m.(authMethodId := d))
    ensures DecodeKeypair(m, Record(0x22, d)) == Some(m.(authMethodParams := d))
  {
    hide Record, Decode;
    OneChunk(KEYPAIR, ApplyKeypair, m, 1, d);
    OneChunk(KEYPAIR, ApplyKeypair, m, 2, d);
    OneChunk(KEYPAIR, ApplyKeypair, m, 3, d);
    OneChunk(KEYPAIR, ApplyKeypair, m, 4, d);
  }

  /** A hash type is the low 32 bits of its varint, with their sign. */
  lemma SignatureFieldIsSet(m: Signature, d: seq<byte>, v: uint64)
    requires |d| < TWO64
    ensures DecodeSignature(m, Record(0x0a, d)) == Some(m.(pubKey := d))
    ensures DecodeSignature(m, [0x10] + Varint(v)) == Some(m.(hashType := Int32(v)))
    ensures (Int32(v) - v) % 0x1_0000_0000 == 0
    ensures DecodeSignature(m, Record(0x1a, d)) == Some(m.(sigData := d))
  {
    hide Record, Decode, Varint;
    OneChunk(SIGNATURE, ApplySignature, m, 1, d);
    OneNumber(SIGNATURE, ApplySignature, m, 2, v);
    OneChunk(SIGNATURE, ApplySignature, m, 3, d);
    Int32Means(v);
  }

  /** And a negative one is written with its sign extended to 64 bits. */
  lemma HashTypeExtends(h: int32)
    ensures (Uint64Of(h) - h) % TWO64 == 0
    ensures h < 0 ==> Uint64Of(h) >= 0xffff_ffff_8000_0000
  {
  }

  /** A nested keypair is merged into the one already there. */
  lemma EntityKeypairFieldIsSet(m: EntityKeypair, d: seq<byte>)
    requires |d| < TWO64
    ensures DecodeEntityKeypair(m, Record(0x0a, d)) == Some(m.(entityId := d))
    ensures DecodeEntityKeypair(m, Record(0x12, d)) == Some(m.(domainId := d))
    ensures var k := DecodeKeypair(if m.keypair.Some? then m.keypair.value else Keypair([], [], [], [], []), d);
      DecodeEntityKeypair(m, Record(0x1a, d)) == if k.Some? then Some(m.(keypair := k)) else None
  {
    hide Record, Decode, DecodeKeypair;
    OneChunk(ENTITY_KEYPAIR, ApplyEntityKeypair, m, 1, d);
    OneChunk(ENTITY_KEYPAIR, ApplyEntityKeypair, m, 2, d);
    OneChunk(ENTITY_KEYPAIR, ApplyEntityKeypair, m, 3, d);
  }

  /** Keypairs are appended as bytes, and signatures as messages read afresh. */
  lemma KeypairSetFieldIsAdded(m: KeypairSet, d: seq<byte>)
    requires |d| < TWO64
    ensures DecodeKeypairSet(m, Record(0x0a, d)) == Some(m.(keypairs := m.keypairs + [d]))
    ensures var g := DecodeSignature(Signature([], 0, [], []), d);
      DecodeKeypairSet(m, Record(0x12, d)) == if g.Some? then Some(m.(signatures := m.signatures + [g])) else None
  {
    hide Record, Decode, DecodeSignature;
    OneChunk(KEYPAIR_SET, ApplyKeypairSet, m, 1, d);
    OneChunk(KEYPAIR_SET, ApplyKeypairSet, m, 2, d);
  }

  /** A nested set is merged into the one already there, its lists appended to. */
  lemma EntityFieldIsSet(m: Entity, d: seq<byte>, v: uint64)
    requires |d| < TWO64
    ensures DecodeEntity(m, Record(0x0a, d)) == Some(m.(entityId := d))
    ensures DecodeEntity(m, Record(0x12, d)) == Some(m.(entityUuid := d))
    ensures DecodeEntity(m, Record(0x1a, d)) == Some(m.(domainId := d))
    ensures DecodeEntity(m, [0x20] + Varint(v)) == Some(m.(epoch := v))
    ensures var s := DecodeKeypairSet(if m.keypairSet.Some? then m.keypairSet.value else KeypairSet([], [], []), d);
      DecodeEntity(m, Record(0x2a, d)) == if s.Some? then Some(m.(keypairSet := s)) else None
  {
    hide Record, Decode, DecodeKeypairSet, Varint;
    OneChunk(ENTITY, ApplyEntity, m, 1, d);
    OneChunk(ENTITY, ApplyEntity, m, 2, d);
    OneChunk(ENTITY, ApplyEntity, m, 3, d);
    OneNumber(ENTITY, ApplyEntity, m, 4, v);
    OneChunk(ENTITY, ApplyEntity, m, 5, d);
  }

  /** Decoding b after a is decoding into what a left: so a field given twice has its last
      value, a keypair set given twice all its keypairs, and so on, field by field. */
  lemma LastOneWins(m: Keypair, a: seq<byte>, d: seq<byte>)
    requires DecodeKeypair(m, a).Some? && |d| < TWO64
    ensures DecodeKeypair(m, a + Record(0x0a, d)) == Some(DecodeKeypair(m, a).value.(peerId := d))
  {
    DecodeConcat(KEYPAIR, ApplyKeypair, m, a, Record(0x0a, d));
    KeypairFieldIsSet(DecodeKeypair(m, a).value, d);
  }
}
