/** The identity messages and their generated codec, as functions: which fields are
    written, in which order, and what each field read does to a message. */
module Identity {
  import opened Options
  import opened Wire

  datatype Keypair = Keypair(
    peerId: seq<byte>,
    pubKey: seq<byte>,
    authMethodId: seq<byte>,
    authMethodParams: seq<byte>,
    unknown: seq<byte>)

  datatype EntityKeypair = EntityKeypair(
    entityId: seq<byte>,
    domainId: seq<byte>,
    keypair: Option<Keypair>,
    unknown: seq<byte>)

  type int32 = x: int | -0x8000_0000 <= x < 0x8000_0000

  datatype Signature = Signature(pubKey: seq<byte>, hashType: int32, sigData: seq<byte>, unknown: seq<byte>)

  /** A missing signature stands for a nil pointer in the slice. */
  datatype KeypairSet = KeypairSet(
    keypairs: seq<seq<byte>>,
    signatures: seq<Option<Signature>>,
    unknown: seq<byte>)

  datatype Entity = Entity(
    entityId: seq<byte>,
    entityUuid: seq<byte>,
    domainId: seq<byte>,
    epoch: uint64,
    keypairSet: Option<KeypairSet>,
    unknown: seq<byte>)

  const NO_KEYPAIR := Keypair([], [], [], [], [])
  const NO_ENTITY_KEYPAIR := EntityKeypair([], [], None, [])
  const NO_SIGNATURE := Signature([], 0, [], [])
  const NO_KEYPAIR_SET := KeypairSet([], [], [])
  const NO_ENTITY := Entity([], [], [], 0, None, [])

  const KEYPAIR: Schema := map[1 := Delimited, 2 := Delimited, 3 := Delimited, 4 := Delimited]
  const ENTITY_KEYPAIR: Schema := map[1 := Delimited, 2 := Delimited, 3 := Delimited]
  const SIGNATURE: Schema := map[1 := Delimited, 2 := Uint, 3 := Delimited]
  const KEYPAIR_SET: Schema := map[1 := Delimited, 2 := Delimited]
  const ENTITY: Schema := map[1 := Delimited, 2 := Delimited, 3 := Delimited, 4 := Uint, 5 := Delimited]

  // ----- sizes of single fields

  function SizeBytesNonEmpty(d: seq<byte>): nat {
    if d == [] then 0 else 1 + SizeVarint(|d|) + |d|
  }

  function SizeVarintNonZero(v: uint64): nat {
    if v == 0 then 0 else 1 + SizeVarint(v)
  }

  function SizeMessage(size: nat): nat {
    1 + SizeVarint(size) + size
  }

  /** One optional field with a one-byte tag, printed ahead of the rest. */
  lemma PrintOpt(schema: Schema, present: bool, f: Field, rest: seq<Field>)
    requires Known(schema, f) && Shaped(schema, rest) && f.num < 16
    ensures Shaped(schema, Opt(present, f) + rest)
    ensures |Print(Opt(present, f) + rest)| == (if present then FieldSize(f) else 0) + |Print(rest)|
  {
    if present {
      assert ([f] + rest)[0] == f && ([f] + rest)[1..] == rest;
    } else {
      assert [] + rest == rest;
    }
  }

  lemma NothingPrinted(schema: Schema)
    ensures Shaped(schema, []) && Print([]) == []
  {
  }

  function FieldSize(f: Field): nat {
    match f
    case Number(_, v) => 1 + SizeVarint(v)
    case Chunk(_, d) => SizeMessage(|d|)
    case Unknown(raw) => |raw|
  }

  // ----- Keypair

  function KeypairFields(m: Keypair): seq<Field> {
    Opt(m.peerId != [], Chunk(1, m.peerId)) + (Opt(m.pubKey != [], Chunk(2, m.pubKey))
    + (Opt(m.authMethodId != [], Chunk(3, m.authMethodId))
    + (Opt(m.authMethodParams != [], Chunk(4, m.authMethodParams)) + [])))
  }

  lemma KeypairShape(m: Keypair)
    ensures Shaped(KEYPAIR, KeypairFields(m))
    ensures |Print(KeypairFields(m))| + |m.unknown| == SizeKeypair(m)
  {
    hide Opt, Print, Shaped, Varint, SizeVarint;
    NothingPrinted(KEYPAIR);
    var f4 := Opt(m.authMethodParams != [], Chunk(4, m.authMethodParams)) + [];
    var f3 := Opt(m.authMethodId != [], Chunk(3, m.authMethodId)) + f4;
    var f2 := Opt(m.pubKey != [], Chunk(2, m.pubKey)) + f3;
    PrintOpt(KEYPAIR, m.authMethodParams != [], Chunk(4, m.authMethodParams), []);
    PrintOpt(KEYPAIR, m.authMethodId != [], Chunk(3, m.authMethodId), f4);
    PrintOpt(KEYPAIR, m.pubKey != [], Chunk(2, m.pubKey), f3);
    PrintOpt(KEYPAIR, m.peerId != [], Chunk(1, m.peerId), f2);
  }

  function SizeKeypair(m: Keypair): nat {
    SizeBytesNonEmpty(m.peerId) + SizeBytesNonEmpty(m.pubKey) + SizeBytesNonEmpty(m.authMethodId)
    + SizeBytesNonEmpty(m.authMethodParams) + |m.unknown|
  }

  function EncodeKeypair(m: Keypair): (data: seq<byte>)
    ensures |data| == SizeKeypair(m)
  {
    KeypairShape(m);
    Print(KeypairFields(m)) + m.unknown
  }

  function ApplyKeypair(m: Keypair, f: Field): Option<Keypair> {
    match f
    case Unknown(raw) => Some(m.(unknown := m.unknown + raw))
    case Number(_, _) => None
    case Chunk(num, d) =>
      if num == 1 then Some(m.(peerId := d))
      else if num == 2 then Some(m.(pubKey := d))
      else if num == 3 then Some(m.(authMethodId := d))
      else if num == 4 then Some(m.(authMethodParams := d))
      else None
  }

  function DecodeKeypair(m: Keypair, data: seq<byte>): Option<Keypair> {
    Decode(KEYPAIR, ApplyKeypair, m, data)
  }

  function UnknownOfKeypair(m: Keypair): seq<byte> {
    m.unknown
  }

  function PutKeypair(m: Keypair, raw: seq<byte>): Keypair {
    m.(unknown := raw)
  }

  lemma KeypairLawful()
    ensures Lawful(ApplyKeypair, UnknownOfKeypair, PutKeypair)
  {
    assert forall m: Keypair, f :: ApplyKeypair(m, f).Some? && !f.Unknown? ==> m.unknown + [] == m.unknown;
  }

  lemma KeypairFolds(m: Keypair)
    ensures Fold(ApplyKeypair, NO_KEYPAIR, KeypairFields(m)) == Some(PutKeypair(m, []))
  {
    var f4 := Opt(m.authMethodParams != [], Chunk(4, m.authMethodParams)) + [];
    var f3 := Opt(m.authMethodId != [], Chunk(3, m.authMethodId)) + f4;
    var f2 := Opt(m.pubKey != [], Chunk(2, m.pubKey)) + f3;
    var m1 := Keypair(m.peerId, [], [], [], []);
    var m2 := Keypair(m.peerId, m.pubKey, [], [], []);
    var m3 := Keypair(m.peerId, m.pubKey, m.authMethodId, [], []);
    hide Opt, Fold;
    FoldOpt(ApplyKeypair, NO_KEYPAIR, m.peerId != [], Chunk(1, m.peerId), f2);
    FoldOpt(ApplyKeypair, m1, m.pubKey != [], Chunk(2, m.pubKey), f3);
    FoldOpt(ApplyKeypair, m2, m.authMethodId != [], Chunk(3, m.authMethodId), f4);
    FoldOpt(ApplyKeypair, m3, m.authMethodParams != [], Chunk(4, m.authMethodParams), []);
  }

  ghost predicate WellFormedKeypair(m: Keypair) {
    UnknownOnly(KEYPAIR, m.unknown)
  }

  /** Decoding undoes encoding exactly when the unknown bytes hold only unknown fields. */
  lemma KeypairRoundTrip(m: Keypair)
    requires |EncodeKeypair(m)| < TWO64
    ensures DecodeKeypair(NO_KEYPAIR, EncodeKeypair(m)) == Some(m) <==> WellFormedKeypair(m)
  {
    KeypairShape(m);
    KeypairLawful();
    KeypairFolds(m);
    hide Lawful, Fold, KeypairFields, UnknownOnly;
    ShapedPrintable(KEYPAIR, KeypairFields(m));
    MessageRoundTrip(KEYPAIR, ApplyKeypair, UnknownOfKeypair, PutKeypair, NO_KEYPAIR, KeypairFields(m), m);
  }

  // ----- Signature

  /** `uint64(m.HashType)` sign-extends. */
  function Uint64Of(h: int32): uint64 {
    if h < 0 then h + TWO64 else h
  }

  function SignatureFields(m: Signature): seq<Field> {
    Opt(m.pubKey != [], Chunk(1, m.pubKey)) + (Opt(m.hashType != 0, Number(2, Uint64Of(m.hashType)))
    + (Opt(m.sigData != [], Chunk(3, m.sigData)) + []))
  }

  lemma SignatureShape(m: Signature)
    ensures Shaped(SIGNATURE, SignatureFields(m))
    ensures |Print(SignatureFields(m))| + |m.unknown| == SizeSignature(m)
  {
    hide Opt, Print, Shaped, Varint, SizeVarint;
    NothingPrinted(SIGNATURE);
    var f3 := Opt(m.sigData != [], Chunk(3, m.sigData)) + [];
    var f2 := Opt(m.hashType != 0, Number(2, Uint64Of(m.hashType))) + f3;
    PrintOpt(SIGNATURE, m.sigData != [], Chunk(3, m.sigData), []);
    PrintOpt(SIGNATURE, m.hashType != 0, Number(2, Uint64Of(m.hashType)), f3);
    PrintOpt(SIGNATURE, m.pubKey != [], Chunk(1, m.pubKey), f2);
  }

  function SizeSignature(m: Signature): nat {
    SizeBytesNonEmpty(m.pubKey) + SizeVarintNonZero(Uint64Of(m.hashType)) + SizeBytesNonEmpty(m.sigData) + |m.unknown|
  }

  function EncodeSignature(m: Signature): (data: seq<byte>)
    ensures |data| == SizeSignature(m)
  {
    SignatureShape(m);
    Print(SignatureFields(m)) + m.unknown
  }

  function ApplySignature(m: Signature, f: Field): Option<Signature> {
    match f
    case Unknown(raw) => Some(m.(unknown := m.unknown + raw))
    case Number(num, v) => if num == 2 then Some(m.(hashType := Int32(v))) else None
    case Chunk(num, d) =>
      if num == 1 then Some(m.(pubKey := d))
      else if num == 3 then Some(m.(sigData := d))
      else None
  }

  function DecodeSignature(m: Signature, data: seq<byte>): Option<Signature> {
    Decode(SIGNATURE, ApplySignature, m, data)
  }

  function UnknownOfSignature(m: Signature): seq<byte> {
    m.unknown
  }

  function PutSignature(m: Signature, raw: seq<byte>): Signature {
    m.(unknown := raw)
  }

  lemma SignatureLawful()
    ensures Lawful(ApplySignature, UnknownOfSignature, PutSignature)
  {
    assert forall m: Signature, f :: ApplySignature(m, f).Some? && !f.Unknown? ==> m.unknown + [] == m.unknown;
  }

  lemma SignatureFolds(m: Signature)
    ensures Fold(ApplySignature, NO_SIGNATURE, SignatureFields(m)) == Some(PutSignature(m, []))
  {
    var f3 := Opt(m.sigData != [], Chunk(3, m.sigData)) + [];
    var f2 := Opt(m.hashType != 0, Number(2, Uint64Of(m.hashType))) + f3;
    var m1 := Signature(m.pubKey, 0, [], []);
    var m2 := Signature(m.pubKey, m.hashType, [], []);
    hide Opt, Fold;
    FoldOpt(ApplySignature, NO_SIGNATURE, m.pubKey != [], Chunk(1, m.pubKey), f2);
    FoldOpt(ApplySignature, m1, m.hashType != 0, Number(2, Uint64Of(m.hashType)), f3);
    FoldOpt(ApplySignature, m2, m.sigData != [], Chunk(3, m.sigData), []);
  }

  ghost predicate WellFormedSignature(m: Signature) {
    UnknownOnly(SIGNATURE, m.unknown)
  }

  lemma SignatureRoundTrip(m: Signature)
    requires |EncodeSignature(m)| < TWO64
    ensures DecodeSignature(NO_SIGNATURE, EncodeSignature(m)) == Some(m) <==> WellFormedSignature(m)
  {
    SignatureShape(m);
    SignatureLawful();
    SignatureFolds(m);
    hide Lawful, Fold, SignatureFields, UnknownOnly;
    ShapedPrintable(SIGNATURE, SignatureFields(m));
    MessageRoundTrip(SIGNATURE, ApplySignature, UnknownOfSignature, PutSignature, NO_SIGNATURE, SignatureFields(m), m);
  }

  // ----- EntityKeypair

  function EntityKeypairFields(m: EntityKeypair): seq<Field> {
    Opt(m.entityId != [], Chunk(1, m.entityId)) + (Opt(m.domainId != [], Chunk(2, m.domainId))
    + (if m.keypair.Some? then [Chunk(3, EncodeKeypair(m.keypair.value))] else []))
  }

  lemma EntityKeypairShape(m: EntityKeypair)
    ensures Shaped(ENTITY_KEYPAIR, EntityKeypairFields(m))
    ensures |Print(EntityKeypairFields(m))| + |m.unknown| == SizeEntityKeypair(m)
  {
    hide Opt, Print, Shaped, Varint, SizeVarint, EncodeKeypair, SizeKeypair;
    var f3: seq<Field> := if m.keypair.Some? then [Chunk(3, EncodeKeypair(m.keypair.value))] else [];
    NothingPrinted(ENTITY_KEYPAIR);
    if m.keypair.Some? {
      OnePrinted(ENTITY_KEYPAIR, Chunk(3, EncodeKeypair(m.keypair.value)));
    }
    PrintOpt(ENTITY_KEYPAIR, m.domainId != [], Chunk(2, m.domainId), f3);
    PrintOpt(ENTITY_KEYPAIR, m.entityId != [], Chunk(1, m.entityId), Opt(m.domainId != [], Chunk(2, m.domainId)) + f3);
  }

  lemma OnePrinted(schema: Schema, f: Field)
    requires Known(schema, f) && f.num < 16
    ensures Shaped(schema, [f]) && |Print([f])| == FieldSize(f)
  {
    assert [f][1..] == [];
  }

  function SizeEntityKeypair(m: EntityKeypair): nat {
    SizeBytesNonEmpty(m.entityId) + SizeBytesNonEmpty(m.domainId)
    + (if m.keypair.Some? then SizeMessage(SizeKeypair(m.keypair.value)) else 0) + |m.unknown|
  }

  function EncodeEntityKeypair(m: EntityKeypair): (data: seq<byte>)
    ensures |data| == SizeEntityKeypair(m)
  {
    EntityKeypairShape(m);
    Print(EntityKeypairFields(m)) + m.unknown
  }

  /** A nested message already present is merged into. */
  function ApplyEntityKeypair(m: EntityKeypair, f: Field): Option<EntityKeypair> {
    match f
    case Unknown(raw) => Some(m.(unknown := m.unknown + raw))
    case Number(_, _) => None
    case Chunk(num, d) =>
      if num == 1 then Some(m.(entityId := d))
      else if num == 2 then Some(m.(domainId := d))
      else if num == 3 then
        match DecodeKeypair(if m.keypair.Some? then m.keypair.value else NO_KEYPAIR, d)
        case None => None
        case Some(k) => Some(m.(keypair := Some(k)))
      else None
  }

  function DecodeEntityKeypair(m: EntityKeypair, data: seq<byte>): Option<EntityKeypair> {
    Decode(ENTITY_KEYPAIR, ApplyEntityKeypair, m, data)
  }

  function UnknownOfEntityKeypair(m: EntityKeypair): seq<byte> {
    m.unknown
  }

  function PutEntityKeypair(m: EntityKeypair, raw: seq<byte>): EntityKeypair {
    m.(unknown := raw)
  }

  lemma EntityKeypairLawful()
    ensures Lawful(ApplyEntityKeypair, UnknownOfEntityKeypair, PutEntityKeypair)
  {
    hide DecodeKeypair;
    assert forall m: EntityKeypair, f :: ApplyEntityKeypair(m, f).Some? && !f.Unknown? ==> m.unknown + [] == m.unknown;
  }

  lemma EntityKeypairFolds(m: EntityKeypair)
    ensures var r := Fold(ApplyEntityKeypair, NO_ENTITY_KEYPAIR, EntityKeypairFields(m));
      r == Some(PutEntityKeypair(m, [])) <==>
        (m.keypair.Some? ==> DecodeKeypair(NO_KEYPAIR, EncodeKeypair(m.keypair.value)) == m.keypair)
  {
    hide Opt, DecodeKeypair, EncodeKeypair;
    var f3: seq<Field> := if m.keypair.Some? then [Chunk(3, EncodeKeypair(m.keypair.value))] else [];
    var f2 := Opt(m.domainId != [], Chunk(2, m.domainId)) + f3;
    var m1 := EntityKeypair(m.entityId, [], None, []);
    var m2 := EntityKeypair(m.entityId, m.domainId, None, []);
    FoldOpt(ApplyEntityKeypair, NO_ENTITY_KEYPAIR, m.entityId != [], Chunk(1, m.entityId), f2);
    FoldOpt(ApplyEntityKeypair, m1, m.domainId != [], Chunk(2, m.domainId), f3);
    FoldOne(ApplyEntityKeypair, m2, f3);
    hide Fold;
  }

  lemma FoldOne<M>(apply: (M, Field) -> Option<M>, m: M, fs: seq<Field>)
    ensures |fs| <= 1 ==> Fold(apply, m, fs) == if fs == [] then Some(m) else apply(m, fs[0])
  {
  }

  ghost predicate WellFormedEntityKeypair(m: EntityKeypair) {
    UnknownOnly(ENTITY_KEYPAIR, m.unknown) && (m.keypair.Some? ==> WellFormedKeypair(m.keypair.value))
  }

  lemma EntityKeypairRoundTrip(m: EntityKeypair)
    requires |EncodeEntityKeypair(m)| < TWO64
    ensures DecodeEntityKeypair(NO_ENTITY_KEYPAIR, EncodeEntityKeypair(m)) == Some(m) <==> WellFormedEntityKeypair(m)
  {
    EntityKeypairShape(m);
    EntityKeypairLawful();
    EntityKeypairFolds(m);
    if m.keypair.Some? {
      KeypairRoundTrip(m.keypair.value);
    }
    hide Lawful, Fold, EntityKeypairFields, UnknownOnly, EncodeKeypair, DecodeKeypair, WellFormedKeypair;
    ShapedPrintable(ENTITY_KEYPAIR, EntityKeypairFields(m));
    MessageRoundTrip(ENTITY_KEYPAIR, ApplyEntityKeypair, UnknownOfEntityKeypair, PutEntityKeypair, NO_ENTITY_KEYPAIR,
                     EntityKeypairFields(m), m);
  }

  // ----- EntityKeypairSet

  function KeypairChunks(ks: seq<seq<byte>>): seq<Field> {
    if ks == [] then [] else [Chunk(1, ks[0])] + KeypairChunks(ks[1..])
  }

  /** A nil signature is written as an empty message. */
  function SignatureBytes(s: Option<Signature>): seq<byte> {
    if s.Some? then EncodeSignature(s.value) else []
  }

  function SignatureChunks(ss: seq<Option<Signature>>): seq<Field> {
    if ss == [] then [] else [Chunk(2, SignatureBytes(ss[0]))] + SignatureChunks(ss[1..])
  }

  function KeypairSetFields(m: KeypairSet): seq<Field> {
    KeypairChunks(m.keypairs) + SignatureChunks(m.signatures)
  }

  function SizeKeypairs(ks: seq<seq<byte>>): nat {
    if ks == [] then 0 else SizeMessage(|ks[0]|) + SizeKeypairs(ks[1..])
  }

  function SizeSignatures(ss: seq<Option<Signature>>): nat {
    if ss == [] then 0
    else SizeMessage(if ss[0].Some? then SizeSignature(ss[0].value) else 0) + SizeSignatures(ss[1..])
  }

  function SizeKeypairSet(m: KeypairSet): nat {
    SizeKeypairs(m.keypairs) + SizeSignatures(m.signatures) + |m.unknown|
  }

  lemma {:induction false} KeypairChunksShape(ks: seq<seq<byte>>)
    ensures Shaped(KEYPAIR_SET, KeypairChunks(ks)) && |Print(KeypairChunks(ks))| == SizeKeypairs(ks)
  {
    hide SizeMessage;
    NothingPrinted(KEYPAIR_SET);
    if ks != [] {
      KeypairChunksShape(ks[1..]);
      PrintOpt(KEYPAIR_SET, true, Chunk(1, ks[0]), KeypairChunks(ks[1..]));
    }
  }

  lemma {:induction false} SignatureChunksShape(ss: seq<Option<Signature>>)
    ensures Shaped(KEYPAIR_SET, SignatureChunks(ss)) && |Print(SignatureChunks(ss))| == SizeSignatures(ss)
  {
    hide SizeMessage, EncodeSignature, SizeSignature;
    NothingPrinted(KEYPAIR_SET);
    if ss != [] {
      SignatureChunksShape(ss[1..]);
      PrintOpt(KEYPAIR_SET, true, Chunk(2, SignatureBytes(ss[0])), SignatureChunks(ss[1..]));
    }
  }

  lemma KeypairSetShape(m: KeypairSet)
    ensures Shaped(KEYPAIR_SET, KeypairSetFields(m))
    ensures |Print(KeypairSetFields(m))| + |m.unknown| == SizeKeypairSet(m)
  {
    KeypairChunksShape(m.keypairs);
    SignatureChunksShape(m.signatures);
    hide KeypairChunks, SignatureChunks, Print;
    PrintConcat(KeypairChunks(m.keypairs), SignatureChunks(m.signatures));
  }

  function EncodeKeypairSet(m: KeypairSet): (data: seq<byte>)
    ensures |data| == SizeKeypairSet(m)
  {
    KeypairSetShape(m);
    Print(KeypairSetFields(m)) + m.unknown
  }

  /** Each signature is read into a new message; each keypair is kept as bytes. */
  function ApplyKeypairSet(m: KeypairSet, f: Field): Option<KeypairSet> {
    match f
    case Unknown(raw) => Some(m.(unknown := m.unknown + raw))
    case Number(_, _) => None
    case Chunk(num, d) =>
      if num == 1 then Some(m.(keypairs := m.keypairs + [d]))
      else if num == 2 then
        match DecodeSignature(NO_SIGNATURE, d)
        case None => None
        case Some(s) => Some(m.(signatures := m.signatures + [Some(s)]))
      else None
  }

  function DecodeKeypairSet(m: KeypairSet, data: seq<byte>): Option<KeypairSet> {
    Decode(KEYPAIR_SET, ApplyKeypairSet, m, data)
  }

  function UnknownOfKeypairSet(m: KeypairSet): seq<byte> {
    m.unknown
  }

  function PutKeypairSet(m: KeypairSet, raw: seq<byte>): KeypairSet {
    m.(unknown := raw)
  }

  lemma KeypairSetLawful()
    ensures Lawful(ApplyKeypairSet, UnknownOfKeypairSet, PutKeypairSet)
  {
    hide DecodeSignature;
    assert forall m: KeypairSet, f :: ApplyKeypairSet(m, f).Some? && !f.Unknown? ==> m.unknown + [] == m.unknown;
  }

  /** A nil signature reads back as an empty one, which EqualVT takes to be the same. */
  function Filled(s: Option<Signature>): Signature {
    if s.Some? then s.value else NO_SIGNATURE
  }

  function AllFilled(ss: seq<Option<Signature>>): (fs: seq<Option<Signature>>)
    ensures |fs| == |ss|
  {
    seq(|ss|, i requires 0 <= i < |ss| => Some(Filled(ss[i])))
  }

  function NormalKeypairSet(m: KeypairSet): KeypairSet {
    m.(signatures := AllFilled(m.signatures))
  }

  lemma {:induction false} KeypairChunksFold(m: KeypairSet, ks: seq<seq<byte>>)
    ensures Fold(ApplyKeypairSet, m, KeypairChunks(ks)) == Some(m.(keypairs := m.keypairs + ks))
    decreases |ks|
  {
    if ks == [] {
      assert m.keypairs + [] == m.keypairs;
    } else {
      KeypairChunksFold(m.(keypairs := m.keypairs + [ks[0]]), ks[1..]);
      assert m.keypairs + [ks[0]] + ks[1..] == m.keypairs + ks;
      var fs := KeypairChunks(ks);
      assert fs[0] == Chunk(1, ks[0]) && fs[1..] == KeypairChunks(ks[1..]);
    }
  }

  ghost predicate SignatureReads(s: Option<Signature>) {
    DecodeSignature(NO_SIGNATURE, SignatureBytes(s)) == Some(Filled(s))
  }

  /** The signatures read back as written exactly when each of them does. */
  lemma {:induction false} SignatureChunksFold(m: KeypairSet, ss: seq<Option<Signature>>)
    ensures var r := Fold(ApplyKeypairSet, m, SignatureChunks(ss));
      && (r.Some? ==>
            |r.value.signatures| == |m.signatures| + |ss| && r.value.signatures[..|m.signatures|] == m.signatures)
      && (r == Some(m.(signatures := m.signatures + AllFilled(ss)))
          <==> forall i | 0 <= i < |ss| :: SignatureReads(ss[i]))
    decreases |ss|
  {
    hide DecodeSignature, SignatureBytes;
    if ss == [] {
      assert m.signatures + AllFilled([]) == m.signatures;
    } else {
      var fs, d := SignatureChunks(ss), DecodeSignature(NO_SIGNATURE, SignatureBytes(ss[0]));
      assert fs[0] == Chunk(2, SignatureBytes(ss[0])) && fs[1..] == SignatureChunks(ss[1..]);
      if d.Some? {
        var m' := m.(signatures := m.signatures + [d]);
        assert ApplyKeypairSet(m, fs[0]) == Some(m');
        SignatureChunksFold(m', ss[1..]);
        assert AllFilled(ss) == [Some(Filled(ss[0]))] + AllFilled(ss[1..]);
        assert m.signatures + [Some(Filled(ss[0]))] + AllFilled(ss[1..]) == m.signatures + AllFilled(ss);
        var r := Fold(ApplyKeypairSet, m, fs);
        if r.Some? {
          assert r.value.signatures[|m.signatures|] == m'.signatures[|m.signatures|] == d;
        }
      }
    }
  }

  lemma KeypairSetFolds(m: KeypairSet)
    ensures Fold(ApplyKeypairSet, NO_KEYPAIR_SET, KeypairSetFields(m)) == Some(PutKeypairSet(NormalKeypairSet(m), []))
       <==> forall i | 0 <= i < |m.signatures| :: SignatureReads(m.signatures[i])
  {
    hide DecodeSignature, SignatureReads, KeypairChunks, SignatureChunks, AllFilled;
    var k := KeypairSet([] + m.keypairs, [], []);
    FoldConcat(ApplyKeypairSet, NO_KEYPAIR_SET, KeypairChunks(m.keypairs), SignatureChunks(m.signatures));
    KeypairChunksFold(NO_KEYPAIR_SET, m.keypairs);
    SignatureChunksFold(k, m.signatures);
    assert [] + m.keypairs == m.keypairs && [] + AllFilled(m.signatures) == AllFilled(m.signatures);
  }

  ghost predicate WellFormedKeypairSet(m: KeypairSet) {
    && UnknownOnly(KEYPAIR_SET, m.unknown)
    && forall i | 0 <= i < |m.signatures| && m.signatures[i].Some? :: WellFormedSignature(m.signatures[i].value)
  }

  lemma SignatureReadsIff(s: Option<Signature>)
    requires |SignatureBytes(s)| < TWO64
    ensures SignatureReads(s) <==> (s.Some? ==> WellFormedSignature(s.value))
  {
    if s.Some? {
      SignatureRoundTrip(s.value);
    }
  }

  lemma {:induction false} SignaturesFit(ss: seq<Option<Signature>>, i: nat)
    requires i < |ss|
    ensures |SignatureBytes(ss[i])| <= SizeSignatures(ss)
  {
    hide SizeSignature, EncodeSignature;
    if i > 0 {
      SignaturesFit(ss[1..], i - 1);
    }
  }

  lemma KeypairSetRoundTrip(m: KeypairSet)
    requires |EncodeKeypairSet(m)| < TWO64
    ensures DecodeKeypairSet(NO_KEYPAIR_SET, EncodeKeypairSet(m)) == Some(NormalKeypairSet(m))
       <==> WellFormedKeypairSet(m)
  {
    KeypairSetShape(m);
    KeypairSetLawful();
    KeypairSetFolds(m);
    forall i | 0 <= i < |m.signatures|
      ensures SignatureReads(m.signatures[i])
         <==> (m.signatures[i].Some? ==> WellFormedSignature(m.signatures[i].value))
    {
      SignaturesFit(m.signatures, i);
      SignatureReadsIff(m.signatures[i]);
    }
    hide Lawful, Fold, KeypairSetFields, UnknownOnly, SignatureReads, WellFormedSignature;
    ShapedPrintable(KEYPAIR_SET, KeypairSetFields(m));
    MessageRoundTrip(KEYPAIR_SET, ApplyKeypairSet, UnknownOfKeypairSet, PutKeypairSet, NO_KEYPAIR_SET,
                     KeypairSetFields(m), NormalKeypairSet(m));
  }

  // ----- Entity

  function EntityEnd(m: Entity): seq<Field> {
    Opt(m.epoch != 0, Number(4, m.epoch))
    + (if m.keypairSet.Some? then [Chunk(5, EncodeKeypairSet(m.keypairSet.value))] else [])
  }

  function EntityFields(m: Entity): seq<Field> {
    Opt(m.entityId != [], Chunk(1, m.entityId)) + (Opt(m.entityUuid != [], Chunk(2, m.entityUuid))
    + (Opt(m.domainId != [], Chunk(3, m.domainId)) + EntityEnd(m)))
  }

  lemma EntityShape(m: Entity)
    ensures Shaped(ENTITY, EntityFields(m))
    ensures |Print(EntityFields(m))| + |m.unknown| == SizeEntity(m)
  {
    hide Opt, Print, Shaped, Varint, SizeVarint, EncodeKeypairSet, SizeKeypairSet;
    var f5: seq<Field> := if m.keypairSet.Some? then [Chunk(5, EncodeKeypairSet(m.keypairSet.value))] else [];
    var f4 := Opt(m.epoch != 0, Number(4, m.epoch)) + f5;
    var f3 := Opt(m.domainId != [], Chunk(3, m.domainId)) + f4;
    var f2 := Opt(m.entityUuid != [], Chunk(2, m.entityUuid)) + f3;
    NothingPrinted(ENTITY);
    if m.keypairSet.Some? {
      OnePrinted(ENTITY, Chunk(5, EncodeKeypairSet(m.keypairSet.value)));
    }
    PrintOpt(ENTITY, m.epoch != 0, Number(4, m.epoch), f5);
    PrintOpt(ENTITY, m.domainId != [], Chunk(3, m.domainId), f4);
    PrintOpt(ENTITY, m.entityUuid != [], Chunk(2, m.entityUuid), f3);
    PrintOpt(ENTITY, m.entityId != [], Chunk(1, m.entityId), f2);
  }

  function SizeEntity(m: Entity): nat {
    SizeBytesNonEmpty(m.entityId) + SizeBytesNonEmpty(m.entityUuid) + SizeBytesNonEmpty(m.domainId)
    + SizeVarintNonZero(m.epoch)
    + (if m.keypairSet.Some? then SizeMessage(SizeKeypairSet(m.keypairSet.value)) else 0) + |m.unknown|
  }

  function EncodeEntity(m: Entity): (data: seq<byte>)
    ensures |data| == SizeEntity(m)
  {
    EntityShape(m);
    Print(EntityFields(m)) + m.unknown
  }

  function ApplyEntity(m: Entity, f: Field): Option<Entity> {
    match f
    case Unknown(raw) => Some(m.(unknown := m.unknown + raw))
    case Number(num, v) => if num == 4 then Some(m.(epoch := v)) else None
    case Chunk(num, d) =>
      if num == 1 then Some(m.(entityId := d))
      else if num == 2 then Some(m.(entityUuid := d))
      else if num == 3 then Some(m.(domainId := d))
      else if num == 5 then
        match DecodeKeypairSet(if m.keypairSet.Some? then m.keypairSet.value else NO_KEYPAIR_SET, d)
        case None => None
        case Some(s) => Some(m.(keypairSet := Some(s)))
      else None
  }

  function DecodeEntity(m: Entity, data: seq<byte>): Option<Entity> {
    Decode(ENTITY, ApplyEntity, m, data)
  }

  function UnknownOfEntity(m: Entity): seq<byte> {
    m.unknown
  }

  function PutEntity(m: Entity, raw: seq<byte>): Entity {
    m.(unknown := raw)
  }

  lemma EntityLawful()
    ensures Lawful(ApplyEntity, UnknownOfEntity, PutEntity)
  {
    hide DecodeKeypairSet;
    assert forall m: Entity, f :: ApplyEntity(m, f).Some? && !f.Unknown? ==> m.unknown + [] == m.unknown;
  }

  function NormalEntity(m: Entity): Entity {
    if m.keypairSet.Some? then m.(keypairSet := Some(NormalKeypairSet(m.keypairSet.value))) else m
  }

  lemma EntityFolds(m: Entity)
    ensures Fold(ApplyEntity, NO_ENTITY, EntityFields(m)) == Some(PutEntity(NormalEntity(m), []))
       <==> (m.keypairSet.Some? ==>
               DecodeKeypairSet(NO_KEYPAIR_SET, EncodeKeypairSet(m.keypairSet.value))
               == Some(NormalKeypairSet(m.keypairSet.value)))
  {
    hide Opt, DecodeKeypairSet, EncodeKeypairSet, NormalKeypairSet;
    var f5: seq<Field> := if m.keypairSet.Some? then [Chunk(5, EncodeKeypairSet(m.keypairSet.value))] else [];
    var f4 := Opt(m.epoch != 0, Number(4, m.epoch)) + f5;
    var f3 := Opt(m.domainId != [], Chunk(3, m.domainId)) + f4;
    var f2 := Opt(m.entityUuid != [], Chunk(2, m.entityUuid)) + f3;
    var m1 := Entity(m.entityId, [], [], 0, None, []);
    var m2 := Entity(m.entityId, m.entityUuid, [], 0, None, []);
    var m3 := Entity(m.entityId, m.entityUuid, m.domainId, 0, None, []);
    var m4 := Entity(m.entityId, m.entityUuid, m.domainId, m.epoch, None, []);
    FoldOne(ApplyEntity, m4, f5);
    hide Fold;
    FoldOpt(ApplyEntity, NO_ENTITY, m.entityId != [], Chunk(1, m.entityId), f2);
    FoldOpt(ApplyEntity, m1, m.entityUuid != [], Chunk(2, m.entityUuid), f3);
    FoldOpt(ApplyEntity, m2, m.domainId != [], Chunk(3, m.domainId), f4);
    FoldOpt(ApplyEntity, m3, m.epoch != 0, Number(4, m.epoch), f5);
  }

  ghost predicate WellFormedEntity(m: Entity) {
    UnknownOnly(ENTITY, m.unknown) && (m.keypairSet.Some? ==> WellFormedKeypairSet(m.keypairSet.value))
  }

  lemma EntityRoundTrip(m: Entity)
    requires |EncodeEntity(m)| < TWO64
    ensures DecodeEntity(NO_ENTITY, EncodeEntity(m)) == Some(NormalEntity(m)) <==> WellFormedEntity(m)
  {
    EntityShape(m);
    EntityLawful();
    EntityFolds(m);
    if m.keypairSet.Some? {
      KeypairSetRoundTrip(m.keypairSet.value);
    }
    hide Lawful, Fold, EntityFields, UnknownOnly, EncodeKeypairSet, DecodeKeypairSet, WellFormedKeypairSet,
      NormalKeypairSet;
    ShapedPrintable(ENTITY, EntityFields(m));
    MessageRoundTrip(ENTITY, ApplyEntity, UnknownOfEntity, PutEntity, NO_ENTITY, EntityFields(m), NormalEntity(m));
  }

  // ----- what decoding gives

  /** A decoded signature can be written and read again. */
  lemma DecodedSignature(m: Signature, data: seq<byte>)
    requires WellFormedSignature(m) && DecodeSignature(m, data).Some?
    ensures WellFormedSignature(DecodeSignature(m, data).value)
  {
    SignatureLawful();
    DecodedUnknown(SIGNATURE, ApplySignature, UnknownOfSignature, PutSignature, m, data);
  }

  lemma DecodedKeypair(m: Keypair, data: seq<byte>)
    requires WellFormedKeypair(m) && DecodeKeypair(m, data).Some?
    ensures WellFormedKeypair(DecodeKeypair(m, data).value)
  {
    KeypairLawful();
    DecodedUnknown(KEYPAIR, ApplyKeypair, UnknownOfKeypair, PutKeypair, m, data);
  }

  lemma EmptyIsUnknownOnly(schema: Schema)
    ensures UnknownOnly(schema, [])
  {
  }

  ghost predicate GoodKeypair(k: Option<Keypair>) {
    k.Some? ==> WellFormedKeypair(k.value)
  }

  lemma {:induction false} FoldedEntityKeypair(m: EntityKeypair, fs: seq<Field>)
    requires GoodKeypair(m.keypair) && Fold(ApplyEntityKeypair, m, fs).Some?
    ensures GoodKeypair(Fold(ApplyEntityKeypair, m, fs).value.keypair)
    decreases |fs|
  {
    hide DecodeKeypair, WellFormedKeypair;
    if fs != [] {
      EmptyIsUnknownOnly(KEYPAIR);
      assert WellFormedKeypair(NO_KEYPAIR) by {
        KeypairIsWellFormed(NO_KEYPAIR);
      }
      if fs[0].Chunk? && fs[0].num == 3 {
        DecodedKeypair(if m.keypair.Some? then m.keypair.value else NO_KEYPAIR, fs[0].data);
      }
      FoldedEntityKeypair(ApplyEntityKeypair(m, fs[0]).value, fs[1..]);
    }
  }

  lemma KeypairIsWellFormed(m: Keypair)
    ensures UnknownOnly(KEYPAIR, m.unknown) ==> WellFormedKeypair(m)
  {
  }

  lemma DecodedEntityKeypair(m: EntityKeypair, data: seq<byte>)
    requires WellFormedEntityKeypair(m) && DecodeEntityKeypair(m, data).Some?
    ensures WellFormedEntityKeypair(DecodeEntityKeypair(m, data).value)
  {
    EntityKeypairLawful();
    DecodedUnknown(ENTITY_KEYPAIR, ApplyEntityKeypair, UnknownOfEntityKeypair, PutEntityKeypair, m, data);
    FoldedEntityKeypair(m, Parse(ENTITY_KEYPAIR, data).value);
  }

  /** Every signature is there and can be written and read again. */
  ghost predicate GoodSignatures(ss: seq<Option<Signature>>) {
    forall i | 0 <= i < |ss| :: ss[i].Some? && WellFormedSignature(ss[i].value)
  }

  lemma {:induction false} FoldedKeypairSet(m: KeypairSet, fs: seq<Field>)
    requires GoodSignatures(m.signatures) && Fold(ApplyKeypairSet, m, fs).Some?
    ensures GoodSignatures(Fold(ApplyKeypairSet, m, fs).value.signatures)
    decreases |fs|
  {
    hide DecodeSignature, WellFormedSignature;
    if fs != [] {
      assert WellFormedSignature(NO_SIGNATURE) by {
        SignatureIsWellFormed();
      }
      if fs[0].Chunk? && fs[0].num == 2 {
        DecodedSignature(NO_SIGNATURE, fs[0].data);
      }
      FoldedKeypairSet(ApplyKeypairSet(m, fs[0]).value, fs[1..]);
    }
  }

  lemma SignatureIsWellFormed()
    ensures WellFormedSignature(NO_SIGNATURE)
  {
    EmptyIsUnknownOnly(SIGNATURE);
  }

  ghost predicate GoodKeypairSet(m: KeypairSet) {
    UnknownOnly(KEYPAIR_SET, m.unknown) && GoodSignatures(m.signatures)
  }

  lemma DecodedKeypairSet(m: KeypairSet, data: seq<byte>)
    requires GoodKeypairSet(m) && DecodeKeypairSet(m, data).Some?
    ensures GoodKeypairSet(DecodeKeypairSet(m, data).value)
  {
    KeypairSetLawful();
    DecodedUnknown(KEYPAIR_SET, ApplyKeypairSet, UnknownOfKeypairSet, PutKeypairSet, m, data);
    FoldedKeypairSet(m, Parse(KEYPAIR_SET, data).value);
  }

  lemma GoodIsNormal(m: KeypairSet)
    requires GoodKeypairSet(m)
    ensures WellFormedKeypairSet(m) && NormalKeypairSet(m) == m
  {
    assert AllFilled(m.signatures) == m.signatures;
  }

  ghost predicate GoodEntity(m: Entity) {
    UnknownOnly(ENTITY, m.unknown) && (m.keypairSet.Some? ==> GoodKeypairSet(m.keypairSet.value))
  }

  lemma {:induction false} FoldedEntity(m: Entity, fs: seq<Field>)
    requires (m.keypairSet.Some? ==> GoodKeypairSet(m.keypairSet.value)) && Fold(ApplyEntity, m, fs).Some?
    ensures var s := Fold(ApplyEntity, m, fs).value.keypairSet; s.Some? ==> GoodKeypairSet(s.value)
    decreases |fs|
  {
    hide DecodeKeypairSet, GoodKeypairSet;
    if fs != [] {
      KeypairSetStartsGood();
      if fs[0].Chunk? && fs[0].num == 5 {
        DecodedKeypairSet(if m.keypairSet.Some? then m.keypairSet.value else NO_KEYPAIR_SET, fs[0].data);
      }
      FoldedEntity(ApplyEntity(m, fs[0]).value, fs[1..]);
    }
  }

  lemma KeypairSetStartsGood()
    ensures GoodKeypairSet(NO_KEYPAIR_SET)
  {
    EmptyIsUnknownOnly(KEYPAIR_SET);
  }

  lemma DecodedEntity(m: Entity, data: seq<byte>)
    requires GoodEntity(m) && DecodeEntity(m, data).Some?
    ensures GoodEntity(DecodeEntity(m, data).value)
  {
    EntityLawful();
    DecodedUnknown(ENTITY, ApplyEntity, UnknownOfEntity, PutEntity, m, data);
    FoldedEntity(m, Parse(ENTITY, data).value);
  }

  /** Whatever bytes an entity was decoded from, writing it and reading it again gives
      the same entity, nested sets and unknown fields included. */
  lemma ReencodeEntity(data: seq<byte>)
    requires DecodeEntity(NO_ENTITY, data).Some?
    requires |EncodeEntity(DecodeEntity(NO_ENTITY, data).value)| < TWO64
    ensures var m := DecodeEntity(NO_ENTITY, data).value; DecodeEntity(NO_ENTITY, EncodeEntity(m)) == Some(m)
  {
    hide DecodeEntity, EncodeEntity, GoodKeypairSet, WellFormedKeypairSet, NormalKeypairSet, UnknownOnly;
    var m := DecodeEntity(NO_ENTITY, data).value;
    EmptyIsUnknownOnly(ENTITY);
    DecodedEntity(NO_ENTITY, data);
    if m.keypairSet.Some? {
      GoodIsNormal(m.keypairSet.value);
    }
    EntityRoundTrip(m);
  }

  lemma ReencodeEntityKeypair(data: seq<byte>)
    requires DecodeEntityKeypair(NO_ENTITY_KEYPAIR, data).Some?
    requires |EncodeEntityKeypair(DecodeEntityKeypair(NO_ENTITY_KEYPAIR, data).value)| < TWO64
    ensures var m := DecodeEntityKeypair(NO_ENTITY_KEYPAIR, data).value;
      DecodeEntityKeypair(NO_ENTITY_KEYPAIR, EncodeEntityKeypair(m)) == Some(m)
  {
    hide DecodeEntityKeypair, EncodeEntityKeypair, UnknownOnly;
    EmptyIsUnknownOnly(ENTITY_KEYPAIR);
    DecodedEntityKeypair(NO_ENTITY_KEYPAIR, data);
    EntityKeypairRoundTrip(DecodeEntityKeypair(NO_ENTITY_KEYPAIR, data).value);
  }

  // ----- equality

  /** EqualVT: a nil signature equals an empty one. */
  predicate EqualSignatures(a: seq<Option<Signature>>, b: seq<Option<Signature>>) {
    |a| == |b| && forall i | 0 <= i < |a| :: Filled(a[i]) == Filled(b[i])
  }

  predicate EqualKeypairSet(a: KeypairSet, b: KeypairSet) {
    a.keypairs == b.keypairs && EqualSignatures(a.signatures, b.signatures) && a.unknown == b.unknown
  }

  predicate EqualEntity(a: Entity, b: Entity) {
    && a.entityId == b.entityId && a.entityUuid == b.entityUuid && a.domainId == b.domainId && a.epoch == b.epoch
    && (if a.keypairSet.Some? && b.keypairSet.Some? then EqualKeypairSet(a.keypairSet.value, b.keypairSet.value)
        else a.keypairSet == b.keypairSet)
    && a.unknown == b.unknown
  }

  lemma EqualIsNormal(a: Entity, b: Entity)
    ensures EqualEntity(a, b) <==> NormalEntity(a) == NormalEntity(b)
  {
    if a.keypairSet.Some? && b.keypairSet.Some? {
      var ss, ts := a.keypairSet.value.signatures, b.keypairSet.value.signatures;
      if AllFilled(ss) == AllFilled(ts) {
        forall i | 0 <= i < |ss| ensures Filled(ss[i]) == Filled(ts[i]) {
          assert AllFilled(ss)[i] == AllFilled(ts)[i];
        }
      }
      if EqualSignatures(ss, ts) {
        assert AllFilled(ss) == AllFilled(ts);
      }
    }
  }

  /** The law of the codec: an entity that was written reads back equal to itself exactly
      when its unknown bytes, nested ones included, hold unknown fields only. */
  lemma EntityCodec(m: Entity)
    requires |EncodeEntity(m)| < TWO64
    ensures var r := DecodeEntity(NO_ENTITY, EncodeEntity(m));
      r.Some? && EqualEntity(r.value, m) <==> WellFormedEntity(m)
  {
    var r := DecodeEntity(NO_ENTITY, EncodeEntity(m));
    EntityRoundTrip(m);
    hide DecodeEntity, EncodeEntity, WellFormedEntity, EqualEntity;
    if r.Some? {
      EqualIsNormal(r.value, m);
      EqualIsNormal(NormalEntity(m), m);
      NormalTwice(m);
      EmptyIsUnknownOnly(ENTITY);
      DecodedEntity(NO_ENTITY, EncodeEntity(m));
      GoodEntityIsNormal(r.value);
    }
  }

  lemma NormalTwice(m: Entity)
    ensures NormalEntity(NormalEntity(m)) == NormalEntity(m)
  {
    if m.keypairSet.Some? {
      var ss := m.keypairSet.value.signatures;
      assert AllFilled(AllFilled(ss)) == AllFilled(ss);
    }
  }

  lemma GoodEntityIsNormal(m: Entity)
    requires GoodEntity(m)
    ensures NormalEntity(m) == m
  {
    if m.keypairSet.Some? {
      GoodIsNormal(m.keypairSet.value);
    }
  }

  // ----- the layout on the wire, byte by byte

  /** A string or bytes field: its tag byte, its length, its bytes; nothing when empty. */
  function Bytes(tag: byte, d: seq<byte>): seq<byte> {
    if d == [] then [] else [tag] + Varint(|d|) + d
  }

  /** A varint field; nothing when zero. */
  function NonZero(tag: byte, v: uint64): seq<byte> {
    if v == 0 then [] else [tag] + Varint(v)
  }

  /** A message or repeated field, written even when empty. */
  function Nested(tag: byte, d: seq<byte>): seq<byte> {
    [tag] + Varint(|d|) + d
  }

  function AllNested(tag: byte, ds: seq<seq<byte>>): seq<byte> {
    if ds == [] then [] else Nested(tag, ds[0]) + AllNested(tag, ds[1..])
  }

  lemma PrintsNested(num: nat, d: seq<byte>)
    requires 0 < num < 16
    ensures Print([Chunk(num, d)]) == Nested(num * 8 + 2, d)
  {
    assert [Chunk(num, d)][1..] == [];
  }

  lemma PrintsBytes(num: nat, d: seq<byte>, rest: seq<Field>)
    requires 0 < num < 16
    ensures Print(Opt(d != [], Chunk(num, d)) + rest) == Bytes(num * 8 + 2, d) + Print(rest)
  {
    PrintConcat(Opt(d != [], Chunk(num, d)), rest);
    if d != [] {
      PrintsNested(num, d);
    }
    hide Varint, PrintField;
  }

  lemma PrintsNumber(num: nat, v: uint64, rest: seq<Field>)
    requires 0 < num < 16
    ensures Print(Opt(v != 0, Number(num, v)) + rest) == NonZero(num * 8, v) + Print(rest)
  {
    PrintConcat(Opt(v != 0, Number(num, v)), rest);
    if v != 0 {
      assert Print([Number(num, v)]) == PrintField(Number(num, v)) + [] by {
        assert [Number(num, v)][1..] == [];
      }
    }
  }

  lemma PrintsTwo(num: nat, d: seq<byte>, e: seq<byte>, rest: seq<Field>)
    requires 0 < num < 15
    ensures Print(Opt(d != [], Chunk(num, d)) + (Opt(e != [], Chunk(num + 1, e)) + rest))
         == Bytes(num * 8 + 2, d) + (Bytes((num + 1) * 8 + 2, e) + Print(rest))
  {
    hide *;
    PrintsBytes(num + 1, e, rest);
    PrintsBytes(num, d, Opt(e != [], Chunk(num + 1, e)) + rest);
  }

  lemma KeypairLayout(m: Keypair)
    ensures EncodeKeypair(m) == Bytes(0x0a, m.peerId) + (Bytes(0x12, m.pubKey)
        + (Bytes(0x1a, m.authMethodId) + (Bytes(0x22, m.authMethodParams) + []))) + m.unknown
  {
    NothingPrinted(KEYPAIR);
    hide Print, Opt, Bytes, SizeKeypair;
    PrintsTwo(3, m.authMethodId, m.authMethodParams, []);
    PrintsTwo(1, m.peerId, m.pubKey,
              Opt(m.authMethodId != [], Chunk(3, m.authMethodId))
              + (Opt(m.authMethodParams != [], Chunk(4, m.authMethodParams)) + []));
  }

  lemma SignatureEndLayout(m: Signature)
    ensures Print(Opt(m.hashType != 0, Number(2, Uint64Of(m.hashType)))
                  + (Opt(m.sigData != [], Chunk(3, m.sigData)) + []))
         == NonZero(0x10, Uint64Of(m.hashType)) + (Bytes(0x1a, m.sigData) + [])
  {
    NothingPrinted(SIGNATURE);
    hide Print, Opt, Bytes, NonZero;
    PrintsBytes(3, m.sigData, []);
    PrintsNumber(2, Uint64Of(m.hashType), Opt(m.sigData != [], Chunk(3, m.sigData)) + []);
  }

  lemma SignatureLayout(m: Signature)
    ensures EncodeSignature(m) == Bytes(0x0a, m.pubKey)
        + (NonZero(0x10, Uint64Of(m.hashType)) + (Bytes(0x1a, m.sigData) + [])) + m.unknown
  {
    hide Print, Opt, Bytes, NonZero, SizeSignature;
    SignatureEndLayout(m);
    PrintsBytes(1, m.pubKey, Opt(m.hashType != 0, Number(2, Uint64Of(m.hashType)))
                             + (Opt(m.sigData != [], Chunk(3, m.sigData)) + []));
  }

  lemma EntityKeypairLayout(m: EntityKeypair)
    ensures EncodeEntityKeypair(m) == Bytes(0x0a, m.entityId) + (Bytes(0x12, m.domainId)
        + (if m.keypair.Some? then Nested(0x1a, EncodeKeypair(m.keypair.value)) else [])) + m.unknown
  {
    NothingPrinted(ENTITY_KEYPAIR);
    hide Print, Opt, Bytes, Nested, EncodeKeypair, SizeEntityKeypair;
    if m.keypair.Some? {
      PrintsNested(3, EncodeKeypair(m.keypair.value));
      PrintsTwo(1, m.entityId, m.domainId, [Chunk(3, EncodeKeypair(m.keypair.value))]);
    } else {
      PrintsTwo(1, m.entityId, m.domainId, []);
    }
  }

  lemma {:induction false} KeypairChunksLayout(ks: seq<seq<byte>>)
    ensures Print(KeypairChunks(ks)) == AllNested(0x0a, ks)
  {
    if ks != [] {
      KeypairChunksLayout(ks[1..]);
      PrintConcat([Chunk(1, ks[0])], KeypairChunks(ks[1..]));
      PrintsNested(1, ks[0]);
    }
  }

  function SignatureData(ss: seq<Option<Signature>>): (ds: seq<seq<byte>>)
    ensures |ds| == |ss|
  {
    seq(|ss|, i requires 0 <= i < |ss| => SignatureBytes(ss[i]))
  }

  lemma {:induction false} SignatureChunksLayout(ss: seq<Option<Signature>>)
    ensures Print(SignatureChunks(ss)) == AllNested(0x12, SignatureData(ss))
  {
    hide EncodeSignature;
    if ss != [] {
      SignatureChunksLayout(ss[1..]);
      PrintConcat([Chunk(2, SignatureBytes(ss[0]))], SignatureChunks(ss[1..]));
      PrintsNested(2, SignatureBytes(ss[0]));
      assert SignatureData(ss)[1..] == SignatureData(ss[1..]);
    }
  }

  /** Every keypair and every signature is written, empty ones included, keypairs first. */
  lemma KeypairSetLayout(m: KeypairSet)
    ensures EncodeKeypairSet(m)
         == AllNested(0x0a, m.keypairs) + AllNested(0x12, SignatureData(m.signatures)) + m.unknown
  {
    KeypairChunksLayout(m.keypairs);
    SignatureChunksLayout(m.signatures);
    hide Print, KeypairChunks, SignatureChunks, AllNested;
    PrintConcat(KeypairChunks(m.keypairs), SignatureChunks(m.signatures));
  }

  lemma EntityEndLayout(m: Entity)
    ensures Print(EntityEnd(m)) == NonZero(0x20, m.epoch)
        + (if m.keypairSet.Some? then Nested(0x2a, EncodeKeypairSet(m.keypairSet.value)) else [])
  {
    NothingPrinted(ENTITY);
    hide Print, Opt, Bytes, Nested, NonZero, EncodeKeypairSet;
    if m.keypairSet.Some? {
      PrintsNested(5, EncodeKeypairSet(m.keypairSet.value));
      PrintsNumber(4, m.epoch, [Chunk(5, EncodeKeypairSet(m.keypairSet.value))]);
    } else {
      PrintsNumber(4, m.epoch, []);
    }
  }

  /** The entity's bytes from the domain ID on. */
  function EntityTail(m: Entity): seq<byte> {
    Bytes(0x1a, m.domainId) + (NonZero(0x20, m.epoch)
    + (if m.keypairSet.Some? then Nested(0x2a, EncodeKeypairSet(m.keypairSet.value)) else []))
  }

  lemma EntityTailLayout(m: Entity)
    ensures Print(Opt(m.domainId != [], Chunk(3, m.domainId)) + EntityEnd(m)) == EntityTail(m)
  {
    EntityEndLayout(m);
    hide Print, Opt, Bytes, Nested, NonZero, EncodeKeypairSet, EntityEnd;
    PrintsBytes(3, m.domainId, EntityEnd(m));
  }

  lemma EntityLayout(m: Entity)
    ensures EncodeEntity(m) == Bytes(0x0a, m.entityId) + (Bytes(0x12, m.entityUuid) + EntityTail(m)) + m.unknown
  {
    hide Print, Opt, Bytes, EntityTail, SizeEntity, EntityEnd;
    EntityTailLayout(m);
    PrintsTwo(1, m.entityId, m.entityUuid, Opt(m.domainId != [], Chunk(3, m.domainId)) + EntityEnd(m));
  }
}
