/** The signed keypair set of an entity, over any lawful signature scheme: appending
    keypairs and verifying the whole set. */
module KeypairSets {
  import opened Options
  import opened Wire
  import opened Identity

  datatype PubKey = PubKey(bytes: seq<byte>)
  datatype PrivKey = PrivKey(seed: seq<byte>)
  type PeerId = seq<byte>

  /** The operations the set calls; None stands for a returned error. */
  datatype Scheme = Scheme(
    parsePeerId: seq<byte> -> Option<PeerId>,
    peerString: PeerId -> seq<byte>,
    parsePubKey: seq<byte> -> Option<Option<PubKey>>,
    peerOf: PubKey -> Option<PeerId>,
    publicOf: PrivKey -> PubKey,
    sign: (PrivKey, seq<byte>) -> Option<Signature>,
    signatureKey: seq<byte> -> Option<PubKey>,
    verify: (Signature, PubKey, seq<byte>) -> Option<bool>,
    validEntityId: seq<byte> -> bool,
    validDomainId: seq<byte> -> bool)

  /** What the set relies on: a signature carries its public key and verifies with it,
      and the text of a key's peer ID parses as that ID. */
  ghost predicate Lawful(s: Scheme) {
    && (forall k, data :: s.sign(k, data).Some? ==>
          var sig := s.sign(k, data).value;
          && sig.pubKey != [] && s.signatureKey(sig.pubKey) == Some(s.publicOf(k))
          && s.verify(sig, s.publicOf(k), data) == Some(true))
    && (forall pub :: s.peerOf(pub).Some? ==> s.parsePeerId(s.peerString(s.peerOf(pub).value)) == s.peerOf(pub))
  }

  function KeypairOf(m: EntityKeypair): Keypair {
    if m.keypair.Some? then m.keypair.value else NO_KEYPAIR
  }

  predicate ValidKeypair(s: Scheme, k: Keypair) {
    && s.parsePeerId(k.peerId).Some? && s.parsePeerId(k.peerId).value != []
    && s.parsePubKey(k.pubKey).Some? && s.parsePubKey(k.pubKey).value.Some?
    && s.peerOf(s.parsePubKey(k.pubKey).value.value) == s.parsePeerId(k.peerId)
    && (k.authMethodId == [] ==> k.authMethodParams == [])
  }

  predicate ValidEntityKeypair(s: Scheme, m: EntityKeypair) {
    && (!(m.domainId == [] && m.entityId == []) ==>
          (m.entityId != [] ==> s.validEntityId(m.entityId)) && s.validDomainId(m.domainId))
    && ValidKeypair(s, KeypairOf(m))
  }

  predicate MatchesEntity(m: EntityKeypair, ent: Option<Entity>) {
    ent.Some? ==> m.entityId == ent.value.entityId && m.domainId == ent.value.domainId
  }

  // ----- appending

  /** The key, and the signature it makes, for a keypair that may be appended. */
  predicate Signable(s: Scheme, priv: PrivKey, m: EntityKeypair, ent: Option<Entity>) {
    && ValidEntityKeypair(s, m) && MatchesEntity(m, ent)
    && s.peerOf(s.publicOf(priv)).Some?
    && s.peerString(s.peerOf(s.publicOf(priv)).value) == KeypairOf(m).peerId
    && s.sign(priv, EncodeEntityKeypair(m)).Some?
    && s.verify(s.sign(priv, EncodeEntityKeypair(m)).value, s.publicOf(priv), EncodeEntityKeypair(m)).Some?
  }

  function StoredPeer(s: Scheme, data: seq<byte>): Option<PeerId> {
    match DecodeEntityKeypair(NO_ENTITY_KEYPAIR, data)
    case None => None
    case Some(m) => s.parsePeerId(KeypairOf(m).peerId)
  }

  /** A stored keypair that can be read and belongs to another peer and key. */
  predicate Unrelated(s: Scheme, data: seq<byte>, k: Keypair, pub: PubKey) {
    var p := StoredPeer(s, data);
    p.Some? && p.value != [] && s.peerString(p.value) != k.peerId && s.peerOf(pub) != p
  }

  predicate Appendable(s: Scheme, held: KeypairSet, priv: PrivKey, m: EntityKeypair, ent: Option<Entity>) {
    && Signable(s, priv, m, ent)
    && forall i | 0 <= i < |held.keypairs| :: Unrelated(s, held.keypairs[i], KeypairOf(m), s.publicOf(priv))
  }

  function Append(s: Scheme, held: KeypairSet, priv: PrivKey, m: EntityKeypair, ent: Option<Entity>): KeypairSet {
    if !Appendable(s, held, priv, m, ent) then held
    else
      var data := EncodeEntityKeypair(m);
      held.(keypairs := held.keypairs + [data], signatures := held.signatures + [s.sign(priv, data)])
  }

  // ----- verifying

  predicate Readable(s: Scheme, data: seq<byte>, ent: Option<Entity>) {
    var m := DecodeEntityKeypair(NO_ENTITY_KEYPAIR, data);
    m.Some? && ValidEntityKeypair(s, m.value) && MatchesEntity(m.value, ent)
  }

  predicate Verified(s: Scheme, data: seq<byte>, sig: Option<Signature>) {
    var g := Filled(sig);
    var m := DecodeEntityKeypair(NO_ENTITY_KEYPAIR, data);
    && m.Some? && g.pubKey != [] && s.signatureKey(g.pubKey).Some?
    && s.parsePeerId(KeypairOf(m.value).peerId).Some?
    && s.peerOf(s.signatureKey(g.pubKey).value) == s.parsePeerId(KeypairOf(m.value).peerId)
    && s.verify(g, s.signatureKey(g.pubKey).value, data) == Some(true)
  }

  predicate Verifiable(s: Scheme, held: KeypairSet, ent: Option<Entity>) {
    && |held.keypairs| == |held.signatures|
    && (forall i | 0 <= i < |held.keypairs| :: Readable(s, held.keypairs[i], ent))
    && (forall i | 0 <= i < |held.keypairs| :: Verified(s, held.keypairs[i], held.signatures[i]))
  }

  function ReadAll(keypairs: seq<seq<byte>>): seq<EntityKeypair> {
    seq(|keypairs|, i requires 0 <= i < |keypairs| =>
      var m := DecodeEntityKeypair(NO_ENTITY_KEYPAIR, keypairs[i]);
      if m.Some? then m.value else NO_ENTITY_KEYPAIR)
  }

  function Verify(s: Scheme, held: KeypairSet, ent: Option<Entity>): Option<seq<EntityKeypair>> {
    if Verifiable(s, held, ent) then Some(ReadAll(held.keypairs)) else None
  }

  // ----- any sequence of appends

  datatype Call = Call(key: PrivKey, keypair: EntityKeypair)

  /** The set after the calls, and the keypairs of those that succeeded. */
  function AppendAll(s: Scheme, held: KeypairSet, calls: seq<Call>, ent: Option<Entity>)
    : (KeypairSet, seq<EntityKeypair>)
    decreases |calls|
  {
    if calls == [] then (held, [])
    else
      var c := calls[0];
      var (end, more) := AppendAll(s, Append(s, held, c.key, c.keypair, ent), calls[1..], ent);
      (end, (if Appendable(s, held, c.key, c.keypair, ent) then [c.keypair] else []) + more)
  }

  /** A keypair record that a Go program can hold: built without unknown bytes, or
      decoded; and small enough to encode. */
  ghost predicate Proper(m: EntityKeypair) {
    WellFormedEntityKeypair(m) && |EncodeEntityKeypair(m)| < TWO64
  }

  function PeerOfKeypair(s: Scheme, m: EntityKeypair): Option<PeerId> {
    s.parsePeerId(KeypairOf(m).peerId)
  }

  ghost predicate DistinctPeers(s: Scheme, ms: seq<EntityKeypair>) {
    forall i, j | 0 <= i < j < |ms| :: PeerOfKeypair(s, ms[i]) != PeerOfKeypair(s, ms[j])
  }

  /** The set holds exactly these keypairs, each signed for the entity. */
  ghost predicate Signed(s: Scheme, held: KeypairSet, ms: seq<EntityKeypair>, ent: Option<Entity>) {
    && |held.keypairs| == |ms| == |held.signatures|
    && (forall i | 0 <= i < |ms| :: SignedAs(s, held.keypairs[i], held.signatures[i], ms[i], ent))
    && DistinctPeers(s, ms)
  }

  ghost predicate SignedAs(s: Scheme, data: seq<byte>, sig: Option<Signature>, m: EntityKeypair, ent: Option<Entity>) {
    && DecodeEntityKeypair(NO_ENTITY_KEYPAIR, data) == Some(m)
    && Readable(s, data, ent) && Verified(s, data, sig)
  }

  lemma AppendedIsSigned(s: Scheme, priv: PrivKey, m: EntityKeypair, ent: Option<Entity>)
    requires Lawful(s) && Proper(m) && Signable(s, priv, m, ent)
    ensures var data := EncodeEntityKeypair(m);
      SignedAs(s, data, s.sign(priv, data), m, ent) && PeerOfKeypair(s, m) == s.peerOf(s.publicOf(priv))
  {
    hide EncodeEntityKeypair, DecodeEntityKeypair;
    EntityKeypairRoundTrip(m);
    var data := EncodeEntityKeypair(m);
    var pub := s.publicOf(priv);
    assert s.parsePeerId(s.peerString(s.peerOf(pub).value)) == s.peerOf(pub);
  }

  /** A successful append extends the signed set by the keypair, with a new peer. */
  lemma AppendKeeps(s: Scheme, held: KeypairSet, ms: seq<EntityKeypair>, priv: PrivKey, m: EntityKeypair,
                    ent: Option<Entity>)
    requires Lawful(s) && Proper(m) && Signed(s, held, ms, ent) && Appendable(s, held, priv, m, ent)
    ensures Signed(s, Append(s, held, priv, m, ent), ms + [m], ent)
  {
    hide EncodeEntityKeypair, DecodeEntityKeypair, Readable, Verified, Lawful, Signable;
    AppendedIsSigned(s, priv, m, ent);
    forall i | 0 <= i < |ms| ensures PeerOfKeypair(s, ms[i]) != PeerOfKeypair(s, m) {
      assert SignedAs(s, held.keypairs[i], held.signatures[i], ms[i], ent);
      assert Unrelated(s, held.keypairs[i], KeypairOf(m), s.publicOf(priv));
    }
  }

  /** A keypair whose peer is already in the set is never appended again. */
  lemma KnownPeerIsRejected(s: Scheme, held: KeypairSet, ms: seq<EntityKeypair>, priv: PrivKey, m: EntityKeypair,
                            ent: Option<Entity>, i: nat)
    requires Lawful(s) && Proper(m) && Signed(s, held, ms, ent) && i < |ms|
    requires PeerOfKeypair(s, m) == PeerOfKeypair(s, ms[i])
    ensures !Appendable(s, held, priv, m, ent)
  {
    hide EncodeEntityKeypair, DecodeEntityKeypair, Readable, Verified, Lawful;
    assert SignedAs(s, held.keypairs[i], held.signatures[i], ms[i], ent);
    if Signable(s, priv, m, ent) {
      AppendedIsSigned(s, priv, m, ent);
      assert !Unrelated(s, held.keypairs[i], KeypairOf(m), s.publicOf(priv));
    }
  }

  lemma SignedVerifies(s: Scheme, held: KeypairSet, ms: seq<EntityKeypair>, ent: Option<Entity>)
    requires Signed(s, held, ms, ent)
    ensures Verify(s, held, ent) == Some(ms)
  {
    hide DecodeEntityKeypair, Readable, Verified;
    assert ReadAll(held.keypairs) == ms;
  }

  lemma {:induction false} AppendAllKeeps(s: Scheme, held: KeypairSet, ms: seq<EntityKeypair>, calls: seq<Call>,
                                          ent: Option<Entity>)
    requires Lawful(s) && Signed(s, held, ms, ent) && forall i | 0 <= i < |calls| :: Proper(calls[i].keypair)
    ensures var (end, more) := AppendAll(s, held, calls, ent); Signed(s, end, ms + more, ent)
    decreases |calls|
  {
    hide Lawful, Proper, Signed, Appendable;
    if calls == [] {
      assert ms + [] == ms;
    } else {
      var c := calls[0];
      var set' := Append(s, held, c.key, c.keypair, ent);
      if Appendable(s, held, c.key, c.keypair, ent) {
        AppendKeeps(s, held, ms, c.key, c.keypair, ent);
        AppendAllKeeps(s, set', ms + [c.keypair], calls[1..], ent);
        var more := AppendAll(s, set', calls[1..], ent).1;
        assert ms + [c.keypair] + more == ms + ([c.keypair] + more);
      } else {
        AppendAllKeeps(s, held, ms, calls[1..], ent);
        var more := AppendAll(s, held, calls[1..], ent).1;
        assert [] + more == more;
      }
    }
  }

  /** From the empty set, after any sequence of appends for one entity, successful or
      not, verification succeeds and returns exactly the keypairs appended, in order,
      each of another peer. */
  lemma SetStaysValid(s: Scheme, calls: seq<Call>, ent: Option<Entity>)
    requires Lawful(s) && forall i | 0 <= i < |calls| :: Proper(calls[i].keypair)
    ensures var (end, appended) := AppendAll(s, NO_KEYPAIR_SET, calls, ent);
      Verify(s, end, ent) == Some(appended) && DistinctPeers(s, appended)
  {
    hide Lawful, Proper, Verify;
    AppendAllKeeps(s, NO_KEYPAIR_SET, [], calls, ent);
    var (end, appended) := AppendAll(s, NO_KEYPAIR_SET, calls, ent);
    assert [] + appended == appended;
    SignedVerifies(s, end, appended, ent);
  }

  /** What a verified set guarantees, record by record: it names the entity, its public
      key belongs to its peer, and its signature verifies over the stored bytes with a key
      of that same peer. */
  lemma VerifiedMeans(s: Scheme, held: KeypairSet, ent: Option<Entity>, i: nat)
    requires Verify(s, held, ent).Some? && i < |held.keypairs|
    ensures var m, sig := Verify(s, held, ent).value[i], Filled(held.signatures[i]);
      var peer := PeerOfKeypair(s, m);
      && |Verify(s, held, ent).value| == |held.keypairs| == |held.signatures|
      && DecodeEntityKeypair(NO_ENTITY_KEYPAIR, held.keypairs[i]) == Some(m)
      && (ent.Some? ==> m.entityId == ent.value.entityId && m.domainId == ent.value.domainId)
      && peer.Some? && peer.value != []
      && (exists pub :: s.parsePubKey(KeypairOf(m).pubKey) == Some(Some(pub)) && s.peerOf(pub) == peer)
      && (exists pub :: s.signatureKey(sig.pubKey) == Some(pub) && s.peerOf(pub) == peer
            && s.verify(sig, pub, held.keypairs[i]) == Some(true))
      && (KeypairOf(m).authMethodParams != [] ==> KeypairOf(m).authMethodId != [])
  {
    hide DecodeEntityKeypair;
    assert Readable(s, held.keypairs[i], ent) && Verified(s, held.keypairs[i], held.signatures[i]);
  }

  // ----- what is accepted, and what is refused

  /** A valid record, check by check: a domain or entity ID brings a valid domain ID, and an
      entity ID must be valid itself; the keypair names a peer that is not empty, whose ID
      is that of the public key it holds; and parameters come only with a method. */
  lemma ValidIff(s: Scheme, m: EntityKeypair)
    ensures var k := if m.keypair.Some? then m.keypair.value else Keypair([], [], [], [], []);
      ValidEntityKeypair(s, m) <==>
        && (m.domainId != [] || m.entityId != [] ==> s.validDomainId(m.domainId))
        && (m.entityId != [] ==> s.validEntityId(m.entityId))
        && (exists peer, pub :: peer != [] && s.parsePeerId(k.peerId) == Some(peer)
              && s.parsePubKey(k.pubKey) == Some(Some(pub)) && s.peerOf(pub) == Some(peer))
        && (k.authMethodParams != [] ==> k.authMethodId != [])
  {
    var k := KeypairOf(m);
    if ValidKeypair(s, k) {
      var peer, pub := s.parsePeerId(k.peerId).value, s.parsePubKey(k.pubKey).value.value;
      assert peer != [] && s.parsePeerId(k.peerId) == Some(peer)
          && s.parsePubKey(k.pubKey) == Some(Some(pub)) && s.peerOf(pub) == Some(peer);
    }
  }

  /** The text of a peer that a valid keypair names tells it apart from every other. */
  lemma SamePeerText(s: Scheme, a: EntityKeypair, p: PeerId)
    requires Lawful(s) && ValidEntityKeypair(s, a) && s.parsePeerId(s.peerString(p)) == Some(p)
    ensures var q := PeerOfKeypair(s, a); q.Some? && (s.peerString(q.value) == s.peerString(p) ==> q.value == p)
  {
    var k := KeypairOf(a);
    var pub := s.parsePubKey(k.pubKey).value.value;
    assert s.peerOf(pub) == s.parsePeerId(k.peerId);
  }

  /** When a keypair joins a signed set: exactly if it is valid, matches the entity and
      names the peer of the private key, signing it and the check of that signature return
      no error, and its peer is none of the set's. It then stands behind the others with
      its signature; otherwise the set stays as it was. */
  lemma AppendsIff(s: Scheme, held: KeypairSet, ms: seq<EntityKeypair>, priv: PrivKey, m: EntityKeypair,
                   ent: Option<Entity>)
    requires Lawful(s) && Proper(m) && Signed(s, held, ms, ent)
    ensures var data, pub := EncodeEntityKeypair(m), s.publicOf(priv);
      var accepted :=
        && ValidEntityKeypair(s, m)
        && (ent.Some? ==> m.entityId == ent.value.entityId && m.domainId == ent.value.domainId)
        && s.peerOf(pub).Some? && s.peerString(s.peerOf(pub).value) == KeypairOf(m).peerId
        && s.sign(priv, data).Some? && s.verify(s.sign(priv, data).value, pub, data).Some?
        && (forall i | 0 <= i < |ms| :: PeerOfKeypair(s, ms[i]) != PeerOfKeypair(s, m));
      && (Appendable(s, held, priv, m, ent) <==> accepted)
      && (accepted ==>
            && Append(s, held, priv, m, ent)
               == KeypairSet(held.keypairs + [data], held.signatures + [s.sign(priv, data)], held.unknown)
            && Signed(s, Append(s, held, priv, m, ent), ms + [m], ent))
      && (!accepted ==> Append(s, held, priv, m, ent) == held)
  {
    hide EncodeEntityKeypair, DecodeEntityKeypair, Verified, ValidEntityKeypair;
    if Signable(s, priv, m, ent) {
      AppendedIsSigned(s, priv, m, ent);
      var p := s.peerOf(s.publicOf(priv)).value;
      forall i | 0 <= i < |ms|
        ensures Unrelated(s, held.keypairs[i], KeypairOf(m), s.publicOf(priv))
           <==> PeerOfKeypair(s, ms[i]) != PeerOfKeypair(s, m)
      {
        assert SignedAs(s, held.keypairs[i], held.signatures[i], ms[i], ent);
        ValidPeer(s, ms[i]);
        SamePeerText(s, ms[i], p);
      }
      if Appendable(s, held, priv, m, ent) {
        AppendKeeps(s, held, ms, priv, m, ent);
      }
    }
  }

  lemma ValidPeer(s: Scheme, m: EntityKeypair)
    ensures ValidEntityKeypair(s, m) ==> PeerOfKeypair(s, m).Some? && PeerOfKeypair(s, m).value != []
  {
  }

  /** A set with a record that cannot be read, or that names no peer, takes no keypair. */
  lemma BrokenSetIsClosed(s: Scheme, held: KeypairSet, priv: PrivKey, m: EntityKeypair, ent: Option<Entity>, i: nat)
    requires i < |held.keypairs|
    requires var was := DecodeEntityKeypair(EntityKeypair([], [], None, []), held.keypairs[i]);
      was.None? || PeerOfKeypair(s, was.value).None? || PeerOfKeypair(s, was.value) == Some([])
    ensures !Appendable(s, held, priv, m, ent) && Append(s, held, priv, m, ent) == held
  {
    hide DecodeEntityKeypair, Signable;
    assert !Unrelated(s, held.keypairs[i], KeypairOf(m), s.publicOf(priv));
  }

  /** A record, and the signature beside it, that stand the checks: the record reads as a
      valid keypair that matches the entity, and the signature carries a key of the record's
      own peer and verifies over the stored bytes. A nil signature carries none. */
  ghost predicate Stands(s: Scheme, data: seq<byte>, sig: Option<Signature>, ent: Option<Entity>) {
    exists m, g, pub ::
      && DecodeEntityKeypair(EntityKeypair([], [], None, []), data) == Some(m)
      && ValidEntityKeypair(s, m)
      && (ent.Some? ==> m.entityId == ent.value.entityId && m.domainId == ent.value.domainId)
      && sig == Some(g) && g.pubKey != []
      && s.signatureKey(g.pubKey) == Some(pub) && s.peerOf(pub) == PeerOfKeypair(s, m)
      && s.verify(g, pub, data) == Some(true)
  }

  lemma StandsIff(s: Scheme, data: seq<byte>, sig: Option<Signature>, ent: Option<Entity>)
    ensures Stands(s, data, sig, ent) <==> Readable(s, data, ent) && Verified(s, data, sig)
  {
    hide DecodeEntityKeypair, ValidEntityKeypair;
    var d := DecodeEntityKeypair(NO_ENTITY_KEYPAIR, data);
    if d.Some? && ValidEntityKeypair(s, d.value) {
      ValidPeer(s, d.value);
    }
    if Readable(s, data, ent) && Verified(s, data, sig) {
      var m, g := d.value, sig.value;
      var pub := s.signatureKey(g.pubKey).value;
      assert d == Some(m) && sig == Some(g) && s.signatureKey(g.pubKey) == Some(pub);
    }
  }

  /** A set verifies exactly if it has a signature for each record and each record stands,
      and then it gives the records as they read, in order. */
  lemma VerifiesIff(s: Scheme, held: KeypairSet, ent: Option<Entity>)
    ensures Verify(s, held, ent).Some? <==>
        && |held.keypairs| == |held.signatures|
        && forall i | 0 <= i < |held.keypairs| :: Stands(s, held.keypairs[i], held.signatures[i], ent)
    ensures Verify(s, held, ent).Some? ==>
        && |Verify(s, held, ent).value| == |held.keypairs|
        && forall i | 0 <= i < |held.keypairs| ::
             DecodeEntityKeypair(EntityKeypair([], [], None, []), held.keypairs[i])
             == Some(Verify(s, held, ent).value[i])
  {
    hide DecodeEntityKeypair, ValidEntityKeypair, Stands, Verified;
    if |held.keypairs| == |held.signatures| {
      forall i | 0 <= i < |held.keypairs|
        ensures Stands(s, held.keypairs[i], held.signatures[i], ent)
           <==> Readable(s, held.keypairs[i], ent) && Verified(s, held.keypairs[i], held.signatures[i])
      {
        StandsIff(s, held.keypairs[i], held.signatures[i], ent);
      }
    }
  }

  // ----- the set as an object

  class EntityKeypairSet {
    var entityKeypairs: seq<seq<byte>>
    var entityKeypairSignatures: seq<Option<Signature>>
    var unknownFields: seq<byte>

    function Value(): KeypairSet
      reads this
    {
      KeypairSet(entityKeypairs, entityKeypairSignatures, unknownFields)
    }

    constructor ()
      ensures Value() == NO_KEYPAIR_SET
    {
      entityKeypairs, entityKeypairSignatures, unknownFields := [], [], [];
    }

    /** False stands for a returned error; the lists are then unchanged. */
    method AppendKeypair(s: Scheme, priv: PrivKey, m: EntityKeypair, ent: Option<Entity>) returns (ok: bool)
      modifies this
      ensures ok == Appendable(s, old(Value()), priv, m, ent)
      ensures Value() == Append(s, old(Value()), priv, m, ent)
    {
      hide EncodeEntityKeypair, DecodeEntityKeypair, ValidEntityKeypair;
      if !ValidEntityKeypair(s, m) {
        return false;
      }
      if ent.Some? && !MatchesEntity(m, ent) {
        return false;
      }
      var expected := s.peerOf(s.publicOf(priv));
      if expected.None? || s.peerString(expected.value) != KeypairOf(m).peerId {
        return false;
      }
      var data := EncodeEntityKeypair(m);
      var sig := s.sign(priv, data);
      if sig.None? {
        return false;
      }
      // Only an error of the check is looked at, not its answer.
      var checked := s.verify(sig.value, s.publicOf(priv), data);
      if checked.None? {
        return false;
      }
      var i := 0;
      while i < |entityKeypairs|
        invariant 0 <= i <= |entityKeypairs|
        invariant forall j | 0 <= j < i :: Unrelated(s, entityKeypairs[j], KeypairOf(m), s.publicOf(priv))
      {
        var peer := StoredPeer(s, entityKeypairs[i]);
        if peer.None? || peer.value == [] {
          return false;
        }
        if s.peerString(peer.value) == KeypairOf(m).peerId || s.peerOf(s.publicOf(priv)) == peer {
          return false;
        }
        i := i + 1;
      }
      entityKeypairs := entityKeypairs + [data];
      entityKeypairSignatures := entityKeypairSignatures + [sig];
      return true;
    }

    method UnmarshalVerifyKeypairs(s: Scheme, ent: Option<Entity>) returns (r: Option<seq<EntityKeypair>>)
      ensures r == Verify(s, Value(), ent)
    {
      hide DecodeEntityKeypair, ValidEntityKeypair;
      var n := |entityKeypairs|;
      if n != |entityKeypairSignatures| {
        return None;
      }
      var values: seq<EntityKeypair> := [];
      var i := 0;
      while i < n
        invariant 0 <= i <= n && |values| == i
        invariant forall j | 0 <= j < i ::
          Readable(s, entityKeypairs[j], ent)
          && DecodeEntityKeypair(NO_ENTITY_KEYPAIR, entityKeypairs[j]) == Some(values[j])
      {
        var m := DecodeEntityKeypair(NO_ENTITY_KEYPAIR, entityKeypairs[i]);
        if m.None? || !ValidEntityKeypair(s, m.value) || (ent.Some? && !MatchesEntity(m.value, ent)) {
          assert !Readable(s, entityKeypairs[i], ent);
          return None;
        }
        values := values + [m.value];
        i := i + 1;
      }
      i := 0;
      while i < n
        invariant 0 <= i <= n
        invariant forall j | 0 <= j < i :: Verified(s, entityKeypairs[j], entityKeypairSignatures[j])
      {
        var g := Filled(entityKeypairSignatures[i]);
        assert DecodeEntityKeypair(NO_ENTITY_KEYPAIR, entityKeypairs[i]) == Some(values[i]);
        if g.pubKey == [] || s.signatureKey(g.pubKey).None? {
          assert !Verified(s, entityKeypairs[i], entityKeypairSignatures[i]);
          return None;
        }
        var pub := s.signatureKey(g.pubKey).value;
        var peer := s.parsePeerId(KeypairOf(values[i]).peerId);
        if peer.None? || s.peerOf(pub) != peer || s.verify(g, pub, entityKeypairs[i]) != Some(true) {
          assert !Verified(s, entityKeypairs[i], entityKeypairSignatures[i]);
          return None;
        }
        i := i + 1;
      }
      assert ReadAll(entityKeypairs) == values;
      return Some(values);
    }
  }
}
