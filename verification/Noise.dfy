/**
 The Noise handshake IKpsk2, symbolically: keys, hashes and ciphertexts are terms of a free algebra in
 which Diffie-Hellman commutes and a ciphertext opens only under its own key, nonce and associated data.
 */
module Noise {
  import opened Octets

  datatype Term =
    | Data(bytes: Bytes)
    | ProtocolName
    | Public(secret: nat)
    | Weak(number: nat)
    | Key(number: nat)
    | Shared(low: nat, high: nat)
    | Foreign(secret: nat, point: Term)
    | Hash(state: Term, input: Term)
    | Hmac(key: Term, message: Term)
    | Tagged(block: Term, tag: nat)
    | Sealed(key: Term, nonce: nat, associated: Term, plain: Term)

  const EMPTY := Data([])
  const ZERO_KEY := Weak(0)

  datatype NoiseError = UnsupportedPlatform | InvalidState | DecryptionFailed | MessageTooShort
                      | BufferTooSmall | BadPublicKey | MissingRemoteStatic

  datatype Outcome<+T> = Ok(value: T) | Failed(error: NoiseError)

  /** The shared secret is the same from both sides; a weak point has none. */
  function Dh(secret: nat, point: Term): (r: Option<Term>)
  {
    match point
    case Public(other) => Some(if secret <= other then Shared(secret, other) else Shared(other, secret))
    case Weak(_) => None
    case _ => Some(Foreign(secret, point))
  }

  // ----- key derivation -----

  datatype Outputs = Outputs(first: Term, second: Term, third: Term)

  function Hkdf(chaining: Term, input: Term): (r: Outputs)
  {
    var temp := Hmac(chaining, input);
    var first := Hmac(temp, Tagged(EMPTY, 1));
    var second := Hmac(temp, Tagged(first, 2));
    Outputs(first, second, Hmac(temp, Tagged(second, 3)))
  }

  // ----- cipher and symmetric state -----

  datatype Cipher = Cipher(key: Option<Term>, nonce: nat)

  function Encrypt(c: Cipher, associated: Term, plain: Term): (r: (Cipher, Term))
  {
    if c.key.None? then (c, plain)
    else (c.(nonce := c.nonce + 1), Sealed(c.key.value, c.nonce, associated, plain))
  }

  function Decrypt(c: Cipher, associated: Term, text: Term): (r: Outcome<(Cipher, Term)>)
  {
    if c.key.None? then Ok((c, text))
    else if text.Sealed? && text.key == c.key.value && text.nonce == c.nonce && text.associated == associated
    then Ok((c.(nonce := c.nonce + 1), text.plain))
    else Failed(DecryptionFailed)
  }

  datatype Symmetric = Symmetric(chaining: Term, hash: Term, cipher: Cipher)

  const INITIAL := Symmetric(ProtocolName, ProtocolName, Cipher(None, 0))

  function MixHash(s: Symmetric, data: Term): (r: Symmetric)
  {
    s.(hash := Hash(s.hash, data))
  }

  function MixKey(s: Symmetric, input: Term): (r: Symmetric)
  {
    var o := Hkdf(s.chaining, input);
    s.(chaining := o.first, cipher := Cipher(Some(o.second), 0))
  }

  function MixKeyAndHash(s: Symmetric, input: Term): (r: Symmetric)
  {
    var o := Hkdf(s.chaining, input);
    MixHash(s, o.second).(chaining := o.first, cipher := Cipher(Some(o.third), 0))
  }

  function EncryptAndHash(s: Symmetric, plain: Term): (r: (Symmetric, Term))
  {
    var (cipher, text) := Encrypt(s.cipher, s.hash, plain);
    (MixHash(s.(cipher := cipher), text), text)
  }

  function DecryptAndHash(s: Symmetric, text: Term): (r: Outcome<(Symmetric, Term)>)
  {
    match Decrypt(s.cipher, s.hash, text)
    case Failed(e) => Failed(e)
    case Ok((cipher, plain)) => Ok((MixHash(s.(cipher := cipher), text), plain))
  }

  function Split(s: Symmetric): (r: (Term, Term))
  {
    var o := Hkdf(s.chaining, EMPTY);
    (o.first, o.second)
  }

  // ----- the handshake -----

  /** A first message long enough to hold an ephemeral key, a sealed static key and a tag. */
  datatype Wire1 = Short1 | Wire1(ephemeral: Term, identity: Term, payload: Term)

  /** A second message long enough to hold an ephemeral key and a tag. */
  datatype Wire2 = Short2 | Wire2(ephemeral: Term, payload: Term)

  datatype Handshake = Handshake(
    initiator: bool, symmetric: Symmetric, localStatic: nat, localEphemeral: nat, remoteStatic: Term,
    remoteEphemeral: Term, preshared: Term, hasRemoteStatic: bool, sent: bool, read: bool, finished: bool)

  datatype Keys = Keys(send: Term, receive: Term, hash: Term, remoteStatic: Term)

  function Create(initiator: bool, localStatic: nat, remoteStatic: Term, preshared: Term, prologue: Term)
    : (r: Outcome<Handshake>)
  {
    var s := MixHash(INITIAL, prologue);
    if initiator then
      if remoteStatic == ZERO_KEY then Failed(MissingRemoteStatic)
      else Ok(Handshake(true, MixHash(s, remoteStatic), localStatic, 0, remoteStatic, ZERO_KEY, preshared,
                        true, false, false, false))
    else Ok(Handshake(false, MixHash(s, Public(localStatic)), localStatic, 0, ZERO_KEY, ZERO_KEY, preshared,
                      false, false, false, false))
  }

  /** The ephemeral key is hashed and, in PSK mode, mixed into the key as well. */
  function MixEphemeral(s: Symmetric, e: Term): (r: Symmetric)
  {
    MixKey(MixHash(s, e), e)
  }

  function Write1(h: Handshake, payload: Term, ephemeral: nat): (r: (Handshake, Outcome<Wire1>))
  {
    if !h.initiator || h.sent || h.finished then (h, Failed(InvalidState))
    else if !h.hasRemoteStatic then (h, Failed(MissingRemoteStatic))
    else
      var s := MixEphemeral(h.symmetric, Public(ephemeral));
      var h := h.(localEphemeral := ephemeral, symmetric := s);
      match Dh(ephemeral, h.remoteStatic)
      case None => (h, Failed(BadPublicKey))
      case Some(es) =>
        var (s, identity) := EncryptAndHash(MixKey(s, es), Public(h.localStatic));
        match Dh(h.localStatic, h.remoteStatic)
        case None => (h.(symmetric := s), Failed(BadPublicKey))
        case Some(ss) =>
          var (s, text) := EncryptAndHash(MixKey(s, ss), payload);
          (h.(symmetric := s, sent := true), Ok(Wire1(Public(ephemeral), identity, text)))
  }

  function Read1(h: Handshake, m: Wire1): (r: (Handshake, Outcome<Term>))
  {
    if h.initiator || h.read || h.finished then (h, Failed(InvalidState))
    else if m.Short1? then (h, Failed(MessageTooShort))
    else
      var s := MixEphemeral(h.symmetric, m.ephemeral);
      var h := h.(remoteEphemeral := m.ephemeral, symmetric := s);
      match Dh(h.localStatic, m.ephemeral)
      case None => (h, Failed(BadPublicKey))
      case Some(es) =>
        var s := MixKey(s, es);
        match DecryptAndHash(s, m.identity)
        case Failed(e) => (h.(symmetric := s), Failed(e))
        case Ok((s, identity)) =>
          var h := h.(symmetric := s, remoteStatic := identity, hasRemoteStatic := true);
          match Dh(h.localStatic, identity)
          case None => (h, Failed(BadPublicKey))
          case Some(ss) =>
            var s := MixKey(s, ss);
            match DecryptAndHash(s, m.payload)
            case Failed(e) => (h.(symmetric := s), Failed(e))
            case Ok((s, payload)) => (h.(symmetric := s, read := true), Ok(payload))
  }

  function Write2(h: Handshake, payload: Term, ephemeral: nat): (r: (Handshake, Outcome<Wire2>))
  {
    if h.initiator || !h.read || h.finished then (h, Failed(InvalidState))
    else
      var s := MixEphemeral(h.symmetric, Public(ephemeral));
      var h := h.(localEphemeral := ephemeral, symmetric := s);
      match Dh(ephemeral, h.remoteEphemeral)
      case None => (h, Failed(BadPublicKey))
      case Some(ee) =>
        var s := MixKey(s, ee);
        match Dh(ephemeral, h.remoteStatic)
        case None => (h.(symmetric := s), Failed(BadPublicKey))
        case Some(se) =>
          var (s, text) := EncryptAndHash(MixKeyAndHash(MixKey(s, se), h.preshared), payload);
          (h.(symmetric := s, finished := true), Ok(Wire2(Public(ephemeral), text)))
  }

  /** Reading the second message changes the handshake only when it is accepted. */
  function Read2(h: Handshake, m: Wire2): (r: (Handshake, Outcome<Term>))
    ensures r.1.Failed? ==> r.0 == h
  {
    if !h.initiator || !h.sent || h.finished then (h, Failed(InvalidState))
    else if m.Short2? then (h, Failed(MessageTooShort))
    else
      match Dh(h.localEphemeral, m.ephemeral)
      case None => (h, Failed(BadPublicKey))
      case Some(ee) =>
        match Dh(h.localStatic, m.ephemeral)
        case None => (h, Failed(BadPublicKey))
        case Some(se) =>
          var s := MixKeyAndHash(MixKey(MixKey(MixEphemeral(h.symmetric, m.ephemeral), ee), se), h.preshared);
          match DecryptAndHash(s, m.payload)
          case Failed(e) => (h, Failed(e))
          case Ok((s, payload)) =>
            (h.(symmetric := s, remoteEphemeral := m.ephemeral, finished := true), Ok(payload))
  }

  function Result(h: Handshake): (r: Outcome<Keys>)
  {
    if !h.finished then Failed(InvalidState)
    else
      var (first, second) := Split(h.symmetric);
      Ok(if h.initiator then Keys(first, second, h.symmetric.hash, h.remoteStatic)
         else Keys(second, first, h.symmetric.hash, h.remoteStatic))
  }

  // ----- what key derivation gives away -----

  lemma HkdfInjective(a: Term, b: Term, x: Term, y: Term)
    ensures Hkdf(a, x).first == Hkdf(b, y).first ==> a == b && x == y
    ensures Hkdf(a, x).second == Hkdf(b, y).second ==> a == b && x == y
    ensures Hkdf(a, x).third == Hkdf(b, y).third ==> a == b && x == y
  {
  }

  lemma DhCommutes(a: nat, b: nat)
    ensures Dh(a, Public(b)) == Dh(b, Public(a)) && Dh(a, Public(b)).Some?
  {
  }

  // ----- the first message -----

  datatype Setup = Setup(initiatorStatic: nat, expected: Term, initiatorKey: Term, initiatorPrologue: Term,
                         initiatorEphemeral: nat, greeting: Term,
                         responderStatic: nat, responderKey: Term, responderPrologue: Term)

  /** The initiator after writing its first message, and the message. */
  function Initiated(u: Setup): (r: (Outcome<Handshake>, Outcome<Wire1>))
  {
    match Create(true, u.initiatorStatic, u.expected, u.initiatorKey, u.initiatorPrologue)
    case Failed(e) => (Failed(e), Failed(e))
    case Ok(h) => var (h, m) := Write1(h, u.greeting, u.initiatorEphemeral); (Ok(h), m)
  }

  function Responder(u: Setup): (h: Handshake)
  {
    Create(false, u.responderStatic, ZERO_KEY, u.responderKey, u.responderPrologue).value
  }

  /** The two sides speak under the same prologue, and the initiator means this responder. */
  predicate Matching(u: Setup)
  {
    u.expected == Public(u.responderStatic) && u.initiatorPrologue == u.responderPrologue
  }

  /** A responder accepts a first message that ends in the initiator's ciphertext exactly when the two sides
      match and the message is the one written; it then learns the initiator's static key and the payload. */
  lemma FirstMessageAgreement(u: Setup, m: Wire1)
    requires Initiated(u).1.Ok? && m.Wire1? && m.payload == Initiated(u).1.value.payload
    ensures var (h, accepted) := Read1(Responder(u), m);
            && (accepted.Ok? <==> Matching(u) && m == Initiated(u).1.value)
            && (accepted.Ok? ==>
                  && accepted.value == u.greeting && h.symmetric == Initiated(u).0.value.symmetric
                  && h.remoteStatic == Public(u.initiatorStatic) && h.remoteEphemeral == Public(u.initiatorEphemeral))
  {
    DhCommutes(u.initiatorEphemeral, u.responderStatic);
    DhCommutes(u.initiatorStatic, u.responderStatic);
  }

  // ----- the second message -----

  /** The responder read `m` and answered under a fresh ephemeral key. */
  predicate Answered(u: Setup, m: Wire1, ephemeral: nat, answer: Term)
  {
    Read1(Responder(u), m).1.Ok? && Write2(Read1(Responder(u), m).0, answer, ephemeral).1.Ok?
  }

  function Answering(u: Setup, m: Wire1, ephemeral: nat, answer: Term): (r: (Handshake, Wire2))
    requires Answered(u, m, ephemeral, answer)
  {
    var (h, w) := Write2(Read1(Responder(u), m).0, answer, ephemeral);
    (h, w.value)
  }

  /** The transcript hash after the first message. */
  function Transcript1(prologue: Term, expected: Term, m: Wire1): (h: Term)
    requires m.Wire1?
  {
    Hash(Hash(Hash(Hash(Hash(ProtocolName, prologue), expected), m.ephemeral), m.identity), m.payload)
  }

  lemma WrittenState(u: Setup)
    requires Initiated(u).1.Ok?
    ensures var (h, m) := Initiated(u);
            && h.Ok? && m.value.Wire1?
            && h.value.symmetric.hash == Transcript1(u.initiatorPrologue, u.expected, m.value)
            && h.value.initiator && h.value.sent && !h.value.finished && h.value.preshared == u.initiatorKey
            && h.value.localEphemeral == u.initiatorEphemeral && h.value.localStatic == u.initiatorStatic
            && h.value.remoteStatic == u.expected
  {
  }

  lemma ReadState(u: Setup, m: Wire1)
    requires Read1(Responder(u), m).1.Ok?
    ensures var h := Read1(Responder(u), m).0;
            && m.Wire1? && h.symmetric.hash == Transcript1(u.responderPrologue, Public(u.responderStatic), m)
            && !h.initiator && h.read && !h.finished && h.preshared == u.responderKey
            && h.remoteEphemeral == m.ephemeral && h.localStatic == u.responderStatic
  {
  }

  /** The symmetric state in which the second payload is sealed. */
  function Before2(s: Symmetric, ephemeral: Term, ee: Term, se: Term, preshared: Term): (r: Symmetric)
    ensures r.cipher.key.Some? && r.cipher.nonce == 0
  {
    MixKeyAndHash(MixKey(MixKey(MixEphemeral(s, ephemeral), ee), se), preshared)
  }

  lemma Before2Injective(s: Symmetric, t: Symmetric, e: Term, f: Term, ee: Term, ff: Term, se: Term, sf: Term,
                         k: Term, l: Term)
    requires Before2(s, e, ee, se, k).cipher == Before2(t, f, ff, sf, l).cipher
    requires Before2(s, e, ee, se, k).hash == Before2(t, f, ff, sf, l).hash
    ensures s.chaining == t.chaining && s.hash == t.hash && e == f && ee == ff && se == sf && k == l
  {
    var s1, t1 := MixEphemeral(s, e), MixEphemeral(t, f);
    var s2, t2 := MixKey(s1, ee), MixKey(t1, ff);
    var s3, t3 := MixKey(s2, se), MixKey(t2, sf);
    HkdfInjective(s3.chaining, t3.chaining, k, l);
    HkdfInjective(s2.chaining, t2.chaining, se, sf);
    HkdfInjective(s1.chaining, t1.chaining, ee, ff);
    HkdfInjective(s.chaining, t.chaining, e, f);
  }

  lemma Write2Is(h: Handshake, answer: Term, ephemeral: nat)
    requires Write2(h, answer, ephemeral).1.Ok?
    ensures Dh(ephemeral, h.remoteEphemeral).Some? && Dh(ephemeral, h.remoteStatic).Some?
    ensures var s := Before2(h.symmetric, Public(ephemeral), Dh(ephemeral, h.remoteEphemeral).value,
                             Dh(ephemeral, h.remoteStatic).value, h.preshared);
            var (r, w) := Write2(h, answer, ephemeral);
            && w.value == Wire2(Public(ephemeral), Sealed(s.cipher.key.value, 0, s.hash, answer))
            && r.symmetric == MixHash(s.(cipher := s.cipher.(nonce := 1)), w.value.payload)
            && r.finished && !r.initiator && r.remoteStatic == h.remoteStatic
  {
    hide Hkdf, Dh;
  }

  lemma Read2Is(h: Handshake, w: Wire2)
    requires h.initiator && h.sent && !h.finished && w.Wire2?
    ensures Read2(h, w).1.Ok? ==> Dh(h.localEphemeral, w.ephemeral).Some? && Dh(h.localStatic, w.ephemeral).Some?
    ensures Dh(h.localEphemeral, w.ephemeral).Some? && Dh(h.localStatic, w.ephemeral).Some? ==>
              var s := Before2(h.symmetric, w.ephemeral, Dh(h.localEphemeral, w.ephemeral).value,
                               Dh(h.localStatic, w.ephemeral).value, h.preshared);
              var (r, p) := Read2(h, w);
              && (p.Ok? <==> w.payload.Sealed? && w.payload == Sealed(s.cipher.key.value, 0, s.hash, w.payload.plain))
              && (p.Ok? ==> p.value == w.payload.plain && r.finished && r.initiator && r.remoteStatic == h.remoteStatic
                            && r.symmetric == MixHash(s.(cipher := s.cipher.(nonce := 1)), w.payload))
  {
    hide Hkdf, Dh;
  }

  /** An initiator accepts a second message that ends in some responder's ciphertext exactly when the two sides
      match, share the preshared key, the responder read the very message the initiator wrote, and the second
      message arrived as written. */
  lemma SecondMessageAgreement(u: Setup, m: Wire1, ephemeral: nat, answer: Term, w: Wire2)
    requires Initiated(u).1.Ok? && Answered(u, m, ephemeral, answer)
    requires w.Wire2? && w.payload == Answering(u, m, ephemeral, answer).1.payload
    ensures Initiated(u).0.Ok?
    ensures Read2(Initiated(u).0.value, w).1.Ok? <==>
              (Matching(u) && u.initiatorKey == u.responderKey && m == Initiated(u).1.value
               && w == Answering(u, m, ephemeral, answer).1)
  {
    hide Read1, Write1, Write2, Read2, Initiated, Responder, Before2, Dh;
    WrittenState(u);
    ReadState(u, m);
    var i, r := Initiated(u).0.value, Read1(Responder(u), m).0;
    Write2Is(r, answer, ephemeral);
    Read2Is(i, w);
    if Read2(i, w).1.Ok? {
      Before2Injective(i.symmetric, r.symmetric, w.ephemeral, Public(ephemeral),
                       Dh(i.localEphemeral, w.ephemeral).value, Dh(ephemeral, r.remoteEphemeral).value,
                       Dh(i.localStatic, w.ephemeral).value, Dh(ephemeral, r.remoteStatic).value,
                       i.preshared, r.preshared);
    }
    if Matching(u) && m == Initiated(u).1.value {
      FirstMessageAgreement(u, m);
      DhCommutes(u.initiatorEphemeral, ephemeral);
      DhCommutes(u.initiatorStatic, ephemeral);
    }
  }

  /** When the initiator accepts, both sides end with the same transcript hash, each other's static key, and
      what one sends with the other receives with. */
  lemma HandshakeAgrees(u: Setup, m: Wire1, ephemeral: nat, answer: Term, w: Wire2)
    requires Initiated(u).1.Ok? && Answered(u, m, ephemeral, answer)
    requires w.Wire2? && w.payload == Answering(u, m, ephemeral, answer).1.payload
    requires Initiated(u).0.Ok? && Read2(Initiated(u).0.value, w).1.Ok?
    ensures var (h, got) := Read2(Initiated(u).0.value, w);
            var i, r := Result(h), Result(Answering(u, m, ephemeral, answer).0);
            && i.Ok? && r.Ok? && got.value == answer && Read1(Responder(u), m).1.value == u.greeting
            && i.value.hash == r.value.hash && i.value.send == r.value.receive && i.value.receive == r.value.send
            && i.value.send != i.value.receive
            && i.value.remoteStatic == Public(u.responderStatic) && r.value.remoteStatic == Public(u.initiatorStatic)
  {
    hide Read1, Write1, Write2, Read2, Initiated, Responder, Before2, Dh;
    WrittenState(u);
    ReadState(u, m);
    SecondMessageAgreement(u, m, ephemeral, answer, w);
    FirstMessageAgreement(u, m);
    Write2Is(Read1(Responder(u), m).0, answer, ephemeral);
    Read2Is(Initiated(u).0.value, w);
    DhCommutes(u.initiatorEphemeral, ephemeral);
    DhCommutes(u.initiatorStatic, ephemeral);
  }

  // ----- what the keys are made of -----

  /** The chaining key after the inputs have been mixed in, one after the other. */
  function Chain(inputs: seq<Term>): (c: Term)
  {
    if |inputs| == 0 then ProtocolName
    else Hkdf(Chain(inputs[..|inputs| - 1]), inputs[|inputs| - 1]).first
  }

  lemma ChainMore(inputs: seq<Term>, x: Term)
    ensures Chain(inputs + [x]) == Hkdf(Chain(inputs), x).first && Chain([]) == ProtocolName
  {
    hide Hkdf;
    assert (inputs + [x])[..|inputs|] == inputs;
  }

  lemma ChainOfTwo(a: Term, b: Term)
    ensures Chain([a]) == Hkdf(ProtocolName, a).first && Chain([a, b]) == Hkdf(Chain([a]), b).first
  {
    hide Hkdf, Chain;
    ChainMore([], a);
    assert [] + [a] == [a] && [a] + [b] == [a, b];
    ChainMore([a], b);
  }

  /** The hash under which a first message's identity is sealed. */
  function Opening(prologue: Term, responder: Term, ephemeral: Term): (h: Term)
  {
    Hash(Hash(Hash(ProtocolName, prologue), responder), ephemeral)
  }

  /** A first message as section 7.5 of the Noise specification has it for IK with a preshared key: e, es, s, ss. The
      identity is sealed under e and es, the payload under e, es and ss. */
  predicate IsFirst(m: Wire1, prologue: Term, responder: Term, es: Term, ss: Term, identity: Term, payload: Term)
  {
    && m.Wire1?
    && m.identity == Sealed(Hkdf(Chain([m.ephemeral]), es).second, 0,
                            Opening(prologue, responder, m.ephemeral), identity)
    && m.payload == Sealed(Hkdf(Chain([m.ephemeral, es]), ss).second, 0,
                           Hash(Opening(prologue, responder, m.ephemeral), m.identity), payload)
  }

  /** The symmetric state of a responder when it opens the identity, and then the payload, of a first message. */
  function AtIdentity(r: nat, prologue: Term, e: Term, es: Term): (s: Symmetric)
  {
    MixKey(MixEphemeral(MixHash(MixHash(INITIAL, prologue), Public(r)), e), es)
  }

  function AtPayload(s: Symmetric, identity: Term, ss: Term): (t: Symmetric)
  {
    MixKey(MixHash(s.(cipher := s.cipher.(nonce := s.cipher.nonce + 1)), identity), ss)
  }

  lemma StatesAre(r: nat, prologue: Term, e: Term, es: Term, identity: Term, ss: Term)
    ensures var s := AtIdentity(r, prologue, e, es);
            && s.hash == Opening(prologue, Public(r), e) && s.chaining == Chain([e, es])
            && s.cipher == Cipher(Some(Hkdf(Chain([e]), es).second), 0)
    ensures var t := AtPayload(AtIdentity(r, prologue, e, es), identity, ss);
            && t.hash == Hash(Opening(prologue, Public(r), e), identity) && t.chaining == Chain([e, es, ss])
            && t.cipher == Cipher(Some(Hkdf(Chain([e, es]), ss).second), 0)
  {
    hide Hkdf, Chain;
    ChainOfTwo(e, es);
    assert [e, es] + [ss] == [e, es, ss];
    ChainMore([e, es], ss);
  }

  lemma Read1Is(r: nat, preshared: Term, prologue: Term, m: Wire1)
    ensures var (h, got) := Read1(Create(false, r, ZERO_KEY, preshared, prologue).value, m);
            if m.Wire1? && m.identity.Sealed? && Dh(r, m.ephemeral).Some? && Dh(r, m.identity.plain).Some? then
              var s := AtIdentity(r, prologue, m.ephemeral, Dh(r, m.ephemeral).value);
              var t := AtPayload(s, m.identity, Dh(r, m.identity.plain).value);
              && (got.Ok? <==>
                    && m.payload.Sealed?
                    && Some(m.identity.key) == s.cipher.key && m.identity.nonce == s.cipher.nonce
                    && m.identity.associated == s.hash
                    && Some(m.payload.key) == t.cipher.key && m.payload.nonce == t.cipher.nonce
                    && m.payload.associated == t.hash)
              && (got.Ok? ==>
                    && got.value == m.payload.plain && h.remoteStatic == m.identity.plain
                    && h.remoteEphemeral == m.ephemeral && h.symmetric.chaining == t.chaining)
            else !got.Ok?
  {
    hide Hkdf, Dh;
  }

  /** A responder accepts exactly the messages of that form for the shared secrets of its own static key. */
  lemma FirstIsAccepted(r: nat, preshared: Term, prologue: Term, m: Wire1)
    ensures var (h, got) := Read1(Create(false, r, ZERO_KEY, preshared, prologue).value, m);
            && (got.Ok? <==>
                  && m.Wire1? && m.identity.Sealed? && m.payload.Sealed?
                  && Dh(r, m.ephemeral).Some? && Dh(r, m.identity.plain).Some?
                  && IsFirst(m, prologue, Public(r), Dh(r, m.ephemeral).value, Dh(r, m.identity.plain).value,
                             m.identity.plain, m.payload.plain))
            && (got.Ok? ==>
                  && got.value == m.payload.plain && h.remoteStatic == m.identity.plain
                  && h.remoteEphemeral == m.ephemeral
                  && h.symmetric.chaining
                  == Chain([m.ephemeral, Dh(r, m.ephemeral).value, Dh(r, m.identity.plain).value]))
  {
    hide Hkdf, Chain, Dh, Read1, Create, AtIdentity, AtPayload, Opening;
    Read1Is(r, preshared, prologue, m);
    if m.Wire1? && m.identity.Sealed? && Dh(r, m.ephemeral).Some? && Dh(r, m.identity.plain).Some? {
      StatesAre(r, prologue, m.ephemeral, Dh(r, m.ephemeral).value, m.identity, Dh(r, m.identity.plain).value);
    }
  }

  /** An initiator writes a message of that form. */
  lemma FirstIsWritten(u: Setup)
    requires Initiated(u).1.Ok?
    ensures var m := Initiated(u).1.value;
            var e, s := Dh(u.initiatorEphemeral, u.expected), Dh(u.initiatorStatic, u.expected);
            && m.Wire1? && m.ephemeral == Public(u.initiatorEphemeral) && e.Some? && s.Some?
            && IsFirst(m, u.initiatorPrologue, u.expected, e.value, s.value, Public(u.initiatorStatic), u.greeting)
            && Initiated(u).0.Ok?
            && Initiated(u).0.value.symmetric.chaining == Chain([m.ephemeral, e.value, s.value])
  {
    var e, es := Public(u.initiatorEphemeral), Dh(u.initiatorEphemeral, u.expected);
    var ss := Dh(u.initiatorStatic, u.expected);
    ChainOfTwo(e, es.value);
    assert [e, es.value] + [ss.value] == [e, es.value, ss.value];
    ChainMore([e, es.value], ss.value);
  }

  /** All that is mixed into the keys of a handshake, in the order of the tokens e, es, ss, e, ee, se, psk. */
  function Ingredients(first: seq<Term>, ephemeral: Term, ee: Term, se: Term, preshared: Term): (inputs: seq<Term>)
  {
    first + [ephemeral, ee, se, preshared]
  }

  lemma Before2Is(s: Symmetric, first: seq<Term>, ephemeral: Term, ee: Term, se: Term, preshared: Term)
    requires s.chaining == Chain(first)
    ensures var r := Before2(s, ephemeral, ee, se, preshared);
            && r.cipher.key == Some(Hkdf(Chain(first + [ephemeral, ee, se]), preshared).third)
            && r.hash == Hash(Hash(s.hash, ephemeral), Hkdf(Chain(first + [ephemeral, ee, se]), preshared).second)
            && r.chaining == Chain(Ingredients(first, ephemeral, ee, se, preshared))
  {
    ChainMore(first, ephemeral);
    ChainMore(first + [ephemeral], ee);
    ChainMore(first + [ephemeral] + [ee], se);
    ChainMore(first + [ephemeral] + [ee] + [se], preshared);
    assert first + [ephemeral] + [ee] + [se] == first + [ephemeral, ee, se];
    assert first + [ephemeral, ee, se] + [preshared] == Ingredients(first, ephemeral, ee, se, preshared);
    hide Chain, Hkdf;
  }

  /** An initiator accepts exactly the second messages sealed under everything: e, es, ss of the first message, and e,
      ee, se and the preshared key of this one. */
  lemma SecondIsAccepted(u: Setup, w: Wire2)
    requires Initiated(u).1.Ok? && w.Wire2?
    ensures Initiated(u).0.Ok?
    ensures var i, m := Initiated(u).0.value, Initiated(u).1.value;
            var (h, got) := Read2(i, w);
            var es, ss := Dh(u.initiatorEphemeral, u.expected).value, Dh(u.initiatorStatic, u.expected).value;
            var ee, se := Dh(u.initiatorEphemeral, w.ephemeral), Dh(u.initiatorStatic, w.ephemeral);
            && m.Wire1?
            && (got.Ok? <==>
                  && ee.Some? && se.Some? && w.payload.Sealed? && w.payload.nonce == 0
                  && var c := Chain([m.ephemeral, es, ss] + [w.ephemeral, ee.value, se.value]);
                     && w.payload.key == Hkdf(c, u.initiatorKey).third
                     && w.payload.associated
                     == Hash(Hash(Transcript1(u.initiatorPrologue, u.expected, m), w.ephemeral),
                             Hkdf(c, u.initiatorKey).second))
            && (got.Ok? ==>
                  && got.value == w.payload.plain && h.finished && h.initiator
                  && h.symmetric.chaining
                  == Chain(Ingredients([m.ephemeral, es, ss], w.ephemeral, ee.value, se.value, u.initiatorKey)))
  {
    FirstIsWritten(u);
    WrittenState(u);
    hide Initiated, Read2, Dh, Hkdf, Chain, Transcript1, Before2, IsFirst, Ingredients;
    var i, m := Initiated(u).0.value, Initiated(u).1.value;
    var es, ss := Dh(u.initiatorEphemeral, u.expected).value, Dh(u.initiatorStatic, u.expected).value;
    var ee, se := Dh(u.initiatorEphemeral, w.ephemeral), Dh(u.initiatorStatic, w.ephemeral);
    Read2Is(i, w);
    if ee.Some? && se.Some? {
      Before2Is(i.symmetric, [m.ephemeral, es, ss], w.ephemeral, ee.value, se.value, u.initiatorKey);
    }
  }

  // ----- who can make a key -----

  /** The secret is an input somewhere along the derivation of the key. */
  predicate Through(secret: Term, key: Term)
  {
    key.Hmac? && (key.message == secret || Through(secret, key.key))
  }

  lemma {:induction false} ChainHolds(inputs: seq<Term>, k: nat, last: Term)
    requires k < |inputs|
    ensures Through(inputs[k], Chain(inputs))
    ensures var o := Hkdf(Chain(inputs), last);
            Through(inputs[k], o.first) && Through(inputs[k], o.second) && Through(inputs[k], o.third)
  {
    if k < |inputs| - 1 { ChainHolds(inputs[..|inputs| - 1], k, inputs[|inputs| - 1]); }
  }

  lemma LastHolds(chaining: Term, last: Term)
    ensures var o := Hkdf(chaining, last);
            Through(last, o.first) && Through(last, o.second) && Through(last, o.third)
  {
  }

  /** Nothing in the term shows the secret, except inside what honest parties sealed. */
  ghost predicate Clean(secret: Term, honest: iset<Term>, t: Term)
    decreases t
  {
    || t in honest
    || (t != secret &&
        match t
        case Foreign(_, point) => Clean(secret, honest, point)
        case Hash(state, input) => Clean(secret, honest, state) && Clean(secret, honest, input)
        case Hmac(key, message) => Clean(secret, honest, key) && Clean(secret, honest, message)
        case Tagged(block, _) => Clean(secret, honest, block)
        case Sealed(key, _, associated, plain) =>
          Clean(secret, honest, key) && Clean(secret, honest, associated) && Clean(secret, honest, plain)
        case _ => true)
  }

  /** What honest parties sent under keys made from the secret. */
  ghost predicate SealedUnder(secret: Term, honest: iset<Term>)
  {
    forall t :: t in honest ==> t.Sealed? && Through(secret, t.key)
  }

  lemma {:induction false} ThroughIsNotClean(secret: Term, honest: iset<Term>, key: Term)
    requires SealedUnder(secret, honest) && Through(secret, key) && !secret.Sealed?
    ensures !Clean(secret, honest, key)
    decreases key
  {
    if key.message == secret {
      assert secret !in honest;
    } else {
      ThroughIsNotClean(secret, honest, key.key);
    }
  }

  /** What an attacker makes in one step of what it knows: public terms, Diffie-Hellman with a secret of its own,
      hashing, sealing, and opening under a key it knows. */
  ghost predicate Makes(secrets: iset<nat>, known: seq<Term>, t: Term)
  {
    || t.Data? || t.ProtocolName? || t.Public? || t.Weak?
    || (exists a, p :: a in secrets && p in known && Dh(a, p) == Some(t))
    || (t.Hash? && t.state in known && t.input in known)
    || (t.Hmac? && t.key in known && t.message in known)
    || (t.Tagged? && t.block in known)
    || (t.Sealed? && t.key in known && t.associated in known && t.plain in known)
    || (exists c :: c in known && c.Sealed? && c.key in known && c.plain == t)
    || (exists c :: c in known && c.Tagged? && c.block == t)
  }

  /** Terms an attacker comes to know one after another, from what it overhears and the secrets it has. */
  ghost predicate Attack(secrets: iset<nat>, overheard: iset<Term>, trace: seq<Term>)
  {
    forall k :: 0 <= k < |trace| ==> trace[k] in overheard || Makes(secrets, trace[..k], trace[k])
  }

  /** The attacker has neither side of the shared secret, nor the key. */
  predicate Beyond(secrets: iset<nat>, secret: Term)
  {
    secret.Key? || (secret.Shared? && secret.low !in secrets && secret.high !in secrets)
  }

  lemma MadeIsClean(secret: Term, honest: iset<Term>, secrets: iset<nat>, known: seq<Term>, t: Term)
    requires SealedUnder(secret, honest) && Beyond(secrets, secret) && Makes(secrets, known, t)
    requires forall k :: 0 <= k < |known| ==> Clean(secret, honest, known[k])
    ensures Clean(secret, honest, t)
  {
    if c :| c in known && c.Sealed? && c.key in known && c.plain == t {
      if c in honest { ThroughIsNotClean(secret, honest, c.key); }
    }
  }

  /** Whatever the attacker does, no term it comes to know shows the secret. */
  lemma {:induction false} AttackStaysClean(secret: Term, honest: iset<Term>, secrets: iset<nat>,
                                            overheard: iset<Term>, trace: seq<Term>)
    requires SealedUnder(secret, honest) && Beyond(secrets, secret) && Attack(secrets, overheard, trace)
    requires forall t :: t in overheard ==> Clean(secret, honest, t)
    ensures forall k :: 0 <= k < |trace| ==> Clean(secret, honest, trace[k])
  {
    hide Makes, Clean;
    if |trace| > 0 {
      var n := |trace| - 1;
      forall k | 0 <= k < n ensures trace[..n][k] in overheard || Makes(secrets, trace[..n][..k], trace[..n][k]) {
        assert trace[..n][..k] == trace[..k];
      }
      AttackStaysClean(secret, honest, secrets, overheard, trace[..n]);
      if trace[n] !in overheard { MadeIsClean(secret, honest, secrets, trace[..n], trace[n]); }
      assert forall k :: 0 <= k < n ==> trace[k] == trace[..n][k];
    }
  }

  /** So a ciphertext under a key made from the secret is one that an honest party sealed. */
  lemma SealedByHonest(secret: Term, honest: iset<Term>, secrets: iset<nat>, overheard: iset<Term>,
                       trace: seq<Term>, c: Term)
    requires SealedUnder(secret, honest) && Beyond(secrets, secret) && Attack(secrets, overheard, trace)
    requires forall t :: t in overheard ==> Clean(secret, honest, t)
    requires c in trace && c.Sealed? && Through(secret, c.key)
    ensures c in honest
  {
    AttackStaysClean(secret, honest, secrets, overheard, trace);
    ThroughIsNotClean(secret, honest, c.key);
  }

  /** The first message authenticates the initiator. If a responder accepts a message and learns the static key of
      someone whose secret the attacker does not have, then whatever the attacker overheard and made, the payload was
      sealed by a holder of one of the two static secrets. */
  lemma FirstIsAuthentic(r: nat, preshared: Term, prologue: Term, m: Wire1, i: nat,
                         honest: iset<Term>, secrets: iset<nat>, overheard: iset<Term>, trace: seq<Term>)
    requires var (h, got) := Read1(Create(false, r, ZERO_KEY, preshared, prologue).value, m);
             got.Ok? && h.remoteStatic == Public(i)
    requires i !in secrets && r !in secrets
    requires SealedUnder(Dh(r, Public(i)).value, honest) && Attack(secrets, overheard, trace)
    requires forall t :: t in overheard ==> Clean(Dh(r, Public(i)).value, honest, t)
    requires m.Wire1? && m.payload in trace
    ensures m.payload in honest
  {
    FirstIsAccepted(r, preshared, prologue, m);
    LastHolds(Chain([m.ephemeral, Dh(r, m.ephemeral).value]), Dh(r, Public(i)).value);
    hide Read1, Create, Chain, Hkdf, Clean;
    SealedByHonest(Dh(r, Public(i)).value, honest, secrets, overheard, trace, m.payload);
  }

  /** Where neither of them sealed anything with their shared secret, the attacker has no message to be accepted. */
  lemma NoForgedFirst(r: nat, preshared: Term, prologue: Term, m: Wire1, i: nat,
                      secrets: iset<nat>, overheard: iset<Term>, trace: seq<Term>)
    requires var (h, got) := Read1(Create(false, r, ZERO_KEY, preshared, prologue).value, m);
             got.Ok? && h.remoteStatic == Public(i)
    requires i !in secrets && r !in secrets && Attack(secrets, overheard, trace) && m.Wire1?
    requires forall t :: t in overheard ==> Clean(Dh(r, Public(i)).value, iset{}, t)
    ensures m.payload !in trace
  {
    hide Read1, Create, Clean;
    if m.payload in trace {
      FirstIsAuthentic(r, preshared, prologue, m, i, iset{}, secrets, overheard, trace);
    }
  }

  /** And if what initiators with that key wrote for this responder is all that was sealed with the shared secret, the
      responder has read the whole of one such message, under the same prologue. */
  lemma FirstIsOneWritten(r: nat, preshared: Term, prologue: Term, m: Wire1, i: nat, runs: iset<Setup>,
                          secrets: iset<nat>, overheard: iset<Term>, trace: seq<Term>)
    requires var (h, got) := Read1(Create(false, r, ZERO_KEY, preshared, prologue).value, m);
             got.Ok? && h.remoteStatic == Public(i)
    requires i !in secrets && r !in secrets && Attack(secrets, overheard, trace) && m.Wire1? && m.payload in trace
    requires forall u :: u in runs ==> Initiated(u).1.Ok? && u.initiatorStatic == i && u.expected == Public(r)
    requires var honest := iset u | u in runs :: Initiated(u).1.value.payload;
             forall t :: t in overheard ==> Clean(Dh(r, Public(i)).value, honest, t)
    ensures exists u :: u in runs && u.initiatorPrologue == prologue && m == Initiated(u).1.value
  {
    var honest := iset u | u in runs :: Initiated(u).1.value.payload;
    var ss := Dh(r, Public(i)).value;
    forall t | t in honest ensures t.Sealed? && Through(ss, t.key) {
      var u :| u in runs && t == Initiated(u).1.value.payload;
      WrittenUnderShared(u, r);
    }
    FirstIsAuthentic(r, preshared, prologue, m, i, honest, secrets, overheard, trace);
    var u :| u in runs && m.payload == Initiated(u).1.value.payload;
    var v := u.(responderStatic := r, responderKey := preshared, responderPrologue := prologue);
    assert Initiated(v) == Initiated(u);
    FirstMessageAgreement(v, m);
  }

  lemma WrittenUnderShared(u: Setup, r: nat)
    requires Initiated(u).1.Ok? && u.expected == Public(r)
    ensures var m, ss := Initiated(u).1.value, Dh(r, Public(u.initiatorStatic)).value;
            m.Wire1? && m.payload.Sealed? && Through(ss, m.payload.key)
  {
    FirstIsWritten(u);
    DhCommutes(u.initiatorStatic, r);
    var m := Initiated(u).1.value;
    var es, ss := Dh(u.initiatorEphemeral, u.expected).value, Dh(u.initiatorStatic, u.expected).value;
    LastHolds(Chain([m.ephemeral, es]), ss);
  }

  /** The second message is sealed under every secret of the handshake: es and ss of the first message, ee, se and the
      preshared key. */
  lemma SecondKeyHolds(u: Setup, w: Wire2)
    requires Initiated(u).1.Ok? && Initiated(u).0.Ok? && w.Wire2? && Read2(Initiated(u).0.value, w).1.Ok?
    ensures w.payload.Sealed?
    ensures var es, ss := Dh(u.initiatorEphemeral, u.expected), Dh(u.initiatorStatic, u.expected);
            var ee, se := Dh(u.initiatorEphemeral, w.ephemeral), Dh(u.initiatorStatic, w.ephemeral);
            && es.Some? && ss.Some? && ee.Some? && se.Some?
            && Through(es.value, w.payload.key) && Through(ss.value, w.payload.key)
            && Through(ee.value, w.payload.key) && Through(se.value, w.payload.key)
            && Through(u.initiatorKey, w.payload.key)
  {
    SecondIsAccepted(u, w);
    FirstIsWritten(u);
    hide Initiated, Read2, Hkdf, Chain, Dh, IsFirst;
    var e := Initiated(u).1.value.ephemeral;
    var es, ss := Dh(u.initiatorEphemeral, u.expected).value, Dh(u.initiatorStatic, u.expected).value;
    var ee, se := Dh(u.initiatorEphemeral, w.ephemeral).value, Dh(u.initiatorStatic, w.ephemeral).value;
    var inputs := [e, es, ss] + [w.ephemeral, ee, se];
    assert inputs[1] == es && inputs[2] == ss && inputs[4] == ee && inputs[5] == se;
    ChainHolds(inputs, 1, u.initiatorKey);
    ChainHolds(inputs, 2, u.initiatorKey);
    ChainHolds(inputs, 4, u.initiatorKey);
    ChainHolds(inputs, 5, u.initiatorKey);
    LastHolds(Chain(inputs), u.initiatorKey);
  }

  /** The second message authenticates the responder. Take as the secret the one of the initiator's ephemeral and the
      responder's static key, that of the two static keys, or the preshared key: if the attacker has no part in one of
      them, a second message the initiator accepts was sealed by an honest party. */
  lemma SecondIsAuthentic(u: Setup, w: Wire2, secret: Term, honest: iset<Term>, secrets: iset<nat>,
                          overheard: iset<Term>, trace: seq<Term>)
    requires Initiated(u).1.Ok? && Initiated(u).0.Ok? && w.Wire2? && Read2(Initiated(u).0.value, w).1.Ok?
    requires Some(secret) == Dh(u.initiatorEphemeral, u.expected) || Some(secret) == Dh(u.initiatorStatic, u.expected)
             || secret == u.initiatorKey
    requires Beyond(secrets, secret) && SealedUnder(secret, honest) && Attack(secrets, overheard, trace)
    requires forall t :: t in overheard ==> Clean(secret, honest, t)
    requires w.payload in trace
    ensures w.payload in honest
  {
    SecondKeyHolds(u, w);
    hide Initiated, Read2, Clean, Through;
    SealedByHonest(secret, honest, secrets, overheard, trace, w.payload);
  }

  /** The initiator sends with the first and receives with the second key split from everything mixed in. */
  lemma TrafficKeysAre(u: Setup, w: Wire2)
    requires Initiated(u).1.Ok? && Initiated(u).0.Ok? && w.Wire2? && Read2(Initiated(u).0.value, w).1.Ok?
    ensures var m, keys := Initiated(u).1.value, Result(Read2(Initiated(u).0.value, w).0);
            var es, ss := Dh(u.initiatorEphemeral, u.expected).value, Dh(u.initiatorStatic, u.expected).value;
            var ee, se := Dh(u.initiatorEphemeral, w.ephemeral), Dh(u.initiatorStatic, w.ephemeral);
            && m.Wire1? && ee.Some? && se.Some? && keys.Ok?
            && var o := Hkdf(Chain([m.ephemeral, es, ss, w.ephemeral, ee.value, se.value, u.initiatorKey]), EMPTY);
               keys.value.send == o.first && keys.value.receive == o.second
  {
    hide Initiated, Read2, Hkdf, Chain, Dh, Transcript1, IsFirst;
    FirstIsWritten(u);
    SecondIsAccepted(u, w);
    var e := Initiated(u).1.value.ephemeral;
    var es, ss := Dh(u.initiatorEphemeral, u.expected).value, Dh(u.initiatorStatic, u.expected).value;
    var ee, se := Dh(u.initiatorEphemeral, w.ephemeral).value, Dh(u.initiatorStatic, w.ephemeral).value;
    assert Ingredients([e, es, ss], w.ephemeral, ee, se, u.initiatorKey)
        == [e, es, ss, w.ephemeral, ee, se, u.initiatorKey];
  }

  /** The traffic keys stay secret: as long as the attacker has no part in one of the secrets mixed in, it comes to know
      neither. */
  lemma TrafficKeysAreSecret(u: Setup, w: Wire2, secret: Term, honest: iset<Term>, secrets: iset<nat>,
                             overheard: iset<Term>, trace: seq<Term>)
    requires Initiated(u).1.Ok? && Initiated(u).0.Ok? && w.Wire2? && Read2(Initiated(u).0.value, w).1.Ok?
    requires || Some(secret) == Dh(u.initiatorEphemeral, u.expected)
             || Some(secret) == Dh(u.initiatorStatic, u.expected)
             || Some(secret) == Dh(u.initiatorEphemeral, w.ephemeral)
             || Some(secret) == Dh(u.initiatorStatic, w.ephemeral)
             || secret == u.initiatorKey
    requires Beyond(secrets, secret) && SealedUnder(secret, honest) && Attack(secrets, overheard, trace)
    requires forall t :: t in overheard ==> Clean(secret, honest, t)
    ensures var keys := Result(Read2(Initiated(u).0.value, w).0);
            keys.Ok? && keys.value.send !in trace && keys.value.receive !in trace
  {
    hide Initiated, Read2, Hkdf, Chain, Dh, IsFirst, Clean, Through, Transcript1;
    SecondIsAccepted(u, w);
    FirstIsWritten(u);
    var h := Read2(Initiated(u).0.value, w).0;
    var e := Initiated(u).1.value.ephemeral;
    var es, ss := Dh(u.initiatorEphemeral, u.expected).value, Dh(u.initiatorStatic, u.expected).value;
    var ee, se := Dh(u.initiatorEphemeral, w.ephemeral).value, Dh(u.initiatorStatic, w.ephemeral).value;
    var inputs := Ingredients([e, es, ss], w.ephemeral, ee, se, u.initiatorKey);
    assert inputs == [e, es, ss, w.ephemeral, ee, se, u.initiatorKey];
    var k := if secret == es then 1 else if secret == ss then 2 else if secret == ee then 4 else if secret == se then 5
             else 6;
    assert inputs[k] == secret;
    ChainHolds(inputs, k, EMPTY);
    AttackStaysClean(secret, honest, secrets, overheard, trace);
    var o := Hkdf(h.symmetric.chaining, EMPTY);
    ThroughIsNotClean(secret, honest, o.first);
    ThroughIsNotClean(secret, honest, o.second);
  }

  // ----- rejected second messages -----

  /** The handshake after trying the messages one after another, stopping at none. */
  function ReadAll(h: Handshake, ws: seq<Wire2>): (r: Handshake)
  {
    if |ws| == 0 then h else Read2(ReadAll(h, ws[..|ws| - 1]), ws[|ws| - 1]).0
  }

  /** Any number of rejected second messages leaves the outcome of the next one unchanged. */
  lemma {:induction false} RejectedLeaveNoTrace(h: Handshake, ws: seq<Wire2>, w: Wire2)
    requires forall k :: 0 <= k < |ws| ==> Read2(h, ws[k]).1.Failed?
    ensures ReadAll(h, ws) == h && Read2(ReadAll(h, ws), w) == Read2(h, w)
  {
    hide Read2;
    if |ws| > 0 { RejectedLeaveNoTrace(h, ws[..|ws| - 1], ws[|ws| - 1]); }
  }

  // ----- the class -----

  class NoiseHandshake {
    var initiator: bool
    var symmetric: Symmetric
    var localStatic: nat
    var localEphemeral: nat
    var remoteStatic: Term
    var remoteEphemeral: Term
    var preshared: Term
    var hasRemoteStatic: bool
    var sent: bool
    var read: bool
    var finished: bool

    ghost function Model(): (h: Handshake)
      reads this
    {
      Handshake(initiator, symmetric, localStatic, localEphemeral, remoteStatic, remoteEphemeral, preshared,
                hasRemoteStatic, sent, read, finished)
    }

    constructor (h: Handshake)
      ensures Model() == h
    {
      initiator, symmetric, localStatic, localEphemeral := h.initiator, h.symmetric, h.localStatic, h.localEphemeral;
      remoteStatic, remoteEphemeral, preshared := h.remoteStatic, h.remoteEphemeral, h.preshared;
      hasRemoteStatic, sent, read, finished := h.hasRemoteStatic, h.sent, h.read, h.finished;
    }

    static method New(initiator: bool, localStatic: nat, remoteStatic: Term, preshared: Term, prologue: Term)
      returns (r: Outcome<NoiseHandshake>)
      ensures r.Ok? ==> fresh(r.value)
      ensures match Create(initiator, localStatic, remoteStatic, preshared, prologue)
              case Failed(e) => r == Failed(e)
              case Ok(h) => r.Ok? && r.value.Model() == h
    {
      hide Hkdf;
      var h := new NoiseHandshake(Handshake(initiator, INITIAL, localStatic, 0, ZERO_KEY, ZERO_KEY, preshared,
                                            false, false, false, false));
      h.symmetric := MixHash(h.symmetric, prologue);
      if initiator {
        if remoteStatic == ZERO_KEY { return Failed(MissingRemoteStatic); }
        h.remoteStatic := remoteStatic;
        h.hasRemoteStatic := true;
        h.symmetric := MixHash(h.symmetric, remoteStatic);
      } else {
        h.symmetric := MixHash(h.symmetric, Public(localStatic));
      }
      return Ok(h);
    }

    method WriteMessage1(payload: Term, ephemeral: nat) returns (r: Outcome<Wire1>)
      modifies this
      ensures (Model(), r) == Write1(old(Model()), payload, ephemeral)
    {
      hide Hkdf, Dh;
      if !initiator || sent || finished { return Failed(InvalidState); }
      if !hasRemoteStatic { return Failed(MissingRemoteStatic); }
      localEphemeral := ephemeral;
      symmetric := MixHash(symmetric, Public(localEphemeral));
      symmetric := MixKey(symmetric, Public(localEphemeral));
      var es := Dh(localEphemeral, remoteStatic);
      if es.None? { return Failed(BadPublicKey); }
      symmetric := MixKey(symmetric, es.value);
      var (withIdentity, identity) := EncryptAndHash(symmetric, Public(localStatic));
      symmetric := withIdentity;
      var ss := Dh(localStatic, remoteStatic);
      if ss.None? { return Failed(BadPublicKey); }
      symmetric := MixKey(symmetric, ss.value);
      var (withPayload, text) := EncryptAndHash(symmetric, payload);
      symmetric := withPayload;
      sent := true;
      return Ok(Wire1(Public(localEphemeral), identity, text));
    }

    method ReadMessage1(m: Wire1) returns (r: Outcome<Term>)
      modifies this
      ensures (Model(), r) == Read1(old(Model()), m)
    {
      hide Hkdf, Dh;
      if initiator || read || finished { return Failed(InvalidState); }
      if m.Short1? { return Failed(MessageTooShort); }
      remoteEphemeral := m.ephemeral;
      symmetric := MixHash(symmetric, remoteEphemeral);
      symmetric := MixKey(symmetric, remoteEphemeral);
      var es := Dh(localStatic, remoteEphemeral);
      if es.None? { return Failed(BadPublicKey); }
      symmetric := MixKey(symmetric, es.value);
      var identity := DecryptAndHash(symmetric, m.identity);
      if identity.Failed? { return Failed(identity.error); }
      symmetric, remoteStatic, hasRemoteStatic := identity.value.0, identity.value.1, true;
      var ss := Dh(localStatic, remoteStatic);
      if ss.None? { return Failed(BadPublicKey); }
      symmetric := MixKey(symmetric, ss.value);
      var payload := DecryptAndHash(symmetric, m.payload);
      if payload.Failed? { return Failed(payload.error); }
      symmetric, read := payload.value.0, true;
      return Ok(payload.value.1);
    }

    method WriteMessage2(payload: Term, ephemeral: nat) returns (r: Outcome<Wire2>)
      modifies this
      ensures (Model(), r) == Write2(old(Model()), payload, ephemeral)
    {
      hide Hkdf, Dh;
      if initiator || !read || finished { return Failed(InvalidState); }
      localEphemeral := ephemeral;
      symmetric := MixHash(symmetric, Public(localEphemeral));
      symmetric := MixKey(symmetric, Public(localEphemeral));
      var ee := Dh(localEphemeral, remoteEphemeral);
      if ee.None? { return Failed(BadPublicKey); }
      symmetric := MixKey(symmetric, ee.value);
      var se := Dh(localEphemeral, remoteStatic);
      if se.None? { return Failed(BadPublicKey); }
      symmetric := MixKey(symmetric, se.value);
      symmetric := MixKeyAndHash(symmetric, preshared);
      var (withPayload, text) := EncryptAndHash(symmetric, payload);
      symmetric := withPayload;
      finished := true;
      return Ok(Wire2(Public(localEphemeral), text));
    }

    /** The state saved before reading is put back when the message is rejected. */
    method ReadMessage2(m: Wire2) returns (r: Outcome<Term>)
      modifies this
      ensures (Model(), r) == Read2(old(Model()), m)
    {
      hide Hkdf, Dh;
      if !initiator || !sent || finished { return Failed(InvalidState); }
      if m.Short2? { return Failed(MessageTooShort); }
      var savedSymmetric, savedEphemeral := symmetric, remoteEphemeral;
      r := ReadMessage2Unchecked(m);
      if r.Failed? {
        symmetric := savedSymmetric;
        remoteEphemeral := savedEphemeral;
      }
    }

    method ReadMessage2Unchecked(m: Wire2) returns (r: Outcome<Term>)
      requires initiator && sent && !finished && m.Wire2?
      modifies this
      ensures r == Read2(old(Model()), m).1
      ensures r.Ok? ==> Model() == Read2(old(Model()), m).0
      ensures r.Failed? ==>
                Model() == old(Model()).(symmetric := symmetric, remoteEphemeral := remoteEphemeral)
    {
      hide Hkdf, Dh;
      remoteEphemeral := m.ephemeral;
      symmetric := MixHash(symmetric, remoteEphemeral);
      symmetric := MixKey(symmetric, remoteEphemeral);
      var ee := Dh(localEphemeral, remoteEphemeral);
      if ee.None? { return Failed(BadPublicKey); }
      symmetric := MixKey(symmetric, ee.value);
      var se := Dh(localStatic, remoteEphemeral);
      if se.None? { return Failed(BadPublicKey); }
      symmetric := MixKey(symmetric, se.value);
      symmetric := MixKeyAndHash(symmetric, preshared);
      var payload := DecryptAndHash(symmetric, m.payload);
      if payload.Failed? { return Failed(payload.error); }
      symmetric, finished := payload.value.0, true;
      return Ok(payload.value.1);
    }

    method GetResult() returns (r: Outcome<Keys>)
      ensures r == Result(Model())
    {
      if !finished { return Failed(InvalidState); }
      var (first, second) := Split(symmetric);
      if initiator { return Ok(Keys(first, second, symmetric.hash, remoteStatic)); }
      return Ok(Keys(second, first, symmetric.hash, remoteStatic));
    }
  }
}
