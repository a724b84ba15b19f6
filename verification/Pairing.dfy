/**
 The pairing server: the pair-setup and pair-verify state machines over TLV bodies. Ciphers,
 signatures and key agreement are parameters.
 */
module Pairing {
  import opened Bytes
  import opened Srp
  import opened TlvFormat

  type Key = s: seq<byte> | |s| == 32 witness Zeros(32)

  type Signature = s: seq<byte> | |s| == 64 witness Zeros(64)

  datatype Encrypted = Encrypted(ciphertext: seq<byte>, tag: Block)

  /**
   The foreign primitives. decrypt is None when the tag does not verify, sign when the private key
   cannot be loaded, agree when the peer's public key cannot.
   */
  datatype Crypto = Crypto(
    sha512: Hash,
    hkdf: (seq<byte>, seq<byte>, seq<byte>) -> Key,             // input key, salt, info
    encrypt: (Key, seq<byte>, seq<byte>) -> Encrypted,          // key, nonce, plaintext
    decrypt: (Key, seq<byte>, Encrypted) -> Option<seq<byte>>,
    sign: (Key, seq<byte>) -> Option<Signature>,
    agree: (Key, Key) -> Option<Key>,                           // X25519: private key, peer's public key
    publicKey: Key -> Key)

  const TLV_IDENTIFIER: byte := 0x01
  const TLV_SALT: byte := 0x02
  const TLV_PUBLIC_KEY: byte := 0x03
  const TLV_PROOF: byte := 0x04
  const TLV_ENCRYPTED_DATA: byte := 0x05
  const TLV_STATE: byte := 0x06
  const TLV_ERROR: byte := 0x07
  const TLV_SIGNATURE: byte := 0x0A

  const SRP_DEFAULT_PIN := Ascii("3939")
  const SRP_USERNAME := Ascii("Pair-Setup")
  const OUR_IDENTIFIER := Ascii("90:B9:31:AC:86:A0")

  /** The SRP part of the context: it lives from M1 to M5. */
  datatype SrpState = SrpState(salt: Block, b: Key, verifier: seq<byte>, sessionKey: Digest, hasSessionKey: bool)

  /** The key-agreement part of the context: it lives from verify M1 to verify M3. */
  datatype VerifyKeys = VerifyKeys(shared: Key, encKey: Key, ourEcdhPk: Key, clientEcdhPk: Key, clientEcdhPkSet: bool)

  /** struct pair_ctx_s */
  datatype Context = Context(
    ourSk: Key, ourPk: Key, pin: seq<byte>, srp: SrpState, clientPk: Key, clientPkSet: bool,
    setupState: nat, verifyState: nat, keys: VerifyKeys)

  datatype Handled = Handled(ctx: Context, reply: seq<byte>)

  datatype Answer = Answer(ctx: Context, reply: Option<seq<byte>>)

  /** What M1 draws at random: the 128-bit salt number, as its bytes, and the private ephemeral. */
  datatype Random = Random(salt: Block, b: Key)
  {
    function Number(): SaltNumber {
      FromBytesBound(salt);
      FromBytes(salt)
    }

    lemma Padded()
      ensures |ToBytes(Number())| <= SRP_SALT_BYTES && PadTo(Number(), SRP_SALT_BYTES) == salt
    {
      PadFromBytes(salt);
    }
  }

  /** The PIN in use: the default when none is given, and at most fifteen characters of it. */
  function ConfiguredPin(pin: Option<seq<byte>>): seq<byte> {
    match pin
    case None => SRP_DEFAULT_PIN
    case Some(p) => p[..Min(|p|, 15)]
  }

  /** pair_ctx_create */
  function Create(sk: Key, pk: Key, pin: Option<seq<byte>>): Context {
    Context(sk, pk, ConfiguredPin(pin), SrpState(Zeros(16), Zeros(32), [], Zeros(64), false), Zeros(32), false, 0, 0,
            VerifyKeys(Zeros(32), Zeros(32), Zeros(32), Zeros(32), false))
  }

  function ErrorItems(state: byte, code: byte): seq<Item> {
    [Item(TLV_STATE, [state]), Item(TLV_ERROR, [code])]
  }

  function MakeError(state: byte, code: byte): seq<byte> {
    Build(ErrorItems(state, code))
  }

  // ----- pair-setup -----

  /** M1: forget any earlier attempt, create salt and verifier from the PIN, send salt and B. */
  function SetupM1(P: Crypto, G: Group, ctx: Context, r: Random): Handled {
    var reset := ctx.(srp := ctx.srp.(verifier := [], hasSessionKey := false), clientPkSet := false);
    var sv := CreateSaltVerifier(P.sha512, G, SRP_USERNAME, ctx.pin, r.Number());
    var started := reset.(srp := reset.srp.(salt := sv.salt, verifier := sv.verifier, b := r.b));
    match CreateB(P.sha512, G, sv.verifier, r.b)
    case None => Handled(started, MakeError(2, 1))
    case Some(B) =>
      Handled(started.(setupState := 2),
              Build([Item(TLV_STATE, [2]), Item(TLV_SALT, sv.salt), Item(TLV_PUBLIC_KEY, B)]))
  }

  datatype Accepted = Accepted(sessionKey: Digest, serverM2: Digest)

  /** The check of M3: the key and the server's proof when A and the client's proof are accepted. */
  function CheckM3(P: Crypto, G: Group, srp: SrpState, items: seq<Item>): Option<Accepted> {
    match (Find(items, TLV_PUBLIC_KEY), Find(items, TLV_PROOF))
    case (Some(pk), Some(proof)) =>
      if |proof.data| != SRP_HASH_LEN then None
      else
        (match VerifierNew(P.sha512, G, SRP_USERNAME, srp.salt, srp.verifier, pk.data, srp.b)
         case None => None
         case Some(ver) =>
           var v := Verify(ver, proof.data);
           if v.serverM2.None? then None else Some(Accepted(v.ver.sessionKey, v.serverM2.value)))
    case _ => None
  }

  /** M3: verify the client's proof, answer with the server's. */
  function SetupM3(P: Crypto, G: Group, ctx: Context, items: seq<Item>): Handled {
    match CheckM3(P, G, ctx.srp, items)
    case None => Handled(ctx, MakeError(4, 2))
    case Some(a) =>
      Handled(ctx.(srp := ctx.srp.(sessionKey := a.sessionKey, hasSessionKey := true), setupState := 4),
              Build([Item(TLV_STATE, [4]), Item(TLV_PROOF, a.serverM2)]))
  }

  function SetupEncryptKey(P: Crypto, sessionKey: Digest): Key {
    P.hkdf(sessionKey, Ascii("Pair-Setup-Encrypt-Salt"), Ascii("Pair-Setup-Encrypt-Info"))
  }

  function Unpack(data: seq<byte>): Encrypted
    requires |data| >= 16
  {
    Encrypted(data[..|data| - 16], data[|data| - 16..])
  }

  function Pack(e: Encrypted): (r: seq<byte>)
    ensures |r| == |e.ciphertext| + 16
  {
    e.ciphertext + e.tag
  }

  /** The plaintext of M5, when there is one. */
  function OpenM5(P: Crypto, srp: SrpState, items: seq<Item>): Option<seq<byte>> {
    if !srp.hasSessionKey then None
    else match Find(items, TLV_ENCRYPTED_DATA)
      case None => None
      case Some(enc) =>
        if |enc.data| < 17 then None
        else match P.decrypt(SetupEncryptKey(P, srp.sessionKey), Ascii("PS-Msg05"), Unpack(enc.data))
          case None => None
          case Some(text) => if text == [] then None else Some(text)
  }

  /** The client's long-term key, if the sub-TLV carries one. */
  function LearnClientPk(ctx: Context, text: seq<byte>): Context {
    match Find(Parse(text), TLV_PUBLIC_KEY)
    case Some(pk) => if |pk.data| >= 32 then ctx.(clientPk := pk.data[..32], clientPkSet := true) else ctx
    case None => ctx
  }

  /** Our signature; all zeros when our key cannot be loaded. */
  function SignOrZeros(P: Crypto, sk: Key, msg: seq<byte>): Signature {
    match P.sign(sk, msg)
    case None => Zeros(64)
    case Some(signature) => signature
  }

  function M6Items(P: Crypto, ctx: Context): seq<Item> {
    var accessoryX := P.hkdf(ctx.srp.sessionKey, Ascii("Pair-Setup-Accessory-Sign-Salt"), Ascii("Pair-Setup-Accessory-Sign-Info"));
    [Item(TLV_IDENTIFIER, OUR_IDENTIFIER), Item(TLV_PUBLIC_KEY, ctx.ourPk),
     Item(TLV_SIGNATURE, SignOrZeros(P, ctx.ourSk, accessoryX + OUR_IDENTIFIER + ctx.ourPk))]
  }

  /** M5: decrypt the client's sub-TLV, learn its key, answer with ours. */
  function SetupM5(P: Crypto, ctx: Context, items: seq<Item>): Handled {
    match OpenM5(P, ctx.srp, items)
    case None => Handled(ctx, MakeError(6, 2))
    case Some(text) =>
      var learned := LearnClientPk(ctx, text);
      if !learned.clientPkSet then Handled(learned, MakeError(6, 2))
      else
        var enc := P.encrypt(SetupEncryptKey(P, ctx.srp.sessionKey), Ascii("PS-Msg06"), Build(M6Items(P, learned)));
        if enc.ciphertext == [] then Handled(learned, MakeError(6, 1))
        else
          Handled(learned.(setupState := 6), Build([Item(TLV_STATE, [6]), Item(TLV_ENCRYPTED_DATA, Pack(enc))]))
  }

  /** The one-byte State of a request; without it there is no reply. */
  function StateOf(body: seq<byte>): Option<byte> {
    match Find(Parse(body), TLV_STATE)
    case Some(item) => if |item.data| == 1 then Some(item.data[0]) else None
    case None => None
  }

  function SetupHandle(P: Crypto, G: Group, ctx: Context, body: seq<byte>, r: Random): Answer {
    match StateOf(body)
    case None => Answer(ctx, None)
    case Some(state) =>
      var h := if state == 1 then SetupM1(P, G, ctx, r)
               else if state == 3 then SetupM3(P, G, ctx, Parse(body))
               else if state == 5 then SetupM5(P, ctx, Parse(body))
               else Handled(ctx, MakeError((state + 1) % 256, 1));
      Answer(h.ctx, Some(h.reply))
  }

  // ----- pair-verify -----

  function VerifyEncryptKey(P: Crypto, shared: Key): Key {
    P.hkdf(shared, Ascii("Pair-Verify-Encrypt-Salt"), Ascii("Pair-Verify-Encrypt-Info"))
  }

  function VerifyM2Message(ourEcdhPk: Key, clientEcdhPk: Key): seq<byte> {
    ourEcdhPk + OUR_IDENTIFIER + clientEcdhPk
  }

  function VerifyM2Items(signature: Signature): seq<Item> {
    [Item(TLV_IDENTIFIER, OUR_IDENTIFIER), Item(TLV_SIGNATURE, signature)]
  }

  /**
   M1: agree on a secret with a fresh key and send our public key and signature. The key is None
   when none could be generated; whatever fails, what was stored before stays.
   */
  function VerifyM1(P: Crypto, ctx: Context, items: seq<Item>, ecdhSk: Option<Key>): Handled {
    match Find(items, TLV_PUBLIC_KEY)
    case None => Handled(ctx, MakeError(2, 2))
    case Some(pk) =>
      if |pk.data| != 32 then Handled(ctx, MakeError(2, 2))
      else
        var met := ctx.(keys := ctx.keys.(clientEcdhPk := pk.data, clientEcdhPkSet := true));
        match ecdhSk
        case None => Handled(met, MakeError(2, 1))
        case Some(sk) =>
          match P.agree(sk, pk.data)
          case None => Handled(met, MakeError(2, 2))
          case Some(shared) =>
            VerifyM1Agreed(P, met.(keys := met.keys.(shared := shared, ourEcdhPk := P.publicKey(sk))))
  }

  /** The rest of M1, once the shared secret and our public key are stored. */
  function VerifyM1Agreed(P: Crypto, agreed: Context): Handled {
    match P.sign(agreed.ourSk, VerifyM2Message(agreed.keys.ourEcdhPk, agreed.keys.clientEcdhPk))
    case None => Handled(agreed, MakeError(2, 1))
    case Some(signature) =>
      var encKey := VerifyEncryptKey(P, agreed.keys.shared);
      var keyed := agreed.(keys := agreed.keys.(encKey := encKey));
      var enc := P.encrypt(encKey, Ascii("PV-Msg02"), Build(VerifyM2Items(signature)));
      if enc.ciphertext == [] then Handled(keyed, MakeError(2, 1))
      else
        Handled(keyed.(verifyState := 2),
                Build([Item(TLV_STATE, [2]), Item(TLV_PUBLIC_KEY, agreed.keys.ourEcdhPk), Item(TLV_ENCRYPTED_DATA, Pack(enc))]))
  }

  /** M3 is complete: it decrypts to an identifier and a signature of 64 bytes. */
  predicate VerifyM3Ok(P: Crypto, keys: VerifyKeys, items: seq<Item>) {
    match Find(items, TLV_ENCRYPTED_DATA)
    case None => false
    case Some(enc) =>
      && |enc.data| >= 16
      && match P.decrypt(keys.encKey, Ascii("PV-Msg03"), Unpack(enc.data))
         case None => false
         case Some(text) =>
           Find(Parse(text), TLV_IDENTIFIER).Some?
           && match Find(Parse(text), TLV_SIGNATURE)
              case None => false
              case Some(sig) => |sig.data| == 64
  }

  /** M3: the outcome of the signature check does not change the reply. */
  function VerifyM3(P: Crypto, ctx: Context, items: seq<Item>): Handled {
    if VerifyM3Ok(P, ctx.keys, items) then Handled(ctx.(verifyState := 4), Build([Item(TLV_STATE, [4])]))
    else Handled(ctx, MakeError(4, 2))
  }

  function VerifyHandle(P: Crypto, ctx: Context, body: seq<byte>, ecdhSk: Option<Key>): Answer {
    match StateOf(body)
    case None => Answer(ctx, None)
    case Some(state) =>
      var h := if state == 1 then VerifyM1(P, ctx, Parse(body), ecdhSk)
               else if state == 3 then VerifyM3(P, ctx, Parse(body))
               else Handled(ctx, MakeError((state + 1) % 256, 1));
      Answer(h.ctx, Some(h.reply))
  }

  // ----- every reply -----

  lemma ReplyParses(items: seq<Item>)
    requires |items| <= 3 && NoAdjacent(items)
    ensures Parse(Build(items)) == items
  {
    RoundTrip(items);
  }

  /** A reply names the next State; an Error item means that both state machines stay put. */
  predicate Disciplined(reply: seq<byte>, state: byte, before: nat, after: nat) {
    && Find(Parse(reply), TLV_STATE) == Some(Item(TLV_STATE, [(state + 1) % 256]))
    && after == (if Find(Parse(reply), TLV_ERROR).Some? then before else (state + 1) % 256)
  }

  lemma ErrorDisciplined(state: byte, next: byte, code: byte, s: nat)
    requires next == (state + 1) % 256
    ensures Disciplined(MakeError(next, code), state, s, s)
  {
    var items := ErrorItems(next, code);
    ReplyParses(items);
    assert items[1..][0] == items[1];
  }

  lemma SuccessDisciplined(items: seq<Item>, state: byte, next: byte, before: nat)
    requires 1 <= |items| <= 3 && NoAdjacent(items)
    requires next == (state + 1) % 256 && items[0] == Item(TLV_STATE, [next])
    requires forall i :: 0 <= i < |items| ==> items[i].kind != TLV_ERROR
    ensures Disciplined(Build(items), state, before, next)
  {
    ReplyParses(items);
    NotFound(items, TLV_ERROR);
  }

  lemma {:induction false} NotFound(items: seq<Item>, kind: byte)
    requires forall i :: 0 <= i < |items| ==> items[i].kind != kind
    ensures Find(items, kind) == None
  {
    if items != [] {
      NotFound(items[1..], kind);
    }
  }

  /** pair-setup, for every body: no reply and no change, or a disciplined reply. */
  lemma SetupReplies(P: Crypto, G: Group, ctx: Context, body: seq<byte>, r: Random)
    ensures var a := SetupHandle(P, G, ctx, body, r);
            && a.ctx.verifyState == ctx.verifyState && a.ctx.keys == ctx.keys
            && (a.reply.Some? <==> StateOf(body).Some?)
            && if a.reply.None? then a.ctx == ctx
               else Disciplined(a.reply.value, StateOf(body).value, ctx.setupState, a.ctx.setupState)
  {
    hide Parse, Disciplined, VerifierNew, CreateSaltVerifier, CreateB, Build, Find;
    if StateOf(body).Some? {
      var state := StateOf(body).value;
      var s, next := ctx.setupState, (state as int + 1) % 256;
      ErrorDisciplined(state, next, 1, s);
      ErrorDisciplined(state, next, 2, s);
      if state == 1 {
        var sv := CreateSaltVerifier(P.sha512, G, SRP_USERNAME, ctx.pin, r.Number());
        var B := CreateB(P.sha512, G, sv.verifier, r.b);
        if B.Some? {
          SuccessDisciplined([Item(TLV_STATE, [2]), Item(TLV_SALT, sv.salt), Item(TLV_PUBLIC_KEY, B.value)], 1, 2, s);
        }
      } else if state == 3 {
        var c := CheckM3(P, G, ctx.srp, Parse(body));
        if c.Some? {
          SuccessDisciplined([Item(TLV_STATE, [4]), Item(TLV_PROOF, c.value.serverM2)], 3, 4, s);
        }
      } else if state == 5 {
        SetupM5Replies(P, ctx, Parse(body));
      }
    }
  }

  lemma SetupM5Replies(P: Crypto, ctx: Context, items: seq<Item>)
    ensures var h := SetupM5(P, ctx, items);
            h.ctx.verifyState == ctx.verifyState && h.ctx.keys == ctx.keys
            && Disciplined(h.reply, 5, ctx.setupState, h.ctx.setupState)
  {
    hide Parse, Disciplined, Build, Find;
    ErrorDisciplined(5, 6, 1, ctx.setupState);
    ErrorDisciplined(5, 6, 2, ctx.setupState);
    var text := OpenM5(P, ctx.srp, items);
    if text.Some? {
      var learned := LearnClientPk(ctx, text.value);
      var enc := P.encrypt(SetupEncryptKey(P, ctx.srp.sessionKey), Ascii("PS-Msg06"), Build(M6Items(P, learned)));
      SuccessDisciplined([Item(TLV_STATE, [6]), Item(TLV_ENCRYPTED_DATA, Pack(enc))], 5, 6, ctx.setupState);
    }
  }

  /** pair-verify, for every body: no reply and no change, or a disciplined reply. */
  lemma VerifyReplies(P: Crypto, ctx: Context, body: seq<byte>, ecdhSk: Option<Key>)
    ensures var a := VerifyHandle(P, ctx, body, ecdhSk);
            && a.ctx == ctx.(verifyState := a.ctx.verifyState, keys := a.ctx.keys)
            && (a.reply.Some? <==> StateOf(body).Some?)
            && if a.reply.None? then a.ctx == ctx
               else Disciplined(a.reply.value, StateOf(body).value, ctx.verifyState, a.ctx.verifyState)
  {
    hide Parse, Disciplined, Build, Find, VerifyM3Ok;
    if StateOf(body).Some? {
      var state := StateOf(body).value;
      var s, next := ctx.verifyState, (state as int + 1) % 256;
      ErrorDisciplined(state, next, 1, s);
      ErrorDisciplined(state, next, 2, s);
      if state == 1 {
        VerifyM1Replies(P, ctx, Parse(body), ecdhSk);
      } else if state == 3 {
        SuccessDisciplined([Item(TLV_STATE, [4])], 3, 4, s);
      }
    }
  }

  lemma VerifyM1Replies(P: Crypto, ctx: Context, items: seq<Item>, ecdhSk: Option<Key>)
    ensures var h := VerifyM1(P, ctx, items, ecdhSk);
            && h.ctx == ctx.(verifyState := h.ctx.verifyState, keys := h.ctx.keys)
            && Disciplined(h.reply, 1, ctx.verifyState, h.ctx.verifyState)
  {
    hide Parse, Disciplined, Build, Find;
    ErrorDisciplined(1, 2, 1, ctx.verifyState);
    ErrorDisciplined(1, 2, 2, ctx.verifyState);
    var pk := Find(items, TLV_PUBLIC_KEY);
    if pk.Some? && |pk.value.data| == 32 && ecdhSk.Some? {
      var sk, clientPk: Key := ecdhSk.value, pk.value.data;
      var shared := P.agree(sk, clientPk);
      var signature := P.sign(ctx.ourSk, VerifyM2Message(P.publicKey(sk), clientPk));
      if shared.Some? && signature.Some? {
        var enc := P.encrypt(VerifyEncryptKey(P, shared.value), Ascii("PV-Msg02"), Build(VerifyM2Items(signature.value)));
        SuccessDisciplined([Item(TLV_STATE, [2]), Item(TLV_PUBLIC_KEY, P.publicKey(sk)), Item(TLV_ENCRYPTED_DATA, Pack(enc))],
                           1, 2, ctx.verifyState);
      }
    }
  }
}
