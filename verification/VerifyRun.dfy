/** An honest pair-verify: both sides end with one shared secret. */
module VerifyRun {
  import opened Bytes
  import opened TlvFormat
  import opened Pairing
  import opened PairingClient
  import opened Verdicts
  import opened HonestRun

  /** X25519: either private key with the other's public key gives the same secret. */
  ghost predicate AgreementLaw(P: Crypto) {
    forall a, b :: P.agree(a, P.publicKey(b)).Some? && P.agree(a, P.publicKey(b)) == P.agree(b, P.publicKey(a))
  }

  datatype VerifyClient = VerifyClient(sk: Key, identifier: seq<byte>, signature: Signature)

  function VerifyM1Body(P: Crypto, c: VerifyClient): seq<byte> {
    Build([Item(6, [1]), Item(3, P.publicKey(c.sk))])
  }

  function VerifyM3Text(c: VerifyClient): seq<byte> {
    Build([Item(1, c.identifier), Item(10, c.signature)])
  }

  function VerifyM3Body(P: Crypto, c: VerifyClient, encKey: Key): seq<byte> {
    Build([Item(6, [3]), Item(5, Seal(P, encKey, Ascii("PV-Msg03"), VerifyM3Text(c)))])
  }

  /** What the client makes of M2: the secret, and what the server says under it. */
  datatype Met = Met(shared: Key, server: seq<Item>)

  function OpenM2(P: Crypto, c: VerifyClient, reply: Option<seq<byte>>): Option<Met> {
    match Field(reply, 3)
    case None => None
    case Some(pk) =>
      if |pk| != 32 then None
      else
        match P.agree(c.sk, pk)
        case None => None
        case Some(shared) =>
          match Unseal(P, VerifyKey(P, shared), Ascii("PV-Msg02"), reply.value)
          case None => None
          case Some(text) => Some(Met(shared, Parse(text)))
  }

  datatype VerifyOutcome = Failed | Verified(ctx: Context, met: Met)

  /** ecdhSk is the key the server draws at M1, if it can; M3 draws none. */
  function Verify(P: Crypto, ctx: Context, c: VerifyClient, ecdhSk: Option<Key>): VerifyOutcome {
    var m2 := VerifyHandle(P, ctx, VerifyM1Body(P, c), ecdhSk);
    match OpenM2(P, c, m2.reply)
    case None => Failed
    case Some(met) =>
      var m4 := VerifyHandle(P, m2.ctx, VerifyM3Body(P, c, VerifyKey(P, met.shared)), ecdhSk);
      if Field(m4.reply, 6) == Some([4]) && Field(m4.reply, 7) == None then Verified(m4.ctx, met)
      else Failed
  }

  lemma VerifyM1Arrives(P: Crypto, ctx: Context, c: VerifyClient, sk: Key)
    requires AeadLaw(P) && AgreementLaw(P)
    ensures var m2 := VerifyHandle(P, ctx, VerifyM1Body(P, c), Some(sk));
            var ours, theirs := P.publicKey(sk), P.publicKey(c.sk);
            var shared := P.agree(sk, theirs).value;
            match P.sign(ctx.ourSk, VerifyMessage(ours, theirs))
            case None => OpenM2(P, c, m2.reply) == None
            case Some(signature) =>
              && m2.ctx == ctx.(verifyState := 2, keys := VerifyKeys(shared, VerifyKey(P, shared), ours, theirs, true))
              && OpenM2(P, c, m2.reply) == Some(Met(shared, VerifyText(signature)))
  {
    hide Build, Parse, Value, Ascii, VerifyKey, VerifyText, VerifyMessage, Seal, Unseal, VerifyHandle, AeadLaw;
    var ours, theirs := P.publicKey(sk), P.publicKey(c.sk);
    var shared := P.agree(sk, theirs).value;
    var body := VerifyM1Body(P, c);
    TwoItems([Item(6, [1]), Item(3, theirs)]);
    VerifyM1Exactness(P, ctx, body, Some(sk));
    var signature := P.sign(ctx.ourSk, VerifyMessage(ours, theirs));
    if signature.None? {
      TwoItems([Item(6, [2]), Item(7, [1])]);
    } else {
      M2Normal(signature.value);
      var key, text := VerifyKey(P, shared), Build(VerifyText(signature.value));
      var reply := [Item(6, [2]), Item(3, ours), Item(5, Seal(P, key, Ascii("PV-Msg02"), text))];
      ThreeItems(reply);
      SealOpens(P, key, Ascii("PV-Msg02"), text, Build(reply));
    }
  }

  lemma M2Normal(signature: Signature)
    ensures Build(VerifyText(signature)) != [] && Parse(Build(VerifyText(signature))) == VerifyText(signature)
  {
    hide Build, Parse, Ascii;
    ReplyParses(VerifyText(signature));
    BuildNotEmpty(VerifyText(signature));
  }

  lemma VerifyM3Arrives(P: Crypto, ctx: Context, c: VerifyClient, ecdhSk: Option<Key>)
    requires AeadLaw(P)
    ensures var m4 := VerifyHandle(P, ctx, VerifyM3Body(P, c, ctx.keys.encKey), ecdhSk);
            && m4.ctx == ctx.(verifyState := 4)
            && Field(m4.reply, 6) == Some([4]) && Field(m4.reply, 7) == None
  {
    hide Build, Parse, Value, Ascii, Seal, Unseal, VerifyHandle, AeadLaw;
    var key := ctx.keys.encKey;
    var body := VerifyM3Body(P, c, key);
    TwoItems([Item(6, [3]), Item(5, Seal(P, key, Ascii("PV-Msg03"), VerifyM3Text(c)))]);
    SealOpens(P, key, Ascii("PV-Msg03"), VerifyM3Text(c), body);
    M3Reads(c);
    VerifyM3Exactness(P, ctx, body, ecdhSk);
    OneItem(Item(6, [4]));
  }

  lemma M3Reads(c: VerifyClient)
    ensures Value(VerifyM3Text(c), 1) == Some(c.identifier) && Value(VerifyM3Text(c), 10) == Some(c.signature)
  {
    hide Build, Value;
    TwoItems([Item(1, c.identifier), Item(10, c.signature)]);
  }

  /**
   From any state of the server, and whatever signature the client sends: pair-verify ends in state
   4 exactly when the server could load its signing key; then its secret is the client's, and the
   client has read the server's signature over both ephemeral keys.
   */
  lemma HonestVerifyCompletes(P: Crypto, ctx: Context, c: VerifyClient, sk: Key)
    requires AeadLaw(P) && AgreementLaw(P)
    ensures var o := Verify(P, ctx, c, Some(sk));
            match P.sign(ctx.ourSk, VerifyMessage(P.publicKey(sk), P.publicKey(c.sk)))
            case None => o.Failed?
            case Some(signature) =>
              && o.Verified? && o.ctx.verifyState == 4 && o.ctx.setupState == ctx.setupState && o.ctx.srp == ctx.srp
              && Some(o.ctx.keys.shared) == Some(o.met.shared) == P.agree(c.sk, P.publicKey(sk))
              && o.met.server == VerifyText(signature)
  {
    hide VerifyHandle, OpenM2, Field, VerifyText, VerifyMessage, VerifyM1Body, VerifyM3Body, AeadLaw;
    VerifyM1Arrives(P, ctx, c, sk);
    var m2 := VerifyHandle(P, ctx, VerifyM1Body(P, c), Some(sk));
    VerifyM3Arrives(P, m2.ctx, c, Some(sk));
  }
}
