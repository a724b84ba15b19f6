/** An honest pair-setup: an RFC 5054 client with the right PIN against the server, message by message. */
module HonestRun {
  import opened Arithmetic
  import opened Bytes
  import opened Modular
  import opened Srp
  import opened TlvFormat
  import opened Pairing
  import opened PairingClient
  import opened Verdicts
  import opened PairingRuns
  import opened PairingOrigins

  /** The cipher opens what it sealed, and neither stretches nor shrinks it. */
  ghost predicate AeadLaw(P: Crypto) {
    forall key, nonce, text ::
      P.decrypt(key, nonce, P.encrypt(key, nonce, text)) == Some(text)
      && |P.encrypt(key, nonce, text).ciphertext| == |text|
  }

  // ----- the conversation -----

  datatype Outcome =
    | Aborted(ctx: Context)                                       // the client gave up after M2
    | Refused(ctx: Context, key: Digest)                          // the client did not accept M4 or M6
    | Completed(ctx: Context, key: Digest, accessory: seq<Item>)  // what M6 said about the server

  /** The value of one type in a reply. */
  function Field(reply: Option<seq<byte>>, kind: byte): Option<seq<byte>> {
    if reply.None? then None else Value(reply.value, kind)
  }

  function Converse(P: Crypto, G: Group, ctx: Context, c: Client, r: Random): Outcome {
    var m2 := SetupHandle(P, G, ctx, M1Body(), r);
    match (Field(m2.reply, 2), Field(m2.reply, 3))
    case (Some(salt), Some(bytesB)) =>
      var B := FromBytes(bytesB);
      if ClientGivesUp(P.sha512, G, c, B) then Aborted(m2.ctx)
      else AfterM2(P, G, m2.ctx, c, r, ProofsOf(P.sha512, G, salt, ClientExchange(P.sha512, G, c, salt, B), c.padded))
    case _ => Aborted(m2.ctx)
  }

  function AfterM2(P: Crypto, G: Group, ctx: Context, c: Client, r: Random, mine: Proofs): Outcome {
    var m4 := SetupHandle(P, G, ctx, M3Body(G, c, mine.M), r);
    if Field(m4.reply, 4) != Some(mine.hAmk) then Refused(m4.ctx, mine.sessionKey)
    else AfterM4(P, G, m4.ctx, c, r, mine.sessionKey)
  }

  function AfterM4(P: Crypto, G: Group, ctx: Context, c: Client, r: Random, key: Digest): Outcome {
    var m6 := SetupHandle(P, G, ctx, M5Body(P, c, key), r);
    match OpenM6(P, key, m6.reply)
    case None => Refused(m6.ctx, key)
    case Some(items) => Completed(m6.ctx, key, items)
  }

  // ----- the salt -----

  /** A hash that tells a salt of full length from a shorter one. */
  function LengthHash(x: seq<byte>): Digest {
    if |x| == 16 + 64 then Zeros(63) + [1] else Zeros(64)
  }

  lemma LeadingZeroHash(salt: Block, pin: seq<byte>)
    requires salt[0] == 0
    ensures ServerX(LengthHash, salt, pin) == 0 && ClientX(LengthHash, salt, pin) == 1
  {
    var inner := LengthHash(Ascii("Pair-Setup:") + pin);
    PadFromBytes(salt);
    var stripped := ToBytes(FromBytes(salt));
    assert salt == Zeros(16 - |stripped|) + stripped;
    assert |stripped| < 16;
    assert LengthHash(stripped + inner) == Zeros(64) + [];
    assert LengthHash(salt + inner) == Zeros(63) + [1];
    FromBytesLeadingZeros(64, []);
    FromBytesLeadingZeros(63, [1]);
    FromBytesOne(1);
  }

  /**
   The server hashes the salt without its leading zeros. Its x is the client's for every hash
   exactly when there are none.
   */
  lemma SaltExactness(salt: Block, pin: seq<byte>)
    ensures (forall H: Hash :: ServerX(H, salt, pin) == ClientX(H, salt, pin)) <==> salt[0] != 0
  {
    if salt[0] == 0 {
      LeadingZeroHash(salt, pin);
      assert ServerX(LengthHash, salt, pin) != ClientX(LengthHash, salt, pin);
    } else {
      PadFromBytes(salt);
    }
  }

  // ----- the two sides meet -----

  /** The public value of a server that has the PIN of the client. */
  function OfferedB(H: Hash, G: Group, c: Client, r: Random): nat {
    PublicB(H, G, PinVerifier(H, G, r.salt, c.pin), FromBytes(r.b))
  }

  /** What the server computes from its own values is what the client computes from its own. */
  lemma ExchangesMeet(H: Hash, G: Group, c: Client, r: Random)
    requires r.salt[0] != 0
    ensures Reckoned(H, G, PinVerifier(H, G, r.salt, c.pin), c.A(G), FromBytes(r.b))
            == ClientExchange(H, G, c, r.salt, OfferedB(H, G, c, r))
  {
    hide ClientX, ServerX, ClientK, ClientU, Pow, ServerSecret, ClientSecret, ServerB, FromBytes;
    var x, b, k := ClientX(H, r.salt, c.pin), FromBytes(r.b), ClientK(H, G);
    SaltExactness(r.salt, c.pin);
    var v, B := PinVerifier(H, G, r.salt, c.pin), OfferedB(H, G, c, r);
    var u := ClientU(H, G, c.A(G), B);
    PublicBMeets(G, k, v, b);
    SecretMeets(G, c.A(G), v, u, b);
    SecretsAgree(G, k, x, c.a, b, u);
  }

  // ----- the messages arrive -----

  /** The client reads salt and B as the server drew and computed them. */
  lemma M2Arrives(P: Crypto, G: Group, ctx: Context, r: Random)
    ensures var m2 := SetupHandle(P, G, ctx, M1Body(), r);
            && m2.ctx == AfterM1(P, G, ctx, r)
            && Field(m2.reply, 2) == (if G.GeneratorFits() then Some(r.salt) else None)
            && Field(m2.reply, 3)
               == if G.GeneratorFits()
                  then Some(ToBytes(PublicB(P.sha512, G, PinVerifier(P.sha512, G, r.salt, ctx.pin), FromBytes(r.b)))) else None
  {
    hide Build, Value, SetupHandle, PinVerifier, PublicB, FromBytes, ToBytes;
    var v := PinVerifier(P.sha512, G, r.salt, ctx.pin);
    var B := PublicB(P.sha512, G, v, FromBytes(r.b));
    TwoItems([Item(6, [1]), Item(0, [0])]);
    M1Exactness(P, G, ctx, M1Body(), r);
    TwoItems([Item(6, [2]), Item(7, [1])]);
    ThreeItems([Item(6, [2]), Item(2, r.salt), Item(3, ToBytes(B))]);
  }

  /** A proof the server can check installs its key, and its answer reaches the client. */
  lemma M3Arrives(P: Crypto, G: Group, ctx: Context, c: Client, r: Random, proof: Digest)
    ensures var body := M3Body(G, c, proof);
            var m4 := SetupHandle(P, G, ctx, body, r);
            && Value(body, 3) == Some(c.BytesA(G)) && Value(body, 4) == Some(proof)
            && m4.ctx == AfterM3(P, G, ctx, body)
            && Field(m4.reply, 4) == if ProvesKey(P, G, ctx.srp, body) then Some(ProvenBy(P, G, ctx.srp, body).hAmk) else None
  {
    hide Build, Value, SetupHandle, ProvesKey, ProvenBy;
    var body := M3Body(G, c, proof);
    ThreeItems([Item(6, [3]), Item(3, c.BytesA(G)), Item(4, proof)]);
    M3Exactness(P, G, ctx, body, r);
    TwoItems([Item(6, [4]), Item(7, [2])]);
    if ProvesKey(P, G, ctx.srp, body) {
      TwoItems([Item(6, [4]), Item(4, ProvenBy(P, G, ctx.srp, body).hAmk)]);
    }
  }

  lemma SealOpens(P: Crypto, key: Key, nonce: seq<byte>, text: seq<byte>, body: seq<byte>)
    requires AeadLaw(P) && Value(body, 5) == Some(Seal(P, key, nonce, text))
    ensures Unseal(P, key, nonce, body) == Some(text) && |Value(body, 5).value| == |text| + 16
    ensures P.encrypt(key, nonce, text).ciphertext == [] <==> text == []
  {
    hide Value;
    var e, d := P.encrypt(key, nonce, text), Seal(P, key, nonce, text);
    assert d[..|d| - 16] == e.ciphertext && d[|d| - 16..] == e.tag;
  }

  lemma BuildNotEmpty(items: seq<Item>)
    requires items != []
    ensures |Build(items)| > 0
  {
  }

  /** With the session key in common, M5 finishes the pairing and the client reads M6. */
  lemma M5Arrives(P: Crypto, G: Group, ctx: Context, c: Client, r: Random)
    requires AeadLaw(P) && ctx.srp.hasSessionKey
    ensures var key := ctx.srp.sessionKey;
            var m6 := SetupHandle(P, G, ctx, M5Body(P, c, key), r);
            && m6.ctx == ctx.(clientPk := c.longTermPk, clientPkSet := true, setupState := 6)
            && OpenM6(P, key, m6.reply) == Some(Accessory(P, key, ctx.ourSk, ctx.ourPk))
  {
    hide Build, Value, SetupHandle, Parse, Ascii, SetupKey, Seal, Unseal, Accessory, AeadLaw;
    var key := ctx.srp.sessionKey;
    var body, sealing := M5Body(P, c, key), SetupKey(P, key);
    TwoItems([Item(6, [5]), Item(5, Seal(P, sealing, Ascii("PS-Msg05"), M5Text(c)))]);
    BuildNotEmpty([Item(1, c.identifier), Item(3, c.longTermPk), Item(10, c.signature)]);
    SealOpens(P, sealing, Ascii("PS-Msg05"), M5Text(c), body);
    ThreeItems([Item(1, c.identifier), Item(3, c.longTermPk), Item(10, c.signature)]);
    assert c.longTermPk[..32] == c.longTermPk;
    M5Exactness(P, G, ctx, body, r);
    AccessoryReads(P, key, ctx.ourSk, ctx.ourPk);
    var items := [Item(6, [6]), Item(5, Seal(P, sealing, Ascii("PS-Msg06"), M6Text(P, ctx)))];
    TwoItems(items);
    SealOpens(P, sealing, Ascii("PS-Msg06"), M6Text(P, ctx), Build(items));
  }

  lemma AccessoryReads(P: Crypto, key: Digest, sk: Key, pk: Key)
    ensures var items := Accessory(P, key, sk, pk);
            |Build(items)| > 0 && Parse(Build(items)) == items
  {
    hide Build, Parse;
    ReplyParses(Accessory(P, key, sk, pk));
    BuildNotEmpty(Accessory(P, key, sk, pk));
  }

  // ----- the theorem -----

  /** The two encodings of S yield one proof but two keys: the server then takes the other one. */
  predicate Clash(H: Hash, G: Group, c: Client, salt: seq<byte>, e: Exchange) {
    var minimal, mine := ProofsOf(H, G, salt, e, false), ProofsOf(H, G, salt, e, c.padded);
    mine.M == minimal.M && mine.sessionKey != minimal.sessionKey
  }

  /** A hash that tells strings of one length from all others. */
  function LengthIs(len: nat): Hash {
    (x: seq<byte>) => if |x| == len then Zeros(64) else Zeros(63) + [1]
  }

  /** Which secrets can clash: for some hash exactly those that a padding client has to pad. */
  lemma ClashExactness(G: Group, c: Client, salt: Block, e: Exchange)
    requires |ToBytes(e.S)| <= G.Len()
    ensures (exists H :: Clash(H, G, c, salt, e)) <==> c.padded && |ToBytes(e.S)| < G.Len()
  {
    if c.padded && |ToBytes(e.S)| < G.Len() {
      var H := LengthIs(G.Len());
      assert ProofsOf(H, G, salt, e, false).M == ProofsOf(H, G, salt, e, true).M == Zeros(63) + [1];
      assert H(ToBytes(e.S))[63] != H(Pad(e.S, G.Len()))[63];
      assert Clash(H, G, c, salt, e);
    } else {
      forall H ensures !Clash(H, G, c, salt, e) {
        if c.padded {
          PadMeets(e.S, G.Len());
          assert PadTo(e.S, G.Len()) == ToBytes(e.S);
        }
      }
    }
  }

  /** The pairing is done on both sides, and each knows the other's long-term key. */
  predicate Done(P: Crypto, c: Client, o: Outcome) {
    && o.Completed?
    && o.ctx.setupState == 6 && o.ctx.srp.hasSessionKey && o.ctx.srp.sessionKey == o.key
    && o.ctx.clientPkSet && o.ctx.clientPk == c.longTermPk
    && o.accessory == Accessory(P, o.key, o.ctx.ourSk, o.ctx.ourPk)
  }

  /** A run that got past M2: done unless the encodings clash, and in a clash the keys differ. */
  predicate Settled(P: Crypto, G: Group, c: Client, salt: seq<byte>, e: Exchange, o: Outcome) {
    && !o.Aborted?
    && o.key == ProofsOf(P.sha512, G, salt, e, c.padded).sessionKey
    && (o.ctx.srp.sessionKey == o.key <==> !Clash(P.sha512, G, c, salt, e))
    && (Done(P, c, o) <==> !Clash(P.sha512, G, c, salt, e))
  }

  /** Two encodings with one proof and one key have one answer. */
  lemma KeyDecides(H: Hash, G: Group, c: Client, salt: seq<byte>, e: Exchange)
    ensures var minimal, mine := ProofsOf(H, G, salt, e, false), ProofsOf(H, G, salt, e, c.padded);
            mine.M == minimal.M && mine.sessionKey == minimal.sessionKey ==> mine == minimal
  {
  }

  /** The verdict on the client's proof, when both sides have computed the same exchange. */
  lemma VerdictMeets(P: Crypto, G: Group, srp: SrpState, c: Client, e: Exchange)
    requires e == Reckoned(P.sha512, G, FromBytes(srp.verifier), c.A(G), FromBytes(srp.b))
    ensures var mine := ProofsOf(P.sha512, G, srp.salt, e, c.padded);
            var minimal := ProofsOf(P.sha512, G, srp.salt, e, false);
            var body := M3Body(G, c, mine.M);
            Value(body, 3) == Some(c.BytesA(G)) && Value(body, 4) == Some(mine.M) ==>
              if !G.GeneratorFits() || c.A(G) == 0 then !ProvesKey(P, G, srp, body)
              else ProvesKey(P, G, srp, body) && ProvenBy(P, G, srp, body) == if mine.M == minimal.M then minimal else mine
  {
    hide ProofsOf, Value, FromBytes, ToBytes, Reckoned, M3Body;
    c.EncodedA(G);
    SmallMod(c.A(G), G.N);
    ToBytesMonotone(c.A(G), G.N);
  }

  lemma AfterM2Settles(P: Crypto, G: Group, ctx: Context, c: Client, r: Random, e: Exchange)
    requires AeadLaw(P) && G.GeneratorFits()
    requires e == Reckoned(P.sha512, G, FromBytes(ctx.srp.verifier), c.A(G), FromBytes(ctx.srp.b))
    ensures var mine := ProofsOf(P.sha512, G, ctx.srp.salt, e, c.padded);
            var o := AfterM2(P, G, ctx, c, r, mine);
            if c.A(G) == 0 then o.Refused? else Settled(P, G, c, ctx.srp.salt, e, o)
  {
    hide SetupHandle, ProvesKey, ProvenBy, OpenM6, Field, Value, ProofsOf, Reckoned, FromBytes, AeadLaw, Accessory, M3Body;
    var mine := ProofsOf(P.sha512, G, ctx.srp.salt, e, c.padded);
    VerdictMeets(P, G, ctx.srp, c, e);
    M3Arrives(P, G, ctx, c, r, mine.M);
    KeyDecides(P.sha512, G, c, ctx.srp.salt, e);
    if c.A(G) != 0 {
      var m4 := SetupHandle(P, G, ctx, M3Body(G, c, mine.M), r);
      M5Keeps(P, G, m4.ctx, c, r, mine.sessionKey);
      if !Clash(P.sha512, G, c, ctx.srp.salt, e) {
        M5Arrives(P, G, m4.ctx, c, r);
      }
    }
  }

  /** M5 leaves the session key alone, whatever key it was sealed with. */
  lemma M5Keeps(P: Crypto, G: Group, ctx: Context, c: Client, r: Random, key: Digest)
    ensures var o := AfterM4(P, G, ctx, c, r, key);
            o.ctx.srp == ctx.srp && !o.Aborted? && o.key == key
  {
    hide SetupHandle, OpenM6, Build, Value, Seal, Authentic, Finishes;
    var sealed := Seal(P, SetupKey(P, key), Ascii("PS-Msg05"), M5Text(c));
    TwoItems([Item(6, [5]), Item(5, sealed)]);
    M5Exactness(P, G, ctx, M5Body(P, c, key), r);
  }

  /**
   The honest run, from any state of the server and in any group. The client gives up exactly when B
   or u is 0, or the group cannot be used; the server refuses an A of 0; otherwise both sides reach the
   end with equal keys, exactly when the two encodings of S do not clash.
   */
  lemma HonestRunCompletes(P: Crypto, G: Group, ctx: Context, c: Client, r: Random)
    requires AeadLaw(P) && ctx.pin == c.pin && r.salt[0] != 0
    ensures var B := OfferedB(P.sha512, G, c, r);
            var e := ClientExchange(P.sha512, G, c, r.salt, B);
            var o := Converse(P, G, ctx, c, r);
            && (o.Aborted? <==> !G.GeneratorFits() || B == 0 || ClientU(P.sha512, G, c.A(G), B) == 0)
            && (o.Aborted? || if c.A(G) == 0 then o.Refused? else Settled(P, G, c, r.salt, e, o))
  {
    hide SetupHandle, Field, AfterM2, ProofsOf, Settled, AeadLaw;
    hide ClientU, ClientExchange, Reckoned, PublicB, PinVerifier, FromBytes, ToBytes;
    var v := PinVerifier(P.sha512, G, r.salt, c.pin);
    var B := OfferedB(P.sha512, G, c, r);
    M2Arrives(P, G, ctx, r);
    FromToBytes(B);
    FromToBytes(v);
    SmallMod(B, G.N);
    ToBytesMonotone(B, G.N);
    ExchangesMeet(P.sha512, G, c, r);
    if G.GeneratorFits() {
      var e := ClientExchange(P.sha512, G, c, r.salt, B);
      AfterM2Settles(P, G, AfterM1(P, G, ctx, r), c, r, e);
      NotAborted(P, G, c, r.salt, e, AfterM2(P, G, AfterM1(P, G, ctx, r), c, r, ProofsOf(P.sha512, G, r.salt, e, c.padded)));
    }
  }

  lemma NotAborted(P: Crypto, G: Group, c: Client, salt: seq<byte>, e: Exchange, o: Outcome)
    ensures Settled(P, G, c, salt, e, o) ==> !o.Aborted?
  {
  }

  /** The PIN that was configured, as the client has to know it. */
  predicate KnowsPin(c: Client, pin: Option<seq<byte>>) {
    if pin.None? then c.pin == Ascii("3939") else c.pin == pin.value && |c.pin| <= 15
  }

  /** After any history of requests, to a server whose PIN the client knows. */
  lemma HonestRunAfterAnyHistory(
    P: Crypto, G: Group, sk: Key, pk: Key, pin: Option<seq<byte>>, reqs: seq<Request>, c: Client, r: Random)
    requires AeadLaw(P) && r.salt[0] != 0 && KnowsPin(c, pin)
    ensures var B := OfferedB(P.sha512, G, c, r);
            var e := ClientExchange(P.sha512, G, c, r.salt, B);
            var o := Converse(P, G, ServeAll(P, G, Create(sk, pk, pin), reqs), c, r);
            && (o.Aborted? <==> !G.GeneratorFits() || B == 0 || ClientU(P.sha512, G, c.A(G), B) == 0)
            && (o.Aborted? || if c.A(G) == 0 then o.Refused? else Settled(P, G, c, r.salt, e, o))
  {
    hide Converse, Settled, ClientExchange, OfferedB, ClientU, ServeAll, AeadLaw, Ascii;
    PinKept(P, G, Create(sk, pk, pin), reqs);
    ShortPin(c, pin);
    HonestRunCompletes(P, G, ServeAll(P, G, Create(sk, pk, pin), reqs), c, r);
  }

  lemma ShortPin(c: Client, pin: Option<seq<byte>>)
    requires KnowsPin(c, pin)
    ensures ConfiguredPin(pin) == c.pin
  {
  }

  /** In the group the server uses, A is never 0: there the run settles whenever the client accepts M2. */
  lemma HonestRunOnServer(P: Crypto, sk: Key, pk: Key, pin: Option<seq<byte>>, reqs: seq<Request>, c: Client, r: Random)
    requires AeadLaw(P) && r.salt[0] != 0 && KnowsPin(c, pin)
    ensures var G := GROUP_3072;
            var B := OfferedB(P.sha512, G, c, r);
            var o := Converse(P, G, ServeAll(P, G, Create(sk, pk, pin), reqs), c, r);
            if B == 0 || ClientU(P.sha512, G, c.A(G), B) == 0 then o.Aborted?
            else Settled(P, G, c, r.salt, ClientExchange(P.sha512, G, c, r.salt, B), o)
  {
    hide Converse, Settled, ClientExchange, OfferedB, ClientU, ServeAll, AeadLaw, KnowsPin, Pow;
    HonestRunAfterAnyHistory(P, GROUP_3072, sk, pk, pin, reqs, c, r);
    Group3072(c.a);
  }
}
