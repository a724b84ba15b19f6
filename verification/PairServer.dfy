/** The pairing context as the source runs it: an object whose fields the handlers update. */
module PairServer {
  import opened Bytes
  import opened Srp
  import opened TlvFormat
  import opened TlvCodec
  import opened Pairing

  class PairContext {
    const P: Crypto
    const G: Group
    const ourSk: Key
    const ourPk: Key
    const pin: seq<byte>

    var salt: Block
    var b: Key
    var verifier: seq<byte>
    var sessionKey: Digest
    var hasSessionKey: bool

    var clientPk: Key
    var clientPkSet: bool

    var setupState: nat
    var verifyState: nat

    var shared: Key
    var encKey: Key
    var ourEcdhPk: Key
    var clientEcdhPk: Key
    var clientEcdhPkSet: bool

    function Abs(): Context
      reads this
    {
      Context(ourSk, ourPk, pin, SrpState(salt, b, verifier, sessionKey, hasSessionKey), clientPk, clientPkSet,
              setupState, verifyState, VerifyKeys(shared, encKey, ourEcdhPk, clientEcdhPk, clientEcdhPkSet))
    }

    constructor (P: Crypto, G: Group, sk: Key, pk: Key, pin: Option<seq<byte>>)
      ensures this.P == P && this.G == G && Abs() == Create(sk, pk, pin)
      ensures setupState == verifyState == 0 && !hasSessionKey && !clientPkSet && !clientEcdhPkSet
      ensures if pin.None? then this.pin == Ascii("3939") else this.pin <= pin.value && |this.pin| == Min(|pin.value|, 15)
    {
      this.P, this.G := P, G;
      ourSk, ourPk := sk, pk;
      var given := if pin.Some? then pin.value else SRP_DEFAULT_PIN;
      this.pin := if |given| > 15 then given[..15] else given;
      salt, b, verifier, sessionKey, hasSessionKey := Zeros(16), Zeros(32), [], Zeros(64), false;
      clientPk, clientPkSet := Zeros(32), false;
      setupState, verifyState := 0, 0;
      shared, encKey, ourEcdhPk, clientEcdhPk, clientEcdhPkSet := Zeros(32), Zeros(32), Zeros(32), Zeros(32), false;
    }

    /** make_error_response */
    method ErrorReply(state: byte, code: byte) returns (reply: array<byte>)
      ensures fresh(reply) && reply[..] == MakeError(state, code)
    {
      reply := TlvBuild(ErrorItems(state, code));
    }

    /** The context once M1 has drawn salt, verifier and ephemeral. */
    ghost function Started(ctx: Context, sv: SaltVerifier, b: Key): Context
      requires |sv.salt| == 16
    {
      ctx.(srp := SrpState(sv.salt, b, sv.verifier, ctx.srp.sessionKey, false), clientPkSet := false)
    }

    method HandleSetupM1(r: Random) returns (reply: array<byte>)
      modifies this
      ensures fresh(reply) && Handled(Abs(), reply[..]) == SetupM1(P, G, old(Abs()), r)
    {
      hide Build, CreateSaltVerifier, CreateB, MakeError, Ascii;
      verifier := [];
      hasSessionKey := false;
      clientPkSet := false;
      assert Abs() == Started(old(Abs()), SaltVerifier(salt, []), b);
      var sv := CreateSaltVerifier(P.sha512, G, SRP_USERNAME, pin, r.Number());
      salt := sv.salt;
      verifier := sv.verifier;
      b := r.b;
      assert Abs() == Started(old(Abs()), sv, r.b);
      var B := CreateB(P.sha512, G, sv.verifier, r.b);
      if B.None? {
        reply := ErrorReply(2, 1);
      } else {
        reply := TlvBuild([Item(TLV_STATE, [2]), Item(TLV_SALT, sv.salt), Item(TLV_PUBLIC_KEY, B.value)]);
        setupState := 2;
      }
    }

    method HandleSetupM3(items: seq<Item>) returns (reply: array<byte>)
      modifies this
      ensures fresh(reply) && Handled(Abs(), reply[..]) == SetupM3(P, G, old(Abs()), items)
    {
      hide Build, VerifierNew, MakeError, Find;
      var pk := TlvFind(items, TLV_PUBLIC_KEY);
      var proof := TlvFind(items, TLV_PROOF);
      if pk.None? || proof.None? {
        reply := ErrorReply(4, 2);
        return;
      }
      if |proof.value.data| != SRP_HASH_LEN {
        reply := ErrorReply(4, 2);
        return;
      }
      var made := VerifierNew(P.sha512, G, SRP_USERNAME, salt, verifier, pk.value.data, b);
      if made.None? {
        reply := ErrorReply(4, 2);
        return;
      }
      var ver := new SrpVerifier(made.value);
      var serverM2 := ver.CheckProof(proof.value.data);
      if serverM2.None? {
        reply := ErrorReply(4, 2);
        return;
      }
      reply := TlvBuild([Item(TLV_STATE, [4]), Item(TLV_PROOF, serverM2.value)]);
      sessionKey := ver.sessionKey;
      hasSessionKey := true;
      setupState := 4;
    }

    method HandleSetupM5(items: seq<Item>) returns (reply: array<byte>)
      modifies this
      ensures fresh(reply) && Handled(Abs(), reply[..]) == SetupM5(P, old(Abs()), items)
    {
      hide Build, Parse, MakeError, Find, SetupEncryptKey, M6Items, Pack, Unpack, Ascii;
      if !hasSessionKey {
        reply := ErrorReply(6, 2);
        return;
      }
      var enc := TlvFind(items, TLV_ENCRYPTED_DATA);
      if enc.None? || |enc.value.data| < 16 + 1 {
        reply := ErrorReply(6, 2);
        return;
      }
      var key := SetupEncryptKey(P, sessionKey);
      var text := P.decrypt(key, Ascii("PS-Msg05"), Unpack(enc.value.data));
      if text.None? || text.value == [] {
        reply := ErrorReply(6, 2);
        return;
      }
      var sub := TlvParse(text.value);
      var pk := TlvFind(sub, TLV_PUBLIC_KEY);
      if pk.Some? && |pk.value.data| >= 32 {
        clientPk := pk.value.data[..32];
        clientPkSet := true;
      }
      if !clientPkSet {
        reply := ErrorReply(6, 2);
        return;
      }
      var subBuf := TlvBuild(M6Items(P, Abs()));
      var sealed := P.encrypt(key, Ascii("PS-Msg06"), subBuf[..]);
      if sealed.ciphertext == [] {
        reply := ErrorReply(6, 1);
        return;
      }
      reply := TlvBuild([Item(TLV_STATE, [6]), Item(TLV_ENCRYPTED_DATA, Pack(sealed))]);
      setupState := 6;
    }

    /** pair_setup_handle: null when the body carries no one-byte State */
    method SetupRequest(body: seq<byte>, r: Random) returns (reply: array?<byte>)
      modifies this
      ensures reply != null ==> fresh(reply)
      ensures Answer(Abs(), Reply(reply)) == SetupHandle(P, G, old(Abs()), body, r)
    {
      hide SetupM1, SetupM3, SetupM5, MakeError, Find, Parse;
      var items := TlvParse(body);
      var item := TlvFind(items, TLV_STATE);
      if item.None? || |item.value.data| != 1 {
        return null;
      }
      var state := item.value.data[0];
      if state == 1 {
        reply := HandleSetupM1(r);
      } else if state == 3 {
        reply := HandleSetupM3(items);
      } else if state == 5 {
        reply := HandleSetupM5(items);
      } else {
        reply := ErrorReply((state as int + 1) % 256, 1);
      }
    }

    method HandleVerifyM1(items: seq<Item>, ecdhSk: Option<Key>) returns (reply: array<byte>)
      modifies this
      ensures fresh(reply) && Handled(Abs(), reply[..]) == VerifyM1(P, old(Abs()), items, ecdhSk)
    {
      hide VerifyM1Agreed, MakeError, Find;
      var pk := TlvFind(items, TLV_PUBLIC_KEY);
      if pk.None? || |pk.value.data| != 32 {
        reply := ErrorReply(2, 2);
        return;
      }
      clientEcdhPk := pk.value.data;
      clientEcdhPkSet := true;
      if ecdhSk.None? {
        reply := ErrorReply(2, 1);
        return;
      }
      var secret := P.agree(ecdhSk.value, clientEcdhPk);
      if secret.None? {
        reply := ErrorReply(2, 2);
        return;
      }
      shared := secret.value;
      ourEcdhPk := P.publicKey(ecdhSk.value);
      assert Abs() == old(Abs()).(keys := VerifyKeys(shared, encKey, ourEcdhPk, clientEcdhPk, true));
      reply := SendVerifyM2();
    }

    /** The rest of M1, once the secret is stored. */
    method SendVerifyM2() returns (reply: array<byte>)
      modifies this
      ensures fresh(reply) && Handled(Abs(), reply[..]) == VerifyM1Agreed(P, old(Abs()))
    {
      hide Build, MakeError, Find, VerifyEncryptKey, VerifyM2Items, VerifyM2Message, Pack, Ascii;
      var signature := P.sign(ourSk, VerifyM2Message(ourEcdhPk, clientEcdhPk));
      if signature.None? {
        reply := ErrorReply(2, 1);
        return;
      }
      var subBuf := TlvBuild(VerifyM2Items(signature.value));
      encKey := VerifyEncryptKey(P, shared);
      var sealed := P.encrypt(encKey, Ascii("PV-Msg02"), subBuf[..]);
      if sealed.ciphertext == [] {
        reply := ErrorReply(2, 1);
        return;
      }
      reply := TlvBuild([Item(TLV_STATE, [2]), Item(TLV_PUBLIC_KEY, ourEcdhPk), Item(TLV_ENCRYPTED_DATA, Pack(sealed))]);
      verifyState := 2;
    }

    method HandleVerifyM3(items: seq<Item>) returns (reply: array<byte>)
      modifies this
      ensures fresh(reply) && Handled(Abs(), reply[..]) == VerifyM3(P, old(Abs()), items)
    {
      hide Build, Parse, MakeError, Find;
      var enc := TlvFind(items, TLV_ENCRYPTED_DATA);
      if enc.None? || |enc.value.data| < 16 {
        reply := ErrorReply(4, 2);
        return;
      }
      var text := P.decrypt(encKey, Ascii("PV-Msg03"), Unpack(enc.value.data));
      if text.None? {
        reply := ErrorReply(4, 2);
        return;
      }
      var sub := TlvParse(text.value);
      var ident := TlvFind(sub, TLV_IDENTIFIER);
      var sig := TlvFind(sub, TLV_SIGNATURE);
      if ident.None? || sig.None? || |sig.value.data| != 64 {
        reply := ErrorReply(4, 2);
        return;
      }
      reply := TlvBuild([Item(TLV_STATE, [4])]);
      verifyState := 4;
    }

    /** pair_verify_handle */
    method VerifyRequest(body: seq<byte>, ecdhSk: Option<Key>) returns (reply: array?<byte>)
      modifies this
      ensures reply != null ==> fresh(reply)
      ensures Answer(Abs(), Reply(reply)) == VerifyHandle(P, old(Abs()), body, ecdhSk)
    {
      hide VerifyM1, VerifyM3, MakeError, Find, Parse;
      var items := TlvParse(body);
      var item := TlvFind(items, TLV_STATE);
      if item.None? || |item.value.data| != 1 {
        return null;
      }
      var state := item.value.data[0];
      if state == 1 {
        reply := HandleVerifyM1(items, ecdhSk);
      } else if state == 3 {
        reply := HandleVerifyM3(items);
      } else {
        reply := ErrorReply((state as int + 1) % 256, 1);
      }
    }
  }

  /** The bytes of a returned buffer. */
  function Reply(buf: array?<byte>): Option<seq<byte>>
    reads buf
  {
    if buf == null then None else Some(buf[..])
  }
}
