/**
 What the pairing server makes of every request, message by message, in terms of the message formats
 and of SRP without intermediate reductions: when it accepts, what it then stores and answers, and
 with which code it refuses.
 */
module Verdicts {
  import opened Bytes
  import opened Modular
  import opened Srp
  import opened TlvFormat
  import opened Pairing
  import opened PairingClient

  function Refusal(state: byte, code: byte): seq<byte> {
    Build([Item(6, [state]), Item(7, [code])])
  }

  lemma StateMeans(body: seq<byte>, state: byte)
    ensures StateOf(body) == Some(state) <==> Value(body, 6) == Some([state])
  {
    hide Parse, Find;
    var item := Find(Parse(body), 6);
    if item.Some? && |item.value.data| == 1 {
      assert item.value.data == [item.value.data[0]];
    }
  }

  /** Without a one-byte State there is no reply; a State that is not expected gets code 1. */
  lemma OtherSetupRequests(P: Crypto, G: Group, ctx: Context, body: seq<byte>, r: Random)
    ensures var state := Value(body, 6);
            && (state.None? || |state.value| != 1 ==> SetupHandle(P, G, ctx, body, r) == Answer(ctx, None))
            && (state.Some? && |state.value| == 1 && state.value[0] !in {1, 3, 5} ==>
                  SetupHandle(P, G, ctx, body, r) == Answer(ctx, Some(Refusal((state.value[0] as int + 1) % 256, 1))))
  {
    hide Parse, Find, Build, SetupM1, SetupM3, SetupM5;
  }

  lemma OtherVerifyRequests(P: Crypto, ctx: Context, body: seq<byte>, ecdhSk: Option<Key>)
    ensures var state := Value(body, 6);
            && (state.None? || |state.value| != 1 ==> VerifyHandle(P, ctx, body, ecdhSk) == Answer(ctx, None))
            && (state.Some? && |state.value| == 1 && state.value[0] !in {1, 3} ==>
                  VerifyHandle(P, ctx, body, ecdhSk) == Answer(ctx, Some(Refusal((state.value[0] as int + 1) % 256, 1))))
  {
    hide Parse, Find, Build, VerifyM1, VerifyM3;
  }

  // ----- the SRP values of the server -----

  /** x over the salt without its leading zeros. */
  function ServerX(H: Hash, salt: seq<byte>, pin: seq<byte>): nat {
    FromBytes(H(ToBytes(FromBytes(salt)) + H(Ascii("Pair-Setup:") + pin)))
  }

  /** v = g^x */
  function PinVerifier(H: Hash, G: Group, salt: seq<byte>, pin: seq<byte>): (v: nat)
    ensures v < G.N
  {
    Pow(G.g, ServerX(H, salt, pin)) % G.N
  }

  /** B = k v + g^b */
  function PublicB(H: Hash, G: Group, v: nat, b: nat): (B: nat)
    ensures B < G.N
  {
    (ClientK(H, G) * v + Pow(G.g, b)) % G.N
  }

  /** A, B and S = (A v^u)^b */
  function Reckoned(H: Hash, G: Group, v: nat, A: nat, b: nat): Exchange {
    var B := PublicB(H, G, v, b);
    Exchange(A, B, Pow(A * Pow(v, ClientU(H, G, A, B)), b) % G.N)
  }

  lemma PublicBMeets(G: Group, k: nat, v: nat, b: nat)
    ensures ServerB(G, k, v, b) == (k * v + Pow(G.g, b)) % G.N
  {
    hide Pow;
    var gb := Pow(G.g, b);
    CongruentMod(k * v, G.N);
    CongruentMod(gb, G.N);
    CongruentSum(k * v % G.N, k * v, gb % G.N, gb, G.N);
    CongruentRemainders(k * v % G.N + gb % G.N, k * v + gb, G.N);
  }

  lemma SecretMeets(G: Group, A: nat, v: nat, u: nat, b: nat)
    ensures ServerSecret(G, A, v, u, b) == Pow(A * Pow(v, u), b) % G.N
  {
    hide Pow;
    var w := Pow(v, u);
    CongruentMod(w, G.N);
    assert A - A == 0 * (G.N as int);
    CongruentProduct(A, A, w % G.N, w, G.N);
    CongruentPow(A * (w % G.N), A * w, b, G.N);
    CongruentRemainders(Pow(A * (w % G.N), b), Pow(A * w, b), G.N);
  }

  lemma ReckonedFits(H: Hash, G: Group, v: nat, A: nat, b: nat)
    ensures var e := Reckoned(H, G, v, A, b);
            e.A == A && |ToBytes(e.B)| <= G.Len() && |ToBytes(e.S)| <= G.Len()
  {
    hide Pow, ClientU, ToBytes;
    var e := Reckoned(H, G, v, A, b);
    ToBytesMonotone(e.B, G.N);
    ToBytesMonotone(e.S, G.N);
  }

  lemma ExchangeMeets(H: Hash, G: Group, verifier: seq<byte>, bytesA: seq<byte>, b: seq<byte>)
    ensures var A := FromBytes(bytesA);
            ServerExchange(H, G, verifier, bytesA, b)
            == if G.GeneratorFits() && A % G.N != 0 && |ToBytes(A)| <= G.Len()
               then Some(Reckoned(H, G, FromBytes(verifier), A, FromBytes(b))) else None
  {
    hide HnnPad, ServerB, ServerSecret, ClientK, ClientU, Pow, FromBytes, ToBytes;
    var v, A, eb := FromBytes(verifier), FromBytes(bytesA), FromBytes(b);
    KMeets(H, G);
    if G.GeneratorFits() {
      PublicBMeets(G, ClientK(H, G), v, eb);
      var B := PublicB(H, G, v, eb);
      ToBytesMonotone(B, G.N);
      UMeets(H, G, A, B);
      SecretMeets(G, A, v, ClientU(H, G, A, B), eb);
    }
  }

  // ----- pair-setup M1 -----

  /** M1 always starts afresh; whether it is answered depends on the group alone. */
  lemma M1Exactness(P: Crypto, G: Group, ctx: Context, body: seq<byte>, r: Random)
    ensures Value(body, 6) == Some([1]) ==>
              var v := PinVerifier(P.sha512, G, r.salt, ctx.pin);
              var started := ctx.(srp := SrpState(r.salt, r.b, ToBytes(v), ctx.srp.sessionKey, false), clientPkSet := false);
              SetupHandle(P, G, ctx, body, r)
              == if !G.GeneratorFits() then Answer(started, Some(Refusal(2, 1)))
                 else
                   var B := PublicB(P.sha512, G, v, FromBytes(r.b));
                   Answer(started.(setupState := 2), Some(Build([Item(6, [2]), Item(2, r.salt), Item(3, ToBytes(B))])))
  {
    hide Build, Parse, ToBytes, FromBytes, Pow, HnnPad, ServerB, PadTo, Find, Ascii;
    StateMeans(body, 1);
    r.Padded();
    UsernamePrefix();
    KMeets(P.sha512, G);
    var v := PinVerifier(P.sha512, G, r.salt, ctx.pin);
    FromToBytes(v);
    PublicBMeets(G, ClientK(P.sha512, G), v, FromBytes(r.b));
  }

  // ----- pair-setup M3 -----

  /** Key and proofs for the A of an M3, from either encoding of S. */
  function ServerProofs(P: Crypto, G: Group, srp: SrpState, A: nat, padded: bool): Proofs {
    ProofsOf(P.sha512, G, srp.salt, Reckoned(P.sha512, G, FromBytes(srp.verifier), A, FromBytes(srp.b)), padded)
  }

  /** A is acceptable, and the proof is that of one of the two encodings of S. */
  predicate ProvesKey(P: Crypto, G: Group, srp: SrpState, body: seq<byte>) {
    var pk, proof := Value(body, 3), Value(body, 4);
    && pk.Some? && proof.Some? && |proof.value| == 64
    && var A := FromBytes(pk.value);
    && G.GeneratorFits() && A % G.N != 0 && |ToBytes(A)| <= G.Len()
    && (proof.value == ServerProofs(P, G, srp, A, false).M || proof.value == ServerProofs(P, G, srp, A, true).M)
  }

  /** The encoding that counts: the minimal one when its proof was sent. */
  function ProvenBy(P: Crypto, G: Group, srp: SrpState, body: seq<byte>): Proofs
    requires ProvesKey(P, G, srp, body)
  {
    var A := FromBytes(Value(body, 3).value);
    ServerProofs(P, G, srp, A, Value(body, 4).value != ServerProofs(P, G, srp, A, false).M)
  }

  lemma M3Exactness(P: Crypto, G: Group, ctx: Context, body: seq<byte>, r: Random)
    ensures Value(body, 6) == Some([3]) ==>
              SetupHandle(P, G, ctx, body, r)
              == if !ProvesKey(P, G, ctx.srp, body) then Answer(ctx, Some(Refusal(4, 2)))
                 else
                   var used := ProvenBy(P, G, ctx.srp, body);
                   Answer(ctx.(srp := ctx.srp.(sessionKey := used.sessionKey, hasSessionKey := true), setupState := 4),
                          Some(Build([Item(6, [4]), Item(4, used.hAmk)])))
  {
    hide Build, Parse, Find, ProvesKey, ProvenBy, CheckM3;
    StateMeans(body, 3);
    CheckMeets(P, G, ctx.srp, body);
  }

  lemma CheckMeets(P: Crypto, G: Group, srp: SrpState, body: seq<byte>)
    ensures CheckM3(P, G, srp, Parse(body))
            == if !ProvesKey(P, G, srp, body) then None
               else
                 var used := ProvenBy(P, G, srp, body);
                 Some(Accepted(used.sessionKey, used.hAmk))
  {
    hide Parse, Find, ServerExchange, Reckoned, ProofsOf, CalculateM, CalculateHAmk, FromBytes, ToBytes;
    var pk, proof := Value(body, 3), Value(body, 4);
    if pk.Some? && proof.Some? && |proof.value| == 64 {
      ExchangeMeets(P.sha512, G, srp.verifier, pk.value, srp.b);
      var A, v, b := FromBytes(pk.value), FromBytes(srp.verifier), FromBytes(srp.b);
      if G.GeneratorFits() && A % G.N != 0 && |ToBytes(A)| <= G.Len() {
        ReckonedFits(P.sha512, G, v, A, b);
        ProofsMeet(P.sha512, G, srp.salt, Reckoned(P.sha512, G, v, A, b));
      }
    }
  }

  // ----- pair-setup M5 -----

  /** What an M5 says, when it was sealed under the session key held and says anything. */
  function Authentic(P: Crypto, srp: SrpState, body: seq<byte>): Option<seq<byte>> {
    var text := Unseal(P, SetupKey(P, srp.sessionKey), Ascii("PS-Msg05"), body);
    if srp.hasSessionKey && text.Some? && |text.value| > 0 && |Value(body, 5).value| > 16 then text else None
  }

  /** The key an M5 teaches: the first 32 bytes of its first PublicKey. */
  function Taught(P: Crypto, srp: SrpState, body: seq<byte>): Option<Key> {
    match Authentic(P, srp, body)
    case None => None
    case Some(text) =>
      var pk := Value(text, 3);
      if pk.Some? && |pk.value| >= 32 then Some(pk.value[..32]) else None
  }

  /** The server's answer to M5, sealed under the same key. */
  function M6Text(P: Crypto, ctx: Context): seq<byte> {
    Build(Accessory(P, ctx.srp.sessionKey, ctx.ourSk, ctx.ourPk))
  }

  function Learned(P: Crypto, ctx: Context, body: seq<byte>): Context {
    match Taught(P, ctx.srp, body)
    case None => ctx
    case Some(key) => ctx.(clientPk := key, clientPkSet := true)
  }

  /** An authentic M5 finishes the pairing when a client key is known by then and the cipher works. */
  predicate Finishes(P: Crypto, ctx: Context, body: seq<byte>) {
    && Authentic(P, ctx.srp, body).Some? && Learned(P, ctx, body).clientPkSet
    && P.encrypt(SetupKey(P, ctx.srp.sessionKey), Ascii("PS-Msg06"), M6Text(P, ctx)).ciphertext != []
  }

  lemma M5Exactness(P: Crypto, G: Group, ctx: Context, body: seq<byte>, r: Random)
    ensures Value(body, 6) == Some([5]) ==>
              var learned := Learned(P, ctx, body);
              SetupHandle(P, G, ctx, body, r)
              == if Finishes(P, ctx, body) then
                   Answer(learned.(setupState := 6),
                          Some(Build([Item(6, [6]),
                                      Item(5, Seal(P, SetupKey(P, ctx.srp.sessionKey), Ascii("PS-Msg06"), M6Text(P, ctx)))])))
                 else
                   Answer(learned, Some(Refusal(6, if Authentic(P, ctx.srp, body).Some? && learned.clientPkSet then 1 else 2)))
  {
    hide Build, Parse, Find, Ascii, OpenM5, Authentic, M6Items, Accessory;
    StateMeans(body, 5);
    OpenMeets(P, ctx.srp, body);
    M6Meets(P, ctx);
  }

  lemma OpenMeets(P: Crypto, srp: SrpState, body: seq<byte>)
    ensures OpenM5(P, srp, Parse(body)) == Authentic(P, srp, body)
  {
    hide Parse, Find, Ascii;
  }

  lemma M6Meets(P: Crypto, ctx: Context)
    ensures M6Items(P, ctx) == Accessory(P, ctx.srp.sessionKey, ctx.ourSk, ctx.ourPk)
    ensures forall pk, known :: M6Items(P, ctx.(clientPk := pk, clientPkSet := known)) == M6Items(P, ctx)
  {
    hide Ascii;
  }

  // ----- pair-verify M1 -----

  /** What M1 establishes: the secret, from a key pair and a peer key that can be used. */
  function Agreed(P: Crypto, theirs: Key, ecdhSk: Option<Key>): Option<Key> {
    if ecdhSk.None? then None else P.agree(ecdhSk.value, theirs)
  }

  /** The keys after an M1 with a peer key of 32 bytes: what could not be made keeps its old value. */
  function KeysAfterM1(P: Crypto, ctx: Context, theirs: Key, ecdhSk: Option<Key>): VerifyKeys {
    var before, secret := ctx.keys, Agreed(P, theirs, ecdhSk);
    if secret.None? then VerifyKeys(before.shared, before.encKey, before.ourEcdhPk, theirs, true)
    else
      var ours := P.publicKey(ecdhSk.value);
      var signed := P.sign(ctx.ourSk, VerifyMessage(ours, theirs)).Some?;
      VerifyKeys(secret.value, if signed then VerifyKey(P, secret.value) else before.encKey, ours, theirs, true)
  }

  /** The signature of M2, when secret and signature can be made and the cipher works. */
  function Introduced(P: Crypto, ctx: Context, theirs: Key, ecdhSk: Option<Key>): Option<Signature> {
    var secret := Agreed(P, theirs, ecdhSk);
    if secret.None? then None
    else
      match P.sign(ctx.ourSk, VerifyMessage(P.publicKey(ecdhSk.value), theirs))
      case None => None
      case Some(signature) =>
        if P.encrypt(VerifyKey(P, secret.value), Ascii("PV-Msg02"), Build(VerifyText(signature))).ciphertext == [] then None
        else Some(signature)
  }

  /** Code 2 blames the peer's key, code 1 everything else. */
  lemma VerifyM1Exactness(P: Crypto, ctx: Context, body: seq<byte>, ecdhSk: Option<Key>)
    ensures Value(body, 6) == Some([1]) ==>
              var a := VerifyHandle(P, ctx, body, ecdhSk);
              var pk := Value(body, 3);
              if pk.None? || |pk.value| != 32 then a == Answer(ctx, Some(Refusal(2, 2)))
              else
                var theirs: Key := pk.value;
                var after := ctx.(keys := KeysAfterM1(P, ctx, theirs, ecdhSk));
                match Introduced(P, ctx, theirs, ecdhSk)
                case None =>
                  a == Answer(after, Some(Refusal(2, if ecdhSk.Some? && P.agree(ecdhSk.value, theirs).None? then 2 else 1)))
                case Some(signature) =>
                  var said := Seal(P, after.keys.encKey, Ascii("PV-Msg02"), Build(VerifyText(signature)));
                  a == Answer(after.(verifyState := 2),
                              Some(Build([Item(6, [2]), Item(3, P.publicKey(ecdhSk.value)), Item(5, said)])))
  {
    hide Build, Parse, Find, Ascii;
    StateMeans(body, 1);
  }

  // ----- pair-verify M3 -----

  /** It opens under the key of pair-verify, to an identifier and a signature of 64 bytes. */
  predicate ProvesPeer(P: Crypto, keys: VerifyKeys, body: seq<byte>) {
    var text := Unseal(P, keys.encKey, Ascii("PV-Msg03"), body);
    && text.Some? && Value(text.value, 1).Some?
    && Value(text.value, 10).Some? && |Value(text.value, 10).value| == 64
  }

  lemma VerifyM3Exactness(P: Crypto, ctx: Context, body: seq<byte>, ecdhSk: Option<Key>)
    ensures Value(body, 6) == Some([3]) ==>
              VerifyHandle(P, ctx, body, ecdhSk)
              == if ProvesPeer(P, ctx.keys, body) then Answer(ctx.(verifyState := 4), Some(Build([Item(6, [4])])))
                 else Answer(ctx, Some(Refusal(4, 2)))
  {
    hide Build, Parse, Find, Ascii;
    StateMeans(body, 3);
  }
}
