/**
 M3 without M1. The server does not require M1 to come first, and what it then checks has nothing to
 do with the PIN, or with a key agreement: these results say exactly what it accepts, and from when on
 the PIN counts.
 */
module ColdStart {
  import opened Arithmetic
  import opened Bytes
  import opened Modular
  import opened Srp
  import opened TlvFormat
  import opened Pairing
  import opened PairingClient
  import opened Verdicts
  import opened PairingRuns
  import opened PairingOrigins
  import opened HonestRun
  import opened VerifyRun

  predicate NoM1(reqs: seq<Request>) {
    forall j :: 0 <= j < |reqs| ==> !reqs[j].IsSetup(1)
  }

  /** What pair_ctx_create leaves in place of salt, ephemeral and verifier. */
  predicate Cold(srp: SrpState) {
    srp.salt == Zeros(16) && srp.b == Zeros(32) && srp.verifier == []
  }

  /** Key and proofs anyone can compute: B and S are 1. */
  function ColdProofs(P: Crypto, G: Group, A: nat, padded: bool): Proofs {
    ProofsOf(P.sha512, G, Zeros(16), Exchange(A, 1, 1), padded)
  }

  /** Without an M1 nothing but the session key changes. */
  lemma StaysCold(P: Crypto, G: Group, sk: Key, pk: Key, pin: Option<seq<byte>>, reqs: seq<Request>)
    requires NoM1(reqs)
    ensures Cold(ServeAll(P, G, Create(sk, pk, pin), reqs).srp)
  {
    hide ServeAll, Value, PinVerifier;
    var ctx := Create(sk, pk, pin);
    var i := OfferedOrigin(P, G, ctx, reqs);
    assert NoMark(P, G, ctx, reqs, OfferedMark(P, G), 0);
  }

  lemma ZerosDenoteZero(n: nat)
    ensures FromBytes(Zeros(n)) == 0
  {
    FromBytesLeadingZeros(n, []);
    assert Zeros(n) + [] == Zeros(n);
  }

  lemma ColdExchange(H: Hash, G: Group, A: nat)
    ensures Reckoned(H, G, 0, A, 0) == Exchange(A, 1, 1)
  {
    SmallMod(1, G.N);
    assert ClientK(H, G) * 0 == 0;
  }

  /**
   After any history without an M1, whatever the PIN: an M3 is accepted exactly when its A is not 0
   modulo N and not longer than N, and its proof is one of two that do not depend on the PIN.
   */
  lemma ColdM3Exactness(
    P: Crypto, G: Group, sk: Key, pk: Key, pin: Option<seq<byte>>, reqs: seq<Request>, body: seq<byte>, r: Random)
    requires NoM1(reqs)
    ensures var ctx := ServeAll(P, G, Create(sk, pk, pin), reqs);
            var pub, proof := Value(body, 3), Value(body, 4);
            var a := SetupHandle(P, G, ctx, body, r);
            Value(body, 6) == Some([3]) ==>
              if pub.None? || proof.None? || !G.GeneratorFits() then a == Answer(ctx, Some(Refusal(4, 2)))
              else
                var A := FromBytes(pub.value);
                var minimal, padded := ColdProofs(P, G, A, false), ColdProofs(P, G, A, true);
                if A % G.N == 0 || |ToBytes(A)| > G.Len() || (proof.value != minimal.M && proof.value != padded.M)
                then a == Answer(ctx, Some(Refusal(4, 2)))
                else
                  var used := if proof.value == minimal.M then minimal else padded;
                  a == Answer(ctx.(srp := ctx.srp.(sessionKey := used.sessionKey, hasSessionKey := true), setupState := 4),
                              Some(Build([Item(6, [4]), Item(4, used.hAmk)])))
  {
    hide Value, SetupHandle, ProofsOf, Reckoned, ServeAll, FromBytes, ToBytes, Build, Refusal;
    var ctx := ServeAll(P, G, Create(sk, pk, pin), reqs);
    StaysCold(P, G, sk, pk, pin, reqs);
    ZerosDenoteZero(32);
    ZerosDenoteZero(0);
    assert Zeros(0) == [];
    M3Exactness(P, G, ctx, body, r);
    if Value(body, 3).Some? {
      ColdExchange(P.sha512, G, FromBytes(Value(body, 3).value));
    }
  }

  /** The simplest case: a new server, any A but 0, and a session key that is the hash of the byte 1. */
  lemma ColdM3Accepted(P: Crypto, G: Group, sk: Key, pk: Key, pin: Option<seq<byte>>, c: Client, r: Random)
    requires G.GeneratorFits() && c.A(G) != 0
    ensures var proof := ColdProofs(P, G, c.A(G), false).M;
            var after := SetupHandle(P, G, Create(sk, pk, pin), M3Body(G, c, proof), r).ctx;
            after.setupState == 4 && after.srp.hasSessionKey && after.srp.sessionKey == P.sha512([1])
  {
    hide SetupHandle, Value, Build;
    var proof := ColdProofs(P, G, c.A(G), false).M;
    ToBytesMonotone(c.A(G), G.N);
    c.EncodedA(G);
    SmallMod(c.A(G), G.N);
    assert ToBytes(1) == [1] by { assert ToBytes(0) == []; }
    ThreeItems([Item(6, [3]), Item(3, c.BytesA(G)), Item(4, proof)]);
    assert ServeAll(P, G, Create(sk, pk, pin), []) == Create(sk, pk, pin);
    ColdM3Exactness(P, G, sk, pk, pin, [], M3Body(G, c, proof), r);
  }

  /**
   When the PIN counts: the server holds a verifier exactly when it has served an M1, and it is the one
   made from its PIN.
   */
  lemma PinCountsAfterM1(P: Crypto, sk: Key, pk: Key, pin: Option<seq<byte>>, reqs: seq<Request>) returns (m: nat)
    ensures var srp := ServeAll(P, GROUP_3072, Create(sk, pk, pin), reqs).srp;
            && (Cold(srp) <==> NoM1(reqs))
            && (!Cold(srp) ==>
                  && m < |reqs| && reqs[m].IsSetup(1) && NoM1(reqs[m + 1..])
                  && srp.salt == reqs[m].r.salt && srp.b == reqs[m].r.b
                  && FromBytes(srp.verifier) == PinVerifier(P.sha512, GROUP_3072, reqs[m].r.salt, ConfiguredPin(pin)))
  {
    hide ServeAll, Value, ServerX, FromBytes, ToBytes, Pow;
    var G, ctx := GROUP_3072, Create(sk, pk, pin);
    m := OfferedOrigin(P, G, ctx, reqs);
    if NoM1(reqs) {
      StaysCold(P, G, sk, pk, pin, reqs);
    } else {
      var j :| 0 <= j < |reqs| && reqs[j].IsSetup(1);
      assert !NoMark(P, G, ctx, reqs, OfferedMark(P, G), 0);
      PinKept(P, G, ctx, reqs[..m]);
      var v := PinVerifier(P.sha512, G, reqs[m].r.salt, ctx.pin);
      Group3072(ServerX(P.sha512, reqs[m].r.salt, ctx.pin));
      FromToBytes(v);
      assert v != 0 && ToBytes(v) != [];
    }
  }

  // ----- pair-verify -----

  predicate NoVerifyM1(reqs: seq<Request>) {
    forall j :: 0 <= j < |reqs| ==> !reqs[j].IsVerify(1)
  }

  /** Without a verify M1 the key of pair-verify is all zeros, and an M3 is measured against that. */
  lemma ColdVerifyExactness(
    P: Crypto, G: Group, sk: Key, pk: Key, pin: Option<seq<byte>>, reqs: seq<Request>, body: seq<byte>, ecdhSk: Option<Key>)
    requires NoVerifyM1(reqs)
    ensures var ctx := ServeAll(P, G, Create(sk, pk, pin), reqs);
            var text := Unseal(P, Zeros(32), Ascii("PV-Msg03"), body);
            Value(body, 6) == Some([3]) ==>
              VerifyHandle(P, ctx, body, ecdhSk)
              == if text.Some? && Value(text.value, 1).Some? && Value(text.value, 10).Some? && |Value(text.value, 10).value| == 64
                 then Answer(ctx.(verifyState := 4), Some(Build([Item(6, [4])])))
                 else Answer(ctx, Some(Refusal(4, 2)))
  {
    hide ServeAll, Value, Unseal, VerifyHandle, Build, Refusal, Ascii;
    var ctx := ServeAll(P, G, Create(sk, pk, pin), reqs);
    var i := VerifyKeyOrigin(P, G, Create(sk, pk, pin), reqs);
    assert NoMark(P, G, Create(sk, pk, pin), reqs, VerifyKeyMark(P), 0) by {
      forall j | 0 <= j < |reqs| ensures reqs[j].PeerKey() == None {
        assert !reqs[j].IsVerify(1);
      }
    }
    VerifyM3Exactness(P, ctx, body, ecdhSk);
  }

  /** The simplest case: a new server, and anything sealed under the zero key that has the form of an M3. */
  lemma ColdVerifyAccepted(P: Crypto, sk: Key, pk: Key, pin: Option<seq<byte>>, c: VerifyClient, ecdhSk: Option<Key>)
    requires AeadLaw(P)
    ensures VerifyHandle(P, Create(sk, pk, pin), VerifyM3Body(P, c, Zeros(32)), ecdhSk).ctx.verifyState == 4
  {
    hide VerifyHandle, AeadLaw;
    VerifyM3Arrives(P, Create(sk, pk, pin), c, ecdhSk);
  }
}
