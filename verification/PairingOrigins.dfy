/** Where everything the pairing server holds comes from: over all runs, the request that put it there. */
module PairingOrigins {
  import opened Bytes
  import opened Srp
  import opened TlvFormat
  import opened Pairing
  import opened PairingClient
  import opened Verdicts
  import opened PairingRuns

  // ----- what each request puts where -----

  /** An M1 drops the session key, an M3 that proves a key installs it. */
  function SessionKeyMark(P: Crypto, G: Group): Mark<Option<Digest>> {
    (c: Context, req: Request) =>
      if req.IsSetup(1) then Some(None)
      else if req.IsSetup(3) && ProvesKey(P, G, c.srp, req.body) then Some(Some(ProvenBy(P, G, c.srp, req.body).sessionKey))
      else None
  }

  function SessionKey(ctx: Context): Option<Digest> {
    if ctx.srp.hasSessionKey then Some(ctx.srp.sessionKey) else None
  }

  /** An M1 drops the client's key, an authentic M5 that carries one teaches it. */
  function ClientKeyMark(P: Crypto): Mark<Option<Key>> {
    (c: Context, req: Request) =>
      if req.IsSetup(1) then Some(None)
      else if req.IsSetup(5) && Taught(P, c.srp, req.body).Some? then Some(Taught(P, c.srp, req.body))
      else None
  }

  function ClientKey(ctx: Context): Option<Key> {
    if ctx.clientPkSet then Some(ctx.clientPk) else None
  }

  /** Salt, ephemeral and verifier, as M1 makes them. */
  datatype Offered = Offered(salt: Block, b: Key, verifier: seq<byte>)

  function OfferedMark(P: Crypto, G: Group): Mark<Offered> {
    (c: Context, req: Request) =>
      if req.IsSetup(1) then Some(Offered(req.r.salt, req.r.b, ToBytes(PinVerifier(P.sha512, G, req.r.salt, c.pin))))
      else None
  }

  function OfferedIn(ctx: Context): Offered {
    Offered(ctx.srp.salt, ctx.srp.b, ctx.srp.verifier)
  }

  function SetupMark(P: Crypto, G: Group): Mark<nat> {
    (c: Context, req: Request) =>
      if req.IsSetup(1) && G.GeneratorFits() then Some(2)
      else if req.IsSetup(3) && ProvesKey(P, G, c.srp, req.body) then Some(4)
      else if req.IsSetup(5) && Finishes(P, c, req.body) then Some(6)
      else None
  }

  function VerifyMark(P: Crypto): Mark<nat> {
    (c: Context, req: Request) =>
      if req.PeerKey().Some? && Introduced(P, c, req.PeerKey().value, req.ecdhSk).Some? then Some(2)
      else if req.IsVerify(3) && ProvesPeer(P, c.keys, req.body) then Some(4)
      else None
  }

  /** The key of pair-verify, from the secret of an M1 that got as far as its signature. */
  function VerifyKeyMark(P: Crypto): Mark<Key> {
    (c: Context, req: Request) =>
      if req.PeerKey().None? then None
      else
        var theirs := req.PeerKey().value;
        var secret := Agreed(P, theirs, req.ecdhSk);
        if secret.Some? && P.sign(c.ourSk, VerifyMessage(P.publicKey(req.ecdhSk.value), theirs)).Some?
        then Some(VerifyKey(P, secret.value)) else None
  }

  function SetupState(ctx: Context): nat {
    ctx.setupState
  }

  function VerifyState(ctx: Context): nat {
    ctx.verifyState
  }

  function EncKey(ctx: Context): Key {
    ctx.keys.encKey
  }

  // ----- from any state -----

  lemma SessionKeyTracked(P: Crypto, G: Group)
    ensures Tracks(P, G, SessionKeyMark(P, G), SessionKey)
  {
    hide Serve, Value, ProvesKey, ProvenBy, Authentic, Finishes, KeysAfterM1, Introduced, ProvesPeer, PinVerifier;
    forall c, req
      ensures SessionKey(Serve(P, G, c, req).ctx)
              == (match SessionKeyMark(P, G)(c, req) case None => SessionKey(c) case Some(v) => v)
    {
      ServeMeets(P, G, c, req);
    }
  }

  /** A session key is held exactly when an M3 that proved one had no M1 after it, and it is that of the last such M3. */
  lemma SessionKeyOrigin(P: Crypto, G: Group, ctx: Context, reqs: seq<Request>) returns (i: nat)
    ensures ComesFrom(P, G, ctx, reqs, SessionKeyMark(P, G), SessionKey, i)
  {
    hide Tracks, ComesFrom, SessionKeyMark;
    SessionKeyTracked(P, G);
    i := Origin(P, G, ctx, reqs, SessionKeyMark(P, G), SessionKey);
  }

  lemma ClientKeyTracked(P: Crypto, G: Group)
    ensures Tracks(P, G, ClientKeyMark(P), ClientKey)
  {
    hide Serve, Value, ProvesKey, ProvenBy, Taught, KeysAfterM1, Introduced, ProvesPeer, PinVerifier, Authentic;
    forall c, req
      ensures ClientKey(Serve(P, G, c, req).ctx)
              == (match ClientKeyMark(P)(c, req) case None => ClientKey(c) case Some(v) => v)
    {
      ServeMeets(P, G, c, req);
    }
  }

  /** A client key is known exactly when an authentic M5 that taught one had no M1 after it, and it is that of the last such M5. */
  lemma ClientKeyOrigin(P: Crypto, G: Group, ctx: Context, reqs: seq<Request>) returns (i: nat)
    ensures ComesFrom(P, G, ctx, reqs, ClientKeyMark(P), ClientKey, i)
  {
    hide Tracks, ComesFrom, ClientKeyMark;
    ClientKeyTracked(P, G);
    i := Origin(P, G, ctx, reqs, ClientKeyMark(P), ClientKey);
  }

  lemma OfferedTracked(P: Crypto, G: Group)
    ensures Tracks(P, G, OfferedMark(P, G), OfferedIn)
  {
    hide Serve, Value, ProvesKey, ProvenBy, Authentic, Finishes, KeysAfterM1, Introduced, ProvesPeer, PinVerifier;
    forall c, req
      ensures OfferedIn(Serve(P, G, c, req).ctx)
              == (match OfferedMark(P, G)(c, req) case None => OfferedIn(c) case Some(v) => v)
    {
      ServeMeets(P, G, c, req);
    }
  }

  /** Salt, ephemeral and verifier are those of the last M1, made from the PIN. */
  lemma OfferedOrigin(P: Crypto, G: Group, ctx: Context, reqs: seq<Request>) returns (i: nat)
    ensures ComesFrom(P, G, ctx, reqs, OfferedMark(P, G), OfferedIn, i)
  {
    hide Tracks, ComesFrom, OfferedMark;
    OfferedTracked(P, G);
    i := Origin(P, G, ctx, reqs, OfferedMark(P, G), OfferedIn);
  }

  lemma SetupStateTracked(P: Crypto, G: Group)
    ensures Tracks(P, G, SetupMark(P, G), SetupState)
  {
    hide Serve, Value, ProvesKey, ProvenBy, Authentic, Finishes, KeysAfterM1, Introduced, ProvesPeer, PinVerifier;
    forall c, req
      ensures SetupState(Serve(P, G, c, req).ctx)
              == (match SetupMark(P, G)(c, req) case None => SetupState(c) case Some(v) => v)
    {
      ServeMeets(P, G, c, req);
      OneState(req);
    }
  }

  /** setup_state tells which of the three successes of pair-setup came last. */
  lemma SetupStateOrigin(P: Crypto, G: Group, ctx: Context, reqs: seq<Request>) returns (i: nat)
    ensures ComesFrom(P, G, ctx, reqs, SetupMark(P, G), SetupState, i)
  {
    hide Tracks, ComesFrom, SetupMark;
    SetupStateTracked(P, G);
    i := Origin(P, G, ctx, reqs, SetupMark(P, G), SetupState);
  }

  lemma VerifyStateTracked(P: Crypto, G: Group)
    ensures Tracks(P, G, VerifyMark(P), VerifyState)
  {
    hide Serve, Value, ProvesKey, ProvenBy, Authentic, Finishes, KeysAfterM1, Introduced, ProvesPeer, PinVerifier;
    forall c, req
      ensures VerifyState(Serve(P, G, c, req).ctx)
              == (match VerifyMark(P)(c, req) case None => VerifyState(c) case Some(v) => v)
    {
      ServeMeets(P, G, c, req);
      OneState(req);
      if req.IsVerify(3) {
        assert req.PeerKey().None?;
      }
    }
  }

  /** verify_state tells which of the two successes of pair-verify came last. */
  lemma VerifyStateOrigin(P: Crypto, G: Group, ctx: Context, reqs: seq<Request>) returns (i: nat)
    ensures ComesFrom(P, G, ctx, reqs, VerifyMark(P), VerifyState, i)
  {
    hide Tracks, ComesFrom, VerifyMark;
    VerifyStateTracked(P, G);
    i := Origin(P, G, ctx, reqs, VerifyMark(P), VerifyState);
  }

  lemma VerifyKeyTracked(P: Crypto, G: Group)
    ensures Tracks(P, G, VerifyKeyMark(P), EncKey)
  {
    hide Serve, Value, ProvesKey, ProvenBy, Authentic, Finishes, Introduced, ProvesPeer, PinVerifier, VerifyMessage, VerifyKey;
    forall c, req
      ensures EncKey(Serve(P, G, c, req).ctx)
              == (match VerifyKeyMark(P)(c, req) case None => EncKey(c) case Some(v) => v)
    {
      ServeMeets(P, G, c, req);
      assert req.PeerKey().Some? ==> EncKey(After(P, G, c, req)) == KeysAfterM1(P, c, req.PeerKey().value, req.ecdhSk).encKey;
    }
  }

  /** The key of pair-verify is that of the last M1 with a secret and a signature. */
  lemma VerifyKeyOrigin(P: Crypto, G: Group, ctx: Context, reqs: seq<Request>) returns (i: nat)
    ensures ComesFrom(P, G, ctx, reqs, VerifyKeyMark(P), EncKey, i)
  {
    hide Tracks, ComesFrom, VerifyKeyMark;
    VerifyKeyTracked(P, G);
    i := Origin(P, G, ctx, reqs, VerifyKeyMark(P), EncKey);
  }

  /** No request changes the PIN or the long-term keys. */
  lemma {:induction false} PinKept(P: Crypto, G: Group, ctx: Context, reqs: seq<Request>)
    ensures var c := ServeAll(P, G, ctx, reqs);
            c.pin == ctx.pin && c.ourSk == ctx.ourSk && c.ourPk == ctx.ourPk
    decreases |reqs|
  {
    hide Serve, Value, ProvesKey, ProvenBy, Authentic, Finishes, KeysAfterM1, Introduced, ProvesPeer, PinVerifier;
    if reqs != [] {
      var n := |reqs| - 1;
      PinKept(P, G, ctx, reqs[..n]);
      ServeMeets(P, G, ServeAll(P, G, ctx, reqs[..n]), reqs[n]);
    }
  }

  // ----- from creation -----

  /**
   pair-setup is complete exactly when an M5 sealed under the session key was served and no state
   was entered since; the server then still holds the session key of that M5.
   */
  lemma PairedOrigin(P: Crypto, G: Group, sk: Key, pk: Key, pin: Option<seq<byte>>, reqs: seq<Request>) returns (i: nat)
    ensures var ctx := Create(sk, pk, pin);
            var now := ServeAll(P, G, ctx, reqs);
            && (now.setupState == 6
                <==> i < |reqs| && reqs[i].IsSetup(5) && Finishes(P, ServeAll(P, G, ctx, reqs[..i]), reqs[i].body)
                     && NoMark(P, G, ctx, reqs, SetupMark(P, G), i + 1))
            && (now.setupState == 6 ==> SessionKey(now) == SessionKey(ServeAll(P, G, ctx, reqs[..i])) && SessionKey(now).Some?)
  {
    hide Serve, ServeAll, Tracks, Value, ProvesKey, ProvenBy, Finishes;
    var ctx := Create(sk, pk, pin);
    i := SetupStateOrigin(P, G, ctx, reqs);
    RunKeeps(P, G, sk, pk, pin, reqs);
    if ServeAll(P, G, ctx, reqs).setupState == 6 {
      SessionKeyTracked(P, G);
      Unmarked(P, G, ctx, reqs, SessionKeyMark(P, G), SessionKey, i);
    }
  }

  /**
   pair-verify is complete exactly when an M3 sealed under the key of pair-verify was served and no
   M1 was answered since.
   */
  lemma VerifiedOrigin(P: Crypto, G: Group, sk: Key, pk: Key, pin: Option<seq<byte>>, reqs: seq<Request>) returns (i: nat)
    ensures var ctx := Create(sk, pk, pin);
            ServeAll(P, G, ctx, reqs).verifyState == 4
            <==> i < |reqs| && reqs[i].IsVerify(3) && ProvesPeer(P, ServeAll(P, G, ctx, reqs[..i]).keys, reqs[i].body)
                 && NoMark(P, G, ctx, reqs, VerifyMark(P), i + 1)
  {
    hide Serve, ServeAll, Value, Introduced, ProvesPeer;
    i := VerifyStateOrigin(P, G, Create(sk, pk, pin), reqs);
  }
}
