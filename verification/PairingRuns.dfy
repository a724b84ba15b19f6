/**
 Whole runs of the pairing server: an invariant over all sequences of setup and verify requests, and
 for everything the server holds the request it comes from.
 */
module PairingRuns {
  import opened Bytes
  import opened Srp
  import opened TlvFormat
  import opened Pairing
  import opened PairingClient
  import opened Verdicts

  /** A request with the random values the server draws while it answers. */
  datatype Request = SetupRequest(body: seq<byte>, r: Random) | VerifyRequest(body: seq<byte>, ecdhSk: Option<Key>)
  {
    predicate IsSetup(state: byte) { SetupRequest? && Value(body, 6) == Some([state]) }

    predicate IsVerify(state: byte) { VerifyRequest? && Value(body, 6) == Some([state]) }

    /** The peer's key in a verify M1, when it has the right length. */
    function PeerKey(): (r: Option<Key>) {
      if IsVerify(1) && Value(body, 3).Some? && |Value(body, 3).value| == 32 then Some(Value(body, 3).value) else None
    }
  }

  function Serve(P: Crypto, G: Group, ctx: Context, req: Request): Answer {
    match req
    case SetupRequest(body, r) => SetupHandle(P, G, ctx, body, r)
    case VerifyRequest(body, sk) => VerifyHandle(P, ctx, body, sk)
  }

  /** The context after a run. */
  function ServeAll(P: Crypto, G: Group, ctx: Context, reqs: seq<Request>): Context {
    if reqs == [] then ctx
    else
      var n := |reqs| - 1;
      Serve(P, G, ServeAll(P, G, ctx, reqs[..n]), reqs[n]).ctx
  }

  // ----- what a request changes -----

  function AfterM1(P: Crypto, G: Group, ctx: Context, r: Random): Context {
    var v := PinVerifier(P.sha512, G, r.salt, ctx.pin);
    ctx.(srp := SrpState(r.salt, r.b, ToBytes(v), ctx.srp.sessionKey, false), clientPkSet := false,
         setupState := if G.GeneratorFits() then 2 else ctx.setupState)
  }

  function AfterM3(P: Crypto, G: Group, ctx: Context, body: seq<byte>): Context {
    if !ProvesKey(P, G, ctx.srp, body) then ctx
    else ctx.(srp := ctx.srp.(sessionKey := ProvenBy(P, G, ctx.srp, body).sessionKey, hasSessionKey := true), setupState := 4)
  }

  function AfterM5(P: Crypto, ctx: Context, body: seq<byte>): Context {
    var learned := Learned(P, ctx, body);
    if Finishes(P, ctx, body) then learned.(setupState := 6) else learned
  }

  function AfterVerifyM1(P: Crypto, ctx: Context, theirs: Key, ecdhSk: Option<Key>): Context {
    ctx.(keys := KeysAfterM1(P, ctx, theirs, ecdhSk),
         verifyState := if Introduced(P, ctx, theirs, ecdhSk).Some? then 2 else ctx.verifyState)
  }

  /** Five kinds of request change the context; all others leave it as it is. */
  function After(P: Crypto, G: Group, ctx: Context, req: Request): Context {
    if req.IsSetup(1) then AfterM1(P, G, ctx, req.r)
    else if req.IsSetup(3) then AfterM3(P, G, ctx, req.body)
    else if req.IsSetup(5) then AfterM5(P, ctx, req.body)
    else if req.PeerKey().Some? then AfterVerifyM1(P, ctx, req.PeerKey().value, req.ecdhSk)
    else if req.IsVerify(3) && ProvesPeer(P, ctx.keys, req.body) then ctx.(verifyState := 4)
    else ctx
  }

  lemma ServeMeets(P: Crypto, G: Group, ctx: Context, req: Request)
    ensures Serve(P, G, ctx, req).ctx == After(P, G, ctx, req)
  {
    hide SetupHandle, VerifyHandle, Value, Build, ProvesKey, ProvenBy, Learned, Finishes, ProvesPeer, KeysAfterM1, Introduced,
         PinVerifier, PublicB, Authentic, ToBytes, FromBytes, Refusal, Seal, M6Text, VerifyText;
    match req {
      case SetupRequest(body, r) =>
        OtherSetupRequests(P, G, ctx, body, r);
        M1Exactness(P, G, ctx, body, r);
        M3Exactness(P, G, ctx, body, r);
        M5Exactness(P, G, ctx, body, r);
      case VerifyRequest(body, ecdhSk) =>
        OtherVerifyRequests(P, ctx, body, ecdhSk);
        VerifyM1Exactness(P, ctx, body, ecdhSk);
        VerifyM3Exactness(P, ctx, body, ecdhSk);
    }
    OneByte(Value(req.body, 6));
  }

  /** A request has one State. */
  lemma OneState(req: Request)
    ensures !(req.IsSetup(1) && req.IsSetup(3)) && !(req.IsSetup(1) && req.IsSetup(5)) && !(req.IsSetup(3) && req.IsSetup(5))
    ensures !(req.IsVerify(1) && req.IsVerify(3))
  {
    hide Value;
    assert [1][0] != [3][0] && [1][0] != [5][0] && [3][0] != [5][0];
  }

  lemma OneByte(state: Option<seq<byte>>)
    ensures state.Some? && |state.value| == 1 ==> state == Some([state.value[0]])
  {
    if state.Some? && |state.value| == 1 {
      assert state.value == [state.value[0]];
    }
  }

  // ----- the invariant -----

  /** Without a usable generator no setup ever starts. */
  predicate Invariant(G: Group, ctx: Context) {
    && (G.GeneratorFits() || ctx.setupState == 0)
    && ctx.setupState in {0, 2, 4, 6}
    && ctx.verifyState in {0, 2, 4}
    && (ctx.srp.hasSessionKey <==> ctx.setupState in {4, 6})
    && (ctx.setupState == 6 ==> ctx.clientPkSet)
    && (ctx.clientPkSet ==> ctx.srp.hasSessionKey)
  }

  lemma ServeKeeps(P: Crypto, G: Group, ctx: Context, req: Request)
    requires Invariant(G, ctx)
    ensures Invariant(G, Serve(P, G, ctx, req).ctx)
  {
    hide Serve, Value, ProvenBy, ServerProofs, KeysAfterM1, Introduced, ProvesPeer, PinVerifier, Unseal, ToBytes, FromBytes;
    ServeMeets(P, G, ctx, req);
  }

  /** Over every run of setup and verify requests, from the state pair_ctx_create leaves. */
  lemma {:induction false} RunKeeps(P: Crypto, G: Group, sk: Key, pk: Key, pin: Option<seq<byte>>, reqs: seq<Request>)
    ensures Invariant(G, ServeAll(P, G, Create(sk, pk, pin), reqs))
    decreases |reqs|
  {
    if reqs != [] {
      var n := |reqs| - 1;
      RunKeeps(P, G, sk, pk, pin, reqs[..n]);
      ServeKeeps(P, G, ServeAll(P, G, Create(sk, pk, pin), reqs[..n]), reqs[n]);
    }
  }

  // ----- the request a value comes from -----

  /** What a request puts in a part of the context; None when it leaves that part alone. */
  type Mark<T> = (Context, Request) -> Option<T>

  /** Request i is the last that put anything there. */
  ghost predicate LastMark<T>(P: Crypto, G: Group, ctx: Context, reqs: seq<Request>, mark: Mark<T>, i: nat) {
    && i < |reqs| && mark(ServeAll(P, G, ctx, reqs[..i]), reqs[i]).Some?
    && NoMark(P, G, ctx, reqs, mark, i + 1)
  }

  ghost predicate NoMark<T>(P: Crypto, G: Group, ctx: Context, reqs: seq<Request>, mark: Mark<T>, i: nat) {
    forall j :: i <= j < |reqs| ==> mark(ServeAll(P, G, ctx, reqs[..j]), reqs[j]).None?
  }

  /** A part of the context after a run: as it was, or what the last request that put anything there has put there. */
  ghost predicate ComesFrom<T>(P: Crypto, G: Group, ctx: Context, reqs: seq<Request>, mark: Mark<T>, part: Context -> T, i: nat) {
    var now := part(ServeAll(P, G, ctx, reqs));
    if NoMark(P, G, ctx, reqs, mark, 0) then now == part(ctx)
    else LastMark(P, G, ctx, reqs, mark, i) && mark(ServeAll(P, G, ctx, reqs[..i]), reqs[i]) == Some(now)
  }

  /** The marks account for every change of this part. */
  ghost predicate Tracks<T(!new)>(P: Crypto, G: Group, mark: Mark<T>, part: Context -> T) {
    forall c, req :: part(Serve(P, G, c, req).ctx) == (match mark(c, req) case None => part(c) case Some(v) => v)
  }

  lemma Track<T(!new)>(P: Crypto, G: Group, mark: Mark<T>, part: Context -> T, ctx: Context, req: Request)
    requires Tracks(P, G, mark, part)
    ensures part(Serve(P, G, ctx, req).ctx) == (match mark(ctx, req) case None => part(ctx) case Some(v) => v)
  {
    hide Serve;
  }

  lemma MarkAtEnd<T>(P: Crypto, G: Group, ctx: Context, reqs: seq<Request>, mark: Mark<T>, i: nat)
    requires i < |reqs|
    ensures var n := |reqs| - 1;
            NoMark(P, G, ctx, reqs, mark, i)
            <==> NoMark(P, G, ctx, reqs[..n], mark, i) && mark(ServeAll(P, G, ctx, reqs[..n]), reqs[n]).None?
  {
    hide ServeAll;
    var n := |reqs| - 1;
    assert forall j {:trigger reqs[..j]} | 0 <= j < n :: reqs[..n][..j] == reqs[..j] && reqs[..n][j] == reqs[j];
  }

  lemma {:induction false} Origin<T(!new)>(P: Crypto, G: Group, ctx: Context, reqs: seq<Request>, mark: Mark<T>, part: Context -> T)
    returns (i: nat)
    requires Tracks(P, G, mark, part)
    ensures ComesFrom(P, G, ctx, reqs, mark, part, i)
    decreases |reqs|
  {
    hide Serve, Tracks, NoMark;
    i := 0;
    if reqs == [] {
      assert NoMark(P, G, ctx, reqs, mark, 0) by { NoneBeyond(P, G, ctx, reqs, mark, 0); }
    } else {
      var n := |reqs| - 1;
      i := Origin(P, G, ctx, reqs[..n], mark, part);
      Track(P, G, mark, part, ServeAll(P, G, ctx, reqs[..n]), reqs[n]);
      MarkAtEnd(P, G, ctx, reqs, mark, 0);
      if mark(ServeAll(P, G, ctx, reqs[..n]), reqs[n]).Some? {
        i := n;
        NoneBeyond(P, G, ctx, reqs, mark, n + 1);
      } else if !NoMark(P, G, ctx, reqs, mark, 0) {
        assert reqs[..n][..i] == reqs[..i];
        MarkAtEnd(P, G, ctx, reqs, mark, i + 1);
      }
    }
  }

  lemma NoneBeyond<T>(P: Crypto, G: Group, ctx: Context, reqs: seq<Request>, mark: Mark<T>, i: nat)
    requires i >= |reqs|
    ensures NoMark(P, G, ctx, reqs, mark, i)
  {
  }

  /** Since the last mark nothing has changed. */
  lemma {:induction false} Unmarked<T(!new)>(
    P: Crypto, G: Group, ctx: Context, reqs: seq<Request>, mark: Mark<T>, part: Context -> T, i: nat)
    requires i <= |reqs| && Tracks(P, G, mark, part) && NoMark(P, G, ctx, reqs, mark, i)
    ensures part(ServeAll(P, G, ctx, reqs)) == part(ServeAll(P, G, ctx, reqs[..i]))
    decreases |reqs|
  {
    hide Serve, Tracks, NoMark;
    if i == |reqs| {
      assert reqs[..i] == reqs;
    } else {
      var n := |reqs| - 1;
      MarkAtEnd(P, G, ctx, reqs, mark, i);
      Unmarked(P, G, ctx, reqs[..n], mark, part, i);
      Track(P, G, mark, part, ServeAll(P, G, ctx, reqs[..n]), reqs[n]);
      assert reqs[..n][..i] == reqs[..i];
    }
  }
}
