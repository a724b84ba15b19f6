/**
 CCM through the engine: the pieces of one request, each submitted once the piece before it has
 completed, among any other requests and in either execution mode.
 */
module EngineCcm {
  import opened Bytes
  import opened Rfc3610
  import opened CcmChunks
  import opened CryptoQueue
  import Ccm = CcmMachine
  import Cmac = CmacMachine

  /**
   The requests submitted at the positions at are the calls for the pieces: each hands the next piece
   to the request as the call before it left it. done lists the completed requests.
   */
  ghost predicate Series(
    rs: seq<Request>, done: seq<Request>, before: Ccm.Ccm, operation: Ccm.Operation, pieces: seq<seq<byte>>, at: seq<nat>)
    decreases |pieces|
  {
    && |at| == |pieces|
    && (pieces == [] ||
        (&& at[0] < |done| <= |rs| && rs[at[0]].CcmRequest? && done[at[0]].CcmRequest?
         && |pieces[0]| < 0x1_0000 && rs[at[0]].ccm == Ccm.Submit(before, operation, pieces[0])
         && Series(rs, done, done[at[0]].ccm, operation, pieces[1..], at[1..])))
  }

  /** The request after the last of its calls. */
  ghost function Left(done: seq<Request>, before: Ccm.Ccm, at: seq<nat>): Ccm.Ccm
    decreases |at|
  {
    if at != [] && at[0] < |done| && done[at[0]].CcmRequest? then Left(done, done[at[0]].ccm, at[1..]) else before
  }

  /** The output of all calls, in order. */
  ghost function Output(done: seq<Request>, at: seq<nat>): seq<byte> {
    if at != [] && at[0] < |done| && done[at[0]].CcmRequest? then done[at[0]].ccm.output + Output(done, at[1..]) else []
  }

  /** The engine runs the calls of a series as if they were alone. */
  lemma {:induction false} SeriesRuns(
    mode: Mode, E: Cipher, rs: seq<Request>, done: seq<Request>, before: Ccm.Ccm, operation: Ccm.Operation,
    pieces: seq<seq<byte>>, at: seq<nat>)
    requires |done| <= |rs| && forall i :: 0 <= i < |done| ==> Correct(mode, E, rs[i], done[i])
    requires Series(rs, done, before, operation, pieces, at)
    ensures RunPieces(E, before, operation, pieces)
            == Some(Outcome(Left(done, before, at), if operation == Ccm.DigestBlock then [] else Output(done, at)))
    decreases |pieces|
  {
    hide Ccm.RunCall, Ccm.Submit, Ccm.CallOk, Ccm.Calculating, Cmac.AsyncHash;
    if pieces != [] {
      var s := Ccm.Submit(before, operation, pieces[0]);
      assert Correct(mode, E, rs[at[0]], done[at[0]]);
      assert Ccm.CallOk(s) && Ccm.Calculating(s) && done[at[0]].ccm == Ccm.RunCall(E, s);
      SeriesRuns(mode, E, rs, done, done[at[0]].ccm, operation, pieces[1..], at[1..]);
      if operation == Ccm.DigestBlock {
        var none: seq<byte> := [];
        assert none + none == none;
      }
    } else {
      assert at == [];
    }
  }

  /**
   For every run of the engine: calls that cover the additional data and then the message yield the
   ciphertext, or the plaintext, and the authentication value of RFC 3610.
   */
  lemma EngineMeetsRfc(
    mode: Mode, E: Cipher, c: Cmac.Cmac, events: seq<Event>,
    key: Block, nonce: Nonce, aad: seq<byte>, msg: seq<byte>, authLen: byte, before: Ccm.Ccm, operation: Ccm.Operation,
    aadPieces: seq<seq<byte>>, aadAt: seq<nat>, pieces: seq<seq<byte>>, at: seq<nat>)
    requires c.state == Cmac.Idle && ValidRun(mode, E, Idle(c), events)
    requires |aad| < 0xff00 && 0 < |msg| < 0x1_0000 && ValidAuthLen(authLen) && operation != Ccm.DigestBlock
    requires AadCut(aadPieces, aad)
    requires MessageCut(pieces, if operation == Ccm.EncryptBlock then msg else Ctr(E, key, nonce, 1, msg))
    requires var done := After(mode, E, Idle(c), events).completed;
             var start := Ccm.Init(before, key, nonce, |msg|, |aad|, authLen);
             && Series(Submitted(events), done, start, Ccm.DigestBlock, aadPieces, aadAt)
             && Series(Submitted(events), done, Left(done, start, aadAt), operation, pieces, at)
    ensures var done := After(mode, E, Idle(c), events).completed;
            var r := Left(done, Left(done, Ccm.Init(before, key, nonce, |msg|, |aad|, authLen), aadAt), at);
            var rfc := Encrypt(E, key, nonce, aad, msg, authLen);
            && Output(done, at) == (if operation == Ccm.EncryptBlock then rfc.ciphertext else msg)
            && r.authLen == authLen && AuthenticationValue(r) == rfc.tag
  {
    hide ValidRun, After, Submitted, Correct, RunPieces, Series, Total, FullTag, Ctr;
    var done, rs := After(mode, E, Idle(c), events).completed, Submitted(events);
    var start := Ccm.Init(before, key, nonce, |msg|, |aad|, authLen);
    EngineSafety(mode, E, c, events);
    SeriesRuns(mode, E, rs, done, start, Ccm.DigestBlock, aadPieces, aadAt);
    SeriesRuns(mode, E, rs, done, Left(done, start, aadAt), operation, pieces, at);
    ChunkedRequest(E, key, nonce, aad, msg, authLen, before, aadPieces, operation, pieces);
  }
}
