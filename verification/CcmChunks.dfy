/**
 The main results about CCM: for every cut of the additional data and of the message into
 calls, the request computes RFC 3610, and decryption undoes encryption.
 */
module CcmChunks {
  import opened Bytes
  import opened Rfc3610
  import opened CcmMachine
  import opened CcmRefinement

  function Flatten(pieces: seq<seq<byte>>): seq<byte> {
    if pieces == [] then [] else pieces[0] + Flatten(pieces[1..])
  }

  datatype Outcome = Outcome(c: Ccm, output: seq<byte>)

  /** A series of calls of one kind; None when one of them breaks the request's contract. */
  function RunPieces(E: Cipher, c: Ccm, operation: Operation, pieces: seq<seq<byte>>): Option<Outcome>
    decreases |pieces|
  {
    if pieces == [] then Some(Outcome(c, []))
    else if |pieces[0]| >= 0x1_0000 then None
    else
      var s := Submit(c, operation, pieces[0]);
      if !CallOk(s) || !Calculating(s) then None
      else
        var r := RunCall(E, s);
        match RunPieces(E, r, operation, pieces[1..])
        case None => None
        case Some(o) => Some(Outcome(o.c, (if operation == DigestBlock then [] else r.output) + o.output))
  }

  /** Additional data may be cut anywhere, even into empty pieces, but no call may follow its end. */
  predicate AadCut(pieces: seq<seq<byte>>, aad: seq<byte>) {
    Flatten(pieces) == aad && (pieces != [] ==> pieces[|pieces| - 1] != [])
  }

  /** Message pieces are whole blocks, except the last, and shorter than 256 bytes. */
  predicate MessageCut(pieces: seq<seq<byte>>, msg: seq<byte>) {
    && Flatten(pieces) == msg
    && forall i :: 0 <= i < |pieces| ==> 0 < |pieces[i]| < 256 && (i < |pieces| - 1 ==> |pieces[i]| % 16 == 0)
  }

  // ----- one call -----

  /** Between two calls: n bytes of the additional data have been digested. */
  predicate AadAt(E: Cipher, c: Ccm, aad: seq<byte>, msgLen: uint16, n: nat) {
    && ValidAuthLen(c.authLen) && n <= |aad| == c.aadLen < 0xff00 && c.messageLen == msgLen && c.counter == 1
    && var x1 := E(c.key, B0(c.nonce, |aad|, msgLen, c.authLen));
    || (c.state == CalculateX1 && n == 0 && c.aadOffset == 0)
    || (c.state == CalculateAadXn && n < |aad| && c.aadOffset == n + 2 && c.aadRemainderLen == (n + 2) % 16
        && c.xi == Partial(E, c.key, x1, EncodeAad(aad)[..n + 2]))
    || (c.state == W4AadXn && 0 < n == |aad| && c.xi == Cbc(E, c.key, x1, EncodeAad(aad)))
  }

  /** A first digest call computes X_1 and then mixes in the length field. */
  lemma FirstDigest(E: Cipher, c: Ccm, x1: Block, z: seq<byte>)
    requires CallOk(c) && c.operation == DigestBlock && c.state == CalculateX1 && |z| == c.aadLen + 2
    requires x1 == E(c.key, B0(c.nonce, c.aadLen, c.messageLen, c.authLen))
    requires z[..2] == BigEndian16(c.aadLen) && c.input == z[2..2 + |c.input|]
    ensures var c1 := MixLength(c.(state := CalculateAadXn, aadRemainderLen := 0, xi := x1));
            Digesting(E, c1, x1, z) && RunCall(E, c) == RunCall(E, c1)
  {
    IssueKeeps(c);
    AbsorbKeeps(Issue(c).c, x1);
    var c0 := Absorb(Issue(c).c, x1).c;
    assert c0 == c.(state := CalculateAadXn, aadRemainderLen := 0, xi := x1);
    var c1 := MixLength(c0);
    PartialAtBoundary(E, c.key, x1, z[..0]);
    MixKeepsPartial(E, c.key, x1, z, 0, BigEndian16(c.aadLen));
    assert RunCall(E, c) == Resume(E, Issue(c).c, x1) == RunCall(E, c0);
    assert FillAad(c0) == FillAad(c1) && Issue(c0) == Issue(c1);
  }

  lemma DigestCall(E: Cipher, c: Ccm, aad: seq<byte>, msgLen: uint16, n: nat, p: seq<byte>)
    requires AadAt(E, c, aad, msgLen, n) && n < |aad|
    requires n + |p| <= |aad| && p == aad[n..n + |p|]
    ensures var s := Submit(c, DigestBlock, p);
            && CallOk(s) && Calculating(s)
            && var r := RunCall(E, s);
            r.key == c.key && r.nonce == c.nonce && r.authLen == c.authLen && AadAt(E, r, aad, msgLen, n + |p|)
  {
    hide Cbc, Ctr, Work, Issue, Absorb, Partial;
    var s := Submit(c, DigestBlock, p);
    var z := EncodeAad(aad);
    var x1 := E(c.key, B0(c.nonce, |aad|, msgLen, c.authLen));
    assert p == z[n + 2..n + 2 + |p|];
    if c.state == CalculateX1 {
      FirstDigest(E, s, x1, z);
      DigestRun(E, MixLength(s.(state := CalculateAadXn, aadRemainderLen := 0, xi := x1)), x1, z);
    } else {
      DigestRun(E, s, x1, z);
    }
  }

  /** Between two calls: the additional data and e bytes of the message are done. */
  predicate MessageAt(E: Cipher, c: Ccm, aad: seq<byte>, msg: seq<byte>, e: nat) {
    && |aad| < 0xff00 && e <= |msg| < 0x1_0000 && ValidAuthLen(c.authLen)
    && c.messageLen == |msg| - e
    && var xa := AadMac(E, c.key, c.nonce, aad, |msg|, c.authLen);
    if e == |msg| then c.xi == FullTag(E, c.key, c.nonce, aad, msg, c.authLen)
    else
      && e % 16 == 0 && c.counter == e / 16 + 1
      && (if c.state == CalculateX1 then e == 0 && aad == [] && c.aadLen == 0
          else c.xi == Cbc(E, c.key, xa, msg[..e]))
  }

  lemma AadDone(E: Cipher, c: Ccm, aad: seq<byte>, msg: seq<byte>)
    requires 0 < |msg| < 0x1_0000 && AadAt(E, c, aad, |msg|, |aad|)
    ensures MessageAt(E, c, aad, msg, 0)
  {
    assert msg[..0] == [];
  }

  /** A first message call without additional data computes X_1. */
  lemma FirstMessage(E: Cipher, s: Ccm)
    requires CallOk(s) && s.operation != DigestBlock && s.state == CalculateX1
    ensures var x1 := E(s.key, B0(s.nonce, s.aadLen, s.messageLen, s.authLen));
            var c1 := s.(xi := x1, state := if s.operation == EncryptBlock then CalculateXn else CalculateSn);
            CallOk(c1) && Calculating(c1) && RunCall(E, s) == RunCall(E, c1)
  {
    IssueKeeps(s);
    AbsorbKeeps(Issue(s).c, E(s.key, Issue(s).block));
  }

  lemma NoAadMac(E: Cipher, key: Block, nonce: Nonce, msg: seq<byte>, authLen: byte)
    requires |msg| < 0x1_0000 && ValidAuthLen(authLen)
    ensures var x1 := E(key, B0(nonce, 0, |msg|, authLen));
            AadMac(E, key, nonce, [], |msg|, authLen) == x1 == Cbc(E, key, x1, msg[..0])
  {
  }

  /** A message call from its first CBC or counter block on. */
  lemma StartedCall(E: Cipher, s: Ccm, aad: seq<byte>, msg: seq<byte>, e: nat)
    requires |aad| < 0xff00 && CallOk(s) && s.operation != DigestBlock
    requires s.state == if s.operation == EncryptBlock then CalculateXn else CalculateSn
    requires e < |msg| < 0x1_0000 && s.messageLen == |msg| - e && e % 16 == 0 && s.counter == e / 16 + 1 && s.pos == 0
    requires s.blockLen < 256 && (s.blockLen % 16 == 0 || s.blockLen == s.messageLen)
    requires s.input == Source(E, s.key, s.nonce, s.operation, msg)[e..e + s.blockLen]
    requires s.xi == Cbc(E, s.key, AadMac(E, s.key, s.nonce, aad, |msg|, s.authLen), msg[..e])
    ensures var r := RunCall(E, s);
            && r.key == s.key && r.nonce == s.nonce && r.authLen == s.authLen
            && r.output == Target(E, s.key, s.nonce, s.operation, msg)[e..e + s.blockLen]
            && MessageAt(E, r, aad, msg, e + s.blockLen)
  {
    hide RunCall, Cbc, Ctr, AadMac, Work, Messaging, Messaged, Source, Target, MessageAt, FullTag;
    var xa := AadMac(E, s.key, s.nonce, aad, |msg|, s.authLen);
    CallStarts(E, s, xa, msg, e);
    MessageRun(E, s, xa, msg);
    CallEnds(E, s, RunCall(E, s), aad, msg, e);
  }

  lemma CallStarts(E: Cipher, s: Ccm, xa: Block, msg: seq<byte>, e: nat)
    requires CallOk(s) && s.operation != DigestBlock && s.state == if s.operation == EncryptBlock then CalculateXn else CalculateSn
    requires e < |msg| < 0x1_0000 && s.messageLen == |msg| - e && e % 16 == 0 && s.counter == e / 16 + 1 && s.pos == 0
    requires s.blockLen < 256 && (s.blockLen % 16 == 0 || s.blockLen == s.messageLen)
    requires s.input == Source(E, s.key, s.nonce, s.operation, msg)[e..e + s.blockLen]
    requires s.xi == Cbc(E, s.key, xa, msg[..e])
    ensures Messaging(E, s, xa, msg)
  {
    hide Cbc, Ctr, Work, Source, Target;
    assert |msg| - s.messageLen == e;
    assert s.output == [];
  }

  lemma CallEnds(E: Cipher, s: Ccm, r: Ccm, aad: seq<byte>, msg: seq<byte>, e: nat)
    requires |aad| < 0xff00 && e + s.blockLen <= |msg| < 0x1_0000 && ValidAuthLen(s.authLen)
    requires Messaged(E, s, r, AadMac(E, s.key, s.nonce, aad, |msg|, s.authLen), msg, e, e + s.blockLen)
    ensures r.key == s.key && r.nonce == s.nonce && r.authLen == s.authLen
    ensures r.output == Target(E, s.key, s.nonce, s.operation, msg)[e..e + s.blockLen]
    ensures MessageAt(E, r, aad, msg, e + s.blockLen)
  {
    hide Cbc, AadMac, Target, CounterBlock;
  }

  lemma MessageCall(E: Cipher, c: Ccm, operation: Operation, aad: seq<byte>, msg: seq<byte>, e: nat, p: seq<byte>)
    requires operation != DigestBlock && MessageAt(E, c, aad, msg, e) && e < |msg|
    requires 0 < |p| < 256 && e + |p| <= |msg| && (|p| % 16 == 0 || e + |p| == |msg|)
    requires p == Source(E, c.key, c.nonce, operation, msg)[e..e + |p|]
    ensures var s := Submit(c, operation, p);
            && CallOk(s) && Calculating(s)
            && var r := RunCall(E, s);
            && r.key == c.key && r.nonce == c.nonce && r.authLen == c.authLen
            && r.output == Target(E, c.key, c.nonce, operation, msg)[e..e + |p|]
            && MessageAt(E, r, aad, msg, e + |p|)
  {
    hide RunCall, Cbc, Ctr, Work, Issue, Absorb, FullTag, AadMac;
    var s := Submit(c, operation, p);
    var xa := AadMac(E, c.key, c.nonce, aad, |msg|, c.authLen);
    if c.state == CalculateX1 {
      FirstMessage(E, s);
      var x1 := E(s.key, B0(s.nonce, s.aadLen, s.messageLen, s.authLen));
      var c1 := s.(xi := x1, state := if s.operation == EncryptBlock then CalculateXn else CalculateSn);
      NoAadMac(E, c.key, c.nonce, msg, c.authLen);
      StartedCall(E, c1, aad, msg, e);
    } else {
      StartedCall(E, s, aad, msg, e);
    }
  }

  // ----- all calls -----

  lemma {:induction false} FlattenNonEmpty(pieces: seq<seq<byte>>)
    requires pieces != [] && pieces[|pieces| - 1] != []
    ensures Flatten(pieces) != []
  {
    if |pieces| > 1 {
      FlattenNonEmpty(pieces[1..]);
    }
  }

  lemma AadBounds(E: Cipher, c: Ccm, aad: seq<byte>, msgLen: uint16, n: nat)
    requires AadAt(E, c, aad, msgLen, n)
    ensures n <= |aad| < 0xff00
  {
  }

  lemma {:induction false} DigestPieces(E: Cipher, c: Ccm, aad: seq<byte>, msgLen: uint16, n: nat, pieces: seq<seq<byte>>)
    requires AadAt(E, c, aad, msgLen, n) && AadCut(pieces, aad[n..])
    ensures var o := RunPieces(E, c, DigestBlock, pieces);
            && o.Some? && o.value.c.key == c.key && o.value.c.nonce == c.nonce && o.value.c.authLen == c.authLen
            && AadAt(E, o.value.c, aad, msgLen, |aad|)
    decreases |pieces|
  {
    hide RunCall, Cbc, Work, Issue, Absorb, Submit, Partial, AadAt, CallOk, Calculating;
    AadBounds(E, c, aad, msgLen, n);
    if pieces != [] {
      FlattenNonEmpty(pieces);
      var p := pieces[0];
      assert p == aad[n..][..|p|] && Flatten(pieces[1..]) == aad[n..][|p|..];
      assert aad[n..][|p|..] == aad[n + |p|..];
      DigestCall(E, c, aad, msgLen, n, p);
      DigestPieces(E, RunCall(E, Submit(c, DigestBlock, p)), aad, msgLen, n + |p|, pieces[1..]);
    }
  }

  lemma {:induction false} MessagePieces(
    E: Cipher, c: Ccm, operation: Operation, aad: seq<byte>, msg: seq<byte>, e: nat, pieces: seq<seq<byte>>)
    requires operation != DigestBlock && MessageAt(E, c, aad, msg, e)
    requires MessageCut(pieces, Source(E, c.key, c.nonce, operation, msg)[e..])
    ensures var o := RunPieces(E, c, operation, pieces);
            && o.Some?
            && o.value.output == Target(E, c.key, c.nonce, operation, msg)[e..]
            && o.value.c.xi == FullTag(E, c.key, c.nonce, aad, msg, c.authLen)
            && o.value.c.authLen == c.authLen
    decreases |pieces|
  {
    hide RunCall, Cbc, Ctr, Work, Issue, Absorb, FullTag, Submit, AadMac;
    var source, target := Source(E, c.key, c.nonce, operation, msg), Target(E, c.key, c.nonce, operation, msg);
    if pieces == [] {
      assert target[e..] == [];
    } else {
      var p, rest := pieces[0], pieces[1..];
      assert source[e..] == p + Flatten(rest);
      assert p == source[e..e + |p|] && Flatten(rest) == source[e + |p|..];
      if rest == [] {
        assert e + |p| == |msg|;
      }
      MessageCall(E, c, operation, aad, msg, e, p);
      MessagePieces(E, RunCall(E, Submit(c, operation, p)), operation, aad, msg, e + |p|, rest);
      assert target[e..] == target[e..e + |p|] + target[e + |p|..];
    }
  }

  /** init, then the digest calls, then the message calls. */
  function RunRequest(E: Cipher, c: Ccm, aadPieces: seq<seq<byte>>, operation: Operation, pieces: seq<seq<byte>>): Option<Outcome> {
    match RunPieces(E, c, DigestBlock, aadPieces)
    case None => None
    case Some(o) => RunPieces(E, o.c, operation, pieces)
  }

  /** What get_authentication_value copies out. */
  function AuthenticationValue(c: Ccm): seq<byte>
    requires c.authLen <= 16
  {
    c.xi[..c.authLen]
  }

  /** A request started by init, whatever it was used for before, meets either operation. */
  lemma ChunkedRequest(
    E: Cipher, key: Block, nonce: Nonce, aad: seq<byte>, msg: seq<byte>, authLen: byte, before: Ccm,
    aadPieces: seq<seq<byte>>, operation: Operation, pieces: seq<seq<byte>>)
    requires |aad| < 0xff00 && 0 < |msg| < 0x1_0000 && ValidAuthLen(authLen) && operation != DigestBlock
    requires AadCut(aadPieces, aad)
    requires MessageCut(pieces, if operation == EncryptBlock then msg else Ctr(E, key, nonce, 1, msg))
    ensures var o := RunRequest(E, Init(before, key, nonce, |msg|, |aad|, authLen), aadPieces, operation, pieces);
            && o.Some?
            && o.value.output == (if operation == EncryptBlock then Ctr(E, key, nonce, 1, msg) else msg)
            && o.value.c.xi == FullTag(E, key, nonce, aad, msg, authLen) && o.value.c.authLen == authLen
  {
    hide RunCall, RunPieces, Cbc, Ctr, Work, Issue, Absorb, FullTag, Submit, MessageAt, AadMac;
    var c := Init(before, key, nonce, |msg|, |aad|, authLen);
    assert aad[0..] == aad;
    DigestPieces(E, c, aad, |msg|, 0, aadPieces);
    var c1 := RunPieces(E, c, DigestBlock, aadPieces).value.c;
    AadDone(E, c1, aad, msg);
    var source, target := Source(E, key, nonce, operation, msg), Target(E, key, nonce, operation, msg);
    assert source[0..] == source && target[0..] == target;
    MessagePieces(E, c1, operation, aad, msg, 0, pieces);
  }

  /**
   Chunked encryption refines RFC 3610: for every block function, and however the additional
   data and the message are cut, ciphertext and authentication value are the one-shot ones.
   */
  lemma ChunkedEncryption(
    E: Cipher, key: Block, nonce: Nonce, aad: seq<byte>, msg: seq<byte>, authLen: byte, before: Ccm,
    aadPieces: seq<seq<byte>>, pieces: seq<seq<byte>>)
    requires |aad| < 0xff00 && 0 < |msg| < 0x1_0000 && ValidAuthLen(authLen)
    requires AadCut(aadPieces, aad) && MessageCut(pieces, msg)
    ensures var o := RunRequest(E, Init(before, key, nonce, |msg|, |aad|, authLen), aadPieces, EncryptBlock, pieces);
            && o.Some? && o.value.c.authLen == authLen
            && Sealed(o.value.output, AuthenticationValue(o.value.c)) == Encrypt(E, key, nonce, aad, msg, authLen)
  {
    ChunkedRequest(E, key, nonce, aad, msg, authLen, before, aadPieces, EncryptBlock, pieces);
  }

  /**
   Decryption inverts encryption, for every block function and even when the two sides cut the
   additional data and the message differently: the message comes back, and both requests end
   with the same chaining value.
   */
  lemma DecryptionInverts(
    E: Cipher, key: Block, nonce: Nonce, aad: seq<byte>, msg: seq<byte>, authLen: byte, before: Ccm, before': Ccm,
    aadPieces: seq<seq<byte>>, pieces: seq<seq<byte>>, aadPieces': seq<seq<byte>>, pieces': seq<seq<byte>>)
    requires |aad| < 0xff00 && 0 < |msg| < 0x1_0000 && ValidAuthLen(authLen)
    requires AadCut(aadPieces, aad) && MessageCut(pieces, msg) && AadCut(aadPieces', aad)
    requires var o := RunRequest(E, Init(before, key, nonce, |msg|, |aad|, authLen), aadPieces, EncryptBlock, pieces);
             o.Some? ==> MessageCut(pieces', o.value.output)
    ensures var o := RunRequest(E, Init(before, key, nonce, |msg|, |aad|, authLen), aadPieces, EncryptBlock, pieces);
            var o' := RunRequest(E, Init(before', key, nonce, |msg|, |aad|, authLen), aadPieces', DecryptBlock, pieces');
            && o.Some? && o'.Some?
            && o'.value.output == msg
            && o'.value.c.xi == o.value.c.xi
  {
    ChunkedRequest(E, key, nonce, aad, msg, authLen, before, aadPieces, EncryptBlock, pieces);
    ChunkedRequest(E, key, nonce, aad, msg, authLen, before', aadPieces', DecryptBlock, pieces');
  }
}
