/**
 How long a message piece may be. calc_xn counts the bytes of its block in eight bits, taken from
 the length of what is left of the piece: from 256 bytes on, one block of the piece is not mixed in
 whole.
 */
module CcmLimit {
  import opened Bytes
  import opened Rfc3610
  import opened CcmMachine
  import opened CcmChunks

  function Total(lens: seq<nat>): nat {
    if lens == [] then 0 else lens[0] + Total(lens[1..])
  }

  /** Lengths a caller may cut a message into: whole blocks, except the last. */
  predicate Lengths(lens: seq<nat>) {
    && lens != [] && Total(lens) < 0x1_0000
    && forall i :: 0 <= i < |lens| ==> 0 < lens[i] && (i < |lens| - 1 ==> lens[i] % 16 == 0)
  }

  predicate HasLengths(pieces: seq<seq<byte>>, lens: seq<nat>) {
    |pieces| == |lens| && forall i :: 0 <= i < |pieces| ==> |pieces[i]| == lens[i]
  }

  /** The request encrypts the pieces, without additional data, as RFC 3610 encrypts their message. */
  predicate Right(E: Cipher, before: Ccm, key: Block, nonce: Nonce, authLen: byte, pieces: seq<seq<byte>>)
    requires ValidAuthLen(authLen)
  {
    var msg := Flatten(pieces);
    && |msg| < 0x1_0000
    && var o := RunRequest(E, Init(before, key, nonce, |msg|, 0, authLen), [], EncryptBlock, pieces);
    && o.Some? && o.value.c.authLen == authLen
    && Sealed(o.value.output, AuthenticationValue(o.value.c)) == Encrypt(E, key, nonce, [], msg, authLen)
  }

  ghost predicate AlwaysRight(lens: seq<nat>) {
    forall E: Cipher, before: Ccm, key: Block, nonce: Nonce, authLen: byte, pieces: seq<seq<byte>> ::
      ValidAuthLen(authLen) && HasLengths(pieces, lens) ==> Right(E, before, key, nonce, authLen, pieces)
  }

  lemma {:induction false} FlattenLength(pieces: seq<seq<byte>>, lens: seq<nat>)
    requires HasLengths(pieces, lens)
    ensures |Flatten(pieces)| == Total(lens)
    decreases |pieces|
  {
    if pieces != [] {
      FlattenLength(pieces[1..], lens[1..]);
    }
  }

  // ----- a message whose one non-zero byte the request overlooks -----

  function Identity(key: Block, x: Block): Block {
    x
  }

  /** Zero, but for at most the last byte of the first block that calc_xn cuts short. */
  predicate Quiet(s: seq<byte>) {
    forall k :: 0 <= k < |s| && s[k] != 0 ==> k == |s| - 256 - |s| % 16 + 15
  }

  lemma QuietRest(s: seq<byte>)
    requires Quiet(s)
    ensures Quiet(s[Min(|s|, 16)..])
  {
    var t := s[Min(|s|, 16)..];
    forall k | 0 <= k < |t| && t[k] != 0 ensures k == |t| - 256 - |t| % 16 + 15 {
      assert s[k + 16] == t[k];
    }
  }

  /** The bytes calc_xn mixes in are all zero. */
  lemma QuietBlock(c: Ccm)
    requires CallOk(c) && c.operation == EncryptBlock && c.state == CalculateXn && Quiet(c.input)
    ensures XnBlock(c) == c.xi
  {
    var s, n := c.input, XnChunk(c);
    forall k | 0 <= k < n ensures s[k] == 0 {
    }
    XorBytesZeros(c.xi[..n]);
    assert s[..n] == Zeros(n);
    assert c.xi == c.xi[..n] + c.xi[n..];
  }

  /** Inside a call: the chaining value is still x. */
  predicate Overlooking(c: Ccm, x: Block) {
    && CallOk(c) && c.operation == EncryptBlock && c.state in {CalculateXn, CalculateSn, CalculateS0}
    && c.xi == x && Quiet(c.input)
  }

  /** At the end of a call that began as c. */
  predicate Overlooked(c: Ccm, r: Ccm, x: Block)
    requires c.blockLen <= c.messageLen
  {
    && r.key == c.key && r.nonce == c.nonce && r.authLen == c.authLen && r.aadLen == c.aadLen
    && r.messageLen == c.messageLen - c.blockLen
    && if r.messageLen == 0 then r.xi == XorBlock(x, CounterBlock(c.nonce, 0))
       else r.xi == x && r.state == CalculateXn
  }

  lemma OverlookingStep(c: Ccm, x: Block)
    requires Overlooking(c, x)
    ensures Issue(c).Aes? && CallOk(Issue(c).c) && !Calculating(Issue(c).c)
    ensures var a := Absorb(Issue(c).c, Issue(c).block);
            if a.done then Overlooked(c, a.c, x)
            else Overlooking(a.c, x) && a.c.key == c.key && a.c.nonce == c.nonce && a.c.authLen == c.authLen
                 && a.c.aadLen == c.aadLen && a.c.messageLen - a.c.blockLen == c.messageLen - c.blockLen
  {
    hide XorAt, CounterBlock, Work, Quiet;
    IssueKeeps(c);
    AbsorbKeeps(Issue(c).c, Issue(c).block);
    if c.state == CalculateXn {
      QuietBlock(c);
    } else {
      QuietRest(c.input);
    }
  }

  lemma {:induction false} OverlookingRun(c: Ccm, x: Block)
    requires Overlooking(c, x)
    ensures Overlooked(c, RunCall(Identity, c), x)
    decreases Work(c)
  {
    hide Issue, Absorb, Work, Quiet;
    IssueKeeps(c);
    OverlookingStep(c, x);
    AbsorbKeeps(Issue(c).c, Issue(c).block);
    var a := Absorb(Issue(c).c, Issue(c).block);
    if !a.done {
      OverlookingRun(a.c, x);
    }
  }

  /** Between two calls. */
  predicate Waiting(c: Ccm, x: Block) {
    && ValidAuthLen(c.authLen)
    && if c.state == CalculateX1 then c.aadLen == 0 && x == B0(c.nonce, 0, c.messageLen, c.authLen)
       else c.state == CalculateXn && c.xi == x
  }

  lemma OverlookingCall(c: Ccm, x: Block, p: seq<byte>)
    requires Waiting(c, x) && 0 < |p| <= c.messageLen && Quiet(p)
    ensures var s := Submit(c, EncryptBlock, p);
            && CallOk(s) && Calculating(s) && Overlooked(s, RunCall(Identity, s), x)
  {
    hide B0, Work, Issue, Absorb, Quiet;
    var s := Submit(c, EncryptBlock, p);
    if c.state == CalculateX1 {
      FirstMessage(Identity, s);
      OverlookingRun(s.(xi := x, state := CalculateXn), x);
    } else {
      OverlookingRun(s, x);
    }
  }

  lemma {:induction false} OverlookingPieces(c: Ccm, x: Block, pieces: seq<seq<byte>>)
    requires Waiting(c, x) && pieces != [] && c.messageLen == |Flatten(pieces)|
    requires forall i :: 0 <= i < |pieces| ==> pieces[i] != [] && Quiet(pieces[i])
    ensures var o := RunPieces(Identity, c, EncryptBlock, pieces);
            o.Some? ==> o.value.c.xi == XorBlock(x, CounterBlock(c.nonce, 0))
    decreases |pieces|
  {
    hide B0, Quiet, RunCall, Calculating, CallOk;
    var p, rest := pieces[0], pieces[1..];
    OverlookingCall(c, x, p);
    if rest != [] {
      assert rest[0] != [] && Flatten(rest) == rest[0] + Flatten(rest[1..]);
      OverlookingPieces(RunCall(Identity, Submit(c, EncryptBlock, p)), x, rest);
    }
  }

  // ----- the RFC does not overlook it -----

  predicate OneByte(s: seq<byte>, p: nat) {
    p < |s| && s[p] == 1 && forall k :: 0 <= k < |s| && k != p ==> s[k] == 0
  }

  lemma {:induction false} CbcZeros(key: Block, x: Block, s: seq<byte>)
    requires s == Zeros(|s|)
    ensures Cbc(Identity, key, x, s) == x
    decreases |s|
  {
    if s != [] {
      var k := Min(16, |s|);
      assert ZeroPad(s[..k]) == Zeros(16);
      XorBytesZeros(x);
      assert s[k..] == Zeros(|s| - k);
      CbcZeros(key, x, s[k..]);
    }
  }

  lemma XorOne(a: byte)
    ensures Xor(a, 1) != a
  {
    XorByteLaws(a, 1);
    XorByteLaws(1, a);
    XorByteLaws(0, a);
  }

  lemma {:induction false} CbcOneByte(key: Block, x: Block, s: seq<byte>, p: nat)
    requires OneByte(s, p)
    ensures Cbc(Identity, key, x, s) != x
    decreases |s|
  {
    var k := Min(16, |s|);
    var first := ZeroPad(s[..k]);
    if p < k {
      assert first[p] == 1;
      XorOne(x[p]);
      assert XorBlock(x, first)[p] != x[p];
      assert s[k..] == Zeros(|s| - k);
      CbcZeros(key, XorBlock(x, first), s[k..]);
    } else {
      assert first == Zeros(16);
      XorBytesZeros(x);
      CbcOneByte(key, x, s[k..], p - k);
    }
  }

  lemma {:induction false} FlattenZeros(pieces: seq<seq<byte>>)
    requires forall i :: 0 <= i < |pieces| ==> pieces[i] == Zeros(|pieces[i]|)
    ensures Flatten(pieces) == Zeros(|Flatten(pieces)|)
  {
    if pieces != [] {
      FlattenZeros(pieces[1..]);
    }
  }

  lemma {:induction false} FlattenOneByte(pieces: seq<seq<byte>>, i: nat, q: nat) returns (p: nat)
    requires i < |pieces| && OneByte(pieces[i], q)
    requires forall j :: 0 <= j < |pieces| && j != i ==> pieces[j] == Zeros(|pieces[j]|)
    ensures OneByte(Flatten(pieces), p)
    decreases |pieces|
  {
    var rest := pieces[1..];
    if i == 0 {
      p := q;
      FlattenZeros(rest);
    } else {
      var r := FlattenOneByte(rest, i - 1, q);
      p := |pieces[0]| + r;
    }
  }

  /** Pieces of the given lengths, all zero but for one byte in a piece that is too long. */
  function Witness(lens: seq<nat>, i: nat): (pieces: seq<seq<byte>>)
    requires i < |lens| && lens[i] >= 256
    ensures HasLengths(pieces, lens)
  {
    seq(|lens|, k requires 0 <= k < |lens| =>
      if k == i then Zeros(lens[k])[lens[k] - 256 - lens[k] % 16 + 15 := 1] else Zeros(lens[k]))
  }

  lemma OverlookedIsWrong(before: Ccm, lens: seq<nat>, i: nat)
    requires Lengths(lens) && i < |lens| && lens[i] >= 256
    ensures !Right(Identity, before, Zeros(16), Zeros(13), 16, Witness(lens, i))
  {
    hide B0, RunPieces, Cbc, CounterBlock, Ctr;
    var key: Block, nonce: Nonce, pieces := Zeros(16), Zeros(13), Witness(lens, i);
    var msg := Flatten(pieces);
    FlattenLength(pieces, lens);
    var x := B0(nonce, 0, |msg|, 16);
    var c := Init(before, key, nonce, |msg|, 0, 16);
    OverlookingPieces(c, x, pieces);
    var p := FlattenOneByte(pieces, i, lens[i] - 256 - lens[i] % 16 + 15);
    CbcOneByte(key, x, msg, p);
    NoAadMac(Identity, key, nonce, msg, 16);
    DifferentTags(Cbc(Identity, key, x, msg), x, CounterBlock(nonce, 0));
    NoDigestCalls(Identity, c, pieces);
  }

  lemma NoDigestCalls(E: Cipher, c: Ccm, pieces: seq<seq<byte>>)
    ensures RunRequest(E, c, [], EncryptBlock, pieces) == RunPieces(E, c, EncryptBlock, pieces)
  {
  }

  lemma DifferentTags(m: Block, x: Block, s: Block)
    requires m != x
    ensures XorBlock(m, s) != XorBlock(x, s)
  {
    XorBytesInvolution(m, s);
    XorBytesInvolution(x, s);
  }

  /**
   Exactly the lengths below 256 are safe: they give the RFC's result for every cipher, key, nonce,
   tag length and content, and a cut with a longer piece gives a wrong tag for some.
   */
  lemma PieceLimit(lens: seq<nat>)
    requires Lengths(lens)
    ensures AlwaysRight(lens) <==> forall i :: 0 <= i < |lens| ==> lens[i] < 256
  {
    hide Right;
    if i: nat :| i < |lens| && lens[i] >= 256 {
      var before := Ccm(DigestBlock, CalculateX1, Zeros(16), Zeros(13), Zeros(16), 0, 0, 0, 0, 0, 0, 0, [], [], 0);
      OverlookedIsWrong(before, lens, i);
      assert HasLengths(Witness(lens, i), lens);
    } else {
      forall E: Cipher, before: Ccm, key: Block, nonce: Nonce, authLen: byte, pieces: seq<seq<byte>>
        | ValidAuthLen(authLen) && HasLengths(pieces, lens)
        ensures Right(E, before, key, nonce, authLen, pieces) {
        ShortIsRight(E, before, key, nonce, authLen, pieces, lens);
      }
    }
  }

  lemma ShortIsRight(E: Cipher, before: Ccm, key: Block, nonce: Nonce, authLen: byte, pieces: seq<seq<byte>>, lens: seq<nat>)
    requires Lengths(lens) && HasLengths(pieces, lens) && ValidAuthLen(authLen)
    requires forall i :: 0 <= i < |lens| ==> lens[i] < 256
    ensures Right(E, before, key, nonce, authLen, pieces)
  {
    hide RunRequest, Encrypt;
    FlattenLength(pieces, lens);
    assert Total(lens) > 0;
    ChunkedEncryption(E, key, nonce, [], Flatten(pieces), authLen, before, [], pieces);
  }
}
