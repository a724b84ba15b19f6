/**
 The incremental CCM request computes RFC 3610, however the additional data and the message
 are cut into calls, and decryption undoes encryption.
 */
module CcmRefinement {
  import opened Bytes
  import opened Rfc3610
  import opened CcmMachine

  // ----- additional data -----

  /** The chaining value in the middle of a block: the bytes of the open block are already mixed in. */
  function Partial(E: Cipher, key: Block, x: Block, s: seq<byte>): Block {
    var full := |s| - |s| % 16;
    XorBlock(Cbc(E, key, x, s[..full]), ZeroPad(s[full..]))
  }

  lemma PartialAtBoundary(E: Cipher, key: Block, x: Block, s: seq<byte>)
    requires |s| % 16 == 0
    ensures Partial(E, key, x, s) == Cbc(E, key, x, s)
  {
    assert s[..|s|] == s && s[|s|..] == [] && ZeroPad([]) == Zeros(16);
    XorBytesZeros(Cbc(E, key, x, s));
  }

  /** Mixing more bytes into the open block. */
  lemma XorAtZeroPad(x: Block, t: seq<byte>, more: seq<byte>)
    requires |t| + |more| <= 16
    ensures XorAt(XorBlock(x, ZeroPad(t)), |t|, more) == XorBlock(x, ZeroPad(t + more))
  {
    var l, r := XorAt(XorBlock(x, ZeroPad(t)), |t|, more), XorBlock(x, ZeroPad(t + more));
    forall i | 0 <= i < 16 ensures l[i] == r[i] {
      if |t| <= i < |t| + |more| {
        XorByteLaws(x[i], 0);
        XorByteLaws(x[i], more[i - |t|]);
      }
    }
  }

  /** AES applied to an open block that is full, or that ends the string, closes it. */
  lemma CloseBlock(E: Cipher, key: Block, x: Block, s: seq<byte>, t: seq<byte>)
    requires |s| % 16 == 0 && 0 < |t| <= 16
    ensures E(key, XorBlock(Cbc(E, key, x, s), ZeroPad(t))) == Cbc(E, key, x, s + t)
  {
    CbcAppend(E, key, x, s, t);
    assert t[..|t|] == t && t[|t|..] == [];
  }

  /** Mixing z[q..q + |more|] into the block that z[..q] left open. */
  lemma MixIntoPartial(E: Cipher, key: Block, x1: Block, z: seq<byte>, q: nat, more: seq<byte>)
    requires q + |more| <= |z| && more == z[q..q + |more|] && q % 16 + |more| <= 16
    ensures var start := q - q % 16;
            XorAt(Partial(E, key, x1, z[..q]), q % 16, more)
            == XorBlock(Cbc(E, key, x1, z[..start]), ZeroPad(z[start..q + |more|]))
  {
    var start := q - q % 16;
    var t := z[start..q];
    assert z[..q][..start] == z[..start] && z[..q][start..] == t;
    XorAtZeroPad(Cbc(E, key, x1, z[..start]), t, more);
    assert t + more == z[start..q + |more|];
  }

  lemma SameBlock(q: nat, n: nat)
    requires q % 16 + n < 16
    ensures q + n - (q + n) % 16 == q - q % 16
  {
  }

  /** The same when the block stays open. */
  lemma MixKeepsPartial(E: Cipher, key: Block, x1: Block, z: seq<byte>, q: nat, more: seq<byte>)
    requires q + |more| <= |z| && more == z[q..q + |more|] && q % 16 + |more| < 16
    ensures XorAt(Partial(E, key, x1, z[..q]), q % 16, more) == Partial(E, key, x1, z[..q + |more|])
  {
    hide Cbc, XorAt, ZeroPad, XorBlock;
    MixIntoPartial(E, key, x1, z, q, more);
    var e, start := q + |more|, q - q % 16;
    SameBlock(q, |more|);
    assert z[..e][..start] == z[..start] && z[..e][start..] == z[start..e];
  }

  /** The same when AES then closes the block, because it is full or because z ends there. */
  lemma MixAndClose(E: Cipher, key: Block, x1: Block, z: seq<byte>, q: nat, more: seq<byte>)
    requires q + |more| <= |z| && more == z[q..q + |more|] && 0 < q % 16 + |more| <= 16
    ensures E(key, XorAt(Partial(E, key, x1, z[..q]), q % 16, more)) == Cbc(E, key, x1, z[..q + |more|])
  {
    MixIntoPartial(E, key, x1, z, q, more);
    var e, start := q + |more|, q - q % 16;
    CloseBlock(E, key, x1, z[..start], z[start..e]);
    assert z[..start] + z[start..e] == z[..e];
  }

  /** The request has mixed in z[..aadOffset], the length field included; its input continues z. */
  predicate Digesting(E: Cipher, c: Ccm, x1: Block, z: seq<byte>) {
    && CallOk(c) && c.operation == DigestBlock && c.state == CalculateAadXn
    && |z| == c.aadLen + 2 && c.aadOffset >= 2
    && c.input == z[c.aadOffset..c.aadOffset + |c.input|]
    && c.xi == Partial(E, c.key, x1, z[..c.aadOffset])
  }

  /** What a digest call leaves behind when it has mixed in z[..end]. */
  predicate Digested(E: Cipher, c: Ccm, r: Ccm, x1: Block, z: seq<byte>, end: nat)
    requires end <= |z| < 0x1_0000
  {
    && r == c.(xi := r.xi, aadOffset := end, blockLen := 0, input := [],
               aadRemainderLen := r.aadRemainderLen, state := r.state)
    && (if end == |z| then r.state == W4AadXn && r.xi == Cbc(E, c.key, x1, z)
        else r.state == CalculateAadXn && r.aadRemainderLen == end % 16 && r.xi == Partial(E, c.key, x1, z[..end]))
  }

  lemma DigestFinishes(E: Cipher, c: Ccm, x1: Block, z: seq<byte>)
    requires Digesting(E, c, x1, z) && FillAad(c).aadRemainderLen < 16
    ensures Issue(c) == Finished(FillAad(c))
    ensures Digested(E, c, FillAad(c), x1, z, c.aadOffset + c.blockLen)
  {
    hide Partial, Cbc, XorAt, Work;
    FillAadKeeps(c);
    assert c.input[..c.blockLen] == c.input && c.input[c.blockLen..] == [];
    MixKeepsPartial(E, c.key, x1, z, c.aadOffset, c.input);
  }

  /** One block through AES: the call is over, or it goes on from the next block boundary. */
  lemma DigestStep(E: Cipher, c: Ccm, x1: Block, z: seq<byte>)
    requires Digesting(E, c, x1, z) && FillAad(c).aadRemainderLen == 16
    ensures Issue(c).Aes? && CallOk(Issue(c).c) && !Calculating(Issue(c).c)
    ensures var a := Absorb(Issue(c).c, E(c.key, Issue(c).block));
            if a.done then Digested(E, c, a.c, x1, z, c.aadOffset + c.blockLen)
            else Digesting(E, a.c, x1, z) && a.c.aadOffset + a.c.blockLen == c.aadOffset + c.blockLen
                 && a.c == c.(xi := a.c.xi, aadOffset := a.c.aadOffset, blockLen := a.c.blockLen, input := a.c.input,
                              aadRemainderLen := 0)
  {
    hide Work, Cbc, XorAt, Partial, EncodeAad;
    IssueKeeps(c);
    var n := Min(16 - c.aadRemainderLen, c.blockLen);
    var q := c.aadOffset + n;
    assert c.input[..n] == z[c.aadOffset..q];
    MixAndClose(E, c.key, x1, z, c.aadOffset, c.input[..n]);
    if q < |z| {
      PartialAtBoundary(E, c.key, x1, z[..q]);
    } else {
      assert z[..q] == z;
    }
  }

  lemma {:induction false} DigestRun(E: Cipher, c: Ccm, x1: Block, z: seq<byte>)
    requires Digesting(E, c, x1, z)
    ensures Digested(E, c, RunCall(E, c), x1, z, c.aadOffset + c.blockLen)
    decreases Work(c)
  {
    hide Absorb, Cbc, Partial, Issue, FillAad, Work;
    IssueKeeps(c);
    FillAadKeeps(c);
    if FillAad(c).aadRemainderLen < 16 {
      DigestFinishes(E, c, x1, z);
    } else {
      DigestStep(E, c, x1, z);
      AbsorbKeeps(Issue(c).c, E(c.key, Issue(c).block));
      var a := Absorb(Issue(c).c, E(c.key, Issue(c).block));
      if !a.done {
        DigestRun(E, a.c, x1, z);
      }
    }
  }

  // ----- message -----

  /** The key stream block for the 16 bytes at offset d. */
  lemma CtrSlice(E: Cipher, key: Block, nonce: Nonce, msg: seq<byte>, d: nat, k: nat)
    requires |msg| < 0x1_0000 && d % 16 == 0 && d + k <= |msg| && k == Min(16, |msg| - d) && k > 0
    ensures Ctr(E, key, nonce, 1, msg)[d..d + k] == XorBytes(msg[d..d + k], E(key, CounterBlock(nonce, d / 16 + 1)))
  {
    var s, t := msg[..d], msg[d..];
    assert msg == s + t && t[..k] == msg[d..d + k];
    CtrAppend(E, key, nonce, 1, s, t);
  }

  /** The bytes a piece is read from, and the bytes written for it. */
  function Source(E: Cipher, key: Block, nonce: Nonce, operation: Operation, msg: seq<byte>): (s: seq<byte>)
    requires |msg| < 0x1_0000
    ensures |s| == |msg|
  {
    if operation == EncryptBlock then msg else Ctr(E, key, nonce, 1, msg)
  }

  function Target(E: Cipher, key: Block, nonce: Nonce, operation: Operation, msg: seq<byte>): (s: seq<byte>)
    requires |msg| < 0x1_0000
    ensures |s| == |msg|
  {
    if operation == EncryptBlock then Ctr(E, key, nonce, 1, msg) else msg
  }

  lemma PlaintextSide(E: Cipher, key: Block, nonce: Nonce, operation: Operation, msg: seq<byte>)
    requires |msg| < 0x1_0000
    ensures operation == EncryptBlock ==> Source(E, key, nonce, operation, msg) == msg
    ensures operation == DecryptBlock ==> Target(E, key, nonce, operation, msg) == msg
  {
  }

  lemma TakeOfSlice(t: seq<byte>, a: nat, b: nat, k: nat)
    requires a <= b <= |t| && k <= b - a
    ensures t[a..b][..k] == t[a..a + k] && t[a..b][k..] == t[a + k..b]
  {
  }

  /** How much of the message an encryption or decryption request has put into its chaining value. */
  function Macked(c: Ccm, msg: seq<byte>): nat
    requires c.messageLen <= |msg|
  {
    var d := |msg| - c.messageLen;
    if c.operation == EncryptBlock && c.state == CalculateSn then d + Min(c.messageLen, Chunk(c)) else d
  }

  /** The lengths of a call fit the message. */
  predicate Bounds(c: Ccm, msg: seq<byte>) {
    && |msg| < 0x1_0000 && c.blockLen <= c.messageLen <= |msg|
    && c.pos <= |msg| - c.messageLen && |c.output| - c.pos <= c.messageLen
  }

  /** Between two AES steps: where the call stands, in numbers. */
  predicate Placed(c: Ccm, msg: seq<byte>)
    requires Bounds(c, msg)
  {
    var d := |msg| - c.messageLen;
    && CallOk(c) && c.operation != DigestBlock && c.state in {CalculateXn, CalculateSn, CalculateS0}
    && c.blockLen < 256 && (c.blockLen == c.messageLen || c.blockLen % 16 == 0)
    && (c.state != CalculateS0 ==> d % 16 == 0 && c.counter == d / 16 + 1)
  }

  /** Between two AES steps: what input, output and chaining value hold. */
  predicate Filled(E: Cipher, c: Ccm, xa: Block, msg: seq<byte>)
    requires Bounds(c, msg)
  {
    var d := |msg| - c.messageLen;
    && c.input == Source(E, c.key, c.nonce, c.operation, msg)[d..d + c.blockLen]
    && c.output == Target(E, c.key, c.nonce, c.operation, msg)[d - c.pos..d + |c.output| - c.pos]
    && c.xi == Cbc(E, c.key, xa, msg[..Macked(c, msg)])
  }

  /** Between two AES steps of a call on msg: d bytes are done, the rest of the piece follows. */
  predicate Messaging(E: Cipher, c: Ccm, xa: Block, msg: seq<byte>) {
    Bounds(c, msg) && Placed(c, msg) && Filled(E, c, xa, msg)
  }

  /** What a call on the message leaves behind once msg[..e] is done; start is where its piece began. */
  predicate Messaged(E: Cipher, c: Ccm, r: Ccm, xa: Block, msg: seq<byte>, start: nat, e: nat)
    requires start <= e <= |msg| < 0x1_0000
  {
    && r.operation == c.operation && r.key == c.key && r.nonce == c.nonce && r.authLen == c.authLen
    && r.messageLen == |msg| - e && r.state != CalculateX1
    && r.output == Target(E, c.key, c.nonce, c.operation, msg)[start..e]
    && (if e == |msg| then r.xi == XorBlock(Cbc(E, c.key, xa, msg), E(c.key, CounterBlock(c.nonce, 0)))
        else r.counter == e / 16 + 1 && e % 16 == 0 && r.xi == Cbc(E, c.key, xa, msg[..e]))
  }

  /** The plaintext calc_xn reads: the piece itself, or what calc_sn has just decrypted. */
  lemma XnPlaintext(E: Cipher, c: Ccm, xa: Block, msg: seq<byte>)
    requires Messaging(E, c, xa, msg) && c.state == CalculateXn
    ensures var d := |msg| - c.messageLen;
            && 0 < Chunk(c) == XnChunk(c) && d + Chunk(c) <= |msg|
            && XnBlock(c) == XorAt(c.xi, 0, msg[d..d + Chunk(c)])
  {
    hide Ctr, Cbc, XorAt, Work, Source, Target, Macked;
    var d, k := |msg| - c.messageLen, Chunk(c);
    PlaintextSide(E, c.key, c.nonce, c.operation, msg);
    if c.operation == EncryptBlock {
      TakeOfSlice(msg, d, d + c.blockLen, k);
    } else {
      TakeOfSlice(msg, d - c.pos, d + k, c.pos);
      assert c.output[c.pos..] == msg[d..d + k];
      TakeOfSlice(msg, d, d + k, k);
    }
  }

  /** calc_xn followed by its result puts the chunk at offset d into the chaining value. */
  lemma XnResult(E: Cipher, c: Ccm, xa: Block, msg: seq<byte>)
    requires Messaging(E, c, xa, msg) && c.state == CalculateXn
    ensures var d := |msg| - c.messageLen;
            d + Chunk(c) <= |msg| && E(c.key, XnBlock(c)) == Cbc(E, c.key, xa, msg[..d + Chunk(c)])
  {
    hide Ctr, Cbc, XorAt, Partial, Work, XnBlock, Source, Target, CallOk;
    XnPlaintext(E, c, xa, msg);
    var d := |msg| - c.messageLen;
    PartialAtBoundary(E, c.key, xa, msg[..d]);
    MixAndClose(E, c.key, xa, msg, d, msg[d..d + Chunk(c)]);
  }

  /** The result of calc_sn turns the chunk at offset d of the source into that of the target. */
  lemma SnResult(E: Cipher, c: Ccm, xa: Block, msg: seq<byte>)
    requires Messaging(E, c, xa, msg) && c.state == CalculateSn
    ensures var d := |msg| - c.messageLen;
            && d + Chunk(c) <= |msg|
            && XorBytes(c.input[..Chunk(c)], E(c.key, CounterBlock(c.nonce, c.counter)))
               == Target(E, c.key, c.nonce, c.operation, msg)[d..d + Chunk(c)]
  {
    hide Ctr, Cbc, Work, Macked, XorBytes, CounterBlock;
    var d, k := |msg| - c.messageLen, Chunk(c);
    var stream := E(c.key, CounterBlock(c.nonce, c.counter));
    CtrSlice(E, c.key, c.nonce, msg, d, k);
    XorBytesInvolution(msg[d..d + k], stream);
    TakeOfSlice(Source(E, c.key, c.nonce, c.operation, msg), d, d + c.blockLen, k);
  }

  /** What one AES step of a call on the message achieves. */
  predicate MessageStepped(E: Cipher, c: Ccm, a: Absorbed, xa: Block, msg: seq<byte>)
    requires |msg| < 0x1_0000 && c.blockLen <= c.messageLen <= |msg| && c.pos <= |msg| - c.messageLen
  {
    var d := |msg| - c.messageLen;
    if a.done then Messaged(E, c, a.c, xa, msg, d - c.pos, d + c.blockLen)
    else Messaging(E, a.c, xa, msg) && a.c.operation == c.operation && a.c.key == c.key && a.c.nonce == c.nonce
         && a.c.authLen == c.authLen && a.c.pos - c.pos == c.messageLen - a.c.messageLen == c.blockLen - a.c.blockLen
  }

  /** c1 is c with its chunk both authenticated and written, but the pointers not yet advanced. */
  predicate ChunkDone(E: Cipher, c: Ccm, c1: Ccm, xa: Block, msg: seq<byte>)
    requires |msg| < 0x1_0000 && c.blockLen <= c.messageLen <= |msg| && c.pos <= |msg| - c.messageLen
  {
    var d := |msg| - c.messageLen;
    && c.blockLen > 0
    && c1 == c.(state := c1.state, xi := c1.xi, output := c1.output)
    && c1.xi == Cbc(E, c.key, xa, msg[..d + Chunk(c)])
    && c1.output == Target(E, c.key, c.nonce, c.operation, msg)[d - c.pos..d + Chunk(c)]
  }

  function NextState(c: Ccm): State {
    if c.operation == EncryptBlock then CalculateXn else CalculateSn
  }

  lemma ChunkEndsMessage(E: Cipher, c: Ccm, c1: Ccm, xa: Block, msg: seq<byte>)
    requires Messaging(E, c, xa, msg) && ChunkDone(E, c, c1, xa, msg) && c.messageLen == Chunk(c)
    ensures MessageStepped(E, c, NextBlock(c1, NextState(c)), xa, msg)
  {
    hide Ctr, Cbc, XorBytes, Work, AadMac, Source, CounterBlock;
    assert msg[..|msg|] == msg;
  }

  /** next_block at the end of a piece, in numbers. */
  lemma EndsPlaced(c: Ccm, c1: Ccm, msg: seq<byte>)
    requires Bounds(c, msg) && Placed(c, msg) && c.messageLen > Chunk(c) == c.blockLen > 0
    requires c1 == c.(state := c1.state, xi := c1.xi, output := c1.output)
    ensures var a, e := NextBlock(c1, NextState(c)), |msg| - c.messageLen + c.blockLen;
            && a.done && e % 16 == 0
            && a.c == c1.(state := NextState(c), counter := e / 16 + 1, input := [], pos := c.pos + c.blockLen,
                          blockLen := 0, messageLen := |msg| - e)
  {
    assert c.blockLen == 16;
    NextMultiple(|msg| - c.messageLen);
  }

  lemma ChunkEndsPiece(E: Cipher, c: Ccm, c1: Ccm, xa: Block, msg: seq<byte>)
    requires Messaging(E, c, xa, msg) && ChunkDone(E, c, c1, xa, msg) && c.messageLen > Chunk(c) == c.blockLen
    ensures MessageStepped(E, c, NextBlock(c1, NextState(c)), xa, msg)
  {
    hide Ctr, Cbc, Work, Target, CounterBlock, CallOk, Filled, Macked, NextBlock;
    EndsPlaced(c, c1, msg);
  }

  /** next_block in the middle of a piece, in numbers. */
  lemma ContinuesPlaced(c: Ccm, c1: Ccm, msg: seq<byte>)
    requires Bounds(c, msg) && Placed(c, msg) && c.blockLen > 16
    requires c1 == c.(state := c1.state, xi := c1.xi, output := c1.output) && |c1.output| == c.pos + 16
    ensures var a := NextBlock(c1, NextState(c));
            && !a.done && Bounds(a.c, msg) && Placed(a.c, msg)
            && a.c == c1.(state := NextState(c), counter := c.counter + 1, input := c.input[16..], pos := c.pos + 16,
                          blockLen := c.blockLen - 16, messageLen := c.messageLen - 16)
  {
    NextMultiple(|msg| - c.messageLen);
  }

  lemma NextMultiple(d: nat)
    requires d % 16 == 0
    ensures (d + 16) % 16 == 0 && (d + 16) / 16 == d / 16 + 1
  {
  }

  lemma ContinuesFilled(E: Cipher, c: Ccm, c1: Ccm, a: Ccm, xa: Block, msg: seq<byte>)
    requires Bounds(c, msg) && Filled(E, c, xa, msg) && ChunkDone(E, c, c1, xa, msg) && c.blockLen > 16
    requires Bounds(a, msg) && |c.input| == c.blockLen && c.operation != DigestBlock
    requires a == c1.(state := NextState(c), counter := a.counter, input := c.input[16..], pos := c.pos + 16,
                      blockLen := c.blockLen - 16, messageLen := c.messageLen - 16)
    ensures Filled(E, a, xa, msg)
  {
    hide Ctr, Cbc, Source, Target;
    var d := |msg| - c.messageLen;
    var source := Source(E, c.key, c.nonce, c.operation, msg);
    assert source[d..d + c.blockLen][16..] == source[d + 16..d + c.blockLen];
  }

  lemma ChunkContinues(E: Cipher, c: Ccm, c1: Ccm, xa: Block, msg: seq<byte>)
    requires Messaging(E, c, xa, msg) && ChunkDone(E, c, c1, xa, msg) && c.blockLen > Chunk(c)
    ensures MessageStepped(E, c, NextBlock(c1, NextState(c)), xa, msg)
  {
    hide Ctr, Cbc, Work, Source, Target, Filled, MessageOk, NextBlock;
    ContinuesPlaced(c, c1, msg);
    ContinuesFilled(E, c, c1, NextBlock(c1, NextState(c)).c, xa, msg);
  }

  /** Advancing over a chunk that is both authenticated and written. */
  lemma NextBlockStep(E: Cipher, c: Ccm, c1: Ccm, xa: Block, msg: seq<byte>)
    requires Messaging(E, c, xa, msg) && ChunkDone(E, c, c1, xa, msg)
    ensures MessageStepped(E, c, NextBlock(c1, NextState(c)), xa, msg)
  {
    if c.blockLen > Chunk(c) {
      ChunkContinues(E, c, c1, xa, msg);
    } else if c.messageLen == Chunk(c) {
      ChunkEndsMessage(E, c, c1, xa, msg);
    } else {
      ChunkEndsPiece(E, c, c1, xa, msg);
    }
  }

  /** Encrypting, the result of calc_xn leaves the chunk authenticated but not yet written. */
  lemma EncryptXnStep(E: Cipher, c: Ccm, c1: Ccm, xa: Block, msg: seq<byte>)
    requires Messaging(E, c, xa, msg) && c.state == CalculateXn && c.operation == EncryptBlock
    requires c1 == c.(state := CalculateSn, xi := c1.xi)
    requires |msg| - c.messageLen + Chunk(c) <= |msg|
    requires c1.xi == Cbc(E, c.key, xa, msg[..|msg| - c.messageLen + Chunk(c)])
    ensures Messaging(E, c1, xa, msg)
  {
    hide Ctr, Cbc, Work, Source, Target;
  }

  lemma XnStep(E: Cipher, c: Ccm, xa: Block, msg: seq<byte>)
    requires Messaging(E, c, xa, msg) && c.state == CalculateXn
    ensures Issue(c).Aes? && CallOk(Issue(c).c) && !Calculating(Issue(c).c)
    ensures MessageStepped(E, c, Absorb(Issue(c).c, E(c.key, Issue(c).block)), xa, msg)
  {
    hide Ctr, Cbc, XorAt, Work, Source, Target;
    IssueKeeps(c);
    XnResult(E, c, xa, msg);
    var y := E(c.key, Issue(c).block);
    if c.operation == DecryptBlock {
      NextBlockStep(E, c, Issue(c).c.(xi := y), xa, msg);
    } else {
      EncryptXnStep(E, c, c.(state := CalculateSn, xi := y), xa, msg);
    }
  }

  /** The output after calc_sn's result, for either operation. */
  lemma SnOutput(E: Cipher, c: Ccm, xa: Block, msg: seq<byte>)
    requires |msg| < 0x1_0000 && c.messageLen <= |msg| && c.pos <= |msg| - c.messageLen && Chunk(c) <= c.messageLen
    requires Messaging(E, c, xa, msg) && c.state == CalculateSn
    ensures var d := |msg| - c.messageLen;
            && Issue(c) == Aes(c.(state := W4Sn), CounterBlock(c.nonce, c.counter))
            && d + Chunk(c) <= |msg|
            && c.output + XorBytes(c.input[..Chunk(c)], E(c.key, CounterBlock(c.nonce, c.counter)))
               == Target(E, c.key, c.nonce, c.operation, msg)[d - c.pos..d + Chunk(c)]
  {
    hide Ctr, Cbc, Work, Source, Target, XorBytes, CounterBlock, Macked;
    SnResult(E, c, xa, msg);
    var d, k, t := |msg| - c.messageLen, Chunk(c), Target(E, c.key, c.nonce, c.operation, msg);
    assert c.output == t[d - c.pos..d];
    JoinSlices(t, d - c.pos, d, d + k);
  }

  lemma JoinSlices(t: seq<byte>, a: nat, b: nat, c: nat)
    requires a <= b <= c <= |t|
    ensures t[a..b] + t[b..c] == t[a..c]
  {
  }

  lemma DecryptSnStep(E: Cipher, c: Ccm, c1: Ccm, xa: Block, msg: seq<byte>)
    requires Messaging(E, c, xa, msg) && c.state == CalculateSn && c.operation == DecryptBlock
    requires c1 == c.(state := CalculateXn, output := c1.output)
    requires c1.output == msg[|msg| - c.messageLen - c.pos..|msg| - c.messageLen + Chunk(c)]
    ensures Messaging(E, c1, xa, msg)
  {
    hide Ctr, Cbc, Work, Source, Target;
    PlaintextSide(E, c.key, c.nonce, c.operation, msg);
  }

  /** Encrypting, the chunk was authenticated before it is written. */
  lemma EncryptSnDone(E: Cipher, c: Ccm, output: seq<byte>, xa: Block, msg: seq<byte>)
    requires Messaging(E, c, xa, msg) && c.state == CalculateSn && c.operation == EncryptBlock
    requires |msg| - c.messageLen + Chunk(c) <= |msg|
    requires output == Target(E, c.key, c.nonce, c.operation, msg)[|msg| - c.messageLen - c.pos..|msg| - c.messageLen + Chunk(c)]
    ensures ChunkDone(E, c, c.(state := W4Sn, output := output), xa, msg)
  {
    hide Ctr, Cbc, Work, Source, Target;
  }

  lemma SnStep(E: Cipher, c: Ccm, xa: Block, msg: seq<byte>)
    requires Messaging(E, c, xa, msg) && c.state == CalculateSn
    ensures Issue(c).Aes? && CallOk(Issue(c).c) && !Calculating(Issue(c).c)
    ensures MessageStepped(E, c, Absorb(Issue(c).c, E(c.key, Issue(c).block)), xa, msg)
  {
    hide Ctr, Cbc, Work, Source, Target, XorBytes, CounterBlock, Filled;
    IssueKeeps(c);
    SnOutput(E, c, xa, msg);
    PlaintextSide(E, c.key, c.nonce, c.operation, msg);
    var output := c.output + XorBytes(c.input[..Chunk(c)], E(c.key, CounterBlock(c.nonce, c.counter)));
    if c.operation == EncryptBlock {
      EncryptSnDone(E, c, output, xa, msg);
      NextBlockStep(E, c, c.(state := W4Sn, output := output), xa, msg);
    } else {
      DecryptSnStep(E, c, c.(state := CalculateXn, output := output), xa, msg);
    }
  }

  lemma S0Step(E: Cipher, c: Ccm, xa: Block, msg: seq<byte>)
    requires Messaging(E, c, xa, msg) && c.state == CalculateS0
    ensures Issue(c).Aes? && CallOk(Issue(c).c) && !Calculating(Issue(c).c)
    ensures MessageStepped(E, c, Absorb(Issue(c).c, E(c.key, Issue(c).block)), xa, msg)
  {
    hide Ctr, Cbc, Work, Source, Target, CounterBlock;
    IssueKeeps(c);
    assert msg[..|msg|] == msg;
  }

  /** One AES step of a call on the message. */
  lemma MessageStep(E: Cipher, c: Ccm, xa: Block, msg: seq<byte>)
    requires Messaging(E, c, xa, msg)
    ensures Issue(c).Aes? && CallOk(Issue(c).c) && !Calculating(Issue(c).c)
    ensures MessageStepped(E, c, Absorb(Issue(c).c, E(c.key, Issue(c).block)), xa, msg)
  {
    match c.state
    case CalculateXn => XnStep(E, c, xa, msg);
    case CalculateSn => SnStep(E, c, xa, msg);
    case CalculateS0 => S0Step(E, c, xa, msg);
  }

  /** What a later step leaves behind is left behind by the call as a whole. */
  lemma MessagedCarries(E: Cipher, c: Ccm, a: Ccm, r: Ccm, xa: Block, msg: seq<byte>, start: nat, e: nat)
    requires start <= e <= |msg| < 0x1_0000 && Messaged(E, a, r, xa, msg, start, e)
    requires a.operation == c.operation && a.key == c.key && a.nonce == c.nonce && a.authLen == c.authLen
    ensures Messaged(E, c, r, xa, msg, start, e)
  {
    hide Cbc, Target, CounterBlock;
  }

  lemma {:induction false} MessageRun(E: Cipher, c: Ccm, xa: Block, msg: seq<byte>)
    requires Messaging(E, c, xa, msg)
    ensures var d := |msg| - c.messageLen;
            Messaged(E, c, RunCall(E, c), xa, msg, d - c.pos, d + c.blockLen)
    decreases Work(c)
  {
    hide Issue, Absorb, Work, Filled, Messaged, CallOk;
    IssueKeeps(c);
    MessageStep(E, c, xa, msg);
    AbsorbKeeps(Issue(c).c, E(c.key, Issue(c).block));
    var a := Absorb(Issue(c).c, E(c.key, Issue(c).block));
    if !a.done {
      MessageRun(E, a.c, xa, msg);
      var d := |msg| - c.messageLen;
      MessagedCarries(E, c, a.c, RunCall(E, a.c), xa, msg, d - c.pos, d + c.blockLen);
    }
  }
}
