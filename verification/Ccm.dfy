/** Counter with CBC-MAC as RFC 3610 defines it, for a two-byte length field (L = 2). */
module Rfc3610 {
  import opened Bytes

  type Nonce = s: seq<byte> | |s| == 13 witness Zeros(13)

  /** The values of M the RFC allows. */
  predicate ValidAuthLen(m: int) {
    4 <= m <= 16 && m % 2 == 0
  }

  function ZeroPad(s: seq<byte>): Block
    requires |s| <= 16
  {
    s + Zeros(16 - |s|)
  }

  /** Section 2.2: flags (Adata, M', L'), nonce, message length. */
  function B0(nonce: Nonce, aadLen: uint16, msgLen: uint16, authLen: byte): Block
    requires ValidAuthLen(authLen)
  {
    [(if aadLen > 0 then 64 else 0) + 8 * ((authLen - 2) / 2) + 1] + nonce + BigEndian16(msgLen)
  }

  /** Section 2.2: the additional data, preceded by its length; nothing when there is none. */
  function EncodeAad(aad: seq<byte>): seq<byte>
    requires |aad| < 0xff00
  {
    if aad == [] then [] else BigEndian16(|aad|) + aad
  }

  /** CBC-MAC from x over s cut into blocks, the last one padded with zeros. */
  function Cbc(E: Cipher, key: Block, x: Block, s: seq<byte>): Block
    decreases |s|
  {
    if s == [] then x
    else var k := Min(16, |s|); Cbc(E, key, E(key, XorBlock(x, ZeroPad(s[..k]))), s[k..])
  }

  /** X_1 and the additional data: the chaining value the message blocks start from. */
  function AadMac(E: Cipher, key: Block, nonce: Nonce, aad: seq<byte>, msgLen: uint16, authLen: byte): Block
    requires |aad| < 0xff00 && ValidAuthLen(authLen)
  {
    Cbc(E, key, E(key, B0(nonce, |aad|, msgLen, authLen)), EncodeAad(aad))
  }

  /** Section 2.3: the counter block A_i. */
  function CounterBlock(nonce: Nonce, i: uint16): Block {
    [1] + nonce + BigEndian16(i)
  }

  /** The message mixed with the key stream S_i, S_i+1, ... */
  function Ctr(E: Cipher, key: Block, nonce: Nonce, i: nat, s: seq<byte>): (r: seq<byte>)
    requires i + (|s| + 15) / 16 <= 0x1_0000
    ensures |r| == |s|
    decreases |s|
  {
    if s == [] then []
    else
      var k := Min(16, |s|);
      XorBytes(s[..k], E(key, CounterBlock(nonce, i))) + Ctr(E, key, nonce, i + 1, s[k..])
  }

  /** The authentication value before it is cut to M bytes: T under S_0. */
  function FullTag(E: Cipher, key: Block, nonce: Nonce, aad: seq<byte>, msg: seq<byte>, authLen: byte): Block
    requires |aad| < 0xff00 && |msg| < 0x1_0000 && ValidAuthLen(authLen)
  {
    XorBlock(Cbc(E, key, AadMac(E, key, nonce, aad, |msg|, authLen), msg), E(key, CounterBlock(nonce, 0)))
  }

  datatype Sealed = Sealed(ciphertext: seq<byte>, tag: seq<byte>)

  /** Sections 2.2 to 2.4. */
  function Encrypt(E: Cipher, key: Block, nonce: Nonce, aad: seq<byte>, msg: seq<byte>, authLen: byte): Sealed
    requires |aad| < 0xff00 && |msg| < 0x1_0000 && ValidAuthLen(authLen)
  {
    Sealed(Ctr(E, key, nonce, 1, msg), FullTag(E, key, nonce, aad, msg, authLen)[..authLen])
  }

  /** The fields of B_0 and A_i, read back: Adata, M', L' = 1, nonce, and the length or the counter as a number. */
  lemma BlockFields(nonce: Nonce, aadLen: uint16, number: uint16, authLen: byte)
    requires ValidAuthLen(authLen)
    ensures var b0 := B0(nonce, aadLen, number, authLen);
            && b0[0] / 64 == (if aadLen > 0 then 1 else 0)
            && 2 * (b0[0] / 8 % 8) + 2 == authLen && b0[0] % 8 == 1
            && b0[1..14] == nonce && FromBytes(b0[14..]) == number
    ensures var a := CounterBlock(nonce, number);
            a[0] == 1 && a[1..14] == nonce && FromBytes(a[14..]) == number
  {
    hide FromBytes, BigEndian16;
    BigEndian16Means(number);
    assert B0(nonce, aadLen, number, authLen)[14..] == BigEndian16(number);
    assert CounterBlock(nonce, number)[14..] == BigEndian16(number);
  }

  lemma {:induction false} CbcAppend(E: Cipher, key: Block, x: Block, s: seq<byte>, t: seq<byte>)
    requires |s| % 16 == 0
    ensures Cbc(E, key, x, s + t) == Cbc(E, key, Cbc(E, key, x, s), t)
    decreases |s|
  {
    if s == [] {
      assert s + t == t;
    } else {
      assert (s + t)[..16] == s[..16] && (s + t)[16..] == s[16..] + t;
      CbcAppend(E, key, E(key, XorBlock(x, ZeroPad(s[..16]))), s[16..], t);
    }
  }

  lemma BlocksAdd(m: nat, n: nat)
    requires m % 16 == 0
    ensures (m + n + 15) / 16 == m / 16 + (n + 15) / 16
  {
  }

  lemma CtrFirst(E: Cipher, key: Block, nonce: Nonce, i: nat, s: seq<byte>)
    requires s != [] && i + (|s| + 15) / 16 <= 0x1_0000
    ensures var k := Min(16, |s|);
            Ctr(E, key, nonce, i, s) == XorBytes(s[..k], E(key, CounterBlock(nonce, i))) + Ctr(E, key, nonce, i + 1, s[k..])
  {
  }

  lemma CtrNone(E: Cipher, key: Block, nonce: Nonce, i: nat)
    requires i <= 0x1_0000
    ensures Ctr(E, key, nonce, i, []) == []
  {
  }

  /** s is n whole blocks. */
  lemma {:induction false} CtrAppendBlocks(E: Cipher, key: Block, nonce: Nonce, i: nat, n: nat, s: seq<byte>, t: seq<byte>)
    requires |s| == 16 * n && i + n + (|t| + 15) / 16 <= 0x1_0000
    ensures i + (|s + t| + 15) / 16 <= 0x1_0000 && i + (|s| + 15) / 16 <= 0x1_0000
    ensures Ctr(E, key, nonce, i, s + t) == Ctr(E, key, nonce, i, s) + Ctr(E, key, nonce, i + n, t)
    decreases n
  {
    hide Ctr, XorBytes, CounterBlock;
    if n == 0 {
      CtrNone(E, key, nonce, i);
      assert s == [] && s + t == t && [] + Ctr(E, key, nonce, i, t) == Ctr(E, key, nonce, i, t);
    } else {
      assert (s + t)[..16] == s[..16] && (s + t)[16..] == s[16..] + t;
      CtrAppendBlocks(E, key, nonce, i + 1, n - 1, s[16..], t);
      CtrFirst(E, key, nonce, i, s);
      CtrFirst(E, key, nonce, i, s + t);
      var head := XorBytes(s[..16], E(key, CounterBlock(nonce, i)));
      Regroup(head, Ctr(E, key, nonce, i + 1, s[16..]), Ctr(E, key, nonce, i + n, t));
    }
  }

  lemma Regroup(a: seq<byte>, b: seq<byte>, c: seq<byte>)
    ensures a + (b + c) == a + b + c
  {
  }

  lemma CtrAppend(E: Cipher, key: Block, nonce: Nonce, i: nat, s: seq<byte>, t: seq<byte>)
    requires |s| % 16 == 0 && i + (|s + t| + 15) / 16 <= 0x1_0000
    ensures Ctr(E, key, nonce, i, s + t) == Ctr(E, key, nonce, i, s) + Ctr(E, key, nonce, i + |s| / 16, t)
  {
    hide Ctr;
    BlocksAdd(|s|, |t|);
    CtrAppendBlocks(E, key, nonce, i, |s| / 16, s, t);
  }

  /** Section 2.5: the same key stream recovers the message. */
  lemma {:induction false} CtrInvolution(E: Cipher, key: Block, nonce: Nonce, i: nat, s: seq<byte>)
    requires i + (|s| + 15) / 16 <= 0x1_0000
    ensures Ctr(E, key, nonce, i, Ctr(E, key, nonce, i, s)) == s
    decreases |s|
  {
    hide Ctr, XorBytes, CounterBlock;
    if s == [] {
      CtrNone(E, key, nonce, i);
    } else {
      var k := Min(16, |s|);
      var stream := E(key, CounterBlock(nonce, i));
      var c := Ctr(E, key, nonce, i, s);
      CtrFirst(E, key, nonce, i, s);
      CtrFirst(E, key, nonce, i, c);
      assert c[..k] == XorBytes(s[..k], stream) && c[k..] == Ctr(E, key, nonce, i + 1, s[k..]);
      XorBytesInvolution(s[..k], stream);
      CtrInvolution(E, key, nonce, i + 1, s[k..]);
      assert s == s[..k] + s[k..];
    }
  }
}

/**
 The incremental CCM request. A call (digest, encrypt or decrypt a piece) is a sequence of
 steps; each step hands one block to AES (Issue) and takes the result back (Absorb), so the
 same functions describe both the software mode and the controller mode.
 */
module CcmMachine {
  import opened Bytes
  import opened Rfc3610

  datatype State =
    | CalculateX1 | W4X1
    | CalculateAadXn | W4AadXn
    | CalculateXn | W4Xn
    | CalculateS0 | W4S0
    | CalculateSn | W4Sn

  datatype Operation = DigestBlock | EncryptBlock | DecryptBlock

  /**
   The fields of btstack_crypto_ccm_t. input is what remains of the caller's piece, output is
   what has been written for it so far, pos is how far the output pointer has advanced.
   */
  datatype Ccm = Ccm(
    operation: Operation, state: State, key: Block, nonce: Nonce, xi: Block,
    aadOffset: uint16, aadLen: uint16, messageLen: uint16, counter: uint16, blockLen: uint16,
    authLen: byte, aadRemainderLen: byte, input: seq<byte>, output: seq<byte>, pos: nat)

  datatype Issued =
    | Aes(c: Ccm, block: Block)   // a block to encrypt
    | Finished(c: Ccm)            // the call completed without AES

  datatype Absorbed = Absorbed(c: Ccm, done: bool)

  // ----- the calls -----

  /** ccm_init; operation, chaining value, piece and remainder stay as an earlier use left them. */
  function Init(c: Ccm, key: Block, nonce: Nonce, messageLen: uint16, aadLen: uint16, authLen: byte): Ccm {
    c.(key := key, nonce := nonce, messageLen := messageLen, aadLen := aadLen, aadOffset := 0, authLen := authLen,
       counter := 1, state := CalculateX1)
  }

  /** A call hands the request the next piece of additional data, plaintext or ciphertext. */
  function Submit(c: Ccm, operation: Operation, piece: seq<byte>): Ccm
    requires |piece| < 0x1_0000
  {
    match operation
    case DigestBlock => c.(operation := operation, blockLen := |piece|, input := piece)
    case EncryptBlock =>
      c.(operation := operation, blockLen := |piece|, input := piece, output := [], pos := 0,
         state := if c.state != CalculateX1 then CalculateXn else c.state)
    case DecryptBlock =>
      c.(operation := operation, blockLen := |piece|, input := piece, output := [], pos := 0,
         state := if c.state != CalculateX1 then CalculateSn else c.state)
  }

  // ----- what a caller must respect -----

  predicate Calculating(c: Ccm) {
    c.state in {CalculateX1, CalculateAadXn, CalculateXn, CalculateS0, CalculateSn}
  }

  /** The two length bytes still to be mixed in before the additional data. */
  function LengthBytes(c: Ccm): nat {
    if c.aadOffset == 0 then 2 else 0
  }

  predicate DigestOk(c: Ccm) {
    && 0 < c.aadLen < 0xff00
    && c.aadOffset + LengthBytes(c) + c.blockLen <= c.aadLen + 2
    && match c.state
       case CalculateX1 | W4X1 => c.aadOffset == 0
       case CalculateAadXn => c.aadOffset < c.aadLen + 2 && c.aadRemainderLen == c.aadOffset % 16
       case W4AadXn => c.aadOffset > 0 && c.aadRemainderLen == 0 && (c.aadOffset < c.aadLen + 2 ==> c.aadOffset % 16 == 0)
       case _ => false
  }

  /** The bytes the current block takes from the piece. */
  function Chunk(c: Ccm): nat {
    Min(c.blockLen, 16)
  }

  predicate MessageOk(c: Ccm) {
    && c.state !in {CalculateAadXn, W4AadXn}
    && |c.output| == c.pos + (if c.operation == DecryptBlock && c.state in {CalculateXn, W4Xn} then Chunk(c) else 0)
    && c.blockLen <= c.messageLen
    && (c.blockLen == 0 <==> c.state in {CalculateS0, W4S0})
    && (c.messageLen == 0 <==> c.state in {CalculateS0, W4S0})
  }

  /** A request on the queue that btstack_crypto_run may process. */
  predicate CallOk(c: Ccm) {
    && ValidAuthLen(c.authLen)
    && |c.input| == c.blockLen
    && (if c.operation == DigestBlock then DigestOk(c) else MessageOk(c))
  }

  // ----- issuing a block -----

  /** The bytes of x from offset at on, with s mixed in. */
  function XorAt(x: Block, at: nat, s: seq<byte>): (r: Block)
    requires at + |s| <= 16
  {
    x[..at] + XorBytes(s, x[at..at + |s|]) + x[at + |s|..]
  }

  /** The length field opens the first block of additional data. */
  function MixLength(c: Ccm): Ccm {
    if c.aadOffset == 0
    then c.(xi := XorAt(c.xi, 0, BigEndian16(c.aadLen)), aadRemainderLen := 2, aadOffset := 2)
    else c
  }

  /** As much additional data as fits into the open block; the end of the data fills it up. */
  function FillAad(c: Ccm): Ccm
    requires CallOk(c) && c.operation == DigestBlock && c.state == CalculateAadXn
  {
    var c1 := MixLength(c);
    var n := Min(16 - c1.aadRemainderLen, c1.blockLen);
    var c2 := c1.(xi := XorAt(c1.xi, c1.aadRemainderLen, c1.input[..n]), input := c1.input[n..],
                  aadRemainderLen := c1.aadRemainderLen + n, aadOffset := c1.aadOffset + n, blockLen := c1.blockLen - n);
    if c2.aadOffset == c2.aadLen + 2 then c2.(aadRemainderLen := 16) else c2
  }

  /** The bytes calc_xn mixes in: its counter of them is eight bits wide. */
  function XnChunk(c: Ccm): nat {
    Min(c.blockLen % 256, 16)
  }

  function XnBlock(c: Ccm): Block
    requires CallOk(c) && c.operation != DigestBlock && c.state == CalculateXn
  {
    var plaintext := if c.operation == EncryptBlock then c.input else c.output[c.pos..];
    XorAt(c.xi, 0, plaintext[..XnChunk(c)])
  }

  function Issue(c: Ccm): Issued
    requires CallOk(c) && Calculating(c)
  {
    if c.state == CalculateX1 then
      Aes(c.(state := W4X1), B0(c.nonce, c.aadLen, c.messageLen, c.authLen))
    else if c.state == CalculateAadXn then
      var f := FillAad(c);
      if f.aadRemainderLen < 16 then Finished(f)
      else Aes(f.(aadRemainderLen := 0, state := W4AadXn), f.xi)
    else if c.state == CalculateXn then Aes(c.(state := W4Xn), XnBlock(c))
    else if c.state == CalculateS0 then Aes(c.(state := W4S0), CounterBlock(c.nonce, 0))
    else Aes(c.(state := W4Sn), CounterBlock(c.nonce, c.counter))
  }

  // ----- taking the result -----

  function NextBlock(c: Ccm, stateWhenDone: State): Absorbed
    requires |c.input| == c.blockLen <= c.messageLen
  {
    var n := Chunk(c);
    var c1 := c.(counter := (c.counter + 1) % 0x1_0000, input := c.input[n..], pos := c.pos + n,
                 blockLen := c.blockLen - n, messageLen := c.messageLen - n);
    if c1.messageLen == 0 then Absorbed(c1.(state := CalculateS0), false)
    else Absorbed(c1.(state := stateWhenDone), c1.blockLen == 0)
  }

  function Absorb(c: Ccm, y: Block): Absorbed
    requires CallOk(c) && !Calculating(c)
  {
    if c.state == W4X1 then
      var c1 := c.(xi := y);
      Absorbed(match c.operation
               case DigestBlock => c1.(aadRemainderLen := 0, state := CalculateAadXn)
               case EncryptBlock => c1.(state := CalculateXn)
               case DecryptBlock => c1.(state := CalculateSn), false)
    else if c.state == W4AadXn then
      var c1 := c.(xi := y);
      if c1.aadOffset < c1.aadLen + 2 then Absorbed(c1.(state := CalculateAadXn), false) else Absorbed(c1, true)
    else if c.state == W4Xn then
      var c1 := c.(xi := y);
      if c.operation == DecryptBlock then NextBlock(c1, CalculateSn) else Absorbed(c1.(state := CalculateSn), false)
    else if c.state == W4Sn then
      var c1 := c.(output := c.output + XorBytes(c.input[..Chunk(c)], y));
      if c.operation == DecryptBlock then Absorbed(c1.(state := CalculateXn), false) else NextBlock(c1, CalculateXn)
    else Absorbed(c.(xi := XorBlock(c.xi, y)), true)
  }

  // ----- progress -----

  /** The AES steps a call still needs: X_1, the additional-data blocks, two per message block, S_0. */
  function Work(c: Ccm): nat
    requires CallOk(c)
  {
    if c.operation == DigestBlock then
      var first := if c.state in {CalculateX1, W4X1} then 1 else 0;
      var waiting := if c.state == W4AadXn then 1 else 0;
      var bytes := (if first == 1 then 0 else c.aadRemainderLen) + LengthBytes(c) + c.blockLen;
      var last := c.aadOffset + LengthBytes(c) + c.blockLen == c.aadLen + 2;
      first + waiting + if last then (bytes + 15) / 16 else bytes / 16
    else
      var first := if c.state in {CalculateX1, W4X1} then 1 else 0;
      var half := if c.state in (if c.operation == EncryptBlock then {CalculateSn, W4Sn} else {CalculateXn, W4Xn}) then 1 else 0;
      first + 2 * ((c.blockLen + 15) / 16) - half + (if c.blockLen == c.messageLen then 1 else 0)
  }

  lemma FillAadKeeps(c: Ccm)
    requires CallOk(c) && c.operation == DigestBlock && c.state == CalculateAadXn
    ensures var f := FillAad(c);
            var n := Min(16 - c.aadRemainderLen - LengthBytes(c), c.blockLen);
            && f == c.(xi := f.xi, input := c.input[n..], blockLen := c.blockLen - n,
                       aadOffset := c.aadOffset + LengthBytes(c) + n, aadRemainderLen := f.aadRemainderLen)
            && f.aadRemainderLen == (if f.aadOffset == c.aadLen + 2 then 16 else c.aadRemainderLen + LengthBytes(c) + n)
            && f.aadRemainderLen <= 16
            && (f.aadRemainderLen == 16 && f.aadOffset < c.aadLen + 2 ==> f.aadOffset % 16 == 0)
            && (f.aadRemainderLen < 16 ==> f.blockLen == 0 && f.aadRemainderLen == f.aadOffset % 16)
  {
  }

  lemma IssueAadKeeps(c: Ccm)
    requires CallOk(c) && c.operation == DigestBlock && c.state == CalculateAadXn
    ensures Issue(c).Aes? ==> CallOk(Issue(c).c) && !Calculating(Issue(c).c) && Work(Issue(c).c) == Work(c) > 0
    ensures Issue(c).Finished? ==> Work(c) == 0
  {
    FillAadKeeps(c);
    var f := FillAad(c);
    var n := f.aadOffset - c.aadOffset;
    var bytes := c.aadRemainderLen + LengthBytes(c) + c.blockLen;
    if f.aadRemainderLen == 16 {
      var i := f.(aadRemainderLen := 0, state := W4AadXn);
      assert Issue(c) == Aes(i, f.xi);
      assert CallOk(i);
      if f.aadOffset < c.aadLen + 2 {
        assert c.aadRemainderLen + n == 16;
        assert i.blockLen == bytes - 16;
      }
    }
  }

  lemma IssueKeeps(c: Ccm)
    requires CallOk(c) && Calculating(c)
    ensures Issue(c).Aes? ==> CallOk(Issue(c).c) && !Calculating(Issue(c).c) && Work(Issue(c).c) == Work(c) > 0
    ensures Issue(c).Finished? ==> Work(c) == 0 && c.operation == DigestBlock
    ensures Issue(c).c.key == c.key && Issue(c).c.operation == c.operation
  {
    if c.state == CalculateAadXn {
      FillAadKeeps(c);
      IssueAadKeeps(c);
    }
  }

  lemma AbsorbDigestKeeps(c: Ccm, y: Block)
    requires CallOk(c) && !Calculating(c) && c.operation == DigestBlock
    ensures var a := Absorb(c, y);
            if a.done then Work(c) == 1
            else CallOk(a.c) && Calculating(a.c) && Work(a.c) == Work(c) - 1
    ensures Absorb(c, y).c.key == c.key && Absorb(c, y).c.operation == c.operation
  {
    hide B0, XorAt, CounterBlock, XorBlock, MessageOk;
  }

  lemma AbsorbMessageKeeps(c: Ccm, y: Block)
    requires CallOk(c) && !Calculating(c) && c.operation != DigestBlock
    ensures var a := Absorb(c, y);
            if a.done then Work(c) == 1
            else CallOk(a.c) && Calculating(a.c) && Work(a.c) == Work(c) - 1 > 0
    ensures Absorb(c, y).c.key == c.key && Absorb(c, y).c.operation == c.operation
  {
    hide B0, XorAt, CounterBlock, XorBlock, XorBytes, DigestOk;
  }

  lemma AbsorbKeeps(c: Ccm, y: Block)
    requires CallOk(c) && !Calculating(c)
    ensures var a := Absorb(c, y);
            if a.done then Work(c) == 1
            else CallOk(a.c) && Calculating(a.c) && Work(a.c) == Work(c) - 1 && (c.operation != DigestBlock ==> Work(a.c) > 0)
    ensures Absorb(c, y).c.key == c.key && Absorb(c, y).c.operation == c.operation
  {
    hide Absorb, CallOk, Work, Calculating;
    if c.operation == DigestBlock {
      AbsorbDigestKeeps(c, y);
    } else {
      AbsorbMessageKeeps(c, y);
    }
  }

  /** One call run to completion with AES in software: the loop of btstack_crypto_run for one request. */
  function RunCall(E: Cipher, c: Ccm): Ccm
    requires CallOk(c) && Calculating(c)
    decreases Work(c)
  {
    IssueKeeps(c);
    match Issue(c)
    case Finished(c1) => c1
    case Aes(c1, block) => Resume(E, c1, E(c1.key, block))
  }

  /** What happens once the result of an outstanding AES step arrives. */
  function Resume(E: Cipher, c: Ccm, y: Block): Ccm
    requires CallOk(c) && !Calculating(c)
    decreases Work(c), 0
  {
    AbsorbKeeps(c, y);
    var a := Absorb(c, y);
    if a.done then a.c else RunCall(E, a.c)
  }

  /** How often a call hands a block to AES before it signals completion. */
  function AesSteps(E: Cipher, c: Ccm): nat
    requires CallOk(c) && Calculating(c)
    decreases Work(c)
  {
    IssueKeeps(c);
    match Issue(c)
    case Finished(_) => 0
    case Aes(c1, block) =>
      AbsorbKeeps(c1, E(c1.key, block));
      var a := Absorb(c1, E(c1.key, block));
      1 + if a.done then 0 else AesSteps(E, a.c)
  }

  /** The measure counts the AES steps exactly, so a call neither signals early nor goes on. */
  lemma {:induction false} AesStepsAreWork(E: Cipher, c: Ccm)
    requires CallOk(c) && Calculating(c)
    ensures AesSteps(E, c) == Work(c)
    decreases Work(c)
  {
    hide Issue, Absorb, Work;
    IssueKeeps(c);
    var i := Issue(c);
    if i.Aes? {
      var y := E(i.c.key, i.block);
      AbsorbKeeps(i.c, y);
      if !Absorb(i.c, y).done {
        AesStepsAreWork(E, Absorb(i.c, y).c);
      }
    }
  }
}
