/**
 The CCM request as the source updates it: a struct with its own chaining value, reading the
 caller's input buffer and writing the output buffer through advancing pointers. The two buffers
 may be the same one, for work in place.
 */
module CcmObject {
  import opened Bytes
  import opened Rfc3610
  import opened CcmMachine

  /**
   The current piece, for the specification: the input still to be processed, as the caller
   supplied it, the output written, and how far the output pointer has advanced over it.
   */
  datatype Piece = Piece(remaining: seq<byte>, produced: seq<byte>, pos: nat)

  class CcmRequest {
    var operation: Operation
    var state: State
    var key: Block
    var nonce: Nonce
    const xi: array<byte>
    var aadOffset: uint16
    var aadLen: uint16
    var messageLen: uint16
    var counter: uint16
    var blockLen: uint16
    var authLen: byte
    var aadRemainderLen: byte
    // the pointers of the struct, as an array and a position
    var input: array<byte>
    var inputPos: nat
    var output: array<byte>
    var outputPos: nat

    ghost var piece: Piece

    /** In place, the output of a chunk replaces its input before the pointers advance. */
    ghost predicate ChunkReplaced()
      reads this
    {
      input == output && operation != DigestBlock && |piece.produced| > piece.pos
    }

    ghost predicate Valid()
      reads this, xi, input, output
    {
      && xi.Length == 16 && xi != input && xi != output
      && inputPos + blockLen <= input.Length
      && |piece.remaining| == blockLen
      && (forall i :: (if ChunkReplaced() then Min(blockLen, 16) else 0) <= i < blockLen ==> piece.remaining[i] == input[inputPos + i])
      && piece.pos <= outputPos <= output.Length && outputPos - piece.pos + |piece.produced| <= output.Length
      && (forall i :: 0 <= i < |piece.produced| ==> piece.produced[i] == output[outputPos - piece.pos + i])
      && (operation != DigestBlock ==> outputPos + blockLen <= output.Length && (input == output ==> inputPos == outputPos))
    }

    ghost function Abs(): Ccm
      requires xi.Length == 16
      reads this, xi
    {
      Ccm(operation, state, key, nonce, xi[..], aadOffset, aadLen, messageLen, counter, blockLen, authLen,
          aadRemainderLen, piece.remaining, piece.produced, piece.pos)
    }

    constructor (key: Block, nonce: Nonce)
      ensures Valid() && fresh(xi) && this.key == key && this.nonce == nonce
    {
      xi, input, output := new byte[16], new byte[0], new byte[0];
      operation, state := DigestBlock, CalculateX1;
      this.key, this.nonce := key, nonce;
      aadOffset, aadLen, messageLen, counter, blockLen, authLen, aadRemainderLen := 0, 0, 0, 0, 0, 0, 0;
      inputPos, outputPos, piece := 0, 0, Piece([], [], 0);
    }

    method StartOver()
      modifies this`aadOffset, this`counter, this`state
      ensures aadOffset == 0 && counter == 1 && state == CalculateX1
    {
      aadOffset, counter, state := 0, 1, CalculateX1;
    }

    method TakeParameters(key: Block, nonce: Nonce, messageLen: uint16, aadLen: uint16, authLen: byte)
      modifies this`key, this`nonce, this`messageLen, this`aadLen, this`authLen
      ensures this.key == key && this.nonce == nonce
      ensures this.messageLen == messageLen && this.aadLen == aadLen && this.authLen == authLen
    {
      this.key, this.nonce := key, nonce;
      this.messageLen, this.aadLen, this.authLen := messageLen, aadLen, authLen;
    }

    /** btstack_crypto_ccm_init */
    method Init(key: Block, nonce: Nonce, messageLen: uint16, aadLen: uint16, authLen: byte)
      requires Valid()
      modifies this`key, this`nonce, this`messageLen, this`aadLen, this`aadOffset, this`authLen, this`counter, this`state
      ensures Valid()
      ensures Abs() == CcmMachine.Init(old(Abs()), key, nonce, messageLen, aadLen, authLen)
    {
      TakeParameters(key, nonce, messageLen, aadLen, authLen);
      StartOver();
    }

    /** setup_b_0 */
    method SetupB0(b0: array<byte>)
      requires b0.Length == 16 && ValidAuthLen(authLen)
      modifies b0
      ensures b0[..] == B0(nonce, aadLen, messageLen, authLen)
    {
      var mPrime := (authLen - 2) / 2;
      var aData := if aadLen != 0 then 1 else 0;
      b0[0] := aData * 64 + mPrime * 8 + 1;
      forall i | 0 <= i < 13 { b0[1 + i] := nonce[i]; }
      b0[14], b0[15] := messageLen / 256, messageLen % 256;
      assert b0[..] == B0(nonce, aadLen, messageLen, authLen);
    }

    /** setup_a_i */
    method SetupAi(counter: uint16, s: array<byte>)
      requires s.Length == 16
      modifies s
      ensures s[..] == CounterBlock(nonce, counter)
    {
      s[0] := 1;
      forall i | 0 <= i < 13 { s[1 + i] := nonce[i]; }
      s[14], s[15] := counter / 256, counter % 256;
      assert s[..] == CounterBlock(nonce, counter);
    }

    /** calc_x1, up to the call of AES */
    method CalcX1(buffer: array<byte>)
      requires Valid() && CallOk(Abs()) && state == CalculateX1
      requires buffer.Length == 16 && buffer != input && buffer != output && buffer != xi
      modifies this`state, buffer
      ensures state == W4X1
      ensures Valid() && Issue(old(Abs())) == Aes(Abs(), buffer[..])
    {
      hide B0, FillAad, XnBlock;
      state := W4X1;
      SetupB0(buffer);
    }

    /** calc_xn, up to the call of AES; plaintext is the input pointer or the output pointer */
    method CalcXn(buffer: array<byte>)
      requires Valid() && CallOk(Abs()) && state == CalculateXn && operation != DigestBlock
      requires buffer.Length == 16 && buffer != input && buffer != output && buffer != xi
      modifies this`state, buffer
      ensures state == W4Xn
      ensures Valid() && Issue(old(Abs())) == Aes(Abs(), buffer[..])
    {
      hide B0, FillAad;
      var plaintext := if operation == EncryptBlock then input else output;
      var pos := if operation == EncryptBlock then inputPos else outputPos;
      ghost var c := Abs();
      ghost var text := if operation == EncryptBlock then c.input else c.output[c.pos..];
      var bytesToDecrypt := blockLen % 256;
      if bytesToDecrypt > 16 {
        bytesToDecrypt := 16;
      }
      assert text[..bytesToDecrypt] == plaintext[pos..pos + bytesToDecrypt];
      MixText(plaintext, pos, bytesToDecrypt, buffer);
      state := W4Xn;
    }

    /** buffer := xi with n bytes of text mixed in, the rest of xi copied */
    method MixText(text: array<byte>, pos: nat, n: nat, buffer: array<byte>)
      requires n <= 16 && pos + n <= text.Length && xi.Length == buffer.Length == 16 && buffer != text && buffer != xi
      modifies buffer
      ensures buffer[..] == XorAt(xi[..], 0, text[pos..pos + n])
    {
      for i := 0 to n
        invariant forall j :: 0 <= j < i ==> buffer[j] == Xor(text[pos + j], xi[j])
      {
        XorByteLaws(xi[i], text[pos + i]);
        buffer[i] := Xor(xi[i], text[pos + i]);
      }
      forall i | n <= i < 16 { buffer[i] := xi[i]; }
      MixedIn(xi[..], 0, text[pos..pos + n], buffer[..]);
    }

    /** The length field, before the first byte of additional data. */
    method MixLengthField()
      requires Valid() && operation == DigestBlock && aadOffset == 0
      modifies this`aadRemainderLen, this`aadOffset, xi
      requires aadRemainderLen == 0
      ensures Valid() && Abs() == MixLength(old(Abs()))
    {
      ghost var x := xi[..];
      XorByteLaws(xi[0], aadLen / 256);
      XorByteLaws(xi[1], aadLen % 256);
      xi[0] := Xor(xi[0], aadLen / 256);
      xi[1] := Xor(xi[1], aadLen % 256);
      aadRemainderLen := aadRemainderLen + 2;
      aadOffset := aadOffset + 2;
      assert xi[..] == XorAt(x, 0, BigEndian16(aadLen));
    }

    /** The byte loop of calc_aad_xn. */
    method MixBytes(n: nat)
      requires xi.Length == 16 && xi != input
      requires n <= blockLen && inputPos + blockLen <= input.Length && aadRemainderLen + n <= 16 && aadOffset + n < 0x1_0000
      modifies this`aadRemainderLen, this`aadOffset, this`blockLen, this`inputPos, xi
      ensures aadRemainderLen == old(aadRemainderLen) + n && aadOffset == old(aadOffset) + n
      ensures blockLen == old(blockLen) - n && inputPos == old(inputPos) + n
      ensures forall j :: 0 <= j < old(aadRemainderLen) || aadRemainderLen <= j < 16 ==> xi[j] == old(xi[j])
      ensures forall j :: old(aadRemainderLen) <= j < aadRemainderLen ==>
                xi[j] == Xor(input[old(inputPos) + j - old(aadRemainderLen)], old(xi[j]))
    {
      ghost var x, at, p := xi[..], aadRemainderLen, inputPos;
      var bytesToCopy := n;
      while bytesToCopy > 0
        invariant 0 <= bytesToCopy <= n
        invariant aadRemainderLen == at + n - bytesToCopy && aadOffset == old(aadOffset) + n - bytesToCopy
        invariant blockLen == old(blockLen) - (n - bytesToCopy) && inputPos == p + n - bytesToCopy
        invariant forall j :: 0 <= j < at || aadRemainderLen <= j < 16 ==> xi[j] == x[j]
        invariant forall j :: at <= j < aadRemainderLen ==> xi[j] == Xor(input[p + j - at], x[j])
      {
        XorByteLaws(xi[aadRemainderLen], input[inputPos]);
        xi[aadRemainderLen] := Xor(xi[aadRemainderLen], input[inputPos]);
        aadRemainderLen := aadRemainderLen + 1;
        inputPos := inputPos + 1;
        aadOffset := aadOffset + 1;
        blockLen := blockLen - 1;
        bytesToCopy := bytesToCopy - 1;
      }
    }

    method MixInput(n: nat)
      requires Valid() && operation == DigestBlock
      requires n <= blockLen && aadRemainderLen + n <= 16 && aadOffset + n < 0x1_0000
      modifies this`aadRemainderLen, this`aadOffset, this`blockLen, this`inputPos, this`piece, xi
      ensures piece.pos == old(piece.pos)
      ensures Valid()
      ensures var c := old(Abs());
              Abs() == c.(xi := XorAt(c.xi, c.aadRemainderLen, c.input[..n]), input := c.input[n..],
                          aadRemainderLen := c.aadRemainderLen + n, aadOffset := c.aadOffset + n, blockLen := c.blockLen - n)
    {
      hide XorAt;
      ghost var x, at, all := xi[..], aadRemainderLen, piece.remaining;
      assert all[..n] == input[inputPos..inputPos + n];
      MixBytes(n);
      MixedIn(x, at, all[..n], xi[..]);
      piece := piece.(remaining := all[n..]);
      assert forall i :: 0 <= i < blockLen ==> piece.remaining[i] == all[n + i];
    }

    lemma MixedIn(x: Block, at: nat, s: seq<byte>, r: Block)
      requires at + |s| <= 16
      requires forall j :: 0 <= j < at || at + |s| <= j < 16 ==> r[j] == x[j]
      requires forall j :: at <= j < at + |s| ==> r[j] == Xor(s[j - at], x[j])
      ensures r == XorAt(x, at, s)
    {
      assert forall j :: 0 <= j < 16 ==> r[j] == XorAt(x, at, s)[j];
    }

    /** The part of calc_aad_xn that fills the block. */
    method FillBlock()
      requires Valid() && CallOk(Abs()) && state == CalculateAadXn && operation == DigestBlock
      modifies this`aadRemainderLen, this`aadOffset, this`blockLen, this`inputPos, this`piece, xi
      ensures Valid() && Abs() == FillAad(old(Abs()))
      ensures piece.pos == old(piece.pos)
    {
      hide B0, XnBlock, XorAt, Work;
      if aadOffset == 0 {
        MixLengthField();
      }
      var bytesFree := 16 - aadRemainderLen;
      var bytesToCopy := Min(bytesFree, blockLen);
      MixInput(bytesToCopy);
      if aadOffset == aadLen + 2 {
        aadRemainderLen := 16;
      }
    }

    /** calc_aad_xn, up to the call of AES: true when a block is ready in xi, false when the call is over */
    method CalcAadXn() returns (full: bool)
      requires Valid() && CallOk(Abs()) && state == CalculateAadXn && operation == DigestBlock
      modifies this`state, this`aadRemainderLen, this`aadOffset, this`blockLen, this`inputPos, this`piece, xi
      ensures piece.pos == old(piece.pos)
      ensures full ==> state == W4AadXn
      ensures Valid()
      ensures Issue(old(Abs())) == if full then Aes(Abs(), xi[..]) else Finished(Abs())
    {
      hide B0, XnBlock, XorAt, Work, FillAad;
      FillBlock();
      if aadRemainderLen < 16 {
        return false;
      }
      aadRemainderLen := 0;
      state := W4AadXn;
      return true;
    }

    /** calc_sn and calc_s0, up to the call of AES */
    method CalcS(s: array<byte>)
      requires Valid() && CallOk(Abs()) && state in {CalculateSn, CalculateS0}
      requires s.Length == 16 && s != input && s != output && s != xi
      modifies this`state, s
      ensures state == if old(state) == CalculateSn then W4Sn else W4S0
      ensures Valid() && Issue(old(Abs())) == Aes(Abs(), s[..])
    {
      hide CounterBlock, B0, FillAad;
      if state == CalculateSn {
        state := W4Sn;
        SetupAi(counter, s);
      } else {
        state := W4S0;
        SetupAi(0, s);
      }
    }

    /** The arithmetic of next_block on counter, pointers and lengths. */
    method MovePointers(n: nat)
      requires n <= blockLen <= messageLen && n <= |piece.remaining|
      modifies this`counter, this`inputPos, this`outputPos, this`piece, this`blockLen, this`messageLen
      ensures counter == (old(counter) + 1) % 0x1_0000
      ensures inputPos == old(inputPos) + n && outputPos == old(outputPos) + n
      ensures piece == Piece(old(piece).remaining[n..], old(piece).produced, old(piece).pos + n)
      ensures blockLen == old(blockLen) - n && messageLen == old(messageLen) - n
    {
      counter := (counter + 1) % 0x1_0000;
      inputPos := inputPos + n;
      outputPos := outputPos + n;
      piece := piece.(remaining := piece.remaining[n..], pos := piece.pos + n);
      blockLen := blockLen - n;
      messageLen := messageLen - n;
    }

    /** Moving the pointers over the chunk just written leaves them on untouched input. */
    method MoveOverChunk(n: nat)
      requires Valid() && operation != DigestBlock && n == Min(blockLen, 16)
      requires blockLen <= messageLen && |piece.produced| == piece.pos + n
      modifies this`counter, this`inputPos, this`outputPos, this`piece, this`blockLen, this`messageLen
      ensures Valid()
      ensures counter == (old(counter) + 1) % 0x1_0000
      ensures outputPos == old(outputPos) + n
      ensures piece == Piece(old(piece).remaining[n..], old(piece).produced, old(piece).pos + n)
      ensures blockLen == old(blockLen) - n && messageLen == old(messageLen) - n
    {
      MovePointers(n);
      assert forall i :: 0 <= i < blockLen ==> piece.remaining[i] == old(piece).remaining[n + i];
    }

    /** next_block; the result says whether the call is over */
    method AdvanceBlock(stateWhenDone: State) returns (done: bool)
      requires Valid() && operation != DigestBlock && blockLen <= messageLen && |piece.produced| == piece.pos + Min(blockLen, 16)
      modifies this`counter, this`inputPos, this`outputPos, this`piece, this`blockLen, this`messageLen, this`state
      ensures outputPos - piece.pos == old(outputPos - piece.pos)
      ensures Valid() && Absorbed(Abs(), done) == NextBlock(old(Abs()), stateWhenDone)
    {
      hide CallOk, Work, B0, XorAt;
      var bytesToProcess := Min(blockLen, 16);
      MoveOverChunk(bytesToProcess);
      state := if messageLen == 0 then CalculateS0 else stateWhenDone;
      done := messageLen != 0 && blockLen == 0;
    }

    /** handle_x1, once the result is in x_i */
    method HandleX1(y: array<byte>) returns (done: bool)
      requires Valid() && CallOk(Abs()) && state == W4X1 && y.Length == 16 && y != input && y != output
      modifies this`aadRemainderLen, this`state, xi
      ensures Valid() && Absorbed(Abs(), done) == Absorb(old(Abs()), old(y[..]))
    {
      hide B0, XnBlock, XorAt, Work, FillAad, CallOk;
      StoreXi(y);
      match operation {
        case DigestBlock => aadRemainderLen, state := 0, CalculateAadXn;
        case EncryptBlock => state := CalculateXn;
        case DecryptBlock => state := CalculateSn;
      }
      done := false;
    }

    /** handle_xn */
    method HandleXn(y: array<byte>) returns (done: bool)
      requires Valid() && CallOk(Abs()) && state == W4Xn && operation != DigestBlock
      requires y.Length == 16 && y != input && y != output
      modifies this`counter, this`inputPos, this`outputPos, this`piece, this`blockLen, this`messageLen, this`state, xi
      ensures outputPos - piece.pos == old(outputPos - piece.pos)
      ensures Valid() && Absorbed(Abs(), done) == Absorb(old(Abs()), old(y[..]))
    {
      hide B0, XnBlock, XorAt, Work, FillAad;
      StoreXi(y);
      if operation == DecryptBlock {
        done := AdvanceBlock(CalculateSn);
      } else {
        state := CalculateSn;
        done := false;
      }
    }

    /** handle_aad_xn */
    method HandleAadXn(y: array<byte>) returns (done: bool)
      requires Valid() && CallOk(Abs()) && state == W4AadXn && y.Length == 16 && y != input && y != output
      modifies this`state, xi
      ensures Valid() && Absorbed(Abs(), done) == Absorb(old(Abs()), old(y[..]))
    {
      hide B0, XnBlock, XorAt, Work, FillAad, CallOk;
      StoreXi(y);
      done := aadOffset >= aadLen + 2;
      if !done {
        state := CalculateAadXn;
      }
    }

    method StoreXi(y: array<byte>)
      requires Valid() && y.Length == 16 && (y == xi || (y != input && y != output))
      modifies xi
      ensures Valid() && Abs() == old(Abs()).(xi := old(y[..]))
    {
      ghost var block := y[..];
      forall i | 0 <= i < 16 { xi[i] := y[i]; }
      assert xi[..] == block;
    }

    /** The byte loop of handle_sn. */
    method MixStream(data: array<byte>, n: nat)
      requires Valid() && n <= blockLen && outputPos + n <= output.Length
      requires data.Length == 16 && data != output && n <= 16 && (input == output ==> inputPos == outputPos)
      modifies output
      ensures forall i :: 0 <= i < output.Length && !(outputPos <= i < outputPos + n) ==> output[i] == old(output[i])
      ensures forall i :: 0 <= i < n ==> output[outputPos + i] == Xor(old(input[inputPos + i]), old(data[i]))
    {
      for i := 0 to n
        invariant forall j :: 0 <= j < output.Length && !(outputPos <= j < outputPos + i) ==> output[j] == old(output[j])
        invariant forall j :: 0 <= j < i ==> output[outputPos + j] == Xor(old(input[inputPos + j]), old(data[j]))
      {
        output[outputPos + i] := Xor(input[inputPos + i], data[i]);
      }
    }

    /** handle_sn */
    method HandleSn(data: array<byte>) returns (done: bool)
      requires Valid() && CallOk(Abs()) && state == W4Sn && operation != DigestBlock
      requires data.Length == 16 && data != output
      modifies this`piece, this`state, output
      modifies this`counter, this`inputPos, this`outputPos, this`piece, this`blockLen, this`messageLen
      ensures outputPos - piece.pos == old(outputPos - piece.pos)
      ensures Valid() && Absorbed(Abs(), done) == Absorb(old(Abs()), old(data[..]))
    {
      hide B0, XnBlock, XorAt, Work, FillAad;
      ghost var c := Abs();
      var bytesToProcess := Min(blockLen, 16);
      StreamChunk(data, bytesToProcess);
      if operation == DecryptBlock {
        state := CalculateXn;
        done := false;
      } else {
        done := AdvanceBlock(CalculateXn);
      }
    }

    method StreamChunk(data: array<byte>, n: nat)
      requires Valid() && CallOk(Abs()) && state == W4Sn && operation != DigestBlock && n == Chunk(Abs())
      requires data.Length == 16 && data != output
      modifies this`piece, output
      ensures Valid() && Abs() == old(Abs()).(output := old(piece.produced + XorBytes(piece.remaining[..n], data[..])))
    {
      hide B0, XnBlock, XorAt, Work, FillAad;
      ghost var chunk := XorBytes(piece.remaining[..n], data[..]);
      MixStream(data, n);
      piece := piece.(produced := piece.produced + chunk);
    }

    /** handle_s0 */
    method HandleS0(data: array<byte>) returns (done: bool)
      requires Valid() && CallOk(Abs()) && state == W4S0 && operation != DigestBlock
      requires data.Length == 16 && data != xi
      modifies xi
      ensures Valid() && Absorbed(Abs(), done) == Absorb(old(Abs()), data[..])
    {
      ghost var x := xi[..];
      for i := 0 to 16
        invariant forall j :: 0 <= j < i ==> xi[j] == Xor(x[j], data[j])
        invariant forall j :: i <= j < 16 ==> xi[j] == x[j]
      {
        xi[i] := Xor(xi[i], data[i]);
      }
      assert xi[..] == XorBlock(x, data[..]);
      done := true;
    }

    /** btstack_crypto_ccm_digest */
    method SubmitDigest(input: array<byte>, inputPos: nat, len: uint16)
      requires Valid() && xi != input && inputPos + len <= input.Length
      modifies this`operation, this`input, this`inputPos, this`blockLen, this`piece
      ensures Valid() && Abs() == Submit(old(Abs()), DigestBlock, input[inputPos..inputPos + len])
    {
      PointInput(input, inputPos, len);
      operation := DigestBlock;
    }

    method PointInput(input: array<byte>, inputPos: nat, len: uint16)
      requires inputPos + len <= input.Length
      modifies this`input, this`inputPos, this`blockLen, this`piece
      ensures this.input == input && this.inputPos == inputPos && blockLen == len
      ensures piece == old(piece).(remaining := input[inputPos..inputPos + len])
      ensures forall i :: 0 <= i < len ==> piece.remaining[i] == input[inputPos + i]
    {
      this.input, this.inputPos, blockLen := input, inputPos, len;
      piece := piece.(remaining := input[inputPos..inputPos + len]);
    }

    /** The pointers and the length of a message piece. */
    method PointAt(input: array<byte>, inputPos: nat, len: uint16, output: array<byte>, outputPos: nat)
      requires inputPos + len <= input.Length
      modifies this`input, this`inputPos, this`blockLen, this`output, this`outputPos, this`piece
      ensures this.input == input && this.inputPos == inputPos && blockLen == len
      ensures this.output == output && this.outputPos == outputPos
      ensures piece == Piece(input[inputPos..inputPos + len], [], 0)
      ensures forall i :: 0 <= i < len ==> piece.remaining[i] == input[inputPos + i]
    {
      this.input, this.inputPos, blockLen := input, inputPos, len;
      this.output, this.outputPos := output, outputPos;
      piece := Piece(input[inputPos..inputPos + len], [], 0);
    }

    /** btstack_crypto_ccm_encrypt_block and _decrypt_block: a piece at input, written to output, possibly in place */
    method SubmitMessage(encrypt: bool, input: array<byte>, inputPos: nat, len: uint16, output: array<byte>, outputPos: nat)
      requires Valid() && xi != input && xi != output
      requires inputPos + len <= input.Length && outputPos + len <= output.Length && (input == output ==> inputPos == outputPos)
      modifies this`operation, this`input, this`inputPos, this`blockLen, this`state
      modifies this`output, this`outputPos, this`piece
      ensures Valid() && this.output == output && this.outputPos == outputPos
      ensures Abs() == Submit(old(Abs()), if encrypt then EncryptBlock else DecryptBlock, input[inputPos..inputPos + len])
    {
      PointAt(input, inputPos, len, output, outputPos);
      Choose(encrypt);
    }

    method Choose(encrypt: bool)
      modifies this`operation, this`state
      ensures operation == if encrypt then EncryptBlock else DecryptBlock
      ensures state == if old(state) == CalculateX1 then CalculateX1 else if encrypt then CalculateXn else CalculateSn
    {
      operation := if encrypt then EncryptBlock else DecryptBlock;
      state := if state == CalculateX1 then state else if encrypt then CalculateXn else CalculateSn;
    }

    /** One iteration of the scheduler for this request with AES in software. */
    method SoftwareStep(E: Cipher, buffer: array<byte>) returns (done: bool)
      requires Valid() && CallOk(Abs()) && Calculating(Abs())
      requires buffer.Length == 16 && buffer != input && buffer != output && buffer != xi
      modifies this, xi, output, buffer
      ensures Valid() && input == old(input) && output == old(output) && outputPos - piece.pos == old(outputPos - piece.pos)
      ensures match Issue(old(Abs()))
              case Finished(c) => done && Abs() == c
              case Aes(c, block) => CallOk(c) && !Calculating(c) && Absorbed(Abs(), done) == Absorb(c, E(c.key, block))
    {
      hide Issue, Absorb, CallOk, Work;
      IssueKeeps(Abs());
      StateSplit();
      if state == CalculateAadXn {
        var full := CalcAadXn();
        if !full {
          return true;
        }
        AesInto(E, xi, buffer);
        done := HandleAadXn(buffer);
      } else if state == CalculateX1 {
        CalcX1(buffer);
        AesInto(E, buffer, buffer);
        done := HandleX1(buffer);
      } else if state == CalculateXn {
        CalcXn(buffer);
        AesInto(E, buffer, buffer);
        done := HandleXn(buffer);
      } else {
        CalcS(buffer);
        AesInto(E, buffer, buffer);
        if state == W4Sn {
          done := HandleSn(buffer);
        } else {
          done := HandleS0(buffer);
        }
      }
    }

    /** Which operation may be in which calculating state. */
    lemma StateSplit()
      requires xi.Length == 16 && CallOk(Abs()) && Calculating(Abs())
      ensures (state == CalculateAadXn) == (operation == DigestBlock && state != CalculateX1)
      ensures state in {CalculateX1, CalculateAadXn, CalculateXn, CalculateS0, CalculateSn}
    {
    }

    /** btstack_aes128_calc under this request's key; plaintext and ciphertext may be one buffer */
    method AesInto(E: Cipher, plaintext: array<byte>, ciphertext: array<byte>)
      requires plaintext.Length == 16 && ciphertext.Length == 16
      modifies ciphertext
      ensures ciphertext[..] == E(key, old(plaintext[..]))
    {
      var c := E(key, plaintext[..]);
      forall i | 0 <= i < 16 { ciphertext[i] := c[i]; }
      assert ciphertext[..] == c;
    }

    /**
     The scheduler loop for one call: the fields and buffers end up as the specification says. The
     output buffer holds the result even when it is the input buffer.
     */
    method RunSoftware(E: Cipher)
      requires Valid() && CallOk(Abs()) && Calculating(Abs())
      modifies this, xi, output
      ensures Valid() && Abs() == RunCall(E, old(Abs()))
      ensures input == old(input) && output == old(output)
      ensures var start := old(outputPos - piece.pos);
              && start + |Abs().output| <= output.Length
              && output[start..start + |Abs().output|] == Abs().output
    {
      hide Issue, Absorb, CallOk, Work, Calculating;
      var buffer := new byte[16];
      var done := false;
      ghost var c0 := Abs();
      while !done
        invariant Valid() && input == old(input) && output == old(output) && outputPos - piece.pos == old(outputPos - piece.pos)
        invariant fresh(buffer)
        invariant if done then Abs() == RunCall(E, c0)
                  else CallOk(Abs()) && Calculating(Abs()) && RunCall(E, Abs()) == RunCall(E, c0)
        decreases if done then 0 else 1 + Work(Abs())
      {
        ghost var c := Abs();
        IssueKeeps(c);
        done := SoftwareStep(E, buffer);
        if Issue(c).Aes? {
          AbsorbKeeps(Issue(c).c, E(Issue(c).c.key, Issue(c).block));
        }
      }
      assert output[outputPos - piece.pos..outputPos - piece.pos + |piece.produced|] == piece.produced;
    }
  }
}
