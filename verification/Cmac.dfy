/**
 AES-CMAC as RFC 4493 defines it: subkeys by doubling in GF(2^128), then a chain over the
 message blocks. Every name below is the RFC's.
 */
module Rfc4493 {
  import opened Bytes

  /** The 128-bit string shifted left by one bit: the top bit is lost. */
  function ShiftLeft(b: Block): Block {
    var v := 2 * FromBytes(b) % Pow256(16);
    ToBytesLength(v, 16);
    PadTo(v, 16)
  }

  const CONST_RB: Block := Zeros(15) + [0x87]

  /** One step of section 2.3: shift, and add const_Rb when the top bit was set. */
  function Double(b: Block): Block {
    if 2 * FromBytes(b) < Pow256(16) then ShiftLeft(b) else XorBlock(ShiftLeft(b), CONST_RB)
  }

  function K1(E: Cipher, key: Block): Block {
    Double(E(key, Zeros(16)))
  }

  function K2(E: Cipher, key: Block): Block {
    Double(K1(E, key))
  }

  /** The chaining value after every block but the last. */
  function Chain(E: Cipher, key: Block, x: Block, msg: seq<byte>): Block
    decreases |msg|
  {
    if |msg| <= 16 then x else Chain(E, key, E(key, XorBlock(x, msg[..16])), msg[16..])
  }

  /** Where the last, possibly incomplete, block starts. */
  function LastStart(len: nat): (start: nat)
    ensures start <= len && len - start <= 16 && start % 16 == 0
  {
    if len == 0 then 0 else (len - 1) / 16 * 16
  }

  function Padding(s: seq<byte>): Block
    requires |s| < 16
  {
    s + [0x80] + Zeros(15 - |s|)
  }

  /** M_last for given subkeys. */
  function LastBlock(k1: Block, k2: Block, msg: seq<byte>): Block {
    var last := msg[LastStart(|msg|)..];
    if |last| == 16 then XorBlock(last, k1) else XorBlock(Padding(last), k2)
  }

  function MLast(E: Cipher, key: Block, msg: seq<byte>): Block {
    LastBlock(K1(E, key), K2(E, key), msg)
  }

  function Cmac(E: Cipher, key: Block, msg: seq<byte>): Block {
    E(key, XorBlock(Chain(E, key, Zeros(16), msg), MLast(E, key, msg)))
  }

  /** The chain over the first k blocks of msg. */
  function ChainBlocks(E: Cipher, key: Block, msg: seq<byte>, k: nat): Block
    requires 16 * k <= |msg|
  {
    if k == 0 then Zeros(16)
    else E(key, XorBlock(ChainBlocks(E, key, msg, k - 1), msg[16 * (k - 1)..16 * k]))
  }

  /** Chaining from any intermediate block gives the same value as chaining from the start. */
  lemma {:induction false} ChainFrom(E: Cipher, key: Block, msg: seq<byte>, k: nat)
    requires 16 * k <= LastStart(|msg|)
    ensures Chain(E, key, Zeros(16), msg) == Chain(E, key, ChainBlocks(E, key, msg, k), msg[16 * k..])
  {
    if k == 0 {
      assert msg[0..] == msg;
    } else {
      ChainFrom(E, key, msg, k - 1);
      var rest := msg[16 * (k - 1)..];
      assert rest[..16] == msg[16 * (k - 1)..16 * k] && rest[16..] == msg[16 * k..];
    }
  }

  lemma ChainIsChainBlocks(E: Cipher, key: Block, msg: seq<byte>)
    ensures Chain(E, key, Zeros(16), msg) == ChainBlocks(E, key, msg, LastStart(|msg|) / 16)
  {
    ChainFrom(E, key, msg, LastStart(|msg|) / 16);
  }
}

/** The straight-line CMAC used when AES runs in software. */
module CmacSoftware {
  import opened Arithmetic
  import opened Bytes
  import opened Rfc4493

  /** The message of a request: a buffer, or a callback asked for one byte at a time. */
  datatype Source = Message(bytes: seq<byte>) | Generator(callback: uint16 -> byte)
  {
    predicate Covers(size: uint16) {
      Message? ==> size <= |bytes|
    }

    function GetByte(pos: uint16): byte
      requires Covers(pos) && (Message? ==> pos < |bytes|)
    {
      match this
      case Message(bytes) => bytes[pos]
      case Generator(callback) => callback(pos)
    }

    function Text(size: uint16): (s: seq<byte>)
      requires Covers(size)
      ensures |s| == size && forall i :: 0 <= i < size ==> s[i] == GetByte(i)
      ensures match this
              case Message(bytes) => s == bytes[..size]
              case Generator(callback) => forall i :: 0 <= i < size ==> s[i] == callback(i)
    {
      seq(size, i requires 0 <= i < size => GetByte(i))
    }
  }

  method AesCalc(E: Cipher, key: Block, plaintext: array<byte>, ciphertext: array<byte>)
    requires plaintext.Length == 16 && ciphertext.Length == 16
    modifies ciphertext
    ensures ciphertext[..] == E(key, old(plaintext[..]))
  {
    var c := E(key, plaintext[..]);
    forall i | 0 <= i < 16 { ciphertext[i] := c[i]; }
    assert ciphertext[..] == c;
  }

  lemma FromBytesCons(h: byte, t: seq<byte>)
    ensures FromBytes([h] + t) == h * Pow256(|t|) + FromBytes(t)
  {
    hide FromBytes, Pow256;
    FromBytesAppend([h], t);
    FromBytesOne(h);
  }

  /** The byte shifted to the left, with a carry coming in, and the bit that leaves it. */
  function ShiftedByte(d: byte, carry: nat): byte
    requires carry <= 1
  {
    (d as int % 128) * 2 + carry
  }

  function CarryOut(d: byte): (carry: nat)
    ensures carry <= 1
  {
    d / 128
  }

  lemma ShiftedByteMeans(d: byte, carry: nat)
    requires carry <= 1
    ensures ShiftedByte(d, carry) == (2 * (d as int)) % 256 + carry
    ensures ShiftedByte(d, carry) + 256 * CarryOut(d) == 2 * d + carry
  {
    var x: int := d;
    DivModUnique(2 * x, 256, x / 128, 2 * (x % 128));
  }

  lemma StepArith(n: nat, o: nat, p: nat, d: nat, b: nat, q: nat, carry: nat, newValue: nat, oldValue: nat, nextPower: nat)
    requires n + carry * p == 2 * o && b + 256 * q == 2 * d + carry
    requires newValue == b * p + n && oldValue == d * p + o && nextPower == 256 * p
    ensures newValue + q * nextPower == 2 * oldValue
  {
    calc {
      newValue + q * nextPower;
      b * p + n + q * (256 * p);
      (b + 256 * q) * p + n;
      (2 * d + carry) * p + n;
      2 * (d * p) + (carry * p + n);
    }
  }

  /** One byte position of the shift: the new byte and the carry out of it hold twice the old value. */
  lemma ShiftStep(oldTail: seq<byte>, newTail: seq<byte>, d: byte, carry: nat)
    requires |oldTail| == |newTail| && carry <= 1
    requires FromBytes(newTail) + carry * Pow256(|newTail|) == 2 * FromBytes(oldTail)
    ensures FromBytes([ShiftedByte(d, carry)] + newTail) + CarryOut(d) * Pow256(|newTail| + 1) == 2 * FromBytes([d] + oldTail)
  {
    hide FromBytes, Pow256, ShiftedByte, CarryOut;
    FromBytesCons(ShiftedByte(d, carry), newTail);
    FromBytesCons(d, oldTail);
    Pow256Next(|newTail|);
    ShiftedByteMeans(d, carry);
    StepArith(FromBytes(newTail), FromBytes(oldTail), Pow256(|newTail|), d, ShiftedByte(d, carry), CarryOut(d), carry,
              FromBytes([ShiftedByte(d, carry)] + newTail), FromBytes([d] + oldTail), Pow256(|newTail| + 1));
  }

  /** The bytes k..len of was have been shifted, with carry coming out of them; the others are untouched. */
  ghost predicate ShiftedFrom(was: seq<byte>, now: seq<byte>, len: nat, k: nat, carry: nat) {
    && |was| == |now| && k <= len <= |was| && carry <= 1
    && now[..k] == was[..k] && now[len..] == was[len..]
    && FromBytes(now[k..len]) + carry * Pow256(len - k) == 2 * FromBytes(was[k..len])
  }

  lemma ShiftBegins(was: seq<byte>, len: nat)
    requires len <= |was|
    ensures ShiftedFrom(was, was, len, len, 0)
  {
    assert was[len..len] == [];
  }

  lemma ShiftGoesOn(was: seq<byte>, now: seq<byte>, len: nat, k: nat, carry: nat)
    requires ShiftedFrom(was, now, len, k + 1, carry)
    ensures now[k] == was[k]
    ensures ShiftedFrom(was, now[k := ShiftedByte(now[k], carry)], len, k, CarryOut(now[k]))
  {
    hide FromBytes, Pow256, ShiftedByte, CarryOut;
    assert now[..k + 1][k] == was[..k + 1][k];
    var d, b := was[k], ShiftedByte(was[k], carry);
    var next := now[k := b];
    ShiftStep(was[k + 1..len], now[k + 1..len], d, carry);
    assert next[k..len] == [b] + now[k + 1..len] && was[k..len] == [d] + was[k + 1..len];
    assert next[..k] == now[..k + 1][..k] && was[..k] == was[..k + 1][..k] && next[len..] == now[len..];
  }

  lemma ShiftEnds(was: seq<byte>, now: seq<byte>, len: nat, carry: nat)
    requires ShiftedFrom(was, now, len, 0, carry)
    ensures FromBytes(now[..len]) == 2 * FromBytes(was[..len]) % Pow256(len) && now[len..] == was[len..]
  {
    hide FromBytes, Pow256;
    assert now[0..len] == now[..len] && was[0..len] == was[..len];
    FromBytesBound(now[..len]);
    DivModUnique(2 * FromBytes(was[..len]), Pow256(len), carry, FromBytes(now[..len]));
  }

  /** A buffer of any length, read as one big-endian number, is doubled; the carry out of the top is lost. */
  method ShiftLeftByOneBitInPlace(len: nat, data: array<byte>)
    requires len <= data.Length
    modifies data
    ensures FromBytes(data[..len]) == 2 * old(FromBytes(data[..len])) % Pow256(len)
    ensures data[len..] == old(data[len..])
  {
    hide FromBytes, Pow256, ShiftedFrom, ShiftedByte, CarryOut;
    var i := len - 1;
    var carry: nat := 0;
    ghost var was := data[..];
    ShiftBegins(was, len);
    while i >= 0
      invariant -1 <= i < len && carry <= 1
      invariant ShiftedFrom(was, data[..], len, i + 1, carry)
    {
      ghost var now := data[..];
      ShiftGoesOn(was, now, len, i, carry);
      var newCarry := CarryOut(data[i]);
      data[i] := ShiftedByte(data[i], carry);
      assert data[..] == now[i := ShiftedByte(now[i], carry)];
      carry := newCarry;
      i := i - 1;
    }
    ShiftEnds(was, data[..], len, carry);
  }

  lemma TopBitArith(h: nat, p: nat, t: nat)
    requires t < p
    ensures 2 * (h * p + t) < 256 * p <==> h < 128
  {
    if h < 128 {
      assert h * p <= 127 * p;
    } else {
      assert h * p >= 128 * p;
    }
  }

  lemma TopBit(b: Block)
    ensures 2 * FromBytes(b) < Pow256(16) <==> b[0] < 128
  {
    FromBytesHead(b);
    FromBytesBound(b[1..]);
    TopBitArith(b[0], Pow256(15), FromBytes(b[1..]));
    assert Pow256(16) == 256 * Pow256(15);
  }

  /** dst := the doubling of src, by shifting in place and patching the last byte. */
  method DoubleInto(src: array<byte>, dst: array<byte>)
    requires src.Length == 16 && dst.Length == 16 && src != dst
    modifies dst
    ensures dst[..] == Double(src[..])
  {
    hide FromBytes, Pow256, Xor;
    forall i | 0 <= i < 16 { dst[i] := src[i]; }
    assert dst[..16] == src[..] && dst[..] == dst[..16];
    ShiftLeftByOneBitInPlace(16, dst);
    assert dst[..16] == dst[..];
    ghost var shifted := dst[..];
    PadFromBytes(shifted);
    assert shifted == ShiftLeft(src[..]);
    TopBit(src[..]);
    if src[0] >= 128 {
      dst[15] := Xor(dst[15], 0x87);
      XorBytesZeros(shifted);
      assert dst[..] == XorBlock(shifted, CONST_RB) by {
        forall i | 0 <= i < 16 ensures dst[i] == Xor(shifted[i], CONST_RB[i]) {
          if i < 15 { XorByteLaws(shifted[i], 0); }
        }
      }
    }
  }

  method CalcSubkeys(k0: array<byte>, k1: array<byte>, k2: array<byte>)
    requires k0.Length == 16 && k1.Length == 16 && k2.Length == 16
    requires k0 != k1 && k1 != k2 && k0 != k2
    modifies k1, k2
    ensures k1[..] == Double(k0[..]) && k2[..] == Double(Double(k0[..]))
  {
    DoubleInto(k0, k1);
    DoubleInto(k1, k2);
  }

  /** The complete last block, mixed with the first subkey. */
  method CompleteLast(data: Source, size: uint16, k1: array<byte>, mLast: array<byte>)
    requires data.Covers(size) && size >= 16
    requires k1.Length == 16 && mLast.Length == 16 && mLast != k1
    modifies mLast
    ensures mLast[..] == XorBlock(data.Text(size)[size - 16..], k1[..])
  {
    ghost var last := data.Text(size)[size - 16..];
    for i := 0 to 16
      invariant forall j :: 0 <= j < i ==> mLast[j] == Xor(last[j], k1[j])
    {
      mLast[i] := Xor(data.GetByte(size - 16 + i), k1[i]);
    }
    assert mLast[..] == XorBlock(last, k1[..]);
  }

  /** The remainder, padded, mixed with the second subkey; the padding's zeros need no mixing. */
  method PaddedLast(data: Source, size: uint16, k2: array<byte>, mLast: array<byte>)
    requires data.Covers(size)
    requires k2.Length == 16 && mLast.Length == 16 && mLast != k2
    modifies mLast
    ensures mLast[..] == XorBlock(Padding(data.Text(size)[size - size % 16..]), k2[..])
  {
    var validOctets := size % 16;
    ghost var last := data.Text(size)[size - validOctets..];
    ghost var padded := Padding(last);
    for i := 0 to 16
      invariant forall j :: 0 <= j < i ==> mLast[j] == Xor(padded[j], k2[j])
    {
      if i < validOctets {
        mLast[i] := Xor(data.GetByte(size - validOctets + i), k2[i]);
        continue;
      }
      if i == validOctets {
        mLast[i] := Xor(0x80, k2[i]);
        continue;
      }
      XorByteLaws(k2[i], 0);
      mLast[i] := k2[i];
    }
    assert mLast[..] == XorBlock(padded, k2[..]);
  }

  /** Step 4 of the RFC, as the byte loops shared by both execution modes compute it. */
  method CalcLastBlock(data: Source, size: uint16, k1: array<byte>, k2: array<byte>, mLast: array<byte>)
    requires data.Covers(size)
    requires k1.Length == 16 && k2.Length == 16 && mLast.Length == 16 && mLast != k1 && mLast != k2
    modifies mLast
    ensures mLast[..] == LastBlock(k1[..], k2[..], data.Text(size))
  {
    hide XorBlock, Padding;
    var lastBlockComplete := size != 0 && size % 16 == 0;
    if lastBlockComplete {
      CompleteLast(data, size, k1, mLast);
    } else {
      PaddedLast(data, size, k2, mLast);
    }
  }

  /** y := x xor the 16 message bytes at pos, asked for one at a time. */
  method MixMessage(data: Source, size: uint16, pos: uint16, x: array<byte>, y: array<byte>)
    requires data.Covers(size) && pos + 16 <= size
    requires x.Length == 16 && y.Length == 16 && x != y
    modifies y
    ensures y[..] == XorBlock(x[..], data.Text(size)[pos..pos + 16])
  {
    ghost var block := data.Text(size)[pos..pos + 16];
    for i := 0 to 16
      invariant forall j :: 0 <= j < i ==> y[j] == Xor(x[j], block[j])
    {
      y[i] := Xor(x[i], data.GetByte(pos + i));
    }
    assert y[..] == XorBlock(x[..], block);
  }

  method MixBlock(block: array<byte>, x: array<byte>, y: array<byte>)
    requires block.Length == 16 && x.Length == 16 && y.Length == 16 && x != y && block != y
    modifies y
    ensures y[..] == XorBlock(x[..], block[..])
  {
    for i := 0 to 16
      invariant forall j :: 0 <= j < i ==> y[j] == Xor(x[j], block[j])
    {
      y[i] := Xor(x[i], block[i]);
    }
    assert y[..] == XorBlock(x[..], block[..]);
  }

  /** Steps 5 and 6: x holds the chaining value after every block but the last. */
  method ChainCalc(E: Cipher, key: Block, size: uint16, data: Source, x: array<byte>)
    requires data.Covers(size) && x.Length == 16
    modifies x
    ensures x[..] == Chain(E, key, Zeros(16), data.Text(size))
  {
    hide Chain, XorBlock;
    ghost var msg := data.Text(size);
    var cmacBlockCount := (size + 15) / 16;
    if cmacBlockCount == 0 {
      cmacBlockCount := 1;
    }
    ChainIsChainBlocks(E, key, msg);
    forall i | 0 <= i < 16 { x[i] := 0; }
    assert x[..] == Zeros(16);
    var y := new byte[16];
    for block := 0 to cmacBlockCount - 1
      invariant x[..] == ChainBlocks(E, key, msg, block)
    {
      MixMessage(data, size, block * 16, x, y);
      AesCalc(E, key, y, x);
    }
  }

  /** Step 4 and the final mixing: the block whose encryption is the MAC. */
  method LastInput(k0: array<byte>, size: uint16, data: Source, x: array<byte>) returns (y: array<byte>)
    requires data.Covers(size) && k0.Length == 16 && x.Length == 16
    ensures fresh(y) && y.Length == 16
    ensures y[..] == XorBlock(x[..], LastBlock(Double(k0[..]), Double(Double(k0[..])), data.Text(size)))
  {
    hide LastBlock, Double, XorBlock;
    var k1, k2, mLast := new byte[16], new byte[16], new byte[16];
    CalcSubkeys(k0, k1, k2);
    CalcLastBlock(data, size, k1, k2, mLast);
    y := new byte[16];
    MixBlock(mLast, x, y);
  }

  method CmacCalc(E: Cipher, key: Block, size: uint16, data: Source, hash: array<byte>)
    requires data.Covers(size) && hash.Length == 16
    modifies hash
    ensures hash[..] == Cmac(E, key, data.Text(size))
  {
    hide Chain, LastBlock, Double, XorBlock;
    var zero, k0, x := new byte[16](_ => 0), new byte[16], new byte[16];
    assert zero[..] == Zeros(16);
    AesCalc(E, key, zero, k0);
    ChainCalc(E, key, size, data, x);
    var y := LastInput(k0, size, data, x);
    AesCalc(E, key, y, hash);
  }
}
