/**
 Bytes, 16-byte blocks and big-endian numbers: the vocabulary shared by the crypto engine,
 the pairing server and the two parsers.
 */
module Bytes {

  type byte = x: int | 0 <= x < 256

  type uint16 = x: int | 0 <= x < 0x1_0000

  type Block = b: seq<byte> | |b| == 16 witness Zeros(16)

  /** AES as a parameter: key, plaintext block, ciphertext block. */
  type Cipher = (Block, Block) -> Block

  datatype Option<+T> = None | Some(value: T)

  function Zeros(n: nat): (s: seq<byte>)
    ensures |s| == n && forall i :: 0 <= i < n ==> s[i] == 0
  {
    seq(n, _ => 0)
  }

  function Min(a: int, b: int): int {
    if a < b then a else b
  }

  function Reverse(s: seq<byte>): (r: seq<byte>)
    ensures |r| == |s| && forall i :: 0 <= i < |s| ==> r[i] == s[|s| - 1 - i]
  {
    seq(|s|, i requires 0 <= i < |s| => s[|s| - 1 - i])
  }

  lemma ReverseTwice(s: seq<byte>)
    ensures Reverse(Reverse(s)) == s
  {
    assert forall i :: 0 <= i < |s| ==> Reverse(Reverse(s))[i] == s[i];
  }

  /** A string of characters below 256 as its bytes. */
  function Ascii(s: string): (r: seq<byte>)
    ensures |r| == |s|
    ensures forall i :: 0 <= i < |s| && s[i] as int < 256 ==> r[i] == s[i] as int
  {
    seq(|s|, i requires 0 <= i < |s| => s[i] as int % 256)
  }

  // ----- exclusive or -----

  /** Bitwise exclusive or of two natural numbers, least significant bit first. */
  function XorNat(a: nat, b: nat): nat
    decreases a + b
  {
    if a == 0 && b == 0 then 0 else (a + b) % 2 + 2 * XorNat(a / 2, b / 2)
  }

  function Pow2(k: nat): (p: nat)
    ensures p > 0
  {
    if k == 0 then 1 else 2 * Pow2(k - 1)
  }

  lemma {:induction false} XorBound(a: nat, b: nat, k: nat)
    requires a < Pow2(k) && b < Pow2(k)
    ensures XorNat(a, b) < Pow2(k)
  {
    if k > 0 && a + b > 0 {
      XorBound(a / 2, b / 2, k - 1);
    }
  }

  /** Exclusive or, last binary digit first. */
  lemma XorNatDigit(d: nat, h: nat, b: nat)
    requires d < 2
    ensures XorNat(d + 2 * h, b) == (d + b) % 2 + 2 * XorNat(h, b / 2)
  {
    assert (d + 2 * h) / 2 == h && (d + 2 * h + b) % 2 == (d + b) % 2;
  }

  lemma Parity(a: nat, b: nat)
    ensures a % 2 + 2 * (a / 2) == a && (a % 2 + b) % 2 == (a + b) % 2 && ((a + b) % 2 + b) % 2 == a % 2
  {
  }

  lemma {:induction false} XorNatInvolution(a: nat, b: nat)
    ensures XorNat(XorNat(a, b), b) == a
    decreases a + b
  {
    hide XorNat;
    if a + b == 0 {
      XorNatOfZero();
    } else {
      Parity(a, b);
      XorNatDigit(a % 2, a / 2, b);
      XorNatInvolution(a / 2, b / 2);
      XorNatDigit((a + b) % 2, XorNat(a / 2, b / 2), b);
    }
  }

  lemma XorNatOfZero()
    ensures XorNat(0, 0) == 0
  {
  }

  lemma {:induction false} XorNatZero(a: nat)
    ensures XorNat(a, 0) == a && XorNat(0, a) == a
    decreases a
  {
    if a > 0 {
      XorNatZero(a / 2);
    }
  }

  lemma {:induction false} XorNatComm(a: nat, b: nat)
    ensures XorNat(a, b) == XorNat(b, a)
    decreases a + b
  {
    if a + b > 0 {
      XorNatComm(a / 2, b / 2);
    }
  }

  function Bit(n: nat, k: nat): nat {
    if k == 0 then n % 2 else Bit(n / 2, k - 1)
  }

  lemma Halves(d: nat, h: nat)
    requires d < 2
    ensures (d + 2 * h) / 2 == h && (d + 2 * h) % 2 == d
  {
  }

  lemma SumParity(a: nat, b: nat)
    ensures (a + b) % 2 == (a % 2 + b % 2) % 2
  {
  }

  /** Every bit of the result is the sum, modulo 2, of the bits at its place. */
  lemma {:induction false} XorNatBits(a: nat, b: nat, k: nat)
    ensures Bit(XorNat(a, b), k) == (Bit(a, k) + Bit(b, k)) % 2
    decreases k
  {
    hide XorNat;
    Parity(a, b);
    XorNatDigit(a % 2, a / 2, b);
    Halves((a + b) % 2, XorNat(a / 2, b / 2));
    SumParity(a, b);
    if k > 0 {
      XorNatBits(a / 2, b / 2, k - 1);
    }
  }

  function Xor(a: byte, b: byte): byte {
    assert Pow2(8) == 256 by { assert Pow2(4) == 16; }
    XorBound(a, b, 8);
    XorNat(a, b)
  }

  lemma XorByteLaws(a: byte, b: byte)
    ensures Xor(Xor(a, b), b) == a
    ensures Xor(a, 0) == a && Xor(0, a) == a
    ensures Xor(a, b) == Xor(b, a)
  {
    XorNatInvolution(a, b);
    XorNatComm(a, b);
    XorNatZero(a);
  }

  /** s with the first |s| bytes of t mixed in. */
  function XorBytes(s: seq<byte>, t: seq<byte>): (r: seq<byte>)
    requires |s| <= |t|
    ensures |r| == |s| && forall i :: 0 <= i < |s| ==> r[i] == Xor(s[i], t[i])
  {
    seq(|s|, i requires 0 <= i < |s| => Xor(s[i], t[i]))
  }

  function XorBlock(a: Block, b: Block): Block {
    XorBytes(a, b)
  }

  lemma XorBytesInvolution(s: seq<byte>, t: seq<byte>)
    requires |s| <= |t|
    ensures XorBytes(XorBytes(s, t), t) == s
  {
    forall i | 0 <= i < |s| ensures XorBytes(XorBytes(s, t), t)[i] == s[i] {
      XorByteLaws(s[i], t[i]);
    }
  }

  lemma XorBytesZeros(s: seq<byte>)
    ensures XorBytes(s, Zeros(|s|)) == s && XorBytes(Zeros(|s|), s) == s
  {
    forall i | 0 <= i < |s| ensures Xor(s[i], 0) == s[i] && Xor(0, s[i]) == s[i] {
      XorByteLaws(s[i], 0);
    }
  }

  // ----- big-endian numbers -----

  function Pow256(n: nat): (p: nat)
    ensures p > 0
  {
    if n == 0 then 1 else 256 * Pow256(n - 1)
  }

  /** The number whose big-endian encoding is s (OpenSSL's BN_bin2bn). */
  function FromBytes(s: seq<byte>): nat {
    if s == [] then 0 else 256 * FromBytes(s[..|s| - 1]) + s[|s| - 1]
  }

  /** The shortest big-endian encoding of n (BN_bn2bin); its length is BN_num_bytes. */
  function ToBytes(n: nat): (s: seq<byte>)
    ensures s != [] ==> s[0] != 0
    ensures s == [] <==> n == 0
  {
    if n == 0 then [] else ToBytes(n / 256) + [n % 256]
  }

  /** The encoding of n left-padded with zeros to len bytes. */
  function PadTo(n: nat, len: nat): (s: seq<byte>)
    requires |ToBytes(n)| <= len
    ensures |s| == len
  {
    Zeros(len - |ToBytes(n)|) + ToBytes(n)
  }

  function BigEndian16(v: uint16): (s: seq<byte>)
    ensures |s| == 2
  {
    [v / 256, v % 256]
  }

  lemma BigEndian16Means(v: uint16)
    ensures FromBytes(BigEndian16(v)) == v
  {
    var hi: byte, lo: byte := v / 256, v % 256;
    FromBytesOne(hi);
    FromBytesSnoc([hi], lo);
    assert [hi] + [lo] == BigEndian16(v);
  }

  lemma {:induction false} FromToBytes(n: nat)
    ensures FromBytes(ToBytes(n)) == n
  {
    if n > 0 {
      FromToBytes(n / 256);
      var s := ToBytes(n);
      assert s[..|s| - 1] == ToBytes(n / 256);
    }
  }

  lemma {:induction false} FromBytesLeadingZeros(k: nat, s: seq<byte>)
    ensures FromBytes(Zeros(k) + s) == FromBytes(s)
    decreases k + |s|
  {
    var z := Zeros(k) + s;
    if s != [] {
      assert z[..|z| - 1] == Zeros(k) + s[..|s| - 1];
      FromBytesLeadingZeros(k, s[..|s| - 1]);
    } else if k > 0 {
      assert z[..|z| - 1] == Zeros(k - 1) + [];
      FromBytesLeadingZeros(k - 1, s);
    }
  }

  lemma FromBytesSnoc(s: seq<byte>, b: byte)
    ensures FromBytes(s + [b]) == 256 * FromBytes(s) + b
  {
    assert (s + [b])[..|s|] == s;
  }

  lemma Pow256Next(n: nat)
    ensures Pow256(n + 1) == 256 * Pow256(n)
  {
  }

  lemma AppendArith(a: nat, p: nat, b: nat, c: nat)
    ensures 256 * (a * p + b) + c == a * (256 * p) + (256 * b + c)
  {
    assert a * (256 * p) == 256 * (a * p);
  }

  /** A number read in two parts. */
  lemma {:induction false} FromBytesAppend(s: seq<byte>, t: seq<byte>)
    ensures FromBytes(s + t) == FromBytes(s) * Pow256(|t|) + FromBytes(t)
  {
    if t == [] {
      assert s + t == s;
    } else {
      hide FromBytes, Pow256;
      var init, last := t[..|t| - 1], t[|t| - 1];
      assert s + t == s + init + [last] && t == init + [last];
      FromBytesSnoc(s + init, last);
      FromBytesSnoc(init, last);
      FromBytesAppend(s, init);
      Pow256Next(|init|);
      AppendArith(FromBytes(s), Pow256(|init|), FromBytes(init), last);
    }
  }

  /** Splitting off the most significant byte. */
  lemma FromBytesHead(s: seq<byte>)
    requires s != []
    ensures FromBytes(s) == s[0] * Pow256(|s| - 1) + FromBytes(s[1..])
  {
    hide FromBytes, Pow256;
    assert s == [s[0]] + s[1..];
    FromBytesAppend([s[0]], s[1..]);
    FromBytesOne(s[0]);
  }

  lemma FromBytesOne(b: byte)
    ensures FromBytes([b]) == b
  {
    FromBytesSnoc([], b);
    assert [] + [b] == [b];
  }

  lemma {:induction false} FromBytesBound(s: seq<byte>)
    ensures FromBytes(s) < Pow256(|s|)
  {
    if s != [] {
      FromBytesBound(s[..|s| - 1]);
    }
  }

  /** Encoding then decoding loses nothing, whether or not the number was padded. */
  lemma FromPadTo(n: nat, len: nat)
    requires |ToBytes(n)| <= len
    ensures FromBytes(PadTo(n, len)) == n
  {
    FromBytesLeadingZeros(len - |ToBytes(n)|, ToBytes(n));
    FromToBytes(n);
  }

  /** Every byte string is the padding, to its own length, of the number it denotes. */
  lemma {:induction false} PadFromBytes(s: seq<byte>)
    ensures |ToBytes(FromBytes(s))| <= |s|
    ensures PadTo(FromBytes(s), |s|) == s
    ensures s != [] && s[0] != 0 ==> ToBytes(FromBytes(s)) == s
  {
    if s != [] {
      var init, last := s[..|s| - 1], s[|s| - 1];
      PadFromBytes(init);
      var n := FromBytes(s);
      assert n / 256 == FromBytes(init) && n % 256 == last;
      if n != 0 {
        assert ToBytes(n) == ToBytes(FromBytes(init)) + [last];
      } else {
        assert FromBytes(init) == 0 && last == 0;
      }
      assert s == init + [last];
      if s[0] != 0 && |s| > 1 {
        assert init[0] == s[0];
      }
    }
  }

  /** Byte strings of one length are told apart by their numbers. */
  lemma SameNumber(s: seq<byte>, t: seq<byte>)
    requires |s| == |t|
    ensures FromBytes(s) == FromBytes(t) <==> s == t
  {
    PadFromBytes(s);
    PadFromBytes(t);
  }

  lemma {:induction false} ToBytesLength(n: nat, k: nat)
    ensures |ToBytes(n)| <= k <==> n < Pow256(k)
    decreases n
  {
    if n > 0 && k > 0 {
      ToBytesLength(n / 256, k - 1);
      assert n < Pow256(k) <==> n / 256 < Pow256(k - 1);
    }
  }

  lemma ToBytesMonotone(a: nat, b: nat)
    requires a <= b
    ensures |ToBytes(a)| <= |ToBytes(b)|
  {
    ToBytesLength(b, |ToBytes(b)|);
    ToBytesLength(a, |ToBytes(b)|);
  }
}
