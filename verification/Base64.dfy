/** Base64 as section 4 of RFC 4648 defines it. */
module Rfc4648 {
  import opened Bytes

  const PAD: byte := '=' as int

  /** The alphabet of Table 1. */
  function Alphabet(v: nat): byte
    requires v < 64
  {
    if v < 26 then 'A' as int + v
    else if v < 52 then 'a' as int + v - 26
    else if v < 62 then '0' as int + v - 52
    else if v == 62 then '+' as int
    else '/' as int
  }

  ghost predicate InAlphabet(c: byte) {
    exists v: nat :: v < 64 && Alphabet(v) == c
  }

  /** Three bytes are four characters; the final one or two bytes may be padded to four. */
  function Encode(b: seq<byte>, padded: bool): seq<byte> {
    if b == [] then []
    else if |b| == 1 then
      [Alphabet(b[0] / 4), Alphabet(b[0] % 4 * 16)] + (if padded then [PAD, PAD] else [])
    else if |b| == 2 then
      [Alphabet(b[0] / 4), Alphabet(b[0] % 4 * 16 + b[1] / 16), Alphabet(b[1] % 16 * 4)] + (if padded then [PAD] else [])
    else
      [Alphabet(b[0] / 4), Alphabet(b[0] % 4 * 16 + b[1] / 16),
       Alphabet(b[1] % 16 * 4 + b[2] / 64), Alphabet(b[2] % 64)] + Encode(b[3..], padded)
  }
}

/** The streaming decoder. */
module Base64Decoder {
  import opened Bytes
  import opened Rfc4648

  const MORE := -1
  const COMPLETE := -2
  const INVALID := -3
  const FULL := -4

  /** The lookup table: 99 marks a character outside the alphabet. */
  function Table(c: byte): byte {
    if 65 <= c <= 90 then c - 65
    else if 97 <= c <= 122 then c - 97 + 26
    else if 48 <= c <= 57 then c - 48 + 52
    else if c == 43 then 62
    else if c == 47 then 63
    else 99
  }

  datatype Context = Context(pos: byte, value: byte)

  datatype Processed = Processed(context: Context, result: int)

  /**
   One character. The shifted parts never overlap, so that combining them is addition; the value kept
   is not masked, so the results of the third and fourth character may exceed a byte.
   */
  function ProcessByte(d: Context, c: byte): Processed {
    if c == PAD && (d.pos == 2 || d.pos == 3) then Processed(d.(pos := d.pos + 1), MORE)
    else
      var value := Table(c);
      var pos := if value == 99 then 99 else d.pos;
      match pos
      case 0 => Processed(Context(1, value), MORE)
      case 1 => Processed(Context(2, value), d.value * 4 + value / 16)
      case 2 => Processed(Context(3, value), d.value * 16 + value / 4)
      case 3 => Processed(d.(pos := 0), d.value * 64 + value)
      case 99 => Processed(d.(pos := 99), INVALID)
      case _ => Processed(d, 0)
  }

  /** No character ever completes the decoding: COMPLETE is announced but not returned. */
  lemma NeverComplete(d: Context, c: byte)
    ensures ProcessByte(d, c).result != COMPLETE
    ensures ProcessByte(d, c).result in {MORE, INVALID} || ProcessByte(d, c).result >= 0
  {
  }

  datatype BlockResult = Decoded(bytes: seq<byte>) | Invalid | Full

  /** The whole block, with the bytes already written. */
  function ProcessFrom(d: Context, input: seq<byte>, outputMaxSize: nat, output: seq<byte>): BlockResult
    decreases |input|
  {
    if input == [] then Decoded(output)
    else
      var p := ProcessByte(d, input[0]);
      if p.result == MORE then ProcessFrom(p.context, input[1..], outputMaxSize, output)
      else if p.result == INVALID then Invalid
      else if |output| >= outputMaxSize then Full
      else ProcessFrom(p.context, input[1..], outputMaxSize, output + [p.result % 256])
  }

  function Decode(input: seq<byte>, outputMaxSize: nat): BlockResult {
    ProcessFrom(Context(0, 0), input, outputMaxSize, [])
  }

  lemma TableInverts(v: nat)
    requires v < 64
    ensures Table(Alphabet(v)) == v && Alphabet(v) != PAD
  {
  }

  /** 99 marks exactly the characters outside the alphabet. */
  lemma TableMeans(c: byte)
    ensures Table(c) == 99 <==> !InAlphabet(c)
    ensures Table(c) != 99 ==> Table(c) < 64 && Alphabet(Table(c)) == c
  {
    if Table(c) != 99 {
      assert Alphabet(Table(c)) == c;
    } else {
      forall v: nat | v < 64 ensures Alphabet(v) != c {
        TableInverts(v);
      }
    }
  }

  /** The results of four characters: the bytes, exactly or only modulo 256. */
  lemma GroupResults(b0: byte, b1: byte, b2: byte, v: byte)
    ensures var v1, v2 := b0 % 4 * 16 + b1 / 16, b1 % 16 * 4 + b2 / 64;
            var p0 := ProcessByte(Context(0, v), Alphabet(b0 / 4));
            var p1 := ProcessByte(p0.context, Alphabet(v1));
            var p2 := ProcessByte(p1.context, Alphabet(v2));
            var p3 := ProcessByte(p2.context, Alphabet(b2 % 64));
            && p0.result == MORE && p1.result == b0
            && p2.result >= 0 && p2.result % 256 == b1 && (p2.result == b1 <==> b0 % 4 == 0)
            && p3.result >= 0 && p3.result % 256 == b2 && (p3.result == b2 <==> b1 % 16 == 0)
            && p3.context == Context(0, v2)
            && p1.context == Context(2, v1) && p2.context == Context(3, v2)
  {
    hide ProcessByte, Alphabet, Table;
    var v1, v2 := b0 % 4 * 16 + b1 / 16, b1 % 16 * 4 + b2 / 64;
    SixBits(b0, b1, b2);
    LetterStep(Context(0, v), b0 / 4);
    LetterStep(Context(1, b0 / 4), v1);
    LetterStep(Context(2, v1), v2);
    LetterStep(Context(3, v2), b2 % 64);
  }

  /** One letter of the alphabet, by its value. */
  lemma LetterStep(d: Context, v: nat)
    requires v < 64 && d.pos < 4
    ensures ProcessByte(d, Alphabet(v))
            == if d.pos == 0 then Processed(Context(1, v), MORE)
               else if d.pos == 1 then Processed(Context(2, v), d.value * 4 + v / 16)
               else if d.pos == 2 then Processed(Context(3, v), d.value * 16 + v / 4)
               else Processed(d.(pos := 0), d.value * 64 + v)
  {
    hide Table, Alphabet;
    TableInverts(v);
  }

  /** Three bytes as four groups of six bits, and back. */
  lemma SixBits(b0: byte, b1: byte, b2: byte)
    ensures var v1, v2 := b0 % 4 * 16 + b1 / 16, b1 % 16 * 4 + b2 / 64;
            && b0 / 4 < 64 && v1 < 64 && v2 < 64
            && b0 / 4 * 4 + v1 / 16 == b0
            && v1 * 16 + v2 / 4 == b0 % 4 * 256 + b1
            && v2 * 64 + b2 % 64 == b1 % 16 * 256 + b2
            && (v1 * 16 + v2 / 4) % 256 == b1 && (v2 * 64 + b2 % 64) % 256 == b2
  {
  }

  /** One round of the loop. */
  lemma Feed(d: Context, c: byte, rest: seq<byte>, outputMaxSize: nat, output: seq<byte>)
    ensures var p := ProcessByte(d, c);
            ProcessFrom(d, [c] + rest, outputMaxSize, output) ==
            if p.result == MORE then ProcessFrom(p.context, rest, outputMaxSize, output)
            else if p.result == INVALID then Invalid
            else if |output| >= outputMaxSize then Full
            else ProcessFrom(p.context, rest, outputMaxSize, output + [p.result % 256])
  {
    assert ([c] + rest)[1..] == rest;
  }

  /** The final one or two bytes. */
  lemma DecodeTail(b: seq<byte>, padded: bool, v: byte, outputMaxSize: nat, output: seq<byte>)
    requires 1 <= |b| <= 2 && |output| <= outputMaxSize
    ensures ProcessFrom(Context(0, v), Encode(b, padded), outputMaxSize, output)
            == if |output| + |b| <= outputMaxSize then Decoded(output + b) else Full
  {
    hide ProcessFrom, ProcessByte, Alphabet;
    var b1 := if |b| == 2 then b[1] else 0;
    GroupResults(b[0], b1, 0, v);
    var c0, c1, c2 := Alphabet(b[0] / 4), Alphabet(b[0] % 4 * 16 + b1 / 16), Alphabet(b1 % 16 * 4);
    var tail := if padded then [PAD] else [];
    var d1 := ProcessByte(Context(0, v), c0).context;
    var d2 := ProcessByte(d1, c1).context;
    var out1, out2 := output + [b[0]], output + [b[0]] + [b1];
    if |b| == 1 {
      assert Encode(b, padded) == [c0] + ([c1] + (tail + tail));
      Feed(Context(0, v), c0, [c1] + (tail + tail), outputMaxSize, output);
      Feed(d1, c1, tail + tail, outputMaxSize, output);
      PadRuns(d2, padded, 2, outputMaxSize, out1);
      assert out1 == output + b;
    } else {
      var d3 := ProcessByte(d2, c2).context;
      assert Encode(b, padded) == [c0] + ([c1] + ([c2] + tail));
      Feed(Context(0, v), c0, [c1] + ([c2] + tail), outputMaxSize, output);
      Feed(d1, c1, [c2] + tail, outputMaxSize, output);
      Feed(d2, c2, tail, outputMaxSize, out1);
      PadRuns(d3, padded, 1, outputMaxSize, out2);
      assert out2 == output + b;
    }
  }

  /** Padding at the end adds nothing. */
  lemma PadRuns(d: Context, padded: bool, n: nat, outputMaxSize: nat, output: seq<byte>)
    requires 1 <= n <= 2 && d.pos == 4 - n
    ensures var tail := if padded then [PAD] else [];
            ProcessFrom(d, if n == 2 then tail + tail else tail, outputMaxSize, output) == Decoded(output)
  {
    if padded {
      if n == 2 {
        Feed(d, PAD, [PAD], outputMaxSize, output);
        Feed(d.(pos := 3), PAD, [], outputMaxSize, output);
        assert [PAD] + [] == [PAD];
      } else {
        Feed(d, PAD, [], outputMaxSize, output);
        assert [PAD] + [] == [PAD];
      }
    }
  }

  lemma {:induction false} DecodeEncodedFrom(b: seq<byte>, padded: bool, v: byte, outputMaxSize: nat, output: seq<byte>)
    requires |output| <= outputMaxSize
    ensures ProcessFrom(Context(0, v), Encode(b, padded), outputMaxSize, output)
            == if |output| + |b| <= outputMaxSize then Decoded(output + b) else Full
  {
    if b == [] {
      assert output + b == output;
    } else if |b| <= 2 {
      DecodeTail(b, padded, v, outputMaxSize, output);
    } else {
      DecodeGroup(b, padded, v, outputMaxSize, output);
      if |output| + 3 <= outputMaxSize {
        var v' := b[1] % 16 * 4 + b[2] / 64;
        DecodeEncodedFrom(b[3..], padded, v', outputMaxSize, output + b[..3]);
        assert output + b[..3] + b[3..] == output + b;
      }
    }
  }

  /** A full group of four characters. */
  lemma DecodeGroup(b: seq<byte>, padded: bool, v: byte, outputMaxSize: nat, output: seq<byte>)
    requires |b| >= 3 && |output| <= outputMaxSize
    ensures ProcessFrom(Context(0, v), Encode(b, padded), outputMaxSize, output)
            == if |output| + 3 > outputMaxSize then Full
               else ProcessFrom(Context(0, b[1] % 16 * 4 + b[2] / 64), Encode(b[3..], padded), outputMaxSize, output + b[..3])
  {
    hide ProcessFrom, ProcessByte, Alphabet;
    GroupResults(b[0], b[1], b[2], v);
    var v1, v2 := b[0] % 4 * 16 + b[1] / 16, b[1] % 16 * 4 + b[2] / 64;
    var c0, c1, c2, c3 := Alphabet(b[0] / 4), Alphabet(v1), Alphabet(v2), Alphabet(b[2] % 64);
    var rest := Encode(b[3..], padded);
    assert Encode(b, padded) == [c0] + ([c1] + ([c2] + ([c3] + rest)));
    var d1 := ProcessByte(Context(0, v), c0).context;
    Feed(Context(0, v), c0, [c1] + ([c2] + ([c3] + rest)), outputMaxSize, output);
    Feed(d1, c1, [c2] + ([c3] + rest), outputMaxSize, output);
    Feed(Context(2, v1), c2, [c3] + rest, outputMaxSize, output + [b[0]]);
    Feed(Context(3, v2), c3, rest, outputMaxSize, output + [b[0]] + [b[1]]);
    assert output + [b[0]] + [b[1]] + [b[2]] == output + b[..3];
  }

  /** Decoding inverts the RFC's encoding, padded or not, for every byte string and every buffer size. */
  lemma DecodeInvertsEncode(b: seq<byte>, padded: bool, outputMaxSize: nat)
    ensures Decode(Encode(b, padded), outputMaxSize) == if |b| <= outputMaxSize then Decoded(b) else Full
  {
    DecodeEncodedFrom(b, padded, 0, outputMaxSize, []);
    assert [] + b == b;
  }

  // ----- what is invalid -----

  ghost predicate Letters(s: seq<byte>) {
    forall i :: 0 <= i < |s| ==> InAlphabet(s[i])
  }

  lemma LetterFed(d: Context, c: byte, rest: seq<byte>, outputMaxSize: nat, output: seq<byte>)
    returns (after: Context, now: seq<byte>)
    requires InAlphabet(c) && d.pos < 4 && |output| < outputMaxSize
    ensures after.pos == (d.pos + 1) % 4 && |now| <= |output| + 1
    ensures ProcessFrom(d, [c] + rest, outputMaxSize, output) == ProcessFrom(after, rest, outputMaxSize, now)
  {
    hide ProcessByte, ProcessFrom;
    TableMeans(c);
    LetterStep(d, Table(c));
    Feed(d, c, rest, outputMaxSize, output);
    var p := ProcessByte(d, c);
    after, now := p.context, if p.result == MORE then output else output + [p.result % 256];
  }

  lemma PositionAdds(pos: nat, n: nat)
    requires pos < 4
    ensures ((pos + 1) % 4 + n) % 4 == (pos + (n + 1)) % 4
  {
    if pos == 3 {
      assert (n + 4) % 4 == n % 4;
    } else {
      assert (pos + 1) % 4 == pos + 1;
    }
  }

  lemma LettersTail(s: seq<byte>)
    requires Letters(s) && s != []
    ensures InAlphabet(s[0]) && Letters(s[1..])
  {
    hide InAlphabet;
    forall i | 0 <= i < |s| - 1 ensures InAlphabet(s[1..][i]) {
      assert s[1..][i] == s[i + 1];
    }
  }

  /** Letters only move the position, and give no more results than there are letters. */
  lemma {:induction false} LettersFed(d: Context, letters: seq<byte>, rest: seq<byte>, outputMaxSize: nat, output: seq<byte>)
    returns (after: Context, now: seq<byte>)
    requires Letters(letters) && d.pos < 4 && |output| + |letters| <= outputMaxSize
    ensures after.pos == (d.pos + |letters|) % 4 && |now| <= |output| + |letters|
    ensures ProcessFrom(d, letters + rest, outputMaxSize, output) == ProcessFrom(after, rest, outputMaxSize, now)
    decreases |letters|
  {
    if letters == [] {
      assert letters + rest == rest;
      after, now := d, output;
    } else {
      hide ProcessFrom, InAlphabet, Letters;
      var c, tail := letters[0], letters[1..];
      assert letters + rest == [c] + (tail + rest);
      LettersTail(letters);
      after, now := LetterFed(d, c, tail + rest, outputMaxSize, output);
      PositionAdds(d.pos, |tail|);
      after, now := LettersFed(after, tail, rest, outputMaxSize, now);
    }
  }

  /** The first character that is no letter ends the decoding, unless it is a padding that can stand there. */
  lemma InvalidCharacter(letters: seq<byte>, c: byte, rest: seq<byte>, outputMaxSize: nat)
    requires Letters(letters) && !InAlphabet(c) && |letters| <= outputMaxSize
    ensures c != PAD || |letters| % 4 < 2 ==> Decode(letters + [c] + rest, outputMaxSize) == Invalid
  {
    hide ProcessFrom, InAlphabet;
    TableMeans(c);
    var d, now := LettersFed(Context(0, 0), letters, [c] + rest, outputMaxSize, []);
    assert letters + [c] + rest == letters + ([c] + rest);
    Feed(d, c, rest, outputMaxSize, now);
  }

  /** Without padding, and with room for the results, exactly the inputs of letters alone are valid. */
  lemma InvalidExactness(input: seq<byte>, outputMaxSize: nat)
    requires PAD !in input && |input| <= outputMaxSize
    ensures Decode(input, outputMaxSize) == Invalid <==> !Letters(input)
  {
    hide InAlphabet, ProcessByte;
    var i := FirstOther(input);
    if i < |input| {
      assert input == input[..i] + [input[i]] + input[i + 1..];
      InvalidCharacter(input[..i], input[i], input[i + 1..], outputMaxSize);
    } else {
      assert input + [] == input;
      var d, now := LettersFed(Context(0, 0), input, [], outputMaxSize, []);
    }
  }

  lemma FirstOther(s: seq<byte>) returns (i: nat)
    ensures i <= |s| && Letters(s[..i]) && (i < |s| ==> !InAlphabet(s[i]))
  {
    hide InAlphabet;
    i := 0;
    while i < |s| && InAlphabet(s[i])
      invariant i <= |s| && Letters(s[..i])
    {
      i := i + 1;
    }
  }

  /** Behind complete padding every further letter gives a zero byte. */
  lemma {:induction false} AfterPadding(v: byte, letters: seq<byte>, outputMaxSize: nat, output: seq<byte>)
    requires Letters(letters) && |output| <= outputMaxSize
    ensures ProcessFrom(Context(4, v), letters, outputMaxSize, output)
            == if |output| + |letters| <= outputMaxSize then Decoded(output + Zeros(|letters|)) else Full
    decreases |letters|
  {
    if letters == [] {
      assert output + [] == output;
    } else {
      hide ProcessFrom, InAlphabet, Letters;
      assert letters == [letters[0]] + letters[1..];
      LettersTail(letters);
      TableMeans(letters[0]);
      Feed(Context(4, v), letters[0], letters[1..], outputMaxSize, output);
      if |output| < outputMaxSize {
        AfterPadding(v, letters[1..], outputMaxSize, output + [0]);
        assert output + [0] + Zeros(|letters| - 1) == output + Zeros(|letters|);
      }
    }
  }

  /** A size as the int the block function returns. */
  function AsInt(size: nat): int
    requires size < 0x1_0000_0000
  {
    if size < 0x8000_0000 then size else size - 0x1_0000_0000
  }

  class Decoder {
    var pos: byte
    var value: byte

    function Abs(): Context
      reads this
    {
      Context(pos, value)
    }

    constructor ()
      ensures Abs() == Context(0, 0)
    {
      pos, value := 0, 0;
    }

    method Process(c: byte) returns (result: int)
      modifies this
      ensures Processed(Abs(), result) == ProcessByte(old(Abs()), c)
    {
      if c == PAD {
        if pos == 2 || pos == 3 {
          pos := pos + 1;
          return MORE;
        }
      }
      var v := Table(c);
      if v == 99 {
        pos := 99;
      }
      result := 0;
      match pos {
        case 0 =>
          value := v;
          pos := pos + 1;
          result := MORE;
        case 1 =>
          result := value * 4 + v / 16;
          value := v;
          pos := pos + 1;
        case 2 =>
          result := value * 16 + v / 4;
          value := v;
          pos := pos + 1;
        case 3 =>
          result := value * 64 + v;
          pos := 0;
        case 99 =>
          result := INVALID;
        case _ =>
      }
    }
  }

  method ProcessBlock(input: seq<byte>, outputBuffer: array<byte>, outputMaxSize: nat) returns (r: int)
    requires |input| < 0x1_0000_0000 && outputMaxSize <= outputBuffer.Length
    modifies outputBuffer
    ensures match Decode(input, outputMaxSize)
            case Decoded(bytes) =>
              |bytes| <= outputMaxSize && |bytes| < 0x1_0000_0000 && r == AsInt(|bytes|) && outputBuffer[..|bytes|] == bytes
            case Invalid => r == INVALID
            case Full => r == FULL
    ensures outputBuffer[outputMaxSize..] == old(outputBuffer[outputMaxSize..])
  {
    var context := new Decoder();
    var size := 0;
    var inputSize := |input|;
    while inputSize > 0
      invariant 0 <= inputSize <= |input| && size <= outputMaxSize && size <= |input| - inputSize
      invariant fresh(context)
      invariant outputBuffer[outputMaxSize..] == old(outputBuffer[outputMaxSize..])
      invariant Decode(input, outputMaxSize)
                == ProcessFrom(context.Abs(), input[|input| - inputSize..], outputMaxSize, outputBuffer[..size])
    {
      ghost var rest := input[|input| - inputSize..];
      var data := input[|input| - inputSize];
      assert rest == [data] + input[|input| - inputSize + 1..];
      Feed(context.Abs(), data, input[|input| - inputSize + 1..], outputMaxSize, outputBuffer[..size]);
      var result := context.Process(data);
      inputSize := inputSize - 1;
      if result == MORE {
      } else if result == INVALID {
        return INVALID;
      } else {
        if size >= outputMaxSize {
          return FULL;
        }
        outputBuffer[size] := result % 256;
        size := size + 1;
        assert outputBuffer[..size] == outputBuffer[..size - 1] + [result % 256];
      }
    }
    return AsInt(size);
  }
}
