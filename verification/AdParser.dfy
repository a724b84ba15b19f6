/** Advertising data: a sequence of chunks, each a length byte, a type byte and a payload. */
module AdStructure {
  import opened Bytes

  datatype Chunk = Chunk(kind: byte, payload: seq<byte>)

  /** The chunks of the longest well-formed prefix. */
  function Chunks(data: seq<byte>): seq<Chunk>
    decreases |data|
  {
    if |data| < 2 || data[0] == 0 || 1 + data[0] > |data| then []
    else [Chunk(data[1], data[2..1 + data[0]])] + Chunks(data[1 + data[0]..])
  }

  /** What fits the length byte of a chunk. */
  predicate Short(cs: seq<Chunk>) {
    forall i :: 0 <= i < |cs| ==> |cs[i].payload| <= 254
  }

  function Print(cs: seq<Chunk>): seq<byte>
    requires Short(cs)
  {
    if cs == [] then []
    else [(|cs[0].payload| as int) + 1, cs[0].kind] + cs[0].payload + Print(cs[1..])
  }

  lemma ChunksCons(c: Chunk, rest: seq<byte>)
    requires |c.payload| <= 254
    ensures Chunks([(|c.payload| as int) + 1, c.kind] + c.payload + rest) == [c] + Chunks(rest)
  {
    var n := |c.payload|;
    var data := [(n as int) + 1, c.kind] + c.payload + rest;
    assert data[2..2 + n] == c.payload && data[2 + n..] == rest;
    assert data[0] == n + 1 && data[1] == c.kind;
  }

  lemma Regroup(a: seq<byte>, b: seq<byte>, c: seq<byte>)
    ensures a + (b + c) == a + b + c
  {
  }

  /** The parse is exactly what was printed, whatever unparsable bytes follow. */
  lemma {:induction false} ChunksOfPrint(cs: seq<Chunk>, rest: seq<byte>)
    requires Short(cs)
    requires Chunks(rest) == []
    ensures Chunks(Print(cs) + rest) == cs
  {
    if cs == [] {
      assert [] + rest == rest;
    } else {
      hide Chunks, Print;
      var c, others := cs[0], cs[1..];
      assert cs == [c] + others;
      PrintFirst(c, others);
      Regroup([(|c.payload| as int) + 1, c.kind] + c.payload, Print(others), rest);
      ChunksCons(c, Print(others) + rest);
      ChunksOfPrint(others, rest);
    }
  }

  lemma ChunksFirst(data: seq<byte>)
    requires Chunks(data) != []
    ensures 2 <= 1 + data[0] as int <= |data|
    ensures Chunks(data) == [Chunk(data[1], data[2..1 + data[0] as int])] + Chunks(data[1 + data[0] as int..])
  {
  }

  lemma ChunkBytes(data: seq<byte>, n: nat)
    requires 2 <= n <= |data| && n == 1 + data[0] as int
    ensures data == [(|data[2..n]| as int) + 1, data[1]] + data[2..n] + data[n..]
  {
    assert data == data[..2] + data[2..n] + data[n..];
  }

  lemma PrintFirst(c: Chunk, cs: seq<Chunk>)
    requires |c.payload| <= 254 && Short(cs)
    ensures Short([c] + cs) && Print([c] + cs) == [(|c.payload| as int) + 1, c.kind] + c.payload + Print(cs)
  {
    assert ([c] + cs)[1..] == cs;
  }

  /** Every input is the printing of its parse, followed by bytes that are not a chunk. */
  lemma {:induction false} PrintOfChunks(data: seq<byte>) returns (rest: seq<byte>)
    ensures Short(Chunks(data))
    ensures data == Print(Chunks(data)) + rest && Chunks(rest) == []
    decreases |data|
  {
    if Chunks(data) == [] {
      rest := data;
      assert [] + rest == data;
    } else {
      hide Chunks, Print, Short;
      ChunksFirst(data);
      var n := 1 + data[0] as int;
      ChunkBytes(data, n);
      rest := PrintOfChunks(data[n..]);
      PrintFirst(Chunk(data[1], data[2..n]), Chunks(data[n..]));
      Regroup([(|data[2..n]| as int) + 1, data[1]] + data[2..n], Print(Chunks(data[n..])), rest);
    }
  }

  const INCOMPLETE_16: byte := 0x02
  const COMPLETE_16: byte := 0x03
  const INCOMPLETE_128: byte := 0x06
  const COMPLETE_128: byte := 0x07

  const BASE_UUID: Block :=
    [0x00, 0x00, 0x00, 0x00, 0x00, 0x00, 0x10, 0x00, 0x80, 0x00, 0x00, 0x80, 0x5F, 0x9B, 0x34, 0xFB]

  /** The Bluetooth base UUID with a short UUID in its first four bytes, most significant byte first. */
  function LongUuid(uuid16: uint16): Block {
    [0, 0] + BigEndian16(uuid16) + BASE_UUID[4..]
  }

  /** Entry k of a payload cut into entries of the given width, least significant byte first. */
  function Entry(payload: seq<byte>, width: nat, k: nat): nat
    requires (k + 1) * width <= |payload|
  {
    FromBytes(Reverse(payload[k * width..(k + 1) * width]))
  }

  /** The payload, cut into entries of the given width, has the number among them; a short rest is ignored. */
  ghost predicate HasNumber(payload: seq<byte>, width: nat, n: nat) {
    exists k: nat :: (k + 1) * width <= |payload| && Entry(payload, width, k) == n
  }

  /** 0000xxxx-0000-1000-8000-00805F9B34FB as a number. */
  function LongNumber(uuid16: uint16): nat {
    uuid16 * Pow256(12) + 0x1000_8000_0080_5F9B_34FB
  }

  /** The chunk is a list of 16-bit or of 128-bit UUIDs and lists this one. */
  ghost predicate Lists(c: Chunk, uuid16: uint16) {
    || (c.kind in {0x02, 0x03} && HasNumber(c.payload, 2, uuid16))
    || (c.kind in {0x06, 0x07} && HasNumber(c.payload, 16, LongNumber(uuid16)))
  }

  lemma BaseNumber()
    ensures FromBytes(BASE_UUID[4..]) == 0x1000_8000_0080_5F9B_34FB
  {
    hide FromBytes;
    var s := BASE_UUID[4..];
    FromBytesNone();
    FromBytesSnoc(s[..0], s[0]);
    FromBytesSnoc(s[..1], s[1]);
    FromBytesSnoc(s[..2], s[2]);
    FromBytesSnoc(s[..3], s[3]);
    FromBytesSnoc(s[..4], s[4]);
    FromBytesSnoc(s[..5], s[5]);
    FromBytesSnoc(s[..6], s[6]);
    FromBytesSnoc(s[..7], s[7]);
    FromBytesSnoc(s[..8], s[8]);
    FromBytesSnoc(s[..9], s[9]);
    FromBytesSnoc(s[..10], s[10]);
    FromBytesSnoc(s[..11], s[11]);
    assert s[..0] == [] && s[..0] + [s[0]] == s[..1] && s[..1] + [s[1]] == s[..2] && s[..2] + [s[2]] == s[..3];
    assert s[..3] + [s[3]] == s[..4] && s[..4] + [s[4]] == s[..5] && s[..5] + [s[5]] == s[..6];
    assert s[..6] + [s[6]] == s[..7] && s[..7] + [s[7]] == s[..8] && s[..8] + [s[8]] == s[..9];
    assert s[..9] + [s[9]] == s[..10] && s[..10] + [s[10]] == s[..11] && s[..11] + [s[11]] == s;
  }

  lemma FromBytesNone()
    ensures FromBytes([]) == 0
  {
  }

  /** The 128-bit form is the base UUID with the short one added above its last twelve bytes. */
  lemma LongUuidMeans(uuid16: uint16)
    ensures FromBytes(LongUuid(uuid16)) == LongNumber(uuid16)
  {
    hide FromBytes, Pow256;
    var short := [0, 0] + BigEndian16(uuid16);
    FromBytesAppend(short, BASE_UUID[4..]);
    FromBytesAppend([0, 0], BigEndian16(uuid16));
    FromBytesLeadingZeros(2, BigEndian16(uuid16));
    assert Zeros(2) == [0, 0];
    BigEndian16Means(uuid16);
    BaseNumber();
  }
}

/** The iterator over advertising data and the search built on it, with their eight-bit cursors. */
module AdParser {
  import opened Bytes
  import opened AdStructure

  class AdContext {
    var data: seq<byte>
    var offset: byte
    var length: byte

    ghost predicate Valid()
      reads this
    {
      |data| == length && offset <= length
    }

    /** What has not been visited yet. */
    ghost function Rest(): seq<byte>
      requires Valid()
      reads this
    {
      data[offset..]
    }

    constructor (adLen: byte, adData: seq<byte>)
      requires adLen <= |adData|
      ensures Valid() && Rest() == adData[..adLen]
    {
      data, length, offset := adData[..adLen], adLen, 0;
    }

    method HasMore() returns (more: bool)
      requires Valid()
      ensures more <==> Chunks(Rest()) != []
    {
      if offset + 1 >= length {
        return false;
      }
      var chunkLen := data[offset];
      if chunkLen == 0 {
        return false;
      }
      if offset + 1 + chunkLen > length {
        return false;
      }
      return true;
    }

    /** Advances over one chunk; the eight-bit offset cannot wrap because the chunk fits. */
    method Next()
      requires Valid() && Chunks(Rest()) != []
      modifies this`offset
      ensures Valid() && Chunks(Rest()) == Chunks(old(Rest()))[1..] && offset > old(offset)
    {
      ghost var rest := Rest();
      var chunkLen := data[offset];
      assert rest[1 + chunkLen..] == data[offset + 1 + chunkLen..];
      offset := offset + 1 + chunkLen;
    }

    method GetDataLen() returns (len: byte)
      requires Valid() && Chunks(Rest()) != []
      ensures len == |Chunks(Rest())[0].payload|
    {
      len := data[offset] - 1;
    }

    method GetDataType() returns (kind: byte)
      requires Valid() && Chunks(Rest()) != []
      ensures kind == Chunks(Rest())[0].kind
    {
      kind := data[offset + 1];
    }

    /** The payload, as a pointer into the data that may be read up to the data length. */
    method GetData() returns (payload: seq<byte>)
      requires Valid() && Chunks(Rest()) != []
      ensures payload == Chunks(Rest())[0].payload
    {
      assert Rest()[2..1 + data[offset]] == data[offset + 2..offset + 1 + data[offset]];
      payload := data[offset + 2..offset + 1 + data[offset]];
    }
  }

  function LittleEndianRead16(data: seq<byte>, pos: nat): uint16
    requires pos + 2 <= |data|
  {
    (data[pos] as int) + 256 * (data[pos + 1] as int)
  }

  lemma ReadsEntry(data: seq<byte>, k: nat)
    requires (k + 1) * 2 <= |data|
    ensures LittleEndianRead16(data, 2 * k) == Entry(data, 2, k)
  {
    var e := Reverse(data[k * 2..(k + 1) * 2]);
    var v := LittleEndianRead16(data, 2 * k);
    assert e == BigEndian16(v);
    BigEndian16Means(v);
  }

  method Search16(data: seq<byte>, dataLen: byte, uuid16: uint16) returns (found: bool)
    requires |data| == dataLen
    ensures found <==> HasNumber(data, 2, uuid16)
  {
    hide Entry;
    var i: byte := 0;
    ghost var n := 0;
    while i + 2 <= dataLen
      invariant n >= 0 && i == 2 * n && i <= dataLen
      invariant forall k: nat :: k < n ==> Entry(data, 2, k) != uuid16
    {
      ReadsEntry(data, n);
      var uuid := LittleEndianRead16(data, i);
      if uuid == uuid16 {
        return true;
      }
      i := i + 2;
      n := n + 1;
    }
    return false;
  }

  lemma ComparesEntry(data: seq<byte>, k: nat, uuid16: uint16)
    requires (k + 1) * 16 <= |data|
    ensures data[k * 16..(k + 1) * 16] == Reverse(LongUuid(uuid16)) <==> Entry(data, 16, k) == LongNumber(uuid16)
  {
    hide FromBytes, LongUuid, LongNumber;
    var e := data[k * 16..(k + 1) * 16];
    ReverseTwice(e);
    ReverseTwice(LongUuid(uuid16));
    SameNumber(Reverse(e), LongUuid(uuid16));
    LongUuidMeans(uuid16);
  }

  method Search128(data: seq<byte>, dataLen: byte, uuid16: uint16) returns (found: bool)
    requires |data| == dataLen
    ensures found <==> HasNumber(data, 16, LongNumber(uuid16))
  {
    hide Entry, LongUuid, LongNumber;
    var uuid128Bt := Reverse(LongUuid(uuid16));
    var i: byte := 0;
    ghost var n := 0;
    while i + 16 <= dataLen
      invariant n >= 0 && i == 16 * n && i <= dataLen
      invariant forall k: nat :: k < n ==> Entry(data, 16, k) != LongNumber(uuid16)
    {
      ComparesEntry(data, n, uuid16);
      if data[i..i + 16] == uuid128Bt {
        return true;
      }
      i := i + 16;
      n := n + 1;
    }
    return false;
  }

  /** The switch on the type of the current chunk. */
  method CurrentLists(context: AdContext, uuid16: uint16) returns (found: bool)
    requires context.Valid() && Chunks(context.Rest()) != []
    ensures found <==> Lists(Chunks(context.Rest())[0], uuid16)
  {
    hide Chunks, HasNumber, LongNumber;
    var kind := context.GetDataType();
    var dataLen := context.GetDataLen();
    var data := context.GetData();
    found := false;
    if kind == INCOMPLETE_16 || kind == COMPLETE_16 {
      found := Search16(data, dataLen, uuid16);
    } else if kind == INCOMPLETE_128 || kind == COMPLETE_128 {
      found := Search128(data, dataLen, uuid16);
    }
  }

  /** True exactly when some chunk of the data lists the UUID. */
  method ContainsUuid16(adLen: byte, adData: seq<byte>, uuid16: uint16) returns (found: bool)
    requires adLen <= |adData|
    ensures found <==> exists c :: c in Chunks(adData[..adLen]) && Lists(c, uuid16)
  {
    hide Chunks, Lists;
    ghost var all := Chunks(adData[..adLen]);
    var context := new AdContext(adLen, adData);
    ghost var visited := 0;
    var more := context.HasMore();
    while more
      invariant context.Valid() && fresh(context) && visited <= |all| && Chunks(context.Rest()) == all[visited..]
      invariant more <==> all[visited..] != []
      invariant forall k :: 0 <= k < visited ==> !Lists(all[k], uuid16)
      decreases |all| - visited
    {
      found := CurrentLists(context, uuid16);
      if found {
        assert Lists(all[visited], uuid16);
        return true;
      }
      context.Next();
      visited := visited + 1;
      more := context.HasMore();
    }
    return false;
  }
}
