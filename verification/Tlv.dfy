/** TLV8 records: the printer fragments long values, the parser joins adjacent records of one type. */
module TlvFormat {
  import opened Bytes

  datatype Item = Item(kind: byte, data: seq<byte>)

  const MAX_TLV_ITEMS := 16

  // ----- printing -----

  /** The records of a non-empty value: full ones of 255 bytes, then the remainder. */
  function Fragments(kind: byte, data: seq<byte>): seq<byte>
    decreases |data|
  {
    if data == [] then []
    else var n := Min(255, |data|); [kind, n] + data[..n] + Fragments(kind, data[n..])
  }

  function PrintItem(item: Item): seq<byte> {
    if item.data == [] then [item.kind, 0] else Fragments(item.kind, item.data)
  }

  function Build(items: seq<Item>): seq<byte> {
    if items == [] then [] else PrintItem(items[0]) + Build(items[1..])
  }

  // ----- parsing -----

  /** The record extends the last item of its type, or opens a new one. */
  function Merge(acc: seq<Item>, item: Item): (r: seq<Item>) {
    if acc != [] && acc[|acc| - 1].kind == item.kind
    then acc[..|acc| - 1] + [Item(item.kind, acc[|acc| - 1].data + item.data)]
    else acc + [item]
  }

  /** A complete record at the front of buf. */
  predicate HasRecord(buf: seq<byte>) {
    |buf| >= 2 && 2 + buf[1] <= |buf|
  }

  function Record(buf: seq<byte>): Item
    requires HasRecord(buf)
  {
    Item(buf[0], buf[2..2 + buf[1]])
  }

  function AfterRecord(buf: seq<byte>): (rest: seq<byte>)
    requires HasRecord(buf)
    ensures |rest| < |buf|
  {
    buf[2 + buf[1]..]
  }

  function ParseFrom(acc: seq<Item>, buf: seq<byte>): seq<Item>
    decreases |buf|
  {
    if !HasRecord(buf) then acc
    else
      var merged := Merge(acc, Record(buf));
      if |merged| > MAX_TLV_ITEMS then acc else ParseFrom(merged, AfterRecord(buf))
  }

  function Parse(buf: seq<byte>): seq<Item> {
    ParseFrom([], buf)
  }

  function Find(items: seq<Item>, kind: byte): Option<Item> {
    if items == [] then None
    else if items[0].kind == kind then Some(items[0])
    else Find(items[1..], kind)
  }

  /** What a peer reads for one type. */
  function Value(buf: seq<byte>, kind: byte): Option<seq<byte>> {
    match Find(Parse(buf), kind)
    case None => None
    case Some(item) => Some(item.data)
  }

  // ----- what parsing means -----

  /** All complete records at the front of buf, not joined and not capped. */
  function Records(buf: seq<byte>): seq<Item>
    decreases |buf|
  {
    if HasRecord(buf) then [Record(buf)] + Records(AfterRecord(buf)) else []
  }

  /** Adjacent items of one type joined into one. */
  function Coalesce(items: seq<Item>): seq<Item> {
    if items == [] then []
    else
      var rest := Coalesce(items[1..]);
      if rest != [] && rest[0].kind == items[0].kind
      then [Item(items[0].kind, items[0].data + rest[0].data)] + rest[1..]
      else [items[0]] + rest
  }

  function Capped(items: seq<Item>): seq<Item> {
    if |items| <= 16 then items else items[..16]
  }

  predicate NoAdjacent(items: seq<Item>) {
    forall i :: 0 <= i < |items| - 1 ==> items[i].kind != items[i + 1].kind
  }

  /** Joining record by record from the left. */
  function MergeAll(acc: seq<Item>, items: seq<Item>): seq<Item>
    decreases |items|
  {
    if items == [] then acc else MergeAll(Merge(acc, items[0]), items[1..])
  }

  lemma {:induction false} MergeAllPrefix(acc: seq<Item>, items: seq<Item>)
    ensures |MergeAll(acc, items)| >= |acc|
    ensures acc != [] ==> MergeAll(acc, items)[..|acc| - 1] == acc[..|acc| - 1]
    decreases |items|
  {
    if items != [] {
      MergeAllPrefix(Merge(acc, items[0]), items[1..]);
    }
  }

  lemma MergeOntoLast(acc: seq<Item>, last: Item, item: Item)
    ensures Merge(acc + [last], item)
            == if last.kind == item.kind then acc + [Item(item.kind, last.data + item.data)] else acc + [last] + [item]
  {
  }

  /** All but the last item of an accumulator are final. */
  lemma {:induction false} MergeAllSplit(acc: seq<Item>, last: Item, items: seq<Item>)
    ensures MergeAll(acc + [last], items) == acc + MergeAll([last], items)
    decreases |items|
  {
    hide Merge;
    if items != [] {
      hide MergeAll;
      var item, rest := items[0], items[1..];
      assert items == [item] + rest && [] + [last] == [last];
      MergeAllCons(acc + [last], item, rest);
      MergeAllCons([last], item, rest);
      MergeOntoLast(acc, last, item);
      MergeOntoLast([], last, item);
      if last.kind == item.kind {
        var joined := Item(item.kind, last.data + item.data);
        assert [] + [joined] == [joined];
        MergeAllSplit(acc, joined, rest);
      } else {
        MergeAllSplit(acc + [last], item, rest);
        MergeAllSplit([last], item, rest);
        assert acc + [last] + MergeAll([item], rest) == acc + ([last] + MergeAll([item], rest));
      }
    }
  }

  /** Joining from the left and joining from the right agree. */
  lemma {:induction false} MergeAllIsCoalesce(items: seq<Item>)
    ensures MergeAll([], items) == Coalesce(items)
    decreases |items|
  {
    if items != [] {
      assert Merge([], items[0]) == [items[0]];
      MergeOneIsCoalesce(items[0], items[1..]);
    }
  }

  lemma {:induction false} MergeOneIsCoalesce(first: Item, items: seq<Item>)
    ensures MergeAll([first], items) == Coalesce([first] + items)
    decreases |items|
  {
    assert ([first] + items)[1..] == items;
    if items != [] {
      var item, rest := items[0], items[1..];
      MergeOneIsCoalesce(item, rest);
      assert [item] + rest == items;
      var c := Coalesce(items);
      CoalesceHead(items);
      if first.kind == item.kind {
        var joined := Item(first.kind, first.data + item.data);
        assert Merge([first], item) == [joined];
        MergeOneIsCoalesce(joined, rest);
        JoinHeads(first, item, rest);
      } else {
        assert Merge([first], item) == [first] + [item];
        MergeAllSplit([first], item, rest);
      }
    }
  }

  lemma CoalesceHead(items: seq<Item>)
    requires items != []
    ensures Coalesce(items) != [] && Coalesce(items)[0].kind == items[0].kind
  {
  }

  /** Joining the first two items by hand does not change the result. */
  lemma JoinHeads(first: Item, item: Item, rest: seq<Item>)
    requires first.kind == item.kind
    ensures Coalesce([Item(first.kind, first.data + item.data)] + rest) == Coalesce([first] + ([item] + rest))
  {
    var joined := Item(first.kind, first.data + item.data);
    assert ([joined] + rest)[1..] == rest && ([item] + rest)[1..] == rest;
    assert ([first] + ([item] + rest))[1..] == [item] + rest;
    var c := Coalesce(rest);
    if c != [] && c[0].kind == item.kind {
      assert first.data + item.data + c[0].data == first.data + (item.data + c[0].data);
    }
  }

  /** The parser joins record by record until a seventeenth item would open. */
  lemma {:induction false} ParseIsCapped(acc: seq<Item>, buf: seq<byte>)
    requires |acc| <= MAX_TLV_ITEMS
    ensures ParseFrom(acc, buf) == Capped(MergeAll(acc, Records(buf)))
    decreases |buf|
  {
    if HasRecord(buf) {
      var merged := Merge(acc, Record(buf));
      assert Records(buf)[0] == Record(buf) && Records(buf)[1..] == Records(AfterRecord(buf));
      if |merged| > MAX_TLV_ITEMS {
        MergeAllPrefix(merged, Records(AfterRecord(buf)));
        assert merged[..|merged| - 1] == acc;
      } else {
        ParseIsCapped(merged, AfterRecord(buf));
      }
    }
  }

  /**
   For every byte string, the parse is what its complete records say: adjacent records of one type
   joined, cut to the first sixteen items.
   */
  lemma ParseMeaning(buf: seq<byte>)
    ensures Parse(buf) == Capped(Coalesce(Records(buf)))
  {
    ParseIsCapped([], buf);
    MergeAllIsCoalesce(Records(buf));
  }

  /** Find returns the first item of a type, or nothing when there is none. */
  lemma {:induction false} FindMeans(items: seq<Item>, kind: byte) returns (i: nat)
    ensures i <= |items| && (forall j :: 0 <= j < i ==> items[j].kind != kind)
    ensures if i == |items| then Find(items, kind) == None else items[i].kind == kind && Find(items, kind) == Some(items[i])
  {
    i := 0;
    if items != [] && items[0].kind != kind {
      var n := FindMeans(items[1..], kind);
      i := n + 1;
      assert forall j :: 1 <= j < |items| ==> items[j] == items[1..][j - 1];
    }
  }

  // ----- round trips -----

  lemma {:induction false} RecordsAppend(r: Item, buf: seq<byte>)
    requires |r.data| <= 255
    ensures Records([r.kind, |r.data|] + r.data + buf) == [r] + Records(buf)
  {
    var all := [r.kind, |r.data|] + r.data + buf;
    assert all[2..2 + |r.data|] == r.data && all[2 + |r.data|..] == buf;
  }

  lemma MergeAllCons(acc: seq<Item>, item: Item, rest: seq<Item>)
    ensures MergeAll(acc, [item] + rest) == MergeAll(Merge(acc, item), rest)
  {
    assert ([item] + rest)[1..] == rest;
  }

  /** Merging into an accumulator whose last item has the type: it stays the last one. */
  lemma MergeLast(acc: seq<Item>, kind: byte, data: seq<byte>)
    requires acc != [] && acc[|acc| - 1].kind == kind
    ensures var merged := Merge(acc, Item(kind, data));
            merged != [] && merged[|merged| - 1].kind == kind && (data == [] ==> merged == acc)
  {
    assert acc[|acc| - 1].data + [] == acc[|acc| - 1].data;
  }

  lemma FragmentsFirst(kind: byte, data: seq<byte>)
    requires data != []
    ensures var n := Min(255, |data|);
            Fragments(kind, data) == [kind, n] + data[..n] + Fragments(kind, data[n..])
  {
  }

  lemma FragmentsThen(kind: byte, data: seq<byte>, buf: seq<byte>)
    requires data != []
    ensures var n := Min(255, |data|);
            Fragments(kind, data) + buf == [kind, n] + data[..n] + (Fragments(kind, data[n..]) + buf)
  {
    hide Fragments;
    FragmentsFirst(kind, data);
  }

  /** The fragments of a value join back into it. */
  lemma {:induction false} FragmentsMerge(acc: seq<Item>, kind: byte, data: seq<byte>, buf: seq<byte>)
    requires acc != [] && acc[|acc| - 1].kind == kind
    ensures MergeAll(acc, Records(Fragments(kind, data) + buf)) == MergeAll(Merge(acc, Item(kind, data)), Records(buf))
    decreases |data|
  {
    MergeLast(acc, kind, data);
    if data == [] {
      assert Fragments(kind, data) + buf == buf;
    } else {
      hide Merge, MergeAll, Records, Fragments;
      var n := Min(255, |data|);
      var first, rest := Item(kind, data[..n]), Fragments(kind, data[n..]) + buf;
      FragmentsThen(kind, data, buf);
      RecordsAppend(first, rest);
      MergeAllCons(acc, first, Records(rest));
      MergeLast(acc, kind, data[..n]);
      FragmentsMerge(Merge(acc, first), kind, data[n..], buf);
      MergeTwice(acc, kind, data[..n], data[n..]);
      assert data[..n] + data[n..] == data;
    }
  }

  lemma MergeTwice(acc: seq<Item>, kind: byte, d1: seq<byte>, d2: seq<byte>)
    ensures Merge(Merge(acc, Item(kind, d1)), Item(kind, d2)) == Merge(acc, Item(kind, d1 + d2))
  {
    if acc != [] && acc[|acc| - 1].kind == kind {
      var last := acc[|acc| - 1].data;
      assert last + d1 + d2 == last + (d1 + d2);
    }
  }

  lemma PrintItemMerge(acc: seq<Item>, item: Item, buf: seq<byte>)
    ensures MergeAll(acc, Records(PrintItem(item) + buf)) == MergeAll(Merge(acc, item), Records(buf))
  {
    var kind, data := item.kind, item.data;
    if acc != [] && acc[|acc| - 1].kind == kind && data != [] {
      FragmentsMerge(acc, kind, data, buf);
    } else {
      var n := Min(255, |data|);
      var first, rest := Item(kind, data[..n]), Fragments(kind, data[n..]) + buf;
      assert PrintItem(item) + buf == [kind, n] + data[..n] + rest;
      RecordsAppend(first, rest);
      assert ([first] + Records(rest))[1..] == Records(rest);
      var acc' := Merge(acc, first);
      FragmentsMerge(acc', kind, data[n..], buf);
      MergeTwice(acc, kind, data[..n], data[n..]);
      assert data[..n] + data[n..] == data;
    }
  }

  lemma {:induction false} BuildMerge(acc: seq<Item>, items: seq<Item>)
    ensures MergeAll(acc, Records(Build(items))) == MergeAll(acc, items)
    decreases |items|
  {
    if items != [] {
      PrintItemMerge(acc, items[0], Build(items[1..]));
      BuildMerge(Merge(acc, items[0]), items[1..]);
    }
  }

  /**
   Round trip for items of any number, types and lengths: what comes back is the list with
   adjacent equal types joined, cut to sixteen.
   */
  lemma ParseOfBuild(items: seq<Item>)
    ensures Parse(Build(items)) == Capped(Coalesce(items))
  {
    ParseIsCapped([], Build(items));
    BuildMerge([], items);
    MergeAllIsCoalesce(items);
  }

  lemma {:induction false} CoalesceIdentity(items: seq<Item>)
    requires NoAdjacent(items)
    ensures Coalesce(items) == items
  {
    if items != [] {
      var rest := items[1..];
      assert NoAdjacent(rest) by {
        forall i | 0 <= i < |rest| - 1 ensures rest[i].kind != rest[i + 1].kind {
          assert items[i + 1].kind != items[i + 2].kind;
        }
      }
      CoalesceIdentity(rest);
    }
  }

  /** The identity, when there are at most sixteen items and no two neighbours share a type. */
  lemma RoundTrip(items: seq<Item>)
    requires |items| <= 16 && NoAdjacent(items)
    ensures Parse(Build(items)) == items
  {
    ParseOfBuild(items);
    CoalesceIdentity(items);
  }

  // ----- what a peer reads out of a message -----

  lemma OneItem(item: Item)
    ensures forall kind :: Value(Build([item]), kind) == if kind == item.kind then Some(item.data) else None
  {
    hide Build, Parse;
    RoundTrip([item]);
    forall kind ensures Find([item], kind) == if kind == item.kind then Some(item) else None {
      var i := FindMeans([item], kind);
    }
  }

  lemma TwoItems(items: seq<Item>)
    requires |items| == 2 && items[0].kind != items[1].kind
    ensures forall kind :: Value(Build(items), kind)
              == if kind == items[0].kind then Some(items[0].data)
                 else if kind == items[1].kind then Some(items[1].data)
                 else None
  {
    hide Build, Parse;
    RoundTrip(items);
    forall kind
      ensures Find(items, kind)
              == if kind == items[0].kind then Some(items[0]) else if kind == items[1].kind then Some(items[1]) else None
    {
      var i := FindMeans(items, kind);
    }
  }

  lemma ThreeItems(items: seq<Item>)
    requires |items| == 3 && items[0].kind != items[1].kind && items[1].kind != items[2].kind && items[0].kind != items[2].kind
    ensures Value(Build(items), items[0].kind) == Some(items[0].data)
    ensures Value(Build(items), items[1].kind) == Some(items[1].data)
    ensures Value(Build(items), items[2].kind) == Some(items[2].data)
  {
    hide Build, Parse;
    RoundTrip(items);
    var i := FindMeans(items, items[0].kind);
    var j := FindMeans(items, items[1].kind);
    var k := FindMeans(items, items[2].kind);
  }

  lemma {:induction false} CoalesceNoAdjacent(items: seq<Item>)
    ensures NoAdjacent(Coalesce(items))
  {
    if items != [] {
      CoalesceNoAdjacent(items[1..]);
    }
  }

  /** For every byte string: the parse is in normal form, and printing it loses nothing. */
  lemma Canonicalisation(buf: seq<byte>)
    ensures |Parse(buf)| <= 16 && NoAdjacent(Parse(buf))
    ensures Parse(Build(Parse(buf))) == Parse(buf)
  {
    ParseMeaning(buf);
    CoalesceNoAdjacent(Records(buf));
    RoundTrip(Parse(buf));
  }

  // ----- the records of a byte string -----

  /** What fits a length byte. */
  predicate Short(rs: seq<Item>) {
    forall i :: 0 <= i < |rs| ==> |rs[i].data| <= 255
  }

  function PrintRecords(rs: seq<Item>): seq<byte>
    requires Short(rs)
  {
    if rs == [] then [] else [rs[0].kind, |rs[0].data|] + rs[0].data + PrintRecords(rs[1..])
  }

  lemma PrintFirst(r: Item, rs: seq<Item>)
    requires |r.data| <= 255 && Short(rs)
    ensures Short([r] + rs) && PrintRecords([r] + rs) == [r.kind, |r.data|] + r.data + PrintRecords(rs)
  {
    assert ([r] + rs)[1..] == rs;
  }

  lemma RecordFirst(buf: seq<byte>)
    requires HasRecord(buf)
    ensures Records(buf) == [Record(buf)] + Records(AfterRecord(buf))
  {
  }

  lemma RecordBytes(buf: seq<byte>)
    requires HasRecord(buf)
    ensures buf == [buf[0], |Record(buf).data|] + Record(buf).data + AfterRecord(buf)
  {
    hide Records;
    var n := buf[1];
    assert buf[..2] == [buf[0], n];
    assert buf == buf[..2] + buf[2..2 + n] + buf[2 + n..];
  }

  /** A byte string is exactly its records followed by something that is not one. */
  lemma {:induction false} RecordsAccount(buf: seq<byte>) returns (rest: seq<byte>)
    ensures Short(Records(buf))
    ensures buf == PrintRecords(Records(buf)) + rest && !HasRecord(rest)
    decreases |buf|
  {
    if HasRecord(buf) {
      hide Records, HasRecord, PrintRecords, Short;
      RecordFirst(buf);
      RecordBytes(buf);
      rest := RecordsAccount(AfterRecord(buf));
      PrintFirst(Record(buf), Records(AfterRecord(buf)));
      var head := [buf[0], |Record(buf).data|] + Record(buf).data;
      assert head + (PrintRecords(Records(AfterRecord(buf))) + rest) == head + PrintRecords(Records(AfterRecord(buf))) + rest;
    } else {
      rest := buf;
      assert [] + buf == buf;
    }
  }

  function Payload(items: seq<Item>): seq<byte> {
    if items == [] then [] else items[0].data + Payload(items[1..])
  }

  /** One type, full records of 255 bytes and a last one that is empty only when it is alone. */
  predicate RecordsOf(rs: seq<Item>, kind: byte) {
    && rs != []
    && (forall i :: 0 <= i < |rs| ==> rs[i].kind == kind && |rs[i].data| <= 255)
    && (forall i :: 0 <= i < |rs| - 1 ==> |rs[i].data| == 255)
    && (|rs| > 1 ==> rs[|rs| - 1].data != [])
  }

  lemma {:induction false} FragmentRecords(kind: byte, data: seq<byte>) returns (rs: seq<Item>)
    requires data != []
    ensures RecordsOf(rs, kind) && rs[|rs| - 1].data != []
    ensures Fragments(kind, data) == PrintRecords(rs) && Payload(rs) == data
    decreases |data|
  {
    var n := Min(255, |data|);
    var first := Item(kind, data[..n]);
    FragmentsFirst(kind, data);
    assert data == data[..n] + data[n..];
    if |data| <= 255 {
      rs := [first];
      assert rs[1..] == [];
    } else {
      hide Fragments;
      var rest := FragmentRecords(kind, data[n..]);
      rs := [first] + rest;
      assert rs[1..] == rest;
    }
  }

  /** The wire format of a value: type, length byte, bytes; in as few records as it takes, at least one. */
  lemma PrintedRecords(item: Item) returns (rs: seq<Item>)
    ensures RecordsOf(rs, item.kind)
    ensures PrintItem(item) == PrintRecords(rs) && Payload(rs) == item.data
  {
    if item.data == [] {
      rs := [item];
      assert rs[1..] == [];
    } else {
      rs := FragmentRecords(item.kind, item.data);
    }
  }

  /** Joining neither loses nor reorders a byte. */
  lemma {:induction false} CoalescePayload(items: seq<Item>)
    ensures Payload(Coalesce(items)) == Payload(items)
  {
    if items != [] {
      CoalescePayload(items[1..]);
      var rest := Coalesce(items[1..]);
      if rest != [] && rest[0].kind == items[0].kind {
        var joined := [Item(items[0].kind, items[0].data + rest[0].data)] + rest[1..];
        assert joined[1..] == rest[1..];
        assert items[0].data + rest[0].data + Payload(rest[1..]) == items[0].data + (rest[0].data + Payload(rest[1..]));
      } else {
        assert ([items[0]] + rest)[1..] == rest;
      }
    }
  }

  /** The parser accepts the records up to the one that would open a seventeenth item. */
  lemma {:induction false} AcceptedFrom(acc: seq<Item>, buf: seq<byte>) returns (m: nat)
    requires |acc| <= MAX_TLV_ITEMS
    ensures m <= |Records(buf)| && ParseFrom(acc, buf) == MergeAll(acc, Records(buf)[..m])
    ensures |MergeAll(acc, Records(buf)[..m])| <= MAX_TLV_ITEMS
    ensures m < |Records(buf)| ==> |MergeAll(acc, Records(buf)[..m + 1])| > MAX_TLV_ITEMS
    decreases |buf|
  {
    m := 0;
    if HasRecord(buf) {
      var r, rest := Record(buf), Records(AfterRecord(buf));
      assert Records(buf) == [r] + rest;
      var merged := Merge(acc, r);
      if |merged| > MAX_TLV_ITEMS {
        assert Records(buf)[..1] == [r];
        assert MergeAll(acc, [r]) == MergeAll(merged, []);
      } else {
        var n := AcceptedFrom(merged, AfterRecord(buf));
        m := n + 1;
        assert Records(buf)[..m][0] == r && Records(buf)[..m][1..] == rest[..n];
        if n < |rest| {
          assert Records(buf)[..m + 1][0] == r && Records(buf)[..m + 1][1..] == rest[..n + 1];
        }
      }
    }
  }

  /**
   The parse carries exactly the payload of the longest prefix of records that fits into sixteen
   items.
   */
  lemma AcceptedPrefix(buf: seq<byte>) returns (m: nat)
    ensures m <= |Records(buf)| && Parse(buf) == Coalesce(Records(buf)[..m])
    ensures Payload(Parse(buf)) == Payload(Records(buf)[..m])
    ensures |Parse(buf)| <= 16
    ensures m < |Records(buf)| ==> |Coalesce(Records(buf)[..m + 1])| > 16
  {
    m := AcceptedFrom([], buf);
    MergeAllIsCoalesce(Records(buf)[..m]);
    CoalescePayload(Records(buf)[..m]);
    if m < |Records(buf)| {
      MergeAllIsCoalesce(Records(buf)[..m + 1]);
    }
  }
}

/** The parser and the printer as the source runs them: loops with cursors over buffers. */
module TlvCodec {
  import opened Bytes
  import opened TlvFormat

  /** The record at the front of rest joins the items, or ends the parse. */
  lemma ParseStep(items: seq<Item>, rest: seq<byte>, kind: byte, data: seq<byte>, after: seq<byte>)
    requires HasRecord(rest) && Record(rest) == Item(kind, data) && AfterRecord(rest) == after
    ensures var merged := Merge(items, Item(kind, data));
            ParseFrom(items, rest) == if |merged| > MAX_TLV_ITEMS then items else ParseFrom(merged, after)
  {
  }

  method TlvParse(buf: seq<byte>) returns (items: seq<Item>)
    ensures items == Parse(buf)
  {
    hide Parse, Merge, ParseFrom;
    items := [];
    var i := 0;
    ParseStart(buf);
    while i + 2 <= |buf|
      invariant 0 <= i <= |buf| && |items| <= MAX_TLV_ITEMS
      invariant ParseFrom(items, buf[i..]) == Parse(buf)
      decreases |buf| - i
    {
      var kind, len := buf[i], buf[i + 1];
      ghost var rest := buf[i..];
      if i + 2 + len > |buf| {
        break;
      }
      var data := buf[i + 2..i + 2 + len];
      assert rest[2..2 + len] == data && rest[2 + len..] == buf[i + 2 + len..];
      ParseStep(items, rest, kind, data, buf[i + 2 + len..]);
      MergeCases(items, Item(kind, data));
      if |items| > 0 && items[|items| - 1].kind == kind {
        // continuation of the previous item
        items := items[|items| - 1 := Item(kind, items[|items| - 1].data + data)];
      } else {
        if |items| >= MAX_TLV_ITEMS {
          return;
        }
        items := items + [Item(kind, data)];
      }
      i := i + 2 + len;
    }
    ParseEnd(items, buf[i..]);
  }

  lemma ParseStart(buf: seq<byte>)
    ensures ParseFrom([], buf[0..]) == Parse(buf)
  {
    assert buf[0..] == buf;
  }

  lemma ParseEnd(items: seq<Item>, rest: seq<byte>)
    requires !HasRecord(rest)
    ensures ParseFrom(items, rest) == items
  {
  }

  lemma MergeCases(items: seq<Item>, item: Item)
    ensures Merge(items, item) ==
            if items != [] && items[|items| - 1].kind == item.kind
            then items[|items| - 1 := Item(item.kind, items[|items| - 1].data + item.data)]
            else items + [item]
  {
  }

  method TlvFind(items: seq<Item>, kind: byte) returns (found: Option<Item>)
    ensures found == Find(items, kind)
  {
    var i := 0;
    assert items[0..] == items;
    while i < |items|
      invariant 0 <= i <= |items| && Find(items[i..], kind) == Find(items, kind)
    {
      if items[i].kind == kind {
        return Some(items[i]);
      }
      assert items[i..][1..] == items[i + 1..];
      i := i + 1;
    }
    return None;
  }

  lemma FragmentsStep(kind: byte, data: seq<byte>, off: nat)
    requires off < |data|
    ensures var n := Min(255, |data| - off);
            Fragments(kind, data[off..]) == [kind, n] + data[off..off + n] + Fragments(kind, data[off + n..])
  {
    var n := Min(255, |data| - off);
    assert data[off..][..n] == data[off..off + n] && data[off..][n..] == data[off + n..];
  }

  /** The sizing loop for one item. */
  method ItemSize(item: Item) returns (total: nat)
    ensures total == |PrintItem(item)|
  {
    total := 0;
    var rem := |item.data|;
    if rem == 0 {
      total := 2;
    } else {
      assert item.data[0..] == item.data;
      while rem > 0
        invariant 0 <= rem <= |item.data|
        invariant total + |Fragments(item.kind, item.data[|item.data| - rem..])| == |PrintItem(item)|
      {
        FragmentsStep(item.kind, item.data, |item.data| - rem);
        var chunk := if rem > 255 then 255 else rem;
        total := total + 2 + chunk;
        rem := rem - chunk;
      }
    }
  }

  /** One record: type, length, value. */
  method WriteRecord(kind: byte, data: seq<byte>, buf: array<byte>, pos: nat) returns (end: nat)
    requires |data| <= 255 && pos + 2 + |data| <= buf.Length
    modifies buf
    ensures end == pos + 2 + |data| && buf[..end] == old(buf[..pos]) + ([kind, |data|] + data)
  {
    ghost var before := buf[..pos];
    buf[pos] := kind;
    buf[pos + 1] := |data|;
    forall i | 0 <= i < |data| { buf[pos + 2 + i] := data[i]; }
    end := pos + 2 + |data|;
    assert buf[..pos] == before && buf[pos + 2..end] == data;
    assert buf[..end] == before + ([kind, |data|] + data);
  }

  /** Writing the next part of all, after its first done bytes. */
  lemma Extend(all: seq<byte>, done: nat, part: seq<byte>, rest: seq<byte>)
    requires done <= |all| && all[done..] == part + rest
    ensures done + |part| <= |all|
    ensures all[..done + |part|] == all[..done] + part && all[done + |part|..] == rest
  {
    assert all == all[..done] + (part + rest);
  }

  /** before has been extended to now by the records of the first off bytes of the item's value. */
  ghost predicate Written(item: Item, before: seq<byte>, now: seq<byte>, off: nat) {
    var all, done := PrintItem(item), |now| - |before|;
    && off <= |item.data| && 0 <= done <= |all|
    && now == before + all[..done] && all[done..] == Fragments(item.kind, item.data[off..])
  }

  lemma EmptyItem(item: Item)
    requires item.data == []
    ensures PrintItem(item) == [item.kind, |item.data|] + item.data
  {
  }

  lemma WrittenBegins(item: Item, before: seq<byte>)
    requires item.data != []
    ensures Written(item, before, before, 0)
  {
    assert item.data[0..] == item.data;
  }

  lemma WrittenStep(item: Item, before: seq<byte>, now: seq<byte>, off: nat)
    requires Written(item, before, now, off) && off < |item.data|
    ensures var n := Min(255, |item.data| - off);
            && |now| + 2 + n <= |before| + |PrintItem(item)|
            && Written(item, before, now + ([item.kind, n] + item.data[off..off + n]), off + n)
  {
    hide Fragments, PrintItem;
    var all, done, n := PrintItem(item), |now| - |before|, Min(255, |item.data| - off);
    var part := [item.kind, n] + item.data[off..off + n];
    FragmentsStep(item.kind, item.data, off);
    Extend(all, done, part, Fragments(item.kind, item.data[off + n..]));
    assert before + (all[..done] + part) == before + all[..done] + part;
  }

  lemma WrittenEnds(item: Item, before: seq<byte>, now: seq<byte>)
    requires Written(item, before, now, |item.data|)
    ensures now == before + PrintItem(item)
  {
    hide Fragments, PrintItem;
    NoFragments(item.kind, item.data[|item.data|..]);
    var all := PrintItem(item);
    assert all[..|now| - |before|] == all;
  }

  /** The writing loop for one item: it writes its records at pos and returns where they end. */
  method WriteItem(item: Item, buf: array<byte>, pos: nat) returns (end: nat)
    requires pos + |PrintItem(item)| <= buf.Length
    modifies buf
    ensures end == pos + |PrintItem(item)| && buf[..end] == old(buf[..pos]) + PrintItem(item)
  {
    hide Fragments, PrintItem, Written;
    ghost var before := buf[..pos];
    var rem, off := |item.data|, 0;
    if rem == 0 {
      EmptyItem(item);
      end := WriteRecord(item.kind, item.data, buf, pos);
    } else {
      end := pos;
      WrittenBegins(item, before);
      while rem > 0
        invariant 0 <= rem && rem + off == |item.data| && off >= 0 && pos <= end <= buf.Length
        invariant Written(item, before, buf[..end], off)
        decreases rem
      {
        var chunk := if rem > 255 then 255 else rem;
        WrittenStep(item, before, buf[..end], off);
        end := WriteRecord(item.kind, item.data[off..off + chunk], buf, end);
        off := off + chunk;
        rem := rem - chunk;
      }
      WrittenEnds(item, before, buf[..end]);
    }
  }

  lemma NoFragments(kind: byte, data: seq<byte>)
    requires data == []
    ensures Fragments(kind, data) == []
  {
  }

  /** The size computed first is exactly the size written. */
  method TlvBuild(items: seq<Item>) returns (buf: array<byte>)
    ensures fresh(buf) && buf[..] == Build(items)
  {
    hide PrintItem;
    ghost var all := Build(items);
    var total := 0;
    for i := 0 to |items|
      invariant total + |Build(items[i..])| == |all|
    {
      var size := ItemSize(items[i]);
      assert items[i..][1..] == items[i + 1..];
      total := total + size;
    }
    buf := new byte[total];
    var pos := 0;
    for i := 0 to |items|
      invariant 0 <= pos <= buf.Length && fresh(buf)
      invariant buf[..pos] == all[..pos] && all[pos..] == Build(items[i..])
    {
      assert items[i..][1..] == items[i + 1..];
      Extend(all, pos, PrintItem(items[i]), Build(items[i + 1..]));
      pos := WriteItem(items[i], buf, pos);
    }
    assert buf[..] == buf[..pos];
  }
}
