/** Which bytes the request reader accepts and why it refuses the others: the texts of requests with
    every field of the format as a variable. */
module Grammar {
  import opened Common
  import opened Bson
  import Utf8

  // ---------------------------------------------------------------- texts with arbitrary fields

  /** A string element: its type, its name, the string, and the byte that closes it. */
  datatype RawString = RawString(kind: byte, name: seq<byte>, text: seq<byte>, end: byte)

  /** The key and the data of an item; of the data, the second type byte is free. */
  datatype RawKey = RawKey(kind: byte, name: seq<byte>, key: nat)

  datatype RawData = RawData(kind: byte, name: seq<byte>, subtype: byte, data: seq<byte>)

  /** An item; its name in the array and its length are free. */
  datatype RawItem = RawItem(kind: byte, index: seq<byte>, length: nat, ident: RawString, key: RawKey, data: RawData, end: byte)

  /** The array of items: the length that it claims, and whether a zero closes it. */
  datatype RawArray = RawArray(kind: byte, name: seq<byte>, span: nat, items: seq<RawItem>, closed: bool)

  datatype RawSet = RawSet(kind: byte, index: seq<byte>, length: nat, ident: RawString, items: RawArray, end: byte)

  /** A request; the length of the array of sets is free, and without sets it may be missing. */
  datatype RawRequest = RawRequest(length: nat, name: RawString, kind: byte, listName: seq<byte>, span: seq<byte>, sets: seq<RawSet>, end: byte)

  function StringText(s: RawString): seq<byte> {
    [s.kind] + ((s.name + [0]) + (Le(|s.text| + 1, 4) + (s.text + [s.end])))
  }

  function KeyText(k: RawKey): seq<byte> {
    [k.kind] + ((k.name + [0]) + Le(k.key, 8))
  }

  function DataText(d: RawData): seq<byte> {
    [d.kind] + ((d.name + [0]) + (Le(|d.data|, 4) + ([d.subtype] + d.data)))
  }

  function ItemText(it: RawItem): (t: seq<byte>)
    ensures |t| >= |it.data.data| + 1
  {
    [it.kind] + ((it.index + [0]) + (Le(it.length, 4) + (StringText(it.ident) + (KeyText(it.key) + (DataText(it.data) + [it.end])))))
  }

  function ListText(items: seq<RawItem>): seq<byte> {
    if items == [] then [] else ItemText(items[0]) + ListText(items[1..])
  }

  function Closing(closed: bool): seq<byte> {
    if closed then [0] else []
  }

  function ArrayText(a: RawArray): seq<byte> {
    [a.kind] + ((a.name + [0]) + (Le(a.span, 4) + (ListText(a.items) + Closing(a.closed))))
  }

  function SetText(s: RawSet): seq<byte> {
    [s.kind] + ((s.index + [0]) + (Le(s.length, 4) + (StringText(s.ident) + (ArrayText(s.items) + [s.end]))))
  }

  function SetListText(sets: seq<RawSet>): seq<byte> {
    if sets == [] then [] else SetText(sets[0]) + SetListText(sets[1..])
  }

  function Text(q: RawRequest): seq<byte> {
    Le(q.length, 4) + (StringText(q.name) + ([q.kind] + ((q.listName + [0]) + (q.span + (SetListText(q.sets) + ([0] + [q.end]))))))
  }

  // ---------------------------------------------------------------- what is wrong with them

  function First(a: Option<Error>, b: Option<Error>): Option<Error> {
    if a.Some? then a else b
  }

  function Unless(ok: bool, e: Error): Option<Error> {
    if ok then None else Some(e)
  }

  function StringFault(s: RawString, name: seq<byte>): Option<Error> {
    First(Unless(s.kind == 2 && s.name == name, MalformedMessage), Unless(s.end == 0 && Utf8.Valid(s.text), ViolatedSpec))
  }

  function KeyFault(k: RawKey): Option<Error> {
    Unless(k.kind == 18 && k.name == KeyName() && k.key < 0x1_0000_0000, MalformedMessage)
  }

  function DataFault(d: RawData): Option<Error> {
    Unless(d.kind == 5 && d.name == DataName(), MalformedMessage)
  }

  function ItemFault(it: RawItem): Option<Error> {
    First(Unless(it.kind == 3, MalformedMessage),
          First(StringFault(it.ident, Identifier()), First(KeyFault(it.key), First(DataFault(it.data), Unless(it.end == 0, ViolatedSpec)))))
  }

  function ListFault(items: seq<RawItem>): Option<Error> {
    if items == [] then None else First(ItemFault(items[0]), ListFault(items[1..]))
  }

  function ArrayFault(a: RawArray): Option<Error> {
    First(Unless(a.kind == 4 && a.name == ItemsName(), MalformedMessage), ListFault(a.items))
  }

  function SetFault(s: RawSet): Option<Error> {
    First(Unless(s.kind == 3, MalformedMessage),
          First(StringFault(s.ident, Identifier()), First(ArrayFault(s.items), Unless(s.end == 0, ViolatedSpec))))
  }

  function SetListFault(sets: seq<RawSet>): Option<Error> {
    if sets == [] then None else First(SetFault(sets[0]), SetListFault(sets[1..]))
  }

  /** The first thing that is wrong with a request, if anything is. */
  function Fault(q: RawRequest): Option<Error> {
    First(Unless(q.length == |Text(q)|, ViolatedSpec),
          First(StringFault(q.name, NameName()),
                First(Unless(q.kind == 4 && q.listName == SetsName(), MalformedMessage),
                      First(SetListFault(q.sets), Unless(q.end == 0, ViolatedSpec)))))
  }

  // ---------------------------------------------------------------- what can be written at all

  /** A name: UTF-8 without zeros, and ASCII if `plain`. */
  ghost predicate Name(s: seq<byte>, plain: bool) {
    0 !in s && Utf8.Valid(s) && (plain ==> Plain(s))
  }

  /** No frame is empty, and if the text is cut at all, then names are ASCII. */
  ghost predicate Smooth(l: Layout, plain: bool) {
    l.stops == {} && (l.cuts == {} || plain)
  }

  ghost predicate StringShape(s: RawString, plain: bool) {
    Name(s.name, plain) && |s.text| + 1 < INT32_LIMIT
  }

  ghost predicate ItemShape(it: RawItem, plain: bool) {
    && it.kind != 0 && Name(it.index, plain) && it.length < INT32_LIMIT && StringShape(it.ident, plain)
    && Name(it.key.name, plain) && it.key.key < Pow256(8) && Name(it.data.name, plain) && |it.data.data| < INT32_LIMIT
  }

  ghost predicate ListShape(items: seq<RawItem>, plain: bool) {
    forall k: nat :: k < |items| ==> ItemShape(items[k], plain)
  }

  /** Reading the array goes on as long as less than its length has been read: a closed array must be
      longer than its items, and one without a closing zero must end in its last item. */
  ghost predicate SpanShape(a: RawArray) {
    if a.closed then 4 + |ListText(a.items)| < a.span
    else a.span <= 4 + |ListText(a.items)| && (a.items != [] ==> 4 + |ListText(a.items)| < a.span + |ItemText(a.items[|a.items| - 1])|)
  }

  ghost predicate SetShape(s: RawSet, plain: bool) {
    && s.kind != 0 && Name(s.index, plain) && s.length < INT32_LIMIT && StringShape(s.ident, plain)
    && Name(s.items.name, plain) && s.items.span < INT32_LIMIT && ListShape(s.items.items, plain) && SpanShape(s.items)
  }

  /** Sets with `r` bytes behind them; no array claims to be longer than what is left of the message. */
  ghost predicate SetListShape(sets: seq<RawSet>, r: nat, plain: bool) {
    sets != [] ==>
      && SetShape(sets[0], plain) && sets[0].items.span <= 4 + |ListText(sets[0].items.items)| + |Closing(sets[0].items.closed)| + 1 + |SetListText(sets[1..])| + r
      && SetListShape(sets[1..], r, plain)
  }

  ghost predicate Shape(q: RawRequest, plain: bool) {
    q.length < INT32_LIMIT && StringShape(q.name, plain) && Name(q.listName, plain) && (|q.span| == 4 || (q.span == [] && q.sets == [])) && SetListShape(q.sets, 2, plain)
  }

  // ---------------------------------------------------------------- what is reported

  function ItemReport(it: RawItem, total: nat, r: nat): DataItem
    requires total >= |it.data.data| + 1 + r
  {
    DataItem(it.ident.text, it.key.key, total - r - 1 - |it.data.data|, |it.data.data|)
  }

  /** The items when `r` bytes follow them. */
  function ListReport(items: seq<RawItem>, total: nat, r: nat): seq<DataItem>
    requires total >= |ListText(items)| + r
  {
    if items == [] then []
    else [ItemReport(items[0], total, |ListText(items[1..])| + r)] + ListReport(items[1..], total, r)
  }

  function SetReport(s: RawSet, total: nat, r: nat): DataSet
    requires total >= |ListText(s.items.items)| + |Closing(s.items.closed)| + 1 + r
  {
    DataSet(s.ident.text, ListReport(s.items.items, total, |Closing(s.items.closed)| + 1 + r))
  }

  lemma SetTextLong(s: RawSet)
    ensures |SetText(s)| >= |ListText(s.items.items)| + |Closing(s.items.closed)| + 1
  {
    hide Le, ListText, Closing, StringText;
  }

  function SetListReport(sets: seq<RawSet>, total: nat, r: nat): seq<DataSet>
    requires total >= |SetListText(sets)| + r
  {
    if sets == [] then []
    else
      SetTextLong(sets[0]);
      [SetReport(sets[0], total, |SetListText(sets[1..])| + r)] + SetListReport(sets[1..], total, r)
  }

  lemma TextLong(q: RawRequest)
    ensures |Text(q)| >= |SetListText(q.sets)| + 2
  {
    hide Le, SetListText, StringText;
  }

  function Report(q: RawRequest): Request {
    TextLong(q);
    Request(q.name.text, SetListReport(q.sets, |Text(q)|, 2))
  }

  // ---------------------------------------------------------------- reading them

  function Outcome<T>(fault: Option<Error>, v: T, rest: seq<byte>): Result<Parsed<T>> {
    match fault
    case None => Ok(Parsed(v, rest))
    case Some(e) => Err(e)
  }

  function Passed(fault: Option<Error>, rest: seq<byte>): Result<seq<byte>> {
    match fault
    case None => Ok(rest)
    case Some(e) => Err(e)
  }

  lemma ByteRead(kind: byte, rest: seq<byte>, expected: byte, l: Layout, plain: bool)
    requires Smooth(l, plain)
    ensures ReadByte([kind] + rest, l) == Ok(Parsed(kind, rest))
    ensures CheckType([kind] + rest, expected, l) == Passed(Unless(kind == expected, MalformedMessage), rest)
    ensures CheckTermination([kind] + rest, l) == Passed(Unless(kind == 0, ViolatedSpec), rest)
  {
    assert ([kind] + rest)[1..] == rest;
  }

  lemma BytesRead(s: seq<byte>, rest: seq<byte>, l: Layout, plain: bool)
    requires Smooth(l, plain)
    ensures ReadBytes(s + rest, |s|, l) == Ok(Parsed(s, rest))
    ensures |s| == 4 ==> SkipLength(s + rest, l) == Ok(rest)
  {
    assert (s + rest)[..|s|] == s && (s + rest)[|s|..] == rest;
  }

  lemma LengthRead(n: nat, rest: seq<byte>, l: Layout, plain: bool)
    requires Smooth(l, plain)
    requires n < INT32_LIMIT
    ensures ReadLength(Le(n, 4) + rest, l) == Ok(Parsed(n, rest))
  {
    hide Le, FromLe, Pow256, ReadBytes;
    Widths();
    LeRoundTrip(n, 4);
    BytesRead(Le(n, 4), rest, l, plain);
  }

  lemma {:induction false} CharsRead(s: seq<byte>, rest: seq<byte>, st: Utf8.State, l: Layout, plain: bool)
    requires Smooth(l, plain)
    requires 0 !in s && Utf8.Scan(st, s) == Some(Utf8.Whole) && (plain ==> Plain(s) && st.Whole?)
    ensures ReadChars((s + [0]) + rest, l, st) == Ok(Parsed(s + [0], rest))
    decreases |s|
  {
    hide Utf8.Step;
    var t := (s + [0]) + rest;
    if s == [] {
      assert t[1..] == rest;
      AsciiStep(0);
    } else {
      assert s[0] in s && t[0] == s[0];
      if plain {
        AsciiStep(s[0]);
      }
      CharsRead(s[1..], rest, Utf8.Step(st, s[0]).value, l, plain);
      assert t[1..] == (s[1..] + [0]) + rest && [s[0]] + (s[1..] + [0]) == s + [0];
    }
  }

  lemma AsciiStep(b: byte)
    requires b < 128
    ensures Utf8.Step(Utf8.Whole, b) == Some(Utf8.Whole)
  {
  }

  lemma NameRead(s: seq<byte>, rest: seq<byte>, expected: seq<byte>, l: Layout, plain: bool)
    requires Smooth(l, plain)
    requires Name(s, plain)
    ensures ReadCString((s + [0]) + rest, l) == Ok(Parsed(s + [0], rest))
    ensures CheckCString((s + [0]) + rest, expected + [0], l) == Passed(Unless(s == expected, MalformedMessage), rest)
  {
    hide ReadChars, Utf8.Scan;
    CharsRead(s, rest, Utf8.Whole, l, plain);
    if s + [0] == expected + [0] {
      assert s == (s + [0])[..|s|] == (expected + [0])[..|expected|] == expected;
    }
  }

  lemma StringRead(s: RawString, rest: seq<byte>, l: Layout, plain: bool)
    requires Smooth(l, plain)
    requires |s.text| + 1 < INT32_LIMIT
    ensures ReadString(Le(|s.text| + 1, 4) + (s.text + ([s.end] + rest)), l) ==
            Outcome(Unless(s.end == 0 && Utf8.Valid(s.text), ViolatedSpec), s.text, rest)
  {
    hide Le, ReadLength, ReadBytes, CheckTermination, Utf8.Valid;
    LengthRead(|s.text| + 1, s.text + ([s.end] + rest), l, plain);
    BytesRead(s.text, [s.end] + rest, l, plain);
    ByteRead(s.end, rest, 0, l, plain);
  }

  lemma StringElemRead(s: RawString, name: seq<byte>, rest: seq<byte>, l: Layout, plain: bool)
    requires Smooth(l, plain)
    requires StringShape(s, plain)
    ensures ReadStringElem(StringText(s) + rest, name, l) == Outcome(StringFault(s, name), s.text, rest)
  {
    hide Le, ReadString, CheckCString, CheckType, Utf8.Valid, Name;
    var t2 := Le(|s.text| + 1, 4) + (s.text + ([s.end] + rest));
    var t1 := (s.name + [0]) + t2;
    assert StringText(s) + rest == [s.kind] + t1;
    ByteRead(s.kind, t1, 2, l, plain);
    NameRead(s.name, t2, name, l, plain);
    StringRead(s, rest, l, plain);
  }

  lemma KeyElemRead(k: RawKey, rest: seq<byte>, l: Layout, plain: bool)
    requires Smooth(l, plain)
    requires Name(k.name, plain) && k.key < Pow256(8)
    ensures ReadKeyElem(KeyText(k) + rest, l) == Outcome(KeyFault(k), k.key, rest)
  {
    hide Le, FromLe, Pow256, CheckCString, CheckType, ReadBytes, Name, KeyName;
    var t2 := Le(k.key, 8) + rest;
    var t1 := (k.name + [0]) + t2;
    assert KeyText(k) + rest == [k.kind] + t1;
    ByteRead(k.kind, t1, 18, l, plain);
    NameRead(k.name, t2, KeyName(), l, plain);
    LeRoundTrip(k.key, 8);
    BytesRead(Le(k.key, 8), rest, l, plain);
  }

  lemma DataElemRead(d: RawData, rest: seq<byte>, total: nat, l: Layout, plain: bool)
    requires Smooth(l, plain)
    requires Name(d.name, plain) && |d.data| < INT32_LIMIT && total >= |d.data| + |rest|
    ensures ReadDataElem(DataText(d) + rest, total, l) == Outcome(DataFault(d), (total - |rest| - |d.data|, |d.data|), rest)
  {
    hide Le, CheckCString, CheckType, ReadByte, ReadLength, Name, DataName;
    var t4 := d.data + rest;
    var t3 := [d.subtype] + t4;
    var t2 := Le(|d.data|, 4) + t3;
    var t1 := (d.name + [0]) + t2;
    assert DataText(d) + rest == [d.kind] + t1;
    ByteRead(d.kind, t1, 5, l, plain);
    NameRead(d.name, t2, DataName(), l, plain);
    LengthRead(|d.data|, t3, l, plain);
    ByteRead(d.subtype, t4, 0, l, plain);
    assert t4[|d.data|..] == rest;
  }

  lemma ItemRead(it: RawItem, rest: seq<byte>, total: nat, l: Layout, plain: bool)
    requires Smooth(l, plain)
    requires ItemShape(it, plain) && total >= |it.data.data| + 1 + |rest|
    ensures ReadItem(ItemText(it) + rest, total, l) == Outcome(ItemFault(it), Some(ItemReport(it, total, |rest|)), rest)
  {
    hide Le, StringText, KeyText, DataText, ReadStringElem, ReadKeyElem, ReadDataElem, ReadCString, ReadByte, ReadLength, CheckTermination, Identifier, Name, StringFault, KeyFault, DataFault, Pow256;
    var t6 := [it.end] + rest;
    var t5 := DataText(it.data) + t6;
    var t4 := KeyText(it.key) + t5;
    var t3 := StringText(it.ident) + t4;
    var t2 := Le(it.length, 4) + t3;
    var t1 := (it.index + [0]) + t2;
    assert ItemText(it) + rest == [it.kind] + t1;
    ByteRead(it.kind, t1, 3, l, plain);
    NameRead(it.index, t2, [], l, plain);
    LengthRead(it.length, t3, l, plain);
    StringElemRead(it.ident, Identifier(), t4, l, plain);
    KeyElemRead(it.key, t5, l, plain);
    DataElemRead(it.data, t6, total, l, plain);
    ByteRead(it.end, rest, 0, l, plain);
  }

  lemma EndRead(rest: seq<byte>, total: nat, l: Layout, plain: bool)
    requires Smooth(l, plain)
    ensures ReadItem([0] + rest, total, l) == Ok(Parsed(None, rest))
    ensures ReadSet([0] + rest, total, l) == Ok(Parsed(None, rest))
  {
    hide ReadByte;
    ByteRead(0, rest, 0, l, plain);
  }

  /** The items of an array that is read until `end` bytes are left. */
  lemma {:induction false} ListRead(items: seq<RawItem>, closed: bool, rest: seq<byte>, total: nat, end: nat, l: Layout, plain: bool)
    requires Smooth(l, plain)
    requires ListShape(items, plain) && total >= |ListText(items)| + |Closing(closed)| + |rest|
    requires if closed then |rest| + 1 > end else |rest| <= end && (items != [] ==> |ItemText(items[|items| - 1])| + |rest| > end)
    ensures ReadItems(ListText(items) + (Closing(closed) + rest), total, end, l) ==
            Outcome(ListFault(items), ListReport(items, total, |Closing(closed)| + |rest|), rest)
  {
    hide ItemText, ItemFault, ItemReport, ReadItem, ItemShape;
    var tail := Closing(closed) + rest;
    if items == [] {
      assert ListText(items) + tail == tail;
      EndRead(rest, total, l, plain);
      assert [] + rest == rest;
    } else {
      var more := ListText(items[1..]) + tail;
      assert ListText(items) + tail == ItemText(items[0]) + more;
      assert items[1..] != [] ==> items[1..][|items[1..]| - 1] == items[|items| - 1];
      LastLong(items);
      ItemLong(items[0]);
      ItemRead(items[0], more, total, l, plain);
      ListRead(items[1..], closed, rest, total, end, l, plain);
    }
  }

  lemma ItemLong(it: RawItem)
    ensures |ItemText(it)| >= |it.data.data| + 1
  {
  }

  lemma {:induction false} LastLong(items: seq<RawItem>)
    requires items != []
    ensures |ListText(items)| >= |ItemText(items[|items| - 1])|
  {
    hide ItemText;
    if |items| > 1 {
      LastLong(items[1..]);
      assert items[1..][|items| - 2] == items[|items| - 1];
    }
  }

  lemma ArrayRead(a: RawArray, rest: seq<byte>, total: nat, l: Layout, plain: bool)
    requires Smooth(l, plain)
    requires Name(a.name, plain) && a.span < INT32_LIMIT && ListShape(a.items, plain) && SpanShape(a)
    requires a.span <= 4 + |ListText(a.items)| + |Closing(a.closed)| + |rest| <= 4 + total
    ensures ReadArray(ArrayText(a) + rest, total, l) ==
            Outcome(ArrayFault(a), ListReport(a.items, total, |Closing(a.closed)| + |rest|), rest)
  {
    hide Le, CheckCString, CheckType, ReadLength, ReadItems, Name, ItemsName, ListText, ListShape, ListReport, ListFault, ItemText;
    var t3 := ListText(a.items) + (Closing(a.closed) + rest);
    var t2 := Le(a.span, 4) + t3;
    var t1 := (a.name + [0]) + t2;
    assert ArrayText(a) + rest == [a.kind] + t1;
    ByteRead(a.kind, t1, 4, l, plain);
    NameRead(a.name, t2, ItemsName(), l, plain);
    LengthRead(a.span, t3, l, plain);
    ListRead(a.items, a.closed, rest, total, |t2| - a.span, l, plain);
  }

  lemma SetRead(s: RawSet, rest: seq<byte>, total: nat, l: Layout, plain: bool)
    requires Smooth(l, plain)
    requires SetShape(s, plain) && s.items.span <= 4 + |ListText(s.items.items)| + |Closing(s.items.closed)| + 1 + |rest| <= 4 + total
    ensures ReadSet(SetText(s) + rest, total, l) == Outcome(SetFault(s), Some(SetReport(s, total, |rest|)), rest)
  {
    hide Le, StringText, ArrayText, ReadStringElem, ReadArray, ReadCString, ReadByte, ReadLength, CheckTermination, Identifier, Name, StringFault, ArrayFault, ListText, ListShape, ListReport, Closing, SpanShape;
    var t5 := [s.end] + rest;
    var t4 := ArrayText(s.items) + t5;
    var t3 := StringText(s.ident) + t4;
    var t2 := Le(s.length, 4) + t3;
    var t1 := (s.index + [0]) + t2;
    assert SetText(s) + rest == [s.kind] + t1;
    ByteRead(s.kind, t1, 3, l, plain);
    NameRead(s.index, t2, [], l, plain);
    LengthRead(s.length, t3, l, plain);
    StringElemRead(s.ident, Identifier(), t4, l, plain);
    ArrayRead(s.items, t5, total, l, plain);
    ByteRead(s.end, rest, 0, l, plain);
  }

  lemma {:induction false} SetListRead(sets: seq<RawSet>, rest: seq<byte>, total: nat, l: Layout, plain: bool)
    requires Smooth(l, plain)
    requires SetListShape(sets, 1 + |rest|, plain) && total >= |SetListText(sets)| + 1 + |rest|
    ensures ReadSets(SetListText(sets) + ([0] + rest), total, l) ==
            Outcome(SetListFault(sets), SetListReport(sets, total, 1 + |rest|), rest)
  {
    hide SetText, SetFault, SetReport, ReadSet, SetShape, Closing, ListText;
    var tail := [0] + rest;
    if sets == [] {
      assert SetListText(sets) + tail == tail;
      EndRead(rest, total, l, plain);
    } else {
      var more := SetListText(sets[1..]) + tail;
      assert SetListText(sets) + tail == SetText(sets[0]) + more;
      SetTextLong(sets[0]);
      SetRead(sets[0], more, total, l, plain);
      SetListRead(sets[1..], rest, total, l, plain);
    }
  }

  lemma SpanRead(q: RawRequest, l: Layout, plain: bool)
    requires Smooth(l, plain)
    requires |q.span| == 4 || (q.span == [] && q.sets == [])
    ensures var t5 := SetListText(q.sets) + ([0] + [q.end]); SkipLength(q.span + t5, l) == Ok(t5)
  {
    if |q.span| == 4 {
      BytesRead(q.span, SetListText(q.sets) + ([0] + [q.end]), l, plain);
    } else {
      assert [] + (SetListText([]) + ([0] + [q.end])) == SetListText([]) + ([0] + [q.end]);
    }
  }

  /** The reader refuses a request for the first thing that is wrong with it, and otherwise reports it. */
  lemma RequestRead(q: RawRequest, l: Layout, plain: bool)
    requires Smooth(l, plain)
    requires Shape(q, plain)
    ensures ReadRequest(Text(q), l) == if Fault(q).Some? then Err(Fault(q).value) else Ok(Report(q))
  {
    hide Le, StringText, SetListText, ReadStringElem, ReadSets, CheckCString, CheckType, ReadByte, ReadLength, SkipLength, NameName, SetsName, Name, StringFault, SetListFault, SetListReport, SetListShape, Utf8.Valid;
    var t5 := SetListText(q.sets) + ([0] + [q.end]);
    var t4 := q.span + t5;
    var t3 := (q.listName + [0]) + t4;
    var t2 := [q.kind] + t3;
    var t1 := StringText(q.name) + t2;
    assert Text(q) == Le(q.length, 4) + t1;
    LengthRead(q.length, t1, l, plain);
    if q.length == |Text(q)| {
      StringElemRead(q.name, NameName(), t2, l, plain);
      ByteRead(q.kind, t3, 4, l, plain);
      NameRead(q.listName, t4, SetsName(), l, plain);
      SpanRead(q, l, plain);
      TextLong(q);
      SetListRead(q.sets, [q.end], q.length, l, plain);
      assert [q.end] + [] == [q.end];
      ByteRead(q.end, [], 0, l, plain);
    }
  }

  // ---------------------------------------------------------------- nothing else is accepted

  lemma ByteWas(t: seq<byte>, l: Layout)
    requires ReadByte(t, l).Ok?
    ensures t == [ReadByte(t, l).value.value] + ReadByte(t, l).value.rest
  {
  }

  lemma BytesWas(t: seq<byte>, n: nat, l: Layout)
    requires n <= |t| && ReadBytes(t, n, l).Ok?
    ensures t == ReadBytes(t, n, l).value.value + ReadBytes(t, n, l).value.rest
  {
  }

  lemma LengthWas(t: seq<byte>, l: Layout)
    requires ReadLength(t, l).Ok?
    ensures var p := ReadLength(t, l).value; p.value < INT32_LIMIT && t == Le(p.value, 4) + p.rest
  {
    hide Le, FromLe, ReadBytes, Pow256;
    BytesWas(t, 4, l);
    LeInverse(ReadBytes(t, 4, l).value.value);
  }

  /** A string that was read ends with its first zero, or the text ends with it. */
  lemma {:induction false} CharsWas(t: seq<byte>, l: Layout, st: Utf8.State)
    requires ReadChars(t, l, st).Ok? && (st.Inside? ==> st.lo > 0)
    ensures var p := ReadChars(t, l, st).value;
            || p.rest == []
            || (p.value != [] && p.value[|p.value| - 1] == 0 && 0 !in p.value[..|p.value| - 1] && Utf8.Scan(st, p.value[..|p.value| - 1]) == Some(Utf8.Whole))
    decreases |t|
  {
    if t != [] && t[0] == 0 {
      NoZeroInside(st);
      assert [0][..0] == [];
    } else if t != [] {
      var next := Utf8.Step(st, t[0]).value;
      Utf8.StepInside(st, t[0]);
      CharsWas(t[1..], l, next);
      var v := ReadChars(t[1..], l, next).value.value;
      hide Utf8.Step;
      if v != [] {
        var n := |v| - 1;
        assert ([t[0]] + v)[..n + 1] == [t[0]] + v[..n];
        Utf8.ScanOne(st, t[0], v[..n]);
      }
    }
  }

  lemma NoZeroInside(st: Utf8.State)
    requires Utf8.Step(st, 0).Some? && (st.Inside? ==> st.lo > 0)
    ensures st == Utf8.Whole
  {
  }

  lemma NameWas(t: seq<byte>, l: Layout) returns (name: seq<byte>)
    requires ReadCString(t, l).Ok? && ReadCString(t, l).value.rest != []
    ensures Name(name, false) && t == (name + [0]) + ReadCString(t, l).value.rest
  {
    hide ReadChars, Utf8.Scan;
    CharsWas(t, l, Utf8.Whole);
    var p := ReadCString(t, l).value;
    name := p.value[..|p.value| - 1];
    assert p.value == name + [0];
    CharsJoin(t, l);
  }

  lemma CharsJoin(t: seq<byte>, l: Layout)
    requires ReadCString(t, l).Ok?
    ensures t == ReadCString(t, l).value.value + ReadCString(t, l).value.rest
  {
  }

  lemma CheckNameWas(t: seq<byte>, name: seq<byte>, l: Layout)
    requires CheckCString(t, name + [0], l).Ok?
    ensures t == (name + [0]) + CheckCString(t, name + [0], l).value
  {
    hide ReadCString;
    CharsJoin(t, l);
  }

  lemma {:induction false} PlainName(s: seq<byte>)
    requires Plain(s)
    ensures Name(s, false)
  {
    if s != [] {
      PlainName(s[1..]);
      assert s == [s[0]] + s[1..];
      assert Utf8.Step(Utf8.Whole, s[0]) == Some(Utf8.Whole);
    }
  }

  lemma StringWas(t: seq<byte>, l: Layout)
    requires ReadString(t, l).Ok?
    ensures var p := ReadString(t, l).value;
            Utf8.Valid(p.value) && |p.value| + 1 < INT32_LIMIT && t == Le(|p.value| + 1, 4) + (p.value + ([0] + p.rest))
  {
    hide Le, ReadLength, ReadBytes, ReadByte, Utf8.Valid;
    LengthWas(t, l);
    var n := ReadLength(t, l).value;
    BytesWas(n.rest, n.value - 1, l);
    ByteWas(ReadBytes(n.rest, n.value - 1, l).value.rest, l);
  }

  lemma StringElemWas(t: seq<byte>, name: seq<byte>, l: Layout) returns (s: RawString)
    requires ReadStringElem(t, name, l).Ok? && Plain(name)
    ensures var p := ReadStringElem(t, name, l).value;
            s.text == p.value && StringShape(s, false) && StringFault(s, name) == None && t == StringText(s) + p.rest
  {
    hide Le, ReadString, CheckCString, ReadByte, Utf8.Valid, Name, Plain;
    var p := ReadStringElem(t, name, l).value;
    s := RawString(2, name, p.value, 0);
    ByteWas(t, l);
    var t1 := CheckType(t, 2, l).value;
    CheckNameWas(t1, name, l);
    var t2 := CheckCString(t1, name + [0], l).value;
    StringWas(t2, l);
    PlainName(name);
    assert StringText(s) + p.rest == [2] + ((name + [0]) + (Le(|p.value| + 1, 4) + (p.value + ([0] + p.rest))));
  }

  lemma KeyElemWas(t: seq<byte>, l: Layout) returns (k: RawKey)
    requires ReadKeyElem(t, l).Ok?
    ensures var p := ReadKeyElem(t, l).value;
            && k.key == p.value < 0x1_0000_0000 && Name(k.name, false) && k.key < Pow256(8) && KeyFault(k) == None && t == KeyText(k) + p.rest
  {
    hide Le, FromLe, CheckCString, ReadByte, ReadBytes, Name, Plain, Pow256, KeyName;
    var p := ReadKeyElem(t, l).value;
    k := RawKey(18, KeyName(), p.value);
    ByteWas(t, l);
    var t1 := CheckType(t, 18, l).value;
    CheckNameWas(t1, KeyName(), l);
    var t2 := CheckCString(t1, KeyName() + [0], l).value;
    BytesWas(t2, 8, l);
    LeInverse(ReadBytes(t2, 8, l).value.value);
    PlainName(KeyName());
    assert KeyText(k) + p.rest == [18] + ((KeyName() + [0]) + (Le(p.value, 8) + p.rest));
  }

  lemma DataElemWas(t: seq<byte>, total: nat, l: Layout) returns (d: RawData)
    requires ReadDataElem(t, total, l).Ok?
    ensures var p := ReadDataElem(t, total, l).value;
            && Name(d.name, false) && |d.data| < INT32_LIMIT && DataFault(d) == None && t == DataText(d) + p.rest
            && total >= |d.data| + |p.rest| && p.value == (total - |p.rest| - |d.data|, |d.data|)
  {
    hide Le, CheckCString, ReadByte, ReadLength, Name, Plain, DataName;
    var p := ReadDataElem(t, total, l).value;
    ByteWas(t, l);
    var t1 := CheckType(t, 5, l).value;
    CheckNameWas(t1, DataName(), l);
    var t2 := CheckCString(t1, DataName() + [0], l).value;
    LengthWas(t2, l);
    var size := ReadLength(t2, l).value;
    ByteWas(size.rest, l);
    var subtype := ReadByte(size.rest, l).value;
    d := RawData(5, DataName(), subtype.value, subtype.rest[..size.value]);
    PlainName(DataName());
    assert subtype.rest == d.data + p.rest;
    assert DataText(d) + p.rest == [5] + ((DataName() + [0]) + (Le(|d.data|, 4) + ([d.subtype] + (d.data + p.rest))));
  }

  lemma EndWas(t: seq<byte>, l: Layout)
    requires CheckTermination(t, l).Ok?
    ensures t == [0] + CheckTermination(t, l).value
  {
  }

  lemma ItemWas(t: seq<byte>, total: nat, l: Layout) returns (it: RawItem)
    requires ReadItem(t, total, l).Ok? && ReadItem(t, total, l).value.value.Some?
    ensures var p := ReadItem(t, total, l).value;
            && ItemShape(it, false) && ItemFault(it) == None && t == ItemText(it) + p.rest
            && total >= |it.data.data| + 1 + |p.rest| && p.value.value == ItemReport(it, total, |p.rest|)
  {
    hide Le, StringText, KeyText, DataText, ReadStringElem, ReadKeyElem, ReadDataElem, ReadCString, ReadByte, ReadLength, CheckTermination, Identifier, Name, StringFault, KeyFault, DataFault, Pow256, Plain;
    var p := ReadItem(t, total, l).value;
    ByteWas(t, l);
    var kind := ReadByte(t, l).value;
    var index := NameWas(kind.rest, l);
    var name := ReadCString(kind.rest, l).value;
    LengthWas(name.rest, l);
    var length := ReadLength(name.rest, l).value;
    var ident := StringElemWas(length.rest, Identifier(), l);
    var t3 := ReadStringElem(length.rest, Identifier(), l).value.rest;
    var key := KeyElemWas(t3, l);
    var t4 := ReadKeyElem(t3, l).value.rest;
    var data := DataElemWas(t4, total, l);
    EndWas(ReadDataElem(t4, total, l).value.rest, l);
    it := RawItem(3, index, length.value, ident, key, data, 0);
    assert ItemText(it) + p.rest ==
           [3] + ((index + [0]) + (Le(length.value, 4) + (StringText(ident) + (KeyText(key) + (DataText(data) + ([0] + p.rest))))));
  }

  lemma NoneWas(t: seq<byte>, total: nat, l: Layout)
    ensures ReadItem(t, total, l).Ok? && ReadItem(t, total, l).value.value.None? ==> t == [0] + ReadItem(t, total, l).value.rest
    ensures ReadSet(t, total, l).Ok? && ReadSet(t, total, l).value.value.None? ==> t == [0] + ReadSet(t, total, l).value.rest
  {
    hide ReadStringElem, ReadKeyElem, ReadDataElem, ReadCString, ReadLength, CheckTermination, ReadArray;
  }

  /** Items that were read until `end` bytes were left: they are `items`, and the text goes on with `rest`. */
  ghost predicate ListFound(t: seq<byte>, items: seq<RawItem>, closed: bool, rest: seq<byte>, end: nat) {
    && ListShape(items, false) && ListFault(items) == None && t == ListText(items) + (Closing(closed) + rest)
    && if closed then |rest| + 1 > end else |rest| <= end && (items != [] ==> |ItemText(items[|items| - 1])| + |rest| > end)
  }

  lemma FoundNone(t: seq<byte>, rest: seq<byte>, closed: bool, end: nat)
    requires t == Closing(closed) + rest && if closed then |rest| + 1 > end else |rest| <= end
    ensures ListFound(t, [], closed, rest, end)
  {
    assert [] + t == t;
  }

  lemma FoundMore(t: seq<byte>, it: RawItem, more: seq<byte>, items: seq<RawItem>, closed: bool, rest: seq<byte>, end: nat)
    requires ItemShape(it, false) && ItemFault(it) == None && t == ItemText(it) + more && |t| > end && ListFound(more, items, closed, rest, end)
    ensures ListFound(t, [it] + items, closed, rest, end) && ([it] + items)[1..] == items
  {
    hide ItemText, ItemFault, ItemShape;
    var all := [it] + items;
    assert all[1..] == items;
    assert ListText(all) + (Closing(closed) + rest) == ItemText(it) + (ListText(items) + (Closing(closed) + rest));
    if items == [] {
      assert more == Closing(closed) + rest;
    } else {
      assert all[|all| - 1] == items[|items| - 1];
    }
  }

  lemma {:induction false} ListWas(t: seq<byte>, total: nat, end: nat, l: Layout) returns (items: seq<RawItem>, closed: bool)
    requires ReadItems(t, total, end, l).Ok? && total >= |t|
    ensures var p := ReadItems(t, total, end, l).value;
            ListFound(t, items, closed, p.rest, end) && p.value == ListReport(items, total, |Closing(closed)| + |p.rest|)
    decreases |t|
  {
    hide ItemText, ItemFault, ItemReport, ReadItem, ItemShape, ListShape, ListFault;
    var p := ReadItems(t, total, end, l).value;
    if |t| <= end {
      items, closed := [], false;
      assert [] + t == t;
      FoundNone(t, t, false, end);
    } else if ReadItem(t, total, l).value.value.None? {
      items, closed := [], true;
      NoneWas(t, total, l);
      FoundNone(t, p.rest, true, end);
    } else {
      var it := ItemWas(t, total, l);
      var more := ReadItem(t, total, l).value.rest;
      var rest, c := ListWas(more, total, end, l);
      items, closed := [it] + rest, c;
      FoundMore(t, it, more, rest, c, p.rest, end);
    }
  }

  lemma ArrayWas(t: seq<byte>, total: nat, l: Layout) returns (a: RawArray)
    requires ReadArray(t, total, l).Ok? && total >= |t|
    ensures var p := ReadArray(t, total, l).value;
            && Name(a.name, false) && a.span < INT32_LIMIT && ListShape(a.items, false) && SpanShape(a) && ArrayFault(a) == None && t == ArrayText(a) + p.rest
            && a.span <= 4 + |ListText(a.items)| + |Closing(a.closed)| + |p.rest| <= |t|
            && p.value == ListReport(a.items, total, |Closing(a.closed)| + |p.rest|)
  {
    hide Le, CheckCString, ReadByte, ReadLength, ReadItems, Name, ItemsName, ListText, ListShape, ListReport, ListFault, ItemText, Plain;
    var p := ReadArray(t, total, l).value;
    ByteWas(t, l);
    var t1 := CheckType(t, 4, l).value;
    CheckNameWas(t1, ItemsName(), l);
    var t2 := CheckCString(t1, ItemsName() + [0], l).value;
    LengthWas(t2, l);
    var span := ReadLength(t2, l).value;
    var items, closed := ListWas(span.rest, total, |t2| - span.value, l);
    a := RawArray(4, ItemsName(), span.value, items, closed);
    PlainName(ItemsName());
    assert ArrayText(a) + p.rest == [4] + ((ItemsName() + [0]) + (Le(span.value, 4) + (ListText(items) + (Closing(closed) + p.rest))));
  }

  lemma SetWas(t: seq<byte>, total: nat, l: Layout) returns (s: RawSet)
    requires ReadSet(t, total, l).Ok? && ReadSet(t, total, l).value.value.Some? && total >= |t|
    ensures var p := ReadSet(t, total, l).value;
            && SetShape(s, false) && SetFault(s) == None && t == SetText(s) + p.rest
            && s.items.span <= 4 + |ListText(s.items.items)| + |Closing(s.items.closed)| + 1 + |p.rest| <= |t|
            && p.value.value == SetReport(s, total, |p.rest|)
  {
    hide Le, StringText, ArrayText, ReadStringElem, ReadArray, ReadCString, ReadByte, ReadLength, CheckTermination, Identifier, Name, StringFault, ArrayFault, ListText, ListShape, ListReport, Closing, SpanShape, Plain;
    var p := ReadSet(t, total, l).value;
    ByteWas(t, l);
    var kind := ReadByte(t, l).value;
    var index := NameWas(kind.rest, l);
    var name := ReadCString(kind.rest, l).value;
    LengthWas(name.rest, l);
    var length := ReadLength(name.rest, l).value;
    var ident := StringElemWas(length.rest, Identifier(), l);
    var t3 := ReadStringElem(length.rest, Identifier(), l).value.rest;
    var items := ArrayWas(t3, total, l);
    EndWas(ReadArray(t3, total, l).value.rest, l);
    s := RawSet(3, index, length.value, ident, items, 0);
    assert SetText(s) + p.rest == [3] + ((index + [0]) + (Le(length.value, 4) + (StringText(ident) + (ArrayText(items) + ([0] + p.rest)))));
  }

  ghost predicate SetsFound(t: seq<byte>, sets: seq<RawSet>, rest: seq<byte>) {
    SetListShape(sets, 1 + |rest|, false) && SetListFault(sets) == None && t == SetListText(sets) + ([0] + rest)
  }

  lemma FoundSet(t: seq<byte>, s: RawSet, more: seq<byte>, sets: seq<RawSet>, rest: seq<byte>)
    requires SetShape(s, false) && SetFault(s) == None && t == SetText(s) + more && SetsFound(more, sets, rest)
    requires s.items.span <= 4 + |ListText(s.items.items)| + |Closing(s.items.closed)| + 1 + |more|
    ensures SetsFound(t, [s] + sets, rest) && ([s] + sets)[1..] == sets
  {
    hide SetText, SetFault, SetShape, Closing, ListText;
    var all := [s] + sets;
    assert all[1..] == sets;
    assert SetListText(all) + ([0] + rest) == SetText(s) + (SetListText(sets) + ([0] + rest));
  }

  lemma NoSetsFound(rest: seq<byte>)
    ensures SetsFound([0] + rest, [], rest)
  {
    assert [] + ([0] + rest) == [0] + rest;
  }

  lemma {:induction false} SetListWas(t: seq<byte>, total: nat, l: Layout) returns (sets: seq<RawSet>)
    requires ReadSets(t, total, l).Ok? && ReadSets(t, total, l).value.rest != [] && total >= |t|
    ensures var p := ReadSets(t, total, l).value;
            SetsFound(t, sets, p.rest) && p.value == SetListReport(sets, total, 1 + |p.rest|)
    decreases |t|
  {
    hide SetText, SetFault, SetReport, ReadSet, SetShape, Closing, ListText, SetListShape, SetListFault;
    var p := ReadSets(t, total, l).value;
    if ReadSet(t, total, l).value.value.None? {
      sets := [];
      NoneWas(t, total, l);
      NoSetsFound(p.rest);
    } else {
      var s := SetWas(t, total, l);
      var more := ReadSet(t, total, l).value.rest;
      var rest := SetListWas(more, total, l);
      sets := [s] + rest;
      FoundSet(t, s, more, rest, p.rest);
      SetTextLong(s);
    }
  }

  lemma SkipWas(t: seq<byte>, l: Layout) returns (span: seq<byte>)
    requires SkipLength(t, l).Ok?
    ensures t == span + SkipLength(t, l).value && (|span| == 4 || (span == [] && |t| < 4))
  {
    if |t| < 4 {
      span := [];
    } else {
      span := t[..4];
    }
  }

  /** Whatever is accepted, from frames cut in any way, is a request without fault, and what is reported
      is what it says. */
  lemma RequestWas(t: seq<byte>, l: Layout) returns (q: RawRequest)
    requires ReadRequest(t, l).Ok?
    ensures Shape(q, false) && Fault(q) == None && Text(q) == t && ReadRequest(t, l) == Ok(Report(q))
  {
    hide Le, StringText, SetListText, ReadStringElem, ReadSets, CheckCString, ReadByte, ReadLength, SkipLength, NameName, SetsName, Name, StringFault, SetListFault, SetListReport, SetListShape, Utf8.Valid, Plain;
    LengthWas(t, l);
    var length := ReadLength(t, l).value;
    var name := StringElemWas(length.rest, NameName(), l);
    var t1 := ReadStringElem(length.rest, NameName(), l).value.rest;
    ByteWas(t1, l);
    var t2 := CheckType(t1, 4, l).value;
    CheckNameWas(t2, SetsName(), l);
    PlainName(SetsName());
    var t3 := CheckCString(t2, SetsName() + [0], l).value;
    var span := SkipWas(t3, l);
    var t4 := SkipLength(t3, l).value;
    ByteWas(ReadSets(t4, length.value, l).value.rest, l);
    var sets := SetListWas(t4, length.value, l);
    q := RawRequest(length.value, name, 4, SetsName(), span, sets, 0);
    assert ReadSets(t4, length.value, l).value.rest == [0];
    ShortSets(sets, t4);
    assert Text(q) == t;
  }

  lemma ShortSets(sets: seq<RawSet>, t: seq<byte>)
    requires t == SetListText(sets) + ([0] + [0])
    ensures |t| < 4 ==> sets == []
  {
    hide Le, StringText, ArrayText;
  }

  // ---------------------------------------------------------------- what is reported is there

  ghost predicate DataAt(t: seq<byte>, d: DataItem, it: RawItem) {
    && d.ident == it.ident.text && d.key == it.key.key && d.size == |it.data.data| && d.offset + d.size < |t|
    && t[d.offset..d.offset + d.size] == it.data.data
  }

  lemma ItemEnds(it: RawItem) returns (front: seq<byte>)
    ensures ItemText(it) == front + (it.data.data + [it.end])
  {
    hide Le, StringText, KeyText;
    front := [it.kind] + ((it.index + [0]) + (Le(it.length, 4) + (StringText(it.ident) + (KeyText(it.key)
             + ([it.data.kind] + ((it.data.name + [0]) + (Le(|it.data.data|, 4) + [it.data.subtype])))))));
  }

  lemma ItemData(pre: seq<byte>, it: RawItem, post: seq<byte>, t: seq<byte>)
    requires t == pre + (ItemText(it) + post)
    ensures |t| >= |it.data.data| + 1 + |post| && DataAt(t, ItemReport(it, |t|, |post|), it)
  {
    hide ItemText;
    var front := ItemEnds(it);
    var n := |pre| + |front|;
    assert t == (pre + front) + (it.data.data + ([it.end] + post));
    assert |pre + front| == n && t[n..n + |it.data.data|] == it.data.data;
  }

  lemma {:induction false} ListData(pre: seq<byte>, items: seq<RawItem>, post: seq<byte>, t: seq<byte>, k: nat)
    requires t == pre + (ListText(items) + post) && k < |items|
    ensures |ListReport(items, |t|, |post|)| == |items| && DataAt(t, ListReport(items, |t|, |post|)[k], items[k])
    decreases |items|
  {
    hide ItemText, DataAt, ItemReport;
    var more := ListText(items[1..]) + post;
    assert t == pre + (ItemText(items[0]) + more);
    assert t == (pre + ItemText(items[0])) + more;
    ReportSize(items, |t|, |post|);
    if k == 0 {
      ItemData(pre, items[0], more, t);
    } else {
      ListData(pre + ItemText(items[0]), items[1..], post, t, k - 1);
    }
  }

  lemma {:induction false} ReportSize(items: seq<RawItem>, total: nat, r: nat)
    requires total >= |ListText(items)| + r
    ensures |ListReport(items, total, r)| == |items|
  {
    hide ItemReport, ItemText;
    if items != [] {
      ReportSize(items[1..], total, r);
    }
  }

  /** The set is reported with its name and all its items. */
  ghost predicate SetAt(t: seq<byte>, d: DataSet, s: RawSet) {
    d.ident == s.ident.text && |d.items| == |s.items.items| && forall k: nat :: k < |d.items| ==> DataAt(t, d.items[k], s.items.items[k])
  }

  lemma SetEnds(s: RawSet) returns (front: seq<byte>)
    ensures SetText(s) == front + (ListText(s.items.items) + (Closing(s.items.closed) + [s.end]))
  {
    hide Le, StringText, ListText, Closing;
    front := [s.kind] + ((s.index + [0]) + (Le(s.length, 4) + (StringText(s.ident) + ([s.items.kind] + ((s.items.name + [0]) + Le(s.items.span, 4))))));
  }

  lemma SetData(pre: seq<byte>, s: RawSet, post: seq<byte>, t: seq<byte>)
    requires t == pre + (SetText(s) + post)
    ensures |t| >= |ListText(s.items.items)| + |Closing(s.items.closed)| + 1 + |post| && SetAt(t, SetReport(s, |t|, |post|), s)
  {
    hide SetText, ListText, DataAt, ListReport;
    var front := SetEnds(s);
    var items, tail := s.items.items, Closing(s.items.closed) + ([s.end] + post);
    assert t == (pre + front) + (ListText(items) + tail);
    ReportSize(items, |t|, |tail|);
    forall k: nat | k < |items| ensures DataAt(t, ListReport(items, |t|, |tail|)[k], items[k]) {
      ListData(pre + front, items, tail, t, k);
    }
  }

  lemma {:induction false} SetListData(pre: seq<byte>, sets: seq<RawSet>, post: seq<byte>, t: seq<byte>)
    requires t == pre + (SetListText(sets) + post)
    ensures |SetListReport(sets, |t|, |post|)| == |sets|
    ensures forall i: nat :: i < |sets| ==> SetAt(t, SetListReport(sets, |t|, |post|)[i], sets[i])
    decreases |sets|
  {
    hide SetText, SetAt, SetReport;
    if sets != [] {
      var more := SetListText(sets[1..]) + post;
      assert t == pre + (SetText(sets[0]) + more);
      assert t == (pre + SetText(sets[0])) + more;
      SetData(pre, sets[0], more, t);
      SetListData(pre + SetText(sets[0]), sets[1..], post, t);
    }
  }

  /** All sets and items of a request are reported, and the data of every item is where the report says. */
  lemma RequestData(q: RawRequest)
    ensures |Report(q).sets| == |q.sets| && forall i: nat :: i < |q.sets| ==> SetAt(Text(q), Report(q).sets[i], q.sets[i])
  {
    hide Le, StringText, SetListText, SetAt, SetListReport;
    TextLong(q);
    var front := Le(q.length, 4) + (StringText(q.name) + ([q.kind] + ((q.listName + [0]) + q.span)));
    assert Text(q) == front + (SetListText(q.sets) + ([0] + [q.end]));
    SetListData(front, q.sets, [0] + [q.end], Text(q));
  }

  // ---------------------------------------------------------------- the reader as a whole

  /** The bytes are those of a request without fault, and the report is about that request. */
  ghost predicate Accepted(t: seq<byte>, r: Request) {
    exists q: RawRequest :: Describes(q, t, r)
  }

  ghost predicate Describes(q: RawRequest, t: seq<byte>, r: Request) {
    && Shape(q, false) && Fault(q) == None && Text(q) == t && r.name == q.name.text
    && |r.sets| == |q.sets| && forall i: nat :: i < |q.sets| ==> SetAt(t, r.sets[i], q.sets[i])
  }

  ghost predicate KeysBelow(r: Request, limit: nat) {
    forall i: nat, k: nat :: i < |r.sets| && k < |r.sets[i].items| ==> r.sets[i].items[k].key < limit
  }

  lemma {:induction false} ListKeys(items: seq<RawItem>, k: nat)
    requires ListFault(items) == None && k < |items|
    ensures ItemFault(items[k]) == None
  {
    hide ItemFault;
    if k > 0 {
      ListKeys(items[1..], k - 1);
    }
  }

  lemma {:induction false} SetListFaults(sets: seq<RawSet>, i: nat)
    requires SetListFault(sets) == None && i < |sets|
    ensures SetFault(sets[i]) == None
  {
    hide SetFault;
    if i > 0 {
      SetListFaults(sets[1..], i - 1);
    }
  }

  lemma KeySmall(q: RawRequest, i: nat, k: nat)
    requires Fault(q) == None && i < |q.sets| && k < |q.sets[i].items.items|
    ensures q.sets[i].items.items[k].key.key < 0x1_0000_0000
  {
    hide StringFault, DataFault, Text, ListFault, SetListFault, KeyName;
    SetListFaults(q.sets, i);
    ListKeys(q.sets[i].items.items, k);
  }

  /** From frames cut in any way, only requests without fault are accepted; all their keys are below
      2^32, and in one piece they are accepted as well, with the same report. */
  lemma OnlyRequests(t: seq<byte>, l: Layout)
    ensures ReadRequest(t, l).Ok? ==>
              && Accepted(t, ReadRequest(t, l).value) && KeysBelow(ReadRequest(t, l).value, 0x1_0000_0000)
              && ReadRequest(t, OnePiece()) == ReadRequest(t, l)
  {
    hide ReadRequest, Text, Shape, Fault, SetAt;
    if ReadRequest(t, l).Ok? {
      var r := ReadRequest(t, l).value;
      var q := RequestWas(t, l);
      RequestData(q);
      RequestRead(q, OnePiece(), false);
      assert Describes(q, t, r);
      forall i: nat, k: nat | i < |r.sets| && k < |r.sets[i].items| ensures r.sets[i].items[k].key < 0x1_0000_0000 {
        assert SetAt(t, r.sets[i], q.sets[i]);
        ReportedKey(t, r.sets[i], q.sets[i], k);
        KeySmall(q, i, k);
      }
    }
  }

  lemma ReportedKey(t: seq<byte>, d: DataSet, s: RawSet, k: nat)
    requires SetAt(t, d, s) && k < |d.items|
    ensures k < |s.items.items| && d.items[k].key == s.items.items[k].key.key
  {
    assert DataAt(t, d.items[k], s.items.items[k]);
  }

  /** A key of 2^32 or more, or one that is negative as a signed number, is refused. */
  lemma KeyRefused(it: RawItem, rest: seq<byte>, total: nat)
    requires ItemShape(it, false) && total >= |it.data.data| + 1 + |rest|
    requires it.kind == 3 && StringFault(it.ident, Identifier()) == None && it.key.kind == 18 && it.key.name == KeyName()
    ensures it.key.key >= 0x1_0000_0000 ==> ReadItem(ItemText(it) + rest, total, OnePiece()) == Err(MalformedMessage)
  {
    hide ReadItem, ItemText, ItemShape, StringFault, Identifier;
    ItemRead(it, rest, total, OnePiece(), false);
  }

  /** A wrong closing byte is refused: that of an item, … */
  lemma ItemEndRefused(it: RawItem, rest: seq<byte>, total: nat)
    requires ItemShape(it, false) && total >= |it.data.data| + 1 + |rest| && ItemFault(it.(end := 0)) == None
    ensures it.end != 0 ==> ReadItem(ItemText(it) + rest, total, OnePiece()) == Err(ViolatedSpec)
  {
    hide ReadItem, ItemText, ItemShape, StringFault, KeyFault, DataFault;
    ItemRead(it, rest, total, OnePiece(), false);
  }

  /** … of a set, … */
  lemma SetEndRefused(s: RawSet, rest: seq<byte>, total: nat)
    requires SetShape(s, false) && SetFault(s.(end := 0)) == None
    requires s.items.span <= 4 + |ListText(s.items.items)| + |Closing(s.items.closed)| + 1 + |rest| <= 4 + total
    ensures s.end != 0 ==> ReadSet(SetText(s) + rest, total, OnePiece()) == Err(ViolatedSpec)
  {
    hide ReadSet, SetText, SetShape, StringFault, ArrayFault;
    SetRead(s, rest, total, OnePiece(), false);
  }

  /** … and of the request. */
  lemma EndRefused(q: RawRequest)
    requires Shape(q, false) && Fault(q.(end := 0)) == None
    ensures q.end != 0 ==> ReadRequest(Text(q), OnePiece()) == Err(ViolatedSpec)
  {
    hide ReadRequest, Shape, StringFault, SetListFault;
    RequestRead(q, OnePiece(), false);
    SameSize(q);
  }

  lemma SameSize(q: RawRequest)
    ensures |Text(q.(end := 0))| == |Text(q)|
  {
    hide Le, StringText, SetListText;
  }

  /** No proper prefix of a request is accepted. */
  lemma PrefixRefused(t: seq<byte>, l: Layout, n: nat)
    requires ReadRequest(t, l).Ok? && n < |t|
    ensures ReadRequest(t[..n], OnePiece()) == Err(if n < 4 then StreamEnd else ViolatedSpec)
  {
    hide FromLe, ReadStringElem, CheckType, CheckCString, SkipLength, ReadSets, ReadByte;
    if n >= 4 {
      assert t[..n][..4] == t[..4];
    }
  }
}
