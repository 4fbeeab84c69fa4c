/** The BSON texts of requests and responses, and the reader for them, as functions on bytes. */
module Bson {
  import opened Common
  import Utf8

  datatype WireItem = WireItem(ident: seq<byte>, key: nat, data: seq<byte>)

  datatype WireSet = WireSet(ident: seq<byte>, items: seq<WireItem>)

  // ---------------------------------------------------------------- numbers

  const INT32_LIMIT: nat := 0x8000_0000
  const UINT32_LIMIT: nat := 0x1_0000_0000

  /** The `k` lowest bytes of a number, lowest first. */
  function Le(n: nat, k: nat): (s: seq<byte>)
    ensures |s| == k
  {
    if k == 0 then [] else [n % 256] + Le(n / 256, k - 1)
  }

  function FromLe(s: seq<byte>): nat {
    if s == [] then 0 else s[0] + 256 * FromLe(s[1..])
  }

  function Pow256(k: nat): nat {
    if k == 0 then 1 else 256 * Pow256(k - 1)
  }

  /** ASCII without zeros. */
  predicate Plain(s: seq<byte>) {
    forall i: nat :: i < |s| ==> 0 < s[i] < 128
  }

  function Ascii(text: string): (s: seq<byte>)
    requires forall i: nat :: i < |text| ==> text[i] as int < 128
    ensures |s| == |text| && forall i: nat :: i < |text| ==> s[i] == text[i] as int
  {
    seq(|text|, i requires 0 <= i < |text| => text[i] as int)
  }

  /** The number that decimal digits stand for. */
  function Decimal(s: seq<byte>): int {
    if s == [] then 0 else 10 * Decimal(s[..|s| - 1]) + s[|s| - 1] - 48
  }

  /** The decimal numeral of a number, without leading zeros. */
  function Digits(n: nat): (s: seq<byte>)
    ensures Plain(s) && Decimal(s) == n
    ensures s != [] && (forall i: nat :: i < |s| ==> 48 <= s[i] <= 57) && (|s| > 1 ==> s[0] != 48)
    ensures n == 0 ==> s == [48]
    ensures n > 0 ==> s[0] != 48
  {
    if n < 10 then [48 + n]
    else
      var front := Digits(n / 10);
      assert (front + [48 + n % 10])[..|front|] == front;
      front + [48 + n % 10]
  }

  lemma {:induction false} LeRoundTrip(n: nat, k: nat)
    requires n < Pow256(k)
    ensures FromLe(Le(n, k)) == n
  {
    if k > 0 {
      LeRoundTrip(n / 256, k - 1);
      assert Le(n, k)[1..] == Le(n / 256, k - 1);
    }
  }

  lemma {:induction false} LeInverse(s: seq<byte>)
    ensures FromLe(s) < Pow256(|s|) && Le(FromLe(s), |s|) == s
  {
    if s != [] {
      LeInverse(s[1..]);
      assert s == [s[0]] + s[1..];
      Quotient(FromLe(s), 256, FromLe(s[1..]), s[0]);
    }
  }

  /** Byte `i` of a number, counted from the lowest. */
  lemma {:induction false} LeByte(n: nat, k: nat, i: nat)
    requires i < k
    ensures Pow256(i) > 0 && Le(n, k)[i] == n / Pow256(i) % 256
  {
    PowPositive(i);
    if i > 0 {
      LeByte(n / 256, k - 1, i - 1);
      PowPositive(i - 1);
      DivTwice(n, Pow256(i - 1));
    }
  }

  lemma {:induction false} PowPositive(i: nat)
    ensures Pow256(i) > 0
  {
    if i > 0 {
      PowPositive(i - 1);
    }
  }

  lemma DivTwice(n: nat, p: nat)
    requires p > 0
    ensures n / 256 / p == n / (256 * p)
  {
    var q, r := n / 256 / p, n / 256 % p;
    assert n == 256 * (p * q + r) + n % 256;
    assert 256 * (p * q + r) == (256 * p) * q + 256 * r;
    Quotient(n, 256 * p, q, 256 * r + n % 256);
  }

  lemma Widths()
    ensures Pow256(4) == UINT32_LIMIT && Pow256(8) >= UINT32_LIMIT
  {
    assert Pow256(2) == 65536;
    assert Pow256(4) == 256 * (256 * Pow256(2));
    assert Pow256(6) == 256 * (256 * Pow256(4));
    assert Pow256(8) == 256 * (256 * Pow256(6));
  }

  // ---------------------------------------------------------------- texts

  function Identifier(): (s: seq<byte>)
    ensures Plain(s) && |s| == 10
  {
    Ascii("identifier")
  }

  function KeyName(): (s: seq<byte>)
    ensures Plain(s) && |s| == 3
  {
    Ascii("key")
  }

  function DataName(): (s: seq<byte>)
    ensures Plain(s) && |s| == 4
  {
    Ascii("data")
  }

  function ItemsName(): (s: seq<byte>)
    ensures Plain(s) && |s| == 5
  {
    Ascii("items")
  }

  function SetsName(): (s: seq<byte>)
    ensures Plain(s) && |s| == 4
  {
    Ascii("sets")
  }

  function NameName(): (s: seq<byte>)
    ensures Plain(s) && |s| == 4
  {
    Ascii("name")
  }

  /** A document: its own length, its elements, and a closing zero. */
  function Document(elements: seq<byte>): seq<byte> {
    Le(|elements| + 5, 4) + elements + [0]
  }

  function StringElem(name: seq<byte>, s: seq<byte>): seq<byte> {
    [2] + (name + [0]) + Le(|s| + 1, 4) + s + [0]
  }

  function KeyElem(key: nat): seq<byte> {
    [18] + (KeyName() + [0]) + Le(key, 8)
  }

  function DataElem(data: seq<byte>): seq<byte> {
    [5] + (DataName() + [0]) + Le(|data|, 4) + [0] + data
  }

  function ArrayElem(name: seq<byte>, elements: seq<byte>): seq<byte> {
    [4] + (name + [0]) + Document(elements)
  }

  /** A document as element of an array, named by its index. */
  function IndexedElem(index: nat, elements: seq<byte>): seq<byte> {
    [3] + (Digits(index) + [0]) + Document(elements)
  }

  function ItemBody(it: WireItem): seq<byte> {
    StringElem(Identifier(), it.ident) + KeyElem(it.key) + DataElem(it.data)
  }

  function ItemsText(items: seq<WireItem>, index: nat): seq<byte> {
    if items == [] then [] else IndexedElem(index, ItemBody(items[0])) + ItemsText(items[1..], index + 1)
  }

  function SetBody(s: WireSet): seq<byte> {
    StringElem(Identifier(), s.ident) + ArrayElem(ItemsName(), ItemsText(s.items, 0))
  }

  function SetsText(sets: seq<WireSet>, index: nat): seq<byte> {
    if sets == [] then [] else IndexedElem(index, SetBody(sets[0])) + SetsText(sets[1..], index + 1)
  }

  function ResponseText(sets: seq<WireSet>): seq<byte> {
    Document(ArrayElem(SetsName(), SetsText(sets, 0)))
  }

  function RequestText(name: seq<byte>, sets: seq<WireSet>): seq<byte> {
    Document(StringElem(NameName(), name) + ArrayElem(SetsName(), SetsText(sets, 0)))
  }

  // ---------------------------------------------------------------- reading

  /** How a text is cut into frames, counted in bytes to its end: where frames begin, and where there
      are empty frames. */
  datatype Layout = Layout(cuts: set<nat>, stops: set<nat>)

  /** The text in one piece. */
  function OnePiece(): Layout {
    Layout({}, {})
  }

  /** No empty frame lies between `hi` and `lo` bytes before the end, or right at `hi`. */
  predicate Clear(l: Layout, lo: nat, hi: nat) {
    forall r :: r in l.stops ==> !(lo < r <= hi)
  }

  /** A value and what is left of the text behind it. */
  datatype Parsed<T> = Parsed(value: T, rest: seq<byte>)

  /** An item as the reader reports it: where its data is, not the data itself. */
  datatype DataItem = DataItem(ident: seq<byte>, key: nat, offset: nat, size: nat)

  datatype DataSet = DataSet(ident: seq<byte>, items: seq<DataItem>)

  /** A single byte; on an empty frame there is none, and the access aborts. */
  function ReadByte(t: seq<byte>, l: Layout): (r: Result<Parsed<byte>>)
    ensures r.Ok? ==> |r.value.rest| < |t|
  {
    if t == [] then Err(StreamEnd) else if |t| in l.stops then Err(Panic) else Ok(Parsed(t[0], t[1..]))
  }

  /** Several bytes, frame after frame; on an empty frame this makes no progress. */
  function ReadBytes(t: seq<byte>, n: nat, l: Layout): (r: Result<Parsed<seq<byte>>>)
    requires n <= |t|
    ensures r.Ok? ==> |r.value.value| == n && |r.value.rest| == |t| - n
  {
    if Clear(l, |t| - n, |t|) then Ok(Parsed(t[..n], t[n..])) else Err(Stuck)
  }

  function CheckType(t: seq<byte>, expected: byte, l: Layout): (r: Result<seq<byte>>)
    ensures r.Ok? ==> |r.value| < |t|
  {
    var p :- ReadByte(t, l);
    if p.value == expected then Ok(p.rest) else Err(MalformedMessage)
  }

  function CheckTermination(t: seq<byte>, l: Layout): (r: Result<seq<byte>>)
    ensures r.Ok? ==> |r.value| < |t|
  {
    var p :- ReadByte(t, l);
    if p.value == 0 then Ok(p.rest) else Err(ViolatedSpec)
  }

  /** A length is a signed number of four bytes that must not be negative. */
  function ReadLength(t: seq<byte>, l: Layout): (r: Result<Parsed<nat>>)
    ensures r.Ok? ==> |r.value.rest| < |t|
  {
    if |t| < 4 then Err(StreamEnd)
    else
      var p :- ReadBytes(t, 4, l);
      if FromLe(p.value) >= INT32_LIMIT then Err(ViolatedSpec) else Ok(Parsed(FromLe(p.value), p.rest))
  }

  /** Everything up to and including the first zero, or all of the text, after a part that ended in
      state `st`. Each frame's part must be UTF-8 by itself. */
  function ReadChars(t: seq<byte>, l: Layout, st: Utf8.State): (r: Result<Parsed<seq<byte>>>)
    ensures r.Ok? ==> r.value.value + r.value.rest == t
    decreases |t|
  {
    if !st.Whole? && (t == [] || |t| in l.cuts) then Err(Panic)
    else if t == [] then Ok(Parsed([], []))
    else if |t| in l.stops then Err(Stuck)
    else
      var next := Utf8.Step(st, t[0]);
      if next.None? then Err(Panic)
      else if t[0] == 0 then Ok(Parsed([0], t[1..]))
      else
        var p :- ReadChars(t[1..], l, next.value);
        Ok(Parsed([t[0]] + p.value, p.rest))
  }

  function ReadCString(t: seq<byte>, l: Layout): (r: Result<Parsed<seq<byte>>>)
    ensures r.Ok? ==> |r.value.rest| <= |t|
  {
    ReadChars(t, l, Utf8.Whole)
  }

  function CheckCString(t: seq<byte>, expected: seq<byte>, l: Layout): (r: Result<seq<byte>>)
    ensures r.Ok? ==> |r.value| <= |t|
  {
    var p :- ReadCString(t, l);
    if p.value == expected then Ok(p.rest) else Err(MalformedMessage)
  }

  function ReadString(t: seq<byte>, l: Layout): (r: Result<Parsed<seq<byte>>>)
    ensures r.Ok? ==> |r.value.rest| < |t|
  {
    var n :- ReadLength(t, l);
    if n.value == 0 then Err(Panic)
    else if |n.rest| < n.value - 1 then Err(StreamEnd)
    else
      var s :- ReadBytes(n.rest, n.value - 1, l);
      var rest :- CheckTermination(s.rest, l);
      if Utf8.Valid(s.value) then Ok(Parsed(s.value, rest)) else Err(ViolatedSpec)
  }

  function ReadStringElem(t: seq<byte>, name: seq<byte>, l: Layout): (r: Result<Parsed<seq<byte>>>)
    ensures r.Ok? ==> |r.value.rest| < |t|
  {
    var t1 :- CheckType(t, 2, l);
    var t2 :- CheckCString(t1, name + [0], l);
    ReadString(t2, l)
  }

  function ReadKeyElem(t: seq<byte>, l: Layout): (r: Result<Parsed<nat>>)
    ensures r.Ok? ==> |r.value.rest| < |t|
  {
    var t1 :- CheckType(t, 18, l);
    var t2 :- CheckCString(t1, KeyName() + [0], l);
    if |t2| < 8 then Err(Panic)
    else
      var p :- ReadBytes(t2, 8, l);
      if FromLe(p.value) >= UINT32_LIMIT then Err(MalformedMessage) else Ok(Parsed(FromLe(p.value), p.rest))
  }

  /** The position of the data: as far from the start of the message as the reader has come. The data
      itself is skipped, with any empty frames in it. */
  function ReadDataElem(t: seq<byte>, total: nat, l: Layout): (r: Result<Parsed<(nat, nat)>>)
    ensures r.Ok? ==> |r.value.rest| < |t|
  {
    var t1 :- CheckType(t, 5, l);
    var t2 :- CheckCString(t1, DataName() + [0], l);
    var size :- ReadLength(t2, l);
    var subtype :- ReadByte(size.rest, l);
    if total < |subtype.rest| || |subtype.rest| < size.value then Err(Panic)
    else Ok(Parsed((total - |subtype.rest|, size.value), subtype.rest[size.value..]))
  }

  /** An item, or nothing at the end of the array. */
  function ReadItem(t: seq<byte>, total: nat, l: Layout): (r: Result<Parsed<Option<DataItem>>>)
    ensures r.Ok? ==> |r.value.rest| < |t|
  {
    var kind :- ReadByte(t, l);
    if kind.value == 0 then Ok(Parsed(None, kind.rest))
    else if kind.value != 3 then Err(MalformedMessage)
    else
      var name :- ReadCString(kind.rest, l);
      var length :- ReadLength(name.rest, l);
      var ident :- ReadStringElem(length.rest, Identifier(), l);
      var key :- ReadKeyElem(ident.rest, l);
      var data :- ReadDataElem(key.rest, total, l);
      var rest :- CheckTermination(data.rest, l);
      Ok(Parsed(Some(DataItem(ident.value, key.value, data.value.0, data.value.1)), rest))
  }

  function ReadItems(t: seq<byte>, total: nat, end: nat, l: Layout): (r: Result<Parsed<seq<DataItem>>>)
    ensures r.Ok? ==> |r.value.rest| <= |t|
    decreases |t|
  {
    if |t| <= end then Ok(Parsed([], t))
    else
      var item :- ReadItem(t, total, l);
      if item.value.None? then Ok(Parsed([], item.rest))
      else
        var more :- ReadItems(item.rest, total, end, l);
        Ok(Parsed([item.value.value] + more.value, more.rest))
  }

  /** The array of items; its length says where it ends. */
  function ReadArray(t: seq<byte>, total: nat, l: Layout): (r: Result<Parsed<seq<DataItem>>>)
    ensures r.Ok? ==> |r.value.rest| < |t|
  {
    var t1 :- CheckType(t, 4, l);
    var t2 :- CheckCString(t1, ItemsName() + [0], l);
    var span :- ReadLength(t2, l);
    if |t2| < span.value then Err(Panic) else ReadItems(span.rest, total, |t2| - span.value, l)
  }

  function ReadSet(t: seq<byte>, total: nat, l: Layout): (r: Result<Parsed<Option<DataSet>>>)
    ensures r.Ok? ==> |r.value.rest| < |t|
  {
    var kind :- ReadByte(t, l);
    if kind.value == 0 then Ok(Parsed(None, kind.rest))
    else if kind.value != 3 then Err(MalformedMessage)
    else
      var name :- ReadCString(kind.rest, l);
      var length :- ReadLength(name.rest, l);
      var ident :- ReadStringElem(length.rest, Identifier(), l);
      var items :- ReadArray(ident.rest, total, l);
      var rest :- CheckTermination(items.rest, l);
      Ok(Parsed(Some(DataSet(ident.value, items.value)), rest))
  }

  function ReadSets(t: seq<byte>, total: nat, l: Layout): (r: Result<Parsed<seq<DataSet>>>)
    ensures r.Ok? ==> |r.value.rest| <= |t|
    decreases |t|
  {
    if t == [] then Ok(Parsed([], t))
    else
      var s :- ReadSet(t, total, l);
      if s.value.None? then Ok(Parsed([], s.rest))
      else
        var more :- ReadSets(s.rest, total, l);
        Ok(Parsed([s.value.value] + more.value, more.rest))
  }

  /** The length of the array of sets, which is ignored, whatever it is. */
  function SkipLength(t: seq<byte>, l: Layout): (r: Result<seq<byte>>)
    ensures r.Ok? ==> |r.value| <= |t|
  {
    if |t| < 4 then Ok(t)
    else
      var p :- ReadBytes(t, 4, l);
      Ok(p.rest)
  }

  datatype Request = Request(name: seq<byte>, sets: seq<DataSet>)

  /** A whole message. */
  function ReadRequest(t: seq<byte>, l: Layout): Result<Request> {
    var length :- ReadLength(t, l);
    if |length.rest| + 4 != length.value then Err(ViolatedSpec)
    else
      var name :- ReadStringElem(length.rest, NameName(), l);
      var t1 :- CheckType(name.rest, 4, l);
      var t2 :- CheckCString(t1, SetsName() + [0], l);
      var t3 :- SkipLength(t2, l);
      var sets :- ReadSets(t3, length.value, l);
      var last :- ReadByte(sets.rest, l);
      if last.value != 0 || last.rest != [] then Err(ViolatedSpec)
      else Ok(Request(name.value, sets.value))
  }
}
