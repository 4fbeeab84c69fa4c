/** Encoding a response: everything but the item data goes into one byte vector, with lengths patched
    in once they are known; the data stays where it is and is spliced in when the response is sent. */
module Responses {
  import opened Common
  import opened Overlay
  import opened Contexts
  import opened Bson

  /** Item data that belongs at `offset` of the response; `size` bytes of a context from `position` on. */
  datatype ItemData = ItemData(offset: nat, size: nat, context: Context, position: nat)

  function BytesAt(c: Context, position: nat, size: nat): (data: seq<byte>)
    ensures |data| == size
  {
    seq<byte>(size, k requires 0 <= k => ByteOf(c, position + k))
  }

  function DataOf(d: ItemData): (data: seq<byte>)
    ensures |data| == d.size
  {
    BytesAt(d.context, d.position, d.size)
  }

  function ByteOf(c: Context, a: nat): byte {
    var b := ByteAt(c, a);
    if b.Some? then b.value else 0
  }

  // ---------------------------------------------------------------- text with the data in place

  /** Offsets ascend within `[start, end]`. */
  ghost predicate Ascending(items: seq<ItemData>, start: nat, end: nat) {
    && (forall k: nat :: k < |items| ==> start <= items[k].offset <= end)
    && (forall k: nat, l: nat :: k < l < |items| ==> items[k].offset <= items[l].offset)
  }

  /** The bytes of the response from `start` on, with the data of the items at their offsets. */
  function Text(start: nat, serial: seq<byte>, items: seq<ItemData>): seq<byte>
    decreases |items|
  {
    if items == [] then serial
    else
      var d := items[|items| - 1];
      if start <= d.offset <= start + |serial| then
        Text(start, serial[..d.offset - start], items[..|items| - 1]) + DataOf(d) + serial[d.offset - start..]
      else serial
  }

  lemma TextLast(start: nat, a: seq<byte>, b: seq<byte>, items: seq<ItemData>, d: ItemData)
    requires d.offset == start + |a|
    ensures Text(start, a + b, items + [d]) == Text(start, a, items) + DataOf(d) + b
  {
    hide DataOf;
    assert (items + [d])[..|items|] == items && (a + b)[..|a|] == a && (a + b)[|a|..] == b;
  }

  lemma TextBytes(start: nat, a: seq<byte>, x: seq<ItemData>, b: seq<byte>)
    requires Ascending(x, start, start + |a|)
    ensures Text(start, a + b, x) == Text(start, a, x) + b
  {
    if x != [] {
      hide Text, DataOf;
      var d, n := x[|x| - 1], |x| - 1;
      var c, e := a[..d.offset - start], a[d.offset - start..];
      assert x == x[..n] + [d] && a == c + e && a + b == c + (e + b);
      TextLast(start, c, e, x[..n], d);
      TextLast(start, c, e + b, x[..n], d);
    }
  }

  lemma {:induction false} TextJoin(start: nat, a: seq<byte>, x: seq<ItemData>, b: seq<byte>, y: seq<ItemData>)
    requires Ascending(x, start, start + |a|) && Ascending(y, start + |a|, start + |a| + |b|)
    ensures Text(start, a + b, x + y) == Text(start, a, x) + Text(start + |a|, b, y)
    decreases |y|
  {
    hide Text, DataOf, Ascending;
    if y == [] {
      assert x + y == x;
      TextBytes(start, a, x, b);
      TextNoItems(start + |a|, b);
    } else {
      var d, c, e := CutLast(start + |a|, b, y);
      var z := y[..|y| - 1];
      TextJoin(start, a, x, c, z);
      TextLast(start + |a|, c, e, z, d);
      TextLast(start, a + c, e, x + z, d);
      assert x + y == (x + z) + [d] && a + b == (a + c) + e;
      Associate(Text(start, a, x), Text(start + |a|, c, z), DataOf(d), e);
    }
  }

  lemma Associate(p: seq<byte>, q: seq<byte>, r: seq<byte>, s: seq<byte>)
    ensures (p + q) + r + s == p + (q + r + s)
  {
  }

  lemma TextNoItems(start: nat, b: seq<byte>)
    ensures Text(start, b, []) == b
  {
  }

  /** The last item, and the bytes before and behind it. */
  lemma CutLast(start: nat, b: seq<byte>, y: seq<ItemData>) returns (d: ItemData, c: seq<byte>, e: seq<byte>)
    requires y != [] && Ascending(y, start, start + |b|)
    ensures y == y[..|y| - 1] + [d] && b == c + e && d.offset == start + |c|
    ensures Ascending(y[..|y| - 1], start, start + |c|)
  {
    d := y[|y| - 1];
    c, e := b[..d.offset - start], b[d.offset - start..];
  }

  // ---------------------------------------------------------------- what a step adds

  /** The response has grown, and what was added reads as `text`. */
  ghost predicate Appended(serial0: seq<byte>, items0: seq<ItemData>, serial1: seq<byte>, items1: seq<ItemData>, text: seq<byte>) {
    && serial0 <= serial1 && items0 <= items1
    && Ascending(items1[|items0|..], |serial0|, |serial1|)
    && Text(|serial0|, serial1[|serial0|..], items1[|items0|..]) == text
  }

  lemma AppendedBoth(s0: seq<byte>, i0: seq<ItemData>, s1: seq<byte>, i1: seq<ItemData>, s2: seq<byte>, i2: seq<ItemData>, x: seq<byte>, y: seq<byte>)
    requires Appended(s0, i0, s1, i1, x) && Appended(s1, i1, s2, i2, y)
    ensures Appended(s0, i0, s2, i2, x + y)
  {
    hide Text;
    assert s2[|s0|..] == s1[|s0|..] + s2[|s1|..];
    assert i2[|i0|..] == i1[|i0|..] + i2[|i1|..];
    TextJoin(|s0|, s1[|s0|..], i1[|i0|..], s2[|s1|..], i2[|i1|..]);
  }

  lemma AppendedBytes(s0: seq<byte>, i0: seq<ItemData>, x: seq<byte>)
    ensures Appended(s0, i0, s0 + x, i0, x)
  {
    assert (s0 + x)[|s0|..] == x && i0[|i0|..] == [];
  }

  lemma AppendedItem(s0: seq<byte>, i0: seq<ItemData>, d: ItemData)
    requires d.offset == |s0|
    ensures Appended(s0, i0, s0, i0 + [d], DataOf(d))
  {
    hide DataOf;
    assert s0[|s0|..] == [] && (i0 + [d])[|i0|..] == [d];
    assert [d][..0] == [];
    assert Text(|s0|, [], [d]) == [] + DataOf(d) + [];
  }

  /** Filling in four bytes that were reserved for a length. */
  lemma AppendedPatch(s0: seq<byte>, i0: seq<ItemData>, s2: seq<byte>, i2: seq<ItemData>, body: seq<byte>, room: seq<byte>, v: seq<byte>)
    requires |room| == |v| && Appended(s0 + room, i0, s2, i2, body)
    ensures |s0| + |v| <= |s2| && Appended(s0, i0, s2[..|s0|] + v + s2[|s0| + |v|..], i2, v + body)
  {
    hide Text;
    var fin := s2[..|s0|] + v + s2[|s0| + |v|..];
    assert s2[..|s0|] == s0 by { assert (s0 + room)[..|s0|] == s0; }
    AppendedBytes(s0, i0, v);
    assert fin[|s0 + v|..] == s2[|s0 + room|..];
    AppendedBoth(s0, i0, s0 + v, i0, fin, i2, v, body);
  }

  // ---------------------------------------------------------------- the encoder

  /** An item of a set: its description and where its data is. */
  datatype ResponseItem = ResponseItem(ident: seq<byte>, key: nat, context: Context, position: nat, size: nat)

  datatype ResponseSet = ResponseSet(ident: seq<byte>, items: seq<ResponseItem>)

  function Wire(it: ResponseItem): WireItem {
    WireItem(it.ident, it.key, BytesAt(it.context, it.position, it.size))
  }

  function WireItems(items: seq<ResponseItem>): (r: seq<WireItem>)
    ensures |r| == |items| && forall k: nat :: k < |items| ==> r[k] == Wire(items[k])
  {
    seq(|items|, k requires 0 <= k < |items| => Wire(items[k]))
  }

  /** The sets that have items. */
  function Kept(sets: seq<Option<ResponseSet>>): seq<WireSet> {
    if sets == [] then []
    else
      var last := sets[|sets| - 1];
      Kept(sets[..|sets| - 1]) + if last.None? || last.value.items == [] then [] else [WireSet(last.value.ident, WireItems(last.value.items))]
  }

  lemma {:induction false} ItemsTextNext(items: seq<WireItem>, x: WireItem, index: nat)
    ensures ItemsText(items + [x], index) == ItemsText(items, index) + IndexedElem(index + |items|, ItemBody(x))
  {
    hide IndexedElem, ItemBody;
    if items == [] {
      assert items + [x] == [x] && [x][1..] == [];
    } else {
      assert (items + [x])[1..] == items[1..] + [x];
      ItemsTextNext(items[1..], x, index + 1);
    }
  }

  lemma {:induction false} SetsTextNext(sets: seq<WireSet>, x: WireSet, index: nat)
    ensures SetsText(sets + [x], index) == SetsText(sets, index) + IndexedElem(index + |sets|, SetBody(x))
  {
    hide IndexedElem, SetBody;
    if sets == [] {
      assert sets + [x] == [x] && [x][1..] == [];
    } else {
      assert (sets + [x])[1..] == sets[1..] + [x];
      SetsTextNext(sets[1..], x, index + 1);
    }
  }

  /** As `Appended`, with `n` bytes of item data among what was added. */
  ghost predicate Grown(s0: seq<byte>, i0: seq<ItemData>, s1: seq<byte>, i1: seq<ItemData>, text: seq<byte>, n: nat) {
    Appended(s0, i0, s1, i1, text) && |text| == |s1| - |s0| + n
  }

  lemma GrownBoth(s0: seq<byte>, i0: seq<ItemData>, s1: seq<byte>, i1: seq<ItemData>, s2: seq<byte>, i2: seq<ItemData>, x: seq<byte>, y: seq<byte>, n: nat, m: nat)
    requires Grown(s0, i0, s1, i1, x, n) && Grown(s1, i1, s2, i2, y, m)
    ensures Grown(s0, i0, s2, i2, x + y, n + m)
  {
    hide Appended;
    AppendedBoth(s0, i0, s1, i1, s2, i2, x, y);
  }

  lemma GrownBytes(s0: seq<byte>, i0: seq<ItemData>, x: seq<byte>)
    ensures Grown(s0, i0, s0 + x, i0, x, 0)
  {
    hide Appended;
    AppendedBytes(s0, i0, x);
  }

  /** A document: its elements were written behind four reserved bytes, the closing zero follows, and
      the size is patched in. */
  lemma GrownDocument(s0: seq<byte>, i0: seq<ItemData>, s2: seq<byte>, i2: seq<ItemData>, elements: seq<byte>, n: nat, fin: seq<byte>)
    requires Grown(s0 + Le(0, 4), i0, s2, i2, elements, n)
    requires |s0| + 4 <= |s2|
    requires var closed := s2 + [0]; fin == closed[..|s0|] + Le(|closed| - |s0| + n, 4) + closed[|s0| + 4..]
    ensures Grown(s0, i0, fin, i2, Document(elements), n)
  {
    hide Appended, Le;
    var closed := s2 + [0];
    AppendedBytes(s2, i2, [0]);
    AppendedBoth(s0 + Le(0, 4), i0, s2, i2, closed, i2, elements, [0]);
    var v := Le(|closed| - |s0| + n, 4);
    AppendedPatch(s0, i0, closed, i2, elements + [0], Le(0, 4), v);
    assert |closed| - |s0| + n == |elements| + 5;
    assert v + (elements + [0]) == Document(elements);
  }

  lemma GrownRoom(s0: seq<byte>, i0: seq<ItemData>, s2: seq<byte>, i2: seq<ItemData>, text: seq<byte>, n: nat)
    requires Grown(s0, i0, s2, i2, text, n)
    ensures |s0| <= |s2|
  {
  }

  /** The document of an item up to its closing zero. */
  lemma GrownItem(s0: seq<byte>, i0: seq<ItemData>, it: ResponseItem, d: ItemData)
    requires var front := StringElem(Identifier(), it.ident) + KeyElem(it.key) + ([5] + (DataName() + [0]) + Le(it.size, 4) + [0]);
             d == ItemData(|s0 + front|, it.size, it.context, it.position)
    ensures var front := StringElem(Identifier(), it.ident) + KeyElem(it.key) + ([5] + (DataName() + [0]) + Le(it.size, 4) + [0]);
            Grown(s0, i0, s0 + front, i0 + [d], ItemBody(Wire(it)), it.size)
  {
    hide Appended, Le, StringElem, KeyElem, BytesAt, DataName;
    var front := StringElem(Identifier(), it.ident) + KeyElem(it.key) + ([5] + (DataName() + [0]) + Le(it.size, 4) + [0]);
    AppendedBytes(s0, i0, front);
    AppendedItem(s0 + front, i0, d);
    AppendedBoth(s0, i0, s0 + front, i0, s0 + front, i0 + [d], front, DataOf(d));
    assert ItemBody(Wire(it)) == front + DataOf(d);
  }

  /** The data of all items is there. */
  ghost predicate AllDefined(items: seq<ItemData>) {
    forall k: nat :: k < |items| ==> Defined(items[k].context, items[k].position, items[k].size)
  }

  ghost predicate ItemsDefined(list: seq<ResponseItem>) {
    forall k: nat :: k < |list| ==> Defined(list[k].context, list[k].position, list[k].size)
  }

  ghost predicate SetsDefined(sets: seq<Option<ResponseSet>>) {
    forall k: nat :: k < |sets| && sets[k].Some? ==> ItemsDefined(sets[k].value.items)
  }

  class Writer {
    var response: seq<byte>
    var items: seq<ItemData>

    constructor ()
      ensures response == [] && items == []
    {
      response, items := [], [];
    }

    /** Overwrites the four bytes that were reserved at `at`. */
    method Patch(at: nat, size: nat)
      requires at + 4 <= |response|
      modifies this`response
      ensures response == old(response)[..at] + Le(size, 4) + old(response)[at + 4..]
    {
      response := response[..at] + Le(size, 4) + response[at + 4..];
    }

    method Push(x: seq<byte>)
      modifies this`response
      ensures response == old(response) + x
    {
      response := response + x;
    }

    method PushIndex(index: nat)
      modifies this`response
      ensures response == old(response) + ([3] + (Digits(index) + [0]))
    {
      hide Digits;
      Push([3]);
      Push(Digits(index));
      Push([0]);
    }

    method PushString(name: seq<byte>, s: seq<byte>)
      modifies this`response
      ensures response == old(response) + StringElem(name, s)
    {
      hide Le;
      Push([2]);
      Push(name + [0]);
      Push(Le(|s| + 1, 4));
      Push(s);
      Push([0]);
    }

    method PushKey(key: nat)
      modifies this`response
      ensures response == old(response) + KeyElem(key)
    {
      hide Le, KeyName;
      Push([18]);
      Push(KeyName() + [0]);
      Push(Le(key, 8));
    }

    method PushDataHead(size: nat)
      modifies this`response
      ensures response == old(response) + ([5] + (DataName() + [0]) + Le(size, 4) + [0])
    {
      hide Le, DataName;
      Push([5]);
      Push(DataName() + [0]);
      Push(Le(size, 4));
      Push([0]);
    }

    /** Writes an item as element `index` of its array; only its data is not copied. */
    method EncodeItem(index: nat, it: ResponseItem) returns (n: nat)
      modifies this
      ensures n == it.size
      ensures Grown(old(response), old(items), response, items, IndexedElem(index, ItemBody(Wire(it))), n)
      ensures AllDefined(old(items)) && Defined(it.context, it.position, it.size) ==> AllDefined(items)
    {
      hide Grown, Le, Wire, ItemBody, Identifier, DataName, Digits, StringElem, KeyElem, Defined;
      ghost var s0, i0 := response, items;
      PushIndex(index);
      ghost var head := [3] + (Digits(index) + [0]);
      ghost var s1 := response;
      var start := |response|;
      Push(Le(0, 4));
      PushString(Identifier(), it.ident);
      PushKey(it.key);
      PushDataHead(it.size);
      items := items + [ItemData(|response|, it.size, it.context, it.position)];
      ghost var front := StringElem(Identifier(), it.ident) + KeyElem(it.key) + ([5] + (DataName() + [0]) + Le(it.size, 4) + [0]);
      assert response == (s1 + Le(0, 4)) + front;
      ghost var s4 := response;
      GrownItem(s1 + Le(0, 4), i0, it, items[|items| - 1]);
      Push([0]);
      Patch(start, |response| - start + it.size);
      GrownDocument(s1, i0, s4, items, ItemBody(Wire(it)), it.size, response);
      GrownBytes(s0, i0, head);
      GrownBoth(s0, i0, s1, i0, response, items, head, Document(ItemBody(Wire(it))), 0, it.size);
      n := it.size;
    }

    /** Writes the elements of the array of items. */
    method EncodeItems(list: seq<ResponseItem>) returns (n: nat)
      modifies this
      ensures Grown(old(response), old(items), response, items, ItemsText(WireItems(list), 0), n)
      ensures AllDefined(old(items)) && ItemsDefined(list) ==> AllDefined(items)
    {
      hide Grown, IndexedElem, Wire, ItemBody, WireItems, AllDefined, Defined;
      ghost var s0, i0 := response, items;
      n := 0;
      var k: nat := 0;
      GrownBytes(s0, i0, []);
      assert s0 + [] == s0 && WireItems(list[..0]) == [];
      while k < |list|
        invariant k <= |list| && Grown(s0, i0, response, items, ItemsText(WireItems(list[..k]), 0), n)
        invariant AllDefined(i0) && ItemsDefined(list) ==> AllDefined(items)
      {
        ghost var s1, i1, n1 := response, items, n;
        var size := EncodeItem(k, list[k]);
        n := n + size;
        GrownBoth(s0, i0, s1, i1, response, items, ItemsText(WireItems(list[..k]), 0), IndexedElem(k, ItemBody(Wire(list[k]))), n1, size);
        ItemsTextNext(WireItems(list[..k]), Wire(list[k]), 0);
        assert WireItems(list[..k + 1]) == WireItems(list[..k]) + [Wire(list[k])];
        k := k + 1;
      }
      assert list[..k] == list;
    }

    /** Writes the array of items. */
    method EncodeArray(list: seq<ResponseItem>) returns (n: nat)
      modifies this
      ensures Grown(old(response), old(items), response, items, ArrayElem(ItemsName(), ItemsText(WireItems(list), 0)), n)
      ensures AllDefined(old(items)) && ItemsDefined(list) ==> AllDefined(items)
    {
      hide Grown, Le, WireItems, ItemsText, ItemsName, Document, AllDefined, ItemsDefined;
      ghost var s0, i0, elements := response, items, ItemsText(WireItems(list), 0);
      Push([4]);
      Push(ItemsName() + [0]);
      ghost var front := [4] + (ItemsName() + [0]);
      assert response == s0 + front;
      ghost var s2 := response;
      var start := |response|;
      Push(Le(0, 4));
      n := EncodeItems(list);
      ghost var s3 := response;
      GrownRoom(s2 + Le(0, 4), i0, s3, items, elements, n);
      Push([0]);
      Patch(start, |response| - start + n);
      GrownDocument(s2, i0, s3, items, elements, n, response);
      GrownBytes(s0, i0, front);
      GrownBoth(s0, i0, s2, i0, response, items, front, Document(elements), 0, n);
    }

    /** Writes a set as element `index` of the array of sets. */
    method EncodeSet(index: nat, s: ResponseSet) returns (n: nat)
      modifies this
      ensures Grown(old(response), old(items), response, items, IndexedElem(index, SetBody(WireSet(s.ident, WireItems(s.items)))), n)
      ensures AllDefined(old(items)) && ItemsDefined(s.items) ==> AllDefined(items)
    {
      hide Grown, Le, WireItems, Identifier, Digits, StringElem, ItemsText, ItemsName, Document, ArrayElem, AllDefined, ItemsDefined;
      ghost var s0, i0 := response, items;
      ghost var body := SetBody(WireSet(s.ident, WireItems(s.items)));
      PushIndex(index);
      ghost var head := [3] + (Digits(index) + [0]);
      ghost var s1 := response;
      var start := |response|;
      Push(Le(0, 4));
      PushString(Identifier(), s.ident);
      ghost var s2 := response;
      GrownBytes(s1 + Le(0, 4), i0, StringElem(Identifier(), s.ident));
      n := EncodeArray(s.items);
      ghost var s4 := response;
      GrownBoth(s1 + Le(0, 4), i0, s2, i0, s4, items, StringElem(Identifier(), s.ident), ArrayElem(ItemsName(), ItemsText(WireItems(s.items), 0)), 0, n);
      GrownRoom(s1 + Le(0, 4), i0, s4, items, body, n);
      Push([0]);
      Patch(start, |response| - start + n);
      GrownDocument(s1, i0, s4, items, body, n, response);
      GrownBytes(s0, i0, head);
      GrownBoth(s0, i0, s1, i0, response, items, head, Document(body), 0, n);
    }

    /** Writes the sets that have items. */
    method EncodeSets(sets: seq<Option<ResponseSet>>) returns (n: nat)
      modifies this
      ensures Grown(old(response), old(items), response, items, SetsText(Kept(sets), 0), n)
      ensures AllDefined(old(items)) && SetsDefined(sets) ==> AllDefined(items)
    {
      hide Grown, IndexedElem, SetBody, WireItems, Kept, AllDefined, ItemsDefined;
      ghost var s0, i0 := response, items;
      n := 0;
      var k: nat, index: nat := 0, 0;
      GrownBytes(s0, i0, []);
      assert s0 + [] == s0 && Kept(sets[..0]) == [] by { KeptNone(sets[..0]); }
      while k < |sets|
        invariant k <= |sets| && index == |Kept(sets[..k])|
        invariant Grown(s0, i0, response, items, SetsText(Kept(sets[..k]), 0), n)
        invariant AllDefined(i0) && SetsDefined(sets) ==> AllDefined(items)
      {
        KeptNext(sets, k);
        if sets[k].Some? && sets[k].value.items != [] {
          ghost var s1, i1, n1 := response, items, n;
          ghost var x := WireSet(sets[k].value.ident, WireItems(sets[k].value.items));
          var size := EncodeSet(index, sets[k].value);
          n := n + size;
          GrownBoth(s0, i0, s1, i1, response, items, SetsText(Kept(sets[..k]), 0), IndexedElem(index, SetBody(x)), n1, size);
          SetsTextNext(Kept(sets[..k]), x, 0);
          index := index + 1;
        }
        k := k + 1;
      }
      assert sets[..k] == sets;
    }

    /** The whole response: read with the item data in place it is the document of the sets, in which
        every length is the length of the document it stands in. */
    method EncodeResponse(sets: seq<Option<ResponseSet>>) returns (n: nat)
      requires response == [] && items == []
      modifies this
      ensures Ascending(items, 0, |response|) && Text(0, response, items) == ResponseText(Kept(sets))
      ensures |response| + n == |ResponseText(Kept(sets))|
      ensures response != [] && forall k: nat :: k < |items| ==> items[k].offset > 0
      ensures SetsDefined(sets) ==> AllDefined(items)
    {
      hide Grown, Le, SetsName, SetsText, Kept, Ascending, SetsDefined;
      ghost var elements := SetsText(Kept(sets), 0);
      Push(Le(0, 4));
      Push([4]);
      Push(SetsName() + [0]);
      ghost var front := [4] + (SetsName() + [0]);
      assert response == ([] + Le(0, 4)) + front;
      ghost var s2 := response;
      var arrayStart := |response|;
      Push(Le(0, 4));
      n := EncodeSets(sets);
      ghost var s3 := response;
      GrownRoom(s2 + Le(0, 4), [], s3, items, elements, n);
      Push([0]);
      Patch(arrayStart, |response| - arrayStart + n);
      GrownDocument(s2, [], s3, items, elements, n, response);
      ghost var s4 := response;
      GrownBehind(s2, s4, items, Document(elements), n);
      GrownBytes([] + Le(0, 4), [], front);
      GrownBoth([] + Le(0, 4), [], s2, [], s4, items, front, Document(elements), 0, n);
      GrownRoom([] + Le(0, 4), [], s4, items, front + Document(elements), n);
      assert front + Document(elements) == ArrayElem(SetsName(), elements);
      Push([0]);
      Patch(0, |response| + n);
      GrownDocument([], [], s4, items, ArrayElem(SetsName(), elements), n, response);
      GrownAll(response, items, ResponseText(Kept(sets)), n);
    }
  }

  lemma KeptNone(sets: seq<Option<ResponseSet>>)
    requires sets == []
    ensures Kept(sets) == []
  {
  }

  lemma KeptNext(sets: seq<Option<ResponseSet>>, k: nat)
    requires k < |sets|
    ensures Kept(sets[..k + 1]) ==
            if sets[k].Some? && sets[k].value.items != [] then Kept(sets[..k]) + [WireSet(sets[k].value.ident, WireItems(sets[k].value.items))]
            else Kept(sets[..k])
  {
    hide WireItems;
    assert sets[..k + 1][..k] == sets[..k];
  }

  lemma GrownBehind(s0: seq<byte>, s1: seq<byte>, i1: seq<ItemData>, text: seq<byte>, n: nat)
    requires Grown(s0, [], s1, i1, text, n)
    ensures |s0| <= |s1| && forall k: nat :: k < |i1| ==> i1[k].offset >= |s0|
  {
    assert i1[0..] == i1;
  }

  lemma GrownAll(s: seq<byte>, i: seq<ItemData>, text: seq<byte>, n: nat)
    requires Grown([], [], s, i, text, n)
    ensures Ascending(i, 0, |s|) && Text(0, s, i) == text && |s| + n == |text|
  {
    assert s[0..] == s && i[0..] == i;
  }
}
