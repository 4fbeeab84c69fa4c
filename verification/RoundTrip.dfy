/** What is read back from a text that was written, and where empty frames may lie in it. */
module RoundTrips {
  import opened Common
  import opened Bson
  import Utf8

  /** Reading gives `v` and leaves `rest`, exactly if `ok`. */
  ghost predicate Gives<T>(r: Result<Parsed<T>>, ok: bool, v: T, rest: seq<byte>) {
    if ok then r == Ok(Parsed(v, rest)) else r.Err?
  }

  ghost predicate Leaves(r: Result<seq<byte>>, ok: bool, rest: seq<byte>) {
    if ok then r == Ok(rest) else r.Err?
  }

  lemma ClearJoin(l: Layout, lo: nat, mid: nat, hi: nat)
    requires lo <= mid <= hi
    ensures Clear(l, lo, hi) <==> Clear(l, lo, mid) && Clear(l, mid, hi)
  {
  }

  // ---------------------------------------------------------------- parts

  lemma ReadTypeOk(kind: byte, rest: seq<byte>, l: Layout)
    ensures Gives(ReadByte([kind] + rest, l), Clear(l, |rest|, |rest| + 1), kind, rest)
    ensures Leaves(CheckType([kind] + rest, kind, l), Clear(l, |rest|, |rest| + 1), rest)
    ensures Leaves(CheckTermination([0] + rest, l), Clear(l, |rest|, |rest| + 1), rest)
  {
    assert ([kind] + rest)[1..] == rest && ([0] + rest)[1..] == rest;
  }

  lemma ReadBytesOk(s: seq<byte>, rest: seq<byte>, l: Layout)
    ensures Gives(ReadBytes(s + rest, |s|, l), Clear(l, |rest|, |s| + |rest|), s, rest)
  {
    assert (s + rest)[..|s|] == s && (s + rest)[|s|..] == rest;
  }

  lemma ReadLengthOk(n: nat, rest: seq<byte>, l: Layout)
    requires n < INT32_LIMIT
    ensures Gives(ReadLength(Le(n, 4) + rest, l), Clear(l, |rest|, |rest| + 4), n, rest)
    ensures Leaves(SkipLength(Le(n, 4) + rest, l), Clear(l, |rest|, |rest| + 4), rest)
  {
    hide Le, FromLe, Pow256, ReadBytes, Clear;
    Widths();
    LeRoundTrip(n, 4);
    ReadBytesOk(Le(n, 4), rest, l);
  }

  lemma {:induction false} ReadCharsOk(s: seq<byte>, rest: seq<byte>, l: Layout)
    requires Plain(s)
    ensures Gives(ReadChars((s + [0]) + rest, l, Utf8.Whole), Clear(l, |rest|, |s| + 1 + |rest|), s + [0], rest)
  {
    var t := (s + [0]) + rest;
    ClearJoin(l, |rest|, |t| - 1, |t|);
    if s == [] {
      assert t[1..] == rest;
    } else {
      ReadCharsOk(s[1..], rest, l);
      assert t[1..] == (s[1..] + [0]) + rest;
      assert [s[0]] + (s[1..] + [0]) == s + [0];
    }
  }

  lemma CheckCStringOk(name: seq<byte>, rest: seq<byte>, l: Layout)
    requires Plain(name)
    ensures Leaves(CheckCString((name + [0]) + rest, name + [0], l), Clear(l, |rest|, |name| + 1 + |rest|), rest)
    ensures Gives(ReadCString((name + [0]) + rest, l), Clear(l, |rest|, |name| + 1 + |rest|), name + [0], rest)
  {
    hide ReadChars, Clear;
    ReadCharsOk(name, rest, l);
  }

  lemma ReadStringOk(s: seq<byte>, rest: seq<byte>, l: Layout)
    requires |s| + 1 < INT32_LIMIT && Utf8.Valid(s)
    ensures Gives(ReadString(Le(|s| + 1, 4) + (s + ([0] + rest)), l), Clear(l, |rest|, |s| + 5 + |rest|), s, rest)
  {
    hide *;
    var t2 := [0] + rest;
    var t1 := s + t2;
    ReadLengthOk(|s| + 1, t1, l);
    ReadBytesOk(s, t2, l);
    ReadTypeOk(0, rest, l);
    StringParts(Le(|s| + 1, 4) + t1, t1, t2, rest, s, l, Clear(l, |t1|, |t1| + 4), Clear(l, |t2|, |s| + |t2|), Clear(l, |rest|, |rest| + 1));
    ClearJoin(l, |rest|, |rest| + 1, |s| + 1 + |rest|);
    ClearJoin(l, |rest|, |s| + 1 + |rest|, |s| + 5 + |rest|);
  }

  lemma StringParts(t: seq<byte>, t1: seq<byte>, t2: seq<byte>, rest: seq<byte>, s: seq<byte>, l: Layout, length: bool, bytes: bool, end: bool)
    requires |s| <= |t1| && Utf8.Valid(s)
    requires Gives(ReadLength(t, l), length, |s| + 1, t1) && Gives(ReadBytes(t1, |s|, l), bytes, s, t2) && Leaves(CheckTermination(t2, l), end, rest)
    ensures Gives(ReadString(t, l), length && bytes && end, s, rest)
  {
    hide ReadLength, ReadBytes, CheckTermination, Utf8.Valid;
  }

  lemma ReadStringElemOk(name: seq<byte>, s: seq<byte>, rest: seq<byte>, l: Layout)
    requires Plain(name) && |s| + 1 < INT32_LIMIT && Utf8.Valid(s)
    ensures Gives(ReadStringElem(StringElem(name, s) + rest, name, l), Clear(l, |rest|, |StringElem(name, s)| + |rest|), s, rest)
  {
    hide Le, ReadString, CheckCString, CheckType, Clear, Utf8.Valid, Plain;
    var t2 := Le(|s| + 1, 4) + (s + ([0] + rest));
    var t1 := (name + [0]) + t2;
    assert StringElem(name, s) + rest == [2] + t1;
    ReadTypeOk(2, t1, l);
    CheckCStringOk(name, t2, l);
    ReadStringOk(s, rest, l);
    ClearJoin(l, |rest|, |t2|, |t1|);
    ClearJoin(l, |rest|, |t1|, |t1| + 1);
  }

  lemma ReadKeyElemOk(key: nat, rest: seq<byte>, l: Layout)
    requires key < UINT32_LIMIT
    ensures Gives(ReadKeyElem(KeyElem(key) + rest, l), Clear(l, |rest|, |KeyElem(key)| + |rest|), key, rest)
  {
    hide Le, FromLe, CheckCString, CheckType, KeyName, Pow256, ReadBytes, Clear, Plain;
    var t2 := Le(key, 8) + rest;
    var t1 := (KeyName() + [0]) + t2;
    assert KeyElem(key) + rest == [18] + t1;
    ReadTypeOk(18, t1, l);
    CheckCStringOk(KeyName(), t2, l);
    Widths();
    LeRoundTrip(key, 8);
    ReadBytesOk(Le(key, 8), rest, l);
    ClearJoin(l, |rest|, |t2|, |t1|);
    ClearJoin(l, |rest|, |t1|, |t1| + 1);
  }

  lemma ReadDataElemOk(data: seq<byte>, rest: seq<byte>, total: nat, l: Layout)
    requires |data| < INT32_LIMIT && total >= |data| + |rest|
    ensures Gives(ReadDataElem(DataElem(data) + rest, total, l), Clear(l, |data| + |rest|, |DataElem(data)| + |rest|), (total - |rest| - |data|, |data|), rest)
  {
    hide Le, CheckCString, CheckType, ReadByte, DataName, ReadLength, Clear, Plain;
    var t4 := data + rest;
    var t3 := [0] + t4;
    var t2 := Le(|data|, 4) + t3;
    var t1 := (DataName() + [0]) + t2;
    assert DataElem(data) + rest == [5] + t1;
    ReadTypeOk(5, t1, l);
    CheckCStringOk(DataName(), t2, l);
    ReadLengthOk(|data|, t3, l);
    ReadTypeOk(0, t4, l);
    assert t4[|data|..] == rest;
    ClearJoin(l, |t4|, |t3|, |t2|);
    ClearJoin(l, |t4|, |t2|, |t1|);
    ClearJoin(l, |t4|, |t1|, |t1| + 1);
  }

  lemma ItemLengths(index: nat, it: WireItem)
    ensures |IndexedElem(index, ItemBody(it))| == 1 + |Digits(index)| + 1 + |ItemBody(it)| + 5
    ensures |ItemBody(it)| > |it.ident| + 1 + |it.data|
  {
    hide Le, Digits, KeyName, DataName, Identifier;
  }

  // ---------------------------------------------------------------- items

  ghost predicate ItemFits(it: WireItem) {
    it.key < UINT32_LIMIT && Utf8.Valid(it.ident)
  }

  ghost predicate ItemsFit(items: seq<WireItem>) {
    forall it :: it in items ==> ItemFits(it)
  }

  /** No empty frame in the element of an item that ends `r` bytes before the end, except in its data. */
  ghost predicate ItemClear(l: Layout, it: WireItem, index: nat, r: nat) {
    Clear(l, |it.data| + 1 + r, |IndexedElem(index, ItemBody(it))| + r) && Clear(l, r, r + 1)
  }

  lemma ReadItemOk(index: nat, it: WireItem, rest: seq<byte>, total: nat, l: Layout)
    requires ItemFits(it) && |ItemBody(it)| + 5 < INT32_LIMIT && total >= |it.data| + 1 + |rest|
    ensures Gives(ReadItem(IndexedElem(index, ItemBody(it)) + rest, total, l), ItemClear(l, it, index, |rest|),
                  Some(DataItem(it.ident, it.key, total - |rest| - 1 - |it.data|, |it.data|)), rest)
  {
    hide Le, Digits, StringElem, KeyElem, DataElem, ReadStringElem, ReadKeyElem, ReadDataElem, ReadCString, ReadByte, ReadLength, CheckTermination, Identifier, Clear, Utf8.Valid, Plain;
    ItemLengths(index, it);
    var t6 := [0] + rest;
    var t5 := DataElem(it.data) + t6;
    var t4 := KeyElem(it.key) + t5;
    var t3 := StringElem(Identifier(), it.ident) + t4;
    var t2 := Le(|ItemBody(it)| + 5, 4) + t3;
    var t1 := (Digits(index) + [0]) + t2;
    assert ItemBody(it) + t6 == t3;
    assert IndexedElem(index, ItemBody(it)) + rest == [3] + t1;
    ReadTypeOk(3, t1, l);
    CheckCStringOk(Digits(index), t2, l);
    ReadLengthOk(|ItemBody(it)| + 5, t3, l);
    ReadStringElemOk(Identifier(), it.ident, t4, l);
    ReadKeyElemOk(it.key, t5, l);
    ReadDataElemOk(it.data, t6, total, l);
    ReadTypeOk(0, rest, l);
    var lo := |it.data| + 1 + |rest|;
    DataShort(it.data);
    ClearJoin(l, lo, |t5|, |t4|);
    ClearJoin(l, lo, |t4|, |t3|);
    ClearJoin(l, lo, |t3|, |t2|);
    ClearJoin(l, lo, |t2|, |t1|);
    ClearJoin(l, lo, |t1|, |t1| + 1);
  }

  lemma DataShort(data: seq<byte>)
    ensures |data| < |DataElem(data)|
  {
    hide Le;
  }

  /** How the reader reports items whose texts begin at `at`. */
  function Located(items: seq<WireItem>, index: nat, at: nat): seq<DataItem> {
    if items == [] then []
    else
      var it := items[0];
      var end: nat := at + |IndexedElem(index, ItemBody(it))|;
      ItemLengths(index, it);
      [DataItem(it.ident, it.key, end - 1 - |it.data|, |it.data|)] + Located(items[1..], index + 1, end)
  }

  /** The same for items whose array, with its closing zero, ends `r` bytes before the end. */
  ghost predicate ItemsClear(l: Layout, items: seq<WireItem>, index: nat, r: nat) {
    if items == [] then Clear(l, r, r + 1)
    else ItemClear(l, items[0], index, |ItemsText(items[1..], index + 1)| + 1 + r) && ItemsClear(l, items[1..], index + 1, r)
  }

  lemma {:induction false} ReadItemsOk(items: seq<WireItem>, index: nat, rest: seq<byte>, total: nat, l: Layout)
    requires ItemsFit(items) && |ItemsText(items, index)| < INT32_LIMIT && total >= |ItemsText(items, index)| + 1 + |rest|
    ensures Gives(ReadItems(ItemsText(items, index) + ([0] + rest), total, |rest|, l), ItemsClear(l, items, index, |rest|),
                  Located(items, index, total - |ItemsText(items, index)| - 1 - |rest|), rest)
  {
    hide IndexedElem, ItemBody, ReadItem, ItemFits, ItemClear, Clear;
    if items == [] {
      assert ItemsText(items, index) + ([0] + rest) == [0] + rest;
      EndOfItems(rest, total, l);
    } else {
      var it := items[0];
      var more := ItemsText(items[1..], index + 1) + ([0] + rest);
      assert ItemsText(items, index) + ([0] + rest) == IndexedElem(index, ItemBody(it)) + more;
      ItemLengths(index, it);
      assert ItemsFit(items[1..]);
      ReadItemOk(index, it, more, total, l);
      ReadItemsOk(items[1..], index + 1, rest, total, l);
    }
  }

  lemma EndOfItems(rest: seq<byte>, total: nat, l: Layout)
    ensures Gives(ReadItem([0] + rest, total, l), Clear(l, |rest|, |rest| + 1), None, rest)
    ensures Gives(ReadSet([0] + rest, total, l), Clear(l, |rest|, |rest| + 1), None, rest)
  {
    hide ReadByte, Clear;
    ReadTypeOk(0, rest, l);
  }

  lemma ReadArrayOk(items: seq<WireItem>, rest: seq<byte>, total: nat, l: Layout)
    requires ItemsFit(items) && |ItemsText(items, 0)| + 5 < INT32_LIMIT && total >= |ItemsText(items, 0)| + 1 + |rest|
    ensures var text := ItemsText(items, 0);
            Gives(ReadArray(ArrayElem(ItemsName(), text) + rest, total, l),
                  Clear(l, |text| + 1 + |rest|, |ArrayElem(ItemsName(), text)| + |rest|) && ItemsClear(l, items, 0, |rest|),
                  Located(items, 0, total - |text| - 1 - |rest|), rest)
  {
    hide Le, CheckCString, CheckType, ReadLength, ItemsName, ItemsText, ReadItems, Located, Clear, ItemsClear, ItemsFit, Plain;
    var text := ItemsText(items, 0);
    var t3 := text + ([0] + rest);
    var t2 := Le(|text| + 5, 4) + t3;
    var t1 := (ItemsName() + [0]) + t2;
    assert ArrayElem(ItemsName(), text) + rest == [4] + t1;
    ReadTypeOk(4, t1, l);
    CheckCStringOk(ItemsName(), t2, l);
    ReadLengthOk(|text| + 5, t3, l);
    ReadItemsOk(items, 0, rest, total, l);
    ClearJoin(l, |t3|, |t2|, |t1|);
    ClearJoin(l, |t3|, |t1|, |t1| + 1);
  }

  // ---------------------------------------------------------------- sets

  lemma SetLengths(index: nat, s: WireSet)
    ensures |IndexedElem(index, SetBody(s))| == 1 + |Digits(index)| + 1 + |SetBody(s)| + 5
    ensures |SetBody(s)| > |s.ident| + 1 + |ItemsText(s.items, 0)| + 5
  {
    hide Le, Digits, ItemsName, Identifier, ItemsText;
  }

  ghost predicate SetFits(s: WireSet) {
    ItemsFit(s.items) && Utf8.Valid(s.ident)
  }

  ghost predicate SetsFit(sets: seq<WireSet>) {
    forall s :: s in sets ==> SetFits(s)
  }

  /** No empty frame in the element of a set that ends `r` bytes before the end, except in the data of
      items. */
  ghost predicate SetClear(l: Layout, s: WireSet, index: nat, r: nat) {
    && Clear(l, |ItemsText(s.items, 0)| + 2 + r, |IndexedElem(index, SetBody(s))| + r)
    && ItemsClear(l, s.items, 0, r + 1) && Clear(l, r, r + 1)
  }

  lemma ReadSetOk(index: nat, s: WireSet, rest: seq<byte>, total: nat, l: Layout)
    requires SetFits(s) && |SetBody(s)| + 5 < INT32_LIMIT && total >= |ItemsText(s.items, 0)| + 2 + |rest|
    ensures Gives(ReadSet(IndexedElem(index, SetBody(s)) + rest, total, l), SetClear(l, s, index, |rest|),
                  Some(DataSet(s.ident, Located(s.items, 0, total - |ItemsText(s.items, 0)| - 2 - |rest|))), rest)
  {
    hide Le, Digits, StringElem, ArrayElem, ReadStringElem, ReadCString, ReadByte, ReadLength, Identifier, ItemsName, ItemsText, ReadArray, Located, CheckTermination, Clear, ItemsClear, ItemsFit, Utf8.Valid, Plain;
    SetLengths(index, s);
    var text := ItemsText(s.items, 0);
    var t5 := [0] + rest;
    var t4 := ArrayElem(ItemsName(), text) + t5;
    var t3 := StringElem(Identifier(), s.ident) + t4;
    var t2 := Le(|SetBody(s)| + 5, 4) + t3;
    var t1 := (Digits(index) + [0]) + t2;
    assert SetBody(s) + t5 == t3;
    assert IndexedElem(index, SetBody(s)) + rest == [3] + t1;
    ReadTypeOk(3, t1, l);
    CheckCStringOk(Digits(index), t2, l);
    ReadLengthOk(|SetBody(s)| + 5, t3, l);
    ReadStringElemOk(Identifier(), s.ident, t4, l);
    ReadArrayOk(s.items, t5, total, l);
    ReadTypeOk(0, rest, l);
    ArrayShort(text);
    var lo := |text| + 2 + |rest|;
    ClearJoin(l, lo, |t4|, |t3|);
    ClearJoin(l, lo, |t3|, |t2|);
    ClearJoin(l, lo, |t2|, |t1|);
    ClearJoin(l, lo, |t1|, |t1| + 1);
  }

  lemma ArrayShort(text: seq<byte>)
    ensures |text| + 1 < |ArrayElem(ItemsName(), text)|
  {
    hide Le;
  }

  /** Where the text of the items of a set begins, counted from the start of the set's element. */
  function ItemsAt(index: nat, s: WireSet): nat {
    SetLengths(index, s);
    |IndexedElem(index, SetBody(s))| - |ItemsText(s.items, 0)| - 2
  }

  function LocatedSets(sets: seq<WireSet>, index: nat, at: nat): seq<DataSet> {
    if sets == [] then []
    else
      [DataSet(sets[0].ident, Located(sets[0].items, 0, at + ItemsAt(index, sets[0])))]
      + LocatedSets(sets[1..], index + 1, at + |IndexedElem(index, SetBody(sets[0]))|)
  }

  ghost predicate SetsClear(l: Layout, sets: seq<WireSet>, index: nat, r: nat) {
    if sets == [] then Clear(l, r, r + 1)
    else SetClear(l, sets[0], index, |SetsText(sets[1..], index + 1)| + 1 + r) && SetsClear(l, sets[1..], index + 1, r)
  }

  /** Reading the array of sets gives the sets back, exactly if empty frames lie only in item data. */
  lemma {:induction false} ReadSetsOk(sets: seq<WireSet>, index: nat, rest: seq<byte>, total: nat, l: Layout)
    requires SetsFit(sets) && |SetsText(sets, index)| < INT32_LIMIT && total >= |SetsText(sets, index)| + 1 + |rest|
    ensures Gives(ReadSets(SetsText(sets, index) + ([0] + rest), total, l), SetsClear(l, sets, index, |rest|),
                  LocatedSets(sets, index, total - |SetsText(sets, index)| - 1 - |rest|), rest)
  {
    hide IndexedElem, SetBody, ReadSet, Located, SetFits, ItemsText, SetClear, Clear;
    if sets == [] {
      assert SetsText(sets, index) + ([0] + rest) == [0] + rest;
      EndOfItems(rest, total, l);
    } else {
      var s := sets[0];
      var more := SetsText(sets[1..], index + 1) + ([0] + rest);
      assert SetsText(sets, index) + ([0] + rest) == IndexedElem(index, SetBody(s)) + more;
      SetLengths(index, s);
      assert SetsFit(sets[1..]);
      ReadSetOk(index, s, more, total, l);
      ReadSetsOk(sets[1..], index + 1, rest, total, l);
    }
  }

  // ---------------------------------------------------------------- the data is where the reader says

  ghost predicate ItemAt(w: seq<byte>, d: DataItem, it: WireItem) {
    d.ident == it.ident && d.key == it.key && d.size == |it.data| && d.offset + d.size < |w| && w[d.offset..d.offset + d.size] == it.data
  }

  ghost predicate ItemsIn(w: seq<byte>, found: seq<DataItem>, items: seq<WireItem>) {
    |found| == |items| && forall k: nat :: k < |items| ==> ItemAt(w, found[k], items[k])
  }

  ghost predicate SetAt(w: seq<byte>, d: DataSet, s: WireSet) {
    d.ident == s.ident && ItemsIn(w, d.items, s.items)
  }

  ghost predicate SetsIn(w: seq<byte>, found: seq<DataSet>, sets: seq<WireSet>) {
    |found| == |sets| && forall k: nat :: k < |sets| ==> SetAt(w, found[k], sets[k])
  }

  /** The data lies right before the last byte of its element. */
  lemma DataLast(index: nat, it: WireItem)
    ensures var e := IndexedElem(index, ItemBody(it)); |e| >= 1 + |it.data| && e[|e| - 1 - |it.data|..|e| - 1 - |it.data| + |it.data|] == it.data
  {
    hide Le, Digits, StringElem, KeyElem, DataName;
    var e := IndexedElem(index, ItemBody(it));
    var front := [3] + (Digits(index) + [0]) + Le(|ItemBody(it)| + 5, 4) + StringElem(Identifier(), it.ident) + KeyElem(it.key) + [5] + (DataName() + [0]) + Le(|it.data|, 4) + [0];
    assert e == front + it.data + [0];
  }

  lemma {:induction false} LocatedIn(pre: seq<byte>, items: seq<WireItem>, index: nat, post: seq<byte>)
    ensures ItemsIn(pre + ItemsText(items, index) + post, Located(items, index, |pre|), items)
    decreases items
  {
    hide IndexedElem, ItemBody, ItemAt;
    if items != [] {
      var e, more := IndexedElem(index, ItemBody(items[0])), ItemsText(items[1..], index + 1);
      var w := pre + ItemsText(items, index) + post;
      assert w == (pre + e) + more + post;
      assert w == pre + e + (more + post);
      LocatedIn(pre + e, items[1..], index + 1, post);
      FirstItem(pre, items, index, more + post);
      var found, rest := Located(items, index, |pre|), Located(items[1..], index + 1, |pre + e|);
      forall k: nat | k < |items| ensures ItemAt(w, found[k], items[k]) {
        if k > 0 {
          assert found[k] == rest[k - 1] && items[k] == items[1..][k - 1];
        }
      }
    }
  }

  lemma FirstItem(pre: seq<byte>, items: seq<WireItem>, index: nat, post: seq<byte>)
    requires items != []
    ensures Located(items, index, |pre|) != []
    ensures ItemAt(pre + IndexedElem(index, ItemBody(items[0])) + post, Located(items, index, |pre|)[0], items[0])
  {
    hide IndexedElem, ItemBody, Located;
    var it, e := items[0], IndexedElem(index, ItemBody(items[0]));
    DataLast(index, it);
    LocatedFirst(items, index, |pre|);
    SliceOf(pre, e, post, |e| - 1 - |it.data|, Located(items, index, |pre|)[0], it);
  }

  lemma LocatedFirst(items: seq<WireItem>, index: nat, at: nat)
    requires items != []
    ensures |IndexedElem(index, ItemBody(items[0]))| >= 1 + |items[0].data| && Located(items, index, at) != []
    ensures Located(items, index, at)[0] ==
            DataItem(items[0].ident, items[0].key, at + |IndexedElem(index, ItemBody(items[0]))| - 1 - |items[0].data|, |items[0].data|)
  {
    hide IndexedElem, ItemBody;
    ItemLengths(index, items[0]);
  }

  lemma SliceOf(pre: seq<byte>, e: seq<byte>, post: seq<byte>, lo: nat, d: DataItem, it: WireItem)
    requires lo + |it.data| < |e| && e[lo..lo + |it.data|] == it.data
    requires d == DataItem(it.ident, it.key, |pre| + lo, |it.data|)
    ensures ItemAt(pre + e + post, d, it)
  {
    assert (pre + e + post)[|pre| + lo..|pre| + lo + |it.data|] == e[lo..lo + |it.data|];
  }

  lemma SetText(index: nat, s: WireSet) returns (front: seq<byte>)
    ensures IndexedElem(index, SetBody(s)) == front + ItemsText(s.items, 0) + [0, 0] && |front| == ItemsAt(index, s)
  {
    hide Le, Digits, StringElem, ItemsName, ItemsText;
    SetLengths(index, s);
    front := [3] + (Digits(index) + [0]) + Le(|SetBody(s)| + 5, 4) + StringElem(Identifier(), s.ident) + [4] + (ItemsName() + [0]) + Le(|ItemsText(s.items, 0)| + 5, 4);
    assert IndexedElem(index, SetBody(s)) == front + ItemsText(s.items, 0) + [0, 0];
  }

  lemma {:induction false} LocatedSetsIn(pre: seq<byte>, sets: seq<WireSet>, index: nat, post: seq<byte>)
    ensures SetsIn(pre + SetsText(sets, index) + post, LocatedSets(sets, index, |pre|), sets)
    decreases sets
  {
    hide IndexedElem, SetBody, Located, ItemsIn, ItemsText, ItemsAt;
    if sets != [] {
      var s, e := sets[0], IndexedElem(index, SetBody(sets[0]));
      var w := pre + SetsText(sets, index) + post;
      assert w == (pre + e) + SetsText(sets[1..], index + 1) + post;
      LocatedSetsIn(pre + e, sets[1..], index + 1, post);
      var front := SetText(index, s);
      LocatedIn(pre + front, s.items, 0, [0, 0] + SetsText(sets[1..], index + 1) + post);
      assert w == (pre + front) + ItemsText(s.items, 0) + ([0, 0] + SetsText(sets[1..], index + 1) + post);
      var found := LocatedSets(sets, index, |pre|);
      assert SetAt(w, found[0], s);
      forall k: nat | k < |sets| ensures SetAt(w, found[k], sets[k]) {
        if k > 0 {
          assert SetAt(w, LocatedSets(sets[1..], index + 1, |pre + e|)[k - 1], sets[1..][k - 1]);
        }
      }
    }
  }

  /** How a request begins and what it is made of. */
  lemma RequestParts(name: seq<byte>, sets: seq<WireSet>) returns (front: seq<byte>, length: nat)
    ensures length == |RequestText(name, sets)| && |name| + 1 < length
    ensures RequestText(name, sets) ==
            Le(length, 4) + (StringElem(NameName(), name) + ([4] + ((SetsName() + [0]) + (Le(|SetsText(sets, 0)| + 5, 4) + (SetsText(sets, 0) + ([0] + [0]))))))
    ensures RequestText(name, sets) == front + SetsText(sets, 0) + [0, 0]
  {
    hide Le, StringElem, SetsText, NameName, SetsName;
    NameShort(name);
    var text, w := SetsText(sets, 0), RequestText(name, sets);
    length := |w|;
    front := Le(|w|, 4) + StringElem(NameName(), name) + [4] + (SetsName() + [0]) + Le(|text| + 5, 4);
  }

  /** An empty frame `r` bytes before the end of a request does no harm. */
  ghost predicate RequestClear(l: Layout, name: seq<byte>, sets: seq<WireSet>) {
    && Clear(l, |SetsText(sets, 0)| + 2, |RequestText(name, sets)|) && SetsClear(l, sets, 0, 1) && Clear(l, 0, 1)
  }

  lemma ReadRequestOk(name: seq<byte>, sets: seq<WireSet>, l: Layout)
    requires SetsFit(sets) && Utf8.Valid(name) && |RequestText(name, sets)| < INT32_LIMIT
    ensures |RequestText(name, sets)| >= |SetsText(sets, 0)| + 2
    ensures var r := ReadRequest(RequestText(name, sets), l);
            if RequestClear(l, name, sets) then r == Ok(Request(name, LocatedSets(sets, 0, |RequestText(name, sets)| - |SetsText(sets, 0)| - 2)))
            else r.Err?
  {
    hide Le, StringElem, SetsText, ReadStringElem, CheckCString, CheckType, ReadByte, ReadLength, SkipLength, ReadSets, LocatedSets, SetsFit, NameName, SetsName, RequestText, Clear, SetsClear, Utf8.Valid, Plain;
    var front, length := RequestParts(name, sets);
    var text := SetsText(sets, 0);
    var t4 := text + ([0] + [0]);
    var t3 := Le(|text| + 5, 4) + t4;
    var t2 := (SetsName() + [0]) + t3;
    var t1 := StringElem(NameName(), name) + ([4] + t2);
    ReadLengthOk(length, t1, l);
    ReadStringElemOk(NameName(), name, [4] + t2, l);
    ReadTypeOk(4, t2, l);
    CheckCStringOk(SetsName(), t3, l);
    ReadLengthOk(|text| + 5, t4, l);
    ReadSetsOk(sets, 0, [0], length, l);
    ReadTypeOk(0, [], l);
    assert [0] + [] == [0];
    ClearJoin(l, |t4|, |t3|, |t2|);
    ClearJoin(l, |t4|, |t2|, |t2| + 1);
    ClearJoin(l, |t4|, |t2| + 1, |t1|);
    ClearJoin(l, |t4|, |t1|, length);
  }

  lemma NameShort(name: seq<byte>)
    ensures |StringElem(NameName(), name)| > |name| + 1
  {
    hide Le;
  }

  // ---------------------------------------------------------------- where empty frames do no harm

  ghost predicate InItem(d: DataItem, p: nat) {
    d.offset <= p < d.offset + d.size
  }

  ghost predicate InItems(found: seq<DataItem>, p: nat) {
    exists k: nat :: k < |found| && InItem(found[k], p)
  }

  /** Position `p` lies in the data of an item. */
  ghost predicate InSets(found: seq<DataSet>, p: nat) {
    exists i: nat :: i < |found| && InItems(found[i].items, p)
  }

  lemma InItemsNext(d: DataItem, found: seq<DataItem>, p: nat)
    ensures InItems([d] + found, p) <==> InItem(d, p) || InItems(found, p)
  {
    var all := [d] + found;
    assert all[0] == d && forall k: nat :: k < |found| ==> all[k + 1] == found[k];
    if InItems(all, p) && !InItem(d, p) {
      var k: nat :| k < |all| && InItem(all[k], p);
      assert found[k - 1] == all[k];
    }
  }

  lemma InSetsNext(d: DataSet, found: seq<DataSet>, p: nat)
    ensures InSets([d] + found, p) <==> InItems(d.items, p) || InSets(found, p)
  {
    var all := [d] + found;
    assert all[0] == d && forall k: nat :: k < |found| ==> all[k + 1] == found[k];
    if InSets(all, p) && !InItems(d.items, p) {
      var k: nat :| k < |all| && InItems(all[k].items, p);
      assert found[k - 1] == all[k];
    }
  }

  /** Item data lies in the text of the items. */
  lemma {:induction false} InItemsWithin(items: seq<WireItem>, index: nat, at: nat, p: nat)
    requires InItems(Located(items, index, at), p)
    ensures at <= p < at + |ItemsText(items, index)|
  {
    hide IndexedElem, ItemBody, InItems;
    if items == [] {
      NotInNone(p);
    } else {
      ItemLengths(index, items[0]);
      var end := at + |IndexedElem(index, ItemBody(items[0]))|;
      var d := DataItem(items[0].ident, items[0].key, end - 1 - |items[0].data|, |items[0].data|);
      InItemsNext(d, Located(items[1..], index + 1, end), p);
      if InItems(Located(items[1..], index + 1, end), p) {
        InItemsWithin(items[1..], index + 1, end, p);
      }
    }
  }

  lemma NotInNone(p: nat)
    ensures !InItems([], p) && !InSets([], p)
  {
  }

  lemma {:induction false} InSetsWithin(sets: seq<WireSet>, index: nat, at: nat, p: nat)
    requires InSets(LocatedSets(sets, index, at), p)
    ensures at <= p < at + |SetsText(sets, index)|
  {
    hide IndexedElem, SetBody, InItems, InSets, ItemsText, Located;
    if sets == [] {
      NotInNone(p);
    } else {
      var s, end := sets[0], at + |IndexedElem(index, SetBody(sets[0]))|;
      SetLengths(index, s);
      InSetsNext(DataSet(s.ident, Located(s.items, 0, at + ItemsAt(index, s))), LocatedSets(sets[1..], index + 1, end), p);
      if InSets(LocatedSets(sets[1..], index + 1, end), p) {
        InSetsWithin(sets[1..], index + 1, end, p);
      } else {
        InItemsWithin(s.items, 0, at + ItemsAt(index, s), p);
      }
    }
  }

  /** Empty frames between `hi` and `lo` bytes before the end of a text of `total` bytes lie in item
      data. */
  ghost predicate Harmless(l: Layout, total: nat, found: seq<DataItem>, lo: nat, hi: nat) {
    forall q: nat :: q in l.stops && lo < q <= hi ==> q <= total && InItems(found, total - q)
  }

  ghost predicate HarmlessIn(l: Layout, total: nat, found: seq<DataSet>, lo: nat, hi: nat) {
    forall q: nat :: q in l.stops && lo < q <= hi ==> q <= total && InSets(found, total - q)
  }

  lemma {:induction false} ItemsClearIff(l: Layout, items: seq<WireItem>, index: nat, at: nat, r: nat)
    ensures var size := |ItemsText(items, index)| + 1;
            ItemsClear(l, items, index, r) <==> Harmless(l, at + size + r, Located(items, index, at), r, size + r)
  {
    hide *;
    if items == [] {
      NoItemsClear(l, index, at, r);
    } else {
      var it, e := items[0], |IndexedElem(index, ItemBody(items[0]))|;
      var more, size := Located(items[1..], index + 1, at + e), |ItemsText(items[1..], index + 1)| + 1;
      ItemsUnfold(l, items, index, at, r);
      ItemsClearIff(l, items[1..], index + 1, at + e, r);
      var d := DataItem(it.ident, it.key, at + e - 1 - |it.data|, |it.data|);
      forall p: nat ensures InItems([d] + more, p) <==> InItem(d, p) || InItems(more, p) {
        InItemsNext(d, more, p);
      }
      forall p: nat | p < at + e ensures !InItems(more, p) {
        if InItems(more, p) {
          InItemsWithin(items[1..], index + 1, at + e, p);
        }
      }
      HarmlessSplit(l, at, e, size + r, r, d, more, |it.data|);
    }
  }

  lemma NoItemsClear(l: Layout, index: nat, at: nat, r: nat)
    ensures ItemsText([], index) == [] && (ItemsClear(l, [], index, r) <==> Harmless(l, at + 1 + r, Located([], index, at), r, 1 + r))
  {
  }

  lemma ItemsUnfold(l: Layout, items: seq<WireItem>, index: nat, at: nat, r: nat)
    requires items != []
    ensures var it, e := items[0], |IndexedElem(index, ItemBody(items[0]))|;
            && |it.data| + 1 <= e && |ItemsText(items, index)| == e + |ItemsText(items[1..], index + 1)|
            && Located(items, index, at) == [DataItem(it.ident, it.key, at + e - 1 - |it.data|, |it.data|)] + Located(items[1..], index + 1, at + e)
            && (ItemsClear(l, items, index, r) <==>
                var r1 := |ItemsText(items[1..], index + 1)| + 1 + r;
                Clear(l, |it.data| + 1 + r1, e + r1) && Clear(l, r1, r1 + 1) && ItemsClear(l, items[1..], index + 1, r))
  {
    hide IndexedElem, ItemBody, Clear;
    ItemLengths(index, items[0]);
  }

  /** One item of `e` bytes from `at` on, with `r1` bytes behind it. */
  lemma HarmlessSplit(l: Layout, at: nat, e: nat, r1: nat, r: nat, d: DataItem, more: seq<DataItem>, size: nat)
    requires size + 1 <= e && d.offset == at + e - 1 - size && d.size == size && r <= r1
    requires forall p: nat :: InItems([d] + more, p) <==> InItem(d, p) || InItems(more, p)
    requires forall p: nat :: p < at + e ==> !InItems(more, p)
    ensures Harmless(l, at + e + r1, [d] + more, r, e + r1) <==>
            Clear(l, size + 1 + r1, e + r1) && Clear(l, r1, r1 + 1) && Harmless(l, at + e + r1, more, r, r1)
  {
    hide InItems;
    var total := at + e + r1;
    if Harmless(l, total, [d] + more, r, e + r1) {
      forall q: nat | q in l.stops && r < q <= e + r1
        ensures if q <= r1 then InItems(more, total - q) else r1 + 1 < q <= size + 1 + r1
      {
        assert InItems([d] + more, total - q);
      }
    }
    if Clear(l, size + 1 + r1, e + r1) && Clear(l, r1, r1 + 1) && Harmless(l, total, more, r, r1) {
      forall q: nat | q in l.stops && r < q <= e + r1 ensures InItems([d] + more, total - q) {
        if q > r1 {
          assert InItem(d, total - q);
        }
      }
    }
  }

  lemma {:induction false} SetsClearIff(l: Layout, sets: seq<WireSet>, index: nat, at: nat, r: nat)
    ensures var size := |SetsText(sets, index)| + 1;
            SetsClear(l, sets, index, r) <==> HarmlessIn(l, at + size + r, LocatedSets(sets, index, at), r, size + r)
  {
    hide *;
    if sets == [] {
      NoSetsClear(l, index, at, r);
    } else {
      var s, e := sets[0], |IndexedElem(index, SetBody(sets[0]))|;
      var text, r1 := |ItemsText(s.items, 0)|, |SetsText(sets[1..], index + 1)| + 1 + r;
      var more := LocatedSets(sets[1..], index + 1, at + e);
      SetsUnfold(l, sets, index, at, r);
      SetsClearIff(l, sets[1..], index + 1, at + e, r);
      ItemsClearIff(l, s.items, 0, at + e - text - 2, r1 + 1);
      var d := DataSet(s.ident, Located(s.items, 0, at + e - text - 2));
      forall p: nat ensures InSets([d] + more, p) <==> InItems(d.items, p) || InSets(more, p) {
        InSetsNext(d, more, p);
      }
      forall p: nat | p < at + e ensures !InSets(more, p) {
        if InSets(more, p) {
          InSetsWithin(sets[1..], index + 1, at + e, p);
        }
      }
      forall p: nat | InItems(d.items, p) ensures at + e - text - 2 <= p < at + e - 2 {
        InItemsWithin(s.items, 0, at + e - text - 2, p);
      }
      HarmlessSets(l, at, e, r1, r, d, more, text);
    }
  }

  lemma NoSetsClear(l: Layout, index: nat, at: nat, r: nat)
    ensures SetsText([], index) == [] && (SetsClear(l, [], index, r) <==> HarmlessIn(l, at + 1 + r, LocatedSets([], index, at), r, 1 + r))
  {
  }

  lemma SetsUnfold(l: Layout, sets: seq<WireSet>, index: nat, at: nat, r: nat)
    requires sets != []
    ensures var s, e := sets[0], |IndexedElem(index, SetBody(sets[0]))|;
            var text := |ItemsText(s.items, 0)|;
            && text + 2 <= e && |SetsText(sets, index)| == e + |SetsText(sets[1..], index + 1)|
            && LocatedSets(sets, index, at) == [DataSet(s.ident, Located(s.items, 0, at + e - text - 2))] + LocatedSets(sets[1..], index + 1, at + e)
            && (SetsClear(l, sets, index, r) <==>
                var r1 := |SetsText(sets[1..], index + 1)| + 1 + r;
                Clear(l, text + 2 + r1, e + r1) && ItemsClear(l, s.items, 0, r1 + 1) && Clear(l, r1, r1 + 1) && SetsClear(l, sets[1..], index + 1, r))
  {
    hide IndexedElem, SetBody, Clear, ItemsClear, ItemsText, Located;
    SetLengths(index, sets[0]);
  }

  /** One set of `e` bytes from `at` on, with `r1` bytes behind it. */
  lemma HarmlessSets(l: Layout, at: nat, e: nat, r1: nat, r: nat, d: DataSet, more: seq<DataSet>, text: nat)
    requires text + 2 <= e && r <= r1
    requires forall p: nat :: InSets([d] + more, p) <==> InItems(d.items, p) || InSets(more, p)
    requires forall p: nat :: p < at + e ==> !InSets(more, p)
    requires forall p: nat :: InItems(d.items, p) ==> at + e - text - 2 <= p < at + e - 2
    ensures HarmlessIn(l, at + e + r1, [d] + more, r, e + r1) <==>
            && Clear(l, text + 2 + r1, e + r1) && Harmless(l, at + e + r1, d.items, r1 + 1, text + 1 + (r1 + 1)) && Clear(l, r1, r1 + 1)
            && HarmlessIn(l, at + e + r1, more, r, r1)
  {
    hide InItems, InSets;
    var total := at + e + r1;
    if HarmlessIn(l, total, [d] + more, r, e + r1) {
      forall q: nat | q in l.stops && r < q <= e + r1
        ensures if q <= r1 then InSets(more, total - q) else r1 + 1 < q <= text + 2 + r1 && InItems(d.items, total - q)
      {
        assert InSets([d] + more, total - q);
      }
    }
    if && Clear(l, text + 2 + r1, e + r1) && Harmless(l, total, d.items, r1 + 1, text + 2 + r1) && Clear(l, r1, r1 + 1)
       && HarmlessIn(l, total, more, r, r1) {
      forall q: nat | q in l.stops && r < q <= e + r1 ensures InSets([d] + more, total - q) {
        if q > r1 {
          assert InItems(d.items, total - q);
        }
      }
    }
  }

  // ---------------------------------------------------------------- whole messages

  /** The sets of a request as the reader reports them. */
  function Reported(name: seq<byte>, sets: seq<WireSet>): seq<DataSet> {
    RequestLong(name, sets);
    LocatedSets(sets, 0, |RequestText(name, sets)| - |SetsText(sets, 0)| - 2)
  }

  lemma RequestLong(name: seq<byte>, sets: seq<WireSet>)
    ensures |RequestText(name, sets)| >= |SetsText(sets, 0)| + 2
  {
    hide RequestText, SetsText;
    var front, length := RequestParts(name, sets);
  }

  /** A request is read back, with its function name and its sets, if and only if every empty frame
      lies at its end or in the data of an item; and where the reader says the data of an item is,
      there it is. */
  lemma RequestRoundTrip(name: seq<byte>, sets: seq<WireSet>, l: Layout)
    requires SetsFit(sets) && Utf8.Valid(name) && |RequestText(name, sets)| < INT32_LIMIT
    ensures var w := RequestText(name, sets); var r := ReadRequest(w, l);
            if HarmlessIn(l, |w|, Reported(name, sets), 0, |w|) then r == Ok(Request(name, Reported(name, sets))) else r.Err?
    ensures SetsIn(RequestText(name, sets), Reported(name, sets), sets)
  {
    hide SetsText, ReadRequest, LocatedSets, SetsIn, SetsFit, RequestText, Le, StringElem, Clear, SetsClear, HarmlessIn, Utf8.Valid;
    ReadRequestOk(name, sets, l);
    var front, length := RequestParts(name, sets);
    LocatedSetsIn(front, sets, 0, [0, 0]);
    var text, found := |SetsText(sets, 0)|, Reported(name, sets);
    SetsClearIff(l, sets, 0, |front|, 1);
    forall p: nat | InSets(found, p) ensures |front| <= p < |front| + text {
      InSetsWithin(sets, 0, |front|, p);
    }
    HarmlessEnds(l, length, found, text);
  }

  lemma HarmlessEnds(l: Layout, total: nat, found: seq<DataSet>, text: nat)
    requires text + 2 <= total && forall p: nat :: InSets(found, p) ==> total - 2 - text <= p < total - 2
    ensures HarmlessIn(l, total, found, 0, total) <==> Clear(l, text + 2, total) && HarmlessIn(l, total, found, 1, text + 2) && Clear(l, 0, 1)
  {
    hide InSets;
    if HarmlessIn(l, total, found, 0, total) {
      forall q: nat | q in l.stops && 0 < q <= total ensures 1 < q <= text + 2 {
        assert InSets(found, total - q);
      }
    }
  }

  /** Reading the array of sets of a response gives its sets back. */
  lemma ResponseRoundTrip(sets: seq<WireSet>)
    requires SetsFit(sets) && |ResponseText(sets)| < INT32_LIMIT
    ensures var w := ResponseText(sets);
            |w| >= 14 && var r := ReadSets(w[14..], |w|, OnePiece()); r.Ok? && r.value.rest == [0] && SetsIn(w, r.value.value, sets)
  {
    hide Le, SetsText, ReadSets, LocatedSets, SetsIn, SetsFit;
    var text, w := SetsText(sets, 0), ResponseText(sets);
    var front := Le(|ArrayElem(SetsName(), text)| + 5, 4) + [4] + (SetsName() + [0]) + Le(|text| + 5, 4);
    assert w == front + text + [0, 0];
    assert w[14..] == text + ([0] + [0]);
    ReadSetsOk(sets, 0, [0], |w|, OnePiece());
    SetsClearIff(OnePiece(), sets, 0, |front|, 1);
    LocatedSetsIn(front, sets, 0, [0, 0]);
  }
}
