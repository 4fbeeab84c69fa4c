/** Sending a response: a cursor over the encoded bytes and the item data, which are never copied into
    one buffer. */
module Streams {
  import opened Common
  import opened Overlay
  import opened Contexts
  import opened Responses
  import Frames
  import Bson

  /** What is read next and how much is left of it: the bytes up to item `index`, the data of item
      `index`, or the bytes behind the last item. */
  datatype ReadMode = ToItem(index: nat, left: nat) | ToItemEnd(index: nat, left: nat) | ToEnd(left: nat)

  /** The offset of the item before item `i`. */
  function Prev(items: seq<ItemData>, i: nat): nat {
    if 0 < i <= |items| then items[i - 1].offset else 0
  }

  ghost predicate Sound(serial: seq<byte>, items: seq<ItemData>) {
    Ascending(items, 0, |serial|) && AllDefined(items)
  }

  ghost predicate ValidMode(serial: seq<byte>, items: seq<ItemData>, m: ReadMode) {
    match m
    case ToItem(i, n) => i < |items| && n <= items[i].offset - Prev(items, i)
    case ToItemEnd(i, n) => i < |items| && n <= items[i].size
    case ToEnd(n) => n <= |serial| - Prev(items, |items|)
  }

  /** The text behind item `i`. */
  ghost function Behind(serial: seq<byte>, items: seq<ItemData>, i: nat): seq<byte>
    requires i < |items| && items[i].offset <= |serial|
  {
    Text(items[i].offset, serial[items[i].offset..], items[i + 1..])
  }

  /** What has not been read yet. */
  ghost function Ahead(serial: seq<byte>, items: seq<ItemData>, m: ReadMode): seq<byte>
    requires Sound(serial, items) && ValidMode(serial, items, m)
  {
    match m
    case ToItem(i, n) => serial[items[i].offset - n..items[i].offset] + (DataOf(items[i]) + Behind(serial, items, i))
    case ToItemEnd(i, n) => DataOf(items[i])[items[i].size - n..] + Behind(serial, items, i)
    case ToEnd(n) => serial[|serial| - n..]
  }

  /** The mode behind item `i`. */
  function NextMode(serial: seq<byte>, items: seq<ItemData>, i: nat): ReadMode
    requires i < |items| && items[i].offset <= |serial| && (i + 1 < |items| ==> items[i].offset <= items[i + 1].offset)
  {
    if i + 1 >= |items| then ToEnd(|serial| - items[i].offset)
    else if items[i + 1].offset == items[i].offset then ToItemEnd(i + 1, items[i + 1].size)
    else ToItem(i + 1, items[i + 1].offset - items[i].offset)
  }

  /** Text up to an item, the item's data, and the rest. */
  lemma TextFirst(serial: seq<byte>, items: seq<ItemData>, i: nat, from: nat)
    requires Ascending(items, 0, |serial|) && i < |items| && Prev(items, i) <= from <= items[i].offset
    ensures Text(from, serial[from..], items[i..]) == serial[from..items[i].offset] + (DataOf(items[i]) + Behind(serial, items, i))
  {
    hide Text, DataOf, Ascending;
    AscendingAt(serial, items, i, from);
    var d := items[i];
    var a, b := serial[from..d.offset], serial[d.offset..];
    assert serial[from..] == a + b && items[i..] == [d] + items[i + 1..];
    TextJoin(from, a, [d], b, items[i + 1..]);
    OneItem(from, a, d);
    Regroup(a, DataOf(d), Behind(serial, items, i));
  }

  lemma Regroup(a: seq<byte>, b: seq<byte>, c: seq<byte>)
    ensures (a + b) + c == a + (b + c)
  {
  }

  lemma AscendingAt(serial: seq<byte>, items: seq<ItemData>, i: nat, from: nat)
    requires Ascending(items, 0, |serial|) && i < |items| && from <= items[i].offset
    ensures items[i].offset <= |serial|
    ensures Ascending([items[i]], from, items[i].offset) && Ascending(items[i + 1..], items[i].offset, |serial|)
  {
  }

  lemma OneItem(from: nat, a: seq<byte>, d: ItemData)
    requires d.offset == from + |a|
    ensures Text(from, a, [d]) == a + DataOf(d)
  {
    hide DataOf;
    assert a + [] == a && [] + [d] == [d];
    TextLast(from, a, [], [], d);
    TextNoItems(from, a);
  }

  lemma NextAhead(serial: seq<byte>, items: seq<ItemData>, i: nat)
    requires Sound(serial, items) && i < |items|
    ensures ValidMode(serial, items, NextMode(serial, items, i))
    ensures Ahead(serial, items, NextMode(serial, items, i)) == Behind(serial, items, i)
  {
    hide DataOf, Text;
    if i + 1 >= |items| {
      assert items[i + 1..] == [];
      TextNoItems(items[i].offset, serial[items[i].offset..]);
    } else {
      TextFirst(serial, items, i + 1, items[i].offset);
    }
  }

  function Rank(items: seq<ItemData>, m: ReadMode): nat {
    match m
    case ToItem(i, _) => if i < |items| then 2 * (|items| - i) + 1 else 0
    case ToItemEnd(i, _) => if i < |items| then 2 * (|items| - i) else 0
    case ToEnd(_) => 0
  }

  datatype Advanced = Advanced(by_: nat, mode: ReadMode)

  /** Moves by at most `k` bytes within what is read next, or to what comes behind it. */
  function AdvanceDescriptor(serial: seq<byte>, items: seq<ItemData>, m: ReadMode, k: nat): (r: Advanced)
    requires Ascending(items, 0, |serial|) && ValidMode(serial, items, m)
    ensures r.by_ == Min(k, m.left)
    ensures r.by_ == k || Rank(items, r.mode) < Rank(items, m) || m.ToEnd?
    ensures Rank(items, r.mode) < Rank(items, m) || r.mode == m.(left := m.left - r.by_)
    ensures !m.ToEnd? && k >= m.left ==> Rank(items, r.mode) < Rank(items, m)
  {
    match m
    case ToEnd(n) => if n >= k then Advanced(k, ToEnd(n - k)) else Advanced(n, ToEnd(0))
    case ToItem(i, n) => if n > k then Advanced(k, ToItem(i, n - k)) else Advanced(n, ToItemEnd(i, items[i].size))
    case ToItemEnd(i, n) => if n > k then Advanced(k, ToItemEnd(i, n - k)) else Advanced(n, NextMode(serial, items, i))
  }

  lemma AdvanceAhead(serial: seq<byte>, items: seq<ItemData>, m: ReadMode, k: nat)
    requires Sound(serial, items) && ValidMode(serial, items, m)
    ensures var r := AdvanceDescriptor(serial, items, m, k);
            && ValidMode(serial, items, r.mode)
            && r.by_ <= |Ahead(serial, items, m)|
            && Ahead(serial, items, r.mode) == Ahead(serial, items, m)[r.by_..]
  {
    hide *;
    match m
    case ToEnd(n) => AdvanceToEnd(serial, items, m, k);
    case ToItem(i, n) => AdvanceToItem(serial, items, m, k);
    case ToItemEnd(i, n) => AdvanceToItemEnd(serial, items, m, k);
  }

  lemma AdvanceToEnd(serial: seq<byte>, items: seq<ItemData>, m: ReadMode, k: nat)
    requires Sound(serial, items) && ValidMode(serial, items, m) && m.ToEnd?
    ensures var r := AdvanceDescriptor(serial, items, m, k);
            && ValidMode(serial, items, r.mode)
            && r.by_ <= |Ahead(serial, items, m)|
            && Ahead(serial, items, r.mode) == Ahead(serial, items, m)[r.by_..]
  {
    hide DataOf, Behind, Ascending, Defined, NextMode;
  }

  lemma AdvanceToItem(serial: seq<byte>, items: seq<ItemData>, m: ReadMode, k: nat)
    requires Sound(serial, items) && ValidMode(serial, items, m) && m.ToItem?
    ensures var r := AdvanceDescriptor(serial, items, m, k);
            && ValidMode(serial, items, r.mode)
            && r.by_ <= |Ahead(serial, items, m)|
            && Ahead(serial, items, r.mode) == Ahead(serial, items, m)[r.by_..]
  {
    hide DataOf, Behind, Ascending, Defined, NextMode, Ahead, Sound;
    var i, n := m.index, m.left;
    SoundItem(serial, items, i);
    var rest := DataOf(items[i]) + Behind(serial, items, i);
    AheadToItem(serial, items, i, n);
    if n > k {
      AheadToItem(serial, items, i, n - k);
      DropSlice(serial, items[i].offset - n, items[i].offset, rest, k);
    } else {
      AheadAtItem(serial, items, i);
      DropAll(serial[items[i].offset - n..items[i].offset], rest);
    }
  }

  lemma AheadToItem(serial: seq<byte>, items: seq<ItemData>, i: nat, n: nat)
    requires Sound(serial, items) && ValidMode(serial, items, ToItem(i, n))
    ensures items[i].offset <= |serial|
    ensures Ahead(serial, items, ToItem(i, n)) == serial[items[i].offset - n..items[i].offset] + (DataOf(items[i]) + Behind(serial, items, i))
  {
    hide DataOf, Behind, Defined;
  }

  lemma AheadAtItem(serial: seq<byte>, items: seq<ItemData>, i: nat)
    requires Sound(serial, items) && i < |items|
    ensures items[i].offset <= |serial|
    ensures Ahead(serial, items, ToItemEnd(i, items[i].size)) == DataOf(items[i]) + Behind(serial, items, i)
  {
    hide DataOf, Behind, Defined;
    assert DataOf(items[i])[0..] == DataOf(items[i]);
  }

  lemma AdvanceToItemEnd(serial: seq<byte>, items: seq<ItemData>, m: ReadMode, k: nat)
    requires Sound(serial, items) && ValidMode(serial, items, m) && m.ToItemEnd?
    ensures var r := AdvanceDescriptor(serial, items, m, k);
            && ValidMode(serial, items, r.mode)
            && r.by_ <= |Ahead(serial, items, m)|
            && Ahead(serial, items, r.mode) == Ahead(serial, items, m)[r.by_..]
  {
    hide DataOf, Behind, Ascending, Defined, NextMode, Text;
    var i, n := m.index, m.left;
    SoundItem(serial, items, i);
    if n > k {
      DropRest(DataOf(items[i]), items[i].size - n, Behind(serial, items, i), k);
    } else {
      DropAll(DataOf(items[i])[items[i].size - n..], Behind(serial, items, i));
      NextAhead(serial, items, i);
    }
  }

  lemma SoundItem(serial: seq<byte>, items: seq<ItemData>, i: nat)
    requires Sound(serial, items) && i < |items|
    ensures items[i].offset <= |serial| && Prev(items, i) <= items[i].offset
  {
    hide Defined;
  }

  lemma DropAll(s: seq<byte>, rest: seq<byte>)
    ensures (s + rest)[|s|..] == rest
  {
  }

  lemma DropSlice(s: seq<byte>, lo: nat, hi: nat, rest: seq<byte>, k: nat)
    requires lo + k <= hi <= |s|
    ensures (s[lo..hi] + rest)[k..] == s[lo + k..hi] + rest
  {
  }

  lemma DropRest(s: seq<byte>, lo: nat, rest: seq<byte>, k: nat)
    requires lo + k <= |s|
    ensures (s[lo..] + rest)[k..] == s[lo + k..] + rest
  {
  }

  // ---------------------------------------------------------------- the cursor is determined by what is left

  /** A cursor never rests in front of nothing, except at the very end. */
  ghost predicate Normal(m: ReadMode) {
    m.left > 0 || m == ToEnd(0)
  }

  lemma AheadLength(serial: seq<byte>, items: seq<ItemData>, m: ReadMode)
    requires Sound(serial, items) && ValidMode(serial, items, m)
    ensures |Ahead(serial, items, m)| ==
            match m
            case ToItem(i, n) => n + items[i].size + |Behind(serial, items, i)|
            case ToItemEnd(i, n) => n + |Behind(serial, items, i)|
            case ToEnd(n) => n
  {
    hide DataOf, Behind, Ascending, Defined;
    if !m.ToEnd? {
      SoundItem(serial, items, m.index);
    }
  }

  lemma BehindLength(serial: seq<byte>, items: seq<ItemData>, i: nat)
    requires Sound(serial, items) && i < |items|
    ensures |Behind(serial, items, i)| ==
            if i + 1 < |items| then items[i + 1].offset - items[i].offset + items[i + 1].size + |Behind(serial, items, i + 1)|
            else |serial| - items[i].offset
  {
    hide DataOf, Text, Defined, AllDefined;
    if i + 1 < |items| {
      TextFirst(serial, items, i + 1, items[i].offset);
    } else {
      assert items[i + 1..] == [];
      TextNoItems(items[i].offset, serial[items[i].offset..]);
    }
  }

  lemma {:induction false} BehindLonger(serial: seq<byte>, items: seq<ItemData>, i: nat, j: nat)
    requires Sound(serial, items) && i < j < |items|
    ensures |Behind(serial, items, i)| >= items[j].offset - Prev(items, j) + items[j].size + |Behind(serial, items, j)|
    decreases j - i
  {
    hide Behind;
    BehindLength(serial, items, i);
    if i + 1 < j {
      BehindLonger(serial, items, i + 1, j);
    }
  }

  lemma {:induction false} BehindEnd(serial: seq<byte>, items: seq<ItemData>, i: nat)
    requires Sound(serial, items) && i < |items|
    ensures |Behind(serial, items, i)| >= |serial| - Prev(items, |items|)
    decreases |items| - i
  {
    hide Behind;
    BehindLength(serial, items, i);
    if i + 1 < |items| {
      BehindEnd(serial, items, i + 1);
    }
  }

  /** Modes further on have less ahead of them. */
  lemma FurtherIsLess(serial: seq<byte>, items: seq<ItemData>, m: ReadMode, o: ReadMode)
    requires Sound(serial, items) && ValidMode(serial, items, m) && ValidMode(serial, items, o)
    requires Normal(m) && Rank(items, m) > Rank(items, o)
    ensures |Ahead(serial, items, m)| > |Ahead(serial, items, o)|
  {
    hide Behind, Ahead, Sound;
    AheadLength(serial, items, m);
    AheadLength(serial, items, o);
    if o.ToEnd? {
      BehindEnd(serial, items, m.index);
    } else if m.index < o.index {
      SoundItem(serial, items, o.index);
      BehindLonger(serial, items, m.index, o.index);
    }
  }

  /** Where a cursor is depends only on how much is left, not on how it got there. */
  lemma SamePlace(serial: seq<byte>, items: seq<ItemData>, m: ReadMode, o: ReadMode)
    requires Sound(serial, items) && ValidMode(serial, items, m) && ValidMode(serial, items, o) && Normal(m) && Normal(o)
    requires |Ahead(serial, items, m)| == |Ahead(serial, items, o)|
    ensures m == o
  {
    hide Behind, Ahead, Sound;
    if Rank(items, m) > Rank(items, o) {
      FurtherIsLess(serial, items, m, o);
    } else if Rank(items, o) > Rank(items, m) {
      FurtherIsLess(serial, items, o, m);
    } else {
      AheadLength(serial, items, m);
      AheadLength(serial, items, o);
    }
  }

  // ---------------------------------------------------------------- the buffer

  class DandelionBuf {
    var remaining: nat
    var readOffset: ReadMode
    const serial: seq<byte>
    const items: seq<ItemData>

    ghost predicate Valid()
      reads this
    {
      Sound(serial, items) && ValidMode(serial, items, readOffset) && remaining == |Ahead(serial, items, readOffset)|
    }

    /** The cursor in front of an encoded response. */
    constructor (serial: seq<byte>, items: seq<ItemData>, total: nat)
      requires Sound(serial, items) && |serial| + total == |Text(0, serial, items)|
      ensures Valid() && this.serial == serial && this.items == items
      ensures Ahead(serial, items, readOffset) == Text(0, serial, items)
      ensures items == [] || items[0].offset > 0 || items[0].size > 0 ==> Normal(readOffset)
    {
      this.serial, this.items, this.remaining := serial, items, |serial| + total;
      this.readOffset :=
        if items == [] then ToEnd(|serial|)
        else if items[0].offset > 0 then ToItem(0, items[0].offset)
        else ToItemEnd(0, items[0].size);
      new;
      StartsAhead(serial, items);
    }

    /** Drops `count` bytes, or everything when there are fewer. */
    method Advance(count: nat)
      requires Valid()
      modifies this
      ensures Valid() && Normal(readOffset)
      ensures Ahead(serial, items, readOffset) ==
              if count <= old(remaining) then old(Ahead(serial, items, readOffset))[count..] else []
      ensures remaining == if count <= old(remaining) then old(remaining) - count else 0
    {
      hide Ahead, Sound, ValidMode, AdvanceDescriptor;
      if count > remaining {
        remaining, readOffset := 0, ToEnd(0);
        AtEnd(serial, items);
        return;
      }
      ghost var all := Ahead(serial, items, readOffset);
      remaining := remaining - count;
      var left: nat := count;
      assert all == all[0..];
      while true
        invariant left <= count <= |all| && remaining == |all| - count && Sound(serial, items) && ValidMode(serial, items, readOffset)
        invariant Ahead(serial, items, readOffset) == all[count - left..]
        decreases Rank(items, readOffset), left
      {
        SoundAscending(serial, items);
        AdvanceAhead(serial, items, readOffset, left);
        AdvanceFacts(serial, items, readOffset, left);
        var r := AdvanceDescriptor(serial, items, readOffset, left);
        left := left - r.by_;
        readOffset := r.mode;
        if r.mode.left == 0 && r.mode != ToEnd(0) {
          continue;
        }
        if left == 0 {
          break;
        }
      }
    }

    /** Bytes in front of the cursor, as many as lie together; only the data of an item without data
        may not be there. */
    method GetChunk(m: ReadMode) returns (r: Result<seq<byte>>)
      requires Sound(serial, items) && ValidMode(serial, items, m)
      ensures r.Ok? ==> |r.value| <= m.left && r.value <= Ahead(serial, items, m) && (m.left > 0 ==> r.value != [])
      ensures m.left > 0 || !m.ToItemEnd? ==> r.Ok?
      ensures r.Ok? && !m.ToItemEnd? ==> |r.value| == m.left
    {
      hide Behind, DataOf, Ascending, ByteAt, Defined;
      match m
      case ToEnd(n) =>
        r := Ok(serial[|serial| - n..]);
      case ToItem(i, n) =>
        SoundItem(serial, items, i);
        r := Ok(serial[items[i].offset - n..items[i].offset]);
      case ToItemEnd(i, n) =>
        var d := items[i];
        r := Contexts.GetChunkRef(d.context, d.position + (d.size - n), n);
        SuffixDefined(d, n);
        if r.Ok? {
          ChunkOfData(d, n, r.value);
        }
    }

    /** The next piece to send. */
    method Chunk() returns (r: Result<seq<byte>>)
      requires Valid()
      ensures r.Ok? ==> r.value <= Ahead(serial, items, readOffset)
      ensures readOffset.left > 0 ==> r.Ok? && r.value != []
    {
      r := GetChunk(readOffset);
    }

    /** The next pieces, at most `slots` of them, without moving the cursor. */
    method ChunksVectored(slots: nat) returns (r: Result<seq<seq<byte>>>)
      requires Valid()
      ensures r.Ok? ==> |r.value| <= slots && [] !in r.value && Frames.Flatten(r.value) <= Ahead(serial, items, readOffset)
      ensures (forall k: nat :: k < |items| ==> items[k].size > 0) && Normal(readOffset) ==> r.Ok?
      ensures r.Ok? && slots > 0 && remaining > 0 && Normal(readOffset) ==> r.value != []
      ensures r.Ok? && |r.value| < slots ==> Frames.Flatten(r.value) == Ahead(serial, items, readOffset)
    {
      hide Ahead, Sound, ValidMode, AdvanceDescriptor, Gathered;
      var pieces: seq<seq<byte>>, next: ReadMode, left: nat := [], readOffset, remaining;
      ghost var all: seq<byte>, done: nat := Ahead(serial, items, readOffset), 0;
      NothingGathered(serial, items, readOffset);
      if remaining > 0 && Normal(readOffset) {
        NotAtEnd(serial, items, readOffset);
      }
      while |pieces| < slots && next != ToEnd(0) && left > 0
        invariant |pieces| <= slots && Sound(serial, items) && Gathered(serial, items, pieces, all, done, next) && done + left == |all|
        invariant (forall k: nat :: k < |items| ==> items[k].size > 0) && Normal(readOffset) ==> Normal(next)
        invariant pieces == [] && Normal(readOffset) ==> done == 0 && next == readOffset
        decreases Rank(items, next), next.left
      {
        GatheredMode(serial, items, pieces, all, done, next);
        var chunk := GetChunk(next);
        if chunk.Err? {
          return Err(Panic);
        }
        GatherStep(serial, items, pieces, all, done, next, chunk.value);
        if |chunk.value| > 0 {
          pieces := pieces + [chunk.value];
        }
        done := done + |chunk.value|;
        left := left - |chunk.value|;
        next := AdvanceDescriptor(serial, items, next, |chunk.value|).mode;
      }
      GatheredPrefix(serial, items, pieces, all, done, next);
      if next == ToEnd(0) || left == 0 {
        GatheredAll(serial, items, pieces, all, done, next);
      }
      return Ok(pieces);
    }
  }

  /** The pieces are the first `done` bytes of `all`, and `next` is behind them. */
  ghost predicate Gathered(serial: seq<byte>, items: seq<ItemData>, pieces: seq<seq<byte>>, all: seq<byte>, done: nat, next: ReadMode) {
    && [] !in pieces && Sound(serial, items) && ValidMode(serial, items, next) && done <= |all|
    && Ahead(serial, items, next) == all[done..] && Frames.Flatten(pieces) == all[..done]
  }

  lemma NothingGathered(serial: seq<byte>, items: seq<ItemData>, m: ReadMode)
    requires Sound(serial, items) && ValidMode(serial, items, m)
    ensures Gathered(serial, items, [], Ahead(serial, items, m), 0, m)
  {
    hide Ahead, Sound, ValidMode;
    NoPieces();
  }

  lemma GatheredMode(serial: seq<byte>, items: seq<ItemData>, pieces: seq<seq<byte>>, all: seq<byte>, done: nat, next: ReadMode)
    requires Gathered(serial, items, pieces, all, done, next)
    ensures ValidMode(serial, items, next) && Ahead(serial, items, next) == all[done..] && Ascending(items, 0, |serial|)
  {
    hide Ahead, ValidMode;
  }

  lemma GatheredPrefix(serial: seq<byte>, items: seq<ItemData>, pieces: seq<seq<byte>>, all: seq<byte>, done: nat, next: ReadMode)
    requires Gathered(serial, items, pieces, all, done, next)
    ensures [] !in pieces && Frames.Flatten(pieces) <= all
  {
    hide Ahead, Sound, ValidMode;
  }

  lemma GatheredAll(serial: seq<byte>, items: seq<ItemData>, pieces: seq<seq<byte>>, all: seq<byte>, done: nat, next: ReadMode)
    requires Gathered(serial, items, pieces, all, done, next) && (next == ToEnd(0) || done == |all|)
    ensures Frames.Flatten(pieces) == all
  {
    hide Sound, ValidMode, Frames.Flatten;
    if next == ToEnd(0) {
      AtEnd(serial, items);
    }
    assert all[..|all|] == all;
  }

  lemma GatherStep(serial: seq<byte>, items: seq<ItemData>, pieces: seq<seq<byte>>, all: seq<byte>, done: nat, m: ReadMode, chunk: seq<byte>)
    requires Gathered(serial, items, pieces, all, done, m) && ValidMode(serial, items, m) && Ascending(items, 0, |serial|)
    requires chunk <= all[done..] && |chunk| <= m.left && (m.left > 0 ==> chunk != []) && m != ToEnd(0)
    ensures var r := AdvanceDescriptor(serial, items, m, |chunk|);
            && Gathered(serial, items, if chunk == [] then pieces else pieces + [chunk], all, done + |chunk|, r.mode)
            && (Rank(items, r.mode) < Rank(items, m) || (Rank(items, r.mode) == Rank(items, m) && r.mode.left < m.left))
            && ((forall i: nat :: i < |items| ==> items[i].size > 0) ==> Normal(r.mode))
  {
    hide Ahead, Sound, ValidMode, AdvanceDescriptor, Frames.Flatten;
    AdvanceAhead(serial, items, m, |chunk|);
    AdvanceStep(serial, items, m, |chunk|);
    AddPiece(pieces, chunk, all, done);
    assert all[done..][|chunk|..] == all[done + |chunk|..];
  }

  lemma NoPieces()
    ensures Frames.Flatten([]) == []
  {
  }

  lemma AddPiece(pieces: seq<seq<byte>>, piece: seq<byte>, all: seq<byte>, done: nat)
    requires done <= |all| && Frames.Flatten(pieces) == all[..done] && piece <= all[done..]
    ensures done + |piece| <= |all| && Frames.Flatten(pieces + [piece]) == all[..done + |piece|]
  {
    Frames.FlattenSplit(pieces + [piece], |pieces|);
    assert (pieces + [piece])[..|pieces|] == pieces && (pieces + [piece])[|pieces|..] == [piece];
    assert Frames.Flatten([piece]) == piece;
  }

  lemma AdvanceStep(serial: seq<byte>, items: seq<ItemData>, m: ReadMode, k: nat)
    requires Sound(serial, items) && ValidMode(serial, items, m) && Ascending(items, 0, |serial|) && k <= m.left && (m.left > 0 ==> k > 0) && m != ToEnd(0)
    ensures var r := AdvanceDescriptor(serial, items, m, k);
            && r.by_ == k
            && (Rank(items, r.mode) < Rank(items, m) || (Rank(items, r.mode) == Rank(items, m) && r.mode.left < m.left))
            && ((forall i: nat :: i < |items| ==> items[i].size > 0) ==> Normal(r.mode))
  {
    hide Defined, AllDefined;
  }

  lemma SuffixDefined(d: ItemData, n: nat)
    requires Defined(d.context, d.position, d.size) && n <= d.size
    ensures Defined(d.context, d.position + (d.size - n), n)
  {
  }

  lemma ChunkOfData(d: ItemData, n: nat, chunk: seq<byte>)
    requires n <= d.size && |chunk| <= n && Shows(d.context, d.position + (d.size - n), chunk)
    ensures chunk <= DataOf(d)[d.size - n..]
  {
    forall k: nat | k < |chunk| ensures chunk[k] == DataOf(d)[d.size - n..][k] {
      var a: nat := d.position + (d.size - n) + k;
      assert ByteAt(d.context, a) == Some(chunk[a - (d.position + (d.size - n))]);
      assert DataOf(d)[d.size - n + k] == ByteOf(d.context, a);
    }
  }

  /** Advancing in two steps or in one leads to the same state. */
  method AdvanceInTwo(one: DandelionBuf, two: DandelionBuf, a: nat, b: nat)
    requires one != two && one.Valid() && one.serial == two.serial && one.items == two.items
    requires one.remaining == two.remaining && one.readOffset == two.readOffset && a + b <= one.remaining
    modifies one, two
    ensures one.readOffset == two.readOffset && one.remaining == two.remaining == old(one.remaining) - a - b
  {
    hide Ahead, Sound, ValidMode;
    one.Advance(a);
    one.Advance(b);
    two.Advance(a + b);
    SamePlace(one.serial, one.items, one.readOffset, two.readOffset);
  }

  /** Encodes a response and sends it piece by piece: what goes out is the document of the sets. */
  method Send(sets: seq<Option<ResponseSet>>) returns (sent: seq<byte>)
    requires SetsDefined(sets)
    ensures sent == Bson.ResponseText(Kept(sets))
  {
    hide Ahead, ValidMode, Kept, Text, Ascending, AllDefined, Bson.ResponseText;
    var writer := new Writer();
    var total := writer.EncodeResponse(sets);
    var buffer := new DandelionBuf(writer.response, writer.items, total);
    ghost var text := Bson.ResponseText(Kept(sets));
    sent := [];
    assert text[0..] == text;
    while buffer.remaining > 0
      invariant fresh(buffer) && buffer.Valid() && Normal(buffer.readOffset)
      invariant |sent| <= |text| && text[..|sent|] == sent && Ahead(buffer.serial, buffer.items, buffer.readOffset) == text[|sent|..]
      decreases buffer.remaining
    {
      NotAtEnd(buffer.serial, buffer.items, buffer.readOffset);
      var chunk := buffer.Chunk();
      SentMore(text, sent, chunk.value);
      buffer.Advance(|chunk.value|);
      sent := sent + chunk.value;
    }
  }

  lemma NotAtEnd(serial: seq<byte>, items: seq<ItemData>, m: ReadMode)
    requires Sound(serial, items) && ValidMode(serial, items, m) && Normal(m) && Ahead(serial, items, m) != []
    ensures m.left > 0
  {
  }

  lemma SentMore(text: seq<byte>, sent: seq<byte>, chunk: seq<byte>)
    requires |sent| <= |text| && text[..|sent|] == sent && chunk <= text[|sent|..]
    ensures |sent + chunk| <= |text| && text[..|sent + chunk|] == sent + chunk && text[|sent|..][|chunk|..] == text[|sent + chunk|..]
  {
  }

  lemma SoundAscending(serial: seq<byte>, items: seq<ItemData>)
    requires Sound(serial, items)
    ensures Ascending(items, 0, |serial|)
  {
  }

  lemma AtEnd(serial: seq<byte>, items: seq<ItemData>)
    requires Sound(serial, items)
    ensures ValidMode(serial, items, ToEnd(0)) && Ahead(serial, items, ToEnd(0)) == []
  {
  }

  lemma StartsAhead(serial: seq<byte>, items: seq<ItemData>)
    requires Sound(serial, items)
    ensures var m := if items == [] then ToEnd(|serial|)
                     else if items[0].offset > 0 then ToItem(0, items[0].offset)
                     else ToItemEnd(0, items[0].size);
            ValidMode(serial, items, m) && Ahead(serial, items, m) == Text(0, serial, items)
  {
    hide Text, Defined, AllDefined, DataOf, Behind;
    assert serial[0..] == serial && items[0..] == items;
    if items == [] {
      TextNoItems(0, serial);
    } else {
      TextFirst(serial, items, 0, 0);
      assert DataOf(items[0])[0..] == DataOf(items[0]);
      assert items[0].offset == 0 ==> serial[0..0] + (DataOf(items[0]) + Behind(serial, items, 0)) == DataOf(items[0]) + Behind(serial, items, 0);
    }
  }

  lemma AdvanceFacts(serial: seq<byte>, items: seq<ItemData>, m: ReadMode, k: nat)
    requires Sound(serial, items) && ValidMode(serial, items, m) && Ascending(items, 0, |serial|) && k <= |Ahead(serial, items, m)|
    ensures var r := AdvanceDescriptor(serial, items, m, k);
            && (Rank(items, r.mode) < Rank(items, m) || (r.by_ == k && (r.mode.left > 0 || r.mode == ToEnd(0))))
  {
    hide Behind, DataOf, Ascending, Defined;
  }
}
