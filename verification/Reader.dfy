/** Reading a request from the frames it arrived in, without joining them. */
module Readers {
  import opened Common
  import Frames
  import Bson
  import RoundTrips
  import Grammar
  import Utf8

  /** The outcome of reading agrees with reading from the bytes in one piece. */
  ghost predicate Reads<T>(spec: Result<Bson.Parsed<T>>, r: Result<T>, after: seq<byte>) {
    if spec.Ok? then r == Ok(spec.value.value) && after == spec.value.rest else r == Err(spec.error)
  }

  ghost predicate Checks(spec: Result<seq<byte>>, r: Result<()>, after: seq<byte>) {
    if spec.Ok? then r == Ok(()) && after == spec.value else r == Err(spec.error)
  }

  ghost predicate NoneEmpty(frames: seq<seq<byte>>) {
    forall i: nat :: i < |frames| ==> frames[i] != []
  }

  lemma DropWithin(a: seq<byte>, lo: nat, b: seq<byte>, k: nat)
    requires lo + k <= |a|
    ensures (a[lo..] + b)[k..] == a[lo + k..] + b
  {
  }

  lemma DropTwice(all: seq<byte>, k: nat, n: nat)
    requires k + n <= |all|
    ensures all[k..][n..] == all[k + n..] && all[..k] + all[k..][..n] == all[..k + n]
  {
  }

  // ---------------------------------------------------------------- where frames begin

  /** How many bytes frame `i` and those behind it hold. */
  function BytesFrom(frames: seq<seq<byte>>, i: nat): nat
    requires i <= |frames|
  {
    |Frames.Flatten(frames[i..])|
  }

  function LayoutOf(frames: seq<seq<byte>>): Bson.Layout {
    Bson.Layout(set i | 0 <= i < |frames| :: BytesFrom(frames, i), set i | 0 <= i < |frames| && frames[i] == [] :: BytesFrom(frames, i))
  }

  lemma BytesNext(frames: seq<seq<byte>>, i: nat)
    requires i < |frames|
    ensures BytesFrom(frames, i) == |frames[i]| + BytesFrom(frames, i + 1)
  {
    Frames.FlattenAt(frames, i);
  }

  lemma {:induction false} BytesFewer(frames: seq<seq<byte>>, i: nat, j: nat)
    requires i <= j <= |frames|
    ensures BytesFrom(frames, i) >= BytesFrom(frames, j)
    decreases j - i
  {
    if i < j {
      BytesFewer(frames, i + 1, j);
      BytesNext(frames, i);
    }
  }

  ghost function From(frames: seq<seq<byte>>, i: nat, offset: nat): seq<byte> {
    if i < |frames| && offset <= |frames[i]| then frames[i][offset..] + Frames.Flatten(frames[i + 1..]) else []
  }

  /** The cursor stands in a frame, or at its beginning behind a frame that is not empty. */
  ghost predicate Rested(frames: seq<seq<byte>>, i: nat, offset: nat) {
    Within(frames, i, offset) && (offset == 0 && i > 0 ==> frames[i - 1] != [])
  }

  /** The cursor stands in a frame or at its beginning. */
  ghost predicate Within(frames: seq<seq<byte>>, i: nat, offset: nat) {
    i <= |frames| && (offset == 0 || (i < |frames| && offset < |frames[i]|))
  }

  lemma FromSize(frames: seq<seq<byte>>, i: nat, offset: nat)
    requires i < |frames| && offset <= |frames[i]|
    ensures |From(frames, i, offset)| == |frames[i]| - offset + BytesFrom(frames, i + 1)
    ensures frames[i][offset..] <= From(frames, i, offset)
  {
  }

  /** No frame begins strictly between `hi` and `lo` bytes before the end. */
  ghost predicate Uncut(l: Bson.Layout, lo: nat, hi: nat) {
    (forall r: nat :: r in l.cuts ==> !(lo < r < hi)) && (forall r: nat :: r in l.stops ==> !(lo < r < hi))
  }

  lemma StopBefore(frames: seq<seq<byte>>, j: nat, i: nat, offset: nat)
    requires Rested(frames, i, offset) && j < i < |frames| && frames[j] == []
    ensures BytesFrom(frames, j) > |frames[i]| - offset + BytesFrom(frames, i + 1)
  {
    hide BytesFrom;
    BytesNext(frames, i);
    BytesFewer(frames, j, i - 1);
    BytesNext(frames, i - 1);
    BytesNext(frames, j);
    if j < i - 1 {
      BytesFewer(frames, j + 1, i - 1);
    }
  }

  /** A cursor at rest sees nothing in its frame exactly where the layout has an empty frame. */
  lemma RestedStop(frames: seq<seq<byte>>, i: nat, offset: nat)
    requires Rested(frames, i, offset) && From(frames, i, offset) != []
    ensures i < |frames| && (frames[i] == [] <==> |From(frames, i, offset)| in LayoutOf(frames).stops)
  {
    FromSize(frames, i, offset);
    hide From, BytesFrom, Rested;
    var r := |From(frames, i, offset)|;
    BytesNext(frames, i);
    RestedInside(frames, i, offset);
    if r in LayoutOf(frames).stops {
      var j: nat :| j < |frames| && frames[j] == [] && BytesFrom(frames, j) == r;
      if j < i {
        StopBefore(frames, j, i, offset);
      } else if j > i {
        BytesFewer(frames, i + 1, j);
      }
    }
  }

  lemma RestedWithin(frames: seq<seq<byte>>, i: nat, offset: nat)
    requires Rested(frames, i, offset)
    ensures Within(frames, i, offset) && i <= |frames|
  {
  }

  lemma WithinFrame(frames: seq<seq<byte>>, i: nat, offset: nat)
    requires Within(frames, i, offset) && i < |frames|
    ensures offset <= |frames[i]|
  {
  }

  lemma RestedInside(frames: seq<seq<byte>>, i: nat, offset: nat)
    requires Rested(frames, i, offset) && i < |frames|
    ensures offset <= |frames[i]| && (offset == |frames[i]| ==> offset == 0)
  {
  }

  /** No frame begins inside the rest of the current one, and behind that rest one does, unless it is
      the end. */
  lemma NoCutInside(frames: seq<seq<byte>>, i: nat, offset: nat)
    requires i < |frames| && offset <= |frames[i]|
    ensures var r, n := |From(frames, i, offset)|, |frames[i]| - offset;
            n <= r && (r - n in LayoutOf(frames).cuts || r == n) && Uncut(LayoutOf(frames), r - n, r)
  {
    FromSize(frames, i, offset);
    hide From;
    var r, n := |From(frames, i, offset)|, |frames[i]| - offset;
    if i + 1 < |frames| {
      assert r - n == BytesFrom(frames, i + 1);
    } else {
      Frames.FlattenEnd(frames);
    }
    forall j: nat | j < |frames| ensures !(r - n < BytesFrom(frames, j) < r) {
      BytesNext(frames, i);
      if j <= i {
        BytesFewer(frames, j, i);
      } else {
        BytesFewer(frames, i + 1, j);
      }
    }
  }

  class FrameBuf {
    const frames: seq<seq<byte>>
    var remaining: nat
    var currentFrame: nat
    var offset: nat

    /** What has not been read yet. */
    ghost function Ahead(): seq<byte>
      reads this
    {
      From(frames, currentFrame, offset)
    }

    ghost function Cut(): Bson.Layout
    {
      LayoutOf(frames)
    }

    ghost predicate Valid()
      reads this
    {
      Rested(frames, currentFrame, offset) && remaining == |Ahead()|
    }

    constructor (frames: seq<seq<byte>>)
      ensures Valid() && Ahead() == Frames.Flatten(frames) && this.frames == frames
    {
      this.frames, this.remaining, this.currentFrame, this.offset := frames, |Frames.Flatten(frames)|, 0, 0;
      new;
      assert frames[0..] == frames;
      if frames != [] {
        Frames.FlattenAt(frames, 0);
        assert frames[0][0..] == frames[0];
      } else {
        Frames.FlattenEnd(frames);
      }
    }

    /** Drops the rest of the current frame. */
    method NextFrame()
      requires currentFrame < |frames| && offset <= |frames[currentFrame]|
      modifies this`currentFrame, this`offset
      ensures |frames[old(currentFrame)]| - old(offset) <= |old(Ahead())|
      ensures Ahead() == old(Ahead())[|frames[old(currentFrame)]| - old(offset)..]
      ensures currentFrame == old(currentFrame) + 1 && Within(frames, currentFrame, offset)
      ensures old(offset) < |frames[old(currentFrame)]| ==> Rested(frames, currentFrame, offset)
    {
      DropWithin(frames[currentFrame], offset, Frames.Flatten(frames[currentFrame + 1..]), |frames[currentFrame]| - offset);
      offset := 0;
      currentFrame := currentFrame + 1;
      if currentFrame < |frames| {
        Frames.FlattenAt(frames, currentFrame);
        assert frames[currentFrame][0..] == frames[currentFrame];
      } else {
        Frames.FlattenEnd(frames);
      }
    }

    /** Drops bytes of the current frame, but not all of them. */
    method SkipWithin(count: nat)
      requires currentFrame < |frames| && count > 0 && offset + count < |frames[currentFrame]|
      modifies this`offset
      ensures Within(frames, currentFrame, offset) && Rested(frames, currentFrame, offset)
      ensures offset == old(offset) + count && count <= |old(Ahead())| && Ahead() == old(Ahead())[count..]
    {
      DropWithin(frames[currentFrame], offset, Frames.Flatten(frames[currentFrame + 1..]), count);
      offset := offset + count;
    }

    /** There is a frame to read from as long as anything is left. */
    lemma FrameLeft()
      requires Ahead() != []
      ensures currentFrame < |frames|
    {
    }

    method Advance(count: nat)
      requires Valid() && count <= remaining
      modifies this
      ensures Valid() && Ahead() == old(Ahead())[count..]
    {
      hide From, Rested, Within;
      RestedWithin(frames, currentFrame, offset);
      var left: nat := count;
      ghost var all := Ahead();
      remaining := remaining - count;
      assert all[0..] == all;
      while left > 0
        invariant left <= count <= |all| && remaining == |all| - count && Ahead() == all[count - left..]
        invariant Within(frames, currentFrame, offset) && currentFrame <= |frames|
        invariant left > 0 || Rested(frames, currentFrame, offset)
        decreases |frames| - currentFrame, left
      {
        FrameLeft();
        WithinFrame(frames, currentFrame, offset);
        var available: nat := |frames[currentFrame]| - offset;
        if left < available {
          DropTwice(all, count - left, left);
          SkipWithin(left);
          left := 0;
        } else {
          DropTwice(all, count - left, available);
          NextFrame();
          left := left - available;
        }
      }
    }

    /** The rest of the current frame, which is empty where the layout says so. */
    method Chunk() returns (chunk: seq<byte>)
      requires Valid() && remaining > 0
      ensures chunk <= Ahead() && (chunk == [] <==> remaining in Cut().stops)
      ensures remaining - |chunk| in Cut().cuts || remaining == |chunk|
      ensures Uncut(Cut(), remaining - |chunk|, remaining)
    {
      RestedStop(frames, currentFrame, offset);
      NoCutInside(frames, currentFrame, offset);
      chunk := frames[currentFrame][offset..];
    }

    /** The next bytes, which may lie in several frames. On an empty frame this never ends. */
    method GetBytes(count: nat) returns (r: Result<seq<byte>>)
      requires Valid() && count <= remaining
      modifies this
      ensures Valid() && Reads(Bson.ReadBytes(old(Ahead()), count, Cut()), r, Ahead())
    {
      hide From, LayoutOf, Rested, Bson.Clear, Uncut;
      ghost var all := Ahead();
      var bytes: seq<byte> := [];
      ClearNothing(Cut(), |all|);
      assert all[0..] == all;
      while |bytes| < count
        invariant Valid() && |bytes| <= count && bytes == all[..|bytes|] && Ahead() == all[|bytes|..]
        invariant Bson.Clear(Cut(), remaining, |all|)
        decreases count - |bytes|
      {
        var chunk := Chunk();
        if chunk == [] {
          NotClear(Cut(), |all| - count, remaining, |all|);
          return Err(Stuck);
        }
        var n := Min(|chunk|, count - |bytes|);
        ClearMore(Cut(), remaining, |all|, chunk, n);
        Advance(n);
        DropTwice(all, |bytes|, n);
        assert chunk[..n] == all[|bytes|..][..n];
        bytes := bytes + chunk[..n];
      }
      return Ok(bytes);
    }

    method ReadByte() returns (r: Result<byte>)
      requires Valid()
      modifies this
      ensures Valid() && Reads(Bson.ReadByte(old(Ahead()), Cut()), r, Ahead())
    {
      hide From, LayoutOf, Rested;
      if remaining < 1 {
        return Err(StreamEnd);
      }
      var chunk := Chunk();
      if chunk == [] {
        return Err(Panic);
      }
      Advance(1);
      return Ok(chunk[0]);
    }

    method CheckType(expected: byte) returns (r: Result<()>)
      requires Valid()
      modifies this
      ensures Valid() && Checks(Bson.CheckType(old(Ahead()), expected, Cut()), r, Ahead())
    {
      hide From, LayoutOf, Rested, Bson.ReadByte;
      var b :- ReadByte();
      r := if b == expected then Ok(()) else Err(MalformedMessage);
    }

    method CheckTermination() returns (r: Result<()>)
      requires Valid()
      modifies this
      ensures Valid() && Checks(Bson.CheckTermination(old(Ahead()), Cut()), r, Ahead())
    {
      hide From, LayoutOf, Rested, Bson.ReadByte;
      var b :- ReadByte();
      r := if b == 0 then Ok(()) else Err(ViolatedSpec);
    }

    method ReadLength() returns (r: Result<nat>)
      requires Valid()
      modifies this
      ensures Valid() && Reads(Bson.ReadLength(old(Ahead()), Cut()), r, Ahead())
      ensures r == Err(Stuck) <==> Bson.SkipLength(old(Ahead()), Cut()).Err?
      ensures r != Err(Stuck) ==> Bson.SkipLength(old(Ahead()), Cut()) == Ok(Ahead())
    {
      hide From, LayoutOf, Rested, Bson.FromLe;
      if remaining < 4 {
        return Err(StreamEnd);
      }
      var bytes :- GetBytes(4);
      var n := Bson.FromLe(bytes);
      r := if n >= Bson.INT32_LIMIT then Err(ViolatedSpec) else Ok(n);
    }

    /** Scans chunk after chunk for the closing zero. On an empty frame this never ends. */
    method ReadCString() returns (r: Result<seq<byte>>)
      requires Valid()
      modifies this
      ensures Valid() && Reads(Bson.ReadCString(old(Ahead()), Cut()), r, Ahead())
    {
      hide From, LayoutOf, Rested, Bson.ReadChars;
      var s: seq<byte> := [];
      ghost var all := Bson.ReadCString(Ahead(), Cut());
      WithNothing(all);
      while remaining > 0
        invariant Valid() && With(all, s, Bson.ReadCString(Ahead(), Cut()))
        decreases remaining
      {
        var chunk := Chunk();
        var index := FindZero(chunk);
        if chunk == [] {
          StopStuck(Ahead(), Cut());
          return Err(Stuck);
        }
        var piece := Piece(chunk, index);
        CharsInChunk(Ahead(), Cut(), Utf8.Whole, chunk, index);
        if !Utf8.Valid(piece) {
          return Err(Panic);
        }
        WithMore(all, s, piece, Bson.ReadCString(Ahead(), Cut()), Onward(Ahead(), Cut(), chunk, index));
        s := s + piece;
        if index < |chunk| {
          Advance(index + 1);
          WithAll(all, s, Ahead());
          return Ok(s);
        }
        Advance(index);
      }
      NoChars(Cut());
      WithAll(all, s, Ahead());
      return Ok(s);
    }

    method CheckCString(expected: seq<byte>) returns (r: Result<()>)
      requires Valid()
      modifies this
      ensures Valid() && Checks(Bson.CheckCString(old(Ahead()), expected, Cut()), r, Ahead())
    {
      hide From, LayoutOf, Rested, Bson.ReadCString;
      var s :- ReadCString();
      r := if s == expected then Ok(()) else Err(MalformedMessage);
    }

    method ReadString() returns (r: Result<seq<byte>>)
      requires Valid()
      modifies this
      ensures Valid() && Reads(Bson.ReadString(old(Ahead()), Cut()), r, Ahead())
    {
      hide From, LayoutOf, Rested, Bson.ReadLength, Bson.CheckTermination, Bson.ReadBytes, Utf8.Valid;
      var n :- ReadLength();
      if n == 0 {
        return Err(Panic);
      }
      if remaining < n - 1 {
        return Err(StreamEnd);
      }
      var s :- GetBytes(n - 1);
      var end :- CheckTermination();
      r := if Utf8.Valid(s) then Ok(s) else Err(ViolatedSpec);
    }

    method ReadStringElem(name: seq<byte>) returns (r: Result<seq<byte>>)
      requires Valid()
      modifies this
      ensures Valid() && Reads(Bson.ReadStringElem(old(Ahead()), name, Cut()), r, Ahead())
    {
      hide From, LayoutOf, Rested, Bson.CheckType, Bson.CheckCString, Bson.ReadString;
      var kind :- CheckType(2);
      var same :- CheckCString(name + [0]);
      r := ReadString();
    }

    method ReadKeyElem() returns (r: Result<nat>)
      requires Valid()
      modifies this
      ensures Valid() && Reads(Bson.ReadKeyElem(old(Ahead()), Cut()), r, Ahead())
    {
      hide From, LayoutOf, Rested, Bson.CheckType, Bson.CheckCString, Bson.FromLe, Bson.ReadBytes;
      var kind :- CheckType(18);
      var same :- CheckCString(Bson.KeyName() + [0]);
      if remaining < 8 {
        return Err(Panic);
      }
      var bytes :- GetBytes(8);
      var key := Bson.FromLe(bytes);
      r := if key >= Bson.UINT32_LIMIT then Err(MalformedMessage) else Ok(key);
    }

    method ReadDataElem(total: nat) returns (r: Result<(nat, nat)>)
      requires Valid()
      modifies this
      ensures Valid() && Reads(Bson.ReadDataElem(old(Ahead()), total, Cut()), r, Ahead())
    {
      hide From, LayoutOf, Rested, Bson.CheckType, Bson.CheckCString, Bson.ReadLength, Bson.ReadByte;
      var kind :- CheckType(5);
      var same :- CheckCString(Bson.DataName() + [0]);
      var size :- ReadLength();
      var subtype :- ReadByte();
      if total < remaining || remaining < size {
        return Err(Panic);
      }
      var offset: nat := total - remaining;
      Advance(size);
      return Ok((offset, size));
    }

    method ReadDataItem(total: nat) returns (r: Result<Option<Bson.DataItem>>)
      requires Valid()
      modifies this
      ensures Valid() && Reads(Bson.ReadItem(old(Ahead()), total, Cut()), r, Ahead())
    {
      hide From, LayoutOf, Rested, Bson.ReadByte, Bson.ReadCString, Bson.ReadLength, Bson.ReadStringElem, Bson.ReadKeyElem, Bson.ReadDataElem, Bson.CheckTermination;
      var kind :- ReadByte();
      if kind == 0 {
        return Ok(None);
      }
      if kind != 3 {
        return Err(MalformedMessage);
      }
      var docName :- ReadCString();
      var docLength :- ReadLength();
      var ident :- ReadStringElem(Bson.Identifier());
      var key :- ReadKeyElem();
      var data :- ReadDataElem(total);
      var end :- CheckTermination();
      return Ok(Some(Bson.DataItem(ident, key, data.0, data.1)));
    }

    method ReadItems(total: nat, end: nat) returns (r: Result<seq<Bson.DataItem>>)
      requires Valid()
      modifies this
      ensures Valid() && Reads(Bson.ReadItems(old(Ahead()), total, end, Cut()), r, Ahead())
    {
      hide From, LayoutOf, Rested, Bson.ReadItem;
      var items: seq<Bson.DataItem> := [];
      ghost var all := Bson.ReadItems(Ahead(), total, end, Cut());
      WithNothing(all);
      while remaining > end
        invariant Valid() && With(all, items, Bson.ReadItems(Ahead(), total, end, Cut()))
        decreases remaining
      {
        ghost var before := Ahead();
        var item := ReadDataItem(total);
        if item.Err? {
          return Err(item.error);
        }
        if item.value.None? {
          WithAll(all, items, Ahead());
          return Ok(items);
        }
        WithMore(all, items, [item.value.value], Bson.ReadItems(before, total, end, Cut()), Bson.ReadItems(Ahead(), total, end, Cut()));
        items := items + [item.value.value];
      }
      WithAll(all, items, Ahead());
      return Ok(items);
    }

    method ReadArray(total: nat) returns (r: Result<seq<Bson.DataItem>>)
      requires Valid()
      modifies this
      ensures Valid() && Reads(Bson.ReadArray(old(Ahead()), total, Cut()), r, Ahead())
    {
      hide From, LayoutOf, Rested, Bson.ReadLength, Bson.CheckType, Bson.CheckCString, Bson.ReadItems;
      var kind :- CheckType(4);
      var same :- CheckCString(Bson.ItemsName() + [0]);
      var before := remaining;
      var span :- ReadLength();
      if before < span {
        return Err(Panic);
      }
      r := ReadItems(total, before - span);
    }

    method ReadDataSet(total: nat) returns (r: Result<Option<Bson.DataSet>>)
      requires Valid()
      modifies this
      ensures Valid() && Reads(Bson.ReadSet(old(Ahead()), total, Cut()), r, Ahead())
    {
      hide From, LayoutOf, Rested, Bson.ReadByte, Bson.ReadCString, Bson.ReadLength, Bson.ReadStringElem, Bson.ReadArray, Bson.CheckTermination;
      var kind :- ReadByte();
      if kind == 0 {
        return Ok(None);
      }
      if kind != 3 {
        return Err(MalformedMessage);
      }
      var docName :- ReadCString();
      var docLength :- ReadLength();
      var ident :- ReadStringElem(Bson.Identifier());
      var items :- ReadArray(total);
      var end :- CheckTermination();
      return Ok(Some(Bson.DataSet(ident, items)));
    }

    method ReadSets(total: nat) returns (r: Result<seq<Bson.DataSet>>)
      requires Valid()
      modifies this
      ensures Valid() && Reads(Bson.ReadSets(old(Ahead()), total, Cut()), r, Ahead())
    {
      hide From, LayoutOf, Rested, Bson.ReadSet;
      var sets: seq<Bson.DataSet> := [];
      ghost var all := Bson.ReadSets(Ahead(), total, Cut());
      WithNothing(all);
      while remaining > 0
        invariant Valid() && With(all, sets, Bson.ReadSets(Ahead(), total, Cut()))
        decreases remaining
      {
        ghost var before := Ahead();
        var s := ReadDataSet(total);
        if s.Err? {
          return Err(s.error);
        }
        if s.value.None? {
          WithAll(all, sets, Ahead());
          return Ok(sets);
        }
        WithMore(all, sets, [s.value.value], Bson.ReadSets(before, total, Cut()), Bson.ReadSets(Ahead(), total, Cut()));
        sets := sets + [s.value.value];
      }
      WithAll(all, sets, Ahead());
      return Ok(sets);
    }
  }

  /** What reading gives is what has been read already and what reading on gives. */
  ghost predicate With<T>(all: Result<Bson.Parsed<seq<T>>>, done: seq<T>, more: Result<Bson.Parsed<seq<T>>>) {
    if more.Ok? then all == Ok(Bson.Parsed(done + more.value.value, more.value.rest)) else all == Err(more.error)
  }

  lemma WithNothing<T>(all: Result<Bson.Parsed<seq<T>>>)
    ensures With(all, [], all)
  {
    if all.Ok? {
      assert [] + all.value.value == all.value.value;
    }
  }

  lemma WithMore<T>(all: Result<Bson.Parsed<seq<T>>>, done: seq<T>, piece: seq<T>, now: Result<Bson.Parsed<seq<T>>>, more: Result<Bson.Parsed<seq<T>>>)
    requires With(all, done, now) && With(now, piece, more)
    ensures With(all, done + piece, more)
  {
    if more.Ok? {
      assert done + (piece + more.value.value) == done + piece + more.value.value;
    }
  }

  lemma WithAll<T>(all: Result<Bson.Parsed<seq<T>>>, done: seq<T>, rest: seq<byte>)
    requires With(all, done, Ok(Bson.Parsed([], rest)))
    ensures all == Ok(Bson.Parsed(done, rest))
  {
    assert done + [] == done;
  }

  /** Reads a request from the frames it arrived in, whatever they are. Only requests without fault are
      accepted; from frames none of which is empty, a request with ASCII names is accepted unless it has
      a fault, and refused for its first one otherwise. */
  method FromFrames(frames: seq<seq<byte>>) returns (r: Result<Bson.Request>)
    ensures r == Bson.ReadRequest(Frames.Flatten(frames), LayoutOf(frames))
    ensures r.Ok? ==> Grammar.Accepted(Frames.Flatten(frames), r.value) && Grammar.KeysBelow(r.value, 0x1_0000_0000)
    ensures forall q: Grammar.RawRequest :: NoneEmpty(frames) && Grammar.Shape(q, true) && Grammar.Text(q) == Frames.Flatten(frames) ==>
              r == if Grammar.Fault(q).Some? then Err(Grammar.Fault(q).value) else Ok(Grammar.Report(q))
  {
    hide From, LayoutOf, Rested, Bson.ReadLength, Bson.SkipLength, Bson.ReadStringElem, Bson.CheckType, Bson.CheckCString, Bson.ReadSets, Bson.ReadByte,
      Grammar.Accepted, Grammar.KeysBelow, Grammar.Shape, Grammar.Text, Grammar.Fault, Grammar.Report;
    Grammar.OnlyRequests(Frames.Flatten(frames), LayoutOf(frames));
    SmoothFrames(frames);
    var buffer := new FrameBuf(frames);
    var length :- buffer.ReadLength();
    if buffer.remaining + 4 != length {
      return Err(ViolatedSpec);
    }
    var name :- buffer.ReadStringElem(Bson.NameName());
    var kind :- buffer.CheckType(4);
    var same :- buffer.CheckCString(Bson.SetsName() + [0]);
    ghost var before := buffer.Ahead();
    var ignored := buffer.ReadLength();
    if ignored == Err(Stuck) {
      SkipStuck(before, LayoutOf(frames));
      return Err(Stuck);
    }
    var sets :- buffer.ReadSets(length);
    var last :- buffer.ReadByte();
    if last != 0 || buffer.remaining > 0 {
      return Err(ViolatedSpec);
    }
    return Ok(Bson.Request(name, sets));
  }

  lemma SmoothFrames(frames: seq<seq<byte>>)
    ensures forall q: Grammar.RawRequest :: NoneEmpty(frames) && Grammar.Shape(q, true) && Grammar.Text(q) == Frames.Flatten(frames) ==>
              Bson.ReadRequest(Frames.Flatten(frames), LayoutOf(frames)) == if Grammar.Fault(q).Some? then Err(Grammar.Fault(q).value) else Ok(Grammar.Report(q))
  {
    hide Bson.ReadRequest, Grammar.Shape, Grammar.Text, Grammar.Fault, Grammar.Report;
    forall q: Grammar.RawRequest | NoneEmpty(frames) && Grammar.Shape(q, true) && Grammar.Text(q) == Frames.Flatten(frames)
      ensures Bson.ReadRequest(Frames.Flatten(frames), LayoutOf(frames)) == if Grammar.Fault(q).Some? then Err(Grammar.Fault(q).value) else Ok(Grammar.Report(q))
    {
      Grammar.RequestRead(q, LayoutOf(frames), true);
    }
  }

  lemma SkipStuck(t: seq<byte>, l: Bson.Layout)
    ensures Bson.SkipLength(t, l).Err? ==> Bson.SkipLength(t, l) == Err(Stuck)
  {
  }

  // ---------------------------------------------------------------- which frames do

  /** Frame `i` holds bytes, or lies behind the last byte, or in the data of an item. */
  ghost predicate FrameFine(frames: seq<seq<byte>>, found: seq<Bson.DataSet>, i: nat) {
    i < |frames| && frames[i] == [] && BytesFrom(frames, i) > 0 ==>
      BytesFrom(frames, i) <= |Frames.Flatten(frames)| && RoundTrips.InSets(found, |Frames.Flatten(frames)| - BytesFrom(frames, i))
  }

  /** The frame list has an empty frame with `q` bytes behind it. */
  ghost predicate EmptyAt(frames: seq<seq<byte>>, i: nat, q: nat) {
    i < |frames| && frames[i] == [] && BytesFrom(frames, i) == q
  }

  lemma StopsAre(frames: seq<seq<byte>>, q: nat)
    ensures q in LayoutOf(frames).stops <==> exists i: nat :: EmptyAt(frames, i, q)
    ensures q in LayoutOf(frames).stops ==> q <= |Frames.Flatten(frames)|
  {
    hide BytesFrom;
    if q in LayoutOf(frames).stops {
      var i: nat :| i < |frames| && frames[i] == [] && BytesFrom(frames, i) == q;
      assert EmptyAt(frames, i, q);
      BytesFewer(frames, 0, i);
      AllBytes(frames);
    }
  }

  lemma AllBytes(frames: seq<seq<byte>>)
    ensures BytesFrom(frames, 0) == |Frames.Flatten(frames)|
  {
    assert frames[0..] == frames;
  }

  lemma StopsFine(frames: seq<seq<byte>>, found: seq<Bson.DataSet>)
    ensures var w := Frames.Flatten(frames);
            RoundTrips.HarmlessIn(LayoutOf(frames), |w|, found, 0, |w|) <==> forall i: nat :: FrameFine(frames, found, i)
  {
    hide RoundTrips.InSets, BytesFrom, LayoutOf, Frames.Flatten;
    var w, l := Frames.Flatten(frames), LayoutOf(frames);
    if RoundTrips.HarmlessIn(l, |w|, found, 0, |w|) {
      forall i: nat ensures FrameFine(frames, found, i) {
        if i < |frames| && frames[i] == [] {
          assert EmptyAt(frames, i, BytesFrom(frames, i));
          StopsAre(frames, BytesFrom(frames, i));
        }
      }
    }
    if forall i: nat :: FrameFine(frames, found, i) {
      forall q: nat | q in l.stops && 0 < q <= |w| ensures RoundTrips.InSets(found, |w| - q) {
        StopsAre(frames, q);
        var i: nat :| EmptyAt(frames, i, q);
        assert FrameFine(frames, found, i);
      }
    }
  }

  /** A request that arrived in frames is read like one in one piece if and only if every empty frame
      lies behind its last byte or in the data of an item. */
  lemma FramesAgree(name: seq<byte>, sets: seq<Bson.WireSet>, frames: seq<seq<byte>>)
    requires RoundTrips.SetsFit(sets) && Utf8.Valid(name) && |Bson.RequestText(name, sets)| < Bson.INT32_LIMIT
    requires Frames.Flatten(frames) == Bson.RequestText(name, sets)
    ensures Bson.ReadRequest(Frames.Flatten(frames), LayoutOf(frames)) == Bson.ReadRequest(Frames.Flatten(frames), Bson.OnePiece())
            <==> forall i: nat :: FrameFine(frames, RoundTrips.Reported(name, sets), i)
    ensures NoneEmpty(frames) ==> forall i: nat :: FrameFine(frames, RoundTrips.Reported(name, sets), i)
  {
    hide Bson.ReadRequest, Bson.RequestText, RoundTrips.Reported, RoundTrips.SetsIn, RoundTrips.SetsFit, LayoutOf;
    RoundTrips.RequestRoundTrip(name, sets, LayoutOf(frames));
    RoundTrips.RequestRoundTrip(name, sets, Bson.OnePiece());
    StopsFine(frames, RoundTrips.Reported(name, sets));
  }

  /** It happens: behind an empty first frame no message is ever read. */
  lemma StuckExample(message: seq<byte>)
    requires |message| >= 4
    ensures Frames.Flatten([[], message]) == message
    ensures Bson.ReadRequest(message, LayoutOf([[], message])) == Err(Stuck)
  {
    var frames := [[], message];
    assert frames[1..] == [message] && [message][1..] == [] && frames[0..] == frames;
    assert message + [] == message;
    assert Frames.Flatten([message]) == message;
    assert [] + message == message;
    assert BytesFrom(frames, 0) == |message|;
    assert |message| in LayoutOf(frames).stops;
  }

  /** Sends a request in any frames that do and reads the data of one of its items from the context
      that holds the frames. */
  method RoundTrip(name: seq<byte>, sets: seq<Bson.WireSet>, frames: seq<seq<byte>>, i: nat, k: nat) returns (data: seq<byte>)
    requires RoundTrips.SetsFit(sets) && Utf8.Valid(name) && |Bson.RequestText(name, sets)| < Bson.INT32_LIMIT
    requires Frames.Flatten(frames) == Bson.RequestText(name, sets) && forall j: nat :: FrameFine(frames, RoundTrips.Reported(name, sets), j)
    requires i < |sets| && k < |sets[i].items|
    ensures data == sets[i].items[k].data
  {
    hide Bson.ReadRequest, Bson.RequestText, RoundTrips.Reported, RoundTrips.SetsFit, LayoutOf, FrameFine, RoundTrips.HarmlessIn,
      Grammar.Accepted, Grammar.KeysBelow, Grammar.Shape, Grammar.Text, Grammar.Fault, Grammar.Report, Utf8.Valid, NoneEmpty;
    RoundTrips.RequestRoundTrip(name, sets, LayoutOf(frames));
    StopsFine(frames, RoundTrips.Reported(name, sets));
    var request := FromFrames(frames);
    assert RoundTrips.SetAt(Frames.Flatten(frames), request.value.sets[i], sets[i]);
    var item := request.value.sets[i].items[k];
    assert RoundTrips.ItemAt(Frames.Flatten(frames), item, sets[i].items[k]);
    var r := Frames.Read(frames, item.offset, item.size);
    return r.value;
  }

  // ---------------------------------------------------------------- strings in chunks

  /** The index of the first zero, or the length if there is none. */
  method FindZero(chunk: seq<byte>) returns (index: nat)
    ensures index <= |chunk| && ZeroAt(chunk, index)
  {
    index := 0;
    while index < |chunk| && chunk[index] != 0
      invariant index <= |chunk| && 0 !in chunk[..index]
    {
      assert chunk[..index + 1] == chunk[..index] + [chunk[index]];
      index := index + 1;
    }
  }

  lemma NotClear(l: Bson.Layout, lo: nat, r: nat, hi: nat)
    requires lo < r <= hi && r in l.stops
    ensures !Bson.Clear(l, lo, hi)
  {
  }

  lemma ClearNothing(l: Bson.Layout, r: nat)
    ensures Bson.Clear(l, r, r)
  {
  }

  lemma ClearMore(l: Bson.Layout, r: nat, hi: nat, chunk: seq<byte>, n: nat)
    requires Bson.Clear(l, r, hi) && n <= |chunk| <= r && r !in l.stops && Uncut(l, r - |chunk|, r)
    ensures Bson.Clear(l, r - n, hi)
  {
  }

  lemma StopStuck(t: seq<byte>, l: Bson.Layout)
    requires t != [] && |t| in l.stops
    ensures Bson.ReadCString(t, l) == Err(Stuck)
  {
  }

  lemma NoChars(l: Bson.Layout)
    ensures Bson.ReadCString([], l) == Ok(Bson.Parsed([], []))
  {
  }

  /** The part of a chunk that belongs to the string: up to the zero at `index`, or all of it. */
  function Piece(chunk: seq<byte>, index: nat): seq<byte>
    requires index <= |chunk|
  {
    if index < |chunk| then chunk[..index + 1] else chunk
  }

  /** What reading gives behind that part. */
  ghost function Onward(t: seq<byte>, l: Bson.Layout, chunk: seq<byte>, index: nat): Result<Bson.Parsed<seq<byte>>>
    requires index <= |chunk| <= |t|
  {
    if index < |chunk| then Ok(Bson.Parsed([], t[index + 1..])) else Bson.ReadChars(t[index..], l, Utf8.Whole)
  }

  lemma PieceRest(t: seq<byte>, l: Bson.Layout, chunk: seq<byte>, index: nat)
    requires 0 < index <= |chunk| && chunk <= t
    ensures Piece(chunk, index) != [] && Piece(chunk, index)[0] == t[0] && Piece(chunk, index)[1..] == Piece(chunk[1..], index - 1)
    ensures Onward(t[1..], l, chunk[1..], index - 1) == Onward(t, l, chunk, index)
    ensures chunk[..index][0] == t[0] && chunk[1..][..index - 1] == chunk[..index][1..]
  {
    assert t[1..][index - 1..] == t[index..] && (index < |chunk| ==> t[1..][index..] == t[index + 1..]);
  }

  ghost predicate ZeroAt(chunk: seq<byte>, index: nat) {
    index <= |chunk| && 0 !in chunk[..index] && (index < |chunk| ==> chunk[index] == 0)
  }

  lemma ZeroLater(chunk: seq<byte>, index: nat)
    requires ZeroAt(chunk, index) && index > 0
    ensures chunk[0] != 0 && ZeroAt(chunk[1..], index - 1)
  {
    assert chunk[..index][0] == chunk[0] && chunk[1..][..index - 1] == chunk[..index][1..];
  }

  /** Byte by byte or chunk by chunk: the part of a string in one chunk is UTF-8, or reading aborts. */
  lemma {:induction false} CharsInChunk(t: seq<byte>, l: Bson.Layout, st: Utf8.State, chunk: seq<byte>, index: nat)
    requires chunk != [] && chunk <= t && |t| !in l.stops && (|t| in l.cuts ==> st.Whole?)
    requires |t| - |chunk| in l.cuts || |t| == |chunk|
    requires Uncut(l, |t| - |chunk|, |t|) && ZeroAt(chunk, index) && (st.Inside? ==> st.lo > 0)
    ensures if Utf8.Scan(st, Piece(chunk, index)) == Some(Utf8.Whole)
            then With(Bson.ReadChars(t, l, st), Piece(chunk, index), Onward(t, l, chunk, index))
            else Bson.ReadChars(t, l, st) == Err(Panic)
    decreases |chunk|
  {
    hide Bson.ReadChars, Utf8.Scan, Utf8.Step, With, Piece, Onward, ZeroAt, Uncut;
    var next := Utf8.Step(st, t[0]);
    if index == 0 {
      ZeroFirst(t, l, st, chunk);
    } else {
      ZeroLater(chunk, index);
      PieceRest(t, l, chunk, index);
      if next.None? {
        BadChar(t, l, st, Piece(chunk, index));
      } else {
        FirstChar(t, l, st, next.value, Piece(chunk, index));
        Utf8.StepInside(st, t[0]);
        if |chunk| == 1 {
          LastPiece(t, l, next.value, chunk, index);
        } else {
          UncutShorter(l, |t| - |chunk|, |t|);
          CharsInChunk(t[1..], l, next.value, chunk[1..], index - 1);
        }
        if Utf8.Scan(st, Piece(chunk, index)) == Some(Utf8.Whole) {
          WithFirst(t, l, st, next.value, Piece(chunk, index), Onward(t, l, chunk, index));
        }
      }
    }
  }

  lemma UncutShorter(l: Bson.Layout, lo: nat, hi: nat)
    requires Uncut(l, lo, hi) && lo + 1 < hi
    ensures hi - 1 !in l.cuts && hi - 1 !in l.stops && Uncut(l, lo, hi - 1)
  {
  }

  lemma ZeroFirst(t: seq<byte>, l: Bson.Layout, st: Utf8.State, chunk: seq<byte>)
    requires chunk != [] && chunk <= t && |t| !in l.stops && (|t| in l.cuts ==> st.Whole?) && (st.Inside? ==> st.lo > 0) && ZeroAt(chunk, 0)
    ensures if Utf8.Scan(st, Piece(chunk, 0)) == Some(Utf8.Whole)
            then With(Bson.ReadChars(t, l, st), Piece(chunk, 0), Onward(t, l, chunk, 0))
            else Bson.ReadChars(t, l, st) == Err(Panic)
  {
    hide Bson.ReadChars, Utf8.Scan, With;
    assert Piece(chunk, 0) == [0];
    ZeroChar(t, l, st);
  }

  /** The last byte of a chunk that does not end the string. */
  lemma LastPiece(t: seq<byte>, l: Bson.Layout, next: Utf8.State, chunk: seq<byte>, index: nat)
    requires chunk != [] && |chunk| == 1 == index && chunk <= t && (|t| - 1 in l.cuts || |t| == 1)
    ensures if Utf8.Scan(next, Piece(chunk, index)[1..]) == Some(Utf8.Whole)
            then With(Bson.ReadChars(t[1..], l, next), Piece(chunk, index)[1..], Onward(t, l, chunk, index))
            else Bson.ReadChars(t[1..], l, next) == Err(Panic)
  {
    hide Bson.ReadChars, Utf8.Scan, With;
    assert Piece(chunk, index)[1..] == [];
    LastChar(t, l, next);
  }

  lemma ZeroChar(t: seq<byte>, l: Bson.Layout, st: Utf8.State)
    requires t != [] && t[0] == 0 && |t| !in l.stops && (|t| in l.cuts ==> st.Whole?) && (st.Inside? ==> st.lo > 0)
    ensures if Utf8.Scan(st, [0]) == Some(Utf8.Whole) then With(Bson.ReadChars(t, l, st), [0], Ok(Bson.Parsed([], t[1..])))
            else Bson.ReadChars(t, l, st) == Err(Panic)
  {
    assert [0][1..] == [] && [0] + [] == [0];
  }

  lemma BadChar(t: seq<byte>, l: Bson.Layout, st: Utf8.State, piece: seq<byte>)
    requires t != [] && |t| !in l.stops && (|t| in l.cuts ==> st.Whole?) && Utf8.Step(st, t[0]).None? && piece != [] && piece[0] == t[0]
    ensures Bson.ReadChars(t, l, st) == Err(Panic) && Utf8.Scan(st, piece).None?
  {
  }

  /** What is left behind the end of a chunk. */
  lemma LastChar(t: seq<byte>, l: Bson.Layout, next: Utf8.State)
    requires t != [] && (|t| - 1 in l.cuts || |t| == 1)
    ensures With(Bson.ReadChars(t[1..], l, next), [], Bson.ReadChars(t[1..], l, next)) && Utf8.Scan(next, []) == Some(next)
    ensures !next.Whole? ==> Bson.ReadChars(t[1..], l, next) == Err(Panic)
  {
    WithNothing(Bson.ReadChars(t[1..], l, next));
  }

  lemma FirstChar(t: seq<byte>, l: Bson.Layout, st: Utf8.State, next: Utf8.State, piece: seq<byte>)
    requires t != [] && t[0] != 0 && |t| !in l.stops && (|t| in l.cuts ==> st.Whole?) && Utf8.Step(st, t[0]) == Some(next)
    requires piece != [] && piece[0] == t[0]
    ensures var p := Bson.ReadChars(t[1..], l, next);
            Bson.ReadChars(t, l, st) == if p.Ok? then Ok(Bson.Parsed([t[0]] + p.value.value, p.value.rest)) else Err(p.error)
    ensures Utf8.Scan(st, piece) == Utf8.Scan(next, piece[1..])
  {
    hide Utf8.Step;
  }

  lemma WithFirst(t: seq<byte>, l: Bson.Layout, st: Utf8.State, next: Utf8.State, piece: seq<byte>, more: Result<Bson.Parsed<seq<byte>>>)
    requires t != [] && piece != [] && piece[0] == t[0]
    requires var p := Bson.ReadChars(t[1..], l, next);
             && Bson.ReadChars(t, l, st) == (if p.Ok? then Ok(Bson.Parsed([t[0]] + p.value.value, p.value.rest)) else Err(p.error))
             && With(p, piece[1..], more)
    ensures With(Bson.ReadChars(t, l, st), piece, more)
  {
    hide Bson.ReadChars;
    if more.Ok? {
      assert [t[0]] + (piece[1..] + more.value.value) == piece + more.value.value;
    }
  }
}
