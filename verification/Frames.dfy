/** A context whose bytes arrived in frames: its content is their concatenation. */
module Frames {
  import opened Common

  function Flatten(frames: seq<seq<byte>>): seq<byte> {
    if frames == [] then [] else frames[0] + Flatten(frames[1..])
  }

  lemma {:induction false} FlattenSplit(frames: seq<seq<byte>>, i: nat)
    requires i <= |frames|
    ensures Flatten(frames) == Flatten(frames[..i]) + Flatten(frames[i..])
  {
    if i > 0 {
      FlattenSplit(frames[1..], i - 1);
      assert frames[..i][1..] == frames[1..][..i - 1];
      assert frames[1..][i - 1..] == frames[i..];
    } else {
      assert frames[..0] == [] && frames[0..] == frames;
    }
  }

  lemma FlattenAt(frames: seq<seq<byte>>, i: nat)
    requires i < |frames|
    ensures Flatten(frames[i..]) == frames[i] + Flatten(frames[i + 1..])
  {
    assert frames[i..][1..] == frames[i + 1..];
  }

  /** The frame at the front of what is left, and what is left behind it. */
  lemma FrontFrame(flat: seq<byte>, passed: nat, frame: seq<byte>, rest: seq<byte>)
    requires passed <= |flat| && flat[passed..] == frame + rest
    ensures passed + |frame| <= |flat| && flat[passed + |frame|..] == rest
    ensures forall lo: nat, hi: nat :: lo <= hi <= |frame| ==> flat[passed + lo..passed + hi] == frame[lo..hi]
  {
    assert |flat| == passed + |frame| + |rest|;
    forall k: nat | k < |rest| ensures flat[passed + |frame|..][k] == rest[k] {
      assert flat[passed..][|frame| + k] == rest[k];
    }
    forall lo: nat, hi: nat | lo <= hi <= |frame| ensures flat[passed + lo..passed + hi] == frame[lo..hi] {
      forall k: nat | k < hi - lo ensures flat[passed + lo..passed + hi][k] == frame[lo..hi][k] {
        assert flat[passed..][lo + k] == frame[lo + k];
      }
    }
  }

  /** The bytes from `offset` on begin with `x`. */
  ghost predicate Begins(flat: seq<byte>, offset: nat, x: seq<byte>) {
    offset + |x| <= |flat| && x == flat[offset..offset + |x|]
  }

  /** A piece that continues what has been read. */
  lemma Continues(flat: seq<byte>, offset: nat, buffer: seq<byte>, piece: seq<byte>)
    requires (buffer == [] || Begins(flat, offset, buffer)) && Begins(flat, offset + |buffer|, piece)
    ensures Begins(flat, offset, buffer + piece)
  {
    if buffer == [] {
      assert buffer + piece == piece;
    }
  }

  /** Part of the frame at the front. */
  lemma FramePiece(flat: seq<byte>, passed: nat, frame: seq<byte>, rest: seq<byte>, lo: nat, hi: nat)
    requires passed <= |flat| && flat[passed..] == frame + rest && lo <= hi <= |frame|
    ensures Begins(flat, passed + lo, frame[lo..hi])
  {
    FrontFrame(flat, passed, frame, rest);
    assert flat[passed + lo..passed + hi] == frame[lo..hi];
  }

  /** Fills a buffer of `length` bytes from `offset` on. */
  method Read(frames: seq<seq<byte>>, offset: nat, length: nat) returns (r: Result<seq<byte>>)
    ensures r.Ok? <==> offset < |Flatten(frames)| && offset + length <= |Flatten(frames)|
    ensures r.Ok? ==> r.value == Flatten(frames)[offset..offset + length]
    ensures r.Err? ==> r.error == InvalidRead
  {
    hide Flatten, Begins;
    ghost var flat := Flatten(frames);
    var buffer: seq<byte> := [];
    var skip: nat, remaining: nat := offset, length;
    ghost var passed: nat := 0;
    assert frames[0..] == frames && flat[0..] == flat;
    for i := 0 to |frames|
      invariant passed <= |flat| && flat[passed..] == Flatten(frames[i..])
      invariant |buffer| + remaining == length && (buffer == [] || remaining > 0)
      invariant passed + skip == offset + |buffer| && (buffer == [] || skip == 0)
      invariant buffer == [] || Begins(flat, offset, buffer)
    {
      FlattenAt(frames, i);
      var frame := frames[i];
      FrameEnd(flat, passed, frame, Flatten(frames[i + 1..]));
      if |frame| <= skip {
        skip := skip - |frame|;
      } else {
        var end := if |frame| >= skip + remaining then skip + remaining else |frame|;
        var piece := frame[skip..end];
        FramePiece(flat, passed, frame, Flatten(frames[i + 1..]), skip, end);
        Continues(flat, offset, buffer, piece);
        if |frame| >= skip + remaining {
          BeginsWith(flat, offset, buffer + piece);
          return Ok(buffer + piece);
        }
        buffer := buffer + piece;
        remaining := remaining - |piece|;
        skip := 0;
      }
      passed := passed + |frame|;
    }
    FlattenEnd(frames);
    return Err(InvalidRead);
  }

  lemma BeginsWith(flat: seq<byte>, offset: nat, x: seq<byte>)
    requires Begins(flat, offset, x)
    ensures offset + |x| <= |flat| && x == flat[offset..offset + |x|]
  {
  }

  lemma FrameEnd(flat: seq<byte>, passed: nat, frame: seq<byte>, rest: seq<byte>)
    requires passed <= |flat| && flat[passed..] == frame + rest
    ensures passed + |frame| <= |flat| && flat[passed + |frame|..] == rest
  {
    FrontFrame(flat, passed, frame, rest);
  }

  lemma FlattenEnd(frames: seq<seq<byte>>)
    ensures Flatten(frames[|frames|..]) == []
  {
  }

  /** The longest piece from `offset` on that is contiguous, up to `length` bytes. */
  method GetChunkRef(frames: seq<seq<byte>>, offset: nat, length: nat) returns (r: Result<seq<byte>>)
    ensures r.Ok? <==> offset < |Flatten(frames)|
    ensures r.Ok? ==> offset + |r.value| <= |Flatten(frames)| && r.value == Flatten(frames)[offset..offset + |r.value|]
    ensures r.Ok? ==> |r.value| <= length && (length > 0 ==> r.value != [])
    ensures r.Err? ==> r.error == InvalidRead
  {
    hide Flatten;
    ghost var flat := Flatten(frames);
    var skip: nat := offset;
    ghost var passed: nat := 0;
    assert frames[0..] == frames && flat[0..] == flat;
    for i := 0 to |frames|
      invariant passed <= |flat| && flat[passed..] == Flatten(frames[i..])
      invariant passed + skip == offset
    {
      FlattenAt(frames, i);
      var frame := frames[i];
      FrontFrame(flat, passed, frame, Flatten(frames[i + 1..]));
      if skip >= |frame| {
        skip := skip - |frame|;
      } else if |frame| >= skip + length {
        assert frame[skip..skip + length] == flat[passed + skip..passed + (skip + length)];
        return Ok(frame[skip..skip + length]);
      } else {
        assert frame[skip..|frame|] == flat[passed + skip..passed + |frame|];
        return Ok(frame[skip..|frame|]);
      }
      passed := passed + |frame|;
    }
    FlattenEnd(frames);
    return Err(InvalidRead);
  }
}
