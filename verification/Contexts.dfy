/** Contexts as flat partial byte memories, and how they are read. */
module Contexts {
  import opened Common
  import opened Overlay
  import Frames

  function Size(c: Context): nat {
    match c
    case Kvm(_, storage) => |storage|
    case Bytes(frames) => |Frames.Flatten(frames)|
  }

  /** The byte that a context shows at an address, following references. */
  function ByteAt(c: Context, a: nat): Option<byte>
    decreases c
  {
    match c
    case Bytes(frames) =>
      var flat := Frames.Flatten(frames);
      if a < |flat| then Some(flat[a]) else None
    case Kvm(ov, storage) =>
      var e := NextKey(ov, a);
      if a >= |storage| || e.None? || ov[e.value].start > a then None
      else
        var g := ov[e.value];
        match g.item
        case None => Some(storage[a])
        case Some(i) => ByteAt(i.context, i.offset + (a - g.start))
  }

  /** The bytes `[offset, offset + length)` of a context, all of them defined. */
  ghost predicate Defined(c: Context, offset: nat, length: nat) {
    forall a: nat :: offset <= a < offset + length ==> ByteAt(c, a).Some?
  }

  ghost predicate Shows(c: Context, offset: nat, data: seq<byte>) {
    forall a: nat :: offset <= a < offset + |data| ==> ByteAt(c, a) == Some(data[a - offset])
  }

  lemma ByteAtKvm(c: Context, a: nat)
    requires c.Kvm?
    ensures ByteAt(c, a) ==
            (if a >= |c.storage| then None
             else match Resolve(c.overlay, a)
                  case None => None
                  case Some(Local) => Some(c.storage[a])
                  case Some(Remote(inner, o)) => ByteAt(inner, o))
  {
  }

  lemma SameSegment(ov: OverlayMap, offset: nat, e: nat, a: nat)
    requires NextKey(ov, offset) == Some(e) && ov[e].start <= offset <= a <= e
    ensures NextKey(ov, a) == Some(e)
  {
  }

  /** `g` is what the addresses `[offset, offset + n)` of `c` are borrowed from. */
  ghost predicate Borrowed(c: Context, g: Segment, offset: nat, n: nat)
    requires g.item.Some? && g.start <= offset
  {
    var i := g.item.value;
    forall a: nat :: offset <= a < offset + n ==> ByteAt(c, a) == ByteAt(i.context, i.offset + (a - g.start))
  }

  lemma InnerDefined(c: Context, g: Segment, offset: nat, n: nat)
    requires g.item.Some? && g.start <= offset && Borrowed(c, g, offset, n)
    ensures Defined(c, offset, n) <==> Defined(g.item.value.context, g.item.value.offset + (offset - g.start), n)
  {
    var i := g.item.value;
    forall b: nat | i.offset + (offset - g.start) <= b < i.offset + (offset - g.start) + n
      ensures ByteAt(i.context, b) == ByteAt(c, b - i.offset + g.start)
    {
      var a: nat := b - i.offset + g.start;
      assert ByteAt(c, a) == ByteAt(i.context, i.offset + (a - g.start));
    }
  }

  lemma InnerShows(c: Context, g: Segment, offset: nat, data: seq<byte>)
    requires g.item.Some? && g.start <= offset && Borrowed(c, g, offset, |data|)
    requires Shows(g.item.value.context, g.item.value.offset + (offset - g.start), data)
    ensures Shows(c, offset, data)
  {
  }

  lemma ShowsConcat(c: Context, offset: nat, x: seq<byte>, y: seq<byte>)
    requires Shows(c, offset, x) && Shows(c, offset + |x|, y)
    ensures Shows(c, offset, x + y)
  {
  }

  /** What the segment found by the lookup says about the addresses up to its end. */
  lemma SegmentBytes(c: Context, offset: nat, e: nat, n: nat)
    requires c.Kvm? && NextKey(c.overlay, offset) == Some(e) && c.overlay[e].start <= offset
    requires offset + n <= e + 1 && offset + n <= |c.storage|
    ensures var g := c.overlay[e];
            if g.item.None? then Shows(c, offset, c.storage[offset..offset + n]) else Borrowed(c, g, offset, n)
  {
    forall a: nat | offset <= a < offset + n ensures NextKey(c.overlay, a) == Some(e) {
      SameSegment(c.overlay, offset, e, a);
    }
  }

  lemma BytesDefined(c: Context, start: nat, length: nat)
    requires c.Bytes?
    ensures length > 0 ==> (Defined(c, start, length) <==> start < Size(c) && start + length <= Size(c))
    ensures start + length <= Size(c) ==> Shows(c, start, Frames.Flatten(c.frames)[start..start + length])
  {
    if length > 0 && Defined(c, start, length) {
      assert ByteAt(c, start + length - 1).Some?;
    }
  }

  lemma EndUndefined(c: Context, start: nat, length: nat)
    requires c.Kvm? && start + length > |c.storage|
    ensures length > 0 ==> !Defined(c, start, length)
  {
    if length > 0 {
      assert ByteAt(c, start + length - 1).None?;
    }
  }

  lemma Undefined(c: Context, start: nat, length: nat, a: nat)
    requires c.Kvm? && start <= a < start + length
    requires var e := NextKey(c.overlay, a); e.None? || c.overlay[e.value].start > a
    ensures !Defined(c, start, length)
  {
    assert ByteAt(c, a).None?;
  }

  lemma PartDefined(c: Context, start: nat, length: nat, offset: nat, n: nat)
    requires start <= offset && offset + n <= start + length && !Defined(c, offset, n)
    ensures !Defined(c, start, length)
  {
    hide ByteAt;
  }

  lemma ShowsDefined(c: Context, start: nat, data: seq<byte>)
    requires Shows(c, start, data)
    ensures Defined(c, start, |data|)
  {
    hide ByteAt;
  }

  lemma ShowsNothing(c: Context, start: nat)
    ensures Shows(c, start, [])
  {
  }

  method Read(c: Context, start: nat, length: nat, align: nat) returns (r: Result<seq<byte>>)
    requires align > 0
    ensures r.Ok? ==> |r.value| == length && Shows(c, start, r.value)
    ensures length > 0 ==> (r.Ok? <==> Defined(c, start, length) && (c.Kvm? ==> start % align == 0))
    ensures length == 0 && c.Kvm? ==> (r.Ok? <==> start <= |c.storage| && start % align == 0)
    ensures r.Err? && align == 1 ==> r.error == InvalidRead
    decreases c
  {
    hide Borrowed, ByteAt, Shows, Defined;
    if c.Bytes? {
      r := Frames.Read(c.frames, start, length);
      BytesDefined(c, start, length);
      return;
    }
    if start % align != 0 {
      return Err(ReadMisaligned);
    }
    if start + length > |c.storage| {
      EndUndefined(c, start, length);
      return Err(InvalidRead);
    }
    ShowsNothing(c, start);
    if length == 0 {
      return Ok([]);
    }
    var buffer: seq<byte> := [];
    var offset: nat := start;
    var cursor := NextKey(c.overlay, offset);
    while cursor.Some?
      invariant offset == start + |buffer| && |buffer| < length
      invariant cursor == NextKey(c.overlay, offset)
      invariant Shows(c, start, buffer)
      decreases length - |buffer|
    {
      var e: nat := cursor.value;
      var g := c.overlay[e];
      if g.start > offset {
        Undefined(c, start, length, offset);
        return Err(InvalidRead);
      }
      var n: nat := if e - offset + 1 < length - |buffer| then e - offset + 1 else length - |buffer|;
      SegmentBytes(c, offset, e, n);
      var piece: seq<byte>;
      if g.item.Some? {
        var inner := Read(g.item.value.context, g.item.value.offset + (offset - g.start), n, 1);
        InnerDefined(c, g, offset, n);
        if inner.Err? {
          PartDefined(c, start, length, offset, n);
          return Err(inner.error);
        }
        piece := inner.value;
        InnerShows(c, g, offset, piece);
      } else {
        piece := c.storage[offset..offset + n];
      }
      ShowsConcat(c, start, buffer, piece);
      buffer := buffer + piece;
      offset := offset + n;
      if |buffer| == length {
        ShowsDefined(c, start, buffer);
        return Ok(buffer);
      }
      cursor := NextKey(c.overlay, e + 1);
    }
    Undefined(c, start, length, offset);
    return Err(InvalidRead);
  }

  /** A nonempty prefix of the requested range, as long as its first byte is defined. */
  method GetChunkRef(c: Context, offset: nat, length: nat) returns (r: Result<seq<byte>>)
    ensures r.Ok? ==> |r.value| <= length && Shows(c, offset, r.value)
    ensures r.Ok? && length > 0 ==> r.value != []
    ensures length > 0 && Defined(c, offset, length) ==> r.Ok?
    ensures length > 0 && ByteAt(c, offset).None? ==> r == Err(InvalidRead)
    ensures r.Err? ==> r.error == InvalidRead
    decreases c
  {
    if c.Bytes? {
      assert length > 0 && Defined(c, offset, length) ==> ByteAt(c, offset).Some?;
      r := Frames.GetChunkRef(c.frames, offset, length);
      return;
    }
    if offset + length > |c.storage| {
      assert length > 0 ==> ByteAt(c, offset + length - 1).None?;
      return Err(InvalidRead);
    }
    var cursor := NextKey(c.overlay, offset);
    if cursor.None? || c.overlay[cursor.value].start > offset {
      assert ByteAt(c, offset).None?;
      return Err(InvalidRead);
    }
    var e: nat := cursor.value;
    var g := c.overlay[e];
    var n: nat := if e + 1 - offset < length then e + 1 - offset else length;
    SegmentBytes(c, offset, e, n);
    if g.item.Some? {
      InnerDefined(c, g, offset, n);
      r := GetChunkRef(g.item.value.context, g.item.value.offset + (offset - g.start), n);
      if r.Ok? {
        InnerShows(c, g, offset, r.value);
      }
    } else {
      r := Ok(c.storage[offset..offset + n]);
    }
  }

  // ---------------------------------------------------------------- invariants

  /** Segments are whole pages inside a context of whole pages. */
  ghost predicate WellFormed(ov: OverlayMap, size: nat) {
    && Disjoint(ov) && Aligned(ov) && size % PAGE_SIZE == 0
    && forall e: nat :: e in ov ==> e < size
  }

  /** Every reference points to bytes that are local where it points. */
  ghost predicate NoChains(ov: OverlayMap) {
    forall a: nat :: Resolve(ov, a).Some? ==> Direct(Resolve(ov, a).value, a)
  }

  ghost predicate Direct(p: Place, a: nat) {
    p.Remote? ==>
      && p.context.Kvm? && p.offset < |p.context.storage|
      && p.offset % PAGE_SIZE == a % PAGE_SIZE
      && Resolve(p.context.overlay, p.offset) == Some(Local)
  }

  /** The view after writing `data`: the data itself, every other defined byte as before,
      and zeros for the bytes of touched pages that were undefined. */
  ghost predicate Written(fin: Context, ini: Context, offset: nat, data: seq<byte>) {
    forall a: nat :: ByteAt(fin, a) ==
      if offset <= a < offset + |data| then Some(data[a - offset])
      else if ByteAt(ini, a).Some? then ByteAt(ini, a)
      else if RoundDown(offset) <= a < RoundUp(offset + |data|) then Some(0)
      else None
  }

  lemma CoveredKey(ov: OverlayMap, e: nat, a: nat)
    requires Disjoint(ov) && Covers(ov, e, a)
    ensures NextKey(ov, a) == Some(e)
  {
    assert NextKey(ov, a).value == e;
  }

  lemma PageInside(s: nat, t: nat, a: nat, b: nat)
    requires s % PAGE_SIZE == 0 && t % PAGE_SIZE == 0 && s <= a < t && RoundDown(a) == RoundDown(b)
    ensures s <= RoundDown(a) && RoundDown(a) + PAGE_SIZE <= t && s <= b < t
  {
  }

  /** Pages are covered as a whole or not at all. */
  lemma PageUniform(ov: OverlayMap, a: nat, b: nat)
    requires Disjoint(ov) && Aligned(ov) && RoundDown(a) == RoundDown(b) && Resolve(ov, a).Some?
    ensures Resolve(ov, b).Some?
  {
    hide RoundDown;
    var e: nat := NextKey(ov, a).value;
    PageInside(ov[e].start, e + 1, a, b);
    ResolveCovered(ov, e, b);
  }

  lemma PageUncovered(ov: OverlayMap, a: nat, b: nat)
    requires Disjoint(ov) && Aligned(ov) && RoundDown(a) == RoundDown(b) && Resolve(ov, a).None?
    ensures Resolve(ov, b).None?
  {
    if Resolve(ov, b).Some? {
      PageUniform(ov, b, a);
    }
  }

  /** Local bytes that stay in place and an unchanged overlay leave the view unchanged. */
  lemma SameView(fin: Context, ini: Context, a: nat)
    requires fin.Kvm? && ini.Kvm? && |fin.storage| == |ini.storage|
    requires Resolve(fin.overlay, a) == Resolve(ini.overlay, a)
    requires a < |ini.storage| && Resolve(ini.overlay, a) == Some(Local) ==> fin.storage[a] == ini.storage[a]
    ensures ByteAt(fin, a) == ByteAt(ini, a)
  {
    ByteAtKvm(fin, a);
    ByteAtKvm(ini, a);
  }

  ghost function Expected(ini: Context, offset: nat, data: seq<byte>, a: nat): byte {
    if offset <= a < offset + |data| then data[a - offset]
    else if ByteAt(ini, a).Some? then ByteAt(ini, a).value else 0
  }

  lemma WriteView(fin: Context, ini: Context, offset: nat, data: seq<byte>)
    requires fin.Kvm? && ini.Kvm? && |fin.storage| == |ini.storage|
    requires Touching(offset, offset + |data|) && RoundUp(offset + |data|) <= |ini.storage|
    requires Updates(fin.overlay, ini.overlay, RoundDown(offset), RoundUp(offset + |data|), None)
    requires forall a: nat :: RoundDown(offset) <= a < RoundUp(offset + |data|) ==> fin.storage[a] == Expected(ini, offset, data, a)
    requires forall a: nat :: a < |ini.storage| && !(RoundDown(offset) <= a < RoundUp(offset + |data|)) && Resolve(ini.overlay, a) == Some(Local)
               ==> fin.storage[a] == ini.storage[a]
    ensures Written(fin, ini, offset, data)
  {
    hide RoundDown, RoundUp, Resolve, ByteAt;
    forall a: nat ensures ByteAt(fin, a) ==
      if offset <= a < offset + |data| then Some(data[a - offset])
      else if ByteAt(ini, a).Some? then ByteAt(ini, a)
      else if RoundDown(offset) <= a < RoundUp(offset + |data|) then Some(0)
      else None
    {
      if RoundDown(offset) <= a < RoundUp(offset + |data|) {
        ByteAtKvm(fin, a);
      } else {
        SameView(fin, ini, a);
      }
    }
  }

  /** Under `NoChains` a borrowed byte is the byte stored where the reference points. */
  lemma BorrowedByte(ini: Context, a: nat)
    requires ini.Kvm? && NoChains(ini.overlay) && a < |ini.storage| && Resolve(ini.overlay, a).Some?
    ensures ByteAt(ini, a) ==
            match Resolve(ini.overlay, a).value
            case Local => Some(ini.storage[a])
            case Remote(c, o) => if c.Kvm? && o < |c.storage| then Some(c.storage[o]) else None
    ensures ByteAt(ini, a).Some?
  {
    assert Direct(Resolve(ini.overlay, a).value, a);
    ByteAtKvm(ini, a);
    match Resolve(ini.overlay, a).value
    case Local =>
    case Remote(c, o) => ByteAtKvm(c, o);
  }
}
