/** A KVM context: page overlay over a local byte array. */
module KvmContexts {
  import opened Common
  import opened Overlay
  import opened Contexts
  import opened EmptyWrites

  class KvmContext {
    var overlay: OverlayMap
    const storage: array<byte>

    constructor (pages: nat)
      ensures overlay == map[] && storage.Length == pages * PAGE_SIZE && fresh(storage)
    {
      overlay := map[];
      storage := new byte[pages * PAGE_SIZE];
    }

    method InsertIntoOverlay(start: nat, end: nat, item: Option<OverlayItem>)
      requires start < end && Disjoint(overlay)
      modifies this`overlay
      ensures Disjoint(overlay) && Updates(overlay, old(overlay), start, end, item)
      ensures Aligned(old(overlay)) && start % PAGE_SIZE == 0 && end % PAGE_SIZE == 0 ==> Aligned(overlay)
    {
      ghost var pre: OverlayMap := overlay;
      ScanStart(pre, start, item);
      hide Spliced, Passed, Front, Start, Finish, Updates, Disjoint, Aligned;
      var current: OverlayMap := overlay;
      var newStart: nat := start;
      var toRemove: set<nat> := {};
      var insertNew: Option<Entry> := Some(Entry(end - 1, Segment(newStart, item)));
      var insertBefore: Option<Entry> := None;
      var cursor := NextKey(current, if start == 0 then 0 else start - 1);
      ghost var upTo: nat := if start == 0 then 0 else start - 1;
      while cursor.Some?
        invariant current == pre
        invariant start <= upTo + 1 <= end && cursor == NextKey(pre, upTo)
        invariant toRemove == Passed(pre, start, upTo)
        invariant insertBefore == Front(pre, start, upTo, item)
        invariant newStart == Start(pre, start, upTo, item)
        invariant insertNew == Some(Entry(end - 1, Segment(newStart, item)))
        decreases if cursor.None? then 0 else if cursor.value >= end then 1 else 2 + end - cursor.value
      {
        var segmentEnd: nat := cursor.value;
        var segment := current[segmentEnd];
        ScanStep(pre, start, upTo, segmentEnd, item);
        if segment.start >= end {
          if item.None? && segment.item.None? && segment.start == end {
            current := current[segmentEnd := segment.(start := newStart)];
            insertNew := None;
          }
          break;
        }
        if segment.start < newStart {
          if segment.item.Some? || item.Some? {
            insertBefore := Some(Entry(newStart - 1, segment));
          } else {
            newStart := segment.start;
          }
        }
        if end - 1 <= segmentEnd {
          if segment.item.None? && item.None? {
            current := current[segmentEnd := segment.(start := newStart)];
            insertNew := None;
          } else {
            current := current[segmentEnd := Segment(end, Shift(segment.item, end - segment.start))];
          }
          break;
        } else {
          toRemove := toRemove + {segmentEnd};
          insertNew := Some(Entry(end - 1, Segment(newStart, item)));
        }
        cursor := NextKey(current, segmentEnd + 1);
        upTo := segmentEnd + 1;
      }
      ExitSplices(pre, start, end, upTo, item);
      overlay := Finish(current, toRemove, insertBefore, insertNew);
      SplicedUpdates(overlay, pre, start, end, item);
    }

    ghost function Frozen(): Context
      reads this, storage
    {
      Kvm(overlay, storage[..])
    }

    /** Copies bytes of another context into the local array. */
    method CopyIn(c: Context, from: nat, lo: nat, hi: nat) returns (r: Result<()>)
      requires lo <= hi <= storage.Length
      modifies storage
      ensures lo < hi ==> (r.Ok? <==> Defined(c, from, hi - lo))
      ensures lo == hi && c.Kvm? ==> (r.Ok? <==> from <= |c.storage|)
      ensures r.Ok? ==> forall a: nat :: lo <= a < hi ==> ByteAt(c, from + (a - lo)) == Some(storage[a])
      ensures forall a: nat :: a < storage.Length && !(lo <= a < hi) ==> storage[a] == old(storage[a])
      ensures r.Err? ==> r.error == InvalidRead
    {
      var bytes := Read(c, from, hi - lo, 1);
      if bytes.Err? {
        return Err(bytes.error);
      }
      forall a | lo <= a < hi {
        storage[a] := bytes.value[a - lo];
      }
      return Ok(());
    }

    /** Copies the bytes `[lo, hi)` of the segment `g` into the local array, unless they are there. */
    method KeepBytes(ghost ini: Context, ghost e: nat, g: Segment, lo: nat, hi: nat) returns (r: Result<()>)
      requires ini.Kvm? && |ini.storage| == storage.Length && Disjoint(ini.overlay)
      requires e in ini.overlay && g == ini.overlay[e] && g.start <= lo <= e && lo <= hi <= e + 1 && e < storage.Length
      requires LocalInPlace(ini, storage[..])
      modifies storage
      ensures forall a: nat :: a < storage.Length && !(lo <= a < hi) ==> storage[a] == old(storage[a])
      ensures LocalInPlace(ini, storage[..])
      ensures r.Ok? ==> Holds(ini, storage[..], lo, hi)
      ensures r.Err? ==> r.error == InvalidRead
      ensures NoChains(ini.overlay) ==> r.Ok?
    {
      hide Resolve, NoChains, Disjoint, ByteAt, Defined, LocalInPlace, Holds;
      ghost var was := storage[..];
      if g.item.None? {
        KeptLocal(ini, e, lo, hi, was);
        return Ok(());
      }
      var i := g.item.value;
      if NoChains(ini.overlay) {
        BorrowedSource(ini, e, lo, hi);
      }
      r := CopyIn(i.context, i.offset + (lo - g.start), lo, hi);
      KeptElsewhere(ini, e, lo, hi, was, storage[..]);
      if r.Ok? {
        KeptCopy(ini, e, lo, hi, storage[..]);
      }
    }

    /** Saves the bytes of the segment `g` that stay on partially overwritten pages. */
    method KeepPartialPages(ghost ini: Context, ghost upTo: nat, e: nat, g: Segment, offset: nat, writeEnd: nat,
                            start: nat, zeroBefore: nat)
      returns (r: Result<()>, zeroHeader: nat, zeroTrailer: nat)
      requires offset <= writeEnd <= storage.Length && Touching(offset, writeEnd) && storage.Length % PAGE_SIZE == 0
      requires ini.Kvm? && Disjoint(ini.overlay) && Aligned(ini.overlay) && start <= RoundDown(offset) <= e < storage.Length
      requires NextKey(ini.overlay, upTo) == Some(e) && g == ini.overlay[e] && g.start < RoundUp(writeEnd)
      requires LocalInPlace(ini, storage[..]) && HeaderKept(ini, storage[..], offset, upTo, zeroBefore)
      modifies storage
      ensures LocalInPlace(ini, storage[..])
      ensures NoChains(ini.overlay) ==> r.Ok?
      ensures r.Err? ==> r.error == InvalidRead
      ensures r.Ok? ==> HeaderSettled(ini, storage[..], offset, zeroHeader)
      ensures r.Ok? && e < RoundUp(writeEnd) - 1 ==> zeroTrailer == RoundUp(writeEnd)
      ensures r.Ok? && RoundUp(writeEnd) - 1 <= e ==> TrailerSettled(ini, storage[..], writeEnd, zeroTrailer)
    {
      var base: nat, roundedEnd: nat := RoundDown(offset), RoundUp(writeEnd);
      PageFacts(g.start, e, offset, writeEnd);
      PageEnd(writeEnd, storage.Length);
      r, zeroHeader, zeroTrailer := Ok(()), zeroBefore, roundedEnd;
      hide Disjoint, Aligned, RoundDown, RoundUp, Resolve, HeaderKept, HeaderSettled, TrailerSettled, LocalInPlace, NoChains, ByteAt;
      HeaderSeen(ini, storage[..], offset, upTo, e, zeroBefore);
      if start < offset && g.start <= offset {
        r := KeepBytes(ini, e, g, base, offset);
        if r.Err? {
          return;
        }
        zeroHeader := offset;
        HeldHeader(ini, storage[..], offset);
      }
      if roundedEnd - 1 <= e {
        if writeEnd < roundedEnd {
          ghost var st := storage[..];
          r := KeepBytes(ini, e, g, writeEnd, roundedEnd);
          if r.Err? {
            return;
          }
          zeroTrailer := writeEnd;
          HeaderFrame(ini, st, storage[..], offset, zeroHeader);
        }
        HeldTrailer(ini, storage[..], writeEnd, zeroTrailer);
      }
    }

    /** One step of the scan of `Write` over the segment that ends at `e`. */
    method ScanStepAt(ghost ini: Context, ghost upTo: nat, e: nat, offset: nat, writeEnd: nat, s: WriteScan, zeroBefore: nat)
      returns (r: Result<()>, t: WriteScan, zeroHeader: nat, zeroTrailer: nat, done: bool)
      requires ini.Kvm? && WellFormed(ini.overlay, storage.Length) && offset <= writeEnd <= storage.Length && Touching(offset, writeEnd)
      requires NextKey(ini.overlay, upTo) == Some(e)
      requires InScan(ini, storage[..], offset, writeEnd, upTo, s, zeroBefore, RoundUp(writeEnd))
      modifies storage
      ensures LocalInPlace(ini, storage[..])
      ensures NoChains(ini.overlay) ==> r.Ok?
      ensures r.Err? ==> r.error == InvalidRead
      ensures r.Ok? && !done ==> InScan(ini, storage[..], offset, writeEnd, e + 1, t, zeroHeader, zeroTrailer)
      ensures r.Ok? && !done ==> t.current == ini.overlay && e < RoundUp(writeEnd)
      ensures r.Ok? && done ==> AfterScan(ini, storage[..], offset, writeEnd, t, zeroHeader, zeroTrailer)
    {
      var base: nat, roundedEnd: nat := RoundDown(offset), RoundUp(writeEnd);
      r, t, zeroHeader, zeroTrailer, done := Ok(()), s, zeroBefore, roundedEnd, false;
      hide Scanning, Scanned, HeaderKept, HeaderSettled, TrailerSettled, LocalInPlace, WellFormed, NoChains,
           Disjoint, Aligned, Resolve, ByteAt, RoundDown, RoundUp, Finish;
      KeyInside(ini.overlay, storage.Length, e);
      StepFacts(ini.overlay, offset, writeEnd, upTo, e, s);
      var g := s.current[e];
      if base <= e && g.start < roundedEnd {
        r, zeroHeader, zeroTrailer := KeepPartialPages(ini, upTo, e, g, offset, writeEnd, s.start, zeroBefore);
        if r.Err? {
          return;
        }
        SettledHeaderKept(ini, storage[..], offset, e + 1, zeroHeader);
      } else {
        NotTouched(ini, storage[..], offset, writeEnd, upTo, e, zeroBefore);
      }
      t, done := ScanSegment(ini.overlay, upTo, e, offset, writeEnd, s);
    }

    /** The scan of `Write`: saves what stays on partially overwritten pages and collects the
        overlay updates. */
    method ScanOverlay(offset: nat, writeEnd: nat)
      returns (r: Result<()>, scan: WriteScan, zeroHeader: nat, zeroTrailer: nat)
      requires WellFormed(overlay, storage.Length) && offset <= writeEnd <= storage.Length && Touching(offset, writeEnd)
      modifies storage
      ensures LocalInPlace(old(Frozen()), storage[..])
      ensures NoChains(overlay) ==> r.Ok?
      ensures r.Err? ==> r.error == InvalidRead
      ensures r.Ok? ==> AfterScan(old(Frozen()), storage[..], offset, writeEnd, scan, zeroHeader, zeroTrailer)
    {
      hide InScan, AfterScan, LocalInPlace, WellFormed, NoChains, RoundDown, RoundUp;
      ghost var ini := Frozen();
      var base: nat, roundedEnd: nat := RoundDown(offset), RoundUp(writeEnd);
      r := Ok(());
      scan := WriteScan(overlay, {}, None, Some(Entry(roundedEnd - 1, Segment(base, None))), base);
      zeroHeader, zeroTrailer := base, roundedEnd;
      var cursor := NextKey(scan.current, if base == 0 then 0 else base - 1);
      ghost var upTo: nat := if base == 0 then 0 else base - 1;
      var done := false;
      WriteStarts(ini, offset, writeEnd);
      while cursor.Some? && !done
        invariant r.Ok?
        invariant !done ==> InScan(ini, storage[..], offset, writeEnd, upTo, scan, zeroHeader, zeroTrailer)
        invariant !done ==> cursor == NextKey(ini.overlay, upTo) && zeroTrailer == roundedEnd
        invariant done ==> AfterScan(ini, storage[..], offset, writeEnd, scan, zeroHeader, zeroTrailer)
        decreases !done, if cursor.Some? && cursor.value < roundedEnd then roundedEnd - cursor.value else 0
      {
        var e: nat := cursor.value;
        r, scan, zeroHeader, zeroTrailer, done := ScanStepAt(ini, upTo, e, offset, writeEnd, scan, zeroHeader);
        if r.Err? {
          return;
        }
        if !done {
          InScanTrailer(ini, storage[..], offset, writeEnd, e + 1, scan, zeroHeader, zeroTrailer);
          cursor := NextKey(scan.current, e + 1);
          upTo := e + 1;
        }
      }
      if !done {
        ScanExhausted(ini, storage[..], offset, writeEnd, upTo, scan, zeroHeader, zeroTrailer);
      }
      AfterScanLocal(ini, storage[..], offset, writeEnd, scan, zeroHeader, zeroTrailer);
    }

    method WriteBytes(offset: nat, data: seq<byte>) returns (r: Result<()>)
      requires WellFormed(overlay, storage.Length) && Touching(offset, offset + |data|) && offset + |data| <= storage.Length
      modifies this`overlay, storage
      ensures WellFormed(overlay, storage.Length)
      ensures NoChains(old(overlay)) ==> r.Ok?
      ensures r.Err? ==> overlay == old(overlay) && SameBytes(Frozen(), old(Frozen()))
      ensures r.Ok? ==> Written(Frozen(), old(Frozen()), offset, data)
      ensures r.Ok? ==> Updates(overlay, old(overlay), RoundDown(offset), RoundUp(offset + |data|), None)
    {
      hide AfterScan, LocalInPlace, WellFormed, NoChains, Written, Updates, SameBytes, RoundDown, RoundUp, Finish, Filled;
      ghost var ini := Frozen();
      var scan, zeroHeader, zeroTrailer;
      r, scan, zeroHeader, zeroTrailer := ScanOverlay(offset, offset + |data|);
      ghost var st := storage[..];
      if r.Err? {
        InPlaceSame(Frozen(), ini);
        return;
      }
      SettledBounds(ini, st, offset, offset + |data|, scan, zeroHeader, zeroTrailer);
      overlay := Finish(scan.current, scan.toRemove, scan.insertBefore, scan.insertNew);
      ScannedUpdates(overlay, ini, st, offset, offset + |data|, scan, zeroHeader, zeroTrailer);
      FillIn(zeroHeader, offset, data, zeroTrailer);
      WriteDone(ini, st, Frozen(), offset, data, scan, zeroHeader, zeroTrailer);
    }

    /** Writes bytes and makes every touched page local; partially overwritten pages keep
        their other bytes, or get zeros where they had none. Writing nothing at the beginning of a
        page aborts at 0, and elsewhere keeps the context as it is if and only if a byte beside it is
        local. */
    method Write(offset: nat, data: seq<byte>, align: nat) returns (r: Result<()>)
      requires WellFormed(overlay, storage.Length) && align > 0
      modifies this`overlay, storage
      ensures offset % align != 0 ==> r == Err(WriteMisaligned)
      ensures offset % align == 0 && offset + |data| > storage.Length ==> r == Err(InvalidWrite)
      ensures offset % align == 0 && offset + |data| <= storage.Length && data == [] && offset % PAGE_SIZE == 0 ==> r == if offset == 0 then Err(Panic) else Ok(())
      ensures offset % align == 0 && offset + |data| <= storage.Length && NoChains(old(overlay)) && (data != [] || offset % PAGE_SIZE != 0) ==> r.Ok?
      ensures r.Err? ==> overlay == old(overlay) && SameBytes(Frozen(), old(Frozen()))
      ensures r.Err? || data != [] || offset % PAGE_SIZE != 0 ==> WellFormed(overlay, storage.Length)
      ensures r.Ok? && (data != [] || offset % PAGE_SIZE != 0) ==> Written(Frozen(), old(Frozen()), offset, data)
      ensures r.Ok? && (data != [] || offset % PAGE_SIZE != 0) ==> Updates(overlay, old(overlay), RoundDown(offset), RoundUp(offset + |data|), None)
      ensures r.Ok? && data == [] && offset % PAGE_SIZE == 0 ==> storage[..] == old(storage[..])
      ensures r.Ok? && data == [] && offset % PAGE_SIZE == 0 && Beside(old(overlay), offset) ==> WellFormed(overlay, storage.Length) && SameEverywhere(overlay, old(overlay))
      ensures r.Ok? && data == [] && offset % PAGE_SIZE == 0 && !Beside(old(overlay), offset) ==> Damaged(overlay, old(overlay), offset)
    {
      hide WellFormed, NoChains, Written, Updates, RoundDown, RoundUp, ByteAt, Beside, Damaged, SameEverywhere;
      if offset % align != 0 {
        return Err(WriteMisaligned);
      }
      if offset + |data| > storage.Length {
        return Err(InvalidWrite);
      }
      TouchingIs(offset, data);
      if Touching(offset, offset + |data|) {
        r := WriteBytes(offset, data);
      } else if offset == 0 {
        return Err(Panic);
      } else {
        WellFormedParts(overlay, storage.Length);
        ghost var ini := overlay;
        overlay := ScanNothing(overlay, offset);
        if Beside(ini, offset) {
          FewerKeys(overlay, ini, storage.Length);
        }
        return Ok(());
      }
    }

    /** Puts the data in place, with zeros before it from `lo` on and after it up to `hi`. */
    method FillIn(lo: nat, offset: nat, data: seq<byte>, hi: nat)
      requires lo <= offset && offset + |data| <= hi <= storage.Length
      modifies storage
      ensures forall a: nat :: a < storage.Length ==> storage[a] == Filled(old(storage[..]), lo, offset, data, hi, a)
    {
      forall a | lo <= a < offset {
        storage[a] := 0;
      }
      forall a | offset <= a < offset + |data| {
        storage[a] := data[a - offset];
      }
      forall a | offset + |data| <= a < hi {
        storage[a] := 0;
      }
    }
  }

  /** Overlay bookkeeping for one segment met by the scan of `Write`; `done` when the scan is over. */
  method ScanSegment(ghost ov: OverlayMap, ghost upTo: nat, e: nat, offset: nat, writeEnd: nat, s: WriteScan)
    returns (t: WriteScan, done: bool)
    requires Disjoint(ov) && Aligned(ov) && Touching(offset, writeEnd)
    requires Scanning(ov, offset, writeEnd, upTo, s) && NextKey(ov, upTo) == Some(e)
    ensures done <==> RoundDown(offset) <= e && (ov[e].start >= RoundUp(writeEnd) || RoundUp(writeEnd) - 1 <= e)
    ensures !done ==> Scanning(ov, offset, writeEnd, e + 1, t) && t.current == ov
    ensures done ==> Scanned(ov, offset, writeEnd, t)
  {
    hide *;
    StepFacts(ov, offset, writeEnd, upTo, e, s);
    var roundedEnd: nat := RoundUp(writeEnd);
    var g := s.current[e];
    t, done := s, false;
    if e == (if s.start == 0 then 0 else s.start - 1) {
      TouchScanning(ov, offset, writeEnd, upTo, e, s);
      if g.item.None? {
        t := WriteScan(s.current, s.toRemove + {e}, s.insertBefore, Some(Entry(roundedEnd - 1, Segment(g.start, None))), g.start);
      }
      return;
    }
    if g.start >= roundedEnd {
      PastEndScanned(ov, offset, writeEnd, upTo, s);
      if g.item.None? && g.start == roundedEnd {
        t := WriteScan(s.current[e := Segment(s.start, None)], s.toRemove, s.insertBefore, None, s.start);
      }
      return t, true;
    }
    var front: Option<Entry>, start: nat := s.insertBefore, s.start;
    if g.start < start {
      if g.item.Some? {
        front := Some(Entry(start - 1, g));
      } else {
        start := g.start;
      }
    }
    if roundedEnd - 1 <= e {
      StepScanned(ov, offset, writeEnd, upTo, e, s);
      if g.item.Some? {
        t := WriteScan(s.current[e := CutFront(g, roundedEnd)], s.toRemove, front,
                       Some(Entry(roundedEnd - 1, Segment(start, None))), start);
      } else {
        t := WriteScan(s.current[e := Segment(start, None)], s.toRemove, front, None, start);
      }
      done := true;
    } else {
      StepScanning(ov, offset, writeEnd, upTo, e, s);
      t := WriteScan(s.current, s.toRemove + {e}, front, Some(Entry(roundedEnd - 1, Segment(start, None))), start);
    }
  }

  /** The local variables of `Write` while it scans the overlay. */
  datatype WriteScan = WriteScan(
    current: OverlayMap,
    toRemove: set<nat>,
    insertBefore: Option<Entry>,
    insertNew: Option<Entry>,
    start: nat)

  /** All keys below `upTo` have been looked at. */
  ghost predicate Scanning(ov: OverlayMap, offset: nat, writeEnd: nat, upTo: nat, s: WriteScan) {
    var base, end := RoundDown(offset), RoundUp(writeEnd);
    && s.current == ov && base <= upTo + 1 <= end
    && s.start == Start(ov, base, upTo, None)
    && s.insertNew == Some(Entry(end - 1, Segment(s.start, None)))
    && FrontLeft(ov, base, s.toRemove, s.insertBefore, Passed(ov, base, upTo), Front(ov, base, upTo, None))
  }

  /** Applying the collected updates replaces the touched pages by local ones. */
  ghost predicate Scanned(ov: OverlayMap, offset: nat, writeEnd: nat, s: WriteScan)
    requires Touching(offset, writeEnd)
  {
    Spliced(Finish(s.current, s.toRemove, s.insertBefore, s.insertNew), ov, RoundDown(offset), RoundUp(writeEnd), None)
  }

  ghost predicate LocalInPlace(ini: Context, st: seq<byte>) {
    && ini.Kvm? && |st| == |ini.storage|
    && forall a: nat :: a < |st| && Resolve(ini.overlay, a) == Some(Local) ==> st[a] == ini.storage[a]
  }

  ghost predicate Holds(ini: Context, st: seq<byte>, lo: nat, hi: nat) {
    hi <= |st| && forall a: nat :: lo <= a < hi ==> ByteAt(ini, a) == Some(st[a])
  }

  /** The bytes of a local segment are in place. */
  lemma KeptLocal(ini: Context, e: nat, lo: nat, hi: nat, st: seq<byte>)
    requires ini.Kvm? && Disjoint(ini.overlay) && LocalInPlace(ini, st)
    requires e in ini.overlay && ini.overlay[e].start <= lo && hi <= e + 1 && e < |st| && ini.overlay[e].item.None?
    ensures Holds(ini, st, lo, hi)
  {
    hide Resolve, ByteAt, Disjoint;
    forall a: nat | lo <= a < hi ensures ByteAt(ini, a) == Some(st[a]) {
      ResolveCovered(ini.overlay, e, a);
      ByteAtKvm(ini, a);
    }
  }

  /** What a borrowed segment refers to is there. */
  lemma BorrowedSource(ini: Context, e: nat, lo: nat, hi: nat)
    requires ini.Kvm? && Disjoint(ini.overlay) && NoChains(ini.overlay)
    requires e in ini.overlay && ini.overlay[e].start <= lo <= e && lo <= hi <= e + 1 && e < |ini.storage| && ini.overlay[e].item.Some?
    ensures var g := ini.overlay[e]; var i := g.item.value; var from := i.offset + (lo - g.start);
            Defined(i.context, from, hi - lo) && i.context.Kvm? && from <= |i.context.storage|
  {
    hide Resolve, ByteAt, Disjoint, NoChains;
    var g := ini.overlay[e];
    var i := g.item.value;
    var from := i.offset + (lo - g.start);
    ResolveCovered(ini.overlay, e, lo);
    PlaceInside(ini, lo);
    forall b: nat | from <= b < from + (hi - lo) ensures ByteAt(i.context, b).Some? {
      var a: nat := b - i.offset + g.start;
      ResolveCovered(ini.overlay, e, a);
      BorrowedByte(ini, a);
      ByteAtKvm(ini, a);
    }
  }

  lemma PlaceInside(ini: Context, a: nat)
    requires ini.Kvm? && NoChains(ini.overlay) && Resolve(ini.overlay, a).Some?
    ensures var p := Resolve(ini.overlay, a).value; p.Remote? ==> p.context.Kvm? && p.offset < |p.context.storage|
  {
    hide Resolve;
    assert Direct(Resolve(ini.overlay, a).value, a);
  }

  /** Overwriting the bytes of a borrowed segment leaves local bytes in place. */
  lemma KeptElsewhere(ini: Context, e: nat, lo: nat, hi: nat, was: seq<byte>, st: seq<byte>)
    requires ini.Kvm? && Disjoint(ini.overlay) && LocalInPlace(ini, was) && |st| == |was|
    requires e in ini.overlay && ini.overlay[e].start <= lo && hi <= e + 1 && ini.overlay[e].item.Some?
    requires forall a: nat :: a < |st| && !(lo <= a < hi) ==> st[a] == was[a]
    ensures LocalInPlace(ini, st)
  {
    hide Resolve, Disjoint;
    forall a: nat | a < |st| && Resolve(ini.overlay, a) == Some(Local) ensures st[a] == ini.storage[a] {
      if lo <= a < hi {
        ResolveCovered(ini.overlay, e, a);
      }
    }
  }

  lemma KeptCopy(ini: Context, e: nat, lo: nat, hi: nat, st: seq<byte>)
    requires ini.Kvm? && Disjoint(ini.overlay) && |st| == |ini.storage| && e < |st|
    requires e in ini.overlay && ini.overlay[e].start <= lo && hi <= e + 1 && ini.overlay[e].item.Some?
    requires var g := ini.overlay[e]; var i := g.item.value;
             forall a: nat :: lo <= a < hi ==> ByteAt(i.context, i.offset + (lo - g.start) + (a - lo)) == Some(st[a])
    ensures Holds(ini, st, lo, hi)
  {
    hide Resolve, ByteAt, Disjoint;
    var g := ini.overlay[e];
    forall a: nat | lo <= a < hi ensures ByteAt(ini, a) == Some(st[a]) {
      ResolveCovered(ini.overlay, e, a);
      ByteAtKvm(ini, a);
      assert g.item.value.offset + (lo - g.start) + (a - lo) == g.item.value.offset + (a - g.start);
    }
  }

  /** The bytes before `offset` in its page are in place if the scan has met their segment. */
  ghost predicate HeaderKept(ini: Context, st: seq<byte>, offset: nat, upTo: nat, zeroHeader: nat) {
    var base := RoundDown(offset);
    if zeroHeader == offset then Holds(ini, st, base, offset)
    else ini.Kvm? && zeroHeader == base && forall k: nat :: Covers(ini.overlay, k, base) ==> upTo <= k
  }

  /** They are in place, or there are none. */
  ghost predicate HeaderSettled(ini: Context, st: seq<byte>, offset: nat, zeroHeader: nat) {
    var base := RoundDown(offset);
    if zeroHeader == offset then Holds(ini, st, base, offset)
    else ini.Kvm? && zeroHeader == base && Resolve(ini.overlay, base).None?
  }

  ghost predicate TrailerSettled(ini: Context, st: seq<byte>, writeEnd: nat, zeroTrailer: nat) {
    var end := RoundUp(writeEnd);
    if zeroTrailer == writeEnd then Holds(ini, st, writeEnd, end)
    else ini.Kvm? && zeroTrailer == end && Resolve(ini.overlay, writeEnd).None?
  }

  ghost predicate InScan(ini: Context, st: seq<byte>, offset: nat, writeEnd: nat, upTo: nat, s: WriteScan,
                         zeroHeader: nat, zeroTrailer: nat) {
    && LocalInPlace(ini, st) && Scanning(ini.overlay, offset, writeEnd, upTo, s)
    && HeaderKept(ini, st, offset, upTo, zeroHeader) && zeroTrailer == RoundUp(writeEnd)
  }

  ghost predicate AfterScan(ini: Context, st: seq<byte>, offset: nat, writeEnd: nat, s: WriteScan,
                            zeroHeader: nat, zeroTrailer: nat) {
    && Touching(offset, writeEnd) && LocalInPlace(ini, st) && Scanned(ini.overlay, offset, writeEnd, s)
    && HeaderSettled(ini, st, offset, zeroHeader) && TrailerSettled(ini, st, writeEnd, zeroTrailer)
  }

  lemma InScanTrailer(ini: Context, st: seq<byte>, offset: nat, writeEnd: nat, upTo: nat, s: WriteScan,
                      zeroHeader: nat, zeroTrailer: nat)
    requires InScan(ini, st, offset, writeEnd, upTo, s, zeroHeader, zeroTrailer)
    ensures zeroTrailer == RoundUp(writeEnd)
  {
  }

  lemma AfterScanLocal(ini: Context, st: seq<byte>, offset: nat, writeEnd: nat, s: WriteScan, zeroHeader: nat, zeroTrailer: nat)
    requires AfterScan(ini, st, offset, writeEnd, s, zeroHeader, zeroTrailer)
    ensures LocalInPlace(ini, st)
  {
  }

  // ------------------------------------------------- steps of the scan

  /** Page arithmetic for a segment `[start, e]` against the touched pages `[base, end)`. */
  lemma PageFacts(start: nat, e: nat, offset: nat, writeEnd: nat)
    requires start % PAGE_SIZE == 0 && (e + 1) % PAGE_SIZE == 0 && Touching(offset, writeEnd)
    ensures start <= offset ==> start <= RoundDown(offset)
    ensures RoundDown(offset) <= e ==> offset <= e
    ensures start < RoundUp(writeEnd) ==> start <= writeEnd
    ensures e + 1 < RoundUp(writeEnd) ==> e < writeEnd
  {
  }

  lemma StepFacts(ov: OverlayMap, offset: nat, writeEnd: nat, upTo: nat, e: nat, s: WriteScan)
    requires Disjoint(ov) && Aligned(ov) && Touching(offset, writeEnd)
    requires Scanning(ov, offset, writeEnd, upTo, s) && NextKey(ov, upTo) == Some(e)
    ensures var base, end := RoundDown(offset), RoundUp(writeEnd);
            && s.current == ov && s.start <= base && base <= upTo + 1 <= end && 0 < end
            && ov[e].start <= e
            && s.insertNew == Some(Entry(end - 1, Segment(s.start, None)))
            && ((e == if s.start == 0 then 0 else s.start - 1) <==> e + 1 == base)
            && (e + 1 != base ==> base <= e)
  {
    KeyFacts(ov, RoundDown(offset), upTo, e);
    StartBelow(ov, RoundDown(offset), upTo);
    hide FrontLeft, Passed, Front, Start, RoundDown, Aligned;
  }

  lemma PageEnd(writeEnd: nat, size: nat)
    requires writeEnd <= size && size % PAGE_SIZE == 0
    ensures RoundUp(writeEnd) <= size
  {
  }

  lemma TouchScanning(ov: OverlayMap, offset: nat, writeEnd: nat, upTo: nat, e: nat, s: WriteScan)
    requires Disjoint(ov) && Touching(offset, writeEnd) && e + 1 == RoundDown(offset)
    requires Scanning(ov, offset, writeEnd, upTo, s) && NextKey(ov, upTo) == Some(e)
    ensures var g := ov[e];
            if g.item.None? then
              Scanning(ov, offset, writeEnd, e + 1,
                       WriteScan(ov, s.toRemove + {e}, s.insertBefore, Some(Entry(RoundUp(writeEnd) - 1, Segment(g.start, None))), g.start))
            else Scanning(ov, offset, writeEnd, e + 1, s)
  {
    hide FrontLeft, Passed, Front;
    FrontLeftTouch(ov, RoundDown(offset), upTo, e, s.toRemove, s.insertBefore);
  }

  /** A segment that ends before the last touched byte is removed. */
  lemma StepScanning(ov: OverlayMap, offset: nat, writeEnd: nat, upTo: nat, e: nat, s: WriteScan)
    requires Disjoint(ov) && Touching(offset, writeEnd) && RoundDown(offset) <= e < RoundUp(writeEnd) - 1
    requires Scanning(ov, offset, writeEnd, upTo, s) && NextKey(ov, upTo) == Some(e)
    ensures var g := ov[e];
            var front := if g.start < s.start && g.item.Some? then Some(Entry(s.start - 1, g)) else s.insertBefore;
            var start := if g.start < s.start && g.item.None? then g.start else s.start;
            Scanning(ov, offset, writeEnd, e + 1,
                     WriteScan(ov, s.toRemove + {e}, front, Some(Entry(RoundUp(writeEnd) - 1, Segment(start, None))), start))
  {
    hide FrontLeft, Passed, Front, Start, Disjoint, RoundDown, RoundUp;
    ScanStep(ov, RoundDown(offset), upTo, e, None);
    FrontLeftStep(ov, RoundDown(offset), upTo, e, s.toRemove, s.insertBefore);
  }

  /** A segment that reaches the end of the touched pages is cut or extended. */
  lemma StepScanned(ov: OverlayMap, offset: nat, writeEnd: nat, upTo: nat, e: nat, s: WriteScan)
    requires Disjoint(ov) && Touching(offset, writeEnd) && RoundDown(offset) <= e && RoundUp(writeEnd) - 1 <= e
    requires Scanning(ov, offset, writeEnd, upTo, s) && NextKey(ov, upTo) == Some(e) && ov[e].start < RoundUp(writeEnd)
    ensures var g, end := ov[e], RoundUp(writeEnd);
            var front := if g.start < s.start && g.item.Some? then Some(Entry(s.start - 1, g)) else s.insertBefore;
            var start := if g.start < s.start && g.item.None? then g.start else s.start;
            if g.item.Some? then
              Scanned(ov, offset, writeEnd, WriteScan(ov[e := CutFront(g, end)], s.toRemove, front,
                                                      Some(Entry(end - 1, Segment(start, None))), start))
            else
              Scanned(ov, offset, writeEnd, WriteScan(ov[e := Segment(start, None)], s.toRemove, front, None, start))
  {
    hide FrontLeft, Passed, Front, Start, Disjoint, Finish, Spliced, RoundDown, RoundUp, CutFront;
    var base, end := RoundDown(offset), RoundUp(writeEnd);
    var g := ov[e];
    var front := if g.start < s.start && g.item.Some? then Some(Entry(s.start - 1, g)) else s.insertBefore;
    ScanStep(ov, base, upTo, e, None);
    FrontLeftStep(ov, base, upTo, e, s.toRemove, s.insertBefore);
    FinishAt(ov, base, end, upTo, e, s.toRemove, front);
  }

  /** The scan ends: nothing is left, or only a segment at or past the end of the touched pages. */
  lemma PastEndScanned(ov: OverlayMap, offset: nat, writeEnd: nat, upTo: nat, s: WriteScan)
    requires Disjoint(ov) && Touching(offset, writeEnd) && Scanning(ov, offset, writeEnd, upTo, s)
    requires var last := NextKey(ov, upTo); last.Some? ==> RoundUp(writeEnd) <= ov[last.value].start
    ensures var last, end := NextKey(ov, upTo), RoundUp(writeEnd);
            if last.Some? && ov[last.value].start == end && ov[last.value].item.None? then
              Scanned(ov, offset, writeEnd, WriteScan(ov[last.value := Segment(s.start, None)], s.toRemove, s.insertBefore, None, s.start))
            else Scanned(ov, offset, writeEnd, s)
  {
    FinishScan(ov, RoundDown(offset), RoundUp(writeEnd), upTo, s.toRemove, s.insertBefore);
  }

  lemma HeaderNext(ini: Context, st: seq<byte>, offset: nat, upTo: nat, e: nat, zeroHeader: nat)
    requires ini.Kvm? && offset <= |st| && NextKey(ini.overlay, upTo) == Some(e) && e < RoundDown(offset)
    requires HeaderKept(ini, st, offset, upTo, zeroHeader)
    ensures HeaderKept(ini, st, offset, e + 1, zeroHeader)
  {
    hide RoundDown, ByteAt;
  }

  /** Once the scan meets a segment that does not reach back to `offset`, the header is settled. */
  lemma HeaderSeen(ini: Context, st: seq<byte>, offset: nat, upTo: nat, e: nat, zeroHeader: nat)
    requires ini.Kvm? && offset <= |st| && Disjoint(ini.overlay) && NextKey(ini.overlay, upTo) == Some(e)
    requires RoundDown(offset) <= e && HeaderKept(ini, st, offset, upTo, zeroHeader)
    ensures zeroHeader == offset || ini.overlay[e].start > offset ==> HeaderSettled(ini, st, offset, zeroHeader)
    ensures RoundDown(offset) == offset ==> HeaderSettled(ini, st, offset, zeroHeader)
  {
    if zeroHeader != offset && ini.overlay[e].start > offset {
      assert forall k: nat :: Covers(ini.overlay, k, RoundDown(offset)) ==> e <= k;
      ResolveUncovered(ini.overlay, RoundDown(offset));
    }
  }

  /** A segment that ends before the touched pages or starts after them. */
  lemma NotTouched(ini: Context, st: seq<byte>, offset: nat, writeEnd: nat, upTo: nat, e: nat, zeroHeader: nat)
    requires ini.Kvm? && WellFormed(ini.overlay, |st|) && offset <= writeEnd <= |st| && Touching(offset, writeEnd) && upTo + 1 <= RoundUp(writeEnd)
    requires NextKey(ini.overlay, upTo) == Some(e) && HeaderKept(ini, st, offset, upTo, zeroHeader)
    requires e < RoundDown(offset) || RoundUp(writeEnd) <= ini.overlay[e].start
    ensures e < RoundDown(offset) ==> HeaderKept(ini, st, offset, e + 1, zeroHeader)
    ensures RoundDown(offset) <= e ==> HeaderSettled(ini, st, offset, zeroHeader) && TrailerSettled(ini, st, writeEnd, RoundUp(writeEnd))
  {
    PageEnd(writeEnd, |st|);
    if e < RoundDown(offset) {
      HeaderNext(ini, st, offset, upTo, e, zeroHeader);
    } else {
      HeaderSeen(ini, st, offset, upTo, e, zeroHeader);
      TrailerFree(ini, st, writeEnd, upTo);
    }
  }

  lemma HeldHeader(ini: Context, st: seq<byte>, offset: nat)
    requires ini.Kvm? && offset <= |st| && Holds(ini, st, RoundDown(offset), offset)
    ensures HeaderSettled(ini, st, offset, offset)
  {
  }

  lemma HeaderFrame(ini: Context, st: seq<byte>, fin: seq<byte>, offset: nat, zeroHeader: nat)
    requires ini.Kvm? && offset <= |st| == |fin| && HeaderSettled(ini, st, offset, zeroHeader)
    requires forall a: nat :: a < offset ==> fin[a] == st[a]
    ensures HeaderSettled(ini, fin, offset, zeroHeader)
  {
    hide RoundDown;
  }

  lemma SettledHeaderKept(ini: Context, st: seq<byte>, offset: nat, upTo: nat, zeroHeader: nat)
    requires ini.Kvm? && offset <= |st| && Disjoint(ini.overlay) && HeaderSettled(ini, st, offset, zeroHeader)
    ensures HeaderKept(ini, st, offset, upTo, zeroHeader)
  {
    forall k: nat | Covers(ini.overlay, k, RoundDown(offset)) ensures zeroHeader == offset {
      ResolveCovered(ini.overlay, k, RoundDown(offset));
    }
  }

  lemma HeldTrailer(ini: Context, st: seq<byte>, writeEnd: nat, zeroTrailer: nat)
    requires ini.Kvm? && RoundUp(writeEnd) <= |st|
    requires zeroTrailer == writeEnd ==> Holds(ini, st, writeEnd, RoundUp(writeEnd))
    requires zeroTrailer == writeEnd || zeroTrailer == RoundUp(writeEnd) == writeEnd
    ensures TrailerSettled(ini, st, writeEnd, zeroTrailer)
  {
  }

  /** Nothing below `upTo` covers the last touched page, and nothing from there on does. */
  lemma TrailerFree(ini: Context, st: seq<byte>, writeEnd: nat, upTo: nat)
    requires ini.Kvm? && 0 < writeEnd && RoundUp(writeEnd) <= |st| && Disjoint(ini.overlay) && Aligned(ini.overlay)
    requires upTo + 1 <= RoundUp(writeEnd)
    requires var last := NextKey(ini.overlay, upTo); last.Some? ==> RoundUp(writeEnd) <= ini.overlay[last.value].start
    ensures TrailerSettled(ini, st, writeEnd, RoundUp(writeEnd))
  {
    var ov, end := ini.overlay, RoundUp(writeEnd);
    if writeEnd != end {
      forall k: nat ensures !Covers(ov, k, writeEnd) {
        if Covers(ov, k, writeEnd) {
          PageFacts(ov[k].start, k, writeEnd - 1, writeEnd);
        }
      }
      ResolveUncovered(ov, writeEnd);
    }
  }

  ghost function Filled(st: seq<byte>, lo: nat, offset: nat, data: seq<byte>, hi: nat, a: nat): byte
    requires a < |st|
  {
    if offset <= a < offset + |data| then data[a - offset]
    else if lo <= a < hi then 0
    else st[a]
  }

  ghost predicate SameBytes(fin: Context, ini: Context) {
    forall a: nat :: ByteAt(fin, a) == ByteAt(ini, a)
  }

  lemma InPlaceSame(fin: Context, ini: Context)
    requires fin.Kvm? && ini.Kvm? && fin.overlay == ini.overlay && LocalInPlace(ini, fin.storage)
    ensures SameBytes(fin, ini)
  {
    forall a: nat ensures ByteAt(fin, a) == ByteAt(ini, a) {
      SameView(fin, ini, a);
    }
  }

  lemma KeyInside(ov: OverlayMap, size: nat, e: nat)
    requires WellFormed(ov, size) && e in ov
    ensures Disjoint(ov) && Aligned(ov) && size % PAGE_SIZE == 0 && e < size
  {
  }

  lemma SizeInPages(ov: OverlayMap, size: nat)
    requires WellFormed(ov, size)
    ensures size % PAGE_SIZE == 0
  {
  }

  lemma WriteStarts(ini: Context, offset: nat, writeEnd: nat)
    requires ini.Kvm? && offset <= writeEnd <= |ini.storage| && Touching(offset, writeEnd)
    ensures var base, end := RoundDown(offset), RoundUp(writeEnd);
            InScan(ini, ini.storage, offset, writeEnd, if base == 0 then 0 else base - 1,
                   WriteScan(ini.overlay, {}, None, Some(Entry(end - 1, Segment(base, None))), base), base, end)
  {
    ScanStart(ini.overlay, RoundDown(offset), None);
    hide Passed, Front, Start;
  }

  /** The scan ran out of segments. */
  lemma ScanExhausted(ini: Context, st: seq<byte>, offset: nat, writeEnd: nat, upTo: nat, s: WriteScan, zeroHeader: nat, zeroTrailer: nat)
    requires ini.Kvm? && WellFormed(ini.overlay, |st|) && offset <= writeEnd <= |st| && Touching(offset, writeEnd) && NextKey(ini.overlay, upTo).None?
    requires InScan(ini, st, offset, writeEnd, upTo, s, zeroHeader, zeroTrailer)
    ensures AfterScan(ini, st, offset, writeEnd, s, zeroHeader, zeroTrailer)
  {
    PageEnd(writeEnd, |st|);
    PastEndScanned(ini.overlay, offset, writeEnd, upTo, s);
    TrailerFree(ini, st, writeEnd, upTo);
    if zeroHeader != offset {
      ResolveUncovered(ini.overlay, RoundDown(offset));
    }
    hide Scanned, TrailerSettled, LocalInPlace;
  }

  lemma SettledBounds(ini: Context, st: seq<byte>, offset: nat, writeEnd: nat, s: WriteScan, zeroHeader: nat, zeroTrailer: nat)
    requires ini.Kvm? && WellFormed(ini.overlay, |st|) && writeEnd <= |st|
    requires AfterScan(ini, st, offset, writeEnd, s, zeroHeader, zeroTrailer)
    ensures RoundDown(offset) <= zeroHeader <= offset && writeEnd <= zeroTrailer <= RoundUp(writeEnd) <= |st|
  {
    hide Scanned, LocalInPlace;
    PageEnd(writeEnd, |st|);
  }

  lemma ScannedUpdates(fin: OverlayMap, ini: Context, st: seq<byte>, offset: nat, writeEnd: nat, s: WriteScan, zeroHeader: nat, zeroTrailer: nat)
    requires ini.Kvm? && WellFormed(ini.overlay, |st|) && offset <= writeEnd <= |st| && Touching(offset, writeEnd)
    requires AfterScan(ini, st, offset, writeEnd, s, zeroHeader, zeroTrailer)
    requires fin == Finish(s.current, s.toRemove, s.insertBefore, s.insertNew)
    ensures WellFormed(fin, |st|) && Updates(fin, ini.overlay, RoundDown(offset), RoundUp(writeEnd), None)
  {
    PageEnd(writeEnd, |st|);
    hide Finish, Spliced, HeaderSettled, TrailerSettled, LocalInPlace, Updates, Disjoint, Aligned;
    SplicedUpdates(fin, ini.overlay, RoundDown(offset), RoundUp(writeEnd), None);
    UpdatedInside(fin, ini.overlay, RoundDown(offset), RoundUp(writeEnd), None, |st|);
  }

  lemma UpdatedInside(fin: OverlayMap, ov: OverlayMap, s: nat, t: nat, item: Option<OverlayItem>, size: nat)
    requires Disjoint(fin) && Updates(fin, ov, s, t, item) && t <= size
    requires forall e: nat :: e in ov ==> e < size
    ensures forall e: nat :: e in fin ==> e < size
  {
    forall e: nat | e in fin ensures e < size {
      ResolveCovered(fin, e, e);
      assert Resolve(fin, e).Some?;
    }
  }

  /** Settled first and last pages plus the data give exactly the view after the write. */
  lemma WriteDone(ini: Context, st: seq<byte>, fin: Context, offset: nat, data: seq<byte>, s: WriteScan, zeroHeader: nat, zeroTrailer: nat)
    requires ini.Kvm? && fin.Kvm? && |fin.storage| == |st| && Touching(offset, offset + |data|)
    requires WellFormed(ini.overlay, |st|) && offset + |data| <= |st|
    requires AfterScan(ini, st, offset, offset + |data|, s, zeroHeader, zeroTrailer)
    requires forall a: nat :: a < |st| ==> fin.storage[a] == Filled(st, zeroHeader, offset, data, zeroTrailer, a)
    requires Updates(fin.overlay, ini.overlay, RoundDown(offset), RoundUp(offset + |data|), None)
    ensures Written(fin, ini, offset, data)
  {
    hide WellFormed, Scanned, HeaderSettled, TrailerSettled, RoundDown, RoundUp, Updates, Written, Resolve, ByteAt;
    var base, writeEnd, end := RoundDown(offset), offset + |data|, RoundUp(offset + |data|);
    SizeInPages(ini.overlay, |st|);
    PageEnd(writeEnd, |st|);
    SettledBounds(ini, st, offset, writeEnd, s, zeroHeader, zeroTrailer);
    forall a: nat | base <= a < end ensures fin.storage[a] == Expected(ini, offset, data, a) {
      if a < offset {
        HeaderByte(ini, st, offset, zeroHeader, a);
      } else if writeEnd <= a {
        TrailerByte(ini, st, writeEnd, zeroTrailer, a);
      }
    }
    WriteView(fin, ini, offset, data);
  }

  lemma HeaderByte(ini: Context, st: seq<byte>, offset: nat, zeroHeader: nat, a: nat)
    requires ini.Kvm? && WellFormed(ini.overlay, |st|) && offset <= |st| && HeaderSettled(ini, st, offset, zeroHeader)
    requires RoundDown(offset) <= a < offset
    ensures zeroHeader <= offset
    ensures if zeroHeader <= a then ByteAt(ini, a).None? else ByteAt(ini, a) == Some(st[a])
  {
    if zeroHeader != offset {
      SamePage(offset, a);
      PageUncovered(ini.overlay, RoundDown(offset), a);
      ByteAtKvm(ini, a);
    }
  }

  lemma SamePage(offset: nat, a: nat)
    requires RoundDown(offset) <= a <= offset
    ensures RoundDown(a) == RoundDown(RoundDown(offset))
  {
  }

  lemma TrailerByte(ini: Context, st: seq<byte>, writeEnd: nat, zeroTrailer: nat, a: nat)
    requires ini.Kvm? && WellFormed(ini.overlay, |st|) && RoundUp(writeEnd) <= |st| && TrailerSettled(ini, st, writeEnd, zeroTrailer)
    requires writeEnd <= a < RoundUp(writeEnd)
    ensures if a < zeroTrailer then ByteAt(ini, a).None? else ByteAt(ini, a) == Some(st[a])
  {
    if zeroTrailer != writeEnd {
      SamePageUp(writeEnd, a);
      PageUncovered(ini.overlay, writeEnd, a);
      ByteAtKvm(ini, a);
    }
  }

  lemma SamePageUp(writeEnd: nat, a: nat)
    requires writeEnd <= a < RoundUp(writeEnd)
    ensures RoundDown(a) == RoundDown(writeEnd)
  {
  }

  lemma TouchingIs(offset: nat, data: seq<byte>)
    ensures Touching(offset, offset + |data|) <==> data != [] || offset % PAGE_SIZE != 0
  {
  }

  lemma WellFormedParts(ov: OverlayMap, size: nat)
    requires WellFormed(ov, size)
    ensures Disjoint(ov) && Aligned(ov)
  {
  }

  lemma FewerKeys(fin: OverlayMap, ov: OverlayMap, size: nat)
    requires WellFormed(ov, size) && Disjoint(fin) && Aligned(fin) && fin.Keys <= ov.Keys
    ensures WellFormed(fin, size)
  {
  }
}
