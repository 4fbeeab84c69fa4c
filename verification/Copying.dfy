/** Copying bytes from a shared context into a KVM context. */
module Copying {
  import opened Common
  import opened Overlay
  import opened Contexts
  import opened KvmContexts

  ghost predicate Sound(c: Context) {
    c.Kvm? ==> WellFormed(c.overlay, |c.storage|) && NoChains(c.overlay)
  }

  /** What an address of `ini` shows once `size` bytes of the source have been copied to `to`. */
  ghost function CopyView(ini: Context, to: nat, source: Context, from: nat, size: nat, a: nat): Option<byte> {
    if to <= a < to + size then ByteAt(source, from + (a - to))
    else if ByteAt(ini, a).Some? then ByteAt(ini, a)
    else if size > 0 && RoundDown(to) <= a < RoundUp(to + size) then Some(0)
    else None
  }

  /** The destination looks as if the source bytes had been read and then written. */
  ghost predicate Copied(fin: Context, ini: Context, to: nat, source: Context, from: nat, size: nat) {
    && Defined(source, from, size)
    && forall a: nat :: ByteAt(fin, a) == CopyView(ini, to, source, from, size, a)
  }

  /** Copying is reading and then writing. */
  lemma CopiedIsReadThenWrite(fin: Context, ini: Context, to: nat, source: Context, from: nat, data: seq<byte>)
    requires Shows(source, from, data) && data != []
    ensures Copied(fin, ini, to, source, from, |data|) <==> Written(fin, ini, to, data)
  {
    hide ByteAt, RoundDown, RoundUp;
    if Copied(fin, ini, to, source, from, |data|) {
      forall a: nat ensures ByteAt(fin, a) ==
        if to <= a < to + |data| then Some(data[a - to])
        else if ByteAt(ini, a).Some? then ByteAt(ini, a)
        else if RoundDown(to) <= a < RoundUp(to + |data|) then Some(0)
        else None
      {
        assert ByteAt(fin, a) == CopyView(ini, to, source, from, |data|, a);
      }
    }
    if Written(fin, ini, to, data) {
      forall a: nat ensures ByteAt(fin, a) == CopyView(ini, to, source, from, |data|, a) {
        if to <= a < to + |data| {
          assert ByteAt(source, from + (a - to)) == Some(data[a - to]);
        }
      }
    }
  }

  lemma PagesJoin(a: nat, m: nat, offset: nat, end: nat)
    requires offset <= m <= end
    ensures RoundDown(offset) <= a < RoundUp(end) <==>
            (RoundDown(offset) <= a < RoundUp(m) || RoundDown(m) <= a < RoundUp(end))
  {
  }

  /** Copying a range and then the range behind it copies both. */
  lemma CopiedTwice(fin: Context, mid: Context, ini: Context, to: nat, source: Context, from: nat, x: nat, y: nat)
    requires Copied(mid, ini, to, source, from, x) && Copied(fin, mid, to + x, source, from + x, y)
    ensures Copied(fin, ini, to, source, from, x + y)
  {
    hide ByteAt, CopyView;
    DefinedSplit(source, from, x, y);
    forall a: nat ensures ByteAt(fin, a) == CopyView(ini, to, source, from, x + y, a) {
      assert ByteAt(mid, a) == CopyView(ini, to, source, from, x, a);
      assert ByteAt(fin, a) == CopyView(mid, to + x, source, from + x, y, a);
      if to <= a < to + x {
        assert ByteAt(source, from + (a - to)).Some?;
      }
      ViewTwice(fin, mid, ini, to, source, from, x, y, a);
    }
  }

  lemma ViewTwice(fin: Context, mid: Context, ini: Context, to: nat, source: Context, from: nat, x: nat, y: nat, a: nat)
    requires ByteAt(mid, a) == CopyView(ini, to, source, from, x, a)
    requires ByteAt(fin, a) == CopyView(mid, to + x, source, from + x, y, a)
    requires to <= a < to + x ==> ByteAt(source, from + (a - to)).Some?
    ensures ByteAt(fin, a) == CopyView(ini, to, source, from, x + y, a)
  {
    hide ByteAt, RoundDown, RoundUp;
    PagesJoin(a, to + x, to, to + x + y);
  }

  ghost predicate DirectAt(item: Option<OverlayItem>, s: nat, a: nat) {
    s <= a ==> Direct(PlaceOf(item, a - s), a)
  }

  /** Overwriting with local or direct pages adds no dependency chain. */
  lemma UpdatesNoChains(fin: OverlayMap, ov: OverlayMap, s: nat, t: nat, item: Option<OverlayItem>)
    requires NoChains(ov) && Updates(fin, ov, s, t, item)
    requires forall a: nat :: s <= a < t ==> DirectAt(item, s, a)
    ensures NoChains(fin)
  {
    hide Resolve;
    forall a: nat | Resolve(fin, a).Some? ensures Direct(Resolve(fin, a).value, a) {
      if s <= a < t {
        assert DirectAt(item, s, a);
      }
    }
  }

  lemma LocalNoChains(fin: OverlayMap, ov: OverlayMap, s: nat, t: nat)
    requires NoChains(ov) && Updates(fin, ov, s, t, None)
    ensures NoChains(fin)
  {
    UpdatesNoChains(fin, ov, s, t, None);
  }

  lemma ChunkCopied(fin: Context, mid: Context, ini: Context, to: nat, source: Context, from: nat, done: nat, chunk: seq<byte>)
    requires Copied(mid, ini, to, source, from, done) && Shows(source, from + done, chunk) && chunk != []
    requires Written(fin, mid, to + done, chunk)
    ensures Copied(fin, ini, to, source, from, done + |chunk|)
  {
    hide Copied, Written, Shows;
    CopiedIsReadThenWrite(fin, mid, to + done, source, from + done, chunk);
    CopiedTwice(fin, mid, ini, to, source, from, done, |chunk|);
  }

  lemma NothingCopied(ini: Context, to: nat, source: Context, from: nat)
    ensures Copied(ini, ini, to, source, from, 0)
  {
  }

  lemma CopiedDefined(fin: Context, ini: Context, to: nat, source: Context, from: nat, size: nat)
    requires Copied(fin, ini, to, source, from, size)
    ensures Defined(source, from, size)
  {
  }

  lemma DefinedSplit(c: Context, from: nat, x: nat, y: nat)
    ensures Defined(c, from, x + y) <==> Defined(c, from, x) && Defined(c, from + x, y)
  {
    hide ByteAt;
  }

  /** Copies a range chunk by chunk, as long as the source can provide it. */
  method CopyChunks(destination: KvmContext, source: Context, to: nat, from: nat, size: nat) returns (r: Result<()>)
    requires WellFormed(destination.overlay, destination.storage.Length) && NoChains(destination.overlay)
    requires to + size <= destination.storage.Length
    modifies destination`overlay, destination.storage
    ensures WellFormed(destination.overlay, destination.storage.Length) && NoChains(destination.overlay)
    ensures r.Ok? <==> Defined(source, from, size)
    ensures r.Ok? ==> Copied(destination.Frozen(), old(destination.Frozen()), to, source, from, size)
    ensures r.Err? ==> r.error == InvalidRead
    ensures r.Err? ==> exists n: nat :: n < size && Copied(destination.Frozen(), old(destination.Frozen()), to, source, from, n)
  {
    hide WellFormed, NoChains, ByteAt, Written, Updates, Copied, RoundDown, RoundUp, Shows;
    var written: nat := 0;
    ghost var ini := destination.Frozen();
    NothingCopied(ini, to, source, from);
    while written < size
      invariant written <= size
      invariant WellFormed(destination.overlay, destination.storage.Length) && NoChains(destination.overlay)
      invariant Copied(destination.Frozen(), ini, to, source, from, written)
    {
      ghost var mid := destination.Frozen();
      var chunk := GetChunkRef(source, from + written, size - written);
      DefinedSplit(source, from, written, size - written);
      if chunk.Err? {
        assert written < size && Copied(destination.Frozen(), ini, to, source, from, written);
        return Err(chunk.error);
      }
      r := destination.Write(to + written, chunk.value, 1);
      ChunkCopied(destination.Frozen(), mid, ini, to, source, from, written, chunk.value);
      LocalNoChains(destination.overlay, mid.overlay, RoundDown(to + written), RoundUp(to + written + |chunk.value|));
      written := written + |chunk.value|;
    }
    CopiedDefined(destination.Frozen(), ini, to, source, from, size);
    return Ok(());
  }

  // ---------------------------------------------------------------- invariants of the destination

  lemma WellFormedUpdate(fin: OverlayMap, ov: OverlayMap, s: nat, t: nat, item: Option<OverlayItem>, size: nat)
    requires WellFormed(ov, size) && Disjoint(fin) && Aligned(fin) && Updates(fin, ov, s, t, item) && t <= size
    ensures WellFormed(fin, size)
  {
    hide Disjoint, Aligned, Updates;
    UpdatedInside(fin, ov, s, t, item, size);
  }
}
