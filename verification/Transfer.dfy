/** Moving bytes from a shared context into a KVM context, remapping whole pages where possible. */
module Transfer {
  import opened Common
  import opened Overlay
  import opened Contexts
  import opened KvmContexts
  import opened Copying
  import opened Remapping
  import Frames

  /** The transfer borrows pages instead of copying all bytes. */
  predicate Remaps(source: Context, to: nat, from: nat, size: nat) {
    source.Kvm? && size >= PAGE_SIZE && from % PAGE_SIZE == to % PAGE_SIZE && RoundUp(from) < RoundDown(from + size)
  }

  /** Page arithmetic of a range that is split into header, whole pages and trailer. */
  lemma Split(to: nat, from: nat, size: nat)
    requires size >= PAGE_SIZE && from % PAGE_SIZE == to % PAGE_SIZE
    ensures to <= RoundUp(to) <= RoundDown(to + size) <= to + size
    ensures RoundUp(from) - from == RoundUp(to) - to
    ensures RoundDown(from + size) - from == RoundDown(to + size) - to
  {
  }

  lemma SplitPages(to: nat, size: nat, a: nat)
    requires size >= PAGE_SIZE
    ensures var rs, re := RoundUp(to), RoundDown(to + size);
            RoundDown(to) <= a < RoundUp(to + size) <==>
              (to < rs && RoundDown(to) <= a < RoundUp(rs)) || rs <= a < re || (re < to + size && RoundDown(re) <= a < RoundUp(to + size))
    ensures RoundUp(RoundUp(to)) == RoundUp(to) && RoundDown(RoundDown(to + size)) == RoundDown(to + size)
  {
  }

  /** After the header and the trailer have been copied, mirroring the pages between them
      completes the copy. */
  lemma RemapCompletes(fin: Context, mid: Context, head: Context, ini: Context, to: nat, source: Context, from: nat, size: nat)
    requires fin.Kvm? && mid.Kvm? && fin.storage == mid.storage && to + size <= |mid.storage|
    requires Sound(source) && source.Kvm? && from + size <= |source.storage|
    requires size >= PAGE_SIZE && from % PAGE_SIZE == to % PAGE_SIZE && Defined(source, from, size)
    requires var rs, re := RoundUp(to), RoundDown(to + size);
             && rs < re
             && Copied(head, ini, to, source, from, rs - to)
             && Copied(mid, head, re, source, from + (re - to), to + size - re)
             && Mirrors(fin.overlay, rs, source, RoundUp(from), RoundUp(from) + (re - rs))
             && forall a: nat :: !(rs <= a < re) ==> Resolve(fin.overlay, a) == Resolve(mid.overlay, a)
    ensures Copied(fin, ini, to, source, from, size)
  {
    hide ByteAt, RoundDown, RoundUp, Resolve, Owner, WellFormed, NoChains;
    var rs, re := RoundUp(to), RoundDown(to + size);
    Split(to, from, size);
    forall a: nat ensures ByteAt(fin, a) == CopyView(ini, to, source, from, size, a) {
      SplitPages(to, size, a);
      if rs <= a < re {
        ByteAtKvm(fin, a);
        assert MirrorsAt(fin.overlay, rs, source, RoundUp(from), a);
        OwnerShows(source, RoundUp(from) + (a - rs));
      } else {
        SameView(fin, mid, a);
        assert ByteAt(head, a) == CopyView(ini, to, source, from, rs - to, a);
        assert ByteAt(mid, a) == CopyView(head, re, source, from + (re - to), to + size - re, a);
      }
    }
  }

  lemma OwnerShows(source: Context, b: nat)
    requires Sound(source) && source.Kvm? && b < |source.storage| && ByteAt(source, b).Some?
    ensures var p := Owner(source, b); p.Some? && p.value.Remote? && ByteAt(p.value.context, p.value.offset) == ByteAt(source, b)
  {
    hide Resolve, ByteAt, NoChains, WellFormed;
    ByteAtKvm(source, b);
    OwnerDirect(source, b, b);
  }

  /** What a transfer with remapping needs to get through: header and trailer are there, and the loop
      over the segments between them does not abort. */
  ghost predicate GetsThrough(source: Context, from: nat, size: nat)
    requires source.Kvm? && size >= PAGE_SIZE
  {
    var lo, hi := RoundUp(from), RoundDown(from + size);
    && EdgesDefined(source, from, size)
    && (lo < hi ==> Completes(source, lo, hi))
  }

  ghost predicate EdgesDefined(source: Context, from: nat, size: nat)
    requires size >= PAGE_SIZE
  {
    var lo, hi := RoundUp(from), RoundDown(from + size);
    lo <= hi && Defined(source, from, lo - from) && Defined(source, hi, from + size - hi)
  }

  /** When everything behind the first segment is local and the edges are there, all of it is there. */
  lemma AllThere(source: Context, from: nat, size: nat)
    requires Sound(source) && source.Kvm? && size >= PAGE_SIZE && from + size <= |source.storage| && GetsThrough(source, from, size)
    requires RoundUp(from) < RoundDown(from + size) ==> LocalBehind(source.overlay, RoundUp(from), RoundDown(from + size))
    ensures Defined(source, from, size)
  {
    hide RoundUp, RoundDown, Resolve, ByteAt, NoChains, WellFormed, LoopPieces;
    var lo, hi := RoundUp(from), RoundDown(from + size);
    if lo < hi {
      PiecesRight(source, lo, hi);
      forall b: nat | lo <= b < hi ensures ByteAt(source, b).Some? {
        BorrowedByte(source, b);
      }
    }
    DefinedSplit(source, from, lo - from, hi - lo);
    DefinedSplit(source, from, hi - from, from + size - hi);
  }

  /** Copies header and trailer and borrows the pages between them. */
  method TransferPages(destination: KvmContext, source: Context, to: nat, from: nat, size: nat) returns (r: Result<()>)
    requires WellFormed(destination.overlay, destination.storage.Length) && NoChains(destination.overlay)
    requires Sound(source) && source.Kvm? && to + size <= destination.storage.Length && from + size <= |source.storage|
    requires size >= PAGE_SIZE && from % PAGE_SIZE == to % PAGE_SIZE
    modifies destination`overlay, destination.storage
    ensures r.Ok? <==> GetsThrough(source, from, size)
    ensures r == Err(InvalidRead) <==> !EdgesDefined(source, from, size)
    ensures r.Err? ==> r.error == InvalidRead || r.error == Panic
    ensures r != Err(Panic) ==> WellFormed(destination.overlay, destination.storage.Length)
    ensures r == Err(InvalidRead) ==> NoChains(destination.overlay)
    ensures var lo, hi := RoundUp(from), RoundDown(from + size);
            r.Ok? && (lo < hi ==> LocalBehind(source.overlay, lo, hi)) ==>
              && NoChains(destination.overlay)
              && Copied(destination.Frozen(), old(destination.Frozen()), to, source, from, size)
    ensures var lo, hi := RoundUp(from), RoundDown(from + size);
            r.Ok? && lo < hi ==> (Mirrors(destination.overlay, RoundUp(to), source, lo, hi) <==> LocalBehind(source.overlay, lo, hi))
    ensures var lo, hi := RoundUp(from), RoundDown(from + size);
            r.Ok? && lo < hi && !LocalBehind(source.overlay, lo, hi) && !SecondBorrowed(source.overlay, lo) ==> !NoChains(destination.overlay)
  {
    hide WellFormed, NoChains, Updates, Copied, RoundDown, RoundUp, Sound, Defined, Completes, LocalBehind, Mirrors, Laid, SecondBorrowed;
    ghost var ini := destination.Frozen();
    var start: nat, end: nat, lo: nat := RoundUp(to), RoundDown(to + size), RoundUp(from);
    Split(to, from, size);
    r := CopyChunks(destination, source, to, from, start - to);
    ghost var head := destination.Frozen();
    if r.Err? {
      return;
    }
    r := CopyChunks(destination, source, end, lo + (end - start), to + size - end);
    ghost var mid := destination.Frozen();
    if r.Err? {
      return;
    }
    if end != start {
      ghost var ps;
      r, ps := RemapPages(destination, source, lo, lo + (end - start), start);
      if r.Ok? && LocalBehind(source.overlay, lo, lo + (end - start)) {
        AllThere(source, from, size);
        Elsewhere(destination.overlay, mid.overlay, start, ps, end - start);
        RemapCompletes(destination.Frozen(), mid, head, ini, to, source, from, size);
        MirrorsNoChains(destination.overlay, mid.overlay, start, source, lo, lo + (end - start));
      } else if r.Ok? && !SecondBorrowed(source.overlay, lo) {
        ChainArises(destination.overlay, mid.overlay, start, ps, source, lo, lo + (end - start));
      }
    } else {
      CopiedTwice(mid, head, ini, to, source, from, start - to, to + size - end);
    }
  }

  lemma Elsewhere(fin: OverlayMap, ini: OverlayMap, start: nat, ps: seq<Piece>, done: nat)
    requires Laid(fin, ini, start, ps, done)
    ensures forall a: nat :: !(start <= a < start + done) ==> Resolve(fin, a) == Resolve(ini, a)
  {
  }

  /** The transfer copies, or borrows only pages that can be borrowed faithfully. */
  ghost predicate Faithful(source: Context, to: nat, from: nat, size: nat) {
    Remaps(source, to, from, size) ==> LocalBehind(source.overlay, RoundUp(from), RoundDown(from + size))
  }

  /** The source provides what the transfer asks of it. */
  ghost predicate Provided(source: Context, to: nat, from: nat, size: nat) {
    if source.Kvm? && size >= PAGE_SIZE && from % PAGE_SIZE == to % PAGE_SIZE then GetsThrough(source, from, size)
    else Defined(source, from, size)
  }

  /** Whichever way the bytes travel, the destination shows a copy of them and depends only on pages
      that are local where they are, provided that pages are borrowed faithfully; and when they are
      not, they are not mapped to where their bytes live. */
  method TransferInto(destination: KvmContext, source: Context, to: nat, from: nat, size: nat) returns (r: Result<()>)
    requires WellFormed(destination.overlay, destination.storage.Length) && NoChains(destination.overlay)
    requires Sound(source)
    modifies destination`overlay, destination.storage
    ensures var limit := match source case Kvm(_, storage) => |storage| case Bytes(frames) => |Frames.Flatten(frames)|;
            && (from + size > limit ==> r == Err(InvalidRead))
            && (from + size <= limit && to + size > destination.storage.Length ==> r == Err(InvalidWrite))
            && (from + size <= limit && to + size <= destination.storage.Length ==> (r.Ok? <==> Provided(source, to, from, size)))
            && (from + size > limit || to + size > destination.storage.Length ==> destination.Frozen() == old(destination.Frozen()))
    ensures r != Err(Panic) ==> WellFormed(destination.overlay, destination.storage.Length)
    ensures r == Err(Panic) ==> Remaps(source, to, from, size) && EdgesDefined(source, from, size) && !GetsThrough(source, from, size)
    ensures r != Err(Panic) && Faithful(source, to, from, size) ==> NoChains(destination.overlay)
    ensures r.Ok? && Faithful(source, to, from, size) ==> Copied(destination.Frozen(), old(destination.Frozen()), to, source, from, size)
    ensures r.Ok? && Remaps(source, to, from, size) ==>
              (Mirrors(destination.overlay, RoundUp(to), source, RoundUp(from), RoundDown(from + size)) <==> Faithful(source, to, from, size))
    ensures r.Ok? && Remaps(source, to, from, size) && !SecondBorrowed(source.overlay, RoundUp(from)) ==>
              (NoChains(destination.overlay) <==> Faithful(source, to, from, size))
  {
    hide WellFormed, NoChains, Updates, Copied, RoundDown, RoundUp, Defined, Completes, LocalBehind, Mirrors, SecondBorrowed;
    if from + size > Size(source) {
      return Err(InvalidRead);
    }
    if to + size > destination.storage.Length {
      return Err(InvalidWrite);
    }
    if source.Kvm? && size >= PAGE_SIZE && from % PAGE_SIZE == to % PAGE_SIZE {
      SizeOfKvm(source);
      Split(to, from, size);
      r := TransferPages(destination, source, to, from, size);
    } else {
      r := CopyChunks(destination, source, to, from, size);
    }
  }

  lemma SizeOfKvm(c: Context)
    requires c.Kvm?
    ensures Size(c) == |c.storage|
  {
  }
}
