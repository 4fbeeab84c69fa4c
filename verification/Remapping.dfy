/** Borrowing whole pages of a source instead of copying them. */
module Remapping {
  import opened Common
  import opened Overlay
  import opened Contexts
  import opened KvmContexts
  import opened Copying

  /** Where a byte of the source lives: in the source itself or where the source borrows it from. */
  ghost function Owner(source: Context, b: nat): Option<Place>
    requires source.Kvm?
  {
    match Resolve(source.overlay, b)
    case None => None
    case Some(Local) => Some(Remote(source, b))
    case Some(Remote(c, o)) => Some(Remote(c, o))
  }

  /** A piece of the destination range, as distances from its start, and what it is mapped to. */
  datatype Piece = Piece(from: nat, to: nat, item: OverlayItem)

  /** How many bytes the loop maps for the segment that ends at `e`. */
  function NewBytes(e: nat, lo: nat, hi: nat, done: nat): nat
    requires lo <= e && lo <= hi
  {
    Min(e + 1, hi) - lo + done
  }

  /** What the loop maps the segment `g` to; the offset does not depend on how much is done. */
  function NewItem(source: Context, g: Segment, lo: nat, done: nat): OverlayItem
    requires g.item.Some? ==> g.start <= g.item.value.offset + lo
  {
    match g.item
    case Some(i) => OverlayItem(i.context, i.offset + lo - g.start)
    case None => OverlayItem(source, lo + done)
  }

  predicate CursorOk(source: Context, cursor: Option<nat>, lo: nat) {
    source.Kvm? && (cursor.Some? ==> cursor.value in source.overlay && lo <= cursor.value)
  }

  /** The pieces that the loop over the source segments maps, from `cursor` on with `done` bytes mapped.
      It aborts when it meets a gap, when an offset underflows, and when in the end the number of bytes
      is not the one wanted. */
  function LoopPieces(source: Context, cursor: Option<nat>, lo: nat, hi: nat, done: nat): Result<seq<Piece>>
    requires CursorOk(source, cursor, lo) && lo <= hi
    decreases if done < hi - lo then hi - lo - done else 0
  {
    if cursor.None? || done >= hi - lo || source.overlay[cursor.value].start >= hi then
      if done == hi - lo then Ok([]) else Err(Panic)
    else
      var g := source.overlay[cursor.value];
      if g.start > lo + done || (g.item.Some? && g.item.value.offset + lo < g.start) then Err(Panic)
      else
        var bytes := NewBytes(cursor.value, lo, hi, done);
        var rest :- LoopPieces(source, NextKey(source.overlay, cursor.value + 1), lo, hi, done + bytes);
        Ok([Piece(done, done + bytes, NewItem(source, g, lo, done))] + rest)
  }

  /** The loop gets through without aborting. */
  predicate Completes(source: Context, lo: nat, hi: nat)
    requires source.Kvm? && lo <= hi
  {
    LoopPieces(source, NextKey(source.overlay, lo), lo, hi, 0).Ok?
  }

  /** Everything of `[lo, hi)` behind the first segment is local. */
  ghost predicate LocalBehind(ov: OverlayMap, lo: nat, hi: nat) {
    var e := NextKey(ov, lo);
    e.Some? && forall b: nat :: e.value < b < hi ==> Resolve(ov, b) == Some(Local)
  }

  /** One segment of the source holds the whole page range `[lo, hi)`. */
  ghost predicate OneSegment(ov: OverlayMap, lo: nat, hi: nat) {
    exists e: nat :: Covers(ov, e, lo) && hi <= e + 1
  }

  /** A range in one segment is remapped without aborting, and nothing is behind the segment. */
  lemma OneSegmentRemaps(source: Context, lo: nat, hi: nat)
    requires Sound(source) && source.Kvm? && lo < hi && OneSegment(source.overlay, lo, hi)
    ensures Completes(source, lo, hi) && LocalBehind(source.overlay, lo, hi)
  {
    var e: nat :| Covers(source.overlay, e, lo) && hi <= e + 1;
    assert Covers(source.overlay, e, lo);
    CoveredKey(source.overlay, e, lo);
    assert LoopPieces(source, NextKey(source.overlay, e + 1), lo, hi, hi - lo) == Ok([]);
  }

  // ---------------------------------------------------------------- when the numbers work out

  /** How many bytes the loop has mapped after segments that end at `ks`: each time twice as many as
      before, and the distance of the end of the segment from the start of the range. */
  ghost function Counted(ks: seq<nat>, lo: nat, hi: nat): int {
    if ks == [] then 0
    else
      var n := |ks| - 1;
      2 * Counted(ks[..n], lo, hi) + (if ks[n] + 1 < hi then ks[n] + 1 else hi) - lo
  }

  /** `ks` are the ends of the first segments from `lo` on. */
  ghost predicate Ends(ov: OverlayMap, lo: nat, ks: seq<nat>) {
    forall i: nat :: i < |ks| ==> EndAt(ov, lo, ks, i)
  }

  ghost predicate EndAt(ov: OverlayMap, lo: nat, ks: seq<nat>, i: nat) {
    i < |ks| && NextKey(ov, if i == 0 then lo else ks[i - 1] + 1) == Some(ks[i])
  }

  /** Segment `i` is mapped without aborting: bytes are still missing, the segment begins in the range and
      leaves no gap, and its offset does not underflow. */
  ghost predicate Mapped(ov: OverlayMap, ks: seq<nat>, lo: nat, hi: nat, i: nat)
    requires i < |ks|
  {
    && ks[i] in ov && Counted(ks[..i], lo, hi) < hi - lo && ov[ks[i]].start < hi && ov[ks[i]].start <= lo + Counted(ks[..i], lo, hi)
    && (ov[ks[i]].item.Some? ==> ov[ks[i]].start <= ov[ks[i]].item.value.offset + lo)
  }

  /** The first segments are mapped one after the other, from segment `from` on. */
  ghost predicate MappedFrom(ov: OverlayMap, ks: seq<nat>, lo: nat, hi: nat, from: nat) {
    Ends(ov, lo, ks) && forall i: nat :: from <= i < |ks| ==> Mapped(ov, ks, lo, hi, i)
  }

  ghost function CursorAfter(ov: OverlayMap, lo: nat, ks: seq<nat>): Option<nat> {
    NextKey(ov, if ks == [] then lo else ks[|ks| - 1] + 1)
  }

  lemma EndsBehind(source: Context, lo: nat, ks: seq<nat>)
    requires source.Kvm? && Ends(source.overlay, lo, ks)
    ensures CursorOk(source, CursorAfter(source.overlay, lo, ks), lo)
    ensures ks != [] ==> ks[|ks| - 1] in source.overlay && lo <= ks[|ks| - 1]
    decreases |ks|
  {
    if ks != [] {
      EndsPrefix(source.overlay, lo, ks, |ks| - 1);
      EndsBehind(source, lo, ks[..|ks| - 1]);
    }
  }

  lemma CountedNext(ks: seq<nat>, e: nat, lo: nat, hi: nat)
    requires lo <= e && lo <= hi && Counted(ks, lo, hi) >= 0
    ensures Counted(ks + [e], lo, hi) == Counted(ks, lo, hi) + NewBytes(e, lo, hi, Counted(ks, lo, hi))
  {
    assert (ks + [e])[..|ks|] == ks;
  }

  /** From the state after segments `ks` the loop gets through exactly if the numbers work out later. */
  lemma {:induction false} GoesThrough(source: Context, ks: seq<nat>, lo: nat, hi: nat) returns (all: seq<nat>)
    requires source.Kvm? && lo <= hi && Ends(source.overlay, lo, ks) && 0 <= Counted(ks, lo, hi) && CursorOk(source, CursorAfter(source.overlay, lo, ks), lo)
    requires LoopPieces(source, CursorAfter(source.overlay, lo, ks), lo, hi, Counted(ks, lo, hi)).Ok?
    ensures ks <= all && MappedFrom(source.overlay, all, lo, hi, |ks|) && Counted(all, lo, hi) == hi - lo
    decreases hi - lo - Counted(ks, lo, hi)
  {
    hide Counted, NewItem;
    var c, done := CursorAfter(source.overlay, lo, ks), Counted(ks, lo, hi);
    all := ks;
    if !(c.None? || done >= hi - lo || source.overlay[c.value].start >= hi) {
      var more := ks + [c.value];
      EndsMore(source.overlay, lo, ks);
      CountedNext(ks, c.value, lo, hi);
      EndsBehind(source, lo, more);
      all := GoesThrough(source, more, lo, hi);
      assert all[..|ks|] == ks && all[|ks|] == c.value;
    }
  }

  lemma EndsMore(ov: OverlayMap, lo: nat, ks: seq<nat>)
    requires Ends(ov, lo, ks) && CursorAfter(ov, lo, ks).Some?
    ensures Ends(ov, lo, ks + [CursorAfter(ov, lo, ks).value]) && CursorAfter(ov, lo, ks + [CursorAfter(ov, lo, ks).value]) == NextKey(ov, CursorAfter(ov, lo, ks).value + 1)
  {
    var all := ks + [CursorAfter(ov, lo, ks).value];
    forall i: nat | i < |all| ensures EndAt(ov, lo, all, i) {
      if i < |ks| {
        assert EndAt(ov, lo, ks, i);
      }
    }
  }

  lemma {:induction false} WorksOut(source: Context, all: seq<nat>, k: nat, lo: nat, hi: nat)
    requires source.Kvm? && lo <= hi && k <= |all| && MappedFrom(source.overlay, all, lo, hi, 0) && Counted(all, lo, hi) == hi - lo
    ensures var ks := all[..k];
            && 0 <= Counted(ks, lo, hi) && CursorOk(source, CursorAfter(source.overlay, lo, ks), lo)
            && LoopPieces(source, CursorAfter(source.overlay, lo, ks), lo, hi, Counted(ks, lo, hi)).Ok?
    decreases |all| - k
  {
    hide NewItem, Counted, LoopPieces, CursorAfter, Ends;
    EndsPrefix(source.overlay, lo, all, k);
    EndsBehind(source, lo, all[..k]);
    CountedPositive(source, all[..k], lo, hi);
    if k == |all| {
      assert all[..k] == all;
      AllMapped(source, CursorAfter(source.overlay, lo, all), lo, hi);
    } else {
      WorksOut(source, all, k + 1, lo, hi);
      assert Mapped(source.overlay, all, lo, hi, k);
      assert all[..k + 1] == all[..k] + [all[k]];
      EndsMore(source.overlay, lo, all[..k]);
      EndsPrefix(source.overlay, lo, all, k + 1);
      EndsBehind(source, lo, all[..k + 1]);
      CountedNext(all[..k], all[k], lo, hi);
      OneRound(source, all[k], lo, hi, Counted(all[..k], lo, hi));
    }
  }

  /** One round that does not abort, and what comes behind it. */
  lemma OneRound(source: Context, e: nat, lo: nat, hi: nat, done: nat)
    requires source.Kvm? && lo <= hi && e in source.overlay && lo <= e && done < hi - lo && source.overlay[e].start < hi && source.overlay[e].start <= lo + done
    requires source.overlay[e].item.Some? ==> source.overlay[e].start <= source.overlay[e].item.value.offset + lo
    requires CursorOk(source, NextKey(source.overlay, e + 1), lo)
    ensures LoopPieces(source, Some(e), lo, hi, done).Ok? <==> LoopPieces(source, NextKey(source.overlay, e + 1), lo, hi, done + NewBytes(e, lo, hi, done)).Ok?
  {
    hide NewBytes;
  }

  lemma EndsPrefix(ov: OverlayMap, lo: nat, all: seq<nat>, k: nat)
    requires Ends(ov, lo, all) && k <= |all|
    ensures Ends(ov, lo, all[..k]) && (k < |all| ==> CursorAfter(ov, lo, all[..k]) == Some(all[k]))
  {
    forall i: nat | i < k ensures EndAt(ov, lo, all[..k], i) {
      assert EndAt(ov, lo, all, i);
    }
    if k < |all| {
      assert EndAt(ov, lo, all, k);
    }
  }

  lemma {:induction false} CountedPositive(source: Context, ks: seq<nat>, lo: nat, hi: nat)
    requires source.Kvm? && lo <= hi && Ends(source.overlay, lo, ks)
    ensures Counted(ks, lo, hi) >= 0
    decreases |ks|
  {
    if ks != [] {
      EndsPrefix(source.overlay, lo, ks, |ks| - 1);
      EndsBehind(source, lo, ks);
      CountedPositive(source, ks[..|ks| - 1], lo, hi);
    }
  }

  /** The loop gets through if and only if some number of segments is mapped without aborting and the
      doubled distances of their ends add up to the range. */
  lemma CompletesIff(source: Context, lo: nat, hi: nat)
    requires source.Kvm? && lo <= hi
    ensures Completes(source, lo, hi) <==> exists ks: seq<nat> :: MappedFrom(source.overlay, ks, lo, hi, 0) && Counted(ks, lo, hi) == hi - lo
  {
    if Completes(source, lo, hi) {
      var ks := GoesThrough(source, [], lo, hi);
    }
    if ks: seq<nat> :| MappedFrom(source.overlay, ks, lo, hi, 0) && Counted(ks, lo, hi) == hi - lo {
      WorksOut(source, ks, 0, lo, hi);
      assert ks[..0] == [];
    }
  }

  /** A range over exactly two segments always aborts: the second segment is counted from the start of
      the range, on top of the first. */
  lemma TwoSegmentsAbort(source: Context, lo: nat, hi: nat, e: nat, f: nat)
    requires source.Kvm? && lo < hi && NextKey(source.overlay, lo) == Some(e) && e + 1 < hi
    requires NextKey(source.overlay, e + 1) == Some(f) && hi <= f + 1
    ensures !Completes(source, lo, hi)
  {
    var done := NewBytes(e, lo, hi, 0);
    assert LoopPieces(source, NextKey(source.overlay, f + 1), lo, hi, done + NewBytes(f, lo, hi, done)).Err?;
    assert LoopPieces(source, Some(f), lo, hi, done).Err?;
  }

  lemma PlaceDirect(source: Context, b: nat)
    requires source.Kvm? && NoChains(source.overlay) && b < |source.storage| && Resolve(source.overlay, b).Some?
    ensures var p := Resolve(source.overlay, b).value;
            && Direct(p, b)
            && (p.Local? ==> Direct(Remote(source, b), b))
            && (p.Remote? ==> ByteAt(p.context, p.offset) == ByteAt(source, b))
  {
    hide Resolve, ByteAt;
    ByteAtKvm(source, b);
  }

  lemma DirectShift(p: Place, b: nat, a: nat)
    requires Direct(p, b) && a % PAGE_SIZE == b % PAGE_SIZE
    ensures Direct(p, a)
  {
    hide Resolve;
  }

  lemma SameDistance(lo: nat, s: nat, a: nat)
    requires s <= a && lo % PAGE_SIZE == s % PAGE_SIZE
    ensures a % PAGE_SIZE == (lo + (a - s)) % PAGE_SIZE
  {
  }

  /** Where a byte of the source lives it is local, and the same byte. */
  lemma OwnerDirect(source: Context, b: nat, a: nat)
    requires source.Kvm? && NoChains(source.overlay) && b < |source.storage| && Owner(source, b).Some? && a % PAGE_SIZE == b % PAGE_SIZE
    ensures var p := Owner(source, b).value; p.Remote? && Direct(p, a) && ByteAt(p.context, p.offset) == ByteAt(source, b)
  {
    hide Direct, Resolve, ByteAt, NoChains;
    PlaceDirect(source, b);
    DirectShift(Owner(source, b).value, b, a);
  }

  /** A context does not refer to itself. */
  lemma {:induction false} NotSelf(source: Context, e: nat)
    requires source.Kvm? && e in source.overlay && source.overlay[e].item.Some?
    ensures source.overlay[e].item.value.context != source
    decreases source
  {
    if source.overlay[e].item.value.context == source {
      NotSelf(source.overlay[e].item.value.context, e);
    }
  }

  /** A byte lives in the source itself only if it is local there. */
  lemma OwnedLocally(source: Context, b: nat)
    requires source.Kvm? && Owner(source, b) == Some(Remote(source, b))
    ensures Resolve(source.overlay, b) == Some(Local)
  {
    var e := NextKey(source.overlay, b);
    if e.Some? && source.overlay[e.value].item.Some? {
      NotSelf(source, e.value);
    }
  }

  // ---------------------------------------------------------------- when the pieces are right

  /** A piece is mapped to where the bytes of the source live. */
  ghost predicate PieceRight(p: Piece, source: Context, lo: nat)
    requires source.Kvm?
  {
    forall x: nat :: p.from <= x < p.to ==> RightAt(p, source, lo, x)
  }

  ghost predicate RightAt(p: Piece, source: Context, lo: nat, x: nat)
    requires source.Kvm?
  {
    x >= p.from && Some(PlaceOf(Some(p.item), x - p.from)) == Owner(source, lo + x)
  }

  ghost predicate AllRight(ps: seq<Piece>, source: Context, lo: nat)
    requires source.Kvm?
  {
    forall k: nat :: k < |ps| ==> PieceRight(ps[k], source, lo)
  }

  lemma AllRightFirst(p: Piece, ps: seq<Piece>, source: Context, lo: nat)
    requires source.Kvm?
    ensures AllRight([p] + ps, source, lo) <==> PieceRight(p, source, lo) && AllRight(ps, source, lo)
  {
    hide PieceRight;
    var all := [p] + ps;
    if AllRight(all, source, lo) {
      assert all[0] == p;
      forall k: nat | k < |ps| ensures PieceRight(ps[k], source, lo) {
        assert all[k + 1] == ps[k];
      }
    }
  }

  /** The first piece is always right. */
  lemma FirstPieceRight(source: Context, e: nat, lo: nat, hi: nat)
    requires source.Kvm? && Disjoint(source.overlay) && Covers(source.overlay, e, lo) && lo < hi
    ensures PieceRight(Piece(0, NewBytes(e, lo, hi, 0), NewItem(source, source.overlay[e], lo, 0)), source, lo)
  {
    hide Resolve, Disjoint;
    var p := Piece(0, NewBytes(e, lo, hi, 0), NewItem(source, source.overlay[e], lo, 0));
    forall x: nat | p.from <= x < p.to ensures RightAt(p, source, lo, x) {
      ResolveCovered(source.overlay, e, lo + x);
    }
  }

  /** A later piece for a local segment is right exactly where the source is local. */
  lemma LocalPiece(source: Context, lo: nat, done: nat, bytes: nat)
    requires source.Kvm?
    ensures PieceRight(Piece(done, done + bytes, OverlayItem(source, lo + done)), source, lo) <==>
            LocalRange(source.overlay, lo + done, lo + done + bytes)
  {
    hide Resolve;
    var p := Piece(done, done + bytes, OverlayItem(source, lo + done));
    if PieceRight(p, source, lo) {
      forall b: nat | lo + done <= b < lo + done + bytes ensures Resolve(source.overlay, b) == Some(Local) {
        var x: nat := b - lo;
        assert RightAt(p, source, lo, x);
        OwnedLocally(source, b);
      }
    } else {
      var x: nat :| p.from <= x < p.to && !RightAt(p, source, lo, x);
      assert Resolve(source.overlay, lo + x) != Some(Local);
    }
  }

  /** All bytes of `[from, to)` are local. */
  ghost predicate LocalRange(ov: OverlayMap, from: nat, to: nat) {
    forall b: nat :: from <= b < to ==> Resolve(ov, b) == Some(Local)
  }

  /** Behind the first segment the pieces are right if and only if everything is local. `prev` is the
      segment before the cursor, and what has been mapped from behind the first segment is local. */
  lemma {:induction false} LaterPiecesRight(source: Context, prev: nat, first: nat, lo: nat, hi: nat, done: nat)
    requires Sound(source) && source.Kvm? && lo <= first <= prev && prev in source.overlay && first < lo + done && lo + done <= hi
    requires LocalRange(source.overlay, first + 1, lo + done)
    requires LoopPieces(source, NextKey(source.overlay, prev + 1), lo, hi, done).Ok?
    ensures AllRight(LoopPieces(source, NextKey(source.overlay, prev + 1), lo, hi, done).value, source, lo) <==> LocalRange(source.overlay, first + 1, hi)
    decreases hi - lo - done
  {
    hide Resolve, Sound, PieceRight, AllRight, LoopPieces;
    var ov, cursor := source.overlay, NextKey(source.overlay, prev + 1);
    if done < hi - lo {
      var p, rest, e := PiecesStep(source, cursor, lo, hi, done);
      AllRightFirst(p, rest, source, lo);
      if ov[e].item.None? {
        LocalPiece(source, lo, done, p.to - done);
        if LocalRange(ov, lo + done, lo + p.to) {
          LaterPiecesRight(source, e, first, lo, hi, p.to);
        }
      } else {
        BorrowedPieceWrong(source, prev, e, first, lo, hi, done);
      }
    } else {
      AllMapped(source, cursor, lo, hi);
      NoPieces(source, lo);
    }
  }

  lemma AllMapped(source: Context, cursor: Option<nat>, lo: nat, hi: nat)
    requires CursorOk(source, cursor, lo) && lo <= hi
    ensures LoopPieces(source, cursor, lo, hi, hi - lo) == Ok([])
  {
  }

  /** One round of the loop. */
  lemma PiecesStep(source: Context, cursor: Option<nat>, lo: nat, hi: nat, done: nat) returns (p: Piece, rest: seq<Piece>, e: nat)
    requires CursorOk(source, cursor, lo) && lo <= hi && done < hi - lo && LoopPieces(source, cursor, lo, hi, done).Ok?
    ensures cursor == Some(e) && source.overlay[e].start < hi && source.overlay[e].start <= lo + done
    ensures source.overlay[e].item.Some? ==> source.overlay[e].start <= source.overlay[e].item.value.offset + lo
    ensures p == Piece(done, done + NewBytes(e, lo, hi, done), NewItem(source, source.overlay[e], lo, done)) && done < p.to <= hi - lo
    ensures LoopPieces(source, cursor, lo, hi, done) == Ok([p] + rest) && LoopPieces(source, NextKey(source.overlay, e + 1), lo, hi, p.to) == Ok(rest)
  {
    e := cursor.value;
    p := Piece(done, done + NewBytes(e, lo, hi, done), NewItem(source, source.overlay[e], lo, done));
    rest := LoopPieces(source, NextKey(source.overlay, e + 1), lo, hi, p.to).value;
  }

  lemma NoPieces(source: Context, lo: nat)
    requires source.Kvm?
    ensures AllRight([], source, lo)
  {
  }

  /** A later borrowed segment is mapped wrongly, and shows that not everything is local. */
  lemma BorrowedPieceWrong(source: Context, prev: nat, e: nat, first: nat, lo: nat, hi: nat, done: nat)
    requires Sound(source) && source.Kvm? && lo <= first <= prev && prev in source.overlay && first < lo + done < hi
    requires LocalRange(source.overlay, first + 1, lo + done)
    requires NextKey(source.overlay, prev + 1) == Some(e) && source.overlay[e].start < hi && source.overlay[e].start <= lo + done
    requires source.overlay[e].item.Some? && source.overlay[e].start <= source.overlay[e].item.value.offset + lo
    ensures !LocalRange(source.overlay, first + 1, hi)
    ensures !PieceRight(Piece(done, done + NewBytes(e, lo, hi, done), NewItem(source, source.overlay[e], lo, done)), source, lo)
  {
    hide Resolve, NoChains, Aligned;
    var ov := source.overlay;
    var g := ov[e];
    assert prev < g.start <= e;
    ResolveCovered(ov, e, g.start);
    assert Resolve(ov, g.start) != Some(Local);
    assert g.start == lo + done;
    var p := Piece(done, done + NewBytes(e, lo, hi, done), NewItem(source, g, lo, done));
    assert !RightAt(p, source, lo, done);
  }

  /** The loop maps every byte to where it lives if and only if everything behind the first segment is
      local. */
  lemma PiecesRight(source: Context, lo: nat, hi: nat)
    requires Sound(source) && source.Kvm? && lo < hi && Completes(source, lo, hi)
    ensures AllRight(LoopPieces(source, NextKey(source.overlay, lo), lo, hi, 0).value, source, lo) <==> LocalBehind(source.overlay, lo, hi)
    ensures LocalBehind(source.overlay, lo, hi) ==> forall b: nat :: lo <= b < hi ==> Resolve(source.overlay, b).Some?
  {
    hide Resolve, NoChains, Aligned, PieceRight, AllRight, LoopPieces;
    var ov := source.overlay;
    var p, rest, e := PiecesStep(source, NextKey(ov, lo), lo, hi, 0);
    FirstPieceRight(source, e, lo, hi);
    AllRightFirst(p, rest, source, lo);
    if e + 1 < hi {
      LaterPiecesRight(source, e, e, lo, hi, p.to);
    } else {
      AllMapped(source, NextKey(ov, e + 1), lo, hi);
      NoPieces(source, lo);
    }
    forall b: nat | lo <= b <= e ensures Resolve(ov, b).Some? {
      ResolveCovered(ov, e, b);
    }
  }

  // ---------------------------------------------------------------- what the destination looks like

  ghost predicate InPiece(p: Piece, x: nat) {
    p.from <= x < p.to
  }

  ghost predicate Covered(ps: seq<Piece>, x: nat) {
    exists k: nat :: k < |ps| && InPiece(ps[k], x)
  }

  /** The addresses of a piece resolve to what it is mapped to. */
  ghost predicate HoldsPiece(fin: OverlayMap, start: nat, p: Piece) {
    forall a: nat :: a >= start && InPiece(p, a - start) ==> Resolve(fin, a) == Some(PlaceOf(Some(p.item), a - start - p.from))
  }

  /** The pieces fill `[start, start + done)` and nothing else has changed. */
  ghost predicate Laid(fin: OverlayMap, ini: OverlayMap, start: nat, ps: seq<Piece>, done: nat) {
    && (forall k: nat :: k < |ps| ==> HoldsPiece(fin, start, ps[k]) && ps[k].to <= done)
    && (forall x: nat :: x < done ==> Covered(ps, x))
    && (forall a: nat :: !(start <= a < start + done) ==> Resolve(fin, a) == Resolve(ini, a))
  }

  lemma LaidNext(fin: OverlayMap, mid: OverlayMap, ini: OverlayMap, start: nat, ps: seq<Piece>, p: Piece)
    requires Laid(mid, ini, start, ps, p.from) && p.from < p.to && Updates(fin, mid, start + p.from, start + p.to, Some(p.item))
    ensures Laid(fin, ini, start, ps + [p], p.to)
  {
    hide Resolve, PlaceOf;
    var all := ps + [p];
    forall k: nat | k < |all| ensures HoldsPiece(fin, start, all[k]) && all[k].to <= p.to {
      if k < |ps| {
        assert all[k] == ps[k] && HoldsPiece(mid, start, ps[k]);
      }
    }
    forall x: nat | x < p.to ensures Covered(all, x) {
      if x < p.from {
        assert Covered(ps, x);
        var k: nat :| k < |ps| && InPiece(ps[k], x);
        assert all[k] == ps[k];
      } else {
        assert all[|ps|] == p;
      }
    }
  }

  /** Every byte of the range resolves to where the byte of the source lives. */
  ghost predicate Mirrors(fin: OverlayMap, start: nat, source: Context, lo: nat, hi: nat)
    requires source.Kvm?
  {
    forall a: nat :: start <= a < start + (hi - lo) ==> MirrorsAt(fin, start, source, lo, a)
  }

  ghost predicate MirrorsAt(fin: OverlayMap, start: nat, source: Context, lo: nat, a: nat)
    requires source.Kvm?
  {
    a >= start && Resolve(fin, a) == Owner(source, lo + (a - start))
  }

  lemma LaidMirrors(fin: OverlayMap, ini: OverlayMap, start: nat, ps: seq<Piece>, source: Context, lo: nat, hi: nat)
    requires source.Kvm? && lo <= hi && Laid(fin, ini, start, ps, hi - lo)
    ensures Mirrors(fin, start, source, lo, hi) <==> AllRight(ps, source, lo)
  {
    hide Resolve, PlaceOf, Owner;
    if AllRight(ps, source, lo) {
      forall a: nat | start <= a < start + (hi - lo) ensures MirrorsAt(fin, start, source, lo, a) {
        assert Covered(ps, a - start);
        var k: nat :| k < |ps| && InPiece(ps[k], a - start);
        assert HoldsPiece(fin, start, ps[k]) && PieceRight(ps[k], source, lo);
        assert RightAt(ps[k], source, lo, a - start);
      }
    }
    if Mirrors(fin, start, source, lo, hi) {
      forall k: nat | k < |ps| ensures PieceRight(ps[k], source, lo) {
        forall x: nat | ps[k].from <= x < ps[k].to ensures RightAt(ps[k], source, lo, x) {
          var a: nat := start + x;
          assert InPiece(ps[k], a - start) && HoldsPiece(fin, start, ps[k]) && MirrorsAt(fin, start, source, lo, a);
        }
      }
    }
  }

  /** Mirroring pages of a sound source adds no dependency chain. */
  lemma MirrorsNoChains(fin: OverlayMap, ini: OverlayMap, start: nat, source: Context, lo: nat, hi: nat)
    requires Sound(source) && source.Kvm? && lo <= hi <= |source.storage| && lo % PAGE_SIZE == start % PAGE_SIZE
    requires NoChains(ini) && Mirrors(fin, start, source, lo, hi)
    requires forall a: nat :: !(start <= a < start + (hi - lo)) ==> Resolve(fin, a) == Resolve(ini, a)
    ensures NoChains(fin)
  {
    hide Resolve, Direct, Owner, ByteAt, WellFormed;
    forall a: nat | Resolve(fin, a).Some? ensures Direct(Resolve(fin, a).value, a) {
      if start <= a < start + (hi - lo) {
        assert MirrorsAt(fin, start, source, lo, a);
        SameDistance(lo, start, a);
        OwnerDirect(source, lo + (a - start), a);
      } else {
        assert Resolve(ini, a) == Resolve(fin, a);
      }
    }
  }

  lemma LaidWellFormed(fin: OverlayMap, ini: OverlayMap, start: nat, ps: seq<Piece>, done: nat, size: nat)
    requires WellFormed(ini, size) && Disjoint(fin) && Aligned(fin) && Laid(fin, ini, start, ps, done) && start + done <= size
    ensures WellFormed(fin, size)
  {
    hide Aligned, Disjoint;
    forall e: nat | e in fin ensures e < size {
      LastResolves(fin, e);
      if e >= start + done {
        InsideIni(ini, size, e);
      }
    }
  }

  lemma LastResolves(fin: OverlayMap, e: nat)
    requires Disjoint(fin) && e in fin
    ensures Resolve(fin, e).Some?
  {
    ResolveCovered(fin, e, e);
  }

  lemma InsideIni(ini: OverlayMap, size: nat, a: nat)
    requires WellFormed(ini, size) && Resolve(ini, a).Some?
    ensures a < size
  {
    var e := NextKey(ini, a).value;
    assert e in ini;
  }

  /** Maps the source pages `[lo, hi)` to `[start, start + hi - lo)` of the destination, segment by
      segment. It gets through if and only if the numbers work out, and then every byte is mapped to
      where it lives if and only if everything behind the first segment is local. */
  method RemapPages(destination: KvmContext, source: Context, lo: nat, hi: nat, start: nat) returns (r: Result<()>, ghost ps: seq<Piece>)
    requires WellFormed(destination.overlay, destination.storage.Length)
    requires Sound(source) && source.Kvm? && lo < hi
    requires lo % PAGE_SIZE == hi % PAGE_SIZE == start % PAGE_SIZE == 0 && start + (hi - lo) <= destination.storage.Length
    modifies destination`overlay
    ensures r.Ok? <==> Completes(source, lo, hi)
    ensures r.Err? ==> r.error == Panic
    ensures r.Ok? ==> WellFormed(destination.overlay, destination.storage.Length)
    ensures r.Ok? ==> Ok(ps) == LoopPieces(source, NextKey(source.overlay, lo), lo, hi, 0) && Laid(destination.overlay, old(destination.overlay), start, ps, hi - lo)
    ensures r.Ok? ==> (Mirrors(destination.overlay, start, source, lo, hi) <==> LocalBehind(source.overlay, lo, hi))
  {
    hide *;
    ghost var ini := destination.overlay;
    var cursor := NextKey(source.overlay, lo);
    var done: nat := 0;
    ps := [];
    LayingStarts(ini, start, destination.storage.Length);
    CursorStarts(source, lo);
    ghost var all := LoopPieces(source, cursor, lo, hi, 0);
    CompletesIs(source, lo, hi);
    Following(all, [], all);
    while cursor.Some? && done < hi - lo && source.overlay[cursor.value].start < hi
      invariant CursorOk(source, cursor, lo) && (cursor.Some? ==> cursor.value in source.overlay && lo <= cursor.value)
      invariant Laying(destination.overlay, ini, start, ps, done)
      invariant Followed(all, ps, LoopPieces(source, cursor, lo, hi, done))
      decreases if done < hi - lo then hi - lo - done else 0
    {
      var e: nat := cursor.value;
      var g := source.overlay[e];
      CursorNext(source, e, lo);
      PiecesNow(source, cursor, lo, hi, done);
      if g.start > lo + done || (g.item.Some? && g.item.value.offset + lo < g.start) {
        FollowPanic(all, ps);
        return Err(Panic), ps;
      }
      ghost var p := LayPiece(destination, source, e, lo, hi, start, done, ini, ps);
      FollowNext(all, ps, p, LoopPieces(source, cursor, lo, hi, done), LoopPieces(source, NextKey(source.overlay, e + 1), lo, hi, p.to));
      ps := ps + [p];
      done := done + NewBytes(e, lo, hi, done);
      cursor := NextKey(source.overlay, e + 1);
    }
    PiecesNow(source, cursor, lo, hi, done);
    if done != hi - lo {
      FollowPanic(all, ps);
      return Err(Panic), ps;
    }
    FollowEnd(all, ps);
    PiecesRight(source, lo, hi);
    LayingEnds(destination.overlay, ini, start, ps, source, lo, hi, destination.storage.Length);
    return Ok(()), ps;
  }

  /** What the loop keeps about the destination. */
  ghost predicate Laying(fin: OverlayMap, ini: OverlayMap, start: nat, ps: seq<Piece>, done: nat) {
    Disjoint(fin) && Aligned(fin) && Laid(fin, ini, start, ps, done) && start % PAGE_SIZE == 0 && done % PAGE_SIZE == 0
  }

  lemma LayingStarts(ini: OverlayMap, start: nat, size: nat)
    requires WellFormed(ini, size) && start % PAGE_SIZE == 0
    ensures Laying(ini, ini, start, [], 0)
  {
    LaidNothing(ini, start);
  }

  lemma LayingEnds(fin: OverlayMap, ini: OverlayMap, start: nat, ps: seq<Piece>, source: Context, lo: nat, hi: nat, size: nat)
    requires lo <= hi && Laying(fin, ini, start, ps, hi - lo) && source.Kvm? && WellFormed(ini, size) && start + (hi - lo) <= size
    ensures WellFormed(fin, size) && Laid(fin, ini, start, ps, hi - lo)
    ensures Mirrors(fin, start, source, lo, hi) <==> AllRight(ps, source, lo)
  {
    hide Laid, WellFormed, Mirrors, AllRight;
    LaidWellFormed(fin, ini, start, ps, hi - lo, size);
    LaidMirrors(fin, ini, start, ps, source, lo, hi);
  }

  lemma CompletesIs(source: Context, lo: nat, hi: nat)
    requires source.Kvm? && lo <= hi
    ensures Completes(source, lo, hi) <==> LoopPieces(source, NextKey(source.overlay, lo), lo, hi, 0).Ok?
  {
  }

  lemma CursorStarts(source: Context, lo: nat)
    requires source.Kvm?
    ensures CursorOk(source, NextKey(source.overlay, lo), lo)
    ensures var c := NextKey(source.overlay, lo); c.Some? ==> c.value in source.overlay && lo <= c.value
  {
  }

  lemma CursorNext(source: Context, e: nat, lo: nat)
    requires source.Kvm? && lo <= e
    ensures CursorOk(source, NextKey(source.overlay, e + 1), lo)
    ensures var c := NextKey(source.overlay, e + 1); c.Some? ==> c.value in source.overlay && lo <= c.value
  {
  }

  /** Maps one piece. */
  method LayPiece(destination: KvmContext, source: Context, e: nat, lo: nat, hi: nat, start: nat, done: nat, ghost ini: OverlayMap, ghost ps: seq<Piece>)
    returns (ghost p: Piece)
    requires Sound(source) && source.Kvm? && e in source.overlay && lo <= e && lo < hi && lo % PAGE_SIZE == hi % PAGE_SIZE == 0
    requires source.overlay[e].item.Some? ==> source.overlay[e].start <= source.overlay[e].item.value.offset + lo
    requires Laying(destination.overlay, ini, start, ps, done)
    modifies destination`overlay
    ensures p == Piece(done, done + NewBytes(e, lo, hi, done), NewItem(source, source.overlay[e], lo, done)) && p.from < p.to
    ensures Laying(destination.overlay, ini, start, ps + [p], p.to)
  {
    hide Laid, Updates, Disjoint, Aligned, NewBytes, NewItem, Sound, WellFormed;
    SoundAligned(source);
    BytesInPages(source.overlay, e, lo, hi, done);
    var bytes: nat, item := NewBytes(e, lo, hi, done), NewItem(source, source.overlay[e], lo, done);
    ghost var mid := destination.overlay;
    PageSum(start, done);
    PageSum(start, done + bytes);
    destination.InsertIntoOverlay(start + done, start + done + bytes, Some(item));
    p := Piece(done, done + bytes, item);
    LaidNext(destination.overlay, mid, ini, start, ps, p);
  }

  lemma SoundAligned(source: Context)
    requires Sound(source) && source.Kvm?
    ensures Aligned(source.overlay)
  {
  }

  lemma PageSum(a: nat, b: nat)
    requires a % PAGE_SIZE == 0 && b % PAGE_SIZE == 0
    ensures (a + b) % PAGE_SIZE == 0
  {
  }

  lemma LaidNothing(ini: OverlayMap, start: nat)
    ensures Laid(ini, ini, start, [], 0)
  {
  }

  lemma BytesInPages(ov: OverlayMap, e: nat, lo: nat, hi: nat, done: nat)
    requires Aligned(ov) && e in ov && lo <= e && lo < hi && lo % PAGE_SIZE == hi % PAGE_SIZE == done % PAGE_SIZE == 0
    ensures NewBytes(e, lo, hi, done) > 0 && (done + NewBytes(e, lo, hi, done)) % PAGE_SIZE == 0
  {
  }

  /** What the loop does next. */
  lemma PiecesNow(source: Context, cursor: Option<nat>, lo: nat, hi: nat, done: nat)
    requires CursorOk(source, cursor, lo) && lo <= hi
    ensures var now := LoopPieces(source, cursor, lo, hi, done);
            if cursor.None? || done >= hi - lo || source.overlay[cursor.value].start >= hi then
              now == if done == hi - lo then Ok([]) else Err(Panic)
            else
              var g := source.overlay[cursor.value];
              if g.start > lo + done || (g.item.Some? && g.item.value.offset + lo < g.start) then now == Err(Panic)
              else
                var p := Piece(done, done + NewBytes(cursor.value, lo, hi, done), NewItem(source, g, lo, done));
                var more := LoopPieces(source, NextKey(source.overlay, cursor.value + 1), lo, hi, p.to);
                now == if more.Ok? then Ok([p] + more.value) else Err(more.error)
  {
  }

  /** All pieces are those laid so far and those to come. */
  ghost predicate Followed(all: Result<seq<Piece>>, ps: seq<Piece>, more: Result<seq<Piece>>) {
    if more.Ok? then all == Ok(ps + more.value) else all == Err(more.error)
  }

  lemma Following(all: Result<seq<Piece>>, ps: seq<Piece>, more: Result<seq<Piece>>)
    requires all == more && ps == []
    ensures Followed(all, ps, more)
  {
    if more.Ok? {
      assert [] + more.value == more.value;
    }
  }

  lemma FollowNext(all: Result<seq<Piece>>, ps: seq<Piece>, p: Piece, now: Result<seq<Piece>>, more: Result<seq<Piece>>)
    requires Followed(all, ps, now) && now == if more.Ok? then Ok([p] + more.value) else Err(more.error)
    ensures Followed(all, ps + [p], more)
  {
    if more.Ok? {
      assert ps + ([p] + more.value) == ps + [p] + more.value;
    }
  }

  lemma FollowPanic(all: Result<seq<Piece>>, ps: seq<Piece>)
    requires Followed(all, ps, Err(Panic))
    ensures all == Err(Panic)
  {
  }

  lemma FollowEnd(all: Result<seq<Piece>>, ps: seq<Piece>)
    requires Followed(all, ps, Ok([]))
    ensures all == Ok(ps)
  {
    assert ps + [] == ps;
  }

  // ---------------------------------------------------------------- what goes wrong otherwise

  /** The segment behind the first one is borrowed. */
  ghost predicate SecondBorrowed(ov: OverlayMap, lo: nat) {
    var e := NextKey(ov, lo);
    e.Some? && var f := NextKey(ov, e.value + 1); f.Some? && ov[f.value].item.Some?
  }

  /** A byte that a piece maps to the source although the source borrows it. */
  ghost predicate Chained(ps: seq<Piece>, k: nat, x: nat, source: Context, lo: nat) {
    && source.Kvm? && k < |ps| && InPiece(ps[k], x)
    && ps[k].item == OverlayItem(source, lo + ps[k].from) && Resolve(source.overlay, lo + x) != Some(Local)
  }

  lemma ChainedLater(p: Piece, ps: seq<Piece>, k: nat, x: nat, source: Context, lo: nat)
    requires Chained(ps, k, x, source, lo)
    ensures Chained([p] + ps, k + 1, x, source, lo)
  {
  }

  /** From the third segment on all segments that are used are local, so the first byte that is not
      local is chained. */
  lemma {:induction false} LaterChain(source: Context, prev: nat, first: nat, lo: nat, hi: nat, done: nat) returns (k: nat, x: nat)
    requires Sound(source) && source.Kvm? && lo <= first <= prev && prev in source.overlay && first < lo + done <= hi && prev + 1 < lo + done
    requires LocalRange(source.overlay, first + 1, lo + done) && !LocalRange(source.overlay, first + 1, hi)
    requires LoopPieces(source, NextKey(source.overlay, prev + 1), lo, hi, done).Ok?
    ensures Chained(LoopPieces(source, NextKey(source.overlay, prev + 1), lo, hi, done).value, k, x, source, lo)
    decreases hi - lo - done
  {
    hide Sound, LoopPieces;
    var ov := source.overlay;
    var p, rest, e := PiecesStep(source, NextKey(ov, prev + 1), lo, hi, done);
    assert Resolve(ov, prev + 1) == Some(Local);
    k, x := PieceOrLater(source, p, rest, e, first, lo, hi, done);
  }

  /** A piece for a local segment holds a chained byte, or a later one does. */
  lemma {:induction false} PieceOrLater(source: Context, p: Piece, rest: seq<Piece>, e: nat, first: nat, lo: nat, hi: nat, done: nat) returns (k: nat, x: nat)
    requires Sound(source) && source.Kvm? && lo <= first <= e && e in source.overlay && first < lo + done < hi && source.overlay[e].item.None?
    requires LocalRange(source.overlay, first + 1, lo + done) && !LocalRange(source.overlay, first + 1, hi)
    requires p == Piece(done, done + NewBytes(e, lo, hi, done), NewItem(source, source.overlay[e], lo, done)) && done < p.to <= hi - lo
    requires LoopPieces(source, NextKey(source.overlay, e + 1), lo, hi, p.to) == Ok(rest)
    ensures Chained([p] + rest, k, x, source, lo)
    decreases hi - lo - done, 1
  {
    hide Resolve, Sound, LoopPieces;
    var ov := source.overlay;
    if LocalRange(ov, lo + done, lo + p.to) {
      var l, y := LaterChain(source, e, first, lo, hi, p.to);
      ChainedLater(p, rest, l, y, source, lo);
      k, x := l + 1, y;
    } else {
      var b: nat :| lo + done <= b < lo + p.to && Resolve(ov, b) != Some(Local);
      k, x := 0, b - lo;
      assert ([p] + rest)[0] == p;
    }
  }

  /** If the second segment is local but something behind it is not, the destination always refers to
      pages that are themselves borrowed. */
  lemma ChainArises(fin: OverlayMap, ini: OverlayMap, start: nat, ps: seq<Piece>, source: Context, lo: nat, hi: nat)
    requires Sound(source) && source.Kvm? && lo < hi && LoopPieces(source, NextKey(source.overlay, lo), lo, hi, 0) == Ok(ps)
    requires Laid(fin, ini, start, ps, hi - lo) && !LocalBehind(source.overlay, lo, hi) && !SecondBorrowed(source.overlay, lo)
    ensures !NoChains(fin)
  {
    hide Resolve, Sound, LoopPieces;
    var ov := source.overlay;
    var p, rest, e := PiecesStep(source, NextKey(ov, lo), lo, hi, 0);
    var q, more, f := PiecesStep(source, NextKey(ov, e + 1), lo, hi, p.to);
    var k, x := PieceOrLater(source, q, more, f, e, lo, hi, p.to);
    ChainedLater(p, rest, k, x, source, lo);
    ChainedDestination(fin, ini, start, ps, source, lo, hi, k + 1, x);
  }

  /** Byte `n` of the range is mapped `n` bytes below where it lives. */
  ghost predicate ShiftedDown(fin: OverlayMap, start: nat, source: Context, lo: nat, n: nat) {
    source.Kvm? &&
    match Owner(source, lo + n)
    case Some(Remote(c, o)) => n <= o && Resolve(fin, start + n) == Some(Remote(c, o - n))
    case _ => false
  }

  lemma SoundDisjoint(source: Context)
    requires Sound(source) && source.Kvm?
    ensures Disjoint(source.overlay)
  {
  }

  lemma NextStart(ov: OverlayMap, e: nat, f: nat)
    requires Disjoint(ov) && e in ov && NextKey(ov, e + 1) == Some(f)
    ensures e < ov[f].start <= f
  {
  }

  /** If the second segment is borrowed, its first byte is mapped too low in the context it is borrowed
      from, by as much as the first segment holds. */
  lemma SecondShifted(fin: OverlayMap, ini: OverlayMap, start: nat, ps: seq<Piece>, source: Context, lo: nat, hi: nat) returns (n: nat)
    requires Sound(source) && source.Kvm? && lo < hi && LoopPieces(source, NextKey(source.overlay, lo), lo, hi, 0) == Ok(ps)
    requires Laid(fin, ini, start, ps, hi - lo) && !LocalBehind(source.overlay, lo, hi) && SecondBorrowed(source.overlay, lo)
    ensures n > 0 && NextKey(source.overlay, lo) == Some(lo + n - 1) && ShiftedDown(fin, start, source, lo, n)
  {
    hide Resolve, Sound, WellFormed, Disjoint, LoopPieces, Laid;
    var ov := source.overlay;
    SoundDisjoint(source);
    var p, rest, e := PiecesStep(source, NextKey(ov, lo), lo, hi, 0);
    var q, more, f := PiecesStep(source, NextKey(ov, e + 1), lo, hi, p.to);
    NextStart(ov, e, f);
    ResolveCovered(ov, f, ov[f].start);
    assert ps[1] == q;
    PieceAt(fin, ini, start, ps, hi - lo, 1, p.to);
    n := p.to;
  }

  lemma ChainedDestination(fin: OverlayMap, ini: OverlayMap, start: nat, ps: seq<Piece>, source: Context, lo: nat, hi: nat, k: nat, x: nat)
    requires lo <= hi && Laid(fin, ini, start, ps, hi - lo) && Chained(ps, k, x, source, lo)
    ensures !NoChains(fin)
  {
    hide Resolve;
    var a: nat := start + x;
    assert HoldsPiece(fin, start, ps[k]) && InPiece(ps[k], a - start);
    assert Resolve(fin, a) == Some(Remote(source, lo + x));
    assert !Direct(Remote(source, lo + x), a);
  }

  // ---------------------------------------------------------------- two sources that show it

  /** A context of four local pages, zeros in the first two and ones in the others. */
  function FourPages(): Context {
    Kvm(map[4 * PAGE_SIZE - 1 := Segment(0, None)], seq<byte>(4 * PAGE_SIZE, i => if i < 2 * PAGE_SIZE then 0 else 1))
  }

  /** Four pages in three segments. */
  function ThreeSegments(first: Option<OverlayItem>, second: Option<OverlayItem>, third: Option<OverlayItem>): OverlayMap {
    map[PAGE_SIZE - 1 := Segment(0, first), 2 * PAGE_SIZE - 1 := Segment(PAGE_SIZE, second), 4 * PAGE_SIZE - 1 := Segment(2 * PAGE_SIZE, third)]
  }

  lemma ThreeKeys(a: Option<OverlayItem>, b: Option<OverlayItem>, c: Option<OverlayItem>)
    ensures var ov := ThreeSegments(a, b, c);
            && WellFormed(ov, 4 * PAGE_SIZE)
            && NextKey(ov, 0) == Some(PAGE_SIZE - 1) && NextKey(ov, PAGE_SIZE) == Some(2 * PAGE_SIZE - 1)
  {
    var ov := ThreeSegments(a, b, c);
    assert ov.Keys == {PAGE_SIZE - 1, 2 * PAGE_SIZE - 1, 4 * PAGE_SIZE - 1};
    assert NextKey(ov, 0).Some? && NextKey(ov, PAGE_SIZE).Some?;
  }

  lemma ThreeResolve(a: Option<OverlayItem>, b: Option<OverlayItem>, c: Option<OverlayItem>, x: nat)
    ensures Resolve(ThreeSegments(a, b, c), x) ==
            if x < PAGE_SIZE then Some(PlaceOf(a, x))
            else if x < 2 * PAGE_SIZE then Some(PlaceOf(b, x - PAGE_SIZE))
            else if x < 4 * PAGE_SIZE then Some(PlaceOf(c, x - 2 * PAGE_SIZE))
            else None
  {
    hide Resolve, PlaceOf;
    ThreeKeys(a, b, c);
    var ov := ThreeSegments(a, b, c);
    if x < PAGE_SIZE {
      ResolveCovered(ov, PAGE_SIZE - 1, x);
    } else if x < 2 * PAGE_SIZE {
      ResolveCovered(ov, 2 * PAGE_SIZE - 1, x);
    } else if x < 4 * PAGE_SIZE {
      ResolveCovered(ov, 4 * PAGE_SIZE - 1, x);
    } else {
      ResolveUncovered(ov, x);
    }
  }

  lemma FourPagesLocal(x: nat)
    ensures x < 4 * PAGE_SIZE ==> Resolve(FourPages().overlay, x) == Some(Local)
    ensures |FourPages().storage| == 4 * PAGE_SIZE
  {
    if x < 4 * PAGE_SIZE {
      ResolveCovered(FourPages().overlay, 4 * PAGE_SIZE - 1, x);
    }
  }

  /** A page that is local, or borrowed from the same or a later page of `FourPages`. */
  ghost predicate Harmless(item: Option<OverlayItem>, pages: nat) {
    item.Some? ==> item.value.context == FourPages() && item.value.offset % PAGE_SIZE == 0 && item.value.offset + pages * PAGE_SIZE <= 4 * PAGE_SIZE
  }

  lemma ThreeSound(a: Option<OverlayItem>, b: Option<OverlayItem>, c: Option<OverlayItem>, storage: seq<byte>)
    requires Harmless(a, 1) && Harmless(b, 1) && Harmless(c, 2) && |storage| == 4 * PAGE_SIZE
    ensures Sound(Kvm(ThreeSegments(a, b, c), storage))
  {
    hide Resolve, ThreeSegments, Harmless, Direct, PlaceOf;
    ThreeKeys(a, b, c);
    var ov := ThreeSegments(a, b, c);
    forall x: nat | Resolve(ov, x).Some? ensures Direct(Resolve(ov, x).value, x) {
      ThreeResolve(a, b, c, x);
      if x < PAGE_SIZE {
        HarmlessDirect(a, 1, 0, x);
      } else if x < 2 * PAGE_SIZE {
        HarmlessDirect(b, 1, PAGE_SIZE, x);
      } else {
        HarmlessDirect(c, 2, 2 * PAGE_SIZE, x);
      }
    }
  }

  lemma HarmlessDirect(item: Option<OverlayItem>, pages: nat, s: nat, x: nat)
    requires Harmless(item, pages) && s % PAGE_SIZE == 0 && s <= x < s + pages * PAGE_SIZE
    ensures Direct(PlaceOf(item, x - s), x)
  {
    hide Resolve, FourPages;
    if item.Some? {
      FourPagesKvm();
      FourPagesLocal(item.value.offset + (x - s));
      SameDistance(item.value.offset, s, x);
    }
  }

  lemma FourPagesKvm()
    ensures FourPages().Kvm?
  {
  }

  /** Segments of one, one and two pages make the numbers work out, whatever they are. */
  lemma ThreeComplete(a: Option<OverlayItem>, b: Option<OverlayItem>, c: Option<OverlayItem>, storage: seq<byte>) returns (ps: seq<Piece>)
    requires b.Some? ==> b.value.offset >= PAGE_SIZE
    ensures var source := Kvm(ThreeSegments(a, b, c), storage);
            && LoopPieces(source, NextKey(source.overlay, 0), 0, 4 * PAGE_SIZE, 0) == Ok(ps) && |ps| == 2
            && ps[1] == Piece(PAGE_SIZE, 4 * PAGE_SIZE, NewItem(source, Segment(PAGE_SIZE, b), 0, PAGE_SIZE))
  {
    hide LoopPieces, ThreeSegments;
    var source := Kvm(ThreeSegments(a, b, c), storage);
    ThreeKeys(a, b, c);
    ThreeItems(a, b, c);
    var ov, n := source.overlay, 4 * PAGE_SIZE;
    CursorNext(source, PAGE_SIZE - 1, 0);
    CursorNext(source, 2 * PAGE_SIZE - 1, 0);
    PiecesNow(source, NextKey(ov, 0), 0, n, 0);
    PiecesNow(source, NextKey(ov, PAGE_SIZE), 0, n, PAGE_SIZE);
    AllMapped(source, NextKey(ov, 2 * PAGE_SIZE), 0, n);
    var p, q := Piece(0, PAGE_SIZE, NewItem(source, Segment(0, a), 0, 0)), Piece(PAGE_SIZE, n, NewItem(source, Segment(PAGE_SIZE, b), 0, PAGE_SIZE));
    assert NewBytes(PAGE_SIZE - 1, 0, n, 0) == PAGE_SIZE && NewBytes(2 * PAGE_SIZE - 1, 0, n, PAGE_SIZE) == 3 * PAGE_SIZE;
    assert LoopPieces(source, NextKey(ov, PAGE_SIZE), 0, n, PAGE_SIZE) == Ok([q] + []);
    assert LoopPieces(source, NextKey(ov, 0), 0, n, 0) == Ok([p] + ([q] + []));
    ps := [p] + ([q] + []);
  }

  lemma ThreeItems(a: Option<OverlayItem>, b: Option<OverlayItem>, c: Option<OverlayItem>)
    ensures var ov := ThreeSegments(a, b, c);
            && PAGE_SIZE - 1 in ov && ov[PAGE_SIZE - 1] == Segment(0, a)
            && 2 * PAGE_SIZE - 1 in ov && ov[2 * PAGE_SIZE - 1] == Segment(PAGE_SIZE, b)
  {
  }

  /** A page borrowed, a page local, two pages borrowed: the loop gets through, and the last two pages
      of the destination refer to pages that the source does not hold. */
  lemma ChainExample() returns (source: Context, ps: seq<Piece>)
    ensures source.Kvm? && Sound(source) && |source.storage| == 4 * PAGE_SIZE
    ensures LoopPieces(source, NextKey(source.overlay, 0), 0, 4 * PAGE_SIZE, 0) == Ok(ps)
    ensures forall fin: OverlayMap, ini: OverlayMap, start: nat :: Laid(fin, ini, start, ps, 4 * PAGE_SIZE) ==> !NoChains(fin)
  {
    hide Laid, NoChains, LoopPieces, Sound, ThreeSegments, FourPages, Resolve;
    FourPagesLocal(0);
    FourPagesKvm();
    var a, c := Some(OverlayItem(FourPages(), 0)), Some(OverlayItem(FourPages(), 2 * PAGE_SIZE));
    source := Kvm(ThreeSegments(a, None, c), FourPages().storage);
    ThreeSound(a, None, c, source.storage);
    ps := ThreeComplete(a, None, c, source.storage);
    ThreeKeys(a, None, c);
    ThreeItems(a, None, c);
    ThreeResolve(a, None, c, 2 * PAGE_SIZE);
    assert Resolve(source.overlay, 2 * PAGE_SIZE) != Some(Local);
    assert !LocalBehind(source.overlay, 0, 4 * PAGE_SIZE);
    forall fin: OverlayMap, ini: OverlayMap, start: nat | Laid(fin, ini, start, ps, 4 * PAGE_SIZE) ensures !NoChains(fin) {
      ChainArises(fin, ini, start, ps, source, 0, 4 * PAGE_SIZE);
    }
  }

  /** A page local, a page borrowed, two pages local: the loop gets through, and the second page of the
      destination shows other bytes than the source. */
  lemma WrongBytesExample() returns (source: Context, ps: seq<Piece>)
    ensures source.Kvm? && Sound(source) && |source.storage| == 4 * PAGE_SIZE
    ensures LoopPieces(source, NextKey(source.overlay, 0), 0, 4 * PAGE_SIZE, 0) == Ok(ps)
    ensures forall fin: Context, ini: OverlayMap, start: nat :: fin.Kvm? && start + 4 * PAGE_SIZE <= |fin.storage| && Laid(fin.overlay, ini, start, ps, 4 * PAGE_SIZE) ==>
              ByteAt(source, PAGE_SIZE) == Some(1) && ByteAt(fin, start + PAGE_SIZE) == Some(0)
  {
    hide Laid, NoChains, LoopPieces, Sound, ThreeSegments, Resolve, ByteAt;
    FourPagesLocal(0);
    var b := Some(OverlayItem(FourPages(), 2 * PAGE_SIZE));
    source := Kvm(ThreeSegments(None, b, None), FourPages().storage);
    ThreeSound(None, b, None, source.storage);
    ps := ThreeComplete(None, b, None, source.storage);
    ThreeResolve(None, b, None, PAGE_SIZE);
    ByteAtKvm(source, PAGE_SIZE);
    FourPagesBytes(PAGE_SIZE);
    FourPagesBytes(2 * PAGE_SIZE);
    forall fin: Context, ini: OverlayMap, start: nat | fin.Kvm? && start + 4 * PAGE_SIZE <= |fin.storage| && Laid(fin.overlay, ini, start, ps, 4 * PAGE_SIZE)
      ensures ByteAt(fin, start + PAGE_SIZE) == Some(0)
    {
      PieceAt(fin.overlay, ini, start, ps, 4 * PAGE_SIZE, 1, PAGE_SIZE);
      ByteAtKvm(fin, start + PAGE_SIZE);
    }
  }

  lemma FourPagesBytes(x: nat)
    requires x < 4 * PAGE_SIZE
    ensures ByteAt(FourPages(), x) == Some(if x < 2 * PAGE_SIZE then 0 else 1)
  {
    FourPagesLocal(x);
    ByteAtKvm(FourPages(), x);
  }

  lemma PieceAt(fin: OverlayMap, ini: OverlayMap, start: nat, ps: seq<Piece>, done: nat, k: nat, x: nat)
    requires Laid(fin, ini, start, ps, done) && k < |ps| && InPiece(ps[k], x)
    ensures Resolve(fin, start + x) == Some(PlaceOf(Some(ps[k].item), x - ps[k].from))
  {
    hide Resolve;
    assert HoldsPiece(fin, start, ps[k]) && InPiece(ps[k], (start + x) - start);
  }
}
