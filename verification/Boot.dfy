/** Starting a guest on a context: borrowed segments get copy-on-write windows at the end of guest
    memory, and the page tables make the guest see the bytes of the context. */
module Boot {
  import opened Common
  import opened Overlay
  import opened Contexts
  import opened Paging
  import opened Guests
  import opened PageTables

  /** One page worth of bytes of a storage. */
  function SliceAt(storage: seq<byte>, offset: nat): (p: Page)
    ensures |p| == PAGE_SIZE
  {
    if offset + PAGE_SIZE <= |storage| then storage[offset..offset + PAGE_SIZE] else ZeroPage()
  }

  // ---------------------------------------------------------------- placing windows

  /** A page is mapped as the overlay resolves it; borrowed pages to a window that holds a copy of
      what they borrow. */
  ghost predicate Matches(m: Option<Mapping>, place: Option<Place>, memory: seq<Page>, page: nat, stack: nat) {
    match place
    case None => m.None?
    case Some(Local) => m == Some(Mapping(page, true, true))
    case Some(Remote(c, o)) =>
      && m.Some? && !m.value.writable && m.value.user
      && stack <= m.value.frame < |memory| && m.value.frame % TABLE_SIZE == page % TABLE_SIZE
      && c.Kvm? && memory[m.value.frame] == SliceAt(c.storage, o)
  }

  ghost predicate PageMatches(present: seq<Present>, ov: OverlayMap, memory: seq<Page>, page: nat, stack: nat) {
    Matches(Lookup(RangesOf(present), page), Resolve(ov, page * PAGE_SIZE), memory, page, stack)
  }

  /** Window `j` lies below window `i`. */
  ghost predicate Lower(p: Present, q: Present) {
    p.origin.Some? && q.origin.Some? ==> q.origin.value + (q.past - q.first) <= p.origin.value
  }

  /** Every window lies below all earlier ones, so that no two overlap. */
  ghost predicate WindowsApart(present: seq<Present>) {
    forall i: nat, j: nat :: i < j < |present| ==> Lower(present[i], present[j])
  }

  lemma ApartNext(present: seq<Present>, stack: nat, pages: nat, p: Present)
    requires WindowsApart(present) && Windows(present, stack, pages) && (p.origin.Some? ==> p.origin.value + (p.past - p.first) <= stack)
    ensures WindowsApart(present + [p])
  {
    var all := present + [p];
    forall i: nat, j: nat | i < j < |all| ensures Lower(all[i], all[j]) {
      assert all[i] == present[i] && InWindow(present[i], stack, pages);
    }
  }

  /** All segments that end below `upTo` have been placed. */
  ghost predicate PlacedUpTo(present: seq<Present>, ov: OverlayMap, memory: seq<Page>, stack: nat, upTo: nat) {
    && upTo % PAGE_SIZE == 0 && stack <= |memory|
    && Ordered(present) && Windows(present, stack, |memory|) && WindowsApart(present) && PastPresent(present) * PAGE_SIZE <= upTo
    && (forall page: nat :: page * PAGE_SIZE < upTo ==> PageMatches(present, ov, memory, page, stack))
    && (forall page: nat :: page * PAGE_SIZE >= upTo ==> Lookup(RangesOf(present), page) == None)
  }

  lemma NothingPlaced(ov: OverlayMap, memory: seq<Page>)
    ensures PlacedUpTo([], ov, memory, |memory|, 0)
  {
    hide Resolve, Matches;
  }

  /** The part of `[mapping, …)` to skip so that the window is congruent to the pages it stands for. */
  function Additional(first: nat, mapping: nat): nat {
    var v, m := CeilLarge(first) - first, CeilLarge(mapping) - mapping;
    if v >= m then v - m else v + TABLE_SIZE - m
  }

  /** What is skipped leads to a multiple of the large page size from the pages. */
  lemma WholeLargePages(first: nat, mapping: nat) returns (t: int)
    ensures mapping - Additional(first, mapping) == first + TABLE_SIZE * t
  {
    hide CeilLarge;
    var v, p := Distance(first);
    var m, q := Distance(mapping);
    var k: int := p;
    t := if v >= m then q - k else q - 1 - k;
  }

  lemma Congruent(first: nat, mapping: nat)
    requires Additional(first, mapping) <= mapping
    ensures (mapping - Additional(first, mapping)) % TABLE_SIZE == first % TABLE_SIZE
  {
    hide CeilLarge;
    var v, p := Distance(first);
    var m, q := Distance(mapping);
    SameRemainder(first, p, v, mapping - Additional(first, mapping), if v >= m then q else q - 1);
  }

  /** A page number as a distance to the next large page boundary. */
  lemma Distance(x: nat) returns (d: nat, k: nat)
    ensures d == CeilLarge(x) - x && d < TABLE_SIZE && x + d == TABLE_SIZE * k
  {
    d, k := CeilLarge(x) - x, (x + TABLE_SIZE - 1) / TABLE_SIZE;
  }

  lemma SameRemainder(x: nat, p: int, v: nat, y: nat, q: int)
    requires v < TABLE_SIZE && x + v == TABLE_SIZE * p && y + v == TABLE_SIZE * q
    ensures x % TABLE_SIZE == y % TABLE_SIZE
  {
    if v == 0 {
      Quotient(x, TABLE_SIZE, p, 0);
      Quotient(y, TABLE_SIZE, q, 0);
    } else {
      Quotient(x, TABLE_SIZE, p - 1, TABLE_SIZE - v);
      Quotient(y, TABLE_SIZE, q - 1, TABLE_SIZE - v);
    }
  }

  /** Private mapping of borrowed pages into guest memory. */
  method MapWindow(memory: array<Page>, start: nat, size: nat, storage: seq<byte>, offset: nat)
    requires start + size <= memory.Length
    modifies memory
    ensures forall p: nat :: p < memory.Length ==>
              memory[p] == if start <= p < start + size then SliceAt(storage, offset + (p - start) * PAGE_SIZE) else old(memory[p])
  {
    hide SliceAt;
    var j: nat := 0;
    while j < size
      invariant j <= size
      invariant forall p: nat :: p < memory.Length ==>
                  memory[p] == if start <= p < start + j then SliceAt(storage, offset + (p - start) * PAGE_SIZE) else old(memory[p])
    {
      memory[start + j] := SliceAt(storage, offset + j * PAGE_SIZE);
      j := j + 1;
    }
  }

  /** The window of the new segment holds what the segment borrows. */
  ghost predicate Filled(memory: seq<Page>, p: Present, g: Segment) {
    && (p.origin.None? <==> g.item.None?)
    && (g.item.Some? ==>
          && g.item.value.context.Kvm? && p.origin.value + (p.past - p.first) <= |memory|
          && forall k: nat :: p.origin.value <= k < p.origin.value + (p.past - p.first) ==>
               memory[k] == SliceAt(g.item.value.context.storage, g.item.value.offset + (k - p.origin.value) * PAGE_SIZE))
  }

  lemma PlacedPage(present: seq<Present>, ov: OverlayMap, was: seq<Page>, memory: seq<Page>, stack: nat, next: nat, upTo: nat, e: nat, p: Present, page: nat)
    requires PlacedUpTo(present, ov, was, stack, upTo) && |memory| == |was| && next <= stack
    requires Disjoint(ov) && NextKey(ov, upTo) == Some(e) && upTo <= ov[e].start <= e
    requires ov[e].start == p.first * PAGE_SIZE && e + 1 == p.past * PAGE_SIZE && p.first < p.past
    requires Filled(memory, p, ov[e]) && InWindow(p, next, |memory|)
    requires forall k: nat :: stack <= k < |memory| ==> memory[k] == was[k]
    requires page < p.past
    ensures PageMatches(present + [p], ov, memory, page, next)
  {
    hide Resolve, Lookup, SliceAt, Ordered, Windows, RangesOf, WindowsApart;
    AddedLookup(present, p, page);
    var g := ov[e];
    if p.first <= page {
      ResolveCovered(ov, e, page * PAGE_SIZE);
      WindowPage(memory, p, g, page, next);
    } else if page * PAGE_SIZE < upTo {
      assert PageMatches(present, ov, was, page, stack);
      KeptMatches(Lookup(RangesOf(present), page), Resolve(ov, page * PAGE_SIZE), was, memory, page, stack, next);
    } else {
      assert forall k: nat :: k in ov && k >= page * PAGE_SIZE ==> e <= k;
      ResolveUncovered(ov, page * PAGE_SIZE);
    }
  }

  lemma AddedLookup(present: seq<Present>, p: Present, page: nat)
    ensures RangesOf(present + [p]) == RangesOf(present) + [RangeOf(p)]
    ensures Lookup(RangesOf(present + [p]), page) ==
            if p.first <= page < p.past then Some(Mapping(RangeOf(p).frame + (page - p.first), p.origin.None?, true))
            else Lookup(RangesOf(present), page)
  {
    hide Lookup;
    assert (present + [p])[..|present|] == present;
    assert (present + [p])[..|present| + 1] == present + [p];
    RangesOfNext(present + [p], |present|);
    LookupAdded(RangesOf(present), RangeOf(p), page);
  }

  lemma KeptMatches(m: Option<Mapping>, place: Option<Place>, was: seq<Page>, memory: seq<Page>, page: nat, stack: nat, next: nat)
    requires Matches(m, place, was, page, stack) && |memory| == |was| && next <= stack
    requires forall k: nat :: stack <= k < |memory| ==> memory[k] == was[k]
    ensures Matches(m, place, memory, page, next)
  {
    hide SliceAt;
  }

  lemma WindowPage(memory: seq<Page>, p: Present, g: Segment, page: nat, next: nat)
    requires Filled(memory, p, g) && InWindow(p, next, |memory|) && g.start == p.first * PAGE_SIZE && p.first <= page < p.past
    ensures Matches(Some(Mapping(RangeOf(p).frame + (page - p.first), p.origin.None?, true)),
                    Some(PlaceOf(g.item, page * PAGE_SIZE - g.start)), memory, page, next)
  {
    hide SliceAt;
    assert page * PAGE_SIZE - g.start == (page - p.first) * PAGE_SIZE;
    if g.item.Some? {
      SameShift(p.origin.value, p.first, page - p.first);
      var k: nat := p.origin.value + (page - p.first);
      assert memory[k] == SliceAt(g.item.value.context.storage, g.item.value.offset + (k - p.origin.value) * PAGE_SIZE);
    }
  }

  lemma SameShift(x: nat, y: nat, d: nat)
    requires x % TABLE_SIZE == y % TABLE_SIZE
    ensures (x + d) % TABLE_SIZE == (y + d) % TABLE_SIZE
  {
    var z := x % TABLE_SIZE + d;
    Quotient(x + d, TABLE_SIZE, x / TABLE_SIZE + z / TABLE_SIZE, z % TABLE_SIZE);
    Quotient(y + d, TABLE_SIZE, y / TABLE_SIZE + z / TABLE_SIZE, z % TABLE_SIZE);
  }

  lemma PlacedStep(present: seq<Present>, ov: OverlayMap, was: seq<Page>, memory: seq<Page>, stack: nat, next: nat, upTo: nat, e: nat, p: Present)
    requires PlacedUpTo(present, ov, was, stack, upTo) && |memory| == |was| && next <= stack
    requires Disjoint(ov) && NextKey(ov, upTo) == Some(e) && upTo <= ov[e].start <= e
    requires ov[e].start == p.first * PAGE_SIZE && e + 1 == p.past * PAGE_SIZE && p.first < p.past
    requires Filled(memory, p, ov[e]) && InWindow(p, next, |memory|) && (p.origin.Some? ==> p.origin.value + (p.past - p.first) <= stack)
    requires forall k: nat :: stack <= k < |memory| ==> memory[k] == was[k]
    ensures PlacedUpTo(present + [p], ov, memory, next, e + 1)
  {
    hide Resolve, Lookup, Filled, RangesOf, PageMatches, Disjoint, WindowsApart;
    ApartNext(present, stack, |memory|, p);
    forall page: nat | page * PAGE_SIZE < e + 1 ensures PageMatches(present + [p], ov, memory, page, next) {
      PlacedPage(present, ov, was, memory, stack, next, upTo, e, p, page);
    }
    forall page: nat | page * PAGE_SIZE >= e + 1 ensures Lookup(RangesOf(present + [p]), page) == None {
      AddedLookup(present, p, page);
    }
  }

  datatype Placement = Placement(present: seq<Present>, stack: nat)

  lemma SegmentPages(ov: OverlayMap, size: nat, upTo: nat, e: nat)
    requires WellFormed(ov, size) && NextKey(ov, upTo) == Some(e) && (upTo == 0 || upTo - 1 in ov)
    ensures Disjoint(ov) && e < size && upTo <= ov[e].start <= e
    ensures ov[e].start == ov[e].start / PAGE_SIZE * PAGE_SIZE && e + 1 == (e + 1) / PAGE_SIZE * PAGE_SIZE
    ensures ov[e].start / PAGE_SIZE < (e + 1) / PAGE_SIZE
  {
  }

  /** What is left of guest memory is too small for the window of pages `[first, past)`. */
  predicate NoRoom(first: nat, past: nat, stack: nat)
    requires first <= past
  {
    stack < past - first || stack - (past - first) < Additional(first, stack - (past - first))
  }

  lemma AdditionalSmall(first: nat, mapping: nat)
    ensures Additional(first, mapping) < TABLE_SIZE
  {
    hide CeilLarge;
    var v, p := Distance(first);
    var m, q := Distance(mapping);
  }

  /** Pages `[w, w + past - first)` lie below `stack`, at the same distance from a large page boundary as
      `[first, past)`. */
  ghost predicate WindowAt(w: nat, first: nat, past: nat, stack: nat) {
    w % TABLE_SIZE == first % TABLE_SIZE && w + (past - first) <= stack
  }

  /** The same for the segment `g` that ends with byte `e`. */
  ghost predicate WindowFor(w: nat, e: nat, g: Segment, stack: nat) {
    WindowAt(w, g.start / PAGE_SIZE, (e + 1) / PAGE_SIZE, stack)
  }

  lemma Apart(first: nat, w: nat, t: int, mapping: nat)
    requires w % TABLE_SIZE == first % TABLE_SIZE && w <= mapping < first + TABLE_SIZE * t + TABLE_SIZE
    ensures w <= first + TABLE_SIZE * t
  {
    var u := w / TABLE_SIZE - first / TABLE_SIZE;
    assert w == first + TABLE_SIZE * u;
  }

  /** There is room for a window exactly if some window fits, and the highest that does is taken. */
  lemma HighestWindow(first: nat, past: nat, stack: nat)
    requires first <= past
    ensures NoRoom(first, past, stack) <==> forall w: nat :: !WindowAt(w, first, past, stack)
    ensures !NoRoom(first, past, stack) ==>
              var o := stack - (past - first) - Additional(first, stack - (past - first));
              WindowAt(o, first, past, stack) && forall w: nat :: WindowAt(w, first, past, stack) ==> w <= o
  {
    if stack >= past - first {
      hide Additional;
      var mapping: nat := stack - (past - first);
      AdditionalSmall(first, mapping);
      var t := WholeLargePages(first, mapping);
      forall w: nat | WindowAt(w, first, past, stack) ensures w <= mapping - Additional(first, mapping) {
        Apart(first, w, t, mapping);
      }
      if Additional(first, mapping) <= mapping {
        Congruent(first, mapping);
        assert WindowAt(mapping - Additional(first, mapping), first, past, stack);
      }
    }
  }

  lemma SegmentWindow(e: nat, g: Segment, stack: nat)
    requires g.start <= e
    ensures var first, past := g.start / PAGE_SIZE, (e + 1) / PAGE_SIZE;
            if NoRoom(first, past, stack) then forall w: nat :: !WindowFor(w, e, g, stack)
            else
              var o := stack - (past - first) - Additional(first, stack - (past - first));
              WindowFor(o, e, g, stack) && forall w: nat :: WindowFor(w, e, g, stack) ==> w <= o
  {
    hide NoRoom, Additional, WindowAt;
    HighestWindow(g.start / PAGE_SIZE, (e + 1) / PAGE_SIZE, stack);
  }

  function StackAfter(p: Present, stack: nat): nat {
    if p.origin.Some? then p.origin.value else stack
  }

  /** Where the segment with pages `[first, past)` is placed when guest memory up to `stack` is left. */
  function PlaceOne(first: nat, past: nat, item: Option<OverlayItem>, stack: nat): Option<Present>
    requires first <= past
  {
    if item.None? then Some(Present(first, past, None))
    else if !item.value.context.Kvm? || NoRoom(first, past, stack) then None
    else Some(Present(first, past, Some(stack - (past - first) - Additional(first, stack - (past - first)))))
  }

  /** Where the segments from `upTo` on are placed, if there is room for all of them. */
  function PlaceFrom(ov: OverlayMap, upTo: nat, stack: nat, size: nat): Option<Placement>
    decreases if upTo <= size then size - upTo else 0
  {
    var c := NextKey(ov, upTo);
    if c.None? then Some(Placement([], stack))
    else if c.value >= size || ov[c.value].start > c.value then None
    else
      var p := PlaceOne(ov[c.value].start / PAGE_SIZE, (c.value + 1) / PAGE_SIZE, ov[c.value].item, stack);
      if p.None? then None
      else
        var rest := PlaceFrom(ov, c.value + 1, StackAfter(p.value, stack), size);
        if rest.None? then None else Some(Placement([p.value] + rest.value.present, rest.value.stack))
  }

  /** The placement of all segments is what has been placed and what is still to be placed. */
  ghost predicate Continues(all: Option<Placement>, present: seq<Present>, rest: Option<Placement>) {
    all == if rest.None? then None else Some(Placement(present + rest.value.present, rest.value.stack))
  }

  lemma ContinuesFirst(all: Option<Placement>)
    ensures Continues(all, [], all)
  {
    if all.Some? {
      assert [] + all.value.present == all.value.present;
    }
  }

  lemma ContinuesNext(all: Option<Placement>, present: seq<Present>, ov: OverlayMap, upTo: nat, e: nat, stack: nat, size: nat)
    requires NextKey(ov, upTo) == Some(e) && e < size && ov[e].start <= e && Continues(all, present, PlaceFrom(ov, upTo, stack, size))
    ensures var p := PlaceOne(ov[e].start / PAGE_SIZE, (e + 1) / PAGE_SIZE, ov[e].item, stack);
            if p.None? then all == None
            else Continues(all, present + [p.value], PlaceFrom(ov, e + 1, StackAfter(p.value, stack), size))
  {
    hide PlaceOne;
    var p := PlaceOne(ov[e].start / PAGE_SIZE, (e + 1) / PAGE_SIZE, ov[e].item, stack);
    if p.Some? {
      var rest := PlaceFrom(ov, e + 1, StackAfter(p.value, stack), size);
      if rest.Some? {
        assert present + ([p.value] + rest.value.present) == present + [p.value] + rest.value.present;
      }
    }
  }

  lemma ContinuesLast(all: Option<Placement>, present: seq<Present>, ov: OverlayMap, upTo: nat, stack: nat, size: nat)
    requires NextKey(ov, upTo) == None && Continues(all, present, PlaceFrom(ov, upTo, stack, size))
    ensures all == Some(Placement(present, stack))
  {
    assert present + [] == present;
  }

  /** Places one segment, at the end of what is left of guest memory if it is borrowed. */
  method PlaceSegment(memory: array<Page>, e: nat, g: Segment, stack: nat) returns (r: Option<Present>)
    requires g.start % PAGE_SIZE == 0 && (e + 1) % PAGE_SIZE == 0 && g.start <= e && stack <= memory.Length
    requires FullPages(memory[..])
    modifies memory
    ensures FullPages(memory[..])
    ensures r == PlaceOne(g.start / PAGE_SIZE, (e + 1) / PAGE_SIZE, g.item, stack)
    ensures r.None? <==> g.item.Some? && (!g.item.value.context.Kvm? || forall w: nat :: !WindowFor(w, e, g, stack))
    ensures r.Some? && g.item.Some? ==>
              && r.value.origin.Some? && WindowFor(r.value.origin.value, e, g, stack)
              && forall w: nat :: WindowFor(w, e, g, stack) ==> w <= r.value.origin.value
    ensures r.Some? ==>
              && r.value.first == g.start / PAGE_SIZE && r.value.past == (e + 1) / PAGE_SIZE
              && Filled(memory[..], r.value, g) && InWindow(r.value, StackAfter(r.value, stack), memory.Length)
              && StackAfter(r.value, stack) <= stack
              && (r.value.origin.Some? ==>
                    r.value.origin.value + (r.value.past - r.value.first) <= stack < r.value.origin.value + (r.value.past - r.value.first) + TABLE_SIZE)
              && forall p: nat :: p < memory.Length && !(StackAfter(r.value, stack) <= p < stack) ==> memory[p] == old(memory[p])
  {
    hide SliceAt, WindowFor;
    var first: nat, past: nat := g.start / PAGE_SIZE, (e + 1) / PAGE_SIZE;
    SegmentWindow(e, g, stack);
    if g.item.None? {
      return Some(Present(first, past, None));
    }
    var item := g.item.value;
    var size: nat := past - first;
    if !item.context.Kvm? || stack < size || stack - size < Additional(first, stack - size) {
      return None;
    }
    AdditionalSmall(first, stack - size);
    Congruent(first, stack - size);
    var start: nat := stack - size - Additional(first, stack - size);
    MapWindow(memory, start, size, item.context.storage, item.offset);
    return Some(Present(first, past, Some(start)));
  }

  /** Windows for all borrowed segments, from the end of memory downwards, in the order of the
      segments. The windows are disjoint and aligned like the pages they stand for. */
  method PlaceWindows(ov: OverlayMap, memory: array<Page>) returns (r: Result<Placement>)
    requires WellFormed(ov, memory.Length * PAGE_SIZE) && FullPages(memory[..])
    modifies memory
    ensures FullPages(memory[..])
    ensures r == match PlaceFrom(ov, 0, memory.Length, memory.Length * PAGE_SIZE) case None => Err(Panic) case Some(p) => Ok(p)
    ensures AllKvm(ov) && WindowPages(ov, 0, memory.Length) <= memory.Length ==>
              r.Ok? && r.value.stack + WindowPages(ov, 0, memory.Length) >= memory.Length
    ensures r.Ok? ==> r.value.stack <= memory.Length && Ordered(r.value.present) && Windows(r.value.present, r.value.stack, memory.Length)
    ensures r.Ok? ==> WindowsApart(r.value.present)
    ensures r.Ok? ==> forall page: nat :: PageMatches(r.value.present, ov, memory[..], page, r.value.stack)
    ensures r.Ok? ==> forall p: nat :: p < r.value.stack ==> memory[p] == old(memory[p])
  {
    hide WellFormed, Resolve, Matches, Ordered, Windows, RangesOf, Lookup, InWindow, Filled, PageMatches, SliceAt, Disjoint, PlacedUpTo, FullPages,
      PlaceFrom, PlaceOne, Continues, WindowsApart, StackAfter, AllKvm, WindowPages;
    if AllKvm(ov) && WindowPages(ov, 0, memory.Length) <= memory.Length {
      RoomFrom(ov, 0, memory.Length, memory.Length);
    }
    ghost var size := memory.Length * PAGE_SIZE;
    ghost var all := PlaceFrom(ov, 0, memory.Length, size);
    ContinuesFirst(all);
    var present: seq<Present>, stack: nat, upTo: nat := [], memory.Length, 0;
    NothingPlaced(ov, memory[..]);
    var cursor := NextKey(ov, 0);
    while cursor.Some?
      invariant cursor == NextKey(ov, upTo) && (upTo == 0 || upTo - 1 in ov) && upTo <= memory.Length * PAGE_SIZE
      invariant FullPages(memory[..]) && stack <= memory.Length && PlacedUpTo(present, ov, memory[..], stack, upTo)
      invariant forall p: nat :: p < stack ==> memory[p] == old(memory[p])
      invariant Continues(all, present, PlaceFrom(ov, upTo, stack, size))
      decreases memory.Length * PAGE_SIZE - upTo
    {
      var e: nat := cursor.value;
      SegmentPages(ov, memory.Length * PAGE_SIZE, upTo, e);
      ContinuesNext(all, present, ov, upTo, e, stack, size);
      ghost var was := memory[..];
      var p := PlaceSegment(memory, e, ov[e], stack);
      if p.None? {
        return Err(Panic);
      }
      PlacedStep(present, ov, was, memory[..], stack, StackAfter(p.value, stack), upTo, e, p.value);
      present := present + [p.value];
      stack := StackAfter(p.value, stack);
      upTo := e + 1;
      cursor := NextKey(ov, upTo);
    }
    ContinuesLast(all, present, ov, upTo, stack, size);
    AllPlacedNow(present, ov, memory[..], stack, upTo);
    return Ok(Placement(present, stack));
  }

  lemma AllPlacedNow(present: seq<Present>, ov: OverlayMap, memory: seq<Page>, stack: nat, upTo: nat)
    requires PlacedUpTo(present, ov, memory, stack, upTo) && NextKey(ov, upTo) == None
    ensures Ordered(present) && Windows(present, stack, |memory|) && WindowsApart(present)
    ensures forall page: nat :: PageMatches(present, ov, memory, page, stack)
  {
    hide Ordered, Windows, RangesOf, Lookup, WindowsApart;
    forall page: nat ensures PageMatches(present, ov, memory, page, stack) {
    }
  }

  // ---------------------------------------------------------------- room for all windows

  ghost predicate Borrowed(ov: OverlayMap, page: nat) {
    Resolve(ov, page * PAGE_SIZE).Some? && Resolve(ov, page * PAGE_SIZE).value.Remote?
  }

  /** How many of the pages `[lo, hi)` are borrowed. */
  ghost function BorrowedPages(ov: OverlayMap, lo: nat, hi: nat): nat
    decreases hi - lo
  {
    if lo >= hi then 0 else BorrowedPages(ov, lo + 1, hi) + if Borrowed(ov, lo) then 1 else 0
  }

  /** A borrowed segment ends with this page. */
  ghost predicate EndsBorrowed(ov: OverlayMap, page: nat) {
    (page + 1) * PAGE_SIZE - 1 in ov && ov[(page + 1) * PAGE_SIZE - 1].item.Some?
  }

  /** How many borrowed segments end in the pages `[lo, hi)`. */
  ghost function BorrowedSegments(ov: OverlayMap, lo: nat, hi: nat): nat
    decreases hi - lo
  {
    if lo >= hi then 0 else BorrowedSegments(ov, lo + 1, hi) + if EndsBorrowed(ov, lo) then 1 else 0
  }

  /** The pages that borrowed segments in `[lo, hi)` take at most: their own and what is skipped. */
  ghost function WindowPages(ov: OverlayMap, lo: nat, hi: nat): nat {
    BorrowedPages(ov, lo, hi) + BorrowedSegments(ov, lo, hi) * TABLE_SIZE
  }

  lemma {:induction false} FewerBehind(ov: OverlayMap, lo: nat, mid: nat, hi: nat)
    requires lo <= mid <= hi
    ensures BorrowedPages(ov, lo, hi) >= BorrowedPages(ov, mid, hi) && BorrowedSegments(ov, lo, hi) >= BorrowedSegments(ov, mid, hi)
    ensures (forall p: nat :: lo <= p < mid ==> Borrowed(ov, p)) ==> BorrowedPages(ov, lo, hi) == mid - lo + BorrowedPages(ov, mid, hi)
    ensures lo < mid && EndsBorrowed(ov, mid - 1) ==> BorrowedSegments(ov, lo, hi) >= 1 + BorrowedSegments(ov, mid, hi)
    decreases mid - lo
  {
    hide Borrowed, EndsBorrowed;
    if lo < mid {
      FewerBehind(ov, lo + 1, mid, hi);
    }
  }

  /** What the next segment takes, and what is left for those behind it. */
  lemma NextWindow(ov: OverlayMap, size: nat, upTo: nat, e: nat, pages: nat)
    requires WellFormed(ov, size) && size == pages * PAGE_SIZE && NextKey(ov, upTo) == Some(e) && (upTo == 0 || upTo - 1 in ov)
    ensures var first, past := ov[e].start / PAGE_SIZE, (e + 1) / PAGE_SIZE;
            && upTo / PAGE_SIZE <= first < past <= pages
            && WindowPages(ov, upTo / PAGE_SIZE, pages) >= WindowPages(ov, past, pages) + if ov[e].item.Some? then past - first + TABLE_SIZE else 0
  {
    hide Resolve, BorrowedPages, BorrowedSegments;
    SegmentPages(ov, size, upTo, e);
    var first: nat, past: nat := ov[e].start / PAGE_SIZE, (e + 1) / PAGE_SIZE;
    FewerBehind(ov, upTo / PAGE_SIZE, first, pages);
    FewerBehind(ov, first, past, pages);
    if ov[e].item.Some? {
      forall p: nat | first <= p < past ensures Borrowed(ov, p) {
        assert ov[e].start <= p * PAGE_SIZE <= e;
        ResolveCovered(ov, e, p * PAGE_SIZE);
      }
      assert past * PAGE_SIZE - 1 == e;
    }
  }

  ghost predicate AllKvm(ov: OverlayMap) {
    forall e: nat :: e in ov && ov[e].item.Some? ==> ov[e].item.value.context.Kvm?
  }

  /** With as many pages as the windows take at most, all are placed, and they do not take more. */
  lemma {:induction false} RoomFrom(ov: OverlayMap, upTo: nat, stack: nat, pages: nat)
    requires WellFormed(ov, pages * PAGE_SIZE) && (upTo == 0 || upTo - 1 in ov) && AllKvm(ov) && upTo <= pages * PAGE_SIZE
    requires WindowPages(ov, upTo / PAGE_SIZE, pages) <= stack
    ensures var p := PlaceFrom(ov, upTo, stack, pages * PAGE_SIZE);
            p.Some? && p.value.stack + WindowPages(ov, upTo / PAGE_SIZE, pages) >= stack
    decreases pages * PAGE_SIZE - upTo
  {
    hide WindowPages, WellFormed, PlaceOne, PlaceFrom, StackAfter;
    var c := NextKey(ov, upTo);
    if c.None? {
      NothingLeft(ov, upTo, stack, pages * PAGE_SIZE);
    } else {
      var e := c.value;
      SegmentPages(ov, pages * PAGE_SIZE, upTo, e);
      NextWindow(ov, pages * PAGE_SIZE, upTo, e, pages);
      OneWindow(ov[e].start / PAGE_SIZE, (e + 1) / PAGE_SIZE, ov[e].item, stack);
      var p := PlaceOne(ov[e].start / PAGE_SIZE, (e + 1) / PAGE_SIZE, ov[e].item, stack);
      RoomFrom(ov, e + 1, StackAfter(p.value, stack), pages);
      PlaceStep(ov, upTo, e, stack, pages * PAGE_SIZE);
    }
  }

  lemma NothingLeft(ov: OverlayMap, upTo: nat, stack: nat, size: nat)
    requires NextKey(ov, upTo) == None
    ensures PlaceFrom(ov, upTo, stack, size) == Some(Placement([], stack))
  {
  }

  lemma PlaceStep(ov: OverlayMap, upTo: nat, e: nat, stack: nat, size: nat)
    requires NextKey(ov, upTo) == Some(e) && e < size && ov[e].start <= e
    ensures var p := PlaceOne(ov[e].start / PAGE_SIZE, (e + 1) / PAGE_SIZE, ov[e].item, stack);
            p.Some? ==>
              var rest := PlaceFrom(ov, e + 1, StackAfter(p.value, stack), size);
              PlaceFrom(ov, upTo, stack, size) == if rest.None? then None else Some(Placement([p.value] + rest.value.present, rest.value.stack))
  {
    hide PlaceOne, StackAfter;
  }

  /** A window takes at most the pages of its segment and a large page. */
  lemma OneWindow(first: nat, past: nat, item: Option<OverlayItem>, stack: nat)
    requires first <= past && (item.Some? ==> item.value.context.Kvm? && past - first + TABLE_SIZE <= stack)
    ensures PlaceOne(first, past, item, stack).Some?
    ensures var left := StackAfter(PlaceOne(first, past, item, stack).value, stack);
            left + (if item.Some? then past - first + TABLE_SIZE else 0) >= stack
  {
    hide Additional;
    if item.Some? {
      AdditionalSmall(first, stack - (past - first));
    }
  }

  /** No data lies at or behind page `end`. */
  ghost predicate EndsBelow(ov: OverlayMap, end: nat) {
    forall a: nat :: Resolve(ov, a).Some? ==> a / PAGE_SIZE < end
  }

  lemma {:induction false} PresentEnds(ov: OverlayMap, upTo: nat, stack: nat, size: nat, end: nat)
    requires Disjoint(ov) && EndsBelow(ov, end) && PlaceFrom(ov, upTo, stack, size).Some?
    ensures PastPresent(PlaceFrom(ov, upTo, stack, size).value.present) <= end
    decreases if upTo <= size then size - upTo else 0
  {
    hide PlaceOne, Resolve;
    var c := NextKey(ov, upTo);
    if c.Some? {
      var e := c.value;
      ResolveCovered(ov, e, e);
      var p := PlaceOne(ov[e].start / PAGE_SIZE, (e + 1) / PAGE_SIZE, ov[e].item, stack).value;
      PlacedPages(ov[e].start / PAGE_SIZE, (e + 1) / PAGE_SIZE, ov[e].item, stack);
      PresentEnds(ov, e + 1, StackAfter(p, stack), size, end);
    }
  }

  lemma PlacedPages(first: nat, past: nat, item: Option<OverlayItem>, stack: nat)
    requires first <= past && PlaceOne(first, past, item, stack).Some?
    ensures PlaceOne(first, past, item, stack).value.first == first && PlaceOne(first, past, item, stack).value.past == past
  {
  }

  /** Data ends at page `end`, and behind it there is room for all windows, the handlers, the page tables
      and the large page of the stack. */
  ghost predicate Roomy(ov: OverlayMap, handlers: nat, pages: nat, end: nat) {
    && pages < 0x800_0000 && AllKvm(ov) && Resolve(ov, 0) == None && EndsBelow(ov, end)
    && end + BorrowedPages(ov, 0, pages) + BorrowedSegments(ov, 0, pages) * TABLE_SIZE
       + handlers + 2 + (pages / (TABLE_SIZE * TABLE_SIZE) + 1) * (TABLE_SIZE + 1) + TABLE_SIZE <= pages
  }

  lemma AnyRoom(ov: OverlayMap, handlers: nat, pages: nat)
    requires WellFormed(ov, pages * PAGE_SIZE)
    ensures forall end: nat :: Roomy(ov, handlers, pages, end) ==> Startable(ov, handlers, pages)
  {
    hide WellFormed, Roomy, Startable;
    forall end: nat | Roomy(ov, handlers, pages, end) ensures Startable(ov, handlers, pages) {
      RoomyStarts(ov, handlers, pages, end);
    }
  }

  /** With enough room a guest can be started, and its stack base is as high as the room allows. */
  lemma RoomyStarts(ov: OverlayMap, handlers: nat, pages: nat, end: nat)
    requires WellFormed(ov, pages * PAGE_SIZE) && Roomy(ov, handlers, pages, end)
    ensures Startable(ov, handlers, pages)
    ensures StackBase(ov, handlers, pages) + BorrowedPages(ov, 0, pages) + BorrowedSegments(ov, 0, pages) * TABLE_SIZE
            + handlers + 2 + (pages / (TABLE_SIZE * TABLE_SIZE) + 1) * (TABLE_SIZE + 1) >= pages
  {
    hide Resolve, PlaceFrom, BorrowedPages, BorrowedSegments, Disjoint;
    RoomFrom(ov, 0, pages, pages);
    var p := PlaceFrom(ov, 0, pages, pages * PAGE_SIZE).value;
    PresentEnds(ov, 0, pages, pages * PAGE_SIZE, end);
    FirstData(ov, pages, pages * PAGE_SIZE);
    TablesEnough(pages, p.stack - handlers);
  }

  lemma TablesEnough(pages: nat, stackStart: int)
    requires stackStart >= 0
    ensures TablesFor(pages) <= pages / (TABLE_SIZE * TABLE_SIZE) + 1
    ensures TableBase(stackStart, TablesFor(pages)) >= stackStart - 2 - (pages / (TABLE_SIZE * TABLE_SIZE) + 1) * (TABLE_SIZE + 1)
    ensures TableBase(stackStart, TablesFor(pages)) >= 0 ==> FloorLarge(TableBase(stackStart, TablesFor(pages))) + TABLE_SIZE > TableBase(stackStart, TablesFor(pages))
  {
  }

  lemma FirstData(ov: OverlayMap, stack: nat, size: nat)
    requires Disjoint(ov) && Aligned(ov) && Resolve(ov, 0) == None && PlaceFrom(ov, 0, stack, size).Some?
    ensures var present := PlaceFrom(ov, 0, stack, size).value.present; present != [] ==> present[0].first != 0
  {
    hide PlaceOne;
    var c := NextKey(ov, 0);
    if c.Some? {
      PlacedPages(ov[c.value].start / PAGE_SIZE, (c.value + 1) / PAGE_SIZE, ov[c.value].item, stack);
    }
  }

  // ---------------------------------------------------------------- what the guest sees

  ghost predicate ByteSeen(content: Page, ini: Context, a: nat) {
    a % PAGE_SIZE < |content| && content[a % PAGE_SIZE] == if ByteAt(ini, a).Some? then ByteAt(ini, a).value else 0
  }

  /** The addresses of a page resolve together. */
  lemma PageShift(ov: OverlayMap, page: nat, a: nat)
    requires Disjoint(ov) && Aligned(ov) && a / PAGE_SIZE == page
    ensures match Resolve(ov, page * PAGE_SIZE)
            case None => Resolve(ov, a) == None
            case Some(Local) => Resolve(ov, a) == Some(Local)
            case Some(Remote(c, o)) => Resolve(ov, a) == Some(Remote(c, o + a % PAGE_SIZE))
  {
    hide Resolve, Disjoint;
    var e := Find(ov, page * PAGE_SIZE);
    assert RoundDown(a) == page * PAGE_SIZE == RoundDown(page * PAGE_SIZE);
    if e.Some? {
      PageInside(ov[e.value].start, e.value + 1, page * PAGE_SIZE, a);
      ResolveCovered(ov, e.value, a);
    } else {
      PageUncovered(ov, page * PAGE_SIZE, a);
    }
  }

  lemma BorrowedInside(ini: Context, a: nat, c: Context, o: nat)
    requires ini.Kvm? && NoChains(ini.overlay) && Resolve(ini.overlay, a) == Some(Remote(c, o))
    ensures c.Kvm? && o < |c.storage|
  {
    assert Direct(Resolve(ini.overlay, a).value, a);
  }

  /** A page that is mapped as the overlay resolves it shows the bytes of the context. */
  lemma SeenByte(ini: Context, m: Option<Mapping>, memory: seq<Page>, page: nat, stack: nat, a: nat)
    requires ini.Kvm? && WellFormed(ini.overlay, |ini.storage|) && NoChains(ini.overlay)
    requires Matches(m, Resolve(ini.overlay, page * PAGE_SIZE), memory, page, stack) && a / PAGE_SIZE == page
    requires page < |memory| && (page + 1) * PAGE_SIZE <= |ini.storage| && memory[page] == SliceAt(ini.storage, page * PAGE_SIZE)
    ensures ByteSeen(Content(memory, m), ini, a)
  {
    hide Resolve, NoChains, Disjoint, ByteAt, SliceAt, ZeroPage;
    PageShift(ini.overlay, page, a);
    ByteAtKvm(ini, a);
    if Resolve(ini.overlay, a).Some? {
      BorrowedByte(ini, a);
    }
    match Resolve(ini.overlay, page * PAGE_SIZE)
    case None =>
      assert m == None && Content(memory, m) == ZeroPage();
    case Some(Local) =>
      assert a == page * PAGE_SIZE + a % PAGE_SIZE;
      SliceByte(ini.storage, page * PAGE_SIZE, a % PAGE_SIZE);
    case Some(Remote(c, o)) =>
      var last: nat := page * PAGE_SIZE + PAGE_SIZE - 1;
      PageShift(ini.overlay, page, last);
      BorrowedInside(ini, last, c, o + last % PAGE_SIZE);
      SliceByte(c.storage, o, a % PAGE_SIZE);
  }

  lemma SliceByte(storage: seq<byte>, offset: nat, i: nat)
    requires offset + PAGE_SIZE <= |storage| && i < PAGE_SIZE
    ensures SliceAt(storage, offset)[i] == storage[offset + i]
  {
  }

  lemma SystemLookup(ranges: seq<Range>, base: nat, i0: nat, i1: nat, pages: nat, page: nat)
    requires base <= i0 <= i1 <= pages
    ensures Lookup(ranges + SystemRanges(base, i0, i1, pages), page) ==
            if i1 <= page < pages then Some(Mapping(page, false, false))
            else if base <= page < i1 then Some(Mapping(page, true, false))
            else if FloorLarge(base) <= page < base then Some(Mapping(page, true, true))
            else Lookup(ranges, page)
  {
    hide Lookup;
    var s := SystemRanges(base, i0, i1, pages);
    assert ranges + s == ranges + [s[0]] + [s[1]] + [s[2]] + [s[3]];
    LookupAdded(ranges, s[0], page);
    LookupAdded(ranges + [s[0]], s[1], page);
    LookupAdded(ranges + [s[0]] + [s[1]], s[2], page);
    LookupAdded(ranges + [s[0]] + [s[1]] + [s[2]], s[3], page);
  }

  /** Local pages are mapped to themselves. */
  ghost predicate LocalsMapped(ov: OverlayMap, t: seq<Paging.Entry>, base: nat) {
    forall page: nat :: page < base && Resolve(ov, page * PAGE_SIZE) == Some(Local) ==> View(t, page) == Some(Mapping(page, true, true))
  }

  /** All data lies below page `end`. */
  ghost predicate DataBelow(ov: OverlayMap, end: nat) {
    forall page: nat :: page >= end ==> Resolve(ov, page * PAGE_SIZE) == None
  }

  /** The guest can read and write the stack, which reaches from a large page boundary to `base` and is
      zero. */
  ghost predicate StackReady(t: seq<Paging.Entry>, memory: seq<Page>, base: nat) {
    forall page: nat :: base / TABLE_SIZE * TABLE_SIZE <= page < base && page < |memory| ==> View(t, page) == Some(Mapping(page, true, true)) && memory[page] == ZeroPage()
  }

  lemma StackIsReady(t: seq<Paging.Entry>, tables: nat, present: seq<Present>, ov: OverlayMap, memory: seq<Page>, base: nat, i0: nat, stack: nat)
    requires base <= i0 <= stack <= |memory|
    requires Closed(t, base, tables, RangesOf(present) + SystemRanges(base, i0, stack, |memory|), |memory|)
    requires PastPresent(present) <= FloorLarge(base) && Ordered(present)
    requires forall page: nat :: PageMatches(present, ov, memory, page, stack)
    requires forall p: nat :: FloorLarge(base) <= p < base ==> memory[p] == ZeroPage()
    ensures DataBelow(ov, base / TABLE_SIZE * TABLE_SIZE) && StackReady(t, memory, base)
  {
    hide View, Lookup, RangesOf, SystemRanges, Resolve, SliceAt, Built, Ordered, ZeroPage;
    forall page: nat | page >= FloorLarge(base) ensures Resolve(ov, page * PAGE_SIZE) == None {
      assert PageMatches(present, ov, memory, page, stack);
      NothingPresent(present, page);
    }
    forall page: nat | FloorLarge(base) <= page < base ensures View(t, page) == Some(Mapping(page, true, true)) {
      SystemLookup(RangesOf(present), base, i0, stack, |memory|, page);
      assert Agrees(t, RangesOf(present) + SystemRanges(base, i0, stack, |memory|), page);
    }
  }

  /** The tables of a new guest are as its handler needs them. */
  lemma GuestPlaced(t: seq<Paging.Entry>, tables: nat, present: seq<Present>, ov: OverlayMap, memory: seq<Page>, base: nat, i0: nat, stack: nat)
    requires base <= i0 <= stack <= |memory|
    requires Closed(t, base, tables, RangesOf(present) + SystemRanges(base, i0, stack, |memory|), |memory|)
    requires PastPresent(present) <= FloorLarge(base) && Ordered(present)
    requires forall page: nat :: PageMatches(present, ov, memory, page, stack)
    ensures AllPlaced(t, base, stack, |memory|) && AllSystem(t, base, |memory|) && LocalsMapped(ov, t, base)
  {
    hide View, Lookup, RangesOf, SystemRanges, Resolve, SliceAt, Built, FloorLarge, Ordered;
    forall page: nat | page < base
      ensures Placed(View(t, page), page, stack, |memory|) && (Resolve(ov, page * PAGE_SIZE) == Some(Local) ==> View(t, page) == Some(Mapping(page, true, true)))
    {
      SystemLookup(RangesOf(present), base, i0, stack, |memory|, page);
      assert Agrees(t, RangesOf(present) + SystemRanges(base, i0, stack, |memory|), page);
      assert PageMatches(present, ov, memory, page, stack);
    }
    FloorBelow(base);
    forall page: nat | page >= base ensures SystemPage(View(t, page), page, |memory|) {
      SystemLookup(RangesOf(present), base, i0, stack, |memory|, page);
      assert Agrees(t, RangesOf(present) + SystemRanges(base, i0, stack, |memory|), page);
      NothingPresent(present, page);
    }
  }

  lemma {:induction false} NothingPresent(present: seq<Present>, page: nat)
    requires Ordered(present) && page >= PastPresent(present)
    ensures Lookup(RangesOf(present), page) == None
  {
    if present != [] {
      var n := |present| - 1;
      assert present == present[..n] + [present[n]];
      AddedLookup(present[..n], present[n], page);
      assert n > 0 ==> present[n - 1].past <= present[n].first;
      NothingPresent(present[..n], page);
    }
  }

  /** Below its stack start the guest sees exactly the bytes of the context, and zeros where the
      context has none. */
  ghost predicate Sees(contents: seq<Page>, ini: Context, base: nat) {
    |contents| == base && forall a: nat :: a / PAGE_SIZE < base ==> ByteSeen(contents[a / PAGE_SIZE], ini, a)
  }

  lemma GuestSees(ini: Context, t: seq<Paging.Entry>, tables: nat, present: seq<Present>, was: seq<Page>, memory: seq<Page>, base: nat, i0: nat, stack: nat)
    requires ini.Kvm? && WellFormed(ini.overlay, |ini.storage|) && NoChains(ini.overlay)
    requires base <= i0 <= stack <= |memory| == |was| && |ini.storage| == |memory| * PAGE_SIZE
    requires Closed(t, base, tables, RangesOf(present) + SystemRanges(base, i0, stack, |memory|), |memory|)
    requires PastPresent(present) <= FloorLarge(base) && Ordered(present)
    requires forall page: nat :: PageMatches(present, ini.overlay, was, page, stack)
    requires forall p: nat :: p < base ==> was[p] == SliceAt(ini.storage, p * PAGE_SIZE)
    requires forall p: nat :: p < base || p >= stack ==> p < |memory| ==> memory[p] == if FloorLarge(base) <= p < base then ZeroPage() else was[p]
    ensures Sees(Contents(memory, t, base), ini, base)
  {
    hide View, Lookup, RangesOf, SystemRanges, Resolve, SliceAt, Built, FloorLarge, Ordered, WellFormed, NoChains, ByteAt, Matches;
    FloorBelow(base);
    forall a: nat | a / PAGE_SIZE < base ensures ByteSeen(Contents(memory, t, base)[a / PAGE_SIZE], ini, a) {
      var page: nat := a / PAGE_SIZE;
      SystemLookup(RangesOf(present), base, i0, stack, |memory|, page);
      assert Agrees(t, RangesOf(present) + SystemRanges(base, i0, stack, |memory|), page);
      assert PageMatches(present, ini.overlay, was, page, stack);
      SeenByte(ini, Lookup(RangesOf(present), page), was, page, stack, a);
      if FloorLarge(base) <= page {
        NothingPresent(present, page);
      } else {
        SameContent(Lookup(RangesOf(present), page), Resolve(ini.overlay, page * PAGE_SIZE), was, memory, page, stack);
      }
    }
  }

  lemma SameContent(m: Option<Mapping>, place: Option<Place>, was: seq<Page>, memory: seq<Page>, page: nat, stack: nat)
    requires Matches(m, place, was, page, stack) && |memory| == |was| && page < |was| && memory[page] == was[page]
    requires forall p: nat :: stack <= p < |memory| ==> memory[p] == was[p]
    ensures Content(memory, m) == Content(was, m)
  {
    hide SliceAt;
  }

  /** Copies the interrupt handlers and their tables to the pages from `start` on. */
  method SetInterruptTable(memory: array<Page>, start: nat, handlers: seq<Page>)
    requires start + |handlers| <= memory.Length && FullPages(memory[..]) && FullPages(handlers)
    modifies memory
    ensures FullPages(memory[..])
    ensures forall p: nat :: p < memory.Length && !(start <= p < start + |handlers|) ==> memory[p] == old(memory[p])
  {
    var j: nat := 0;
    while j < |handlers|
      invariant j <= |handlers| && FullPages(memory[..])
      invariant forall p: nat :: p < memory.Length && !(start <= p < start + |handlers|) ==> memory[p] == old(memory[p])
    {
      memory[start + j] := handlers[j];
      j := j + 1;
    }
  }

  lemma StillMatches(present: seq<Present>, ov: OverlayMap, was: seq<Page>, memory: seq<Page>, stack: nat)
    requires |memory| == |was| && forall k: nat :: stack <= k < |memory| ==> memory[k] == was[k]
    requires forall page: nat :: PageMatches(present, ov, was, page, stack)
    ensures forall page: nat :: PageMatches(present, ov, memory, page, stack)
  {
    hide Resolve, Lookup, RangesOf, Matches;
    forall page: nat ensures PageMatches(present, ov, memory, page, stack) {
      assert PageMatches(present, ov, was, page, stack);
      KeptMatches(Lookup(RangesOf(present), page), Resolve(ov, page * PAGE_SIZE), was, memory, page, stack, stack);
    }
  }

  /** There is room for windows, handlers and tables behind the data of a context. */
  predicate Startable(ov: OverlayMap, handlers: nat, pages: nat) {
    match PlaceFrom(ov, 0, pages, pages * PAGE_SIZE)
    case None => false
    case Some(p) => handlers <= p.stack && Fits(p.present, p.stack - handlers, pages)
  }

  /** Where the stack ends and the page tables of the guest begin. */
  function StackBase(ov: OverlayMap, handlers: nat, pages: nat): nat
    requires Startable(ov, handlers, pages)
  {
    TableBase(PlaceFrom(ov, 0, pages, pages * PAGE_SIZE).value.stack - handlers, TablesFor(pages))
  }

  /** A guest on the pages of a KVM context. It starts out valid for its fault handler and sees the
      bytes of the context, borrowed ones included. */
  method StartGuest(memory: array<Page>, ini: Context, handlers: seq<Page>) returns (r: Result<Guest>)
    requires ini.Kvm? && WellFormed(ini.overlay, |ini.storage|) && NoChains(ini.overlay) && FullPages(handlers)
    requires |ini.storage| == memory.Length * PAGE_SIZE
    requires forall p: nat :: p < memory.Length ==> memory[p] == SliceAt(ini.storage, p * PAGE_SIZE)
    modifies memory
    ensures r.Ok? <==> Startable(ini.overlay, |handlers|, memory.Length)
    ensures forall end: nat :: Roomy(ini.overlay, |handlers|, memory.Length, end) ==> r.Ok?
    ensures r.Ok? ==> DataBelow(ini.overlay, r.value.base / TABLE_SIZE * TABLE_SIZE) && StackReady(r.value.low[..], memory[..], r.value.base)
    ensures r.Ok? ==>
              r.value.base + 2 + (memory.Length + TABLE_SIZE * TABLE_SIZE - 1) / (TABLE_SIZE * TABLE_SIZE) * (TABLE_SIZE + 1) + |handlers| == r.value.top
    ensures r.Ok? ==> fresh(r.value) && fresh(r.value.low) && fresh(r.value.p3) && r.value.memory == memory && r.value.Valid()
    ensures r.Ok? ==> r.value.base == StackBase(ini.overlay, |handlers|, memory.Length) && LocalsMapped(ini.overlay, r.value.low[..], r.value.base)
    ensures r.Ok? ==> Sees(Contents(memory[..], r.value.low[..], r.value.base), ini, r.value.base)
  {
    hide WellFormed, NoChains, Resolve, Ordered, Windows, RangesOf, PageMatches, SliceAt, Contents, Closed, WalksAs,
      Sees, SystemRanges, AllPlaced, AllSystem, TablesFor, FloorLarge, ZeroPage, Tidy, Wired, PlaceFrom, WindowsApart, Fits, LocalsMapped, DataBelow, Roomy, StackReady, AllKvm, WindowPages, TableBase, PastPresent, PlaceOne;
    assert FullPages(memory[..]);
    AnyRoom(ini.overlay, |handlers|, memory.Length);
    var placed := PlaceWindows(ini.overlay, memory);
    if placed.Err? {
      return Err(placed.error);
    }
    var present, stack: nat := placed.value.present, placed.value.stack;
    if stack < |handlers| {
      return Err(Panic);
    }
    ghost var atWindows := memory[..];
    SetInterruptTable(memory, stack - |handlers|, handlers);
    StillMatches(present, ini.overlay, atWindows, memory[..], stack);
    var tables: nat := TablesFor(memory.Length);
    var p4, p3, low := new Paging.Entry[TABLE_SIZE], new Paging.Entry[TABLE_SIZE], new Paging.Entry[tables * (TABLE_SIZE + 1) * TABLE_SIZE];
    ghost var was := memory[..];
    var built := SetPageTable(memory, p4, p3, low, present, stack - |handlers|, stack);
    if built.Err? {
      return Err(built.error);
    }
    var base: nat := built.value;
    FitsBelow(present, stack - |handlers|, memory.Length);
    BaseIs(stack - |handlers|, memory.Length, base);
    RoundTables(memory.Length);
    FloorBelow(base);
    StillMatches(present, ini.overlay, was, memory[..], stack);
    GuestPlaced(low[..], tables, present, ini.overlay, memory[..], base, stack - |handlers|, stack);
    StackIsReady(low[..], tables, present, ini.overlay, memory[..], base, stack - |handlers|, stack);
    GuestSees(ini, low[..], tables, present, was, memory[..], base, stack - |handlers|, stack);
    ClosedTidy(low[..], base, tables, RangesOf(present) + SystemRanges(base, stack - |handlers|, stack, memory.Length), memory.Length);
    var guest := new Guest(memory, p3, low, base, stack, tables);
    return Ok(guest);
  }

  lemma BaseIs(stackStart: nat, pages: nat, base: nat)
    requires base == TableBase(stackStart, TablesFor(pages))
    ensures base + 2 + (pages + TABLE_SIZE * TABLE_SIZE - 1) / (TABLE_SIZE * TABLE_SIZE) * (TABLE_SIZE + 1) == stackStart
    ensures FloorLarge(base) == base / TABLE_SIZE * TABLE_SIZE
  {
  }

  lemma FitsBelow(present: seq<Present>, stackStart: nat, pages: nat)
    requires Fits(present, stackStart, pages)
    ensures var base := TableBase(stackStart, TablesFor(pages)); 0 <= base <= stackStart && PastPresent(present) <= FloorLarge(base)
  {
  }

  lemma ClosedTidy(t: seq<Paging.Entry>, base: nat, tables: nat, ranges: seq<Range>, next: nat)
    requires Closed(t, base, tables, ranges, next)
    ensures Tidy(t, base, tables)
  {
  }
}
