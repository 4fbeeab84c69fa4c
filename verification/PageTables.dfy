/** The four-level page tables that a guest starts with. */
module PageTables {
  import opened Common
  import opened Paging
  import opened Guests

  /** The tables in guest memory and the frames they are in. */
  datatype Tables = Tables(p4: seq<Entry>, p3: seq<Entry>, low: seq<Entry>, base: nat, p3Frame: nat, p4Frame: nat)

  /** Entry `i` of the table in a frame. */
  function EntryAt(t: Tables, frame: nat, i: nat): Entry {
    if frame == t.p4Frame then At(t.p4, i)
    else if frame == t.p3Frame then At(t.p3, i)
    else if frame >= t.base then At(t.low, (frame - t.base) * TABLE_SIZE + i)
    else ABSENT
  }

  function Step(t: Tables, frame: nat, page: nat, span: nat): Entry
    requires span > 0
  {
    EntryAt(t, frame, page / span % TABLE_SIZE)
  }

  /** Four-level translation from the root table in frame `root`: rights are those granted on every level. */
  function Walk(t: Tables, root: nat, page: nat): Option<Mapping> {
    var e4 := Step(t, root, page, TABLE_SIZE * TABLE_SIZE * TABLE_SIZE);
    if !e4.present then None
    else
      var e3 := Step(t, e4.frame, page, TABLE_SIZE * TABLE_SIZE);
      if !e3.present then None
      else
        var low := if e3.large then Some(Mapping(e3.frame / (TABLE_SIZE * TABLE_SIZE) * (TABLE_SIZE * TABLE_SIZE) + page % (TABLE_SIZE * TABLE_SIZE), e3.writable, e3.user))
                   else var e2 := Step(t, e3.frame, page, TABLE_SIZE); Translate(e2, Step(t, e2.frame, page, 1), page % TABLE_SIZE);
        if low.None? then None
        else Some(Mapping(low.value.frame, e4.writable && e3.writable && low.value.writable, e4.user && e3.user && low.value.user))
  }

  ghost predicate Rooted(t: Tables, tables: nat) {
    && |t.p4| == TABLE_SIZE && t.p4Frame == t.p3Frame + 1 && t.p3Frame == t.base + tables * (TABLE_SIZE + 1)
    && t.p4[0] == Entry(t.p3Frame, true, true, true, false)
    && (forall i: nat :: 0 < i < TABLE_SIZE ==> t.p4[i] == ABSENT)
    && Wired(t.p3, t.base, tables)
  }

  lemma P3Slot(page: nat, tables: nat)
    requires page < tables * TABLE_SIZE * TABLE_SIZE && tables <= TABLE_SIZE
    ensures page / (TABLE_SIZE * TABLE_SIZE * TABLE_SIZE) == 0
    ensures page / (TABLE_SIZE * TABLE_SIZE) % TABLE_SIZE == page / (TABLE_SIZE * TABLE_SIZE) < tables
  {
  }

  lemma TableFrames(t: Tables, tables: nat, page: nat)
    requires Rooted(t, tables) && page < tables * TABLE_SIZE * TABLE_SIZE
    ensures var j := page / (TABLE_SIZE * TABLE_SIZE);
            && EntryAt(t, t.base + j * (TABLE_SIZE + 1), page / TABLE_SIZE % TABLE_SIZE) == At(t.low, P2Slot(page / TABLE_SIZE))
            && EntryAt(t, t.base + P1Slot(page / TABLE_SIZE) / TABLE_SIZE, page % TABLE_SIZE) == At(t.low, P1Slot(page / TABLE_SIZE) + page % TABLE_SIZE)
  {
    hide Wired;
    WiredSize(t.p3, t.base, tables);
    P3Slot(page, tables);
    LargeInside(page, tables);
    SlotsInside(page / TABLE_SIZE, tables);
    hide At;
    var j: nat, large: nat := page / (TABLE_SIZE * TABLE_SIZE), page / TABLE_SIZE;
    assert j == large / TABLE_SIZE;
    assert (j * (TABLE_SIZE + 1)) * TABLE_SIZE + large % TABLE_SIZE == P2Slot(large);
    assert P1Slot(large) / TABLE_SIZE * TABLE_SIZE == P1Slot(large);
    assert P1Slot(large) / TABLE_SIZE < tables * (TABLE_SIZE + 1);
  }

  /** Walking from the root is the view of the p2 and p1 tables. */
  lemma WalkIsView(t: Tables, tables: nat, page: nat)
    requires Rooted(t, tables) && Tidy(t.low, t.base, tables) && page < TABLE_SIZE * TABLE_SIZE * TABLE_SIZE * TABLE_SIZE
    ensures Walk(t, t.p4Frame, page) == if page < tables * TABLE_SIZE * TABLE_SIZE then View(t.low, page) else None
  {
    if page < tables * TABLE_SIZE * TABLE_SIZE {
      WalkInside(t, tables, page);
    } else {
      WalkOutside(t, tables, page);
    }
  }

  lemma WalkInside(t: Tables, tables: nat, page: nat)
    requires Rooted(t, tables) && Tidy(t.low, t.base, tables) && page < tables * TABLE_SIZE * TABLE_SIZE
    ensures Walk(t, t.p4Frame, page) == View(t.low, page)
  {
    hide P1Slot, P2Slot, Tidy, Wired;
    WiredSize(t.p3, t.base, tables);
    P3Slot(page, tables);
    TableFrames(t, tables, page);
    WiredAt(t.p3, t.base, tables, page / (TABLE_SIZE * TABLE_SIZE));
    ViewCases(t.low, t.base, tables, page);
  }

  lemma WalkOutside(t: Tables, tables: nat, page: nat)
    requires Rooted(t, tables) && tables * TABLE_SIZE * TABLE_SIZE <= page < TABLE_SIZE * TABLE_SIZE * TABLE_SIZE * TABLE_SIZE
    ensures Walk(t, t.p4Frame, page) == None
  {
    hide Wired, Translate;
    WiredSize(t.p3, t.base, tables);
    var i: nat, j: nat := page / (TABLE_SIZE * TABLE_SIZE * TABLE_SIZE), page / (TABLE_SIZE * TABLE_SIZE);
    assert i < TABLE_SIZE && tables <= j;
    if i == 0 {
      assert j < TABLE_SIZE;
      WiredAt(t.p3, t.base, tables, j);
    } else {
      assert t.p4[i] == ABSENT;
    }
  }

  lemma WiredAt(p3: seq<Entry>, base: nat, tables: nat, j: nat)
    requires Wired(p3, base, tables) && j < TABLE_SIZE
    ensures |p3| == TABLE_SIZE && p3[j] == if j < tables then Entry(base + j * (TABLE_SIZE + 1), true, true, true, false) else ABSENT
  {
  }

  // ---------------------------------------------------------------- building the tables

  /** Pages that hold data when the guest starts, in place or in a copy-on-write window. */
  datatype Present = Present(first: nat, past: nat, origin: Option<nat>)

  function RangeOf(p: Present): Range {
    match p.origin
    case Some(frame) => Range(p.first, p.past, frame, false, true)
    case None => Range(p.first, p.past, p.first, true, true)
  }

  function RangesOf(present: seq<Present>): (r: seq<Range>)
    ensures |r| == |present| && forall i: nat :: i < |r| ==> r[i] == RangeOf(present[i])
  {
    seq(|present|, i requires 0 <= i < |present| => RangeOf(present[i]))
  }

  lemma RangesOfNext(present: seq<Present>, i: nat)
    requires i < |present|
    ensures RangesOf(present[..i + 1]) == RangesOf(present[..i]) + [RangeOf(present[i])]
  {
    hide RangeOf;
  }

  ghost predicate Ordered(present: seq<Present>) {
    && (forall i: nat :: i < |present| ==> present[i].first < present[i].past)
    && (forall i: nat :: i + 1 < |present| ==> present[i].past <= present[i + 1].first)
  }

  /** Windows lie in `[top, pages)`, at the same distance from a large page boundary as the pages
      they are mapped to. */
  ghost predicate InWindow(p: Present, top: nat, pages: nat) {
    p.origin.Some? ==>
      && top <= p.origin.value && p.origin.value + (p.past - p.first) <= pages
      && p.origin.value % TABLE_SIZE == p.first % TABLE_SIZE
  }

  ghost predicate Windows(present: seq<Present>, top: nat, pages: nat) {
    forall i: nat :: i < |present| ==> InWindow(present[i], top, pages)
  }

  function FloorLarge(page: nat): nat {
    page / TABLE_SIZE * TABLE_SIZE
  }

  /** Stack, page tables, interrupt handlers, and the windows at their own addresses. */
  function SystemRanges(base: nat, interruptStart: nat, interruptEnd: nat, pages: nat): seq<Range> {
    [Range(FloorLarge(base), base, FloorLarge(base), true, true),
     Range(base, interruptStart, base, true, false),
     Range(interruptStart, interruptEnd, interruptStart, true, false),
     Range(interruptEnd, pages, interruptEnd, false, false)]
  }

  lemma P2Cleared(t: seq<Entry>, j: nat, tables: nat)
    requires |t| == tables * (TABLE_SIZE + 1) * TABLE_SIZE && j < tables
    requires forall large: nat :: large < j * TABLE_SIZE ==> At(t, P2Slot(large)) == ABSENT
    ensures var start := j * (TABLE_SIZE + 1) * TABLE_SIZE;
            && start + TABLE_SIZE <= |t|
            && forall large: nat :: large < (j + 1) * TABLE_SIZE ==> At(Cleared(t, start, start + TABLE_SIZE), P2Slot(large)) == ABSENT
  {
    hide Cleared, P2Slot;
    var start: nat := j * (TABLE_SIZE + 1) * TABLE_SIZE;
    assert start + TABLE_SIZE <= |t|;
    forall large: nat | large < (j + 1) * TABLE_SIZE ensures At(Cleared(t, start, start + TABLE_SIZE), P2Slot(large)) == ABSENT {
      P2InBlock(large, j);
    }
  }

  lemma P2InBlock(large: nat, j: nat)
    requires large < (j + 1) * TABLE_SIZE
    ensures large >= j * TABLE_SIZE ==> j * (TABLE_SIZE + 1) * TABLE_SIZE <= P2Slot(large) < j * (TABLE_SIZE + 1) * TABLE_SIZE + TABLE_SIZE
  {
  }

  lemma P2Beyond(large: nat, tables: nat)
    requires large >= tables * TABLE_SIZE
    ensures P2Slot(large) >= tables * (TABLE_SIZE + 1) * TABLE_SIZE
  {
    assert large / TABLE_SIZE >= tables;
  }

  /** With all p2 entries absent no page is mapped, whatever the p1 tables hold. */
  lemma NothingMapped(t: seq<Entry>, base: nat, tables: nat)
    requires |t| == tables * (TABLE_SIZE + 1) * TABLE_SIZE
    requires forall large: nat :: large < tables * TABLE_SIZE ==> At(t, P2Slot(large)) == ABSENT
    ensures Closed(t, base, tables, [], 0)
  {
    hide P1Slot, P2Slot;
    forall large: nat ensures Free(t, large) && TidyAt(t, base, large) {
      if large >= tables * TABLE_SIZE {
        P2Beyond(large, tables);
      }
    }
    forall page: nat ensures Agrees(t, [], page) {
      assert Free(t, page / TABLE_SIZE);
    }
  }

  /** Root tables, and empty p2 tables. */
  method WireTables(p4: array<Entry>, p3: array<Entry>, low: array<Entry>, base: nat, tables: nat)
    requires p4.Length == TABLE_SIZE && p3.Length == TABLE_SIZE && tables <= TABLE_SIZE
    requires low.Length == tables * (TABLE_SIZE + 1) * TABLE_SIZE && p4 != p3 && p4 != low && p3 != low
    modifies p4, p3, low
    ensures var p3Frame := base + tables * (TABLE_SIZE + 1);
            Rooted(Tables(p4[..], p3[..], low[..], base, p3Frame, p3Frame + 1), tables)
    ensures Closed(low[..], base, tables, [], 0)
  {
    hide Closed, P2Slot, At, Cleared;
    Clear(p4, 0, TABLE_SIZE);
    p4[0] := Entry(base + tables * (TABLE_SIZE + 1), true, true, true, false);
    var j: nat, p2Frame: nat := 0, base;
    while j < tables
      invariant j <= tables && p2Frame == base + j * (TABLE_SIZE + 1)
      invariant forall i: nat :: i < j ==> p3[i] == Entry(base + i * (TABLE_SIZE + 1), true, true, true, false)
      invariant forall large: nat :: large < j * TABLE_SIZE ==> At(low[..], P2Slot(large)) == ABSENT
      invariant p4[0] == Entry(base + tables * (TABLE_SIZE + 1), true, true, true, false)
      invariant forall i: nat :: 0 < i < TABLE_SIZE ==> p4[i] == ABSENT
    {
      p3[j] := Entry(p2Frame, true, true, true, false);
      var start: nat := j * (TABLE_SIZE + 1) * TABLE_SIZE;
      P2Cleared(low[..], j, tables);
      Clear(low, start, start + TABLE_SIZE);
      p2Frame := p2Frame + TABLE_SIZE + 1;
      j := j + 1;
    }
    Clear(p3, tables, TABLE_SIZE);
    NothingMapped(low[..], base, tables);
  }

  /** Installs the pages that hold data. */
  method SetPresent(low: array<Entry>, base: nat, present: seq<Present>, ghost tables: nat, ghost top: nat, ghost pages: nat) returns (next: nat)
    requires Ordered(present) && Windows(present, top, pages)
    requires |present| > 0 ==> present[|present| - 1].past <= tables * TABLE_SIZE * TABLE_SIZE
    requires Closed(low[..], base, tables, [], 0)
    modifies low
    ensures Closed(low[..], base, tables, RangesOf(present), next)
    ensures next == if present == [] then 0 else present[|present| - 1].past
  {
    hide Closed;
    next := 0;
    var i: nat := 0;
    assert RangesOf(present[..0]) == [];
    while i < |present|
      invariant i <= |present|
      invariant next == if i == 0 then 0 else present[i - 1].past
      invariant Closed(low[..], base, tables, RangesOf(present[..i]), next)
    {
      var p := present[i];
      RangesOfNext(present, i);
      assert InWindow(p, top, pages);
      PastBelow(present, i);
      var r := RangeOf(p);
      next := SetRange(low, base, r.first, r.past, r.writable, r.user, r.frame, next, tables, RangesOf(present[..i]));
      i := i + 1;
    }
    assert present[..i] == present;
  }

  lemma {:induction false} PastBelow(present: seq<Present>, i: nat)
    requires Ordered(present) && i < |present|
    ensures present[i].past <= present[|present| - 1].past
    decreases |present| - i
  {
    if i + 1 < |present| {
      PastBelow(present, i + 1);
    }
  }

  lemma RoundTables(pages: nat)
    ensures TablesFor(pages) * TABLE_SIZE * TABLE_SIZE >= pages
    ensures pages < 0x800_0000 ==> TablesFor(pages) <= TABLE_SIZE
  {
  }

  function TablesFor(pages: nat): nat {
    (pages + TABLE_SIZE * TABLE_SIZE - 1) / (TABLE_SIZE * TABLE_SIZE)
  }

  lemma RootedStays(fin: Tables, t: Tables, tables: nat)
    requires Rooted(t, tables) && fin == t.(low := fin.low)
    ensures Rooted(fin, tables)
  {
  }

  lemma FloorBelow(page: nat)
    ensures FloorLarge(page) <= page
  {
  }

  function PastPresent(present: seq<Present>): nat {
    if present == [] then 0 else present[|present| - 1].past
  }

  /** The first page of the tables when they lie right below `stackStart`. */
  function TableBase(stackStart: nat, tables: nat): int {
    stackStart - 2 - tables * (TABLE_SIZE + 1)
  }

  /** Whether the tables fit below the stack start, and the pages that hold data below the large
      page in which the stack is put. */
  predicate Fits(present: seq<Present>, stackStart: nat, pages: nat) {
    var base := TableBase(stackStart, TablesFor(pages));
    && pages < 0x800_0000 && 0 <= base
    && (present != [] ==> present[0].first != 0)
    && PastPresent(present) <= FloorLarge(base)
  }

  /** The tables fit below the stack start, but reach into the pages that hold data. */
  predicate Overlaps(present: seq<Present>, stackStart: nat, pages: nat) {
    var base := TableBase(stackStart, TablesFor(pages));
    pages < 0x800_0000 && 0 <= base < PastPresent(present) && present != [] && present[0].first != 0
  }

  /** Adds stack, tables, interrupt handlers and windows behind the pages that hold data. */
  method SetSystem(low: array<Entry>, base: nat, interruptStart: nat, interruptEnd: nat, pages: nat, prev: nat, ghost tables: nat, ghost ranges: seq<Range>)
    requires Closed(low[..], base, tables, ranges, prev) && prev <= FloorLarge(base)
    requires base <= interruptStart <= interruptEnd <= pages <= tables * TABLE_SIZE * TABLE_SIZE
    modifies low
    ensures Closed(low[..], base, tables, ranges + SystemRanges(base, interruptStart, interruptEnd, pages), pages)
  {
    hide Closed;
    ghost var s := SystemRanges(base, interruptStart, interruptEnd, pages);
    var next := SetRange(low, base, FloorLarge(base), base, true, true, FloorLarge(base), prev, tables, ranges);
    next := SetRange(low, base, base, interruptStart, true, false, base, next, tables, ranges + [s[0]]);
    next := SetRange(low, base, interruptStart, interruptEnd, true, false, interruptStart, next, tables, ranges + [s[0]] + [s[1]]);
    next := SetRange(low, base, interruptEnd, pages, false, false, interruptEnd, next, tables, ranges + [s[0]] + [s[1]] + [s[2]]);
    assert ranges + [s[0]] + [s[1]] + [s[2]] + [s[3]] == ranges + s;
  }

  method ZeroPages(memory: array<Page>, lo: nat, hi: nat)
    requires lo <= hi <= memory.Length
    modifies memory
    ensures forall p: nat :: p < memory.Length ==> memory[p] == if lo <= p < hi then ZeroPage() else old(memory[p])
  {
    hide ZeroPage;
    var k: nat := lo;
    while k < hi
      invariant lo <= k <= hi
      invariant forall p: nat :: p < memory.Length ==> memory[p] == if lo <= p < k then ZeroPage() else old(memory[p])
    {
      memory[k] := ZeroPage();
      k := k + 1;
    }
  }

  /** The pages of a machine and its root are as the ranges say. */
  ghost predicate WalksAs(t: Tables, ranges: seq<Range>) {
    forall page: nat :: page < TABLE_SIZE * TABLE_SIZE * TABLE_SIZE * TABLE_SIZE ==> Walk(t, t.p4Frame, page) == Lookup(ranges, page)
  }

  lemma ClosedWalks(t: Tables, tables: nat, ranges: seq<Range>, next: nat)
    requires Rooted(t, tables) && Closed(t.low, t.base, tables, ranges, next) && next <= tables * TABLE_SIZE * TABLE_SIZE
    ensures WalksAs(t, ranges)
  {
    hide Rooted, View, Lookup, Walk, Tidy;
    forall page: nat | page < TABLE_SIZE * TABLE_SIZE * TABLE_SIZE * TABLE_SIZE ensures Walk(t, t.p4Frame, page) == Lookup(ranges, page) {
      WalkIsView(t, tables, page);
      assert Agrees(t.low, ranges, page);
    }
  }

  /** Builds all tables right below `stackStart`, where the interrupt handlers begin. A walk from
      the root then gives, for every page, exactly what the ranges say. */
  method SetPageTable(memory: array<Page>, p4: array<Entry>, p3: array<Entry>, low: array<Entry>, present: seq<Present>,
                      stackStart: nat, interruptEnd: nat) returns (r: Result<nat>)
    requires p4.Length == TABLE_SIZE && p3.Length == TABLE_SIZE && p4 != p3 && p4 != low && p3 != low
    requires low.Length == TablesFor(memory.Length) * (TABLE_SIZE + 1) * TABLE_SIZE
    requires stackStart <= interruptEnd <= memory.Length
    requires Ordered(present) && Windows(present, interruptEnd, memory.Length)
    modifies memory, p4, p3, low
    ensures r.Ok? <==> Fits(present, stackStart, memory.Length)
    ensures r == Err(ContextFull) <==> Overlaps(present, stackStart, memory.Length)
    ensures r.Err? ==> r == Err(ContextFull) || r == Err(Panic)
    ensures r.Ok? ==> r.value == TableBase(stackStart, TablesFor(memory.Length))
    ensures r.Ok? ==> forall p: nat :: p < memory.Length ==>
              memory[p] == if FloorLarge(r.value) <= p < r.value then ZeroPage() else old(memory[p])
    ensures r.Ok? ==> Rooted(Tables(p4[..], p3[..], low[..], r.value, stackStart - 2, stackStart - 1), TablesFor(memory.Length))
    ensures r.Ok? ==> Closed(low[..], r.value, TablesFor(memory.Length),
                             RangesOf(present) + SystemRanges(r.value, stackStart, interruptEnd, memory.Length), memory.Length)
    ensures r.Ok? ==> WalksAs(Tables(p4[..], p3[..], low[..], r.value, stackStart - 2, stackStart - 1),
                              RangesOf(present) + SystemRanges(r.value, stackStart, interruptEnd, memory.Length))
  {
    hide Closed, Rooted, WalksAs, Ordered, Windows, FloorLarge, RangesOf, SystemRanges;
    var pages: nat := memory.Length;
    var tables: nat := TablesFor(pages);
    RoundTables(pages);
    if TableBase(stackStart, tables) < 0 || pages >= 0x800_0000 {
      return Err(Panic);
    }
    var base: nat := TableBase(stackStart, tables);
    FloorBelow(base);
    WireTables(p4, p3, low, base, tables);
    ghost var start := Tables(p4[..], p3[..], low[..], base, stackStart - 2, stackStart - 1);
    if present != [] && present[0].first == 0 {
      return Err(Panic);
    }
    if present != [] && base < PastPresent(present) {
      return Err(ContextFull);
    }
    var prev := SetPresent(low, base, present, tables, interruptEnd, pages);
    if FloorLarge(base) < prev {
      return Err(Panic);
    }
    ZeroPages(memory, FloorLarge(base), base);
    SetSystem(low, base, stackStart, interruptEnd, pages, prev, tables, RangesOf(present));
    ghost var t := Tables(p4[..], p3[..], low[..], base, stackStart - 2, stackStart - 1);
    RootedStays(t, start, tables);
    ClosedWalks(t, tables, RangesOf(present) + SystemRanges(base, stackStart, interruptEnd, pages), pages);
    return Ok(base);
  }
}
