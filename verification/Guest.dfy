/** The guest's page fault handler: demand-zero pages, splitting of large pages, copy on write. */
module Guests {
  import opened Common
  import opened Paging

  /** The content of one page of guest memory. */
  type Page = seq<byte>

  function ZeroPage(): (p: Page)
    ensures |p| == PAGE_SIZE && forall i: nat :: i < PAGE_SIZE ==> p[i] == 0
  {
    seq(PAGE_SIZE, _ => 0)
  }

  // ---------------------------------------------------------------- table updates of the handler

  /** A p1 table that maps what a large page mapped, read-only. */
  function SplitTable(d: Entry): (p1: seq<Entry>)
    ensures |p1| == TABLE_SIZE
    ensures forall i: nat :: i < TABLE_SIZE ==> p1[i] == Entry(d.frame + i, d.present, false, d.user, false)
  {
    seq(TABLE_SIZE, i requires 0 <= i => Entry(d.frame + i, d.present, false, d.user, false))
  }

  /** The table with the p1 table of one large page replaced. */
  function WithP1(t: seq<Entry>, large: nat, p1: seq<Entry>): (r: seq<Entry>)
    requires |p1| == TABLE_SIZE && P1Slot(large) + TABLE_SIZE <= |t|
    ensures |r| == |t|
    ensures forall k: nat :: k < |t| ==> r[k] == if P1Slot(large) <= k < P1Slot(large) + TABLE_SIZE then p1[k - P1Slot(large)] else t[k]
  {
    t[..P1Slot(large)] + p1 + t[P1Slot(large) + TABLE_SIZE..]
  }

  /** The page is absent, or the guest may only read it. */
  predicate Faults(m: Option<Mapping>) {
    m.None? || (m.value.user && !m.value.writable)
  }

  /** `fin` translates `page` to itself and every other page as before. */
  ghost predicate MapsPage(fin: seq<Entry>, t: seq<Entry>, page: nat) {
    forall other: nat :: View(fin, other) == if other == page then Some(Mapping(page, true, true)) else View(t, other)
  }

  /** Absent large page: an empty p1 table is installed. */
  lemma DemandTable(t: seq<Entry>, base: nat, tables: nat, page: nat)
    requires Tidy(t, base, tables) && page / TABLE_SIZE < tables * TABLE_SIZE && Free(t, page / TABLE_SIZE)
    ensures var large := page / TABLE_SIZE;
            && P1Slot(large) + TABLE_SIZE <= |t| && P2Slot(large) < |t|
            && var mid := Cleared(t, P1Slot(large), P1Slot(large) + TABLE_SIZE)[P2Slot(large) := Pointer(base, large)];
               Tidy(mid, base, tables) && SameViews(mid, t) && At(mid, P2Slot(large)) == Pointer(base, large)
  {
    hide P1Slot, P2Slot, Cleared, Tidy, SameElsewhere;
    var large: nat := page / TABLE_SIZE;
    SlotsInside(large, tables);
    TidySize(t, base, tables);
    SlotsApart(P2Slot(large), large, large);
    var c := Cleared(t, P1Slot(large), P1Slot(large) + TABLE_SIZE);
    var mid := c[P2Slot(large) := Pointer(base, large)];
    ClearedElsewhere(t, P1Slot(large), P1Slot(large) + TABLE_SIZE, large);
    UpdateElsewhere(c, P2Slot(large), Pointer(base, large), large);
    ElsewhereTwice(mid, c, t, large);
    ElsewhereTidy(mid, t, base, tables, large);
    forall other: nat ensures SameView(mid, t, other) {
      if other / TABLE_SIZE != large {
        ElsewhereView(mid, t, large, other);
      } else {
        assert At(mid, P1Slot(large) + other % TABLE_SIZE) == ABSENT;
      }
    }
  }

  ghost predicate SameView(fin: seq<Entry>, t: seq<Entry>, page: nat) {
    View(fin, page) == View(t, page)
  }

  ghost predicate SameViews(fin: seq<Entry>, t: seq<Entry>) {
    forall page: nat :: SameView(fin, t, page)
  }

  /** Read-only large page: it is split into small pages that map the same frames. */
  lemma SplitLarge(t: seq<Entry>, base: nat, tables: nat, page: nat)
    requires Tidy(t, base, tables) && page / TABLE_SIZE < tables * TABLE_SIZE
    requires var d := At(t, P2Slot(page / TABLE_SIZE)); d.present && d.large && !d.writable
    ensures var large := page / TABLE_SIZE;
            && P1Slot(large) + TABLE_SIZE <= |t| && P2Slot(large) < |t|
            && var mid := WithP1(t, large, SplitTable(t[P2Slot(large)]))[P2Slot(large) := Pointer(base, large)];
               Tidy(mid, base, tables) && SameViews(mid, t) && At(mid, P2Slot(large)) == Pointer(base, large)
  {
    hide P1Slot, P2Slot, WithP1, SplitTable, Tidy;
    TidyAtKept(t, t, base, tables, page / TABLE_SIZE);
    var large: nat := page / TABLE_SIZE;
    SlotsInside(large, tables);
    TidySize(t, base, tables);
    SlotsApart(P2Slot(large), large, large);
    var d := t[P2Slot(large)];
    var c := WithP1(t, large, SplitTable(d));
    var mid := c[P2Slot(large) := Pointer(base, large)];
    assert SameElsewhere(mid, t, large);
    hide SameElsewhere;
    ElsewhereTidy(mid, t, base, tables, large);
    forall other: nat ensures SameView(mid, t, other) {
      if other / TABLE_SIZE != large {
        ElsewhereView(mid, t, large, other);
      } else {
        assert At(mid, P1Slot(large) + other % TABLE_SIZE) == SplitTable(d)[other % TABLE_SIZE];
      }
    }
  }

  /** The faulting page is mapped to itself. */
  lemma MapSelf(t: seq<Entry>, base: nat, tables: nat, page: nat)
    requires Tidy(t, base, tables) && page / TABLE_SIZE < tables * TABLE_SIZE
    requires At(t, P2Slot(page / TABLE_SIZE)) == Pointer(base, page / TABLE_SIZE)
    ensures var k := P1Slot(page / TABLE_SIZE) + page % TABLE_SIZE;
            && k < |t|
            && var fin := t[k := Entry(page, true, true, true, false)];
               Tidy(fin, base, tables) && MapsPage(fin, t, page)
  {
    hide P1Slot, P2Slot, Tidy, SameElsewhere;
    var large: nat := page / TABLE_SIZE;
    var k: nat := P1Slot(large) + page % TABLE_SIZE;
    SlotsInside(large, tables);
    TidySize(t, base, tables);
    SlotsApart(P2Slot(large), large, large);
    var fin := t[k := Entry(page, true, true, true, false)];
    UpdateElsewhere(t, k, Entry(page, true, true, true, false), large);
    ElsewhereTidy(fin, t, base, tables, large);
    forall other: nat ensures View(fin, other) == if other == page then Some(Mapping(page, true, true)) else View(t, other) {
      if other / TABLE_SIZE != large {
        ElsewhereView(fin, t, large, other);
      }
    }
  }

  // ---------------------------------------------------------------- what the guest sees

  /** Where a page below the stack start may be mapped: nowhere, to itself, or read-only to a
      window above `top` at the same distance from a large page boundary. */
  ghost predicate Placed(m: Option<Mapping>, page: nat, top: nat, pages: nat) {
    m.Some? ==>
      && m.value.user
      && if m.value.writable then m.value.frame == page
         else top <= m.value.frame < pages && m.value.frame % TABLE_SIZE == page % TABLE_SIZE
  }

  ghost predicate AllPlaced(t: seq<Entry>, base: nat, top: nat, pages: nat) {
    forall page: nat :: page < base ==> Placed(View(t, page), page, top, pages)
  }

  /** From the stack start on there are system pages, each at its own address, and nothing behind them. */
  ghost predicate SystemPage(m: Option<Mapping>, page: nat, pages: nat) {
    if page < pages then m.Some? && m.value.frame == page && !m.value.user else m.None?
  }

  ghost predicate AllSystem(t: seq<Entry>, base: nat, pages: nat) {
    forall page: nat :: page >= base ==> SystemPage(View(t, page), page, pages)
  }

  /** What the guest finds in a page: what it is mapped to, or zeros. */
  function Content(memory: seq<Page>, m: Option<Mapping>): Page {
    if m.Some? && m.value.frame < |memory| then memory[m.value.frame] else ZeroPage()
  }

  ghost function Contents(memory: seq<Page>, t: seq<Entry>, base: nat): (c: seq<Page>)
    ensures |c| == base
    ensures forall page: nat :: page < base ==> c[page] == Content(memory, View(t, page))
  {
    seq(base, page requires 0 <= page => Content(memory, View(t, page)))
  }

  lemma MappedPlaced(fin: seq<Entry>, t: seq<Entry>, page: nat, base: nat, top: nat, pages: nat)
    requires MapsPage(fin, t, page) && page < base && AllPlaced(t, base, top, pages) && AllSystem(t, base, pages)
    ensures AllPlaced(fin, base, top, pages) && AllSystem(fin, base, pages)
  {
    hide View;
  }

  /** Filling the page's own frame with the content it had is invisible. */
  lemma FaultInvisible(fin: seq<Entry>, t: seq<Entry>, after: seq<Page>, memory: seq<Page>, page: nat, base: nat, top: nat)
    requires MapsPage(fin, t, page) && page < base <= top <= |memory| && AllPlaced(t, base, top, |memory|)
    requires after == memory[page := Content(memory, View(t, page))] && Faults(View(t, page))
    ensures Contents(after, fin, base) == Contents(memory, t, base)
  {
    hide View;
    forall other: nat | other < base ensures Content(after, View(fin, other)) == Content(memory, View(t, other)) {
      assert Placed(View(t, other), other, top, |memory|);
    }
    assert |Contents(after, fin, base)| == |Contents(memory, t, base)|;
    assert forall other: nat :: other < base ==> Contents(after, fin, base)[other] == Contents(memory, t, base)[other];
  }

  /** Writing to a writable page changes that page only. */
  lemma StoreVisible(t: seq<Entry>, after: seq<Page>, memory: seq<Page>, page: nat, base: nat, top: nat, content: Page)
    requires page < base <= top <= |memory| && AllPlaced(t, base, top, |memory|)
    requires View(t, page).Some? && View(t, page).value.writable && after == memory[page := content]
    ensures View(t, page).value.frame == page && Contents(after, t, base) == Contents(memory, t, base)[page := content]
  {
    hide View;
    assert Placed(View(t, page), page, top, |memory|);
    forall other: nat | other < base ensures Content(after, View(t, other)) == if other == page then content else Content(memory, View(t, other)) {
      assert Placed(View(t, other), other, top, |memory|);
    }
    assert forall other: nat :: other < base ==> Contents(after, t, base)[other] == Contents(memory, t, base)[page := content][other];
  }

  /** The p3 table names the p2 tables, which lie one block of 513 tables apart. */
  ghost predicate Wired(p3: seq<Entry>, base: nat, tables: nat) {
    && |p3| == TABLE_SIZE && tables <= TABLE_SIZE
    && forall j: nat :: j < TABLE_SIZE ==> p3[j] == if j < tables then Entry(base + j * (TABLE_SIZE + 1), true, true, true, false) else ABSENT
  }

  /** The handler finds the p2 and p1 tables of a page from the p3 entry. */
  lemma HandlerSlots(p3: seq<Entry>, base: nat, tables: nat, page: nat)
    requires Wired(p3, base, tables) && page < tables * TABLE_SIZE * TABLE_SIZE
    ensures var j := page / (TABLE_SIZE * TABLE_SIZE) % TABLE_SIZE;
            && p3[j].frame >= base
            && (p3[j].frame - base) * TABLE_SIZE + page / TABLE_SIZE % TABLE_SIZE == P2Slot(page / TABLE_SIZE)
            && (p3[j].frame + 1 + page / TABLE_SIZE % TABLE_SIZE - base) * TABLE_SIZE == P1Slot(page / TABLE_SIZE)
  {
    var j: nat := page / (TABLE_SIZE * TABLE_SIZE);
    assert j < tables && j == page / TABLE_SIZE / TABLE_SIZE;
    assert p3[j].frame - base == j * (TABLE_SIZE + 1);
  }

  /** Which case the handler is in, read off the two entries. */
  lemma ViewCases(t: seq<Entry>, base: nat, tables: nat, page: nat)
    requires Tidy(t, base, tables)
    ensures var large := page / TABLE_SIZE;
            var d, e := At(t, P2Slot(large)), At(t, P1Slot(large) + page % TABLE_SIZE);
            && (d.present && !d.large ==> d == Pointer(base, large) && d.user && d.writable)
            && (!d.present ==> View(t, page) == None && Free(t, large))
            && (d.present && d.large ==> View(t, page) == Some(Mapping(d.frame / TABLE_SIZE * TABLE_SIZE + page % TABLE_SIZE, d.writable, d.user)))
            && (d.present && !d.large && !e.present ==> View(t, page) == None)
            && (d.present && !d.large && e.present ==> View(t, page) == Some(Mapping(e.frame, e.writable, e.user)))
  {
    hide P1Slot, P2Slot;
    assert TidyAt(t, base, page / TABLE_SIZE);
  }

  lemma MapsAfter(fin: seq<Entry>, mid: seq<Entry>, t: seq<Entry>, page: nat)
    requires MapsPage(fin, mid, page) && SameViews(mid, t)
    ensures MapsPage(fin, t, page)
  {
    hide View;
    forall other: nat ensures View(fin, other) == if other == page then Some(Mapping(page, true, true)) else View(t, other) {
      assert SameView(mid, t, other);
    }
  }

  lemma SameIsSame(t: seq<Entry>)
    ensures SameViews(t, t)
  {
  }

  method FillSplit(table: array<Entry>, large: nat, d: Entry)
    requires P1Slot(large) + TABLE_SIZE <= table.Length
    modifies table
    ensures table[..] == WithP1(old(table[..]), large, SplitTable(d))
  {
    hide P1Slot, WithP1, SplitTable;
    var p1: nat := P1Slot(large);
    var i: nat := 0;
    while i < TABLE_SIZE
      invariant i <= TABLE_SIZE
      invariant forall k: nat :: k < table.Length ==> table[k] == if p1 <= k < p1 + i then SplitTable(d)[k - p1] else old(table[k])
    {
      table[p1 + i] := Entry(d.frame + i, d.present, false, d.user, false);
      i := i + 1;
    }
    assert table[..] == WithP1(old(table[..]), large, SplitTable(d));
  }

  /** One access of the guest, to a byte of a page. */
  datatype Access = Load(page: nat, offset: nat) | Store(page: nat, offset: nat, value: byte)

  function WithByte(p: Page, offset: nat, value: byte): (r: Page)
    requires offset < |p|
    ensures |r| == |p| && forall i: nat :: i < |p| ==> r[i] == if i == offset then value else p[i]
  {
    p[offset := value]
  }

  /** The same accesses on a plain memory of pages. */
  function Applied(c: seq<Page>, a: Access): (r: seq<Page>) {
    if a.Store? && a.page < |c| && a.offset < |c[a.page]| then c[a.page := WithByte(c[a.page], a.offset, a.value)] else c
  }

  function AppliedAll(c: seq<Page>, accesses: seq<Access>): seq<Page> {
    if accesses == [] then c else Applied(AppliedAll(c, accesses[..|accesses| - 1]), accesses[|accesses| - 1])
  }

  function Loaded(c: seq<Page>, a: Access): seq<byte> {
    if a.Load? && a.page < |c| && a.offset < |c[a.page]| then [c[a.page][a.offset]] else []
  }

  /** The bytes that the loads of a run return. */
  function LoadedAll(c: seq<Page>, accesses: seq<Access>): seq<byte> {
    if accesses == [] then []
    else
      var before := accesses[..|accesses| - 1];
      LoadedAll(c, before) + Loaded(AppliedAll(c, before), accesses[|accesses| - 1])
  }

  lemma OneMore(c: seq<Page>, accesses: seq<Access>, i: nat)
    requires i < |accesses|
    ensures AppliedAll(c, accesses[..i + 1]) == Applied(AppliedAll(c, accesses[..i]), accesses[i])
    ensures LoadedAll(c, accesses[..i + 1]) == LoadedAll(c, accesses[..i]) + Loaded(AppliedAll(c, accesses[..i]), accesses[i])
  {
    assert accesses[..i + 1][..i] == accesses[..i];
  }

  ghost predicate StoresTo(a: Access, page: nat, offset: nat) {
    a.Store? && a.page == page && a.offset == offset
  }

  /** Access `i` is the last store to a byte. */
  ghost predicate LastStore(accesses: seq<Access>, i: nat, page: nat, offset: nat) {
    i < |accesses| && StoresTo(accesses[i], page, offset) && forall j: nat :: i < j < |accesses| ==> !StoresTo(accesses[j], page, offset)
  }

  lemma LastIsStore(accesses: seq<Access>, i: nat, page: nat, offset: nat)
    requires LastStore(accesses, i, page, offset)
    ensures i < |accesses| && accesses[i].Store?
  {
  }

  lemma AppliedShape(c: seq<Page>, a: Access, page: nat, offset: nat)
    requires page < |c| && offset < |c[page]|
    ensures |Applied(c, a)| == |c| && |Applied(c, a)[page]| == |c[page]|
    ensures Applied(c, a)[page][offset] == if StoresTo(a, page, offset) then a.value else c[page][offset]
  {
  }

  /** After a run every byte has the value that was stored to it last, and without a store its own. */
  lemma {:induction false} StoredLast(c: seq<Page>, accesses: seq<Access>, page: nat, offset: nat)
    requires page < |c| && offset < |c[page]|
    ensures |AppliedAll(c, accesses)| == |c| && |AppliedAll(c, accesses)[page]| == |c[page]|
    ensures forall i: nat :: LastStore(accesses, i, page, offset) ==> AppliedAll(c, accesses)[page][offset] == accesses[i].value
    ensures (forall i: nat :: i < |accesses| ==> !StoresTo(accesses[i], page, offset)) ==> AppliedAll(c, accesses)[page][offset] == c[page][offset]
  {
    hide Applied, StoresTo;
    if accesses != [] {
      var n := |accesses| - 1;
      StoredLast(c, accesses[..n], page, offset);
      AppliedShape(AppliedAll(c, accesses[..n]), accesses[n], page, offset);
      forall i: nat | LastStore(accesses, i, page, offset) ensures accesses[i].Store? && AppliedAll(c, accesses)[page][offset] == accesses[i].value {
        LastIsStore(accesses, i, page, offset);
        if i < n {
          assert LastStore(accesses[..n], i, page, offset);
        }
      }
    }
  }

  function LoadsIn(accesses: seq<Access>): nat {
    if accesses == [] then 0 else LoadsIn(accesses[..|accesses| - 1]) + if accesses[|accesses| - 1].Load? then 1 else 0
  }

  /** Every load returns what its byte holds after the accesses before it, and nothing else is returned. */
  lemma {:induction false} LoadsReturn(c: seq<Page>, accesses: seq<Access>)
    requires FullPages(c) && forall i: nat :: i < |accesses| ==> accesses[i].page < |c| && accesses[i].offset < PAGE_SIZE
    ensures |LoadedAll(c, accesses)| == LoadsIn(accesses)
    ensures forall i: nat :: i < |accesses| && accesses[i].Load? ==> LoadAt(c, accesses, i)
  {
    if accesses != [] {
      var n := |accesses| - 1;
      var before := accesses[..n];
      LoadsReturn(c, before);
      LoadLast(c, accesses);
      hide LoadAt, AppliedAll, LoadedAll, LoadsIn;
      forall i: nat | i < |accesses| && accesses[i].Load? ensures LoadAt(c, accesses, i) {
        if i < n {
          assert before[i].Load?;
          LoadEarlier(c, accesses, i);
        }
      }
    }
  }

  /** The last access adds its byte if it is a load. */
  lemma LoadLast(c: seq<Page>, accesses: seq<Access>)
    requires accesses != [] && FullPages(c) && accesses[|accesses| - 1].page < |c| && accesses[|accesses| - 1].offset < PAGE_SIZE
    requires |LoadedAll(c, accesses[..|accesses| - 1])| == LoadsIn(accesses[..|accesses| - 1])
    ensures |LoadedAll(c, accesses)| == LoadsIn(accesses)
    ensures accesses[|accesses| - 1].Load? ==> LoadAt(c, accesses, |accesses| - 1)
  {
    hide Applied, AppliedAll;
    var a := accesses[|accesses| - 1];
    StoredLast(c, accesses[..|accesses| - 1], a.page, a.offset);
  }

  lemma LoadEarlier(c: seq<Page>, accesses: seq<Access>, i: nat)
    requires i + 1 < |accesses| && LoadAt(c, accesses[..|accesses| - 1], i)
    ensures LoadAt(c, accesses, i)
  {
    hide AppliedAll, LoadsIn;
    assert accesses[..|accesses| - 1][..i] == accesses[..i];
  }

  ghost predicate LoadAt(c: seq<Page>, accesses: seq<Access>, i: nat)
    requires i < |accesses|
  {
    var m, mem, a := LoadsIn(accesses[..i]), AppliedAll(c, accesses[..i]), accesses[i];
    && m < |LoadedAll(c, accesses)| && a.page < |mem| && a.offset < |mem[a.page]|
    && LoadedAll(c, accesses)[m] == mem[a.page][a.offset]
  }

  ghost predicate FullPages(memory: seq<Page>) {
    forall i: nat :: i < |memory| ==> |memory[i]| == PAGE_SIZE
  }

  lemma FrameFound(t: seq<Entry>, page: nat, base: nat, top: nat, pages: nat)
    requires AllPlaced(t, base, top, pages) && AllSystem(t, base, pages) && page < base <= top <= pages && View(t, page).Some?
    ensures var m := View(t, page).value;
            && m.user && m.frame < pages && (m.writable ==> m.frame == page)
            && (!m.writable ==> m.frame >= top && m.frame == m.frame / TABLE_SIZE * TABLE_SIZE + page % TABLE_SIZE)
            && (!m.writable ==> View(t, m.frame).Some? && View(t, m.frame).value.frame == m.frame)
  {
    hide View;
    var m := View(t, page).value;
    assert Placed(Some(m), page, top, pages);
    if !m.writable {
      assert SystemPage(View(t, m.frame), m.frame, pages);
    }
  }

  lemma ContentIs(memory: seq<Page>, t: seq<Entry>, base: nat, page: nat)
    requires page < base && FullPages(memory)
    ensures Contents(memory, t, base)[page] == Content(memory, View(t, page)) && |Content(memory, View(t, page))| == PAGE_SIZE
  {
    hide View;
  }

  lemma SystemRefused(t: seq<Entry>, page: nat, base: nat, pages: nat)
    requires AllSystem(t, base, pages) && page >= base
    ensures View(t, page).Some? <==> page < pages
    ensures page < pages ==> !View(t, page).value.user
  {
    hide View;
    assert SystemPage(View(t, page), page, pages);
  }

  // ---------------------------------------------------------------- pages written

  /** Page `page` is writable at its own address if it was written, and otherwise neither its mapping
      nor its frame has changed. */
  ghost predicate Tracked(fin: seq<Entry>, after: seq<Page>, t: seq<Entry>, memory: seq<Page>, dirty: set<nat>, page: nat) {
    if page in dirty then View(fin, page) == Some(Mapping(page, true, true))
    else View(fin, page) == View(t, page) && page < |memory| && page < |after| && after[page] == memory[page]
  }

  /** Only pages in `dirty` have been written below the stack start, and none behind it. */
  ghost predicate Writes(fin: seq<Entry>, after: seq<Page>, t: seq<Entry>, memory: seq<Page>, dirty: set<nat>, base: nat) {
    && |after| == |memory| && (forall page: nat :: page < base ==> Tracked(fin, after, t, memory, dirty, page))
    && (forall page: nat :: base <= page < |memory| ==> after[page] == memory[page])
  }

  lemma NothingWritten(t: seq<Entry>, memory: seq<Page>, base: nat)
    requires base <= |memory|
    ensures Writes(t, memory, t, memory, {}, base)
  {
  }

  lemma WritesTwice(fin: seq<Entry>, after: seq<Page>, mid: seq<Entry>, between: seq<Page>, t: seq<Entry>, memory: seq<Page>, one: set<nat>, two: set<nat>, base: nat)
    requires Writes(mid, between, t, memory, one, base) && Writes(fin, after, mid, between, two, base)
    ensures Writes(fin, after, t, memory, one + two, base)
  {
    hide View;
    forall page: nat | page < base ensures Tracked(fin, after, t, memory, one + two, page) {
      assert Tracked(mid, between, t, memory, one, page) && Tracked(fin, after, mid, between, two, page);
    }
  }

  lemma FaultWrites(fin: seq<Entry>, t: seq<Entry>, memory: seq<Page>, page: nat, content: Page, base: nat)
    requires MapsPage(fin, t, page) && page < base <= |memory|
    ensures Writes(fin, memory[page := content], t, memory, {page}, base)
  {
    hide View;
  }

  lemma StoreWrites(t: seq<Entry>, memory: seq<Page>, page: nat, content: Page, base: nat)
    requires View(t, page) == Some(Mapping(page, true, true)) && page < base <= |memory|
    ensures Writes(t, memory[page := content], t, memory, {page}, base)
  {
    hide View;
  }

  datatype Outcome = Handled | Refused | Left

  /** A running guest: its physical pages, its page tables, and the layout of its memory. */
  class Guest {
    const memory: array<Page>
    const p3: array<Entry>
    const low: array<Entry>
    const base: nat
    const top: nat
    const tables: nat

    constructor (memory: array<Page>, p3: array<Entry>, low: array<Entry>, base: nat, top: nat, tables: nat)
      ensures this.memory == memory && this.p3 == p3 && this.low == low
      ensures this.base == base && this.top == top && this.tables == tables
    {
      this.memory, this.p3, this.low, this.base, this.top, this.tables := memory, p3, low, base, top, tables;
    }

    ghost predicate Valid()
      reads memory, p3, low
    {
      && p3 != low && base <= top <= memory.Length <= tables * TABLE_SIZE * TABLE_SIZE
      && FullPages(memory[..]) && Wired(p3[..], base, tables) && Tidy(low[..], base, tables)
      && AllPlaced(low[..], base, top, memory.Length) && AllSystem(low[..], base, memory.Length)
    }

    /** The handler's tables before the faulting page itself is mapped; it reports the frame to
        copy from, if the content is not all zeros. */
    method PrepareTable(page: nat, p2: nat, p1: nat) returns (source: Option<nat>, handled: bool)
      requires Tidy(low[..], base, tables) && page / TABLE_SIZE < tables * TABLE_SIZE
      requires p2 == P2Slot(page / TABLE_SIZE) && p1 == P1Slot(page / TABLE_SIZE)
      requires var m := View(low[..], page); m.Some? ==> !(m.value.user && m.value.writable)
      modifies low
      ensures Tidy(low[..], base, tables) && SameViews(low[..], old(low[..]))
      ensures handled <==> (View(old(low[..]), page).Some? ==> View(old(low[..]), page).value.user)
      ensures !handled ==> low[..] == old(low[..])
      ensures handled ==> At(low[..], P2Slot(page / TABLE_SIZE)) == Pointer(base, page / TABLE_SIZE)
      ensures handled ==> (source.None? <==> View(old(low[..]), page).None?)
      ensures source.Some? ==> View(old(low[..]), page).Some?
      ensures source.Some? ==> source.value == View(old(low[..]), page).value.frame / TABLE_SIZE * TABLE_SIZE + page % TABLE_SIZE
    {
      hide P1Slot, P2Slot, Tidy, SameViews, Pointer, View, Cleared, WithP1, SplitTable;
      ghost var ini := low[..];
      SlotsInside(page / TABLE_SIZE, tables);
      TidySize(ini, base, tables);
      ViewCases(ini, base, tables, page);
      SameIsSame(ini);
      PointerIs(base, page / TABLE_SIZE);
      var d, e := low[p2], low[p1 + page % TABLE_SIZE];
      handled, source := true, None;
      if !d.present {
        DemandTable(ini, base, tables, page);
        Clear(low, p1, p1 + TABLE_SIZE);
        low[p2] := Entry(base + p1 / TABLE_SIZE, true, true, true, false);
        assert low[..] == Cleared(ini, p1, p1 + TABLE_SIZE)[p2 := Pointer(base, page / TABLE_SIZE)];
      } else if !d.user {
        handled := false;
      } else if d.large {
        SplitLarge(ini, base, tables, page);
        FillSplit(low, page / TABLE_SIZE, d);
        low[p2] := Entry(base + p1 / TABLE_SIZE, true, true, true, false);
        assert low[..] == WithP1(ini, page / TABLE_SIZE, SplitTable(d))[p2 := Pointer(base, page / TABLE_SIZE)];
        source := Some(d.frame / TABLE_SIZE * TABLE_SIZE + page % TABLE_SIZE);
      } else if e.present {
        handled := e.user;
        source := if e.user then Some(e.frame / TABLE_SIZE * TABLE_SIZE + page % TABLE_SIZE) else None;
      }
    }
  
    /** The page fault handler. Below the stack start, the faulting page is afterwards mapped to
        itself, writable, every other page is mapped as before, and no page has changed for the guest.
        Faults on system pages are refused; behind the last page the handler maps a page that does not
        exist, and the guest leaves when it touches that. */
    method HandleFault(page: nat) returns (outcome: Outcome)
      requires Valid() && page < tables * TABLE_SIZE * TABLE_SIZE
      requires var m := View(low[..], page); m.Some? ==> !(m.value.user && m.value.writable)
      modifies low, memory
      ensures outcome == if page < base then Handled else if page < memory.Length then Refused else Left
      ensures outcome != Refused ==> MapsPage(low[..], old(low[..]), page)
      ensures outcome == Handled ==> Valid() && Contents(memory[..], low[..], base) == old(Contents(memory[..], low[..], base))
      ensures outcome == Handled ==> Writes(low[..], memory[..], old(low[..]), old(memory[..]), {page}, base)
      ensures outcome == Refused ==> low[..] == old(low[..])
      ensures outcome != Handled ==> memory[..] == old(memory[..])
    {
      hide P1Slot, P2Slot, Tidy, SameViews, View, AllPlaced, AllSystem, Wired, MapsPage, Contents, Pointer, Writes;
      ghost var ini, was := low[..], memory[..];
      HandlerSlots(p3[..], base, tables, page);
      LargeInside(page, tables);
      WiredSize(p3[..], base, tables);
      var p2Frame: nat := p3[page / (TABLE_SIZE * TABLE_SIZE) % TABLE_SIZE].frame;
      var p1Frame: nat := p2Frame + 1 + page / TABLE_SIZE % TABLE_SIZE;
      var p2: nat := (p2Frame - base) * TABLE_SIZE + page / TABLE_SIZE % TABLE_SIZE;
      var p1: nat := (p1Frame - base) * TABLE_SIZE;
      if page >= base {
        SystemRefused(ini, page, base, memory.Length);
      } else if View(ini, page).Some? {
        FrameFound(ini, page, base, top, memory.Length);
      }
      var source, handled := PrepareTable(page, p2, p1);
      if !handled {
        return Refused;
      }
      ghost var mid := low[..];
      MapSelf(mid, base, tables, page);
      low[p1 + page % TABLE_SIZE] := Entry(page, true, true, true, false);
      assert low[..] == mid[P1Slot(page / TABLE_SIZE) + page % TABLE_SIZE := Entry(page, true, true, true, false)];
      MapsAfter(low[..], mid, ini, page);
      if page >= memory.Length {
        return Left;
      }
      if source.None? {
        memory[page] := ZeroPage();
      } else {
        assert View(low[..], source.value) == View(ini, source.value) by { MapsOther(low[..], ini, page, source.value); }
        memory[page] := memory[source.value];
      }
      assert memory[..] == was[page := Content(was, View(ini, page))];
      MappedPlaced(low[..], ini, page, base, top, memory.Length);
      FaultInvisible(low[..], ini, memory[..], was, page, base, top);
      FaultWrites(low[..], ini, was, page, Content(was, View(ini, page)), base);
      return Handled;
    }

    /** Any run of loads and stores below the stack start, with the faults it causes, acts on a
        plain memory; `dirty` are the pages that were written, by the guest or by its handler. */
    method Run(accesses: seq<Access>) returns (loads: seq<byte>, dirty: set<nat>)
      requires Valid()
      requires forall a :: a in accesses ==> a.page < base && a.offset < PAGE_SIZE
      modifies low, memory
      ensures Valid()
      ensures Contents(memory[..], low[..], base) == AppliedAll(old(Contents(memory[..], low[..], base)), accesses)
      ensures loads == LoadedAll(old(Contents(memory[..], low[..], base)), accesses)
      ensures Writes(low[..], memory[..], old(low[..]), old(memory[..]), dirty, base)
      ensures forall page :: page in dirty ==> Touches(accesses, page)
    {
      hide Tidy, View, AllPlaced, AllSystem, Wired, MapsPage, Contents, AppliedAll, LoadedAll, Applied, Loaded, Writes, Touches;
      ghost var c, ini, was := Contents(memory[..], low[..], base), low[..], memory[..];
      loads, dirty := [], {};
      var i: nat := 0;
      assert accesses[..0] == [];
      NothingApplied(c);
      NothingWritten(ini, was, base);
      while i < |accesses|
        invariant i <= |accesses| && Valid()
        invariant Contents(memory[..], low[..], base) == AppliedAll(c, accesses[..i])
        invariant loads == LoadedAll(c, accesses[..i])
        invariant Writes(low[..], memory[..], ini, was, dirty, base)
        invariant forall page :: page in dirty ==> Touches(accesses, page)
      {
        OneMore(c, accesses, i);
        Touched(accesses, i);
        ghost var mid, between := low[..], memory[..];
        var loaded, written := Step(accesses[i]);
        WritesTwice(low[..], memory[..], mid, between, ini, was, dirty, written, base);
        loads, dirty := loads + loaded, dirty + written;
        i := i + 1;
      }
      assert accesses[..i] == accesses;
    }

    method Step(a: Access) returns (loaded: seq<byte>, written: set<nat>)
      requires Valid() && a.page < base && a.offset < PAGE_SIZE
      modifies low, memory
      ensures Valid()
      ensures Contents(memory[..], low[..], base) == Applied(old(Contents(memory[..], low[..], base)), a)
      ensures loaded == Loaded(old(Contents(memory[..], low[..], base)), a)
      ensures Writes(low[..], memory[..], old(low[..]), old(memory[..]), written, base) && written <= {a.page}
    {
      hide Tidy, View, AllPlaced, AllSystem, Wired, MapsPage, Contents, Writes;
      ghost var ini, first := low[..], memory[..];
      written := {};
      NothingWritten(ini, first, base);
      if View(low[..], a.page).Some? {
        FrameFound(low[..], a.page, base, top, memory.Length);
      }
      if View(low[..], a.page).None? || (a.Store? && !View(low[..], a.page).value.writable) {
        var outcome := HandleFault(a.page);
        MapsItself(low[..], ini, a.page);
        written := {a.page};
      }
      ghost var was := memory[..];
      ContentIs(was, low[..], base, a.page);
      var frame: nat := View(low[..], a.page).value.frame;
      if a.Load? {
        loaded := [memory[frame][a.offset]];
      } else {
        loaded := [];
        memory[frame] := WithByte(memory[frame], a.offset, a.value);
        StoreVisible(low[..], memory[..], was, a.page, base, top, memory[frame]);
        StoreWrites(low[..], was, a.page, memory[frame], base);
        WritesTwice(low[..], memory[..], low[..], was, ini, first, written, {a.page}, base);
        assert written + {a.page} == {a.page};
        written := {a.page};
      }
    }
  }

  /** Some access is to this page. */
  ghost predicate Touches(accesses: seq<Access>, page: nat) {
    exists i: nat :: i < |accesses| && accesses[i].page == page
  }

  lemma Touched(accesses: seq<Access>, i: nat)
    requires i < |accesses|
    ensures Touches(accesses, accesses[i].page)
  {
  }

  lemma NothingApplied(c: seq<Page>)
    ensures AppliedAll(c, []) == c && LoadedAll(c, []) == []
  {
  }

  lemma WiredSize(p3: seq<Entry>, base: nat, tables: nat)
    requires Wired(p3, base, tables)
    ensures |p3| == TABLE_SIZE && tables <= TABLE_SIZE
  {
  }

  lemma MapsOther(fin: seq<Entry>, t: seq<Entry>, page: nat, other: nat)
    requires MapsPage(fin, t, page) && other != page
    ensures View(fin, other) == View(t, other)
  {
  }

  lemma MapsItself(fin: seq<Entry>, t: seq<Entry>, page: nat)
    requires MapsPage(fin, t, page)
    ensures View(fin, page) == Some(Mapping(page, true, true))
  {
  }
}
