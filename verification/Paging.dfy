/** Building mixed 4 KiB and 2 MiB mappings in the joint array of p2 and p1 tables. */
module Paging {
  import opened Common

  const TABLE_SIZE: nat := 512

  /** A page table entry: the page frame its address field names, and the flags in use. */
  datatype Entry = Entry(frame: nat, present: bool, writable: bool, user: bool, large: bool)

  const ABSENT: Entry := Entry(0, false, false, false, false)

  /** What a page is translated to. */
  datatype Mapping = Mapping(frame: nat, writable: bool, user: bool)

  /** Pages `[first, past)`, mapped to as many frames from `frame` on. */
  datatype Range = Range(first: nat, past: nat, frame: nat, writable: bool, user: bool)

  function Lookup(ranges: seq<Range>, page: nat): Option<Mapping> {
    if ranges == [] then None
    else
      var r := ranges[|ranges| - 1];
      if r.first <= page < r.past then Some(Mapping(r.frame + (page - r.first), r.writable, r.user))
      else Lookup(ranges[..|ranges| - 1], page)
  }

  lemma LookupAdded(ranges: seq<Range>, r: Range, page: nat)
    ensures Lookup(ranges + [r], page) ==
            if r.first <= page < r.past then Some(Mapping(r.frame + (page - r.first), r.writable, r.user))
            else Lookup(ranges, page)
  {
    assert (ranges + [r])[..|ranges|] == ranges;
  }

  // ---------------------------------------------------------------- slots

  /** Index of the p2 entry of the `large`-th large page; each p2 table is followed by the 512
      p1 tables it can point to. */
  function P2Slot(large: nat): nat {
    large / TABLE_SIZE * (TABLE_SIZE + 1) * TABLE_SIZE + large % TABLE_SIZE
  }

  /** Index of the first p1 entry of the `large`-th large page. */
  function P1Slot(large: nat): nat {
    large / TABLE_SIZE * (TABLE_SIZE + 1) * TABLE_SIZE + (1 + large % TABLE_SIZE) * TABLE_SIZE
  }

  /** p2 table and p2 entry of a page. */
  function GetP2(page: nat): (r: (nat, nat))
    ensures r.0 + r.1 == P2Slot(page / TABLE_SIZE)
    ensures r.0 + (1 + r.1) * TABLE_SIZE == P1Slot(page / TABLE_SIZE)
  {
    TwoLevels(page);
    ((page / (TABLE_SIZE * TABLE_SIZE)) * (TABLE_SIZE + 1) * TABLE_SIZE, (page / TABLE_SIZE) % TABLE_SIZE)
  }

  lemma TwoLevels(page: nat)
    ensures page / (TABLE_SIZE * TABLE_SIZE) == page / TABLE_SIZE / TABLE_SIZE
    ensures page == (TABLE_SIZE * TABLE_SIZE) * (page / (TABLE_SIZE * TABLE_SIZE)) + TABLE_SIZE * (page / TABLE_SIZE % TABLE_SIZE) + page % TABLE_SIZE
  {
    var large, i := page / TABLE_SIZE, page % TABLE_SIZE;
    Quotient(page, TABLE_SIZE * TABLE_SIZE, large / TABLE_SIZE, TABLE_SIZE * (large % TABLE_SIZE) + i);
  }

  lemma LastSlot(page: nat)
    ensures page + TABLE_SIZE * (1 + page / (TABLE_SIZE * TABLE_SIZE)) == P1Slot(page / TABLE_SIZE) + page % TABLE_SIZE
  {
    TwoLevels(page);
  }

  lemma SlotsInside(large: nat, tables: nat)
    requires large < tables * TABLE_SIZE
    ensures P2Slot(large) < tables * (TABLE_SIZE + 1) * TABLE_SIZE
    ensures P1Slot(large) + TABLE_SIZE <= tables * (TABLE_SIZE + 1) * TABLE_SIZE
    ensures P1Slot(large) % TABLE_SIZE == 0
  {
    assert large / TABLE_SIZE + 1 <= tables;
  }

  /** Where the slots of one large page are. */
  ghost predicate SlotOf(k: nat, large: nat) {
    k == P2Slot(large) || P1Slot(large) <= k < P1Slot(large) + TABLE_SIZE
  }

  /** Which of the tables a slot is in: p2 tables are every 513th. */
  lemma BlockOf(k: nat, large: nat) returns (r: nat)
    requires SlotOf(k, large)
    ensures P2Slot(large) < P1Slot(large) && r < TABLE_SIZE + 1
    ensures k / TABLE_SIZE == (TABLE_SIZE + 1) * (large / TABLE_SIZE) + r
    ensures if r == 0 then k % TABLE_SIZE == large % TABLE_SIZE else r == 1 + large % TABLE_SIZE
  {
    var q, s := large / TABLE_SIZE, large % TABLE_SIZE;
    if k == P2Slot(large) {
      r := 0;
      Quotient(k, TABLE_SIZE, (TABLE_SIZE + 1) * q, s);
    } else {
      r := 1 + s;
      Quotient(k, TABLE_SIZE, (TABLE_SIZE + 1) * q + 1 + s, k - P1Slot(large));
    }
  }

  lemma SlotsApart(k: nat, a: nat, b: nat)
    requires SlotOf(k, a) && SlotOf(k, b)
    ensures a == b && P2Slot(a) < P1Slot(a)
  {
    hide SlotOf, P1Slot, P2Slot;
    var x := BlockOf(k, a);
    var y := BlockOf(k, b);
    Quotient(k / TABLE_SIZE, TABLE_SIZE + 1, a / TABLE_SIZE, x);
    Quotient(k / TABLE_SIZE, TABLE_SIZE + 1, b / TABLE_SIZE, y);
    assert a == TABLE_SIZE * (a / TABLE_SIZE) + a % TABLE_SIZE && b == TABLE_SIZE * (b / TABLE_SIZE) + b % TABLE_SIZE;
  }

  // ---------------------------------------------------------------- what the tables say

  function At(t: seq<Entry>, k: nat): Entry {
    if k < |t| then t[k] else ABSENT
  }

  /** The entry that makes the `large`-th large page use its own p1 table. */
  function Pointer(base: nat, large: nat): Entry {
    Entry(base + P1Slot(large) / TABLE_SIZE, true, true, true, false)
  }

  /** The last two levels of a walk, given the p2 entry and the p1 entry. */
  function Translate(d: Entry, e: Entry, i: nat): Option<Mapping> {
    if !d.present then None
    else if d.large then Some(Mapping(d.frame / TABLE_SIZE * TABLE_SIZE + i, d.writable, d.user))
    else if !e.present then None
    else Some(Mapping(e.frame, d.writable && e.writable, d.user && e.user))
  }

  /** What a page is translated to when p2 entries use only their own p1 tables. */
  function View(t: seq<Entry>, page: nat): Option<Mapping> {
    Translate(At(t, P2Slot(page / TABLE_SIZE)), At(t, P1Slot(page / TABLE_SIZE) + page % TABLE_SIZE), page % TABLE_SIZE)
  }

  ghost predicate TidyAt(t: seq<Entry>, base: nat, large: nat) {
    var d := At(t, P2Slot(large));
    d.present ==> if d.large then d.frame % TABLE_SIZE == 0 else d == Pointer(base, large)
  }

  /** `t` holds `tables` p2 tables with their p1 tables, no p2 entry points elsewhere, and large
      pages are aligned. */
  ghost predicate Tidy(t: seq<Entry>, base: nat, tables: nat) {
    && |t| == tables * (TABLE_SIZE + 1) * TABLE_SIZE
    && forall large: nat :: TidyAt(t, base, large)
  }

  ghost predicate Agrees(t: seq<Entry>, ranges: seq<Range>, page: nat) {
    View(t, page) == Lookup(ranges, page)
  }

  ghost predicate Free(t: seq<Entry>, large: nat) {
    !At(t, P2Slot(large)).present
  }

  /** All pages below `next` are as the ranges say, and the large page that contains `next`, unless
      it starts there, has its p1 table, whose entries from `next` on are arbitrary. */
  ghost predicate Built(t: seq<Entry>, base: nat, tables: nat, ranges: seq<Range>, next: nat) {
    && Tidy(t, base, tables)
    && (forall page: nat :: page < next ==> Agrees(t, ranges, page))
    && (next % TABLE_SIZE != 0 ==> At(t, P2Slot(next / TABLE_SIZE)) == Pointer(base, next / TABLE_SIZE))
    && (forall large: nat :: large * TABLE_SIZE >= next ==> Free(t, large))
  }

  /** As `Built`, and the large page that contains `next` has its p1 table. */
  ghost predicate Opened(t: seq<Entry>, base: nat, tables: nat, ranges: seq<Range>, next: nat) {
    && Tidy(t, base, tables)
    && (forall page: nat :: page < next ==> Agrees(t, ranges, page))
    && At(t, P2Slot(next / TABLE_SIZE)) == Pointer(base, next / TABLE_SIZE)
    && (forall large: nat :: large > next / TABLE_SIZE ==> Free(t, large))
  }

  /** As `Built`, but for all pages: those from `next` on are absent. */
  ghost predicate Closed(t: seq<Entry>, base: nat, tables: nat, ranges: seq<Range>, next: nat) {
    && Built(t, base, tables, ranges, next)
    && (forall page: nat :: Agrees(t, ranges, page))
    && (forall page: nat :: page >= next ==> Lookup(ranges, page) == None)
  }

  /** Two tables that differ in the slots of one large page only. */
  ghost predicate SameElsewhere(fin: seq<Entry>, t: seq<Entry>, large: nat) {
    |fin| == |t| && forall k: nat :: k < |t| && !SlotOf(k, large) ==> fin[k] == t[k]
  }

  lemma ElsewhereSlot(fin: seq<Entry>, t: seq<Entry>, large: nat, other: nat, k: nat)
    requires SameElsewhere(fin, t, large) && other != large && SlotOf(k, other)
    ensures At(fin, k) == At(t, k)
  {
    if SlotOf(k, large) {
      SlotsApart(k, large, other);
    }
  }

  lemma ElsewhereView(fin: seq<Entry>, t: seq<Entry>, large: nat, page: nat)
    requires SameElsewhere(fin, t, large) && page / TABLE_SIZE != large
    ensures View(fin, page) == View(t, page)
  {
    hide P1Slot, P2Slot, SameElsewhere;
    ElsewhereSlot(fin, t, large, page / TABLE_SIZE, P2Slot(page / TABLE_SIZE));
    ElsewhereSlot(fin, t, large, page / TABLE_SIZE, P1Slot(page / TABLE_SIZE) + page % TABLE_SIZE);
  }

  lemma ElsewhereTidy(fin: seq<Entry>, t: seq<Entry>, base: nat, tables: nat, large: nat)
    requires SameElsewhere(fin, t, large) && Tidy(t, base, tables) && TidyAt(fin, base, large)
    ensures Tidy(fin, base, tables)
  {
    hide P1Slot, P2Slot;
    forall other: nat ensures TidyAt(fin, base, other) {
      assert TidyAt(t, base, other);
      if other != large {
        ElsewhereSlot(fin, t, large, other, P2Slot(other));
      }
    }
  }

  lemma ElsewhereFree(fin: seq<Entry>, t: seq<Entry>, large: nat, from: nat)
    requires SameElsewhere(fin, t, large) && large < from
    requires forall other: nat :: other >= from ==> Free(t, other)
    ensures forall other: nat :: other >= from ==> Free(fin, other)
  {
    hide P1Slot, P2Slot;
    forall other: nat | other >= from ensures Free(fin, other) {
      ElsewhereSlot(fin, t, large, other, P2Slot(other));
      assert Free(t, other);
    }
  }

  /** Entries `[lo, hi)` filled with zeros. */
  function Cleared(t: seq<Entry>, lo: nat, hi: nat): (r: seq<Entry>)
    requires lo <= hi <= |t|
    ensures |r| == |t|
    ensures forall k: nat :: k < |t| ==> r[k] == if lo <= k < hi then ABSENT else t[k]
  {
    t[..lo] + seq(hi - lo, _ => ABSENT) + t[hi..]
  }

  lemma ClearedElsewhere(t: seq<Entry>, lo: nat, hi: nat, large: nat)
    requires P1Slot(large) <= lo <= hi <= P1Slot(large) + TABLE_SIZE && hi <= |t|
    ensures SameElsewhere(Cleared(t, lo, hi), t, large) && At(Cleared(t, lo, hi), P2Slot(large)) == At(t, P2Slot(large))
  {
    SlotsApart(P2Slot(large), large, large);
    hide P1Slot, P2Slot, Cleared;
  }

  lemma ElsewhereTwice(fin: seq<Entry>, mid: seq<Entry>, t: seq<Entry>, large: nat)
    requires SameElsewhere(fin, mid, large) && SameElsewhere(mid, t, large)
    ensures SameElsewhere(fin, t, large)
  {
    hide SlotOf;
  }

  lemma UpdateElsewhere(t: seq<Entry>, k: nat, e: Entry, large: nat)
    requires k < |t| && SlotOf(k, large)
    ensures SameElsewhere(t[k := e], t, large)
  {
    hide P1Slot, P2Slot;
  }

  /** The pages below the current large page are unaffected by changes to its slots. */
  lemma ElsewhereAgrees(fin: seq<Entry>, t: seq<Entry>, ranges: seq<Range>, large: nat)
    requires SameElsewhere(fin, t, large)
    requires forall page: nat :: page < large * TABLE_SIZE ==> Agrees(t, ranges, page)
    ensures forall page: nat :: page < large * TABLE_SIZE ==> Agrees(fin, ranges, page)
  {
    hide P1Slot, P2Slot, SameElsewhere, View, Lookup;
    forall page: nat | page < large * TABLE_SIZE ensures Agrees(fin, ranges, page) {
      assert Agrees(t, ranges, page);
      ElsewhereView(fin, t, large, page);
    }
  }

  // ---------------------------------------------------------------- steps of `SetRange`

  /** Number of the first large page boundary at or after a page, in pages. */
  function CeilLarge(page: nat): nat {
    (page + TABLE_SIZE - 1) / TABLE_SIZE * TABLE_SIZE
  }

  lemma AgreesAdded(t: seq<Entry>, ranges: seq<Range>, r: Range)
    requires forall page: nat :: page < r.first ==> Agrees(t, ranges, page)
    ensures forall page: nat :: page < r.first ==> Agrees(t, ranges + [r], page)
  {
    hide View, Lookup;
    forall page: nat | page < r.first ensures Agrees(t, ranges + [r], page) {
      assert Agrees(t, ranges, page);
      LookupAdded(ranges, r, page);
    }
  }

  /** The first large page needs no p1 table, or has it already. */
  lemma StartDirect(t: seq<Entry>, base: nat, tables: nat, ranges: seq<Range>, prev: nat, r: Range)
    requires Closed(t, base, tables, ranges, prev) && prev <= r.first
    requires CeilLarge(prev) > r.first || r.first % TABLE_SIZE == 0
    ensures Built(t, base, tables, ranges + [r], r.first)
  {
    hide Tidy, Agrees, Free, P2Slot, P1Slot, Pointer, Lookup;
    AgreesAdded(t, ranges, r);
    if r.first % TABLE_SIZE != 0 {
      assert r.first / TABLE_SIZE == prev / TABLE_SIZE && prev % TABLE_SIZE != 0;
    }
  }

  /** The first large page gets its p1 table, cleared up to the first page of the range. */
  lemma StartTable(t: seq<Entry>, base: nat, tables: nat, ranges: seq<Range>, prev: nat, r: Range)
    requires Closed(t, base, tables, ranges, prev) && CeilLarge(prev) <= r.first && r.first % TABLE_SIZE != 0
    requires r.first / TABLE_SIZE < tables * TABLE_SIZE
    ensures var large := r.first / TABLE_SIZE;
            && P2Slot(large) < |t| && P1Slot(large) + TABLE_SIZE <= |t|
            && Built(Cleared(t[P2Slot(large) := Pointer(base, large)], P1Slot(large), P1Slot(large) + r.first % TABLE_SIZE),
                     base, tables, ranges + [r], r.first)
  {
    hide P2Slot, P1Slot, Lookup, SameElsewhere, Free, Tidy, Cleared;
    var large: nat := r.first / TABLE_SIZE;
    SlotsInside(large, tables);
    TidySize(t, base, tables);
    var mid := t[P2Slot(large) := Pointer(base, large)];
    var fin := Cleared(mid, P1Slot(large), P1Slot(large) + r.first % TABLE_SIZE);
    UpdateElsewhere(t, P2Slot(large), Pointer(base, large), large);
    ClearedElsewhere(mid, P1Slot(large), P1Slot(large) + r.first % TABLE_SIZE, large);
    ElsewhereTwice(fin, mid, t, large);
    ElsewhereTidy(fin, t, base, tables, large);
    ElsewhereFree(fin, t, large, large + 1);
    ElsewhereAgrees(fin, t, ranges, large);
    forall page: nat | page < r.first ensures Agrees(fin, ranges, page) {
      if page >= large * TABLE_SIZE {
        assert page / TABLE_SIZE == large;
        assert At(fin, P1Slot(large) + page % TABLE_SIZE) == ABSENT;
      }
    }
    AgreesAdded(fin, ranges, r);
    FreeFrom(fin, large + 1, r.first);
  }

  lemma FreeFrom(t: seq<Entry>, large: nat, next: nat)
    requires forall other: nat :: other >= large ==> Free(t, other)
    requires (large - 1) * TABLE_SIZE < next
    ensures forall other: nat :: other * TABLE_SIZE >= next ==> Free(t, other)
  {
    hide Free;
  }

  ghost predicate InRange(ranges: seq<Range>, r: Range) {
    |ranges| > 0 && ranges[|ranges| - 1] == r
  }

  lemma LargeStep(t: seq<Entry>, base: nat, tables: nat, ranges: seq<Range>, next: nat, r: Range)
    requires Built(t, base, tables, ranges, next) && next % TABLE_SIZE == 0 && InRange(ranges, r)
    requires r.first <= next && next + TABLE_SIZE <= r.past && r.frame % TABLE_SIZE == r.first % TABLE_SIZE
    requires next / TABLE_SIZE < tables * TABLE_SIZE
    ensures P2Slot(next / TABLE_SIZE) < |t|
    ensures Built(t[P2Slot(next / TABLE_SIZE) := Entry(r.frame + (next - r.first), true, r.writable, r.user, true)], base, tables, ranges, next + TABLE_SIZE)
  {
    hide P2Slot, P1Slot, SameElsewhere, Free;
    var large: nat := next / TABLE_SIZE;
    SlotsInside(large, tables);
    var d := Entry(r.frame + (next - r.first), true, r.writable, r.user, true);
    var fin := t[P2Slot(large) := d];
    UpdateElsewhere(t, P2Slot(large), d, large);
    ElsewhereTidy(fin, t, base, tables, large);
    ElsewhereFree(fin, t, large, large + 1);
    ElsewhereAgrees(fin, t, ranges, large);
    forall page: nat | page < next + TABLE_SIZE ensures Agrees(fin, ranges, page) {
      if page >= next {
        LargePage(fin, ranges, next, r, d, page);
      }
    }
    FreeFrom(fin, large + 1, next + TABLE_SIZE);
  }

  lemma LargePage(fin: seq<Entry>, ranges: seq<Range>, next: nat, r: Range, d: Entry, page: nat)
    requires next % TABLE_SIZE == 0 && InRange(ranges, r) && r.first <= next && next + TABLE_SIZE <= r.past
    requires r.frame % TABLE_SIZE == r.first % TABLE_SIZE && d == Entry(r.frame + (next - r.first), true, r.writable, r.user, true)
    requires At(fin, P2Slot(next / TABLE_SIZE)) == d && next <= page < next + TABLE_SIZE
    ensures Agrees(fin, ranges, page)
  {
    hide P2Slot, P1Slot;
    assert d.frame % TABLE_SIZE == 0;
    assert page / TABLE_SIZE == next / TABLE_SIZE && page % TABLE_SIZE == page - next;
  }

  lemma OpenStep(t: seq<Entry>, base: nat, tables: nat, ranges: seq<Range>, next: nat)
    requires Built(t, base, tables, ranges, next) && next % TABLE_SIZE == 0 && next / TABLE_SIZE < tables * TABLE_SIZE
    ensures P2Slot(next / TABLE_SIZE) < |t|
    ensures Opened(t[P2Slot(next / TABLE_SIZE) := Pointer(base, next / TABLE_SIZE)], base, tables, ranges, next)
  {
    hide P2Slot, P1Slot, SameElsewhere, Free, Agrees;
    var large: nat := next / TABLE_SIZE;
    SlotsInside(large, tables);
    var fin := t[P2Slot(large) := Pointer(base, large)];
    UpdateElsewhere(t, P2Slot(large), Pointer(base, large), large);
    ElsewhereTidy(fin, t, base, tables, large);
    ElsewhereFree(fin, t, large, large + 1);
    ElsewhereAgrees(fin, t, ranges, large);
  }

  lemma BuiltOpened(t: seq<Entry>, base: nat, tables: nat, ranges: seq<Range>, next: nat)
    requires Built(t, base, tables, ranges, next) && next % TABLE_SIZE != 0
    ensures Opened(t, base, tables, ranges, next)
  {
    hide Tidy, Agrees, Free, P2Slot, P1Slot, Pointer;
  }

  lemma SmallStep(t: seq<Entry>, base: nat, tables: nat, ranges: seq<Range>, next: nat, r: Range)
    requires Opened(t, base, tables, ranges, next) && InRange(ranges, r) && r.first <= next < r.past
    requires next / TABLE_SIZE < tables * TABLE_SIZE
    ensures P1Slot(next / TABLE_SIZE) + next % TABLE_SIZE < |t|
    ensures Built(t[P1Slot(next / TABLE_SIZE) + next % TABLE_SIZE := Entry(r.frame + (next - r.first), true, r.writable, r.user, false)], base, tables, ranges, next + 1)
  {
    hide P2Slot, P1Slot, SameElsewhere, Free, Tidy, Lookup;
    var large: nat := next / TABLE_SIZE;
    SlotsInside(large, tables);
    TidySize(t, base, tables);
    var e := Entry(r.frame + (next - r.first), true, r.writable, r.user, false);
    var k: nat := P1Slot(large) + next % TABLE_SIZE;
    var fin := t[k := e];
    UpdateElsewhere(t, k, e, large);
    SlotsApart(k, large, large);
    ElsewhereTidy(fin, t, base, tables, large);
    ElsewhereFree(fin, t, large, large + 1);
    ElsewhereAgrees(fin, t, ranges, large);
    forall page: nat | page < next + 1 ensures Agrees(fin, ranges, page) {
      if page >= large * TABLE_SIZE {
        SmallPage(fin, t, base, ranges, next, r, e, page);
      }
    }
    FreeFrom(fin, large + 1, next + 1);
  }

  lemma TidySize(t: seq<Entry>, base: nat, tables: nat)
    requires Tidy(t, base, tables)
    ensures |t| == tables * (TABLE_SIZE + 1) * TABLE_SIZE
  {
  }

  lemma SmallPage(fin: seq<Entry>, t: seq<Entry>, base: nat, ranges: seq<Range>, next: nat, r: Range, e: Entry, page: nat)
    requires InRange(ranges, r) && r.first <= next < r.past && next / TABLE_SIZE * TABLE_SIZE <= page <= next
    requires var large := next / TABLE_SIZE;
             && P1Slot(large) + next % TABLE_SIZE < |t| && fin == t[P1Slot(large) + next % TABLE_SIZE := e]
             && P2Slot(large) < P1Slot(large) && At(t, P2Slot(large)) == Pointer(base, large)
    requires e == Entry(r.frame + (next - r.first), true, r.writable, r.user, false)
    requires page < next ==> Agrees(t, ranges, page)
    ensures Agrees(fin, ranges, page)
  {
    hide P2Slot, P1Slot;
    assert page / TABLE_SIZE == next / TABLE_SIZE;
  }

  /** Nothing to clear behind the last page. */
  lemma CloseDirect(t: seq<Entry>, base: nat, tables: nat, ranges: seq<Range>, next: nat)
    requires Built(t, base, tables, ranges, next) && next % TABLE_SIZE == 0
    requires forall page: nat :: page >= next ==> Lookup(ranges, page) == None
    ensures Closed(t, base, tables, ranges, next)
  {
    hide P2Slot, P1Slot, Tidy, Lookup;
    forall page: nat | page >= next ensures Agrees(t, ranges, page) {
      assert page / TABLE_SIZE * TABLE_SIZE >= next;
      assert Free(t, page / TABLE_SIZE);
    }
  }

  /** Clearing the rest of the last p1 table. */
  lemma CloseTable(t: seq<Entry>, base: nat, tables: nat, ranges: seq<Range>, next: nat)
    requires Built(t, base, tables, ranges, next) && next % TABLE_SIZE != 0 && next / TABLE_SIZE < tables * TABLE_SIZE
    requires forall page: nat :: page >= next ==> Lookup(ranges, page) == None
    ensures var large := next / TABLE_SIZE;
            && P1Slot(large) + TABLE_SIZE <= |t|
            && Closed(Cleared(t, P1Slot(large) + next % TABLE_SIZE, P1Slot(large) + TABLE_SIZE), base, tables, ranges, next)
  {
    hide P2Slot, P1Slot, SameElsewhere, Free, Tidy, Lookup, Agrees, Pointer, Cleared;
    var large: nat := next / TABLE_SIZE;
    SlotsInside(large, tables);
    TidySize(t, base, tables);
    var fin := Cleared(t, P1Slot(large) + next % TABLE_SIZE, P1Slot(large) + TABLE_SIZE);
    ClearedElsewhere(t, P1Slot(large) + next % TABLE_SIZE, P1Slot(large) + TABLE_SIZE, large);
    TidyAtKept(fin, t, base, tables, large);
    ElsewhereTidy(fin, t, base, tables, large);
    BuiltOpened(t, base, tables, ranges, next);
    ElsewhereFree(fin, t, large, large + 1);
    FreeFrom(fin, large + 1, next);
    forall page: nat ensures Agrees(fin, ranges, page) {
      ClosePage(fin, t, base, tables, ranges, next, page);
    }
  }

  lemma TidyAtKept(fin: seq<Entry>, t: seq<Entry>, base: nat, tables: nat, large: nat)
    requires Tidy(t, base, tables) && At(fin, P2Slot(large)) == At(t, P2Slot(large))
    ensures TidyAt(fin, base, large)
  {
    assert TidyAt(t, base, large);
  }

  lemma ClosePage(fin: seq<Entry>, t: seq<Entry>, base: nat, tables: nat, ranges: seq<Range>, next: nat, page: nat)
    requires Built(t, base, tables, ranges, next) && next % TABLE_SIZE != 0 && P1Slot(next / TABLE_SIZE) + TABLE_SIZE <= |t|
    requires page >= next ==> Lookup(ranges, page) == None
    requires var large := next / TABLE_SIZE;
             && SameElsewhere(fin, t, large) && At(fin, P2Slot(large)) == At(t, P2Slot(large))
             && fin == Cleared(t, P1Slot(large) + next % TABLE_SIZE, P1Slot(large) + TABLE_SIZE)
    ensures Agrees(fin, ranges, page)
  {
    hide P2Slot, P1Slot, SameElsewhere, Tidy, Lookup, Cleared;
    var large: nat := next / TABLE_SIZE;
    if page / TABLE_SIZE == large {
      assert At(fin, P1Slot(large) + page % TABLE_SIZE) == if page >= next then ABSENT else At(t, P1Slot(large) + page % TABLE_SIZE);
    } else {
      ElsewhereView(fin, t, large, page);
    }
    if page < next {
      assert Agrees(t, ranges, page);
    } else if page / TABLE_SIZE != large {
      assert page / TABLE_SIZE * TABLE_SIZE >= next;
      assert Free(t, page / TABLE_SIZE);
    }
  }

  // ---------------------------------------------------------------- operations

  method Clear(table: array<Entry>, lo: nat, hi: nat)
    requires lo <= hi <= table.Length
    modifies table
    ensures table[..] == Cleared(old(table[..]), lo, hi)
  {
    hide Cleared;
    var k: nat := lo;
    while k < hi
      invariant lo <= k <= hi
      invariant forall j: nat :: j < table.Length ==> table[j] == if lo <= j < k then ABSENT else old(table[j])
    {
      table[k] := ABSENT;
      k := k + 1;
    }
    assert table[..] == Cleared(old(table[..]), lo, hi);
  }

  /** Installs the p1 table that the first page of a range needs. */
  method StartRange(table: array<Entry>, base: nat, first: nat, prev: nat, ghost tables: nat, ghost ranges: seq<Range>, ghost r: Range)
    requires Closed(table[..], base, tables, ranges, prev) && prev <= first == r.first <= r.past
    requires first < tables * TABLE_SIZE * TABLE_SIZE || first % TABLE_SIZE == 0
    modifies table
    ensures Built(table[..], base, tables, ranges + [r], first)
  {
    hide Closed, Built, P2Slot, P1Slot, Cleared, CeilLarge, Pointer;
    if CeilLarge(prev) <= first && first % TABLE_SIZE != 0 {
      StartTable(table[..], base, tables, ranges, prev, r);
      var (p2Base, p2Entry) := GetP2(first);
      var p1Offset: nat := p2Base + (1 + p2Entry) * TABLE_SIZE;
      PointerIs(base, first / TABLE_SIZE);
      ghost var ini := table[..];
      table[p2Base + p2Entry] := Entry(base + p1Offset / TABLE_SIZE, true, true, true, false);
      assert table[..] == ini[P2Slot(first / TABLE_SIZE) := Pointer(base, first / TABLE_SIZE)];
      Clear(table, p1Offset, p1Offset + first % TABLE_SIZE);
    } else {
      StartDirect(table[..], base, tables, ranges, prev, r);
    }
  }

  lemma PointerIs(base: nat, large: nat)
    ensures Pointer(base, large) == Entry(base + P1Slot(large) / TABLE_SIZE, true, true, true, false)
  {
  }

  lemma LargeInside(page: nat, tables: nat)
    requires page < tables * TABLE_SIZE * TABLE_SIZE
    ensures page / TABLE_SIZE < tables * TABLE_SIZE
  {
  }

  /** Clears what is left of the last p1 table. */
  method EndRange(table: array<Entry>, ghost base: nat, past: nat, ghost tables: nat, ghost ranges: seq<Range>)
    requires Built(table[..], base, tables, ranges, past) && past <= tables * TABLE_SIZE * TABLE_SIZE
    requires forall page: nat :: page >= past ==> Lookup(ranges, page) == None
    modifies table
    ensures Closed(table[..], base, tables, ranges, past)
  {
    hide Closed, Built, P2Slot, P1Slot, Cleared, Lookup;
    if past % TABLE_SIZE != 0 {
      LargeInside(past, tables);
      CloseTable(table[..], base, tables, ranges, past);
      LastSlot(past);
      SlotsInside(past / TABLE_SIZE, tables);
      var last: nat := past + TABLE_SIZE * (1 + past / (TABLE_SIZE * TABLE_SIZE));
      CeilSlot(past / TABLE_SIZE, past % TABLE_SIZE);
      Clear(table, last, CeilLarge(last));
    } else {
      CloseDirect(table[..], base, tables, ranges, past);
    }
  }

  lemma CeilSlot(large: nat, i: nat)
    requires 0 < i < TABLE_SIZE
    ensures CeilLarge(P1Slot(large) + i) == P1Slot(large) + TABLE_SIZE
  {
    var m := large / TABLE_SIZE * (TABLE_SIZE + 1) + 1 + large % TABLE_SIZE;
    Quotient(P1Slot(large) + i + TABLE_SIZE - 1, TABLE_SIZE, m + 1, i - 1);
  }

  lemma NothingBehind(ranges: seq<Range>, r: Range, prev: nat)
    requires forall page: nat :: page >= prev ==> Lookup(ranges, page) == None
    requires prev <= r.past
    ensures forall page: nat :: page >= r.past ==> Lookup(ranges + [r], page) == None
  {
    hide Lookup;
    forall page: nat | page >= r.past ensures Lookup(ranges + [r], page) == None {
      LookupAdded(ranges, r, page);
    }
  }

  /** One large page of a range. */
  method SetLarge(table: array<Entry>, ghost base: nat, current: nat, physical: nat, ghost tables: nat, ghost all: seq<Range>, r: Range)
    requires Built(table[..], base, tables, all, current) && current % TABLE_SIZE == 0 && InRange(all, r)
    requires r.first <= current && current + TABLE_SIZE <= r.past <= tables * TABLE_SIZE * TABLE_SIZE
    requires r.frame % TABLE_SIZE == r.first % TABLE_SIZE && physical == r.frame + (current - r.first)
    modifies table
    ensures Built(table[..], base, tables, all, current + TABLE_SIZE)
  {
    hide Built, P2Slot, P1Slot;
    ghost var ini := table[..];
    var (p2Base, p2Entry) := GetP2(current);
    LargeInside(current, tables);
    LargeStep(ini, base, tables, all, current, r);
    table[p2Base + p2Entry] := Entry(physical, true, r.writable, r.user, true);
    assert table[..] == ini[P2Slot(current / TABLE_SIZE) := Entry(physical, true, r.writable, r.user, true)];
  }

  /** One small page of a range, with the p1 table it needs when it is the first of its large page. */
  method SetSmall(table: array<Entry>, base: nat, current: nat, physical: nat, ghost tables: nat, ghost all: seq<Range>, r: Range)
    requires Built(table[..], base, tables, all, current) && InRange(all, r)
    requires r.first <= current < r.past <= tables * TABLE_SIZE * TABLE_SIZE && physical == r.frame + (current - r.first)
    modifies table
    ensures Built(table[..], base, tables, all, current + 1)
  {
    hide Built, Opened, P2Slot, P1Slot, Pointer;
    ghost var ini := table[..];
    var (p2Base, p2Entry) := GetP2(current);
    LargeInside(current, tables);
    if current % TABLE_SIZE == 0 {
      OpenStep(ini, base, tables, all, current);
      PointerIs(base, current / TABLE_SIZE);
      table[p2Base + p2Entry] := Entry(base + (p2Base + (1 + p2Entry) * TABLE_SIZE) / TABLE_SIZE, true, true, true, false);
      assert table[..] == ini[P2Slot(current / TABLE_SIZE) := Pointer(base, current / TABLE_SIZE)];
    } else {
      BuiltOpened(ini, base, tables, all, current);
    }
    ghost var mid := table[..];
    SmallStep(mid, base, tables, all, current, r);
    var p1Base: nat := p2Base + (1 + p2Entry) * TABLE_SIZE;
    table[p1Base + current % TABLE_SIZE] := Entry(physical, true, r.writable, r.user, false);
    assert table[..] == mid[P1Slot(current / TABLE_SIZE) + current % TABLE_SIZE := Entry(physical, true, r.writable, r.user, false)];
  }

  /** Adds one range behind those already installed: afterwards every page is translated as the
      ranges say, those of the new range included, and every page of none of them is absent. */
  method SetRange(table: array<Entry>, base: nat, first: nat, past: nat, writable: bool, user: bool, frame: nat, prev: nat,
                  ghost tables: nat, ghost ranges: seq<Range>) returns (next: nat)
    requires Closed(table[..], base, tables, ranges, prev)
    requires prev <= first <= past <= tables * TABLE_SIZE * TABLE_SIZE && frame % TABLE_SIZE == first % TABLE_SIZE
    modifies table
    ensures next == past
    ensures Closed(table[..], base, tables, ranges + [Range(first, past, frame, writable, user)], past)
  {
    hide Closed, Built, Lookup;
    var r := Range(first, past, frame, writable, user);
    ghost var all := ranges + [r];
    ClosedBehind(table[..], base, tables, ranges, prev);
    NothingBehind(ranges, r, prev);
    StartRange(table, base, first, prev, tables, ranges, r);
    var current: nat, physical: nat := first, frame;
    while current < past
      invariant first <= current <= past && physical == frame + (current - first)
      invariant Built(table[..], base, tables, all, current)
    {
      if current % TABLE_SIZE == 0 && current + TABLE_SIZE <= past {
        SetLarge(table, base, current, physical, tables, all, r);
        physical := physical + TABLE_SIZE;
        current := current + TABLE_SIZE;
      } else {
        SetSmall(table, base, current, physical, tables, all, r);
        physical := physical + 1;
        current := current + 1;
      }
    }
    EndRange(table, base, past, tables, all);
    return past;
  }

  lemma ClosedBehind(t: seq<Entry>, base: nat, tables: nat, ranges: seq<Range>, next: nat)
    requires Closed(t, base, tables, ranges, next)
    ensures forall page: nat :: page >= next ==> Lookup(ranges, page) == None
  {
  }
}
