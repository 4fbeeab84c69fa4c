/** The sparse page overlay of a KVM context: which bytes are local, which are
    borrowed from another context, and which are undefined. */
module Overlay {
  import opened Common

  /** A context that is shared behind an `Arc` can no longer change, so it is a value.
      `Bytes` stands for every context that is not a KVM context: its content is
      the concatenation of its frames. */
  datatype Context =
    | Kvm(overlay: OverlayMap, storage: seq<byte>)
    | Bytes(frames: seq<seq<byte>>)

  datatype OverlayItem = OverlayItem(context: Context, offset: nat)

  datatype Segment = Segment(start: nat, item: Option<OverlayItem>)

  /** A segment with its key. */
  datatype Entry = Entry(key: nat, segment: Segment)

  /** Keyed by the index of the last byte of the segment. */
  type OverlayMap = map<nat, Segment>

  /** Where the content of one address lives. */
  datatype Place = Local | Remote(context: Context, offset: nat)

  function RoundDown(a: nat): (r: nat)
    ensures r <= a < r + PAGE_SIZE && r % PAGE_SIZE == 0
  {
    a / PAGE_SIZE * PAGE_SIZE
  }

  function RoundUp(a: nat): (r: nat)
    ensures a <= r < a + PAGE_SIZE && r % PAGE_SIZE == 0
  {
    (a + PAGE_SIZE - 1) / PAGE_SIZE * PAGE_SIZE
  }

  /** `[lo, hi)` touches at least one page: it is not empty, or lies inside of a page. */
  predicate Touching(lo: nat, hi: nat) {
    lo <= hi && RoundDown(lo) < RoundUp(hi)
  }

  // ---------------------------------------------------------------- lookup

  ghost predicate Covers(ov: OverlayMap, e: nat, a: nat) {
    e in ov && ov[e].start <= a <= e
  }

  /** Segments are nonempty and do not overlap. */
  ghost predicate Disjoint(ov: OverlayMap) {
    && (forall e: nat :: e in ov ==> ov[e].start <= e)
    && (forall e: nat, f: nat :: e in ov && f in ov && e < f ==> e < ov[f].start)
  }

  ghost predicate Aligned(ov: OverlayMap) {
    forall e: nat :: e in ov ==> ov[e].start % PAGE_SIZE == 0 && (e + 1) % PAGE_SIZE == 0
  }

  function PlaceOf(item: Option<OverlayItem>, distance: nat): Place {
    match item
    case None => Local
    case Some(i) => Remote(i.context, i.offset + distance)
  }

  /** The segment that contains `a`, if there is one, is the first that ends at or after it. */
  function Resolve(ov: OverlayMap, a: nat): Option<Place> {
    var e := NextKey(ov, a);
    if e.Some? && ov[e.value].start <= a then Some(PlaceOf(ov[e.value].item, a - ov[e.value].start)) else None
  }

  lemma ResolveCovered(ov: OverlayMap, e: nat, a: nat)
    requires Disjoint(ov) && Covers(ov, e, a)
    ensures Resolve(ov, a) == Some(PlaceOf(ov[e].item, a - ov[e].start))
  {
    var f := NextKey(ov, a).value;
    assert f == e;
  }

  lemma ResolveUncovered(ov: OverlayMap, a: nat)
    requires forall e: nat :: !Covers(ov, e, a)
    ensures Resolve(ov, a) == None
  {
    var f := NextKey(ov, a);
    assert f.Some? ==> !Covers(ov, f.value, a);
  }

  /** The segment that contains `a`, if there is one. */
  lemma Find(ov: OverlayMap, a: nat) returns (e: Option<nat>)
    ensures e.Some? ==> Covers(ov, e.value, a) && Resolve(ov, a) == Some(PlaceOf(ov[e.value].item, a - ov[e.value].start))
    ensures e.None? ==> Resolve(ov, a) == None
  {
    e := NextKey(ov, a);
    if e.Some? && ov[e.value].start > a {
      e := None;
    }
  }

  // ---------------------------------------------------------------- update

  function Shift(item: Option<OverlayItem>, d: nat): Option<OverlayItem> {
    match item
    case None => None
    case Some(i) => Some(i.(offset := i.offset + d))
  }

  /** The segment that reaches `s - 1` or further although it starts before `s`. */
  ghost predicate Straddles(ov: OverlayMap, s: nat, x: nat) {
    x in ov && s <= x + 1 && ov[x].start < s
  }

  ghost function Straddler(ov: OverlayMap, s: nat): (r: Option<nat>)
    ensures r.Some? ==> Straddles(ov, s, r.value)
  {
    var x := NextKey(ov, if s == 0 then 0 else s - 1);
    if x.Some? && ov[x.value].start < s then x else None
  }

  /** The part of the overlay below `s`. */
  ghost function Left(ov: OverlayMap, s: nat): OverlayMap {
    var kept := map e | e in ov && e + 1 < s :: ov[e];
    var x := Straddler(ov, s);
    if x.Some? then kept[s - 1 := ov[x.value]] else kept
  }

  /** One segment cut to the addresses from `t` on. */
  function CutFront(g: Segment, t: nat): Segment {
    if g.start < t then Segment(t, Shift(g.item, t - g.start)) else g
  }

  /** The part of the overlay from `t` on. */
  ghost function Right(ov: OverlayMap, t: nat): OverlayMap {
    map e | e in ov && e >= t :: CutFront(ov[e], t)
  }

  /** A local segment that touches a local range `[s, t)` from below is absorbed. */
  ghost predicate AbsorbsFront(ov: OverlayMap, s: nat, item: Option<OverlayItem>) {
    item.None? && s > 0 && s - 1 in Left(ov, s) && Left(ov, s)[s - 1].item.None?
  }

  /** The key of the local segment that continues a local range `[s, t)` past `t`; the scan
      stops earlier when some segment ends exactly at `t - 1`. */
  ghost predicate AbsorbsBack(ov: OverlayMap, t: nat, item: Option<OverlayItem>, r: nat)
    requires 0 < t
  {
    item.None? && t - 1 !in ov && r in Right(ov, t) && Right(ov, t)[r].start == t && Right(ov, t)[r].item.None?
  }

  ghost function NewKey(ov: OverlayMap, t: nat, item: Option<OverlayItem>): (k: nat)
    requires 0 < t
    ensures k >= t - 1
  {
    if exists r: nat :: AbsorbsBack(ov, t, item, r) then
      var r: nat :| AbsorbsBack(ov, t, item, r);
      r
    else
      t - 1
  }

  ghost function NewStart(ov: OverlayMap, s: nat, item: Option<OverlayItem>): (k: nat)
  {
    if AbsorbsFront(ov, s, item) then Left(ov, s)[s - 1].start else s
  }

  ghost function LeftRest(ov: OverlayMap, s: nat, item: Option<OverlayItem>): OverlayMap {
    if AbsorbsFront(ov, s, item) then Left(ov, s) - {s - 1} else Left(ov, s)
  }

  lemma LeftDisjoint(ov: OverlayMap, s: nat)
    requires Disjoint(ov)
    ensures Disjoint(Left(ov, s))
    ensures forall e: nat :: e in Left(ov, s) ==> e < s
  {
  }

  lemma LeftResolves(ov: OverlayMap, s: nat, a: nat)
    requires Disjoint(ov)
    ensures Resolve(Left(ov, s), a) == if a < s then Resolve(ov, a) else None
  {
    hide Resolve;
    LeftDisjoint(ov, s);
    var l, x := Left(ov, s), Straddler(ov, s);
    var e := Find(ov, a);
    var f := Find(l, a);
    if x.Some? && ov[x.value].start <= a < s {
      ResolveCovered(ov, x.value, a);
      ResolveCovered(l, s - 1, a);
    } else if e.Some? && a < s {
      ResolveCovered(l, e.value, a);
    } else if f.Some? {
      assert Covers(ov, f.value, a);
      ResolveCovered(ov, f.value, a);
    }
  }

  lemma RightDisjoint(ov: OverlayMap, t: nat)
    requires Disjoint(ov)
    ensures Disjoint(Right(ov, t))
    ensures forall e: nat :: e in Right(ov, t) ==> t <= Right(ov, t)[e].start
  {
  }

  lemma RightResolves(ov: OverlayMap, t: nat, a: nat)
    requires Disjoint(ov)
    ensures Resolve(Right(ov, t), a) == if a >= t then Resolve(ov, a) else None
  {
    RightDisjoint(ov, t);
    hide Resolve;
    var e := Find(ov, a);
    var f := Find(Right(ov, t), a);
    if e.Some? && a >= t {
      ResolveCovered(Right(ov, t), e.value, a);
    } else if f.Some? {
      ResolveCovered(ov, f.value, a);
    }
  }

  lemma NewKeyFacts(ov: OverlayMap, t: nat, item: Option<OverlayItem>)
    requires Disjoint(ov) && 0 < t
    ensures var k := NewKey(ov, t, item);
            || AbsorbsBack(ov, t, item, k)
            || (k == t - 1 && k !in Right(ov, t))
  {
    RightDisjoint(ov, t);
  }

  lemma LeftRestFacts(ov: OverlayMap, s: nat, item: Option<OverlayItem>)
    requires Disjoint(ov)
    ensures Disjoint(LeftRest(ov, s, item)) && NewStart(ov, s, item) <= s
    ensures forall e: nat :: e in LeftRest(ov, s, item) ==> e < NewStart(ov, s, item)
  {
    LeftDisjoint(ov, s);
  }

  /** Two disjoint overlays with one segment between them. */
  ghost predicate Pieces(fin: OverlayMap, left: OverlayMap, right: OverlayMap, k: nat, n: nat) {
    && Disjoint(left) && Disjoint(right) && n <= k
    && (forall e: nat :: e in left ==> e < n)
    && (forall e: nat :: e in right && e != k ==> k < right[e].start)
    && k in fin && fin[k].start == n
    && (forall e: nat :: e in left ==> e in fin && fin[e] == left[e])
    && (forall e: nat :: e in right && e != k ==> e in fin && fin[e] == right[e])
    && (forall e: nat :: e in fin ==> e in left || e in right || e == k)
  }

  lemma PiecesDisjoint(fin: OverlayMap, left: OverlayMap, right: OverlayMap, k: nat, n: nat)
    requires Pieces(fin, left, right, k, n)
    ensures Disjoint(fin)
  {
  }

  lemma PiecesResolve(fin: OverlayMap, left: OverlayMap, right: OverlayMap, k: nat, n: nat, a: nat)
    requires Pieces(fin, left, right, k, n)
    ensures Resolve(fin, a) ==
            if a < n then Resolve(left, a)
            else if a <= k then Some(PlaceOf(fin[k].item, a - n))
            else Resolve(right, a)
  {
    PiecesDisjoint(fin, left, right, k, n);
    hide Resolve, Disjoint;
    var e := Find(if a < n then left else right, a);
    var f := Find(fin, a);
    if n <= a <= k {
      ResolveCovered(fin, k, a);
    } else if e.Some? {
      ResolveCovered(fin, e.value, a);
    } else if f.Some? {
      ResolveCovered(if a < n then left else right, f.value, a);
    }
  }

  /** `fin` is `ov` with `[s, t)` replaced by one segment: what lies below, what lies above,
      and the new segment, which swallows local neighbours when it is local itself. */
  ghost predicate Spliced(fin: OverlayMap, ov: OverlayMap, s: nat, t: nat, item: Option<OverlayItem>)
    requires s < t
  {
    var k := NewKey(ov, t, item);
    Pieces(fin, LeftRest(ov, s, item), Right(ov, t), k, NewStart(ov, s, item)) && fin[k].item == item
  }

  lemma RestResolves(left: OverlayMap, rest: OverlayMap, n: nat, a: nat)
    requires Disjoint(left) && a < n
    requires forall e: nat :: e in rest ==> e in left && rest[e] == left[e]
    requires forall e: nat :: e in left && e !in rest ==> n <= left[e].start
    ensures Resolve(rest, a) == Resolve(left, a)
  {
    var e := NextKey(left, a);
    if e.Some? && left[e.value].start <= a {
      ResolveCovered(left, e.value, a);
      ResolveCovered(rest, e.value, a);
    } else {
      ResolveUncovered(rest, a);
    }
  }

  /** Replacing a range is pointwise map update on what addresses resolve to. */
  lemma SplicedResolves(fin: OverlayMap, ov: OverlayMap, s: nat, t: nat, item: Option<OverlayItem>, a: nat)
    requires Disjoint(ov) && s < t && Spliced(fin, ov, s, t, item)
    ensures Disjoint(fin)
    ensures Resolve(fin, a) == if s <= a < t then Some(PlaceOf(item, a - s)) else Resolve(ov, a)
  {
    LeftResolves(ov, s, a);
    RightResolves(ov, t, a);
    PiecesDisjoint(fin, LeftRest(ov, s, item), Right(ov, t), NewKey(ov, t, item), NewStart(ov, s, item));
    PiecesResolve(fin, LeftRest(ov, s, item), Right(ov, t), NewKey(ov, t, item), NewStart(ov, s, item), a);
    if a < s {
      FrontResolves(ov, s, item, a);
    } else if t <= a <= NewKey(ov, t, item) {
      BackResolves(ov, t, item, a);
    }
  }

  /** Pointwise map update: inside `[s, t)` addresses resolve to the new item at the right
      distance, everywhere else to what they resolved to before. */
  ghost predicate Updates(fin: OverlayMap, ov: OverlayMap, s: nat, t: nat, item: Option<OverlayItem>) {
    forall a: nat :: Resolve(fin, a) == if s <= a < t then Some(PlaceOf(item, a - s)) else Resolve(ov, a)
  }

  lemma SplicedUpdates(fin: OverlayMap, ov: OverlayMap, s: nat, t: nat, item: Option<OverlayItem>)
    requires Disjoint(ov) && s < t && Spliced(fin, ov, s, t, item)
    ensures Disjoint(fin) && Updates(fin, ov, s, t, item)
    ensures Aligned(ov) && s % PAGE_SIZE == 0 && t % PAGE_SIZE == 0 ==> Aligned(fin)
  {
    hide Spliced, Disjoint, Resolve, Aligned;
    forall a: nat ensures Disjoint(fin) && Resolve(fin, a) == if s <= a < t then Some(PlaceOf(item, a - s)) else Resolve(ov, a) {
      SplicedResolves(fin, ov, s, t, item, a);
    }
    SplicedResolves(fin, ov, s, t, item, 0);
    if Aligned(ov) && s % PAGE_SIZE == 0 && t % PAGE_SIZE == 0 {
      SplicedAligned(fin, ov, s, t, item);
    }
  }

  lemma FrontResolves(ov: OverlayMap, s: nat, item: Option<OverlayItem>, a: nat)
    requires Disjoint(ov) && a < s
    ensures Resolve(Left(ov, s), a) ==
            if a < NewStart(ov, s, item) then Resolve(LeftRest(ov, s, item), a) else Some(Local)
    ensures a >= NewStart(ov, s, item) ==> item.None?
  {
    LeftDisjoint(ov, s);
    if a < NewStart(ov, s, item) {
      RestResolves(Left(ov, s), LeftRest(ov, s, item), NewStart(ov, s, item), a);
    } else {
      ResolveCovered(Left(ov, s), s - 1, a);
    }
  }

  lemma BackResolves(ov: OverlayMap, t: nat, item: Option<OverlayItem>, a: nat)
    requires Disjoint(ov) && 0 < t <= a <= NewKey(ov, t, item)
    ensures Resolve(Right(ov, t), a) == Some(Local) && item.None?
  {
    NewKeyFacts(ov, t, item);
    RightDisjoint(ov, t);
    ResolveCovered(Right(ov, t), NewKey(ov, t, item), a);
  }

  lemma LeftAligned(ov: OverlayMap, s: nat)
    requires Aligned(ov) && s % PAGE_SIZE == 0
    ensures Aligned(Left(ov, s))
  {
  }

  lemma RightAligned(ov: OverlayMap, t: nat)
    requires Aligned(ov) && t % PAGE_SIZE == 0
    ensures Aligned(Right(ov, t))
  {
  }

  lemma SplicedAligned(fin: OverlayMap, ov: OverlayMap, s: nat, t: nat, item: Option<OverlayItem>)
    requires Disjoint(ov) && s < t && Aligned(ov) && Spliced(fin, ov, s, t, item)
    requires s % PAGE_SIZE == 0 && t % PAGE_SIZE == 0
    ensures Aligned(fin)
  {
    NewKeyFacts(ov, t, item);
    LeftAligned(ov, s);
    RightAligned(ov, t);
    hide Left, Right, Disjoint, NewKey;
  }

  // ------------------------------------------------- what the loop leaves behind

  /** Keys that the scan removes: they end in the page before `s` or inside `[s, t)`. */
  ghost function Passed(ov: OverlayMap, s: nat, upTo: nat): set<nat> {
    set e | e in ov.Keys && s <= e + 1 && e < upTo
  }

  /** The straddling segment, once the scan has gone past key `upTo`. */
  ghost function Front(ov: OverlayMap, s: nat, upTo: nat, item: Option<OverlayItem>): Option<Entry> {
    var x := Straddler(ov, s);
    if x.Some? && x.value < upTo && !(item.None? && ov[x.value].item.None?)
    then Some(Entry(s - 1, ov[x.value])) else None
  }

  ghost function Start(ov: OverlayMap, s: nat, upTo: nat, item: Option<OverlayItem>): nat {
    var x := Straddler(ov, s);
    if x.Some? && x.value < upTo && item.None? && ov[x.value].item.None? then ov[x.value].start else s
  }

  function Put(ov: OverlayMap, entry: Option<Entry>): OverlayMap {
    if entry.Some? then ov[entry.value.key := entry.value.segment] else ov
  }

  /** The updates that are applied once the scan is over. */
  function Finish(ov: OverlayMap, removed: set<nat>, front: Option<Entry>, added: Option<Entry>): OverlayMap {
    Put(Put(ov - removed, front), added)
  }

  /** The scan has gone past the straddling segment, if there is one. */
  ghost predicate FrontSeen(ov: OverlayMap, s: nat, upTo: nat) {
    Straddler(ov, s).Some? ==> Straddler(ov, s).value < upTo
  }

  lemma LeftRestIs(ov: OverlayMap, s: nat, item: Option<OverlayItem>, upTo: nat)
    requires Disjoint(ov) && FrontSeen(ov, s, upTo)
    ensures Start(ov, s, upTo, item) == NewStart(ov, s, item)
    ensures LeftRest(ov, s, item) == Put(map e | e in ov && e + 1 < s :: ov[e], Front(ov, s, upTo, item))
  {
    var x := Straddler(ov, s);
    if x.None? {
      assert s > 0 ==> s - 1 !in Left(ov, s);
    } else if item.None? && ov[x.value].item.None? {
      assert AbsorbsFront(ov, s, item);
    }
  }

  /** Applying removals and insertions to the scanned overlay `cur` assembles the pieces:
      `cur` differs from `ov` at most at the segment that reaches past `t`. */
  lemma Assemble(ov: OverlayMap, cur: OverlayMap, fin: OverlayMap, s: nat, t: nat,
                 front: Option<Entry>, left: OverlayMap, right: OverlayMap, k: nat, n: nat)
    requires s < t && Disjoint(left) && Disjoint(right) && n <= s && t <= k + 1
    requires front.Some? ==> front.value.key + 1 == s
    requires left == Put(map e | e in ov && e + 1 < s :: ov[e], front)
    requires forall e: nat :: e in left ==> e < n
    requires forall e: nat :: e in right <==> e in ov && t <= e
    requires forall e: nat :: e in right && e != k ==> k < right[e].start
    requires cur.Keys == ov.Keys
    requires forall e: nat :: e in ov && e + 1 < s ==> cur[e] == ov[e]
    requires forall e: nat :: e in ov && t <= e && e != k ==> cur[e] == right[e]
    requires k in fin && fin[k].start == n
    requires fin - {k} == Put(cur - Passed(ov, s, t - 1), front) - {k}
    requires t - 1 in ov ==> k == t - 1
    ensures Pieces(fin, left, right, k, n)
  {
    hide Disjoint, Put, Passed;
    forall e: nat | e != k
      ensures e in fin <==> e in left || e in right
      ensures e in left ==> e in fin && fin[e] == left[e]
      ensures e in right ==> e in fin && fin[e] == right[e]
    {
      AssembleAt(ov, cur, fin, s, t, front, left, right, k, e);
    }
  }

  lemma AssembleAt(ov: OverlayMap, cur: OverlayMap, fin: OverlayMap, s: nat, t: nat,
                   front: Option<Entry>, left: OverlayMap, right: OverlayMap, k: nat, e: nat)
    requires s < t && t <= k + 1 && e != k
    requires front.Some? ==> front.value.key + 1 == s
    requires left == Put(map e | e in ov && e + 1 < s :: ov[e], front)
    requires e in right <==> e in ov && t <= e
    requires cur.Keys == ov.Keys
    requires e in ov && e + 1 < s ==> cur[e] == ov[e]
    requires e in ov && t <= e ==> cur[e] == right[e]
    requires fin - {k} == Put(cur - Passed(ov, s, t - 1), front) - {k}
    requires t - 1 in ov ==> k == t - 1
    ensures e in fin <==> e in left || e in right
    ensures e in left ==> e in fin && fin[e] == left[e]
    ensures e in right ==> e in fin && fin[e] == right[e]
  {
    assert e in fin <==> e in fin - {k};
    assert e in fin ==> fin[e] == (fin - {k})[e];
    assert e in cur <==> e in ov;
  }

  lemma ScanStart(ov: OverlayMap, s: nat, item: Option<OverlayItem>)
    ensures var first := if s == 0 then 0 else s - 1;
            && Passed(ov, s, first) == {}
            && Front(ov, s, first, item) == None
            && Start(ov, s, first, item) == s
  {
  }

  /** One step of the scan over key `e`. */
  lemma ScanStep(ov: OverlayMap, s: nat, upTo: nat, e: nat, item: Option<OverlayItem>)
    requires Disjoint(ov) && s <= upTo + 1 && NextKey(ov, upTo) == Some(e)
    ensures ov[e].start <= e && Passed(ov, s, e + 1) == Passed(ov, s, upTo) + {e}
    ensures var straddles, merge := ov[e].start < Start(ov, s, upTo, item), item.None? && ov[e].item.None?;
            && (straddles ==> Front(ov, s, upTo, item) == None && Start(ov, s, upTo, item) == s)
            && Front(ov, s, e + 1, item) == (if straddles && !merge then Some(Entry(s - 1, ov[e])) else Front(ov, s, upTo, item))
            && Start(ov, s, e + 1, item) == (if straddles && merge then ov[e].start else Start(ov, s, upTo, item))
  {
    var x := Straddler(ov, s);
    if x.Some? && x.value < upTo {
      assert x.value < e;
    }
  }

  /** The scan has reached the first key at or past `t - 1`. */
  lemma ScanEnd(ov: OverlayMap, s: nat, t: nat, upTo: nat)
    requires Disjoint(ov) && s < t && s <= upTo + 1 <= t
    requires NextKey(ov, upTo).Some? ==> t <= NextKey(ov, upTo).value + 1
    ensures Passed(ov, s, upTo) == Passed(ov, s, t - 1)
    ensures var last := NextKey(ov, upTo);
            && (last.Some? ==> FrontSeen(ov, s, last.value + 1))
            && (last.None? || ov[last.value].start >= t ==> FrontSeen(ov, s, upTo))
  {
  }

  /** What the scan makes of the first key at or past `t - 1`. */
  lemma ScanEndKey(ov: OverlayMap, t: nat, upTo: nat, item: Option<OverlayItem>)
    requires Disjoint(ov) && upTo + 1 <= t
    requires NextKey(ov, upTo).Some? ==> t <= NextKey(ov, upTo).value + 1
    ensures var last := NextKey(ov, upTo);
            && NewKey(ov, t, item) ==
               (if last.Some? && ov[last.value].start <= t && item.None? && ov[last.value].item.None? then last.value else t - 1)
            && (forall e: nat :: e in ov && t <= e && Some(e) != last ==> Right(ov, t)[e] == ov[e])
            && (last.Some? && t <= last.value ==> Right(ov, t)[last.value] == CutFront(ov[last.value], t))
  {
    NewKeyFacts(ov, t, item);
    RightDisjoint(ov, t);
    var last := NextKey(ov, upTo);
    if last.Some? && ov[last.value].start <= t && item.None? && ov[last.value].item.None? && last.value != t - 1 {
      assert AbsorbsBack(ov, t, item, last.value);
    }
  }

  /** The scan is over: `cur` is the overlay with the last segment adjusted in place, and
      removing, putting back the front and inserting will complete the update. */
  ghost predicate ScanDone(ov: OverlayMap, s: nat, t: nat, item: Option<OverlayItem>, cur: OverlayMap,
                           removed: set<nat>, front: Option<Entry>, added: Option<Entry>, upTo: nat)
    requires s < t
  {
    && FrontSeen(ov, s, upTo)
    && removed == Passed(ov, s, t - 1)
    && front == Front(ov, s, upTo, item)
    && cur.Keys == ov.Keys
    && (forall e: nat :: e in ov && e + 1 < s ==> cur[e] == ov[e])
    && var k, g := NewKey(ov, t, item), Segment(Start(ov, s, upTo, item), item);
    && (forall e: nat :: e in Right(ov, t) && e != k ==> cur[e] == Right(ov, t)[e])
    && (added == Some(Entry(k, g)) || (added == None && k in ov && cur[k] == g))
  }

  lemma RightKeys(ov: OverlayMap, t: nat, item: Option<OverlayItem>)
    requires Disjoint(ov) && 0 < t
    ensures var k, right := NewKey(ov, t, item), Right(ov, t);
            && (t - 1 in ov ==> k == t - 1)
            && (forall e: nat :: e in right <==> e in ov && t <= e)
            && (forall e: nat :: e in right && e != k ==> k < right[e].start)
  {
    NewKeyFacts(ov, t, item);
    RightDisjoint(ov, t);
  }

  lemma FrontKey(ov: OverlayMap, s: nat, upTo: nat, item: Option<OverlayItem>)
    ensures var front := Front(ov, s, upTo, item); front.Some? ==> front.value.key + 1 == s
  {
  }

  lemma PassedBelow(ov: OverlayMap, s: nat, upTo: nat, k: nat)
    requires upTo <= k
    ensures k !in Passed(ov, s, upTo)
  {
  }

  lemma ScanSplices(ov: OverlayMap, s: nat, t: nat, item: Option<OverlayItem>, cur: OverlayMap,
                    removed: set<nat>, front: Option<Entry>, added: Option<Entry>, upTo: nat)
    requires Disjoint(ov) && s < t
    requires ScanDone(ov, s, t, item, cur, removed, front, added, upTo)
    ensures Spliced(Finish(cur, removed, front, added), ov, s, t, item)
  {
    hide Left, LeftRest, Right, NewKey, NewStart, Start, Front, Disjoint, FrontSeen, AbsorbsBack, AbsorbsFront, Passed, Pieces;
    LeftRestIs(ov, s, item, upTo);
    LeftRestFacts(ov, s, item);
    RightDisjoint(ov, t);
    RightKeys(ov, t, item);
    FrontKey(ov, s, upTo, item);
    PassedBelow(ov, s, t - 1, NewKey(ov, t, item));
    Assemble(ov, cur, Finish(cur, removed, front, added), s, t, front,
             LeftRest(ov, s, item), Right(ov, t), NewKey(ov, t, item), NewStart(ov, s, item));
  }

  /** The scan ran out of segments, or met one that starts past `t` or has to stay apart. */
  lemma EndsBefore(ov: OverlayMap, s: nat, t: nat, upTo: nat, item: Option<OverlayItem>)
    requires Disjoint(ov) && s < t && s <= upTo + 1 <= t
    requires var last := NextKey(ov, upTo);
             last.Some? ==> t < ov[last.value].start || (t == ov[last.value].start && !(item.None? && ov[last.value].item.None?))
    ensures ScanDone(ov, s, t, item, ov, Passed(ov, s, upTo), Front(ov, s, upTo, item),
                     Some(Entry(t - 1, Segment(Start(ov, s, upTo, item), item))), upTo)
  {
    ScanEnd(ov, s, t, upTo);
    ScanEndKey(ov, t, upTo, item);
    hide NewKey, FrontSeen, Passed, Front, Start, Disjoint;
  }

  /** The scan met the local segment that starts at `t` and extends it downwards. */
  lemma EndsTouching(ov: OverlayMap, s: nat, t: nat, upTo: nat, last: nat)
    requires Disjoint(ov) && s < t && s <= upTo + 1 <= t && NextKey(ov, upTo) == Some(last)
    requires ov[last].start == t && ov[last].item.None?
    ensures ScanDone(ov, s, t, None, ov[last := Segment(Start(ov, s, upTo, None), None)],
                     Passed(ov, s, upTo), Front(ov, s, upTo, None), None, upTo)
  {
    ScanEnd(ov, s, t, upTo);
    ScanEndKey(ov, t, upTo, None);
    hide NewKey, FrontSeen, Passed, Front, Start, Disjoint;
  }

  /** The scan met the local segment that reaches `t - 1` or further and extends it. */
  lemma EndsInside(ov: OverlayMap, s: nat, t: nat, upTo: nat, last: nat)
    requires Disjoint(ov) && s < t && s <= upTo + 1 <= t && NextKey(ov, upTo) == Some(last)
    requires t <= last + 1 && ov[last].start < t && ov[last].item.None?
    ensures ScanDone(ov, s, t, None, ov[last := Segment(Start(ov, s, last + 1, None), None)],
                     Passed(ov, s, upTo), Front(ov, s, last + 1, None), None, last + 1)
  {
    ScanEnd(ov, s, t, upTo);
    ScanEndKey(ov, t, upTo, None);
    hide NewKey, FrontSeen, Passed, Front, Start, Disjoint;
  }

  /** The scan met the segment that reaches `t - 1` or further and cuts it. */
  lemma EndsCutting(ov: OverlayMap, s: nat, t: nat, upTo: nat, last: nat, item: Option<OverlayItem>)
    requires Disjoint(ov) && s < t && s <= upTo + 1 <= t && NextKey(ov, upTo) == Some(last)
    requires t <= last + 1 && ov[last].start < t && !(item.None? && ov[last].item.None?)
    ensures ScanDone(ov, s, t, item, ov[last := CutFront(ov[last], t)], Passed(ov, s, upTo), Front(ov, s, last + 1, item),
                     Some(Entry(t - 1, Segment(Start(ov, s, last + 1, item), item))), last + 1)
  {
    ScanEnd(ov, s, t, upTo);
    ScanEndKey(ov, t, upTo, item);
    hide NewKey, FrontSeen, Passed, Front, Start, Disjoint;
  }

  /** How the scan stops at key `last`, and what it has done by then. */
  datatype ScanExit = ScanExit(cur: OverlayMap, front: Option<Entry>, added: Option<Entry>)

  ghost function ExitOf(ov: OverlayMap, s: nat, t: nat, upTo: nat, item: Option<OverlayItem>): ScanExit
    requires s < t
  {
    var last := NextKey(ov, upTo);
    if last.None? || ov[last.value].start >= t then
      var start, front := Start(ov, s, upTo, item), Front(ov, s, upTo, item);
      if last.Some? && ov[last.value].start == t && item.None? && ov[last.value].item.None?
      then ScanExit(ov[last.value := Segment(start, None)], front, None)
      else ScanExit(ov, front, Some(Entry(t - 1, Segment(start, item))))
    else
      var start, front := Start(ov, s, last.value + 1, item), Front(ov, s, last.value + 1, item);
      if item.None? && ov[last.value].item.None?
      then ScanExit(ov[last.value := Segment(start, None)], front, None)
      else ScanExit(ov[last.value := CutFront(ov[last.value], t)], front, Some(Entry(t - 1, Segment(start, item))))
  }

  lemma ExitSplices(ov: OverlayMap, s: nat, t: nat, upTo: nat, item: Option<OverlayItem>)
    requires Disjoint(ov) && s < t && s <= upTo + 1 <= t
    requires NextKey(ov, upTo).Some? ==> t <= NextKey(ov, upTo).value + 1
    ensures var x := ExitOf(ov, s, t, upTo, item);
            Spliced(Finish(x.cur, Passed(ov, s, upTo), x.front, x.added), ov, s, t, item)
  {
    hide ScanDone, Spliced, Passed, Front, Start, Finish;
    var last, x := NextKey(ov, upTo), ExitOf(ov, s, t, upTo, item);
    if last.None? || ov[last.value].start >= t {
      if last.Some? && ov[last.value].start == t && item.None? && ov[last.value].item.None? {
        EndsTouching(ov, s, t, upTo, last.value);
      } else {
        EndsBefore(ov, s, t, upTo, item);
      }
      ScanSplices(ov, s, t, item, x.cur, Passed(ov, s, upTo), x.front, x.added, upTo);
    } else {
      if item.None? && ov[last.value].item.None? {
        EndsInside(ov, s, t, upTo, last.value);
      } else {
        EndsCutting(ov, s, t, upTo, last.value, item);
      }
      ScanSplices(ov, s, t, item, x.cur, Passed(ov, s, upTo), x.front, x.added, last.value + 1);
    }
  }

  // ------------------------------------------------- the scan that leaves a whole front alone

  /** Like `Passed` and `Front`, but a borrowed segment that ends exactly before `s` is neither
      removed nor put back. */
  ghost predicate FrontLeft(ov: OverlayMap, s: nat, removed: set<nat>, front: Option<Entry>,
                            passed: set<nat>, cut: Option<Entry>) {
    || (removed == passed && front == cut)
    || (s > 0 && s - 1 in ov && removed == passed - {s - 1} && front == None && cut == Some(Entry(s - 1, ov[s - 1])))
  }

  lemma FrontLeftFinish(ov: OverlayMap, s: nat, removed: set<nat>, front: Option<Entry>,
                        passed: set<nat>, cut: Option<Entry>, cur: OverlayMap, added: Option<Entry>)
    requires FrontLeft(ov, s, removed, front, passed, cut)
    requires s > 0 && s - 1 in ov ==> s - 1 in cur && cur[s - 1] == ov[s - 1]
    ensures Finish(cur, removed, front, added) == Finish(cur, passed, cut, added)
  {
    if !(removed == passed && front == cut) {
      assert Put(cur - removed, front) == Put(cur - passed, cut);
    }
  }

  /** A local or borrowed segment that ends exactly before `s`. */
  lemma FrontLeftTouch(ov: OverlayMap, s: nat, upTo: nat, e: nat, removed: set<nat>, front: Option<Entry>)
    requires Disjoint(ov) && s == e + 1 && s <= upTo + 1 && NextKey(ov, upTo) == Some(e)
    requires FrontLeft(ov, s, removed, front, Passed(ov, s, upTo), Front(ov, s, upTo, None))
    ensures FrontLeft(ov, s, if ov[e].item.None? then removed + {e} else removed, front, Passed(ov, s, e + 1), Front(ov, s, e + 1, None))
    ensures Start(ov, s, e + 1, None) == if ov[e].item.None? then ov[e].start else s
  {
    ScanStep(ov, s, upTo, e, None);
  }

  lemma FrontLeftStep(ov: OverlayMap, s: nat, upTo: nat, e: nat, removed: set<nat>, front: Option<Entry>)
    requires Disjoint(ov) && s <= e && s <= upTo + 1 && NextKey(ov, upTo) == Some(e)
    requires FrontLeft(ov, s, removed, front, Passed(ov, s, upTo), Front(ov, s, upTo, None))
    ensures var straddles := ov[e].start < Start(ov, s, upTo, None) && ov[e].item.Some?;
            var f := if straddles then Some(Entry(s - 1, ov[e])) else front;
            && FrontLeft(ov, s, removed, f, Passed(ov, s, upTo), Front(ov, s, e + 1, None))
            && FrontLeft(ov, s, removed + {e}, f, Passed(ov, s, e + 1), Front(ov, s, e + 1, None))
  {
    ScanStep(ov, s, upTo, e, None);
  }

  lemma KeyFacts(ov: OverlayMap, s: nat, upTo: nat, e: nat)
    requires Disjoint(ov) && Aligned(ov) && s % PAGE_SIZE == 0 && s <= upTo + 1 && NextKey(ov, upTo) == Some(e)
    ensures e > 0
    ensures s <= e + 1
    ensures Start(ov, s, upTo, None) > 0 && e + 1 == Start(ov, s, upTo, None) ==> e + 1 == s
    ensures e + 1 != s ==> s <= e && e + 1 != Start(ov, s, upTo, None)
    ensures e + 1 == s ==> Start(ov, s, upTo, None) == s
  {
  }

  /** The scan of a write stops; what it left alone in front makes no difference. */
  lemma FinishScan(ov: OverlayMap, s: nat, t: nat, upTo: nat, removed: set<nat>, front: Option<Entry>)
    requires Disjoint(ov) && s < t && s <= upTo + 1 <= t
    requires NextKey(ov, upTo).Some? ==> t <= NextKey(ov, upTo).value + 1
    requires FrontLeft(ov, s, removed, front, Passed(ov, s, upTo), ExitOf(ov, s, t, upTo, None).front)
    ensures var x := ExitOf(ov, s, t, upTo, None);
            Spliced(Finish(x.cur, removed, front, x.added), ov, s, t, None)
  {
    hide Spliced, Finish, FrontLeft, Passed, Front, Start, Disjoint;
    var x := ExitOf(ov, s, t, upTo, None);
    ExitSplices(ov, s, t, upTo, None);
    FrontLeftFinish(ov, s, removed, front, Passed(ov, s, upTo), x.front, x.cur, x.added);
  }

  lemma StartBelow(ov: OverlayMap, s: nat, upTo: nat)
    ensures Start(ov, s, upTo, None) <= s
  {
  }

  /** The two ways in which the scan of a write stops at a segment that reaches past `t - 1`. */
  lemma FinishAt(ov: OverlayMap, s: nat, t: nat, upTo: nat, e: nat, removed: set<nat>, front: Option<Entry>)
    requires Disjoint(ov) && s < t && s <= upTo + 1 <= t && NextKey(ov, upTo) == Some(e)
    requires t <= e + 1 && ov[e].start < t
    requires FrontLeft(ov, s, removed, front, Passed(ov, s, upTo), Front(ov, s, e + 1, None))
    ensures ov[e].item.Some? ==>
              Spliced(Finish(ov[e := CutFront(ov[e], t)], removed, front, Some(Entry(t - 1, Segment(Start(ov, s, e + 1, None), None)))), ov, s, t, None)
    ensures ov[e].item.None? ==>
              Spliced(Finish(ov[e := Segment(Start(ov, s, e + 1, None), None)], removed, front, None), ov, s, t, None)
  {
    hide Spliced, Finish, FrontLeft, Passed, Front, Start, Disjoint, CutFront;
    FinishScan(ov, s, t, upTo, removed, front);
  }
}
