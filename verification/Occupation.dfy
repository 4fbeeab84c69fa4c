/** Which bytes of a context are taken: a sorted list of intervals, and the search for the gap that
    fits best. */
module Occupations {
  import opened Common
  import opened Overlay

  datatype Position = Position(offset: nat, size: nat)

  function End(p: Position): nat {
    p.offset + p.size
  }

  ghost predicate Holds(p: Position, x: nat) {
    p.offset <= x < End(p)
  }

  /** Byte `x` is taken. */
  ghost predicate Claimed(o: seq<Position>, x: nat) {
    exists k: nat :: k < |o| && Holds(o[k], x)
  }

  /** The list begins at the first byte, ends behind the last, and leaves gaps between its entries,
      of which only the first and the last may be empty. */
  ghost predicate Sorted(o: seq<Position>, size: nat) {
    && o != [] && o[0].offset == 0 && End(o[|o| - 1]) == size
    && (forall i: nat, j: nat :: i < j < |o| ==> End(o[i]) < o[j].offset)
    && (forall i: nat :: 0 < i < |o| - 1 ==> o[i].size > 0)
  }

  /** Gap `k` has room for `[offset, offset + n)`. */
  predicate Fits(o: seq<Position>, k: nat, offset: nat, n: nat) {
    k + 1 < |o| && End(o[k]) <= offset && offset + n <= o[k + 1].offset
  }

  // ---------------------------------------------------------------- placements

  /** Where a block may begin: at a multiple of an alignment, or at a given distance into a page. */
  datatype Placement = Multiple(alignment: nat) | InPage(distance: nat)

  ghost predicate Suits(p: Placement, x: nat) {
    match p
    case Multiple(a) => a > 0 && x % a == 0
    case InPage(d) => x % PAGE_SIZE == d
  }

  predicate Sensible(p: Placement) {
    match p
    case Multiple(a) => a > 0
    case InPage(d) => d < PAGE_SIZE
  }

  function NextMultiple(x: nat, a: nat): nat
    requires a > 0
  {
    if x % a == 0 then x else x + (a - x % a)
  }

  /** The first place for a block from `lowerEnd` on. */
  function Candidate(p: Placement, lowerEnd: nat): nat
    requires Sensible(p)
  {
    match p
    case Multiple(a) => NextMultiple(lowerEnd, a)
    case InPage(d) => RoundDown(lowerEnd) + (if lowerEnd % PAGE_SIZE > d then PAGE_SIZE else 0) + d
  }

  lemma MultipleSuits(x: nat, a: nat)
    requires a > 0
    ensures NextMultiple(x, a) % a == 0 && NextMultiple(x, a) >= x
  {
    if x % a != 0 {
      assert a * (x / a + 1) == a * (x / a) + a;
      Quotient(x + (a - x % a), a, x / a + 1, 0);
    }
  }

  lemma MultipleLeast(x: nat, a: nat, y: nat)
    requires a > 0 && y % a == 0 && y >= x
    ensures NextMultiple(x, a) <= y
  {
    var p, q := x / a, y / a;
    assert x == a * p + x % a && y == a * q;
    if x % a != 0 {
      assert q > p by {
        if q <= p {
          MultipleMonotone(a, q, p);
        }
      }
      MultipleMonotone(a, p + 1, q);
      assert a * (p + 1) == a * p + a;
    }
  }

  lemma MultipleMonotone(a: nat, p: nat, q: nat)
    requires p <= q
    ensures a * p <= a * q
  {
    assert a * q == a * p + a * (q - p);
  }

  lemma PageLeast(d: nat, lowerEnd: nat, y: nat)
    requires d < PAGE_SIZE
    ensures Suits(InPage(d), Candidate(InPage(d), lowerEnd)) && Candidate(InPage(d), lowerEnd) >= lowerEnd
    ensures y % PAGE_SIZE == d && y >= lowerEnd ==> Candidate(InPage(d), lowerEnd) <= y
  {
  }

  /** The candidate suits, and nothing before it does. */
  lemma CandidateLeast(p: Placement, lowerEnd: nat, y: nat)
    requires Sensible(p)
    ensures Suits(p, Candidate(p, lowerEnd)) && Candidate(p, lowerEnd) >= lowerEnd
    ensures Suits(p, y) && y >= lowerEnd ==> Candidate(p, lowerEnd) <= y
  {
    hide NextMultiple, RoundDown;
    match p
    case Multiple(a) =>
      MultipleSuits(lowerEnd, a);
      if y % a == 0 && y >= lowerEnd {
        MultipleLeast(lowerEnd, a, y);
      }
    case InPage(d) =>
      PageLeast(d, lowerEnd, y);
  }

  // ---------------------------------------------------------------- inserting

  /** Entries `[m, j)` replaced by one entry. */
  function Replaced(o: seq<Position>, m: nat, j: nat, c: Position): seq<Position>
    requires m <= j <= |o|
  {
    o[..m] + [c] + o[j..]
  }

  lemma ReplacedAt(o: seq<Position>, m: nat, j: nat, c: Position, i: nat)
    requires m <= j <= |o| && i < m + 1 + |o| - j
    ensures |Replaced(o, m, j, c)| == m + 1 + |o| - j
    ensures Replaced(o, m, j, c)[i] == if i < m then o[i] else if i == m then c else o[i - m - 1 + j]
  {
  }

  lemma ReplacedSorted(o: seq<Position>, size: nat, m: nat, j: nat, c: Position)
    requires Sorted(o, size) && m <= j <= |o| && c.size > 0
    requires if m == 0 then c.offset == 0 else End(o[m - 1]) < c.offset
    requires if j == |o| then End(c) == size else End(c) < o[j].offset
    ensures Sorted(Replaced(o, m, j, c), size)
  {
    hide Replaced;
    var r := Replaced(o, m, j, c);
    ReplacedAt(o, m, j, c, 0);
    ReplacedAt(o, m, j, c, |r| - 1);
    forall i: nat, l: nat | i < l < |r| ensures End(r[i]) < r[l].offset {
      ReplacedPair(o, size, m, j, c, i, l);
    }
    forall i: nat | 0 < i < |r| - 1 ensures r[i].size > 0 {
      ReplacedAt(o, m, j, c, i);
    }
  }

  lemma ReplacedPair(o: seq<Position>, size: nat, m: nat, j: nat, c: Position, i: nat, l: nat)
    requires Sorted(o, size) && m <= j <= |o| && c.size > 0 && i < l < m + 1 + |o| - j
    requires m > 0 ==> End(o[m - 1]) < c.offset
    requires j < |o| ==> End(c) < o[j].offset
    ensures |Replaced(o, m, j, c)| == m + 1 + |o| - j && End(Replaced(o, m, j, c)[i]) < Replaced(o, m, j, c)[l].offset
  {
    hide Replaced;
    ReplacedAt(o, m, j, c, i);
    ReplacedAt(o, m, j, c, l);
    if l == m && i < m - 1 {
      assert End(o[i]) < o[m - 1].offset;
    } else if i == m && l > m + 1 {
      assert End(o[j]) < o[l - m - 1 + j].offset;
    }
  }

  lemma ReplacedClaims(o: seq<Position>, m: nat, j: nat, c: Position, x: nat)
    requires m <= j <= |o|
    requires forall i: nat :: m <= i < j && Holds(o[i], x) ==> Holds(c, x)
    ensures Claimed(o, x) ==> Claimed(Replaced(o, m, j, c), x)
    ensures Holds(c, x) ==> Claimed(Replaced(o, m, j, c), x)
    ensures Claimed(Replaced(o, m, j, c), x) ==> Claimed(o, x) || Holds(c, x)
  {
    hide Replaced, Holds;
    var r := Replaced(o, m, j, c);
    ReplacedAt(o, m, j, c, m);
    if Claimed(o, x) {
      var i: nat :| i < |o| && Holds(o[i], x);
      if i < m {
        ReplacedAt(o, m, j, c, i);
      } else if i >= j {
        ReplacedAt(o, m, j, c, i - j + m + 1);
      }
    }
    if Claimed(r, x) {
      var i: nat :| i < |r| && Holds(r[i], x);
      ReplacedAt(o, m, j, c, i);
    }
  }

  /** The place lies behind the beginning of entry `k` and not behind that of the next. */
  predicate Between(o: seq<Position>, k: nat, offset: nat) {
    k + 1 < |o| && o[k].offset <= offset <= o[k + 1].offset
  }

  /** Where the block goes in the list: it continues entry `k` if it begins where that ends. */
  function Slot(o: seq<Position>, k: nat, offset: nat): (m: nat)
    requires k < |o| && o[k].offset <= offset
    ensures k <= m <= k + 1
  {
    if End(o[k]) == offset then k else k + 1
  }

  function Start(o: seq<Position>, k: nat, offset: nat): (start: nat)
    requires k < |o| && o[k].offset <= offset
    ensures o[k].offset <= start <= offset
  {
    if End(o[k]) == offset then o[k].offset else offset
  }

  /** The list with the block in it, before anything behind it is joined. */
  function Added(o: seq<Position>, k: nat, offset: nat, n: nat): seq<Position>
    requires k + 1 < |o| && o[k].offset <= offset
  {
    Replaced(o, Slot(o, k, offset), k + 1, Position(Start(o, k, offset), offset + n - Start(o, k, offset)))
  }

  /** The list after `[offset, offset + n)` was added behind entry `k`; the next entry, if it is
      reached, says where the joined entry ends. */
  function Inserted(o: seq<Position>, k: nat, offset: nat, n: nat): seq<Position>
    requires Between(o, k, offset)
  {
    if o[k + 1].offset <= offset + n
    then Replaced(o, Slot(o, k, offset), k + 2, Position(Start(o, k, offset), End(o[k + 1]) - Start(o, k, offset)))
    else Added(o, k, offset, n)
  }

  lemma AddedIs(o: seq<Position>, k: nat, offset: nat, n: nat)
    requires k + 1 < |o| && o[k].offset <= offset
    ensures End(o[k]) == offset ==> Slot(o, k, offset) == k && o[k := Position(o[k].offset, offset - o[k].offset + n)] == Added(o, k, offset, n)
    ensures End(o[k]) != offset ==> Slot(o, k, offset) == k + 1 && o[..k + 1] + [Position(offset, n)] + o[k + 1..] == Added(o, k, offset, n)
  {
  }

  lemma InsertedUnreached(o: seq<Position>, k: nat, offset: nat, n: nat)
    ensures Between(o, k, offset) && offset + n < o[k + 1].offset ==> Inserted(o, k, offset, n) == Added(o, k, offset, n)
  {
  }

  /** Entry `m` joined with the next. */
  function Merged(o: seq<Position>, m: nat): seq<Position>
    requires m + 1 < |o| && o[m].offset <= o[m + 1].offset
  {
    o[..m] + [Position(o[m].offset, o[m + 1].offset - o[m].offset + o[m + 1].size)] + o[m + 2..]
  }

  /** The loop looks at the next entry, and if it reaches that, joins it. */
  lemma AddedMerges(o: seq<Position>, size: nat, k: nat, offset: nat, n: nat)
    requires Sorted(o, size) && k + 1 < |o| && o[k].offset <= offset
    ensures var m, a := Slot(o, k, offset), Added(o, k, offset, n);
            && |a| == |o| + m - k && m + 1 < |a| && (a[m + 1].offset <= End(a[m]) <==> o[k + 1].offset <= offset + n)
            && (offset <= o[k + 1].offset ==> a[m].offset <= a[m + 1].offset)
            && (a[m].offset <= a[m + 1].offset ==> offset <= o[k + 1].offset)
            && (Between(o, k, offset) && o[k + 1].offset <= offset + n ==> Inserted(o, k, offset, n) == Merged(a, m))
  {
    StartFits(o, size, k, offset);
    hide Sorted, Replaced, Slot, Start;
    var c := Position(Start(o, k, offset), offset + n - Start(o, k, offset));
    MergedReplaced(o, Slot(o, k, offset), k + 1, c);
  }

  lemma StartFits(o: seq<Position>, size: nat, k: nat, offset: nat)
    requires Sorted(o, size) && k + 1 < |o| && o[k].offset <= offset
    ensures Start(o, k, offset) <= o[k + 1].offset <==> offset <= o[k + 1].offset
  {
  }

  /** The entry that was joined does not reach the one behind it. */
  lemma MergedStops(o: seq<Position>, size: nat, k: nat, offset: nat, n: nat)
    requires Sorted(o, size) && Between(o, k, offset) && o[k + 1].offset <= offset + n
    ensures var m, b := Slot(o, k, offset), Inserted(o, k, offset, n);
            m < |b| < |Added(o, k, offset, n)| && (m + 1 < |b| ==> b[m + 1].offset > End(b[m]))
  {
    EndBehind(o, size, k);
    hide Sorted, Slot, Start;
  }

  lemma MergedReplaced(o: seq<Position>, m: nat, j: nat, c: Position)
    requires m <= j < |o|
    ensures m + 1 < |Replaced(o, m, j, c)| == |o| + m + 1 - j && Replaced(o, m, j, c)[m] == c && Replaced(o, m, j, c)[m + 1] == o[j]
    ensures c.offset <= o[j].offset ==> Merged(Replaced(o, m, j, c), m) == Replaced(o, m, j + 1, Position(c.offset, End(o[j]) - c.offset))
  {
  }

  /** The block does not begin inside entry `k`, and is not an entry of its own without bytes. */
  predicate Behind(o: seq<Position>, k: nat, offset: nat, n: nat) {
    Between(o, k, offset) && (End(o[k]) == offset || (End(o[k]) < offset && (n > 0 || offset == o[k + 1].offset)))
  }

  /** The block covers all of the next entry and more. */
  predicate Swallows(o: seq<Position>, k: nat, offset: nat, n: nat) {
    Between(o, k, offset) && o[k + 1].offset <= offset + n && End(o[k + 1]) < offset + n
  }

  /** Adding a block keeps the list sorted if and only if the block is behind the entry. */
  lemma InsertedSorted(o: seq<Position>, size: nat, k: nat, offset: nat, n: nat)
    requires Sorted(o, size) && Between(o, k, offset) && offset + n <= size
    ensures Sorted(Inserted(o, k, offset, n), size) <==> Behind(o, k, offset, n)
  {
    hide Replaced;
    var m, start := Slot(o, k, offset), Start(o, k, offset);
    var j := if o[k + 1].offset <= offset + n then k + 2 else k + 1;
    var end := if o[k + 1].offset <= offset + n then End(o[k + 1]) else offset + n;
    EndBehind(o, size, k);
    if !Behind(o, k, offset, n) {
      ReplacedUnsorted(o, size, k, j, Position(start, end - start));
    } else if n == 0 {
      InsertedNothing(o, size, k, offset);
    } else {
      ReplacedSorted(o, size, m, j, Position(start, end - start));
    }
  }

  lemma ReplacedUnsorted(o: seq<Position>, size: nat, k: nat, j: nat, c: Position)
    requires k + 1 <= j <= |o| && (End(o[k]) >= c.offset || (c.size == 0 && j < |o|))
    ensures !Sorted(Replaced(o, k + 1, j, c), size)
  {
    hide Replaced;
    ReplacedAt(o, k + 1, j, c, k);
    ReplacedAt(o, k + 1, j, c, k + 1);
  }

  lemma EndBehind(o: seq<Position>, size: nat, k: nat)
    requires Sorted(o, size) && k + 1 < |o|
    ensures o[k].offset <= End(o[k]) < o[k + 1].offset <= End(o[k + 1]) <= size
    ensures k > 0 ==> End(o[k - 1]) < o[k].offset
    ensures k + 2 < |o| ==> End(o[k + 1]) < o[k + 2].offset && o[k + 1].size > 0
  {
    if k + 1 < |o| - 1 {
      assert End(o[k + 1]) < o[|o| - 1].offset;
    }
  }

  lemma InsertedNothing(o: seq<Position>, size: nat, k: nat, offset: nat)
    requires Sorted(o, size) && Between(o, k, offset) && (End(o[k]) == offset || offset == o[k + 1].offset)
    ensures Inserted(o, k, offset, 0) == o
  {
    EndBehind(o, size, k);
    hide Sorted, Replaced;
    ReplacedSame(o, k);
    ReplacedSame(o, k + 1);
  }

  lemma ReplacedSame(o: seq<Position>, m: nat)
    requires m < |o|
    ensures Replaced(o, m, m + 1, o[m]) == o && o[m] == Position(o[m].offset, End(o[m]) - o[m].offset)
  {
  }

  /** Where the joined entry ends. */
  function InsertedEnd(o: seq<Position>, k: nat, offset: nat, n: nat): nat
    requires Between(o, k, offset)
  {
    if o[k + 1].offset <= offset + n then End(o[k + 1]) else offset + n
  }

  lemma InsertedHolds(o: seq<Position>, k: nat, offset: nat, n: nat, x: nat)
    requires Between(o, k, offset) && End(o[k]) < o[k + 1].offset
    ensures Claimed(Inserted(o, k, offset, n), x) <==> Claimed(o, x) || Start(o, k, offset) <= x < InsertedEnd(o, k, offset, n)
  {
    hide Replaced, Claimed;
    var j := if o[k + 1].offset <= offset + n then k + 2 else k + 1;
    var c := Position(Start(o, k, offset), InsertedEnd(o, k, offset, n) - Start(o, k, offset));
    forall i: nat | Slot(o, k, offset) <= i < j && Holds(o[i], x) ensures Holds(c, x) {
      assert i == k || i == k + 1;
    }
    ReplacedClaims(o, Slot(o, k, offset), j, c, x);
  }

  /** Adding a block takes its bytes, unless the next entry ends inside of it: then the bytes from
      there on stay free. */
  lemma InsertedClaims(o: seq<Position>, size: nat, k: nat, offset: nat, n: nat, x: nat)
    requires Sorted(o, size) && Between(o, k, offset) && offset + n <= size
    ensures !Swallows(o, k, offset, n) ==> (Claimed(Inserted(o, k, offset, n), x) <==> Claimed(o, x) || offset <= x < offset + n)
    ensures Swallows(o, k, offset, n) ==>
              (Claimed(Inserted(o, k, offset, n), x) <==> Claimed(o, x) || offset <= x < End(o[k + 1]))
  {
    hide Inserted, Claimed, Sorted;
    EndBehind(o, size, k);
    InsertedHolds(o, k, offset, n, x);
    if Start(o, k, offset) <= x < offset {
      ClaimedAt(o, k, x);
    } else if offset + n <= x < InsertedEnd(o, k, offset, n) {
      ClaimedAt(o, k + 1, x);
    }
  }

  lemma ClaimedAt(o: seq<Position>, k: nat, x: nat)
    requires k < |o| && Holds(o[k], x)
    ensures Claimed(o, x)
  {
  }

  /** Bytes of a gap are not taken. */
  lemma GapFree(o: seq<Position>, size: nat, k: nat, x: nat)
    requires Sorted(o, size) && k + 1 < |o| && End(o[k]) <= x < o[k + 1].offset
    ensures !Claimed(o, x) && x < size
  {
    assert o[k + 1].offset <= size by {
      if k + 1 < |o| - 1 {
        assert End(o[k + 1]) < o[|o| - 1].offset;
      }
    }
    forall i: nat | i < |o| ensures !Holds(o[i], x) {
      assert i < k ==> End(o[i]) < o[k].offset;
      assert i > k + 1 ==> End(o[k + 1]) < o[i].offset;
    }
  }

  /** A block of bytes that are not taken lies in one gap. */
  lemma BlockInGap(o: seq<Position>, size: nat, offset: nat, n: nat) returns (k: nat)
    requires Sorted(o, size) && n > 0 && offset + n <= size && forall x: nat :: offset <= x < offset + n ==> !Claimed(o, x)
    ensures Fits(o, k, offset, n)
  {
    k := 0;
    while k + 1 < |o| && o[k + 1].offset <= offset
      invariant k < |o| && o[k].offset <= offset
    {
      k := k + 1;
    }
    if End(o[k]) > offset {
      ClaimedAt(o, k, offset);
    } else if o[k + 1].offset < offset + n {
      ClaimedAt(o, k + 1, o[k + 1].offset);
    }
  }

  // ---------------------------------------------------------------- operations

  /** How much room gap `k` has from its first candidate on. */
  function Available(o: seq<Position>, k: nat, p: Placement): nat
    requires k + 1 < |o| && Sensible(p)
  {
    var start := Candidate(p, End(o[k]));
    if start <= o[k + 1].offset then o[k + 1].offset - start else 0
  }

  /** A gap that was found for `n` bytes: nothing that has room for them has less room, and nothing
      before it has as little. */
  ghost predicate BestGap(o: seq<Position>, k: nat, p: Placement, n: nat) {
    && k + 1 < |o| && Sensible(p) && Available(o, k, p) >= n
    && forall l: nat :: l + 1 < |o| && Available(o, l, p) >= n ==>
         if l < k then Available(o, k, p) < Available(o, l, p) else Available(o, k, p) <= Available(o, l, p)
  }

  datatype Gap = Gap(index: nat, start: nat)

  /** The smallest gap with room for `n` bytes at a suitable place, the first of these if there are several. */
  method FindGap(o: seq<Position>, size: nat, p: Placement, n: nat) returns (r: Result<Gap>)
    requires Sorted(o, size) && Sensible(p)
    ensures r.Ok? ==> BestGap(o, r.value.index, p, n) && r.value.start == Candidate(p, End(o[r.value.index]))
    ensures r.Err? ==> r.error == ContextFull && forall l: nat :: l + 1 < |o| ==> Available(o, l, p) < n
  {
    hide Candidate, Sorted;
    var space: nat, index: nat, start: nat := size + 1, 0, 0;
    var k: nat := 0;
    while k + 1 < |o|
      invariant k < |o| || k == 0
      invariant space == size + 1 ==> forall l: nat :: l < k && l + 1 < |o| ==> Available(o, l, p) < n
      invariant space != size + 1 ==> index < k && space == Available(o, index, p) >= n && start == Candidate(p, End(o[index]))
      invariant space != size + 1 ==> forall l: nat :: l < k && l + 1 < |o| && Available(o, l, p) >= n ==>
                  if l < index then space < Available(o, l, p) else space <= Available(o, l, p)
    {
      OffsetInside(o, size, k + 1);
      var available := Available(o, k, p);
      if available >= n && available < space {
        space, index, start := available, k, Candidate(p, End(o[k]));
      }
      k := k + 1;
    }
    if space == size + 1 {
      return Err(ContextFull);
    }
    return Ok(Gap(index, start));
  }

  lemma OffsetInside(o: seq<Position>, size: nat, k: nat)
    requires Sorted(o, size) && k < |o|
    ensures o[k].offset <= size
  {
    if k < |o| - 1 {
      assert End(o[k]) < o[|o| - 1].offset;
    }
  }

  /** A gap that was found has room, and when none was found there is no suitable free block at all. */
  lemma GapFits(o: seq<Position>, size: nat, k: nat, p: Placement, n: nat)
    requires Sorted(o, size) && Sensible(p) && k + 1 < |o| && Available(o, k, p) >= n
    ensures Suits(p, Candidate(p, End(o[k]))) && Candidate(p, End(o[k])) >= End(o[k])
    ensures n > 0 || Candidate(p, End(o[k])) <= o[k + 1].offset ==> Fits(o, k, Candidate(p, End(o[k])), n)
  {
    hide Candidate;
    CandidateLeast(p, End(o[k]), 0);
  }

  ghost predicate FreeBlock(o: seq<Position>, size: nat, offset: nat, n: nat) {
    offset + n <= size && forall x: nat :: offset <= x < offset + n ==> !Claimed(o, x)
  }

  lemma NoGapNoBlock(o: seq<Position>, size: nat, p: Placement, n: nat, offset: nat)
    requires Sorted(o, size) && Sensible(p) && n > 0 && Suits(p, offset) && FreeBlock(o, size, offset, n)
    ensures exists k: nat :: k + 1 < |o| && Available(o, k, p) >= n
  {
    hide Candidate, Claimed;
    var k := BlockInGap(o, size, offset, n);
    CandidateLeast(p, End(o[k]), offset);
    assert Available(o, k, p) >= n;
  }

  class Occupation {
    const size: nat
    var occupation: seq<Position>

    ghost predicate Valid()
      reads this
    {
      Sorted(occupation, size)
    }

    constructor (size: nat)
      requires size > 0
      ensures Valid() && this.size == size && forall x: nat :: !Claimed(occupation, x)
    {
      this.size := size;
      this.occupation := [Position(0, 0), Position(size, 0)];
    }

    /** Adds `[offset, offset + n)` behind entry `index` and joins it with the entries it reaches. It
        aborts if the next entry begins before the block. */
    method Insert(index: nat, offset: nat, n: nat) returns (r: Result<()>)
      requires Valid() && index + 1 < |occupation| && occupation[index].offset <= offset
      modifies this
      ensures r == if offset <= old(occupation)[index + 1].offset then Ok(()) else Err(Panic)
      ensures r.Ok? ==> occupation == Inserted(old(occupation), index, offset, n)
      ensures r.Ok? && offset + n <= size ==> (Valid() <==> Behind(old(occupation), index, offset, n))
    {
      hide Sorted, Added, Inserted, Slot;
      ghost var ini := occupation;
      var check: nat := index;
      AddedIs(ini, index, offset, n);
      if End(occupation[index]) == offset {
        occupation := occupation[index := Position(occupation[index].offset, offset - occupation[index].offset + n)];
      } else {
        occupation := occupation[..index + 1] + [Position(offset, n)] + occupation[index + 1..];
        check := index + 1;
      }
      AddedMerges(ini, size, index, offset, n);
      InsertedUnreached(ini, index, offset, n);
      if Between(ini, index, offset) && ini[index + 1].offset <= offset + n {
        MergedStops(ini, size, index, offset, n);
      }
      if offset + n <= size && offset <= ini[index + 1].offset {
        InsertedSorted(ini, size, index, offset, n);
      }
      while |occupation| > check + 1 && occupation[check + 1].offset <= End(occupation[check])
        invariant occupation == Added(ini, index, offset, n) || (Between(ini, index, offset) && ini[index + 1].offset <= offset + n && occupation == Inserted(ini, index, offset, n))
        decreases |occupation|
      {
        if occupation[check + 1].offset < occupation[check].offset {
          return Err(Panic);
        }
        occupation := Merged(occupation, check);
      }
      return Ok(());
    }

    /** Takes `n` bytes in the smallest gap with room for them at a suitable place. It fails only when
        no block of `n` free bytes begins at a suitable place. A request for no bytes picks the
        smallest gap too, although that may have no suitable place: then it aborts. */
    method Allocate(p: Placement, n: nat) returns (r: Result<nat>)
      requires Valid() && Sensible(p)
      modifies this
      ensures r.Ok? ==> Suits(p, r.value) && FreeBlock(old(occupation), size, r.value, n)
      ensures r.Ok? ==> Claims(occupation, old(occupation), r.value, n)
      ensures r.Ok? ==> exists k: nat :: BestGap(old(occupation), k, p, n) && r.value == Candidate(p, End(old(occupation)[k]))
      ensures n > 0 ==> Valid()
      ensures r.Err? && r.error != Panic ==> r.error == ContextFull && occupation == old(occupation)
      ensures r.Err? && r.error != Panic ==> forall x: nat :: Suits(p, x) && n > 0 ==> !FreeBlock(occupation, size, x, n)
      ensures r == Err(Panic) <==> NoPlace(old(occupation), p, n)
    {
      hide Sorted, Candidate, Claimed, Claims, Suits, Inserted, FreeBlock, Behind, BestGap, NoPlace, Available;
      var gap := FindGap(occupation, size, p, n);
      if gap.Err? {
        forall x: nat | Suits(p, x) && n > 0 ensures !FreeBlock(occupation, size, x, n) {
          if FreeBlock(occupation, size, x, n) {
            NoGapNoBlock(occupation, size, p, n, x);
          }
        }
        NoGapPlace(occupation, p, n);
        return Err(gap.error);
      }
      ghost var ini := occupation;
      var index, start := gap.value.index, gap.value.start;
      BestPlace(ini, index, p, n);
      GapFits(ini, size, index, p, n);
      if start <= ini[index + 1].offset {
        InsertedTakes(ini, size, index, start, n);
      }
      var inserted := Insert(index, start, n);
      if inserted.Err? {
        return Err(inserted.error);
      }
      return Ok(start);
    }

    /** Space at a multiple of `alignment`. */
    method GetFreeSpace(n: nat, alignment: nat) returns (r: Result<nat>)
      requires Valid() && alignment > 0
      modifies this
      ensures n > 0 ==> Valid()
      ensures r.Ok? ==> r.value % alignment == 0 && FreeBlock(old(occupation), size, r.value, n) && Claims(occupation, old(occupation), r.value, n)
      ensures r.Ok? ==> exists k: nat :: BestGap(old(occupation), k, Multiple(alignment), n) && r.value == Candidate(Multiple(alignment), End(old(occupation)[k]))
      ensures r.Err? && n > 0 ==> occupation == old(occupation) && forall x: nat :: x % alignment == 0 ==> !FreeBlock(occupation, size, x, n)
      ensures r == Err(Panic) <==> NoPlace(old(occupation), Multiple(alignment), n)
    {
      hide Sorted, Candidate, FreeBlock, Claims, BestGap, NoPlace;
      r := Allocate(Multiple(alignment), n);
      if r.Err? && n > 0 {
        NoPlaceNothing(old(occupation), Multiple(alignment), n);
        forall x: nat | x % alignment == 0 ensures !FreeBlock(occupation, size, x, n) {
          assert Suits(Multiple(alignment), x);
        }
      }
    }

    /** Space at the same distance into a page as the source, so that whole pages can be shared. */
    method GetTransferSpace(sourceOffset: nat, n: nat) returns (r: Result<nat>)
      requires Valid()
      modifies this
      ensures n > 0 ==> Valid()
      ensures r.Ok? ==> r.value % PAGE_SIZE == sourceOffset % PAGE_SIZE && FreeBlock(old(occupation), size, r.value, n) && Claims(occupation, old(occupation), r.value, n)
      ensures r.Ok? ==> exists k: nat :: BestGap(old(occupation), k, InPage(sourceOffset % PAGE_SIZE), n) && r.value == Candidate(InPage(sourceOffset % PAGE_SIZE), End(old(occupation)[k]))
      ensures r.Err? && n > 0 ==> occupation == old(occupation) && forall x: nat :: x % PAGE_SIZE == sourceOffset % PAGE_SIZE ==> !FreeBlock(occupation, size, x, n)
      ensures r == Err(Panic) <==> NoPlace(old(occupation), InPage(sourceOffset % PAGE_SIZE), n)
    {
      hide Sorted, Candidate, FreeBlock, Claims, BestGap, NoPlace;
      r := Allocate(InPage(sourceOffset % PAGE_SIZE), n);
      if r.Err? && n > 0 {
        NoPlaceNothing(old(occupation), InPage(sourceOffset % PAGE_SIZE), n);
        forall x: nat | x % PAGE_SIZE == sourceOffset % PAGE_SIZE ensures !FreeBlock(occupation, size, x, n) {
          assert Suits(InPage(sourceOffset % PAGE_SIZE), x);
        }
      }
    }

    /** Takes the bytes `[offset, offset + n)`, whether or not some are taken already. All of them end
        up taken if and only if the block does not swallow the entry behind its beginning. */
    method OccupySpace(offset: nat, n: nat) returns (r: Result<()>)
      requires Valid()
      modifies this
      ensures r == if offset + n <= size then Ok(()) else Err(InvalidWrite)
      ensures r.Ok? ==> (Claims(occupation, old(occupation), offset, n) <==> forall k: nat :: !(Inside(old(occupation), k, offset) && Swallows(old(occupation), k, offset, n)))
      ensures r.Ok? ==> (Valid() <==> forall k: nat :: Inside(old(occupation), k, offset) ==> Behind(old(occupation), k, offset, n))
      ensures n > 0 && FreeBlock(old(occupation), size, offset, n) ==> Valid() && Claims(occupation, old(occupation), offset, n)
      ensures r.Err? ==> occupation == old(occupation)
    {
      hide Sorted, Claims, Inserted, FreeBlock;
      if offset + n > size {
        NotFree(occupation, size, offset, n);
        return Err(InvalidWrite);
      }
      ghost var ini := occupation;
      Begins(ini, size);
      var index: nat := 0;
      while index + 1 < |occupation| && !(occupation[index].offset <= offset < occupation[index + 1].offset)
        invariant index < |occupation| && occupation[index].offset <= offset
      {
        index := index + 1;
      }
      if index + 1 < |occupation| {
        OneInside(ini, size, index, offset);
        InsertedClaimsIff(ini, size, index, offset, n);
        if n > 0 && FreeBlock(ini, size, offset, n) {
          FreeBehind(ini, size, index, offset, n);
        }
        r := Insert(index, offset, n);
      } else {
        NoneInside(ini, size, offset, n);
        r := Ok(());
      }
    }
  }

  predicate Inside(o: seq<Position>, k: nat, offset: nat) {
    k + 1 < |o| && o[k].offset <= offset < o[k + 1].offset
  }

  lemma Begins(o: seq<Position>, size: nat)
    requires Sorted(o, size)
    ensures o != [] && o[0].offset == 0
  {
  }

  lemma NotFree(o: seq<Position>, size: nat, offset: nat, n: nat)
    requires offset + n > size
    ensures !FreeBlock(o, size, offset, n)
  {
  }

  lemma OneInside(o: seq<Position>, size: nat, k: nat, offset: nat)
    requires Sorted(o, size) && Inside(o, k, offset)
    ensures forall l: nat :: Inside(o, l, offset) <==> l == k
  {
    forall l: nat | l != k ensures !Inside(o, l, offset) {
      if l + 1 < k && k < |o| {
        assert End(o[l + 1]) < o[k].offset;
      } else if k + 1 < l < |o| {
        assert End(o[k + 1]) < o[l].offset;
      }
    }
  }

  /** Behind the beginning of the last entry everything is taken. */
  lemma NoneInside(o: seq<Position>, size: nat, offset: nat, n: nat)
    requires Sorted(o, size) && o[|o| - 1].offset <= offset && offset + n <= size
    ensures Claims(o, o, offset, n) && (n > 0 ==> !FreeBlock(o, size, offset, n))
    ensures forall k: nat :: !Inside(o, k, offset)
  {
    forall x: nat | offset <= x < offset + n ensures Claimed(o, x) {
      ClaimedAt(o, |o| - 1, x);
    }
    assert n > 0 ==> Claimed(o, offset);
    forall k: nat ensures !Inside(o, k, offset) {
      if k + 1 < |o| - 1 {
        assert End(o[k + 1]) < o[|o| - 1].offset;
      }
    }
  }

  lemma InsertedClaimsIff(o: seq<Position>, size: nat, k: nat, offset: nat, n: nat)
    requires Sorted(o, size) && Between(o, k, offset) && offset + n <= size
    ensures Claims(Inserted(o, k, offset, n), o, offset, n) <==> !Swallows(o, k, offset, n)
  {
    hide Claimed, Inserted, Sorted;
    forall x: nat ensures !Swallows(o, k, offset, n) ==> (Claimed(Inserted(o, k, offset, n), x) <==> Claimed(o, x) || offset <= x < offset + n) {
      InsertedClaims(o, size, k, offset, n, x);
    }
    if Swallows(o, k, offset, n) {
      EndBehind(o, size, k);
      InsertedClaims(o, size, k, offset, n, End(o[k + 1]));
      EndFree(o, size, k + 1);
    }
  }

  /** The byte behind an entry is free, unless the context ends there. */
  lemma EndFree(o: seq<Position>, size: nat, k: nat)
    requires Sorted(o, size) && k < |o|
    ensures !Claimed(o, End(o[k]))
  {
    forall i: nat | i < |o| ensures !Holds(o[i], End(o[k])) {
      assert i < k ==> End(o[i]) < o[k].offset;
      assert k < i ==> End(o[k]) < o[i].offset;
    }
  }

  lemma FreeBehind(o: seq<Position>, size: nat, k: nat, offset: nat, n: nat)
    requires Sorted(o, size) && Inside(o, k, offset) && n > 0 && FreeBlock(o, size, offset, n)
    ensures Behind(o, k, offset, n) && !Swallows(o, k, offset, n)
  {
    hide Claimed;
    EndBehind(o, size, k);
    if End(o[k]) > offset {
      ClaimedAt(o, k, offset);
    }
    if Swallows(o, k, offset, n) {
      ClaimedAt(o, k + 1, o[k + 1].offset);
    }
  }

  /** Marking all bytes of a block as taken, ignoring overlaps, fails: with `[10, 12)` taken, a block
      `[5, 25)` leaves the bytes from 12 on free. */
  lemma OccupyExample()
    ensures var o := Inserted([Position(0, 0), Position(100, 0)], 0, 10, 2);
            && Sorted(o, 100) && Inside(o, 0, 5) && Swallows(o, 0, 5, 20)
            && forall x: nat :: 12 <= x < 25 ==> !Claimed(Inserted(o, 0, 5, 20), x)
  {
    var o := Inserted([Position(0, 0), Position(100, 0)], 0, 10, 2);
    assert o == [Position(0, 0), Position(10, 2), Position(100, 0)];
    assert Inserted(o, 0, 5, 20) == [Position(0, 0), Position(5, 7), Position(100, 0)];
  }

  /** A request for no bytes is aborted although there is room: the first gap is the smallest, and it
      has no multiple of 8. */
  lemma NothingExample()
    ensures var o := [Position(0, 1), Position(5, 3), Position(100, 0)];
            Sorted(o, 100) && NoPlace(o, Multiple(8), 0) && FreeBlock(o, 100, 8, 0)
  {
    var o := [Position(0, 1), Position(5, 3), Position(100, 0)];
    assert Available(o, 0, Multiple(8)) == 0;
    assert BestGap(o, 0, Multiple(8), 0);
  }

  /** The gap that is chosen has no suitable place, which can only happen if no bytes are asked for. */
  ghost predicate NoPlace(o: seq<Position>, p: Placement, n: nat) {
    n == 0 && exists k: nat :: BestGap(o, k, p, n) && Candidate(p, End(o[k])) > o[k + 1].offset
  }

  lemma NoPlaceNothing(o: seq<Position>, p: Placement, n: nat)
    ensures n > 0 ==> !NoPlace(o, p, n)
  {
  }

  lemma NoGapPlace(o: seq<Position>, p: Placement, n: nat)
    requires Sensible(p) && forall l: nat :: l + 1 < |o| ==> Available(o, l, p) < n
    ensures !NoPlace(o, p, n)
  {
    hide Available, Candidate;
  }

  lemma BestPlace(o: seq<Position>, k: nat, p: Placement, n: nat)
    requires BestGap(o, k, p, n)
    ensures k + 1 < |o| && Sensible(p) && Available(o, k, p) >= n
    ensures NoPlace(o, p, n) <==> n == 0 && Candidate(p, End(o[k])) > o[k + 1].offset
  {
    hide Available, Candidate;
    forall l: nat | BestGap(o, l, p, n) ensures l == k {
    }
  }

  /** The bytes that were taken and `[offset, offset + n)` are taken. */
  ghost predicate Claims(fin: seq<Position>, ini: seq<Position>, offset: nat, n: nat) {
    forall x: nat :: Claimed(fin, x) <==> Claimed(ini, x) || offset <= x < offset + n
  }

  lemma InsertedTakes(o: seq<Position>, size: nat, k: nat, offset: nat, n: nat)
    requires Sorted(o, size) && Fits(o, k, offset, n)
    ensures Claims(Inserted(o, k, offset, n), o, offset, n) && FreeBlock(o, size, offset, n) && offset + n <= size
    ensures n > 0 ==> Behind(o, k, offset, n)
  {
    hide Claimed, Inserted, Sorted;
    EndBehind(o, size, k);
    InsertedClaimsIff(o, size, k, offset, n);
    forall x: nat | offset <= x < offset + n ensures !Claimed(o, x) && x < size {
      GapFree(o, size, k, x);
    }
  }

  // ---------------------------------------------------------------- runs

  /** A request for space at a multiple of an alignment, one for space like that of a source, or the
      marking of given bytes. */
  datatype Step = Ask(n: nat, alignment: nat) | AskLike(sourceOffset: nat, n: nat) | Occupy(offset: nat, n: nat)

  /** The blocks handed out are in the context and apart, and the list takes exactly their bytes. */
  ghost predicate Accounted(o: seq<Position>, blocks: seq<Position>, size: nat) {
    && (forall x: nat :: Claimed(o, x) <==> Claimed(blocks, x))
    && (forall k: nat :: k < |blocks| ==> blocks[k].size > 0 && End(blocks[k]) <= size)
    && (forall k: nat, l: nat, x: nat :: k < l < |blocks| && Holds(blocks[k], x) ==> !Holds(blocks[l], x))
  }

  lemma AccountedMore(fin: seq<Position>, ini: seq<Position>, blocks: seq<Position>, size: nat, b: Position)
    requires Accounted(ini, blocks, size) && b.size > 0 && FreeBlock(ini, size, b.offset, b.size) && Claims(fin, ini, b.offset, b.size)
    ensures Accounted(fin, blocks + [b], size)
  {
    hide Claimed;
    var all := blocks + [b];
    forall x: nat ensures Claimed(all, x) <==> Claimed(blocks, x) || Holds(b, x) {
      ClaimedMore(blocks, b, x);
    }
    forall k: nat, l: nat, x: nat | k < l < |all| && Holds(all[k], x) ensures !Holds(all[l], x) {
      ClaimedAt(blocks, k, x);
      assert all[k] == blocks[k] && (l < |blocks| ==> all[l] == blocks[l]);
    }
  }

  lemma ClaimedMore(blocks: seq<Position>, b: Position, x: nat)
    ensures Claimed(blocks + [b], x) <==> Claimed(blocks, x) || Holds(b, x)
  {
    var all := blocks + [b];
    assert all[|blocks|] == b;
    if Claimed(blocks, x) {
      var k: nat :| k < |blocks| && Holds(blocks[k], x);
      assert all[k] == blocks[k];
    }
  }

  lemma NothingAccounted(o: seq<Position>, size: nat)
    requires forall x: nat :: !Claimed(o, x)
    ensures Accounted(o, [], size)
  {
  }

  /** The list and the blocks that were handed out. */
  datatype Snapshot = Snapshot(occupation: seq<Position>, blocks: seq<Position>)

  ghost function PlacementOf(step: Step): Placement {
    match step
    case Ask(_, alignment) => Multiple(alignment)
    case AskLike(sourceOffset, _) => InPage(sourceOffset % PAGE_SIZE)
    case Occupy(_, _) => Multiple(1)
  }

  /** The block that a step got at `offset`: that of the best gap, or the one it named. */
  ghost predicate Granted(step: Step, s: Snapshot, t: Snapshot, size: nat, offset: nat) {
    && t.blocks == s.blocks + [Position(offset, step.n)] && Claims(t.occupation, s.occupation, offset, step.n) && FreeBlock(s.occupation, size, offset, step.n)
    && match step
       case Occupy(at, _) => offset == at
       case _ => Suits(PlacementOf(step), offset) && exists k: nat :: BestGap(s.occupation, k, PlacementOf(step), step.n) && offset == Candidate(PlacementOf(step), End(s.occupation[k]))
  }

  /** What a step does: it gets its block, or nothing if no free block suits. */
  ghost predicate Stepped(step: Step, s: Snapshot, t: Snapshot, size: nat) {
    || (exists offset: nat :: Granted(step, s, t, size, offset))
    || (t == s && match step
                  case Occupy(at, n) => !FreeBlock(s.occupation, size, at, n)
                  case _ => forall x: nat :: Suits(PlacementOf(step), x) ==> !FreeBlock(s.occupation, size, x, step.n))
  }

  /** In any run of requests and of markings of free bytes each has its effect, the blocks are pairwise
      apart, and the list takes exactly their bytes. */
  method Run(size: nat, steps: seq<Step>) returns (context: Occupation, blocks: seq<Position>, ghost trace: seq<Snapshot>)
    requires size > 0 && forall s :: s in steps ==> s.n > 0 && (s.Ask? ==> s.alignment > 0)
    ensures fresh(context) && context.size == size && context.Valid() && Accounted(context.occupation, blocks, size)
    ensures |trace| == |steps| + 1 && trace[0].blocks == [] && (forall x: nat :: !Claimed(trace[0].occupation, x))
    ensures trace[|steps|] == Snapshot(context.occupation, blocks) && forall i: nat :: i < |steps| ==> Stepped(steps[i], trace[i], trace[i + 1], size)
  {
    hide Accounted, Claimed, Sorted, Stepped;
    context := new Occupation(size);
    blocks := [];
    trace := [Snapshot(context.occupation, [])];
    NothingAccounted(context.occupation, size);
    var i: nat := 0;
    while i < |steps|
      invariant i <= |steps| && fresh(context) && context.size == size && context.Valid() && Accounted(context.occupation, blocks, size)
      invariant |trace| == i + 1 && trace[0].blocks == [] && (forall x: nat :: !Claimed(trace[0].occupation, x))
      invariant trace[i] == Snapshot(context.occupation, blocks) && forall k: nat :: k < i ==> Stepped(steps[k], trace[k], trace[k + 1], size)
    {
      assert steps[i] in steps;
      blocks := OneStep(context, blocks, steps[i]);
      trace := trace + [Snapshot(context.occupation, blocks)];
      i := i + 1;
    }
  }

  method OneStep(context: Occupation, blocks: seq<Position>, step: Step) returns (after: seq<Position>)
    requires context.Valid() && Accounted(context.occupation, blocks, context.size) && step.n > 0 && (step.Ask? ==> step.alignment > 0)
    modifies context
    ensures context.Valid() && Accounted(context.occupation, after, context.size)
    ensures Stepped(step, Snapshot(old(context.occupation), blocks), Snapshot(context.occupation, after), context.size)
  {
    hide Accounted, Claimed, Claims, FreeBlock, Sorted, Swallows, Behind, NoPlace, BestGap, Candidate;
    ghost var ini, size := context.occupation, context.size;
    var offset: Option<nat> := None;
    match step {
      case Ask(n, alignment) =>
        var r := context.GetFreeSpace(n, alignment);
        if r.Ok? {
          offset := Some(r.value);
        }
      case AskLike(sourceOffset, n) =>
        var r := context.GetTransferSpace(sourceOffset, n);
        if r.Ok? {
          offset := Some(r.value);
        }
      case Occupy(at, n) =>
        FreeInGap(ini, size, at, n);
        if k: nat :| k < |context.occupation| && Fits(context.occupation, k, at, n) {
          InsertedTakes(ini, size, k, at, n);
          var r := context.OccupySpace(at, n);
          offset := Some(at);
        }
    }
    after := blocks;
    if offset.Some? {
      AccountedMore(context.occupation, ini, blocks, size, Position(offset.value, step.n));
      after := blocks + [Position(offset.value, step.n)];
      assert Granted(step, Snapshot(ini, blocks), Snapshot(context.occupation, after), size, offset.value);
    }
  }

  lemma FreeInGap(o: seq<Position>, size: nat, offset: nat, n: nat)
    requires Sorted(o, size) && n > 0
    ensures FreeBlock(o, size, offset, n) ==> exists k: nat :: k < |o| && Fits(o, k, offset, n)
  {
    if FreeBlock(o, size, offset, n) {
      var k := BlockInGap(o, size, offset, n);
    }
  }
}
