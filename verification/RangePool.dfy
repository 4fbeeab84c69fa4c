/** A pool of free index ranges, with a second index by size for finding the smallest that fits. */
module RangePools {
  import opened Common

  /** Start of a range to its end, which is one past its last index. */
  type Ranges = map<nat, nat>

  /** A range by its size, and by its start among ranges of the same size. */
  datatype Sized = Sized(size: nat, start: nat)

  predicate Before(a: Sized, b: Sized) {
    a.size < b.size || (a.size == b.size && a.start <= b.start)
  }

  ghost predicate IsSmallest(x: Sized, s: set<Sized>) {
    x in s && forall y :: y in s ==> Before(x, y)
  }

  lemma {:induction false} SmallestExists(s: set<Sized>)
    requires s != {}
    ensures exists x :: IsSmallest(x, s)
  {
    var x :| x in s;
    var rest := s - {x};
    if rest == {} {
      assert s == {x};
      assert IsSmallest(x, s);
    } else {
      SmallestExists(rest);
      var z :| IsSmallest(z, rest);
      assert forall y :: y in s ==> y == x || y in rest;
      assert IsSmallest(if Before(x, z) then x else z, s);
    }
  }

  /** The entry comes at or after `(size, min)` in the index: `min` matters for ranges of exactly that
      size only. */
  predicate Eligible(e: Sized, size: nat, min: nat) {
    Before(Sized(size, min), e)
  }

  /** The first entry of the index from `(size, min)` on. */
  function FirstFit(sizes: set<Sized>, size: nat, min: nat): (r: Option<Sized>)
    ensures r.Some? ==> r.value in sizes && Eligible(r.value, size, min)
    ensures r.Some? ==> forall y :: y in sizes && Eligible(y, size, min) ==> Before(r.value, y)
    ensures r.None? ==> forall y :: y in sizes ==> !Eligible(y, size, min)
  {
    var fits := set y | y in sizes && Eligible(y, size, min);
    if fits == {} then
      assert forall y :: y in sizes && Eligible(y, size, min) ==> y in fits;
      None
    else
      SmallestExists(fits);
      var x :| x in fits && forall y :: y in fits ==> Before(x, y);
      assert forall y :: y in sizes && Eligible(y, size, min) ==> y in fits;
      Some(x)
  }

  /** The greatest key below `bound`. */
  function LastBelow(m: Ranges, bound: nat): (r: Option<nat>)
    ensures r.Some? ==> r.value in m && r.value < bound && forall k: nat :: k in m && k < bound ==> k <= r.value
    ensures r.None? ==> forall k: nat :: k in m ==> k >= bound
    decreases bound
  {
    if bound == 0 then None
    else if bound - 1 in m then Some(bound - 1)
    else LastBelow(m, bound - 1)
  }

  // ---------------------------------------------------------------- what a pool stands for

  ghost predicate Covers(ranges: Ranges, s: nat, x: nat) {
    s in ranges && s <= x < ranges[s]
  }

  /** Index `x` is free. */
  ghost predicate Free(ranges: Ranges, x: nat) {
    exists s: nat :: Covers(ranges, s, x)
  }

  /** Ranges are nonempty and there is something between any two of them. */
  ghost predicate Apart(ranges: Ranges) {
    && (forall s: nat :: s in ranges ==> s < ranges[s])
    && (forall s: nat, t: nat :: s in ranges && t in ranges && s < t ==> ranges[s] < t)
  }

  ghost predicate Indexed(ranges: Ranges, sizes: set<Sized>) {
    forall e: Sized :: e in sizes <==> e.start in ranges && e.size == ranges[e.start] - e.start
  }

  /** The free indexes are those of `old` without, or with, `[lo, hi)`. */
  ghost predicate Removed(fin: Ranges, ini: Ranges, lo: nat, hi: nat) {
    forall x: nat :: Free(fin, x) <==> Free(ini, x) && !(lo <= x < hi)
  }

  ghost predicate Added(fin: Ranges, ini: Ranges, lo: nat, hi: nat) {
    forall x: nat :: Free(fin, x) <==> Free(ini, x) || lo <= x < hi
  }

  lemma IndexWithout(ranges: Ranges, sizes: set<Sized>, s: nat)
    requires Indexed(ranges, sizes) && s in ranges && s <= ranges[s]
    ensures Sized(ranges[s] - s, s) in sizes && Indexed(ranges - {s}, sizes - {Sized(ranges[s] - s, s)})
  {
  }

  lemma IndexWith(ranges: Ranges, sizes: set<Sized>, s: nat, e: nat)
    requires Indexed(ranges, sizes) && s !in ranges && s <= e
    ensures Indexed(ranges[s := e], sizes + {Sized(e - s, s)})
  {
  }

  lemma IndexChanged(ranges: Ranges, sizes: set<Sized>, s: nat, e: nat)
    requires Indexed(ranges, sizes) && s in ranges && s <= ranges[s] && s <= e
    ensures Indexed(ranges[s := e], sizes - {Sized(ranges[s] - s, s)} + {Sized(e - s, s)})
  {
    hide Indexed;
    IndexWithout(ranges, sizes, s);
    IndexWith(ranges - {s}, sizes - {Sized(ranges[s] - s, s)}, s, e);
    assert (ranges - {s})[s := e] == ranges[s := e];
  }

  /** Only the range right below `start` can end there. */
  lemma NoneEndsAt(ranges: Ranges, start: nat, e: nat)
    requires Apart(ranges)
    requires var p := LastBelow(ranges, start); p.None? || ranges[p.value] != start
    ensures forall s: nat :: s in ranges && s < start ==> ranges[s] != start
  {
  }

  lemma CutEnd(ranges: Ranges, s: nat, n: nat)
    requires Apart(ranges) && s in ranges && 0 < n < ranges[s] - s
    ensures var fin := ranges[s := ranges[s] - n]; Apart(fin) && Removed(fin, ranges, ranges[s] - n, ranges[s])
  {
    var fin := ranges[s := ranges[s] - n];
    forall x: nat ensures Free(fin, x) <==> Free(ranges, x) && !(ranges[s] - n <= x < ranges[s]) {
      if Free(fin, x) {
        var t: nat :| Covers(fin, t, x);
        assert Covers(ranges, t, x);
      }
      if Free(ranges, x) && !(ranges[s] - n <= x < ranges[s]) {
        var t: nat :| Covers(ranges, t, x);
        assert Covers(fin, t, x);
      }
    }
  }

  lemma TakeAll(ranges: Ranges, s: nat)
    requires Apart(ranges) && s in ranges
    ensures Apart(ranges - {s}) && Removed(ranges - {s}, ranges, s, ranges[s])
  {
    var fin := ranges - {s};
    forall x: nat ensures Free(fin, x) <==> Free(ranges, x) && !(s <= x < ranges[s]) {
      if Free(fin, x) {
        var t: nat :| Covers(fin, t, x);
        assert Covers(ranges, t, x);
      }
      if Free(ranges, x) && !(s <= x < ranges[s]) {
        var t: nat :| Covers(ranges, t, x);
        assert Covers(fin, t, x);
      }
    }
  }

  /** A range next to no other becomes an entry of its own. */
  lemma AddAlone(ranges: Ranges, lo: nat, hi: nat)
    requires Apart(ranges) && lo < hi && (forall x: nat :: lo <= x < hi ==> !Free(ranges, x))
    requires hi !in ranges && (forall s: nat :: s in ranges && s < lo ==> ranges[s] != lo)
    ensures Apart(ranges[lo := hi]) && Added(ranges[lo := hi], ranges, lo, hi)
  {
    var fin := ranges[lo := hi];
    forall s: nat | s in ranges ensures ranges[s] < lo || hi < s {
      if s < hi && lo < ranges[s] {
        var x: nat := if s < lo then lo else s;
        assert Covers(ranges, s, x);
        assert Free(ranges, x);
      }
    }
    forall x: nat ensures Free(fin, x) <==> Free(ranges, x) || lo <= x < hi {
      if Free(fin, x) {
        var t: nat :| Covers(fin, t, x);
        assert t == lo || Covers(ranges, t, x);
      }
      if Free(ranges, x) {
        var t: nat :| Covers(ranges, t, x);
        assert Covers(fin, t, x);
      }
      if lo <= x < hi {
        assert Covers(fin, lo, x);
      }
    }
  }

  /** Returning `[start, end)` when `[end, e)` and `[p, start)` are free: these are taken away and
      everything from `p` to `e` is added as one range. */
  lemma Coalesce(fin: Ranges, mid2: Ranges, mid: Ranges, ini: Ranges, p: nat, start: nat, end: nat, e: nat)
    requires p <= start < end <= e
    requires Removed(mid, ini, end, e) && (forall x: nat :: end <= x < e ==> Free(ini, x))
    requires Removed(mid2, mid, p, start) && (forall x: nat :: p <= x < start ==> Free(mid, x))
    requires Added(fin, mid2, p, e)
    ensures Added(fin, ini, start, end)
  {
    hide Free;
  }

  lemma FreeOf(ranges: Ranges, s: nat)
    requires s in ranges
    ensures forall x: nat :: s <= x < ranges[s] ==> Free(ranges, x)
  {
    forall x: nat | s <= x < ranges[s] ensures Free(ranges, x) {
      assert Covers(ranges, s, x);
    }
  }

  lemma NothingRemoved(ranges: Ranges, x: nat)
    ensures Removed(ranges, ranges, x, x)
  {
  }

  /** What is left is not free any more, so that the widened range can be added. */
  lemma Vacant(mid2: Ranges, mid: Ranges, ini: Ranges, p: nat, start: nat, end: nat, e: nat)
    requires Removed(mid, ini, end, e) && Removed(mid2, mid, p, start) && p <= start < end <= e
    requires forall x: nat :: start <= x < end ==> !Free(ini, x)
    ensures forall x: nat :: p <= x < e ==> !Free(mid2, x)
  {
    hide Free;
  }

  class RangePool {
    var ranges: Ranges
    var sizes: set<Sized>

    ghost predicate Valid()
      reads this
    {
      Apart(ranges) && Indexed(ranges, sizes)
    }

    constructor (start: nat, end: nat)
      requires start < end
      ensures Valid() && ranges == map[start := end]
    {
      ranges := map[start := end];
      sizes := {Sized(end - start, start)};
    }

    /** Takes `size` indexes from the end of the smallest range that has as many, where a range of
        exactly that size must not begin before `min`; fails only when there is no such range. */
    method Get(size: nat, min: nat) returns (r: Option<nat>)
      requires Valid() && size > 0
      modifies this
      ensures Valid()
      ensures r.None? ==> ranges == old(ranges) && forall s: nat :: s in old(ranges) ==> !Suits(old(ranges), s, size, min)
      ensures r.Some? ==> Removed(ranges, old(ranges), r.value, r.value + size) && forall x: nat :: r.value <= x < r.value + size ==> Free(old(ranges), x)
      ensures r.Some? ==> exists s: nat :: Fits(old(ranges), s, r.value, size, min)
    {
      hide Free, Removed, Indexed, Apart;
      var found := FirstFit(sizes, size, min);
      Smallest(ranges, sizes, size, min);
      if found.None? {
        return None;
      }
      var s: nat, was: nat := found.value.start, found.value.size;
      FreeOf(ranges, s);
      if was > size {
        CutEnd(ranges, s, size);
        IndexChanged(ranges, sizes, s, ranges[s] - size);
        sizes := sizes - {found.value} + {Sized(was - size, s)};
        ranges := ranges[s := ranges[s] - size];
        assert Fits(old(ranges), s, ranges[s], size, min);
        return Some(ranges[s]);
      } else {
        TakeAll(ranges, s);
        IndexWithout(ranges, sizes, s);
        sizes := sizes - {found.value};
        ranges := ranges - {s};
        assert Fits(old(ranges), s, s, size, min);
        return Some(s);
      }
    }

    /** Returns indexes that are not free, joining them with the free ranges they touch. */
    method Insert(start: nat, end: nat)
      requires Valid() && start < end && forall x: nat :: start <= x < end ==> !Free(ranges, x)
      modifies this
      ensures Valid() && Added(ranges, old(ranges), start, end)
    {
      hide Free, Removed, Added, Indexed, Apart;
      ghost var ini := ranges;
      var e: nat := end;
      NothingRemoved(ini, end);
      if end in ranges {
        e := ranges[end];
        FreeOf(ini, end);
        TakeAll(ini, end);
        Nonempty(ini, end);
        IndexWithout(ranges, sizes, end);
        sizes := sizes - {Sized(e - end, end)};
        ranges := ranges - {end};
      }
      ghost var mid := ranges;
      NotAtEnd(ini, mid, end, e);
      var p := LastBelow(ranges, start);
      if p.Some? && ranges[p.value] == start {
        TakeAll(mid, p.value);
        FreeOf(mid, p.value);
        NoneBelow(mid, p.value);
        IndexChanged(mid, sizes, p.value, e);
        Vacant(mid - {p.value}, mid, ini, p.value, start, end, e);
        AddAlone(mid - {p.value}, p.value, e);
        sizes := sizes - {Sized(start - p.value, p.value)} + {Sized(e - p.value, p.value)};
        ranges := ranges[p.value := e];
        assert ranges == (mid - {p.value})[p.value := e];
        Coalesce(ranges, mid - {p.value}, mid, ini, p.value, start, end, e);
      } else {
        NothingRemoved(mid, start);
        NoneEndsAt(mid, start, e);
        NotFreeNotStart(mid, start, ini, end, e);
        IndexWith(mid, sizes, start, e);
        Vacant(mid, mid, ini, start, start, end, e);
        AddAlone(mid, start, e);
        sizes := sizes + {Sized(e - start, start)};
        ranges := ranges[start := e];
        Coalesce(ranges, mid, mid, ini, start, start, end, e);
      }
    }
  }

  lemma Nonempty(ranges: Ranges, s: nat)
    requires Apart(ranges) && s in ranges
    ensures s < ranges[s]
  {
  }

  lemma NotAtEnd(ini: Ranges, mid: Ranges, end: nat, e: nat)
    requires Apart(ini) && if end in ini then e == ini[end] && mid == ini - {end} else e == end && mid == ini
    ensures e !in mid
  {
  }

  lemma NoneBelow(mid: Ranges, p: nat)
    requires Apart(mid) && p in mid
    ensures forall s: nat :: s in mid - {p} && s < p ==> (mid - {p})[s] != p
  {
  }

  lemma NotFreeNotStart(mid: Ranges, start: nat, ini: Ranges, end: nat, e: nat)
    requires Apart(mid) && Removed(mid, ini, end, e) && start < end && !Free(ini, start)
    ensures start !in mid
  {
    if start in mid {
      assert Covers(mid, start, start);
    }
  }

  lemma Smallest(ranges: Ranges, sizes: set<Sized>, size: nat, min: nat)
    requires Indexed(ranges, sizes) && Apart(ranges)
    ensures var r := FirstFit(sizes, size, min);
            && (r.None? ==> forall s: nat :: s in ranges ==> !Suits(ranges, s, size, min))
            && (r.Some? ==> Best(ranges, r.value.start, size, min) && r.value.size == ranges[r.value.start] - r.value.start && r.value.start < ranges[r.value.start])
  {
    assert forall t: nat :: t in ranges ==> Sized(ranges[t] - t, t) in sizes;
  }

  /** The range has more than `size` indexes, or exactly as many and does not begin before `min`. */
  ghost predicate Suits(ranges: Ranges, s: nat, size: nat, min: nat) {
    s in ranges && (ranges[s] - s > size || (ranges[s] - s == size && s >= min))
  }

  /** No range that suits is smaller, or equally large and further down. */
  ghost predicate Best(ranges: Ranges, s: nat, size: nat, min: nat) {
    Suits(ranges, s, size, min)
    && forall t: nat :: Suits(ranges, t, size, min) ==> ranges[s] - s < ranges[t] - t || (ranges[s] - s == ranges[t] - t && s <= t)
  }

  /** The block is the end of the best range. */
  ghost predicate Fits(ranges: Ranges, s: nat, r: nat, size: nat, min: nat) {
    Best(ranges, s, size, min) && r + size == ranges[s]
  }

  // ---------------------------------------------------------------- the pool is determined by what is free

  lemma SameStart(a: Ranges, b: Ranges, s: nat)
    requires Apart(a) && Apart(b) && (forall x: nat :: Free(a, x) <==> Free(b, x)) && s in a
    ensures s in b && b[s] == a[s]
  {
    assert Covers(a, s, s);
    assert Free(a, s) && Free(b, s);
    var t: nat :| Covers(b, t, s);
    if t < s {
      StartsFresh(a, s);
      assert Covers(b, t, s - 1);
    }
    EndsFresh(a, s);
    EndsFresh(b, t);
    if b[t] < a[s] {
      assert Covers(a, s, b[t]);
      assert Free(a, b[t]);
    } else if a[s] < b[t] {
      assert Covers(b, t, a[s]);
      assert Free(b, a[s]);
    }
  }

  lemma StartsFresh(ranges: Ranges, s: nat)
    requires Apart(ranges) && s in ranges && s > 0
    ensures !Free(ranges, s - 1)
  {
  }

  lemma EndsFresh(ranges: Ranges, s: nat)
    requires Apart(ranges) && s in ranges
    ensures !Free(ranges, ranges[s])
  {
  }

  /** Pools with the same free indexes are equal; in particular, when everything has been returned
      the pool is what it was in the beginning. */
  lemma Canonical(a: Ranges, b: Ranges)
    requires Apart(a) && Apart(b) && (forall x: nat :: Free(a, x) <==> Free(b, x))
    ensures a == b
  {
    forall s: nat | s in a ensures s in b && b[s] == a[s] {
      SameStart(a, b, s);
    }
    forall s: nat | s in b ensures s in a {
      SameStart(b, a, s);
    }
  }

  // ---------------------------------------------------------------- runs

  /** A step of a user of the pool: ask for a block, or give one back. */
  datatype Step = Ask(size: nat, min: nat) | GiveBack(block: nat)

  datatype Block = Block(start: nat, size: nat)

  ghost predicate In(b: Block, x: nat) {
    b.start <= x < b.start + b.size
  }

  ghost predicate Inside(blocks: seq<Block>, x: nat) {
    exists k: nat :: k < |blocks| && In(blocks[k], x)
  }

  /** Every index of the initial range is free or in exactly one block, and nothing else is. */
  ghost predicate Accounted(ranges: Ranges, blocks: seq<Block>, start: nat, end: nat) {
    && (forall k: nat :: k < |blocks| ==> blocks[k].size > 0)
    && (forall k: nat, l: nat, x: nat :: k < l < |blocks| && In(blocks[k], x) ==> !In(blocks[l], x))
    && (forall x: nat :: Free(ranges, x) ==> !Inside(blocks, x))
    && (forall x: nat :: start <= x < end <==> Free(ranges, x) || Inside(blocks, x))
  }

  lemma AccountedAsk(fin: Ranges, ini: Ranges, blocks: seq<Block>, start: nat, end: nat, b: Block)
    requires Accounted(ini, blocks, start, end) && b.size > 0 && Removed(fin, ini, b.start, b.start + b.size)
    requires forall x: nat :: In(b, x) ==> Free(ini, x)
    ensures Accounted(fin, blocks + [b], start, end)
  {
    hide Free, Inside;
    var all := blocks + [b];
    forall x: nat ensures Inside(all, x) <==> Inside(blocks, x) || In(b, x) {
      InsideMore(blocks, b, x);
    }
    forall k: nat, l: nat, x: nat | k < l < |all| && In(all[k], x) ensures !In(all[l], x) {
      InsideAt(blocks, k, x);
      assert all[k] == blocks[k] && (l < |blocks| ==> all[l] == blocks[l]);
    }
  }

  lemma InsideAt(blocks: seq<Block>, k: nat, x: nat)
    requires k < |blocks| && In(blocks[k], x)
    ensures Inside(blocks, x)
  {
  }

  lemma InsideMore(blocks: seq<Block>, b: Block, x: nat)
    ensures Inside(blocks + [b], x) <==> Inside(blocks, x) || In(b, x)
  {
    var all := blocks + [b];
    if Inside(blocks, x) {
      var k: nat :| k < |blocks| && In(blocks[k], x);
      assert all[k] == blocks[k];
    }
    if In(b, x) {
      assert all[|blocks|] == b;
    }
  }

  lemma InsideWithout(blocks: seq<Block>, j: nat, x: nat)
    requires j < |blocks|
    ensures Inside(blocks, x) <==> Inside(blocks[..j] + blocks[j + 1..], x) || In(blocks[j], x)
  {
    var rest := blocks[..j] + blocks[j + 1..];
    if Inside(blocks, x) && !In(blocks[j], x) {
      var k: nat :| k < |blocks| && In(blocks[k], x);
      assert rest[if k < j then k else k - 1] == blocks[k];
    }
    if Inside(rest, x) {
      var k: nat :| k < |rest| && In(rest[k], x);
      assert blocks[if k < j then k else k + 1] == rest[k];
    }
  }

  lemma NotInOthers(ranges: Ranges, blocks: seq<Block>, start: nat, end: nat, j: nat, x: nat)
    requires Accounted(ranges, blocks, start, end) && j < |blocks| && In(blocks[j], x)
    ensures !Inside(blocks[..j] + blocks[j + 1..], x)
  {
    hide Free;
    var rest := blocks[..j] + blocks[j + 1..];
    forall k: nat | k < |rest| ensures !In(rest[k], x) {
      if k < j {
        assert rest[k] == blocks[k];
      } else {
        assert rest[k] == blocks[k + 1];
      }
    }
  }

  lemma AccountedGiveBack(fin: Ranges, ini: Ranges, blocks: seq<Block>, start: nat, end: nat, j: nat)
    requires Accounted(ini, blocks, start, end) && j < |blocks|
    requires Added(fin, ini, blocks[j].start, blocks[j].start + blocks[j].size)
    ensures Accounted(fin, blocks[..j] + blocks[j + 1..], start, end)
  {
    hide Free, Inside;
    var b, rest := blocks[j], blocks[..j] + blocks[j + 1..];
    forall x: nat ensures Inside(blocks, x) <==> Inside(rest, x) || In(b, x) {
      InsideWithout(blocks, j, x);
    }
    forall x: nat | In(b, x) ensures !Inside(rest, x) {
      NotInOthers(ini, blocks, start, end, j, x);
    }
    assert forall x: nat :: Free(fin, x) <==> Free(ini, x) || In(b, x);
    forall k: nat | k < |rest| ensures rest[k].size > 0 {
      assert rest[k] == blocks[if k < j then k else k + 1];
    }
    forall k: nat, l: nat, x: nat | k < l < |rest| && In(rest[k], x) ensures !In(rest[l], x) {
      assert rest[k] == blocks[if k < j then k else k + 1] && rest[l] == blocks[if l < j then l else l + 1];
    }
  }

  lemma BlockTaken(ranges: Ranges, blocks: seq<Block>, start: nat, end: nat, j: nat)
    requires Accounted(ranges, blocks, start, end) && j < |blocks|
    ensures forall x: nat :: In(blocks[j], x) ==> !Free(ranges, x)
  {
    hide Free;
    forall x: nat | In(blocks[j], x) ensures !Free(ranges, x) {
      assert Inside(blocks, x);
    }
  }

  /** The free ranges and the blocks that are out. */
  datatype Snapshot = Snapshot(ranges: Ranges, blocks: seq<Block>)

  /** The block that a request got. */
  ghost predicate Granted(s: Snapshot, t: Snapshot, size: nat, min: nat, r: nat) {
    && t.blocks == s.blocks + [Block(r, size)] && Removed(t.ranges, s.ranges, r, r + size) && exists at: nat :: Fits(s.ranges, at, r, size, min)
  }

  /** What a step does: a request gets the best block, or nothing if no range suits, and a return frees
      its block. */
  ghost predicate Stepped(step: Step, s: Snapshot, t: Snapshot) {
    match step
    case Ask(size, min) =>
      || (exists r: nat :: Granted(s, t, size, min, r))
      || (t == s && forall at: nat :: at in s.ranges ==> !Suits(s.ranges, at, size, min))
    case GiveBack(j) =>
      if j < |s.blocks| then
        t.blocks == s.blocks[..j] + s.blocks[j + 1..] && Added(t.ranges, s.ranges, s.blocks[j].start, s.blocks[j].start + s.blocks[j].size)
      else t == s
  }

  /** In any run of requests and returns each has its effect, free and allocated indexes stay apart and
      complete, and a pool to which everything has been returned is the initial pool. */
  method Run(start: nat, end: nat, steps: seq<Step>) returns (pool: RangePool, blocks: seq<Block>, ghost trace: seq<Snapshot>)
    requires start < end && forall s :: s in steps && s.Ask? ==> s.size > 0
    ensures fresh(pool) && pool.Valid() && Accounted(pool.ranges, blocks, start, end)
    ensures |trace| == |steps| + 1 && trace[0] == Snapshot(map[start := end], []) && trace[|steps|] == Snapshot(pool.ranges, blocks)
    ensures forall i: nat :: i < |steps| ==> Stepped(steps[i], trace[i], trace[i + 1])
    ensures blocks == [] ==> pool.ranges == map[start := end]
  {
    hide Free, Accounted, Stepped;
    pool := new RangePool(start, end);
    blocks := [];
    trace := [Snapshot(pool.ranges, blocks)];
    InitialFree(start, end);
    var i: nat := 0;
    while i < |steps|
      invariant i <= |steps| && fresh(pool) && pool.Valid() && Accounted(pool.ranges, blocks, start, end)
      invariant |trace| == i + 1 && trace[0] == Snapshot(map[start := end], []) && trace[i] == Snapshot(pool.ranges, blocks)
      invariant forall k: nat :: k < i ==> Stepped(steps[k], trace[k], trace[k + 1])
    {
      assert steps[i] in steps;
      blocks := OneStep(pool, blocks, steps[i], start, end);
      trace := trace + [Snapshot(pool.ranges, blocks)];
      i := i + 1;
    }
    if blocks == [] {
      AllReturned(pool.ranges, start, end);
    }
  }

  method OneStep(pool: RangePool, blocks: seq<Block>, step: Step, ghost start: nat, ghost end: nat) returns (after: seq<Block>)
    requires pool.Valid() && Accounted(pool.ranges, blocks, start, end) && (step.Ask? ==> step.size > 0)
    modifies pool
    ensures pool.Valid() && Accounted(pool.ranges, after, start, end)
    ensures Stepped(step, Snapshot(old(pool.ranges), blocks), Snapshot(pool.ranges, after))
  {
    hide Free, Accounted, Removed, Added, Suits, Fits;
    ghost var ini := pool.ranges;
    after := blocks;
    match step {
      case Ask(size, min) =>
        var r := pool.Get(size, min);
        if r.Some? {
          AccountedAsk(pool.ranges, ini, blocks, start, end, Block(r.value, size));
          after := blocks + [Block(r.value, size)];
          assert Granted(Snapshot(ini, blocks), Snapshot(pool.ranges, after), size, min, r.value);
        }
      case GiveBack(j) =>
        if j < |blocks| {
          BlockTaken(ini, blocks, start, end, j);
          BlockSize(ini, blocks, start, end, j);
          pool.Insert(blocks[j].start, blocks[j].start + blocks[j].size);
          AccountedGiveBack(pool.ranges, ini, blocks, start, end, j);
          after := blocks[..j] + blocks[j + 1..];
        }
    }
  }

  lemma BlockSize(ranges: Ranges, blocks: seq<Block>, start: nat, end: nat, j: nat)
    requires Accounted(ranges, blocks, start, end) && j < |blocks|
    ensures blocks[j].size > 0
  {
  }

  lemma InitialFree(start: nat, end: nat)
    requires start < end
    ensures Accounted(map[start := end], [], start, end)
  {
    forall x: nat ensures start <= x < end <==> Free(map[start := end], x) {
      if start <= x < end {
        assert Covers(map[start := end], start, x);
      }
    }
  }

  lemma AllReturned(ranges: Ranges, start: nat, end: nat)
    requires start < end && Apart(ranges) && Accounted(ranges, [], start, end)
    ensures ranges == map[start := end]
  {
    hide Free;
    InitialFree(start, end);
    forall x: nat ensures !Inside([], x) {
    }
    Canonical(ranges, map[start := end]);
  }
}
