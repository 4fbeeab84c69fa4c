/** Splitting the input sets of a function into shards, and running the function on every combination. */
module Sharding {
  import opened Common
  import opened Compositions

  // ---------------------------------------------------------------- sorting by key

  ghost predicate ByKey(items: seq<Item>) {
    forall i: nat, j: nat :: i < j < |items| ==> items[i].key <= items[j].key
  }

  function Place(items: seq<Item>, x: Item): seq<Item> {
    if items == [] then [x]
    else if x.key < items[0].key then [x] + items
    else [items[0]] + Place(items[1..], x)
  }

  function SortByKey(items: seq<Item>): seq<Item> {
    if items == [] then [] else Place(SortByKey(items[..|items| - 1]), items[|items| - 1])
  }

  lemma {:induction false} PlaceKeeps(items: seq<Item>, x: Item)
    ensures Place(items, x) != [] && multiset(Place(items, x)) == multiset(items) + multiset{x}
    ensures Place(items, x)[0] == if items == [] || x.key < items[0].key then x else items[0]
  {
    if items != [] && x.key >= items[0].key {
      PlaceKeeps(items[1..], x);
      assert items == [items[0]] + items[1..];
    }
  }

  lemma {:induction false} PlaceSorts(items: seq<Item>, x: Item)
    requires ByKey(items)
    ensures ByKey(Place(items, x))
  {
    if items != [] && x.key >= items[0].key {
      PlaceSorts(items[1..], x);
      PlaceKeeps(items[1..], x);
      ByKeyFront(items[0], Place(items[1..], x));
    } else if items != [] {
      ByKeyFront(x, items);
    }
  }

  lemma ByKeyFront(x: Item, rest: seq<Item>)
    requires ByKey(rest) && (rest != [] ==> x.key <= rest[0].key)
    ensures ByKey([x] + rest)
  {
    var all := [x] + rest;
    forall i: nat, j: nat | i < j < |all| ensures all[i].key <= all[j].key {
      if i == 0 && j > 1 {
        assert rest[0].key <= rest[j - 1].key;
      }
    }
  }

  lemma {:induction false} SortSorts(items: seq<Item>)
    ensures ByKey(SortByKey(items)) && multiset(SortByKey(items)) == multiset(items)
  {
    hide ByKey, Place;
    if items == [] {
      SortedNone();
    } else {
      var n := |items| - 1;
      SortSorts(items[..n]);
      PlaceSorts(SortByKey(items[..n]), items[n]);
      PlaceKeeps(SortByKey(items[..n]), items[n]);
      assert items == items[..n] + [items[n]];
    }
  }

  lemma SortedNone()
    ensures ByKey([])
  {
  }

  /** Adds the items of another part of the same set. */
  method Combine(s: CompositionSet, more: CompositionSet) returns (r: Result<CompositionSet>)
    ensures r.Ok? <==> s.setIndex == more.setIndex
    ensures r.Ok? ==> r.value.setIndex == s.setIndex && ByKey(r.value.items) && multiset(r.value.items) == multiset(s.items) + multiset(more.items)
  {
    if s.setIndex != more.setIndex {
      return Err(CompositionCombine);
    }
    SortSorts(s.items + more.items);
    return Ok(CompositionSet(SortByKey(s.items + more.items), s.setIndex));
  }

  /** The set with index `setIndex` of several contexts, given by the keys of its items in each. */
  method FromContexts(setIndex: nat, contexts: seq<Option<seq<nat>>>) returns (s: CompositionSet)
    ensures s.setIndex == setIndex && ByKey(s.items)
    ensures multiset(s.items) == multiset(Listed(contexts))
  {
    var items: seq<Item> := [];
    for c := 0 to |contexts|
      invariant items == Listed(contexts[..c])
    {
      ghost var before := items;
      assert contexts[..c + 1][..c] == contexts[..c];
      if contexts[c].Some? {
        var keys := contexts[c].value;
        for i := 0 to |keys|
          invariant items == before + ItemsOf(keys, c)[..i]
        {
          items := items + [Item(keys[i], i, c)];
        }
        assert ItemsOf(keys, c)[..|keys|] == ItemsOf(keys, c);
      }
    }
    assert contexts[..|contexts|] == contexts;
    SortSorts(items);
    return CompositionSet(SortByKey(items), setIndex);
  }

  function ItemsOf(keys: seq<nat>, c: nat): (r: seq<Item>)
    ensures |r| == |keys| && forall i: nat :: i < |keys| ==> r[i] == Item(keys[i], i, c)
  {
    seq(|keys|, i requires 0 <= i < |keys| => Item(keys[i], i, c))
  }

  /** All items of the set, context after context. */
  function Listed(contexts: seq<Option<seq<nat>>>): seq<Item> {
    if contexts == [] then []
    else
      var n := |contexts| - 1;
      Listed(contexts[..n]) + if contexts[n].Some? then ItemsOf(contexts[n].value, n) else []
  }

  // ---------------------------------------------------------------- shards

  function Joined(shards: seq<CompositionSet>): seq<Item> {
    if shards == [] then [] else Joined(shards[1..]) + shards[0].items
  }

  ghost predicate OneKey(items: seq<Item>) {
    items != [] && forall i: nat :: i < |items| ==> items[i].key == items[0].key
  }

  /** One nonempty shard for every key, from the highest key down. */
  ghost predicate KeyGroups(shards: seq<CompositionSet>) {
    && (forall i: nat :: i < |shards| ==> OneKey(shards[i].items))
    && (forall i: nat, j: nat :: i < j < |shards| ==> shards[j].items != [] && shards[i].items != [] && shards[j].items[0].key < shards[i].items[0].key)
  }

  /** Where the run of items with key `key` at the end begins. */
  function RunStart(items: seq<Item>, key: nat): (p: nat)
    ensures p <= |items|
  {
    if items != [] && items[|items| - 1].key == key then RunStart(items[..|items| - 1], key) else |items|
  }

  function GroupStart(items: seq<Item>): (p: nat)
    requires items != []
    ensures p < |items|
  {
    RunStart(items[..|items| - 1], items[|items| - 1].key)
  }

  function KeyShards(items: seq<Item>, setIndex: nat): seq<CompositionSet> {
    if items == [] then []
    else [CompositionSet(items[GroupStart(items)..], setIndex)] + KeyShards(items[..GroupStart(items)], setIndex)
  }

  /** Where the group of the last key begins. */
  method LastGroup(items: seq<Item>) returns (position: nat)
    requires items != []
    ensures position == GroupStart(items)
  {
    position := |items| - 1;
    while position > 0 && items[position - 1].key == items[|items| - 1].key
      invariant position < |items| && RunStart(items[..position], items[|items| - 1].key) == GroupStart(items)
    {
      assert items[..position][..position - 1] == items[..position - 1];
      position := position - 1;
    }
  }

  lemma {:induction false} RunStartIs(items: seq<Item>, key: nat)
    ensures var p := RunStart(items, key);
            (forall i: nat :: p <= i < |items| ==> items[i].key == key) && (p > 0 ==> items[p - 1].key != key)
  {
    if items != [] && items[|items| - 1].key == key {
      RunStartIs(items[..|items| - 1], key);
    }
  }

  lemma GroupStartIs(items: seq<Item>)
    requires items != []
    ensures var p, key := GroupStart(items), items[|items| - 1].key;
            (forall i: nat :: p <= i < |items| ==> items[i].key == key) && (p > 0 ==> items[p - 1].key != key)
  {
    var rest, key := items[..|items| - 1], items[|items| - 1].key;
    RunStartIs(rest, key);
    hide RunStart;
    forall i: nat | GroupStart(items) <= i < |items| ensures items[i].key == key {
      if i < |rest| {
        assert rest[i] == items[i];
      }
    }
    assert GroupStart(items) > 0 ==> rest[GroupStart(items) - 1] == items[GroupStart(items) - 1];
  }

  /** The items of the last key, and those before them. */
  lemma LastKey(items: seq<Item>, p: nat)
    requires ByKey(items) && p < |items| && forall i: nat :: p <= i < |items| ==> items[i].key == items[|items| - 1].key
    requires p > 0 ==> items[p - 1].key != items[|items| - 1].key
    ensures OneKey(items[p..]) && ByKey(items[..p]) && items == items[..p] + items[p..]
    ensures items[p..][0].key == items[|items| - 1].key && (p > 0 ==> items[p - 1].key < items[|items| - 1].key)
  {
  }

  /** Key by key from the highest down, all items in their order. */
  lemma {:induction false} KeyShardsAre(items: seq<Item>, setIndex: nat)
    requires ByKey(items)
    ensures KeyGroups(KeyShards(items, setIndex)) && Joined(KeyShards(items, setIndex)) == items
    ensures forall i: nat :: i < |KeyShards(items, setIndex)| ==> KeyShards(items, setIndex)[i].setIndex == setIndex
    ensures items != [] ==> KeyShards(items, setIndex) != [] && KeyShards(items, setIndex)[0].items != [] && KeyShards(items, setIndex)[0].items[0].key == items[|items| - 1].key
  {
    hide ByKey, GroupStart, OneKey;
    if items != [] {
      var p := GroupStart(items);
      var group, rest := CompositionSet(items[p..], setIndex), KeyShards(items[..p], setIndex);
      GroupStartIs(items);
      LastKey(items, p);
      KeyShardsAre(items[..p], setIndex);
      assert ([group] + rest)[1..] == rest;
      GroupsFirst(group, rest);
      assert p > 0 ==> items[..p][p - 1] == items[p - 1];
    }
  }

  lemma GroupsFirst(group: CompositionSet, rest: seq<CompositionSet>)
    requires KeyGroups(rest) && OneKey(group.items)
    requires rest != [] ==> rest[0].items != [] && rest[0].items[0].key < group.items[0].key
    ensures KeyGroups([group] + rest)
  {
    var all := [group] + rest;
    forall i: nat, j: nat | i < j < |all| ensures all[j].items != [] && all[i].items != [] && all[j].items[0].key < all[i].items[0].key {
      assert OneKey(rest[j - 1].items);
      assert i > 0 ==> all[i] == rest[i - 1];
    }
  }

  /** Cuts a sorted set into one shard per key: together, from the last to the first, they are the set. */
  method ShardByKey(s: CompositionSet) returns (shards: seq<CompositionSet>)
    requires ByKey(s.items)
    ensures shards == KeyShards(s.items, s.setIndex) && KeyGroups(shards) && Joined(shards) == s.items
  {
    hide ByKey, GroupStart, KeyGroups, Joined;
    var items := s.items;
    shards := [];
    KeyShardsAre(items, s.setIndex);
    while items != []
      invariant shards + KeyShards(items, s.setIndex) == KeyShards(s.items, s.setIndex)
      decreases |items|
    {
      var position := LastGroup(items);
      shards := shards + [CompositionSet(items[position..], s.setIndex)];
      items := items[..position];
    }
  }

  /** What the shards of a set are, item by item. */
  ghost predicate ShardedAs(s: CompositionSet, mode: ShardingMode, shards: seq<CompositionSet>) {
    match mode
    case All => shards == [s]
    case Each => |shards| == |s.items| && forall k: nat :: k < |shards| ==> shards[k] == CompositionSet([s.items[k]], s.setIndex)
    case Key => ByKey(s.items) ==>
      && KeyGroups(shards) && Joined(shards) == s.items && forall k: nat :: k < |shards| ==> shards[k].setIndex == s.setIndex
  }

  /** The shards of a set: all of it, one per item, or one per key. */
  function ShardsOf(s: CompositionSet, mode: ShardingMode): (shards: seq<CompositionSet>)
    ensures ShardedAs(s, mode, shards)
    ensures s.items != [] ==> shards != [] && forall i: nat :: i < |shards| ==> shards[i].items != []
  {
    ShardsAre(s, mode);
    match mode
    case All => [s]
    case Each => seq(|s.items|, i requires 0 <= i < |s.items| => CompositionSet([s.items[i]], s.setIndex))
    case Key => KeyShards(s.items, s.setIndex)
  }

  lemma ShardsAre(s: CompositionSet, mode: ShardingMode)
    ensures mode.Key? ==> ShardedAs(s, mode, KeyShards(s.items, s.setIndex))
    ensures forall i: nat :: i < |KeyShards(s.items, s.setIndex)| ==> KeyShards(s.items, s.setIndex)[i].items != []
  {
    hide KeyGroups, Joined, KeyShards, ByKey;
    KeyShardsNonempty(s.items, s.setIndex);
    if ByKey(s.items) {
      KeyShardsAre(s.items, s.setIndex);
    }
  }

  lemma {:induction false} KeyShardsNonempty(items: seq<Item>, setIndex: nat)
    ensures forall i: nat :: i < |KeyShards(items, setIndex)| ==> KeyShards(items, setIndex)[i].items != []
  {
    if items != [] {
      KeyShardsNonempty(items[..GroupStart(items)], setIndex);
    }
  }

  // ---------------------------------------------------------------- the Cartesian product

  /** The shards of one input set and the index of that set. */
  datatype Axis = Axis(write: nat, shards: seq<CompositionSet>)

  /** `x` extended by each of `k`, …, `n - 1`. */
  function Rows(x: seq<nat>, k: nat, n: nat): seq<seq<nat>>
    decreases n - k
  {
    if k >= n then [] else [x + [k]] + Rows(x, k + 1, n)
  }

  function Cross(l: seq<seq<nat>>, n: nat): seq<seq<nat>> {
    if l == [] then [] else Rows(l[0], 0, n) + Cross(l[1..], n)
  }

  /** All choices of one shard per axis, in lexicographic order. */
  function Combos(axes: seq<Axis>): seq<seq<nat>> {
    if axes == [] then [[]] else Cross(Combos(axes[..|axes| - 1]), |axes[|axes| - 1].shards|)
  }

  ghost predicate Choice(axes: seq<Axis>, d: seq<nat>) {
    |d| == |axes| && forall i: nat :: i < |d| ==> d[i] < |axes[i].shards|
  }

  lemma {:induction false} InRows(x: seq<nat>, k: nat, n: nat, d: seq<nat>)
    ensures d in Rows(x, k, n) <==> |d| == |x| + 1 && d[..|x|] == x && k <= d[|x|] < n
    decreases n - k
  {
    if k < n {
      InRows(x, k + 1, n, d);
      assert d == x + [k] <==> |d| == |x| + 1 && d[..|x|] == x && d[|x|] == k;
    }
  }

  lemma {:induction false} InCross(l: seq<seq<nat>>, n: nat, d: seq<nat>)
    ensures d in Cross(l, n) <==> d != [] && d[..|d| - 1] in l && d[|d| - 1] < n
  {
    if l != [] {
      hide Rows;
      InRows(l[0], 0, n, d);
      InCross(l[1..], n, d);
      assert l == [l[0]] + l[1..];
    }
  }

  /** Exactly the choices occur. */
  lemma {:induction false} CombosComplete(axes: seq<Axis>, d: seq<nat>)
    ensures d in Combos(axes) <==> Choice(axes, d)
  {
    if axes != [] {
      hide Choice, Cross;
      var n := |axes| - 1;
      InCross(Combos(axes[..n]), |axes[n].shards|, d);
      ChoiceLast(axes, d);
      if d != [] {
        CombosComplete(axes[..n], d[..|d| - 1]);
      }
    } else {
      assert d in [[]] <==> d == [];
    }
  }

  lemma ChoiceLast(axes: seq<Axis>, d: seq<nat>)
    requires axes != []
    ensures var n := |axes| - 1; Choice(axes, d) <==> d != [] && Choice(axes[..n], d[..|d| - 1]) && d[|d| - 1] < |axes[n].shards|
  {
    if d != [] && |d| == |axes| && Choice(axes[..|axes| - 1], d[..|d| - 1]) && d[|d| - 1] < |axes[|axes| - 1].shards| {
      forall i: nat | i < |d| ensures d[i] < |axes[i].shards| {
        if i < |d| - 1 {
          assert d[..|d| - 1][i] < |axes[..|axes| - 1][i].shards|;
        }
      }
    }
  }

  predicate Less(x: seq<nat>, y: seq<nat>)
    decreases |x|
  {
    x != [] && y != [] &&
    (Less(x[..|x| - 1], y[..|y| - 1]) || (x[..|x| - 1] == y[..|y| - 1] && x[|x| - 1] < y[|y| - 1]))
  }

  ghost predicate Lexicographic(l: seq<seq<nat>>) {
    forall i: nat, j: nat :: i < j < |l| ==> Less(l[i], l[j])
  }

  lemma LexicographicBoth(a: seq<seq<nat>>, b: seq<seq<nat>>)
    requires Lexicographic(a) && Lexicographic(b) && forall i: nat, j: nat :: i < |a| && j < |b| ==> Less(a[i], b[j])
    ensures Lexicographic(a + b)
  {
    hide Less;
  }

  lemma {:induction false} RowsOrdered(x: seq<nat>, k: nat, n: nat)
    ensures Lexicographic(Rows(x, k, n))
    decreases n - k
  {
    if k < n {
      RowsOrdered(x, k + 1, n);
      var a, b := [x + [k]], Rows(x, k + 1, n);
      forall i: nat, j: nat | i < |a| && j < |b| ensures Less(a[i], b[j]) {
        InRows(x, k + 1, n, b[j]);
        assert (x + [k])[..|x|] == x;
      }
      LexicographicBoth(a, b);
    }
  }

  lemma {:induction false} CrossOrdered(l: seq<seq<nat>>, n: nat)
    requires Lexicographic(l)
    ensures Lexicographic(Cross(l, n))
  {
    if l != [] {
      CrossOrdered(l[1..], n);
      RowsOrdered(l[0], 0, n);
      var a, b := Rows(l[0], 0, n), Cross(l[1..], n);
      forall i: nat, j: nat | i < |a| && j < |b| ensures Less(a[i], b[j]) {
        InRows(l[0], 0, n, a[i]);
        InCross(l[1..], n, b[j]);
        assert exists q: nat :: q < |l[1..]| && l[1..][q] == b[j][..|b[j]| - 1];
      }
      LexicographicBoth(a, b);
    }
  }

  /** The choices come in lexicographic order, so none comes twice. */
  lemma {:induction false} CombosOrdered(axes: seq<Axis>)
    ensures Lexicographic(Combos(axes))
  {
    if axes != [] {
      CombosOrdered(axes[..|axes| - 1]);
      CrossOrdered(Combos(axes[..|axes| - 1]), |axes[|axes| - 1].shards|);
    }
  }

  // ---------------------------------------------------------------- the iterator

  /** An iterator over the shards of one set for every step of the iterator to its left, which it owns. */
  datatype Join = First(right: seq<CompositionSet>, index: nat, write: nat, key: nat)
                | Then(left: Join, right: seq<CompositionSet>, index: nat, write: nat, key: nat)

  ghost function AxesOf(j: Join): seq<Axis> {
    if j.First? then [Axis(j.write, j.right)] else AxesOf(j.left) + [Axis(j.write, j.right)]
  }

  ghost predicate Stands(j: Join) {
    && j.index < |j.right| && (forall i: nat :: i < |j.right| ==> j.right[i].items != [])
    && j.key == j.right[j.index].items[0].key
    && (j.Then? ==> Stands(j.left))
  }

  /** The choices that are still to come, the current one first. */
  ghost function Rest(j: Join): seq<seq<nat>> {
    if j.First? then Rows([], j.index, |j.right|)
    else if Rest(j.left) == [] then []
    else Rows(Rest(j.left)[0], j.index, |j.right|) + Cross(Rest(j.left)[1..], |j.right|)
  }

  datatype Moved = Moved(join: Join, ok: bool)

  function KeyAt(right: seq<CompositionSet>, i: nat): nat {
    if i < |right| && right[i].items != [] then right[i].items[0].key else 0
  }

  /** Moves to the next combination; only the leftmost iterator that runs out ends it. */
  function Advance(j: Join): Moved {
    match j
    case First(right, i, write, key) =>
      if i >= |right| then Moved(j, false)
      else if i + 1 < |right| then Moved(First(right, i + 1, write, KeyAt(right, i + 1)), true)
      else Moved(First(right, i + 1, write, key), false)
    case Then(left, right, i, write, key) =>
      if i + 1 < |right| then Moved(Then(left, right, i + 1, write, KeyAt(right, i + 1)), true)
      else
        var moved := Advance(left);
        if moved.ok then Moved(Then(moved.join, right, 0, write, KeyAt(right, 0)), true)
        else Moved(Then(moved.join, right, |right|, write, key), false)
  }

  lemma RowsFirst(x: seq<nat>, k: nat, n: nat)
    requires k < n
    ensures Rows(x, k, n) != [] && Rows(x, k, n)[0] == x + [k] && Rows(x, k, n)[1..] == Rows(x, k + 1, n)
  {
  }

  /** Advancing drops the current choice and says whether there is another. */
  lemma {:induction false} AdvanceRest(j: Join)
    requires Stands(j)
    ensures Rest(j) != [] && (Advance(j).ok <==> |Rest(j)| > 1)
    ensures Advance(j).ok ==> Stands(Advance(j).join) && Rest(Advance(j).join) == Rest(j)[1..] && AxesOf(Advance(j).join) == AxesOf(j)
  {
    var n := |j.right|;
    if j.First? {
      RowsFirst([], j.index, n);
      if j.index + 1 < n {
        RowsFirst([], j.index + 1, n);
      }
    } else {
      AdvanceRest(j.left);
      var l := Rest(j.left);
      RowsFirst(l[0], j.index, n);
      if j.index + 1 < n {
        RowsFirst(l[0], j.index + 1, n);
      } else if Advance(j.left).ok {
        assert l[1..] != [] && l[1..][1..] == l[2..];
        assert Cross(l[1..], n) == Rows(l[1], 0, n) + Cross(l[2..], n);
        RowsFirst(l[1], 0, n);
      } else {
        assert l[1..] == [];
      }
    }
  }

  // ---------------------------------------------------------------- combinations of shards

  /** Writes the current shards into a row; a shard is written only if its key is the current key. */
  function FillIn(j: Join, row: seq<Option<CompositionSet>>): (r: seq<Option<CompositionSet>>)
    ensures |r| == |row|
  {
    var filled := if j.Then? then FillIn(j.left, row) else row;
    if j.index < |j.right| && j.right[j.index].items != [] && j.key == j.right[j.index].items[0].key && j.write < |row|
    then filled[j.write := Some(j.right[j.index])]
    else filled
  }

  /** The row of a choice: its shard for every axis. */
  function FillRow(axes: seq<Axis>, d: seq<nat>, row: seq<Option<CompositionSet>>): (r: seq<Option<CompositionSet>>)
    ensures |r| == |row|
  {
    if axes == [] || |d| != |axes| then row
    else
      var n := |axes| - 1;
      var filled := FillRow(axes[..n], d[..n], row);
      if axes[n].write < |row| && d[n] < |axes[n].shards| then filled[axes[n].write := Some(axes[n].shards[d[n]])] else filled
  }

  lemma {:induction false} FillInRow(j: Join, row: seq<Option<CompositionSet>>)
    requires Stands(j)
    ensures Rest(j) != [] && FillIn(j, row) == FillRow(AxesOf(j), Rest(j)[0], row) && |Rest(j)[0]| == |AxesOf(j)|
  {
    hide Rows, Cross, FillRow;
    var axis := Axis(j.write, j.right);
    if j.First? {
      RowsFirst([], j.index, |j.right|);
      FillRowLast([], axis, [], j.index, row);
      FillRowNone(row);
      assert [] + [axis] == [axis] && [] + [j.index] == [j.index];
    } else {
      FillInRow(j.left, row);
      var d := Rest(j.left)[0];
      RowsFirst(d, j.index, |j.right|);
      FillRowLast(AxesOf(j.left), axis, d, j.index, row);
    }
  }

  lemma FillRowNone(row: seq<Option<CompositionSet>>)
    ensures FillRow([], [], row) == row
  {
  }

  lemma FillRowStep(axes: seq<Axis>, d: seq<nat>, row: seq<Option<CompositionSet>>)
    requires axes != [] && |d| == |axes| && d[|axes| - 1] < |axes[|axes| - 1].shards|
    ensures var n := |axes| - 1; var filled := FillRow(axes[..n], d[..n], row);
            FillRow(axes, d, row) == if axes[n].write < |row| then filled[axes[n].write := Some(axes[n].shards[d[n]])] else filled
  {
  }

  lemma FillRowLast(axes: seq<Axis>, axis: Axis, d: seq<nat>, k: nat, row: seq<Option<CompositionSet>>)
    requires |d| == |axes| && k < |axis.shards|
    ensures FillRow(axes + [axis], d + [k], row) ==
            var filled := FillRow(axes, d, row); if axis.write < |row| then filled[axis.write := Some(axis.shards[k])] else filled
  {
    hide FillRow;
    var all, digits := axes + [axis], d + [k];
    FillRowStep(all, digits, row);
    assert all[..|axes|] == axes && digits[..|axes|] == d && all[|axes|] == axis && digits[|axes|] == k;
  }

  ghost predicate DistinctWrites(axes: seq<Axis>) {
    forall i: nat, j: nat :: i < j < |axes| ==> axes[i].write != axes[j].write
  }

  /** In the row of a choice every axis has its shard, and every other set is absent. */
  lemma {:induction false} RowOf(axes: seq<Axis>, d: seq<nat>, size: nat, w: nat)
    requires Choice(axes, d) && DistinctWrites(axes) && w < size && forall i: nat :: i < |axes| ==> axes[i].write < size
    ensures forall i: nat :: i < |axes| && axes[i].write == w ==> FillRow(axes, d, seq(size, _ => None))[w] == Some(axes[i].shards[d[i]])
    ensures (forall i: nat :: i < |axes| ==> axes[i].write != w) ==> FillRow(axes, d, seq(size, _ => None))[w] == None
  {
    if axes != [] {
      var n := |axes| - 1;
      RowOf(axes[..n], d[..n], size, w);
    }
  }

  /** Set `i` is there and not empty. */
  ghost predicate There(sets: seq<Option<Arrival>>, i: nat) {
    i < |sets| && sets[i].Some? && sets[i].value.items.items != []
  }

  function ShardsAt(sets: seq<Option<Arrival>>, i: nat): (shards: seq<CompositionSet>)
    requires There(sets, i)
    ensures ShardedAs(sets[i].value.items, sets[i].value.sharding, shards)
    ensures shards != [] && forall k: nat :: k < |shards| ==> shards[k].items != []
  {
    ShardsOf(sets[i].value.items, sets[i].value.sharding)
  }

  /** The axes of the sets that are there and not empty, in join order. */
  ghost function AxesFor(sets: seq<Option<Arrival>>, order: seq<nat>): seq<Axis> {
    if order == [] then []
    else
      var i := order[|order| - 1];
      AxesFor(sets, order[..|order| - 1]) + if There(sets, i) then [Axis(i, ShardsAt(sets, i))] else []
  }

  /** The sets that the join order leaves out follow in their own order. */
  function Missing(order: seq<nat>, n: nat): seq<nat> {
    if n == 0 then [] else Missing(order, n - 1) + if n - 1 in order then [] else [n - 1]
  }

  function Begin(left: Option<Join>, axis: Axis): Join {
    match left
    case None => First(axis.shards, 0, axis.write, KeyAt(axis.shards, 0))
    case Some(l) => Then(l, axis.shards, 0, axis.write, KeyAt(axis.shards, 0))
  }

  /** The iterator over all choices for `axes`, or none if there are no axes. */
  ghost predicate Covers(j: Option<Join>, axes: seq<Axis>) {
    if j.None? then axes == [] else Stands(j.value) && AxesOf(j.value) == axes && Rest(j.value) == Combos(axes)
  }

  lemma CoversNext(j: Option<Join>, axes: seq<Axis>, axis: Axis)
    requires Covers(j, axes) && axis.shards != [] && forall i: nat :: i < |axis.shards| ==> axis.shards[i].items != []
    ensures Covers(Some(Begin(j, axis)), axes + [axis])
  {
    var n := |axis.shards|;
    assert (axes + [axis])[..|axes|] == axes;
    if j.None? {
      var l: seq<seq<nat>> := [[]];
      assert l[1..] == [] && Cross(l, n) == Rows([], 0, n) + Cross(l[1..], n);
    } else {
      AdvanceRest(j.value);
      var l := Rest(j.value);
      assert Cross(l, n) == Rows(l[0], 0, n) + Cross(l[1..], n);
    }
  }

  ghost predicate AllDifferent(order: seq<nat>) {
    forall i: nat, j: nat :: i < j < |order| ==> order[i] != order[j]
  }

  lemma {:induction false} MissingRest(order: seq<nat>, n: nat)
    ensures forall i: nat :: i in Missing(order, n) <==> i < n && i !in order
    ensures AllDifferent(Missing(order, n))
  {
    if n > 0 {
      MissingRest(order, n - 1);
    }
  }

  /** The join order and the sets it leaves out name every set once. */
  lemma WholeOrder(order: seq<nat>, n: nat)
    requires AllDifferent(order)
    ensures AllDifferent(order + Missing(order, n)) && forall i: nat :: i < n ==> i in order + Missing(order, n)
  {
    hide Missing;
    MissingRest(order, n);
    var all := order + Missing(order, n);
    forall i: nat, j: nat | i < j < |all| ensures all[i] != all[j] {
      if i < |order| <= j {
        assert all[j] in Missing(order, n);
      }
    }
  }

  /** Some axis is that of set `i`. */
  ghost predicate HasAxis(axes: seq<Axis>, i: nat) {
    exists k: nat :: k < |axes| && axes[k].write == i
  }

  /** The axes are sets that are there, with their shards. */
  ghost predicate AxesThere(sets: seq<Option<Arrival>>, axes: seq<Axis>) {
    forall k: nat :: k < |axes| ==> There(sets, axes[k].write) && axes[k].shards == ShardsAt(sets, axes[k].write)
  }

  lemma HasAxisNext(axes: seq<Axis>, axis: Axis, i: nat)
    ensures HasAxis(axes + [axis], i) <==> HasAxis(axes, i) || axis.write == i
  {
    var all := axes + [axis];
    assert all[|axes|] == axis;
    if HasAxis(axes, i) {
      var k: nat :| k < |axes| && axes[k].write == i;
      assert all[k].write == i;
    }
  }

  lemma {:induction false} AxesForIs(sets: seq<Option<Arrival>>, order: seq<nat>)
    requires AllDifferent(order)
    ensures AxesThere(sets, AxesFor(sets, order)) && DistinctWrites(AxesFor(sets, order))
    ensures forall i: nat :: HasAxis(AxesFor(sets, order), i) <==> i in order && There(sets, i)
  {
    hide There, HasAxis;
    if order == [] {
      NoAxes();
    } else {
      var n := |order| - 1;
      var axes := AxesFor(sets, order[..n]);
      AxesForIs(sets, order[..n]);
      assert order == order[..n] + [order[n]];
      if There(sets, order[n]) {
        var axis := Axis(order[n], ShardsAt(sets, order[n]));
        forall i: nat ensures HasAxis(axes + [axis], i) <==> HasAxis(axes, i) || axis.write == i {
          HasAxisNext(axes, axis, i);
        }
        forall k: nat | k < |axes| ensures axes[k].write != order[n] {
          AxisListed(axes, k);
        }
        assert AxesFor(sets, order) == axes + [axis];
      } else {
        assert AxesFor(sets, order) == axes;
      }
    }
  }

  lemma NoAxes()
    ensures forall i: nat :: !HasAxis([], i)
  {
  }

  lemma AxisListed(axes: seq<Axis>, k: nat)
    requires k < |axes|
    ensures HasAxis(axes, axes[k].write)
  {
  }

  /** The axes of a sharding are exactly the sets that are there and not empty, each once, with all
      their shards. */
  lemma AxesExact(sets: seq<Option<Arrival>>, joinOrder: seq<nat>)
    requires AllDifferent(joinOrder)
    ensures var axes := AxesFor(sets, joinOrder + Missing(joinOrder, |sets|));
            AxesThere(sets, axes) && DistinctWrites(axes) && forall i: nat :: HasAxis(axes, i) <==> There(sets, i)
  {
    hide AxesThere, DistinctWrites, HasAxis, AxesFor, Missing, AllDifferent;
    WholeOrder(joinOrder, |sets|);
    AxesForIs(sets, joinOrder + Missing(joinOrder, |sets|));
  }

  // ---------------------------------------------------------------- one shard per set

  /** One shard index for every set that is there, and 0 for the others. */
  ghost predicate Picks(sets: seq<Option<Arrival>>, c: seq<nat>) {
    |c| == |sets| && forall i: nat :: i < |sets| ==> if There(sets, i) then c[i] < |ShardsAt(sets, i)| else c[i] == 0
  }

  /** The picked shard of every set that is there, and nothing for the others. */
  ghost predicate RowPicked(sets: seq<Option<Arrival>>, c: seq<nat>, row: seq<Option<CompositionSet>>) {
    Picks(sets, c) && |row| == |sets| &&
    forall i: nat :: i < |sets| ==> row[i] == if There(sets, i) then Some(ShardsAt(sets, i)[c[i]]) else None
  }

  /** What a choice picks for set `i`. */
  ghost function Digit(axes: seq<Axis>, d: seq<nat>, i: nat): nat
    requires |d| == |axes|
  {
    if axes == [] then 0
    else
      var n := |axes| - 1;
      if axes[n].write == i then d[n] else Digit(axes[..n], d[..n], i)
  }

  ghost function PickOf(axes: seq<Axis>, d: seq<nat>, size: nat): (c: seq<nat>)
    requires |d| == |axes|
  {
    seq(size, i requires 0 <= i < size => Digit(axes, d, i))
  }

  ghost function ChoiceOf(axes: seq<Axis>, c: seq<nat>): (d: seq<nat>)
    requires forall k: nat :: k < |axes| ==> axes[k].write < |c|
  {
    seq(|axes|, k requires 0 <= k < |axes| => c[axes[k].write])
  }

  lemma {:induction false} DigitIs(axes: seq<Axis>, d: seq<nat>, i: nat)
    requires |d| == |axes| && DistinctWrites(axes)
    ensures forall k: nat :: k < |axes| && axes[k].write == i ==> Digit(axes, d, i) == d[k]
    ensures !HasAxis(axes, i) ==> Digit(axes, d, i) == 0
  {
    if axes != [] {
      var n := |axes| - 1;
      DigitIs(axes[..n], d[..n], i);
      if !HasAxis(axes, i) {
        assert axes[n].write != i;
        assert forall k: nat :: k < n ==> axes[k].write != i;
      }
    }
  }

  /** The row of a choice holds the shards it picks. */
  lemma PickRow(sets: seq<Option<Arrival>>, axes: seq<Axis>, d: seq<nat>)
    requires AxesThere(sets, axes) && DistinctWrites(axes) && (forall i: nat :: HasAxis(axes, i) <==> There(sets, i)) && Choice(axes, d)
    ensures RowPicked(sets, PickOf(axes, d, |sets|), FillRow(axes, d, seq(|sets|, _ => None)))
  {
    hide DistinctWrites, FillRow, Digit, ShardsOf;
    var row := FillRow(axes, d, seq(|sets|, _ => None));
    forall i: nat | i < |sets|
      ensures if There(sets, i) then Digit(axes, d, i) < |ShardsAt(sets, i)| && row[i] == Some(ShardsAt(sets, i)[Digit(axes, d, i)])
              else Digit(axes, d, i) == 0 && row[i] == None
    {
      DigitIs(axes, d, i);
      RowOf(axes, d, |sets|, i);
      assert HasAxis(axes, i) <==> There(sets, i);
    }
  }

  /** Every pick belongs to a choice. */
  lemma PickChosen(sets: seq<Option<Arrival>>, axes: seq<Axis>, c: seq<nat>)
    requires AxesThere(sets, axes) && DistinctWrites(axes) && (forall i: nat :: HasAxis(axes, i) <==> There(sets, i)) && Picks(sets, c)
    ensures Choice(axes, ChoiceOf(axes, c)) && PickOf(axes, ChoiceOf(axes, c), |sets|) == c
  {
    hide DistinctWrites, Digit, ShardsOf;
    var d := ChoiceOf(axes, c);
    forall i: nat | i < |sets| ensures Digit(axes, d, i) == c[i] {
      DigitIs(axes, d, i);
      assert HasAxis(axes, i) <==> There(sets, i);
    }
  }

  /** Different choices pick differently. */
  lemma PickDiffers(sets: seq<Option<Arrival>>, axes: seq<Axis>, d: seq<nat>, e: seq<nat>)
    requires AxesThere(sets, axes) && DistinctWrites(axes) && Choice(axes, d) && Choice(axes, e) && d != e
    ensures PickOf(axes, d, |sets|) != PickOf(axes, e, |sets|)
  {
    hide DistinctWrites, Digit;
    var k: nat :| k < |d| && d[k] != e[k];
    var i := axes[k].write;
    DigitIs(axes, d, i);
    DigitIs(axes, e, i);
    assert PickOf(axes, d, |sets|)[i] != PickOf(axes, e, |sets|)[i];
  }

  lemma {:induction false} NotLess(x: seq<nat>)
    ensures !Less(x, x)
    decreases |x|
  {
    if x != [] {
      NotLess(x[..|x| - 1]);
    }
  }

  ghost function PicksOf(sets: seq<Option<Arrival>>, axes: seq<Axis>): (picks: seq<seq<nat>>)
    ensures |picks| == |Combos(axes)|
    ensures forall r: nat :: r < |picks| ==> Choice(axes, Combos(axes)[r]) && picks[r] == PickOf(axes, Combos(axes)[r], |sets|)
  {
    CombosChoices(axes);
    seq(|Combos(axes)|, r requires 0 <= r < |Combos(axes)| => PickOf(axes, Combos(axes)[r], |sets|))
  }

  lemma CombosChoices(axes: seq<Axis>)
    ensures forall r: nat :: r < |Combos(axes)| ==> Choice(axes, Combos(axes)[r])
  {
    hide Combos, Choice;
    forall r: nat | r < |Combos(axes)| ensures Choice(axes, Combos(axes)[r]) {
      CombosComplete(axes, Combos(axes)[r]);
    }
  }

  /** The picks of all choices are all picks, none of them twice. */
  lemma PicksOfAll(sets: seq<Option<Arrival>>, axes: seq<Axis>)
    requires AxesThere(sets, axes) && DistinctWrites(axes) && forall i: nat :: HasAxis(axes, i) <==> There(sets, i)
    ensures forall c: seq<nat> :: c in PicksOf(sets, axes) <==> Picks(sets, c)
    ensures forall r: nat, q: nat :: r < q < |PicksOf(sets, axes)| ==> PicksOf(sets, axes)[r] != PicksOf(sets, axes)[q]
  {
    hide AxesThere, DistinctWrites, HasAxis, There, Combos, Choice, PickOf, Less, Picks, FillRow;
    var picks, all := PicksOf(sets, axes), Combos(axes);
    forall c: seq<nat> ensures c in picks <==> Picks(sets, c) {
      if Picks(sets, c) {
        AxesInside(sets, axes);
        PickSize(sets, c);
        PickChosen(sets, axes, c);
        CombosComplete(axes, ChoiceOf(axes, c));
        var r: nat :| r < |all| && all[r] == ChoiceOf(axes, c);
        assert picks[r] == c;
      }
      if c in picks {
        var r: nat :| r < |picks| && picks[r] == c;
        ChoiceSize(axes, all[r]);
        PickRow(sets, axes, all[r]);
        RowPicks(sets, c, FillRow(axes, all[r], seq(|sets|, _ => None)));
      }
    }
    forall r: nat, q: nat | r < q < |picks| ensures picks[r] != picks[q] {
      CombosOrdered(axes);
      NotLess(all[r]);
      PickDiffers(sets, axes, all[r], all[q]);
    }
  }

  lemma AxesInside(sets: seq<Option<Arrival>>, axes: seq<Axis>)
    requires AxesThere(sets, axes)
    ensures forall k: nat :: k < |axes| ==> axes[k].write < |sets|
  {
  }

  lemma PickSize(sets: seq<Option<Arrival>>, c: seq<nat>)
    requires Picks(sets, c)
    ensures |c| == |sets|
  {
  }

  lemma ChoiceSize(axes: seq<Axis>, d: seq<nat>)
    requires Choice(axes, d)
    ensures |d| == |axes|
  {
  }

  lemma RowPicks(sets: seq<Option<Arrival>>, c: seq<nat>, row: seq<Option<CompositionSet>>)
    requires RowPicked(sets, c, row)
    ensures Picks(sets, c)
  {
  }

  /** Set `i` and no other is there and not empty. */
  ghost predicate OnlyThere(sets: seq<Option<Arrival>>, i: nat) {
    There(sets, i) && forall j: nat :: There(sets, j) ==> j == i
  }

  /** Row `k` holds shard `k` of set `i`: the whole set, or item `k`, or the items of the `k`-th key
      from the highest down. */
  ghost predicate OneByOne(sets: seq<Option<Arrival>>, i: nat, rows: seq<seq<Option<CompositionSet>>>) {
    && There(sets, i) && |rows| == |ShardsAt(sets, i)|
    && (forall k: nat :: k < |rows| ==> |rows[k]| == |sets| && rows[k][i] == Some(ShardsAt(sets, i)[k]))
    && (sets[i].value.sharding.All? ==> |rows| == 1 && rows[0][i] == Some(sets[i].value.items))
    && (sets[i].value.sharding.Each? ==>
          && |rows| == |sets[i].value.items.items|
          && forall k: nat :: k < |rows| ==> rows[k][i] == Some(CompositionSet([sets[i].value.items.items[k]], sets[i].value.items.setIndex)))
  }

  lemma OnlyIsThere(sets: seq<Option<Arrival>>)
    ensures forall i: nat :: OnlyThere(sets, i) ==> There(sets, i)
  {
  }

  lemma WritesDiffer(axes: seq<Axis>, a: nat, b: nat)
    requires DistinctWrites(axes) && a < b < |axes|
    ensures axes[a].write != axes[b].write
  {
  }

  lemma OneWrite(axes: seq<Axis>, i: nat)
    requires DistinctWrites(axes) && forall k: nat :: k < |axes| ==> axes[k].write == i
    ensures |axes| <= 1
  {
    hide DistinctWrites;
    if |axes| > 1 {
      WritesDiffer(axes, 0, 1);
    }
  }

  lemma OneAxis(sets: seq<Option<Arrival>>, axes: seq<Axis>, i: nat)
    requires AxesThere(sets, axes) && DistinctWrites(axes) && (forall j: nat :: HasAxis(axes, j) <==> There(sets, j)) && OnlyThere(sets, i)
    ensures axes == [Axis(i, ShardsAt(sets, i))]
  {
    hide ShardsOf, ShardedAs;
    assert HasAxis(axes, i);
    forall k: nat | k < |axes| ensures axes[k].write == i {
      assert HasAxis(axes, axes[k].write);
    }
    OneWrite(axes, i);
  }

  lemma {:induction false} RowsAt(x: seq<nat>, k: nat, n: nat, r: nat)
    requires k <= n
    ensures |Rows(x, k, n)| == n - k && (r < n - k ==> Rows(x, k, n)[r] == x + [k + r])
    decreases n - k
  {
    if k < n {
      RowsAt(x, k + 1, n, if r == 0 then 0 else r - 1);
    }
  }

  /** With one axis its shards come one after the other. */
  lemma OneAxisCombos(axis: Axis)
    ensures |Combos([axis])| == |axis.shards| && forall k: nat :: k < |axis.shards| ==> Combos([axis])[k] == [k]
  {
    var n, l := |axis.shards|, [[]];
    assert [axis][..0] == [] && l[1..] == [];
    assert Combos([axis]) == Cross(l, n) == Rows([], 0, n) + Cross(l[1..], n);
    forall k: nat | k < n ensures |Rows([], 0, n)| == n && Rows([], 0, n)[k] == [k] {
      RowsAt([], 0, n, k);
    }
    RowsAt([], 0, n, 0);
  }

  lemma OnlyRows(sets: seq<Option<Arrival>>, axes: seq<Axis>, i: nat, rows: seq<seq<Option<CompositionSet>>>)
    requires AxesThere(sets, axes) && DistinctWrites(axes) && (forall j: nat :: HasAxis(axes, j) <==> There(sets, j)) && OnlyThere(sets, i)
    requires |rows| == |Combos(axes)| && forall r: nat :: r < |rows| ==> rows[r] == FillRow(axes, Combos(axes)[r], seq(|sets|, _ => None))
    ensures OneByOne(sets, i, rows)
  {
    hide Combos, FillRow, ShardsOf, AxesThere, HasAxis;
    OneAxis(sets, axes, i);
    OneAxisCombos(axes[0]);
    forall k: nat | k < |rows| ensures |rows[k]| == |sets| && rows[k][i] == Some(ShardsAt(sets, i)[k]) {
      RowOf(axes, [k], |sets|, i);
    }
  }

  /** The iterator over the sets that are there, in the given order. */
  method JoinSets(sets: seq<Option<Arrival>>, order: seq<nat>) returns (join: Option<Join>)
    ensures Covers(join, AxesFor(sets, order))
  {
    hide Combos, Stands, Rest, ShardsOf, ShardedAs;
    join := None;
    ghost var axes: seq<Axis> := [];
    var k: nat := 0;
    assert order[..0] == [];
    while k < |order|
      invariant k <= |order| && axes == AxesFor(sets, order[..k]) && Covers(join, axes)
    {
      var i: nat := order[k];
      assert order[..k + 1][..k] == order[..k];
      if i < |sets| && sets[i].Some? && sets[i].value.items.items != [] {
        var axis := Axis(i, ShardsAt(sets, i));
        CoversNext(join, axes, axis);
        join := Some(Begin(join, axis));
        axes := axes + [axis];
      }
      k := k + 1;
    }
    assert order[..k] == order;
  }

  /** With cross joins only, the function runs on every combination of shards of the sets that are
      there and not empty: `picks` lists all ways to pick one shard of each, none twice, and every row
      holds the shards of its pick and nothing else. The combinations come in lexicographic order. If
      only one set is there, the function runs on its shards one after the other. */
  method GetSharding(sets: seq<Option<Arrival>>, joinOrder: seq<nat>, strategies: seq<JoinStrategy>)
    returns (rows: seq<seq<Option<CompositionSet>>>, ghost picks: seq<seq<nat>>)
    requires forall s :: s in strategies ==> s.Cross?
    requires forall i: nat :: i < |joinOrder| ==> joinOrder[i] < |sets|
    requires AllDifferent(joinOrder)
    ensures (forall i: nat :: !There(sets, i)) ==> rows == []
    ensures |picks| == |rows| && forall r: nat :: r < |rows| ==> RowPicked(sets, picks[r], rows[r])
    ensures (exists i: nat :: There(sets, i)) ==> forall c: seq<nat> :: Picks(sets, c) ==> c in picks
    ensures forall r: nat, q: nat :: r < q < |picks| ==> picks[r] != picks[q]
    ensures forall i: nat :: OnlyThere(sets, i) ==> OneByOne(sets, i, rows)
    ensures var axes := AxesFor(sets, joinOrder + Missing(joinOrder, |sets|));
            if axes == [] then rows == []
            else |rows| == |Combos(axes)| && forall r: nat :: r < |rows| ==> rows[r] == FillRow(axes, Combos(axes)[r], seq(|sets|, _ => None))
  {
    hide FillRow, FillIn, Combos, Stands, Rest, ShardsOf, Advance, There, AllDifferent, AxesThere, DistinctWrites, HasAxis, Picks, RowPicked, PickOf, OnlyThere, OneByOne;
    rows, picks := [], [];
    AxesExact(sets, joinOrder);
    ghost var axes := AxesFor(sets, joinOrder + Missing(joinOrder, |sets|));
    var join := JoinSets(sets, joinOrder + Missing(joinOrder, |sets|));
    if join.None? {
      NoAxes();
      OnlyIsThere(sets);
      return;
    }
    var j := join.value;
    AxisListed(axes, 0);
    picks := PicksOf(sets, axes);
    PicksOfAll(sets, axes);
    ghost var all, none := Combos(axes), seq(|sets|, _ => None);
    FillInRow(j, seq(|sets|, _ => None));
    rows := [FillIn(j, seq(|sets|, _ => None))];
    var more := true;
    assert all[0..] == all;
    while more
      invariant Stands(j) && AxesOf(j) == axes && 0 < |rows| <= |all|
      invariant Rest(j) == all[|rows| - 1..] && (!more ==> |rows| == |all|)
      invariant forall r: nat :: r < |rows| ==> rows[r] == FillRow(axes, all[r], none)
      decreases if more then 1 + |all| - |rows| else 0
    {
      AdvanceRest(j);
      var moved := Advance(j);
      more := moved.ok;
      if more {
        j := moved.join;
        FillInRow(j, seq(|sets|, _ => None));
        rows := rows + [FillIn(j, seq(|sets|, _ => None))];
      }
    }
    forall r: nat | r < |rows| ensures RowPicked(sets, picks[r], rows[r]) {
      PickRow(sets, axes, all[r]);
    }
    forall i: nat | OnlyThere(sets, i) ensures OneByOne(sets, i, rows) {
      OnlyRows(sets, axes, i, rows);
    }
  }

  // ---------------------------------------------------------------- merging the results

  function CellItems(x: Value): multiset<Item> {
    if x.Some? then multiset(x.value.items) else multiset{}
  }

  function ItemsIn(row: seq<Value>, k: nat): multiset<Item> {
    if k < |row| then CellItems(row[k]) else multiset{}
  }

  /** All items that the runs put into output `k`. */
  function Column(results: seq<seq<Value>>, k: nat): multiset<Item> {
    if results == [] then multiset{} else Column(results[..|results| - 1], k) + ItemsIn(results[|results| - 1], k)
  }

  ghost predicate ProperCell(x: Value, k: nat) {
    x.Some? ==> x.value.setIndex == k && ByKey(x.value.items)
  }

  /** A function puts its `k`-th output into set `k`, sorted by key. */
  ghost predicate Proper(row: seq<Value>) {
    forall k: nat :: k < |row| ==> ProperCell(row[k], k)
  }

  method MergeCell(a: Value, b: Value, ghost k: nat) returns (r: Value)
    requires ProperCell(a, k) && ProperCell(b, k)
    ensures ProperCell(r, k) && CellItems(r) == CellItems(a) + CellItems(b)
  {
    if b.None? {
      return a;
    }
    if a.None? {
      return b;
    }
    var both := Combine(a.value, b.value);
    return Some(both.value);
  }

  /** Adds the sets of one run to those of the runs before it. */
  method MergeRow(acc: seq<Value>, row: seq<Value>) returns (r: seq<Value>)
    requires Proper(acc) && Proper(row)
    ensures Proper(r) && |r| == |acc| && forall k: nat :: k < |acc| ==> ItemsIn(r, k) == ItemsIn(acc, k) + ItemsIn(row, k)
  {
    hide ProperCell, CellItems;
    r := acc;
    var k: nat := 0;
    while k < |acc| && k < |row|
      invariant k <= |acc| && k <= |row| && |r| == |acc| && Proper(r)
      invariant forall l: nat :: l < k ==> CellItems(r[l]) == CellItems(acc[l]) + CellItems(row[l])
      invariant forall l: nat :: k <= l < |acc| ==> r[l] == acc[l]
    {
      var cell := MergeCell(r[k], row[k], k);
      r := r[k := cell];
      k := k + 1;
    }
  }

  /** Every output holds the items that all runs together put into it, sorted by key; outputs that
      the first run does not have are dropped. */
  method MergeResults(results: seq<seq<Value>>, outputs: nat) returns (r: seq<Value>)
    requires forall i: nat :: i < |results| ==> Proper(results[i])
    ensures Proper(r) && |r| == if results == [] then outputs else |results[0]|
    ensures forall k: nat :: k < |r| ==> ItemsIn(r, k) == Column(results, k)
  {
    hide Proper, CellItems;
    if results == [] {
      r := seq(outputs, _ => None);
      NothingProper(r);
      return;
    }
    r := results[0];
    var i: nat := 1;
    FirstColumn(results);
    while i < |results|
      invariant 1 <= i <= |results| && Proper(r) && |r| == |results[0]|
      invariant forall k: nat :: k < |r| ==> ItemsIn(r, k) == Column(results[..i], k)
    {
      NextColumn(results, i);
      r := MergeRow(r, results[i]);
      i := i + 1;
    }
    assert results[..i] == results;
  }

  lemma NothingProper(r: seq<Value>)
    requires forall k: nat :: k < |r| ==> r[k] == None
    ensures Proper(r) && forall k: nat :: ItemsIn(r, k) == multiset{}
  {
  }

  lemma FirstColumn(results: seq<seq<Value>>)
    requires results != []
    ensures forall k: nat :: Column(results[..1], k) == ItemsIn(results[0], k)
  {
    assert results[..1][..0] == [];
  }

  lemma NextColumn(results: seq<seq<Value>>, i: nat)
    requires i < |results|
    ensures forall k: nat :: Column(results[..i + 1], k) == Column(results[..i], k) + ItemsIn(results[i], k)
  {
    assert results[..i + 1][..i] == results[..i];
  }
}
