/** Running a composition: functions start when their inputs have arrived, in whatever order the
    running ones finish. */
module Dispatchers {
  import opened Common
  import opened Compositions

  datatype Slot = Slot(id: nat, index: nat)

  datatype Want = Want(sharding: ShardingMode, optional: bool)

  /** A function that still waits for sets. */
  datatype Args = Args(node: nat, inputs: seq<Option<Arrival>>, missing: map<Slot, Want>)

  datatype Delivery = Delivery(id: nat, value: Value)

  /** Something the dispatcher awaits: a skipped function, whose sets are there at once, or a running one. */
  datatype Future = Skipping(node: nat, sets: seq<Delivery>) | Running(node: nat, inputs: seq<Option<Arrival>>)

  /** The composition that is run, how many inputs it has, and the values of all its sets. */
  datatype World = World(c: Composition, inputs: nat, env: Env)

  // ---------------------------------------------------------------- deliveries

  /** The first `k` output ids paired with results, without the outputs nobody needs. */
  function Paired(outputs: seq<Option<nat>>, results: seq<Value>, k: nat): seq<Delivery>
    requires k <= |outputs| && k <= |results|
  {
    if k == 0 then []
    else if outputs[k - 1].Some? then Paired(outputs, results, k - 1) + [Delivery(outputs[k - 1].value, results[k - 1])]
    else Paired(outputs, results, k - 1)
  }

  function Nones(outputs: seq<Option<nat>>): seq<Delivery> {
    Paired(outputs, seq(|outputs|, _ => None), |outputs|)
  }

  ghost predicate Comes(outputs: seq<Option<nat>>, results: seq<Value>, k: nat, d: Delivery) {
    k < |outputs| && k < |results| && outputs[k] == Some(d.id) && results[k] == d.value
  }

  lemma {:induction false} PairedIs(outputs: seq<Option<nat>>, results: seq<Value>, k: nat, d: Delivery)
    requires k <= |outputs| && k <= |results|
    ensures d in Paired(outputs, results, k) <==> exists l: nat :: l < k && Comes(outputs, results, l, d)
  {
    if k > 0 {
      PairedIs(outputs, results, k - 1, d);
      assert Comes(outputs, results, k - 1, d) <==> outputs[k - 1] == Some(d.id) && results[k - 1] == d.value;
    }
  }

  /** The deliveries of function `i` are its outputs with the values they have. */
  ghost predicate Delivers(w: World, i: nat, sets: seq<Delivery>) {
    && (forall d: Delivery :: d in sets ==> d.id in w.env && d.value == w.env[d.id])
    && (forall k: nat, s: nat :: Produces(w.c, i, k, s) ==> exists d: Delivery :: d in sets && d.id == s)
  }

  lemma PairedDelivers(w: World, eval: Evaluation, i: nat, results: seq<Value>)
    requires i < |w.c.nodes| && Solves(w.c, w.env, eval, i) && |results| >= |w.c.nodes[i].outputs|
    requires forall k: nat :: k < |w.c.nodes[i].outputs| ==> results[k] == Output(w.c.nodes[i], w.env, eval, k)
    ensures Delivers(w, i, Paired(w.c.nodes[i].outputs, results, |w.c.nodes[i].outputs|))
  {
    hide Output, Paired;
    var outputs := w.c.nodes[i].outputs;
    var sets := Paired(outputs, results, |outputs|);
    forall d: Delivery | d in sets ensures d.id in w.env && d.value == w.env[d.id] {
      PairedIs(outputs, results, |outputs|, d);
      var k: nat :| k < |outputs| && Comes(outputs, results, k, d);
      assert Produces(w.c, i, k, d.id);
    }
    forall k: nat, s: nat | Produces(w.c, i, k, s) ensures exists d: Delivery :: d in sets && d.id == s {
      PairedIs(outputs, results, |outputs|, Delivery(s, results[k]));
      assert Comes(outputs, results, k, Delivery(s, results[k]));
    }
  }

  // ---------------------------------------------------------------- invariants

  ghost predicate FutureOk(w: World, f: Future) {
    f.node < |w.c.nodes| &&
    var n := w.c.nodes[f.node];
    match f
    case Skipping(_, sets) => Skips(n, w.env) && sets == Nones(n.outputs)
    case Running(_, inputs) => !Skips(n, w.env) && inputs == Arrivals(n, w.env)
  }

  /** Input `j` is there if its set has arrived, and asked for if not. */
  ghost predicate SlotOk(n: Node, env: Env, arrived: set<nat>, a: Args, j: nat) {
    j < |n.inputs| && j < |a.inputs| ==>
      match n.inputs[j]
      case None => a.inputs[j] == None
      case Some(d) =>
        if d.id in arrived then Slot(d.id, j) !in a.missing && a.inputs[j] == Arrive(d, Val(env, d.id)) && !Lacks(n, env, j)
        else Slot(d.id, j) in a.missing && a.missing[Slot(d.id, j)] == Want(d.sharding, d.optional) && a.inputs[j] == None
  }

  ghost predicate KeyOk(n: Node, arrived: set<nat>, key: Slot) {
    key.index < |n.inputs| && n.inputs[key.index].Some? && n.inputs[key.index].value.id == key.id && key.id !in arrived
  }

  ghost predicate ArgsOk(w: World, arrived: set<nat>, a: Args) {
    a.node < |w.c.nodes| &&
    var n := w.c.nodes[a.node];
    && |a.inputs| == |n.inputs|
    && (forall j: nat :: j < |n.inputs| ==> SlotOk(n, w.env, arrived, a, j))
    && (forall key: Slot :: key in a.missing ==> KeyOk(n, arrived, key))
  }

  /** When nothing is missing the function has exactly its inputs and is not skipped. */
  lemma NothingMissing(w: World, arrived: set<nat>, a: Args)
    requires ArgsOk(w, arrived, a) && a.missing == map[]
    ensures FutureOk(w, Running(a.node, a.inputs))
  {
    hide Val, Empty;
    var n := w.c.nodes[a.node];
    forall j: nat | j < |n.inputs| ensures a.inputs[j] == ArrivalAt(n, w.env, j) && !Lacks(n, w.env, j) {
      assert SlotOk(n, w.env, arrived, a, j);
    }
    assert a.inputs == Arrivals(n, w.env);
  }

  // ---------------------------------------------------------------- one delivery to one function

  predicate Wants(a: Args, s: nat, j: nat) {
    Slot(s, j) in a.missing
  }

  /** The inputs for which the arrival of nothing cancels the function. */
  function Cancels(a: Args, s: nat, x: Value): set<nat> {
    set key | key in a.missing.Keys && key.id == s && !a.missing[key].optional && Empty(x) :: key.index
  }

  function Received(a: Args, s: nat, x: Value): Args {
    Args(a.node,
         seq(|a.inputs|, j requires 0 <= j < |a.inputs| =>
           if Wants(a, s, j) then (if x.Some? then Some(Arrival(a.missing[Slot(s, j)].sharding, x.value)) else None) else a.inputs[j]),
         map key | key in a.missing && key.id != s :: a.missing[key])
  }

  lemma ReceivedOk(w: World, arrived: set<nat>, a: Args, s: nat, x: Value)
    requires ArgsOk(w, arrived, a) && x == Val(w.env, s) && Cancels(a, s, x) == {}
    ensures ArgsOk(w, arrived + {s}, Received(a, s, x))
  {
    hide Val, Empty;
    var n := w.c.nodes[a.node];
    var b := Received(a, s, x);
    forall j: nat | j < |n.inputs| ensures SlotOk(n, w.env, arrived + {s}, b, j) {
      assert SlotOk(n, w.env, arrived, a, j);
      if Wants(a, s, j) {
        assert KeyOk(n, arrived, Slot(s, j));
        assert j !in Cancels(a, s, x);
      }
    }
    forall key: Slot | key in b.missing ensures KeyOk(n, arrived + {s}, key) {
      assert KeyOk(n, arrived, key);
    }
  }

  lemma CancelSkips(w: World, arrived: set<nat>, a: Args, s: nat, x: Value)
    requires ArgsOk(w, arrived, a) && x == Val(w.env, s) && Cancels(a, s, x) != {}
    ensures FutureOk(w, Skipping(a.node, Nones(w.c.nodes[a.node].outputs)))
  {
    hide Val, Empty, Nones;
    var j: nat :| j in Cancels(a, s, x);
    var key :| key in a.missing && key.id == s && !a.missing[key].optional && Empty(x) && key.index == j;
    var n := w.c.nodes[a.node];
    assert KeyOk(n, arrived, key);
    assert SlotOk(n, w.env, arrived, a, j);
    assert Lacks(n, w.env, j);
  }

  // ---------------------------------------------------------------- the whole state

  ghost predicate Waits(waiting: seq<Args>, i: nat) {
    exists p: nat :: p < |waiting| && waiting[p].node == i
  }

  ghost predicate Awaits(awaited: seq<Future>, i: nat) {
    exists f: nat :: f < |awaited| && awaited[f].node == i
  }

  /** All outputs of function `i` have arrived. */
  ghost predicate Finished(c: Composition, arrived: set<nat>, i: nat) {
    forall k: nat, s: nat :: Produces(c, i, k, s) ==> s in arrived
  }

  /** Function `i` waits, or it was started or skipped and is still awaited or has delivered everything;
      `busy` are the functions that are just delivering. */
  ghost predicate Accounted(w: World, arrived: set<nat>, waiting: seq<Args>, awaited: seq<Future>, starts: seq<nat>, busy: set<nat>, i: nat) {
    || Waits(waiting, i)
    || ((Awaits(awaited, i) || i in busy || Finished(w.c, arrived, i)) && (i < |w.c.nodes| ==> i in starts || Skips(w.c.nodes[i], w.env)))
  }

  ghost predicate AllAccounted(w: World, arrived: set<nat>, waiting: seq<Args>, awaited: seq<Future>, starts: seq<nat>, busy: set<nat>) {
    forall i: nat :: i < |w.c.nodes| ==> Accounted(w, arrived, waiting, awaited, starts, busy, i)
  }

  /** Functions wait in the order of the composition and have not been started; none was started twice. */
  ghost predicate Queued(waiting: seq<Args>, starts: seq<nat>) {
    && (forall p: nat, q: nat :: p < q < |waiting| ==> waiting[p].node < waiting[q].node)
    && (forall p: nat :: p < |waiting| ==> waiting[p].node !in starts)
    && NoneTwice(starts)
  }

  ghost predicate NoneTwice(starts: seq<nat>) {
    forall p: nat, q: nat :: p < q < |starts| ==> starts[p] != starts[q]
  }

  ghost predicate WaitingOk(w: World, arrived: set<nat>, waiting: seq<Args>) {
    forall p: nat :: p < |waiting| ==> ArgsOk(w, arrived, waiting[p]) && waiting[p].missing != map[]
  }

  ghost predicate FuturesOk(w: World, awaited: seq<Future>) {
    forall f: nat :: f < |awaited| ==> FutureOk(w, awaited[f])
  }

  ghost predicate StartsOk(w: World, starts: seq<nat>) {
    forall p: nat :: p < |starts| ==> starts[p] < |w.c.nodes| && !Skips(w.c.nodes[starts[p]], w.env)
  }

  /** Everything the dispatcher maintains. */
  ghost predicate Inv(w: World, arrived: set<nat>, waiting: seq<Args>, awaited: seq<Future>, starts: seq<nat>, busy: set<nat>) {
    && WaitingOk(w, arrived, waiting) && FuturesOk(w, awaited) && StartsOk(w, starts)
    && Queued(waiting, starts) && AllAccounted(w, arrived, waiting, awaited, starts, busy)
  }

  /** As `Inv`, but only the functions in `kept` have seen the arrival of `s`. */
  ghost predicate Mid(w: World, arrived: set<nat>, s: nat, kept: seq<Args>, rest: seq<Args>, awaited: seq<Future>, starts: seq<nat>, busy: set<nat>) {
    && WaitingOk(w, arrived + {s}, kept) && WaitingOk(w, arrived, rest) && FuturesOk(w, awaited) && StartsOk(w, starts)
    && Queued(kept + rest, starts) && AllAccounted(w, arrived + {s}, kept + rest, awaited, starts, busy)
  }

  lemma MidStart(w: World, arrived: set<nat>, s: nat, waiting: seq<Args>, awaited: seq<Future>, starts: seq<nat>, busy: set<nat>)
    requires Inv(w, arrived, waiting, awaited, starts, busy)
    ensures Mid(w, arrived, s, [], waiting, awaited, starts, busy)
  {
    hide WaitingOk, FuturesOk, StartsOk, Queued;
    assert [] + waiting == waiting;
    assert WaitingOk(w, arrived + {s}, []) by { NoneWaiting(w, arrived + {s}); }
    forall i: nat | i < |w.c.nodes| ensures Accounted(w, arrived + {s}, waiting, awaited, starts, busy, i) {
      assert Accounted(w, arrived, waiting, awaited, starts, busy, i);
    }
  }

  lemma NoneWaiting(w: World, arrived: set<nat>)
    ensures WaitingOk(w, arrived, [])
  {
  }

  lemma MidEnd(w: World, arrived: set<nat>, s: nat, kept: seq<Args>, awaited: seq<Future>, starts: seq<nat>, busy: set<nat>)
    requires Mid(w, arrived, s, kept, [], awaited, starts, busy)
    ensures Inv(w, arrived + {s}, kept, awaited, starts, busy)
  {
    hide WaitingOk, FuturesOk, StartsOk, Queued, AllAccounted;
    assert kept + [] == kept;
  }

  lemma QueuedKeep(kept: seq<Args>, a: Args, b: Args, rest: seq<Args>, starts: seq<nat>)
    requires Queued(kept + ([a] + rest), starts) && a.node == b.node
    ensures Queued(kept + [b] + rest, starts)
  {
    var x, y := kept + ([a] + rest), kept + [b] + rest;
    assert |x| == |y| && forall p: nat :: p < |x| ==> x[p].node == y[p].node;
  }

  lemma QueuedDrop(kept: seq<Args>, a: Args, rest: seq<Args>, starts: seq<nat>)
    requires Queued(kept + ([a] + rest), starts)
    ensures Queued(kept + rest, starts) && Queued(kept + rest, starts + [a.node])
  {
    var x, y := kept + ([a] + rest), kept + rest;
    assert x[|kept|] == a;
    assert forall p: nat :: p < |y| ==> y[p] == x[if p < |kept| then p else p + 1];
  }

  lemma WaitsEither(kept: seq<Args>, a: Args, rest: seq<Args>, i: nat)
    ensures Waits(kept + ([a] + rest), i) ==> a.node == i || Waits(kept + rest, i)
    ensures Waits(kept + rest, i) ==> Waits(kept + ([a] + rest), i)
    ensures a.node == i ==> Waits(kept + ([a] + rest), i)
  {
    var x, y := kept + ([a] + rest), kept + rest;
    assert x[|kept|] == a;
    if Waits(x, i) && a.node != i {
      var p: nat :| p < |x| && x[p].node == i;
      assert y[if p < |kept| then p else p - 1] == x[p];
    }
    if Waits(y, i) {
      var p: nat :| p < |y| && y[p].node == i;
      assert x[if p < |kept| then p else p + 1] == y[p];
    }
  }

  /** A function that goes on waiting. */
  lemma MidKeep(w: World, arrived: set<nat>, s: nat, kept: seq<Args>, a: Args, b: Args, rest: seq<Args>, awaited: seq<Future>, starts: seq<nat>, busy: set<nat>)
    requires Mid(w, arrived, s, kept, [a] + rest, awaited, starts, busy) && a.node == b.node
    requires ArgsOk(w, arrived + {s}, b) && b.missing != map[]
    ensures Mid(w, arrived, s, kept + [b], rest, awaited, starts, busy)
  {
    hide ArgsOk, FuturesOk, StartsOk, Queued, Finished, Skips, Awaits, Waits;
    QueuedKeep(kept, a, b, rest, starts);
    assert kept + [b] + rest == kept + ([b] + rest);
    assert forall p: nat :: p < |rest| ==> rest[p] == ([a] + rest)[p + 1];
    forall i: nat | i < |w.c.nodes| ensures Accounted(w, arrived + {s}, kept + [b] + rest, awaited, starts, busy, i) {
      assert Accounted(w, arrived + {s}, kept + ([a] + rest), awaited, starts, busy, i);
      WaitsEither(kept, a, rest, i);
      WaitsEither(kept, b, rest, i);
    }
  }

  /** A function that stops waiting because it is awaited from now on. */
  lemma MidDrop(w: World, arrived: set<nat>, s: nat, kept: seq<Args>, a: Args, rest: seq<Args>, awaited: seq<Future>, more: seq<Future>, starts: seq<nat>, fin: seq<nat>, busy: set<nat>)
    requires Mid(w, arrived, s, kept, [a] + rest, awaited, starts, busy) && a.node < |w.c.nodes|
    requires more != [] && FuturesOk(w, more) && forall f: nat :: f < |more| ==> more[f].node == a.node
    requires if Skips(w.c.nodes[a.node], w.env) then fin == starts else fin == starts + [a.node]
    ensures Mid(w, arrived, s, kept, rest, awaited + more, fin, busy)
  {
    hide ArgsOk, FutureOk, Queued, Finished, Skips, Waits;
    QueuedDrop(kept, a, rest, starts);
    assert forall p: nat :: p < |rest| ==> rest[p] == ([a] + rest)[p + 1];
    forall i: nat | i < |w.c.nodes| ensures Accounted(w, arrived + {s}, kept + rest, awaited + more, fin, busy, i) {
      assert Accounted(w, arrived + {s}, kept + ([a] + rest), awaited, starts, busy, i);
      WaitsEither(kept, a, rest, i);
      AwaitsMore(awaited, more, i);
      if i == a.node {
        assert more[0].node == i;
      }
    }
  }

  lemma AwaitsMore(awaited: seq<Future>, more: seq<Future>, i: nat)
    ensures Awaits(awaited, i) || Awaits(more, i) ==> Awaits(awaited + more, i)
  {
    var all := awaited + more;
    if Awaits(awaited, i) {
      var f: nat :| f < |awaited| && awaited[f].node == i;
      assert all[f].node == i;
    } else if Awaits(more, i) {
      var f: nat :| f < |more| && more[f].node == i;
      assert all[|awaited| + f].node == i;
    }
  }

  // ---------------------------------------------------------------- functions started and functions run

  /** The functions that run, each as often as it runs. */
  ghost function RunNodes(fs: seq<Future>): multiset<nat> {
    if fs == [] then multiset{}
    else RunNodes(fs[..|fs| - 1]) + if fs[|fs| - 1].Running? then multiset{fs[|fs| - 1].node} else multiset{}
  }

  lemma {:induction false} RunNodesJoin(a: seq<Future>, b: seq<Future>)
    ensures RunNodes(a + b) == RunNodes(a) + RunNodes(b)
  {
    if b == [] {
      assert a + b == a;
    } else {
      assert (a + b)[..|a + b| - 1] == a + b[..|b| - 1];
      RunNodesJoin(a, b[..|b| - 1]);
    }
  }

  lemma {:induction false} NoneRunning(fs: seq<Future>)
    requires forall f: nat :: f < |fs| ==> fs[f].Skipping?
    ensures RunNodes(fs) == multiset{}
  {
    if fs != [] {
      NoneRunning(fs[..|fs| - 1]);
    }
  }

  lemma {:induction false} AllRunning(fs: seq<Future>)
    requires forall f: nat :: f < |fs| ==> fs[f].Running?
    ensures |RunNodes(fs)| == |fs|
    ensures forall i: nat :: i in RunNodes(fs) ==> Awaits(fs, i)
  {
    if fs != [] {
      var head := fs[..|fs| - 1];
      AllRunning(head);
      forall i: nat | i in RunNodes(fs) ensures Awaits(fs, i) {
        if i == fs[|fs| - 1].node {
          assert fs[|fs| - 1].node == i;
        } else {
          var f: nat :| f < |head| && head[f].node == i;
          assert fs[f].node == i;
        }
      }
    }
  }

  lemma {:induction false} RunCounted(fs: seq<Future>, f: Future)
    requires f in fs && f.Running?
    ensures f.node in RunNodes(fs)
  {
    var n := |fs| - 1;
    if f != fs[n] {
      assert f in fs[..n];
      RunCounted(fs[..n], f);
    }
  }

  /** What was started has run or is still awaited. */
  ghost predicate Balanced(starts: seq<nat>, awaited: seq<Future>, runs: seq<Future>) {
    multiset(starts) == RunNodes(runs) + RunNodes(awaited)
  }

  lemma BalancedMore(starts: seq<nat>, awaited: seq<Future>, runs: seq<Future>, started: seq<nat>, more: seq<Future>)
    requires Balanced(starts, awaited, runs) && multiset(started) == RunNodes(more)
    ensures Balanced(starts + started, awaited + more, runs)
  {
    hide RunNodes;
    RunNodesJoin(awaited, more);
  }

  lemma RunNodesOne(f: Future)
    ensures RunNodes([f]) == if f.Running? then multiset{f.node} else multiset{}
  {
    assert [f][..0] == [];
  }

  lemma BalancedStart()
    ensures Balanced([], [], [])
  {
  }

  /** A future that completes leaves the awaited ones and, unless it was skipped, is recorded. */
  lemma BalancedTaken(starts: seq<nat>, awaited: seq<Future>, runs: seq<Future>, k: nat)
    requires Balanced(starts, awaited, runs) && k < |awaited|
    ensures Balanced(starts, awaited[..k] + awaited[k + 1..], if awaited[k].Running? then runs + [awaited[k]] else runs)
  {
    hide RunNodes;
    assert awaited == awaited[..k] + ([awaited[k]] + awaited[k + 1..]);
    RunNodesJoin(awaited[..k], [awaited[k]] + awaited[k + 1..]);
    RunNodesJoin([awaited[k]], awaited[k + 1..]);
    RunNodesJoin(awaited[..k], awaited[k + 1..]);
    RunNodesJoin(runs, [awaited[k]]);
    RunNodesOne(awaited[k]);
  }

  /** When nothing is awaited any more, what was started is exactly what has run. */
  lemma BalancedEnd(starts: seq<nat>, runs: seq<Future>)
    requires Balanced(starts, [], runs) && forall f :: f in runs ==> f.Running?
    ensures multiset(starts) == RunNodes(runs) && |runs| == |starts|
    ensures forall i: nat :: i in starts ==> Awaits(runs, i)
    ensures forall f :: f in runs ==> f.node in starts
  {
    AllRunning(runs);
    forall f | f in runs ensures f.node in starts {
      RunCounted(runs, f);
      assert f.node in multiset(starts);
    }
    assert |multiset(starts)| == |starts|;
    forall i: nat | i in starts ensures Awaits(runs, i) {
      assert i in multiset(starts);
    }
  }

  // ---------------------------------------------------------------- delivering one set

  /** One function sees the arrival of set `s`: it is cancelled, started, or goes on waiting. */
  method Offer(c: Composition, a: Args, s: nat, x: Value) returns (keep: seq<Args>, more: seq<Future>, started: seq<nat>)
    requires a.node < |c.nodes|
    ensures |keep| <= 1 && (keep == [] <==> more != [])
    ensures Cancels(a, s, x) != {} ==> started == [] && more == seq(|Cancels(a, s, x)|, _ => Skipping(a.node, Nones(c.nodes[a.node].outputs)))
    ensures Cancels(a, s, x) == {} && Received(a, s, x).missing == map[] ==> started == [a.node] && more == [Running(a.node, Received(a, s, x).inputs)]
    ensures Cancels(a, s, x) == {} && Received(a, s, x).missing != map[] ==> started == [] && more == [] && keep == [Received(a, s, x)]
    ensures multiset(started) == RunNodes(more)
  {
    hide Cancels, Received, Nones;
    keep, more, started := [], [], [];
    var cancels := Cancels(a, s, x);
    ReceivedNode(a, s, x);
    if cancels != {} {
      more := seq(|cancels|, _ => Skipping(a.node, Nones(c.nodes[a.node].outputs)));
      NoneRunning(more);
    } else {
      var b := Received(a, s, x);
      if b.missing == map[] {
        more, started := [Running(b.node, b.inputs)], [b.node];
        RunNodesOne(more[0]);
      } else {
        keep := [b];
      }
    }
  }

  lemma MidOffer(w: World, arrived: set<nat>, s: nat, x: Value, kept: seq<Args>, a: Args, rest: seq<Args>, awaited: seq<Future>, starts: seq<nat>, busy: set<nat>,
                 keep: seq<Args>, more: seq<Future>, started: seq<nat>)
    requires Mid(w, arrived, s, kept, [a] + rest, awaited, starts, busy) && x == Val(w.env, s) && a.node < |w.c.nodes|
    requires Cancels(a, s, x) != {} ==> keep == [] && started == [] && more != [] && more == seq(|Cancels(a, s, x)|, _ => Skipping(a.node, Nones(w.c.nodes[a.node].outputs)))
    requires Cancels(a, s, x) == {} && Received(a, s, x).missing == map[] ==> keep == [] && started == [a.node] && more == [Running(a.node, Received(a, s, x).inputs)]
    requires Cancels(a, s, x) == {} && Received(a, s, x).missing != map[] ==> started == [] && more == [] && keep == [Received(a, s, x)]
    ensures Mid(w, arrived, s, kept + keep, rest, awaited + more, starts + started, busy)
  {
    assert WaitingOk(w, arrived, [a] + rest) && ([a] + rest)[0] == a;
    hide Mid, Cancels, Received, Nones, ArgsOk, Skips, Arrivals, Val;
    assert kept + [] == kept && awaited + [] == awaited && starts + [] == starts;
    if Cancels(a, s, x) != {} {
      CancelSkips(w, arrived, a, s, x);
      MidDrop(w, arrived, s, kept, a, rest, awaited, more, starts, starts, busy);
    } else {
      ReceivedOk(w, arrived, a, s, x);
      ReceivedNode(a, s, x);
      if keep == [] {
        NothingMissing(w, arrived + {s}, Received(a, s, x));
        MidDrop(w, arrived, s, kept, a, rest, awaited, more, starts, starts + started, busy);
      } else {
        MidKeep(w, arrived, s, kept, a, Received(a, s, x), rest, awaited, starts, busy);
      }
    }
  }

  lemma ReceivedNode(a: Args, s: nat, x: Value)
    ensures Received(a, s, x).node == a.node
  {
  }

  lemma MidNode(w: World, arrived: set<nat>, s: nat, kept: seq<Args>, a: Args, rest: seq<Args>, awaited: seq<Future>, starts: seq<nat>, busy: set<nat>)
    requires Mid(w, arrived, s, kept, [a] + rest, awaited, starts, busy)
    ensures a.node < |w.c.nodes|
  {
    assert ([a] + rest)[0] == a;
  }

  /** Offers the arrival of set `s` to all waiting functions. */
  method Deliver(c: Composition, waiting: seq<Args>, awaited: seq<Future>, starts: seq<nat>, s: nat, x: Value, ghost w: World, ghost arrived: set<nat>, ghost busy: set<nat>, ghost runs: seq<Future>)
    returns (kept: seq<Args>, futures: seq<Future>, started: seq<nat>)
    requires w.c == c && x == Val(w.env, s) && Inv(w, arrived, waiting, awaited, starts, busy) && Balanced(starts, awaited, runs)
    ensures Inv(w, arrived + {s}, kept, futures, started, busy) && Balanced(started, futures, runs)
    ensures |kept| < |waiting| || (|kept| == |waiting| && |futures| == |awaited|)
  {
    hide Mid, Inv, Cancels, Received, Nones, Val, Balanced, RunNodes;
    MidStart(w, arrived, s, waiting, awaited, starts, busy);
    kept, futures, started := [], awaited, starts;
    var p: nat := 0;
    assert waiting[0..] == waiting;
    while p < |waiting|
      invariant p <= |waiting| && |kept| <= p && (|kept| == p ==> |futures| == |awaited|)
      invariant Mid(w, arrived, s, kept, waiting[p..], futures, started, busy) && Balanced(started, futures, runs)
    {
      var a := waiting[p];
      assert waiting[p..] == [a] + waiting[p + 1..];
      MidNode(w, arrived, s, kept, a, waiting[p + 1..], futures, started, busy);
      var keep, more, begun := Offer(c, a, s, x);
      MidOffer(w, arrived, s, x, kept, a, waiting[p + 1..], futures, started, busy, keep, more, begun);
      BalancedMore(started, futures, runs, begun, more);
      kept, futures, started := kept + keep, futures + more, started + begun;
      p := p + 1;
    }
    assert waiting[p..] == [];
    MidEnd(w, arrived, s, kept, futures, started, busy);
  }

  // ---------------------------------------------------------------- the beginning

  ghost predicate Begun(w: World, arrived: set<nat>, waiting: seq<Args>, awaited: seq<Future>, starts: seq<nat>, m: nat) {
    && WaitingOk(w, arrived, waiting) && FuturesOk(w, awaited) && StartsOk(w, starts) && Queued(waiting, starts)
    && (forall p: nat :: p < |waiting| ==> waiting[p].node < m)
    && (forall p: nat :: p < |starts| ==> starts[p] < m)
    && (forall i: nat :: i < m ==> Accounted(w, arrived, waiting, awaited, starts, {}, i))
  }

  lemma BegunWait(w: World, arrived: set<nat>, waiting: seq<Args>, awaited: seq<Future>, starts: seq<nat>, m: nat, a: Args)
    requires Begun(w, arrived, waiting, awaited, starts, m) && ArgsOk(w, arrived, a) && a.missing != map[] && a.node == m
    ensures Begun(w, arrived, waiting + [a], awaited, starts, m + 1)
  {
    hide ArgsOk, FuturesOk, StartsOk, Finished, Skips, Awaits;
    forall i: nat | i < m + 1 ensures Accounted(w, arrived, waiting + [a], awaited, starts, {}, i) {
      assert waiting + ([a] + []) == waiting + [a] && waiting + [] == waiting;
      WaitsEither(waiting, a, [], i);
      if i < m {
        assert Accounted(w, arrived, waiting, awaited, starts, {}, i);
      }
    }
  }

  lemma BegunAwait(w: World, arrived: set<nat>, waiting: seq<Args>, awaited: seq<Future>, starts: seq<nat>, m: nat, f: Future, fin: seq<nat>)
    requires Begun(w, arrived, waiting, awaited, starts, m) && FutureOk(w, f) && f.node == m
    requires if f.Skipping? then fin == starts else fin == starts + [m]
    ensures Begun(w, arrived, waiting, awaited + [f], fin, m + 1)
  {
    hide ArgsOk, Finished, Skips, Waits, Nones, Arrivals;
    forall i: nat | i < m + 1 ensures Accounted(w, arrived, waiting, awaited + [f], fin, {}, i) {
      AwaitsMore(awaited, [f], i);
      if i < m {
        assert Accounted(w, arrived, waiting, awaited, starts, {}, i);
      } else {
        assert [f][0].node == m;
      }
    }
  }

  lemma BegunInv(w: World, arrived: set<nat>, waiting: seq<Args>, awaited: seq<Future>, starts: seq<nat>)
    requires Begun(w, arrived, waiting, awaited, starts, |w.c.nodes|)
    ensures Inv(w, arrived, waiting, awaited, starts, {})
  {
    hide WaitingOk, FuturesOk, StartsOk, Queued, Accounted;
  }

  ghost function InputIds(n: nat): (ids: set<nat>)
    ensures forall s: nat :: s in ids <==> s < n
  {
    if n == 0 then {} else InputIds(n - 1) + {n - 1}
  }

  /** The part of `ArgsOk` about the first `k` inputs. */
  ghost predicate Collected(n: Node, env: Env, arrived: set<nat>, a: Args, k: nat) {
    && |a.inputs| == |n.inputs|
    && (forall j: nat :: j < k ==> SlotOk(n, env, arrived, a, j))
    && (forall j: nat :: k <= j < |a.inputs| ==> a.inputs[j] == None)
    && (forall key: Slot :: key in a.missing ==> KeyOk(n, arrived, key) && key.index < k)
  }

  /** Input `j` is not optional and is a composition input without items. */
  ghost predicate HoldsNothing(n: Node, inputs: seq<Value>, j: nat) {
    && j < |n.inputs| && n.inputs[j].Some? && !n.inputs[j].value.optional && n.inputs[j].value.id < |inputs|
    && (inputs[n.inputs[j].value.id].None? || inputs[n.inputs[j].value.id].value.items == [])
  }

  lemma NotWithout(n: Node, inputs: seq<Value>)
    ensures forall j: nat :: j >= |n.inputs| || n.inputs[j].None? || n.inputs[j].value.id >= |inputs| ==> !HoldsNothing(n, inputs, j)
  {
  }

  lemma EmptyHoldsNothing(n: Node, inputs: seq<Value>, j: nat)
    requires j < |n.inputs| && n.inputs[j].Some? && n.inputs[j].value.id < |inputs|
    ensures HoldsNothing(n, inputs, j) <==> !n.inputs[j].value.optional && Empty(inputs[n.inputs[j].value.id])
  {
  }

  /** The inputs that function `i` has from the start, or none if one of them cancels it. */
  method Collect(c: Composition, i: nat, inputs: seq<Value>, ghost w: World) returns (r: Option<Args>)
    requires w.c == c && w.inputs == |inputs| && i < |c.nodes|
    requires forall s: nat :: s < |inputs| ==> s in w.env && w.env[s] == inputs[s]
    ensures r.None? ==> Skips(c.nodes[i], w.env)
    ensures r.None? <==> exists j: nat :: HoldsNothing(c.nodes[i], inputs, j)
    ensures r.Some? ==> r.value.node == i && ArgsOk(w, InputIds(|inputs|), r.value)
  {
    hide Empty, InputIds, HoldsNothing;
    var n := c.nodes[i];
    NotWithout(n, inputs);
    var a := Args(i, seq(|n.inputs|, _ => None), map[]);
    var j: nat := 0;
    while j < |n.inputs|
      invariant j <= |n.inputs| && a.node == i && Collected(n, w.env, InputIds(|inputs|), a, j)
      invariant forall l: nat :: l < j ==> !HoldsNothing(n, inputs, l)
    {
      if n.inputs[j].Some? {
        var d := n.inputs[j].value;
        if d.id < |inputs| {
          EmptyHoldsNothing(n, inputs, j);
          if !d.optional && Empty(inputs[d.id]) {
            assert Lacks(n, w.env, j);
            return None;
          }
          CollectInput(n, w.env, InputIds(|inputs|), a, j);
          a := Args(i, a.inputs[j := Arrive(d, inputs[d.id])], a.missing);
        } else {
          CollectMissing(n, w.env, InputIds(|inputs|), a, j);
          a := Args(i, a.inputs, a.missing[Slot(d.id, j) := Want(d.sharding, d.optional)]);
        }
      }
      j := j + 1;
    }
    return Some(a);
  }

  lemma CollectInput(n: Node, env: Env, arrived: set<nat>, a: Args, j: nat)
    requires Collected(n, env, arrived, a, j) && j < |n.inputs| && n.inputs[j].Some? && n.inputs[j].value.id in arrived && !Lacks(n, env, j)
    ensures Collected(n, env, arrived, Args(a.node, a.inputs[j := Arrive(n.inputs[j].value, Val(env, n.inputs[j].value.id))], a.missing), j + 1)
  {
    hide Empty, Val, Arrive, Lacks;
    var b := Args(a.node, a.inputs[j := Arrive(n.inputs[j].value, Val(env, n.inputs[j].value.id))], a.missing);
    forall k: nat | k < j + 1 ensures SlotOk(n, env, arrived, b, k) {
      if k < j {
        assert SlotOk(n, env, arrived, a, k);
      }
    }
  }

  lemma CollectMissing(n: Node, env: Env, arrived: set<nat>, a: Args, j: nat)
    requires Collected(n, env, arrived, a, j) && j < |n.inputs| && n.inputs[j].Some? && n.inputs[j].value.id !in arrived
    ensures var d := n.inputs[j].value;
            Collected(n, env, arrived, Args(a.node, a.inputs, a.missing[Slot(d.id, j) := Want(d.sharding, d.optional)]), j + 1)
  {
    hide Empty, Val, Arrive, Lacks;
    var d := n.inputs[j].value;
    var b := Args(a.node, a.inputs, a.missing[Slot(d.id, j) := Want(d.sharding, d.optional)]);
    forall k: nat | k < j + 1 ensures SlotOk(n, env, arrived, b, k) {
      if k < j {
        assert SlotOk(n, env, arrived, a, k);
      }
    }
  }

  // ---------------------------------------------------------------- the whole run

  ghost predicate OutputsOk(w: World, arrived: set<nat>, outputs: seq<Value>) {
    && |outputs| == |w.c.outputMap|
    && forall s: nat :: s in w.c.outputMap && w.c.outputMap[s] < |outputs| ==>
         outputs[w.c.outputMap[s]] == if s in arrived then Val(w.env, s) else None
  }

  lemma OutputArrives(w: World, arrived: set<nat>, outputs: seq<Value>, s: nat)
    requires OutputsOk(w, arrived, outputs) && DistinctOutputs(w.c)
    ensures s in w.c.outputMap ==> w.c.outputMap[s] < |outputs| && OutputsOk(w, arrived + {s}, outputs[w.c.outputMap[s] := Val(w.env, s)])
    ensures s !in w.c.outputMap ==> OutputsOk(w, arrived + {s}, outputs)
  {
    hide Val;
  }

  /** Composition inputs that are outputs as well. */
  method ForwardInputs(c: Composition, inputs: seq<Value>, ghost w: World) returns (outputs: seq<Value>)
    requires w.c == c && DistinctOutputs(c) && forall s: nat :: s < |inputs| ==> s in w.env && w.env[s] == inputs[s]
    ensures OutputsOk(w, InputIds(|inputs|), outputs)
  {
    hide DistinctOutputs, OutputsOk, InputIds;
    assert InputIds(0) == {};
    outputs := seq(|c.outputMap|, _ => None);
    NoOutputs(w, outputs);
    var s: nat := 0;
    while s < |inputs|
      invariant s <= |inputs| && OutputsOk(w, InputIds(s), outputs)
    {
      OutputArrives(w, InputIds(s), outputs, s);
      assert InputIds(s + 1) == InputIds(s) + {s};
      if s in c.outputMap {
        outputs := outputs[c.outputMap[s] := inputs[s]];
      }
      s := s + 1;
    }
  }

  lemma NoOutputs(w: World, outputs: seq<Value>)
    requires |outputs| == |w.c.outputMap| && forall k: nat :: k < |outputs| ==> outputs[k] == None
    ensures OutputsOk(w, {}, outputs)
  {
  }

  /** Starts what can be started, and skips what must be skipped, with the composition inputs alone. */
  method Begin(c: Composition, inputs: seq<Value>, ghost w: World) returns (waiting: seq<Args>, awaited: seq<Future>, starts: seq<nat>)
    requires w.c == c && w.inputs == |inputs| && forall s: nat :: s < |inputs| ==> s in w.env && w.env[s] == inputs[s]
    ensures Inv(w, InputIds(|inputs|), waiting, awaited, starts, {}) && Balanced(starts, awaited, [])
  {
    hide Begun, Inv, ArgsOk, Skips, Nones, InputIds, Arrivals, Balanced, RunNodes;
    waiting, awaited, starts := [], [], [];
    BalancedStart();
    NothingBegun(w, InputIds(|inputs|));
    var i: nat := 0;
    while i < |c.nodes|
      invariant i <= |c.nodes| && Begun(w, InputIds(|inputs|), waiting, awaited, starts, i) && Balanced(starts, awaited, [])
    {
      var a := Collect(c, i, inputs, w);
      if a.None? {
        var f := Skipping(i, Nones(c.nodes[i].outputs));
        BegunAwait(w, InputIds(|inputs|), waiting, awaited, starts, i, f, starts);
        RunNodesOne(f);
        BalancedMore(starts, awaited, [], [], [f]);
        assert starts + [] == starts;
        awaited := awaited + [f];
      } else if a.value.missing == map[] {
        NothingMissing(w, InputIds(|inputs|), a.value);
        var f := Running(i, a.value.inputs);
        BegunAwait(w, InputIds(|inputs|), waiting, awaited, starts, i, f, starts + [i]);
        RunNodesOne(f);
        BalancedMore(starts, awaited, [], [i], [f]);
        awaited, starts := awaited + [f], starts + [i];
      } else {
        BegunWait(w, InputIds(|inputs|), waiting, awaited, starts, i, a.value);
        waiting := waiting + [a.value];
      }
      i := i + 1;
    }
    BegunInv(w, InputIds(|inputs|), waiting, awaited, starts);
  }

  lemma NothingBegun(w: World, arrived: set<nat>)
    ensures Begun(w, arrived, [], [], [], 0)
  {
  }

  /** A future that completes delivers its function's outputs. */
  lemma FutureDelivers(w: World, eval: Evaluation, f: Future)
    requires FutureOk(w, f) && Solves(w.c, w.env, eval, f.node) && forall n: Node, ins: seq<Option<Arrival>> :: |eval(n, ins)| >= |n.outputs|
    ensures f.Skipping? ==> Delivers(w, f.node, f.sets)
    ensures f.Running? ==>
              var n := w.c.nodes[f.node];
              |eval(n, f.inputs)| >= |n.outputs| && Delivers(w, f.node, Paired(n.outputs, eval(n, f.inputs), |n.outputs|))
  {
    hide Solves, Delivers, Paired;
    var n := w.c.nodes[f.node];
    PairedDelivers(w, eval, f.node, if f.Skipping? then seq(|n.outputs|, _ => None) else eval(n, f.inputs));
  }

  lemma InvFuture(w: World, arrived: set<nat>, waiting: seq<Args>, awaited: seq<Future>, starts: seq<nat>, k: nat)
    requires Inv(w, arrived, waiting, awaited, starts, {}) && k < |awaited|
    ensures FutureOk(w, awaited[k])
    ensures Inv(w, arrived, waiting, awaited[..k] + awaited[k + 1..], starts, {awaited[k].node})
  {
    hide ArgsOk, FutureOk, StartsOk, Queued, Finished, Skips, Waits, WaitingOk;
    var rest := awaited[..k] + awaited[k + 1..];
    assert forall f: nat :: f < |rest| ==> rest[f] == awaited[if f < k then f else f + 1];
    forall i: nat | i < |w.c.nodes| ensures Accounted(w, arrived, waiting, rest, starts, {awaited[k].node}, i) {
      assert Accounted(w, arrived, waiting, awaited, starts, {}, i);
      if Awaits(awaited, i) && i != awaited[k].node {
        var f: nat :| f < |awaited| && awaited[f].node == i;
        assert rest[if f < k then f else f - 1].node == i;
      }
    }
  }

  lemma InvFinished(w: World, arrived: set<nat>, waiting: seq<Args>, awaited: seq<Future>, starts: seq<nat>, i: nat)
    requires Inv(w, arrived, waiting, awaited, starts, {i}) && Finished(w.c, arrived, i)
    ensures Inv(w, arrived, waiting, awaited, starts, {})
  {
    hide WaitingOk, FuturesOk, StartsOk, Queued, Finished, Skips, Waits, Awaits;
    forall j: nat | j < |w.c.nodes| ensures Accounted(w, arrived, waiting, awaited, starts, {}, j) {
      assert Accounted(w, arrived, waiting, awaited, starts, {i}, j);
    }
  }

  /** Hands all sets of a completed function to the outputs and to the waiting functions. */
  method DeliverAll(c: Composition, sets: seq<Delivery>, waiting0: seq<Args>, awaited0: seq<Future>, starts0: seq<nat>, outputs0: seq<Value>,
                    ghost w: World, ghost arrived0: set<nat>, ghost i: nat, ghost runs: seq<Future>)
    returns (waiting: seq<Args>, awaited: seq<Future>, starts: seq<nat>, outputs: seq<Value>, ghost arrived: set<nat>)
    requires w.c == c && DistinctOutputs(c) && Delivers(w, i, sets)
    requires Inv(w, arrived0, waiting0, awaited0, starts0, {i}) && OutputsOk(w, arrived0, outputs0) && Balanced(starts0, awaited0, runs)
    ensures Inv(w, arrived, waiting, awaited, starts, {}) && OutputsOk(w, arrived, outputs) && arrived0 <= arrived && Balanced(starts, awaited, runs)
    ensures |waiting| < |waiting0| || (|waiting| == |waiting0| && |awaited| == |awaited0|)
  {
    hide Inv, OutputsOk, DistinctOutputs, Balanced;
    waiting, awaited, starts, outputs, arrived := waiting0, awaited0, starts0, outputs0, arrived0;
    var m: nat := 0;
    while m < |sets|
      invariant m <= |sets| && Inv(w, arrived, waiting, awaited, starts, {i}) && OutputsOk(w, arrived, outputs) && Balanced(starts, awaited, runs)
      invariant arrived0 <= arrived && forall q: nat :: q < m ==> sets[q].id in arrived
      invariant |waiting| < |waiting0| || (|waiting| == |waiting0| && |awaited| == |awaited0|)
    {
      var d := sets[m];
      assert d in sets;
      OutputArrives(w, arrived, outputs, d.id);
      if d.id in c.outputMap {
        outputs := outputs[c.outputMap[d.id] := d.value];
      }
      waiting, awaited, starts := Deliver(c, waiting, awaited, starts, d.id, d.value, w, arrived, {i}, runs);
      arrived := arrived + {d.id};
      m := m + 1;
    }
    forall k: nat, s: nat | Produces(c, i, k, s) ensures s in arrived {
      var d: Delivery :| d in sets && d.id == s;
      var q: nat :| q < |sets| && sets[q] == d;
    }
    InvFinished(w, arrived, waiting, awaited, starts, i);
  }

  /** When nothing is awaited any more, every function has finished, one after the other in
      topological order. */
  lemma {:induction false} AllFinished(w: World, arrived: set<nat>, waiting: seq<Args>, starts: seq<nat>, order: seq<nat>, p: nat)
    requires Inv(w, arrived, waiting, [], starts, {}) && InputIds(w.inputs) <= arrived
    requires Topological(w.c, w.inputs, order) && p <= |order|
    ensures forall q: nat :: q < p ==> order[q] < |w.c.nodes| && !Waits(waiting, order[q]) && Finished(w.c, arrived, order[q])
  {
    if p > 0 {
      hide Inv, Finished, Waits, Ready;
      AllFinished(w, arrived, waiting, starts, order, p - 1);
      assert Ready(w.c, w.inputs, order[p - 1], order[..p - 1]);
      assert forall i: nat :: i in order[..p - 1] ==> Finished(w.c, arrived, i);
      NextFinished(w, arrived, waiting, starts, order[p - 1], order[..p - 1]);
    }
  }

  lemma NextFinished(w: World, arrived: set<nat>, waiting: seq<Args>, starts: seq<nat>, i: nat, before: seq<nat>)
    requires Inv(w, arrived, waiting, [], starts, {}) && InputIds(w.inputs) <= arrived
    requires Ready(w.c, w.inputs, i, before) && forall j: nat :: j in before ==> Finished(w.c, arrived, j)
    ensures i < |w.c.nodes| && !Waits(waiting, i) && Finished(w.c, arrived, i)
  {
    hide FuturesOk, StartsOk, Queued, SlotOk, Finished;
    assert Accounted(w, arrived, waiting, [], starts, {}, i);
    if Waits(waiting, i) {
      var p: nat :| p < |waiting| && waiting[p].node == i;
      var a := waiting[p];
      assert ArgsOk(w, arrived, a);
      var key: Slot :| key in a.missing;
      assert KeyOk(w.c.nodes[i], arrived, key);
      assert Known(w.c, w.inputs, key.id, before);
      MissingArrived(w, arrived, key.id, before);
    }
  }

  lemma MissingArrived(w: World, arrived: set<nat>, s: nat, before: seq<nat>)
    requires Known(w.c, w.inputs, s, before) && InputIds(w.inputs) <= arrived
    requires forall j: nat :: j in before ==> Finished(w.c, arrived, j)
    ensures s in arrived
  {
  }

  lemma RunEnds(w: World, eval: Evaluation, inputs: seq<Value>, arrived: set<nat>, waiting: seq<Args>, starts: seq<nat>, outputs: seq<Value>, order: seq<nat>)
    requires Inv(w, arrived, waiting, [], starts, {}) && InputIds(w.inputs) <= arrived && w.inputs == |inputs|
    requires OutputsOk(w, arrived, outputs) && DistinctOutputs(w.c)
    requires Topological(w.c, w.inputs, order) && Solution(w.c, inputs, eval, w.env)
    ensures waiting == [] && NoneTwice(starts)
    ensures forall i: nat :: i < |w.c.nodes| ==> (i in starts <==> !Skips(w.c.nodes[i], w.env))
    ensures forall s: nat :: s in w.c.outputMap ==> w.c.outputMap[s] < |outputs| && outputs[w.c.outputMap[s]] == Val(w.env, s)
  {
    hide Solves, Skips, Queued, Finished, FuturesOk, ArgsOk, Ready;
    AllFinished(w, arrived, waiting, starts, order, |order|);
    QueuedOnce(waiting, starts);
    if waiting != [] {
      var q := SomeoneWaits(w, arrived, waiting, order);
    }
    forall i: nat | i < |w.c.nodes| ensures i in starts <==> !Skips(w.c.nodes[i], w.env) {
      assert Accounted(w, arrived, waiting, [], starts, {}, i);
    }
    forall s: nat | s in w.env ensures s in arrived {
      if s >= |inputs| {
        var i: nat, k: nat :| Produces(w.c, i, k, s);
        assert Finished(w.c, arrived, i) by { assert i in order; }
        FinishedArrived(w.c, arrived, i, k, s);
      }
    }
  }

  lemma FinishedArrived(c: Composition, arrived: set<nat>, i: nat, k: nat, s: nat)
    requires Finished(c, arrived, i) && Produces(c, i, k, s)
    ensures s in arrived
  {
  }

  lemma QueuedOnce(waiting: seq<Args>, starts: seq<nat>)
    requires Queued(waiting, starts)
    ensures NoneTwice(starts)
  {
  }

  lemma SomeoneWaits(w: World, arrived: set<nat>, waiting: seq<Args>, order: seq<nat>) returns (q: nat)
    requires WaitingOk(w, arrived, waiting) && waiting != [] && forall i: nat :: i < |w.c.nodes| ==> i in order
    ensures q < |order| && Waits(waiting, order[q])
  {
    assert ArgsOk(w, arrived, waiting[0]);
    assert waiting[0].node in order;
    q :| q < |order| && order[q] == waiting[0].node;
  }

  /** Whatever order the running functions finish in, the values of all sets are those of topological
      evaluation: composition inputs as they came, the results of every function that is run, and none
      for the others. No function is left waiting. Those whose required inputs hold items are started
      and run exactly once, on exactly the values of their inputs. */
  method QueueComposition(c: Composition, inputs: seq<Value>, eval: Evaluation, ghost order: seq<nat>)
    returns (outputs: seq<Value>, starts: seq<nat>, waiting: seq<Args>, runs: seq<Future>, ghost env: Env)
    requires OneProducer(c, |inputs|) && DistinctOutputs(c) && Topological(c, |inputs|, order)
    requires forall n: Node, ins: seq<Option<Arrival>> :: |eval(n, ins)| >= |n.outputs|
    ensures env == Evaluated(c, inputs, eval, order)
    ensures forall s: nat :: s < |inputs| ==> s in env && env[s] == inputs[s]
    ensures |outputs| == |c.outputMap|
    ensures forall s: nat :: s in c.outputMap ==> outputs[c.outputMap[s]] == if s in env then env[s] else None
    ensures waiting == [] && NoneTwice(starts)
    ensures forall i: nat :: i < |c.nodes| ==> (i in starts <==> Supplied(c.nodes[i], env))
    ensures forall i: nat, k: nat, s: nat :: Produces(c, i, k, s) && i !in starts ==> s in env && env[s] == None
    ensures forall f :: f in runs ==> f.Running? && f.node < |c.nodes| && Handed(c.nodes[f.node], env, f.inputs)
    ensures forall f, k: nat, s: nat :: f in runs && Produces(c, f.node, k, s) ==> s in env && env[s] == eval(c.nodes[f.node], f.inputs)[k]
    ensures multiset(starts) == RunNodes(runs) && |runs| == |starts|
    ensures forall i: nat :: i in starts ==> exists k: nat :: k < |runs| && runs[k].node == i
  {
    hide Inv, OneProducer, Topological, Evaluated, OutputsOk, FutureOk, Delivers, Paired, Skips, InputIds, Solves, Nones, Arrivals, Balanced, RunNodes, Supplied, Handed, Follows, Produces;
    runs := [];
    EvaluatedSolution(c, inputs, eval, order);
    env := Evaluated(c, inputs, eval, order);
    ghost var w := World(c, |inputs|, env);
    outputs := ForwardInputs(c, inputs, w);
    var awaited: seq<Future>;
    waiting, awaited, starts := Begin(c, inputs, w);
    ghost var arrived := InputIds(|inputs|);
    while awaited != []
      invariant Inv(w, arrived, waiting, awaited, starts, {}) && OutputsOk(w, arrived, outputs) && InputIds(|inputs|) <= arrived
      invariant forall f :: f in runs ==> f.Running? && f.node < |c.nodes| && f.inputs == Arrivals(c.nodes[f.node], w.env)
      invariant Balanced(starts, awaited, runs)
      decreases |waiting|, |awaited|
    {
      var k: nat :| k < |awaited|;
      var f := awaited[k];
      InvFuture(w, arrived, waiting, awaited, starts, k);
      NodeInside(w, f);
      FutureDelivers(w, eval, f);
      BalancedTaken(starts, awaited, runs, k);
      if f.Running? {
        runs := runs + [f];
      }
      var sets := if f.Skipping? then f.sets else Paired(c.nodes[f.node].outputs, eval(c.nodes[f.node], f.inputs), |c.nodes[f.node].outputs|);
      waiting, awaited, starts, outputs, arrived :=
        DeliverAll(c, sets, waiting, awaited[..k] + awaited[k + 1..], starts, outputs, w, arrived, f.node, runs);
    }
    RunEnds(w, eval, inputs, arrived, waiting, starts, outputs, order);
    OutputsSize(w, arrived, outputs);
    BalancedEnd(starts, runs);
    RunLaws(c, env, eval, starts, runs);
  }

  /** What `Skips` and `Arrivals` mean for what was started and run. */
  lemma RunLaws(c: Composition, env: Env, eval: Evaluation, starts: seq<nat>, runs: seq<Future>)
    requires forall i: nat :: i < |c.nodes| ==> Follows(c.nodes[i], env, eval)
    requires forall i: nat :: i < |c.nodes| ==> (i in starts <==> !Skips(c.nodes[i], env))
    requires forall f :: f in runs ==> f.Running? && f.node in starts && f.node < |c.nodes| && f.inputs == Arrivals(c.nodes[f.node], env)
    requires forall n: Node, ins: seq<Option<Arrival>> :: |eval(n, ins)| >= |n.outputs|
    ensures forall i: nat :: i < |c.nodes| ==> (i in starts <==> Supplied(c.nodes[i], env))
    ensures forall i: nat, k: nat, s: nat :: Produces(c, i, k, s) && i !in starts ==> s in env && env[s] == None
    ensures forall f :: f in runs ==> Handed(c.nodes[f.node], env, f.inputs)
    ensures forall f, k: nat, s: nat :: f in runs && Produces(c, f.node, k, s) ==> s in env && env[s] == eval(c.nodes[f.node], f.inputs)[k]
  {
    hide Skips, Supplied, Handed, Arrivals;
    forall i: nat | i < |c.nodes| ensures i in starts <==> Supplied(c.nodes[i], env) {
      SkipRule(c.nodes[i], env);
    }
    forall f | f in runs ensures Handed(c.nodes[f.node], env, f.inputs) {
      HandedIs(c.nodes[f.node], env, f.inputs);
    }
    forall f, k: nat, s: nat | f in runs && Produces(c, f.node, k, s) ensures s in env && env[s] == eval(c.nodes[f.node], f.inputs)[k] {
      assert Follows(c.nodes[f.node], env, eval);
    }
    forall i: nat, k: nat, s: nat | Produces(c, i, k, s) && i !in starts ensures s in env && env[s] == None {
      assert Follows(c.nodes[i], env, eval);
    }
  }

  lemma NodeInside(w: World, f: Future)
    requires FutureOk(w, f)
    ensures f.node < |w.c.nodes| && (f.Running? ==> f.inputs == Arrivals(w.c.nodes[f.node], w.env))
  {
  }

  lemma OutputsSize(w: World, arrived: set<nat>, outputs: seq<Value>)
    requires OutputsOk(w, arrived, outputs)
    ensures |outputs| == |w.c.outputMap|
  {
  }
}
