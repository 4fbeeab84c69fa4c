/** Compositions: functions connected by sets of items, as a dataflow graph. */
module Compositions {
  import opened Common

  datatype ShardingMode = All | Each | Key

  datatype JoinStrategy = Inner | Left | Right | Outer | Cross

  /** An item of a set: its key, its index in the set, and the context that holds it. */
  datatype Item = Item(key: nat, index: nat, context: nat)

  datatype CompositionSet = CompositionSet(items: seq<Item>, setIndex: nat)

  /** What a set id stands for once it has arrived. */
  type Value = Option<CompositionSet>

  predicate Empty(x: Value) {
    x.None? || x.value.items == []
  }

  datatype Descriptor = Descriptor(id: nat, sharding: ShardingMode, optional: bool)

  datatype Node = Node(name: nat, inputs: seq<Option<Descriptor>>, joinOrder: seq<nat>, joins: seq<JoinStrategy>, outputs: seq<Option<nat>>)

  datatype Composition = Composition(nodes: seq<Node>, outputMap: map<nat, nat>)

  datatype Arrival = Arrival(sharding: ShardingMode, items: CompositionSet)

  /** What a function returns for its inputs; the same inputs always give the same results. */
  type Evaluation = (Node, seq<Option<Arrival>>) -> seq<Value>

  function Arrive(d: Descriptor, x: Value): Option<Arrival> {
    match x
    case None => None
    case Some(s) => Some(Arrival(d.sharding, s))
  }

  // ---------------------------------------------------------------- topological evaluation

  type Env = map<nat, Value>

  function Val(env: Env, s: nat): Value {
    if s in env then env[s] else None
  }

  function ArrivalAt(n: Node, env: Env, j: nat): Option<Arrival> {
    if j < |n.inputs| && n.inputs[j].Some? then Arrive(n.inputs[j].value, Val(env, n.inputs[j].value.id)) else None
  }

  function Arrivals(n: Node, env: Env): (r: seq<Option<Arrival>>)
    ensures |r| == |n.inputs| && forall j: nat :: j < |r| ==> r[j] == ArrivalAt(n, env, j)
  {
    seq(|n.inputs|, j requires 0 <= j => ArrivalAt(n, env, j))
  }

  /** Input `j` must hold items, but does not. */
  ghost predicate Lacks(n: Node, env: Env, j: nat) {
    j < |n.inputs| && n.inputs[j].Some? && !n.inputs[j].value.optional && Empty(Val(env, n.inputs[j].value.id))
  }

  /** A function is skipped when an input that is not optional is empty. */
  ghost predicate Skips(n: Node, env: Env) {
    exists j: nat :: Lacks(n, env, j)
  }

  ghost function Output(n: Node, env: Env, eval: Evaluation, k: nat): Value {
    if Skips(n, env) then None
    else
      var r := eval(n, Arrivals(n, env));
      if k < |r| then r[k] else None
  }

  ghost predicate Produces(c: Composition, i: nat, k: nat, s: nat) {
    i < |c.nodes| && k < |c.nodes[i].outputs| && c.nodes[i].outputs[k] == Some(s)
  }

  /** Every id is the output of at most one function, and no function outputs a composition input. */
  ghost predicate OneProducer(c: Composition, inputs: nat) {
    && (forall i: nat, k: nat, s: nat :: Produces(c, i, k, s) ==> s >= inputs)
    && (forall i: nat, k: nat, j: nat, l: nat, s: nat :: Produces(c, i, k, s) && Produces(c, j, l, s) ==> i == j && k == l)
  }

  ghost predicate DistinctOutputs(c: Composition) {
    && (forall s: nat :: s in c.outputMap ==> c.outputMap[s] < |c.outputMap|)
    && (forall s: nat, t: nat :: s in c.outputMap && t in c.outputMap && c.outputMap[s] == c.outputMap[t] ==> s == t)
  }

  /** The equation that one function imposes on the values of its outputs. */
  ghost predicate Solves(c: Composition, env: Env, eval: Evaluation, i: nat) {
    forall k: nat, s: nat :: Produces(c, i, k, s) ==> s in env && env[s] == Output(c.nodes[i], env, eval, k)
  }

  /** Values of all sets that satisfy the equations of all functions. */
  ghost predicate Solution(c: Composition, inputs: seq<Value>, eval: Evaluation, env: Env) {
    && (forall s: nat :: s < |inputs| ==> s in env && env[s] == inputs[s])
    && (forall i: nat :: i < |c.nodes| ==> Solves(c, env, eval, i))
    && (forall s: nat :: s in env ==> s < |inputs| || exists i: nat, k: nat :: Produces(c, i, k, s))
  }

  /** A function that only needs composition inputs and outputs of functions in `before`. */
  ghost predicate Ready(c: Composition, inputs: nat, i: nat, before: seq<nat>) {
    i < |c.nodes| && forall j: nat :: j < |c.nodes[i].inputs| && c.nodes[i].inputs[j].Some? ==> Known(c, inputs, c.nodes[i].inputs[j].value.id, before)
  }

  ghost predicate Known(c: Composition, inputs: nat, s: nat, before: seq<nat>) {
    s < inputs || exists i: nat, k: nat :: i in before && Produces(c, i, k, s)
  }

  /** `order` lists every function once, each behind those whose outputs it needs. */
  ghost predicate Topological(c: Composition, inputs: nat, order: seq<nat>) {
    && (forall p: nat :: p < |order| ==> Ready(c, inputs, order[p], order[..p]))
    && (forall p: nat, q: nat :: p < q < |order| ==> order[p] != order[q])
    && (forall i: nat :: i < |c.nodes| ==> i in order)
  }

  /** The values once the first `k` outputs of a function are bound to what `env` gives for them. */
  ghost function Bound(n: Node, env: Env, eval: Evaluation, k: nat): Env
    requires k <= |n.outputs|
  {
    if k == 0 then env
    else
      var e := Bound(n, env, eval, k - 1);
      if n.outputs[k - 1].Some? then e[n.outputs[k - 1].value := Output(n, env, eval, k - 1)] else e
  }

  function InputEnv(inputs: seq<Value>): (env: Env)
    ensures forall s: nat :: s in env <==> s < |inputs|
    ensures forall s: nat :: s < |inputs| ==> env[s] == inputs[s]
  {
    map s: nat | s < |inputs| :: inputs[s]
  }

  /** Evaluation of the functions one after the other. */
  ghost function Evaluated(c: Composition, inputs: seq<Value>, eval: Evaluation, order: seq<nat>): Env {
    if order == [] then InputEnv(inputs)
    else
      var env := Evaluated(c, inputs, eval, order[..|order| - 1]);
      var i := order[|order| - 1];
      if i < |c.nodes| then Bound(c.nodes[i], env, eval, |c.nodes[i].outputs|) else env
  }

  ghost predicate SameInputs(n: Node, env: Env, other: Env) {
    forall j: nat :: j < |n.inputs| && n.inputs[j].Some? ==> Val(env, n.inputs[j].value.id) == Val(other, n.inputs[j].value.id)
  }

  lemma SameOutputs(n: Node, env: Env, other: Env, eval: Evaluation)
    requires SameInputs(n, env, other)
    ensures Skips(n, env) == Skips(n, other) && Arrivals(n, env) == Arrivals(n, other)
    ensures forall k: nat :: Output(n, env, eval, k) == Output(n, other, eval, k)
  {
    hide Val, Empty;
    assert forall j: nat :: Lacks(n, env, j) == Lacks(n, other, j);
    assert forall j: nat :: ArrivalAt(n, env, j) == ArrivalAt(n, other, j);
    assert Skips(n, env) == Skips(n, other);
    assert Arrivals(n, env) == Arrivals(n, other);
  }

  lemma {:induction false} BoundIs(c: Composition, inputs: nat, i: nat, env: Env, eval: Evaluation, k: nat, s: nat)
    requires OneProducer(c, inputs) && i < |c.nodes| && k <= |c.nodes[i].outputs|
    ensures (forall l: nat :: l < k && Produces(c, i, l, s) ==> s in Bound(c.nodes[i], env, eval, k) && Bound(c.nodes[i], env, eval, k)[s] == Output(c.nodes[i], env, eval, l))
    ensures (forall l: nat :: l < k ==> !Produces(c, i, l, s)) ==>
              (s in Bound(c.nodes[i], env, eval, k) <==> s in env) && Val(Bound(c.nodes[i], env, eval, k), s) == Val(env, s)
  {
    if k > 0 {
      hide Output;
      BoundIs(c, inputs, i, env, eval, k - 1, s);
      assert Produces(c, i, k - 1, s) <==> c.nodes[i].outputs[k - 1] == Some(s);
    }
  }

  /** What holds of the values after part of the functions. */
  ghost predicate Partial(c: Composition, inputs: seq<Value>, eval: Evaluation, env: Env, done: seq<nat>) {
    && (forall s: nat :: s < |inputs| ==> s in env && env[s] == inputs[s])
    && (forall i: nat :: i in done ==> Solves(c, env, eval, i))
    && (forall s: nat :: s in env ==> Known(c, |inputs|, s, done))
  }

  lemma ExtendsSame(c: Composition, inputs: seq<Value>, env: Env, eval: Evaluation, done: seq<nat>, i: nat, j: nat)
    requires OneProducer(c, |inputs|) && i < |c.nodes| && i !in done && Ready(c, |inputs|, j, done)
    ensures SameInputs(c.nodes[j], Bound(c.nodes[i], env, eval, |c.nodes[i].outputs|), env)
  {
    hide Bound, Val;
    var n := c.nodes[j];
    forall x: nat | x < |n.inputs| && n.inputs[x].Some?
      ensures Val(Bound(c.nodes[i], env, eval, |c.nodes[i].outputs|), n.inputs[x].value.id) == Val(env, n.inputs[x].value.id)
    {
      var s := n.inputs[x].value.id;
      assert Known(c, |inputs|, s, done);
      BoundIs(c, |inputs|, i, env, eval, |c.nodes[i].outputs|, s);
    }
  }

  /** An earlier function still solves its equation, the new one does as well. */
  lemma ExtendsSolves(c: Composition, inputs: seq<Value>, env: Env, eval: Evaluation, done: seq<nat>, i: nat, j: nat)
    requires OneProducer(c, |inputs|) && i < |c.nodes| && i !in done && Ready(c, |inputs|, j, done)
    requires j == i || (j in done && Solves(c, env, eval, j))
    ensures Solves(c, Bound(c.nodes[i], env, eval, |c.nodes[i].outputs|), eval, j)
  {
    hide Bound, Output;
    var fin := Bound(c.nodes[i], env, eval, |c.nodes[i].outputs|);
    ExtendsSame(c, inputs, env, eval, done, i, j);
    SameOutputs(c.nodes[j], fin, env, eval);
    forall k: nat, s: nat | Produces(c, j, k, s) ensures s in fin && fin[s] == Output(c.nodes[j], fin, eval, k) {
      BoundIs(c, |inputs|, i, env, eval, |c.nodes[i].outputs|, s);
    }
  }

  lemma ReadyLater(c: Composition, inputs: nat, order: seq<nat>, q: nat, p: nat)
    requires Topological(c, inputs, order) && q <= p <= |order| && q < |order|
    ensures Ready(c, inputs, order[q], order[..p])
  {
    assert Ready(c, inputs, order[q], order[..q]);
    assert forall i: nat :: i in order[..q] ==> i in order[..p];
    forall s: nat | Known(c, inputs, s, order[..q]) ensures Known(c, inputs, s, order[..p]) {
    }
  }

  lemma PartialStep(c: Composition, inputs: seq<Value>, eval: Evaluation, env: Env, order: seq<nat>, p: nat)
    requires OneProducer(c, |inputs|) && Topological(c, |inputs|, order) && p < |order|
    requires Partial(c, inputs, eval, env, order[..p])
    ensures order[p] < |c.nodes|
    ensures Partial(c, inputs, eval, Bound(c.nodes[order[p]], env, eval, |c.nodes[order[p]].outputs|), order[..p + 1])
  {
    hide Bound, Solves, OneProducer;
    var i: nat := order[p];
    ReadyLater(c, |inputs|, order, p, p);
    assert i < |c.nodes|;
    var n := c.nodes[i];
    var fin := Bound(n, env, eval, |n.outputs|);
    forall j: nat | j in order[..p + 1] ensures Solves(c, fin, eval, j) {
      var q: nat :| q < p + 1 && order[q] == j;
      ReadyLater(c, |inputs|, order, q, p);
      assert q < p ==> j in order[..p];
      ExtendsSolves(c, inputs, env, eval, order[..p], i, j);
    }
    forall s: nat | s in fin ensures Known(c, |inputs|, s, order[..p + 1]) {
      StillKnown(c, inputs, eval, env, order, p, s);
    }
    forall s: nat | s < |inputs| ensures s in fin && fin[s] == inputs[s] {
      InputKept(c, inputs, eval, env, i, s);
    }
  }

  lemma InputKept(c: Composition, inputs: seq<Value>, eval: Evaluation, env: Env, i: nat, s: nat)
    requires OneProducer(c, |inputs|) && i < |c.nodes| && s < |inputs| && s in env
    ensures s in Bound(c.nodes[i], env, eval, |c.nodes[i].outputs|)
    ensures Bound(c.nodes[i], env, eval, |c.nodes[i].outputs|)[s] == env[s]
  {
    hide Bound;
    BoundIs(c, |inputs|, i, env, eval, |c.nodes[i].outputs|, s);
  }

  lemma StillKnown(c: Composition, inputs: seq<Value>, eval: Evaluation, env: Env, order: seq<nat>, p: nat, s: nat)
    requires OneProducer(c, |inputs|) && p < |order| && order[p] < |c.nodes|
    requires s in env ==> Known(c, |inputs|, s, order[..p])
    requires s in Bound(c.nodes[order[p]], env, eval, |c.nodes[order[p]].outputs|)
    ensures Known(c, |inputs|, s, order[..p + 1])
  {
    hide Bound;
    BoundIs(c, |inputs|, order[p], env, eval, |c.nodes[order[p]].outputs|, s);
    assert order[p] in order[..p + 1];
    assert forall i: nat :: i in order[..p] ==> i in order[..p + 1];
  }

  lemma {:induction false} EvaluatedPartial(c: Composition, inputs: seq<Value>, eval: Evaluation, order: seq<nat>, p: nat)
    requires OneProducer(c, |inputs|) && Topological(c, |inputs|, order) && p <= |order|
    ensures Partial(c, inputs, eval, Evaluated(c, inputs, eval, order[..p]), order[..p])
  {
    hide Partial, Topological, OneProducer, Bound;
    if p == 0 {
      NothingEvaluated(c, inputs, eval);
      assert order[..0] == [];
    } else {
      EvaluatedPartial(c, inputs, eval, order, p - 1);
      PartialStep(c, inputs, eval, Evaluated(c, inputs, eval, order[..p - 1]), order, p - 1);
      assert order[..p][..p - 1] == order[..p - 1];
    }
  }

  lemma NothingEvaluated(c: Composition, inputs: seq<Value>, eval: Evaluation)
    ensures Partial(c, inputs, eval, Evaluated(c, inputs, eval, []), [])
  {
  }

  // ---------------------------------------------------------------- the rule in terms of items

  /** Every input that is not optional holds items. */
  ghost predicate Supplied(n: Node, env: Env) {
    forall j: nat :: j < |n.inputs| && n.inputs[j].Some? && !n.inputs[j].value.optional ==>
      var s := n.inputs[j].value.id; s in env && env[s].Some? && env[s].value.items != []
  }

  /** `ins` are the values of the inputs, with the sharding that each is to have. */
  ghost predicate Handed(n: Node, env: Env, ins: seq<Option<Arrival>>) {
    |ins| == |n.inputs| &&
    forall j: nat :: j < |ins| ==>
      ins[j] ==
      if n.inputs[j].Some? && n.inputs[j].value.id in env && env[n.inputs[j].value.id].Some?
      then Some(Arrival(n.inputs[j].value.sharding, env[n.inputs[j].value.id].value))
      else None
  }

  /** A function whose inputs are supplied has the results for them as outputs, any other has none. */
  ghost predicate Follows(n: Node, env: Env, eval: Evaluation) {
    forall k: nat, s: nat :: k < |n.outputs| && n.outputs[k] == Some(s) ==>
      && s in env && (!Supplied(n, env) ==> env[s] == None)
      && (Supplied(n, env) ==> forall ins :: Handed(n, env, ins) ==> env[s] == if k < |eval(n, ins)| then eval(n, ins)[k] else None)
  }

  lemma SkipRule(n: Node, env: Env)
    ensures Skips(n, env) <==> !Supplied(n, env)
  {
    if !Supplied(n, env) {
      var j: nat :| j < |n.inputs| && n.inputs[j].Some? && !n.inputs[j].value.optional
                    && var s := n.inputs[j].value.id; !(s in env && env[s].Some? && env[s].value.items != []);
      assert Lacks(n, env, j);
    }
  }

  lemma HandedIs(n: Node, env: Env, ins: seq<Option<Arrival>>)
    ensures Handed(n, env, ins) <==> ins == Arrivals(n, env)
  {
    var all := Arrivals(n, env);
    forall j: nat | j < |n.inputs|
      ensures all[j] == if n.inputs[j].Some? && n.inputs[j].value.id in env && env[n.inputs[j].value.id].Some?
                        then Some(Arrival(n.inputs[j].value.sharding, env[n.inputs[j].value.id].value)) else None
    {
      assert all[j] == ArrivalAt(n, env, j);
    }
  }

  lemma SolvesFollows(c: Composition, env: Env, eval: Evaluation, i: nat)
    requires i < |c.nodes| && Solves(c, env, eval, i)
    ensures Follows(c.nodes[i], env, eval)
  {
    hide Skips, Supplied, Handed, Arrivals;
    var n := c.nodes[i];
    SkipRule(n, env);
    forall k: nat, s: nat | k < |n.outputs| && n.outputs[k] == Some(s)
      ensures s in env && (!Supplied(n, env) ==> env[s] == None)
      ensures Supplied(n, env) ==> forall ins :: Handed(n, env, ins) ==> env[s] == if k < |eval(n, ins)| then eval(n, ins)[k] else None
    {
      assert Produces(c, i, k, s);
      forall ins | Handed(n, env, ins) ensures ins == Arrivals(n, env) {
        HandedIs(n, env, ins);
      }
    }
  }

  /** Topological evaluation satisfies the equations of all functions: a function has the results for
      its inputs as outputs, or none if an input that is not optional holds no items. */
  lemma EvaluatedSolution(c: Composition, inputs: seq<Value>, eval: Evaluation, order: seq<nat>)
    requires OneProducer(c, |inputs|) && Topological(c, |inputs|, order)
    ensures Solution(c, inputs, eval, Evaluated(c, inputs, eval, order))
    ensures forall i: nat :: i < |c.nodes| ==> Follows(c.nodes[i], Evaluated(c, inputs, eval, order), eval)
  {
    hide Solves, OneProducer, Evaluated, Follows;
    EvaluatedPartial(c, inputs, eval, order, |order|);
    assert order[..|order|] == order;
    forall i: nat | i < |c.nodes| ensures Follows(c.nodes[i], Evaluated(c, inputs, eval, order), eval) {
      SolvesFollows(c, Evaluated(c, inputs, eval, order), eval, i);
    }
  }

  /** The values of the outputs of one function are determined by those of its inputs. */
  lemma OutputsDetermined(c: Composition, inputs: seq<Value>, eval: Evaluation, env: Env, other: Env, i: nat, before: seq<nat>)
    requires Solution(c, inputs, eval, env) && Solution(c, inputs, eval, other) && Ready(c, |inputs|, i, before)
    requires forall s: nat :: Known(c, |inputs|, s, before) ==> Val(env, s) == Val(other, s)
    ensures forall k: nat, s: nat :: Produces(c, i, k, s) ==> Val(env, s) == Val(other, s)
  {
    hide Output;
    assert Solves(c, env, eval, i) && Solves(c, other, eval, i);
    SameOutputs(c.nodes[i], env, other, eval);
  }

  lemma {:induction false} KnownDetermined(c: Composition, inputs: seq<Value>, eval: Evaluation, env: Env, other: Env, order: seq<nat>, p: nat)
    requires Solution(c, inputs, eval, env) && Solution(c, inputs, eval, other) && Topological(c, |inputs|, order) && p <= |order|
    ensures forall s: nat :: Known(c, |inputs|, s, order[..p]) ==> Val(env, s) == Val(other, s)
  {
    hide Solution;
    if p == 0 {
      InputsDetermined(c, inputs, eval, env, other);
    } else {
      KnownDetermined(c, inputs, eval, env, other, order, p - 1);
      assert Ready(c, |inputs|, order[p - 1], order[..p - 1]);
      OutputsDetermined(c, inputs, eval, env, other, order[p - 1], order[..p - 1]);
      forall s: nat | Known(c, |inputs|, s, order[..p]) ensures Val(env, s) == Val(other, s) {
        if s >= |inputs| {
          var i: nat, k: nat :| i in order[..p] && Produces(c, i, k, s);
          if i != order[p - 1] {
            assert i in order[..p - 1];
            assert Known(c, |inputs|, s, order[..p - 1]);
          }
        } else {
          assert Known(c, |inputs|, s, order[..p - 1]);
        }
      }
    }
  }

  lemma InputsDetermined(c: Composition, inputs: seq<Value>, eval: Evaluation, env: Env, other: Env)
    requires Solution(c, inputs, eval, env) && Solution(c, inputs, eval, other)
    ensures forall s: nat :: s < |inputs| ==> Val(env, s) == Val(other, s)
  {
    hide Solves;
  }

  /** Topological evaluation does not depend on which topological order is chosen. */
  lemma EvaluationUnique(c: Composition, inputs: seq<Value>, eval: Evaluation, one: seq<nat>, two: seq<nat>, s: nat)
    requires OneProducer(c, |inputs|) && Topological(c, |inputs|, one) && Topological(c, |inputs|, two)
    ensures Val(Evaluated(c, inputs, eval, one), s) == Val(Evaluated(c, inputs, eval, two), s)
  {
    hide Solves, Evaluated, Ready;
    var env, other := Evaluated(c, inputs, eval, one), Evaluated(c, inputs, eval, two);
    EvaluatedSolution(c, inputs, eval, one);
    EvaluatedSolution(c, inputs, eval, two);
    KnownDetermined(c, inputs, eval, env, other, one, |one|);
    assert one[..|one|] == one;
    if s in env || s in other {
      assert Known(c, |inputs|, s, one);
    }
  }
}
