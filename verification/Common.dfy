/** Small vocabulary shared by the models: options, results, bytes and the
    ordered-map lookup that Rust's `BTreeMap::range` provides. */
module Common {

  datatype Option<+T> = None | Some(value: T)

  datatype Result<+T> = Ok(value: T) | Err(error: Error) {
    predicate IsFailure() {
      Err?
    }

    function PropagateFailure<U>(): Result<U>
      requires IsFailure()
    {
      Err(error)
    }

    function Extract(): T
      requires !IsFailure()
    {
      value
    }
  }

  datatype Error =
    | InvalidRead
    | InvalidWrite
    | ReadMisaligned
    | WriteMisaligned
    | ContextFull
    | StreamEnd
    | MalformedMessage
    | ViolatedSpec
    | CompositionCombine
    | Panic
    | Stuck

  /** Bytes in a page. */
  const PAGE_SIZE: nat := 4096

  /** One octet. */
  type byte = x: int | 0 <= x < 256

  function Min(a: nat, b: nat): nat {
    if a < b then a else b
  }

  /** Quotient and remainder are determined by what they have to satisfy. */
  lemma Quotient(x: nat, a: nat, q: nat, r: nat)
    requires 0 < a && r < a && x == a * q + r
    ensures x % a == r && x / a == q
  {
    var d := q - x / a;
    assert a * d == a * q - a * (x / a);
    assert a * d == x % a - r;
    AtLeast(a, d);
  }

  lemma AtLeast(a: int, d: int)
    requires a > 0
    ensures d >= 1 ==> a * d >= a
    ensures d <= -1 ==> a * d <= -a
  {
  }

  ghost predicate IsLeast(x: nat, s: set<nat>) {
    x in s && forall y :: y in s ==> x <= y
  }

  function Least(s: set<nat>): (x: nat)
    requires s != {}
    ensures IsLeast(x, s)
  {
    LeastExists(s);
    var x :| x in s && forall y :: y in s ==> x <= y;
    x
  }

  lemma {:induction false} LeastExists(s: set<nat>)
    requires s != {}
    ensures exists x :: IsLeast(x, s)
  {
    var x :| x in s;
    var rest := s - {x};
    if rest == {} {
      assert s == {x};
      assert IsLeast(x, s);
    } else {
      LeastExists(rest);
      var z :| IsLeast(z, rest);
      assert forall y :: y in s ==> y == x || y in rest;
      assert IsLeast(if x <= z then x else z, s);
    }
  }

  /** First key of `m.range(from..)`, if there is one. */
  function NextKey<V>(m: map<nat, V>, from: nat): (r: Option<nat>)
    ensures r.Some? ==> r.value in m && r.value >= from
    ensures r.Some? ==> forall k :: k in m && k >= from ==> r.value <= k
    ensures r.None? ==> forall k :: k in m ==> k < from
  {
    var ks := set k | k in m.Keys && k >= from;
    assert forall k :: k in m && k >= from ==> k in ks;
    if ks == {} then None else Some(Least(ks))
  }
}
