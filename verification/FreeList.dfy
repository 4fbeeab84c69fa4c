/** The free list of promise slots: one thread takes slots, any number of threads put them back,
    interleaved at every access to the list head and the links. */
module FreeLists {
  import opened Common

  /** Where a thread that puts a slot back is: about to load the head, about to link the slot to the
      head it has seen, or about to swap the head. */
  datatype Recycling = Loading | Linking(seen: Option<nat>) | Swapping(seen: Option<nat>)

  /** A slot is in the list, in use by the handles that are alive, or on its way back. */
  datatype Status = Free | Live(promise: bool, debt: bool) | Transit(at: Recycling)

  /** Where the allocating thread is: about to load the head, about to follow the link of the slot it
      has seen, or about to swap the head. */
  datatype Allocating = Idle | Following(current: nat) | Claiming(current: nat, link: Option<nat>)

  /** `next` shares its memory with the data of the slot, so it is arbitrary while the slot is live. */
  datatype State = State(head: Option<nat>, next: seq<Option<nat>>, status: seq<Status>, alloc: Allocating, taken: seq<nat>)

  datatype Step =
    | AllocLoad | AllocFollow | AllocSwap(data: Option<nat>)
    | Use(slot: nat, data: Option<nat>)
    | DropPromise(slot: nat) | DropDebt(slot: nat)
    | RecycleLoad(slot: nat) | RecycleLink(slot: nat) | RecycleSwap(slot: nat)

  predicate Enabled(s: State, step: Step) {
    |s.next| == |s.status| &&
    match step
    case AllocLoad => s.alloc.Idle?
    case AllocFollow => s.alloc.Following? && s.alloc.current < |s.next|
    case AllocSwap(_) => s.alloc.Claiming? && s.alloc.current < |s.next|
    case Use(i, _) => i < |s.status| && s.status[i].Live?
    case DropPromise(i) => i < |s.status| && s.status[i].Live? && s.status[i].promise
    case DropDebt(i) => i < |s.status| && s.status[i].Live? && s.status[i].debt
    case RecycleLoad(i) => i < |s.status| && s.status[i].Transit? && s.status[i].at.Loading?
    case RecycleLink(i) => i < |s.status| && s.status[i].Transit? && s.status[i].at.Linking?
    case RecycleSwap(i) => i < |s.status| && s.status[i].Transit? && s.status[i].at.Swapping?
  }

  function Found(head: Option<nat>): Allocating {
    match head
    case None => Idle
    case Some(c) => Following(c)
  }

  function Take(s: State, step: Step): State
    requires Enabled(s, step)
  {
    match step
    case AllocLoad => s.(alloc := Found(s.head))
    case AllocFollow => s.(alloc := Claiming(s.alloc.current, s.next[s.alloc.current]))
    case AllocSwap(data) =>
      var c := s.alloc.current;
      if s.head == Some(c) then
        State(s.alloc.link, s.next[c := data], s.status[c := Live(true, true)], Idle, s.taken + [c])
      else s.(alloc := Found(s.head))
    case Use(i, data) => s.(next := s.next[i := data])
    case DropPromise(i) => s.(status := s.status[i := if s.status[i].debt then Live(false, true) else Transit(Loading)])
    case DropDebt(i) => s.(status := s.status[i := if s.status[i].promise then Live(true, false) else Transit(Loading)])
    case RecycleLoad(i) => s.(status := s.status[i := Transit(Linking(s.head))])
    case RecycleLink(i) =>
      State(s.head, s.next[i := s.status[i].at.seen], s.status[i := Transit(Swapping(s.status[i].at.seen))], s.alloc, s.taken)
    case RecycleSwap(i) =>
      if s.head == s.status[i].at.seen then State(Some(i), s.next, s.status[i := Free], s.alloc, s.taken)
      else s.(status := s.status[i := Transit(Linking(s.head))])
  }

  // ---------------------------------------------------------------- the list

  function First(chain: seq<nat>): Option<nat> {
    if chain == [] then None else Some(chain[0])
  }

  /** Following the links from the head visits exactly the slots of `chain`, none of them twice. */
  ghost predicate Links(s: State, chain: seq<nat>) {
    && s.head == First(chain)
    && (forall k: nat :: k < |chain| ==> chain[k] < |s.next| && s.next[chain[k]] == First(chain[k + 1..]))
    && (forall k: nat, l: nat :: k < l < |chain| ==> chain[k] != chain[l])
  }

  /** The list holds exactly the free slots; a slot the allocator looks at is still in the list, with
      the link it has read; a slot that is about to be pushed is linked to the head that was seen. */
  ghost predicate Inv(s: State, chain: seq<nat>) {
    && |s.next| == |s.status| && Links(s, chain)
    && (forall i: nat :: i < |s.status| ==> (i in chain <==> s.status[i].Free?))
    && (forall i: nat :: i < |s.status| && s.status[i].Transit? && s.status[i].at.Swapping? ==> s.next[i] == s.status[i].at.seen)
    && (!s.alloc.Idle? ==> s.alloc.current in chain)
    && (s.alloc.Claiming? ==> s.alloc.current < |s.next| && s.next[s.alloc.current] == s.alloc.link)
    && (forall i: nat :: i < |s.status| && s.status[i].Live? ==> s.status[i].promise || s.status[i].debt)
  }

  /** The list after a step. */
  ghost function ChainAfter(s: State, step: Step, chain: seq<nat>): seq<nat>
    requires Enabled(s, step)
  {
    match step
    case AllocSwap(_) => if s.head == Some(s.alloc.current) && chain != [] then chain[1..] else chain
    case RecycleSwap(i) => if s.head == s.status[i].at.seen then [i] + chain else chain
    case _ => chain
  }

  lemma LinksSame(s: State, t: State, chain: seq<nat>)
    requires Links(s, chain) && t.head == s.head && |t.next| == |s.next|
    requires forall i: nat :: i in chain && i < |s.next| ==> t.next[i] == s.next[i]
    ensures Links(t, chain)
  {
  }

  lemma LinksPop(s: State, t: State, chain: seq<nat>)
    requires Links(s, chain) && chain != [] && t.head == s.next[chain[0]] && |t.next| == |s.next|
    requires forall i: nat :: i < |s.next| && i != chain[0] ==> t.next[i] == s.next[i]
    ensures Links(t, chain[1..])
  {
    var rest := chain[1..];
    forall k: nat | k < |rest| ensures rest[k] < |t.next| && t.next[rest[k]] == First(rest[k + 1..]) {
      assert rest[k] == chain[k + 1] && chain[k + 1 + 1..] == rest[k + 1..];
      assert s.next[chain[k + 1]] == First(chain[k + 1 + 1..]);
      assert chain[0] != chain[k + 1];
    }
  }

  lemma LinksPush(s: State, t: State, chain: seq<nat>, i: nat)
    requires Links(s, chain) && i !in chain && i < |s.next| && s.next[i] == s.head && t.head == Some(i) && t.next == s.next
    ensures Links(t, [i] + chain)
  {
    var all := [i] + chain;
    forall k: nat | k < |all| ensures all[k] < |t.next| && t.next[all[k]] == First(all[k + 1..]) {
      assert all[k + 1..] == chain[k..];
      if k > 0 {
        assert s.next[chain[k - 1]] == First(chain[k - 1 + 1..]);
      }
    }
  }

  lemma PopStep(s: State, data: Option<nat>, chain: seq<nat>)
    requires Inv(s, chain) && Enabled(s, AllocSwap(data)) && s.head == Some(s.alloc.current)
    ensures chain != [] && Inv(Take(s, AllocSwap(data)), chain[1..])
  {
    assert chain[0] == s.alloc.current;
    assert chain == [chain[0]] + chain[1..];
    LinksPop(s, Take(s, AllocSwap(data)), chain);
    hide Links;
  }

  lemma PushStep(s: State, i: nat, chain: seq<nat>)
    requires Inv(s, chain) && Enabled(s, RecycleSwap(i)) && s.head == s.status[i].at.seen
    ensures Inv(Take(s, RecycleSwap(i)), [i] + chain)
  {
    LinksPush(s, Take(s, RecycleSwap(i)), chain, i);
    hide Links;
  }

  lemma InvStep(s: State, step: Step, chain: seq<nat>)
    requires Inv(s, chain) && Enabled(s, step)
    ensures Inv(Take(s, step), ChainAfter(s, step, chain))
  {
    if step.AllocSwap? && s.head == Some(s.alloc.current) {
      PopStep(s, step.data, chain);
    } else if step.RecycleSwap? && s.head == s.status[step.slot].at.seen {
      PushStep(s, step.slot, chain);
    } else {
      QuietStep(s, step, chain);
    }
  }

  lemma QuietStep(s: State, step: Step, chain: seq<nat>)
    requires Inv(s, chain) && Enabled(s, step) && ChainAfter(s, step, chain) == chain
    requires step.AllocSwap? ==> s.head != Some(s.alloc.current)
    requires step.RecycleSwap? ==> s.head != s.status[step.slot].at.seen
    ensures Inv(Take(s, step), chain)
  {
    hide Links;
    QuietLinks(s, step, chain);
  }

  lemma QuietLinks(s: State, step: Step, chain: seq<nat>)
    requires Inv(s, chain) && Enabled(s, step) && ChainAfter(s, step, chain) == chain
    requires step.AllocSwap? ==> s.head != Some(s.alloc.current)
    requires step.RecycleSwap? ==> s.head != s.status[step.slot].at.seen
    ensures Links(Take(s, step), chain) && (s.head.Some? ==> s.head.value in chain)
  {
    LinksSame(s, Take(s, step), chain);
  }

  // ---------------------------------------------------------------- all runs

  /** A new buffer: all slots are free, each linked to the next. */
  method NewList(size: nat) returns (s: State)
    requires size > 0
    ensures Init(s, size)
  {
    var next: seq<Option<nat>> := seq(size, _ => None);
    var index: nat := 0;
    while index < size - 1
      invariant index <= size - 1 && |next| == size
      invariant forall i: nat :: i < size ==> next[i] == if i < index then Some(i + 1) else None
    {
      next := next[index := Some(index + 1)];
      index := index + 1;
    }
    return State(Some(0), next, seq(size, _ => Free), Idle, []);
  }

  ghost predicate Init(s: State, size: nat) {
    && size > 0 && s.head == Some(0) && |s.next| == |s.status| == size && s.alloc.Idle? && s.taken == []
    && (forall i: nat :: i < size ==> s.status[i].Free?)
    && (forall i: nat :: i < size ==> s.next[i] == if i + 1 < size then Some(i + 1) else None)
  }

  lemma InitInv(s: State, size: nat)
    requires Init(s, size)
    ensures Inv(s, Counting(size))
  {
    var chain := Counting(size);
    forall k: nat | k < |chain| ensures chain[k] < |s.next| && s.next[chain[k]] == First(chain[k + 1..]) {
      assert chain[k] == k;
      assert k + 1 < size ==> chain[k + 1..][0] == k + 1;
    }
    forall i: nat | i < size ensures i in chain {
      assert chain[i] == i;
    }
  }

  function Counting(size: nat): (c: seq<nat>)
    ensures |c| == size && forall i: nat :: i < size ==> c[i] == i
  {
    seq(size, i requires 0 <= i => i)
  }

  ghost predicate Run(states: seq<State>, size: nat) {
    && states != [] && Init(states[0], size)
    && forall i: nat :: i + 1 < |states| ==> Follows(states[i], states[i + 1])
  }

  ghost predicate Follows(s: State, t: State) {
    exists step: Step :: Enabled(s, step) && t == Take(s, step)
  }

  /** In every state of every run the links from the head form a list without cycles or repetitions
      that holds exactly the free slots, so that no slot is lost or in two places. */
  lemma {:induction false} RunInv(states: seq<State>, size: nat, n: nat) returns (chain: seq<nat>)
    requires Run(states, size) && n < |states|
    ensures Inv(states[n], chain) && |states[n].status| == size
  {
    hide Inv;
    if n == 0 {
      chain := Counting(size);
      InitInv(states[0], size);
    } else {
      var before := RunInv(states, size, n - 1);
      assert Follows(states[n - 1], states[n - 1 + 1]);
      var step: Step :| Enabled(states[n - 1], step) && states[n] == Take(states[n - 1], step);
      InvStep(states[n - 1], step, before);
      chain := ChainAfter(states[n - 1], step, before);
    }
  }

  /** A slot is handed out only while it is free, never while a handle is alive or a thread is
      putting it back. */
  lemma HandedOutWhenFree(states: seq<State>, size: nat, n: nat)
    requires Run(states, size) && n + 1 < |states| && states[n + 1].taken != states[n].taken
    ensures |states[n].status| == size
    ensures exists i: nat :: i < size && states[n + 1].taken == states[n].taken + [i] && states[n].status[i].Free?
  {
    var chain := RunInv(states, size, n);
    assert Follows(states[n], states[n + 1]);
    var step: Step :| Enabled(states[n], step) && states[n + 1] == Take(states[n], step);
    var i := states[n].alloc.current;
    assert i in chain;
    assert states[n + 1].taken == states[n].taken + [i] && states[n].status[i].Free?;
  }

  /** An allocation that is not disturbed hands out a free slot, unless none is free. */
  lemma AllocAlone(states: seq<State>, size: nat, n: nat, data: Option<nat>)
    requires Run(states, size) && n < |states| && states[n].alloc.Idle?
    ensures Enabled(states[n], AllocLoad)
    ensures var s, s1 := states[n], Take(states[n], AllocLoad);
            if forall i: nat :: i < |s.status| ==> !s.status[i].Free? then s1 == s
            else
              && Enabled(s1, AllocFollow) && Enabled(Take(s1, AllocFollow), AllocSwap(data))
              && var t := Take(Take(s1, AllocFollow), AllocSwap(data));
                 && t.alloc.Idle? && |t.taken| == |s.taken| + 1 && |t.status| == |s.status|
                 && var slot := t.taken[|s.taken|]; slot < |s.status| && s.status[slot].Free? && t.status == s.status[slot := Live(true, true)]
  {
    var chain := RunInv(states, size, n);
    var s := states[n];
    if i: nat :| i < |s.status| && s.status[i].Free? {
      assert i in chain;
      assert chain[0] in chain && s.head == Some(chain[0]);
    }
  }

  /** A slot that is put back without being disturbed is free again. */
  lemma RecycleAlone(s: State, i: nat)
    requires Enabled(s, RecycleLoad(i))
    ensures var s1 := Take(s, RecycleLoad(i));
            && Enabled(s1, RecycleLink(i)) && Enabled(Take(s1, RecycleLink(i)), RecycleSwap(i))
            && var t := Take(Take(s1, RecycleLink(i)), RecycleSwap(i));
               t.head == Some(i) && t.next == s.next[i := s.head] && t.status == s.status[i := Free]
  {
  }
}
