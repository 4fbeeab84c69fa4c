/** The work queue: engines draw tickets and take work one after the other, interleaved at every
    access to the tickets and to the locked list. */
module WorkQueues {
  import opened Common

  /** Work with the engines that can do it; `serial` counts pushes. */
  datatype Element = Element(serial: nat, flags: bv32, work: nat)

  /** Where an engine is: not in the queue, about to draw the ticket it has seen as next, waiting for
      its turn, in the section, or about to leave it. */
  datatype Pc = Outside | Trying(head: nat) | Waiting(ticket: nat) | Inside(ticket: nat) | Leaving(ticket: nat)

  datatype Engine = Engine(flags: bv32, pc: Pc)

  datatype Handover = Handover(engine: nat, element: Element)

  datatype State = State(start: nat, end: nat, engines: seq<Engine>, queue: seq<Element>, pushed: nat, handed: seq<Handover>)

  datatype Step =
    | Push(flags: bv32, work: nat)
    | TryLoad(engine: nat) | TryDraw(engine: nat)
    | Draw(engine: nat) | Check(engine: nat)
    | Extract(engine: nat) | Leave(engine: nat)

  /** An engine with `flags` can do work with flags `f`. */
  predicate Matches(f: bv32, flags: bv32) {
    f & flags == flags
  }

  predicate Bit(f: bv32, i: bv32) {
    i < 32 && (f >> i) & 1 == 1
  }

  /** Every flag in `flags` is set in `f`. */
  ghost predicate Has(f: bv32, flags: bv32) {
    forall i: bv32 :: Bit(flags, i) ==> Bit(f, i)
  }

  lemma BitKept(f: bv32, flags: bv32, i: bv32)
    requires f & flags == flags && Bit(flags, i)
    ensures Bit(f, i)
  {
  }

  lemma {:induction false} LowBits(x: bv32, k: bv32)
    requires 0 < k <= 32 && forall i: bv32 :: i < k ==> !Bit(x, i)
    ensures x << (32 - k) == 0
    decreases k
  {
    assert !Bit(x, k - 1);
    if k > 1 {
      LowBits(x, k - 1);
      NextBit(x, k);
    }
  }

  lemma NextBit(x: bv32, k: bv32)
    requires 1 < k <= 32 && x << (32 - (k - 1)) == 0 && !Bit(x, k - 1)
    ensures x << (32 - k) == 0
  {
  }

  /** `x` are the flags that `f` lacks. */
  lemma LackingBit(f: bv32, flags: bv32, x: bv32, i: bv32)
    requires x == flags & !f
    ensures Bit(x, i) <==> Bit(flags, i) && !Bit(f, i)
  {
  }

  lemma NothingLacks(f: bv32, flags: bv32, x: bv32)
    requires x == flags & !f && x << 0 == 0
    ensures f & flags == flags
  {
  }

  lemma HasAll(f: bv32, flags: bv32, x: bv32)
    requires x == flags & !f && Has(f, flags)
    ensures f & flags == flags
  {
    forall i: bv32 ensures !Bit(x, i) {
      LackingBit(f, flags, x, i);
    }
    LowBits(x, 32);
    NothingLacks(f, flags, x);
  }

  /** An engine can do an element if and only if the element has every flag of the engine. */
  lemma MatchesBits(f: bv32, flags: bv32)
    ensures Matches(f, flags) <==> Has(f, flags)
  {
    hide Has, Bit;
    if Matches(f, flags) {
      KeptAll(f, flags);
    }
    if Has(f, flags) {
      HasAll(f, flags, flags & !f);
    }
  }

  lemma KeptAll(f: bv32, flags: bv32)
    requires f & flags == flags
    ensures Has(f, flags)
  {
    hide Bit;
    forall i: bv32 | Bit(flags, i) ensures Bit(f, i) {
      BitKept(f, flags, i);
    }
  }

  /** Index of the first element that an engine with these flags can take. */
  function FirstMatch(queue: seq<Element>, flags: bv32): (r: Option<nat>)
    ensures r.Some? ==> r.value < |queue| && Matches(queue[r.value].flags, flags) && forall k: nat :: k < r.value ==> !Matches(queue[k].flags, flags)
    ensures r.None? ==> forall k: nat :: k < |queue| ==> !Matches(queue[k].flags, flags)
  {
    if queue == [] then None
    else if Matches(queue[0].flags, flags) then Some(0)
    else
      var r := FirstMatch(queue[1..], flags);
      assert forall k: nat :: 0 < k < |queue| ==> queue[k] == queue[1..][k - 1];
      if r.None? then None else Some(r.value + 1)
  }

  predicate Enabled(s: State, step: Step) {
    match step
    case Push(_, _) => true
    case TryLoad(i) => i < |s.engines| && s.engines[i].pc.Outside?
    case TryDraw(i) => i < |s.engines| && s.engines[i].pc.Trying?
    case Draw(i) => i < |s.engines| && s.engines[i].pc.Outside?
    case Check(i) => i < |s.engines| && s.engines[i].pc.Waiting?
    case Extract(i) => i < |s.engines| && s.engines[i].pc.Inside?
    case Leave(i) => i < |s.engines| && s.engines[i].pc.Leaving?
  }

  function At(engines: seq<Engine>, i: nat, pc: Pc): seq<Engine>
    requires i < |engines|
  {
    engines[i := Engine(engines[i].flags, pc)]
  }

  function Take(s: State, step: Step): State
    requires Enabled(s, step)
  {
    match step
    case Push(flags, work) => s.(queue := s.queue + [Element(s.pushed, flags, work)], pushed := s.pushed + 1)
    case TryLoad(i) => s.(engines := At(s.engines, i, Trying(s.start)))
    case TryDraw(i) =>
      var h := s.engines[i].pc.head;
      if s.end == h then s.(end := h + 1, engines := At(s.engines, i, Inside(h))) else s.(engines := At(s.engines, i, Outside))
    case Draw(i) => s.(end := s.end + 1, engines := At(s.engines, i, Waiting(s.end)))
    case Check(i) => if s.start == s.engines[i].pc.ticket then s.(engines := At(s.engines, i, Inside(s.start))) else s
    case Extract(i) =>
      var k := FirstMatch(s.queue, s.engines[i].flags);
      var t := s.(engines := At(s.engines, i, Leaving(s.engines[i].pc.ticket)));
      if k.None? then t
      else t.(queue := s.queue[..k.value] + s.queue[k.value + 1..], handed := s.handed + [Handover(i, s.queue[k.value])])
    case Leave(i) => s.(start := s.start + 1, engines := At(s.engines, i, Outside))
  }

  // ---------------------------------------------------------------- tickets

  ghost predicate Holds(s: State, i: nat, t: nat) {
    i < |s.engines| &&
    match s.engines[i].pc
    case Waiting(x) => x == t
    case Inside(x) => x == t
    case Leaving(x) => x == t
    case _ => false
  }

  ghost predicate Out(s: State, t: nat) {
    exists i: nat :: Holds(s, i, t)
  }

  ghost predicate InSection(s: State, i: nat) {
    i < |s.engines| && (s.engines[i].pc.Inside? || s.engines[i].pc.Leaving?)
  }

  /** Tickets from `start` up to `end` are out, each with one engine; only the engine with ticket
      `start` is in the section; a head that was seen is not ahead of `start`. */
  ghost predicate Tickets(s: State) {
    && s.start <= s.end
    && (forall i: nat, t: nat :: Holds(s, i, t) ==> s.start <= t < s.end)
    && (forall i: nat, j: nat, t: nat :: Holds(s, i, t) && Holds(s, j, t) ==> i == j)
    && (forall t: nat :: s.start <= t < s.end ==> Out(s, t))
    && (forall i: nat :: InSection(s, i) ==> Holds(s, i, s.start))
    && (forall i: nat :: i < |s.engines| && s.engines[i].pc.Trying? ==> s.engines[i].pc.head <= s.start)
  }

  lemma DrawKeeps(s: State, i: nat, pc: Pc)
    requires Tickets(s) && i < |s.engines| && (s.engines[i].pc.Outside? || s.engines[i].pc.Trying?)
    requires pc == Waiting(s.end) || (pc == Inside(s.end) && s.start == s.end)
    ensures Tickets(s.(end := s.end + 1, engines := At(s.engines, i, pc)))
  {
    var t := s.(end := s.end + 1, engines := At(s.engines, i, pc));
    forall j: nat, x: nat ensures Holds(t, j, x) == if j == i then x == s.end else Holds(s, j, x) {
    }
    forall x: nat | t.start <= x < t.end ensures Out(t, x) {
      if x < s.end {
        assert Out(s, x);
        var j: nat :| Holds(s, j, x);
        assert Holds(t, j, x);
      } else {
        assert Holds(t, i, x);
      }
    }
  }

  lemma OnlyOne(s: State, i: nat, j: nat)
    requires Tickets(s) && InSection(s, i) && InSection(s, j)
    ensures i == j
  {
    assert Holds(s, i, s.start) && Holds(s, j, s.start);
  }

  lemma LeaveKeeps(s: State, i: nat)
    requires Tickets(s) && i < |s.engines| && s.engines[i].pc.Leaving?
    ensures Tickets(s.(start := s.start + 1, engines := At(s.engines, i, Outside)))
  {
    var t := s.(start := s.start + 1, engines := At(s.engines, i, Outside));
    assert InSection(s, i) && Holds(s, i, s.start);
    forall j: nat, x: nat ensures Holds(t, j, x) == (j != i && Holds(s, j, x)) {
    }
    forall x: nat | t.start <= x < t.end ensures Out(t, x) {
      assert Out(s, x);
      var j: nat :| Holds(s, j, x);
      assert Holds(t, j, x);
    }
    forall j: nat ensures !InSection(t, j) {
      if InSection(s, j) {
        OnlyOne(s, i, j);
      }
    }
  }

  lemma StayKeeps(s: State, t: State, i: nat, pc: Pc)
    requires Tickets(s) && i < |s.engines| && t.engines == At(s.engines, i, pc) && t.start == s.start && t.end == s.end
    requires forall x: nat :: Holds(t, i, x) == Holds(s, i, x)
    requires InSection(t, i) ==> Holds(s, i, s.start)
    requires pc.Trying? ==> pc.head <= s.start
    ensures Tickets(t)
  {
    forall j: nat, x: nat ensures Holds(t, j, x) == Holds(s, j, x) {
    }
    forall x: nat | t.start <= x < t.end ensures Out(t, x) {
      assert Out(s, x);
      var j: nat :| Holds(s, j, x);
      assert Holds(t, j, x);
    }
  }

  lemma TicketsStep(s: State, step: Step)
    requires Tickets(s) && Enabled(s, step)
    ensures Tickets(Take(s, step))
  {
    var t := Take(s, step);
    match step
    case Push(_, _) =>
      SameEngines(s, t);
    case TryLoad(i) =>
      StayKeeps(s, t, i, Trying(s.start));
    case TryDraw(i) =>
      if s.end == s.engines[i].pc.head {
        DrawKeeps(s, i, Inside(s.end));
      } else {
        StayKeeps(s, t, i, Outside);
      }
    case Draw(i) =>
      DrawKeeps(s, i, Waiting(s.end));
    case Check(i) =>
      if s.start == s.engines[i].pc.ticket {
        assert Holds(s, i, s.start);
        StayKeeps(s, t, i, Inside(s.start));
      }
    case Extract(i) =>
      assert InSection(s, i);
      StayKeeps(s, t, i, Leaving(s.engines[i].pc.ticket));
    case Leave(i) =>
      LeaveKeeps(s, i);
  }

  lemma SameEngines(s: State, t: State)
    requires Tickets(s) && t.engines == s.engines && t.start == s.start && t.end == s.end
    ensures Tickets(t)
  {
    forall j: nat, x: nat ensures Holds(t, j, x) == Holds(s, j, x) {
    }
    forall x: nat | t.start <= x < t.end ensures Out(t, x) {
      assert Out(s, x);
      var j: nat :| Holds(s, j, x);
      assert Holds(t, j, x);
    }
  }

  // ---------------------------------------------------------------- work

  ghost predicate Queued(s: State, n: nat) {
    exists k: nat :: k < |s.queue| && s.queue[k].serial == n
  }

  ghost predicate Handed(s: State, n: nat) {
    exists k: nat :: k < |s.handed| && s.handed[k].element.serial == n
  }

  /** Every pushed element is in the queue or was handed to one engine, which can do it; the queue is
      in the order of the pushes. */
  ghost predicate Work(s: State) {
    && (forall k: nat, l: nat :: k < l < |s.queue| ==> s.queue[k].serial < s.queue[l].serial)
    && (forall k: nat :: k < |s.queue| ==> s.queue[k].serial < s.pushed && !Handed(s, s.queue[k].serial))
    && (forall k: nat, l: nat :: k < l < |s.handed| ==> s.handed[k].element.serial != s.handed[l].element.serial)
    && (forall k: nat :: k < |s.handed| ==> s.handed[k].element.serial < s.pushed)
    && (forall k: nat :: k < |s.handed| ==> s.handed[k].engine < |s.engines| && Matches(s.handed[k].element.flags, s.engines[s.handed[k].engine].flags))
    && (forall n: nat :: n < s.pushed ==> Queued(s, n) || Handed(s, n))
  }

  lemma PushKeeps(s: State, e: Element)
    requires Work(s) && e.serial == s.pushed
    ensures Work(s.(queue := s.queue + [e], pushed := s.pushed + 1))
  {
    hide Matches;
    var t := s.(queue := s.queue + [e], pushed := s.pushed + 1);
    forall n: nat | n < t.pushed ensures Queued(t, n) || Handed(t, n) {
      if n == s.pushed {
        assert t.queue[|s.queue|].serial == n;
      } else if Queued(s, n) {
        var k: nat :| k < |s.queue| && s.queue[k].serial == n;
        assert t.queue[k].serial == n;
      } else {
        assert Handed(s, n);
        var k: nat :| k < |s.handed| && s.handed[k].element.serial == n;
        assert t.handed[k].element.serial == n;
      }
    }
    forall k: nat | k < |t.queue| ensures t.queue[k].serial < t.pushed && !Handed(t, t.queue[k].serial) {
      HandedSame(s, t, t.queue[k].serial);
    }
  }

  lemma HandedSame(s: State, t: State, n: nat)
    requires t.handed == s.handed
    ensures Handed(t, n) == Handed(s, n)
  {
  }

  lemma ExtractKeeps(s: State, t: State, i: nat, k: nat)
    requires Work(s) && i < |s.engines| && k < |s.queue| && Matches(s.queue[k].flags, s.engines[i].flags)
    requires |t.engines| == |s.engines| && forall j: nat :: j < |s.engines| ==> t.engines[j].flags == s.engines[j].flags
    requires t.queue == s.queue[..k] + s.queue[k + 1..] && t.pushed == s.pushed && t.handed == s.handed + [Handover(i, s.queue[k])]
    ensures Work(t)
  {
    hide Matches, Handed, Queued;
    var e := s.queue[k];
    forall n: nat ensures Handed(t, n) <==> Handed(s, n) || n == e.serial {
      HandedMore(s, t, Handover(i, e), n);
    }
    forall n: nat | n < t.pushed ensures Queued(t, n) || Handed(t, n) {
      if n != e.serial && Queued(s, n) {
        StillQueued(s, t, k, n);
      }
    }
    forall l: nat | l < |t.queue| ensures t.queue[l].serial < t.pushed && !Handed(t, t.queue[l].serial) {
      assert t.queue[l] == s.queue[if l < k then l else l + 1];
    }
    forall a: nat, b: nat | a < b < |t.queue| ensures t.queue[a].serial < t.queue[b].serial {
      assert t.queue[a] == s.queue[if a < k then a else a + 1] && t.queue[b] == s.queue[if b < k then b else b + 1];
    }
    forall a: nat, b: nat | a < b < |t.handed| ensures t.handed[a].element.serial != t.handed[b].element.serial {
      HandedAt(s, a);
      assert t.handed[a] == s.handed[a];
    }
  }

  lemma HandedAt(s: State, a: nat)
    requires a < |s.handed|
    ensures Handed(s, s.handed[a].element.serial)
  {
  }

  lemma StillQueued(s: State, t: State, k: nat, n: nat)
    requires k < |s.queue| && t.queue == s.queue[..k] + s.queue[k + 1..] && Queued(s, n) && n != s.queue[k].serial
    ensures Queued(t, n)
  {
    var l: nat :| l < |s.queue| && s.queue[l].serial == n;
    assert t.queue[if l < k then l else l - 1].serial == n;
  }

  lemma HandedMore(s: State, t: State, h: Handover, n: nat)
    requires t.handed == s.handed + [h]
    ensures Handed(t, n) <==> Handed(s, n) || n == h.element.serial
  {
    if Handed(s, n) {
      var k: nat :| k < |s.handed| && s.handed[k].element.serial == n;
      assert t.handed[k].element.serial == n;
    }
    if n == h.element.serial {
      assert t.handed[|s.handed|].element.serial == n;
    }
  }

  lemma WorkStep(s: State, step: Step)
    requires Work(s) && Enabled(s, step)
    ensures Work(Take(s, step))
  {
    var t := Take(s, step);
    if step.Push? {
      PushKeeps(s, Element(s.pushed, step.flags, step.work));
    } else if step.Extract? && FirstMatch(s.queue, s.engines[step.engine].flags).Some? {
      ExtractKeeps(s, t, step.engine, FirstMatch(s.queue, s.engines[step.engine].flags).value);
    } else {
      OnlyEngines(s, t);
    }
  }

  lemma OnlyEngines(s: State, t: State)
    requires Work(s) && t.queue == s.queue && t.handed == s.handed && t.pushed == s.pushed
    requires |t.engines| == |s.engines| && forall j: nat :: j < |s.engines| ==> t.engines[j].flags == s.engines[j].flags
    ensures Work(t)
  {
    hide Matches;
    forall n: nat ensures Handed(t, n) == Handed(s, n) && Queued(t, n) == Queued(s, n) {
    }
  }

  // ---------------------------------------------------------------- all runs

  ghost predicate Init(s: State) {
    && s.start == s.end == s.pushed == 0 && s.queue == [] && s.handed == []
    && forall i: nat :: i < |s.engines| ==> s.engines[i].pc.Outside?
  }

  ghost predicate Run(states: seq<State>) {
    && states != [] && Init(states[0])
    && forall i: nat :: i + 1 < |states| ==> Follows(states[i], states[i + 1])
  }

  ghost predicate Follows(s: State, t: State) {
    exists step: Step :: Enabled(s, step) && t == Take(s, step)
  }

  /** In every state of every run the tickets that are out are distinct and complete, and every
      pushed element is queued or was handed to exactly one engine that can do it. */
  lemma {:induction false} RunInv(states: seq<State>, n: nat)
    requires Run(states) && n < |states|
    ensures Tickets(states[n]) && Work(states[n]) && Fitting(states[n])
  {
    hide Tickets, Work, Take, Fitting;
    if n == 0 {
      InitInv(states[0]);
    } else {
      RunInv(states, n - 1);
      assert Follows(states[n - 1], states[n - 1 + 1]);
      var step: Step :| Enabled(states[n - 1], step) && states[n] == Take(states[n - 1], step);
      TicketsStep(states[n - 1], step);
      WorkStep(states[n - 1], step);
    }
    WorkFits(states[n]);
  }

  /** Every element that was handed over has every flag of the engine that got it. */
  ghost predicate Fitting(s: State) {
    forall k: nat :: k < |s.handed| ==> s.handed[k].engine < |s.engines| && Has(s.handed[k].element.flags, s.engines[s.handed[k].engine].flags)
  }

  lemma WorkFits(s: State)
    requires Work(s)
    ensures Fitting(s)
  {
    hide Matches, Has;
    forall k: nat | k < |s.handed| ensures s.handed[k].engine < |s.engines| && Has(s.handed[k].element.flags, s.engines[s.handed[k].engine].flags) {
      MatchesBits(s.handed[k].element.flags, s.engines[s.handed[k].engine].flags);
    }
  }

  lemma InitInv(s: State)
    requires Init(s)
    ensures Tickets(s) && Work(s)
  {
  }

  /** At most one engine is in the section, and an engine that gets in without waiting has its turn. */
  lemma OneInSection(states: seq<State>, n: nat, i: nat, j: nat)
    requires Run(states) && n < |states| && InSection(states[n], i) && InSection(states[n], j)
    ensures i == j && Holds(states[n], i, states[n].start)
  {
    RunInv(states, n);
  }

  /** What an engine takes is the earliest pushed element among those in the queue that it can do. */
  lemma TakesEarliest(states: seq<State>, n: nat, i: nat, k: nat)
    requires Run(states) && n < |states| && Enabled(states[n], Extract(i))
    requires k < |states[n].queue| && Has(states[n].queue[k].flags, states[n].engines[i].flags)
    ensures var t := Take(states[n], Extract(i));
            && |t.handed| == |states[n].handed| + 1 && t.handed[|t.handed| - 1].engine == i
            && Has(t.handed[|t.handed| - 1].element.flags, states[n].engines[i].flags)
            && t.handed[|t.handed| - 1].element.serial <= states[n].queue[k].serial
  {
    hide Matches, Has;
    RunInv(states, n);
    MatchesBits(states[n].queue[k].flags, states[n].engines[i].flags);
    var first := FirstMatch(states[n].queue, states[n].engines[i].flags).value;
    assert first <= k;
    MatchesBits(states[n].queue[first].flags, states[n].engines[i].flags);
  }

  /** An engine that finds no ticket out gets in without waiting, takes the earliest element it can do,
      if there is one, and leaves no ticket out. */
  lemma AloneGetsWork(states: seq<State>, n: nat, i: nat)
    requires Run(states) && n < |states| && i < |states[n].engines| && states[n].engines[i].pc.Outside? && states[n].start == states[n].end
    ensures Enabled(states[n], TryLoad(i))
    ensures var s1 := Take(states[n], TryLoad(i));
            && Enabled(s1, TryDraw(i)) && Enabled(Take(s1, TryDraw(i)), Extract(i))
            && var s3 := Take(Take(s1, TryDraw(i)), Extract(i));
               && Enabled(s3, Leave(i))
               && var t := Take(s3, Leave(i));
                  && t.start == t.end && t.engines[i].pc.Outside?
                  && ((exists k: nat :: CanDo(states[n], i, k)) ==> EarliestTaken(states[n], t, i))
                  && ((forall k: nat :: !CanDo(states[n], i, k)) ==> t.queue == states[n].queue && t.handed == states[n].handed)
  {
    hide Matches, Has;
    var s := states[n];
    forall k: nat | k < |s.queue| ensures Matches(s.queue[k].flags, s.engines[i].flags) <==> CanDo(s, i, k) {
      MatchesBits(s.queue[k].flags, s.engines[i].flags);
    }
    var first := FirstMatch(s.queue, s.engines[i].flags);
    if first.Some? {
      assert CanDo(s, i, first.value);
    }
  }

  ghost predicate CanDo(s: State, i: nat, k: nat) {
    i < |s.engines| && k < |s.queue| && Has(s.queue[k].flags, s.engines[i].flags)
  }

  /** Engine `i` got the first element of the queue that it can do, and no other is gone. */
  ghost predicate EarliestTaken(s: State, t: State, i: nat) {
    exists k: nat :: CanDo(s, i, k) && (forall l: nat :: l < k ==> !CanDo(s, i, l)) &&
                     t.queue == s.queue[..k] + s.queue[k + 1..] && t.handed == s.handed + [Handover(i, s.queue[k])]
  }
}
