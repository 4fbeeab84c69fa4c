/** One promise and its debt: polling, fulfilling and dropping, interleaved at every access to the
    shared flags and cells. */
module Promises {
  import opened Common

  // ---------------------------------------------------------------- the flag byte

  const WAKER_INDEX: bv8 := 0x01
  const DEBT_ALIVE: bv8 := 0x10
  const PROMISE_ALIVE: bv8 := 0x20
  const CONTENT_SET: bv8 := 0x40

  datatype Flags = Flags(index: bool, debt: bool, promise: bool, content: bool)

  function Decode(f: bv8): Flags {
    Flags(f & WAKER_INDEX != 0, f & DEBT_ALIVE != 0, f & PROMISE_ALIVE != 0, f & CONTENT_SET != 0)
  }

  /** What the operations on the byte do to the flags. */
  lemma FlagOperations(f: bv8)
    ensures Decode((f ^ WAKER_INDEX) & !CONTENT_SET) == Decode(f).(index := !Decode(f).index, content := false)
    ensures Decode(f | CONTENT_SET) == Decode(f).(content := true)
    ensures Decode(f & !DEBT_ALIVE) == Decode(f).(debt := false)
    ensures Decode(f & !PROMISE_ALIVE) == Decode(f).(promise := false)
    ensures ((f & WAKER_INDEX) ^ WAKER_INDEX == 0) == Decode(f).index
    ensures ((f & !DEBT_ALIVE) & (DEBT_ALIVE | PROMISE_ALIVE) == 0) == !Decode(f).promise
    ensures ((f & !PROMISE_ALIVE) & (DEBT_ALIVE | PROMISE_ALIVE) == 0) == !Decode(f).debt
  {
  }

  /** The test that should let a dropped debt resolve its promise never succeeds. */
  lemma DropGuardNeverHolds(f: bv8)
    ensures f & PROMISE_ALIVE != 1
  {
  }

  // ---------------------------------------------------------------- state

  datatype Cell = Default | Written(value: nat) | Taken

  /** Where a poll is: not running, about to store its waker, about to swap the flags, or about to
      take the result. */
  datatype PollPc = Resting | Loaded(seen: Flags, waker: nat) | Stored(seen: Flags, waker: nat) | Taking

  /** Where the debt is: nothing done, result stored, about to take the waker, or fulfilled. */
  datatype DebtPc = Owing | ResultStored | Waking(index: bool) | Fulfilled

  datatype State = State(
    flags: Flags,
    waker0: Option<nat>,
    waker1: Option<nat>,
    result: Cell,
    poll: PollPc,
    debt: DebtPc,
    returned: seq<Cell>,
    pending: Option<nat>,
    woken: set<nat>,
    recycled: nat)

  function WakerAt(s: State, index: bool): Option<nat> {
    if index then s.waker1 else s.waker0
  }

  function WithWaker(s: State, index: bool, w: Option<nat>): State {
    if index then s.(waker1 := w) else s.(waker0 := w)
  }

  ghost predicate Init(s: State) {
    s == State(Flags(false, true, true, false), None, None, Default, Resting, Owing, [], None, {}, 0)
  }

  // ---------------------------------------------------------------- steps

  datatype Step =
    | PollLoad(waker: nat) | PollStore | PollSwap | PollTake | PromiseDrop
    | FulfillStore(value: nat) | FulfillSet | FulfillWake | DebtDrop

  /** Whether a side is at the point where it takes this step; a promise that has returned its
      result is not polled again. */
  predicate Enabled(s: State, step: Step) {
    match step
    case PollLoad(_) => s.poll.Resting? && s.flags.promise && s.returned == []
    case PollStore => s.poll.Loaded?
    case PollSwap => s.poll.Stored?
    case PollTake => s.poll.Taking?
    case PromiseDrop => s.poll.Resting? && s.flags.promise
    case FulfillStore(_) => s.debt.Owing? && s.flags.debt
    case FulfillSet => s.debt.ResultStored?
    case FulfillWake => s.debt.Waking?
    case DebtDrop => (s.debt.Owing? || s.debt.Fulfilled?) && s.flags.debt
  }

  function Take(s: State, step: Step): State
    requires Enabled(s, step)
  {
    match step
    case PollLoad(w) => s.(poll := Loaded(s.flags, w), pending := None)
    case PollStore => WithWaker(s, !s.poll.seen.index, Some(s.poll.waker)).(poll := Stored(s.poll.seen, s.poll.waker))
    case PollSwap =>
      var current := s.flags;
      var t := if current == s.poll.seen then s.(flags := current.(index := !current.index, content := false)) else s;
      if current.content then t.(poll := Taking) else t.(poll := Resting, pending := Some(s.poll.waker))
    case PollTake => s.(poll := Resting, returned := s.returned + [s.result], result := Taken)
    case PromiseDrop => s.(flags := s.flags.(promise := false), recycled := s.recycled + if s.flags.debt then 0 else 1)
    case FulfillStore(v) => s.(result := Written(v), debt := ResultStored)
    case FulfillSet => s.(flags := s.flags.(content := true), debt := Waking(s.flags.index))
    case FulfillWake =>
      var w := WakerAt(s, s.debt.index);
      WithWaker(s, s.debt.index, None).(debt := Fulfilled, woken := s.woken + if w.Some? then {w.value} else {})
    case DebtDrop => s.(flags := s.flags.(debt := false), recycled := s.recycled + if s.flags.promise then 0 else 1)
  }

  // ---------------------------------------------------------------- safety

  ghost predicate InPoll(s: State) {
    s.poll.Loaded? || s.poll.Stored?
  }

  ghost predicate Set(s: State) {
    s.debt.Waking? || s.debt.Fulfilled?
  }

  /** The debt was dropped without having been fulfilled. */
  ghost predicate Unpaid(s: State) {
    s.debt.Owing? && !s.flags.debt
  }

  ghost predicate Inv(s: State) {
    && (InPoll(s) ==> s.poll.seen.index == s.flags.index && (s.poll.seen.content ==> s.flags.content) && s.poll.seen.promise && s.flags.promise && s.returned == [])
    && (InPoll(s) && s.poll.seen != s.flags ==> s.flags.content || Unpaid(s))
    && (s.poll.Stored? ==> WakerAt(s, !s.flags.index) == Some(s.poll.waker))
    && (s.poll.Taking? ==> s.flags.promise && s.returned == [] && Set(s))
    && (s.flags.content ==> Set(s))
    && (Set(s) && s.returned == [] && !s.poll.Taking? ==> s.flags.content && (s.debt.Waking? ==> s.debt.index == s.flags.index))
    && (s.debt.Owing? ==> s.result == Default)
    && (!s.debt.Owing? && s.returned == [] ==> s.result.Written?)
    && |s.returned| <= 1 && (s.returned != [] ==> Set(s) && s.returned[0].Written?)
    && (s.pending.Some? ==> s.poll.Resting? && s.returned == [])
    && (s.pending.Some? && !s.debt.Fulfilled? && !Unpaid(s) ==> WakerAt(s, s.flags.index) == s.pending)
    && (s.pending.Some? && s.debt.Fulfilled? ==> s.pending.value in s.woken)
    && (s.debt.ResultStored? || s.debt.Waking? ==> s.flags.debt)
    && s.recycled == if s.flags.promise || s.flags.debt then 0 else 1
  }

  lemma InvStep(s: State, step: Step)
    requires Inv(s) && Enabled(s, step)
    ensures Inv(Take(s, step))
  {
  }

  // ---------------------------------------------------------------- all runs

  /** The states of a run, each reached from the one before by some step of one of the sides. */
  ghost predicate Run(states: seq<State>) {
    && states != [] && Init(states[0])
    && forall i: nat :: i + 1 < |states| ==> Follows(states[i], states[i + 1])
  }

  ghost predicate Follows(s: State, t: State) {
    exists step: Step :: Enabled(s, step) && t == Take(s, step)
  }

  lemma {:induction false} RunInv(states: seq<State>, n: nat)
    requires Run(states) && n < |states|
    ensures Inv(states[n])
  {
    hide Inv, Take;
    if n == 0 {
      InitInv(states[0]);
    } else {
      RunInv(states, n - 1);
      assert Follows(states[n - 1], states[n - 1 + 1]);
      var step: Step :| Enabled(states[n - 1], step) && states[n] == Take(states[n - 1], step);
      InvStep(states[n - 1], step);
    }
  }

  lemma InitInv(s: State)
    requires Init(s)
    ensures Inv(s)
  {
  }

  /** In every state of every run the two sides are at different wakers, at most one result has been
      returned and it was stored before, a promise whose last poll was pending has been woken for
      it once the debt is fulfilled, and the slot has been recycled once if both sides are gone
      and not before. */
  lemma Safety(states: seq<State>, n: nat)
    requires Run(states) && n < |states|
    ensures var s := states[n];
            && (s.poll.Loaded? && s.debt.Waking? ==> !s.poll.seen.index != s.debt.index)
            && |s.returned| <= 1 && (s.returned != [] ==> s.returned[0].Written?)
            && (s.poll.Taking? ==> s.result.Written?)
            && (s.pending.Some? && s.debt.Fulfilled? ==> s.pending.value in s.woken)
            && s.recycled <= 1
            && (s.recycled == 1 <==> !s.flags.promise && !s.flags.debt)
            && (s.recycled == 1 ==> s.poll.Resting? && (s.debt.Owing? || s.debt.Fulfilled?))
  {
    RunInv(states, n);
  }

  /** The value that a run returns is the one the debt was fulfilled with. */
  ghost predicate Paid(s: State, v: nat) {
    && !s.debt.Owing?
    && (s.result == Written(v) || (s.returned == [Written(v)] && s.result == Taken))
    && (s.returned == [] || s.returned == [Written(v)])
  }

  lemma PaidStep(s: State, step: Step, v: nat)
    requires Inv(s) && Paid(s, v) && Enabled(s, step)
    ensures Paid(Take(s, step), v)
  {
  }

  lemma {:induction false} ReturnsWhatWasPaid(states: seq<State>, m: nat, n: nat, v: nat)
    requires Run(states) && m <= n < |states| && states[m].debt.ResultStored? && states[m].result == Written(v)
    ensures states[n].returned == [] || states[n].returned == [Written(v)]
    ensures Paid(states[n], v)
    decreases n
  {
    hide Take;
    if n == m {
      RunInv(states, n);
    } else {
      ReturnsWhatWasPaid(states, m, n - 1, v);
      RunInv(states, n - 1);
      assert Follows(states[n - 1], states[n - 1 + 1]);
      var step: Step :| Enabled(states[n - 1], step) && states[n] == Take(states[n - 1], step);
      PaidStep(states[n - 1], step, v);
    }
  }

  /** A debt that is dropped without having been fulfilled leaves its promise pending for ever. */
  ghost predicate Abandoned(s: State) {
    Unpaid(s) && s.returned == [] && s.woken == {} && !s.poll.Taking?
  }

  lemma AbandonedStep(s: State, step: Step)
    requires Inv(s) && Abandoned(s) && Enabled(s, step)
    ensures Abandoned(Take(s, step))
  {
  }

  /** It happens: a poll that found nothing waits with waker `w`, and then the debt is dropped. */
  lemma AbandonedArises(w: nat) returns (states: seq<State>)
    ensures Run(states) && |states| == 5 && Enabled(states[3], DebtDrop) && states[4] == Take(states[3], DebtDrop)
    ensures Abandoned(states[4]) && states[3].pending == states[4].pending == Some(w) && states[4].flags.promise
  {
    var s0 := State(Flags(false, true, true, false), None, None, Default, Resting, Owing, [], None, {}, 0);
    var s1 := Take(s0, PollLoad(w));
    var s2 := Take(s1, PollStore);
    var s3 := Take(s2, PollSwap);
    var s4 := Take(s3, DebtDrop);
    states := [s0, s1, s2, s3, s4];
    assert Follows(s0, s1) && Follows(s1, s2) && Follows(s2, s3) && Follows(s3, s4);
  }

  lemma {:induction false} NeverResolves(states: seq<State>, m: nat, n: nat)
    requires Run(states) && m <= n < |states| && Abandoned(states[m])
    ensures Abandoned(states[n])
    decreases n
  {
    hide Take, Abandoned;
    if n != m {
      NeverResolves(states, m, n - 1);
      RunInv(states, n - 1);
      assert Follows(states[n - 1], states[n - 1 + 1]);
      var step: Step :| Enabled(states[n - 1], step) && states[n] == Take(states[n - 1], step);
      AbandonedStep(states[n - 1], step);
    }
  }

  /** Once the debt is gone, the next poll returns a result if and only if the debt was fulfilled. */
  lemma ResolvesIffPaid(states: seq<State>, n: nat, waker: nat)
    requires Run(states) && n < |states|
    requires var s := states[n]; !s.flags.debt && s.flags.promise && s.poll.Resting? && s.returned == []
    ensures Take(Take(Take(states[n], PollLoad(waker)), PollStore), PollSwap).poll.Taking? <==> !Unpaid(states[n])
  {
    RunInv(states, n);
  }
}
