/** What happens to a KVM context from its creation on, in any order. */
module Lifecycle {
  import opened Common
  import opened Overlay
  import opened Contexts
  import opened KvmContexts
  import opened Copying
  import opened Remapping
  import opened Transfer
  import opened Guests
  import opened Boot
  import opened Execution
  import Frames

  datatype Operation =
    | WriteData(offset: nat, data: seq<byte>)
    | TransferData(source: Context, to: nat, from: nat, size: nat)
    | RunFunction(handlers: seq<Page>, accesses: seq<Access>, kernel: set<nat>)

  /** What an operation asks of its caller: something to write, a sound source whose pages can be
      borrowed faithfully, handlers in whole pages and accesses to bytes of pages. */
  ghost predicate Admissible(op: Operation) {
    match op
    case WriteData(offset, data) => data != [] || offset % PAGE_SIZE != 0
    case TransferData(source, to, from, n) => Sound(source) && Faithful(source, to, from, n)
    case RunFunction(handlers, accesses, _) => FullPages(handlers) && forall a :: a in accesses ==> a.offset < PAGE_SIZE
  }

  /** What an operation does to the bytes of a context: a write puts its data there, a transfer copies
      the bytes of its source, and a run of a function makes its stores; what cannot be done does not
      happen. */
  ghost predicate Effect(op: Operation, ini: Context, fin: Context) {
    ini.Kvm? && fin.Kvm? &&
    match op
    case WriteData(offset, data) =>
      if offset + |data| <= |ini.storage| then Written(fin, ini, offset, data) else SameBytes(fin, ini)
    case TransferData(source, to, from, n) =>
      var limit := match source case Kvm(_, storage) => |storage| case Bytes(frames) => |Frames.Flatten(frames)|;
      if from + n > limit || to + n > |ini.storage| then fin == ini
      else Provided(source, to, from, n) ==> Copied(fin, ini, to, source, from, n)
    case RunFunction(handlers, accesses, _) => RunEffect(ini, fin, |handlers|, |ini.storage| / PAGE_SIZE, accesses)
  }

  ghost predicate RunEffect(ini: Context, fin: Context, handlers: nat, pages: nat, accesses: seq<Access>) {
    ini.Kvm? && fin.Kvm? &&
    if !Startable(ini.overlay, handlers, pages) then fin.overlay == ini.overlay
    else
      var base := StackBase(ini.overlay, handlers, pages);
      exists done: nat :: Stops(accesses, base, done) && SeenPages(fin, base) == AppliedAll(SeenPages(ini, base), accesses[..done])
  }

  /** Unless an operation aborts, each has its effect, one after the other, and at all times every page
      of the context is undefined, local, or borrowed from a page that is local where it is: whoever
      shares the context next can map the pages it refers to directly. Only a transfer over several
      segments can abort. */
  method Live(pages: nat, operations: seq<Operation>) returns (r: Result<KvmContext>, ghost trace: seq<Context>)
    requires forall i: nat :: i < |operations| ==> Admissible(operations[i])
    ensures r.Ok? ==> fresh(r.value) && r.value.storage.Length == pages * PAGE_SIZE && Sound(r.value.Frozen())
    ensures r.Ok? ==> |trace| == |operations| + 1 && trace[|operations|] == r.value.Frozen()
    ensures r.Ok? ==> trace[0].Kvm? && trace[0].overlay == map[] && |trace[0].storage| == pages * PAGE_SIZE
    ensures r.Ok? ==> (forall i: nat :: i < |trace| ==> Sound(trace[i])) && forall i: nat :: i < |operations| ==> Effect(operations[i], trace[i], trace[i + 1])
    ensures r.Err? ==> r.error == Panic && exists op :: op in operations && Aborting(op)
  {
    hide WellFormed, NoChains, Admissible, Aborting, Effect, Sound;
    var context := new KvmContext(pages);
    NothingThere(context.overlay, pages);
    SoundNow(context);
    trace := [context.Frozen()];
    var i: nat := 0;
    while i < |operations|
      invariant i <= |operations| && fresh(context) && fresh(context.storage) && context.storage.Length == pages * PAGE_SIZE
      invariant WellFormed(context.overlay, context.storage.Length) && NoChains(context.overlay) && Sound(context.Frozen())
      invariant |trace| == i + 1 && trace[i] == context.Frozen()
      invariant trace[0].Kvm? && trace[0].overlay == map[] && |trace[0].storage| == pages * PAGE_SIZE
      invariant (forall k: nat :: k < |trace| ==> Sound(trace[k])) && forall k: nat :: k < i ==> Effect(operations[k], trace[k], trace[k + 1])
    {
      var aborted := Perform(context, operations[i]);
      if aborted {
        assert operations[i] in operations;
        return Err(Panic), trace;
      }
      SoundNow(context);
      trace := trace + [context.Frozen()];
      i := i + 1;
    }
    return Ok(context), trace;
  }

  lemma SoundNow(context: KvmContext)
    requires WellFormed(context.overlay, context.storage.Length) && NoChains(context.overlay)
    ensures Sound(context.Frozen())
  {
  }

  /** A transfer that remaps pages, but not from one segment. */
  ghost predicate Aborting(op: Operation) {
    op.TransferData? && Remaps(op.source, op.to, op.from, op.size) && !OneSegment(op.source.overlay, RoundUp(op.from), RoundDown(op.from + op.size))
  }

  method Perform(context: KvmContext, op: Operation) returns (aborted: bool)
    requires WellFormed(context.overlay, context.storage.Length) && NoChains(context.overlay) && Admissible(op) && context.storage.Length % PAGE_SIZE == 0
    modifies context`overlay, context.storage
    ensures !aborted ==> WellFormed(context.overlay, context.storage.Length) && NoChains(context.overlay)
    ensures !aborted ==> Effect(op, old(context.Frozen()), context.Frozen())
    ensures aborted ==> Aborting(op)
  {
    hide WellFormed, NoChains, Updates, Written, Copied, SameBytes, Mirrors, Provided, Faithful, OneSegment, Remaps, Sound, SecondBorrowed, AppliedAll, LoadedAll, Touches, FullPages;
    aborted := false;
    match op {
      case WriteData(offset, data) =>
        ghost var ini := context.overlay;
        var r := context.Write(offset, data, 1);
        if r.Ok? {
          LocalNoChains(context.overlay, ini, RoundDown(offset), RoundUp(offset + |data|));
        }
      case TransferData(source, to, from, size) =>
        var r := TransferInto(context, source, to, from, size);
        aborted := r == Err(Panic);
        if aborted {
          AbortsBeyondOne(source, to, from, size);
        }
      case RunFunction(handlers, accesses, kernel) =>
        var r, done := RunGuest(context, handlers, accesses, kernel);
    }
  }

  /** A remapping from one segment does not abort. */
  lemma AbortsBeyondOne(source: Context, to: nat, from: nat, size: nat)
    requires Sound(source) && Remaps(source, to, from, size) && EdgesDefined(source, from, size) && !GetsThrough(source, from, size)
    ensures !OneSegment(source.overlay, RoundUp(from), RoundDown(from + size))
  {
    hide Completes, Sound, OneSegment, RoundUp, RoundDown, EdgesDefined;
    if OneSegment(source.overlay, RoundUp(from), RoundDown(from + size)) {
      OneSegmentRemaps(source, RoundUp(from), RoundDown(from + size));
    }
  }

  lemma NothingThere(ov: OverlayMap, pages: nat)
    requires ov == map[]
    ensures WellFormed(ov, pages * PAGE_SIZE) && NoChains(ov)
  {
    forall a: nat ensures Resolve(ov, a) == None {
      ResolveUncovered(ov, a);
    }
  }
}
