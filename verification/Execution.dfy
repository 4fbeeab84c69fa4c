/** Running a function on a KVM context: the guest is started on the pages of the context, reads and
    writes its memory, and the pages it has written are marked as local. */
module Execution {
  import opened Common
  import opened Overlay
  import opened Contexts
  import opened KvmContexts
  import opened Guests
  import opened Boot
  import DirtyLog
  import Paging

  // ---------------------------------------------------------------- the pages of a context

  ghost function ByteShown(c: Context, a: nat): byte {
    if ByteAt(c, a).Some? then ByteAt(c, a).value else 0
  }

  /** A page as a guest sees it: the bytes of the context, and zeros where it has none. */
  ghost function SeenPage(c: Context, page: nat): (p: Page)
    ensures |p| == PAGE_SIZE && forall i: nat :: i < PAGE_SIZE ==> p[i] == ByteShown(c, page * PAGE_SIZE + i)
  {
    seq<byte>(PAGE_SIZE, i requires 0 <= i < PAGE_SIZE => ByteShown(c, page * PAGE_SIZE + i))
  }

  ghost function SeenPages(c: Context, base: nat): (pages: seq<Page>)
    ensures |pages| == base
  {
    seq(base, page requires 0 <= page < base => SeenPage(c, page))
  }

  lemma SeesIs(contents: seq<Page>, c: Context, base: nat)
    requires Sees(contents, c, base) && FullPages(contents)
    ensures contents == SeenPages(c, base)
  {
    hide ByteAt;
    forall page: nat | page < base ensures contents[page] == SeenPage(c, page) {
      forall i: nat | i < PAGE_SIZE ensures contents[page][i] == SeenPage(c, page)[i] {
        Quotient(page * PAGE_SIZE + i, PAGE_SIZE, page, i);
        assert ByteSeen(contents[(page * PAGE_SIZE + i) / PAGE_SIZE], c, page * PAGE_SIZE + i);
      }
    }
  }

  lemma ContentsFull(memory: seq<Page>, t: seq<Paging.Entry>, base: nat)
    requires FullPages(memory)
    ensures FullPages(Contents(memory, t, base))
  {
    hide Contents, Paging.View, Content;
    forall page: nat | page < |Contents(memory, t, base)| ensures |Contents(memory, t, base)[page]| == PAGE_SIZE {
      ContentIs(memory, t, base, page);
    }
  }

  /** The bytes are those of the pages, one after the other. */
  ghost predicate InPages(storage: seq<byte>, memory: seq<Page>) {
    && |storage| == |memory| * PAGE_SIZE && FullPages(memory)
    && forall a: nat :: a < |storage| ==> storage[a] == memory[a / PAGE_SIZE][a % PAGE_SIZE]
  }

  method PagesOf(storage: array<byte>) returns (memory: array<Page>)
    requires storage.Length % PAGE_SIZE == 0
    ensures fresh(memory) && storage.Length == memory.Length * PAGE_SIZE
    ensures forall p: nat :: p < memory.Length ==> memory[p] == SliceAt(storage[..], p * PAGE_SIZE)
  {
    hide SliceAt;
    var n: nat := storage.Length / PAGE_SIZE;
    memory := new Page[n](_ => []);
    var p: nat := 0;
    while p < n
      invariant p <= n && forall q: nat :: q < p ==> memory[q] == SliceAt(storage[..], q * PAGE_SIZE)
    {
      memory[p] := SliceAt(storage[..], p * PAGE_SIZE);
      p := p + 1;
    }
  }

  method StorePages(memory: array<Page>, storage: array<byte>)
    requires storage.Length == memory.Length * PAGE_SIZE && FullPages(memory[..])
    modifies storage
    ensures InPages(storage[..], memory[..])
  {
    var a: nat := 0;
    while a < storage.Length
      invariant a <= storage.Length
      invariant forall b: nat :: b < a ==> storage[b] == memory[..][b / PAGE_SIZE][b % PAGE_SIZE]
    {
      assert |memory[..][a / PAGE_SIZE]| == PAGE_SIZE;
      storage[a] := memory[a / PAGE_SIZE][a % PAGE_SIZE];
      a := a + 1;
    }
  }

  // ---------------------------------------------------------------- the log

  /** The log in which exactly the marked pages are set. */
  function LogOf(marked: set<nat>, words: nat): (log: seq<DirtyLog.Word>)
    ensures |log| == words
  {
    seq(words, i requires 0 <= i < words => seq(64, j requires 0 <= j < 64 => i * 64 + j in marked))
  }

  lemma LogOfDirty(marked: set<nat>, words: nat, page: nat)
    ensures DirtyLog.Dirty(LogOf(marked, words), page) <==> page in marked && page / 64 < words
  {
  }

  lemma LogOfInside(marked: set<nat>, words: nat, pages: nat)
    requires forall p :: p in marked ==> p < pages
    ensures DirtyLog.Inside(LogOf(marked, words), pages * PAGE_SIZE)
  {
    forall p: nat | DirtyLog.Dirty(LogOf(marked, words), p) ensures (p + 1) * PAGE_SIZE <= pages * PAGE_SIZE {
      LogOfDirty(marked, words, p);
    }
  }

  // ---------------------------------------------------------------- after the run

  /** Below the stack start the pages that were written are local, and all others are as before. */
  ghost predicate Marks(fin: OverlayMap, ini: OverlayMap, dirty: set<nat>, base: nat) {
    forall a: nat :: a / PAGE_SIZE < base ==> Resolve(fin, a) == if a / PAGE_SIZE in dirty then Some(Local) else Resolve(ini, a)
  }

  /** A page that was not written shows the guest what it showed before. */
  lemma Unwritten(fin: seq<Paging.Entry>, after: seq<Page>, t: seq<Paging.Entry>, memory: seq<Page>, dirty: set<nat>, base: nat, top: nat, page: nat)
    requires Writes(fin, after, t, memory, dirty, base) && AllPlaced(t, base, top, |memory|) && page < base <= top <= |memory| && page !in dirty
    ensures Content(after, Paging.View(fin, page)) == Content(memory, Paging.View(t, page))
    ensures after[page] == memory[page]
  {
    hide Paging.View;
    assert Tracked(fin, after, t, memory, dirty, page);
    assert Placed(Paging.View(t, page), page, top, |memory|);
  }

  lemma WrittenByte(ctx: Context, after: seq<Page>, fin: seq<Paging.Entry>, page: nat, a: nat)
    requires ctx.Kvm? && InPages(ctx.storage, after) && a / PAGE_SIZE == page < |after|
    requires Resolve(ctx.overlay, a) == Some(Local) && Paging.View(fin, page) == Some(Paging.Mapping(page, true, true))
    ensures ByteSeen(Content(after, Paging.View(fin, page)), ctx, a)
  {
    hide Paging.View, Resolve, ByteAt;
    ByteAtKvm(ctx, a);
    InBounds(a, |after|);
    assert |after[page]| == PAGE_SIZE;
  }

  lemma InBounds(a: nat, pages: nat)
    ensures a < pages * PAGE_SIZE <==> a / PAGE_SIZE < pages
  {
  }

  /** A byte of a page that was not written. */
  lemma UnwrittenByte(ini: Context, ctx: Context, memory: seq<Page>, after: seq<Page>, t: seq<Paging.Entry>, page: nat, a: nat)
    requires ini.Kvm? && ctx.Kvm? && InPages(ctx.storage, after) && |ini.storage| == |ctx.storage| && a / PAGE_SIZE == page < |after|
    requires |memory| == |after| && after[page] == memory[page] && Resolve(ctx.overlay, a) == Resolve(ini.overlay, a)
    requires Resolve(ini.overlay, a) == Some(Local) ==> Paging.View(t, page) == Some(Paging.Mapping(page, true, true))
    requires ByteSeen(Content(memory, Paging.View(t, page)), ini, a)
    ensures ByteAt(ctx, a) == ByteAt(ini, a)
  {
    hide Paging.View, Resolve, ByteAt;
    ByteAtKvm(ctx, a);
    ByteAtKvm(ini, a);
    InBounds(a, |after|);
    assert |after[page]| == PAGE_SIZE;
  }

  /** The context shows the final memory of the guest, and what was not written is as it was. */
  lemma RunSeen(ini: Context, ctx: Context, t: seq<Paging.Entry>, memory: seq<Page>, fin: seq<Paging.Entry>, after: seq<Page>, dirty: set<nat>, base: nat, top: nat)
    requires ini.Kvm? && ctx.Kvm? && WellFormed(ini.overlay, |ini.storage|) && |ini.storage| == |ctx.storage|
    requires InPages(ctx.storage, after) && Marks(ctx.overlay, ini.overlay, dirty, base) && LocalsMapped(ini.overlay, t, base)
    requires Sees(Contents(memory, t, base), ini, base) && AllPlaced(t, base, top, |memory|) && base <= top <= |memory|
    requires Writes(fin, after, t, memory, dirty, base)
    ensures Sees(Contents(after, fin, base), ctx, base)
    ensures forall a: nat :: a / PAGE_SIZE < base && a / PAGE_SIZE !in dirty ==> ByteAt(ctx, a) == ByteAt(ini, a)
  {
    hide Paging.View, Resolve, ByteAt, Content, AllPlaced, InPages, WellFormed, Tracked;
    forall a: nat | a / PAGE_SIZE < base
      ensures ByteSeen(Contents(after, fin, base)[a / PAGE_SIZE], ctx, a) && (a / PAGE_SIZE !in dirty ==> ByteAt(ctx, a) == ByteAt(ini, a))
    {
      var page: nat := a / PAGE_SIZE;
      if page in dirty {
        WrittenView(fin, after, t, memory, dirty, base, page);
        WrittenByte(ctx, after, fin, page, a);
      } else {
        Unwritten(fin, after, t, memory, dirty, base, top, page);
        assert ByteSeen(Contents(memory, t, base)[page], ini, a);
        LocalPage(ini, t, base, a);
        UnwrittenByte(ini, ctx, memory, after, t, page, a);
      }
    }
  }

  lemma WrittenView(fin: seq<Paging.Entry>, after: seq<Page>, t: seq<Paging.Entry>, memory: seq<Page>, dirty: set<nat>, base: nat, page: nat)
    requires Writes(fin, after, t, memory, dirty, base) && page < base && page in dirty
    ensures Paging.View(fin, page) == Some(Paging.Mapping(page, true, true))
  {
    assert Tracked(fin, after, t, memory, dirty, page);
  }

  lemma LocalPage(ini: Context, t: seq<Paging.Entry>, base: nat, a: nat)
    requires ini.Kvm? && WellFormed(ini.overlay, |ini.storage|) && LocalsMapped(ini.overlay, t, base) && a / PAGE_SIZE < base
    ensures Resolve(ini.overlay, a) == Some(Local) ==> Paging.View(t, a / PAGE_SIZE) == Some(Paging.Mapping(a / PAGE_SIZE, true, true))
  {
    hide Paging.View, Resolve;
    PageShift(ini.overlay, a / PAGE_SIZE, a);
  }

  // ---------------------------------------------------------------- running

  /** The first `k` accesses are below `base`, and there are no more or the next is not. */
  ghost predicate Stops(accesses: seq<Access>, base: nat, k: nat) {
    && k <= |accesses| && (forall i: nat :: i < k ==> accesses[i].page < base)
    && (k == |accesses| || accesses[k].page >= base)
  }

  /** The accesses up to the first that the guest may not make, which ends it. */
  function Allowed(accesses: seq<Access>, base: nat): (run: seq<Access>)
    ensures Stops(accesses, base, |run|) && run == accesses[..|run|]
  {
    if accesses == [] || accesses[0].page >= base then [] else [accesses[0]] + Allowed(accesses[1..], base)
  }

  /** A guest runs on a context. For the context, the run is the same loads and stores on its own
      bytes, up to the first that is not below the stack base: what the guest has written is there,
      nothing else has changed, and no page is borrowed from a page that is borrowed itself. `done` is
      the number of accesses, and `kernel` are the pages behind the stack that the log names as well. */
  method RunGuest(context: KvmContext, handlers: seq<Page>, accesses: seq<Access>, kernel: set<nat>)
    returns (r: Result<seq<byte>>, ghost done: nat)
    requires WellFormed(context.overlay, context.storage.Length) && NoChains(context.overlay)
    requires context.storage.Length % PAGE_SIZE == 0 && FullPages(handlers) && forall a :: a in accesses ==> a.offset < PAGE_SIZE
    modifies context`overlay, context.storage
    ensures WellFormed(context.overlay, context.storage.Length) && NoChains(context.overlay)
    ensures r.Ok? <==> Startable(old(context.overlay), |handlers|, context.storage.Length / PAGE_SIZE)
    ensures forall end: nat :: Roomy(old(context.overlay), |handlers|, context.storage.Length / PAGE_SIZE, end) ==> r.Ok?
    ensures r.Ok? ==> DataBelow(old(context.overlay), StackBase(old(context.overlay), |handlers|, context.storage.Length / PAGE_SIZE) / Paging.TABLE_SIZE * Paging.TABLE_SIZE)
    ensures r.Ok? ==>
              var base := StackBase(old(context.overlay), |handlers|, context.storage.Length / PAGE_SIZE);
              && Stops(accesses, base, done)
              && SeenPages(context.Frozen(), base) == AppliedAll(SeenPages(old(context.Frozen()), base), accesses[..done])
              && r.value == LoadedAll(SeenPages(old(context.Frozen()), base), accesses[..done])
              && forall a: nat :: a / PAGE_SIZE < base && !Touches(accesses[..done], a / PAGE_SIZE) ==> ByteAt(context.Frozen(), a) == old(ByteAt(context.Frozen(), a))
    ensures r.Ok? ==>
              var base := StackBase(old(context.overlay), |handlers|, context.storage.Length / PAGE_SIZE);
              (forall i: nat :: i < |accesses| ==> accesses[i].page < base) ==>
                && SeenPages(context.Frozen(), base) == AppliedAll(SeenPages(old(context.Frozen()), base), accesses)
                && r.value == LoadedAll(SeenPages(old(context.Frozen()), base), accesses)
    ensures r.Err? ==> context.overlay == old(context.overlay)
  {
    hide WellFormed, NoChains, Resolve, ByteAt, SliceAt, Contents, Sees, Startable, StackBase, Writes, SeenPages, AppliedAll, LoadedAll, FullPages, Touches,
      LocalsMapped, InPages, Marks, DirtyLog.Dirty, DirtyLog.Inside, LogOf, Paging.Tidy, AllPlaced, AllSystem, Wired, Stops, Roomy, DataBelow, StackReady;
    var ini := Kvm(context.overlay, context.storage[..]);
    var memory := PagesOf(context.storage);
    var started := StartGuest(memory, ini, handlers);
    if started.Err? {
      return Err(started.error), 0;
    }
    var guest := started.value;
    ghost var t, was := guest.low[..], memory[..];
    var run := Allowed(accesses, guest.base);
    done := |run|;
    RunBelow(accesses, guest.base, run);
    var loads, dirty := guest.Run(run);
    ContentsFull(was, t, guest.base);
    ContentsFull(memory[..], guest.low[..], guest.base);
    StorePages(memory, context.storage);
    var marked := dirty + set p | p in kernel && guest.base <= p < memory.Length;
    DirtyInside(run, dirty, guest.base);
    LogOfInside(marked, memory.Length / 64 + 1, memory.Length);
    DirtyLog.MarkDirty(context, LogOf(marked, memory.Length / 64 + 1));
    MarkedMarks(context.overlay, ini.overlay, marked, dirty, guest.base, memory.Length);
    RunSeen(ini, context.Frozen(), t, was, guest.low[..], memory[..], dirty, guest.base, guest.top);
    SeesIs(Contents(was, t, guest.base), ini, guest.base);
    SeesIs(Contents(memory[..], guest.low[..], guest.base), context.Frozen(), guest.base);
    return Ok(loads), done;
  }

  lemma RunBelow(accesses: seq<Access>, base: nat, run: seq<Access>)
    requires Stops(accesses, base, |run|) && run == accesses[..|run|]
    ensures forall a :: a in run ==> a in accesses && a.page < base
    ensures (forall i: nat :: i < |accesses| ==> accesses[i].page < base) ==> run == accesses
  {
  }

  lemma DirtyInside(run: seq<Access>, dirty: set<nat>, base: nat)
    requires (forall a :: a in run ==> a.page < base) && forall page :: page in dirty ==> Touches(run, page)
    ensures forall page :: page in dirty ==> page < base
  {
  }

  lemma MarkedMarks(fin: OverlayMap, ini: OverlayMap, marked: set<nat>, dirty: set<nat>, base: nat, pages: nat)
    requires base <= pages && (forall p :: p in marked && p < base ==> p in dirty) && dirty <= marked
    requires forall a: nat :: Resolve(fin, a) == if DirtyLog.Dirty(LogOf(marked, pages / 64 + 1), a / PAGE_SIZE) then Some(Local) else Resolve(ini, a)
    ensures Marks(fin, ini, dirty, base)
  {
    hide Resolve, DirtyLog.Dirty, LogOf;
    forall a: nat | a / PAGE_SIZE < base ensures Resolve(fin, a) == if a / PAGE_SIZE in dirty then Some(Local) else Resolve(ini, a) {
      LogOfDirty(marked, pages / 64 + 1, a / PAGE_SIZE);
    }
  }
}
