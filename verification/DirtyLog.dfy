/** After a run, the pages that the guest wrote become local: the dirty log is scanned for runs
    of set bits, which may continue over any number of words. */
module DirtyLog {
  import opened Common
  import opened Overlay
  import opened Contexts
  import opened KvmContexts
  import opened Copying

  /** The bits of a 64-bit word, lowest first. */
  type Word = w: seq<bool> | |w| == 64 witness seq(64, _ => false)

  /** Length of the run of bits `b` at the low end. */
  function Trailing(w: seq<bool>, b: bool): (n: nat)
    ensures n <= |w| && (forall i: nat :: i < n ==> w[i] == b) && (n < |w| ==> w[n] != b)
  {
    if w == [] || w[0] != b then 0
    else
      var n := Trailing(w[1..], b);
      assert forall i: nat :: 0 < i < n + 1 ==> w[i] == w[1..][i - 1];
      n + 1
  }

  function ShiftRight(w: Word, n: nat): (r: Word)
    requires n <= 64
    ensures forall i: nat :: i < 64 ==> r[i] == (n + i < 64 && w[n + i])
  {
    w[n..] + seq(n, _ => false)
  }

  ghost predicate Dirty(log: seq<Word>, page: nat) {
    page / 64 < |log| && log[page / 64][page % 64]
  }

  /** All pages of `[lo, hi)` have the same state. */
  ghost predicate Uniform(log: seq<Word>, lo: nat, hi: nat, dirty: bool) {
    forall p: nat :: lo <= p < hi ==> Dirty(log, p) == dirty
  }

  /** What an address resolves to once the dirty pages below `pages` are local. */
  ghost function Marked(ini: OverlayMap, log: seq<Word>, pages: nat, a: nat): Option<Place> {
    if a / PAGE_SIZE < pages && Dirty(log, a / PAGE_SIZE) then Some(Local) else Resolve(ini, a)
  }

  ghost predicate Settled(fin: OverlayMap, ini: OverlayMap, log: seq<Word>, pages: nat) {
    forall a: nat :: Resolve(fin, a) == Marked(ini, log, pages, a)
  }

  lemma InPages(a: nat, lo: nat, hi: nat)
    ensures lo * PAGE_SIZE <= a < hi * PAGE_SIZE <==> lo <= a / PAGE_SIZE < hi
  {
  }

  lemma RunSettles(fin: OverlayMap, ov: OverlayMap, ini: OverlayMap, log: seq<Word>, lo: nat, hi: nat)
    requires Settled(ov, ini, log, lo) && lo <= hi && Uniform(log, lo, hi, true)
    requires Updates(fin, ov, lo * PAGE_SIZE, hi * PAGE_SIZE, None)
    ensures Settled(fin, ini, log, hi)
  {
    hide Resolve, Dirty;
    forall a: nat ensures Resolve(fin, a) == Marked(ini, log, hi, a) {
      InPages(a, lo, hi);
      assert Resolve(ov, a) == Marked(ini, log, lo, a);
    }
  }

  lemma CleanSettles(ov: OverlayMap, ini: OverlayMap, log: seq<Word>, lo: nat, hi: nat)
    requires Settled(ov, ini, log, lo) && lo <= hi && Uniform(log, lo, hi, false)
    ensures Settled(ov, ini, log, hi)
  {
    hide Resolve, Dirty;
    forall a: nat ensures Resolve(ov, a) == Marked(ini, log, hi, a) {
      assert Resolve(ov, a) == Marked(ini, log, lo, a);
    }
  }

  lemma UniformJoin(log: seq<Word>, lo: nat, mid: nat, hi: nat, dirty: bool)
    requires Uniform(log, lo, mid, dirty) && Uniform(log, mid, hi, dirty)
    ensures Uniform(log, lo, hi, dirty)
  {
    hide Dirty;
  }

  /** A run of equal bits of a shifted word is a run of equal pages. */
  lemma WordUniform(log: seq<Word>, index: nat, bits: nat, word: Word, n: nat, dirty: bool)
    requires index < |log| && bits <= 64 && word == ShiftRight(log[index], bits)
    requires n <= 64 && forall i: nat :: i < n ==> word[i] == dirty
    ensures Uniform(log, index * 64 + bits, index * 64 + (if bits + n <= 64 then bits + n else 64), dirty)
    ensures dirty ==> bits + n <= 64
  {
    forall p: nat | index * 64 + bits <= p < index * 64 + bits + n && p < index * 64 + 64
      ensures Dirty(log, p) == dirty
    {
      assert p / 64 == index && p % 64 == p - index * 64;
      assert word[p - index * 64 - bits] == dirty;
    }
    if dirty && n > 0 {
      assert word[n - 1];
    }
  }

  /** Makes the last `contiguous` pages before `end` local. */
  method InsertRun(context: KvmContext, end: nat, contiguous: nat, ghost ini: OverlayMap, ghost log: seq<Word>)
    requires 0 < contiguous <= end && end * PAGE_SIZE <= context.storage.Length
    requires WellFormed(context.overlay, context.storage.Length)
    requires Settled(context.overlay, ini, log, end - contiguous) && Uniform(log, end - contiguous, end, true)
    modifies context`overlay
    ensures WellFormed(context.overlay, context.storage.Length)
    ensures Settled(context.overlay, ini, log, end)
  {
    hide WellFormed, Settled, Uniform, Updates, Disjoint, Aligned;
    ghost var ov := context.overlay;
    WellFormedParts(ov, context.storage.Length);
    var start: nat := end * PAGE_SIZE - contiguous * PAGE_SIZE;
    context.InsertIntoOverlay(start, end * PAGE_SIZE, None);
    WellFormedUpdate(context.overlay, ov, start, end * PAGE_SIZE, None, context.storage.Length);
    RunSettles(context.overlay, ov, ini, log, end - contiguous, end);
  }

  /** What the scan knows after `done` pages of which the last `contiguous` are a pending run. */
  ghost predicate Scanning(ov: OverlayMap, size: nat, ini: OverlayMap, log: seq<Word>, done: nat, contiguous: nat) {
    && contiguous <= done && WellFormed(ov, size)
    && Settled(ov, ini, log, done - contiguous) && Uniform(log, done - contiguous, done, true)
  }

  lemma ScanningClean(ov: OverlayMap, size: nat, ini: OverlayMap, log: seq<Word>, done: nat, next: nat)
    requires Scanning(ov, size, ini, log, done, 0) && done <= next && Uniform(log, done, next, false)
    ensures Scanning(ov, size, ini, log, next, 0)
  {
    hide WellFormed, Settled, Dirty;
    CleanSettles(ov, ini, log, done, next);
  }

  lemma ScanningRun(ov: OverlayMap, size: nat, ini: OverlayMap, log: seq<Word>, done: nat, contiguous: nat, next: nat)
    requires Scanning(ov, size, ini, log, done, contiguous) && done <= next && Uniform(log, done, next, true)
    ensures Scanning(ov, size, ini, log, next, contiguous + (next - done))
  {
    hide WellFormed, Settled, Uniform;
    UniformJoin(log, done - contiguous, done, next, true);
  }

  lemma ScanningFlushed(ov: OverlayMap, size: nat, ini: OverlayMap, log: seq<Word>, done: nat)
    requires WellFormed(ov, size) && Settled(ov, ini, log, done)
    ensures Scanning(ov, size, ini, log, done, 0)
  {
    hide WellFormed, Settled;
  }

  /** The dirty log speaks about pages of the context only. */
  ghost predicate Inside(log: seq<Word>, size: nat) {
    forall p: nat :: Dirty(log, p) ==> (p + 1) * PAGE_SIZE <= size
  }

  lemma RunInside(log: seq<Word>, size: nat, lo: nat, hi: nat)
    requires Inside(log, size) && lo < hi && Uniform(log, lo, hi, true)
    ensures hi * PAGE_SIZE <= size
  {
    hide Dirty;
    assert Dirty(log, hi - 1);
  }

  /** Ends the pending run, if there is one. */
  method Flush(context: KvmContext, end: nat, contiguous: nat, ghost ini: OverlayMap, ghost log: seq<Word>)
    requires Inside(log, context.storage.Length)
    requires Scanning(context.overlay, context.storage.Length, ini, log, end, contiguous)
    modifies context`overlay
    ensures Scanning(context.overlay, context.storage.Length, ini, log, end, 0)
  {
    if contiguous > 0 {
      hide WellFormed, Settled, Uniform, Inside;
      RunInside(log, context.storage.Length, end - contiguous, end);
      InsertRun(context, end, contiguous, ini, log);
      ScanningFlushed(context.overlay, context.storage.Length, ini, log, end);
    }
  }

  /** Skips clean pages and counts the dirty pages behind them. */
  method ScanRun(context: KvmContext, log: seq<Word>, index: nat, bits0: nat, local0: Word, contiguous0: nat, ghost ini: OverlayMap)
    returns (bits: nat, local: Word, contiguous: nat)
    requires index < |log| && bits0 < 64 && local0 == ShiftRight(log[index], bits0)
    requires Trailing(local0, false) < 64 && (Trailing(local0, false) != 0 ==> contiguous0 == 0)
    requires Scanning(context.overlay, context.storage.Length, ini, log, index * 64 + bits0, contiguous0)
    ensures bits0 < bits <= 64 && local == ShiftRight(log[index], bits) && contiguous > 0
    ensures Scanning(context.overlay, context.storage.Length, ini, log, index * 64 + bits, contiguous)
  {
    hide *;
    var zeros: nat := Trailing(local0, false);
    ZerosUniform(log, index, bits0, local0);
    if zeros != 0 {
      ScanningClean(context.overlay, context.storage.Length, ini, log, index * 64 + bits0, index * 64 + bits0 + zeros);
    }
    StartsWithOne(local0);
    local := ShiftTwice(log[index], bits0, local0, zeros);
    bits := bits0 + zeros;
    var ones: nat := Trailing(local, true);
    OnesUniform(log, index, bits, local);
    ScanningRun(context.overlay, context.storage.Length, ini, log, index * 64 + bits, contiguous0, index * 64 + bits + ones);
    contiguous := contiguous0 + ones;
    local := ShiftTwice(log[index], bits, local, ones);
    bits := bits + ones;
  }

  /** One word that is neither all clean nor all dirty. */
  method ScanMixed(context: KvmContext, log: seq<Word>, index: nat, pending: nat, ghost ini: OverlayMap) returns (contiguous: nat)
    requires index < |log| && Inside(log, context.storage.Length)
    requires Scanning(context.overlay, context.storage.Length, ini, log, index * 64, pending)
    modifies context`overlay
    ensures Scanning(context.overlay, context.storage.Length, ini, log, index * 64 + 64, contiguous)
  {
    hide *;
    contiguous := pending;
    var local: Word, bits: nat := log[index], 0;
    var zeros: nat := Trailing(local, false);
    if zeros != 0 && contiguous != 0 {
      Flush(context, index * 64, contiguous, ini, log);
      contiguous := 0;
    }
    ShiftNone(local);
    while zeros < 64
      invariant bits < 64 && local == ShiftRight(log[index], bits)
      invariant zeros == Trailing(local, false) && (zeros != 0 ==> contiguous == 0)
      invariant Scanning(context.overlay, context.storage.Length, ini, log, index * 64 + bits, contiguous)
      decreases 64 - bits
    {
      bits, local, contiguous := ScanRun(context, log, index, bits, local, contiguous, ini);
      if bits >= 64 {
        return;
      }
      Flush(context, index * 64 + bits, contiguous, ini, log);
      contiguous := 0;
      zeros := Trailing(local, false);
    }
    ZerosUniform(log, index, bits, local);
    ScanningClean(context.overlay, context.storage.Length, ini, log, index * 64 + bits, index * 64 + 64);
  }

  lemma ShiftNone(w: Word)
    ensures ShiftRight(w, 0) == w
  {
  }

  lemma ZerosUniform(log: seq<Word>, index: nat, bits: nat, local: Word)
    requires index < |log| && bits <= 64 && local == ShiftRight(log[index], bits)
    ensures var zeros := Trailing(local, false);
            if zeros < 64 then bits + zeros < 64 && Uniform(log, index * 64 + bits, index * 64 + bits + zeros, false)
            else Uniform(log, index * 64 + bits, index * 64 + 64, false)
  {
    hide Uniform;
    var zeros := Trailing(local, false);
    WordUniform(log, index, bits, local, zeros, false);
    if zeros < 64 {
      assert local[zeros];
    }
  }

  lemma StartsWithOne(local: Word)
    requires Trailing(local, false) < 64
    ensures Trailing(ShiftRight(local, Trailing(local, false)), true) > 0
  {
    assert ShiftRight(local, Trailing(local, false))[0];
  }

  lemma OnesUniform(log: seq<Word>, index: nat, bits: nat, local: Word)
    requires index < |log| && bits <= 64 && local == ShiftRight(log[index], bits)
    ensures var ones := Trailing(local, true);
            bits + ones <= 64 && Uniform(log, index * 64 + bits, index * 64 + bits + ones, true)
  {
    WordUniform(log, index, bits, local, Trailing(local, true), true);
  }

  /** Shifting a shifted word. */
  function ShiftTwice(w: Word, done: nat, local: Word, n: nat): (r: Word)
    requires done + n <= 64 && local == ShiftRight(w, done)
    ensures r == ShiftRight(w, done + n) && r == ShiftRight(local, n)
  {
    ShiftRight(local, n)
  }

  /** A page is local afterwards if and only if it was dirty or already local, and every other
      page resolves as before. */
  method MarkDirty(context: KvmContext, log: seq<Word>)
    requires WellFormed(context.overlay, context.storage.Length) && Inside(log, context.storage.Length)
    modifies context`overlay
    ensures WellFormed(context.overlay, context.storage.Length)
    ensures forall a: nat :: Resolve(context.overlay, a) ==
              if Dirty(log, a / PAGE_SIZE) then Some(Local) else Resolve(old(context.overlay), a)
    ensures NoChains(old(context.overlay)) ==> NoChains(context.overlay)
  {
    hide Scanning, Inside, Uniform, Dirty, WellFormed, NoChains, Resolve;
    ghost var ini := context.overlay;
    var index: nat, contiguous: nat := 0, 0;
    ScanStarts(ini, context.storage.Length, log);
    while index < |log|
      invariant index <= |log|
      invariant Scanning(context.overlay, context.storage.Length, ini, log, index * 64, contiguous)
    {
      var local: Word := log[index];
      if Trailing(local, false) == 64 {
        Flush(context, index * 64, contiguous, ini, log);
        contiguous := 0;
        WordUniform(log, index, 0, local, 64, false);
        ScanningClean(context.overlay, context.storage.Length, ini, log, index * 64, index * 64 + 64);
      } else if Trailing(local, true) == 64 {
        WordUniform(log, index, 0, local, 64, true);
        ScanningRun(context.overlay, context.storage.Length, ini, log, index * 64, contiguous, index * 64 + 64);
        contiguous := contiguous + 64;
      } else {
        contiguous := ScanMixed(context, log, index, contiguous, ini);
      }
      index := index + 1;
    }
    Flush(context, index * 64, contiguous, ini, log);
    ScanEnds(context.overlay, context.storage.Length, ini, log);
  }

  lemma ScanStarts(ini: OverlayMap, size: nat, log: seq<Word>)
    requires WellFormed(ini, size)
    ensures Scanning(ini, size, ini, log, 0, 0)
  {
    hide Resolve;
  }

  lemma ScanEnds(fin: OverlayMap, size: nat, ini: OverlayMap, log: seq<Word>)
    requires Scanning(fin, size, ini, log, |log| * 64, 0)
    ensures WellFormed(fin, size)
    ensures forall a: nat :: Resolve(fin, a) == if Dirty(log, a / PAGE_SIZE) then Some(Local) else Resolve(ini, a)
    ensures NoChains(ini) ==> NoChains(fin)
  {
    hide Resolve, WellFormed;
    forall a: nat ensures Resolve(fin, a) == if Dirty(log, a / PAGE_SIZE) then Some(Local) else Resolve(ini, a) {
      assert Resolve(fin, a) == Marked(ini, log, |log| * 64, a);
    }
  }
}
