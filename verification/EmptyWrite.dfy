/** What a write of no bytes at the beginning of a page does to the overlay. */
module EmptyWrites {
  import opened Common
  import opened Overlay

  /** The byte before or the byte behind `at` is local. */
  ghost predicate Beside(ov: OverlayMap, at: nat) {
    at > 0 && (Resolve(ov, at - 1) == Some(Local) || Resolve(ov, at) == Some(Local))
  }

  /** Byte `a` belongs to the part before `at` of the segment that holds the byte before `at`. */
  ghost predicate Lost(ov: OverlayMap, at: nat, a: nat) {
    a < at && exists e: nat :: Covers(ov, e, a) && Covers(ov, e, at - 1)
  }

  ghost predicate SameEverywhere(fin: OverlayMap, ov: OverlayMap) {
    forall a: nat :: Resolve(fin, a) == Resolve(ov, a)
  }

  /** Everything is as before, except that the segment before `at` is gone and an empty one, which
      ends before it begins, is in its place. */
  ghost predicate Damaged(fin: OverlayMap, ov: OverlayMap, at: nat) {
    && at > 0 && at - 1 in fin && fin[at - 1].start == at
    && forall a: nat :: Resolve(fin, a) == if Lost(ov, at, a) then None else Resolve(ov, a)
  }

  /** The scan of a write that touches no page: it may pass one segment that ends right before `at`,
      and then meets at most one other. */
  method ScanNothing(ov: OverlayMap, at: nat) returns (fin: OverlayMap)
    requires Disjoint(ov) && Aligned(ov) && at > 0 && at % PAGE_SIZE == 0
    ensures Beside(ov, at) ==> Disjoint(fin) && Aligned(fin) && SameEverywhere(fin, ov) && fin.Keys <= ov.Keys
    ensures !Beside(ov, at) ==> Damaged(fin, ov, at)
  {
    hide Resolve, Disjoint, Aligned, Damaged, SameEverywhere, Beside;
    var e := NextKey(ov, at - 1);
    var start: nat, removed: set<nat>, added := at, {}, Some(Entry(at - 1, Segment(at, None)));
    NextFacts(ov, at);
    if e == Some(at - 1) {
      if ov[at - 1].item.None? {
        start, removed := ov[at - 1].start, {at - 1};
        added := Some(Entry(at - 1, Segment(start, None)));
      }
      e := NextKey(ov, at);
    }
    if e.None? || (ov[e.value].start >= at && !(ov[e.value].item.None? && ov[e.value].start == at)) {
      fin := Finish(ov, removed, None, added);
      if removed != {} {
        assert fin == ov;
        LocalBefore(ov, at);
      } else {
        assert fin == ov[at - 1 := Segment(at, None)];
        NeitherLocal(ov, fin, at);
      }
      return;
    }
    var g := ov[e.value];
    if g.start >= at {
      fin := Finish(ov[e.value := Segment(start, None)], removed, None, None);
      if removed != {} {
        assert fin == ov[e.value := Segment(start, None)] - {at - 1};
        Joined(ov, fin, at, e.value);
      } else {
        assert fin == ov;
        LocalBehind(ov, at, e.value);
      }
      return;
    }
    Straddling(ov, at, e.value);
    if g.item.Some? {
      fin := Finish(ov[e.value := CutFront(g, at)], removed, Some(Entry(start - 1, g)), Some(Entry(at - 1, Segment(start, None))));
      assert fin == ov[e.value := CutFront(g, at)][at - 1 := Segment(at, None)];
      FrontLost(ov, fin, at, e.value);
    } else {
      fin := Finish(ov[e.value := Segment(g.start, None)], removed, None, None);
      assert fin == ov;
      LocalBefore(ov, at);
    }
  }

  lemma NextFacts(ov: OverlayMap, at: nat)
    requires Disjoint(ov) && at > 0
    ensures NextKey(ov, at - 1) != Some(at - 1) ==> at - 1 !in ov && NextKey(ov, at) == NextKey(ov, at - 1)
    ensures at - 1 in ov ==> ov[at - 1].start < at
  {
    if at - 1 !in ov {
      var e, f := NextKey(ov, at - 1), NextKey(ov, at);
      assert e.Some? ==> f.Some? && f.value == e.value;
    }
  }

  lemma Straddling(ov: OverlayMap, at: nat, e: nat)
    requires Disjoint(ov) && at > 0 && NextKey(ov, at) == Some(e) && ov[e].start < at
    ensures at - 1 !in ov && Resolve(ov, at - 1) == Some(PlaceOf(ov[e].item, at - 1 - ov[e].start)) && Resolve(ov, at) == Some(PlaceOf(ov[e].item, at - ov[e].start))
  {
    hide Resolve;
    ResolveCovered(ov, e, at - 1);
    ResolveCovered(ov, e, at);
  }

  lemma LocalBefore(ov: OverlayMap, at: nat)
    requires Disjoint(ov) && at > 0
    requires (at - 1 in ov && ov[at - 1].item.None?) || Resolve(ov, at - 1) == Some(Local)
    ensures Beside(ov, at) && SameEverywhere(ov, ov)
  {
    if at - 1 in ov {
      ResolveCovered(ov, at - 1, at - 1);
    }
  }

  lemma LocalBehind(ov: OverlayMap, at: nat, e: nat)
    requires Disjoint(ov) && at > 0 && e in ov && ov[e] == Segment(at, None)
    ensures Beside(ov, at) && SameEverywhere(ov, ov)
  {
    ResolveCovered(ov, e, at);
  }

  /** The local segments before and behind `at` become one. */
  lemma Joined(ov: OverlayMap, fin: OverlayMap, at: nat, e: nat)
    requires Disjoint(ov) && Aligned(ov) && at > 0 && at - 1 in ov && ov[at - 1].item.None? && e in ov && ov[e] == Segment(at, None) && e >= at
    requires fin == ov[e := Segment(ov[at - 1].start, None)] - {at - 1}
    ensures Beside(ov, at) && Disjoint(fin) && Aligned(fin) && SameEverywhere(fin, ov)
  {
    hide Resolve, Disjoint, Aligned;
    LocalBefore(ov, at);
    JoinedDisjoint(ov, fin, at, e);
    forall a: nat ensures Resolve(fin, a) == Resolve(ov, a) {
      JoinedAt(ov, fin, at, e, a);
    }
  }

  lemma JoinedDisjoint(ov: OverlayMap, fin: OverlayMap, at: nat, e: nat)
    requires Disjoint(ov) && Aligned(ov) && at > 0 && at - 1 in ov && e in ov && ov[e].start == at && e >= at
    requires fin == ov[e := Segment(ov[at - 1].start, None)] - {at - 1}
    ensures Disjoint(fin) && Aligned(fin)
  {
    forall x: nat | x in fin && x < e ensures x < fin[e].start {
      assert x in ov && x < at - 1;
    }
  }

  lemma JoinedAt(ov: OverlayMap, fin: OverlayMap, at: nat, e: nat, a: nat)
    requires Disjoint(ov) && Disjoint(fin) && at > 0 && at - 1 in ov && ov[at - 1].item.None? && e in ov && ov[e] == Segment(at, None) && e >= at
    requires fin == ov[e := Segment(ov[at - 1].start, None)] - {at - 1}
    ensures Resolve(fin, a) == Resolve(ov, a)
  {
    hide Resolve;
    var x := Find(ov, a);
    if x.None? {
      var y := Find(fin, a);
      if y.Some? {
        ResolveCovered(ov, if y.value == e && a < at then at - 1 else y.value, a);
      }
    } else {
      assert ov[at - 1].start < at;
      ResolveCovered(fin, if x.value == at - 1 then e else x.value, a);
    }
  }

  /** Neither side is local, and no segment reaches over `at`. */
  lemma NeitherLocal(ov: OverlayMap, fin: OverlayMap, at: nat)
    requires Disjoint(ov) && at > 0 && fin == ov[at - 1 := Segment(at, None)] && (at - 1 in ov ==> ov[at - 1].item.Some?)
    requires var e := NextKey(ov, at); e.Some? ==> ov[e.value].start >= at && !(ov[e.value].item.None? && ov[e.value].start == at)
    ensures !Beside(ov, at) && Damaged(fin, ov, at)
  {
    hide Disjoint, Resolve, Lost;
    NextBefore(ov, at);
    NotBeside(ov, at);
    forall a: nat ensures Resolve(fin, a) == if Lost(ov, at, a) then None else Resolve(ov, a) {
      DamagedAt(ov, fin, at, a);
    }
  }

  lemma NextBefore(ov: OverlayMap, at: nat)
    requires Disjoint(ov) && at > 0 && (NextKey(ov, at).Some? ==> ov[NextKey(ov, at).value].start >= at)
    ensures forall e: nat :: e in ov && e >= at ==> ov[e].start >= at
    ensures at - 1 in ov ==> ov[at - 1].start < at
  {
  }

  lemma NotBeside(ov: OverlayMap, at: nat)
    requires at > 0 && (at - 1 in ov ==> ov[at - 1].item.Some?) && forall e: nat :: e in ov && e >= at ==> ov[e].start >= at
    requires var e := NextKey(ov, at); e.Some? ==> !(ov[e.value].item.None? && ov[e.value].start == at)
    ensures !Beside(ov, at)
  {
  }

  lemma DamagedAt(ov: OverlayMap, fin: OverlayMap, at: nat, a: nat)
    requires Disjoint(ov) && at > 0 && at - 1 in fin && fin[at - 1].start == at
    requires forall j: nat :: j in fin <==> j in ov || j == at - 1
    requires forall j: nat :: j in ov && j != at - 1 ==> fin[j] == if j < at then ov[j] else CutFront(ov[j], at)
    ensures Resolve(fin, a) == if Lost(ov, at, a) then None else Resolve(ov, a)
  {
    var x, f := NextKey(ov, a), NextKey(fin, a);
    if a >= at {
      assert f == x;
    } else if x.Some? && x.value < at - 1 {
      assert f == x;
    } else {
      assert f == Some(at - 1);
      assert x.Some? && ov[x.value].start <= a ==> Covers(ov, x.value, a) && Covers(ov, x.value, at - 1);
    }
  }

  /** A borrowed segment that reaches over `at` loses what it has before `at`. */
  lemma FrontLost(ov: OverlayMap, fin: OverlayMap, at: nat, e: nat)
    requires Disjoint(ov) && at > 0 && NextKey(ov, at) == Some(e) && ov[e].start < at && ov[e].item.Some?
    requires fin == ov[e := CutFront(ov[e], at)][at - 1 := Segment(at, None)]
    ensures !Beside(ov, at) && Damaged(fin, ov, at)
  {
    Straddling(ov, at, e);
    assert forall j: nat :: j in ov && j > e ==> ov[j].start > e;
    hide Disjoint, Resolve, Lost;
    forall a: nat ensures Resolve(fin, a) == if Lost(ov, at, a) then None else Resolve(ov, a) {
      DamagedAt(ov, fin, at, a);
    }
  }

  /** It happens: behind one borrowed page, writing nothing loses that page. */
  lemma LostExample(c: Context, a: nat)
    requires a < PAGE_SIZE
    ensures var ov: OverlayMap := map[PAGE_SIZE - 1 := Segment(0, Some(OverlayItem(c, 0)))];
            && Disjoint(ov) && Aligned(ov) && Resolve(ov, a) == Some(Remote(c, a))
            && !Beside(ov, PAGE_SIZE) && Lost(ov, PAGE_SIZE, a)
  {
    var ov: OverlayMap := map[PAGE_SIZE - 1 := Segment(0, Some(OverlayItem(c, 0)))];
    assert Covers(ov, PAGE_SIZE - 1, a) && Covers(ov, PAGE_SIZE - 1, PAGE_SIZE - 1);
    ResolveCovered(ov, PAGE_SIZE - 1, a);
    ResolveCovered(ov, PAGE_SIZE - 1, PAGE_SIZE - 1);
    ResolveUncovered(ov, PAGE_SIZE);
  }
}
