/** The search of a large request's own bin: exactly when what it finds is a best fit. */
module BestFit {
  import opened Bits
  import opened Layout
  import opened Tiling
  import opened IndexModel
  import opened TrieChanges
  import opened TrieSearch

  /** best is no larger than any chunk of the request's bin that fits. */
  ghost predicate BestFitting(ix: Index, H: Heap, request: nat, best: int) {
    forall a {:trigger ix.slot[a]} :: a in ix.slot && ix.slot[a].bin == BinOf(request) && SizeOf(H, a) >= request ==>
      SizeOf(H, best) <= SizeOf(H, a)
  }

  /** Slot t is the deepest right sibling of the request's path that holds a node. */
  ghost predicate LastSibling(ix: Index, t: Slot, request: nat) {
    && t in ix.rings && BesidePath(t, request)
    && forall u {:trigger BesidePath(u, request)} ::
         u in ix.rings && BesidePath(u, request) ==> ShiftAt(t) <= ShiftAt(u)
  }

  /** Chunk a lies strictly below slot t. */
  ghost predicate StrictlyBelow(ix: Index, H: Heap, t: Slot, a: int) {
    InSubtree(ix, H, t, a) && ix.slot[a] != t
  }

  /** Some fitting node on the request's path is no larger than chunk a. */
  ghost predicate PathServes(ix: Index, H: Heap, request: nat, a: int) {
    exists p :: p in ix.slot && OnRequestPath(ix.slot[p], request) && request <= SizeOf(H, p) <= SizeOf(H, a)
  }

  /** Nothing strictly below the last sibling is smaller than both that sibling and every
      fitting node on the path. */
  ghost predicate NothingHidden(ix: Index, H: Heap, request: nat) {
    forall t, a {:trigger LastSibling(ix, t, request), StrictlyBelow(ix, H, t, a)} ::
      LastSibling(ix, t, request) && StrictlyBelow(ix, H, t, a) ==>
        SizeOf(H, Head(ix, t)) <= SizeOf(H, a) || PathServes(ix, H, request, a)
  }

  // ----- siblings of the path

  /** Every chunk at or below a right sibling of the path is larger than the request. */
  lemma SiblingFits(ix: Index, H: Heap, t: Slot, a: int, request: nat)
    requires BesidePath(t, request) && InSubtree(ix, H, t, a)
    ensures SizeOf(H, a) > request && ix.slot[a].bin == BinOf(request)
  {
    hide BinOf, ShiftAt;
    SiblingShift(t);
    assert Shr(SizeOf(H, a), ShiftAt(Up(t))) == t.pos;
    SmallerPrefix(request, SizeOf(H, a), ShiftAt(Up(t)));
  }

  lemma SiblingShift(t: Slot)
    requires t.pos >= 4
    ensures ShiftAt(Up(t)) == ShiftAt(t) + 1
  {
  }

  lemma SmallerPrefix(x: nat, y: nat, k: nat)
    requires Shr(x, k) < Shr(y, k)
    ensures x < y
  {
    if y <= x {
      ShrMonotone(y, x, k);
    }
  }

  /** Of two right siblings of the path, everything below the deeper one is smaller. */
  lemma DeeperIsSmaller(ix: Index, H: Heap, t: Slot, a: int, u: Slot, b: int, request: nat)
    requires BesidePath(t, request) && BesidePath(u, request) && ShiftAt(t) < ShiftAt(u)
    requires InSubtree(ix, H, t, a) && InSubtree(ix, H, u, b)
    ensures SizeOf(H, a) < SizeOf(H, b)
  {
    hide BinOf, ShiftAt;
    SiblingShift(t);
    SiblingShift(u);
    var i, k, x := ShiftAt(Up(t)), ShiftAt(Up(u)), SizeOf(H, a);
    assert Shr(x, i) == t.pos && t.pos / 2 == Up(t).pos;
    ShrStep(x, i);
    ShrAdd(x, i + 1, k - i - 1);
    ShrAdd(request, i + 1, k - i - 1);
    assert Shr(x, k) == Shr(request, k);
    SmallerPrefix(x, SizeOf(H, b), k);
  }

  lemma ShrStep(x: nat, k: nat)
    ensures Shr(x, k + 1) == Shr(x, k) / 2
  {
  }

  /** On one level the path has one right sibling. */
  lemma SameLevelSameSlot(t: Slot, u: Slot, request: nat)
    requires BesidePath(t, request) && BesidePath(u, request) && ShiftAt(t) == ShiftAt(u)
    ensures t == u
  {
    hide BinOf, ShiftAt, Shr;
    SiblingShift(t);
    SiblingShift(u);
    assert Up(t).pos == Up(u).pos;
    assert t.pos == 2 * Up(t).pos + 1 && u.pos == 2 * Up(u).pos + 1;
  }

  /** A fitting chunk of the bin that is off the path lies at or below a right sibling: where
      its size and the request part, the request goes left. */
  lemma {:induction false} OffPath(ix: Index, H: Heap, q: Slot, a: int, request: nat) returns (t: Slot)
    requires Members(ix) && Rooted(ix) && q in ix.rings && OnRequestPath(q, request) && InSubtree(ix, H, q, a)
    requires SizeOf(H, a) >= request && !OnRequestPath(ix.slot[a], request)
    ensures t in ix.rings && BesidePath(t, request) && InSubtree(ix, H, t, a)
    decreases ShiftAt(q)
  {
    hide BinOf, InSubtree;
    SubtreeSplit(ix, H, q, a);
    assert q.pos >= 2 by { var u := Up(q); }
    var bit := Bit(SizeOf(H, a), ShiftAt(q));
    t := Down(q, bit);
    PathBit(q, request);
    if bit == Bit(request, ShiftAt(q)) {
      DownOnPath(q, request, bit);
      t := OffPath(ix, H, t, a, request);
    } else {
      assert bit == 1 by { GoesRight(ix, H, q, a, request); }
      DownIsBeside(q, request);
    }
  }

  lemma DownOnPath(q: Slot, request: nat, bit: nat)
    requires OnRequestPath(q, request) && q.pos >= 2 && ShiftAt(q) >= 1 && bit == Bit(request, ShiftAt(q))
    ensures OnRequestPath(Down(q, bit), request) && ShiftAt(Down(q, bit)) == ShiftAt(q) - 1
  {
    hide BinOf, Shr, ShiftAt;
    PathBit(q, request);
    ShiftDown(q, bit);
    assert Shr(request, ShiftAt(q)) == Down(q, bit).pos;
  }

  lemma GoesRight(ix: Index, H: Heap, q: Slot, a: int, request: nat)
    requires OnRequestPath(q, request) && InSubtree(ix, H, q, a) && SizeOf(H, a) >= request
    ensures Bit(SizeOf(H, a), ShiftAt(q)) >= Bit(request, ShiftAt(q))
  {
    hide BinOf;
    if Bit(SizeOf(H, a), ShiftAt(q)) < Bit(request, ShiftAt(q)) {
      RightIsLarger(SizeOf(H, a), request, ShiftAt(q));
    }
  }

  /** If any right sibling holds a node, one of them is the last. */
  lemma {:induction false} SomeLast(ix: Index, t: Slot, request: nat) returns (d: Slot)
    requires t in ix.rings && BesidePath(t, request)
    ensures LastSibling(ix, d, request) && ShiftAt(d) <= ShiftAt(t)
    decreases ShiftAt(t) + 1
  {
    hide BesidePath;
    d := t;
    SiblingAboveZero(t, request);
    if u :| u in ix.rings && BesidePath(u, request) && ShiftAt(u) < ShiftAt(t) {
      SiblingAboveZero(u, request);
      d := SomeLast(ix, u, request);
    }
  }

  lemma SiblingAboveZero(t: Slot, request: nat)
    requires BesidePath(t, request)
    ensures ShiftAt(t) >= -1
  {
    SiblingShift(t);
  }

  // ----- the theorem

  /** If nothing is hidden, some chunk the search looks at is no larger than chunk a. */
  lemma LookedServes(ix: Index, H: Heap, request: nat, a: int) returns (x: int)
    requires Shaped(ix, H) && IsLarge(request) && !IsHuge(request) && request % 8 == 0 && NothingHidden(ix, H, request)
    requires a in ix.slot && ix.slot[a].bin == BinOf(request) && SizeOf(H, a) >= request
    ensures x in ix.slot && Looked(ix.slot[x], request) && request <= SizeOf(H, x) <= SizeOf(H, a)
  {
    x := a;
    if !OnRequestPath(ix.slot[a], request) {
      var n := BinOf(request);
      RootPrefix(request);
      WholeTrie(ix, H, n, a);
      ShiftBelowRoot(ix, ix.slot[a]);
      hide Shaped, NothingHidden, InSubtree, OnRequestPath, BesidePath, BinOf;
      RootOnPath(request);
      var t := OffPath(ix, H, RootSlot(n), a, request);
      var d := SomeLast(ix, t, request);
      x := SiblingServes(ix, H, request, a, t, d);
    }
  }

  lemma RootOnPath(request: nat)
    requires IsLarge(request) && !IsHuge(request) && request % 8 == 0
    ensures OnRequestPath(RootSlot(BinOf(request)), request)
  {
    RootPrefix(request);
  }

  lemma SiblingServes(ix: Index, H: Heap, request: nat, a: int, t: Slot, d: Slot) returns (x: int)
    requires Shaped(ix, H) && NothingHidden(ix, H, request) && a in ix.slot && InTrie(t)
    requires t in ix.rings && BesidePath(t, request) && InSubtree(ix, H, t, a)
    requires LastSibling(ix, d, request) && ShiftAt(d) <= ShiftAt(t)
    ensures x in ix.slot && Looked(ix.slot[x], request) && request <= SizeOf(H, x) <= SizeOf(H, a)
  {
    hide BesidePath, OnRequestPath, BinOf, Under;
    HeadBelow(ix, H, d, request);
    x := Head(ix, d);
    SiblingFits(ix, H, d, x, request);
    if ShiftAt(d) < ShiftAt(t) {
      DeeperIsSmaller(ix, H, d, x, t, a, request);
    } else {
      SameLevelSameSlot(d, t, request);
      if ix.slot[a] == d {
        SameSlotSameSize(ix, H, a, x);
      } else {
        assert StrictlyBelow(ix, H, d, a);
        if SizeOf(H, a) < SizeOf(H, x) {
          var p :| p in ix.slot && OnRequestPath(ix.slot[p], request) && request <= SizeOf(H, p) <= SizeOf(H, a);
          x := p;
        }
      }
    }
  }

  /** The node in a sibling slot is in that slot's subtree. */
  lemma HeadBelow(ix: Index, H: Heap, t: Slot, request: nat)
    requires Members(ix) && Placed(ix, H) && t in ix.rings && BesidePath(t, request)
    ensures InTrie(t) && Head(ix, t) in ix.slot && ix.slot[Head(ix, t)] == t && InSubtree(ix, H, t, Head(ix, t))
  {
    hide BinOf, Shr;
    assert ix.rings[t][0] in ix.slot && ix.slot[ix.rings[t][0]] == t;
    assert PathAt(t, SizeOf(H, Head(ix, t)));
  }

  /** What lies strictly below the last sibling and is smaller than that sibling and every
      fitting node on the path is smaller than anything the search looks at. */
  lemma HiddenIsSmaller(ix: Index, H: Heap, request: nat, t: Slot, a: int, x: int)
    requires Shaped(ix, H) && LastSibling(ix, t, request) && StrictlyBelow(ix, H, t, a)
    requires SizeOf(H, a) < SizeOf(H, Head(ix, t)) && !PathServes(ix, H, request, a)
    requires x in ix.slot && Looked(ix.slot[x], request) && SizeOf(H, x) >= request
    ensures SizeOf(H, a) < SizeOf(H, x)
  {
    hide BesidePath, OnRequestPath, BinOf, Under, ShiftAt;
    HeadBelow(ix, H, t, request);
    if BesidePath(ix.slot[x], request) {
      var u := ix.slot[x];
      InOwnSubtree(ix, H, u, x, request);
      if ShiftAt(t) < ShiftAt(u) {
        DeeperIsSmaller(ix, H, t, a, u, x, request);
      } else {
        SameLevelSameSlot(t, u, request);
        SameSlotSameSize(ix, H, x, Head(ix, t));
      }
    }
  }

  lemma InOwnSubtree(ix: Index, H: Heap, u: Slot, x: int, request: nat)
    requires Members(ix) && Placed(ix, H) && x in ix.slot && ix.slot[x] == u && BesidePath(u, request)
    ensures u in ix.rings && InSubtree(ix, H, u, x)
  {
    hide BinOf, Shr;
    assert PathAt(u, SizeOf(H, x));
  }

  /** What the search of the own bin finds is a best fit if and only if nothing strictly below
      the last right sibling of the path is smaller than both that sibling and every fitting
      node on the path. */
  lemma BestFitExactly(ix: Index, H: Heap, request: nat, best: int)
    requires Shaped(ix, H) && IsLarge(request) && !IsHuge(request) && request % 8 == 0
    requires SmallestLooked(ix, H, request, best) && best != NULL
    ensures BestFitting(ix, H, request, best) <==> NothingHidden(ix, H, request)
  {
    hide Shaped, Looked, BinOf, LastSibling, StrictlyBelow, PathServes;
    if NothingHidden(ix, H, request) {
      forall a | a in ix.slot && ix.slot[a].bin == BinOf(request) && SizeOf(H, a) >= request
        ensures SizeOf(H, best) <= SizeOf(H, a)
      {
        var x := LookedServes(ix, H, request, a);
        assert Looked(ix.slot[x], request);
      }
    }
    if BestFitting(ix, H, request, best) {
      forall t, a | LastSibling(ix, t, request) && StrictlyBelow(ix, H, t, a)
        ensures SizeOf(H, Head(ix, t)) <= SizeOf(H, a) || PathServes(ix, H, request, a)
      {
        BelowSiblingFits(ix, H, t, a, request);
        if SizeOf(H, a) < SizeOf(H, Head(ix, t)) && !PathServes(ix, H, request, a) {
          HiddenIsSmaller(ix, H, request, t, a, best);
        }
      }
    }
  }

  lemma BelowSiblingFits(ix: Index, H: Heap, t: Slot, a: int, request: nat)
    requires LastSibling(ix, t, request) && StrictlyBelow(ix, H, t, a)
    ensures a in ix.slot && ix.slot[a].bin == BinOf(request) && SizeOf(H, a) >= request
  {
    SiblingFits(ix, H, t, a, request);
  }
}
