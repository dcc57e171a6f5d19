/** What the searches through a trie may conclude from the size bits. */
module TrieSearch {
  import opened Bits
  import opened Layout
  import opened Rings
  import opened Tiling
  import opened Fields
  import opened IndexModel
  import opened IndexChanges
  import opened TrieChanges
  import opened TrieRemoval

  /** Slot t, which holds this size, is slot q or lies below it. */
  ghost predicate Under(t: Slot, size: nat, q: Slot) {
    && t.bin == q.bin && 0 <= ShiftAt(t) <= ShiftAt(q)
    && Shr(size, ShiftAt(t) + 1) == t.pos && Shr(size, ShiftAt(q) + 1) == q.pos
  }

  /** Chunk a lies at slot q or below it. */
  ghost predicate InSubtree(ix: Index, H: Heap, q: Slot, a: int) {
    a in ix.slot && Under(ix.slot[a], SizeOf(H, a), q)
  }

  lemma WholeTrie(ix: Index, H: Heap, n: nat, a: int)
    requires Shaped(ix, H) && n >= 32 && a in ix.slot && ix.slot[a].bin == n
    ensures InSubtree(ix, H, RootSlot(n), a)
  {
    BinMeansLarge(ix, H, a);
    RootPrefix(SizeOf(H, a));
    ShiftBelowRoot(ix, ix.slot[a]);
  }

  lemma BinMeansLarge(ix: Index, H: Heap, a: int)
    requires Placed(ix, H) && a in ix.slot && InTrie(ix.slot[a])
    ensures IsLarge(SizeOf(H, a)) && !IsHuge(SizeOf(H, a)) && SizeOf(H, a) % 8 == 0
  {
    hide LargeRequestIndex, ShiftAt, Shr;
    assert PlacedAt(ix.slot[a], SizeOf(H, a));
  }

  /** A slot below q lies below the child that its size selects, and that child exists. */
  lemma UnderSplit(ix: Index, t: Slot, size: nat, q: Slot)
    requires Rooted(ix) && t in ix.rings && q in ix.rings && InTrie(q) && Under(t, size, q) && t != q
    ensures ShiftAt(t) < ShiftAt(q) && 2 <= q.pos
    ensures Down(q, Bit(size, ShiftAt(q))) in ix.rings && Under(t, size, Down(q, Bit(size, ShiftAt(q))))
  {
    ShiftBelowRoot(ix, q);
    UnderStrictly(t, size, q);
    ChildOnPath(size, ShiftAt(q), q);
    AncestorPresent(ix, t, size, ShiftAt(q));
  }

  lemma UnderStrictly(t: Slot, size: nat, q: Slot)
    requires Under(t, size, q) && t != q
    ensures ShiftAt(t) < ShiftAt(q)
  {
  }

  /** A chunk below q lies below the child that its size selects, and that child exists. */
  lemma SubtreeSplit(ix: Index, H: Heap, q: Slot, a: int)
    requires Members(ix) && Rooted(ix) && q in ix.rings && InTrie(q) && InSubtree(ix, H, q, a) && ix.slot[a] != q
    ensures ShiftAt(q) >= 1 && Down(q, Bit(SizeOf(H, a), ShiftAt(q))) in ix.rings
    ensures InSubtree(ix, H, Down(q, Bit(SizeOf(H, a), ShiftAt(q))), a)
  {
    UnderSplit(ix, ix.slot[a], SizeOf(H, a), q);
  }

  /** Nothing lies at or below a slot without a circle. */
  lemma NothingUnder(ix: Index, t: Slot, size: nat, q: Slot)
    requires Rooted(ix) && t in ix.rings && InTrie(q) && Under(t, size, q) && ShiftAt(q) <= ShiftAt(RootSlot(q.bin))
    ensures q in ix.rings
  {
    hide Shr, ShiftAt, Rooted, RootSlot;
    AncestorPresent(ix, t, size, ShiftAt(q) + 1);
    assert q == Slot(t.bin, Shr(size, ShiftAt(q) + 1));
  }

  lemma EmptySubtree(ix: Index, H: Heap, q: Slot, a: int)
    requires Members(ix) && Rooted(ix) && InTrie(q) && InSubtree(ix, H, q, a)
    requires ShiftAt(q) <= ShiftAt(RootSlot(q.bin))
    ensures q in ix.rings
  {
    NothingUnder(ix, ix.slot[a], SizeOf(H, a), q);
  }

  /** Everything below the right child is larger than anything on the left side. */
  lemma RightIsLarger(left: nat, right: nat, k: nat)
    requires Shr(left, k + 1) == Shr(right, k + 1) && Bit(left, k) == 0 && Bit(right, k) == 1
    ensures left < right
  {
    if right <= left {
      ShrMonotone(right, left, k);
    }
  }

  lemma SameSlotSameSize(ix: Index, H: Heap, a: int, b: int)
    requires Distinct(ix, H) && a in ix.slot && b in ix.slot && ix.slot[a] == ix.slot[b] && InTrie(ix.slot[a])
    ensures SizeOf(H, a) == SizeOf(H, b)
  {
  }

  // ----- the walk to the smallest chunk

  /** Every chunk of the bin is at least `best`, or at least as large as the node in q, or
      still below q. */
  ghost predicate SmallestSoFar(ix: Index, H: Heap, q: Slot, size: nat, best: nat) {
    forall a {:trigger ix.slot[a]} :: a in ix.slot && ix.slot[a].bin == q.bin ==>
      SizeOf(H, a) >= best || SizeOf(H, a) >= size || InSubtree(ix, H, q, a)
  }

  lemma SmallestStarts(ix: Index, H: Heap, n: nat, size: nat, best: nat)
    requires Shaped(ix, H) && n >= 32
    ensures SmallestSoFar(ix, H, RootSlot(n), size, best)
  {
    forall a | a in ix.slot && ix.slot[a].bin == n
      ensures InSubtree(ix, H, RootSlot(n), a)
    {
      WholeTrie(ix, H, n, a);
    }
  }

  /** One step to the first child there is. */
  lemma SmallestStep(ix: Index, H: Heap, q: Slot, h: int, best: nat, bit: nat)
    requires Members(ix) && Pathed(ix, H) && Rooted(ix) && Distinct(ix, H)
    requires q in ix.rings && InTrie(q) && h in ix.slot && ix.slot[h] == q
    requires SmallestSoFar(ix, H, q, SizeOf(H, h), best) && best <= SizeOf(H, h)
    requires bit <= 1 && Down(q, bit) in ix.rings && (bit == 1 ==> Down(q, 0) !in ix.rings)
    ensures Head(ix, Down(q, bit)) in ix.slot && ix.slot[Head(ix, Down(q, bit))] == Down(q, bit)
    ensures SmallestSoFar(ix, H, Down(q, bit), SizeOf(H, Head(ix, Down(q, bit))), best)
  {
    var d := Down(q, bit);
    var k := ix.rings[d][0];
    assert k in ix.slot && ix.slot[k] == d;
    assert q.pos >= 2 by { var u := Up(q); }
    ShiftDown(q, bit);
    forall a | a in ix.slot && ix.slot[a].bin == q.bin && SizeOf(H, a) < best && SizeOf(H, a) < SizeOf(H, k)
      ensures InSubtree(ix, H, d, a)
    {
      assert InSubtree(ix, H, q, a);
      assert ix.slot[a] != q;
      SmallerIsBelow(ix, H, q, a, k, bit);
    }
  }

  /** A chunk below q that is smaller than the first child is below the first child. */
  lemma SmallerIsBelow(ix: Index, H: Heap, q: Slot, a: int, k: int, bit: nat)
    requires Members(ix) && Rooted(ix) && q in ix.rings && InTrie(q) && InSubtree(ix, H, q, a) && ix.slot[a] != q
    requires bit <= 1 && k in ix.slot && ix.slot[k] == Down(q, bit) && (bit == 1 ==> Down(q, 0) !in ix.rings)
    requires PathAt(Down(q, bit), SizeOf(H, k)) && SizeOf(H, a) < SizeOf(H, k)
    ensures InSubtree(ix, H, Down(q, bit), a)
  {
    SubtreeSplit(ix, H, q, a);
    assert q.pos >= 2 by { var u := Up(q); }
    ShiftDown(q, bit);
    if Bit(SizeOf(H, a), ShiftAt(q)) != bit {
      RightIsLarger(SizeOf(H, k), SizeOf(H, a), ShiftAt(q));
    }
  }

  lemma SmallestEnds(ix: Index, H: Heap, q: Slot, h: int, best: nat)
    requires Shaped(ix, H) && q in ix.rings && InTrie(q) && h in ix.slot && ix.slot[h] == q && IsLeaf(ix, q)
    requires SmallestSoFar(ix, H, q, SizeOf(H, h), best) && best <= SizeOf(H, h)
    ensures forall a {:trigger ix.slot[a]} :: a in ix.slot && ix.slot[a].bin == q.bin ==> SizeOf(H, a) >= best
  {
    forall a | a in ix.slot && ix.slot[a].bin == q.bin
      ensures SizeOf(H, a) >= best
    {
      if SizeOf(H, a) < best {
        SubtreeSplit(ix, H, q, a);
      }
    }
  }

  // ----- the search for a fit in the request's own bin

  /** While nothing has been found, whatever could serve the request is below q; a chunk
      of exactly the requested size always is. */
  ghost predicate FitBelow(ix: Index, H: Heap, q: Slot, request: nat, found: bool) {
    forall a {:trigger ix.slot[a]} :: a in ix.slot && ix.slot[a].bin == q.bin ==>
      (SizeOf(H, a) == request || (!found && SizeOf(H, a) >= request)) ==> InSubtree(ix, H, q, a)
  }

  lemma FitStarts(ix: Index, H: Heap, n: nat, request: nat)
    requires Shaped(ix, H) && n >= 32
    ensures FitBelow(ix, H, RootSlot(n), request, false)
  {
    forall a | a in ix.slot && ix.slot[a].bin == n
      ensures InSubtree(ix, H, RootSlot(n), a)
    {
      WholeTrie(ix, H, n, a);
    }
  }

  /** One step along the request's bits, past a node of another size: a larger chunk to
      the right counts as found. */
  lemma FitStep(ix: Index, H: Heap, q: Slot, h: int, request: nat, found: bool)
    requires Shaped(ix, H) && q in ix.rings && InTrie(q) && h in ix.slot && ix.slot[h] == q
    requires FitBelow(ix, H, q, request, found) && SizeOf(H, h) != request
    requires Shr(request, ShiftAt(q) + 1) == q.pos
    requires !found ==> SizeOf(H, h) < request
    requires !found && Bit(request, ShiftAt(q)) == 0 ==> Down(q, 1) !in ix.rings
    ensures FitBelow(ix, H, Down(q, Bit(request, ShiftAt(q))), request, found)
  {
    var d := Down(q, Bit(request, ShiftAt(q)));
    forall a | a in ix.slot && ix.slot[a].bin == q.bin
      && (SizeOf(H, a) == request || (!found && SizeOf(H, a) >= request))
      ensures InSubtree(ix, H, d, a)
    {
      if ix.slot[a] == q {
        SameSlotSameSize(ix, H, a, h);
      }
      SubtreeSplit(ix, H, q, a);
      if Bit(SizeOf(H, a), ShiftAt(q)) < Bit(request, ShiftAt(q)) {
        RightIsLarger(SizeOf(H, a), request, ShiftAt(q));
      }
    }
  }

  lemma FitEnds(ix: Index, H: Heap, q: Slot, request: nat, found: bool)
    requires Shaped(ix, H) && InTrie(q) && q !in ix.rings && ShiftAt(q) <= ShiftAt(RootSlot(q.bin))
    requires FitBelow(ix, H, q, request, found)
    ensures forall a {:trigger ix.slot[a]} :: a in ix.slot && ix.slot[a].bin == q.bin ==>
              SizeOf(H, a) != request && (!found ==> SizeOf(H, a) < request)
  {
    forall a | a in ix.slot && ix.slot[a].bin == q.bin
      ensures SizeOf(H, a) != request && (!found ==> SizeOf(H, a) < request)
    {
      if InSubtree(ix, H, q, a) {
        EmptySubtree(ix, H, q, a);
      }
    }
  }

  /** The right sibling of the request's path holds chunks larger than the request. */
  lemma RightChildFits(ix: Index, H: Heap, q: Slot, k: int, request: nat)
    requires k in ix.slot && ix.slot[k] == Down(q, 1) && PathAt(Down(q, 1), SizeOf(H, k)) && InTrie(q) && q.pos >= 2
    requires ShiftAt(q) >= 1 && Shr(request, ShiftAt(q) + 1) == q.pos && Bit(request, ShiftAt(q)) == 0
    ensures request < SizeOf(H, k)
  {
    ShiftDown(q, 1);
    assert Shr(SizeOf(H, k), ShiftAt(q)) == 2 * q.pos + 1;
    RightIsLarger(request, SizeOf(H, k), ShiftAt(q));
  }

  /** Two sizes of one bin are within a factor of two: twice the request is more than any
      size of the request's bin. */
  lemma TwiceTheRequest(ix: Index, H: Heap, a: int, request: nat)
    requires Placed(ix, H) && a in ix.slot && InTrie(ix.slot[a])
    requires IsLarge(request) && request % 8 == 0 && BinOf(request) == ix.slot[a].bin
    ensures SizeOf(H, a) < 2 * request
  {
    BinMeansLarge(ix, H, a);
    LargeIndexPrefix(SizeOf(H, a));
    LargeIndexPrefix(request);
    SameTopBit(SizeOf(H, a), request, TopBit(BinOf(request)));
  }

  lemma SmallestGoesDown(ix: Index, H: Heap, q: Slot, bit: nat)
    requires Rooted(ix) && q in ix.rings && InTrie(q) && bit <= 1
    ensures ShiftAt(Down(q, bit)) == ShiftAt(q) - 1
  {
    ShiftBelowRoot(ix, q);
    ShiftDown(q, bit);
  }

  /** The node in slot q on the request's path, with everything the search reads there. */
  ghost predicate FitView(m: seq<int>, ix: Index, H: Heap, q: Slot, h: int, request: nat) {
    && View(m, ix, H, q, h) && h in ix.slot && ix.slot[h] == q && q.pos >= 2 && ShiftAt(q) >= 2
    && TagShift(Field(m, h, TAG)) == ShiftAt(q) <= ShiftAt(RootSlot(q.bin))
    && Shr(request, ShiftAt(q) + 1) == q.pos
  }

  lemma FitViewNode(m: seq<int>, ix: Index, H: Heap, q: Slot, request: nat)
    requires Shaped(ix, H) && Carved(m, H) && TrieLinks(m, ix) && TrieTags(m, ix) && q in ix.rings && InTrie(q)
    requires ShiftAt(q) >= 0 && Shr(request, ShiftAt(q) + 1) == q.pos
    ensures FitView(m, ix, H, q, Head(ix, q), request)
  {
    ViewNode(m, ix, H, q);
    HeadNull(ix, H, m, q);
    ShiftBelowRoot(ix, q);
    TagOf(m, ix, H, Head(ix, q));
  }

  /** The candidate kept by the search: larger than the request, smaller than twice it. */
  ghost predicate Candidate(ix: Index, H: Heap, n: nat, request: nat, best: int, bestSize: int) {
    if best == NULL then bestSize == 2 * request
    else best in ix.slot && ix.slot[best].bin == n && SizeOf(H, best) == bestSize && request < bestSize
  }

  /** The right child of a node on the request's path is a candidate. */
  lemma RightCandidate(m: seq<int>, ix: Index, H: Heap, q: Slot, h: int, request: nat)
    requires Members(ix) && Placed(ix, H) && Carved(m, H) && FitView(m, ix, H, q, h, request)
    requires Bit(request, ShiftAt(q)) == 0 && Field(m, h, CHILD + 1) != NULL
    ensures var k := Field(m, h, CHILD + 1);
            k in H && k in ix.slot && ix.slot[k] == Down(q, 1) && request < SizeOf(H, k)
  {
    var d := Down(q, 1);
    assert d in ix.rings;
    var k := ix.rings[d][0];
    assert k in ix.slot && ix.slot[k] == d;
    assert PathAt(d, SizeOf(H, k));
    RightChildFits(ix, H, q, k, request);
  }

  lemma FitStepDown(m: seq<int>, ix: Index, H: Heap, q: Slot, h: int, request: nat)
    requires FitView(m, ix, H, q, h, request)
    ensures var bit := Bit(request, ShiftAt(q));
            var d := Down(q, bit);
            Field(m, h, CHILD + bit) == Head(ix, d) && (Head(ix, d) != NULL <==> d in ix.rings)
            && ShiftAt(d) == ShiftAt(q) - 1 && Shr(request, ShiftAt(d) + 1) == d.pos
  {
    ChildOnPath(request, ShiftAt(q), q);
  }

  /** Slot q, holding `current` or nothing, is on the path of the request. */
  ghost predicate FitPlace(ix: Index, q: Slot, current: int, request: nat) {
    && InTrie(q) && current == Head(ix, q) && (current != NULL <==> q in ix.rings)
    && q.bin == BinOf(request) && 0 <= ShiftAt(q) <= ShiftAt(RootSlot(q.bin)) && Shr(request, ShiftAt(q) + 1) == q.pos
  }

  lemma FitPlaceStarts(m: seq<int>, ix: Index, H: Heap, request: nat)
    requires Shaped(ix, H) && Carved(m, H) && IsLarge(request) && !IsHuge(request) && request % 8 == 0
    ensures var q := RootSlot(BinOf(request));
            32 <= q.bin <= 63 && FitPlace(ix, q, Head(ix, q), request)
  {
    RootPrefix(request);
    HeadNull(ix, H, m, RootSlot(BinOf(request)));
  }

  lemma FitKeeps(ix: Index, H: Heap, q: Slot, h: int, request: nat, best0: int, best: int, bit: nat)
    requires Shaped(ix, H) && q in ix.rings && InTrie(q) && h in ix.slot && ix.slot[h] == q
    requires FitBelow(ix, H, q, request, best0 != NULL) && SizeOf(H, h) != request && (best0 != NULL ==> best != NULL)
    requires ShiftAt(q) >= 0 && Shr(request, ShiftAt(q) + 1) == q.pos && bit == Bit(request, ShiftAt(q))
    requires best == NULL ==> SizeOf(H, h) < request && (bit == 0 ==> Down(q, 1) !in ix.rings)
    ensures FitBelow(ix, H, Down(q, bit), request, best != NULL)
  {
    FitBelowWeaker(ix, H, q, request, best0 != NULL, best != NULL);
    FitStep(ix, H, q, h, request, best != NULL);
  }

  lemma FitPlaceStep(m: seq<int>, ix: Index, H: Heap, q: Slot, current: int, request: nat, bit: nat, d: Slot)
    requires FitView(m, ix, H, q, current, request) && q.bin == BinOf(request)
    requires bit == Bit(request, ShiftAt(q)) && d == Down(q, bit)
    ensures Field(m, current, CHILD + bit) == Head(ix, d) && ShiftAt(d) < ShiftAt(q)
    ensures FitPlace(ix, d, Head(ix, d), request)
  {
    FitStepDown(m, ix, H, q, current, request);
  }

  lemma FitBelowWeaker(ix: Index, H: Heap, q: Slot, request: nat, found0: bool, found: bool)
    requires FitBelow(ix, H, q, request, found0) && (found0 ==> found)
    ensures FitBelow(ix, H, q, request, found)
  {
  }

  // ----- exactly which chunk the search of the own bin finds

  /** Chunk c is the first of its circle: in a trie the node, the others being its peers. */
  ghost predicate IsNode(ix: Index, c: int) {
    c in ix.slot && c == Head(ix, ix.slot[c])
  }

  ghost predicate OnRequestPath(s: Slot, request: nat) {
    && InTrie(s) && s.bin == BinOf(request)
    && 0 <= ShiftAt(s) <= ShiftAt(RootSlot(s.bin)) && Shr(request, ShiftAt(s) + 1) == s.pos
  }

  /** Slot s is the right child of a slot on the request's path, and the request goes left. */
  ghost predicate BesidePath(s: Slot, request: nat) {
    && s.pos >= 4 && s.pos % 2 == 1 && OnRequestPath(Up(s), request)
    && Shr(request, ShiftAt(Up(s))) == 2 * Up(s).pos
  }

  /** The search for this request compares the node in slot s. */
  ghost predicate Looked(s: Slot, request: nat) {
    OnRequestPath(s, request) || BesidePath(s, request)
  }

  /** best is the smallest fitting node among those the search looks at. */
  ghost predicate SmallestLooked(ix: Index, H: Heap, request: nat, best: int) {
    && (best != NULL ==> IsNode(ix, best) && Looked(ix.slot[best], request) && SizeOf(H, best) >= request)
    && (forall a {:trigger ix.slot[a]} :: a in ix.slot && Looked(ix.slot[a], request) && SizeOf(H, a) >= request ==>
          best != NULL && SizeOf(H, best) <= SizeOf(H, a))
  }

  /** The search has looked at slot s before it comes to slot q. */
  ghost predicate LookedBefore(s: Slot, q: Slot, request: nat) {
    || (OnRequestPath(s, request) && ShiftAt(s) > ShiftAt(q))
    || (BesidePath(s, request) && ShiftAt(Up(s)) > ShiftAt(q))
  }

  ghost predicate BestSoFar(ix: Index, H: Heap, q: Slot, request: nat, best: int, bestSize: int) {
    && (best != NULL ==> IsNode(ix, best) && LookedBefore(ix.slot[best], q, request))
    && (forall a {:trigger ix.slot[a]} ::
          a in ix.slot && LookedBefore(ix.slot[a], q, request) && SizeOf(H, a) >= request ==>
          best != NULL && bestSize <= SizeOf(H, a))
  }

  lemma BestStarts(ix: Index, H: Heap, request: nat, bestSize: int)
    ensures BestSoFar(ix, H, RootSlot(BinOf(request)), request, NULL, bestSize)
  {
  }

  /** What the comparisons at node h in slot q leave as the best candidate; `left` says that
      the request goes left there. */
  ghost predicate Compared(ix: Index, H: Heap, q: Slot, h: int, request: nat, left: bool, best0: int, size0: int,
                           best: int, size: int) {
    var r := Down(q, 1);
    && (best0 != NULL ==> best != NULL && size <= size0)
    && (SizeOf(H, h) > request ==> best != NULL && size <= SizeOf(H, h))
    && (left && r in ix.rings ==> best != NULL && size <= SizeOf(H, Head(ix, r)))
    && (best == best0 || best == h || (left && r in ix.rings && best == Head(ix, r)))
  }

  lemma OnPathNext(s: Slot, q: Slot, request: nat, k: int)
    requires OnRequestPath(q, request) && k == ShiftAt(q) - 1 && OnRequestPath(s, request)
    ensures ShiftAt(s) > k <==> ShiftAt(s) > ShiftAt(q) || s == q
  {
    hide Shr, BinOf, ShiftAt;
  }

  lemma BesideNext(s: Slot, q: Slot, request: nat, k: int, bit: nat)
    requires OnRequestPath(q, request) && q.pos >= 2 && k == ShiftAt(q) - 1 && BesidePath(s, request)
    requires Shr(request, ShiftAt(q)) == 2 * q.pos + bit && bit <= 1
    ensures ShiftAt(Up(s)) > k <==> ShiftAt(Up(s)) > ShiftAt(q) || (bit == 0 && s == Down(q, 1))
  {
    hide Shr, BinOf;
    OnPathNext(Up(s), q, request, k);
    ShiftDown(q, 1);
    hide ShiftAt;
    if Up(s) == q {
      assert s == Down(q, 1);
    }
    if s == Down(q, 1) {
      assert Up(s) == q;
    }
  }

  lemma DownIsBeside(q: Slot, request: nat)
    requires OnRequestPath(q, request) && q.pos >= 2 && Shr(request, ShiftAt(q)) == 2 * q.pos
    ensures BesidePath(Down(q, 1), request)
  {
    ShiftDown(q, 1);
  }

  /** Among the slots looked at, those before the next slot are those before q, q itself and
      the right child of q when the request goes left. */
  lemma LookedNext(s: Slot, q: Slot, request: nat, d: Slot, bit: nat)
    requires OnRequestPath(q, request) && q.pos >= 2 && d == Down(q, bit) && bit == Bit(request, ShiftAt(q))
    ensures LookedBefore(s, d, request) <==> LookedBefore(s, q, request) || s == q || (bit == 0 && s == Down(q, 1))
  {
    hide Shr, BinOf, OnRequestPath, BesidePath;
    PathBit(q, request);
    ShiftDown(q, bit);
    if bit == 0 {
      DownIsBeside(q, request);
    }
    if OnRequestPath(s, request) {
      OnPathNext(s, q, request, ShiftAt(d));
    }
    if BesidePath(s, request) {
      BesideNext(s, q, request, ShiftAt(d), bit);
    }
  }

  lemma PathBit(q: Slot, request: nat)
    requires OnRequestPath(q, request)
    ensures ShiftAt(q) >= 0 && Shr(request, ShiftAt(q)) == 2 * q.pos + Bit(request, ShiftAt(q))
  {
  }

  lemma BestStep(ix: Index, H: Heap, q: Slot, h: int, request: nat, best0: int, size0: int, best: int, size: int,
                 d: Slot, bit: nat)
    requires Members(ix) && Distinct(ix, H) && OnRequestPath(q, request) && q.pos >= 2 && InTrie(q)
    requires IsNode(ix, h) && ix.slot[h] == q && SizeOf(H, h) != request
    requires bit == Bit(request, ShiftAt(q)) && d == Down(q, bit)
    requires BestSoFar(ix, H, q, request, best0, size0)
    requires Compared(ix, H, q, h, request, bit == 0, best0, size0, best, size)
    ensures BestSoFar(ix, H, d, request, best, size)
  {
    hide LookedBefore, ShiftAt, BinOf, OnRequestPath, Bit;
    var r := Down(q, 1);
    if r in ix.rings {
      assert ix.rings[r][0] in ix.slot && ix.slot[ix.rings[r][0]] == r;
    }
    if best != NULL {
      LookedNext(ix.slot[best], q, request, d, bit);
    }
    forall a | a in ix.slot && LookedBefore(ix.slot[a], d, request) && SizeOf(H, a) >= request
      ensures best != NULL && size <= SizeOf(H, a)
    {
      LookedNext(ix.slot[a], q, request, d, bit);
      if ix.slot[a] == q {
        SameSlotSameSize(ix, H, a, h);
      } else if ix.slot[a] == r {
        SameSlotSameSize(ix, H, a, ix.rings[r][0]);
      }
    }
  }

  /** Where the path falls off, the search has looked at every slot it looks at. */
  lemma LookedAll(ix: Index, s: Slot, q: Slot, request: nat)
    requires Rooted(ix) && s in ix.rings && InTrie(s) && OnRequestPath(q, request) && q !in ix.rings
    requires Looked(s, request)
    ensures LookedBefore(s, q, request)
  {
    if OnRequestPath(s, request) && ShiftAt(s) <= ShiftAt(q) {
      NothingUnder(ix, s, request, q);
    }
    if BesidePath(s, request) && ShiftAt(Up(s)) <= ShiftAt(q) {
      assert Up(s) in ix.rings;
      NothingUnder(ix, Up(s), request, q);
    }
  }

  lemma BestEnds(ix: Index, H: Heap, q: Slot, request: nat, best: int, size: int)
    requires Members(ix) && Rooted(ix) && OnRequestPath(q, request) && q !in ix.rings
    requires BestSoFar(ix, H, q, request, best, size) && (best != NULL ==> SizeOf(H, best) == size >= request)
    ensures SmallestLooked(ix, H, request, best)
  {
    forall a | a in ix.slot && Looked(ix.slot[a], request) && SizeOf(H, a) >= request
      ensures best != NULL && SizeOf(H, best) <= SizeOf(H, a)
    {
      assert InTrie(ix.slot[a]);
      LookedAll(ix, ix.slot[a], q, request);
    }
  }

  lemma ExactHit(ix: Index, H: Heap, q: Slot, request: nat, best: int)
    requires best != NULL && IsNode(ix, best) && ix.slot[best] == q && OnRequestPath(q, request)
    requires SizeOf(H, best) == request
    ensures SmallestLooked(ix, H, request, best)
  {
    hide OnRequestPath, BesidePath;
  }

  // ----- whole bins

  lemma EmptyBin(ix: Index, H: Heap, n: nat)
    requires Shaped(ix, H) && n >= 32 && RootSlot(n) !in ix.rings
    ensures forall a {:trigger ix.slot[a]} :: a in ix.slot ==> ix.slot[a].bin != n
  {
    forall a | a in ix.slot
      ensures ix.slot[a].bin != n
    {
      if ix.slot[a].bin == n {
        ShiftBelowRoot(ix, ix.slot[a]);
      }
    }
  }

  lemma EmptyList(ix: Index, H: Heap, n: nat)
    requires Shaped(ix, H) && n <= 31 && Slot(n, 0) !in ix.rings
    ensures forall a {:trigger ix.slot[a]} :: a in ix.slot ==> ix.slot[a].bin != n
  {
  }

  lemma BestOfList(ix: Index, H: Heap, request: nat, best: int)
    requires Shaped(ix, H) && Slot(2, 0) in ix.rings
    requires var r := ix.rings[Slot(2, 0)];
             (best != NULL && SizeOf(H, best) == request)
             || forall j {:trigger r[j]} :: 0 <= j < |r| && SizeOf(H, r[j]) >= request ==>
                  best != NULL && SizeOf(H, best) <= SizeOf(H, r[j])
    ensures forall a {:trigger ix.slot[a]} :: a in ix.slot && ix.slot[a].bin == 2 && SizeOf(H, a) >= request ==>
              best != NULL && SizeOf(H, best) <= SizeOf(H, a)
  {
    var r := ix.rings[Slot(2, 0)];
    forall a | a in ix.slot && ix.slot[a].bin == 2 && SizeOf(H, a) >= request
      ensures best != NULL && SizeOf(H, best) <= SizeOf(H, a)
    {
      assert ix.slot[a] == Slot(2, 0) && a in r;
      var j :| 0 <= j < |r| && r[j] == a;
    }
  }

  // ----- what the searches promise

  /** best is the smallest node of the first non-empty trie among the bins after n that a
      search inspects, NULL when they are all empty. */
  ghost predicate SmallestAbove(ix: Index, H: Heap, n: nat, best: int) {
    if best == NULL then
      forall a {:trigger ix.slot[a]} :: a in ix.slot ==> !(n < ix.slot[a].bin <= n + LARGE_BIN_SEARCH_MAX)
    else
      && IsNode(ix, best) && n < ix.slot[best].bin <= n + LARGE_BIN_SEARCH_MAX
      && forall a {:trigger ix.slot[a]} :: a in ix.slot && n < ix.slot[a].bin <= ix.slot[best].bin ==>
           SizeOf(H, a) >= SizeOf(H, best)
  }

  /** best is in the request's own bin and fits, exactly if any chunk of that bin fits
      exactly, and is the smallest the search looks at; when nothing there fits, it is the
      smallest chunk of the first non-empty bin above. */
  ghost predicate BestFor(ix: Index, H: Heap, request: nat, best: int) {
    if exists a :: a in ix.slot && ix.slot[a].bin == BinOf(request) && SizeOf(H, a) >= request then
      && best in ix.slot && ix.slot[best].bin == BinOf(request) && SizeOf(H, best) >= request
      && SmallestLooked(ix, H, request, best)
      && forall a {:trigger ix.slot[a]} :: a in ix.slot && SizeOf(H, a) == request ==> SizeOf(H, best) == request
    else SmallestAbove(ix, H, BinOf(request), best)
  }

  /** A search of the bins above n comes to the entry after the last bin. */
  ghost predicate ReachesPastBins(ix: Index, n: nat) {
    && n + LARGE_BIN_SEARCH_MAX >= NUM_OF_BINS
    && forall a {:trigger ix.slot[a]} :: a in ix.slot ==> ix.slot[a].bin <= n
  }

  /** The search for a large request does: nothing in its own bin fits, at most fifteen bins
      lie above that one, and they are empty. */
  ghost predicate ReadsPastBins(ix: Index, H: Heap, request: nat) {
    && (forall a {:trigger ix.slot[a]} :: a in ix.slot && ix.slot[a].bin == BinOf(request) ==> SizeOf(H, a) < request)
    && ReachesPastBins(ix, BinOf(request))
  }

  /** With empty bins, as after my_init, that is every large request from 64 KB on. */
  lemma EmptyReadsPastBins(H: Heap, request: nat)
    requires IsLarge(request) && !IsHuge(request) && request % 8 == 0
    ensures ReadsPastBins(Index(map[], map[]), H, request) <==> request >= 65536
  {
    LargeIndexPrefix(request);
    Log2Bound(request, 16);
    assert Pow2(8) == 256;
    assert Pow2(16) == 65536;
  }

  /** Nothing before place i of circle r has the size of the chunk there. */
  ghost predicate FirstOfSize(r: seq<int>, H: Heap, i: nat) {
    i < |r| && forall j {:trigger r[j]} :: 0 <= j < i ==> SizeOf(H, r[j]) != SizeOf(H, r[i])
  }

  /** best is the smallest chunk of the huge bin that fits, the first of that size. */
  ghost predicate BestHuge(ix: Index, H: Heap, request: nat, best: int) {
    && (best != NULL ==>
          exists i: nat :: FirstOfSize(Circle(ix, Slot(2, 0)), H, i) && best == Circle(ix, Slot(2, 0))[i])
    && (best != NULL ==> best in ix.slot && ix.slot[best].bin == 2 && SizeOf(H, best) >= request)
    && (forall a {:trigger ix.slot[a]} :: a in ix.slot && ix.slot[a].bin == 2 && SizeOf(H, a) >= request ==>
          best != NULL && SizeOf(H, best) <= SizeOf(H, a))
  }

  lemma FirstSeen(r: seq<int>, H: Heap, i: nat)
    requires i < |r| && forall j {:trigger r[j]} :: 0 <= j < i ==> SizeOf(H, r[j]) != SizeOf(H, r[i])
    ensures FirstOfSize(r, H, i)
  {
  }

  lemma FirstOnCircle(ix: Index, H: Heap, request: nat, best: int, i: nat)
    requires Slot(2, 0) in ix.rings
    requires best != NULL ==> i < |ix.rings[Slot(2, 0)]| && best == ix.rings[Slot(2, 0)][i]
                              && FirstOfSize(ix.rings[Slot(2, 0)], H, i)
    requires best != NULL ==> best in ix.slot && ix.slot[best].bin == 2 && SizeOf(H, best) >= request
    requires forall a {:trigger ix.slot[a]} :: a in ix.slot && ix.slot[a].bin == 2 && SizeOf(H, a) >= request ==>
               best != NULL && SizeOf(H, best) <= SizeOf(H, a)
    ensures BestHuge(ix, H, request, best)
  {
    assert Circle(ix, Slot(2, 0)) == ix.rings[Slot(2, 0)];
  }
}
