/** Where free chunks are kept: what each call makes of the index and of the victim.

    The index is the abstract one, v the victim or NULL, `last` the end-of-heap chunk. A chunk
    that leaves the index leaves it as TakenOut says, and one that enters it gets the slot of
    its size, so that the heap, the index and the victim after a call are determined by those
    before it. */
module Places {
  import opened Layout
  import opened Rings
  import opened Tiling
  import opened IndexModel
  import opened IndexChanges
  import opened TrieChanges
  import opened TrieRemoval
  import opened HeapOps
  import opened HeapModel
  import opened AllocatorSteps
  import opened ReallocSteps

  /** Free chunk c has left the one place that held it: the victim's or its bin. */
  ghost predicate Released(ix: Index, v: int, ix': Index, v': int, c: int) {
    && Members(ix') && Rooted(ix')
    && if c == v then ix' == ix && v' == NULL else v' == v && TakenOut(ix, ix', c)
  }

  /** Free chunk c has been put in the bin of its size. */
  ghost predicate PutIn(ix: Index, ix': Index, H: Heap, c: int) {
    Shaped(ix, H) && Indexed(ix, ix', H, c)
  }

  // ----- malloc

  /** Chunk c of heap H has served r words. From the end of the heap: nothing else changes. The
      victim: its rest is the victim. A chunk of a bin: its rest, if it was cut, is the victim,
      and the victim so far goes to its bin. */
  ghost predicate MallocPlaces(ix: Index, v: int, H: Heap, ix': Index, v': int, last: int, c: int, r: int) {
    if c == last then ix' == ix && v' == v
    else if c == v then ix' == ix && v' == if c in H && CanSplit(H[c].size, r) then c + r + 1 else NULL
    else exists x :: Released(ix, v, x, v, c) && BinServes(x, v, H, ix', v', c, r)
  }

  /** Chunk c has left its bin, and x is the index without it. */
  ghost predicate BinServes(x: Index, v: int, H: Heap, ix': Index, v': int, c: int, r: int) {
    if c in H && CanSplit(H[c].size, r) && !IsHuge(8 * r) then
      v' == c + r + 1 && if v == NULL then ix' == x else PutIn(x, ix', H, v)
    else v' == v && ix' == x
  }

  lemma BinServed(ix: Index, v: int, H: Heap, x: Index, ix': Index, v': int, last: int, c: int, r: int)
    requires c != last && c != v && Released(ix, v, x, v, c) && BinServes(x, v, H, ix', v', c, r)
    ensures MallocPlaces(ix, v, H, ix', v', last, c, r)
  {
    hide Released, BinServes;
  }

  /** The rest of a chunk cut from a bin is the victim. */
  lemma RestIsVictim(x: Index, v: int, H: Heap, ix': Index, c: int, r: int)
    requires c in H && CanSplit(H[c].size, r) && !IsHuge(8 * r)
    requires if v == NULL then ix' == x else PutIn(x, ix', H, v)
    ensures BinServes(x, v, H, ix', c + r + 1, c, r)
  {
  }

  lemma NothingLeft(x: Index, v: int, H: Heap, c: int, r: int)
    requires c in H && (!CanSplit(H[c].size, r) || IsHuge(8 * r))
    ensures BinServes(x, v, H, x, v, c, r)
  {
  }

  // ----- free

  /** The free chunk before block c has been taken in, as c's tag says. */
  ghost predicate MergedBack(ix: Index, v: int, H: Heap, x: Index, u: int, c: int) {
    c in H && if H[c].pin then x == ix && u == v else Released(ix, v, x, u, Prev(H, c))
  }

  /** The chunk after block c has been taken in, if it is free and not the end of the heap. */
  ghost predicate MergedForth(ix: Index, v: int, H: Heap, x: Index, u: int, last: int, c: int) {
    && c in H && Next(H, c) in H
    && if H[Next(H, c)].used || Next(H, c) == last then x == ix && u == v else Released(ix, v, x, u, Next(H, c))
  }

  /** Chunk d of heap H', which ends where block c of heap H ended or beyond, goes to its bin
      unless the end of the heap comes right after c. */
  ghost predicate PutBack(x: Index, ix': Index, H: Heap, H': Heap, last: int, c: int, d: int) {
    c in H && if Next(H, c) == last then ix' == x else PutIn(x, ix', H', d)
  }

  ghost predicate FreePlaces(ix: Index, v: int, H: Heap, ix': Index, v': int, H': Heap, last: int, c: int) {
    exists x, u, y :: MergedBack(ix, v, H, x, u, c) && MergedForth(x, u, H, y, v', last, c)
      && c in H && PutBack(y, ix', H, H', last, c, MergedAt(H, c))
  }

  /** While block c is freed and merged backward, the chunk after it stays what it is. */
  ghost predicate NextStays(H: Heap, c: int) {
    && c in H && Next(H, c) in H
    && var H1 := Unuse(H, c);
    && c in H1 && (!H1[c].pin ==> Prev(H1, c) in H1 && Next(H1, Prev(H1, c)) == c)
    && H1[c].pin == H[c].pin && Prev(H1, c) == Prev(H, c)
    && var H2, d := MergeBackH(H1, c), MergedAt(H, c);
    && d in H2 && Next(H2, d) == Next(H, c) && Next(H, c) in H2 && H2[Next(H, c)].used == H[Next(H, c)].used
  }

  lemma FreeKeepsNext(H: Heap, start: int, last: int, brk: int, c: int)
    requires Tiled(H, start, last, brk) && PinsOk(H, start) && c in H && H[c].used && c != last && !H[last].used
    ensures NextStays(H, c)
  {
    var H1 := Unuse(H, c);
    UseShape(H, start, last, brk, c);
    UnuseBits(H, start, last, brk, c);
    if !H1[c].pin {
      BelievedFree(H1, start, last, brk, c);
      JoinCuts(H1, start, last, brk, Prev(H1, c));
    }
  }

  lemma FreedPlaces(H: Heap, H2: Heap, H': Heap, last: int, c: int, ix: Index, v: int, x: Index, u: int, y: Index,
                    v': int, ix': Index)
    requires NextStays(H, c) && H2 == MergeBackH(Unuse(H, c), c)
    requires MergedBack(ix, v, Unuse(H, c), x, u, c) && MergedForth(x, u, H2, y, v', last, MergedAt(H, c))
    requires if Next(H, c) == last then ix' == y else PutIn(y, ix', H', MergedAt(H, c))
    ensures FreePlaces(ix, v, H, ix', v', H', last, c)
  {
    hide Released, PutIn, Unuse, MergeBackH;
    assert MergedBack(ix, v, H, x, u, c);
    assert MergedForth(x, u, H, y, v', last, c);
    assert PutBack(y, ix', H, H', last, c, MergedAt(H, c));
  }

  /** So it does while block c is cut. */
  ghost predicate CutKeepsNext(H: Heap, c: int, r: int) {
    && c in H && CanSplit(H[c].size, r) && Next(H, c) in H
    && var H1, n := SplitH(H, c, r, true), c + r + 1;
    && n in H1 && Next(H1, n) == Next(H, c) && Next(H, c) in H1 && H1[Next(H, c)].used == H[Next(H, c)].used
  }

  lemma ShrunkPlaces(H: Heap, H1: Heap, H': Heap, last: int, c: int, r: int, ix: Index, v: int, y: Index, v': int,
                     ix': Index)
    requires CutKeepsNext(H, c, r) && H1 == SplitH(H, c, r, true) && MergedForth(ix, v, H1, y, v', last, c + r + 1)
    requires if Next(H, c) == last then ix' == y else PutIn(y, ix', H', c + r + 1)
    ensures ShrinkPlaces(ix, v, H, ix', v', H', last, c, r)
  {
    hide Released, PutIn;
    assert MergedForth(ix, v, H, y, v', last, c);
    assert PutBack(y, ix', H, H', last, c, c + r + 1);
  }

  // ----- realloc

  /** Block c has been cut to r words when the rest makes a chunk. */
  ghost predicate ShrinkPlaces(ix: Index, v: int, H: Heap, ix': Index, v': int, H': Heap, last: int, c: int, r: int) {
    if c in H && CanSplit(H[c].size, r) then
      exists y :: MergedForth(ix, v, H, y, v', last, c) && PutBack(y, ix', H, H', last, c, c + r + 1)
    else ix' == ix && v' == v
  }

  /** Block b of heap h keeps r words; the rest, if it makes a chunk, goes to its bin. */
  ghost predicate RestPlaces(ix: Index, ix': Index, h: Heap, b: int, r: int) {
    && b in h
    && if CanSplit(h[b].size, r) then PutIn(ix, ix', SplitH(h, b, r, true), b + r + 1) else ix' == ix
  }

  lemma RestPut(ix: Index, ix': Index, h: Heap, b: int, r: int)
    requires b in h && CanSplit(h[b].size, r) && PutIn(ix, ix', SplitH(h, b, r, true), b + r + 1)
    ensures RestPlaces(ix, ix', h, b, r)
  {
  }

  lemma NoRest(ix: Index, h: Heap, b: int, r: int)
    requires b in h && !CanSplit(h[b].size, r)
    ensures RestPlaces(ix, ix, h, b, r)
  {
  }

  ghost predicate AfterPlaces(ix: Index, v: int, H: Heap, ix': Index, v': int, c: int, r: int) {
    && c in H && Next(H, c) in H
    && exists x :: Released(ix, v, x, v', Next(H, c)) && RestPlaces(x, ix', JoinH(H, c), c, r)
  }

  lemma AfterPut(ix: Index, v: int, H: Heap, x: Index, ix': Index, v': int, c: int, r: int)
    requires c in H && Next(H, c) in H && Released(ix, v, x, v', Next(H, c)) && RestPlaces(x, ix', JoinH(H, c), c, r)
    ensures AfterPlaces(ix, v, H, ix', v', c, r)
  {
    hide Released, RestPlaces, JoinH;
  }

  ghost predicate BothPlaces(ix: Index, v: int, H: Heap, ix': Index, v': int, b: int, c: int, r: int) {
    && b in H && c == Next(H, b) && c in H && b in TakenBackH(H, b)
    && Next(TakenBackH(H, b), b) in TakenBackH(H, b)
    && exists x, u, y :: Released(ix, v, x, u, Next(H, c)) && Released(x, u, y, v', b)
         && RestPlaces(y, ix', JoinH(TakenBackH(H, b), b), b, r)
  }

  lemma BothPut(ix: Index, v: int, H: Heap, x: Index, u: int, y: Index, ix': Index, v': int, b: int, c: int, r: int)
    requires b in H && c == Next(H, b) && c in H && b in TakenBackH(H, b)
    requires Next(TakenBackH(H, b), b) in TakenBackH(H, b)
    requires Released(ix, v, x, u, Next(H, c)) && Released(x, u, y, v', b)
    requires RestPlaces(y, ix', JoinH(TakenBackH(H, b), b), b, r)
    ensures BothPlaces(ix, v, H, ix', v', b, c, r)
  {
    hide Released, RestPlaces, JoinH, TakenBackH;
  }

  lemma BeforePut(ix: Index, v: int, H: Heap, x: Index, ix': Index, v': int, b: int, r: int)
    requires b in H && Next(H, b) in H && Released(ix, v, x, v', b) && RestPlaces(x, ix', TakenBackH(H, b), b, r)
    ensures BeforePlaces(ix, v, H, ix', v', b, r)
  {
    hide Released, RestPlaces, TakenBackH;
  }

  ghost predicate BeforePlaces(ix: Index, v: int, H: Heap, ix': Index, v': int, b: int, r: int) {
    && b in H && Next(H, b) in H
    && exists x :: Released(ix, v, x, v', b) && RestPlaces(x, ix', TakenBackH(H, b), b, r)
  }

  /** Growth into the chunks next to block c. */
  ghost predicate NearbyPlaces(ix: Index, v: int, H: Heap, ix': Index, v': int, last: int, c: int, r: int) {
    && c in H
    && if FitsAfter(H, last, c, r) then AfterPlaces(ix, v, H, ix', v', c, r)
       else if FitsBoth(H, last, c, r) then BothPlaces(ix, v, H, ix', v', Prev(H, c), c, r)
       else BeforePlaces(ix, v, H, ix', v', Prev(H, c), r)
  }

  /** Malloc of block d, copy and free of block c, h being the heap between. */
  ghost predicate CopiedAway(ix: Index, v: int, H: Heap, x: Index, u: int, h: Heap, ix': Index, v': int, H': Heap,
                             last: int, e: int, c: int, d: int, r: nat) {
    && CopyStep(H, h, H', last, e, c, d, r) && Picked(v, ix, H, last, r, d) && Members(x) && Rooted(x)
    && MallocPlaces(ix, v, H, x, u, last, d, r) && FreePlaces(x, u, h, ix', v', H', e, c)
  }

  ghost predicate CopyPlaces(ix: Index, v: int, H: Heap, ix': Index, v': int, H': Heap, last: int, c: int, d: int,
                             r: nat) {
    exists x, u, h, e :: CopiedAway(ix, v, H, x, u, h, ix', v', H', last, e, c, d, r)
  }

  /** A growing realloc of block c to block d of r words, the break being at brk and the end of
      the arena at max. */
  ghost predicate GrowPlaces(ix: Index, v: int, H: Heap, ix': Index, v': int, H': Heap, last: int, brk: int, max: int,
                             c: int, d: int, r: nat) {
    if FitsNearby(H, last, c, r) then NearbyPlaces(ix, v, H, ix', v', last, c, r)
    else if Recopies(H, last, brk, max, c, r) then CopyPlaces(ix, v, H, ix', v', H', last, c, d, r)
    else ix' == ix && v' == v
  }
}
