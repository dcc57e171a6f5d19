/** Runs of the allocator from my_init that show which chunk the next malloc gets. */
module Reuse {
  import opened Bits
  import opened Layout
  import opened Rings
  import opened Tiling
  import opened IndexModel
  import opened IndexChanges
  import opened TrieChanges
  import opened TrieRemoval
  import opened TrieSearch
  import opened HeapOps
  import opened HeapModel
  import opened HeapFacts
  import opened ExactTags
  import opened AllocatorSteps
  import opened ReallocSteps
  import opened Places
  import opened Runs
  import Determinism
  import MemLib
  import Allocator

  // ----- tools for runs that end in a malloc

  /** The heap with r words taken from the front of the end-of-heap chunk. */
  ghost function Fronted(H: Heap, last: int, r: int): Heap
    requires last in H
  {
    H[last := Chunk(r, true, H[last].pin, H[last].pred)]
     [last + r + 1 := Chunk(H[last].size - r - 1, false, true, last)]
  }

  lemma CarvedFront(H: Heap, start: int, last: int, brk: int, r: int)
    requires Tiled(H, start, last, brk) && AllTaken(H, last) && CanSplit(H[last].size, r) && 3 <= r
    ensures CarvedH(H, last, r) == Fronted(H, last, r) && AllTaken(Fronted(H, last, r), last + r + 1)
  {
    SplitCuts(H, start, last, brk, last, r, false);
    assert last + r + 1 !in H;
  }

  /** malloc from the end of the heap. */
  method Lay(a: Allocator.Allocator, size: nat) returns (p: int)
    requires a.Valid() && AllTaken(a.H, a.last) && CanSplit(a.H[a.last].size, RequestWords(size))
    requires 0 < size < TWO_TO_THE_64
    modifies a`H, a`last, a.index`ix, a.arena`brk, a.arena`over, a.index.bins, a.arena.words
    ensures a.Valid() && p - NEXT == old(a.last) && a.last == old(a.last) + RequestWords(size) + 1
    ensures old(a.last) in old(a.H) && a.H == Fronted(old(a.H), old(a.last), RequestWords(size))
    ensures AllTaken(a.H, a.last) && a.start == old(a.start)
    ensures a.index.ix == old(a.index.ix) && a.V() == old(a.V())
  {
    hide Shaped, Wired, Heads, Feet, PinsOk, Agree, Bounded, Forward, Backward, Spaced, Picked, MallocStep, CarvedH,
         Fronted, Released, Untouched, BinServes;
    NothingToAsk(a, RequestWords(size));
    CarvedFront(a.H, a.start, a.last, a.arena.brk, RequestWords(size));
    var over;
    p, over := a.Malloc(size);
    if p != NULL {
      CarvedIs(old(a.H), a.H, old(a.last), a.last, p - NEXT, RequestWords(size));
    }
  }

  /** free of a block between two blocks in use: it goes to the bin of its size. */
  method FreeAlone(a: Allocator.Allocator, p: int)
    requires a.Valid() && p - NEXT in a.H && a.H[p - NEXT].used && Alone(a.H, p - NEXT)
    modifies a`H, a`last, a.index`ix, a.index.bins, a.arena.words
    ensures a.Valid() && a.H == Unuse(old(a.H), p - NEXT) && a.last == old(a.last) && a.V() == old(a.V())
    ensures a.K() == old(a.K()) + {p - NEXT} && PutIn(old(a.index.ix), a.index.ix, a.H, p - NEXT)
  {
    hide Shaped, Wired, Heads, Feet, PinsOk, Agree, Tiled, Untouched, FreeStep, Indexed, Unuse;
    ghost var H, ix, v, e, c := a.H, a.index.ix, a.V(), a.last, p - NEXT;
    LastIsHighest(a);
    BeforeFree(a, c);
    var held := a.Free(p);
    FreedAlone(ix, v, H, a.index.ix, a.V(), a.H, e, c);
    LastIs(a, e);
  }

  lemma LastIsHighest(a: Allocator.Allocator)
    requires a.Valid()
    ensures a.last in a.H && forall d {:trigger d in a.H} :: d in a.H ==> d <= a.last
    ensures forall c {:trigger Unuse(a.H, c)} :: c in a.H && Next(a.H, c) in a.H ==> Unuse(a.H, c).Keys == a.H.Keys
  {
    hide Shaped, Wired, Heads, Feet, PinsOk, Agree;
  }

  lemma BeforeFree(a: Allocator.Allocator, c: int)
    requires a.Valid() && c in a.H && a.H[c].used
    ensures Next(a.H, c) in a.H && !a.H[a.last].used && a.last in a.H && Members(a.index.ix)
  {
    hide Wired, Heads, Feet, PinsOk;
    a.Reads(c);
    AgreeOutside(a.H, a.K(), a.B()[1], a.last, {}, c);
    AgreeEnd(a.H, a.K(), a.B()[1], a.last, {});
  }

  lemma FreedAlone(ix: Index, v: int, H: Heap, ix': Index, v': int, H': Heap, last: int, c: int)
    requires Alone(H, c) && last in H && !H[last].used && FreePlaces(ix, v, H, ix', v', H', last, c)
    ensures v' == v && PutIn(ix, ix', H', c) && ix'.slot.Keys == ix.slot.Keys + {c}
  {
    hide Released, PutIn;
    Determinism.PutInKeys(ix, ix', H', c);
  }

  /** malloc with room at the end of the heap. */
  method Take(a: Allocator.Allocator, size: nat) returns (p: int)
    requires a.Valid() && 0 < size <= MemLib.TWO_TO_THE_31 && !a.NeedsMore(size)
    modifies a`H, a`last, a.index`ix, a.arena`brk, a.arena`over, a.index.bins, a.arena.words
    ensures a.Valid() && p - NEXT in old(a.H) && !old(a.H)[p - NEXT].used
    ensures Picked(old(a.V()), old(a.index.ix), old(a.H), old(a.last), RequestWords(size), p - NEXT)
    ensures MallocStep(old(a.H), a.H, old(a.last), a.last, p - NEXT, RequestWords(size))
    ensures MallocPlaces(old(a.index.ix), old(a.V()), old(a.H), a.index.ix, a.V(), old(a.last), p - NEXT,
                         RequestWords(size))
  {
    hide Shaped, Wired, Heads, Feet, PinsOk, Agree, Tiled, Picked, MallocStep, MallocPlaces, Untouched;
    a.EndIsFree();
    a.IntSize(2, size);
    var over;
    p, over := a.Malloc(size);
    FromFree(old(a.H), a.H, old(a.last), a.last, p - NEXT, RequestWords(size));
  }

  lemma FromFree(H: Heap, H': Heap, last: int, last': int, c: int, r: int)
    requires MallocStep(H, H', last, last', c, r)
    ensures c in H && !H[c].used
  {
  }

  lemma RoomAtEnd(a: Allocator.Allocator, size: nat)
    requires a.Valid() && a.last in a.H && CanSplit(a.H[a.last].size, RequestWords(size))
    ensures !a.NeedsMore(size)
  {
    hide Shaped, Wired, Heads, Feet, PinsOk, Agree;
  }

  /** The facts about a state that a run needs before a malloc. */
  lemma Standing(a: Allocator.Allocator)
    requires a.Valid()
    ensures Shaped(a.index.ix, a.H) && Agree(a.H, a.K(), a.V(), a.last, {}) && Tiled(a.H, a.start, a.last, a.arena.brk)
    ensures PinsOk(a.H, a.start) && a.arena.brk <= a.arena.words.Length
  {
    hide Wired, Heads, Feet;
  }

  /** A bin that no chunk belongs to is empty. */
  lemma EmptyOfSize(ix: Index, H: Heap, n: nat)
    requires Shaped(ix, H) && 3 <= n <= 31
    requires forall c {:trigger c in ix.slot} :: c in ix.slot ==> BinOf(SizeOf(H, c)) != n
    ensures Head(ix, Slot(n, 0)) == NULL
  {
    hide BinOf;
    if Slot(n, 0) in ix.rings {
      assert ix.rings[Slot(n, 0)][0] in ix.slot;
    }
  }

  /** When the bins hold one chunk, of another small size, and there is no victim, a block of
      24 bytes comes from the end of the heap. */
  lemma EndServes(ix: Index, H: Heap, last: int, x: int, c: int)
    requires Shaped(ix, H) && ix.slot.Keys == {x} && x in H && 4 <= H[x].size <= 31 && NULL !in H
    requires Picked(NULL, ix, H, last, 3, c) && c in H
    ensures c == last
  {
    BinInRange(8 * H[x].size);
    EmptyOfSize(ix, H, 3);
  }

  // ----- a run in which the rest of a cut chunk is the victim

  /** Chunks of 1024 and 264 bytes free, each followed by a block of 24 bytes. */
  ghost function TwoGaps(): Heap {
    map[2 := Chunk(128, false, true, 0), 131 := Chunk(3, true, false, 2), 135 := Chunk(33, false, true, 131),
        169 := Chunk(3, true, false, 135), 173 := Chunk(4727, false, true, 169)]
  }

  lemma TwoGapsAre()
    ensures var H1 := Fronted(Fresh(), 2, 128);
            var H2 := Fronted(H1, 131, 3);
            var H3 := Fronted(H2, 135, 33);
            var H4 := Fronted(H3, 169, 3);
            && CanSplit(Fresh()[2].size, 128) && CanSplit(H1[131].size, 3) && CanSplit(H2[135].size, 33)
            && CanSplit(H3[169].size, 3) && AllTaken(Fresh(), 2)
            && Alone(H4, 2) && H4[2].used && Alone(Unuse(H4, 2), 135) && Unuse(H4, 2)[135].used
            && Unuse(Unuse(H4, 2), 135) == TwoGaps()
  {
  }

  /** malloc 1024, 24, 264 and 24 and free the two large blocks. */
  method MakeGaps(a: Allocator.Allocator)
    requires a.Objects() && a.Empty() && a.arena.lo == 2 && 4902 <= a.arena.words.Length
    modifies a`H, a`start, a`last, a.index`ix, a.arena`brk, a.arena`over, a.index.bins, a.arena.words
    ensures a.Valid() && a.H == TwoGaps() && a.K() == {2, 135} && a.V() == NULL && a.last == 173
  {
    hide Shaped, Wired, Heads, Feet, PinsOk, Agree, Tiled, Fronted, AllTaken, CanSplit, Alone, Unuse, Fresh, PutIn,
         TwoGaps;
    Begin(a);
    TwoGapsAre();
    var x := Lay(a, 1024);
    var s := Lay(a, 24);
    var y := Lay(a, 264);
    s := Lay(a, 24);
    FreeAlone(a, x);
    FreeAlone(a, y);
  }

  lemma GapBins()
    ensures BinOf(512) == 34 && BinOf(1024) == 36 && BinOf(264) == 32
  {
    assert Pow2(7) == 128 && Pow2(8) == 256 && Pow2(9) == 512;
    LargeBinRange(512, 34);
    LargeBinRange(1024, 36);
    LargeBinRange(264, 32);
  }

  /** malloc of 512 bytes is served by the chunk of 1024. */
  lemma LargerServes(ix: Index, c: int)
    requires Shaped(ix, TwoGaps()) && ix.slot.Keys == {2, 135} && Picked(NULL, ix, TwoGaps(), 173, 64, c)
    requires c in TwoGaps()
    ensures c == 2
  {
    hide BinOf, SmallestLooked, Pow2;
    var H := TwoGaps();
    GapBins();
    assert 2 in ix.slot && 135 in ix.slot;
    assert SizeOf(H, 2) == 1024 && SizeOf(H, 135) == 264;
  }

  ghost function RestLeft(): Heap {
    map[2 := Chunk(64, true, true, 0), 67 := Chunk(63, false, true, 2), 131 := Chunk(3, true, false, 67),
        135 := Chunk(33, false, true, 131), 169 := Chunk(3, true, false, 135), 173 := Chunk(4727, false, true, 169)]
  }

  lemma RestIsLeft(H: Heap, last: int)
    requires MallocStep(TwoGaps(), H, 173, last, 2, 64)
    ensures H == RestLeft() && last == 173
  {
  }

  lemma VictimServesNext(ix: Index, c: int)
    requires Shaped(ix, RestLeft()) && ix.slot.Keys == {135} && Picked(67, ix, RestLeft(), 173, 3, c)
    ensures c == 67
  {
    LargeBinRange(264, 32);
    assert Pow2(7) == 128;
    EmptyOfSize(ix, RestLeft(), 3);
  }

  /** malloc 1024, 24, 264, 24, free the two large blocks, malloc 512: the rest of the chunk of
      1024 is the victim, and malloc 24 gets its front, right after the block of 512. */
  method VictimRun(a: Allocator.Allocator) returns (p: int, q: int)
    requires a.Objects() && a.Empty() && a.arena.lo == 2 && 4902 <= a.arena.words.Length
    modifies a`H, a`start, a`last, a.index`ix, a.arena`brk, a.arena`over, a.index.bins, a.arena.words
    ensures p - NEXT == 2 && q - NEXT == 2 + RequestWords(512) + 1
  {
    hide Shaped, Wired, Heads, Feet, PinsOk, Agree, Tiled, Picked, MallocStep, MallocPlaces, TwoGaps, RestLeft,
         CanSplit;
    MakeGaps(a);
    ghost var ix := a.index.ix;
    Standing(a);
    GapFacts();
    RoomAtEnd(a, 512);
    p := Take(a, 512);
    LargerServes(ix, p - NEXT);
    RestIsLeft(a.H, a.last);
    Determinism.MallocLeaves(ix, NULL, TwoGaps(), a.index.ix, a.V(), 173, 2, 64);
    Standing(a);
    RoomAtEnd(a, 24);
    ghost var x := a.index.ix;
    q := Take(a, 24);
    VictimServesNext(x, q - NEXT);
  }

  lemma GapFacts()
    ensures 2 in TwoGaps() && CanSplit(TwoGaps()[2].size, 64) && 173 in TwoGaps() && CanSplit(TwoGaps()[173].size, 64)
    ensures 173 in RestLeft() && CanSplit(RestLeft()[173].size, 3)
  {
  }

  // ----- a run in which a merged chunk goes to its bin

  ghost function Merged(): Heap {
    map[2 := Chunk(7, false, true, 0), 10 := Chunk(3, true, false, 2), 14 := Chunk(4886, false, true, 10)]
  }

  ghost function FirstGone(): Heap {
    map[2 := Chunk(3, false, true, 0), 6 := Chunk(3, true, false, 2), 10 := Chunk(3, true, true, 6),
        14 := Chunk(4886, false, true, 10)]
  }

  lemma ThreeLaid()
    ensures var H1 := Fronted(Fresh(), 2, 3);
            var H2 := Fronted(H1, 6, 3);
            var H3 := Fronted(H2, 10, 3);
            && CanSplit(Fresh()[2].size, 3) && CanSplit(H1[6].size, 3) && CanSplit(H2[10].size, 3)
            && AllTaken(Fresh(), 2) && Alone(H3, 2) && H3[2].used && Unuse(H3, 2) == FirstGone()
    ensures FirstGone()[6].used && 6 in FirstGone()
  {
  }

  lemma ThenMerged()
    ensures FreeStep(FirstGone(), Merged(), 6)
    ensures TakenBy(FirstGone(), 14, 6) == {2} && MergedAt(FirstGone(), 6) == 2 && Next(FirstGone(), 6) == 10
    ensures 2 in Merged() && Merged()[2].size == 7
  {
    var U := map[2 := Chunk(3, false, true, 0), 6 := Chunk(3, false, false, 2), 10 := Chunk(3, true, false, 6),
                 14 := Chunk(4886, false, true, 10)];
    assert U == Unuse(FirstGone(), 6);
    assert Merged() == JoinH(U, 2);
  }

  ghost function TakenBy(H: Heap, last: int, c: int): set<int>
    requires c in H
  {
    Determinism.TakenIn(H, last, c)
  }

  /** malloc 24 three times, free the first two: the merged chunk of 56 bytes is in its bin, and
      malloc 24 gets a new block after the third. */
  method MergedRun(a: Allocator.Allocator) returns (p: int)
    requires a.Objects() && a.Empty() && a.arena.lo == 2 && 4902 <= a.arena.words.Length
    modifies a`H, a`start, a`last, a.index`ix, a.arena`brk, a.arena`over, a.index.bins, a.arena.words
    ensures p - NEXT == 14
  {
    hide Shaped, Wired, Heads, Feet, PinsOk, Agree, Tiled, Fronted, AllTaken, CanSplit, Alone, Unuse, Fresh, PutIn,
         FreeStep, FreePlaces, Picked, MallocStep, MallocPlaces, Merged, FirstGone, Untouched, Indexed, TakenBy;
    Begin(a);
    ThreeLaid();
    var x := Lay(a, 24);
    var y := Lay(a, 24);
    var z := Lay(a, 24);
    FreeAlone(a, x);
    ghost var ix, v := a.index.ix, a.V();
    Standing(a);
    var held := a.Free(y);
    ThenMerged();
    MergedFacts();
    FreeOnce(FirstGone(), Merged(), a.H, 6);
    FreedLeaves(ix, v, a.index.ix, a.V(), a.H, a.start, a.arena.brk);
    LastIs(a, 14);
    Standing(a);
    RoomAtEnd(a, 24);
    ghost var w := a.index.ix;
    p := Take(a, 24);
    EndServes(w, Merged(), 14, 2, p - NEXT);
  }

  lemma FreedLeaves(ix: Index, v: int, x: Index, u: int, H': Heap, start: int, brk: int)
    requires Tiled(FirstGone(), start, 14, brk) && PinsOk(FirstGone(), start) && Shaped(ix, FirstGone())
    requires Agree(FirstGone(), ix.slot.Keys, v, 14, {}) && ix.slot.Keys == {2} && v == NULL
    requires FreePlaces(ix, v, FirstGone(), x, u, H', 14, 6)
    ensures u == NULL && x.slot.Keys == {2}
  {
    hide Shaped, Agree, Tiled, PinsOk, FreePlaces, FreeStep, FirstGone, TakenBy;
    ThreeLaid();
    ThenMerged();
    TakenIs(FirstGone(), 14, 6);
    Determinism.FreeLeaves(ix, v, FirstGone(), x, u, H', start, 14, brk, 6);
  }

  lemma TakenIs(H: Heap, last: int, c: int)
    requires c in H
    ensures TakenBy(H, last, c) == Determinism.TakenIn(H, last, c)
  {
  }

  lemma MergedFacts()
    ensures 2 in Merged() && 4 <= Merged()[2].size <= 31 && NULL !in Merged()
    ensures 14 in Merged() && CanSplit(Merged()[14].size, 3) && forall d {:trigger d in Merged()} :: d in Merged() ==>
              d <= 14
  {
  }

  // ----- a run in which the rest of a resized block goes to its bin

  ghost function Widened(): Heap {
    map[2 := Chunk(13, true, true, 0), 16 := Chunk(15, false, true, 2), 32 := Chunk(3, true, false, 16),
        36 := Chunk(4864, false, true, 32)]
  }

  ghost function OneHole(): Heap {
    map[2 := Chunk(3, true, true, 0), 6 := Chunk(25, false, true, 2), 32 := Chunk(3, true, false, 6),
        36 := Chunk(4864, false, true, 32)]
  }

  lemma OneHoleIs()
    ensures var H1 := Fronted(Fresh(), 2, 3);
            var H2 := Fronted(H1, 6, 25);
            var H3 := Fronted(H2, 32, 3);
            && CanSplit(Fresh()[2].size, 3) && CanSplit(H1[6].size, 25) && CanSplit(H2[32].size, 3)
            && AllTaken(Fresh(), 2) && Alone(H3, 6) && H3[6].used && Unuse(H3, 6) == OneHole()
    ensures 2 in OneHole() && OneHole()[2].used && OneHole()[2].size == 3
  {
  }

  lemma ThenWidened(H: Heap, d: int, brk: int, brk': int, max: int)
    requires GrowStep(OneHole(), H, 36, brk, brk', max, 2, d, 13)
    ensures H == Widened() && d == 2
  {
    var J := map[2 := Chunk(29, true, true, 0), 32 := Chunk(3, true, false, 2), 36 := Chunk(4864, false, true, 32)];
    assert J == JoinH(OneHole(), 2);
    assert Next(OneHole(), 2) == 6;
  }

  lemma WideningFits()
    ensures FitsAfter(OneHole(), 36, 2, 13) && Next(OneHole(), 2) == 6
    ensures CanSplit(Determinism.GrownSize(OneHole(), 36, 2, 13), 13)
  {
    hide SplitH, JoinH;
  }

  lemma WidenedFacts()
    ensures 16 in Widened() && Widened()[16].size == 15 && NULL !in Widened()
    ensures 36 in Widened() && CanSplit(Widened()[36].size, 3)
    ensures forall d {:trigger d in Widened()} :: d in Widened() ==> d <= 36
  {
  }

  lemma WidenedLeaves(ix: Index, x: Index, u: int, H: Heap, start: int, brk: int, max: int)
    requires Tiled(OneHole(), start, 36, brk) && PinsOk(OneHole(), start) && Shaped(ix, OneHole())
    requires Agree(OneHole(), ix.slot.Keys, NULL, 36, {}) && ix.slot.Keys == {6}
    requires GrowPlaces(ix, NULL, OneHole(), x, u, H, 36, brk, max, 2, 2, 13)
    ensures u == NULL && x.slot.Keys == {16}
  {
    hide Shaped, Agree, Tiled, PinsOk, NearbyPlaces, CopyPlaces, Recopies, OneHole, FitsAfter, FitsBoth, FitsBefore,
         CanSplit;
    OneHoleIs();
    WideningFits();
    Determinism.NearbyLeaves(ix, NULL, OneHole(), x, u, start, 36, brk, 2, 13);
  }

  /** malloc 24, 200 and 24, free the second, realloc the first to 100: it takes the freed chunk
      in, the rest of 120 bytes is in its bin, and malloc 24 gets a new block after the third. */
  method RestRun(a: Allocator.Allocator) returns (p: int, q: int)
    requires a.Objects() && a.Empty() && a.arena.lo == 2 && 4902 <= a.arena.words.Length
    modifies a`H, a`start, a`last, a.index`ix, a.arena`brk, a.arena`over, a.index.bins, a.arena.words
    ensures p - NEXT == 2 && q - NEXT == 36
  {
    hide Shaped, Wired, Heads, Feet, PinsOk, Agree, Tiled, Fronted, AllTaken, CanSplit, Alone, Unuse, Fresh, PutIn,
         GrowStep, GrowPlaces, ShrinkPlaces, Picked, MallocStep, MallocPlaces, Widened, OneHole, Untouched, Moved,
         GrowHolds, ShrinkStep, Exact, TagsExact, CutsBeforeBlock, Recopies, Pinched;
    Begin(a);
    OneHoleIs();
    var x := Lay(a, 24);
    var y := Lay(a, 200);
    var z := Lay(a, 24);
    FreeAlone(a, y);
    ghost var ix, start, brk := a.index.ix, a.start, a.arena.brk;
    Standing(a);
    a.IntSize(2, 100);
    var held, over;
    p, held, over := a.Realloc(x, 100);
    FitsHere(brk, a.arena.words.Length);
    ThenWidened(a.H, p - NEXT, brk, a.arena.brk, a.arena.words.Length);
    WidenedFacts();
    WidenedLeaves(ix, a.index.ix, a.V(), a.H, start, brk, a.arena.words.Length);
    LastIs(a, 36);
    Standing(a);
    RoomAtEnd(a, 24);
    ghost var w := a.index.ix;
    q := Take(a, 24);
    EndServes(w, Widened(), 36, 16, q - NEXT);
  }

  lemma FitsHere(brk: int, max: int)
    ensures !Recopies(OneHole(), 36, brk, max, 2, 13)
  {
    WideningFits();
  }

  // ----- a run in which a leaf takes the place of the root

  /** Five large chunks, in the order in which they are freed: address, words, and slot in the
      trie of bin 32. The size of 376 is the root, 264 is to its left, 256 and 312 are below that,
      and 296 is to the left of 312. */
  function Gap(i: nat): int
    requires i < 5
  {
    if i == 0 then 2 else if i == 1 then 54 else if i == 2 then 92 else if i == 3 then 129 else 173
  }

  ghost function GapWords(i: nat): nat
    requires i < 5
  {
    if i == 0 then 47 else if i == 1 then 33 else if i == 2 then 32 else if i == 3 then 39 else 37
  }

  ghost function Spot(i: nat): Slot
    requires i < 5
  {
    Slot(32, if i == 0 then 2 else if i == 1 then 4 else if i == 2 then 8 else if i == 3 then 9 else 18)
  }

  /** The first n of them are free. */
  ghost function Gaps(n: nat): Heap {
    map[2 := Chunk(47, n < 1, true, 0), 50 := Chunk(3, true, n < 1, 2),
        54 := Chunk(33, n < 2, true, 50), 88 := Chunk(3, true, n < 2, 54),
        92 := Chunk(32, n < 3, true, 88), 125 := Chunk(3, true, n < 3, 92),
        129 := Chunk(39, n < 4, true, 125), 169 := Chunk(3, true, n < 4, 129),
        173 := Chunk(37, n < 5, true, 169), 211 := Chunk(3, true, n < 5, 173),
        215 := Chunk(4685, false, true, 211)]
  }

  /** The heap after the first five of the ten blocks. */
  ghost function HalfLaid(): Heap {
    map[2 := Chunk(47, true, true, 0), 50 := Chunk(3, true, true, 2), 54 := Chunk(33, true, true, 50),
        88 := Chunk(3, true, true, 54), 92 := Chunk(32, true, true, 88), 125 := Chunk(4775, false, true, 92)]
  }

  lemma FirstHalf()
    ensures var H1 := Fronted(Fresh(), 2, 47);
            var H2 := Fronted(H1, 50, 3);
            var H3 := Fronted(H2, 54, 33);
            var H4 := Fronted(H3, 88, 3);
            && CanSplit(Fresh()[2].size, 47) && CanSplit(H1[50].size, 3) && CanSplit(H2[54].size, 33)
            && CanSplit(H3[88].size, 3) && CanSplit(H4[92].size, 32) && AllTaken(Fresh(), 2)
            && Fronted(H4, 92, 32) == HalfLaid()
  {
  }

  lemma SecondHalf()
    ensures var H1 := Fronted(HalfLaid(), 125, 3);
            var H2 := Fronted(H1, 129, 39);
            var H3 := Fronted(H2, 169, 3);
            var H4 := Fronted(H3, 173, 37);
            && CanSplit(HalfLaid()[125].size, 3) && CanSplit(H1[129].size, 39) && CanSplit(H2[169].size, 3)
            && CanSplit(H3[173].size, 37) && CanSplit(H4[211].size, 3) && Fronted(H4, 211, 3) == Gaps(0)
  {
  }

  /** malloc 376, 24, 264, 24, 256, 24, 312, 24, 296 and 24. */
  method LayFive(a: Allocator.Allocator)
    requires a.Objects() && a.Empty() && a.arena.lo == 2 && 4902 <= a.arena.words.Length
    modifies a`H, a`start, a`last, a.index`ix, a.arena`brk, a.arena`over, a.index.bins, a.arena.words
    ensures a.Valid() && a.H == Gaps(0) && a.last == 215 && a.index.ix == Tree(0) && a.V() == NULL
  {
    hide Shaped, Wired, Heads, Feet, PinsOk, Agree, Tiled, Fronted, AllTaken, CanSplit, Fresh, HalfLaid, Gaps;
    Begin(a);
    FirstHalf();
    var p := Lay(a, 376);
    p := Lay(a, 24);
    p := Lay(a, 264);
    p := Lay(a, 24);
    p := Lay(a, 256);
    SecondHalf();
    p := Lay(a, 24);
    p := Lay(a, 312);
    p := Lay(a, 24);
    p := Lay(a, 296);
    p := Lay(a, 24);
  }

  /** The trie of the first n. */
  ghost function Tree(n: nat): Index
    requires n <= 5
  {
    if n == 0 then Index(map[], map[])
    else Index(Tree(n - 1).rings[Spot(n - 1) := [Gap(n - 1)]], Tree(n - 1).slot[Gap(n - 1) := Spot(n - 1)])
  }

  lemma {:induction false} TreeHas(n: nat)
    requires n <= 5
    ensures forall i {:trigger Spot(i)} :: 0 <= i < n ==> Spot(i) in Tree(n).rings
    ensures forall c {:trigger c in Tree(n).slot} :: c in Tree(n).slot ==>
              exists i {:trigger Gap(i)} :: 0 <= i < n && c == Gap(i)
  {
    if n > 0 {
      TreeHas(n - 1);
    }
  }

  ghost predicate FiveSizes(H: Heap) {
    forall i {:trigger Gap(i)} :: 0 <= i < 5 ==> Gap(i) in H && H[Gap(i)].size == GapWords(i)
  }

  lemma GapsHave(n: nat)
    ensures FiveSizes(Gaps(n))
  {
  }

  lemma FreesNext(n: nat)
    requires n < 5
    ensures Alone(Gaps(n), Gap(n)) && Gaps(n)[Gap(n)].used && Unuse(Gaps(n), Gap(n)) == Gaps(n + 1)
  {
  }

  lemma SpotShifts(i: nat)
    requires i < 5
    ensures ShiftAt(Spot(i)) == if i == 0 then 6 else if i == 1 then 5 else if i <= 3 then 4 else 3
    ensures i > 0 ==> Up(Spot(i)) == Spot(if i == 4 then 3 else if i == 1 then 0 else 1)
  {
    assert Up(Slot(32, 4)) == Slot(32, 2) && Up(Slot(32, 8)) == Slot(32, 4) && Up(Slot(32, 9)) == Slot(32, 4);
    assert Up(Slot(32, 18)) == Slot(32, 9);
  }

  lemma SpotPrefixes(i: nat)
    requires i < 5
    ensures ShiftAt(Spot(i)) >= 3 && Shr(8 * GapWords(i), ShiftAt(Spot(i)) + 1) == Spot(i).pos
  {
    hide ShiftAt;
    SpotShifts(i);
    assert Pow2(4) == 16 && Pow2(5) == 32 && Pow2(6) == 64 && Pow2(7) == 128;
    ShrIsQuotient(8 * GapWords(i), ShiftAt(Spot(i)) + 1, Spot(i).pos);
  }

  /** The n-th chunk freed gets the n-th slot. */
  lemma SpotIsNext(n: nat, H: Heap)
    requires n < 5 && FiveSizes(H)
    ensures NewSlot(Tree(n), H, 8 * GapWords(n), Spot(n))
  {
    hide BinOf, Shr, ShiftAt;
    SizesInBin(8 * GapWords(n));
    SpotShifts(n);
    SpotShifts(0);
    SpotPrefixes(n);
    TreeHas(n);
    assert RootSlot(32) == Spot(0);
    forall a | a in Tree(n).slot
      ensures SizeOf(H, a) != 8 * GapWords(n)
    {
      var i :| 0 <= i < n && a == Gap(i);
    }
  }

  lemma TreeGrows(n: nat, ix: Index, H: Heap)
    requires n < 5 && FiveSizes(H) && PutIn(Tree(n), ix, H, Gap(n))
    ensures ix == Tree(n + 1)
  {
    hide NewSlot, Shaped;
    assert SizeOf(H, Gap(n)) == 8 * GapWords(n);
    var s :| NewSlot(Tree(n), H, 8 * GapWords(n), s) && ix == Inserted(Tree(n), s, Gap(n));
    SpotIsNext(n, H);
    Determinism.OneSlot(Tree(n), H, 8 * GapWords(n), s, Spot(n));
    NewRing(n);
  }

  lemma {:induction false} NewRing(n: nat)
    requires n < 5
    ensures Inserted(Tree(n), Spot(n), Gap(n)) == Tree(n + 1)
  {
    NotYet(n, n);
    assert Circle(Tree(n), Spot(n)) + [Gap(n)] == [Gap(n)];
  }

  lemma {:induction false} NotYet(n: nat, i: nat)
    requires n <= i < 5
    ensures Spot(i) !in Tree(n).rings
  {
    if n > 0 {
      NotYet(n - 1, i);
    }
  }

  /** Frees them one by one. */
  method FreeFive(a: Allocator.Allocator)
    requires a.Valid() && a.H == Gaps(0) && a.last == 215 && a.index.ix == Tree(0) && a.V() == NULL
    modifies a`H, a`last, a.index`ix, a.index.bins, a.arena.words
    ensures a.Valid() && a.H == Gaps(5) && a.last == 215 && a.index.ix == Tree(5) && a.V() == NULL
  {
    hide Shaped, Wired, Heads, Feet, PinsOk, Agree, Tiled, PutIn, Gaps, Tree, FiveSizes, Alone, Unuse;
    var n := 0;
    while n < 5
      invariant 0 <= n <= 5 && a.Valid() && a.H == Gaps(n) && a.last == 215 && a.index.ix == Tree(n) && a.V() == NULL
    {
      FreesNext(n);
      GapsHave(n + 1);
      FreeAlone(a, Gap(n) + NEXT);
      TreeGrows(n, a.index.ix, a.H);
      n := n + 1;
    }
  }

  lemma WholeTree()
    ensures Tree(5).rings == map[Slot(32, 2) := [2], Slot(32, 4) := [54], Slot(32, 8) := [92], Slot(32, 9) := [129],
                                 Slot(32, 18) := [173]]
    ensures Tree(5).slot == map[2 := Slot(32, 2), 54 := Slot(32, 4), 92 := Slot(32, 8), 129 := Slot(32, 9),
                                173 := Slot(32, 18)]
  {
    assert Tree(1) == Index(map[Slot(32, 2) := [2]], map[2 := Slot(32, 2)]);
    assert Tree(3) == Index(map[Slot(32, 2) := [2], Slot(32, 4) := [54], Slot(32, 8) := [92]],
                            map[2 := Slot(32, 2), 54 := Slot(32, 4), 92 := Slot(32, 8)]);
  }

  /** Below the root's left child the way goes right while there is a right child, so 296 comes
      in the root's place. */
  lemma RootSuccessor()
    ensures Successor(Tree(5), Slot(32, 2), Slot(32, 18))
  {
    hide ShiftAt, Shr;
    WholeTree();
    SpotShifts(1);
    SpotShifts(3);
    SpotShifts(4);
    assert Pow2(1) == 2 && Pow2(2) == 4;
    ShrIsQuotient(18, 2, 4);
    ShrIsQuotient(18, 1, 9);
    assert Below(Slot(32, 18), Slot(32, 4)) && Below(Slot(32, 18), Slot(32, 9));
    forall u {:trigger Down(u, 1)} | Down(u, 1) in Tree(5).rings
      ensures Down(u, 1) == Slot(32, 9)
    {
    }
  }

  /** The trie once 296 has taken the root's place. */
  ghost function Promoted(): Index {
    Index(map[Slot(32, 2) := [173], Slot(32, 4) := [54], Slot(32, 8) := [92], Slot(32, 9) := [129]],
          map[173 := Slot(32, 2), 54 := Slot(32, 4), 92 := Slot(32, 8), 129 := Slot(32, 9)])
  }

  lemma LeafComesUp(ix: Index)
    requires Rooted(Tree(5)) && TakenOut(Tree(5), ix, 2)
    ensures ix == Promoted()
  {
    hide Prefers, Rooted, Replaced, Detached;
    WholeTree();
    var s := Slot(32, 2);
    assert Down(s, 0) == Slot(32, 4);
    var q :| Successor(Tree(5), s, q) && ix == Replaced(Detached(Tree(5), q), s, Tree(5).rings[q]);
    RootSuccessor();
    Determinism.OneSuccessor(Tree(5), s, q, Slot(32, 18));
    PromotedIs();
  }

  /** The trie without 296. */
  ghost function FourLeft(): Index {
    Index(map[Slot(32, 2) := [2], Slot(32, 4) := [54], Slot(32, 8) := [92], Slot(32, 9) := [129]],
          map[2 := Slot(32, 2), 54 := Slot(32, 4), 92 := Slot(32, 8), 129 := Slot(32, 9)])
  }

  lemma FourAreLeft()
    ensures Detached(Tree(5), Slot(32, 18)) == FourLeft()
  {
    WholeTree();
    hide Tree;
    assert Tree(5).rings - {Slot(32, 18)} == FourLeft().rings;
  }

  lemma PromotedIs()
    ensures Replaced(Detached(Tree(5), Slot(32, 18)), Slot(32, 2), [173]) == Promoted()
  {
    hide Tree, Detached;
    FourAreLeft();
    assert FourLeft().rings[Slot(32, 2) := [173]] == Promoted().rings;
  }

  lemma ExactChosen(c: int)
    requires Picked(NULL, Tree(5), Gaps(5), 215, 47, c) && c in Gaps(5)
    ensures c == 2
  {
    hide BinOf, SmallestLooked, SmallestAbove, Tree;
    WholeTree();
    SizesInBin(376);
    var ix, H := Tree(5), Gaps(5);
    assert ix.slot[2].bin == 32 && SizeOf(H, 2) == 376;
    assert SizeOf(H, 54) == 264 && SizeOf(H, 92) == 256 && SizeOf(H, 129) == 312 && SizeOf(H, 173) == 296;
  }

  /** The heap when the first is in use again. */
  ghost function FirstAgain(): Heap {
    Gaps(5)[2 := Chunk(47, true, true, 0)][50 := Chunk(3, true, true, 2)]
  }

  lemma TakenAgain(ix: Index, ix': Index, v: int, H: Heap, last: int)
    requires Members(ix) && ix == Tree(5) && Rooted(ix) && MallocStep(Gaps(5), H, 215, last, 2, 47)
    requires MallocPlaces(ix, NULL, Gaps(5), ix', v, 215, 2, 47)
    ensures H == FirstAgain() && last == 215 && v == NULL && ix' == Promoted()
  {
    hide TakenOut, Tree, Rooted, Promoted;
    LeafComesUp(ix');
  }

  lemma LooksAtRoot()
    ensures Looked(Slot(32, 2), 272)
  {
    hide BinOf, Shr, ShiftAt;
    SizesInBin(272);
    SpotShifts(0);
    assert RootSlot(32) == Slot(32, 2) && Pow2(7) == 128;
    ShrIsQuotient(272, 7, 2);
  }

  lemma LeafChosen(c: int)
    requires Picked(NULL, Promoted(), FirstAgain(), 215, 34, c) && c in FirstAgain()
    ensures c == 173
  {
    hide BinOf, Looked, SmallestAbove;
    LooksAtRoot();
    SizesInBin(272);
    var ix, H := Promoted(), FirstAgain();
    assert ix.slot[173] == Slot(32, 2) && SizeOf(H, 173) == 296;
    assert SizeOf(H, 54) == 264 && SizeOf(H, 92) == 256 && SizeOf(H, 129) == 312;
  }

  lemma WholeTaken(H: Heap, last: int)
    requires MallocStep(FirstAgain(), H, 215, last, 173, 34)
    ensures 173 in H && H[173].used && H[173].size == 37
  {
  }

  lemma GapsRoom()
    ensures 215 in Gaps(5) && CanSplit(Gaps(5)[215].size, 47) && 215 in FirstAgain()
    ensures CanSplit(FirstAgain()[215].size, 34)
  {
  }

  /** malloc 376, 264, 256, 312 and 296, each followed by 24; free the five large blocks in
      this order; malloc 376 takes the root of the trie out, and malloc 272 gets the chunk of
      296 whole, which has come in the root's place. */
  method PromotedRun(a: Allocator.Allocator) returns (p: int, q: int)
    requires a.Objects() && a.Empty() && a.arena.lo == 2 && 4902 <= a.arena.words.Length
    modifies a`H, a`start, a`last, a.index`ix, a.arena`brk, a.arena`over, a.index.bins, a.arena.words
    ensures p - NEXT == 2 && q - NEXT == 173 && 173 in a.H && a.H[173].used && 8 * a.H[173].size == 296
  {
    hide Shaped, Wired, Heads, Feet, PinsOk, Agree, Tiled, Picked, MallocStep, MallocPlaces, Gaps, FirstAgain, Tree,
         Promoted, CanSplit;
    LayFive(a);
    FreeFive(a);
    Standing(a);
    GapsRoom();
    RoomAtEnd(a, 376);
    ghost var ix := a.index.ix;
    p := Take(a, 376);
    ExactChosen(p - NEXT);
    Determinism.MembersOf(ix, Gaps(5));
    TakenAgain(ix, a.index.ix, a.V(), a.H, a.last);
    RoomAtEnd(a, 272);
    q := Take(a, 272);
    LeafChosen(q - NEXT);
    WholeTaken(a.H, a.last);
  }
}
