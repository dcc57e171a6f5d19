/** Runs of the allocator from my_init that show what it does not promise. */
module Runs {
  import opened Bits
  import opened Layout
  import opened Rings
  import opened Tiling
  import opened IndexModel
  import opened IndexChanges
  import opened TrieChanges
  import opened TrieSearch
  import opened HeapOps
  import opened HeapModel
  import opened HeapFacts
  import opened ExactTags
  import opened AllocatorSteps
  import opened ReallocSteps
  import opened BestFit
  import opened Places
  import Determinism
  import MemLib
  import Checker
  import Allocator

  // ----- the steps are functions

  lemma ShrinkOnce(H: Heap, H1: Heap, H2: Heap, c: int, r: int)
    requires ShrinkStep(H, H1, c, r) && ShrinkStep(H, H2, c, r)
    ensures H1 == H2
  {
  }

  lemma FreeOnce(H: Heap, H1: Heap, H2: Heap, c: int)
    requires FreeStep(H, H1, c) && FreeStep(H, H2, c)
    ensures H1 == H2
  {
  }

  /** A fresh heap starting at word 2. */
  method Begin(a: Allocator.Allocator)
    requires a.Objects() && a.Empty() && a.arena.lo == 2 && 4902 <= a.arena.words.Length
    modifies a`H, a`start, a`last, a.arena`brk, a.arena`over, a.arena.words, a.index.bins
    ensures a.Valid() && a.H == Fresh() && a.start == a.last == 2 && a.Empty() && a.arena.brk == 4902
    ensures a.index.ix == Index(map[], map[]) && a.V() == NULL
  {
    hide Shaped, Wired, Heads, Feet, PinsOk, Agree, Tiled;
    a.arena.ResetBrk();
    a.Init();
  }

  /** Only the end-of-heap chunk is free. */
  ghost predicate AllTaken(H: Heap, last: int) {
    last in H && !H[last].used && forall c {:trigger c in H} :: c in H && !H[c].used ==> c == last
  }

  /** r words taken from the front of the end-of-heap chunk. */
  ghost function CarvedH(H: Heap, last: int, r: int): Heap
    requires last in H && 3 <= r
  {
    var h := SplitH(H, last, r, false);
    if last in h && Next(h, last) in h then Use(h, last) else h
  }

  lemma CarvedIs(H: Heap, H': Heap, last: int, last': int, c: int, r: int)
    requires AllTaken(H, last) && CanSplit(H[last].size, r) && 3 <= r && MallocStep(H, H', last, last', c, r)
    ensures c == last && last' == last + r + 1 && H' == CarvedH(H, last, r)
  {
    assert GrowH(H, last, 0) == H;
  }

  lemma NothingToAsk(a: Allocator.Allocator, r: int)
    requires a.Valid() && AllTaken(a.H, a.last) && CanSplit(a.H[a.last].size, r)
    ensures GrowthSound(a.H, a.last, a.arena.Room(), r)
  {
    hide Shaped, Wired, Heads, Feet, PinsOk, Agree;
    a.Reads(a.last);
  }

  /** malloc when nothing but the end-of-heap chunk is free. */
  method Carve(a: Allocator.Allocator, size: nat) returns (p: int)
    requires a.Valid() && AllTaken(a.H, a.last) && CanSplit(a.H[a.last].size, RequestWords(size))
    requires 0 < size < TWO_TO_THE_64
    modifies a`H, a`last, a.index`ix, a.arena`brk, a.arena`over, a.index.bins, a.arena.words
    ensures a.Valid() && p - NEXT == old(a.last) && a.last == old(a.last) + RequestWords(size) + 1
    ensures a.H == CarvedH(old(a.H), old(a.last), RequestWords(size)) && a.index.ix == old(a.index.ix)
  {
    hide Shaped, Wired, Heads, Feet, PinsOk, Agree, Tiled, Picked, MallocStep, AllTaken, CarvedH, MallocPlaces;
    NothingToAsk(a, RequestWords(size));
    var over;
    p, over := a.Malloc(size);
    if p != NULL {
      CarvedIs(old(a.H), a.H, old(a.last), a.last, p - NEXT, RequestWords(size));
    }
  }

  // ----- the run of ShrinkPreventsCollapse

  lemma FreshTaken()
    ensures AllTaken(Fresh(), 2) && CarvedH(Fresh(), 2, 10) == OneBlock()
  {
    FirstTaken();
    CarvedIs(Fresh(), OneBlock(), 2, 13, 2, 10);
  }

  lemma OneBlockTaken()
    ensures AllTaken(OneBlock(), 13) && CarvedH(OneBlock(), 13, 3) == TwoBlocks()
  {
    SecondTaken();
    CarvedIs(OneBlock(), TwoBlocks(), 13, 17, 13, 3);
  }

  /** malloc 80, malloc 24, realloc the first to 24, free both: the checker fails after the
      realloc, the last free fails the assertion at line 760, and in the end nothing is live but
      my_init must not be called again. */
  method ShrinkingRun(a: Allocator.Allocator) returns (checked: bool, held: bool)
    requires a.Objects() && a.Empty() && a.arena.lo == 2 && 4902 <= a.arena.words.Length
    modifies a`H, a`start, a`last, a.index`ix, a.arena`brk, a.arena`over, a.index.bins, a.arena.words
    ensures !checked && !held && a.Valid() && a.H == BothFreed() && Live(a.H) == map[] && !a.Empty()
  {
    hide Shaped, Wired, Heads, Feet, PinsOk, Agree, Tiled, ShrinkStep, FreeStep, CarvedH, Untouched, Moved, Exact,
         TagsExact, CutsBeforeBlock, GrowStep, GrowHolds, ShrinkPlaces, GrowPlaces, FreePlaces, Recopies;
    Begin(a);
    FreshTaken();
    var p := Carve(a, 80);
    OneBlockTaken();
    var q := Carve(a, 24);
    a.IntSize(2, 24);
    var r, held0, over := a.Realloc(p, 24);
    FirstShrinks();
    ShrinkOnce(TwoBlocks(), FirstShrunk(), a.H, 2, 3);
    NotExactThen();
    checked := Checker.MyChecker(a);
    held := a.Free(q);
    SecondFrees();
    FreeOnce(FirstShrunk(), SecondFreed(), a.H, 13);
    LastIs(a, 13);
    held := a.Free(p);
    StaleThen();
    FirstFrees();
    FreeOnce(SecondFreed(), BothFreed(), a.H, 2);
    ShrinkPreventsCollapse();
    a.Collapses();
  }

  /** The end-of-heap chunk is the one with the highest address. */
  lemma LastIs(a: Allocator.Allocator, c: int)
    requires a.Valid() && c in a.H && forall d {:trigger d in a.H} :: d in a.H ==> d <= c
    ensures a.last == c
  {
    hide Shaped, Wired, Heads, Feet, PinsOk, Agree;
  }

  lemma StaleThen()
    ensures AbsorbsStale(SecondFreed(), 13, 2)
  {
    assert Next(SecondFreed(), 2) == 6 && Next(SecondFreed(), 6) == 13;
  }

  lemma NotExactThen()
    ensures !TagsExact(FirstShrunk(), 2)
  {
    assert Prev(FirstShrunk(), 13) == 6;
  }

  // ----- a run in which the search of the own bin misses the best fit

  /** Chunks of 256, 376 and 328 bytes, each followed by a block of 24 bytes. */
  ghost function Row1(): Heap {
    map[2 := Chunk(32, true, true, 0), 35 := Chunk(4865, false, true, 2)]
  }

  ghost function Row2(): Heap {
    map[2 := Chunk(32, true, true, 0), 35 := Chunk(3, true, true, 2), 39 := Chunk(4861, false, true, 35)]
  }

  ghost function Row3(): Heap {
    map[2 := Chunk(32, true, true, 0), 35 := Chunk(3, true, true, 2), 39 := Chunk(47, true, true, 35),
        87 := Chunk(4813, false, true, 39)]
  }

  ghost function Row4(): Heap {
    map[2 := Chunk(32, true, true, 0), 35 := Chunk(3, true, true, 2), 39 := Chunk(47, true, true, 35),
        87 := Chunk(3, true, true, 39), 91 := Chunk(4809, false, true, 87)]
  }

  ghost function Row5(): Heap {
    map[2 := Chunk(32, true, true, 0), 35 := Chunk(3, true, true, 2), 39 := Chunk(47, true, true, 35),
        87 := Chunk(3, true, true, 39), 91 := Chunk(41, true, true, 87), 133 := Chunk(4767, false, true, 91)]
  }

  ghost function Row6(): Heap {
    map[2 := Chunk(32, true, true, 0), 35 := Chunk(3, true, true, 2), 39 := Chunk(47, true, true, 35),
        87 := Chunk(3, true, true, 39), 91 := Chunk(41, true, true, 87), 133 := Chunk(3, true, true, 91),
        137 := Chunk(4763, false, true, 133)]
  }

  lemma Row1Is()
    ensures AllTaken(Fresh(), 2) && CanSplit(Fresh()[2].size, 32) && CarvedH(Fresh(), 2, 32) == Row1()
  {
    var C := map[2 := Chunk(32, false, true, 0), 35 := Chunk(4865, false, false, 2)];
    assert C == SplitH(Fresh(), 2, 32, false);
    assert Row1() == Use(C, 2);
  }

  lemma Row2Is()
    ensures AllTaken(Row1(), 35) && CanSplit(Row1()[35].size, 3) && CarvedH(Row1(), 35, 3) == Row2()
  {
    var C := Row1()[35 := Chunk(3, false, true, 2)][39 := Chunk(4861, false, false, 35)];
    assert C == SplitH(Row1(), 35, 3, false);
    assert Row2() == Use(C, 35);
  }

  lemma Row3Is()
    ensures AllTaken(Row2(), 39) && CanSplit(Row2()[39].size, 47) && CarvedH(Row2(), 39, 47) == Row3()
  {
    var C := Row2()[39 := Chunk(47, false, true, 35)][87 := Chunk(4813, false, false, 39)];
    assert C == SplitH(Row2(), 39, 47, false);
    assert Row3() == Use(C, 39);
  }

  lemma Row4Is()
    ensures AllTaken(Row3(), 87) && CanSplit(Row3()[87].size, 3) && CarvedH(Row3(), 87, 3) == Row4()
  {
    var C := Row3()[87 := Chunk(3, false, true, 39)][91 := Chunk(4809, false, false, 87)];
    assert C == SplitH(Row3(), 87, 3, false);
    assert Row4() == Use(C, 87);
  }

  lemma Row5Is()
    ensures AllTaken(Row4(), 91) && CanSplit(Row4()[91].size, 41) && CarvedH(Row4(), 91, 41) == Row5()
  {
    var C := Row4()[91 := Chunk(41, false, true, 87)][133 := Chunk(4767, false, false, 91)];
    assert C == SplitH(Row4(), 91, 41, false);
    assert Row5() == Use(C, 91);
  }

  lemma Row6Is()
    ensures AllTaken(Row5(), 133) && CanSplit(Row5()[133].size, 3) && CarvedH(Row5(), 133, 3) == Row6()
  {
    var C := Row5()[133 := Chunk(3, false, true, 91)][137 := Chunk(4763, false, false, 133)];
    assert C == SplitH(Row5(), 133, 3, false);
    assert Row6() == Use(C, 133);
  }

  /** malloc 256, 24, 376, 24, 328 and 24 in a fresh heap. */
  method LayRow(a: Allocator.Allocator) returns (p: int, q: int, r: int)
    requires a.Objects() && a.Empty() && a.arena.lo == 2 && 4902 <= a.arena.words.Length
    modifies a`H, a`start, a`last, a.index`ix, a.arena`brk, a.arena`over, a.index.bins, a.arena.words
    ensures a.Valid() && a.H == Row6() && a.last == 137 && a.index.ix == Index(map[], map[])
    ensures p - NEXT == 2 && q - NEXT == 39 && r - NEXT == 91
  {
    hide Shaped, Wired, Heads, Feet, PinsOk, Agree, Tiled, CarvedH, AllTaken, CanSplit, Fresh, Row1, Row2, Row3,
         Row4, Row5, Row6;
    Begin(a);
    Row1Is();
    p := Carve(a, 256);
    Row2Is();
    var s1 := Carve(a, 24);
    Row3Is();
    q := Carve(a, 376);
    Row4Is();
    var s2 := Carve(a, 24);
    Row5Is();
    r := Carve(a, 328);
    Row6Is();
    var s3 := Carve(a, 24);
  }

  /** The first, the first two and all three of the large blocks freed. */
  ghost function Gap1(): Heap {
    Row6()[2 := Chunk(32, false, true, 0)][35 := Chunk(3, true, false, 2)]
  }

  ghost function Gap2(): Heap {
    Gap1()[39 := Chunk(47, false, true, 35)][87 := Chunk(3, true, false, 39)]
  }

  ghost function Gap3(): Heap {
    Gap2()[91 := Chunk(41, false, true, 87)][133 := Chunk(3, true, false, 91)]
  }

  lemma GapsAre()
    ensures Alone(Row6(), 2) && Gap1() == Unuse(Row6(), 2)
    ensures Alone(Gap1(), 39) && Gap2() == Unuse(Gap1(), 39)
    ensures Alone(Gap2(), 91) && Gap3() == Unuse(Gap2(), 91)
  {
  }

  /** The trie as the three insertions build it: 256 at the root, 376 to its right because bit
      6 is set, 328 to the left of that because bit 5 is clear. */
  ghost function Trie1(): Index {
    Index(map[Slot(32, 2) := [2]], map[2 := Slot(32, 2)])
  }

  ghost function Trie2(): Index {
    Index(map[Slot(32, 2) := [2], Slot(32, 5) := [39]], map[2 := Slot(32, 2), 39 := Slot(32, 5)])
  }

  ghost function Trie3(): Index {
    Index(map[Slot(32, 2) := [2], Slot(32, 5) := [39], Slot(32, 10) := [91]],
          map[2 := Slot(32, 2), 39 := Slot(32, 5), 91 := Slot(32, 10)])
  }

  lemma ShiftsThere()
    ensures ShiftAt(Slot(32, 2)) == 6
    ensures ShiftAt(Slot(32, 4)) == 5 && ShiftAt(Slot(32, 5)) == 5
    ensures ShiftAt(Slot(32, 10)) == 4 && ShiftAt(Slot(32, 11)) == 4
  {
    assert Up(Slot(32, 4)) == Slot(32, 2) && Up(Slot(32, 5)) == Slot(32, 2);
    assert Up(Slot(32, 10)) == Slot(32, 5) && Up(Slot(32, 11)) == Slot(32, 5);
  }

  lemma SizesInBin(bytes: nat)
    requires bytes % 8 == 0 && 256 <= bytes < 384
    ensures BinOf(bytes) == 32
  {
    LargeBinRange(bytes, 32);
    assert Pow2(7) == 128;
  }

  lemma Prefixes()
    ensures Shr(376, 6) == 5 && Shr(328, 6) == 5 && Shr(328, 5) == 10
    ensures Shr(264, 7) == 2 && Shr(264, 6) == 4 && Shr(264, 5) == 8
  {
    assert Pow2(5) == 32 && Pow2(6) == 64 && Pow2(7) == 128;
    ShrIsQuotient(376, 6, 5);
    ShrIsQuotient(328, 6, 5);
    ShrIsQuotient(328, 5, 10);
    ShrIsQuotient(264, 7, 2);
    ShrIsQuotient(264, 6, 4);
    ShrIsQuotient(264, 5, 8);
  }

  lemma FirstSlot(H: Heap, s: Slot)
    requires NewSlot(Index(map[], map[]), H, 256, s)
    ensures s == Slot(32, 2) && Inserted(Index(map[], map[]), s, 2) == Trie1()
  {
    hide BinOf, Shr, ShiftAt;
    SizesInBin(256);
    assert Circle(Index(map[], map[]), Slot(32, 2)) + [2] == [2];
  }

  lemma SecondSlot(H: Heap, s: Slot)
    requires 2 in H && H[2].size == 32 && NewSlot(Trie1(), H, 376, s)
    ensures s == Slot(32, 5) && Inserted(Trie1(), s, 39) == Trie2()
  {
    hide BinOf, Shr, ShiftAt;
    SizesInBin(376);
    Prefixes();
    ShiftsThere();
    assert SizeOf(H, 2) == 256;
    assert s != Slot(32, 2);
    assert Up(s) == Slot(32, 2);
    assert s == Slot(32, 4) || s == Slot(32, 5);
    assert Circle(Trie1(), Slot(32, 5)) + [39] == [39];
  }

  lemma ThirdSlot(H: Heap, s: Slot)
    requires 2 in H && H[2].size == 32 && 39 in H && H[39].size == 47 && NewSlot(Trie2(), H, 328, s)
    ensures s == Slot(32, 10) && Inserted(Trie2(), s, 91) == Trie3()
  {
    hide BinOf, Shr, ShiftAt;
    SizesInBin(328);
    Prefixes();
    ShiftsThere();
    assert SizeOf(H, 2) == 256 && SizeOf(H, 39) == 376;
    assert s != Slot(32, 2) && s != Slot(32, 5);
    assert Up(s) == Slot(32, 2) || Up(s) == Slot(32, 5);
    assert s.pos == 4 || s.pos == 11 || s.pos == 10;
    assert Circle(Trie2(), Slot(32, 10)) + [91] == [91];
  }

  lemma FirstIndexed(ix: Index)
    requires Indexed(Index(map[], map[]), ix, Gap1(), 2)
    ensures ix == Trie1()
  {
    hide NewSlot, Inserted;
    var s :| NewSlot(Index(map[], map[]), Gap1(), SizeOf(Gap1(), 2), s) && ix == Inserted(Index(map[], map[]), s, 2);
    FirstSlot(Gap1(), s);
  }

  lemma SecondIndexed(ix: Index)
    requires Indexed(Trie1(), ix, Gap2(), 39)
    ensures ix == Trie2()
  {
    hide NewSlot, Inserted;
    var s :| NewSlot(Trie1(), Gap2(), SizeOf(Gap2(), 39), s) && ix == Inserted(Trie1(), s, 39);
    SecondSlot(Gap2(), s);
  }

  lemma ThirdIndexed(ix: Index)
    requires Indexed(Trie2(), ix, Gap3(), 91)
    ensures ix == Trie3()
  {
    hide NewSlot, Inserted;
    var s :| NewSlot(Trie2(), Gap3(), SizeOf(Gap3(), 91), s) && ix == Inserted(Trie2(), s, 91);
    ThirdSlot(Gap3(), s);
  }

  /** The three large blocks freed in this order. */
  method FreeRow(a: Allocator.Allocator, p: int, q: int, r: int)
    requires a.Valid() && a.H == Row6() && a.last == 137 && a.index.ix == Index(map[], map[])
    requires p - NEXT == 2 && q - NEXT == 39 && r - NEXT == 91
    modifies a`H, a`last, a.index`ix, a.index.bins, a.arena.words
    ensures a.Valid() && a.H == Gap3() && a.last == 137 && a.index.ix == Trie3()
  {
    hide Shaped, Wired, Heads, Feet, PinsOk, Agree, Tiled, Untouched, FreeStep, Indexed, Unuse, Alone, FreePlaces;
    GapsAre();
    var held := a.Free(p);
    FirstIndexed(a.index.ix);
    held := a.Free(q);
    SecondIndexed(a.index.ix);
    held := a.Free(r);
    ThirdIndexed(a.index.ix);
    LastStays(a);
  }

  lemma LastStays(a: Allocator.Allocator)
    requires a.Valid() && a.H == Gap3() && a.index.ix == Trie3()
    ensures a.last == 137 && a.B()[1] == NULL
  {
    hide Shaped, Wired, Heads, Feet, PinsOk, Bounded, Forward, Backward, Spaced;
    assert 2 in a.K() && 39 in a.K() && 91 in a.K();
    assert a.last !in {2, 39, 91};
  }

  /** The search looks at the root and at its right child, but not below that. */
  lemma LookedThere()
    ensures Looked(Slot(32, 2), 264) && Looked(Slot(32, 5), 264) && !Looked(Slot(32, 10), 264)
  {
    ShiftsThere();
    SizesInBin(264);
    Prefixes();
    assert RootSlot(32) == Slot(32, 2);
    hide BinOf, Shr, ShiftAt;
    assert OnRequestPath(Slot(32, 2), 264);
    assert Up(Slot(32, 5)) == Slot(32, 2);
    assert BesidePath(Slot(32, 5), 264);
  }

  lemma SearchFinds(best: int)
    requires SmallestLooked(Trie3(), Gap3(), 264, best)
    ensures best == 39 && !BestFitting(Trie3(), Gap3(), 264, best)
  {
    hide Looked, BinOf;
    LookedThere();
    SizesInBin(264);
    SizesInBin(328);
    var ix, H := Trie3(), Gap3();
    assert ix.slot[39] == Slot(32, 5) && SizeOf(H, 39) == 376;
    assert ix.slot[2] == Slot(32, 2) && SizeOf(H, 2) == 256;
    assert ix.slot[91] == Slot(32, 10) && SizeOf(H, 91) == 328;
  }

  lemma HiddenThere()
    requires Shaped(Trie3(), Gap3())
    ensures !NothingHidden(Trie3(), Gap3(), 264)
  {
    hide Looked, BinOf, Shaped, NothingHidden, BestFitting;
    if NothingHidden(Trie3(), Gap3(), 264) {
      ThereIsSmallest();
      BestFitExactly(Trie3(), Gap3(), 264, 39);
      SearchFinds(39);
    }
  }

  lemma ThereIsSmallest()
    ensures SmallestLooked(Trie3(), Gap3(), 264, 39)
  {
    hide Looked, BinOf;
    LookedThere();
    var ix, H := Trie3(), Gap3();
    assert ix.slot[39] == Slot(32, 5) && SizeOf(H, 39) == 376;
    assert ix.slot[2] == Slot(32, 2) && SizeOf(H, 2) == 256;
    assert ix.slot[91] == Slot(32, 10) && SizeOf(H, 91) == 328;
  }

  lemma RowPicked(c: int)
    requires Picked(NULL, Trie3(), Gap3(), 137, 33, c)
    ensures c == 39
  {
    hide BinOf, SmallestLooked, SmallestAbove;
    SizesInBin(264);
    SizesInBin(376);
    assert Trie3().slot[39].bin == 32 && SizeOf(Gap3(), 39) == 376;
    SearchFinds(if c == 137 then NULL else c);
  }

  /** malloc 256, 24, 376, 24, 328, 24, then free the three large blocks in this order. */
  method MakeRow(a: Allocator.Allocator)
    requires a.Objects() && a.Empty() && a.arena.lo == 2 && 4902 <= a.arena.words.Length
    modifies a`H, a`start, a`last, a.index`ix, a.arena`brk, a.arena`over, a.index.bins, a.arena.words
    ensures a.Valid() && a.H == Gap3() && a.last == 137 && a.index.ix == Trie3() && a.V() == NULL
    ensures Shaped(Trie3(), Gap3())
  {
    hide Wired, Heads, Feet, PinsOk, Agree, Tiled, Members, Placed, Rooted, Distinct, Gap3, Trie3;
    var x, y, z := LayRow(a);
    FreeRow(a, x, y, z);
    LastStays(a);
  }

  /** After this malloc of 264 bytes gets the chunk of 376, although that of 328 is free and
      fits. */
  method MissedFit(a: Allocator.Allocator) returns (p: int)
    requires a.Objects() && a.Empty() && a.arena.lo == 2 && 4902 <= a.arena.words.Length
    modifies a`H, a`start, a`last, a.index`ix, a.arena`brk, a.arena`over, a.index.bins, a.arena.words
    ensures a.Valid() && p - NEXT == 39 && 8 * Gap3()[39].size == 376
    ensures MallocStep(Gap3(), a.H, 137, a.last, 39, RequestWords(264))
    ensures 91 in a.H && !a.H[91].used && 8 * a.H[91].size == 328 && !NothingHidden(Trie3(), Gap3(), 264)
  {
    hide Shaped, Wired, Heads, Feet, PinsOk, Agree, Tiled, Untouched, Picked, MallocStep, Gap3, Trie3, NothingHidden,
         MallocPlaces, AsksPast, Growth;
    MakeRow(a);
    HiddenThere();
    a.IntSize(0, 264);
    var over;
    p, over := a.Malloc(264);
    RowPicked(if p == NULL then NULL else p - NEXT);
    RowServed(a.H, a.last);
  }

  lemma RowServed(H: Heap, last: int)
    requires MallocStep(Gap3(), H, 137, last, 39, 33)
    ensures 39 in Gap3() && 8 * Gap3()[39].size == 376
    ensures 91 in H && !H[91].used && 8 * H[91].size == 328
  {
  }

  // ----- a run that comes to the assertion at line 922

  /** Four blocks of 24 bytes, then the first and the third freed. */
  ghost function Four(n: nat): Heap
    requires n <= 4
  {
    if n == 0 then Fresh()
    else if n == 1 then map[2 := Chunk(3, true, true, 0), 6 := Chunk(4894, false, true, 2)]
    else if n == 2 then
      map[2 := Chunk(3, true, true, 0), 6 := Chunk(3, true, true, 2), 10 := Chunk(4890, false, true, 6)]
    else if n == 3 then
      map[2 := Chunk(3, true, true, 0), 6 := Chunk(3, true, true, 2), 10 := Chunk(3, true, true, 6),
          14 := Chunk(4886, false, true, 10)]
    else
      map[2 := Chunk(3, true, true, 0), 6 := Chunk(3, true, true, 2), 10 := Chunk(3, true, true, 6),
          14 := Chunk(3, true, true, 10), 18 := Chunk(4882, false, true, 14)]
  }

  ghost function Holes(): Heap {
    map[2 := Chunk(3, false, true, 0), 6 := Chunk(3, true, false, 2), 10 := Chunk(3, false, true, 6),
        14 := Chunk(3, true, false, 10), 18 := Chunk(4882, false, true, 14)]
  }

  lemma FourIs(n: nat)
    requires n < 4
    ensures var last := 2 + 4 * n;
            && AllTaken(Four(n), last) && CanSplit(Four(n)[last].size, 3)
            && CarvedH(Four(n), last, 3) == Four(n + 1)
  {
    var last := 2 + 4 * n;
    var s := Four(n)[last].size;
    var C := Four(n)[last := Chunk(3, false, true, Four(n)[last].pred)][last + 4 := Chunk(s - 4, false, false, last)];
    assert C == SplitH(Four(n), last, 3, false);
    assert Four(n + 1) == Use(C, last);
  }

  lemma HolesAre()
    ensures Alone(Four(4), 2) && Alone(Unuse(Four(4), 2), 10) && Unuse(Unuse(Four(4), 2), 10) == Holes()
    ensures Exact(Holes(), 2) && Pinched(Holes(), 18, 6, RequestWords(1000))
  {
    var H := Holes();
    assert Prev(H, 6) == 2 && Prev(H, 10) == 6 && Prev(H, 14) == 10 && Prev(H, 18) == 14;
  }

  /** malloc 24 four times, free the first and the third, realloc the second to 1000: the tags
      are exact all the time, and yet realloc fails the assertion at line 922. */
  method PinchedRun(a: Allocator.Allocator) returns (held: bool)
    requires a.Objects() && a.Empty() && a.arena.lo == 2 && 4902 <= a.arena.words.Length
    modifies a`H, a`start, a`last, a.index`ix, a.arena`brk, a.arena`over, a.index.bins, a.arena.words
    ensures !held && a.Valid() && Exact(a.H, a.start)
  {
    hide Shaped, Wired, Heads, Feet, PinsOk, Agree, Tiled, CarvedH, AllTaken, CanSplit, Four, Alone, Unuse, FreeStep,
         Untouched, Moved, Exact, TagsExact, CutsBeforeBlock, GrowStep, GrowHolds, ShrinkStep, Indexed, Pinched,
         ShrinkPlaces, GrowPlaces, FreePlaces, Recopies, NearbyPlaces;
    Begin(a);
    FourAtFirst();
    FourIs(0);
    var p := Carve(a, 24);
    FourIs(1);
    var q := Carve(a, 24);
    FourIs(2);
    var r := Carve(a, 24);
    FourIs(3);
    var s := Carve(a, 24);
    HolesAre();
    UsedThere();
    held := a.Free(p);
    held := a.Free(r);
    LastIs(a, 18);
    a.IntSize(6, 1000);
    var x, over;
    x, held, over := a.Realloc(q, 1000);
    NothingCut();
  }

  lemma FourAtFirst()
    ensures Four(0) == Fresh()
  {
  }

  lemma UsedThere()
    ensures 2 in Four(4) && Four(4)[2].used && 10 in Unuse(Four(4), 2) && Unuse(Four(4), 2)[10].used
    ensures 6 in Holes() && Holes()[6].used
  {
  }

  lemma NothingCut()
    ensures !CutsBeforeBlock(Holes(), 6, RequestWords(1000))
  {
  }

  // ----- a run that reads the entry after the last bin

  /** The first malloc after my_init, of 65536 bytes. */
  method PastBinsRun(a: Allocator.Allocator) returns (p: int, over: bool)
    requires a.Objects() && a.Empty() && a.arena.lo == 2 && 4902 <= a.arena.words.Length
    modifies a`H, a`start, a`last, a.index`ix, a.arena`brk, a.arena`over, a.index.bins, a.arena.words
    ensures over && a.Valid()
  {
    hide Shaped, Wired, Heads, Feet, PinsOk, Agree, Tiled, ReadsPastBins, MallocStep, Picked;
    Begin(a);
    EmptyReadsPastBins(a.H, 65536);
    a.IntSize(2, 65536);
    p, over := a.Malloc(65536);
  }

  // ----- a run that spoils the heap

  /** The first malloc after my_init, of 2^32 + 38840 bytes, up to the end-of-heap chunk's new
      header: eight bytes are granted and a chunk of more than 2^32 is written. */
  method UnsoundRun(a: Allocator.Allocator) returns (c: int, ok: bool)
    requires a.Objects() && a.Empty() && a.arena.lo == 2 && 4903 <= a.arena.words.Length
    modifies a`H, a`start, a`last, a.index`ix, a.arena`brk, a.arena`over, a.index.bins, a.arena.words
    ensures c == NULL && ok && a.arena.Break() == 8 * 4902 + 8
    ensures a.index.bins.Length == NUM_OF_BINS && !a.EndsAtBreak()
  {
    hide Shaped, Wired, Heads, Feet, PinsOk, Agree, Tiled;
    Begin(a);
    EightGranted(a.arena.Room());
    c, ok := a.GrowUnsoundly(RequestWords(0x1_0000_0000 + 38840));
  }

  lemma EightGranted(room: int)
    requires 8 <= room
    ensures var r := RequestWords(0x1_0000_0000 + 38840);
            && Addable(r) && !GrowthSound(Fresh(), 2, room, r)
            && MemLib.ToInt(8 * Shortfall(Fresh()[2].size, r)) == 8
  {
  }
}
