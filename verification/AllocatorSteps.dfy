/** The steps of the allocator on memory images: what the stores of each helper establish. */
module AllocatorSteps {
  import opened Layout
  import opened Rings
  import opened Tiling
  import opened Fields
  import opened IndexModel
  import opened IndexChanges
  import opened HeapOps
  import opened HeapModel
  import opened TrieSearch
  import MemLib

  /** A change inside the region of a chunk outside the index does not touch its links. */
  lemma LinksAway(m: seq<int>, m': seq<int>, ix: Index, H: Heap, start: int, last: int, brk: int, c: int, hi: int)
    requires Laid(m, H, start, last, brk) && Shaped(ix, H) && c in H && c !in ix.slot
    requires hi == Next(H, c) || (Next(H, c) in H && Next(H, c) !in ix.slot && hi == Next(H, Next(H, c)))
    requires Within(m, m', c + 1, hi)
    ensures LinksSame(m, m', ix, H)
  {
    LaidCarved(m, H, start, last, brk);
  }

  lemma SplitDone(m: seq<int>, m': seq<int>, b: seq<int>, ix: Index, H: Heap, start: int, last: int, brk: int,
                  c: int, r: int)
    requires Laid(m, H, start, last, brk) && PinsOk(H, start) && Shaped(ix, H) && Wired(m, b, ix)
    requires c in H && !H[c].used && c !in ix.slot && 3 <= r && CanSplit(H[c].size, r)
    requires Within(m, m', c + 1, Next(H, c))
    requires Field(m', c, CURRENT_SIZE) == Header(r, H[c].used, H[c].pin)
    requires Field(m', c + r + 1, CURRENT_SIZE) == Header(H[c].size - r - 1, false, false)
    requires At(m', c + r + 1) == 8 * r && At(m', Next(H, c)) == 8 * (H[c].size - r - 1)
    ensures var H' := SplitH(H, c, r, false);
            Laid(m', H', start, if c == last then c + r + 1 else last, brk) && PinsOk(H', start)
            && Shaped(ix, H') && Wired(m', b, ix)
  {
    var H' := SplitH(H, c, r, false);
    SplitCuts(H, start, last, brk, c, r, false);
    SplitLaid(m, m', H, H', start, last, brk, c, r, false);
    SplitBits(H, start, last, brk, c, r, false);
    LaidCarved(m, H, start, last, brk);
    LinksAway(m, m', ix, H, start, last, brk, c, Next(H, c));
    IndexKept(m, m', b, b, ix, H, H');
  }

  lemma CombineDone(m: seq<int>, m': seq<int>, b: seq<int>, b': seq<int>, ix: Index, H: Heap, start: int, last: int,
                    brk: int, c: int)
    requires Laid(m, H, start, last, brk) && PinsOk(H, start) && Shaped(ix, H) && Wired(m, b, ix)
    requires c in H && !H[c].used && c !in ix.slot && c != last && Next(H, c) in H
    requires !H[Next(H, c)].used && Next(H, c) !in ix.slot
    requires Within(m, m', c + 1, Next(H, Next(H, c)))
    requires Field(m', c, CURRENT_SIZE) == Header(Words(H[c].size + H[Next(H, c)].size + 1), false, H[c].pin)
    requires Next(H, c) != last ==> At(m', Next(H, Next(H, c))) == 8 * (H[c].size + H[Next(H, c)].size + 1)
    requires |b'| == NUM_OF_BINS && forall n {:trigger b'[n]} :: 2 <= n < NUM_OF_BINS ==> b'[n] == b[n]
    ensures var H' := JoinH(H, c);
            Laid(m', H', start, if Next(H, c) == last then c else last, brk) && PinsOk(H', start)
            && Shaped(ix, H') && Wired(m', b', ix)
  {
    var H' := JoinH(H, c);
    JoinTiled(H, start, last, brk, c);
    JoinLaid(m, m', H, H', start, last, brk, c);
    JoinBits(H, start, last, brk, c);
    LaidCarved(m, H, start, last, brk);
    LinksAway(m, m', ix, H, start, last, brk, c, Next(H, Next(H, c)));
    IndexKept(m, m', b, b', ix, H, H');
  }

  /** Chunk c has changed hands: its header and its successor's are rewritten, and a chunk
      that became free has its footer. */
  lemma ToggleLaid(m: seq<int>, m': seq<int>, H: Heap, H': Heap, start: int, last: int, brk: int, c: int)
    requires Laid(m, H, start, last, brk) && c in H && c != last && Next(H, c) in H
    requires H' == Use(H, c) || (H' == Unuse(H, c) && At(m', Next(H, c)) == 8 * H[c].size)
    requires Within(m, m', c + 1, Next(H, c) + 1)
    requires Field(m', c, CURRENT_SIZE) == HeaderOf(H'[c])
    requires Field(m', Next(H, c), CURRENT_SIZE) == HeaderOf(H'[Next(H, c)])
    ensures Laid(m', H', start, last, brk)
  {
    var nx := Next(H, c);
    forall d | d in H' && d != c && d != nx
      ensures Field(m', d, CURRENT_SIZE) == HeaderOf(H'[d])
    {
      assert Field(m', d, CURRENT_SIZE) == Field(m, d, CURRENT_SIZE);
    }
    forall d | d in H && !H'[d].used && d != last
      ensures At(m', Next(H, d)) == 8 * H[d].size
    {
      if d != c {
        assert At(m', Next(H, d)) == At(m, Next(H, d));
      }
    }
    FlagsLaid(m, m', H, H', start, last, brk);
  }

  lemma ToggleDone(m: seq<int>, m': seq<int>, b: seq<int>, ix: Index, H: Heap, H': Heap, start: int, last: int,
                   brk: int, c: int)
    requires Laid(m, H, start, last, brk) && PinsOk(H, start) && Shaped(ix, H) && Wired(m, b, ix)
    requires c in H && c != last && Next(H, c) in H && c !in ix.slot
    requires H' == Use(H, c) || (H' == Unuse(H, c) && At(m', Next(H, c)) == 8 * H[c].size)
    requires Within(m, m', c + 1, Next(H, c) + 1)
    requires Field(m', c, CURRENT_SIZE) == HeaderOf(H'[c])
    requires Field(m', Next(H, c), CURRENT_SIZE) == HeaderOf(H'[Next(H, c)])
    ensures Laid(m', H', start, last, brk) && PinsOk(H', start) && Shaped(ix, H') && Wired(m', b, ix)
    ensures Untouched(m, m', H, {c})
  {
    hide Members, Rooted, Distinct, Pathed, Circles, TrieLinks, TrieTags, Heads, Feet, PinsOk, Bounded, Forward,
         Backward, Spaced, LinksSame;
    ToggleLaid(m, m', H, H', start, last, brk, c);
    UseBits(H, start, last, brk, c);
    UnuseBits(H, start, last, brk, c);
    LaidCarved(m, H, start, last, brk);
    ToggleFrame(m, m', ix, H, start, last, brk, c);
    IndexKept(m, m', b, b, ix, H, H');
  }

  lemma ToggleFrame(m: seq<int>, m': seq<int>, ix: Index, H: Heap, start: int, last: int, brk: int, c: int)
    requires Laid(m, H, start, last, brk) && Shaped(ix, H) && c in H && c != last && Next(H, c) in H && c !in ix.slot
    requires Within(m, m', c + 1, Next(H, c) + 1)
    ensures LinksSame(m, m', ix, H) && Untouched(m, m', H, {c})
  {
    LaidCarved(m, H, start, last, brk);
    forall d | d in H && d != c
      ensures forall i {:trigger At(m', i)} :: d + 2 <= i <= d + H[d].size + 1 ==> At(m', i) == At(m, i)
    {
    }
  }

  /** Whatever happens inside a free chunk leaves the chunks in use alone. */
  lemma SplitUntouched(m: seq<int>, m': seq<int>, H: Heap, start: int, last: int, brk: int, c: int)
    requires Tiled(H, start, last, brk) && c in H && !H[c].used && Within(m, m', c + 1, Next(H, c))
    ensures Untouched(m, m', H, {})
  {
    WithinUntouched(m, m', H, start, last, brk, c);
  }

  /** The head of a small bin has exactly the requested size. */
  lemma SmallBinFits(m: seq<int>, b: seq<int>, ix: Index, H: Heap, r: int)
    requires Shaped(ix, H) && Wired(m, b, ix) && Carved(m, H) && 3 <= r && !IsLarge(8 * r)
    ensures 3 <= SmallRequestIndex(8 * r) <= 31
    ensures var c := b[SmallRequestIndex(8 * r)];
            c == Head(ix, Slot(SmallRequestIndex(8 * r), 0))
            && (c != NULL ==> c in ix.slot && c in H && H[c].size == r)
  {
    var n := SmallRequestIndex(8 * r);
    var c := b[n];
    if c != NULL {
      assert Slot(n, 0) in ix.rings && ix.rings[Slot(n, 0)][0] == c;
      BinInRange(SizeOf(H, c));
    }
  }

  lemma AboveInTrie(ix: Index, H: Heap, c: int)
    requires SmallestAbove(ix, H, 31, c) && c != NULL
    ensures c in ix.slot && InTrie(ix.slot[c])
  {
  }

  lemma TrieFitsSmall(ix: Index, H: Heap, c: int, r: int)
    requires Shaped(ix, H) && c in ix.slot && InTrie(ix.slot[c]) && !IsLarge(8 * r)
    ensures c in H && r < H[c].size
  {
    BinMeansLarge(ix, H, c);
  }

  lemma GrowDone(m: seq<int>, m': seq<int>, b: seq<int>, ix: Index, H: Heap, H': Heap, start: int, last: int, brk: int,
                 k: nat)
    requires Laid(m, H, start, last, brk) && PinsOk(H, start) && Shaped(ix, H) && Wired(m, b, ix)
    requires !H[last].used && last !in ix.slot && brk + k <= |m| && H' == GrowH(H, last, k)
    requires m' == m[last + 1 := Header(H[last].size + k, false, H[last].pin)]
    ensures Laid(m', H', start, last, brk + k) && PinsOk(H', start) && Shaped(ix, H') && Wired(m', b, ix)
    ensures Untouched(m, m', H, {})
  {
    LaidCarved(m, H, start, last, brk);
    GrowLaid(m, m', H, start, last, brk, k);
    GrowPins(H, start, last, k);
    SplitUntouched(m, m', H, start, last, brk, last);
    LinksAway(m, m', ix, H, start, last, brk, last, Next(H, last));
    IndexKept(m, m', b, b, ix, H, H');
  }

  lemma GrowPins(H: Heap, start: int, last: int, k: int)
    requires PinsOk(H, start) && last in H
    ensures PinsOk(GrowH(H, last, k), start)
  {
    var H' := GrowH(H, last, k);
    forall d | d in H' && d != start && !H'[d].pin
      ensures Prev(H', d) in H' && !H'[Prev(H', d)].used
    {
      assert Prev(H, d) in H;
    }
  }

  /** Two steps in a row, when the first does not change which chunks are in use. */
  lemma UntouchedAcross(m: seq<int>, m1: seq<int>, m2: seq<int>, H: Heap, H1: Heap, E: set<int>)
    requires Untouched(m, m1, H, E) && Untouched(m1, m2, H1, E)
    requires forall c {:trigger c in H} :: c in H && H[c].used && c !in E ==>
               c in H1 && H1[c].used && H1[c].size == H[c].size
    ensures Untouched(m, m2, H, E)
  {
    forall c | c in H && H[c].used && c !in E
      ensures PayloadSame(m, m2, c, H[c].size)
    {
      assert PayloadSame(m, m1, c, H[c].size) && PayloadSame(m1, m2, c, H[c].size);
      forall i | c + NEXT <= i <= c + H[c].size + 1
        ensures At(m2, i) == At(m, i)
      {
        assert At(m2, i) == At(m1, i);
      }
    }
  }

  lemma PairUntouched(m: seq<int>, m': seq<int>, H: Heap, start: int, last: int, brk: int, c: int)
    requires Tiled(H, start, last, brk) && c in H && !H[c].used && c != last
    requires Next(H, c) in H && !H[Next(H, c)].used && Within(m, m', c + 1, Next(H, Next(H, c)))
    ensures Untouched(m, m', H, {})
  {
    forall d | d in H && H[d].used
      ensures PayloadSame(m, m', d, H[d].size)
    {
    }
  }

  /** Chunk c, in use, has been cut to r words. */
  lemma CutUsedDone(m: seq<int>, m': seq<int>, b: seq<int>, ix: Index, H: Heap, H': Heap, start: int, last: int,
                    brk: int, c: int, r: int)
    requires Laid(m, H, start, last, brk) && Shaped(ix, H) && Wired(m, b, ix)
    requires c in H && H[c].used && 3 <= r && CanSplit(H[c].size, r) && H' == SplitH(H, c, r, true)
    requires Within(m, m', c + 1, Next(H, c))
    requires Field(m', c, CURRENT_SIZE) == Header(r, true, H[c].pin)
    requires Field(m', c + r + 1, CURRENT_SIZE) == Header(H[c].size - r - 1, false, true)
    requires c != last ==> At(m', Next(H, c)) == 8 * (H[c].size - r - 1)
    ensures Laid(m', H', start, if c == last then c + r + 1 else last, brk) && Shaped(ix, H') && Wired(m', b, ix)
    ensures Untouched(m, m', H, {c})
  {
    SplitCuts(H, start, last, brk, c, r, true);
    SplitLaid(m, m', H, H', start, last, brk, c, r, true);
    LaidCarved(m, H, start, last, brk);
    LinksAway(m, m', ix, H, start, last, brk, c, Next(H, c));
    IndexKept(m, m', b, b, ix, H, H');
    WithinUntouched(m, m', H, start, last, brk, c);
  }

  /** One previous-in-use bit rewritten. */
  lemma PinDone(m: seq<int>, m': seq<int>, b: seq<int>, ix: Index, H: Heap, H': Heap, start: int, last: int, brk: int,
                x: int, pin: bool)
    requires Laid(m, H, start, last, brk) && Shaped(ix, H) && Wired(m, b, ix) && x in H && H' == SetPin(H, x, pin)
    requires |m'| == |m| && x + 1 < |m| && m' == m[x + 1 := HeaderOf(H'[x])]
    ensures Laid(m', H', start, last, brk) && Shaped(ix, H') && Wired(m', b, ix) && Untouched(m, m', H, {})
  {
    LaidCarved(m, H, start, last, brk);
    PinLaid(m, m', H, H', start, last, brk, x, pin);
    PinFrame(m, m', ix, H, start, last, brk, x);
    IndexKept(m, m', b, b, ix, H, H');
  }

  lemma PinLaid(m: seq<int>, m': seq<int>, H: Heap, H': Heap, start: int, last: int, brk: int, x: int, pin: bool)
    requires Laid(m, H, start, last, brk) && x in H && H' == SetPin(H, x, pin)
    requires |m'| == |m| && 0 <= x + 1 < |m| && m' == m[x + 1 := HeaderOf(H'[x])]
    ensures Laid(m', H', start, last, brk)
  {
    forall d | d in H && !H'[d].used && d != last
      ensures At(m', Next(H, d)) == 8 * H[d].size
    {
      assert Next(H, d) != x + 1;
    }
    forall d | d in H'
      ensures Field(m', d, CURRENT_SIZE) == HeaderOf(H'[d])
    {
      if d != x {
        assert Field(m', d, CURRENT_SIZE) == Field(m, d, CURRENT_SIZE);
      }
    }
    FlagsLaid(m, m', H, H', start, last, brk);
  }

  lemma PinFrame(m: seq<int>, m': seq<int>, ix: Index, H: Heap, start: int, last: int, brk: int, x: int)
    requires Laid(m, H, start, last, brk) && Shaped(ix, H) && x in H && Within(m, m', x + 1, x + 1)
    ensures LinksSame(m, m', ix, H) && Untouched(m, m', H, {})
  {
    LaidCarved(m, H, start, last, brk);
    forall d | d in H && H[d].used
      ensures PayloadSame(m, m', d, H[d].size)
    {
    }
  }

  /** Memory and bins fit heap H, apart from the previous-in-use bit of the chunk after b,
      which is in use and about to be resized. */
  ghost predicate Resizing(m: seq<int>, b: seq<int>, ix: Index, H: Heap, start: int, last: int, brk: int, c: int) {
    && Laid(m, H, start, last, brk) && Shaped(ix, H) && Wired(m, b, ix) && |b| == NUM_OF_BINS
    && Agree(H, ix.slot.Keys, b[1], last, {}) && b[0] == last
    && c in H && H[c].used && c != last && Next(H, c) in H && PinsBut(H, start, Next(H, c))
  }

  /** Chunk c, in use, has taken in the free chunk after it, which is in hand. */
  lemma AbsorbNext(m: seq<int>, m': seq<int>, b: seq<int>, ix: Index, H: Heap, H': Heap, start: int, last: int,
                   brk: int, c: int)
    requires Laid(m, H, start, last, brk) && PinsOk(H, start) && Shaped(ix, H) && Wired(m, b, ix) && |b| == NUM_OF_BINS
    requires c in H && H[c].used && c != last && Next(H, c) in H && Next(H, c) != last
    requires Agree(H, ix.slot.Keys, b[1], last, {Next(H, c)}) && b[0] == last
    requires m' == m[c + 1 := Header(Words(H[c].size + H[Next(H, c)].size + 1), true, H[c].pin)]
    requires H' == JoinH(H, c)
    ensures Resizing(m', b, ix, H', start, last, brk, c)
    ensures H'[c].size == H[c].size + H[Next(H, c)].size + 1 && H'[c].pin == H[c].pin
  {
    var r := Next(H, c);
    LaidCarved(m, H, start, last, brk);
    JoinTiled(H, start, last, brk, c);
    JoinLaid(m, m', H, H', start, last, brk, c);
    AbsorbAgree(H, H', start, last, brk, ix.slot.Keys, b[1], c);
    AbsorbPins(H, start, last, brk, c);
    AbsorbFrame(m, m', ix, H, H', start, last, brk, c);
    IndexKept(m, m', b, b, ix, H, H');
  }

  lemma AbsorbAgree(H: Heap, H': Heap, start: int, last: int, brk: int, K: set<int>, v: int, c: int)
    requires start >= 2 && Tiled(H, start, last, brk) && c in H && H[c].used && c != last && Next(H, c) in H
    requires Next(H, c) != last
    requires Agree(H, K, v, last, {Next(H, c)}) && H' == JoinH(H, c)
    ensures Agree(H', K, v, last, {})
  {
    AgreeJoin(H, start, last, brk, K, v, {Next(H, c)}, c);
    assert {Next(H, c)} - {Next(H, c)} == {};
  }

  lemma AbsorbPins(H: Heap, start: int, last: int, brk: int, c: int)
    requires Tiled(H, start, last, brk) && PinsOk(H, start) && c in H && H[c].used && c != last
    requires Next(H, c) in H && Next(H, c) != last
    ensures var H' := JoinH(H, c);
            c in H' && Next(H', c) in H' && PinsBut(H', start, Next(H', c))
  {
    var H' := JoinH(H, c);
    JoinTiled(H, start, last, brk, c);
    var nn := Next(H', c);
    assert Next(H, Next(H, c)) in H && Prev(H, nn) == Next(H, c);
    forall d | d in H' && d != start && d != nn && !H'[d].pin
      ensures Prev(H', d) in H' && !H'[Prev(H', d)].used
    {
      assert Prev(H, d) in H && Next(H, Prev(H, d)) == d;
    }
  }

  lemma AbsorbFrame(m: seq<int>, m': seq<int>, ix: Index, H: Heap, H': Heap, start: int, last: int, brk: int, c: int)
    requires Laid(m, H, start, last, brk) && Shaped(ix, H) && c in H && H[c].used && c != last
    requires Next(H, c) in H && Next(H, c) !in ix.slot && H' == JoinH(H, c)
    requires Within(m, m', c + 1, c + 1)
    ensures LinksSame(m, m', ix, H) && SameMembers(ix, H, H')
  {
    LaidCarved(m, H, start, last, brk);
    JoinCuts(H, start, last, brk, c);
  }

  /** A new header for c changes no payload. */
  lemma HeaderUntouched(m: seq<int>, m': seq<int>, H: Heap, start: int, last: int, brk: int, c: int)
    requires Tiled(H, start, last, brk) && c in H && Within(m, m', c + 1, c + 1)
    ensures Untouched(m, m', H, {})
  {
    forall d | d in H && H[d].used
      ensures PayloadSame(m, m', d, H[d].size)
    {
    }
  }

  /** A block that grew where it was: removal of a neighbour, a new header, a resize. */
  lemma GrownInPlace(m0: seq<int>, m1: seq<int>, m: seq<int>, m': seq<int>, H: Heap, h: Heap, H': Heap, start: int,
                     last: int, brk: int, c: int, r: int)
    requires Tiled(H, start, last, brk) && c in H && H[c].used && H[c].size <= r
    requires Untouched(m0, m1, H, {}) && Within(m1, m, c + 1, c + 1) && KeepsUsed(H, h, c)
    requires Untouched(m, m', h, {c}) && PayloadSame(m, m', c, r)
    requires c in H' && H'[c].used && Live(H') == Live(H)[c := H'[c].size] && r <= H'[c].size <= r + 3
    ensures Moved(m0, m', H, H', c, c, r)
  {
    hide Untouched, PayloadSame, Live;
    HeaderUntouched(m1, m, H, start, last, brk, c);
    UntouchedTwice(m0, m1, m, H, {});
    UntouchedPayload(m0, m, H, c);
    PayloadPrefix(m, m', c, r, H[c].size);
    PayloadTwice(m0, m, m', c, H[c].size);
    StayedPut(m0, m', c, H[c].size);
    UntouchedWeaker(m0, m, H, c);
    UntouchedOnward(m0, m, m', H, h, c);
    SamePlace(H, H', c, H'[c].size);
  }

  lemma UntouchedOnward(m: seq<int>, m1: seq<int>, m2: seq<int>, H: Heap, h: Heap, c: int)
    requires Untouched(m, m1, H, {c}) && Untouched(m1, m2, h, {c}) && KeepsUsed(H, h, c)
    ensures Untouched(m, m2, H, {c})
  {
    forall d | d in H && H[d].used && d != c
      ensures PayloadSame(m, m2, d, H[d].size)
    {
      assert PayloadSame(m, m1, d, H[d].size) && PayloadSame(m1, m2, d, h[d].size);
      PayloadTwice(m, m1, m2, d, H[d].size);
    }
  }

  // ----- the initial heap, and the empty index

  ghost function InitialH(start: int): Heap {
    map[start := Chunk(INITIAL_CHUNK_SIZE / 8, false, true, NULL)]
  }

  lemma InitialLaid(m: seq<int>, start: int)
    requires 2 <= start && start + INITIAL_CHUNK_SIZE / 8 + 2 <= |m|
    requires Field(m, start, CURRENT_SIZE) == Header(INITIAL_CHUNK_SIZE / 8, false, true)
    ensures Laid(m, InitialH(start), start, start, start + INITIAL_CHUNK_SIZE / 8 + 2) && PinsOk(InitialH(start), start)
    ensures Shaped(Index(map[], map[]), InitialH(start)) && Live(InitialH(start)) == map[]
  {
  }

  /** Bin 0 is not part of the index. */
  lemma BinZeroFree(m: seq<int>, b: seq<int>, v: int)
    requires |b| == NUM_OF_BINS && forall n {:trigger b[n]} :: 1 <= n < NUM_OF_BINS ==> b[n] == NULL
    ensures Wired(m, b[0 := v], Index(map[], map[])) && b[0 := v][1] == NULL
  {
  }

  lemma CirclesHaveMembers(ix: Index)
    requires Members(ix)
    ensures forall s {:trigger s in ix.rings} :: s in ix.rings ==> |ix.rings[s]| > 0 && ix.rings[s][0] in ix.slot
  {
  }

  /** No indexed chunk, no circle, so every bin is NULL. */
  lemma NoChunkNoBin(ix: Index, b: seq<int>)
    requires Members(ix) && BinsPoint(b, ix) && ix.slot.Keys == {}
    ensures ix == Index(map[], map[]) && forall n :: 2 <= n < NUM_OF_BINS ==> b[n] == NULL
  {
    CirclesHaveMembers(ix);
    assert ix.slot == map[];
    assert ix.rings == map[];
  }

  // ----- which chunk serves a request

  /** The victim v is large enough for r words. */
  ghost predicate VictimServes(v: int, H: Heap, r: int) {
    v != NULL && v in H && r <= H[v].size
  }

  /** A small request: the first chunk of the bin of its size, then the victim, then the
      smallest node of the first non-empty trie. */
  ghost predicate SmallPick(v: int, ix: Index, H: Heap, r: nat, c: int) {
    var first := Head(ix, Slot(SmallRequestIndex(8 * r), 0));
    if first != NULL then c == first
    else if VictimServes(v, H, r) then c == v
    else SmallestAbove(ix, H, 31, c)
  }

  /** A large request: the victim, then the best the tries offer. */
  ghost predicate TriePick(v: int, ix: Index, H: Heap, r: nat, c: int) {
    if VictimServes(v, H, r) then c == v else BestFor(ix, H, 8 * r, c)
  }

  /** The chunk that serves a request of r words before the end of the heap is considered. */
  ghost predicate Pick(v: int, ix: Index, H: Heap, r: nat, c: int) {
    if IsHuge(8 * r) then BestHuge(ix, H, 8 * r, c)
    else if IsLarge(8 * r) then TriePick(v, ix, H, r, c)
    else SmallPick(v, ix, H, r, c)
  }

  /** The end-of-heap chunk serves what nothing else can. */
  ghost predicate Picked(v: int, ix: Index, H: Heap, last: int, r: nat, c: int) {
    Pick(v, ix, H, r, if c == last then NULL else c)
  }

  /** The search for r words reads the entry after the last bin. */
  ghost predicate AsksPast(v: int, ix: Index, H: Heap, r: nat) {
    IsLarge(8 * r) && !IsHuge(8 * r) && !VictimServes(v, H, r) && ReadsPastBins(ix, H, 8 * r)
  }

  // ----- increments that fit an int

  /** What malloc would ask of mem_sbrk for r words is granted as asked or refused, when the
      arena has `room` bytes left. */
  ghost predicate GrowthSound(H: Heap, last: int, room: int, r: int) {
    last in H && Addable(r) && MemLib.AllOrNothing(8 * Shortfall(H[last].size, r), room)
  }

  /** So is what realloc would ask for to grow block c, when the end of the heap is next. */
  ghost predicate TailSound(H: Heap, last: int, room: int, c: int, r: int) {
    && c in H && last in H && Addable(r)
    && (Next(H, c) == last ==> MemLib.AllOrNothing(8 * Lacking(H[c].size + H[last].size + 1, r), room))
  }

  /** Sizes that fit an int, which is all a trace can hold, are sound. */
  lemma IntSizesSound(H: Heap, start: int, last: int, brk: int, room: int, c: int, size: nat)
    requires Tiled(H, start, last, brk) && size <= MemLib.TWO_TO_THE_31
    ensures GrowthSound(H, last, room, RequestWords(size))
    ensures c in H ==> TailSound(H, last, room, c, RequestWords(size))
  {
    var r := RequestWords(size);
    MemLib.AllOrNothingExactly(8 * Shortfall(H[last].size, r), room);
    if c in H {
      MemLib.AllOrNothingExactly(8 * Lacking(H[c].size + H[last].size + 1, r), room);
    }
  }

  /** A request whose growth is not sound is larger than any chunk below the break and larger
      than any splitting test allows, so it always comes to the end of the heap. */
  lemma UnsoundIsLast(H: Heap, start: int, last: int, brk: int, room: int, r: int)
    requires Tiled(H, start, last, brk) && 2 <= start && 8 * brk <= MemLib.TWO_TO_THE_31 && Addable(r)
    requires !GrowthSound(H, last, room, r)
    ensures IsHuge(8 * r) && !CanSplit(H[last].size, r)
    ensures forall c {:trigger c in H} :: c in H ==> H[c].size < r
  {
    MemLib.AllOrNothingExactly(8 * Shortfall(H[last].size, r), room);
  }

  /** Right after my_init the first request that is not sound is that of 2^32 + 38825 bytes,
      rounded up to 2^32 + 38832: it is granted no bytes at all. */
  lemma FirstUnsound(start: int, room: int, size: nat)
    requires 0 <= room
    ensures size < 0x1_0000_0000 + 38825 ==> GrowthSound(InitialH(start), start, room, RequestWords(size))
    ensures !GrowthSound(InitialH(start), start, room, RequestWords(0x1_0000_0000 + 38825))
    ensures MemLib.ToInt(8 * Shortfall(InitialH(start)[start].size, RequestWords(0x1_0000_0000 + 38825))) == 0
  {
    var r := RequestWords(size);
    if size < 0x1_0000_0000 + 38825 {
      assert 8 * r <= 0x1_0000_0000 + 38824;
      assert 8 * Shortfall(InitialH(start)[start].size, r) < 0x1_0000_0000;
      MemLib.AllOrNothingExactly(8 * Shortfall(InitialH(start)[start].size, r), room);
    }
    NothingGranted(start);
  }

  lemma NothingGranted(start: int)
    ensures var x := 8 * Shortfall(InitialH(start)[start].size, RequestWords(0x1_0000_0000 + 38825));
            x == 0x1_0000_0000 && MemLib.ToInt(x) == 0
  {
  }
}
