/** What each allocator call does to the heap, and where free chunks are kept. */
module HeapModel {
  import opened Layout
  import opened Rings
  import opened Tiling
  import opened HeapOps

  // ----- agreement between the heap and the places that hold free chunks

  /** Every free chunk is in exactly one place: the bins K, the victim v, the end of the
      heap, or X, the chunks an operation has in hand. */
  ghost predicate Agree(H: Heap, K: set<int>, v: int, last: int, X: set<int>) {
    && NULL !in H
    && (forall c {:trigger c in K} :: c in K ==> c in H && !H[c].used && c != last && c != v && c !in X)
    && (forall c {:trigger c in X} :: c in X ==> c in H && !H[c].used && c != last && c != v)
    && (v != NULL ==> v in H && !H[v].used && v != last)
    && (forall c {:trigger c in H} :: c in H && !H[c].used && c != last && c != v && c !in X ==> c in K)
    && last in H && !H[last].used
  }

  lemma AgreeSplit(H: Heap, start: int, last: int, brk: int, K: set<int>, v: int, X: set<int>, c: int, r: int,
                   pin: bool)
    requires start >= 2 && Tiled(H, start, last, brk) && Agree(H, K, v, last, X) && c in X && 3 <= r
    requires CanSplit(H[c].size, r)
    ensures Agree(SplitH(H, c, r, pin), K, v, last, X + {c + r + 1})
  {
    SplitCuts(H, start, last, brk, c, r, pin);
  }

  lemma AgreeSplitLast(H: Heap, start: int, last: int, brk: int, K: set<int>, v: int, X: set<int>, r: int)
    requires start >= 2 && Tiled(H, start, last, brk) && Agree(H, K, v, last, X) && 3 <= r && CanSplit(H[last].size, r)
    ensures Agree(SplitH(H, last, r, false), K, v, last + r + 1, X + {last})
  {
    SplitCuts(H, start, last, brk, last, r, false);
  }

  lemma AgreeSplitUsed(H: Heap, start: int, last: int, brk: int, K: set<int>, v: int, X: set<int>, c: int, r: int)
    requires start >= 2 && Tiled(H, start, last, brk) && Agree(H, K, v, last, X)
    requires c in H && H[c].used && 3 <= r && CanSplit(H[c].size, r)
    ensures Agree(SplitH(H, c, r, true), K, v, last, X + {c + r + 1})
  {
    SplitCuts(H, start, last, brk, c, r, true);
  }

  lemma AgreeJoin(H: Heap, start: int, last: int, brk: int, K: set<int>, v: int, X: set<int>, c: int)
    requires start >= 2 && Tiled(H, start, last, brk) && Agree(H, K, v, last, X) && c in H && c != last
    requires Next(H, c) in H
    requires (c in X || H[c].used) && (Next(H, c) in X || (Next(H, c) == last && c in X))
    ensures Next(H, c) != last ==> Agree(JoinH(H, c), K, v, last, X - {Next(H, c)})
    ensures Next(H, c) == last ==> Agree(JoinH(H, c), K, v, c, X - {c})
  {
    JoinCuts(H, start, last, brk, c);
  }

  /** Chunk c given up to the operation in hand. */
  lemma AgreeTake(H: Heap, K: set<int>, v: int, last: int, X: set<int>, c: int)
    requires Agree(H, K, v, last, X) && c in H && !H[c].used && c != last && c !in X
    ensures c == v ==> Agree(H, K, NULL, last, X + {c})
    ensures c != v ==> c in K && Agree(H, K - {c}, v, last, X + {c})
  {
  }

  lemma AgreeGive(H: Heap, K: set<int>, v: int, last: int, X: set<int>, c: int)
    requires Agree(H, K, v, last, X) && c in X
    ensures Agree(H, K + {c}, v, last, X - {c})
    ensures v == NULL ==> Agree(H, K, c, last, X - {c})
  {
  }

  /** The old victim goes to its bin. */
  lemma AgreeRetire(H: Heap, K: set<int>, v: int, last: int, X: set<int>)
    requires Agree(H, K, v, last, X) && v != NULL
    ensures v !in K && Agree(H, K + {v}, NULL, last, X)
  {
  }

  // ----- the calls, on the heap

  /** Chunk c given to the client: in use, and its successor knows. */
  ghost function Use(H: Heap, c: int): Heap
    requires c in H && Next(H, c) in H
  {
    SetPin(SetUsed(H, c, true), Next(H, c), true)
  }

  ghost function Unuse(H: Heap, c: int): Heap
    requires c in H && Next(H, c) in H
  {
    SetPin(SetUsed(H, c, false), Next(H, c), false)
  }

  /** Only tag bits differ. */
  ghost predicate SameShape(H: Heap, H': Heap) {
    H'.Keys == H.Keys && forall d {:trigger d in H} :: d in H ==> H'[d].size == H[d].size && H'[d].pred == H[d].pred
  }

  lemma UseShape(H: Heap, start: int, last: int, brk: int, c: int)
    requires Tiled(H, start, last, brk) && c in H && c != last
    ensures Next(H, c) in H && SameShape(H, Use(H, c)) && SameShape(H, Unuse(H, c))
    ensures Tiled(Use(H, c), start, last, brk) && Tiled(Unuse(H, c), start, last, brk)
  {
    FlagsTiled(H, Use(H, c), start, last, brk);
    FlagsTiled(H, Unuse(H, c), start, last, brk);
  }

  lemma UseBits(H: Heap, start: int, last: int, brk: int, c: int)
    requires Tiled(H, start, last, brk) && PinsOk(H, start) && c in H && c != last && Next(H, c) in H
    ensures PinsOk(Use(H, c), start)
  {
    var H' := Use(H, c);
    forall d | d in H' && d != start && !H'[d].pin
      ensures Prev(H', d) in H' && !H'[Prev(H', d)].used
    {
      assert Prev(H, d) in H && Next(H, Prev(H, d)) == d;
    }
  }

  lemma UnuseBits(H: Heap, start: int, last: int, brk: int, c: int)
    requires Tiled(H, start, last, brk) && PinsOk(H, start) && c in H && c != last && Next(H, c) in H
    ensures PinsOk(Unuse(H, c), start)
  {
    var H' := Unuse(H, c);
    forall d | d in H' && d != start && !H'[d].pin
      ensures Prev(H', d) in H' && !H'[Prev(H', d)].used
    {
      assert Prev(H, d) in H && Next(H, Prev(H, d)) == d;
    }
  }

  /** What malloc leaves of the chunk c that it has chosen: exactly r words when the rest
      makes a chunk of its own, all of it otherwise. */
  ghost function TakenH(H: Heap, c: int, r: int): Heap
    requires c in H
  {
    if CanSplit(H[c].size, r) then SplitH(H, c, r, false) else H
  }

  lemma AgreeInHand(H: Heap, K: set<int>, v: int, last: int, X: set<int>, c: int)
    requires Agree(H, K, v, last, X) && c in X
    ensures c in H && !H[c].used && c !in K && c != last && c != v && last in H
  {
  }

  lemma AgreeVictimSplit(H: Heap, H': Heap, start: int, last: int, brk: int, K: set<int>, v: int, r: int)
    requires start >= 2 && Tiled(H, start, last, brk) && Agree(H, K, v, last, {}) && v != NULL
    requires 3 <= r && CanSplit(H[v].size, r) && H' == SplitH(H, v, r, false)
    ensures Agree(H', K, v + r + 1, last, {v})
  {
    AgreeTake(H, K, v, last, {}, v);
    assert {} + {v} == {v};
    AgreeNewVictim(H, H', start, last, brk, K, v, r);
  }

  lemma AgreeNewVictim(H: Heap, H': Heap, start: int, last: int, brk: int, K: set<int>, c: int, r: int)
    requires start >= 2 && Tiled(H, start, last, brk) && Agree(H, K, NULL, last, {c})
    requires 3 <= r && CanSplit(H[c].size, r) && H' == SplitH(H, c, r, false)
    ensures Agree(H', K, c + r + 1, last, {c})
  {
    AgreeSplit(H, start, last, brk, K, NULL, {c}, c, r, false);
    AgreeGive(H', K, NULL, last, {c} + {c + r + 1}, c + r + 1);
    assert {c} + {c + r + 1} - {c + r + 1} == {c};
  }

  lemma AgreeIndexed(H: Heap, K: set<int>, v: int, last: int, X: set<int>, c: int)
    requires Agree(H, K, v, last, X) && c in K
    ensures c in H && !H[c].used && c != last && c != v && c !in X
  {
  }

  // ----- the end of the heap

  /** How many words the end-of-heap chunk must grow by to be split for r words: none if a chunk
      is left, and otherwise so many that a chunk of 344 bytes is left. */
  function Shortfall(size: int, r: int): (k: int)
    ensures k >= 0 && (k == 0 <==> 8 * size >= 8 * r + 32)
    ensures k > 0 ==> 8 * (size + k - r - 1) == 344
  {
    if CanSplit(size, r) then 0 else r - size + EXTENSION_SIZE / 8
  }

  /** How many words the end of the heap must grow by for a block that, with it, has `size`: none
      if a chunk is left, and otherwise so many that a chunk of 376 bytes is left. */
  function Lacking(size: int, r: int): (k: int)
    ensures k >= 0 && (k == 0 <==> 8 * size >= 8 * r + 32)
    ensures k > 0 ==> 8 * (size + k - r - 1) == 376
  {
    if CanSplit(size, r) then 0 else r + (SMALLEST_CHUNK + EXTENSION_SIZE) / 8 - size
  }

  /** The heap with the end-of-heap chunk extended as far as a request of r words needs. */
  ghost function ExtendH(H: Heap, last: int, r: int): Heap
    requires last in H
  {
    GrowH(H, last, Shortfall(H[last].size, r))
  }

  lemma AgreeGrow(H: Heap, H': Heap, K: set<int>, v: int, last: int, X: set<int>, k: int)
    requires Agree(H, K, v, last, X) && H' == GrowH(H, last, k)
    ensures Agree(H', K, v, last, X)
  {
  }

  lemma AgreeCutLast(H: Heap, H': Heap, start: int, last: int, brk: int, K: set<int>, v: int, r: int)
    requires start >= 2 && Tiled(H, start, last, brk) && Agree(H, K, v, last, {}) && 3 <= r && CanSplit(H[last].size, r)
    requires H' == SplitH(H, last, r, false)
    ensures Agree(H', K, v, last + r + 1, {last})
  {
    AgreeSplitLast(H, start, last, brk, K, v, {}, r);
    assert {} + {last} == {last};
  }

  // ----- what the client sees

  /** The chunks in use with their sizes. */
  ghost function Live(H: Heap): map<int, int> {
    map c | c in H && H[c].used :: H[c].size
  }

  /** A successful malloc of r words: a free chunk cut to size (a huge one is never cut),
      or the front of the extended end-of-heap chunk. */
  ghost predicate MallocStep(H: Heap, H': Heap, last: int, last': int, c: int, r: int) {
    && c in H && !H[c].used && last in H
    && (if c == last then
          last' == c + r + 1 && c in ExtendH(H, c, r) && CanSplit(ExtendH(H, c, r)[c].size, r)
          && var H1 := SplitH(ExtendH(H, c, r), c, r, false);
             c in H1 && Next(H1, c) in H1 && H' == Use(H1, c)
        else
          last' == last && r <= H[c].size
          && var H1 := if IsHuge(8 * r) then H else TakenH(H, c, r);
             c in H1 && Next(H1, c) in H1 && H' == Use(H1, c))
  }

  /** The new block is the one new live block, at least as large as the request and, unless
      the request is huge, at most three words larger. */
  lemma MallocLive(H: Heap, H': Heap, start: int, last: int, last': int, brk: int, c: int, r: int)
    requires Tiled(H, start, last, brk) && 3 <= r && MallocStep(H, H', last, last', c, r)
    ensures c in H' && c !in Live(H) && Live(H') == Live(H)[c := H'[c].size]
    ensures r <= H'[c].size && (!IsHuge(8 * r) ==> H'[c].size <= r + 3)
  {
    if c == last {
      var k := Shortfall(H[last].size, r);
      GrowTiled(H, start, last, brk, k);
      SplitLive(ExtendH(H, c, r), start, last, brk + k, c, r, false);
      UseLive(SplitH(ExtendH(H, c, r), c, r, false), c);
      assert Live(ExtendH(H, c, r)) == Live(H);
    } else if CanSplit(H[c].size, r) && !IsHuge(8 * r) {
      SplitLive(H, start, last, brk, c, r, false);
      UseLive(SplitH(H, c, r, false), c);
    } else {
      UseLive(H, c);
    }
  }

  lemma SplitLive(H: Heap, start: int, last: int, brk: int, c: int, r: int, pin: bool)
    requires Tiled(H, start, last, brk) && c in H && 3 <= r && CanSplit(H[c].size, r)
    ensures var H' := SplitH(H, c, r, pin);
            c in H' && H'[c].size == r && Next(H', c) in H' && H'[c].used == H[c].used && !H'[Next(H', c)].used
            && Live(H') == if H[c].used then Live(H)[c := r] else Live(H)
  {
    SplitCuts(H, start, last, brk, c, r, pin);
    var H' := SplitH(H, c, r, pin);
    forall d | d in H
      ensures d in H' && H'[d].used == H[d].used && (d != c ==> H'[d].size == H[d].size)
    {
    }
  }

  lemma UseLive(H: Heap, c: int)
    requires c in H && Next(H, c) in H && Next(H, c) != c
    ensures c in Use(H, c) && Use(H, c)[c].size == H[c].size && Live(Use(H, c)) == Live(H)[c := H[c].size]
  {
  }

  lemma AgreeUse(H: Heap, H': Heap, K: set<int>, v: int, last: int, c: int)
    requires Agree(H, K, v, last, {c}) && Next(H, c) in H && Next(H, c) != c && H' == Use(H, c)
    ensures Agree(H', K, v, last, {})
  {
  }

  /** A change confined to a chunk that is not in use touches no chunk in use. */
  lemma FreeInHand(m: seq<int>, m': seq<int>, H: Heap, c: int)
    requires Untouched(m, m', H, {c}) && c in H && !H[c].used
    ensures Untouched(m, m', H, {})
  {
  }

  /** Chunk c has been found and cut for a request of r words. */
  ghost predicate FoundStep(H: Heap, h: Heap, last: int, last': int, c: int, r: int) {
    && c in H && !H[c].used && last in H
    && (if c == last then last' == c + r + 1 && h == SplitH(ExtendH(H, c, r), c, r, false)
        else last' == last && r <= H[c].size && h == if IsHuge(8 * r) then H else TakenH(H, c, r))
  }

  /** How far the break moves when chunk c serves r words. */
  ghost function Growth(H: Heap, last: int, c: int, r: int): int {
    if c == last && last in H then Shortfall(H[last].size, r) else 0
  }

  lemma FoundKeepsUsed(H: Heap, h: Heap, start: int, last: int, last': int, brk: int, c: int, r: int)
    requires Tiled(H, start, last, brk) && 3 <= r && FoundStep(H, h, last, last', c, r)
    ensures forall d {:trigger d in H} :: d in H && H[d].used ==> d in h && h[d].used && h[d].size == H[d].size
  {
    if c == last {
      var k := Shortfall(H[last].size, r);
      GrowTiled(H, start, last, brk, k);
      SplitCuts(ExtendH(H, c, r), start, last, brk + k, c, r, false);
    } else if CanSplit(H[c].size, r) {
      SplitCuts(H, start, last, brk, c, r, false);
    }
  }

  lemma FoundUsed(H: Heap, h: Heap, H': Heap, last: int, last': int, c: int, r: int)
    requires FoundStep(H, h, last, last', c, r) && 3 <= r && c in h && Next(h, c) in h && H' == Use(h, c)
    ensures MallocStep(H, H', last, last', c, r)
  {
  }

  // ----- free

  /** Merge chunk c, just freed, with the chunk before it when the tag says that is free. */
  ghost function MergeBackH(H: Heap, c: int): Heap
    requires c in H && (!H[c].pin ==> Prev(H, c) in H && Next(H, Prev(H, c)) == c)
  {
    if H[c].pin then H else JoinH(H, Prev(H, c))
  }

  ghost function MergedAt(H: Heap, c: int): int
    requires c in H
  {
    if H[c].pin then c else Prev(H, c)
  }

  ghost function MergeForthH(H: Heap, d: int): Heap
    requires d in H && Next(H, d) in H
  {
    if H[Next(H, d)].used then H else JoinH(H, d)
  }

  lemma AgreeUnuse(H: Heap, H': Heap, K: set<int>, v: int, last: int, c: int)
    requires Agree(H, K, v, last, {}) && c in H && H[c].used && Next(H, c) in H && Next(H, c) != c && H' == Unuse(H, c)
    ensures Agree(H', K, v, last, {c})
  {
  }

  lemma AgreeMerge(H: Heap, H': Heap, start: int, last: int, brk: int, K: set<int>, v: int, d: int, r: int)
    requires start >= 2 && Tiled(H, start, last, brk) && Agree(H, K, v, last, {d, r}) && d in H && r == Next(H, d)
    requires d != last && r in H && H' == JoinH(H, d)
    ensures r != last && Agree(H', K, v, last, {d})
  {
    AgreeJoin(H, start, last, brk, K, v, {d, r}, d);
    assert {d, r} - {r} == {d};
  }

  lemma AgreeMergeEnd(H: Heap, H': Heap, start: int, last: int, brk: int, K: set<int>, v: int, d: int)
    requires start >= 2 && Tiled(H, start, last, brk) && Agree(H, K, v, last, {d}) && d in H && d != last
    requires last == Next(H, d) && H' == JoinH(H, d)
    ensures Agree(H', K, v, d, {})
  {
    AgreeJoin(H, start, last, brk, K, v, {d}, d);
    assert {d} - {d} == {};
  }

  lemma AgreeEnd(H: Heap, K: set<int>, v: int, last: int, X: set<int>)
    requires Agree(H, K, v, last, X)
    ensures last in H && !H[last].used && last !in K && last !in X && last != v
  {
  }

  lemma UntouchedSame(m: seq<int>, H: Heap)
    ensures Untouched(m, m, H, {})
  {
  }

  /** Every chunk in use in H, except c, is in use in H' with the same size. */
  ghost predicate KeepsUsed(H: Heap, H': Heap, c: int) {
    forall d {:trigger d in H} :: d in H && H[d].used && d != c ==> d in H' && H'[d].used && H'[d].size == H[d].size
  }

  /** Both neighbours of block c are in use. */
  ghost predicate Alone(H: Heap, c: int) {
    c in H && H[c].pin && Next(H, c) in H && Next(H, c) != c && H[Next(H, c)].used
  }

  /** Free of chunk c: its tags cleared, then merged backward and forward. */
  ghost predicate FreeStep(H: Heap, H': Heap, c: int) {
    && c in H && Next(H, c) in H
    && var H1 := Unuse(H, c);
    && c in H1 && (!H1[c].pin ==> Prev(H1, c) in H1 && Next(H1, Prev(H1, c)) == c)
    && var H2 := MergeBackH(H1, c);
    && MergedAt(H1, c) in H2 && Next(H2, MergedAt(H1, c)) in H2
    && H' == MergeForthH(H2, MergedAt(H1, c))
  }

  /** Combining chunk c with the free chunk after it meets a previous-in-use bit that says that
      chunk is in use: the assertion at line 760 fails. */
  ghost predicate AbsorbsStale(H: Heap, last: int, c: int) {
    && c in H && Next(H, c) in H && !H[Next(H, c)].used && Next(H, c) != last
    && Next(H, Next(H, c)) in H && H[Next(H, Next(H, c))].pin
  }

  /** Free clears the bit that its backward merge looks at, so only what follows c matters. */
  lemma FreeMeetsStale(H: Heap, start: int, last: int, brk: int, c: int)
    requires Tiled(H, start, last, brk) && PinsOk(H, start) && c in H && H[c].used && c != last && !H[last].used
    requires Next(H, c) in H
    ensures var H1 := Unuse(H, c);
            && c in H1 && (!H1[c].pin ==> Prev(H1, c) in H1 && Next(H1, Prev(H1, c)) == c)
            && (H1[c].pin || !AbsorbsStale(H1, last, Prev(H1, c)))
            && (AbsorbsStale(MergeBackH(H1, c), last, MergedAt(H1, c)) <==> AbsorbsStale(H, last, c))
  {
    hide Bounded, Forward, Backward, Spaced, AbsorbsStale, PinsOk;
    var H1 := Unuse(H, c);
    UseShape(H, start, last, brk, c);
    UnuseBits(H, start, last, brk, c);
    UnuseStale(H, start, last, brk, c);
    if !H1[c].pin {
      BelievedFree(H1, start, last, brk, c);
      BackStale(H1, start, last, brk, c, Prev(H1, c));
    }
  }

  lemma BelievedFree(H: Heap, start: int, last: int, brk: int, c: int)
    requires Tiled(H, start, last, brk) && PinsOk(H, start) && c in H && !H[c].pin && c != last
    ensures Prev(H, c) in H && Next(H, Prev(H, c)) == c && !H[Prev(H, c)].used && Prev(H, c) != last && Next(H, c) in H
  {
  }

  lemma UnuseStale(H: Heap, start: int, last: int, brk: int, c: int)
    requires Tiled(H, start, last, brk) && c in H && H[c].used && c != last && Next(H, c) in H
    ensures AbsorbsStale(Unuse(H, c), last, c) <==> AbsorbsStale(H, last, c)
    ensures !Unuse(H, c)[Next(H, c)].pin
  {
    assert AbsorbsStale(H, last, c) ==> Next(H, Next(H, c)) != Next(H, c);
  }

  lemma BackStale(H: Heap, start: int, last: int, brk: int, c: int, d: int)
    requires Tiled(H, start, last, brk) && c in H && c != last && d in H && d != last && Next(H, d) == c
    requires Next(H, c) in H && !H[Next(H, c)].pin
    ensures !AbsorbsStale(H, last, d) && (AbsorbsStale(JoinH(H, d), last, d) <==> AbsorbsStale(H, last, c))
  {
    JoinCuts(H, start, last, brk, d);
  }

  /** Nor does it matter that c is cut first. */
  lemma CutMeetsStale(H: Heap, start: int, last: int, brk: int, c: int, r: int)
    requires Tiled(H, start, last, brk) && c in H && H[c].used && c != last && 3 <= r && CanSplit(H[c].size, r)
    ensures AbsorbsStale(SplitH(H, c, r, true), last, c + r + 1) <==> AbsorbsStale(H, last, c)
  {
    SplitCuts(H, start, last, brk, c, r, true);
  }

  lemma KeepsUsedTwice(H: Heap, H1: Heap, H2: Heap, c: int)
    requires KeepsUsed(H, H1, c) && KeepsUsed(H1, H2, c)
    ensures KeepsUsed(H, H2, c)
  {
  }

  lemma UntouchedBut(m: seq<int>, m1: seq<int>, m2: seq<int>, H: Heap, H1: Heap, c: int)
    requires Untouched(m, m1, H, {c}) && Untouched(m1, m2, H1, {}) && KeepsUsed(H, H1, c)
    ensures Untouched(m, m2, H, {c})
  {
    forall d | d in H && H[d].used && d != c
      ensures PayloadSame(m, m2, d, H[d].size)
    {
      assert PayloadSame(m, m1, d, H[d].size) && PayloadSame(m1, m2, d, H1[d].size);
      forall i | d + NEXT <= i <= d + H[d].size + 1
        ensures At(m2, i) == At(m, i)
      {
        assert At(m2, i) == At(m1, i);
      }
    }
  }

  /** A chunk in use is in none of the places for free chunks. */
  lemma AgreeOutside(H: Heap, K: set<int>, v: int, last: int, X: set<int>, c: int)
    requires Agree(H, K, v, last, X) && c in H && H[c].used
    ensures c !in K && c != last && c != v && c !in X
  {
  }

  /** Free takes exactly block c from the live blocks. */
  lemma FreeLive(H: Heap, H': Heap, start: int, last: int, brk: int, c: int)
    requires Tiled(H, start, last, brk) && FreeStep(H, H', c) && H[c].used && !H[last].used
    requires PinsOk(H, start)
    ensures Live(H') == Live(H) - {c}
  {
    hide Bounded, Forward, Backward, Spaced;
    var H1 := Unuse(H, c);
    UseShape(H, start, last, brk, c);
    UnuseBits(H, start, last, brk, c);
    assert Live(H1) == Live(H) - {c};
    BackLive(H1, start, last, brk, c);
    ForthLive(MergeBackH(H1, c), start, last, brk, MergedAt(H1, c));
  }

  lemma BackLive(H: Heap, start: int, last: int, brk: int, c: int)
    requires Tiled(H, start, last, brk) && PinsOk(H, start) && c in H && !H[c].used && c != last && !H[last].used
    requires !H[c].pin ==> Prev(H, c) in H && Next(H, Prev(H, c)) == c
    ensures var d, H' := MergedAt(H, c), MergeBackH(H, c);
            Live(H') == Live(H) && Tiled(H', start, last, brk) && d in H' && !H'[d].used && d != last && !H'[last].used
  {
    if !H[c].pin {
      var d := Prev(H, c);
      assert !H[d].used;
      JoinTiled(H, start, last, brk, d);
      JoinLive(H, start, last, brk, d);
    }
  }

  lemma ForthLive(H: Heap, start: int, last: int, brk: int, d: int)
    requires Tiled(H, start, last, brk) && d in H && !H[d].used && d != last && Next(H, d) in H
    ensures Live(MergeForthH(H, d)) == Live(H)
  {
    if !H[Next(H, d)].used {
      JoinLive(H, start, last, brk, d);
    }
  }

  lemma JoinLive(H: Heap, start: int, last: int, brk: int, d: int)
    requires Tiled(H, start, last, brk) && d in H && d != last && Next(H, d) in H && !H[d].used && !H[Next(H, d)].used
    ensures Live(JoinH(H, d)) == Live(H)
  {
    JoinCuts(H, start, last, brk, d);
  }

  // ----- realloc

  lemma AgreeCutUsed(H: Heap, H': Heap, start: int, last: int, brk: int, K: set<int>, v: int, c: int, r: int)
    requires start >= 2 && Tiled(H, start, last, brk) && Agree(H, K, v, last, {}) && c in H && H[c].used
    requires 3 <= r && CanSplit(H[c].size, r) && H' == SplitH(H, c, r, true)
    ensures Agree(H', K, v, last, {c + r + 1})
  {
    AgreeSplitUsed(H, start, last, brk, K, v, {}, c, r);
    assert {} + {c + r + 1} == {c + r + 1};
  }

  /** Block c cut down to r words, the rest merged forward when it can be. */
  ghost predicate ShrinkStep(H: Heap, H': Heap, c: int, r: int) {
    && c in H && H[c].used && 3 <= r && CanSplit(H[c].size, r)
    && var H1 := SplitH(H, c, r, true);
    && c + r + 1 in H1 && Next(H1, c + r + 1) in H1 && H' == MergeForthH(H1, c + r + 1)
  }

  lemma ShrinkLive(H: Heap, H': Heap, start: int, last: int, brk: int, c: int, r: int)
    requires Tiled(H, start, last, brk) && c != last && ShrinkStep(H, H', c, r)
    ensures c in H' && H'[c].size == r && Live(H') == Live(H)[c := r]
  {
    var H1 := SplitH(H, c, r, true);
    SplitTiled(H, start, last, brk, c, r, true);
    SplitLive(H, start, last, brk, c, r, true);
    if !H1[Next(H1, c + r + 1)].used {
      JoinLive(H1, start, last, brk, c + r + 1);
      JoinCuts(H1, start, last, brk, c + r + 1);
    }
  }

  /** The first n payload words of the chunk at d are those the chunk at c had. */
  ghost predicate Copied(m: seq<int>, m': seq<int>, c: int, d: int, n: int) {
    forall k {:trigger Field(m', d, k)} :: NEXT <= k < NEXT + n ==> Field(m', d, k) == Field(m, c, k)
  }

  function Min(a: int, b: int): int {
    if a < b then a else b
  }

  /** What realloc promises: block c has become block d, no other live block's address, of at least r words and, unless
      the request is huge, at most three more; its contents are kept as far as both blocks
      reach; every other live block is as it was. */
  ghost predicate Moved(m: seq<int>, m': seq<int>, H: Heap, H': Heap, c: int, d: int, r: int) {
    && c in H && H[c].used && d in H' && H'[d].used && (d == c || d !in Live(H))
    && Live(H') == (Live(H) - {c})[d := H'[d].size]
    && r <= H'[d].size && (!IsHuge(8 * r) ==> H'[d].size <= r + 3)
    && Untouched(m, m', H, {c})
    && Copied(m, m', c, d, Min(H[c].size, r))
  }

  lemma StayedPut(m: seq<int>, m': seq<int>, c: int, n: int)
    requires PayloadSame(m, m', c, n)
    ensures Copied(m, m', c, c, n)
  {
    forall k | NEXT <= k < NEXT + n
      ensures Field(m', c, k) == Field(m, c, k)
    {
      assert At(m', c + k) == At(m, c + k);
    }
  }

  lemma SamePlace(H: Heap, H': Heap, c: int, s: int)
    requires Live(H') == Live(H)[c := s]
    ensures Live(H') == (Live(H) - {c})[c := s]
  {
  }

  lemma PayloadTwice(m: seq<int>, m1: seq<int>, m2: seq<int>, c: int, n: int)
    requires PayloadSame(m, m1, c, n) && PayloadSame(m1, m2, c, n)
    ensures PayloadSame(m, m2, c, n)
  {
    forall i | c + NEXT <= i <= c + n + 1
      ensures At(m2, i) == At(m, i)
    {
      assert At(m2, i) == At(m1, i);
    }
  }

  lemma UntouchedPayload(m: seq<int>, m': seq<int>, H: Heap, c: int)
    requires Untouched(m, m', H, {}) && c in H && H[c].used
    ensures PayloadSame(m, m', c, H[c].size)
  {
  }

  lemma UntouchedNone(m: seq<int>, H: Heap, c: int)
    ensures Untouched(m, m, H, {c})
  {
  }

  lemma PayloadNone(m: seq<int>, c: int, n: int)
    ensures PayloadSame(m, m, c, n)
  {
  }

  lemma KeepsUsedAt(H: Heap, H': Heap, n: int, c: int)
    requires KeepsUsed(H, H', n) && c in H && H[c].used && c != n
    ensures c in H' && H'[c].used && H'[c].size == H[c].size
  {
  }

  lemma ShrinkUsed(H: Heap, H': Heap, start: int, last: int, brk: int, c: int, r: int)
    requires Tiled(H, start, last, brk) && c != last && ShrinkStep(H, H', c, r)
    ensures c in H' && H'[c].used
  {
    ShrinkLive(H, H', start, last, brk, c, r);
    assert c in Live(H');
  }

  // ----- a block that has taken in its neighbours

  /** Clear previous-in-use bits are believable everywhere but at nn. */
  ghost predicate PinsBut(H: Heap, start: int, nn: int) {
    && start in H && H[start].pin && nn != start
    && (forall c {:trigger Prev(H, c)} :: c in H && c != start && c != nn && !H[c].pin ==>
          Prev(H, c) in H && !H[Prev(H, c)].used)
  }

  /** Block b, which has room for r words: the rest split off, or the next chunk told. */
  ghost function ResizeH(H: Heap, b: int, r: int): Heap
    requires b in H && 3 <= r && Next(H, b) in H
    requires CanSplit(H[b].size, r) ==> Next(H, b) in SplitH(H, b, r, true)
  {
    if CanSplit(H[b].size, r) then SetPin(SplitH(H, b, r, true), Next(H, b), false)
    else SetPin(H, Next(H, b), true)
  }

  lemma SplitResizedPins(H: Heap, start: int, last: int, brk: int, b: int, r: int)
    requires Tiled(H, start, last, brk) && b in H && b != last && Next(H, b) in H && 3 <= r && CanSplit(H[b].size, r)
    requires PinsBut(H, start, Next(H, b))
    ensures Next(H, b) in SplitH(H, b, r, true)
    ensures PinsOk(SetPin(SplitH(H, b, r, true), Next(H, b), false), start)
  {
    var H1 := SplitH(H, b, r, true);
    SplitCuts(H, start, last, brk, b, r, true);
    var H' := SetPin(H1, Next(H, b), false);
    forall d | d in H' && d != start && !H'[d].pin
      ensures Prev(H', d) in H' && !H'[Prev(H', d)].used
    {
      if d != b + r + 1 {
        assert Prev(H, d) in H && Next(H, Prev(H, d)) == d;
      }
    }
  }

  lemma WholeResizedPins(H: Heap, start: int, b: int)
    requires b in H && Next(H, b) in H && PinsBut(H, start, Next(H, b))
    ensures PinsOk(SetPin(H, Next(H, b), true), start)
  {
    var H' := SetPin(H, Next(H, b), true);
    forall d | d in H' && d != start && !H'[d].pin
      ensures Prev(H', d) in H' && !H'[Prev(H', d)].used
    {
      assert Prev(H, d) in H;
    }
  }

  lemma AgreePin(H: Heap, H': Heap, K: set<int>, v: int, last: int, X: set<int>, x: int, pin: bool)
    requires Agree(H, K, v, last, X) && x in H && H' == SetPin(H, x, pin)
    ensures Agree(H', K, v, last, X)
  {
  }

  lemma ResizeLive(H: Heap, H': Heap, start: int, last: int, brk: int, b: int, r: int)
    requires Tiled(H, start, last, brk) && b in H && H[b].used && b != last && Next(H, b) in H && 3 <= r <= H[b].size
    requires CanSplit(H[b].size, r) ==> Next(H, b) in SplitH(H, b, r, true)
    requires H' == ResizeH(H, b, r)
    ensures b in H' && H'[b].used && r <= H'[b].size <= r + 3 && Live(H') == Live(H)[b := H'[b].size]
  {
    if CanSplit(H[b].size, r) {
      SplitLive(H, start, last, brk, b, r, true);
    }
  }

  lemma SplitFacts(H: Heap, start: int, last: int, brk: int, b: int, r: int)
    requires Tiled(H, start, last, brk) && b in H && H[b].used && 3 <= r && CanSplit(H[b].size, r)
    ensures var H', n := SplitH(H, b, r, true), b + r + 1;
            && n !in H && n in H' && !H'[n].used && H'[n].pin && Next(H', n) == Next(H, b)
            && b in H' && H'[b].used && H'[b].size == r && Next(H', b) == n && KeepsUsed(H, H', b)
  {
    SplitCuts(H, start, last, brk, b, r, true);
  }

  lemma PinAgain(H: Heap, x: int)
    requires x in H && H[x].pin
    ensures SetPin(H, x, true) == H
  {
  }

  lemma UntouchedWeaker(m: seq<int>, m': seq<int>, H: Heap, c: int)
    requires Untouched(m, m', H, {})
    ensures Untouched(m, m', H, {c})
  {
  }

  lemma PayloadPrefix(m: seq<int>, m': seq<int>, c: int, n: int, r: int)
    requires PayloadSame(m, m', c, n) && r <= n
    ensures PayloadSame(m, m', c, r)
  {
  }

  lemma PinKeepsUntouched(m: seq<int>, m': seq<int>, H: Heap, H': Heap, x: int)
    requires x in H && H' == SetPin(H, x, false) && Untouched(m, m', H', {})
    ensures Untouched(m, m', H, {})
  {
    forall c | c in H && H[c].used
      ensures PayloadSame(m, m', c, H[c].size)
    {
      assert c in H' && H'[c].used;
    }
  }

  /** Block c, grown into the free chunk after it. */
  lemma AfterLive(H: Heap, h: Heap, H': Heap, start: int, last: int, brk: int, c: int, r: int)
    requires Tiled(H, start, last, brk) && c in H && H[c].used && c != last && Next(H, c) in H && Next(H, c) != last
    requires !H[Next(H, c)].used && h == JoinH(H, c) && 3 <= r <= H[c].size + H[Next(H, c)].size + 1
    requires Next(h, c) in h && (CanSplit(h[c].size, r) ==> Next(h, c) in SplitH(h, c, r, true))
    requires H' == ResizeH(h, c, r)
    ensures c in H' && H'[c].used && r <= H'[c].size <= r + 3 && Live(H') == Live(H)[c := H'[c].size]
    ensures KeepsUsed(H, h, c)
  {
    JoinTiled(H, start, last, brk, c);
    assert Live(h) == Live(H)[c := h[c].size];
    ResizeLive(h, H', start, last, brk, c, r);
  }

  lemma ShortfallGrows(H: Heap, last: int, c: int, r: int)
    requires last in H
    ensures Growth(H, last, c, r) >= 0
  {
  }

  /** A request of r words cuts block c, and the rest is free right before a block in use. */
  ghost predicate CutsBeforeBlock(H: Heap, c: int, r: int) {
    c in H && r <= H[c].size && CanSplit(H[c].size, r) && Next(H, c) in H && H[Next(H, c)].used
  }
}
