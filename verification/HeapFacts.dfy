/** What the tiling means for the client and for the whole heap: live blocks lie apart,
    chunks and headers add up to the arena, and a heap with no live block collapses. */
module HeapFacts {
  import opened Layout
  import opened Rings
  import opened Tiling
  import opened HeapOps
  import opened HeapModel
  import opened ExactTags

  // ----- where live blocks lie

  /** The payload of chunk c, words c + 2 to c + size + 1. */
  ghost predicate InPayload(H: Heap, c: int, i: int) {
    c in H && c + NEXT <= i < c + NEXT + H[c].size
  }

  /** Payloads are inside the heap and no word belongs to two of them. */
  lemma PayloadsApart(H: Heap, start: int, last: int, brk: int, c: int, d: int, i: int)
    requires Tiled(H, start, last, brk) && InPayload(H, c, i) && InPayload(H, d, i)
    ensures c == d && start + NEXT <= i < brk
  {
    assert last in H;
  }

  // ----- conservation

  ghost function Sum(f: map<int, int>): int
    decreases |f|
  {
    if exists k :: k in f then var k :| k in f; f[k] + Sum(f - {k}) else 0
  }

  lemma SumNothing()
    ensures Sum(map[]) == 0
  {
  }

  lemma {:induction false} SumTake(f: map<int, int>, k: int)
    requires k in f
    ensures Sum(f) == f[k] + Sum(f - {k})
    decreases |f|
  {
    var j :| j in f && Sum(f) == f[j] + Sum(f - {j});
    if j != k {
      SumTake(f - {j}, k);
      SumTake(f - {k}, j);
      assert f - {j} - {k} == f - {k} - {j};
    }
  }

  lemma SumPut(f: map<int, int>, k: int, v: int)
    ensures Sum(f[k := v]) == v + Sum(f - {k})
    ensures Sum(f[k := v]) == v + Sum(f) - if k in f then f[k] else 0
  {
    SumTake(f[k := v], k);
    assert f[k := v] - {k} == f - {k};
    if k in f {
      SumTake(f, k);
    } else {
      assert f - {k} == f;
    }
  }

  lemma {:induction false} SumAtMost(f: map<int, int>, g: map<int, int>)
    requires forall k {:trigger k in f} :: k in f ==> k in g && f[k] <= g[k]
    requires forall k {:trigger k in g} :: k in g ==> 0 <= g[k]
    ensures Sum(f) <= Sum(g)
    decreases |g|
  {
    if exists k :: k in g {
      var k :| k in g;
      SumTake(g, k);
      if k in f {
        SumTake(f, k);
      } else {
        assert f - {k} == f;
      }
      SumAtMost(f - {k}, g - {k});
    }
  }

  /** The bytes of each chunk, its header included. */
  ghost function Extents(H: Heap): map<int, int> {
    map c | c in H :: 8 * H[c].size + 8
  }

  ghost function ExtentsBelow(H: Heap, e: int): map<int, int> {
    map c | c in H && c < e :: 8 * H[c].size + 8
  }

  lemma {:induction false} BytesBelow(H: Heap, start: int, last: int, brk: int, e: int)
    requires Tiled(H, start, last, brk) && e in H
    ensures Sum(ExtentsBelow(H, e)) == 8 * (e - start)
    decreases e - start
  {
    if e == start {
      assert ExtentsBelow(H, e) == map[];
    } else {
      var p := Prev(H, e);
      assert p in H && Next(H, p) == e;
      assert p < e;
      BytesBelow(H, start, last, brk, p);
      var f := ExtentsBelow(H, e);
      assert f - {p} == ExtentsBelow(H, p);
      SumTake(f, p);
    }
  }

  /** Conservation: the chunks with their headers, and one word before the first header,
      are the whole heap. */
  lemma Conserved(H: Heap, start: int, last: int, brk: int)
    requires Tiled(H, start, last, brk)
    ensures Sum(Extents(H)) + 8 == 8 * (brk - start)
  {
    BytesBelow(H, start, last, brk, last);
    var f := Extents(H);
    assert f - {last} == ExtentsBelow(H, last);
    SumTake(f, last);
  }

  // ----- collapse

  /** With exact coalescing, a heap with no live block is one end-of-heap chunk. */
  lemma OneChunk(H: Heap, start: int, last: int, brk: int)
    requires Tiled(H, start, last, brk) && Exact(H, start) && !H[last].used && Live(H) == map[]
    ensures last == start && H.Keys == {start} && H[start].size == brk - start - 2
  {
    forall c | c in H
      ensures !H[c].used
    {
      assert c !in Live(H);
    }
    var p := Prev(H, last);
    assert forall c :: c in H.Keys <==> c == start;
  }

  lemma NothingHeld(H: Heap, K: set<int>, v: int, last: int)
    requires Agree(H, K, v, last, {}) && H.Keys == {last}
    ensures v == NULL && K == {}
  {
    assert forall c :: c in H <==> c in {last};
    assert forall c :: c !in K;
  }

  /** Conversely, when nothing is live and no bin holds a chunk, the heap is one chunk and
      its tags are exact. */
  lemma EmptyIsExact(H: Heap, start: int, last: int, brk: int)
    requires Tiled(H, start, last, brk) && PinsOk(H, start) && Agree(H, {}, NULL, last, {}) && Live(H) == map[]
    ensures H.Keys == {last} && last == start && Exact(H, start)
  {
    forall c | c in H
      ensures c == last
    {
      assert c !in Live(H);
    }
    assert H.Keys == {last};
  }

  // ----- a shrinking realloc prevents the collapse

  /** The heap after my_init, when the arena starts at word 2, and what malloc of 80 bytes,
      malloc of 24 bytes, realloc of the first block to 24 bytes, free of the second and free
      of the first block make of it. */
  ghost function Fresh(): Heap {
    map[2 := Chunk(4898, false, true, 0)]
  }

  ghost function OneBlock(): Heap {
    map[2 := Chunk(10, true, true, 0), 13 := Chunk(4887, false, true, 2)]
  }

  ghost function TwoBlocks(): Heap {
    map[2 := Chunk(10, true, true, 0), 13 := Chunk(3, true, true, 2), 17 := Chunk(4883, false, true, 13)]
  }

  ghost function FirstShrunk(): Heap {
    map[2 := Chunk(3, true, true, 0), 6 := Chunk(6, false, true, 2), 13 := Chunk(3, true, true, 6),
        17 := Chunk(4883, false, true, 13)]
  }

  ghost function SecondFreed(): Heap {
    map[2 := Chunk(3, true, true, 0), 6 := Chunk(6, false, true, 2), 13 := Chunk(4887, false, true, 6)]
  }

  ghost function BothFreed(): Heap {
    map[2 := Chunk(10, false, true, 0), 13 := Chunk(4887, false, true, 2)]
  }

  lemma FirstTaken()
    ensures MallocStep(Fresh(), OneBlock(), 2, 13, 2, 10)
  {
    var C := map[2 := Chunk(10, false, true, 0), 13 := Chunk(4887, false, false, 2)];
    assert ExtendH(Fresh(), 2, 10) == Fresh();
    assert C == SplitH(Fresh(), 2, 10, false);
    assert OneBlock() == Use(C, 2);
  }

  lemma SecondTaken()
    ensures MallocStep(OneBlock(), TwoBlocks(), 13, 17, 13, 3)
  {
    var C := map[2 := Chunk(10, true, true, 0), 13 := Chunk(3, false, true, 2), 17 := Chunk(4883, false, false, 13)];
    assert ExtendH(OneBlock(), 13, 3) == OneBlock();
    assert C == SplitH(OneBlock(), 13, 3, false);
    assert TwoBlocks() == Use(C, 13);
  }

  lemma FirstShrinks()
    ensures CutsBeforeBlock(TwoBlocks(), 2, 3) && ShrinkStep(TwoBlocks(), FirstShrunk(), 2, 3)
  {
    assert FirstShrunk() == SplitH(TwoBlocks(), 2, 3, true);
  }

  lemma SecondFrees()
    ensures FreeStep(FirstShrunk(), SecondFreed(), 13)
  {
    var U := map[2 := Chunk(3, true, true, 0), 6 := Chunk(6, false, true, 2), 13 := Chunk(3, false, true, 6),
                 17 := Chunk(4883, false, false, 13)];
    assert U == Unuse(FirstShrunk(), 13);
    assert SecondFreed() == JoinH(U, 13);
  }

  lemma FirstFrees()
    ensures FreeStep(SecondFreed(), BothFreed(), 2)
  {
    var U := map[2 := Chunk(3, false, true, 0), 6 := Chunk(6, false, false, 2), 13 := Chunk(4887, false, true, 6)];
    assert U == Unuse(SecondFreed(), 2);
    assert BothFreed() == JoinH(U, 2);
  }

  /** The run ends with nothing live, and yet a free chunk stays apart from the end of the
      heap, behind a previous-in-use bit that was never cleared. */
  lemma ShrinkPreventsCollapse()
    ensures MallocStep(Fresh(), OneBlock(), 2, 13, 2, RequestWords(80))
    ensures MallocStep(OneBlock(), TwoBlocks(), 13, 17, 13, RequestWords(24))
    ensures ShrinkStep(TwoBlocks(), FirstShrunk(), 2, RequestWords(24))
    ensures CutsBeforeBlock(TwoBlocks(), 2, RequestWords(24))
    ensures FreeStep(FirstShrunk(), SecondFreed(), 13) && FreeStep(SecondFreed(), BothFreed(), 2)
    ensures Live(BothFreed()) == map[] && BothFreed().Keys == {2, 13} && !Exact(BothFreed(), 2)
  {
    hide MallocStep, ShrinkStep, FreeStep, CutsBeforeBlock;
    FirstTaken();
    SecondTaken();
    FirstShrinks();
    SecondFrees();
    FirstFrees();
    assert Prev(BothFreed(), 13) == 2;
  }
}
