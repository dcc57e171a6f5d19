/** Growing a block backward, into the end of the heap, and by copying. */
module ReallocSteps {
  import opened Layout
  import opened Rings
  import opened Tiling
  import opened Fields
  import opened IndexModel
  import opened IndexChanges
  import opened HeapOps
  import opened HeapModel
  import opened ExactTags
  import opened AllocatorSteps
  import MemLib

  // ----- the free chunk before the block takes the block in

  /** Free chunk b and the block after it become one block at b. */
  ghost function TakenBackH(H: Heap, b: int): Heap
    requires b in H && Next(H, b) in H
  {
    JoinH(SetUsed(H, b, true), b)
  }

  /** Block c, in use, is the successor of free chunk b. */
  ghost predicate Behind(H: Heap, start: int, last: int, brk: int, b: int, c: int) {
    && Tiled(H, start, last, brk) && b in H && !H[b].used && b != last
    && Next(H, b) == c && c in H && H[c].used && c != last
  }

  lemma TakenBack(H: Heap, start: int, last: int, brk: int, b: int, c: int)
    requires Behind(H, start, last, brk, b, c)
    ensures var Hu := SetUsed(H, b, true);
            Tiled(Hu, start, last, brk) && CutAt(TakenBackH(H, b), Hu, b, c) && Next(Hu, c) == Next(H, c)
    ensures var h := TakenBackH(H, b);
            && Tiled(h, start, last, brk) && b in h && h[b].used && h[b].size == H[b].size + H[c].size + 1
            && h[b].pin == H[b].pin && Next(H, c) in h && Next(h, b) == Next(H, c) && c !in h && c != b
  {
    var Hu := SetUsed(H, b, true);
    FlagsTiled(H, Hu, start, last, brk);
    JoinTiled(Hu, start, last, brk, b);
    assert Next(H, c) in H;
  }

  lemma TakenBackPins(H: Heap, start: int, last: int, brk: int, b: int, c: int)
    requires Behind(H, start, last, brk, b, c) && PinsOk(H, start)
    ensures PinsOk(TakenBackH(H, b), start)
  {
    var h := TakenBackH(H, b);
    TakenBack(H, start, last, brk, b, c);
    forall d | d in h && d != start && !h[d].pin
      ensures Prev(h, d) in h && !h[Prev(h, d)].used
    {
      assert Prev(H, d) in H && Next(H, Prev(H, d)) == d;
    }
  }

  lemma TakenBackLaid(m: seq<int>, m': seq<int>, H: Heap, h: Heap, start: int, last: int, brk: int, b: int, c: int)
    requires Laid(m, H, start, last, brk) && Behind(H, start, last, brk, b, c) && h == TakenBackH(H, b)
    requires Within(m, m', b + 1, Next(H, c))
    requires Field(m', b, CURRENT_SIZE) == Header(Words(H[b].size + H[c].size + 1), true, H[b].pin)
    ensures Laid(m', h, start, last, brk)
  {
    var Hu := SetUsed(H, b, true);
    var mu := m[b + 1 := HeaderOf(Hu[b])];
    FlagLaid(m, mu, H, Hu, start, last, brk, b);
    forall i | !(b + 1 <= i <= Next(H, c))
      ensures At(m', i) == At(mu, i)
    {
      assert At(m', i) == At(m, i);
    }
    JoinLaid(mu, m', Hu, h, start, last, brk, b);
  }

  /** Chunk b marked in use. */
  lemma FlagLaid(m: seq<int>, m': seq<int>, H: Heap, H': Heap, start: int, last: int, brk: int, b: int)
    requires Laid(m, H, start, last, brk) && b in H && H' == SetUsed(H, b, true)
    requires 0 <= b + 1 < |m| && m' == m[b + 1 := HeaderOf(H'[b])]
    ensures Laid(m', H', start, last, brk)
  {
    forall d | d in H && !H'[d].used && d != last
      ensures At(m', Next(H, d)) == 8 * H[d].size
    {
      assert Next(H, d) != b + 1;
    }
    forall d | d in H'
      ensures Field(m', d, CURRENT_SIZE) == HeaderOf(H'[d])
    {
      if d != b {
        assert Field(m', d, CURRENT_SIZE) == Field(m, d, CURRENT_SIZE);
      }
    }
    FlagsLaid(m, m', H, H', start, last, brk);
  }

  lemma TakenBackAgree(H: Heap, h: Heap, start: int, last: int, brk: int, K: set<int>, v: int, X: set<int>, b: int,
                       c: int)
    requires Behind(H, start, last, brk, b, c) && h == TakenBackH(H, b) && 2 <= start
    requires Agree(H, K, v, last, X) && b in X
    ensures Agree(h, K, v, last, X - {b})
  {
    TakenBack(H, start, last, brk, b, c);
  }

  lemma TakenBackLive(H: Heap, h: Heap, start: int, last: int, brk: int, b: int, c: int)
    requires Behind(H, start, last, brk, b, c) && h == TakenBackH(H, b) && b in h
    ensures Live(h) == (Live(H) - {c})[b := h[b].size] && KeepsUsed(H, h, c)
  {
    TakenBack(H, start, last, brk, b, c);
  }

  /** Both chunks of the pair lie outside the index, so its links and members stay. */
  lemma TakenBackFrame(m: seq<int>, m': seq<int>, ix: Index, H: Heap, h: Heap, start: int, last: int, brk: int,
                       b: int, c: int)
    requires Laid(m, H, start, last, brk) && Shaped(ix, H) && Behind(H, start, last, brk, b, c) && h == TakenBackH(H, b)
    requires b !in ix.slot && Within(m, m', b + 1, Next(H, c))
    ensures LinksSame(m, m', ix, H) && SameMembers(ix, H, h) && Untouched(m, m', H, {c})
  {
    LinksAway(m, m', ix, H, start, last, brk, b, Next(H, c));
    TakenBack(H, start, last, brk, b, c);
    forall d | d in H && H[d].used && d != c
      ensures PayloadSame(m, m', d, H[d].size)
    {
    }
  }

  /** The payload of block c has been moved down to b and b's header covers both chunks. */
  lemma TakenBackDone(m: seq<int>, m': seq<int>, v: seq<int>, ix: Index, H: Heap, h: Heap, start: int, last: int,
                      brk: int, X: set<int>, b: int, c: int)
    requires Laid(m, H, start, last, brk) && PinsOk(H, start) && Shaped(ix, H) && Wired(m, v, ix) && |v| == NUM_OF_BINS
    requires Behind(H, start, last, brk, b, c) && h == TakenBackH(H, b)
    requires Agree(H, ix.slot.Keys, v[1], last, X) && b in X && b !in ix.slot
    requires Within(m, m', b + 1, Next(H, c))
    requires Field(m', b, CURRENT_SIZE) == Header(Words(H[b].size + H[c].size + 1), true, H[b].pin)
    ensures Laid(m', h, start, last, brk) && PinsOk(h, start) && Shaped(ix, h) && Wired(m', v, ix)
    ensures Agree(h, ix.slot.Keys, v[1], last, X - {b}) && Untouched(m, m', H, {c})
  {
    LaidCarved(m, H, start, last, brk);
    TakenBackLaid(m, m', H, h, start, last, brk, b, c);
    TakenBackPins(H, start, last, brk, b, c);
    TakenBackAgree(H, h, start, last, brk, ix.slot.Keys, v[1], X, b, c);
    TakenBackFrame(m, m', ix, H, h, start, last, brk, b, c);
    IndexKept(m, m', v, v, ix, H, h);
  }

  lemma PinsOkBut(H: Heap, start: int, nn: int)
    requires PinsOk(H, start) && nn != start
    ensures PinsBut(H, start, nn)
  {
  }

  /** h is H with block c, in use, and free chunk b before it made one block of `size` words
      at b; X are the chunks taken in, which may include the free chunk after c. */
  ghost predicate Fused(H: Heap, h: Heap, start: int, last: int, brk: int, X: set<int>, b: int, c: int, size: int) {
    && Behind(H, start, last, brk, b, c) && Next(H, c) in H
    && var h1 := TakenBackH(H, b);
    if X == {b} then h == h1 && size == H[b].size + H[c].size + 1
    else
      && X == {b, Next(H, c)} && Next(H, c) != last && !H[Next(H, c)].used
      && b in h1 && Next(h1, b) in h1 && h == JoinH(h1, b)
      && size == H[b].size + H[c].size + H[Next(H, c)].size + 2
  }

  lemma FusedBack(m: seq<int>, m': seq<int>, v: seq<int>, ix: Index, H: Heap, h: Heap, start: int, last: int,
                  brk: int, b: int, c: int, size: int)
    requires Laid(m, H, start, last, brk) && PinsOk(H, start) && Shaped(ix, H) && Wired(m, v, ix) && |v| == NUM_OF_BINS
    requires Fused(H, h, start, last, brk, {b}, b, c, size) && Agree(H, ix.slot.Keys, v[1], last, {b}) && v[0] == last
    requires Within(m, m', b + 1, Next(H, c)) && Field(m', b, CURRENT_SIZE) == Header(Words(size), true, H[b].pin)
    ensures Resizing(m', v, ix, h, start, last, brk, b) && h[b].size == size
    ensures Untouched(m, m', H, {c}) && KeepsUsed(H, h, c)
  {
    hide Shaped, Wired, Heads, Feet, PinsOk, Untouched, Live, KeepsUsed;
    AgreeInHand(H, ix.slot.Keys, v[1], last, {b}, b);
    TakenBack(H, start, last, brk, b, c);
    TakenBackDone(m, m', v, ix, H, h, start, last, brk, {b}, b, c);
    assert {b} - {b} == {};
    TakenBackLive(H, h, start, last, brk, b, c);
    PinsOkBut(h, start, Next(h, b));
  }

  lemma FusedBoth(m: seq<int>, m': seq<int>, v: seq<int>, ix: Index, H: Heap, h: Heap, start: int, last: int,
                  brk: int, b: int, c: int, size: int)
    requires Laid(m, H, start, last, brk) && PinsOk(H, start) && Shaped(ix, H) && Wired(m, v, ix) && |v| == NUM_OF_BINS
    requires c in H && Next(H, c) in H && Next(H, c) != b
    requires var X := {b, Next(H, c)};
             Fused(H, h, start, last, brk, X, b, c, size) && Agree(H, ix.slot.Keys, v[1], last, X) && v[0] == last
    requires Within(m, m', b + 1, Next(H, c)) && Field(m', b, CURRENT_SIZE) == Header(Words(size), true, H[b].pin)
    ensures Resizing(m', v, ix, h, start, last, brk, b) && h[b].size == size
    ensures Untouched(m, m', H, {c}) && KeepsUsed(H, h, c)
  {
    hide Shaped, Wired, Heads, Feet, PinsOk, Untouched, Live, KeepsUsed;
    var n, h1 := Next(H, c), TakenBackH(H, b);
    AgreeInHand(H, ix.slot.Keys, v[1], last, {b, n}, b);
    TakenBack(H, start, last, brk, b, c);
    var m1 := m'[b + 1 := Header(Words(H[b].size + H[c].size + 1), true, H[b].pin)];
    HeaderFrame(m, m', m1, b, n, Header(Words(H[b].size + H[c].size + 1), true, H[b].pin));
    TakenBackDone(m, m1, v, ix, H, h1, start, last, brk, {b, n}, b, c);
    assert {b, n} - {b} == {n};
    assert h1[n].size == H[n].size by { TakenBackNext(H, start, last, brk, b, c); }
    AbsorbNext(m1, m', v, ix, h1, h, start, last, brk, b);
    TakenBackLive(H, h1, start, last, brk, b, c);
    HeaderUntouched(m1, m', H, start, last, brk, b);
    UntouchedWeaker(m1, m', H, c);
    UntouchedTwice(m, m1, m', H, {c});
    JoinFreeKeeps(h1, h, start, last, brk, b);
    KeepsUsedPast(H, h1, h, c, b);
  }

  /** One more store to b's header. */
  lemma HeaderFrame(m: seq<int>, m': seq<int>, m1: seq<int>, b: int, hi: int, v: int)
    requires Within(m, m', b + 1, hi) && 0 <= b + 1 < |m| && b + 1 <= hi && m1 == m'[b + 1 := v]
    ensures Within(m, m1, b + 1, hi) && Within(m1, m', b + 1, b + 1) && m' == m1[b + 1 := m'[b + 1]]
  {
    forall i | !(b + 1 <= i <= hi)
      ensures At(m1, i) == At(m, i)
    {
      assert At(m', i) == At(m, i);
    }
  }

  lemma TakenBackNext(H: Heap, start: int, last: int, brk: int, b: int, c: int)
    requires Behind(H, start, last, brk, b, c)
    ensures Next(H, c) in H && Next(H, c) in TakenBackH(H, b)
    ensures var n := Next(H, c); TakenBackH(H, b)[n].size == H[n].size && TakenBackH(H, b)[n].used == H[n].used
  {
    TakenBack(H, start, last, brk, b, c);
  }

  lemma JoinFreeKeeps(H: Heap, h: Heap, start: int, last: int, brk: int, b: int)
    requires Tiled(H, start, last, brk) && b in H && b != last && Next(H, b) in H && !H[Next(H, b)].used
    requires h == JoinH(H, b)
    ensures KeepsUsed(H, h, b)
  {
    JoinCuts(H, start, last, brk, b);
  }

  lemma KeepsUsedPast(H: Heap, h: Heap, h': Heap, c: int, b: int)
    requires KeepsUsed(H, h, c) && KeepsUsed(h, h', b) && b in H && !H[b].used
    ensures KeepsUsed(H, h', c)
  {
  }

  /** Moving the payload of c down to b and writing b's header makes h's picture true. */
  lemma FusedMove(m: seq<int>, m1: seq<int>, m': seq<int>, v: seq<int>, ix: Index, H: Heap, h: Heap, start: int,
                  last: int, brk: int, X: set<int>, b: int, c: int, size: int)
    requires Laid(m, H, start, last, brk) && PinsOk(H, start) && Shaped(ix, H) && Wired(m, v, ix) && |v| == NUM_OF_BINS
    requires Fused(H, h, start, last, brk, X, b, c, size) && Agree(H, ix.slot.Keys, v[1], last, X) && v[0] == last
    requires Within(m, m1, b + NEXT, b + NEXT + H[c].size - 1) && Copied(m, m1, c, b, H[c].size)
    requires 0 <= b + CURRENT_SIZE < |m1| && m' == m1[b + CURRENT_SIZE := Header(Words(size), true, H[b].pin)]
    ensures b in h && Next(h, b) in h && Resizing(m', v, ix, h, start, last, brk, b) && h[b].size == size
    ensures Untouched(m, m', H, {c}) && Copied(m, m', c, b, H[c].size) && KeepsUsed(H, h, c)
  {
    hide Shaped, Wired, Heads, Feet, PinsOk, Untouched, KeepsUsed, Agree, JoinH;
    assert b in H && c in H;
    forall i | !(b + 1 <= i <= Next(H, c))
      ensures At(m', i) == At(m, i)
    {
      assert At(m', i) == At(m1, i);
    }
    forall k | NEXT <= k < NEXT + H[c].size
      ensures Field(m', b, k) == Field(m, c, k)
    {
      assert Field(m', b, k) == Field(m1, b, k);
    }
    if X == {b} {
      FusedBack(m, m', v, ix, H, h, start, last, brk, b, c, size);
    } else {
      FusedBoth(m, m', v, ix, H, h, start, last, brk, b, c, size);
    }
  }

  lemma TakenBackJoin(H: Heap, start: int, last: int, brk: int, b: int, c: int)
    requires Behind(H, start, last, brk, b, c) && Next(H, c) != last
    ensures Next(H, c) in H && b in TakenBackH(H, b) && Next(TakenBackH(H, b), b) in TakenBackH(H, b)
    ensures b in JoinH(TakenBackH(H, b), b)
  {
    TakenBack(H, start, last, brk, b, c);
  }

  /** A block that has moved down and then been resized: its contents and the other blocks. */
  lemma MoveThenResize(m1: seq<int>, m: seq<int>, m': seq<int>, H: Heap, h: Heap, b: int, c: int, r: int)
    requires c in H && H[c].used && H[c].size <= r && (b in H ==> !H[b].used)
    requires Untouched(m1, m, H, {c}) && Copied(m1, m, c, b, H[c].size)
    requires Untouched(m, m', h, {b}) && PayloadSame(m, m', b, r) && KeepsUsed(H, h, c)
    ensures Untouched(m1, m', H, {c}) && Copied(m1, m', c, b, H[c].size)
  {
    forall d | d in H && H[d].used && d != c
      ensures PayloadSame(m1, m', d, H[d].size)
    {
      assert PayloadSame(m1, m, d, H[d].size) && PayloadSame(m, m', d, h[d].size);
      PayloadTwice(m1, m, m', d, H[d].size);
    }
    forall k | NEXT <= k < NEXT + H[c].size
      ensures Field(m', b, k) == Field(m1, c, k)
    {
      assert At(m', b + k) == At(m, b + k);
      assert Field(m, b, k) == Field(m1, c, k);
    }
  }

  lemma MovedDown(m0: seq<int>, m1: seq<int>, m': seq<int>, H: Heap, H': Heap, b: int, c: int, r: int)
    requires c in H && H[c].used && H[c].size <= r && b !in Live(H)
    requires Untouched(m0, m1, H, {}) && Untouched(m1, m', H, {c}) && Copied(m1, m', c, b, H[c].size)
    requires b in H' && H'[b].used && r <= H'[b].size && (!IsHuge(8 * r) ==> H'[b].size <= r + 3)
    requires Live(H') == (Live(H) - {c})[b := H'[b].size]
    ensures Moved(m0, m', H, H', c, b, r)
  {
    hide Live;
    UntouchedWeaker(m0, m1, H, c);
    UntouchedTwice(m0, m1, m', H, {c});
    forall k | NEXT <= k < NEXT + H[c].size
      ensures Field(m', b, k) == Field(m0, c, k)
    {
      assert Field(m', b, k) == Field(m1, c, k);
      assert PayloadSame(m0, m1, c, H[c].size);
      assert At(m1, c + k) == At(m0, c + k);
    }
  }

  /** The live blocks after a block has moved down and been resized. */
  lemma BeforeLive(H: Heap, h: Heap, H': Heap, start: int, last: int, brk: int, b: int, c: int, r: int)
    requires Behind(H, start, last, brk, b, c) && h == TakenBackH(H, b) && 3 <= r <= H[b].size + H[c].size + 1
    requires b in h && Next(h, b) in h && (CanSplit(h[b].size, r) ==> Next(h, b) in SplitH(h, b, r, true))
    requires H' == ResizeH(h, b, r)
    ensures b in H' && H'[b].used && r <= H'[b].size <= r + 3 && b !in Live(H)
    ensures Live(H') == (Live(H) - {c})[b := H'[b].size]
  {
    TakenBack(H, start, last, brk, b, c);
    TakenBackLive(H, h, start, last, brk, b, c);
    assert b !in Live(H);
    hide Live;
    ResizeLive(h, H', start, last, brk, b, r);
  }

  lemma TakenBackExact(H: Heap, start: int, last: int, brk: int, b: int, c: int)
    requires Behind(H, start, last, brk, b, c) && Exact(H, start)
    ensures Exact(TakenBackH(H, b), start)
  {
    var h := TakenBackH(H, b);
    TakenBack(H, start, last, brk, b, c);
    forall d | d in h && d != start
      ensures Prev(h, d) in h && (h[d].pin <==> h[Prev(h, d)].used) && (!h[d].used ==> h[Prev(h, d)].used)
    {
      assert Prev(H, d) in H && Next(H, Prev(H, d)) == d;
    }
  }

  lemma BeforeExact(H: Heap, h: Heap, H': Heap, start: int, last: int, brk: int, b: int, c: int, r: int)
    requires Behind(H, start, last, brk, b, c) && Exact(H, start) && h == TakenBackH(H, b) && 3 <= r
    requires Next(H, c) in H && H[Next(H, c)].used
    requires b in h && Next(h, b) in h && (CanSplit(h[b].size, r) ==> Next(h, b) in SplitH(h, b, r, true))
    requires H' == ResizeH(h, b, r)
    ensures Exact(H', start)
  {
    TakenBack(H, start, last, brk, b, c);
    TakenBackExact(H, start, last, brk, b, c);
    assert Next(h, b) != start && Prev(h, Next(h, b)) == b;
    ResizeExact(h, H', start, last, brk, b, r);
  }

  /** The same for a block that took in the free chunks on both sides. */
  lemma BothLive(H: Heap, h1: Heap, h: Heap, H': Heap, start: int, last: int, brk: int, b: int, c: int, r: int)
    requires Behind(H, start, last, brk, b, c) && h1 == TakenBackH(H, b) && 3 <= r
    requires Next(H, c) in H && Next(H, c) != last && !H[Next(H, c)].used
    requires b in h1 && Next(h1, b) in h1 && h == JoinH(h1, b) && r <= H[b].size + H[c].size + H[Next(H, c)].size + 2
    requires b in h && Next(h, b) in h && (CanSplit(h[b].size, r) ==> Next(h, b) in SplitH(h, b, r, true))
    requires H' == ResizeH(h, b, r)
    ensures b in H' && H'[b].used && r <= H'[b].size <= r + 3 && b !in Live(H)
    ensures Live(H') == (Live(H) - {c})[b := H'[b].size]
  {
    TakenBack(H, start, last, brk, b, c);
    TakenBackNext(H, start, last, brk, b, c);
    TakenBackLive(H, h1, start, last, brk, b, c);
    assert b !in Live(H);
    hide Live, JoinH, SplitH;
    AfterLive(h1, h, H', start, last, brk, b, r);
  }

  lemma BothExact(H: Heap, h1: Heap, h: Heap, H': Heap, start: int, last: int, brk: int, b: int, c: int, r: int)
    requires Behind(H, start, last, brk, b, c) && Exact(H, start) && h1 == TakenBackH(H, b) && 3 <= r
    requires Next(H, c) in H && Next(H, c) != last && !H[Next(H, c)].used
    requires b in h1 && Next(h1, b) in h1 && h == JoinH(h1, b)
    requires b in h && Next(h, b) in h && (CanSplit(h[b].size, r) ==> Next(h, b) in SplitH(h, b, r, true))
    requires H' == ResizeH(h, b, r)
    ensures Exact(H', start)
  {
    TakenBack(H, start, last, brk, b, c);
    TakenBackNext(H, start, last, brk, b, c);
    TakenBackExact(H, start, last, brk, b, c);
    hide Exact, JoinH, SplitH;
    AfterExact(h1, h, H', start, last, brk, b, r);
  }

  // ----- growing into the end of the heap

  /** Block c, in use, has taken in the end-of-heap chunk and given all but r words back. */
  ghost function TailH(H: Heap, c: int, r: int): Heap
    requires c in H && Next(H, c) in H
  {
    SplitH(JoinH(H, c), c, r, true)
  }

  /** Block c, in use, is the last before the end-of-heap chunk. */
  ghost predicate AtTail(H: Heap, start: int, last: int, brk: int, c: int) {
    Tiled(H, start, last, brk) && c in H && H[c].used && c != last && Next(H, c) == last && !H[last].used
  }

  lemma TailJoined(H: Heap, start: int, last: int, brk: int, c: int)
    requires AtTail(H, start, last, brk, c)
    ensures var h := JoinH(H, c);
            && CutAt(h, H, c, last) && Tiled(h, start, c, brk)
            && c in h && h[c].used && h[c].size == H[c].size + H[last].size + 1 && h[c].pin == H[c].pin && last != start
  {
    JoinTiled(H, start, last, brk, c);
  }

  lemma TailCut(H: Heap, start: int, last: int, brk: int, c: int, r: int)
    requires AtTail(H, start, last, brk, c) && 3 <= r && CanSplit(H[c].size + H[last].size + 1, r)
    ensures c in JoinH(H, c) && CutAt(JoinH(H, c), TailH(H, c, r), c, c + r + 1)
    ensures var H' := TailH(H, c, r);
            && c in H' && H'[c].used && H'[c].size == r && !H'[c + r + 1].used && H'[c + r + 1].pin
            && c + r + 1 >= start + 4 && Tiled(H', start, c + r + 1, brk)
  {
    TailJoined(H, start, last, brk, c);
    SplitTiled(JoinH(H, c), start, c, brk, c, r, true);
  }

  lemma TailAgree(H: Heap, H': Heap, start: int, last: int, brk: int, K: set<int>, v: int, c: int, r: int)
    requires AtTail(H, start, last, brk, c) && 3 <= r && CanSplit(H[c].size + H[last].size + 1, r) && 2 <= start
    requires Agree(H, K, v, last, {}) && H' == TailH(H, c, r)
    ensures Agree(H', K, v, c + r + 1, {})
  {
    TailJoined(H, start, last, brk, c);
    TailCut(H, start, last, brk, c, r);
  }

  lemma TailPins(H: Heap, H': Heap, start: int, last: int, brk: int, c: int, r: int)
    requires AtTail(H, start, last, brk, c) && 3 <= r && CanSplit(H[c].size + H[last].size + 1, r)
    requires PinsOk(H, start) && H' == TailH(H, c, r)
    ensures PinsOk(H', start)
  {
    TailJoined(H, start, last, brk, c);
    TailCut(H, start, last, brk, c, r);
    forall d | d in H' && d != start && !H'[d].pin
      ensures Prev(H', d) in H' && !H'[Prev(H', d)].used
    {
      assert d in H && Prev(H, d) in H && Next(H, Prev(H, d)) == d;
    }
  }

  lemma TailLive(H: Heap, H': Heap, start: int, last: int, brk: int, c: int, r: int)
    requires AtTail(H, start, last, brk, c) && 3 <= r && CanSplit(H[c].size + H[last].size + 1, r)
    requires H' == TailH(H, c, r)
    ensures Live(H') == Live(H)[c := r] && KeepsUsed(H, JoinH(H, c), c) && KeepsUsed(H, H', c)
  {
    TailJoined(H, start, last, brk, c);
    TailCut(H, start, last, brk, c, r);
  }

  lemma TailExact(H: Heap, H': Heap, start: int, last: int, brk: int, c: int, r: int)
    requires AtTail(H, start, last, brk, c) && 3 <= r && CanSplit(H[c].size + H[last].size + 1, r)
    requires Exact(H, start) && H' == TailH(H, c, r)
    ensures Exact(H', start)
  {
    TailJoined(H, start, last, brk, c);
    TailCut(H, start, last, brk, c, r);
    forall d | d in H' && d != start
      ensures Prev(H', d) in H' && (H'[d].pin <==> H'[Prev(H', d)].used) && (!H'[d].used ==> H'[Prev(H', d)].used)
    {
      if d != c + r + 1 {
        assert d in H && Prev(H, d) in H && Next(H, Prev(H, d)) == d;
      }
    }
  }

  /** c's header covers the end-of-heap chunk too, and there is no end of the heap. */
  lemma AbsorbEnd(m: seq<int>, m': seq<int>, v: seq<int>, v': seq<int>, ix: Index, H: Heap, h: Heap, start: int,
                  last: int, brk: int, c: int)
    requires Laid(m, H, start, last, brk) && Shaped(ix, H) && Wired(m, v, ix) && AtTail(H, start, last, brk, c)
    requires last !in ix.slot && h == JoinH(H, c) && |v| == NUM_OF_BINS && v' == v[0 := NULL]
    requires m' == m[c + 1 := Header(Words(H[c].size + H[last].size + 1), true, H[c].pin)]
    ensures Laid(m', h, start, c, brk) && Shaped(ix, h) && Wired(m', v', ix)
  {
    LaidCarved(m, H, start, last, brk);
    TailJoined(H, start, last, brk, c);
    JoinLaid(m, m', H, h, start, last, brk, c);
    AbsorbFrame(m, m', ix, H, h, start, last, brk, c);
    IndexKept(m, m', v, v', ix, H, h);
  }

  /** Growing the end-of-heap chunk first changes nothing the client can see. */
  lemma GrowLive(H: Heap, H': Heap, last: int, k: int)
    requires last in H && !H[last].used && H' == GrowH(H, last, k)
    ensures Live(H') == Live(H)
  {
  }

  lemma TailHIs(H: Heap, c: int, r: int)
    requires c in H && Next(H, c) in H
    ensures TailH(H, c, r) == SplitH(JoinH(H, c), c, r, true)
  {
  }

  lemma GrowNothing(m: seq<int>, H: Heap, last: int)
    requires last in H
    ensures GrowH(H, last, 0) == H && Untouched(m, m, H, {})
  {
  }

  lemma GrownTail(H: Heap, H': Heap, start: int, last: int, brk: int, c: int, k: nat)
    requires AtTail(H, start, last, brk, c) && H' == GrowH(H, last, k)
    ensures AtTail(H', start, last, brk + k, c) && H'[c] == H[c] && H'[last].size == H[last].size + k
  {
    GrowTiled(H, start, last, brk, k);
  }

  /** The stores of a tail cut, one after the other, seen from block c and the others. */
  lemma TailFrame(m0: seq<int>, m1: seq<int>, m2: seq<int>, m3: seq<int>, H: Heap, h: Heap, H': Heap, c: int, r: int)
    requires c in H && H[c].used && H[c].size <= r && KeepsUsed(H, h, c) && KeepsUsed(H, H', c)
    requires c in H' && H'[c].used && H'[c].size == r
    requires Untouched(m0, m1, H, {}) && Untouched(m1, m2, h, {c}) && PayloadSame(m1, m2, c, r)
    requires Untouched(m2, m3, H', {})
    ensures Untouched(m0, m3, H, {c}) && PayloadSame(m0, m3, c, H[c].size)
  {
    forall d | d in H && H[d].used && d != c
      ensures PayloadSame(m0, m3, d, H[d].size)
    {
      assert PayloadSame(m0, m1, d, H[d].size) && PayloadSame(m1, m2, d, h[d].size);
      assert PayloadSame(m2, m3, d, H'[d].size);
      PayloadTwice(m0, m1, m2, d, H[d].size);
      PayloadTwice(m0, m2, m3, d, H[d].size);
    }
    assert PayloadSame(m0, m1, c, H[c].size) && PayloadSame(m2, m3, c, r);
    PayloadPrefix(m1, m2, c, r, H[c].size);
    PayloadPrefix(m2, m3, c, r, H[c].size);
    PayloadTwice(m0, m1, m2, c, H[c].size);
    PayloadTwice(m0, m2, m3, c, H[c].size);
  }

  /** A block that grew into the end of the heap, after that grew by k words. */
  lemma TailMoved(m0: seq<int>, m1: seq<int>, m': seq<int>, H: Heap, H1: Heap, H': Heap, start: int, last: int,
                  brk: int, c: int, r: int, k: nat)
    requires AtTail(H, start, last, brk, c) && H1 == GrowH(H, last, k) && H[c].size <= r
    requires AtTail(H1, start, last, brk + k, c) && CanSplit(H1[c].size + H1[last].size + 1, r) && 3 <= r
    requires H' == TailH(H1, c, r)
    requires Untouched(m0, m1, H, {}) && Untouched(m1, m', H1, {c}) && PayloadSame(m1, m', c, H[c].size)
    ensures Moved(m0, m', H, H', c, c, r)
  {
    hide TailH, JoinH, SplitH, Bounded, Forward, Backward, Spaced, Live;
    GrowLive(H, H1, last, k);
    TailCut(H1, start, last, brk + k, c, r);
    TailLive(H1, H', start, last, brk + k, c, r);
    SamePlace(H, H', c, r);
    UntouchedPayload(m0, m1, H, c);
    PayloadTwice(m0, m1, m', c, H[c].size);
    StayedPut(m0, m', c, H[c].size);
    forall d | d in H && H[d].used && d != c
      ensures PayloadSame(m0, m', d, H[d].size)
    {
      assert d in H1 && H1[d] == H[d];
      assert PayloadSame(m0, m1, d, H[d].size) && PayloadSame(m1, m', d, H[d].size);
      PayloadTwice(m0, m1, m', d, H[d].size);
    }
  }

  // ----- copying

  /** Stores inside the payload of block d, in use. */
  lemma PayloadDone(m: seq<int>, m': seq<int>, v: seq<int>, ix: Index, H: Heap, start: int, last: int, brk: int, d: int)
    requires Laid(m, H, start, last, brk) && Shaped(ix, H) && Wired(m, v, ix) && |v| == NUM_OF_BINS
    requires d in H && H[d].used && Within(m, m', d + NEXT, Next(H, d))
    ensures Laid(m', H, start, last, brk) && Wired(m', v, ix) && Untouched(m, m', H, {d})
  {
    LaidCarved(m, H, start, last, brk);
    PayloadLaid(m, m', H, start, last, brk, d);
    WithinUntouched(m, m', H, start, last, brk, d);
    LinksAway(m, m', ix, H, start, last, brk, d, Next(H, d));
    IndexKept(m, m', v, v, ix, H, H);
  }

  lemma PayloadLaid(m: seq<int>, m': seq<int>, H: Heap, start: int, last: int, brk: int, d: int)
    requires Laid(m, H, start, last, brk) && d in H && H[d].used && Within(m, m', d + NEXT, Next(H, d))
    ensures Laid(m', H, start, last, brk)
  {
    forall x | x in H
      ensures Field(m', x, CURRENT_SIZE) == HeaderOf(H[x])
    {
      assert Field(m', x, CURRENT_SIZE) == Field(m, x, CURRENT_SIZE);
    }
    forall x | x in H && !H[x].used && x != last
      ensures At(m', Next(H, x)) == 8 * H[x].size
    {
      assert At(m', Next(H, x)) == At(m, Next(H, x));
    }
  }

  /** A block moved by malloc, copy and free. */
  lemma CopiedOver(m0: seq<int>, m1: seq<int>, m2: seq<int>, m3: seq<int>, H: Heap, H1: Heap, H2: Heap, c: int, d: int,
                   r: int, n: int)
    requires c in H && H[c].used && d !in Live(H) && d in H1 && Live(H1) == Live(H)[d := H1[d].size]
    requires r <= H1[d].size && (!IsHuge(8 * r) ==> H1[d].size <= r + 3)
    requires n == Min(H[c].size, r)
    requires Untouched(m0, m1, H, {}) && Untouched(m1, m2, H1, {d}) && Untouched(m2, m3, H1, {c})
    requires Copied(m1, m2, c, d, n) && Live(H2) == Live(H1) - {c}
    ensures Moved(m0, m3, H, H2, c, d, r)
  {
    assert c in Live(H) && d in Live(H1) && d in Live(H2);
    assert Live(H2)[d] == H1[d].size && H2[d].size == H1[d].size;
    forall x | x in H && H[x].used && x != c
      ensures PayloadSame(m0, m3, x, H[x].size)
    {
      assert x in Live(H) && x in Live(H1) && Live(H1)[x] == H[x].size;
      assert PayloadSame(m0, m1, x, H[x].size) && PayloadSame(m1, m2, x, H1[x].size);
      assert PayloadSame(m2, m3, x, H1[x].size);
      PayloadTwice(m0, m1, m2, x, H[x].size);
      PayloadTwice(m0, m2, m3, x, H[x].size);
    }
    assert PayloadSame(m0, m1, c, H[c].size) && PayloadSame(m2, m3, d, H1[d].size);
    forall k | NEXT <= k < NEXT + n
      ensures Field(m3, d, k) == Field(m0, c, k)
    {
      assert At(m3, d + k) == At(m2, d + k);
      assert Field(m2, d, k) == Field(m1, c, k);
      assert At(m1, c + k) == At(m0, c + k);
    }
  }

  lemma MovedNowhere(m: seq<int>, H: Heap, c: int, r: int)
    requires c in H && H[c].used && r <= H[c].size <= r + 3
    ensures Moved(m, m, H, H, c, c, r)
  {
    SamePlace(H, H, c, H[c].size);
    PayloadNone(m, c, r);
    StayedPut(m, m, c, r);
  }

  /** A request already rounded up is asked for as it is. */
  lemma WholeRequest(r: nat)
    requires 3 <= r && Addable(r)
    ensures 8 * r < TWO_TO_THE_64 && RequestWords(8 * r) == r
  {
  }

  lemma LiveElsewhere(H: Heap, H1: Heap, c: int, d: int, s: int)
    requires c in H && H[c].used && d !in Live(H) && Live(H1) == Live(H)[d := s] && d in H1
    ensures c != d && c in H1 && H1[c].used && H1[c].size == H[c].size && H1[d].used && H1[d].size == s
  {
    assert c in Live(H) && c in Live(H1) && d in Live(H1);
    assert Live(H1)[c] == Live(H)[c];
  }

  // ----- which path a growing realloc takes

  /** Block b of heap h, resized to r words. */
  ghost predicate ResizeStep(h: Heap, H': Heap, b: int, r: int) {
    && b in h && Next(h, b) in h && 3 <= r
    && (CanSplit(h[b].size, r) ==> Next(h, b) in SplitH(h, b, r, true))
    && H' == ResizeH(h, b, r)
  }

  ghost predicate FitsAfter(H: Heap, last: int, c: int, r: int) {
    && c in H && Next(H, c) in H && !H[Next(H, c)].used && Next(H, c) != last
    && r <= H[c].size + H[Next(H, c)].size + 1
  }

  ghost predicate FitsBoth(H: Heap, last: int, c: int, r: int) {
    && c in H && Next(H, c) in H && !H[Next(H, c)].used && Next(H, c) != last
    && !H[c].pin && Prev(H, c) in H
    && r <= H[c].size + H[Prev(H, c)].size + H[Next(H, c)].size + 2
  }

  /** The chunk before c and c together have r words. */
  ghost predicate Roomier(H: Heap, c: int, r: int) {
    c in H && Prev(H, c) in H && r <= H[c].size + H[Prev(H, c)].size + 1
  }

  ghost predicate IsPrev(H: Heap, c: int, d: int) {
    c in H && d == Prev(H, c)
  }

  ghost predicate NextUsed(H: Heap, c: int) {
    c in H && Next(H, c) in H && H[Next(H, c)].used
  }

  ghost predicate FitsBefore(H: Heap, last: int, c: int, r: int) {
    c in H && Next(H, c) != last && !H[c].pin && Roomier(H, c, r)
  }

  ghost predicate AfterStep(H: Heap, H': Heap, c: int, r: int) {
    c in H && Next(H, c) in H && ResizeStep(JoinH(H, c), H', c, r)
  }

  ghost predicate BothStep(H: Heap, H': Heap, b: int, r: int) {
    && b in H && Next(H, b) in H
    && var h := TakenBackH(H, b);
       b in h && Next(h, b) in h && ResizeStep(JoinH(h, b), H', b, r)
  }

  ghost predicate BeforeStep(H: Heap, H': Heap, b: int, r: int) {
    b in H && Next(H, b) in H && ResizeStep(TakenBackH(H, b), H', b, r)
  }

  ghost predicate TailStep(H: Heap, H': Heap, last: int, c: int, r: int, k: int) {
    && last in H && c in GrowH(H, last, k) && Next(GrowH(H, last, k), c) in GrowH(H, last, k)
    && H' == TailH(GrowH(H, last, k), c, r)
  }

  /** Malloc, copy and free: h is the heap between malloc and free, e its last chunk. */
  ghost predicate CopyStep(H: Heap, h: Heap, H': Heap, last: int, e: int, c: int, d: int, r: int) {
    MallocStep(H, h, last, e, d, r) && FreeStep(h, H', c)
  }

  ghost predicate Recopied(H: Heap, H': Heap, last: int, c: int, d: int, r: int) {
    exists h, e :: CopyStep(H, h, H', last, e, c, d, r)
  }

  ghost predicate FitsNearby(H: Heap, last: int, c: int, r: int) {
    FitsAfter(H, last, c, r) || FitsBoth(H, last, c, r) || FitsBefore(H, last, c, r)
  }

  /** Growth into the chunks next to block c: the first of three that has room. */
  ghost predicate NearbyStep(H: Heap, H': Heap, last: int, c: int, d: int, r: int) {
    && c in H && FitsNearby(H, last, c, r)
    && if FitsAfter(H, last, c, r) then d == c && AfterStep(H, H', c, r)
       else if FitsBoth(H, last, c, r) then d == Prev(H, c) && BothStep(H, H', d, r)
       else d == Prev(H, c) && BeforeStep(H, H', d, r)
  }

  /** Both neighbours of block c are free and even with both there is no room: the assertion at
      line 922, that the chunk after c is in use, fails. */
  ghost predicate Pinched(H: Heap, last: int, c: int, r: int) {
    && c in H && H[c].size < r && !H[c].pin
    && Next(H, c) in H && !H[Next(H, c)].used && Next(H, c) != last && !FitsBoth(H, last, c, r)
  }

  lemma RoomIsNotPinched(H: Heap, start: int, last: int, brk: int, c: int, r: int)
    requires Tiled(H, start, last, brk) && PinsOk(H, start)
    ensures FitsNearby(H, last, c, r) ==> !Pinched(H, last, c, r)
  {
    if c in H && !H[c].pin {
      var p := Prev(H, c);
    }
  }

  /** A growing realloc of block c comes to malloc, copy and free. */
  ghost predicate Recopies(H: Heap, last: int, brk: int, max: int, c: int, r: int) {
    && c in H && last in H && H[c].size < r && !FitsNearby(H, last, c, r)
    && !(Next(H, c) == last && brk + Lacking(H[c].size + H[last].size + 1, r) <= max)
  }

  /** Malloc, copy and free, and whether free met a stale bit. */
  ghost predicate CopyHolds(H: Heap, H': Heap, last: int, c: int, d: int, r: int, held: bool) {
    exists h, e :: CopyStep(H, h, H', last, e, c, d, r) && (held <==> !AbsorbsStale(h, e, c))
  }

  /** The assertions on the way of a growing realloc of block c, which returns block d or, when
      d is not a chunk, NULL: line 922, and line 760 in the free that ends a copy. */
  ghost predicate GrowHolds(H: Heap, H': Heap, last: int, brk: int, max: int, c: int, d: int, r: int, held: bool) {
    if d + NEXT != NULL && Recopies(H, last, brk, max, c, r) then
      exists copyHeld :: CopyHolds(H, H', last, c, d, r, copyHeld) && (held <==> !Pinched(H, last, c, r) && copyHeld)
    else held <==> !Pinched(H, last, c, r)
  }

  /** A successful growing realloc of block c to block d of r words, brk moving to brk':
      a neighbour with room, else the extended end of the heap, else a copy. */
  ghost predicate GrowStep(H: Heap, H': Heap, last: int, brk: int, brk': int, max: int, c: int, d: int, r: int) {
    && c in H && last in H
    && if FitsNearby(H, last, c, r) then
         brk' == brk && NearbyStep(H, H', last, c, d, r)
       else
         var k := Lacking(H[c].size + H[last].size + 1, r);
         if Next(H, c) == last && brk + k <= max then d == c && brk' == brk + k && TailStep(H, H', last, c, r, k)
         else brk' == brk + Growth(H, last, d, r) && Recopied(H, H', last, c, d, r)
  }

  /** A growing realloc whose growth is not sound finds no room nearby, so it comes to the step
      that asks for it: the end of the heap when that is next, malloc when not. */
  lemma UnsoundIsReached(H: Heap, start: int, last: int, brk: int, room: int, c: int, r: int)
    requires Tiled(H, start, last, brk) && 2 <= start && 8 * brk <= MemLib.TWO_TO_THE_31 && Addable(r)
    requires c in H && c != last && PinsOk(H, start)
    ensures !TailSound(H, last, room, c, r) ==>
              Next(H, c) == last && H[c].size < r && !FitsNearby(H, last, c, r)
              && !CanSplit(H[c].size + H[last].size + 1, r)
    ensures !GrowthSound(H, last, room, r) ==> H[c].size < r && !FitsNearby(H, last, c, r)
  {
    if Next(H, c) == last {
      MemLib.AllOrNothingExactly(8 * Lacking(H[c].size + H[last].size + 1, r), room);
    }
    MemLib.AllOrNothingExactly(8 * Shortfall(H[last].size, r), room);
  }
}
