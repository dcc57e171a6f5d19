/** Exact tags and full coalescing: what runs of malloc, free and growing realloc keep. */
module ExactTags {
  import opened Layout
  import opened Rings
  import opened Tiling
  import opened HeapOps
  import opened HeapModel

  /** The previous-in-use bit says exactly whether the chunk before is in use. */
  ghost predicate TagsExact(H: Heap, start: int) {
    && start in H && H[start].pin
    && (forall c {:trigger Prev(H, c)} :: c in H && c != start ==>
          Prev(H, c) in H && (H[c].pin <==> H[Prev(H, c)].used))
  }

  /** No two neighbours are both free, the end-of-heap chunk included. */
  ghost predicate Coalesced(H: Heap, start: int) {
    forall c {:trigger Prev(H, c)} :: c in H && c != start && !H[c].used ==> Prev(H, c) in H && H[Prev(H, c)].used
  }

  ghost predicate Exact(H: Heap, start: int) {
    TagsExact(H, start) && Coalesced(H, start)
  }

  /** Taking a free chunk: its neighbours were in use, so nothing is left uncoalesced. */
  lemma UseExact(H: Heap, start: int, last: int, brk: int, c: int)
    requires Tiled(H, start, last, brk) && Exact(H, start) && c in H && c != last && !H[c].used && Next(H, c) in H
    ensures Exact(Use(H, c), start)
  {
    var H' := Use(H, c);
    forall d | d in H' && d != start
      ensures Prev(H', d) in H' && (H'[d].pin <==> H'[Prev(H', d)].used) && (!H'[d].used ==> H'[Prev(H', d)].used)
    {
      assert Prev(H, d) in H && Next(H, Prev(H, d)) == d;
    }
  }

  /** A free chunk cut in two and its front taken. */
  lemma CutUseExact(H: Heap, start: int, last: int, brk: int, c: int, r: int)
    requires Tiled(H, start, last, brk) && Exact(H, start) && c in H && !H[c].used && 3 <= r && CanSplit(H[c].size, r)
    ensures Next(SplitH(H, c, r, false), c) in SplitH(H, c, r, false)
    ensures Exact(Use(SplitH(H, c, r, false), c), start)
  {
    var H1 := SplitH(H, c, r, false);
    var n := c + r + 1;
    SplitCuts(H, start, last, brk, c, r, false);
    var H' := Use(H1, c);
    forall d | d in H' && d != start
      ensures Prev(H', d) in H' && (H'[d].pin <==> H'[Prev(H', d)].used) && (!H'[d].used ==> H'[Prev(H', d)].used)
    {
      if d != n {
        assert Prev(H, d) in H && Next(H, Prev(H, d)) == d;
      }
    }
  }

  lemma GrowExact(H: Heap, start: int, last: int, k: int)
    requires Exact(H, start) && last in H
    ensures Exact(GrowH(H, last, k), start)
  {
    var H' := GrowH(H, last, k);
    forall d | d in H' && d != start
      ensures Prev(H', d) in H' && (H'[d].pin <==> H'[Prev(H', d)].used) && (!H'[d].used ==> H'[Prev(H', d)].used)
    {
      assert Prev(H, d) in H;
    }
  }

  lemma MallocExact(H: Heap, H': Heap, start: int, last: int, last': int, brk: int, c: int, r: int)
    requires Tiled(H, start, last, brk) && Exact(H, start) && 3 <= r && MallocStep(H, H', last, last', c, r)
    requires !H[last].used
    ensures Exact(H', start)
  {
    if c == last {
      var k := Shortfall(H[last].size, r);
      GrowTiled(H, start, last, brk, k);
      GrowExact(H, start, last, k);
      CutUseExact(ExtendH(H, c, r), start, last, brk + k, c, r);
    } else if CanSplit(H[c].size, r) && !IsHuge(8 * r) {
      CutUseExact(H, start, last, brk, c, r);
    } else {
      UseExact(H, start, last, brk, c);
    }
  }

  /** Over exact tags no combination meets a stale bit. */
  lemma NothingStale(H: Heap, start: int, last: int, brk: int, c: int)
    requires Tiled(H, start, last, brk) && TagsExact(H, start)
    ensures !AbsorbsStale(H, last, c)
  {
    if c in H && Next(H, c) in H && Next(H, c) != last && Next(H, Next(H, c)) in H {
      assert Prev(H, Next(H, Next(H, c))) == Next(H, c);
    }
  }

  lemma ExactIsTagged(H: Heap, start: int)
    requires Exact(H, start)
    ensures TagsExact(H, start)
  {
  }

  lemma ExactMeetsNothing(H: Heap, start: int, last: int, brk: int, c: int)
    requires Tiled(H, start, last, brk) && Exact(H, start)
    ensures !AbsorbsStale(H, last, c)
  {
    NothingStale(H, start, last, brk, c);
  }

  // ----- free

  /** Exact, but chunk c, just freed, may have free neighbours. */
  ghost predicate ExactBut(H: Heap, start: int, c: int) {
    && TagsExact(H, start)
    && (forall d {:trigger Prev(H, d)} :: d in H && d != start && !H[d].used && d != c && Prev(H, d) != c ==>
          Prev(H, d) in H && H[Prev(H, d)].used)
  }

  lemma UnuseExact(H: Heap, start: int, last: int, brk: int, c: int)
    requires Tiled(H, start, last, brk) && Exact(H, start) && c in H && H[c].used && c != last && Next(H, c) in H
    ensures ExactBut(Unuse(H, c), start, c)
  {
    var H' := Unuse(H, c);
    forall d | d in H' && d != start
      ensures Prev(H', d) in H' && (H'[d].pin <==> H'[Prev(H', d)].used)
      ensures !H'[d].used && d != c && Prev(H', d) != c ==> H'[Prev(H', d)].used
    {
      assert Prev(H, d) in H && Next(H, Prev(H, d)) == d;
    }
  }

  lemma BackExact(H: Heap, start: int, last: int, brk: int, c: int)
    requires Tiled(H, start, last, brk) && ExactBut(H, start, c) && c in H && !H[c].used && c != last
    requires !H[c].pin ==> Prev(H, c) in H && Next(H, Prev(H, c)) == c
    ensures var d, H' := MergedAt(H, c), MergeBackH(H, c);
            && ExactBut(H', start, d) && d in H' && !H'[d].used
            && (d != start ==> Prev(H', d) in H' && H'[Prev(H', d)].used)
  {
    if !H[c].pin {
      var p := Prev(H, c);
      assert c != start;
      var H' := JoinH(H, p);
      JoinTiled(H, start, last, brk, p);
      if p != start {
        assert Prev(H, p) in H && Next(H, Prev(H, p)) == p;
      }
      forall d | d in H' && d != start
        ensures Prev(H', d) in H' && (H'[d].pin <==> H'[Prev(H', d)].used)
        ensures !H'[d].used && d != p && Prev(H', d) != p ==> H'[Prev(H', d)].used
      {
        assert Prev(H, d) in H && Next(H, Prev(H, d)) == d;
      }
      assert p != start ==> Prev(H', p) == Prev(H, p);
    } else if c != start {
      assert Prev(H, c) in H;
    }
  }

  lemma ForthMerged(H: Heap, start: int, last: int, brk: int, d: int)
    requires Tiled(H, start, last, brk) && ExactBut(H, start, d) && d in H && !H[d].used && d != last
    requires Next(H, d) in H && !H[Next(H, d)].used && (d != start ==> Prev(H, d) in H && H[Prev(H, d)].used)
    ensures Exact(JoinH(H, d), start)
  {
    hide Spaced, Bounded;
    var H' := JoinH(H, d);
    JoinCuts(H, start, last, brk, d);
    assert Prev(H, Next(H, d)) == d;
    forall e | e in H' && e != start
      ensures Prev(H', e) in H' && (H'[e].pin <==> H'[Prev(H', e)].used) && (!H'[e].used ==> H'[Prev(H', e)].used)
    {
      assert Prev(H, e) in H && Next(H, Prev(H, e)) == e;
    }
  }

  lemma ForthExact(H: Heap, start: int, last: int, brk: int, d: int)
    requires Tiled(H, start, last, brk) && ExactBut(H, start, d) && d in H && !H[d].used && d != last
    requires Next(H, d) in H && (d != start ==> Prev(H, d) in H && H[Prev(H, d)].used)
    ensures Exact(MergeForthH(H, d), start)
  {
    if !H[Next(H, d)].used {
      ForthMerged(H, start, last, brk, d);
    } else {
      forall e | e in H && e != start
        ensures Prev(H, e) in H && (H[e].pin <==> H[Prev(H, e)].used) && (!H[e].used ==> H[Prev(H, e)].used)
      {
        assert Prev(H, e) in H && Next(H, Prev(H, e)) == e;
      }
    }
  }

  /** Freeing keeps the tags exact and leaves no two neighbours free. */
  lemma FreeExact(H: Heap, H': Heap, start: int, last: int, brk: int, c: int)
    requires Tiled(H, start, last, brk) && Exact(H, start) && FreeStep(H, H', c) && H[c].used && !H[last].used
    ensures Exact(H', start)
  {
    var H1 := Unuse(H, c);
    UseShape(H, start, last, brk, c);
    UnuseExact(H, start, last, brk, c);
    BackExact(H1, start, last, brk, c);
    if !H1[c].pin {
      JoinTiled(H1, start, last, brk, Prev(H1, c));
    }
    ForthExact(MergeBackH(H1, c), start, last, brk, MergedAt(H1, c));
  }

  // ----- shrinking realloc

  lemma CutExact(H: Heap, start: int, last: int, brk: int, c: int, r: int)
    requires Tiled(H, start, last, brk) && Exact(H, start) && c in H && H[c].used && c != last
    requires 3 <= r && CanSplit(H[c].size, r) && Next(H, c) in H
    ensures var H1, n, nn := SplitH(H, c, r, true), c + r + 1, Next(H, c);
            && n in H1 && Next(H1, n) == nn && nn in H1 && Prev(H1, nn) == n && H1[nn].pin && !H1[n].used
            && nn != start && H1[nn].used == H[nn].used && ExactAway(H1, start, nn)
  {
    var H1, n, nn := SplitH(H, c, r, true), c + r + 1, Next(H, c);
    SplitCuts(H, start, last, brk, c, r, true);
    assert Prev(H, nn) == c;
    forall d | d in H1 && d != start && d != nn
      ensures Prev(H1, d) in H1 && (H1[d].pin <==> H1[Prev(H1, d)].used) && (!H1[d].used ==> H1[Prev(H1, d)].used)
    {
      if d != n {
        assert Prev(H, d) in H && Next(H, Prev(H, d)) == d;
      }
    }
  }

  /** Tags are exact and free chunks apart everywhere but at nn. */
  ghost predicate ExactAway(H: Heap, start: int, nn: int) {
    && start in H && H[start].pin
    && (forall d {:trigger Prev(H, d)} :: d in H && d != start && d != nn ==>
          Prev(H, d) in H && (H[d].pin <==> H[Prev(H, d)].used) && (!H[d].used ==> H[Prev(H, d)].used))
  }

  lemma MergeRestExact(H: Heap, start: int, last: int, brk: int, n: int)
    requires Tiled(H, start, last, brk) && n in H && n != last && Next(H, n) in H && !H[n].used && !H[Next(H, n)].used
    requires ExactAway(H, start, Next(H, n))
    ensures Exact(JoinH(H, n), start)
  {
    var H' := JoinH(H, n);
    JoinTiled(H, start, last, brk, n);
    forall d | d in H' && d != start
      ensures Prev(H', d) in H' && (H'[d].pin <==> H'[Prev(H', d)].used) && (!H'[d].used ==> H'[Prev(H', d)].used)
    {
      assert Prev(H, d) in H && Next(H, Prev(H, d)) == d;
    }
  }

  /** Cutting a block keeps the tags exact if and only if the rest could be merged: when
      the next chunk is in use, its previous-in-use bit is left set over a free chunk. */
  lemma ShrinkExact(H: Heap, H': Heap, start: int, last: int, brk: int, c: int, r: int)
    requires Tiled(H, start, last, brk) && Exact(H, start) && c != last && ShrinkStep(H, H', c, r) && Next(H, c) in H
    ensures Exact(H', start) <==> !H[Next(H, c)].used
    ensures TagsExact(H', start) <==> !H[Next(H, c)].used
  {
    var H1, n, nn := SplitH(H, c, r, true), c + r + 1, Next(H, c);
    CutExact(H, start, last, brk, c, r);
    if H[nn].used {
      assert H1[Prev(H1, nn)].used != H1[nn].pin;
    } else {
      SplitTiled(H, start, last, brk, c, r, true);
      MergeRestExact(H1, start, last, brk, n);
    }
  }

  // ----- growing realloc

  /** Exact but for the previous-in-use bit of nn, whose predecessor is in use. */
  ghost predicate ExactButPin(H: Heap, start: int, nn: int) {
    && start in H && H[start].pin && nn != start && nn in H && Prev(H, nn) in H && H[Prev(H, nn)].used
    && (forall d {:trigger Prev(H, d)} :: d in H && d != start ==>
          Prev(H, d) in H && (d != nn ==> (H[d].pin <==> H[Prev(H, d)].used)) && (!H[d].used ==> H[Prev(H, d)].used))
  }

  /** A block that took in the free chunk after it. */
  lemma AbsorbExact(H: Heap, start: int, last: int, brk: int, c: int)
    requires Tiled(H, start, last, brk) && Exact(H, start) && c in H && H[c].used && c != last
    requires Next(H, c) in H && Next(H, c) != last && !H[Next(H, c)].used
    ensures var h := JoinH(H, c);
            c in h && Next(h, c) in h && ExactButPin(h, start, Next(h, c)) && h[Next(h, c)].used
  {
    var h := JoinH(H, c);
    JoinTiled(H, start, last, brk, c);
    var nn := Next(h, c);
    assert Next(H, Next(H, c)) in H && Prev(H, nn) == Next(H, c);
    assert Prev(h, nn) == c;
    forall d | d in h && d != start
      ensures Prev(h, d) in h && (d != nn ==> (h[d].pin <==> h[Prev(h, d)].used)) && (!h[d].used ==> h[Prev(h, d)].used)
    {
      assert Prev(H, d) in H && Next(H, Prev(H, d)) == d;
    }
  }

  /** Resizing settles the one bit that was open. */
  lemma ResizeExact(H: Heap, H': Heap, start: int, last: int, brk: int, b: int, r: int)
    requires Tiled(H, start, last, brk) && b in H && H[b].used && b != last && Next(H, b) in H && 3 <= r
    requires ExactButPin(H, start, Next(H, b)) && H[Next(H, b)].used
    requires (CanSplit(H[b].size, r) ==> Next(H, b) in SplitH(H, b, r, true)) && H' == ResizeH(H, b, r)
    ensures Exact(H', start)
  {
    var nn := Next(H, b);
    assert Prev(H, nn) == b;
    if CanSplit(H[b].size, r) {
      SplitCuts(H, start, last, brk, b, r, true);
      forall d | d in H' && d != start
        ensures Prev(H', d) in H' && (H'[d].pin <==> H'[Prev(H', d)].used) && (!H'[d].used ==> H'[Prev(H', d)].used)
      {
        if d != b + r + 1 {
          assert Prev(H, d) in H && Next(H, Prev(H, d)) == d;
        }
      }
    } else {
      forall d | d in H' && d != start
        ensures Prev(H', d) in H' && (H'[d].pin <==> H'[Prev(H', d)].used) && (!H'[d].used ==> H'[Prev(H', d)].used)
      {
        assert Prev(H, d) in H;
      }
    }
  }

  lemma AfterExact(H: Heap, h: Heap, H': Heap, start: int, last: int, brk: int, c: int, r: int)
    requires Tiled(H, start, last, brk) && Exact(H, start) && c in H && H[c].used && c != last && 3 <= r
    requires Next(H, c) in H && Next(H, c) != last && !H[Next(H, c)].used && h == JoinH(H, c) && Next(h, c) in h
    requires (CanSplit(h[c].size, r) ==> Next(h, c) in SplitH(h, c, r, true)) && H' == ResizeH(h, c, r)
    ensures Exact(H', start)
  {
    JoinTiled(H, start, last, brk, c);
    AbsorbExact(H, start, last, brk, c);
    ResizeExact(h, H', start, last, brk, c, r);
  }
}
