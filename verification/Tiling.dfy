/** The heap as a tiling of the arena by chunks.

    A `Heap` maps the address of each chunk to its size in words, its two tag bits and
    the address of the chunk before it. Chunk c owns the words c + 1 (its header) up
    to and including Next(H, c), which is the last word of its payload and also the
    previous_size field of the chunk that follows. */
module Tiling {
  import opened Layout

  datatype Chunk = Chunk(size: int, used: bool, pin: bool, pred: int)

  type Heap = map<int, Chunk>

  function Next(H: Heap, c: int): int
    requires c in H
  {
    c + H[c].size + 1
  }

  function Prev(H: Heap, c: int): int
    requires c in H
  {
    H[c].pred
  }

  ghost predicate Spaced(H: Heap) {
    forall c, d {:trigger c in H, d in H} :: c in H && d in H && c < d ==> c + H[c].size < d
  }

  ghost predicate Bounded(H: Heap, start: int, last: int) {
    forall c {:trigger c in H} :: c in H ==> start <= c <= last && 3 <= H[c].size
  }

  ghost predicate Forward(H: Heap, last: int) {
    forall c {:trigger Next(H, c)} :: c in H && c != last ==>
      Next(H, c) in H && Prev(H, Next(H, c)) == c
  }

  ghost predicate Backward(H: Heap, start: int) {
    forall c {:trigger Prev(H, c)} :: c in H && c != start ==>
      Prev(H, c) in H && Next(H, Prev(H, c)) == c
  }

  /** Chunks tile the words from `start` + 1 to the word below `brk`, `last` being the
      end-of-heap chunk. */
  ghost predicate Tiled(H: Heap, start: int, last: int, brk: int) {
    && start in H && last in H && Next(H, last) + 1 == brk
    && Bounded(H, start, last)
    && Forward(H, last)
    && Backward(H, start)
    && Spaced(H)
  }

  // ----- changes of the tiling

  /** Chunk c cut down to r words, the rest becoming a free chunk. */
  ghost function SplitH(H: Heap, c: int, r: int, pin: bool): Heap
    requires c in H
  {
    var n := c + r + 1;
    var H1 := H[c := H[c].(size := r)][n := Chunk(H[c].size - r - 1, false, pin, c)];
    if Next(H, c) in H then H1[Next(H, c) := H[Next(H, c)].(pred := n)] else H1
  }

  /** Chunk c and its successor made one. */
  ghost function JoinH(H: Heap, c: int): Heap
    requires c in H && Next(H, c) in H
  {
    var r := Next(H, c);
    var H1 := H[c := H[c].(size := H[c].size + H[r].size + 1)] - {r};
    if Next(H, r) in H then H1[Next(H, r) := H[Next(H, r)].(pred := c)] else H1
  }

  ghost function SetUsed(H: Heap, c: int, used: bool): Heap
    requires c in H
  {
    H[c := H[c].(used := used)]
  }

  ghost function SetPin(H: Heap, c: int, pin: bool): Heap
    requires c in H
  {
    H[c := H[c].(pin := pin)]
  }

  /** The end-of-heap chunk k words larger. */
  ghost function GrowH(H: Heap, last: int, k: int): Heap
    requires last in H
  {
    H[last := H[last].(size := H[last].size + k)]
  }

  predicate CanSplit(size: int, r: int) {
    8 * size >= 8 * r + SMALLEST_CHUNK
  }

  /** CAN_SPLIT_CHUNK on 64-bit words. */
  predicate CanSplitBits(size: nat, r: nat) {
    8 * size >= (8 * r + SMALLEST_CHUNK) % TWO_TO_THE_64
  }

  /** The test on words is the test on numbers exactly for requests below 2^64 - 32 bytes; from
      there on it calls every chunk large enough. */
  lemma SplitTest(size: nat, r: nat)
    requires 3 <= size && 8 * size < TWO_TO_THE_64 && 8 * r < TWO_TO_THE_64
    ensures (CanSplitBits(size, r) <==> CanSplit(size, r)) <==> Addable(r)
    ensures !Addable(r) ==> CanSplitBits(size, r)
  {
    var sum := 8 * r + SMALLEST_CHUNK;
    assert sum % TWO_TO_THE_64 == if sum < TWO_TO_THE_64 then sum else sum - TWO_TO_THE_64;
  }

  /** H' is H with chunk c cut in two at n. */
  ghost predicate CutAt(H: Heap, H': Heap, c: int, n: int) {
    && c in H && n !in H && c != n && H'.Keys == H.Keys + {n}
    && 3 <= H'[c].size && 3 <= H'[n].size
    && Next(H', c) == n && Next(H', n) == Next(H, c) && Prev(H', n) == c
    && (Next(H, c) in H ==> Prev(H, Next(H, c)) == c)
    && (forall d {:trigger d in H} :: d in H && d != c ==> H'[d].size == H[d].size)
    && (forall d {:trigger d in H} :: d in H ==>
          H'[d].pred == if d == Next(H, c) then n else H[d].pred)
  }

  lemma SplitCuts(H: Heap, start: int, last: int, brk: int, c: int, r: int, pin: bool)
    requires c in H && 3 <= r && CanSplit(H[c].size, r)
    requires Tiled(H, start, last, brk)
    ensures CutAt(H, SplitH(H, c, r, pin), c, c + r + 1)
  {
    assert Next(H, c) in H <==> c != last;
  }

  lemma CutSpaced(H: Heap, H': Heap, start: int, last: int, c: int, n: int)
    requires CutAt(H, H', c, n) && Bounded(H, start, last) && Spaced(H)
    ensures Spaced(H')
  {
  }

  lemma CutForward(H: Heap, H': Heap, start: int, last: int, brk: int, c: int, n: int)
    requires CutAt(H, H', c, n) && Tiled(H, start, last, brk)
    ensures Forward(H', if c == last then n else last)
  {
    var last' := if c == last then n else last;
    forall d | d in H' && d != last'
      ensures Next(H', d) in H' && Prev(H', Next(H', d)) == d
    {
      if d == n {
        assert Next(H, c) in H;
      } else if d != c {
        assert Next(H', d) == Next(H, d);
        assert Next(H, d) in H && Prev(H, Next(H, d)) == d;
      }
    }
  }

  lemma CutBackward(H: Heap, H': Heap, start: int, last: int, brk: int, c: int, n: int)
    requires CutAt(H, H', c, n) && Tiled(H, start, last, brk)
    ensures Backward(H', start)
  {
    forall d | d in H' && d != start
      ensures Prev(H', d) in H' && Next(H', Prev(H', d)) == d
    {
      if d != n {
        assert Prev(H, d) in H && Next(H, Prev(H, d)) == d;
      }
    }
  }

  lemma SplitTiled(H: Heap, start: int, last: int, brk: int, c: int, r: int, pin: bool)
    requires Tiled(H, start, last, brk) && c in H && 3 <= r && CanSplit(H[c].size, r)
    ensures var n := c + r + 1;
            var H' := SplitH(H, c, r, pin);
            CutAt(H, H', c, n) && Tiled(H', start, if c == last then n else last, brk)
  {
    var n := c + r + 1;
    var H' := SplitH(H, c, r, pin);
    SplitCuts(H, start, last, brk, c, r, pin);
    CutSpaced(H, H', start, last, c, n);
    CutForward(H, H', start, last, brk, c, n);
    CutBackward(H, H', start, last, brk, c, n);
  }

  /** Joining undoes a cut: H is the joined heap cut at c's old successor. */
  lemma JoinCuts(H: Heap, start: int, last: int, brk: int, c: int)
    requires Tiled(H, start, last, brk) && c in H && c != last
    ensures Next(H, c) in H && Next(H, c) != start
    ensures CutAt(JoinH(H, c), H, c, Next(H, c))
  {
    var r := Next(H, c);
    assert r in H && Prev(H, r) == c;
    assert Next(H, r) in H <==> r != last;
    var H' := JoinH(H, c);
    assert H.Keys == H'.Keys + {r};
    if r != last {
      assert Prev(H, Next(H, r)) == r;
    }
  }

  lemma UncutForward(H: Heap, H': Heap, start: int, last: int, brk: int, c: int, r: int)
    requires CutAt(H', H, c, r) && Tiled(H, start, last, brk)
    ensures Forward(H', if r == last then c else last)
  {
    var last' := if r == last then c else last;
    forall d | d in H' && d != last'
      ensures Next(H', d) in H' && Prev(H', Next(H', d)) == d
    {
      if d == c {
        assert Next(H, r) in H && Prev(H, Next(H, r)) == r;
      } else {
        assert Next(H', d) == Next(H, d);
        assert Next(H, d) in H && Prev(H, Next(H, d)) == d;
      }
    }
  }

  lemma UncutBackward(H: Heap, H': Heap, start: int, last: int, brk: int, c: int, r: int)
    requires CutAt(H', H, c, r) && Tiled(H, start, last, brk) && r != start
    ensures Backward(H', start)
  {
    forall d | d in H' && d != start
      ensures Prev(H', d) in H' && Next(H', Prev(H', d)) == d
    {
      assert Prev(H, d) in H && Next(H, Prev(H, d)) == d;
      assert Prev(H, r) == c;
      if d == Next(H', c) {
        assert r != last;
        assert Prev(H, Next(H, r)) == r;
      }
    }
  }

  lemma UncutSpaced(H: Heap, H': Heap, start: int, last: int, brk: int, c: int, r: int)
    requires CutAt(H', H, c, r) && Tiled(H, start, last, brk)
    ensures Spaced(H')
  {
  }

  lemma JoinTiled(H: Heap, start: int, last: int, brk: int, c: int)
    requires Tiled(H, start, last, brk) && c in H && c != last
    ensures Next(H, c) in H && Next(H, c) != start
    ensures var r := Next(H, c);
            var H' := JoinH(H, c);
            CutAt(H', H, c, r) && Tiled(H', start, if r == last then c else last, brk)
  {
    var r := Next(H, c);
    var H' := JoinH(H, c);
    JoinCuts(H, start, last, brk, c);
    UncutSpaced(H, H', start, last, brk, c, r);
    UncutForward(H, H', start, last, brk, c, r);
    UncutBackward(H, H', start, last, brk, c, r);
  }

  lemma GrowTiled(H: Heap, start: int, last: int, brk: int, k: nat)
    requires Tiled(H, start, last, brk)
    ensures Tiled(GrowH(H, last, k), start, last, brk + k)
  {
    var H' := GrowH(H, last, k);
    forall d | d in H' && d != last
      ensures Next(H', d) in H' && Prev(H', Next(H', d)) == d
    {
      assert Next(H, d) in H && Prev(H, Next(H, d)) == d;
    }
    forall d | d in H' && d != start
      ensures Prev(H', d) in H' && Next(H', Prev(H', d)) == d
    {
      assert Prev(H, d) in H && Next(H, Prev(H, d)) == d;
    }
  }

  /** The tiling does not depend on the tag bits. */
  lemma FlagsTiled(H: Heap, H': Heap, start: int, last: int, brk: int)
    requires Tiled(H, start, last, brk) && H'.Keys == H.Keys
    requires forall c :: c in H ==> H'[c].size == H[c].size && H'[c].pred == H[c].pred
    ensures Tiled(H', start, last, brk)
  {
    forall c | c in H && c != last
      ensures Next(H', c) in H' && Prev(H', Next(H', c)) == c
    {
      assert Next(H', c) == Next(H, c);
    }
    forall c | c in H && c != start
      ensures Prev(H', c) in H' && Next(H', Prev(H', c)) == c
    {
      assert Prev(H', c) == Prev(H, c);
    }
  }
}
