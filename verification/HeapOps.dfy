/** Boundary tags: headers, footers and what rewriting them in place does to the tiling. */
module HeapOps {
  import opened Layout
  import opened Rings
  import opened Tiling
  import opened Fields

  function HeaderOf(k: Chunk): int {
    Header(Words(k.size), k.used, k.pin)
  }

  function Words(x: int): nat {
    if x < 0 then 0 else x
  }

  lemma HeaderParts(w: nat, used: bool, pin: bool)
    ensures SizeWords(Header(w, used, pin)) == w
    ensures CurrentInUse(Header(w, used, pin)) == used && PreviousInUse(Header(w, used, pin)) == pin
  {
    var h := Header(w, used, pin);
    var u, p := if used then 1 else 0, if pin then 1 else 0;
    Eighth(h, w, 2 * p + u);
    Half(h, 4 * w + p, u);
    Half(4 * w + p, 2 * w, p);
  }

  lemma Eighth(x: nat, q: nat, r: nat)
    requires r < 8 && x == 8 * q + r
    ensures x / 8 == q
  {
  }

  lemma Half(x: nat, q: nat, r: nat)
    requires r < 2 && x == 2 * q + r
    ensures x / 2 == q && x % 2 == r
  {
  }

  /** Setting or clearing one tag bit changes just that bit. */
  lemma HeaderBits(w: nat, used: bool, pin: bool)
    ensures SetCurrentInUse(Header(w, used, pin)) == Header(w, true, pin)
    ensures ClearCurrentInUse(Header(w, used, pin)) == Header(w, false, pin)
    ensures SetPreviousInUse(Header(w, used, pin)) == Header(w, used, true)
    ensures ClearPreviousInUse(Header(w, used, pin)) == Header(w, used, false)
  {
    HeaderParts(w, used, pin);
  }

  /** Every header says what the tiling says. */
  ghost predicate Heads(m: seq<int>, H: Heap) {
    forall c {:trigger c in H} :: c in H ==> Field(m, c, CURRENT_SIZE) == HeaderOf(H[c])
  }

  /** The last word of every free chunk but the end-of-heap chunk holds its size, where
      the next chunk looks for it as its previous_size. */
  ghost predicate Feet(m: seq<int>, H: Heap, last: int) {
    forall c {:trigger Next(H, c)} :: c in H && !H[c].used && c != last ==> At(m, Next(H, c)) == 8 * H[c].size
  }

  /** A clear previous-in-use bit is believed: the chunk before is free. */
  ghost predicate PinsOk(H: Heap, start: int) {
    && start in H && H[start].pin
    && (forall c {:trigger Prev(H, c)} :: c in H && c != start && !H[c].pin ==> Prev(H, c) in H && !H[Prev(H, c)].used)
  }

  /** Memory below `brk` is laid out as H says. */
  ghost predicate Laid(m: seq<int>, H: Heap, start: int, last: int, brk: int) {
    Tiled(H, start, last, brk) && 2 <= start && brk <= |m| && Heads(m, H) && Feet(m, H, last)
  }

  lemma LaidCarved(m: seq<int>, H: Heap, start: int, last: int, brk: int)
    requires Laid(m, H, start, last, brk)
    ensures Carved(m, H)
    ensures forall c {:trigger c in H} :: c in H ==> c + H[c].size + 1 < brk
  {
    forall c | c in H
      ensures SizeWords(Field(m, c, CURRENT_SIZE)) == H[c].size
    {
      HeaderParts(H[c].size, H[c].used, H[c].pin);
    }
  }

  // ----- frames

  /** Memory changed only from lo to hi. */
  ghost predicate Within(m: seq<int>, m': seq<int>, lo: int, hi: int) {
    |m'| == |m| && forall i {:trigger At(m', i)} :: !(lo <= i <= hi) ==> At(m', i) == At(m, i)
  }

  ghost predicate PayloadSame(m: seq<int>, m': seq<int>, c: int, size: int) {
    forall i {:trigger At(m', i)} :: c + NEXT <= i <= c + size + 1 ==> At(m', i) == At(m, i)
  }

  /** The payload of every chunk in use, except those in E, is as it was. */
  ghost predicate Untouched(m: seq<int>, m': seq<int>, H: Heap, E: set<int>) {
    forall c {:trigger c in H} :: c in H && H[c].used && c !in E ==> PayloadSame(m, m', c, H[c].size)
  }

  lemma UntouchedTwice(m: seq<int>, m1: seq<int>, m2: seq<int>, H: Heap, E: set<int>)
    requires Untouched(m, m1, H, E) && Untouched(m1, m2, H, E)
    ensures Untouched(m, m2, H, E)
  {
    forall c | c in H && H[c].used && c !in E
      ensures PayloadSame(m, m2, c, H[c].size)
    {
      assert PayloadSame(m, m1, c, H[c].size) && PayloadSame(m1, m2, c, H[c].size);
      forall i | c + NEXT <= i <= c + H[c].size + 1
        ensures At(m2, i) == At(m, i)
      {
        assert At(m2, i) == At(m1, i);
      }
    }
  }

  lemma QuietLaid(m: seq<int>, m': seq<int>, H: Heap, start: int, last: int, brk: int)
    requires Laid(m, H, start, last, brk) && Quiet(m, m', H)
    ensures Laid(m', H, start, last, brk) && Untouched(m, m', H, {})
  {
    forall c | c in H
      ensures Field(m', c, CURRENT_SIZE) == Field(m, c, CURRENT_SIZE)
    {
      forall d | d in H && !H[d].used
        ensures !IsLink(H[d].size, c + CURRENT_SIZE - d)
      {
      }
    }
    forall c | c in H && !H[c].used && c != last
      ensures At(m', Next(H, c)) == At(m, Next(H, c))
    {
      forall d | d in H && !H[d].used
        ensures !IsLink(H[d].size, Next(H, c) - d)
      {
      }
    }
    forall c, i | c in H && H[c].used && c + NEXT <= i <= c + H[c].size + 1
      ensures At(m', i) == At(m, i)
    {
      forall d | d in H && !H[d].used
        ensures !IsLink(H[d].size, i - d)
      {
      }
    }
  }

  /** A change inside the region of chunk c leaves every other chunk's words alone. */
  lemma WithinRegion(m: seq<int>, m': seq<int>, H: Heap, start: int, last: int, brk: int, c: int, d: int)
    requires Tiled(H, start, last, brk) && c in H && d in H && d != c && Within(m, m', c + 1, Next(H, c))
    ensures forall i {:trigger At(m', i)} :: d + 1 <= i <= Next(H, d) ==> At(m', i) == At(m, i)
  {
  }

  lemma WithinUntouched(m: seq<int>, m': seq<int>, H: Heap, start: int, last: int, brk: int, c: int)
    requires Tiled(H, start, last, brk) && c in H && Within(m, m', c + 1, Next(H, c))
    ensures Untouched(m, m', H, {c})
  {
    forall d | d in H && H[d].used && d != c
      ensures PayloadSame(m, m', d, H[d].size)
    {
      WithinRegion(m, m', H, start, last, brk, c, d);
    }
  }

  // ----- splitting

  lemma SplitHeads(m: seq<int>, m': seq<int>, H: Heap, H': Heap, start: int, last: int, brk: int, c: int, r: int,
                   pin: bool)
    requires Laid(m, H, start, last, brk) && c in H && 3 <= r && CanSplit(H[c].size, r) && H' == SplitH(H, c, r, pin)
    requires Within(m, m', c + 1, Next(H, c))
    requires Field(m', c, CURRENT_SIZE) == Header(r, H[c].used, H[c].pin)
    requires Field(m', c + r + 1, CURRENT_SIZE) == Header(H[c].size - r - 1, false, pin)
    ensures Heads(m', H')
  {
    SplitCuts(H, start, last, brk, c, r, pin);
    forall d | d in H'
      ensures Field(m', d, CURRENT_SIZE) == HeaderOf(H'[d])
    {
      if d != c && d != c + r + 1 {
        WithinRegion(m, m', H, start, last, brk, c, d);
        assert Field(m', d, CURRENT_SIZE) == Field(m, d, CURRENT_SIZE);
      }
    }
  }

  lemma SplitFeet(m: seq<int>, m': seq<int>, H: Heap, H': Heap, start: int, last: int, brk: int, c: int, r: int,
                  pin: bool)
    requires Laid(m, H, start, last, brk) && c in H && 3 <= r && CanSplit(H[c].size, r) && H' == SplitH(H, c, r, pin)
    requires Within(m, m', c + 1, Next(H, c))
    requires !H[c].used ==> At(m', c + r + 1) == 8 * r
    requires c != last ==> At(m', Next(H, c)) == 8 * (H[c].size - r - 1)
    ensures Feet(m', H', if c == last then c + r + 1 else last)
  {
    var n := c + r + 1;
    SplitCuts(H, start, last, brk, c, r, pin);
    forall d | d in H' && !H'[d].used && d != (if c == last then n else last)
      ensures At(m', Next(H', d)) == 8 * H'[d].size
    {
      if d != c && d != n {
        WithinRegion(m, m', H, start, last, brk, c, d);
        assert Next(H', d) == Next(H, d);
      }
    }
  }

  lemma SplitLaid(m: seq<int>, m': seq<int>, H: Heap, H': Heap, start: int, last: int, brk: int, c: int, r: int,
                  pin: bool)
    requires Laid(m, H, start, last, brk) && c in H && 3 <= r && CanSplit(H[c].size, r) && H' == SplitH(H, c, r, pin)
    requires Within(m, m', c + 1, Next(H, c))
    requires Field(m', c, CURRENT_SIZE) == Header(r, H[c].used, H[c].pin)
    requires Field(m', c + r + 1, CURRENT_SIZE) == Header(H[c].size - r - 1, false, pin)
    requires !H[c].used ==> At(m', c + r + 1) == 8 * r
    requires c != last ==> At(m', Next(H, c)) == 8 * (H[c].size - r - 1)
    ensures Laid(m', H', start, if c == last then c + r + 1 else last, brk)
  {
    SplitTiled(H, start, last, brk, c, r, pin);
    SplitHeads(m, m', H, H', start, last, brk, c, r, pin);
    SplitFeet(m, m', H, H', start, last, brk, c, r, pin);
  }

  lemma SplitBits(H: Heap, start: int, last: int, brk: int, c: int, r: int, pin: bool)
    requires Tiled(H, start, last, brk) && PinsOk(H, start) && c in H && 3 <= r && CanSplit(H[c].size, r)
    requires pin || !H[c].used
    ensures PinsOk(SplitH(H, c, r, pin), start)
  {
    var H' := SplitH(H, c, r, pin);
    SplitCuts(H, start, last, brk, c, r, pin);
    forall d | d in H' && d != start && !H'[d].pin
      ensures Prev(H', d) in H' && !H'[Prev(H', d)].used
    {
      if d != c + r + 1 {
        assert Prev(H, d) in H;
      }
    }
  }

  // ----- joining

  lemma JoinLaid(m: seq<int>, m': seq<int>, H: Heap, H': Heap, start: int, last: int, brk: int, c: int)
    requires Laid(m, H, start, last, brk) && c in H && c != last && Next(H, c) in H && H' == JoinH(H, c)
    requires Within(m, m', c + 1, Next(H, Next(H, c)))
    requires Field(m', c, CURRENT_SIZE) == Header(Words(H[c].size + H[Next(H, c)].size + 1), H[c].used, H[c].pin)
    requires !H[c].used && Next(H, c) != last ==>
               At(m', Next(H, Next(H, c))) == 8 * (H[c].size + H[Next(H, c)].size + 1)
    ensures Laid(m', H', start, if Next(H, c) == last then c else last, brk)
  {
    var r := Next(H, c);
    JoinTiled(H, start, last, brk, c);
    forall d | d in H' && d != c
      ensures forall i {:trigger At(m', i)} :: d + 1 <= i <= Next(H, d) ==> At(m', i) == At(m, i)
    {
    }
    forall d | d in H'
      ensures Field(m', d, CURRENT_SIZE) == HeaderOf(H'[d])
    {
      if d != c {
        assert Field(m', d, CURRENT_SIZE) == Field(m, d, CURRENT_SIZE);
      }
    }
    forall d | d in H' && !H'[d].used && d != (if r == last then c else last)
      ensures At(m', Next(H', d)) == 8 * H'[d].size
    {
      if d != c {
        assert Next(H', d) == Next(H, d);
      }
    }
  }

  lemma JoinBits(H: Heap, start: int, last: int, brk: int, c: int)
    requires Tiled(H, start, last, brk) && PinsOk(H, start) && c in H && c != last && Next(H, c) in H
    requires H[c].used ==> Next(H, Next(H, c)) in H ==> H[Next(H, Next(H, c))].pin
    ensures PinsOk(JoinH(H, c), start)
  {
    var H' := JoinH(H, c);
    JoinTiled(H, start, last, brk, c);
    forall d | d in H' && d != start && !H'[d].pin
      ensures Prev(H', d) in H' && !H'[Prev(H', d)].used
    {
      assert Prev(H, d) in H;
    }
  }

  lemma GrowLaid(m: seq<int>, m': seq<int>, H: Heap, start: int, last: int, brk: int, k: nat)
    requires Laid(m, H, start, last, brk) && !H[last].used && brk + k <= |m|
    requires Within(m, m', last + 1, last + 1)
    requires Field(m', last, CURRENT_SIZE) == Header(H[last].size + k, false, H[last].pin)
    ensures Laid(m', GrowH(H, last, k), start, last, brk + k)
  {
    var H' := GrowH(H, last, k);
    GrowTiled(H, start, last, brk, k);
    forall d | d in H' && d != last
      ensures Field(m', d, CURRENT_SIZE) == HeaderOf(H'[d])
      ensures !H'[d].used ==> At(m', Next(H', d)) == 8 * H'[d].size
    {
      assert Next(H', d) == Next(H, d);
    }
  }

  /** Only the tag bits of some chunks changed, and with them their headers; a chunk that
      became free has its footer. */
  lemma FlagsLaid(m: seq<int>, m': seq<int>, H: Heap, H': Heap, start: int, last: int, brk: int)
    requires Laid(m, H, start, last, brk) && H'.Keys == H.Keys && |m'| == |m|
    requires forall c {:trigger c in H} :: c in H ==> H'[c].size == H[c].size && H'[c].pred == H[c].pred
    requires Heads(m', H')
    requires forall c {:trigger Next(H, c)} :: c in H && !H'[c].used && c != last ==>
              At(m', Next(H, c)) == 8 * H[c].size
    ensures Laid(m', H', start, last, brk)
  {
    FlagsTiled(H, H', start, last, brk);
    forall c | c in H' && !H'[c].used && c != last
      ensures At(m', Next(H', c)) == 8 * H'[c].size
    {
      assert Next(H', c) == Next(H, c);
    }
  }
}
