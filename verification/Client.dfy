/** The client's side of the heap: the blocks it holds, how much it asked for in each, and
    what it stored there. */
module Client {
  import opened Bits
  import opened Layout
  import opened Rings
  import opened Tiling
  import opened HeapOps
  import opened HeapModel
  import opened ExactTags

  /** A live block: its index in the trace and the size last asked for. */
  datatype Held = Held(index: nat, size: nat)

  type Blocks = map<int, Held>

  /** Chunk c serves a request of this many bytes. */
  ghost predicate Serves(H: Heap, c: int, size: nat) {
    && c in H && H[c].used && 0 < size < 0x8000_0000 && RequestWords(size) <= H[c].size
    && (!IsHuge(8 * RequestWords(size)) ==> H[c].size <= RequestWords(size) + 3)
  }

  /** The blocks held are exactly the live chunks, each large enough. */
  ghost predicate Sizes(H: Heap, held: Blocks) {
    && held.Keys == Live(H).Keys
    && (forall c {:trigger c in held} :: c in held ==> Serves(H, c, held[c].size))
  }

  lemma SizesAlloc(H: Heap, H': Heap, held: Blocks, c: int, i: nat, size: nat)
    requires Sizes(H, held) && c in H' && c !in Live(H) && Live(H') == Live(H)[c := H'[c].size]
    requires RequestWords(size) <= H'[c].size
    requires (!IsHuge(8 * RequestWords(size)) ==> H'[c].size <= RequestWords(size) + 3)
    requires 0 < size < 0x8000_0000
    ensures Sizes(H', held[c := Held(i, size)]) && c !in held
  {
    forall x | x in held
      ensures x in H' && H'[x].used && H'[x].size == H[x].size
    {
      assert x in Live(H) && x in Live(H') && Live(H')[x] == Live(H)[x];
    }
    assert c in Live(H');
  }

  lemma SizesFree(H: Heap, H': Heap, held: Blocks, c: int)
    requires Sizes(H, held) && Live(H') == Live(H) - {c}
    ensures Sizes(H', held - {c})
  {
    forall x | x in held && x != c
      ensures x in H' && H'[x].used && H'[x].size == H[x].size
    {
      assert x in Live(H) && x in Live(H') && Live(H')[x] == Live(H)[x];
    }
  }

  lemma SizesMove(m: seq<int>, m': seq<int>, H: Heap, H': Heap, held: Blocks, c: int, d: int, i: nat, size: nat)
    requires Sizes(H, held) && c in held && Moved(m, m', H, H', c, d, RequestWords(size)) && 0 < size < 0x8000_0000
    ensures Sizes(H', (held - {c})[d := Held(i, size)]) && d !in held - {c}
  {
    forall x | x in held && x != c && x != d
      ensures x in H' && H'[x].used && H'[x].size == H[x].size
    {
      assert x in Live(H) && x in Live(H') && Live(H')[x] == Live(H)[x];
    }
    assert d in Live(H');
  }

  // ----- what the client stored

  /** How many words a loop storing words up to byte `size` writes. */
  function WordsFor(size: nat): nat {
    (size + 7) / 8
  }

  /** The word the validator stores in word k of a block at p: the byte offset xor the byte
      address, in 64 bits. */
  function Pattern(k: int, p: int): int {
    if 0 <= k < 0x8000_0000 && 0 <= p < 0x8000_0000 then ((8 * k) as bv64 ^ (8 * p) as bv64) as int else 0
  }

  ghost predicate Filled(m: seq<int>, p: int, n: int) {
    forall k {:trigger Field(m, p, k)} :: 0 <= k < n ==> Field(m, p, k) == Pattern(k, p)
  }

  /** Every block held, except those in E, holds its pattern. */
  ghost predicate Contents(m: seq<int>, held: Blocks, E: set<int>) {
    forall c {:trigger c in held} :: c in held && c !in E ==> Filled(m, c + NEXT, WordsFor(held[c].size))
  }

  lemma WordsFit(size: nat)
    requires Roundable(size)
    ensures WordsFor(size) <= RequestWords(size)
  {
  }

  lemma ContentsKept(m: seq<int>, m': seq<int>, H: Heap, held: Blocks, E: set<int>)
    requires Sizes(H, held) && Contents(m, held, E) && Untouched(m, m', H, E)
    ensures Contents(m', held, E)
  {
    forall c | c in held && c !in E
      ensures Filled(m', c + NEXT, WordsFor(held[c].size))
    {
      assert Serves(H, c, held[c].size) && PayloadSame(m, m', c, H[c].size);
      WordsFit(held[c].size);
      var p, n := c + NEXT, WordsFor(held[c].size);
      forall k | 0 <= k < n
        ensures Field(m', p, k) == Pattern(k, p)
      {
        assert Field(m, p, k) == Pattern(k, p);
        assert At(m', p + k) == At(m, p + k);
      }
    }
  }

  lemma ContentsSub(m: seq<int>, held: Blocks, held': Blocks, E: set<int>, E': set<int>)
    requires Contents(m, held, E)
    requires forall c {:trigger c in held'} :: c in held' && c !in E' ==> c in held && c !in E && held'[c] == held[c]
    ensures Contents(m, held', E')
  {
  }

  lemma ContentsFilled(m: seq<int>, held: Blocks, c: int)
    requires c in held && Contents(m, held, {c}) && Filled(m, c + NEXT, WordsFor(held[c].size))
    ensures Contents(m, held, {})
  {
  }

  /** After realloc the new block, whose payload is at q, starts with the old block's pattern. */
  lemma PatternMoved(m: seq<int>, m': seq<int>, H: Heap, H': Heap, held: Blocks, c: int, d: int, size: nat, q: int)
    requires Sizes(H, held) && Contents(m, held, {}) && c in held && Moved(m, m', H, H', c, d, RequestWords(size))
    requires q == d + NEXT && size < 0x8000_0000
    ensures forall k {:trigger Field(m', q, k)} ::
              0 <= k < WordsFor(Min(held[c].size, size)) ==> Field(m', q, k) == Pattern(k, c + NEXT)
  {
    assert Serves(H, c, held[c].size);
    WordsFit(held[c].size);
    WordsFit(size);
    var p, n := c + NEXT, WordsFor(Min(held[c].size, size));
    forall k | 0 <= k < n
      ensures Field(m', q, k) == Pattern(k, p)
    {
      assert Field(m, p, k) == Pattern(k, p);
      assert Field(m', d, NEXT + k) == Field(m, c, NEXT + k);
    }
  }

  // ----- ranges

  /** The first and last byte of a payload. */
  datatype Range = Range(lo: int, hi: int)

  function RangeOf(c: int, size: nat): Range {
    Range(8 * (c + NEXT), 8 * (c + NEXT) + size - 1)
  }

  predicate Apart(r: Range, s: Range) {
    r.lo > s.hi || s.lo > r.hi
  }

  lemma RangeInHeap(H: Heap, start: int, last: int, brk: int, c: int, size: nat)
    requires Tiled(H, start, last, brk) && Serves(H, c, size)
    ensures 8 * start <= RangeOf(c, size).lo && RangeOf(c, size).hi <= 8 * brk - 1 && RangeOf(c, size).lo % 8 == 0
  {
  }

  lemma RangesApart(H: Heap, start: int, last: int, brk: int, c: int, s: nat, d: int, t: nat)
    requires Tiled(H, start, last, brk) && Serves(H, c, s) && Serves(H, d, t) && c != d
    ensures Apart(RangeOf(c, s), RangeOf(d, t))
  {
  }

  /** The range list holds exactly the ranges of the blocks held, `order` naming them. */
  ghost predicate Recorded(ranges: seq<Range>, order: seq<int>, held: Blocks) {
    && |order| == |ranges| && NoDup(order)
    && (forall c {:trigger c in order} {:trigger c in held} :: c in order <==> c in held)
    && (forall j {:trigger ranges[j]} :: 0 <= j < |ranges| ==>
          order[j] in held && ranges[j] == RangeOf(order[j], held[order[j]].size))
  }

  lemma RecordedAdd(ranges: seq<Range>, order: seq<int>, held: Blocks, c: int, i: nat, size: nat)
    requires Recorded(ranges, order, held) && c !in held
    ensures Recorded([RangeOf(c, size)] + ranges, [c] + order, held[c := Held(i, size)])
  {
    var o, h := [c] + order, held[c := Held(i, size)];
    assert c !in order;
    NoDupGrows(order, c);
    forall x
      ensures x in o <==> x in h
    {
      assert x in order <==> x in held;
    }
    forall j | 0 <= j < |o|
      ensures o[j] in h && ([RangeOf(c, size)] + ranges)[j] == RangeOf(o[j], h[o[j]].size)
    {
      if j > 0 {
        assert order[j - 1] in order && ranges[j - 1] == RangeOf(order[j - 1], held[order[j - 1]].size);
      }
    }
  }

  function DropAt(ranges: seq<Range>, j: nat): seq<Range>
    requires j < |ranges|
  {
    ranges[..j] + ranges[j + 1..]
  }

  lemma RecordedDrop(ranges: seq<Range>, order: seq<int>, held: Blocks, j: nat)
    requires Recorded(ranges, order, held) && j < |order|
    ensures Recorded(DropAt(ranges, j), Without(order, j), held - {order[j]})
  {
    var rs, o, h := DropAt(ranges, j), Without(order, j), held - {order[j]};
    NoDupShrinks(order, j);
    forall x
      ensures x in o <==> x in h
    {
      assert x in order <==> x in held;
    }
    forall i | 0 <= i < |o|
      ensures o[i] in h && rs[i] == RangeOf(o[i], h[o[i]].size)
    {
      assert o[i] == order[Skip(j, i)] && rs[i] == ranges[Skip(j, i)];
      assert o[i] in o;
    }
  }

  /** The range of a held block is in the list, and is the only one with its start. */
  lemma RecordedAt(ranges: seq<Range>, order: seq<int>, held: Blocks, c: int)
    requires Recorded(ranges, order, held) && c in held
    ensures exists j :: 0 <= j < |ranges| && ranges[j].lo == 8 * (c + NEXT)
    ensures forall j {:trigger ranges[j]} :: 0 <= j < |ranges| && ranges[j].lo == 8 * (c + NEXT) ==> order[j] == c
  {
    assert c in order;
    var j :| 0 <= j < |order| && order[j] == c;
    assert ranges[j] == RangeOf(order[j], held[order[j]].size);
  }

  // ----- the trace's tables of blocks and sizes

  /** Entry i of both tables describes the block that `place` gives for i, and every block
      held has its entry. */
  ghost predicate Named(bs: seq<int>, ss: seq<int>, place: map<nat, int>, held: Blocks) {
    && |bs| == |ss|
    && (forall i {:trigger i in place} :: i in place ==>
          i < |bs| && place[i] in held && held[place[i]].index == i
          && bs[i] == place[i] + NEXT && ss[i] == held[place[i]].size)
    && (forall c {:trigger c in held} :: c in held ==> held[c].index in place && place[held[c].index] == c)
  }

  lemma NamedAdd(bs: seq<int>, ss: seq<int>, place: map<nat, int>, held: Blocks, c: int, i: nat, size: nat)
    requires Named(bs, ss, place, held) && i !in place && c !in held && i < |bs|
    ensures Named(bs[i := c + NEXT], ss[i := size], place[i := c], held[c := Held(i, size)])
  {
  }

  lemma NamedFree(bs: seq<int>, ss: seq<int>, place: map<nat, int>, held: Blocks, i: nat)
    requires Named(bs, ss, place, held) && i in place
    ensures Named(bs, ss, place - {i}, held - {place[i]})
  {
  }

  lemma NamedMove(bs: seq<int>, ss: seq<int>, place: map<nat, int>, held: Blocks, d: int, i: nat, size: nat)
    requires Named(bs, ss, place, held) && i in place && d !in held - {place[i]}
    ensures Named(bs[i := d + NEXT], ss[i := size], place[i := d], (held - {place[i]})[d := Held(i, size)])
  {
    NamedFree(bs, ss, place, held, i);
    NamedAdd(bs, ss, place - {i}, held - {place[i]}, d, i, size);
    assert (place - {i})[i := d] == place[i := d];
  }

  // ----- what is asked for

  ghost function AskedIn(place: map<nat, int>, held: Blocks): map<nat, nat> {
    map i | i in place && place[i] in held :: held[place[i]].size
  }

  lemma AskedAdd(bs: seq<int>, ss: seq<int>, place: map<nat, int>, held: Blocks, c: int, i: nat, size: nat)
    requires Named(bs, ss, place, held) && i !in place && c !in held
    ensures AskedIn(place[i := c], held[c := Held(i, size)]) == AskedIn(place, held)[i := size]
  {
  }

  lemma AskedFree(bs: seq<int>, ss: seq<int>, place: map<nat, int>, held: Blocks, i: nat)
    requires Named(bs, ss, place, held) && i in place
    ensures AskedIn(place - {i}, held - {place[i]}) == AskedIn(place, held) - {i}
  {
  }

  lemma AskedMove(bs: seq<int>, ss: seq<int>, place: map<nat, int>, held: Blocks, d: int, i: nat, size: nat)
    requires Named(bs, ss, place, held) && i in place && d !in held - {place[i]}
    ensures AskedIn(place[i := d], (held - {place[i]})[d := Held(i, size)]) == AskedIn(place, held)[i := size]
  {
    NamedFree(bs, ss, place, held, i);
    AskedFree(bs, ss, place, held, i);
    AskedAdd(bs, ss, place - {i}, held - {place[i]}, d, i, size);
    assert (place - {i})[i := d] == place[i := d];
  }

  lemma NamedIndex(bs: seq<int>, ss: seq<int>, place: map<nat, int>, held: Blocks, i: nat)
    requires Named(bs, ss, place, held) && i in place
    ensures i < |bs| && place[i] in held && held[place[i]].index == i && bs[i] == place[i] + NEXT
    ensures ss[i] == held[place[i]].size
  {
  }

  lemma AskedKeys(bs: seq<int>, ss: seq<int>, place: map<nat, int>, held: Blocks)
    requires Named(bs, ss, place, held)
    ensures AskedIn(place, held).Keys == place.Keys
    ensures forall i {:trigger i in place} :: i in place ==>
              place[i] in held && AskedIn(place, held)[i] == held[place[i]].size
  {
  }

  lemma NothingHeldYet(H: Heap, m: seq<int>, bs: seq<int>, ss: seq<int>)
    requires Live(H) == map[] && |bs| == |ss|
    ensures Sizes(H, map[]) && Contents(m, map[], {}) && Recorded([], [], map[]) && Named(bs, ss, map[], map[])
    ensures AskedIn(map[], map[]) == map[]
  {
  }

  lemma FillKeeps(H: Heap, held: Blocks, c: int)
    requires Sizes(H, held) && c in held
    ensures c in H && H[c].used && WordsFor(held[c].size) <= H[c].size
  {
    assert Serves(H, c, held[c].size);
    WordsFit(held[c].size);
  }

  /** A realloc of block i to this size would cut it right before a block in use. */
  ghost predicate CutsAt(H: Heap, place: map<nat, int>, i: nat, size: nat) {
    i in place && CutsBeforeBlock(H, place[i], RequestWords(size))
  }

  lemma RequestMonotone(a: nat, b: nat)
    requires a <= b && Roundable(b)
    ensures RequestWords(a) <= RequestWords(b)
  {
  }

  /** A realloc that asks for no less than before, of a block that is not huge, cuts nothing. */
  lemma NoCut(H: Heap, bs: seq<int>, ss: seq<int>, place: map<nat, int>, held: Blocks, i: nat, size: nat)
    requires Sizes(H, held) && Named(bs, ss, place, held) && i in place && i in AskedIn(place, held)
    requires AskedIn(place, held)[i] <= size < 0x8000_0000 && !IsHuge(8 * RequestWords(AskedIn(place, held)[i]))
    ensures !CutsAt(H, place, i, size)
  {
    var c := place[i];
    assert c in held && Serves(H, c, held[c].size);
    RequestMonotone(held[c].size, size);
  }
}
