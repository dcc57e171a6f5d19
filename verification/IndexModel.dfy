/** What the bins should contain: the abstract free index.

    Every free chunk in a bin sits in one circle, and every circle has a slot: its bin
    and, in the large bins, its position in the bin's trie. Positions are numbered from
    the size bits: a node whose shift field is k holds chunks whose size, shifted right
    by k + 1, is the node's position, so the children of position p are 2p and 2p + 1
    and the root's position is the two leading bits of every size in the bin. */
module IndexModel {
  import opened Bits
  import opened Layout
  import opened Rings
  import opened Tiling

  datatype Slot = Slot(bin: nat, pos: nat)

  datatype Index = Index(rings: map<Slot, seq<int>>, slot: map<int, Slot>)

  ghost predicate InTrie(s: Slot) {
    s.bin >= 32
  }

  function RootSlot(bin: nat): Slot {
    Slot(bin, RootPos(bin))
  }

  function Up(s: Slot): Slot {
    Slot(s.bin, s.pos / 2)
  }

  function Down(s: Slot, bit: nat): Slot {
    Slot(s.bin, 2 * s.pos + bit)
  }

  /** The shift field of a node: two below the top bit at the root, one less per level. */
  ghost function ShiftAt(s: Slot): int
    decreases s.pos
  {
    if s.pos <= 3 then (s.bin as int - 16) / 2 - 2 else ShiftAt(Up(s)) - 1
  }

  /** The chunk a pointer to slot s should hold, NULL when there is no circle there. */
  ghost function Head(ix: Index, s: Slot): int {
    if s in ix.rings && |ix.rings[s]| > 0 then ix.rings[s][0] else NULL
  }

  ghost function ParentWord(ix: Index, s: Slot): int {
    if s.pos == RootPos(s.bin) then NO_PARENT_ROOT_NODE else Head(ix, Up(s))
  }

  ghost function SizeOf(H: Heap, a: int): nat {
    if a in H && H[a].size >= 0 then 8 * H[a].size else 0
  }

  // ----- shape, independent of memory

  /** Circles partition the indexed chunks. */
  ghost predicate Members(ix: Index) {
    && (forall s {:trigger s in ix.rings} :: s in ix.rings ==> |ix.rings[s]| > 0 && NoDup(ix.rings[s]))
    && (forall a {:trigger a in ix.slot} :: a in ix.slot ==>
          ix.slot[a] in ix.rings && a in ix.rings[ix.slot[a]])
    && (forall s, i {:trigger ix.rings[s][i]} :: s in ix.rings && 0 <= i < |ix.rings[s]| ==>
          ix.rings[s][i] in ix.slot && ix.slot[ix.rings[s][i]] == s)
  }

  /** Every chunk is a free chunk in the bin of its size. */
  ghost predicate Binned(ix: Index, H: Heap) {
    forall a {:trigger a in ix.slot} :: a in ix.slot ==>
      a in H && !H[a].used && BinOf(SizeOf(H, a)) == ix.slot[a].bin && 2 <= ix.slot[a].bin <= 63
  }

  /** In a trie, every chunk is on the path of its size. */
  ghost predicate Pathed(ix: Index, H: Heap) {
    forall a {:trigger a in ix.slot} :: a in ix.slot ==> PathAt(ix.slot[a], SizeOf(H, a))
  }

  ghost predicate PathAt(s: Slot, size: nat) {
    if InTrie(s) then ShiftAt(s) >= 2 && Shr(size, ShiftAt(s) + 1) == s.pos else s.pos == 0
  }

  ghost predicate Placed(ix: Index, H: Heap) {
    Binned(ix, H) && Pathed(ix, H)
  }

  ghost predicate PlacedAt(s: Slot, size: nat) {
    BinOf(size) == s.bin && 2 <= s.bin <= 63 && PathAt(s, size)
  }

  /** Tries have no gaps above a node. */
  ghost predicate Rooted(ix: Index) {
    forall s {:trigger Up(s)} :: s in ix.rings && InTrie(s) ==>
      2 <= s.pos && (s.pos == RootPos(s.bin) || Up(s) in ix.rings)
  }

  /** In a trie one size has one node. */
  ghost predicate Distinct(ix: Index, H: Heap) {
    forall a, b {:trigger ix.slot[a], ix.slot[b]} ::
      (a in ix.slot && b in ix.slot && InTrie(ix.slot[a]) && ix.slot[a].bin == ix.slot[b].bin) ==>
        (SizeOf(H, a) == SizeOf(H, b) <==> ix.slot[a] == ix.slot[b])
  }

  ghost predicate Shaped(ix: Index, H: Heap) {
    Members(ix) && Placed(ix, H) && Rooted(ix) && Distinct(ix, H)
  }

  // ----- memory

  ghost predicate BinsPoint(b: seq<int>, ix: Index) {
    && |b| == NUM_OF_BINS
    && (forall n {:trigger b[n]} :: 2 <= n <= 31 ==> b[n] == Head(ix, Slot(n, 0)))
    && (forall n {:trigger b[n]} :: 32 <= n <= 63 ==> b[n] == Head(ix, RootSlot(n)))
  }

  ghost predicate Circles(m: seq<int>, ix: Index) {
    forall s {:trigger s in ix.rings} :: s in ix.rings ==> Ring(m, ix.rings[s])
  }

  /** The child and parent words of the node in slot s. */
  ghost predicate NodeLinks(m: seq<int>, ix: Index, s: Slot) {
    var h := Head(ix, s);
    && Field(m, h, CHILD) == Head(ix, Down(s, 0))
    && Field(m, h, CHILD + 1) == Head(ix, Down(s, 1))
    && Field(m, h, PARENT) == ParentWord(ix, s)
  }

  ghost predicate TrieLinks(m: seq<int>, ix: Index) {
    forall s {:trigger NodeLinks(m, ix, s)} :: s in ix.rings && InTrie(s) ==> NodeLinks(m, ix, s)
  }

  /** Bin number and shift of every chunk in a trie; peers have no parent. */
  ghost predicate TrieTags(m: seq<int>, ix: Index) {
    forall a {:trigger a in ix.slot} :: a in ix.slot && InTrie(ix.slot[a]) ==>
      && Field(m, a, TAG) == Tag(ix.slot[a].bin, ShiftAt(ix.slot[a]))
      && (a != Head(ix, ix.slot[a]) ==> Field(m, a, PARENT) == NULL)
  }

  ghost predicate Wired(m: seq<int>, b: seq<int>, ix: Index) {
    BinsPoint(b, ix) && Circles(m, ix) && TrieLinks(m, ix) && TrieTags(m, ix)
  }

  // ----- positions in a trie

  /** Above a node that holds this size there is a node at every prefix of the size. */
  lemma {:induction false} AncestorPresent(ix: Index, s: Slot, size: nat, j: int)
    requires Rooted(ix) && s in ix.rings && InTrie(s)
    requires 0 <= ShiftAt(s) < j <= ShiftAt(RootSlot(s.bin)) + 1 && Shr(size, ShiftAt(s) + 1) == s.pos
    ensures Slot(s.bin, Shr(size, j)) in ix.rings
    ensures ShiftAt(Slot(s.bin, Shr(size, j))) == j - 1
    decreases j - ShiftAt(s)
  {
    if ShiftAt(s) + 1 < j {
      assert s.pos != RootPos(s.bin);
      assert Up(s) in ix.rings;
      AncestorPresent(ix, Up(s), size, j);
    }
  }

  lemma ShiftDown(s: Slot, bit: nat)
    requires s.pos >= 2 && bit <= 1
    ensures ShiftAt(Down(s, bit)) == ShiftAt(s) - 1
    ensures Up(Down(s, bit)) == s
  {
    assert Up(Down(s, bit)) == s;
  }

  /** The child that the size selects has the size's next longer prefix as position. */
  lemma ChildOnPath(size: nat, k: nat, q: Slot)
    requires Shr(size, k + 1) == q.pos && ShiftAt(q) == k && q.pos >= 2
    ensures Down(q, Bit(size, k)) == Slot(q.bin, Shr(size, k)) && ShiftAt(Down(q, Bit(size, k))) == k - 1
  {
    assert Shr(size, k + 1) == Shr(size, k) / 2;
    ShiftDown(q, Bit(size, k));
  }

  /** The root's shift is the deepest one can start from. */
  lemma {:induction false} ShiftBelowRoot(ix: Index, s: Slot)
    requires Rooted(ix) && s in ix.rings && InTrie(s)
    ensures ShiftAt(s) <= ShiftAt(RootSlot(s.bin))
    ensures ShiftAt(s) == ShiftAt(RootSlot(s.bin)) <==> s == RootSlot(s.bin)
    ensures RootSlot(s.bin) in ix.rings
    ensures 2 <= s.pos && (s.pos <= 3 <==> s == RootSlot(s.bin))
    decreases s.pos
  {
    if s.pos != RootPos(s.bin) {
      assert Up(s) in ix.rings;
      ShiftBelowRoot(ix, Up(s));
    }
  }

  /** Every large size has the position of its bin's root at the root's shift. */
  lemma RootPrefix(size: nat)
    requires IsLarge(size) && !IsHuge(size) && size % 8 == 0
    ensures 32 <= BinOf(size) <= 63
    ensures ShiftAt(RootSlot(BinOf(size))) == Log2(size) - 2 >= 6
    ensures Shr(size, ShiftAt(RootSlot(BinOf(size))) + 1) == RootPos(BinOf(size))
  {
    LargeIndexPrefix(size);
  }
}
