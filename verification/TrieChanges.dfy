/** Searching, inserting and removing in the tries of the large bins, on the abstract
    index and on memory. */
module TrieChanges {
  import opened Bits
  import opened Layout
  import opened Rings
  import opened Tiling
  import opened Fields
  import opened IndexModel
  import opened IndexChanges

  lemma HeadNull(ix: Index, H: Heap, m: seq<int>, s: Slot)
    requires Shaped(ix, H) && Carved(m, H)
    ensures Head(ix, s) == NULL <==> s !in ix.rings
    ensures s in ix.rings ==> Head(ix, s) in ix.slot && ix.slot[Head(ix, s)] == s && Head(ix, s) in H
                              && PlacedAt(s, SizeOf(H, Head(ix, s))) && Head(ix, s) >= 2
  {
    if s in ix.rings {
      assert ix.rings[s][0] in ix.slot;
    }
  }

  /** c is a free chunk with room for trie words. */
  ghost predicate TrieChunk(H: Heap, c: int) {
    c in H && !H[c].used && IsLarge(8 * H[c].size) && H[c].size >= 0
  }

  // ----- the search path of a size

  /** Slot s lies on the path of this size, everything above it has been passed, and no
      chunk of this size was met. */
  ghost predicate OnPath(ix: Index, H: Heap, s: Slot, size: nat) {
    && s.bin == BinOf(size) <= 63 && InTrie(s)
    && 2 <= s.pos && (s.pos == RootPos(s.bin) || Up(s) in ix.rings)
    && 2 <= ShiftAt(s) <= ShiftAt(RootSlot(s.bin)) && Shr(size, ShiftAt(s) + 1) == s.pos
    && (forall a {:trigger ix.slot[a]} :: a in ix.slot && ix.slot[a].bin == s.bin && SizeOf(H, a) == size ==>
          ShiftAt(ix.slot[a]) <= ShiftAt(s))
  }

  /** The slot a new chunk of this size gets: its list bin or, in a trie, the node of its size
      if there is one and otherwise the first free slot on its path. */
  ghost predicate NewSlot(ix: Index, H: Heap, size: nat, s: Slot) {
    if IsLarge(size) && !IsHuge(size) then
      && OnPath(ix, H, s, size)
      && (if s in ix.rings then SizeOf(H, Head(ix, s)) == size
          else forall a {:trigger a in ix.slot} :: a in ix.slot ==> SizeOf(H, a) != size)
    else s == Slot(BinOf(size), 0)
  }

  /** The index with c added in slot s: in front in a list bin, at the end in a trie. */
  ghost function Inserted(ix: Index, s: Slot, c: int): Index {
    Added(ix, s, if InTrie(s) then Circle(ix, s) + [c] else [c] + Circle(ix, s), c)
  }

  lemma InsertedNode(ix: Index, s: Slot, c: int)
    requires InTrie(s) && s !in ix.rings
    ensures Inserted(ix, s, c) == Added(ix, s, [c], c)
  {
    assert Circle(ix, s) + [c] == [c];
  }

  /** Chunk c has been put where its size belongs. */
  ghost predicate Indexed(ix: Index, ix': Index, H: Heap, c: int) {
    exists s :: NewSlot(ix, H, SizeOf(H, c), s) && ix' == Inserted(ix, s, c)
  }

  lemma PathStarts(ix: Index, H: Heap, size: nat)
    requires Shaped(ix, H) && IsLarge(size) && !IsHuge(size) && size % 8 == 0
    ensures OnPath(ix, H, RootSlot(BinOf(size)), size)
  {
    RootPrefix(size);
    forall a | a in ix.slot && ix.slot[a].bin == BinOf(size)
      ensures ShiftAt(ix.slot[a]) <= ShiftAt(RootSlot(BinOf(size)))
    {
      ShiftBelowRoot(ix, ix.slot[a]);
    }
  }

  /** The shift never falls below 2, because sizes are multiples of eight: a node with
      shift 2 fixes every bit that can differ. */
  lemma ShiftStaysAboveTwo(ix: Index, H: Heap, a: int, size: nat)
    requires Placed(ix, H) && a in ix.slot && InTrie(ix.slot[a]) && size % 8 == 0
    requires Shr(size, ShiftAt(ix.slot[a]) + 1) == ix.slot[a].pos && SizeOf(H, a) != size
    ensures ShiftAt(ix.slot[a]) >= 3
  {
    if ShiftAt(ix.slot[a]) == 2 {
      ShrThree(size, SizeOf(H, a));
    }
  }

  /** The shift field and the depth of a node, its distance from the root, add up to two
      less than the top bit of the bin's sizes. */
  function Depth(s: Slot): int {
    if s.pos < 2 then 0 else Log2(s.pos) - 1
  }

  lemma {:induction false} ShiftIsDepth(s: Slot)
    requires s.bin >= 16 && s.pos >= 2
    ensures ShiftAt(s) == TopBit(s.bin) - 2 - Depth(s)
    ensures s.pos >= 4 ==> Depth(s) == Depth(Up(s)) + 1
    decreases s.pos
  {
    if s.pos >= 4 {
      ShiftIsDepth(Up(s));
    } else {
      assert Log2(s.pos) == 1;
    }
  }

  /** No trie is deeper than its sizes allow, and none has more than twenty levels. */
  lemma DepthBound(ix: Index, H: Heap, a: int)
    requires Placed(ix, H) && Rooted(ix) && Members(ix) && a in ix.slot && InTrie(ix.slot[a])
    ensures 0 <= Depth(ix.slot[a]) <= TopBit(ix.slot[a].bin) - 4 <= 19
  {
    var s := ix.slot[a];
    assert s.pos >= 2 by { var u := Up(s); }
    ShiftIsDepth(s);
    Log2Bound(s.pos, 1);
  }

  lemma DifferentSlotIsDeeper(s: Slot, t: Slot, size: nat)
    requires t.bin == s.bin && 0 <= ShiftAt(t) <= ShiftAt(s) && t != s
    requires Shr(size, ShiftAt(t) + 1) == t.pos && Shr(size, ShiftAt(s) + 1) == s.pos
    ensures ShiftAt(t) < ShiftAt(s)
  {
  }

  /** Chunks of the wanted size are deeper than a node of another size. */
  lemma SizeIsDeeper(ix: Index, H: Heap, s: Slot, size: nat, h: int)
    requires Pathed(ix, H) && Distinct(ix, H) && InTrie(s) && ShiftAt(s) >= 0 && Shr(size, ShiftAt(s) + 1) == s.pos
    requires forall a {:trigger ix.slot[a]} :: a in ix.slot && ix.slot[a].bin == s.bin && SizeOf(H, a) == size ==>
               ShiftAt(ix.slot[a]) <= ShiftAt(s)
    requires h in ix.slot && ix.slot[h] == s && SizeOf(H, h) != size
    ensures forall a {:trigger ix.slot[a]} :: a in ix.slot && ix.slot[a].bin == s.bin && SizeOf(H, a) == size ==>
              ShiftAt(ix.slot[a]) <= ShiftAt(s) - 1
  {
    forall a | a in ix.slot && ix.slot[a].bin == s.bin && SizeOf(H, a) == size
      ensures ShiftAt(ix.slot[a]) <= ShiftAt(s) - 1
    {
      assert ix.slot[a] != s;
      DifferentSlotIsDeeper(s, ix.slot[a], size);
    }
  }

  /** One step down, past a node of another size. */
  lemma PathStep(ix: Index, H: Heap, s: Slot, size: nat, h: int)
    requires Placed(ix, H) && Distinct(ix, H) && OnPath(ix, H, s, size) && s in ix.rings && size % 8 == 0
    requires h in ix.slot && ix.slot[h] == s && SizeOf(H, h) != size
    ensures ShiftAt(s) >= 3
    ensures OnPath(ix, H, Down(s, Bit(size, ShiftAt(s))), size)
  {
    ShiftStaysAboveTwo(ix, H, h, size);
    SizeIsDeeper(ix, H, s, size, h);
    ChildOnPath(size, ShiftAt(s), s);
    ShiftDown(s, Bit(size, ShiftAt(s)));
  }

  /** Where the path falls off the trie, the size is absent and belongs there. */
  lemma PathEnds(ix: Index, H: Heap, s: Slot, size: nat)
    requires Shaped(ix, H) && OnPath(ix, H, s, size) && s !in ix.rings
    ensures Fits(ix, H, s, size)
    ensures forall a {:trigger ix.slot[a]} :: a in ix.slot && ix.slot[a].bin == s.bin ==> SizeOf(H, a) != size
  {
    forall a | a in ix.slot && ix.slot[a].bin == s.bin
      ensures SizeOf(H, a) != size && ix.slot[a] != s
    {
      if SizeOf(H, a) == size {
        AncestorPresent(ix, ix.slot[a], size, ShiftAt(s) + 1);
      }
    }
  }

  lemma FitsPeer(ix: Index, H: Heap, a: int, size: nat)
    requires Shaped(ix, H) && a in ix.slot && InTrie(ix.slot[a]) && SizeOf(H, a) == size
    ensures Fits(ix, H, ix.slot[a], size)
    ensures ix.slot[a].bin <= 63
  {
    var u := Up(ix.slot[a]);
  }

  // ----- memory effects

  /** The tag word of an indexed chunk gives back its bin and its shift. */
  lemma TagOf(m: seq<int>, ix: Index, H: Heap, a: int)
    requires Placed(ix, H) && TrieTags(m, ix) && a in ix.slot && InTrie(ix.slot[a])
    ensures TagBin(Field(m, a, TAG)) == ix.slot[a].bin && TagShift(Field(m, a, TAG)) == ShiftAt(ix.slot[a])
  {
  }

  lemma TagParts(bin: nat)
    requires bin <= 63
    ensures TagBin(Tag(bin, 0)) == bin
  {
  }

  /** The tag word of a trie chunk lies in memory and is one of its links. */
  lemma InMemory(m: seq<int>, ix: Index, H: Heap, a: int)
    requires Placed(ix, H) && Carved(m, H) && a in ix.slot && InTrie(ix.slot[a])
    ensures a in H && !H[a].used && IsLink(H[a].size, TAG) && 0 <= a && a + TAG < |m| && ix.slot[a].bin <= 63
  {
    TrieChunkIsLarge(ix, H, a);
  }

  lemma ChildWord(m: seq<int>, ix: Index, s: Slot, bit: nat)
    requires TrieLinks(m, ix) && s in ix.rings && InTrie(s) && bit <= 1
    ensures Field(m, Head(ix, s), CHILD + bit) == Head(ix, Down(s, bit))
  {
    assert NodeLinks(m, ix, s);
  }

  lemma ParentWordDown(ix: Index, s: Slot, bit: nat)
    requires s.pos >= 2 && bit <= 1
    ensures ParentWord(ix, Down(s, bit)) == Head(ix, s)
  {
    assert Up(Down(s, bit)) == s;
  }

  /** Following the child word that the size selects is one step down the path. */
  lemma Descend(m: seq<int>, ix: Index, H: Heap, s: Slot, size: nat, h: int)
    requires Shaped(ix, H) && TrieLinks(m, ix) && TrieTags(m, ix) && OnPath(ix, H, s, size)
    requires s in ix.rings && h == Head(ix, s) && h in ix.slot && ix.slot[h] == s
    requires size % 8 == 0 && SizeOf(H, h) != size
    ensures ShiftAt(s) >= 3 && TagShift(Field(m, h, TAG)) == ShiftAt(s)
    ensures var d := Down(s, Bit(size, ShiftAt(s)));
            && Field(m, h, CHILD + Bit(size, ShiftAt(s))) == Head(ix, d)
            && ParentWord(ix, d) == h && ShiftAt(d) < ShiftAt(s)
            && OnPath(ix, H, d, size)
  {
    PathStep(ix, H, s, size, h);
    TagOf(m, ix, H, h);
    var bit := Bit(size, ShiftAt(s));
    ChildWord(m, ix, s, bit);
    ParentWordDown(ix, s, bit);
    ShiftDown(s, bit);
  }

  /** `current` is the node, if any, in slot s. */
  ghost predicate NodeAt(ix: Index, H: Heap, s: Slot, current: int) {
    && current == Head(ix, s) && (current == NULL <==> s !in ix.rings)
    && (current != NULL ==> current in ix.slot && ix.slot[current] == s && TrieChunk(H, current))
  }

  lemma NodeAtSlot(m: seq<int>, ix: Index, H: Heap, s: Slot)
    requires Shaped(ix, H) && Carved(m, H) && InTrie(s)
    ensures NodeAt(ix, H, s, Head(ix, s))
  {
    HeadNull(ix, H, m, s);
    if s in ix.rings {
      TrieChunkIsLarge(ix, H, Head(ix, s));
    }
  }

  /** One step of the search: the child word the size selects leads one step down. */
  lemma SearchStep(m: seq<int>, ix: Index, H: Heap, s: Slot, size: nat, h: int, d: Slot)
    requires Shaped(ix, H) && TrieLinks(m, ix) && TrieTags(m, ix) && Carved(m, H) && OnPath(ix, H, s, size)
    requires NodeAt(ix, H, s, h) && h != NULL && size % 8 == 0 && SizeOf(H, h) != size
    requires ShiftAt(s) >= 0 && d == Down(s, Bit(size, ShiftAt(s)))
    ensures TagShift(Field(m, h, TAG)) == ShiftAt(s) && ShiftAt(d) < ShiftAt(s)
    ensures NodeAt(ix, H, d, Field(m, h, CHILD + Bit(size, ShiftAt(s))))
    ensures ParentWord(ix, d) == h && OnPath(ix, H, d, size)
  {
    Descend(m, ix, H, s, size, h);
    NodeAtSlot(m, ix, H, d);
  }

  /** The parent word of the last slot on a path: the root sentinel, or a node whose
      shift is one more and which branches to the slot. */
  lemma ParentOnPath(m: seq<int>, ix: Index, H: Heap, s: Slot, size: nat)
    requires Shaped(ix, H) && TrieTags(m, ix) && Carved(m, H) && OnPath(ix, H, s, size)
    requires IsLarge(size) && !IsHuge(size) && size % 8 == 0
    ensures var p := ParentWord(ix, s);
            if s.pos == RootPos(s.bin) then
              p == NO_PARENT_ROOT_NODE && ShiftAt(s) == Log2(size) - 2
            else
              p != NO_PARENT_ROOT_NODE && p == ParentOf(ix, s) && p in ix.slot && p in H && !H[p].used
              && IsLarge(8 * H[p].size) && TagShift(Field(m, p, TAG)) == ShiftAt(s) + 1
              && Bit(size, ShiftAt(s) + 1) == s.pos % 2
  {
    if s.pos == RootPos(s.bin) {
      RootPrefix(size);
    } else {
      var u := Up(s);
      NodeAtSlot(m, ix, H, u);
      TagOf(m, ix, H, Head(ix, u));
      ShiftUp(ix, s, size);
    }
  }

  lemma ShiftUp(ix: Index, s: Slot, size: nat)
    requires Rooted(ix) && InTrie(s) && Up(s) in ix.rings && ShiftAt(s) >= 0 && Shr(size, ShiftAt(s) + 1) == s.pos
    ensures ShiftAt(Up(s)) == ShiftAt(s) + 1 && Bit(size, ShiftAt(s) + 1) == s.pos % 2
  {
    var u := Up(s);
    assert u.pos >= 2 by { var v := Up(u); }
    assert s == Down(u, s.pos % 2);
    ShiftDown(u, s.pos % 2);
  }

  /** Chunks outside the index do not matter to the wiring. */
  lemma WiredIgnores(m: seq<int>, m': seq<int>, b: seq<int>, ix: Index, H: Heap, c: int)
    requires Shaped(ix, H) && Wired(m, b, ix) && Carved(m, H) && c !in ix.slot && OnlyChunk(m, m', H, c)
    ensures Wired(m', b, ix)
  {
    forall t | t in ix.rings
      ensures Ring(m', ix.rings[t])
    {
      MembersFree(ix, H, t);
      RingSame(m, m', ix.rings[t]);
    }
    TrieWordsKept(m, m', ix, H, {c});
    TriesUntouched(m, m', ix, ix);
  }

  /** A new peer: the circle grows at the end, its head keeps the node's links. */
  lemma PeerWired(m: seq<int>, m': seq<int>, b: seq<int>, ix: Index, H: Heap, s: Slot, c: int)
    requires Shaped(ix, H) && Wired(m, b, ix) && Carved(m, H)
    requires s in ix.rings && InTrie(s) && c !in ix.slot && c in H && s.bin <= 63
    requires Ring(m', ix.rings[s] + [c]) && OnlyCircle(m, m', H, ix.rings[s] + [c])
    requires Field(m', c, PARENT) == NULL && Field(m', c, TAG) == Tag(s.bin, ShiftAt(s))
    ensures Wired(m', b, Added(ix, s, ix.rings[s] + [c], c))
  {
    var r := ix.rings[s];
    var ix' := Added(ix, s, r + [c], c);
    MembersFree(ix, H, s);
    forall x | x in r + [c]
      ensures x in ix.slot ==> ix.slot[x] == s
    {
    }
    CirclesWith(m, m', ix, ix', s);
    TrieWordsKept(m, m', ix, H, {});
    SameHeadsLinks(m, m', ix, ix', H);
  }

  /** When heads stay and trie words stay, so do the links between nodes. */
  lemma SameHeadsLinks(m: seq<int>, m': seq<int>, ix: Index, ix': Index, H: Heap)
    requires Shaped(ix, H) && TrieLinks(m, ix) && TrieWordsSame(m, m', ix, {})
    requires forall t {:trigger Head(ix', t)} :: Head(ix', t) == Head(ix, t)
    requires forall t {:trigger t in ix'.rings} :: t in ix'.rings ==> t in ix.rings
    ensures TrieLinks(m', ix')
  {
    forall t | t in ix'.rings && InTrie(t)
      ensures NodeLinks(m', ix', t)
    {
      assert NodeLinks(m, ix, t);
      var h := ix.rings[t][0];
      assert h in ix.slot && ix.slot[h] == t;
      assert Field(m', h, CHILD) == Field(m, h, CHILD);
      assert Field(m', h, CHILD + 1) == Field(m, h, CHILD + 1);
      assert Field(m', h, PARENT) == Field(m, h, PARENT);
      assert Head(ix', Down(t, 0)) == Head(ix, Down(t, 0));
      assert Head(ix', Down(t, 1)) == Head(ix, Down(t, 1));
      assert Head(ix', Up(t)) == Head(ix, Up(t));
    }
  }

  /** Of all link fields only those of c and field j of u changed. */
  ghost predicate OnlyHung(m: seq<int>, m': seq<int>, H: Heap, c: int, u: int, j: int) {
    forall x, k {:trigger Field(m', x, k)} ::
      (x in H && IsLink(H[x].size, k) && x != c && (x != u || k != j)) ==> Field(m', x, k) == Field(m, x, k)
  }

  ghost function ParentOf(ix: Index, s: Slot): int {
    if s.pos == RootPos(s.bin) then NULL else Head(ix, Up(s))
  }

  /** A new node at the end of its path, hung from its parent's child word or, at the
      root, from the bin. */
  lemma NodeWired(m: seq<int>, m': seq<int>, b: seq<int>, b': seq<int>, ix: Index, H: Heap, s: Slot, c: int)
    requires Shaped(ix, H) && Wired(m, b, ix) && Carved(m, H)
    requires s !in ix.rings && InTrie(s) && c !in ix.slot && c in H && Fits(ix, H, s, SizeOf(H, c))
    requires Ring(m', [c]) && Field(m', c, PARENT) == ParentWord(ix, s) && Field(m', c, TAG) == Tag(s.bin, ShiftAt(s))
    requires Field(m', c, CHILD) == NULL && Field(m', c, CHILD + 1) == NULL
    requires OnlyHung(m, m', H, c, ParentOf(ix, s), CHILD + s.pos % 2)
    requires if s.pos == RootPos(s.bin) then b' == b[s.bin := c]
             else b' == b && Field(m', Head(ix, Up(s)), CHILD + s.pos % 2) == c
    ensures Wired(m', b', Added(ix, s, [c], c))
  {
    var ix' := Added(ix, s, [c], c);
    CirclesWith(m, m', ix, ix', s);
    NodeHeads(ix, s, c);
    forall t | t in ix'.rings && InTrie(t)
      ensures NodeLinks(m', ix', t)
    {
      if t == s {
        NewNodeLinks(m', ix, H, s, c);
      } else {
        OldNodeLinks(m, m', ix, H, s, c, t);
      }
    }
    NodeTags(m, m', ix, H, s, c);
  }

  lemma NodeHeads(ix: Index, s: Slot, c: int)
    requires s !in ix.rings
    ensures var ix' := Added(ix, s, [c], c);
            forall t {:trigger Head(ix', t)} :: Head(ix', t) == if t == s then c else Head(ix, t)
  {
  }

  lemma NewNodeLinks(m': seq<int>, ix: Index, H: Heap, s: Slot, c: int)
    requires Shaped(ix, H) && s !in ix.rings && InTrie(s) && s.pos >= 2
    requires Field(m', c, PARENT) == ParentWord(ix, s)
    requires Field(m', c, CHILD) == NULL && Field(m', c, CHILD + 1) == NULL
    ensures NodeLinks(m', Added(ix, s, [c], c), s)
  {
    NodeHeads(ix, s, c);
    assert Up(Down(s, 0)) == s == Up(Down(s, 1));
    assert Down(s, 0) !in ix.rings && Down(s, 1) !in ix.rings;
  }

  lemma OldNodeLinks(m: seq<int>, m': seq<int>, ix: Index, H: Heap, s: Slot, c: int, t: Slot)
    requires Shaped(ix, H) && TrieLinks(m, ix) && Carved(m, H) && s !in ix.rings && s.pos >= 2
    requires t in ix.rings && InTrie(t) && c !in ix.slot
    requires OnlyHung(m, m', H, c, ParentOf(ix, s), CHILD + s.pos % 2)
    requires s.pos != RootPos(s.bin) ==> Field(m', Head(ix, Up(s)), CHILD + s.pos % 2) == c
    ensures NodeLinks(m', Added(ix, s, [c], c), t)
  {
    var ix' := Added(ix, s, [c], c);
    var h := Head(ix, t);
    NodeHeads(ix, s, c);
    assert NodeLinks(m, ix, t);
    HeadNull(ix, H, m, t);
    TrieChunkIsLarge(ix, H, h);
    assert Up(t) in ix.rings || t.pos == RootPos(t.bin);
    assert ParentWord(ix', t) == ParentWord(ix, t);
    HangsFrom(ix, H, m, s, t, 0);
    HangsFrom(ix, H, m, s, t, 1);
    assert Field(m', h, PARENT) == Field(m, h, PARENT);
  }

  /** Slot s hangs below slot t exactly when its parent chunk is t's head. */
  lemma HangsFrom(ix: Index, H: Heap, m: seq<int>, s: Slot, t: Slot, bit: nat)
    requires Shaped(ix, H) && Carved(m, H) && t in ix.rings && InTrie(t) && bit <= 1 && s.pos >= 2
    ensures Down(t, bit) == s ==> s.pos != RootPos(s.bin)
    ensures Down(t, bit) == s <==> (ParentOf(ix, s) == Head(ix, t) && s.pos % 2 == bit)
  {
    HeadNull(ix, H, m, t);
    HeadNull(ix, H, m, Up(s));
    assert 2 <= t.pos by { var u := Up(t); }
    assert Down(t, bit) == s <==> Up(s) == t && s.pos % 2 == bit;
  }

  lemma NodeTags(m: seq<int>, m': seq<int>, ix: Index, H: Heap, s: Slot, c: int)
    requires Shaped(ix, H) && TrieTags(m, ix) && Carved(m, H) && s !in ix.rings && c !in ix.slot
    requires OnlyHung(m, m', H, c, ParentOf(ix, s), CHILD + s.pos % 2)
    requires Field(m', c, TAG) == Tag(s.bin, ShiftAt(s))
    ensures TrieTags(m', Added(ix, s, [c], c))
  {
    NodeHeads(ix, s, c);
    forall a | a in ix.slot && InTrie(ix.slot[a])
      ensures Field(m', a, TAG) == Field(m, a, TAG) && Field(m', a, PARENT) == Field(m, a, PARENT)
    {
      TrieChunkIsLarge(ix, H, a);
    }
  }

  lemma HeadsDiffer(ix: Index, H: Heap, m: seq<int>, t: Slot, v: Slot)
    requires Shaped(ix, H) && Carved(m, H) && t in ix.rings
    ensures Head(ix, t) == Head(ix, v) <==> t == v
  {
    HeadNull(ix, H, m, t);
    HeadNull(ix, H, m, v);
  }

  lemma IsDown(ix: Index, s: Slot, t: Slot)
    requires Rooted(ix) && s in ix.rings && InTrie(s)
    ensures t == Down(s, 0) || t == Down(s, 1) <==> Up(t) == s && t.pos != RootPos(t.bin)
  {
    var u := Up(s);
    assert t == Down(Up(t), t.pos % 2);
  }
}
