/** The bins of allocator.c: circular lists in bins 2 to 31, pointer tries in bins 32
    to 63, all threaded through the free chunks of the arena. */
module FreeIndex {
  import opened Bits
  import opened Layout
  import opened Rings
  import opened Tiling
  import opened Fields
  import opened IndexModel
  import opened IndexChanges
  import opened TrieChanges
  import opened TrieRemoval
  import opened TrieSearch

  class FreeIndex {
    const mem: array<int>
    const bins: array<int>
    ghost var ix: Index

    /** Empty bins over the words of an arena. */
    constructor (mem: array<int>)
      ensures this.mem == mem && bins.Length == NUM_OF_BINS && fresh(bins)
      ensures B() == seq(NUM_OF_BINS, _ => NULL) && ix == Index(map[], map[])
    {
      this.mem := mem;
      bins := new int[NUM_OF_BINS](_ => NULL);
      ix := Index(map[], map[]);
    }

    ghost function M(): seq<int>
      reads mem
    {
      mem[..]
    }

    ghost function B(): seq<int>
      reads bins
    {
      bins[..]
    }

    /** The bins and the link words are exactly what the abstract index says. */
    ghost predicate Ok(H: Heap)
      reads this, mem, bins
    {
      && mem != bins
      && Carved(M(), H)
      && Shaped(ix, H)
      && Wired(M(), B(), ix)
    }

    /** Field j of the chunk at a. */
    function Get(a: int, j: int): (v: int)
      requires 0 <= a + j < mem.Length
      reads mem
      ensures v == Field(M(), a, j)
    {
      mem[a + j]
    }

    /** CHUNK_SIZE, in bytes. */
    function Size(c: int): nat
      requires 0 <= c + CURRENT_SIZE < mem.Length
      reads mem
    {
      8 * SizeWords(Get(c, CURRENT_SIZE))
    }

    method SetField(a: int, j: int, v: int, ghost H: Heap)
      requires mem != bins && Carved(M(), H) && a in H && !H[a].used && IsLink(H[a].size, j)
      modifies mem
      ensures Stored(old(M()), M(), H, a, j, v)
    {
      StoreField(M(), H, a, j, v);
      mem[a + j] := v;
      assert M() == old(M())[a + j := v];
    }

    // ----- circular lists

    /** Put c between chunk h and the chunk before it. */
    method LinkBefore(c: int, h: int, ghost H: Heap, ghost r: seq<int>)
      requires mem != bins && Carved(M(), H) && c in H && !H[c].used
      requires Ring(M(), r) && NoDup(r) && r[0] == h && c !in r
      requires forall x :: x in r ==> x in H && !H[x].used
      modifies mem
      ensures Carved(M(), H) && Quiet(old(M()), M(), H)
      ensures Ring(M(), [c] + r) && Ring(M(), r + [c])
      ensures OnlyCircle(old(M()), M(), H, [c] + r)
    {
      ghost var t := r[|r| - 1];
      assert h in r && t in r;
      assert Field(M(), h, PREV) == Before(r, 0);
      SetField(c, NEXT, h, H);
      SetField(c, PREV, Get(h, PREV), H);
      SetField(Get(c, PREV), NEXT, c, H);
      SetField(h, PREV, c, H);
      RingGrows(old(M()), M(), r, c);
    }

    method InsertInList(n: int, c: int, ghost H: Heap)
      requires Ok(H) && 2 <= n <= 31 && c in H && c !in ix.slot && !H[c].used && BinOf(SizeOf(H, c)) == n
      modifies `ix, mem, bins
      ensures Ok(H) && Quiet(old(M()), M(), H)
      ensures ix == Inserted(old(ix), Slot(n, 0), c)
      ensures B()[..2] == old(B()[..2])
      ensures OnlyCircle(old(M()), M(), H, [c] + Circle(old(ix), Slot(n, 0)))
    {
      ghost var s := Slot(n, 0);
      ghost var r := Circle(ix, s);
      if bins[n] == NULL {
        SetField(c, NEXT, c, H);
        SetField(c, PREV, c, H);
        assert r == [];
      } else {
        LinkBefore(c, bins[n], H, r);
      }
      AddedShaped(ix, H, s, [c] + r, c);
      bins[n] := c;
      ix := Added(ix, s, [c] + r, c);
      ListAddWired(old(M()), M(), old(B()), B(), old(ix), H, n, c);
    }

    /** Take chunk c, at place k of the longer circle r, out of it. */
    method Unlink(c: int, ghost H: Heap, ghost r: seq<int>, ghost k: int)
      requires mem != bins && Carved(M(), H)
      requires Ring(M(), r) && NoDup(r) && |r| > 1 && 0 <= k < |r| && r[k] == c
      requires forall x :: x in r ==> x in H && !H[x].used
      modifies mem
      ensures Carved(M(), H) && Quiet(old(M()), M(), H)
      ensures Ring(M(), Without(r, k)) && Field(M(), c, NEXT) == After(r, k)
      ensures OnlyCircle(old(M()), M(), H, r)
    {
      assert c in r && After(r, k) in r && Before(r, k) in r;
      assert Field(M(), c, NEXT) == After(r, k) && Field(M(), c, PREV) == Before(r, k);
      SetField(Get(c, NEXT), PREV, Get(c, PREV), H);
      SetField(Get(c, PREV), NEXT, Get(c, NEXT), H);
      RingShrinks(old(M()), M(), r, k);
    }

    method RemoveFromLonger(n: nat, c: int, ghost H: Heap, ghost r: seq<int>, ghost k: int)
      requires mem != bins && Carved(M(), H)
      requires Ring(M(), r) && NoDup(r) && |r| > 1 && 0 <= k < |r| && r[k] == c
      requires forall x :: x in r ==> x in H && !H[x].used
      requires n < bins.Length && bins[n] == r[0]
      modifies mem, bins
      ensures Carved(M(), H) && Quiet(old(M()), M(), H)
      ensures Ring(M(), Without(r, k)) && OnlyCircle(old(M()), M(), H, r)
      ensures B() == old(B())[n := Without(r, k)[0]]
    {
      RingAt(M(), r, k);
      assert c in r;
      if bins[n] == c {
        bins[n] := Get(c, NEXT);
      }
      Unlink(c, H, r, k);
      ghost var m := M();
      SetField(c, NEXT, NULL, H);
      SetField(c, PREV, NULL, H);
      NoDupShrinks(r, k);
      RingSame(m, M(), Without(r, k));
    }

    method RemoveFromList(n: nat, c: int, ghost H: Heap)
      requires Ok(H) && c in ix.slot && ix.slot[c] == Slot(n, 0) && n <= 31
      modifies `ix, mem, bins
      ensures Ok(H) && Quiet(old(M()), M(), H)
      ensures TakenOut(old(ix), ix, c) && ix.slot == old(ix.slot) - {c}
      ensures B()[..2] == old(B()[..2])
    {
      ghost var s := Slot(n, 0);
      ghost var r := ix.rings[s];
      ghost var k :| 0 <= k < |r| && r[k] == c;
      MembersFree(ix, H, s);
      RingAt(M(), r, k);
      if c == Get(c, NEXT) && c == Get(c, PREV) {
        bins[n] := NULL;
      } else {
        RemoveFromLonger(n, c, H, r, k);
      }
      RemovedShaped(ix, H, s, k);
      ListRemoveWired(old(M()), M(), old(B()), B(), ix, H, n, k);
      ix := Removed(ix, s, k);
    }

    // ----- tries

    method ClearLinks(c: int, ghost H: Heap)
      requires mem != bins && Carved(M(), H) && c in H && !H[c].used && IsLarge(SizeOf(H, c))
      modifies mem
      ensures Carved(M(), H) && Quiet(old(M()), M(), H) && OnlyChunk(old(M()), M(), H, c)
      ensures Field(M(), c, CHILD) == NULL && Field(M(), c, CHILD + 1) == NULL && Field(M(), c, TAG) == Tag(0, 0)
    {
      SetField(c, NEXT, NULL, H);
      SetField(c, PREV, NULL, H);
      SetField(c, PARENT, NULL, H);
      SetField(c, CHILD, NULL, H);
      SetField(c, CHILD + 1, NULL, H);
      SetField(c, TAG, Tag(0, 0), H);
    }

    /** The stores that make c's words those of a peer of the node `current`. */
    method TagPeer(c: int, current: int, ghost H: Heap)
      requires Ok(H) && c in H && c !in ix.slot && !H[c].used && IsLarge(SizeOf(H, c))
      requires current in ix.slot && InTrie(ix.slot[current]) && Field(M(), c, TAG) == Tag(ix.slot[current].bin, 0)
      modifies mem
      ensures Ok(H) && Quiet(old(M()), M(), H)
      ensures Field(M(), c, PARENT) == NULL
      ensures Field(M(), c, TAG) == Tag(ix.slot[current].bin, ShiftAt(ix.slot[current]))
    {
      hide Members, Rooted, Distinct, BinsPoint, Circles, TrieLinks, TrieTags, ShiftAt, Tag, TagBin, TagShift;
      ghost var s := ix.slot[current];
      TagOf(M(), ix, H, current);
      TagParts(s.bin);
      InMemory(M(), ix, H, current);
      SetField(c, PARENT, NULL, H);
      SetField(c, TAG, Tag(TagBin(Get(c, TAG)), TagShift(Get(current, TAG))), H);
      WiredIgnores(old(M()), M(), B(), ix, H, c);
    }

    /** Make c a peer of the node `current`, at the end of its circle. */
    method InsertPeer(c: int, current: int, ghost H: Heap)
      requires Ok(H) && c in H && c !in ix.slot && !H[c].used && IsLarge(SizeOf(H, c))
      requires current in ix.slot && InTrie(ix.slot[current]) && current == Head(ix, ix.slot[current])
      requires SizeOf(H, current) == SizeOf(H, c) && Field(M(), c, TAG) == Tag(ix.slot[current].bin, 0)
      modifies `ix, mem
      ensures Ok(H) && Quiet(old(M()), M(), H)
      ensures ix == Inserted(old(ix), old(ix.slot)[current], c)
    {
      hide Placed, Rooted, Distinct, BinsPoint, TrieLinks, TrieTags, Fits, ShiftAt;
      ghost var s := ix.slot[current];
      ghost var r := ix.rings[s];
      FitsPeer(ix, H, current, SizeOf(H, c));
      TagPeer(c, current, H);
      ghost var m := M();
      MembersFree(ix, H, s);
      LinkBefore(c, current, H, r);
      PeerWired(m, M(), B(), ix, H, s, c);
      AddedShaped(ix, H, s, r + [c], c);
      ix := Added(ix, s, r + [c], c);
    }

    /** A circle of one. */
    method LinkToSelf(c: int, ghost H: Heap)
      requires mem != bins && Carved(M(), H) && c in H && !H[c].used
      modifies mem
      ensures Carved(M(), H) && Quiet(old(M()), M(), H) && Ring(M(), [c])
      ensures OnlyCircle(old(M()), M(), H, [c])
    {
      SetField(c, NEXT, c, H);
      SetField(c, PREV, c, H);
    }

    /** Set c's parent and shift, and hang it from the parent's child word if any. */
    method HangNode(c: int, parent: int, n: nat, size: nat, ghost H: Heap)
      requires mem != bins && Carved(M(), H) && c in H && !H[c].used && IsLarge(8 * H[c].size)
      requires n < bins.Length && Field(M(), c, TAG) == Tag(n, 0) && n < TWO_TO_THE_32 && size > 0
      requires parent != NO_PARENT_ROOT_NODE ==>
                 parent in H && parent != c && !H[parent].used && IsLarge(8 * H[parent].size)
      modifies mem, bins
      ensures Carved(M(), H) && Quiet(old(M()), M(), H)
      ensures Field(M(), c, PARENT) == parent
      ensures Field(M(), c, CHILD) == old(Field(M(), c, CHILD))
      ensures Field(M(), c, CHILD + 1) == old(Field(M(), c, CHILD + 1))
      ensures if parent == NO_PARENT_ROOT_NODE then
                OnlyChunk(old(M()), M(), H, c) && Field(M(), c, TAG) == Tag(n, Log2(size) - 2)
                && B() == old(B())[n := c]
              else
                var k := TagShift(old(Field(M(), parent, TAG)));
                OnlyHung(old(M()), M(), H, c, parent, CHILD + Bit(size, k)) && Field(M(), c, TAG) == Tag(n, k - 1)
                && Field(M(), parent, CHILD + Bit(size, k)) == c && B() == old(B())
    {
      SetField(c, PARENT, parent, H);
      if parent == NO_PARENT_ROOT_NODE {
        SetField(c, TAG, Tag(TagBin(Get(c, TAG)), Log2(size) - 2), H);
        bins[n] := c;
      } else {
        SetField(parent, CHILD + Bit(size, TagShift(Get(parent, TAG))), c, H);
        SetField(c, TAG, Tag(TagBin(Get(c, TAG)), TagShift(Get(parent, TAG)) - 1), H);
      }
    }

    /** Hang c as a new node at slot s, where the search for its size fell off. */
    method InsertNode(c: int, parent: int, n: nat, size: nat, ghost H: Heap, ghost s: Slot)
      requires Ok(H) && c in H && c !in ix.slot && !H[c].used && IsLarge(size) && size == SizeOf(H, c)
      requires s !in ix.rings && s.bin == n && OnPath(ix, H, s, size) && parent == ParentWord(ix, s)
      requires !IsHuge(size) && Field(M(), c, TAG) == Tag(n, 0)
      requires Field(M(), c, CHILD) == NULL && Field(M(), c, CHILD + 1) == NULL
      modifies `ix, mem, bins
      ensures Ok(H) && Quiet(old(M()), M(), H)
      ensures ix == Inserted(old(ix), s, c)
      ensures B()[..2] == old(B()[..2])
    {
      hide Members, Rooted, Distinct, Circles, TrieLinks, TrieTags, Fits, Inserted, Added;
      PathEnds(ix, H, s, size);
      ParentOnPath(M(), ix, H, s, size);
      HangNode(c, parent, n, size, H);
      LinkToSelf(c, H);
      NodeWired(old(M()), M(), old(B()), B(), ix, H, s, c);
      AddedShaped(ix, H, s, [c], c);
      InsertedNode(ix, s, c);
      ix := Added(ix, s, [c], c);
    }

    /** Clear out old values and record the bin. */
    method PrepareLarge(c: int, n: nat, ghost H: Heap)
      requires Ok(H) && c in H && c !in ix.slot && !H[c].used && IsLarge(SizeOf(H, c))
      modifies mem
      ensures Ok(H) && Quiet(old(M()), M(), H)
      ensures Field(M(), c, CHILD) == NULL && Field(M(), c, CHILD + 1) == NULL && Field(M(), c, TAG) == Tag(n, 0)
    {
      ClearLinks(c, H);
      SetField(c, TAG, Tag(n, TagShift(Get(c, TAG))), H);
      WiredIgnores(old(M()), M(), B(), ix, H, c);
    }

    /** Follow the bits of `size` down its bin's trie: stop at the node of that size, or
        where the path falls off, which happens only if no chunk has that size. */
    method Search(size: nat, ghost H: Heap) returns (current: int, parent: int, ghost s: Slot)
      requires Ok(H) && IsLarge(size) && !IsHuge(size) && size % 8 == 0
      ensures OnPath(ix, H, s, size) && current == Head(ix, s) && parent == ParentWord(ix, s)
      ensures current != NULL ==> current in ix.slot && ix.slot[current] == s && SizeOf(H, current) == size
      ensures current == NULL ==> s !in ix.rings && forall a :: a in ix.slot ==> SizeOf(H, a) != size
    {
      PathStarts(ix, H, size);
      s := RootSlot(BinOf(size));
      NodeAtSlot(M(), ix, H, s);
      parent, current := NO_PARENT_ROOT_NODE, bins[LargeRequestIndex(size)];
      while current != NULL && Size(current) != size
        invariant OnPath(ix, H, s, size) && NodeAt(ix, H, s, current) && parent == ParentWord(ix, s)
        decreases ShiftAt(s)
      {
        ghost var d := Down(s, Bit(size, ShiftAt(s)));
        SearchStep(M(), ix, H, s, size, current, d);
        parent := current;
        current := Get(current, CHILD + Bit(size, TagShift(Get(current, TAG))));
        s := d;
      }
      if current == NULL {
        PathEnds(ix, H, s, size);
      }
    }

    method InsertInTrie(c: int, size: nat, ghost H: Heap) returns (ghost s: Slot)
      requires Ok(H) && c in H && c !in ix.slot && !H[c].used && size == SizeOf(H, c) && IsLarge(size) && !IsHuge(size)
      modifies `ix, mem, bins
      ensures Ok(H) && Quiet(old(M()), M(), H)
      ensures NewSlot(old(ix), H, size, s) && ix == Inserted(old(ix), s, c)
      ensures B()[..2] == old(B()[..2])
    {
      hide Members, Placed, Rooted, Distinct, Wired, Inserted;
      var n := LargeRequestIndex(size);
      PrepareLarge(c, n, H);
      var current, parent;
      current, parent, s := Search(size, H);
      if current != NULL {
        InsertPeer(c, current, H);
      } else {
        InsertNode(c, parent, n, size, H, s);
      }
    }

    /** Put large chunk c into its trie or the huge bin; s is the slot it gets. In the huge bin
        its parent word stays what it was. */
    method InsertLargeChunk(c: int, ghost H: Heap) returns (ghost s: Slot)
      requires Ok(H) && c in H && c !in ix.slot && !H[c].used && IsLarge(SizeOf(H, c))
      modifies `ix, mem, bins
      ensures Ok(H) && Quiet(old(M()), M(), H)
      ensures NewSlot(old(ix), H, SizeOf(H, c), s) && ix == Inserted(old(ix), s, c)
      ensures B()[..2] == old(B()[..2])
      ensures IsHuge(SizeOf(H, c)) ==> Field(M(), c, PARENT) == old(Field(M(), c, PARENT))
    {
      hide Members, Placed, Rooted, Distinct, Wired, Inserted, OnPath;
      var size := Size(c);
      if IsHuge(size) {
        InsertInList(2, c, H);
        s := Slot(2, 0);
      } else {
        s := InsertInTrie(c, size, H);
      }
    }

    /** Put free chunk c where its size belongs. */
    method InsertChunk(c: int, ghost H: Heap)
      requires Ok(H) && c in H && c !in ix.slot && !H[c].used
      modifies `ix, mem, bins
      ensures Ok(H) && Quiet(old(M()), M(), H)
      ensures Indexed(old(ix), ix, H, c) && ix.slot.Keys == old(ix.slot.Keys) + {c}
      ensures B()[..2] == old(B()[..2])
    {
      hide Members, Placed, Rooted, Distinct, Wired, OnPath;
      ghost var s;
      if IsLarge(Size(c)) {
        s := InsertLargeChunk(c, H);
      } else {
        BinInRange(Size(c));
        InsertInList(SmallRequestIndex(Size(c)), c, H);
        s := Slot(SmallRequestIndex(Size(c)), 0);
      }
      assert NewSlot(old(ix), H, SizeOf(H, c), s);
    }

    /** Let `child` (or NULL) hang where c hangs: from the child word of c's parent that
        points to c, or from c's bin. */
    method LinkChunkWithParent(c: int, child: int, ghost H: Heap, ghost bit: nat)
      requires mem != bins && bins.Length == NUM_OF_BINS && Carved(M(), H) && TrieChunk(H, c)
      requires BinOf(SizeOf(H, c)) < NUM_OF_BINS && !IsHuge(SizeOf(H, c)) && child != c
      requires child != NULL ==> TrieChunk(H, child) && child != Field(M(), c, PARENT)
      requires var p := Field(M(), c, PARENT);
               p != NO_PARENT_ROOT_NODE ==>
                 TrieChunk(H, p) && p != c && bit <= 1
                 && Field(M(), p, CHILD + bit) == c && (bit == 1 ==> Field(M(), p, CHILD) != c)
      modifies mem, bins
      ensures Carved(M(), H) && Quiet(old(M()), M(), H)
      ensures Relinked(old(M()), M(), old(B()), B(), H, c, child, old(Field(M(), c, PARENT)), BinOf(SizeOf(H, c)), bit)
    {
      BinInRange(SizeOf(H, c));
      var p := Get(c, PARENT);
      if p == NO_PARENT_ROOT_NODE {
        bins[LargeRequestIndex(Size(c))] := child;
      } else if Get(p, CHILD) == c {
        SetField(p, CHILD, child, H);
      } else if Get(p, CHILD + 1) == c {
        SetField(p, CHILD + 1, child, H);
      }
      if child != NULL {
        SetField(child, PARENT, Get(c, PARENT), H);
      }
      SetField(c, PARENT, NULL, H);
    }

    /** h takes over c's children. */
    method LinkChildrenWithParent(c: int, h: int, ghost H: Heap)
      requires mem != bins && Carved(M(), H) && TrieChunk(H, c) && TrieChunk(H, h) && h != c
      requires IsKid(H, Field(M(), c, CHILD), c, h) && IsKid(H, Field(M(), c, CHILD + 1), c, h)
      modifies mem
      ensures Carved(M(), H) && Quiet(old(M()), M(), H)
      ensures Childed(old(M()), M(), H, c, h)
    {
      SetField(h, CHILD, Get(c, CHILD), H);
      SetField(h, CHILD + 1, Get(c, CHILD + 1), H);
      if Get(h, CHILD) != NULL {
        SetField(Get(h, CHILD), PARENT, h, H);
      }
      if Get(h, CHILD + 1) != NULL {
        SetField(Get(h, CHILD + 1), PARENT, h, H);
      }
    }

    /** Put the circle r, headed by h, where the node c is. */
    method ReplaceNode(c: int, h: int, ghost H: Heap, ghost s: Slot, ghost r: seq<int>, ghost size: nat)
      requires mem != bins && Waiting(M(), B(), ix, H, s, c, r, size) && h == r[0]
      modifies mem, bins
      ensures Carved(M(), H) && Quiet(old(M()), M(), H)
      ensures Wired(M(), B(), Replaced(ix, s, r)) && B()[..2] == old(B()[..2])
    {
      hide Shaped, TrieLinks, TrieTags, CirclesBut, Wired;
      assert h in r;
      KidsAround(M(), ix, H, s, c, h, 0);
      KidsAround(M(), ix, H, s, c, h, 1);
      ParentAround(M(), ix, H, s, c, h);
      LinkChildrenWithParent(c, h, H);
      ghost var m := M();
      ReadyToRelink(old(M()), m, ix, H, s, c, h);
      LinkChunkWithParent(c, h, H, s.pos % 2);
      HandoverWired(old(M()), m, M(), old(B()), B(), ix, H, s, c, r, size);
    }

    /** The circle r, headed by h, takes over slot s from its node c. */
    method Promote(c: int, h: int, ghost H: Heap, ghost s: Slot, ghost r: seq<int>, ghost size: nat)
      requires mem != bins && Waiting(M(), B(), ix, H, s, c, r, size) && h == r[0]
      modifies `ix, mem, bins
      ensures Ok(H) && Quiet(old(M()), M(), H)
      ensures ix == Replaced(old(ix), s, r)
      ensures B()[..2] == old(B()[..2])
    {
      ReplacedShaped(ix, H, s, r, size);
      ReplaceNode(c, h, H, s, r, size);
      ix := Replaced(ix, s, r);
    }

    /** Take c out of a longer circle; if it is the node itself, the next chunk becomes
        the node. */
    method RemovePeer(c: int, ghost H: Heap, ghost s: Slot, ghost k: int)
      requires Ok(H) && c in ix.slot && ix.slot[c] == s && InTrie(s)
      requires |ix.rings[s]| > 1 && 0 <= k < |ix.rings[s]| && ix.rings[s][k] == c
      modifies `ix, mem, bins
      ensures Ok(H) && Quiet(old(M()), M(), H)
      ensures TakenOut(old(ix), ix, c) && ix.slot.Keys == old(ix.slot.Keys) - {c}
      ensures B()[..2] == old(B()[..2])
    {
      ghost var r := ix.rings[s];
      ReadyToUnlink(M(), ix, H, s, c, k);
      var h := Get(c, NEXT);
      Unlink(c, H, r, k);
      ghost var m := M();
      if Get(c, PARENT) != NULL {
        PeersWait(old(M()), m, B(), ix, H, s, c);
        HeadGone(ix, s);
        Promote(c, h, H, s, Without(r, 0), SizeOf(H, c));
      } else {
        PeerGone(old(M()), m, B(), ix, H, s, k);
        RemovedShaped(ix, H, s, k);
        ix := Removed(ix, s, k);
      }
    }

    /** From the node in slot t down to a leaf, trying child `first` before the other. */
    method WalkToLeaf(c: int, first: nat, ghost H: Heap, ghost t: Slot, ghost s: Slot)
      returns (leaf: int, ghost q: Slot)
      requires Ok(H) && t in ix.rings && InTrie(t) && c == Head(ix, t) && Below(t, s) && s.pos >= 2 && first <= 1
      ensures q in ix.rings && InTrie(q) && leaf == Head(ix, q) && Below(q, s) && IsLeaf(ix, q)
      ensures Prefers(ix, t, q, first)
    {
      hide Prefers, Below;
      leaf, q := c, t;
      ViewNode(M(), ix, H, q);
      PrefersStarts(ix, t, first);
      while Get(leaf, CHILD) != NULL || Get(leaf, CHILD + 1) != NULL
        invariant View(M(), ix, H, q, leaf) && Below(q, s) && Prefers(ix, t, q, first)
        decreases ShiftAt(q)
      {
        var bit := if Get(leaf, CHILD + first) != NULL then first else 1 - first;
        PrefersDown(ix, t, q, first, bit);
        StepDown(M(), ix, H, q, s, leaf, bit);
        leaf := Get(leaf, CHILD + bit);
        q := Down(q, bit);
      }
    }

    /** Cut the leaf in slot q from its parent; its circle is then on its own. */
    method CutLeaf(h: int, ghost H: Heap, ghost q: Slot)
      requires Ok(H) && q in ix.rings && InTrie(q) && h == Head(ix, q) && IsLeaf(ix, q)
      modifies `ix, mem, bins
      ensures Ok(H) && Quiet(old(M()), M(), H) && ix == Detached(old(ix), q)
      ensures q.pos != RootPos(q.bin) ==> Loose(M(), H, old(ix).rings[q], Tag(q.bin, ShiftAt(q)))
      ensures B()[..2] == old(B()[..2])
    {
      ParentAround(M(), ix, H, q, h, h);
      LooseCircle(M(), ix, H, q);
      LinkChunkWithParent(h, NULL, H, q.pos % 2);
      DetachedShaped(ix, H, q);
      DetachedWired(old(M()), M(), old(B()), B(), ix, H, q, h);
      if q.pos != RootPos(q.bin) {
        LooseAfterCut(old(M()), M(), H, ix.rings[q], Tag(q.bin, ShiftAt(q)), ParentOf(ix, q), CHILD + q.pos % 2);
      }
      ix := Detached(ix, q);
    }

    /** The successor of the node c, cut off with its circle, or NULL when c is a leaf. */
    method FindReplacement(c: int, ghost H: Heap, ghost s: Slot) returns (h: int, ghost q: Slot)
      requires Ok(H) && s in ix.rings && InTrie(s) && c == Head(ix, s)
      modifies `ix, mem, bins
      ensures Ok(H) && Quiet(old(M()), M(), H) && B()[..2] == old(B()[..2])
      ensures h == NULL ==> IsLeaf(ix, s) && ix == old(ix)
      ensures h != NULL ==> q in old(ix).rings && InTrie(q) && h == Head(old(ix), q) && Below(q, s)
      ensures h != NULL ==> Successor(old(ix), s, q) && !IsLeaf(old(ix), s)
      ensures h != NULL ==> IsLeaf(old(ix), q) && ix == Detached(old(ix), q)
      ensures h != NULL ==> Loose(M(), H, old(ix).rings[q], Tag(q.bin, ShiftAt(q)))
    {
      ghost var u := Up(s);
      q := s;
      ViewNode(M(), ix, H, s);
      h := Get(c, CHILD);
      if h != NULL {
        StepBelow(s, s, 0);
        h, q := WalkToLeaf(h, 1, H, Down(s, 0), s);
      } else {
        h := Get(c, CHILD + 1);
        if h != NULL {
          StepBelow(s, s, 1);
          h, q := WalkToLeaf(h, 0, H, Down(s, 1), s);
        }
      }
      if h != NULL {
        ShiftBelowRoot(ix, s);
        ShiftBelowRoot(ix, q);
        CutLeaf(h, H, q);
      }
    }

    /** Change the shift of a trie chunk of bin n. */
    method SetShift(c: int, k: nat, ghost H: Heap, ghost n: nat)
      requires mem != bins && Carved(M(), H) && TrieChunk(H, c) && n < TWO_TO_THE_32
      requires exists k0: nat :: Field(M(), c, TAG) == Tag(n, k0)
      modifies mem
      ensures Carved(M(), H) && Quiet(old(M()), M(), H) && Field(M(), c, TAG) == Tag(n, k)
      ensures forall x, j {:trigger Field(M(), x, j)} :: x in H && IsLink(H[x].size, j) && (x != c || j != TAG) ==>
                Field(M(), x, j) == Field(old(M()), x, j)
    {
      SetField(c, TAG, Tag(TagBin(Get(c, TAG)), k), H);
    }

    /** Give every chunk of the circle at h the shift k. */
    method SetShifts(h: int, k: nat, ghost H: Heap, ghost r: seq<int>, ghost n: nat, ghost k0: nat)
      requires mem != bins && Carved(M(), H) && Loose(M(), H, r, Tag(n, k0)) && h == r[0] && n < TWO_TO_THE_32
      modifies mem
      ensures Carved(M(), H) && Quiet(old(M()), M(), H)
      ensures Loose(M(), H, r, Tag(n, k)) && OnlyTags(old(M()), M(), H, r)
    {
      LooseAt(M(), H, r, Tag(n, k0));
      RingAt(M(), r, 0);
      SetShift(h, k, H, n);
      var current := Get(h, NEXT);
      ghost var i := 1;
      while current != h
        invariant 1 <= i <= |r| && current == if i < |r| then r[i] else h
        invariant Carved(M(), H) && Quiet(old(M()), M(), H) && Retagging(old(M()), M(), H, r, Tag(n, k), i)
        decreases |r| - i
      {
        RingAt(old(M()), r, i);
        SetShift(current, k, H, n);
        current := Get(current, NEXT);
        i := i + 1;
      }
      Retagged(old(M()), M(), H, r, Tag(n, k0), Tag(n, k));
    }

    /** Give the loose circle at h the shift and the parent of the node c. */
    method PrepareReplacement(c: int, h: int, ghost H: Heap, ghost r: seq<int>, ghost s: Slot, ghost k0: nat)
      requires mem != bins && Carved(M(), H) && Loose(M(), H, r, Tag(s.bin, k0)) && h == r[0] && s.bin < TWO_TO_THE_32
      requires TrieChunk(H, c) && c !in r && TagShift(Field(M(), c, TAG)) == ShiftAt(s)
      modifies mem
      ensures Carved(M(), H) && Quiet(old(M()), M(), H) && Loose(M(), H, r, Tag(s.bin, ShiftAt(s)))
      ensures forall x, k {:trigger Field(M(), x, k)} ::
                (x in H && IsLink(H[x].size, k) && !(k >= PARENT && x in r)) ==>
                  Field(M(), x, k) == Field(old(M()), x, k)
    {
      SetShifts(h, TagShift(Get(c, TAG)), H, r, s.bin, k0);
      ghost var m := M();
      assert h in r;
      SetField(h, PARENT, Get(c, PARENT), H);
      RingSame(m, M(), r);
    }

    /** Take out a node without peers: a leaf from below takes its place, if there is one. */
    method RemoveSingle(c: int, ghost H: Heap, ghost s: Slot)
      requires Ok(H) && s in ix.rings && InTrie(s) && ix.rings[s] == [c]
      modifies `ix, mem, bins
      ensures Ok(H) && Quiet(old(M()), M(), H)
      ensures TakenOut(old(ix), ix, c) && ix.slot.Keys == old(ix.slot.Keys) - {c}
      ensures B()[..2] == old(B()[..2])
    {
      ghost var ix0 := ix;
      AloneKeys(ix, s, c);
      var h, q := FindReplacement(c, H, s);
      if h == NULL {
        CutLeaf(c, H, s);
      } else {
        ghost var m := M();
        ghost var r := ix0.rings[q];
        ReplacementApart(old(M()), m, ix0, H, q, s, c);
        PrepareReplacement(c, h, H, r, s, ShiftAt(q));
        LeafWaits(m, B(), ix0, H, q, s, c, M());
        PromotedKeys(ix0, q, s, c);
        Promote(c, h, H, s, r, SizeOf(H, Head(ix0, q)));
      }
    }

    method UnlinkLarge(c: int, ghost H: Heap)
      requires Ok(H) && c in ix.slot && InTrie(ix.slot[c])
      modifies `ix, mem, bins
      ensures Ok(H) && Quiet(old(M()), M(), H)
      ensures TakenOut(old(ix), ix, c) && ix.slot.Keys == old(ix.slot.Keys) - {c}
      ensures B()[..2] == old(B()[..2])
    {
      ghost var s := ix.slot[c];
      ghost var r := ix.rings[s];
      ghost var k :| 0 <= k < |r| && r[k] == c;
      RingAt(M(), r, k);
      TrieChunkIsLarge(ix, H, c);
      if c == Get(c, NEXT) && c == Get(c, PREV) {
        assert r == [c];
        RemoveSingle(c, H, s);
      } else {
        RemovePeer(c, H, s, k);
      }
    }

    method RemoveLargeChunk(c: int, ghost H: Heap)
      requires Ok(H) && c in ix.slot && IsLarge(SizeOf(H, c))
      modifies `ix, mem, bins
      ensures Ok(H) && Quiet(old(M()), M(), H)
      ensures TakenOut(old(ix), ix, c) && ix.slot.Keys == old(ix.slot.Keys) - {c}
      ensures B()[..2] == old(B()[..2])
    {
      BinInRange(SizeOf(H, c));
      if IsHuge(Size(c)) {
        RemoveFromList(2, c, H);
      } else {
        UnlinkLarge(c, H);
        ghost var m := M();
        ClearLinks(c, H);
        WiredIgnores(m, M(), B(), ix, H, c);
      }
    }

    /** Take free chunk c out of the bin of its size. */
    method RemoveChunk(c: int, ghost H: Heap)
      requires Ok(H) && c in ix.slot
      modifies `ix, mem, bins
      ensures Ok(H) && Quiet(old(M()), M(), H)
      ensures TakenOut(old(ix), ix, c) && ix.slot.Keys == old(ix.slot.Keys) - {c}
      ensures B()[..2] == old(B()[..2])
    {
      BinInRange(SizeOf(H, c));
      if IsLarge(Size(c)) {
        RemoveLargeChunk(c, H);
      } else {
        RemoveFromList(SmallRequestIndex(Size(c)), c, H);
      }
    }

    // ----- searches

    /** The smallest chunk of a trie: it lies on the way down along first children. */
    method FindSmallest(n: nat, ghost H: Heap) returns (best: int)
      requires Ok(H) && 32 <= n <= 63 && bins[n] != NULL
      ensures IsNode(ix, best) && ix.slot[best].bin == n
      ensures forall a {:trigger ix.slot[a]} :: a in ix.slot && ix.slot[a].bin == n ==> SizeOf(H, a) >= SizeOf(H, best)
    {
      ghost var q := RootSlot(n);
      var current := bins[n];
      best := bins[n];
      HeadNull(ix, H, M(), q);
      ViewNode(M(), ix, H, q);
      var bestSize := Size(best);
      SmallestStarts(ix, H, n, bestSize, bestSize);
      while current != NULL
        invariant IsNode(ix, best) && ix.slot[best].bin == n && bestSize == SizeOf(H, best)
        invariant current != NULL ==> q.bin == n && View(M(), ix, H, q, current)
        invariant current != NULL ==> current in ix.slot && ix.slot[current] == q
        invariant current != NULL ==> SmallestSoFar(ix, H, q, SizeOf(H, current), bestSize)
        invariant current == NULL ==>
                    forall a {:trigger ix.slot[a]} :: a in ix.slot && ix.slot[a].bin == n ==> SizeOf(H, a) >= bestSize
        decreases if current == NULL then 0 else 1, ShiftAt(q)
      {
        if Size(current) < bestSize {
          best, bestSize := current, Size(current);
        }
        ghost var bit := if Get(current, CHILD) != NULL then 0 else 1;
        if Down(q, bit) in ix.rings {
          SmallestStep(ix, H, q, current, bestSize, bit);
          SmallestGoesDown(ix, H, q, bit);
          ViewNode(M(), ix, H, Down(q, bit));
        } else {
          SmallestEnds(ix, H, q, current, bestSize);
        }
        current := if Get(current, CHILD) != NULL then Get(current, CHILD) else Get(current, CHILD + 1);
        q := Down(q, bit);
      }
    }

    /** Compare the node `current`, and its right child when the request goes left, with
        the best candidate so far. */
    method Consider(current: int, decision: nat, best0: int, bestSize0: nat, request: nat, ghost H: Heap, ghost q: Slot)
      returns (best: int, bestSize: nat)
      requires Ok(H) && FitView(M(), ix, H, q, current, request) && decision == Bit(request, ShiftAt(q))
      requires IsLarge(request) && !IsHuge(request) && request % 8 == 0 && q.bin == BinOf(request)
      requires SizeOf(H, current) != request && Candidate(ix, H, q.bin, request, best0, bestSize0)
      ensures Candidate(ix, H, q.bin, request, best, bestSize)
      ensures best0 != NULL ==> best != NULL
      ensures best == NULL ==> SizeOf(H, current) < request && (decision == 0 ==> Down(q, 1) !in ix.rings)
      ensures Compared(ix, H, q, current, request, decision == 0, best0, bestSize0, best, bestSize)
    {
      best, bestSize := best0, bestSize0;
      TwiceTheRequest(ix, H, current, request);
      if Size(current) < bestSize && Size(current) > request {
        bestSize := Size(current);
        best := current;
      }
      if decision == 0 && Get(current, CHILD + 1) != NULL {
        RightCandidate(M(), ix, H, q, current, request);
        TwiceTheRequest(ix, H, Get(current, CHILD + 1), request);
        if Size(Get(current, CHILD + 1)) < bestSize {
          bestSize := Size(Get(current, CHILD + 1));
          best := Get(current, CHILD + 1);
        }
      }
    }

    /** The search of the request's own bin, along the bits of the request. It does not
        always find the smallest chunk that fits, but it finds one whenever there is one,
        and one of exactly the requested size whenever there is one. */
    method FindInBin(request: nat, ghost H: Heap) returns (best: int)
      requires Ok(H) && IsLarge(request) && !IsHuge(request) && request % 8 == 0
      ensures best != NULL ==> best in ix.slot && ix.slot[best].bin == BinOf(request) && SizeOf(H, best) >= request
      ensures forall a {:trigger ix.slot[a]} ::
                a in ix.slot && ix.slot[a].bin == BinOf(request) && SizeOf(H, a) >= request ==>
                best != NULL && (SizeOf(H, a) == request ==> SizeOf(H, best) == request)
      ensures SmallestLooked(ix, H, request, best)
    {
      hide Members, Placed, Rooted, Distinct, Circles, TrieLinks, TrieTags, BestSoFar, Compared, SmallestLooked,
           FitBelow;
      BestStarts(ix, H, request, 2 * request);
      FitPlaceStarts(M(), ix, H, request);
      FitStarts(ix, H, BinOf(request), request);
      ghost var q := RootSlot(BinOf(request));
      var n := LargeRequestIndex(request);
      best := NULL;
      var bestSize := 2 * request;
      var current := bins[n];
      while current != NULL
        invariant q.bin == n && FitPlace(ix, q, current, request)
        invariant Candidate(ix, H, n, request, best, bestSize) && FitBelow(ix, H, q, request, best != NULL)
        invariant OnRequestPath(q, request) && BestSoFar(ix, H, q, request, best, bestSize)
        decreases ShiftAt(q)
      {
        FitViewNode(M(), ix, H, q, request);
        var decision := Bit(request, TagShift(Get(current, TAG)));
        if Size(current) == request {
          best := current;
          ExactHit(ix, H, q, request, best);
          return;
        }
        ghost var best0, bestSize0 := best, bestSize;
        best, bestSize := Consider(current, decision, best, bestSize, request, H, q);
        FitKeeps(ix, H, q, current, request, best0, best, decision);
        FitPlaceStep(M(), ix, H, q, current, request, decision, Down(q, decision));
        BestStep(ix, H, q, current, request, best0, bestSize0, best, bestSize, Down(q, decision), decision);
        current := Get(current, CHILD + decision);
        q := Down(q, decision);
      }
      FitEnds(ix, H, q, request, best != NULL);
      BestEnds(ix, H, q, request, best, bestSize);
    }

    /** The smallest chunk of the first non-empty trie among the next LARGE_BIN_SEARCH_MAX
        bins above n. */
    method NextBin(n: nat, ghost H: Heap) returns (best: int)
      requires Ok(H) && 31 <= n <= 63
      ensures SmallestAbove(ix, H, n, best)
    {
      var k, cutoff := n, 0;
      while k < 63 && cutoff < LARGE_BIN_SEARCH_MAX
        invariant n <= k <= 63 && k == n + cutoff && cutoff <= LARGE_BIN_SEARCH_MAX
        invariant forall a {:trigger ix.slot[a]} :: a in ix.slot ==> !(n < ix.slot[a].bin <= k)
      {
        k := k + 1;
        cutoff := cutoff + 1;
        HeadNull(ix, H, M(), RootSlot(k));
        if bins[k] != NULL {
          best := FindSmallest(k, H);
          return;
        }
        EmptyBin(ix, H, k);
      }
      best := NULL;
    }

    /** The second loop of find_best_chunk, which lets its bin number reach 64: `over` says
        that it reads that entry, past the end of the bins. The word there is not the
        allocator's; the search goes on as if it were NULL. */
    method NextBinUpTo64(n: nat, ghost H: Heap) returns (best: int, over: bool)
      requires Ok(H) && 32 <= n <= 63
      ensures SmallestAbove(ix, H, n, best)
      ensures over <==> ReachesPastBins(ix, n)
    {
      var k, cutoff := n, 0;
      over := false;
      while k < NUM_OF_BINS && cutoff < LARGE_BIN_SEARCH_MAX
        invariant n <= k <= NUM_OF_BINS && k == n + cutoff && cutoff <= LARGE_BIN_SEARCH_MAX
        invariant over <==> k == NUM_OF_BINS
        invariant forall a {:trigger ix.slot[a]} :: a in ix.slot ==> !(n < ix.slot[a].bin <= k)
      {
        k := k + 1;
        cutoff := cutoff + 1;
        if k == NUM_OF_BINS {
          over := true;
        } else {
          HeadNull(ix, H, M(), RootSlot(k));
          if bins[k] != NULL {
            best := FindSmallest(k, H);
            return;
          }
          EmptyBin(ix, H, k);
        }
      }
      best := NULL;
    }

    /** A chunk for a large request: from its own bin if any chunk there fits, otherwise the
        smallest of the first non-empty bin above. */
    method FindBestChunk(request: nat, ghost H: Heap) returns (best: int, over: bool)
      requires Ok(H) && IsLarge(request) && !IsHuge(request) && request % 8 == 0
      ensures best != NULL ==> best in ix.slot && InTrie(ix.slot[best]) && SizeOf(H, best) >= request
      ensures BestFor(ix, H, request, best)
      ensures over <==> ReadsPastBins(ix, H, request)
    {
      hide SmallestLooked;
      RootPrefix(request);
      over := false;
      best := FindInBin(request, H);
      if best == NULL {
        best, over := NextBinUpTo64(LargeRequestIndex(request), H);
        if best != NULL {
          BinMeansLarge(ix, H, best);
          HigherBinFits(request, SizeOf(H, best));
        }
      }
    }

    /** The best fit among the huge chunks. */
    /** What the walk around circle s reads at its i-th chunk. */
    lemma OnCircle(H: Heap, s: Slot, i: int)
      requires Ok(H) && s in ix.rings && 0 <= i < |ix.rings[s]|
      ensures var c := ix.rings[s][i];
              && c in ix.slot && ix.slot[c] == s && c != NULL
              && 0 <= c < c + NEXT < mem.Length && Size(c) == SizeOf(H, c) && Get(c, NEXT) == After(ix.rings[s], i)
      ensures After(ix.rings[s], i) == ix.rings[s][0] <==> i == |ix.rings[s]| - 1
    {
      MembersFree(ix, H, s);
      assert ix.rings[s][i] in ix.rings[s];
      RingAt(M(), ix.rings[s], i);
    }

    method FindHuge(request: nat, ghost H: Heap) returns (best: int)
      requires Ok(H)
      ensures BestHuge(ix, H, request, best)
    {
      hide Carved, Shaped, Wired, FirstOfSize;
      ghost var s := Slot(2, 0);
      HugeBin(H);
      var start := bins[2];
      best := NULL;
      if start == NULL {
        NoHuge(H, request);
        return;
      }
      ghost var r := ix.rings[s];
      var current := start;
      ghost var i := 0;
      // The source starts from the largest 64-bit value; `best` says whether one was found.
      var bestSize := 0;
      ghost var b := 0;
      while true
        invariant 0 <= i < |r| && current == r[i]
        invariant best != NULL ==> best in ix.slot && ix.slot[best] == s && SizeOf(H, best) == bestSize >= request
        invariant best != NULL ==> 0 <= b < i && best == r[b] && FirstOfSize(r, H, b)
        invariant forall j {:trigger r[j]} :: 0 <= j < i && SizeOf(H, r[j]) >= request ==>
                    best != NULL && bestSize <= SizeOf(H, r[j])
        decreases |r| - i
      {
        OnCircle(H, s, i);
        if Size(current) >= request && (best == NULL || Size(current) < bestSize) {
          best := current;
          bestSize := Size(current);
          b := i;
          assert FirstOfSize(r, H, b) by { FirstSeen(r, H, b); }
          if bestSize == request {
            break;
          }
        }
        current := Get(current, NEXT);
        i := i + 1;
        if current == start {
          break;
        }
      }
      BestOfList(ix, H, request, best);
      FirstOnCircle(ix, H, request, best, b);
    }

    lemma HugeBin(H: Heap)
      requires Ok(H)
      ensures bins.Length == NUM_OF_BINS && Shaped(ix, H) && bins[2] == Head(ix, Slot(2, 0))
      ensures bins[2] != NULL ==>
                Slot(2, 0) in ix.rings && 0 < |ix.rings[Slot(2, 0)]| && bins[2] == ix.rings[Slot(2, 0)][0]
    {
      HeadNull(ix, H, M(), Slot(2, 0));
    }

    lemma NoHuge(H: Heap, request: nat)
      requires Ok(H) && Head(ix, Slot(2, 0)) == NULL
      ensures BestHuge(ix, H, request, NULL)
    {
      HeadNull(ix, H, M(), Slot(2, 0));
      EmptyList(ix, H, 2);
    }
  }
}
