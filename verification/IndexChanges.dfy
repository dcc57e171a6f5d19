/** How insertions and removals change the abstract free index. */
module IndexChanges {
  import opened Bits
  import opened Layout
  import opened Rings
  import opened Tiling
  import opened Fields
  import opened IndexModel

  /** The circle in slot s, empty when there is none. */
  ghost function Circle(ix: Index, s: Slot): seq<int> {
    if s in ix.rings then ix.rings[s] else []
  }

  /** Slot s now holds circle r, which has c as its one new chunk. */
  ghost function Added(ix: Index, s: Slot, r: seq<int>, c: int): Index {
    Index(ix.rings[s := r], ix.slot[c := s])
  }

  /** r is the circle in slot s with c added at one end. */
  ghost predicate Extends(ix: Index, s: Slot, r: seq<int>, c: int) {
    r == [c] + Circle(ix, s) || r == Circle(ix, s) + [c]
  }

  lemma AddedMembers(ix: Index, s: Slot, r: seq<int>, c: int)
    requires Members(ix) && Extends(ix, s, r, c) && c !in ix.slot
    ensures Members(Added(ix, s, r, c))
  {
    var ix' := Added(ix, s, r, c);
    var q := Circle(ix, s);
    assert forall i :: 0 <= i < |q| ==> q[i] in ix.slot && ix.slot[q[i]] == s;
    assert c !in q;
    NoDupGrows(q, c);
    forall a | a in ix'.slot
      ensures ix'.slot[a] in ix'.rings && a in ix'.rings[ix'.slot[a]]
    {
      if a == c {
        assert r[0] == c || r[|r| - 1] == c;
      } else {
        assert a in ix.rings[ix.slot[a]];
      }
    }
    forall t, i | t in ix'.rings && 0 <= i < |ix'.rings[t]|
      ensures ix'.rings[t][i] in ix'.slot && ix'.slot[ix'.rings[t][i]] == t
    {
      if t != s {
        assert ix.rings[t][i] in ix.slot;
      } else {
        assert r[i] == c || r[i] in q;
      }
    }
  }

  /** The conditions under which slot s is the place for a chunk of this size. */
  ghost predicate Fits(ix: Index, H: Heap, s: Slot, size: nat) {
    && PlacedAt(s, size)
    && (InTrie(s) ==> 2 <= s.pos && (s.pos == RootPos(s.bin) || Up(s) in ix.rings))
    && (InTrie(s) ==> forall a {:trigger ix.slot[a]} :: a in ix.slot && ix.slot[a].bin == s.bin ==>
          (SizeOf(H, a) == size <==> ix.slot[a] == s))
  }

  lemma AddedShaped(ix: Index, H: Heap, s: Slot, r: seq<int>, c: int)
    requires Shaped(ix, H) && Extends(ix, s, r, c) && c !in ix.slot && c in H && !H[c].used
    requires Fits(ix, H, s, SizeOf(H, c))
    ensures Shaped(Added(ix, s, r, c), H)
  {
    AddedMembers(ix, s, r, c);
    var ix' := Added(ix, s, r, c);
    forall t | t in ix'.rings && InTrie(t)
      ensures 2 <= t.pos && (t.pos == RootPos(t.bin) || Up(t) in ix'.rings)
    {
      var u := Up(t);
      if t != s {
        assert u in ix.rings || t.pos == RootPos(t.bin);
      }
    }
  }

  /** Slot s has lost its chunk k; a circle of one disappears. */
  ghost function Removed(ix: Index, s: Slot, k: int): Index
    requires s in ix.rings && 0 <= k < |ix.rings[s]|
  {
    var r := ix.rings[s];
    Index(if |r| == 1 then ix.rings - {s} else ix.rings[s := Without(r, k)], ix.slot - {r[k]})
  }

  lemma RemovedMembers(ix: Index, s: Slot, k: int)
    requires Members(ix) && s in ix.rings && 0 <= k < |ix.rings[s]|
    ensures Members(Removed(ix, s, k))
  {
    var r := ix.rings[s];
    var ix' := Removed(ix, s, k);
    NoDupShrinks(r, k);
    assert r[k] in ix.slot && ix.slot[r[k]] == s;
    forall a | a in ix'.slot
      ensures ix'.slot[a] in ix'.rings && a in ix'.rings[ix'.slot[a]]
    {
      assert a in ix.rings[ix.slot[a]];
    }
    forall t, i | t in ix'.rings && 0 <= i < |ix'.rings[t]|
      ensures ix'.rings[t][i] in ix'.slot && ix'.slot[ix'.rings[t][i]] == t
    {
      if t != s {
        assert ix.rings[t][i] in ix.slot && ix.slot[ix.rings[t][i]] == t;
      } else {
        assert Without(r, k)[i] == r[Skip(k, i)];
        assert Without(r, k)[i] in Without(r, k);
      }
    }
  }

  /** No circle of the same bin hangs below slot s. */
  ghost predicate IsLeaf(ix: Index, s: Slot) {
    Down(s, 0) !in ix.rings && Down(s, 1) !in ix.rings
  }

  lemma RemovedShaped(ix: Index, H: Heap, s: Slot, k: int)
    requires Shaped(ix, H) && s in ix.rings && 0 <= k < |ix.rings[s]|
    requires InTrie(s) && |ix.rings[s]| == 1 ==> IsLeaf(ix, s)
    ensures Shaped(Removed(ix, s, k), H)
  {
    RemovedMembers(ix, s, k);
    var ix' := Removed(ix, s, k);
    forall t | t in ix'.rings && InTrie(t)
      ensures 2 <= t.pos && (t.pos == RootPos(t.bin) || Up(t) in ix'.rings)
    {
      var u := Up(t);
      assert u in ix.rings || t.pos == RootPos(t.bin);
      assert t == Down(u, t.pos % 2);
    }
  }

  // ----- memory effects on circles that are not involved

  /** The next and prev words of chunks outside slot s are as before. */
  ghost predicate OtherCirclesSame(m: seq<int>, m': seq<int>, ix: Index, s: Slot) {
    forall x {:trigger Field(m', x, NEXT)} {:trigger Field(m', x, PREV)} ::
      x in ix.slot && ix.slot[x] != s ==>
        Field(m', x, NEXT) == Field(m, x, NEXT) && Field(m', x, PREV) == Field(m, x, PREV)
  }

  lemma CirclesElsewhere(m: seq<int>, m': seq<int>, ix: Index, s: Slot, t: Slot)
    requires Members(ix) && Circles(m, ix) && OtherCirclesSame(m, m', ix, s)
    requires t in ix.rings && t != s
    ensures Ring(m', ix.rings[t])
  {
    forall x | x in ix.rings[t]
      ensures Field(m', x, NEXT) == Field(m, x, NEXT) && Field(m', x, PREV) == Field(m, x, PREV)
    {
      var i :| 0 <= i < |ix.rings[t]| && ix.rings[t][i] == x;
    }
    RingSame(m, m', ix.rings[t]);
  }

  lemma CirclesWith(m: seq<int>, m': seq<int>, ix: Index, ix': Index, s: Slot)
    requires Members(ix) && Circles(m, ix) && OtherCirclesSame(m, m', ix, s)
    requires s in ix'.rings ==> Ring(m', ix'.rings[s])
    requires forall t :: t in ix'.rings && t != s ==> t in ix.rings && ix'.rings[t] == ix.rings[t]
    ensures Circles(m', ix')
  {
    forall t | t in ix'.rings
      ensures Ring(m', ix'.rings[t])
    {
      if t != s {
        CirclesElsewhere(m, m', ix, s, t);
      }
    }
  }

  /** The trie words (children, parent, tag) of trie chunks outside X are as before. */
  ghost predicate TrieWordsSame(m: seq<int>, m': seq<int>, ix: Index, X: set<int>) {
    forall x, k {:trigger Field(m', x, k)} ::
      x in ix.slot && InTrie(ix.slot[x]) && x !in X && CHILD <= k <= TAG ==> Field(m', x, k) == Field(m, x, k)
  }

  /** A change confined to a list bin leaves the tries wired. */
  lemma TriesUntouched(m: seq<int>, m': seq<int>, ix: Index, ix': Index)
    requires Members(ix) && TrieLinks(m, ix) && TrieTags(m, ix) && TrieWordsSame(m, m', ix, {})
    requires forall t {:trigger t in ix'.rings} :: InTrie(t) ==>
      (t in ix'.rings <==> t in ix.rings) && (t in ix.rings ==> ix'.rings[t] == ix.rings[t])
    requires forall a {:trigger a in ix'.slot} :: a in ix'.slot && InTrie(ix'.slot[a]) ==>
      a in ix.slot && ix.slot[a] == ix'.slot[a]
    ensures TrieLinks(m', ix') && TrieTags(m', ix')
  {
    forall t | InTrie(t)
      ensures Head(ix', t) == Head(ix, t)
    {
      assert t in ix'.rings <==> t in ix.rings;
    }
    forall t | t in ix'.rings && InTrie(t)
      ensures NodeLinks(m', ix', t)
    {
      assert NodeLinks(m, ix, t);
      var h := ix.rings[t][0];
      assert h in ix.slot && ix.slot[h] == t;
      assert Field(m', h, CHILD) == Field(m, h, CHILD);
      assert Field(m', h, CHILD + 1) == Field(m, h, CHILD + 1);
      assert Field(m', h, PARENT) == Field(m, h, PARENT);
    }
    forall a | a in ix'.slot && InTrie(ix'.slot[a])
      ensures Field(m', a, TAG) == Field(m, a, TAG) && Field(m', a, PARENT) == Field(m, a, PARENT)
    {
    }
  }

  /** Adding c at the front of a list bin. */
  lemma ListAddWired(m: seq<int>, m': seq<int>, b: seq<int>, b': seq<int>, ix: Index, H: Heap, n: nat, c: int)
    requires Shaped(ix, H) && Wired(m, b, ix) && 2 <= n <= 31 && c !in ix.slot && c in H
    requires Carved(m, H)
    requires b' == b[n := c]
    requires var r := Circle(ix, Slot(n, 0));
             Ring(m', [c] + r) && OnlyCircle(m, m', H, [c] + r)
    ensures Wired(m', b', Added(ix, Slot(n, 0), [c] + Circle(ix, Slot(n, 0)), c))
  {
    var s := Slot(n, 0);
    var r := Circle(ix, s);
    var ix' := Added(ix, s, [c] + r, c);
    forall x | x in [c] + r
      ensures x in ix.slot ==> ix.slot[x] == s
    {
      if x != c {
        var i :| 0 <= i < |r| && r[i] == x;
      }
    }
    CirclesWith(m, m', ix, ix', s);
    TrieWordsKept(m, m', ix, H, {});
    TriesUntouched(m, m', ix, ix');
    ListBinsPoint(b, b', ix, ix', n);
  }

  /** Taking chunk k out of a list bin; the bin points at the next chunk when it
      pointed at the one removed. */
  lemma ListRemoveWired(m: seq<int>, m': seq<int>, b: seq<int>, b': seq<int>, ix: Index, H: Heap, n: nat, k: int)
    requires Shaped(ix, H) && Wired(m, b, ix) && 2 <= n <= 31 && Carved(m, H)
    requires Slot(n, 0) in ix.rings && 0 <= k < |ix.rings[Slot(n, 0)]|
    requires var r := ix.rings[Slot(n, 0)];
             b' == b[n := if |r| == 1 then NULL else Without(r, k)[0]]
             && (|r| > 1 ==> Ring(m', Without(r, k))) && OnlyCircle(m, m', H, r)
    ensures Wired(m', b', Removed(ix, Slot(n, 0), k))
  {
    var s := Slot(n, 0);
    var r := ix.rings[s];
    var ix' := Removed(ix, s, k);
    forall x | x in r
      ensures x in ix.slot ==> ix.slot[x] == s
    {
      var i :| 0 <= i < |r| && r[i] == x;
    }
    CirclesWith(m, m', ix, ix', s);
    TrieWordsKept(m, m', ix, H, {});
    TriesUntouched(m, m', ix, ix');
    ListBinsPoint(b, b', ix, ix', n);
  }

  lemma ListBinsPoint(b: seq<int>, b': seq<int>, ix: Index, ix': Index, n: nat)
    requires BinsPoint(b, ix) && 2 <= n <= 31 && b' == b[n := Head(ix', Slot(n, 0))]
    requires forall t {:trigger t in ix'.rings} :: t != Slot(n, 0) ==>
      (t in ix'.rings <==> t in ix.rings) && (t in ix.rings ==> ix'.rings[t] == ix.rings[t])
    ensures BinsPoint(b', ix')
  {
    forall t: Slot | t != Slot(n, 0)
      ensures Head(ix', t) == Head(ix, t)
    {
      assert t in ix'.rings <==> t in ix.rings;
    }
  }

  /** Stores to next and prev words never touch the trie words. */
  lemma TrieWordsKept(m: seq<int>, m': seq<int>, ix: Index, H: Heap, X: set<int>)
    requires Carved(m, H) && Placed(ix, H)
    requires forall x, k {:trigger Field(m', x, k)} ::
      x in H && x !in X && IsLink(H[x].size, k) && k >= CHILD ==> Field(m', x, k) == Field(m, x, k)
    ensures TrieWordsSame(m, m', ix, X)
  {
    forall x, k | x in ix.slot && InTrie(ix.slot[x]) && x !in X && CHILD <= k <= TAG
      ensures Field(m', x, k) == Field(m, x, k)
    {
      TrieChunkIsLarge(ix, H, x);
    }
  }

  lemma MembersFree(ix: Index, H: Heap, s: Slot)
    requires Members(ix) && Placed(ix, H) && s in ix.rings
    ensures forall x :: x in ix.rings[s] ==> x in H && !H[x].used && x in ix.slot && ix.slot[x] == s
  {
    forall x | x in ix.rings[s]
      ensures x in ix.slot && ix.slot[x] == s
    {
      var i :| 0 <= i < |ix.rings[s]| && ix.rings[s][i] == x;
    }
  }

  lemma TrieChunkIsLarge(ix: Index, H: Heap, x: int)
    requires Placed(ix, H) && x in ix.slot && InTrie(ix.slot[x]) && 3 <= H[x].size
    ensures x in H && IsLarge(8 * H[x].size) && !IsHuge(8 * H[x].size)
  {
    BinInRange(SizeOf(H, x));
  }

  /** The link words of the indexed chunks are as they were. */
  ghost predicate LinksSame(m: seq<int>, m': seq<int>, ix: Index, H: Heap) {
    forall x, k {:trigger Field(m', x, k)} ::
      x in ix.slot && x in H && IsLink(H[x].size, k) ==> Field(m', x, k) == Field(m, x, k)
  }

  /** The indexed chunks are free chunks of both heaps, with the same sizes. */
  ghost predicate SameMembers(ix: Index, H: Heap, H': Heap) {
    forall a {:trigger a in ix.slot} :: a in ix.slot ==>
      a in H && a in H' && H'[a].size == H[a].size && !H'[a].used
  }

  /** What happens elsewhere in the heap does not matter to the index. */
  lemma IndexKept(m: seq<int>, m': seq<int>, b: seq<int>, b': seq<int>, ix: Index, H: Heap, H': Heap)
    requires Shaped(ix, H) && Wired(m, b, ix) && Carved(m, H) && LinksSame(m, m', ix, H) && SameMembers(ix, H, H')
    requires |b'| == NUM_OF_BINS && forall n {:trigger b'[n]} :: 2 <= n < NUM_OF_BINS ==> b'[n] == b[n]
    ensures Shaped(ix, H') && Wired(m', b', ix)
  {
    forall t | t in ix.rings
      ensures Ring(m', ix.rings[t])
    {
      MembersFree(ix, H, t);
      RingSame(m, m', ix.rings[t]);
    }
    forall x, k | x in ix.slot && InTrie(ix.slot[x]) && CHILD <= k <= TAG
      ensures Field(m', x, k) == Field(m, x, k)
    {
      TrieChunkIsLarge(ix, H, x);
    }
    TriesUntouched(m, m', ix, ix);
    ShapedKept(ix, H, H');
  }

  lemma ShapedKept(ix: Index, H: Heap, H': Heap)
    requires Shaped(ix, H) && SameMembers(ix, H, H')
    ensures Shaped(ix, H')
  {
    forall a | a in ix.slot
      ensures SizeOf(H', a) == SizeOf(H, a)
    {
    }
  }
}
