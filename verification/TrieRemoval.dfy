/** Taking nodes out of a trie and putting circles in their place, on the abstract index
    and on memory. */
module TrieRemoval {
  import opened Bits
  import opened Layout
  import opened Rings
  import opened Tiling
  import opened Fields
  import opened IndexModel
  import opened IndexChanges
  import opened TrieChanges

  // ----- a leaf circle leaves the trie

  ghost function Detached(ix: Index, s: Slot): Index {
    Index(ix.rings - {s}, map a | a in ix.slot && ix.slot[a] != s :: ix.slot[a])
  }

  lemma DetachedShaped(ix: Index, H: Heap, s: Slot)
    requires Shaped(ix, H) && IsLeaf(ix, s)
    ensures Shaped(Detached(ix, s), H)
  {
    var ix' := Detached(ix, s);
    forall t | t in ix'.rings && InTrie(t)
      ensures 2 <= t.pos && (t.pos == RootPos(t.bin) || Up(t) in ix'.rings)
    {
      var u := Up(t);
      assert u in ix.rings || t.pos == RootPos(t.bin);
      assert t == Down(u, t.pos % 2);
    }
    forall t, i | t in ix'.rings && 0 <= i < |ix'.rings[t]|
      ensures ix'.rings[t][i] in ix'.slot && ix'.slot[ix'.rings[t][i]] == t
    {
      assert ix.rings[t][i] in ix.slot;
    }
    forall a | a in ix'.slot
      ensures ix'.slot[a] in ix'.rings && a in ix'.rings[ix'.slot[a]]
    {
    }
  }

  lemma DetachedHeads(ix: Index, s: Slot)
    ensures var ix' := Detached(ix, s);
            forall t {:trigger Head(ix', t)} :: Head(ix', t) == if t == s then NULL else Head(ix, t)
  {
  }

  /** The link to s's head h has been cleared, in its parent's child word or in the bin. */
  lemma DetachedWired(m: seq<int>, m': seq<int>, b: seq<int>, b': seq<int>, ix: Index, H: Heap, s: Slot, h: int)
    requires Shaped(ix, H) && Wired(m, b, ix) && Carved(m, H) && s in ix.rings && InTrie(s) && h == Head(ix, s)
    requires IsLeaf(ix, s) && s.bin <= 63
    requires OnlyHung(m, m', H, h, ParentOf(ix, s), CHILD + s.pos % 2)
    requires if s.pos == RootPos(s.bin) then b' == b[s.bin := NULL]
             else b' == b && Field(m', Head(ix, Up(s)), CHILD + s.pos % 2) == NULL
    ensures Wired(m', b', Detached(ix, s))
  {
    var ix' := Detached(ix, s);
    DetachedHeads(ix, s);
    HeadNull(ix, H, m, s);
    CirclesWith(m, m', ix, ix', s);
    forall t | t in ix'.rings && InTrie(t)
      ensures NodeLinks(m', ix', t)
    {
      StillLinked(m, m', ix, H, s, h, t);
    }
    forall a | a in ix'.slot && InTrie(ix'.slot[a])
      ensures Field(m', a, TAG) == Field(m, a, TAG) && Field(m', a, PARENT) == Field(m, a, PARENT)
    {
      TrieChunkIsLarge(ix, H, a);
    }
  }

  lemma StillLinked(m: seq<int>, m': seq<int>, ix: Index, H: Heap, s: Slot, h: int, t: Slot)
    requires Shaped(ix, H) && TrieLinks(m, ix) && Carved(m, H) && s in ix.rings && InTrie(s) && h == Head(ix, s)
    requires IsLeaf(ix, s) && t in ix.rings && InTrie(t) && t != s
    requires OnlyHung(m, m', H, h, ParentOf(ix, s), CHILD + s.pos % 2)
    requires s.pos != RootPos(s.bin) ==> Field(m', Head(ix, Up(s)), CHILD + s.pos % 2) == NULL
    ensures NodeLinks(m', Detached(ix, s), t)
  {
    var k := Head(ix, t);
    assert NodeLinks(m, ix, t);
    assert TrieChunk(H, k) by {
      HeadNull(ix, H, m, t);
      TrieChunkIsLarge(ix, H, k);
    }
    HeadsDiffer(ix, H, m, t, s);
    assert 2 <= s.pos by { var u := Up(s); }
    HangsFrom(ix, H, m, s, t, 0);
    HangsFrom(ix, H, m, s, t, 1);
    DetachedHeads(ix, s);
    DetachedParent(ix, s, t);
  }

  lemma DetachedParent(ix: Index, s: Slot, t: Slot)
    requires Rooted(ix) && s in ix.rings && InTrie(s) && IsLeaf(ix, s) && t in ix.rings
    ensures ParentWord(Detached(ix, s), t) == ParentWord(ix, t)
  {
    IsDown(ix, s, t);
    DetachedHeads(ix, s);
  }

  // ----- a circle takes the place of a node

  ghost function Replaced(ix: Index, s: Slot, r: seq<int>): Index {
    Index(ix.rings[s := r],
          map a | a in ix.slot.Keys + (set x | x in r) && (a in r || ix.slot[a] != s) ::
            if a in r then s else ix.slot[a])
  }

  /** Circle r may take slot s: its chunks fit there, are not indexed elsewhere, and have
      one size that no other node has. */
  ghost predicate CanTake(ix: Index, H: Heap, s: Slot, r: seq<int>, size: nat) {
    && s in ix.rings && InTrie(s) && |r| > 0 && NoDup(r) && PlacedAt(s, size)
    && (forall x {:trigger x in r} :: x in r ==>
          x in H && !H[x].used && SizeOf(H, x) == size && (x in ix.slot ==> ix.slot[x] == s))
    && (forall a {:trigger ix.slot[a]} :: a in ix.slot && ix.slot[a].bin == s.bin && ix.slot[a] != s ==>
          SizeOf(H, a) != size)
  }

  lemma ReplacedShaped(ix: Index, H: Heap, s: Slot, r: seq<int>, size: nat)
    requires Shaped(ix, H) && CanTake(ix, H, s, r, size)
    ensures Shaped(Replaced(ix, s, r), H)
  {
    var ix' := Replaced(ix, s, r);
    forall t | t in ix'.rings && InTrie(t)
      ensures 2 <= t.pos && (t.pos == RootPos(t.bin) || Up(t) in ix'.rings)
    {
      var u := Up(t);
      assert t in ix.rings;
    }
    forall t, i | t in ix'.rings && 0 <= i < |ix'.rings[t]|
      ensures ix'.rings[t][i] in ix'.slot && ix'.slot[ix'.rings[t][i]] == t
    {
      if t != s {
        assert ix.rings[t][i] in ix.slot && ix.slot[ix.rings[t][i]] == t;
      } else {
        assert r[i] in r;
      }
    }
    forall a | a in ix'.slot
      ensures ix'.slot[a] in ix'.rings && a in ix'.rings[ix'.slot[a]]
    {
    }
  }

  ghost predicate CirclesBut(m: seq<int>, ix: Index, s: Slot) {
    forall t {:trigger t in ix.rings} :: t in ix.rings && t != s ==> Ring(m, ix.rings[t])
  }

  /** The link words that change when h takes the place of c in slot s. */
  ghost predicate OnlyHandover(m: seq<int>, m': seq<int>, ix: Index, H: Heap, s: Slot, c: int, h: int) {
    forall x, k {:trigger Field(m', x, k)} ::
      (x in H && IsLink(H[x].size, k)
       && (k <= PREV || (x != c && x != h))
       && !(k == PARENT && (x == Head(ix, Down(s, 0)) || x == Head(ix, Down(s, 1))))
       && !(k == CHILD + s.pos % 2 && x == ParentOf(ix, s)))
      ==> Field(m', x, k) == Field(m, x, k)
  }

  /** The new head of slot s has the slot's children, and they know it. */
  ghost predicate KidsHanded(m': seq<int>, ix: Index, s: Slot, h: int) {
    && Field(m', h, CHILD) == Head(ix, Down(s, 0)) && Field(m', h, CHILD + 1) == Head(ix, Down(s, 1))
    && (forall bit {:trigger Down(s, bit)} :: 0 <= bit <= 1 && Down(s, bit) in ix.rings ==>
          Field(m', Head(ix, Down(s, bit)), PARENT) == h)
  }

  /** The new head of slot s has the slot's parent, and hangs from it or from the bin. */
  ghost predicate ParentHanded(m': seq<int>, b: seq<int>, b': seq<int>, ix: Index, s: Slot, h: int) {
    && Field(m', h, PARENT) == ParentWord(ix, s)
    && s.bin < |b|
    && (if s.pos == RootPos(s.bin) then b' == b[s.bin := h]
        else b' == b && Field(m', Head(ix, Up(s)), CHILD + s.pos % 2) == h)
  }

  ghost predicate HandedOver(m': seq<int>, b: seq<int>, b': seq<int>, ix: Index, s: Slot, h: int) {
    KidsHanded(m', ix, s, h) && ParentHanded(m', b, b', ix, s, h)
  }

  lemma ReplacedWired(m: seq<int>, m': seq<int>, b: seq<int>, b': seq<int>, ix: Index, H: Heap, s: Slot, c: int,
                      r: seq<int>, size: nat)
    requires Shaped(ix, H) && Carved(m, H) && CanTake(ix, H, s, r, size) && c == Head(ix, s) && c != r[0]
    requires BinsPoint(b, ix) && TrieLinks(m, ix) && TrieTags(m, ix) && CirclesBut(m, ix, s) && Ring(m, r)
    requires forall x :: x in r ==> Field(m', x, TAG) == Tag(s.bin, ShiftAt(s))
    requires forall x :: x in r && x != r[0] ==> Field(m', x, PARENT) == NULL
    requires OnlyHandover(m, m', ix, H, s, c, r[0]) && HandedOver(m', b, b', ix, s, r[0])
    ensures Wired(m', b', Replaced(ix, s, r))
  {
    var ix' := Replaced(ix, s, r);
    ReplacedHeads(ix, s, r);
    assert s.bin <= 63;
    ReplacedCircles(m, m', ix, H, s, c, r, size);
    forall t | t in ix'.rings && InTrie(t)
      ensures NodeLinks(m', ix', t)
    {
      if t == s {
        ReplacedSelf(m', b, b', ix, H, s, r);
      } else {
        ReplacedOther(m, m', b, b', ix, H, s, c, r, size, t);
      }
    }
    ReplacedTags(m, m', ix, H, s, c, r, size);
  }

  lemma ReplacedHeads(ix: Index, s: Slot, r: seq<int>)
    requires |r| > 0
    ensures var ix' := Replaced(ix, s, r);
            forall t {:trigger Head(ix', t)} :: Head(ix', t) == if t == s then r[0] else Head(ix, t)
  {
  }

  lemma ReplacedCircles(m: seq<int>, m': seq<int>, ix: Index, H: Heap, s: Slot, c: int, r: seq<int>, size: nat)
    requires Shaped(ix, H) && CanTake(ix, H, s, r, size)
    requires CirclesBut(m, ix, s) && Ring(m, r) && OnlyHandover(m, m', ix, H, s, c, r[0])
    ensures Circles(m', Replaced(ix, s, r))
  {
    var ix' := Replaced(ix, s, r);
    forall t | t in ix'.rings
      ensures Ring(m', ix'.rings[t])
    {
      if t != s {
        MembersFree(ix, H, t);
      }
      RingSame(m, m', ix'.rings[t]);
    }
  }

  lemma ReplacedSelf(m': seq<int>, b: seq<int>, b': seq<int>, ix: Index, H: Heap, s: Slot, r: seq<int>)
    requires |r| > 0 && HandedOver(m', b, b', ix, s, r[0]) && Shaped(ix, H) && s in ix.rings && InTrie(s)
    ensures NodeLinks(m', Replaced(ix, s, r), s)
  {
    ReplacedHeads(ix, s, r);
    var u := Up(s);
  }

  lemma ReplacedOther(m: seq<int>, m': seq<int>, b: seq<int>, b': seq<int>, ix: Index, H: Heap, s: Slot, c: int,
                      r: seq<int>, size: nat, t: Slot)
    requires Shaped(ix, H) && Carved(m, H) && CanTake(ix, H, s, r, size) && c == Head(ix, s)
    requires TrieLinks(m, ix) && t in ix.rings && InTrie(t) && t != s
    requires OnlyHandover(m, m', ix, H, s, c, r[0]) && HandedOver(m', b, b', ix, s, r[0])
    ensures NodeLinks(m', Replaced(ix, s, r), t)
  {
    var ix' := Replaced(ix, s, r);
    var h := Head(ix, t);
    ReplacedHeads(ix, s, r);
    assert NodeLinks(m, ix, t);
    HeadNull(ix, H, m, t);
    HeadNull(ix, H, m, s);
    TrieChunkIsLarge(ix, H, h);
    assert r[0] in r && h != r[0] && h != c;
    HangsFrom(ix, H, m, s, t, 0);
    HangsFrom(ix, H, m, s, t, 1);
    ReplacedParent(m, m', b, b', ix, H, s, c, r, t);
  }

  lemma ReplacedParent(m: seq<int>, m': seq<int>, b: seq<int>, b': seq<int>, ix: Index, H: Heap, s: Slot, c: int,
                       r: seq<int>, t: Slot)
    requires Shaped(ix, H) && Carved(m, H) && s in ix.rings && InTrie(s) && |r| > 0
    requires NodeLinks(m, ix, t) && t in ix.rings && InTrie(t) && t != s
    requires Head(ix, t) in H && IsLarge(8 * H[Head(ix, t)].size) && Head(ix, t) != c && Head(ix, t) != r[0]
    requires OnlyHandover(m, m', ix, H, s, c, r[0]) && HandedOver(m', b, b', ix, s, r[0])
    ensures Field(m', Head(ix, t), PARENT) == ParentWord(Replaced(ix, s, r), t)
  {
    var h := Head(ix, t);
    ReplacedHeads(ix, s, r);
    HeadsDiffer(ix, H, m, t, Down(s, 0));
    HeadsDiffer(ix, H, m, t, Down(s, 1));
    IsDown(ix, s, t);
    if t == Down(s, 0) || t == Down(s, 1) {
      assert Field(m', h, PARENT) == r[0];
    } else {
      assert Field(m', h, PARENT) == Field(m, h, PARENT);
    }
  }

  lemma ReplacedTags(m: seq<int>, m': seq<int>, ix: Index, H: Heap, s: Slot, c: int, r: seq<int>, size: nat)
    requires Shaped(ix, H) && Carved(m, H) && CanTake(ix, H, s, r, size) && TrieTags(m, ix) && c == Head(ix, s)
    requires forall x :: x in r ==> Field(m', x, TAG) == Tag(s.bin, ShiftAt(s))
    requires forall x :: x in r && x != r[0] ==> Field(m', x, PARENT) == NULL
    requires OnlyHandover(m, m', ix, H, s, c, r[0])
    ensures TrieTags(m', Replaced(ix, s, r))
  {
    var ix' := Replaced(ix, s, r);
    ReplacedHeads(ix, s, r);
    HeadNull(ix, H, m, s);
    HeadNull(ix, H, m, Down(s, 0));
    HeadNull(ix, H, m, Down(s, 1));
    forall a | a in ix'.slot && InTrie(ix'.slot[a])
      ensures Field(m', a, TAG) == Tag(ix'.slot[a].bin, ShiftAt(ix'.slot[a]))
      ensures a != Head(ix', ix'.slot[a]) ==> Field(m', a, PARENT) == NULL
    {
      if a !in r {
        TrieChunkIsLarge(ix, H, a);
        assert r[0] in r;
      }
    }
  }

  /** Of all link fields only the parents of c and h and field j of p changed. */
  ghost predicate OnlyRelinked(m: seq<int>, m': seq<int>, H: Heap, c: int, h: int, p: int, j: int) {
    forall x, k {:trigger Field(m', x, k)} ::
      (x in H && IsLink(H[x].size, k) && !(k == PARENT && (x == c || x == h)) && !(x == p && k == j))
      ==> Field(m', x, k) == Field(m, x, k)
  }


  /** k is NULL or a trie chunk other than c and h. */
  ghost predicate IsKid(H: Heap, k: int, c: int, h: int) {
    k != NULL ==> TrieChunk(H, k) && k != h && k != c
  }

  /** The kids of the node in slot s, for a newcomer h that sits nowhere else. */
  lemma KidsAround(m: seq<int>, ix: Index, H: Heap, s: Slot, c: int, h: int, bit: nat)
    requires Shaped(ix, H) && Carved(m, H) && TrieLinks(m, ix) && s in ix.rings && InTrie(s) && c == Head(ix, s)
    requires (h in ix.slot ==> ix.slot[h] == s) && bit <= 1
    ensures Field(m, c, CHILD + bit) == Head(ix, Down(s, bit))
    ensures IsKid(H, Head(ix, Down(s, bit)), c, h)
    ensures Head(ix, Down(s, bit)) != NULL <==> Down(s, bit) in ix.rings
  {
    var u := Up(s);
    var d := Down(s, bit);
    ChildWord(m, ix, s, bit);
    HeadNull(ix, H, m, s);
    HeadNull(ix, H, m, d);
    if d in ix.rings {
      TrieChunkIsLarge(ix, H, Head(ix, d));
    }
  }

  /** The parent of the node in slot s points to it from exactly one child word. */
  lemma ParentAround(m: seq<int>, ix: Index, H: Heap, s: Slot, c: int, h: int)
    requires Shaped(ix, H) && Carved(m, H) && TrieLinks(m, ix) && s in ix.rings && InTrie(s) && c == Head(ix, s)
    requires h in ix.slot ==> ix.slot[h] == s
    ensures TrieChunk(H, c) && !IsHuge(SizeOf(H, c)) && BinOf(SizeOf(H, c)) == s.bin < NUM_OF_BINS
    ensures Field(m, c, PARENT) == ParentWord(ix, s)
    ensures var p := ParentWord(ix, s);
            if s.pos == RootPos(s.bin) then p == NO_PARENT_ROOT_NODE
            else
              p == ParentOf(ix, s) && p != NO_PARENT_ROOT_NODE && TrieChunk(H, p) && p != c && p != h
              && Field(m, p, CHILD + s.pos % 2) == c && (s.pos % 2 == 1 ==> Field(m, p, CHILD) != c)
  {
    assert NodeLinks(m, ix, s);
    HeadNull(ix, H, m, s);
    TrieChunkIsLarge(ix, H, c);
    if s.pos != RootPos(s.bin) {
      var u := Up(s);
      HeadNull(ix, H, m, u);
      TrieChunkIsLarge(ix, H, Head(ix, u));
      assert s == Down(u, s.pos % 2);
      ChildWord(m, ix, u, s.pos % 2);
      ChildWord(m, ix, u, 0);
      HeadsDiffer(ix, H, m, s, Down(u, 0));
    }
  }

  /** h has taken over c's children. */
  ghost predicate Childed(m: seq<int>, m': seq<int>, H: Heap, c: int, h: int) {
    var k0, k1 := Field(m, c, CHILD), Field(m, c, CHILD + 1);
    && Field(m', h, CHILD) == k0 && Field(m', h, CHILD + 1) == k1
    && (k0 != NULL ==> Field(m', k0, PARENT) == h) && (k1 != NULL ==> Field(m', k1, PARENT) == h)
    && (forall x, k {:trigger Field(m', x, k)} ::
          (x in H && IsLink(H[x].size, k) && !(x == h && CHILD <= k <= CHILD + 1)
           && !(k == PARENT && (x == k0 || x == k1)))
          ==> Field(m', x, k) == Field(m, x, k))
  }

  /** child hangs where c hung, below p or from bin n. */
  ghost predicate Relinked(m: seq<int>, m': seq<int>, b: seq<int>, b': seq<int>, H: Heap, c: int, child: int, p: int,
                           n: int, bit: int)
  {
    && Field(m', c, PARENT) == NULL && (child != NULL ==> Field(m', child, PARENT) == p)
    && 0 <= n < |b|
    && (if p == NO_PARENT_ROOT_NODE then
          b' == b[n := child] && OnlyRelinked(m, m', H, c, child, NULL, 0)
        else
          b' == b && Field(m', p, CHILD + bit) == child && OnlyRelinked(m, m', H, c, child, p, CHILD + bit))
  }

  lemma HandoverFrame(m: seq<int>, m1: seq<int>, m': seq<int>, b: seq<int>, b': seq<int>, ix: Index, H: Heap, s: Slot,
                      c: int, h: int)
    requires Childed(m, m1, H, c, h) && Relinked(m1, m', b, b', H, c, h, ParentWord(ix, s), s.bin, s.pos % 2)
    requires Field(m, c, CHILD) == Head(ix, Down(s, 0)) && Field(m, c, CHILD + 1) == Head(ix, Down(s, 1))
    requires forall x :: x in H ==> x >= 2
    requires s.pos != RootPos(s.bin) ==> ParentWord(ix, s) != NO_PARENT_ROOT_NODE
    ensures OnlyHandover(m, m', ix, H, s, c, h)
  {
  }

  lemma HandoverKids(m: seq<int>, m1: seq<int>, m': seq<int>, b: seq<int>, b': seq<int>, ix: Index, H: Heap, s: Slot,
                     c: int, h: int)
    requires Shaped(ix, H) && Carved(m, H) && TrieLinks(m, ix) && s in ix.rings && InTrie(s) && c == Head(ix, s)
    requires (h in ix.slot ==> ix.slot[h] == s) && TrieChunk(H, h) && h != c
    requires Childed(m, m1, H, c, h) && Relinked(m1, m', b, b', H, c, h, ParentWord(ix, s), s.bin, s.pos % 2)
    requires ParentWord(ix, s) != NO_PARENT_ROOT_NODE ==> ParentWord(ix, s) != h
    ensures KidsHanded(m', ix, s, h)
  {
    KidsAround(m, ix, H, s, c, h, 0);
    KidsAround(m, ix, H, s, c, h, 1);
  }

  lemma HandoverParent(m: seq<int>, m1: seq<int>, m': seq<int>, b: seq<int>, b': seq<int>, ix: Index, H: Heap, s: Slot,
                       c: int, h: int)
    requires Shaped(ix, H) && Carved(m, H) && TrieLinks(m, ix) && s in ix.rings && InTrie(s) && c == Head(ix, s)
    requires (h in ix.slot ==> ix.slot[h] == s) && TrieChunk(H, h) && h != c
    requires Relinked(m1, m', b, b', H, c, h, ParentWord(ix, s), s.bin, s.pos % 2)
    ensures ParentHanded(m', b, b', ix, s, h)
    ensures ParentWord(ix, s) != NO_PARENT_ROOT_NODE ==> ParentWord(ix, s) != h
  {
    ParentAround(m, ix, H, s, c, h);
  }

  lemma HandoverFacts(m: seq<int>, m1: seq<int>, m': seq<int>, b: seq<int>, b': seq<int>, ix: Index, H: Heap, s: Slot,
                      c: int, h: int)
    requires Shaped(ix, H) && Carved(m, H) && TrieLinks(m, ix) && s in ix.rings && InTrie(s) && c == Head(ix, s)
    requires (h in ix.slot ==> ix.slot[h] == s) && TrieChunk(H, h) && h != c
    requires Childed(m, m1, H, c, h) && Relinked(m1, m', b, b', H, c, h, ParentWord(ix, s), s.bin, s.pos % 2)
    ensures HandedOver(m', b, b', ix, s, h)
  {
    HandoverParent(m, m1, m', b, b', ix, H, s, c, h);
    HandoverKids(m, m1, m', b, b', ix, H, s, c, h);
  }

  /** After the children moved, the parent of c still points to it. */
  lemma ReadyToRelink(m: seq<int>, m1: seq<int>, ix: Index, H: Heap, s: Slot, c: int, h: int)
    requires Shaped(ix, H) && Carved(m, H) && TrieLinks(m, ix) && s in ix.rings && InTrie(s) && c == Head(ix, s)
    requires (h in ix.slot ==> ix.slot[h] == s) && TrieChunk(H, h) && h != c && Childed(m, m1, H, c, h)
    ensures Field(m1, c, PARENT) == ParentWord(ix, s)
    ensures var p := ParentWord(ix, s);
            p != NO_PARENT_ROOT_NODE ==>
              TrieChunk(H, p) && p != c && p != h && Field(m1, p, CHILD + s.pos % 2) == c
              && (s.pos % 2 == 1 ==> Field(m1, p, CHILD) != c)
  {
    KidsAround(m, ix, H, s, c, h, 0);
    KidsAround(m, ix, H, s, c, h, 1);
    ParentAround(m, ix, H, s, c, h);
  }

  lemma HandoverTags(m: seq<int>, m': seq<int>, ix: Index, H: Heap, s: Slot, c: int, r: seq<int>)
    requires Shaped(ix, H) && Carved(m, H) && TrieLinks(m, ix) && s in ix.rings && InTrie(s) && c == Head(ix, s)
    requires |r| > 0 && forall x :: x in r ==> TrieChunk(H, x) && x != c && (x in ix.slot ==> ix.slot[x] == s)
    requires forall x :: x in r ==> Field(m, x, TAG) == Tag(s.bin, ShiftAt(s))
    requires forall x :: x in r && x != r[0] ==> Field(m, x, PARENT) == NULL
    requires OnlyHandover(m, m', ix, H, s, c, r[0])
    requires Field(m', r[0], TAG) == Field(m, r[0], TAG)
    ensures forall x :: x in r ==> Field(m', x, TAG) == Tag(s.bin, ShiftAt(s))
    ensures forall x :: x in r && x != r[0] ==> Field(m', x, PARENT) == NULL
  {
    HeadNull(ix, H, m, Down(s, 0));
    HeadNull(ix, H, m, Down(s, 1));
    var u := Up(s);
  }

  /** Circle r, linked and tagged, waits to take the place of node c in slot s. */
  ghost predicate Waiting(m: seq<int>, b: seq<int>, ix: Index, H: Heap, s: Slot, c: int, r: seq<int>, size: nat) {
    && Carved(m, H) && Shaped(ix, H) && CanTake(ix, H, s, r, size) && c == Head(ix, s) && c !in r
    && BinsPoint(b, ix) && TrieLinks(m, ix) && TrieTags(m, ix) && CirclesBut(m, ix, s) && Ring(m, r)
    && (forall x {:trigger x in r} :: x in r ==> TrieChunk(H, x) && Field(m, x, TAG) == Tag(s.bin, ShiftAt(s)))
    && (forall x {:trigger x in r} :: x in r && x != r[0] ==> Field(m, x, PARENT) == NULL)
  }

  lemma HandoverWired(m: seq<int>, m1: seq<int>, m': seq<int>, b: seq<int>, b': seq<int>, ix: Index, H: Heap, s: Slot,
                      c: int, r: seq<int>, size: nat)
    requires Waiting(m, b, ix, H, s, c, r, size)
    requires Childed(m, m1, H, c, r[0]) && Relinked(m1, m', b, b', H, c, r[0], ParentWord(ix, s), s.bin, s.pos % 2)
    ensures Wired(m', b', Replaced(ix, s, r))
  {
    hide Shaped, TrieLinks, TrieTags, CirclesBut;
    assert r[0] in r;
    KidsAround(m, ix, H, s, c, r[0], 0);
    KidsAround(m, ix, H, s, c, r[0], 1);
    ParentAround(m, ix, H, s, c, r[0]);
    HandoverFrame(m, m1, m', b, b', ix, H, s, c, r[0]);
    HandoverFacts(m, m1, m', b, b', ix, H, s, c, r[0]);
    HandoverTags(m, m', ix, H, s, c, r);
    ReplacedWired(m, m', b, b', ix, H, s, c, r, size);
  }

  // ----- peers

  /** A chunk other than the head has left the circle in slot s. */
  lemma PeerGone(m: seq<int>, m': seq<int>, b: seq<int>, ix: Index, H: Heap, s: Slot, k: int)
    requires Shaped(ix, H) && Wired(m, b, ix) && Carved(m, H) && s in ix.rings && InTrie(s)
    requires 0 < k < |ix.rings[s]| && Ring(m', Without(ix.rings[s], k)) && OnlyCircle(m, m', H, ix.rings[s])
    ensures Wired(m', b, Removed(ix, s, k))
  {
    var ix' := Removed(ix, s, k);
    MembersFree(ix, H, s);
    CirclesWith(m, m', ix, ix', s);
    TrieWordsKept(m, m', ix, H, {});
    RemovedHeads(ix, s, k);
    SameHeadsLinks(m, m', ix, ix', H);
  }

  lemma RemovedHeads(ix: Index, s: Slot, k: int)
    requires s in ix.rings && 0 < k < |ix.rings[s]|
    ensures var ix' := Removed(ix, s, k);
            forall t {:trigger Head(ix', t)} :: Head(ix', t) == Head(ix, t)
  {
  }

  /** Once the head has been unlinked, the rest of its circle waits for the slot. */
  lemma PeersWait(m: seq<int>, m': seq<int>, b: seq<int>, ix: Index, H: Heap, s: Slot, c: int)
    requires Shaped(ix, H) && Wired(m, b, ix) && Carved(m, H) && Carved(m', H) && s in ix.rings && InTrie(s)
    requires |ix.rings[s]| > 1 && c == ix.rings[s][0]
    requires Ring(m', Without(ix.rings[s], 0)) && OnlyCircle(m, m', H, ix.rings[s])
    ensures Waiting(m', b, ix, H, s, c, Without(ix.rings[s], 0), SizeOf(H, c))
  {
    var r := ix.rings[s];
    MembersFree(ix, H, s);
    NoDupShrinks(r, 0);
    TrieWordsKept(m, m', ix, H, {});
    SameHeadsLinks(m, m', ix, ix, H);
    forall t | t in ix.rings && t != s
      ensures Ring(m', ix.rings[t])
    {
      MembersFree(ix, H, t);
      RingSame(m, m', ix.rings[t]);
    }
    forall x | x in Without(r, 0)
      ensures x in H && !H[x].used && SizeOf(H, x) == SizeOf(H, c) && x in ix.slot && ix.slot[x] == s && TrieChunk(H, x)
    {
      assert c in r;
      TrieChunkIsLarge(ix, H, x);
    }
  }

  // ----- descendants

  /** Slot q lies in the subtree below slot s. */
  ghost predicate Below(q: Slot, s: Slot) {
    && q.bin == s.bin && q.pos >= 2 && ShiftAt(q) < ShiftAt(s)
    && Shr(q.pos, ShiftAt(s) - ShiftAt(q)) == s.pos
  }

  lemma BelowDown(q: Slot, s: Slot, bit: nat)
    requires bit <= 1 && s.pos >= 2 && (q == s || Below(q, s))
    ensures Below(Down(q, bit), s)
  {
    ShiftDown(q, bit);
    ShrHalf(Down(q, bit).pos, ShiftAt(s) - ShiftAt(q));
  }

  lemma BelowUp(q: Slot, u: Slot, bit: nat)
    requires bit <= 1 && q.pos >= 2 && Below(Down(q, bit), u)
    ensures u == q || Below(q, u)
  {
    ShiftDown(q, bit);
    var k := ShiftAt(u) - ShiftAt(q);
    ShrHalf(Down(q, bit).pos, k);
  }

  /** From slot t down to slot q the way goes to child `first` wherever there is one. */
  ghost predicate Prefers(ix: Index, t: Slot, q: Slot, first: nat) {
    && (q == t || Below(q, t))
    && forall u {:trigger Down(u, first)} ::
         (u == t || Below(u, t)) && Below(q, u) && Down(u, first) in ix.rings ==>
           q == Down(u, first) || Below(q, Down(u, first))
  }

  lemma PrefersStarts(ix: Index, t: Slot, first: nat)
    ensures Prefers(ix, t, t, first)
  {
  }

  lemma PrefersDown(ix: Index, t: Slot, q: Slot, first: nat, bit: nat)
    requires Prefers(ix, t, q, first) && first <= 1 && bit <= 1 && t.pos >= 2 && q.pos >= 2
    requires Down(q, first) in ix.rings ==> bit == first
    ensures Prefers(ix, t, Down(q, bit), first)
  {
    var d := Down(q, bit);
    BelowDown(q, t, bit);
    forall u | (u == t || Below(u, t)) && Below(d, u) && Down(u, first) in ix.rings
      ensures d == Down(u, first) || Below(d, Down(u, first))
    {
      BelowUp(q, u, bit);
      if u != q {
        BelowDown(q, Down(u, first), bit);
      }
    }
  }

  /** The leaf that takes the place of the node in slot s: from its left child on, when it has
      one, to the right wherever possible, otherwise from its right child on to the left. */
  ghost predicate Successor(ix: Index, s: Slot, q: Slot) {
    && q in ix.rings && IsLeaf(ix, q)
    && if Down(s, 0) in ix.rings then Prefers(ix, Down(s, 0), q, 1)
       else Down(s, 1) in ix.rings && Prefers(ix, Down(s, 1), q, 0)
  }

  /** Chunk c has left the index: its circle closes behind it, and when a node with children
      is left without a circle, that of its successor comes in its place. */
  ghost predicate TakenOut(ix: Index, ix': Index, c: int) {
    && c in ix.slot && ix.slot[c] in ix.rings
    && var s, r := ix.slot[c], ix.rings[ix.slot[c]];
       exists k :: 0 <= k < |r| && r[k] == c
         && if InTrie(s) && |r| == 1 && !IsLeaf(ix, s) then
              exists q :: Successor(ix, s, q) && ix' == Replaced(Detached(ix, q), s, ix.rings[q])
            else ix' == Removed(ix, s, k)
  }

  /** Whatever lies below a slot could lie in it: promoting a descendant keeps every
      chunk on the path of its size. */
  lemma BelowFits(ix: Index, H: Heap, q: Slot, s: Slot, a: int)
    requires Placed(ix, H) && a in ix.slot && ix.slot[a] == q && InTrie(q) && Below(q, s)
    ensures PlacedAt(s, SizeOf(H, a))
  {
    ShrAdd(SizeOf(H, a), ShiftAt(q) + 1, ShiftAt(s) - ShiftAt(q));
  }

  /** h is the node in slot q and its child words lead to the slots below. */
  ghost predicate View(m: seq<int>, ix: Index, H: Heap, q: Slot, h: int) {
    && q in ix.rings && InTrie(q) && h == Head(ix, q) && TrieChunk(H, h)
    && Field(m, h, CHILD) == Head(ix, Down(q, 0)) && Field(m, h, CHILD + 1) == Head(ix, Down(q, 1))
    && (Field(m, h, CHILD) != NULL <==> Down(q, 0) in ix.rings)
    && (Field(m, h, CHILD + 1) != NULL <==> Down(q, 1) in ix.rings)
  }

  lemma ViewNode(m: seq<int>, ix: Index, H: Heap, q: Slot)
    requires Shaped(ix, H) && Carved(m, H) && TrieLinks(m, ix) && q in ix.rings && InTrie(q)
    ensures View(m, ix, H, q, Head(ix, q))
  {
    HeadNull(ix, H, m, q);
    TrieChunkIsLarge(ix, H, Head(ix, q));
    assert NodeLinks(m, ix, q);
    HeadNull(ix, H, m, Down(q, 0));
    HeadNull(ix, H, m, Down(q, 1));
  }

  lemma StepBelow(q: Slot, s: Slot, bit: nat)
    requires bit <= 1 && s.pos >= 2 && (q == s || Below(q, s))
    ensures Below(Down(q, bit), s) && ShiftAt(Down(q, bit)) < ShiftAt(q)
  {
    BelowDown(q, s, bit);
    ShiftDown(q, bit);
  }

  /** One step of a walk down to the leaves. */
  lemma StepDown(m: seq<int>, ix: Index, H: Heap, q: Slot, s: Slot, h: int, bit: nat)
    requires Shaped(ix, H) && Carved(m, H) && TrieLinks(m, ix) && View(m, ix, H, q, h) && Below(q, s) && s.pos >= 2
    requires bit <= 1 && Field(m, h, CHILD + bit) != NULL
    ensures var d := Down(q, bit);
            View(m, ix, H, d, Field(m, h, CHILD + bit)) && Below(d, s) && 0 <= ShiftAt(d) < ShiftAt(q)
  {
    var d := Down(q, bit);
    StepBelow(q, s, bit);
    ViewNode(m, ix, H, d);
    HeadNull(ix, H, m, d);
  }

  /** A chunk of a trie has a parent word exactly when it is its circle's head. */
  lemma NodeParent(m: seq<int>, ix: Index, H: Heap, c: int, k: int)
    requires Shaped(ix, H) && TrieLinks(m, ix) && TrieTags(m, ix) && Carved(m, H)
    requires c in ix.slot && InTrie(ix.slot[c])
    requires 0 <= k < |ix.rings[ix.slot[c]]| && ix.rings[ix.slot[c]][k] == c
    ensures Field(m, c, PARENT) != NULL <==> k == 0
  {
    var s := ix.slot[c];
    if k == 0 {
      ParentAround(m, ix, H, s, c, c);
      HeadNull(ix, H, m, Up(s));
    }
  }

  lemma ReadyToUnlink(m: seq<int>, ix: Index, H: Heap, s: Slot, c: int, k: int)
    requires Shaped(ix, H) && Circles(m, ix) && TrieLinks(m, ix) && TrieTags(m, ix) && Carved(m, H)
    requires c in ix.slot && ix.slot[c] == s && InTrie(s)
    requires |ix.rings[s]| > 1 && 0 <= k < |ix.rings[s]| && ix.rings[s][k] == c
    ensures Ring(m, ix.rings[s]) && NoDup(ix.rings[s]) && TrieChunk(H, c)
    ensures forall x :: x in ix.rings[s] ==> x in H && !H[x].used
    ensures Field(m, c, NEXT) == After(ix.rings[s], k)
    ensures Field(m, c, PARENT) != NULL <==> k == 0
    ensures k == 0 ==> After(ix.rings[s], k) == Without(ix.rings[s], 0)[0]
  {
    MembersFree(ix, H, s);
    TrieChunkIsLarge(ix, H, c);
    RingAt(m, ix.rings[s], k);
    NodeParent(m, ix, H, c, k);
  }

  /** When the head of a longer circle goes, the rest of the circle takes the slot over. */
  lemma HeadGone(ix: Index, s: Slot)
    requires Members(ix) && s in ix.rings && |ix.rings[s]| > 1
    ensures Replaced(ix, s, Without(ix.rings[s], 0)) == Removed(ix, s, 0)
    ensures Removed(ix, s, 0).slot.Keys == ix.slot.Keys - {ix.rings[s][0]}
  {
    var r := ix.rings[s];
    NoDupShrinks(r, 0);
    assert forall x :: x in r <==> x in ix.slot && ix.slot[x] == s;
    var ix1, ix2 := Replaced(ix, s, Without(r, 0)), Removed(ix, s, 0);
    assert forall x :: x in ix1.slot <==> x in ix2.slot;
    assert ix1.slot == ix2.slot;
  }

  // ----- promotion of a leaf

  /** Of all link fields only the tags of the chunks in r changed. */
  ghost predicate OnlyTags(m: seq<int>, m': seq<int>, H: Heap, r: seq<int>) {
    forall x, k {:trigger Field(m', x, k)} ::
      (x in H && IsLink(H[x].size, k) && !(k == TAG && x in r)) ==> Field(m', x, k) == Field(m, x, k)
  }

  /** A circle of trie chunks on its own: linked, every tag the same, only the head with a
      parent word. */
  ghost predicate Loose(m: seq<int>, H: Heap, r: seq<int>, tag: int) {
    && Ring(m, r) && NoDup(r)
    && (forall x {:trigger x in r} :: x in r ==> TrieChunk(H, x) && Field(m, x, TAG) == tag)
    && (forall x {:trigger x in r} :: x in r && x != r[0] ==> Field(m, x, PARENT) == NULL)
  }

  lemma LooseCircle(m: seq<int>, ix: Index, H: Heap, q: Slot)
    requires Shaped(ix, H) && Carved(m, H) && Circles(m, ix) && TrieTags(m, ix) && q in ix.rings && InTrie(q)
    ensures Loose(m, H, ix.rings[q], Tag(q.bin, ShiftAt(q)))
    ensures forall x :: x in ix.rings[q] ==> x in ix.slot && ix.slot[x] == q
  {
    MembersFree(ix, H, q);
    forall x | x in ix.rings[q]
      ensures TrieChunk(H, x)
    {
      TrieChunkIsLarge(ix, H, x);
    }
  }

  /** Cutting a leaf's link to its parent keeps its circle. */
  lemma LooseAfterCut(m: seq<int>, m': seq<int>, H: Heap, r: seq<int>, tag: int, p: int, j: int)
    requires Loose(m, H, r, tag) && p !in r && NULL !in r && j >= CHILD && OnlyRelinked(m, m', H, r[0], NULL, p, j)
    ensures Loose(m', H, r, tag)
  {
    forall x | x in r
      ensures Field(m', x, NEXT) == Field(m, x, NEXT) && Field(m', x, PREV) == Field(m, x, PREV)
      ensures Field(m', x, TAG) == Field(m, x, TAG) && (x != r[0] ==> Field(m', x, PARENT) == Field(m, x, PARENT))
    {
    }
    RingSame(m, m', r);
  }

  /** A circle detached from below s, retagged, waits to take s. */
  lemma LeafWaits(m: seq<int>, b: seq<int>, ix: Index, H: Heap, q: Slot, s: Slot, c: int, m': seq<int>)
    requires Shaped(ix, H) && q in ix.rings && InTrie(q) && s in ix.rings && Below(q, s) && IsLeaf(ix, q)
    requires c == Head(ix, s) && Carved(m, H) && Carved(m', H) && Shaped(Detached(ix, q), H)
    requires Wired(m, b, Detached(ix, q)) && s.pos >= 2
    requires forall x, k {:trigger Field(m', x, k)} ::
               (x in H && IsLink(H[x].size, k) && !(k >= PARENT && x in ix.rings[q])) ==>
                 Field(m', x, k) == Field(m, x, k)
    requires Loose(m', H, ix.rings[q], Tag(s.bin, ShiftAt(s)))
    ensures Waiting(m', b, Detached(ix, q), H, s, c, ix.rings[q], SizeOf(H, Head(ix, q)))
  {
    var ix1 := Detached(ix, q);
    var r := ix.rings[q];
    MembersFree(ix, H, q);
    HeadNull(ix, H, m, s);
    assert q != s;
    DetachedHeads(ix, q);
    BelowFits(ix, H, q, s, Head(ix, q));
    assert CanTake(ix1, H, s, r, SizeOf(H, Head(ix, q)));
    forall t | t in ix1.rings
      ensures Ring(m', ix1.rings[t])
    {
      MembersFree(ix, H, t);
      RingSame(m, m', ix1.rings[t]);
    }
    forall x, k | x in ix1.slot && InTrie(ix1.slot[x]) && CHILD <= k <= TAG
      ensures Field(m', x, k) == Field(m, x, k)
    {
      TrieChunkIsLarge(ix1, H, x);
    }
    SameHeadsLinks(m, m', ix1, ix1, H);
  }

  lemma PromotedKeys(ix: Index, q: Slot, s: Slot, c: int)
    requires Members(ix) && q in ix.rings && s in ix.rings && q != s && ix.rings[s] == [c]
    ensures Replaced(Detached(ix, q), s, ix.rings[q]).slot.Keys == ix.slot.Keys - {c}
  {
    var r := ix.rings[q];
    assert forall x :: x in r <==> x in ix.slot && ix.slot[x] == q;
    assert forall x :: x in ix.rings[s] <==> x in ix.slot && ix.slot[x] == s;
    assert ix.rings[s][0] == c;
  }

  /** The first i chunks of r have the new tag; nothing else has changed. */
  ghost predicate Retagging(m: seq<int>, m': seq<int>, H: Heap, r: seq<int>, tag: int, i: int) {
    && OnlyTags(m, m', H, r)
    && (forall j {:trigger r[j]} :: 0 <= j < |r| ==>
          Field(m', r[j], TAG) == if j < i then tag else Field(m, r[j], TAG))
  }

  lemma LooseAt(m: seq<int>, H: Heap, r: seq<int>, tag: int)
    requires Loose(m, H, r, tag)
    ensures forall j {:trigger r[j]} :: 0 <= j < |r| ==> TrieChunk(H, r[j]) && Field(m, r[j], TAG) == tag && r[j] in r
  {
    forall j | 0 <= j < |r|
      ensures TrieChunk(H, r[j]) && Field(m, r[j], TAG) == tag && r[j] in r
    {
      assert r[j] in r;
    }
  }

  lemma Retagged(m: seq<int>, m': seq<int>, H: Heap, r: seq<int>, tag: int, tag': int)
    requires Loose(m, H, r, tag) && Retagging(m, m', H, r, tag', |r|)
    ensures Loose(m', H, r, tag')
  {
    RingSame(m, m', r);
    forall x | x in r
      ensures Field(m', x, TAG) == tag' && Field(m', x, PARENT) == Field(m, x, PARENT)
    {
      var j :| 0 <= j < |r| && r[j] == x;
    }
  }

  lemma AloneKeys(ix: Index, s: Slot, c: int)
    requires Members(ix) && s in ix.rings && ix.rings[s] == [c]
    ensures Detached(ix, s).slot.Keys == ix.slot.Keys - {c}
    ensures Detached(ix, s) == Removed(ix, s, 0)
    ensures Head(ix, s) == c && c in ix.slot && ix.slot[c] == s
  {
    assert ix.rings[s][0] == c;
    assert forall x :: x in ix.rings[s] <==> x in ix.slot && ix.slot[x] == s;
    assert Detached(ix, s).slot == Removed(ix, s, 0).slot;
  }

  /** The node to be replaced is still there, and apart from the circle cut off below. */
  lemma ReplacementApart(m0: seq<int>, m: seq<int>, ix: Index, H: Heap, q: Slot, s: Slot, c: int)
    requires Shaped(ix, H) && q in ix.rings && s in ix.rings && InTrie(s) && Below(q, s) && ix.rings[s] == [c]
    requires Carved(m0, H) && TrieTags(m, Detached(ix, q)) && Shaped(Detached(ix, q), H)
    ensures TrieChunk(H, c) && c !in ix.rings[q] && TagShift(Field(m, c, TAG)) == ShiftAt(s)
    ensures 2 <= s.pos && s.bin <= 63
  {
    var u := Up(s);
    assert ix.rings[s][0] == c;
    assert c in ix.slot && ix.slot[c] == s;
    MembersFree(ix, H, q);
    TrieChunkIsLarge(ix, H, c);
    assert c in Detached(ix, q).slot;
    TagOf(m, Detached(ix, q), H, c);
  }
}
