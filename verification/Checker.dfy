/** The heap checker (my_checker.c): the invariant as code, and exactly when it passes. */
module Checker {
  import opened Bits
  import opened Layout
  import opened Rings
  import opened Tiling
  import opened Fields
  import opened IndexModel
  import opened IndexChanges
  import opened TrieChanges
  import opened TrieRemoval
  import opened TrieSearch
  import opened HeapOps
  import opened HeapModel
  import opened ExactTags
  import FreeIndex
  import Allocator

  // ----- circles

  /** Following one link field from c comes back to c after exactly the chunks of f. */
  ghost predicate Orbit(m: seq<int>, c: int, field: int, f: seq<int>) {
    && |f| > 0 && f[0] == c
    && (forall i {:trigger f[i]} :: 0 < i < |f| ==> f[i] != c)
    && (forall i {:trigger After(f, i)} :: 0 <= i < |f| ==> Field(m, f[i], field) == After(f, i))
  }

  /** Count the steps from the chunk after c back to c, following one link field. */
  method CountSteps(x: FreeIndex.FreeIndex, c: int, field: int, ghost f: seq<int>) returns (steps: nat)
    requires Orbit(x.M(), c, field, f) && NEXT <= field <= PREV
    requires forall a {:trigger a in f} :: a in f ==> 0 <= a && a + PREV < x.mem.Length
    ensures steps == |f| - 1
  {
    assert c in f;
    ghost var i := 0;
    assert Field(x.M(), c, field) == After(f, 0);
    var other := x.Get(c, field);
    steps := 0;
    while other != c
      invariant steps < |f| && other == After(f, steps)
      decreases |f| - steps
    {
      steps := steps + 1;
      assert other == f[steps] && other in f;
      assert Field(x.M(), f[steps], field) == After(f, steps);
      other := x.Get(other, field);
    }
  }

  /** is_circularly_linked_list, wherever following either link comes back to c: yes if and
      only if it takes as many steps forward as backward. */
  method IsCircularlyLinkedList(x: FreeIndex.FreeIndex, c: int, ghost f: seq<int>, ghost b: seq<int>) returns (ok: bool)
    requires Orbit(x.M(), c, NEXT, f) && Orbit(x.M(), c, PREV, b)
    requires forall a {:trigger a in f} :: a in f ==> 0 <= a && a + PREV < x.mem.Length
    requires forall a {:trigger a in b} :: a in b ==> 0 <= a && a + PREV < x.mem.Length
    ensures ok <==> |f| == |b|
  {
    var left := CountSteps(x, c, NEXT, f);
    var right := CountSteps(x, c, PREV, b);
    ok := left == right;
  }

  /** The position i steps after k on a circle of n chunks. */
  function Turn(n: nat, k: nat, i: nat): nat
    requires k < n && i <= n
  {
    if k + i < n then k + i else k + i - n
  }

  /** The circle r, from its chunk k on, forward and backward. */
  ghost function Forwards(r: seq<int>, k: nat): seq<int>
    requires k < |r|
  {
    seq(|r|, i requires 0 <= i < |r| => r[Turn(|r|, k, i)])
  }

  ghost function Backwards(r: seq<int>, k: nat): seq<int>
    requires k < |r|
  {
    seq(|r|, i requires 0 <= i < |r| => r[Turn(|r|, k, |r| - i)])
  }

  lemma StepForward(m: seq<int>, r: seq<int>, k: nat, i: nat)
    requires Ring(m, r) && NoDup(r) && k < |r| && i < |r|
    ensures Field(m, r[Turn(|r|, k, i)], NEXT) == r[Turn(|r|, k, i + 1)]
    ensures r[Turn(|r|, k, i)] == r[k] <==> i == 0
  {
    var j := Turn(|r|, k, i);
    assert Field(m, r[j], NEXT) == After(r, j);
  }

  lemma StepBackward(m: seq<int>, r: seq<int>, k: nat, i: nat)
    requires Ring(m, r) && NoDup(r) && k < |r| && 0 < i <= |r|
    ensures Field(m, r[Turn(|r|, k, i)], PREV) == r[Turn(|r|, k, i - 1)]
    ensures r[Turn(|r|, k, i)] == r[k] <==> i == |r|
  {
    var j := Turn(|r|, k, i);
    assert Field(m, r[j], PREV) == Before(r, j);
  }

  /** From any chunk of a circle both links come back after the whole circle. */
  lemma CircleOrbits(m: seq<int>, r: seq<int>, k: nat)
    requires Ring(m, r) && NoDup(r) && k < |r|
    ensures Orbit(m, r[k], NEXT, Forwards(r, k)) && Orbit(m, r[k], PREV, Backwards(r, k))
    ensures |Forwards(r, k)| == |Backwards(r, k)| == |r|
    ensures forall a :: a in Forwards(r, k) || a in Backwards(r, k) ==> a in r
  {
    hide Ring, NoDup;
    var f, b := Forwards(r, k), Backwards(r, k);
    forall i | 0 <= i < |r|
      ensures Field(m, f[i], NEXT) == After(f, i) && (f[i] == r[k] <==> i == 0)
    {
      StepForward(m, r, k, i);
    }
    forall i | 0 <= i < |r|
      ensures Field(m, b[i], PREV) == After(b, i) && (b[i] == r[k] <==> i == 0)
    {
      StepBackward(m, r, k, |r| - i);
      assert After(b, i) == if i + 1 < |r| then b[i + 1] else b[0];
      assert i + 1 < |r| ==> b[i + 1] == r[Turn(|r|, k, |r| - i - 1)];
      assert Turn(|r|, k, 0) == Turn(|r|, k, |r|) == k;
    }
  }

  // ----- tries

  /** What the checker finds at the node in slot s. */
  lemma NodeIsSound(m: seq<int>, b: seq<int>, ix: Index, H: Heap, s: Slot, c: int)
    requires Shaped(ix, H) && Wired(m, b, ix) && Carved(m, H) && s in ix.rings && InTrie(s) && c == Head(ix, s)
    ensures 2 <= c && c + TAG < |m| && TagBin(Field(m, c, TAG)) == s.bin && Field(m, c, PARENT) != c
    ensures Field(m, c, CHILD) == Head(ix, Down(s, 0)) != c && Field(m, c, CHILD + 1) == Head(ix, Down(s, 1)) != c
    ensures Field(m, c, CHILD) == Field(m, c, CHILD + 1) ==> Field(m, c, CHILD) == NULL
    ensures s.pos >= 2 && 2 <= ShiftAt(s) && ShiftAt(Down(s, 0)) == ShiftAt(Down(s, 1)) == ShiftAt(s) - 1
  {
    NodeAtSlot(m, ix, H, s);
    TagOf(m, ix, H, c);
    ViewNode(m, ix, H, s);
    assert NodeLinks(m, ix, s);
    assert s.pos >= 2 by { var u := Up(s); }
    ShiftDown(s, 0);
    ShiftDown(s, 1);
    HeadNull(ix, H, m, Down(s, 0));
    HeadNull(ix, H, m, Down(s, 1));
    HeadNull(ix, H, m, Up(s));
  }

  /** The parent word of a child node leads back. */
  lemma ChildLeadsBack(m: seq<int>, b: seq<int>, ix: Index, H: Heap, s: Slot, bit: nat)
    requires Shaped(ix, H) && Wired(m, b, ix) && Carved(m, H) && s in ix.rings && InTrie(s) && bit <= 1
    requires Head(ix, Down(s, bit)) != NULL
    ensures var d := Head(ix, Down(s, bit));
            2 <= d && d + TAG < |m| && Field(m, d, PARENT) == Head(ix, s)
  {
    var q := Down(s, bit);
    NodeAtSlot(m, ix, H, q);
    assert NodeLinks(m, ix, q);
    assert s.pos >= 2 by { var u := Up(s); }
    ShiftDown(s, bit);
  }

  /** The binary tree of nodes below a pointer. */
  datatype Tree = Leaf | Node(addr: int, left: Tree, right: Tree)

  function Nodes(t: Tree): set<int> {
    match t
    case Leaf => {}
    case Node(a, l, r) => {a} + Nodes(l) + Nodes(r)
  }

  /** Following child words from c, to NULL each time, gives the tree t. */
  ghost predicate Unfolds(m: seq<int>, c: int, t: Tree)
    decreases t
  {
    match t
    case Leaf => c == NULL
    case Node(a, l, r) =>
      && c == a != NULL && 0 <= a && a + TAG < |m|
      && Unfolds(m, Field(m, a, CHILD), l) && Unfolds(m, Field(m, a, CHILD + 1), r)
  }

  /** What the checker asks of one node: no loop through it, its children point back, and its
      bin number is n. */
  ghost predicate NodeValid(m: seq<int>, n: nat, a: int) {
    var l, r := Field(m, a, CHILD), Field(m, a, CHILD + 1);
    && Field(m, a, PARENT) != a && a != r && a != l && (l != r || l == NULL)
    && (l == NULL || Field(m, l, PARENT) == a) && (r == NULL || Field(m, r, PARENT) == a)
    && TagBin(Field(m, a, TAG)) == n
  }

  ghost predicate AllValid(m: seq<int>, n: nat, t: Tree) {
    forall a {:trigger a in Nodes(t)} :: a in Nodes(t) ==> NodeValid(m, n, a)
  }

  /** is_valid_pointer_tree, on any memory in which the child words end: yes if and only if
      every node below c is valid. */
  function IsValidPointerTree(x: FreeIndex.FreeIndex, n: nat, c: int, ghost t: Tree): (ok: bool)
    requires Unfolds(x.M(), c, t)
    reads x, x.mem
    ensures ok <==> AllValid(x.M(), n, t)
    decreases t
  {
    if c == NULL then true
    else
      var l, r := x.Get(c, CHILD), x.Get(c, CHILD + 1);
      Unfolded(x.M(), l, t.left);
      Unfolded(x.M(), r, t.right);
      if x.Get(c, PARENT) == c || c == r || c == l || (l == r && l != NULL) then
        NotAll(x.M(), n, t, c);
        false
      else if l != NULL && x.Get(l, PARENT) != c then
        NotAll(x.M(), n, t, c);
        false
      else if r != NULL && x.Get(r, PARENT) != c then
        NotAll(x.M(), n, t, c);
        false
      else if TagBin(x.Get(c, TAG)) != n then
        NotAll(x.M(), n, t, c);
        false
      else
        AllOfBoth(x.M(), n, t);
        IsValidPointerTree(x, n, l, t.left) && IsValidPointerTree(x, n, r, t.right)
  }

  lemma Unfolded(m: seq<int>, c: int, t: Tree)
    requires Unfolds(m, c, t)
    ensures c != NULL ==> t.Node? && 0 <= c && c + TAG < |m|
  {
  }

  lemma NotAll(m: seq<int>, n: nat, t: Tree, a: int)
    requires t.Node? && t.addr == a && !NodeValid(m, n, a)
    ensures !AllValid(m, n, t)
  {
    assert a in Nodes(t);
  }

  lemma AllOfBoth(m: seq<int>, n: nat, t: Tree)
    requires t.Node?
    ensures AllValid(m, n, t) <==> NodeValid(m, n, t.addr) && AllValid(m, n, t.left) && AllValid(m, n, t.right)
  {
    assert t.addr in Nodes(t);
    assert forall a :: a in Nodes(t.left) || a in Nodes(t.right) ==> a in Nodes(t);
  }

  /** The tree of nodes at slot s and below. */
  ghost function TreeOf(ix: Index, s: Slot): Tree
    decreases Words(ShiftAt(s))
  {
    if s in ix.rings && s.pos >= 2 && ShiftAt(s) >= 1 then
      ShiftDown(s, 0);
      ShiftDown(s, 1);
      Node(Head(ix, s), TreeOf(ix, Down(s, 0)), TreeOf(ix, Down(s, 1)))
    else Leaf
  }

  /** A trie of a well-formed index unfolds into its tree, and every node is valid. */
  lemma {:induction false} TrieUnfolds(m: seq<int>, b: seq<int>, ix: Index, H: Heap, s: Slot)
    requires Shaped(ix, H) && Wired(m, b, ix) && Carved(m, H) && InTrie(s) && ShiftAt(s) >= 1
    ensures Unfolds(m, Head(ix, s), TreeOf(ix, s)) && AllValid(m, s.bin, TreeOf(ix, s))
    decreases ShiftAt(s)
  {
    hide Shaped, Wired, Carved, Head, Nodes, AllValid, ShiftAt;
    HeadNull(ix, H, m, s);
    if s in ix.rings {
      var c := Head(ix, s);
      NodeIsSound(m, b, ix, H, s, c);
      TrieUnfolds(m, b, ix, H, Down(s, 0));
      TrieUnfolds(m, b, ix, H, Down(s, 1));
      if Head(ix, Down(s, 0)) != NULL {
        ChildLeadsBack(m, b, ix, H, s, 0);
      }
      if Head(ix, Down(s, 1)) != NULL {
        ChildLeadsBack(m, b, ix, H, s, 1);
      }
      AllOfBoth(m, s.bin, TreeOf(ix, s));
    } else {
      EmptyTree(m, ix, s);
    }
  }

  lemma EmptyTree(m: seq<int>, ix: Index, s: Slot)
    requires s !in ix.rings
    ensures TreeOf(ix, s) == Leaf && AllValid(m, s.bin, Leaf) && Head(ix, s) == NULL
  {
  }

  lemma UnderUp(t: Slot, size: nat, s: Slot, bit: nat)
    requires s.pos >= 2 && bit <= 1 && Under(t, size, Down(s, bit)) && ShiftAt(s) >= 1
    ensures Under(t, size, s)
  {
    hide Shr, ShiftAt;
    ShiftDown(s, bit);
    assert Shr(size, ShiftAt(s)) == Down(s, bit).pos;
    OneBitLess(size, ShiftAt(s), s.pos, bit);
  }

  lemma OneBitLess(size: nat, k: nat, pos: nat, bit: nat)
    requires bit <= 1 && Shr(size, k) == 2 * pos + bit
    ensures Shr(size, k + 1) == pos
  {
  }

  lemma InSubtreeCases(ix: Index, H: Heap, s: Slot, c: int)
    requires Shaped(ix, H) && s in ix.rings && InTrie(s) && ShiftAt(s) >= 1
    ensures InSubtree(ix, H, s, c) <==>
              (c in ix.slot && ix.slot[c] == s) || InSubtree(ix, H, Down(s, 0), c) || InSubtree(ix, H, Down(s, 1), c)
  {
    assert s.pos >= 2 by { var u := Up(s); }
    if c in ix.slot {
      SubtreeCases(ix, H, s, c);
    }
  }

  lemma SubtreeCases(ix: Index, H: Heap, s: Slot, c: int)
    requires Members(ix) && Rooted(ix) && Placed(ix, H) && s in ix.rings && InTrie(s) && ShiftAt(s) >= 1 && s.pos >= 2
    requires c in ix.slot
    ensures InSubtree(ix, H, s, c) <==>
              ix.slot[c] == s || InSubtree(ix, H, Down(s, 0), c) || InSubtree(ix, H, Down(s, 1), c)
  {
    hide Under, SizeOf, ShiftAt, PathAt;
    if ix.slot[c] == s {
      AtItsSlot(ix, H, s, c);
    } else if InSubtree(ix, H, s, c) {
      SubtreeSplit(ix, H, s, c);
    } else {
      NotInEither(ix, H, s, c, 0);
      NotInEither(ix, H, s, c, 1);
    }
  }

  lemma AtItsSlot(ix: Index, H: Heap, s: Slot, c: int)
    requires Placed(ix, H) && c in ix.slot && ix.slot[c] == s && InTrie(s)
    ensures InSubtree(ix, H, s, c)
  {
  }

  lemma NotInEither(ix: Index, H: Heap, s: Slot, c: int, bit: nat)
    requires c in ix.slot && s.pos >= 2 && bit <= 1 && ShiftAt(s) >= 1 && !InSubtree(ix, H, s, c)
    ensures !InSubtree(ix, H, Down(s, bit), c)
  {
    if InSubtree(ix, H, Down(s, bit), c) {
      UnderUp(ix.slot[c], SizeOf(H, c), s, bit);
    }
  }

  /** chunk_not_in_tree: no exactly for the chunks, nodes or peers, of the trie below. */
  method ChunkNotInTree(x: FreeIndex.FreeIndex, root: int, c: int, ghost H: Heap, ghost s: Slot) returns (absent: bool)
    requires x.Ok(H) && InTrie(s) && root == Head(x.ix, s) && 1 <= ShiftAt(s) <= ShiftAt(RootSlot(s.bin))
    ensures absent <==> !InSubtree(x.ix, H, s, c)
    decreases ShiftAt(s)
  {
    HeadNull(x.ix, H, x.M(), s);
    if root == NULL {
      if InSubtree(x.ix, H, s, c) {
        EmptySubtree(x.ix, H, s, c);
      }
      return true;
    }
    hide Shaped, Wired, InSubtree, ShiftAt, Head;
    NodeIsSound(x.M(), x.B(), x.ix, H, s, root);
    InSubtreeCases(x.ix, H, s, c);
    CircleMembers(x.M(), x.ix, H, s);
    absent := NotOnCircle(x, root, c, x.ix.rings[s]);
    assert c in x.ix.rings[s] <==> c in x.ix.slot && x.ix.slot[c] == s;
    if absent {
      absent := ChunkNotInTree(x, x.Get(root, CHILD), c, H, Down(s, 0));
    }
    if absent {
      absent := ChunkNotInTree(x, x.Get(root, CHILD + 1), c, H, Down(s, 1));
    }
  }

  /** The circle that starts at a node does not hold c. */
  method NotOnCircle(x: FreeIndex.FreeIndex, root: int, c: int, ghost r: seq<int>) returns (absent: bool)
    requires Ring(x.M(), r) && NoDup(r) && r[0] == root
    requires forall a {:trigger a in r} :: a in r ==> 0 <= a && a + PREV < x.mem.Length
    ensures absent <==> c !in r
  {
    assert root in r;
    if root == c {
      return false;
    }
    var current := x.Get(root, NEXT);
    ghost var i := 0;
    RingStep(x.M(), r, 0);
    while current != root
      invariant 0 <= i < |r| && current == After(r, i)
      invariant forall j :: 0 <= j <= i ==> r[j] != c
      decreases |r| - i
    {
      if current == c {
        assert r[i + 1] in r;
        return false;
      }
      i := i + 1;
      RingStep(x.M(), r, i);
      assert current in r;
      current := x.Get(current, NEXT);
    }
    absent := true;
  }

  lemma RingStep(m: seq<int>, r: seq<int>, i: nat)
    requires Ring(m, r) && NoDup(r) && i < |r|
    ensures Field(m, r[i], NEXT) == After(r, i) && (After(r, i) == r[0] <==> i + 1 == |r|)
  {
    assert Field(m, r[i], NEXT) == After(r, i);
  }

  /** The chunks of a circle are those with its slot, and their words are in memory. */
  lemma CircleMembers(m: seq<int>, ix: Index, H: Heap, s: Slot)
    requires Shaped(ix, H) && Carved(m, H) && Circles(m, ix) && s in ix.rings
    ensures Ring(m, ix.rings[s]) && NoDup(ix.rings[s]) && |ix.rings[s]| > 0
    ensures forall a {:trigger a in ix.rings[s]} :: a in ix.rings[s] <==> a in ix.slot && ix.slot[a] == s
    ensures forall a {:trigger a in ix.rings[s]} :: a in ix.rings[s] ==> 2 <= a && a + PREV < |m|
  {
    forall a | a in ix.rings[s]
      ensures a in ix.slot && ix.slot[a] == s && 2 <= a && a + PREV < |m|
    {
      var i :| 0 <= i < |ix.rings[s]| && ix.rings[s][i] == a;
      assert a in H;
    }
  }

  /** Every large bin holds a valid tree. */
  lemma RootUnfolds(x: FreeIndex.FreeIndex, n: nat, H: Heap)
    requires x.Ok(H) && 32 <= n <= 63
    ensures Unfolds(x.M(), x.bins[n], TreeOf(x.ix, RootSlot(n))) && AllValid(x.M(), n, TreeOf(x.ix, RootSlot(n)))
  {
    assert ShiftAt(RootSlot(n)) == (n - 16) / 2 - 2;
    assert x.B()[n] == Head(x.ix, RootSlot(n));
    TrieUnfolds(x.M(), x.B(), x.ix, H, RootSlot(n));
  }

  /** For a whole bin: the chunks that are not in the bin. */
  method ChunkNotInBin(x: FreeIndex.FreeIndex, n: nat, c: int, ghost H: Heap) returns (absent: bool)
    requires x.Ok(H) && 32 <= n <= 63
    ensures absent <==> !(c in x.ix.slot && x.ix.slot[c].bin == n)
  {
    if c in x.ix.slot && x.ix.slot[c].bin == n {
      WholeTrie(x.ix, H, n, c);
    }
    assert ShiftAt(RootSlot(n)) == (n - 16) / 2 - 2;
    absent := ChunkNotInTree(x, x.bins[n], c, H, RootSlot(n));
  }

  /** remove_large_chunk with its own assertions: the trie is valid before and after, and the
      chunk is in it no longer. */
  method RemoveLargeAsserting(x: FreeIndex.FreeIndex, c: int, ghost H: Heap) returns (ok: bool)
    requires x.Ok(H) && c in x.ix.slot && InTrie(x.ix.slot[c])
    modifies x`ix, x.mem, x.bins
    ensures ok && x.Ok(H) && x.ix.slot.Keys == old(x.ix.slot.Keys) - {c}
  {
    assert x.bins.Length == NUM_OF_BINS;
    hide Shaped, Wired;
    InTrieIsLarge(x, c, H);
    var n := LargeRequestIndex(x.Size(c));
    RootUnfolds(x, n, H);
    ok := IsValidPointerTree(x, n, x.bins[n], TreeOf(x.ix, RootSlot(n)));
    x.RemoveLargeChunk(c, H);
    var absent := ChunkNotInBin(x, n, c, H);
    RootUnfolds(x, n, H);
    ok := ok && absent && IsValidPointerTree(x, n, x.bins[n], TreeOf(x.ix, RootSlot(n)));
  }

  lemma InTrieIsLarge(x: FreeIndex.FreeIndex, c: int, H: Heap)
    requires x.Ok(H) && c in x.ix.slot && InTrie(x.ix.slot[c])
    ensures c in H && 2 <= c && c + CURRENT_SIZE < x.mem.Length && x.Size(c) == SizeOf(H, c)
    ensures IsLarge(SizeOf(H, c)) && !IsHuge(SizeOf(H, c)) && 32 <= LargeRequestIndex(SizeOf(H, c)) <= 63
  {
    BinMeansLarge(x.ix, H, c);
    BinInRange(SizeOf(H, c));
  }

  /** insert_large_chunk with its own assertions: the trie is valid before and after, and the
      chunk is in it. */
  method InsertLargeAsserting(x: FreeIndex.FreeIndex, c: int, ghost H: Heap) returns (ok: bool)
    requires x.Ok(H) && c in H && c !in x.ix.slot && !H[c].used && IsLarge(SizeOf(H, c)) && !IsHuge(SizeOf(H, c))
    modifies x`ix, x.mem, x.bins
    ensures ok && x.Ok(H) && x.ix.slot.Keys == old(x.ix.slot.Keys) + {c}
  {
    assert x.bins.Length == NUM_OF_BINS;
    hide Shaped, Wired;
    LargeInRange(x, c, H);
    var n := LargeRequestIndex(x.Size(c));
    RootUnfolds(x, n, H);
    ok := IsValidPointerTree(x, n, x.bins[n], TreeOf(x.ix, RootSlot(n)));
    ghost var s := x.InsertLargeChunk(c, H);
    InsertedBin(old(x.ix), H, s, c);
    var absent := ChunkNotInBin(x, n, c, H);
    RootUnfolds(x, n, H);
    ok := ok && !absent && IsValidPointerTree(x, n, x.bins[n], TreeOf(x.ix, RootSlot(n)));
  }

  /** Word p is the address of a chunk that has c as the child selected by this size. */
  predicate PointsBack(x: FreeIndex.FreeIndex, p: int, c: int, size: nat)
    reads x, x.mem
  {
    && 2 <= p && p + TAG < x.mem.Length
    && x.Get(p, CHILD + Bit(size, TagShift(x.Get(p, TAG)))) == c
  }

  /** The insertion of a huge chunk with the assertion of insert_chunk after it. Nobody writes
      the parent word of a huge chunk, so the assertion follows whatever was there before:
      the client's fifth word, when the chunk is a block just freed. It holds if and only if
      that is NULL, NO_PARENT_ROOT_NODE, or happens to lead back. */
  method InsertHugeAsserting(x: FreeIndex.FreeIndex, c: int, ghost H: Heap) returns (ok: bool)
    requires x.Ok(H) && c in H && c !in x.ix.slot && !H[c].used && IsHuge(SizeOf(H, c))
    requires !CurrentInUse(Field(x.M(), c, CURRENT_SIZE))
    modifies x`ix, x.mem, x.bins
    ensures x.Ok(H) && x.ix.slot.Keys == old(x.ix.slot.Keys) + {c}
    ensures var p := old(Field(x.M(), c, PARENT));
            ok <==> p == NULL || p == NO_PARENT_ROOT_NODE || PointsBack(x, p, c, SizeOf(H, c))
  {
    hide Shaped, Wired, Indexed;
    HugeInRange(x, c, H);
    var size := x.Size(c);
    ghost var s := x.InsertLargeChunk(c, H);
    assert c in x.ix.slot;
    LinksThere(x, c, H);
    HeaderKept(old(x.M()), x.M(), c, H);
    var p := x.Get(c, PARENT);
    ok := !CurrentInUse(x.Get(c, CURRENT_SIZE)) && x.Get(c, NEXT) != NULL && x.Get(c, PREV) != NULL;
    ok := ok && (p == NULL || p == NO_PARENT_ROOT_NODE || PointsBack(x, p, c, size));
  }

  /** The links of an indexed chunk are chunks. */
  lemma LinksThere(x: FreeIndex.FreeIndex, c: int, H: Heap)
    requires x.Ok(H) && c in x.ix.slot
    ensures Field(x.M(), c, NEXT) != NULL && Field(x.M(), c, PREV) != NULL
  {
    CirclesHold(x.M(), x.B(), x.ix);
    hide Wired;
    var r := x.ix.rings[x.ix.slot[c]];
    var k :| 0 <= k < |r| && r[k] == c;
    NeighboursIndexed(x.M(), x.ix, H, c, k);
  }

  lemma HeaderKept(m: seq<int>, m': seq<int>, c: int, H: Heap)
    requires Carved(m, H) && Quiet(m, m', H) && c in H
    ensures Field(m', c, CURRENT_SIZE) == Field(m, c, CURRENT_SIZE)
  {
    forall d | d in H && !H[d].used
      ensures !IsLink(H[d].size, c + CURRENT_SIZE - d)
    {
    }
  }

  lemma HugeInRange(x: FreeIndex.FreeIndex, c: int, H: Heap)
    requires x.Ok(H) && c in H && IsHuge(SizeOf(H, c))
    ensures 2 <= c && c + TAG < x.mem.Length && x.Size(c) == SizeOf(H, c)
  {
  }

  lemma LargeInRange(x: FreeIndex.FreeIndex, c: int, H: Heap)
    requires x.Ok(H) && c in H && IsLarge(SizeOf(H, c)) && !IsHuge(SizeOf(H, c))
    ensures 2 <= c && c + CURRENT_SIZE < x.mem.Length && x.Size(c) == SizeOf(H, c)
    ensures 32 <= LargeRequestIndex(SizeOf(H, c)) <= 63
  {
    BinInRange(SizeOf(H, c));
  }

  lemma InsertedBin(ix: Index, H: Heap, s: Slot, c: int)
    requires NewSlot(ix, H, SizeOf(H, c), s) && IsLarge(SizeOf(H, c)) && !IsHuge(SizeOf(H, c))
    ensures var ix' := Inserted(ix, s, c);
            ix'.slot.Keys == ix.slot.Keys + {c} && ix'.slot[c].bin == LargeRequestIndex(SizeOf(H, c))
  {
  }

  // ----- chunks in bins

  lemma LargeChunkSound(m: seq<int>, b: seq<int>, ix: Index, H: Heap, c: int)
    requires Shaped(ix, H) && Wired(m, b, ix) && Carved(m, H) && c in ix.slot && InTrie(ix.slot[c])
    ensures 2 <= c && c + TAG < |m|
    ensures var p := Field(m, c, PARENT);
            p == NO_PARENT_ROOT_NODE || p == NULL ||
            (2 <= p && p + TAG < |m| && Field(m, p, CHILD + Bit(SizeOf(H, c), TagShift(Field(m, p, TAG)))) == c)
  {
    var s := ix.slot[c];
    TrieChunkIsLarge(ix, H, c);
    if c == Head(ix, s) {
      ParentAround(m, ix, H, s, c, c);
      if s.pos != RootPos(s.bin) {
        ParentIsNode(m, b, ix, H, s, c);
      }
    }
  }

  lemma ParentIsNode(m: seq<int>, b: seq<int>, ix: Index, H: Heap, s: Slot, c: int)
    requires Shaped(ix, H) && Wired(m, b, ix) && Carved(m, H) && c in ix.slot && ix.slot[c] == s && InTrie(s)
    requires s in ix.rings && s.pos != RootPos(s.bin)
    ensures var p := ParentOf(ix, s);
            2 <= p && p + TAG < |m| && Bit(SizeOf(H, c), TagShift(Field(m, p, TAG))) == s.pos % 2
  {
    var u := Up(s);
    NodeAtSlot(m, ix, H, u);
    TagOf(m, ix, H, Head(ix, u));
    ShiftUp(ix, s, SizeOf(H, c));
  }

  /** The neighbours of an indexed chunk on its circle are indexed chunks too. */
  lemma NeighboursIndexed(m: seq<int>, ix: Index, H: Heap, c: int, k: nat)
    requires Shaped(ix, H) && Carved(m, H) && Circles(m, ix) && c in ix.slot
    requires k < |ix.rings[ix.slot[c]]| && ix.rings[ix.slot[c]][k] == c
    ensures Field(m, c, NEXT) in ix.slot && Field(m, c, PREV) in ix.slot && 2 <= c && c + PREV < |m|
  {
    var r := ix.rings[ix.slot[c]];
    CircleMembers(m, ix, H, ix.slot[c]);
    assert Field(m, c, NEXT) == After(r, k) && Field(m, c, PREV) == Before(r, k);
    assert After(r, k) in r && Before(r, k) in r && c in r;
  }

  /** IS_VALID_SMALL_CHUNK. */
  predicate IsValidSmallChunk(x: FreeIndex.FreeIndex, c: int, ghost H: Heap)
    requires x.Ok(H) && c in x.ix.slot && 2 <= c && c + PREV < x.mem.Length
    reads x, x.mem, x.bins
  {
    !CurrentInUse(x.Get(c, CURRENT_SIZE)) && x.Get(c, NEXT) != NULL && x.Get(c, PREV) != NULL
  }

  /** IS_VALID_LARGE_CHUNK: the node's parent, if it has one, points back to it from the
      child word that its size selects. */
  predicate IsValidLargeChunk(x: FreeIndex.FreeIndex, c: int, ghost H: Heap)
    requires x.Ok(H) && c in x.ix.slot && InTrie(x.ix.slot[c]) && 2 <= c && c + PREV < x.mem.Length
    reads x, x.mem, x.bins
  {
    LargeChunkSound(x.M(), x.B(), x.ix, H, c);
    var p := x.Get(c, PARENT);
    && IsValidSmallChunk(x, c, H)
    && (p == NO_PARENT_ROOT_NODE || p == NULL || x.Get(p, CHILD + Bit(x.Size(c), TagShift(x.Get(p, TAG)))) == c)
  }

  // ----- the walk

  /** is_valid_chunk_pointer, for pointers up to the last word of the heap: yes exactly for
      the addresses of chunks and for that last word, where a chunk after the end-of-heap
      chunk would start. */
  method IsValidChunkPointer(a: Allocator.Allocator, c: int) returns (ok: bool)
    requires a.Valid() && a.start == a.arena.lo && c < a.arena.brk
    ensures ok <==> c in a.H || c == a.arena.brk - 1
  {
    var start := a.arena.lo;
    while true
      invariant (start in a.H || start == a.arena.brk - 1) && (c in a.H ==> start <= c)
      decreases a.arena.brk - start
    {
      if start == c {
        return true;
      }
      if start > c {
        return false;
      }
      a.Reads(start);
      start := a.NextChunk(start);
    }
  }

  /** What an indexed chunk looks like to the checker. */
  lemma IndexedChunk(a: Allocator.Allocator, c: int)
    requires a.Valid() && c in a.K()
    ensures a.index.Ok(a.H) && c in a.index.ix.slot && c in a.H && !a.H[c].used && c <= a.last
    ensures 2 <= c && c + PREV < a.index.mem.Length && !CurrentInUse(Field(a.M(), c, CURRENT_SIZE))
    ensures InTrie(a.index.ix.slot[c]) <==> IsLarge(8 * a.H[c].size) && !IsHuge(8 * a.H[c].size)
  {
    a.IndexOk();
    a.KMembers(c);
    a.Reads(c);
    hide Wired, Heads, Feet, PinsOk, Agree;
    assert PlacedAt(a.index.ix.slot[c], SizeOf(a.H, c));
    BinInRange(SizeOf(a.H, c));
  }

  lemma IndexedCircle(a: Allocator.Allocator, c: int) returns (k: nat)
    requires a.Valid() && c in a.K()
    ensures c in a.index.ix.slot && a.index.ix.slot[c] in a.index.ix.rings
    ensures var r := a.index.ix.rings[a.index.ix.slot[c]]; k < |r| && r[k] == c
  {
    hide Wired, Laid, PinsOk, Agree;
    var s := a.index.ix.slot[c];
    var i :| 0 <= i < |a.index.ix.rings[s]| && a.index.ix.rings[s][i] == c;
    k := i;
  }

  /** Both neighbours of an indexed chunk on its circle are chunks of the heap. */
  lemma IndexedNeighbours(a: Allocator.Allocator, c: int)
    requires a.Valid() && c in a.K()
    ensures var next, prev := Field(a.M(), c, NEXT), Field(a.M(), c, PREV);
            next in a.H && prev in a.H && 2 <= next <= a.last && 2 <= prev <= a.last
  {
    hide Wired, Heads, Feet, PinsOk, Agree;
    var k := IndexedCircle(a, c);
    a.IndexOk();
    CirclesHold(a.M(), a.B(), a.index.ix);
    NeighboursIndexed(a.M(), a.index.ix, a.H, c, k);
    a.KMembers(Field(a.M(), c, NEXT));
    a.KMembers(Field(a.M(), c, PREV));
  }

  lemma CirclesHold(m: seq<int>, b: seq<int>, ix: Index)
    requires Wired(m, b, ix)
    ensures Circles(m, ix)
  {
  }

  /** The checks on a free chunk that is in a bin. */
  method CheckIndexed(a: Allocator.Allocator, c: int) returns (ok: bool)
    requires a.Valid() && a.start == a.arena.lo && c in a.K()
    ensures ok
  {
    hide Shaped, Wired, Heads, Feet, PinsOk, Agree;
    ghost var k := IndexedCircle(a, c);
    CircleOf(a, a.index.ix.slot[c]);
    ghost var r := a.index.ix.rings[a.index.ix.slot[c]];
    CircleOrbits(a.index.M(), r, k);
    ok := IsCircularlyLinkedList(a.index, c, Forwards(r, k), Backwards(r, k));
    IndexedChunk(a, c);
    IndexedNeighbours(a, c);
    a.Reads(c);
    if IsLarge(8 * a.Size(c)) && !IsHuge(8 * a.Size(c)) {
      LargeChunkSound(a.M(), a.B(), a.index.ix, a.H, c);
      ok := ok && IsValidLargeChunk(a.index, c, a.H);
    } else if !IsLarge(8 * a.Size(c)) {
      ok := ok && IsValidSmallChunk(a.index, c, a.H);
    }
    var next, prev := a.index.Get(c, NEXT), a.index.Get(c, PREV);
    var v := IsValidChunkPointer(a, next);
    ok := ok && v;
    v := IsValidChunkPointer(a, prev);
    ok := ok && v;
    v := IsValidChunkPointer(a, c);
    ok := ok && v;
  }

  lemma CircleOf(a: Allocator.Allocator, s: Slot)
    requires a.Valid() && s in a.index.ix.rings
    ensures Ring(a.index.M(), a.index.ix.rings[s]) && NoDup(a.index.ix.rings[s])
    ensures forall x {:trigger x in a.index.ix.rings[s]} :: x in a.index.ix.rings[s] ==>
              0 <= x && x + PREV < a.index.mem.Length
  {
    a.IndexOk();
    CircleMembers(a.M(), a.index.ix, a.H, s);
  }

  /** The tag checks for chunk c: its successor's previous-in-use bit, and for a free chunk
      the way back through its footer. */
  predicate TagsAgree(a: Allocator.Allocator, c: int)
    requires a.Valid() && c in a.H && c != a.last
    reads a, a.arena, a.arena.words, a.index, a.index.bins
    ensures TagsAgree(a, c) <==> Next(a.H, c) in a.H && (a.H[Next(a.H, c)].pin <==> a.H[c].used)
  {
    a.Reads(c);
    a.Reads(Next(a.H, c));
    var next := a.NextChunk(c);
    if !CurrentInUse(a.arena.words[c + CURRENT_SIZE]) then
      FooterLeadsBack(a.M(), a.H, a.start, a.last, a.arena.brk, c);
      && a.PreviousChunk(next) == c
      && 8 * a.Size(c) == a.arena.words[next]
      && !PreviousInUse(a.arena.words[next + CURRENT_SIZE])
    else
      PreviousInUse(a.arena.words[next + CURRENT_SIZE])
  }

  lemma FooterLeadsBack(m: seq<int>, H: Heap, start: int, last: int, brk: int, c: int)
    requires Laid(m, H, start, last, brk) && c in H && !H[c].used && c != last
    ensures At(m, Next(H, c)) == 8 * H[c].size && 3 <= H[c].size
  {
  }

  /** Tags checked from the start of the heap up to chunk c. */
  ghost predicate CheckedBelow(H: Heap, c: int) {
    forall d {:trigger Next(H, d)} :: d in H && d < c ==> Next(H, d) in H && (H[Next(H, d)].pin <==> H[d].used)
  }

  lemma CheckedAll(H: Heap, start: int, last: int, brk: int)
    requires Tiled(H, start, last, brk) && PinsOk(H, start)
    ensures CheckedBelow(H, last) <==> TagsExact(H, start)
  {
    if CheckedBelow(H, last) {
      forall c | c in H && c != start
        ensures Prev(H, c) in H && (H[c].pin <==> H[Prev(H, c)].used)
      {
        assert Prev(H, c) in H && Next(H, Prev(H, c)) == c;
      }
    }
    if TagsExact(H, start) {
      forall d | d in H && d < last
        ensures Next(H, d) in H && (H[Next(H, d)].pin <==> H[d].used)
      {
        assert Next(H, d) in H && Prev(H, Next(H, d)) == d;
      }
    }
  }

  lemma CheckedStep(H: Heap, start: int, last: int, brk: int, c: int)
    requires Tiled(H, start, last, brk) && c in H && c != last && Next(H, c) in H
    ensures CheckedBelow(H, Next(H, c)) <==> CheckedBelow(H, c) && (H[Next(H, c)].pin <==> H[c].used)
  {
    assert forall d :: d in H && d < Next(H, c) ==> d <= c;
  }

  lemma FreeMeansIndexed(H: Heap, K: set<int>, v: int, last: int, c: int)
    requires Agree(H, K, v, last, {}) && c in H && !H[c].used && c != last && c != v
    ensures c in K
  {
  }

  /** my_checker: walks the heap to the end-of-heap chunk and then the tries. Every check on
      bins and footers passes whenever the allocator's state is valid; the tag checks pass
      exactly when every previous-in-use bit is exact and the end-of-heap chunk's is set. */
  method MyChecker(a: Allocator.Allocator) returns (ok: bool)
    requires a.Valid() && a.start == a.arena.lo
    ensures ok <==> TagsExact(a.H, a.start) && a.H[a.last].pin
  {
    hide Shaped, Wired, Heads, Feet, PinsOk, Agree, TagsExact, CheckedBelow;
    var chunk := a.arena.lo;
    ok := true;
    NothingBelow(a.H, a.start, a.last, a.arena.brk);
    while chunk != a.index.bins[0]
      invariant chunk in a.H && chunk <= a.last && (ok <==> CheckedBelow(a.H, chunk))
      decreases a.last - chunk
    {
      a.Reads(chunk);
      if chunk != a.index.bins[1] && !CurrentInUse(a.arena.words[chunk + CURRENT_SIZE]) {
        FreeMeansIndexed(a.H, a.K(), a.B()[1], a.last, chunk);
        var v := CheckIndexed(a, chunk);
        ok := ok && v;
      }
      ok := ok && TagsAgree(a, chunk);
      ok := ok && a.arena.words[chunk + CURRENT_SIZE] > 4;
      CheckedStep(a.H, a.start, a.last, a.arena.brk, chunk);
      chunk := a.NextChunk(chunk);
    }
    CheckedAll(a.H, a.start, a.last, a.arena.brk);
    a.Reads(chunk);
    ok := ok && PreviousInUse(a.arena.words[chunk + CURRENT_SIZE]);
    for i := 32 to NUM_OF_BINS
      invariant ok <==> TagsExact(a.H, a.start) && a.H[a.last].pin
    {
      TrieRoot(a, i);
      ok := ok && IsValidPointerTree(a.index, i, a.index.bins[i], TreeOf(a.index.ix, RootSlot(i)));
    }
  }

  lemma NothingBelow(H: Heap, start: int, last: int, brk: int)
    requires Tiled(H, start, last, brk)
    ensures CheckedBelow(H, start)
  {
  }

  lemma TrieRoot(a: Allocator.Allocator, n: nat)
    requires a.Valid() && 32 <= n < NUM_OF_BINS
    ensures Unfolds(a.index.M(), a.index.bins[n], TreeOf(a.index.ix, RootSlot(n)))
    ensures AllValid(a.index.M(), n, TreeOf(a.index.ix, RootSlot(n)))
  {
    a.IndexOk();
    RootUnfolds(a.index, n, a.H);
  }

  /** With exact tags and free chunks apart, the checker passes. */
  lemma ExactPasses(a: Allocator.Allocator)
    requires a.Valid() && Exact(a.H, a.start)
    ensures TagsExact(a.H, a.start) && a.H[a.last].pin
  {
    AgreeEnd(a.H, a.K(), a.B()[1], a.last, {});
    var p := Prev(a.H, a.last);
  }
}
