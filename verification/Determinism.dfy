/** What a call leaves in the bins and as the victim, and that each call has one outcome: the
    chunk that serves a request, the slot a chunk gets, the leaf that takes a node's place, and
    so the heap, the index and the victim after the call. */
module Determinism {
  import opened Bits
  import opened Layout
  import opened Rings
  import opened Tiling
  import opened IndexModel
  import opened IndexChanges
  import opened TrieChanges
  import opened TrieRemoval
  import opened TrieSearch
  import opened HeapOps
  import opened HeapModel
  import opened AllocatorSteps
  import opened ReallocSteps
  import opened Places

  // ----- the successor of a node

  lemma BelowTwice(q: Slot, s: Slot, t: Slot)
    requires Below(q, s) && Below(s, t)
    ensures Below(q, t)
  {
    ShrAdd(q.pos, ShiftAt(s) - ShiftAt(q), ShiftAt(t) - ShiftAt(s));
  }

  lemma RootIsHighest(s: Slot)
    requires s.pos >= 2
    ensures ShiftAt(s) <= (s.bin as int - 16) / 2 - 2
    ensures ShiftAt(s) == (s.bin as int - 16) / 2 - 2 <==> s.pos <= 3
    decreases s.pos
  {
    if s.pos > 3 {
      RootIsHighest(Up(s));
    }
  }

  /** The child of slot t on the way down to slot q. */
  lemma {:induction false} ChildTowards(ix: Index, t: Slot, q: Slot) returns (bit: nat)
    requires Rooted(ix) && q in ix.rings && InTrie(q) && Below(q, t) && t.pos >= 2
    ensures bit <= 1 && Down(t, bit) in ix.rings && (q == Down(t, bit) || Below(q, Down(t, bit)))
    decreases q.pos
  {
    var u := Up(q);
    bit := q.pos % 2;
    assert q.bin == t.bin && ShiftAt(q) < ShiftAt(t) && 2 <= q.pos;
    RootIsHighest(t);
    RootIsHighest(q);
    assert q.pos > 3 >= RootPos(q.bin);
    assert u in ix.rings;
    assert q == Down(u, bit);
    BelowUp(u, t, bit);
    if u != t {
      bit := ChildTowards(ix, t, u);
      BelowDown(u, Down(t, bit), q.pos % 2);
    }
  }

  lemma PrefersBelow(ix: Index, t: Slot, q: Slot, first: nat, bit: nat)
    requires Prefers(ix, t, q, first) && bit <= 1 && t.pos >= 2 && (q == Down(t, bit) || Below(q, Down(t, bit)))
    ensures Prefers(ix, Down(t, bit), q, first)
  {
    var d := Down(t, bit);
    BelowDown(t, t, bit);
    forall u | (u == d || Below(u, d)) && Below(q, u) && Down(u, first) in ix.rings
      ensures q == Down(u, first) || Below(q, Down(u, first))
    {
      if u != d {
        BelowTwice(u, d, t);
      }
    }
  }

  lemma {:induction false} OneLeaf(ix: Index, t: Slot, q: Slot, p: Slot, first: nat)
    requires Rooted(ix) && InTrie(t) && t.pos >= 2 && first <= 1
    requires Prefers(ix, t, q, first) && Prefers(ix, t, p, first)
    requires q in ix.rings && IsLeaf(ix, q) && p in ix.rings && IsLeaf(ix, p)
    ensures q == p
    decreases ShiftAt(t) - ShiftAt(q)
  {
    if q != t {
      var b := ChildTowards(ix, t, q);
      if p != t {
        var a := ChildTowards(ix, t, p);
        var bit := if Down(t, first) in ix.rings then first else b;
        assert Down(t, first) !in ix.rings ==> a == b == 1 - first;
        assert q == Down(t, bit) || Below(q, Down(t, bit));
        assert p == Down(t, bit) || Below(p, Down(t, bit));
        ShiftDown(t, bit);
        PrefersBelow(ix, t, q, first, bit);
        PrefersBelow(ix, t, p, first, bit);
        OneLeaf(ix, Down(t, bit), q, p, first);
      }
    } else if p != t {
      var a := ChildTowards(ix, t, p);
    }
  }

  /** A node has one successor. */
  lemma OneSuccessor(ix: Index, s: Slot, q: Slot, p: Slot)
    requires Rooted(ix) && s in ix.rings && InTrie(s) && Successor(ix, s, q) && Successor(ix, s, p)
    ensures q == p
  {
    hide Prefers;
    var u := Up(s);
    if Down(s, 0) in ix.rings {
      OneLeaf(ix, Down(s, 0), q, p, 1);
    } else {
      OneLeaf(ix, Down(s, 1), q, p, 0);
    }
  }

  /** The index without chunk c. */
  lemma TakenOutOnce(ix: Index, x: Index, y: Index, c: int)
    requires Members(ix) && Rooted(ix) && TakenOut(ix, x, c) && TakenOut(ix, y, c)
    ensures x == y
  {
    hide Prefers, Removed, Replaced, Detached;
    var s := ix.slot[c];
    if InTrie(s) && |ix.rings[s]| == 1 && !IsLeaf(ix, s) {
      var q :| Successor(ix, s, q) && x == Replaced(Detached(ix, q), s, ix.rings[q]);
      var p :| Successor(ix, s, p) && y == Replaced(Detached(ix, p), s, ix.rings[p]);
      OneSuccessor(ix, s, q, p);
    }
  }

  lemma ReleasedOnce(ix: Index, v: int, x: Index, u: int, y: Index, w: int, c: int)
    requires Members(ix) && Rooted(ix) && Released(ix, v, x, u, c) && Released(ix, v, y, w, c)
    ensures x == y && u == w
  {
    hide TakenOut;
    if c != v {
      TakenOutOnce(ix, x, y, c);
    }
  }

  // ----- the slot of a chunk

  lemma UpOnPath(ix: Index, H: Heap, t: Slot, size: nat)
    requires OnPath(ix, H, t, size) && ShiftAt(t) < ShiftAt(RootSlot(t.bin))
    ensures Up(t) in ix.rings && ShiftAt(Up(t)) == ShiftAt(t) + 1 && Shr(size, ShiftAt(Up(t)) + 1) == Up(t).pos
  {
    hide BinOf;
    RootIsHighest(t);
    RootIsHighest(RootSlot(t.bin));
  }

  /** Above a slot with a circle every slot on the same path has one. */
  lemma HigherPresent(ix: Index, u: Slot, s: Slot, size: nat)
    requires Rooted(ix) && u in ix.rings && InTrie(u) && s.bin == u.bin
    requires 0 <= ShiftAt(u) <= ShiftAt(s) <= ShiftAt(RootSlot(u.bin))
    requires Shr(size, ShiftAt(u) + 1) == u.pos && Shr(size, ShiftAt(s) + 1) == s.pos
    ensures s in ix.rings
  {
    hide Rooted, ShiftAt, Shr, RootSlot;
    if ShiftAt(u) < ShiftAt(s) {
      AncestorPresent(ix, u, size, ShiftAt(s) + 1);
    }
    assert s == Slot(u.bin, Shr(size, ShiftAt(s) + 1));
  }

  /** Of two slots on the path of a size, no chunk of the size is at the higher one. */
  lemma PathPasses(ix: Index, H: Heap, s: Slot, t: Slot, size: nat)
    requires Shaped(ix, H) && OnPath(ix, H, s, size) && OnPath(ix, H, t, size) && ShiftAt(t) < ShiftAt(s)
    ensures s in ix.rings && SizeOf(H, Head(ix, s)) != size
  {
    hide BinOf, Shr, Placed, Distinct, Rooted, ShiftAt;
    UpOnPath(ix, H, t, size);
    HigherPresent(ix, Up(t), s, size);
    assert ix.rings[s][0] in ix.slot && ix.slot[ix.rings[s][0]] == s;
  }

  lemma OneSlot(ix: Index, H: Heap, size: nat, s: Slot, t: Slot)
    requires Shaped(ix, H) && NewSlot(ix, H, size, s) && NewSlot(ix, H, size, t)
    ensures s == t
  {
    hide BinOf, Shaped;
    if IsLarge(size) && !IsHuge(size) {
      if ShiftAt(t) < ShiftAt(s) {
        PathPasses(ix, H, s, t, size);
      }
      if ShiftAt(s) < ShiftAt(t) {
        PathPasses(ix, H, t, s, size);
      }
    }
  }

  lemma PutInOnce(ix: Index, x: Index, y: Index, H: Heap, c: int)
    requires PutIn(ix, x, H, c) && PutIn(ix, y, H, c)
    ensures x == y
  {
    hide NewSlot, Inserted, Shaped;
    var s :| NewSlot(ix, H, SizeOf(H, c), s) && x == Inserted(ix, s, c);
    var t :| NewSlot(ix, H, SizeOf(H, c), t) && y == Inserted(ix, t, c);
    OneSlot(ix, H, SizeOf(H, c), s, t);
  }

  // ----- the chunk that serves a request

  lemma OneAbove(ix: Index, H: Heap, n: nat, c: int, d: int)
    requires Shaped(ix, H) && n >= 31 && SmallestAbove(ix, H, n, c) && SmallestAbove(ix, H, n, d)
    ensures c == d
  {
    if c != NULL && d != NULL {
      BinMeansLarge(ix, H, c);
      BinMeansLarge(ix, H, d);
      if ix.slot[c].bin < ix.slot[d].bin {
        HigherBinFits(SizeOf(H, c), SizeOf(H, d));
      } else if ix.slot[d].bin < ix.slot[c].bin {
        HigherBinFits(SizeOf(H, d), SizeOf(H, c));
      }
    }
  }

  lemma OneLooked(ix: Index, H: Heap, request: nat, c: int, d: int)
    requires Shaped(ix, H) && SmallestLooked(ix, H, request, c) && SmallestLooked(ix, H, request, d)
    ensures c == d
  {
    hide Shr, BinOf, ShiftAt;
  }

  lemma OneBest(ix: Index, H: Heap, request: nat, c: int, d: int)
    requires Shaped(ix, H) && BinOf(request) >= 31 && BestFor(ix, H, request, c) && BestFor(ix, H, request, d)
    ensures c == d
  {
    hide SmallestLooked, SmallestAbove;
    if exists a :: a in ix.slot && ix.slot[a].bin == BinOf(request) && SizeOf(H, a) >= request {
      OneLooked(ix, H, request, c, d);
    } else {
      OneAbove(ix, H, BinOf(request), c, d);
    }
  }

  lemma OneHuge(ix: Index, H: Heap, request: nat, c: int, d: int)
    requires Members(ix) && BestHuge(ix, H, request, c) && BestHuge(ix, H, request, d)
    ensures c == d
  {
    if c != NULL && d != NULL {
      var r := Circle(ix, Slot(2, 0));
      var i: nat :| FirstOfSize(r, H, i) && c == r[i];
      var j: nat :| FirstOfSize(r, H, j) && d == r[j];
      assert SizeOf(H, r[i]) == SizeOf(H, r[j]);
    }
  }

  lemma OnePick(v: int, ix: Index, H: Heap, r: nat, c: int, d: int)
    requires Shaped(ix, H) && Pick(v, ix, H, r, c) && Pick(v, ix, H, r, d)
    ensures c == d
  {
    hide BestHuge, BestFor, SmallestAbove, Shaped;
    assert Members(ix) by { MembersOf(ix, H); }
    if IsHuge(8 * r) {
      OneHuge(ix, H, 8 * r, c, d);
    } else if IsLarge(8 * r) {
      BinInRange(8 * r);
      if !VictimServes(v, H, r) {
        OneBest(ix, H, 8 * r, c, d);
      }
    } else if Head(ix, Slot(SmallRequestIndex(8 * r), 0)) == NULL && !VictimServes(v, H, r) {
      OneAbove(ix, H, 31, c, d);
    }
  }

  lemma MembersOf(ix: Index, H: Heap)
    requires Shaped(ix, H)
    ensures Members(ix) && Rooted(ix)
  {
  }

  lemma OnePicked(v: int, ix: Index, H: Heap, last: int, r: nat, c: int, d: int)
    requires Shaped(ix, H) && Picked(v, ix, H, last, r, c) && Picked(v, ix, H, last, r, d)
    ensures c == d || (c in {NULL, last} && d in {NULL, last})
  {
    hide Pick, Shaped;
    OnePick(v, ix, H, r, if c == last then NULL else c, if d == last then NULL else d);
  }

  // ----- the heap, the index and the victim after a call

  lemma MallocOnce(ix: Index, v: int, H: Heap, x: Index, u: int, y: Index, w: int, last: int, c: int, r: int)
    requires Members(ix) && Rooted(ix)
    requires MallocPlaces(ix, v, H, x, u, last, c, r) && MallocPlaces(ix, v, H, y, w, last, c, r)
    ensures x == y && u == w
  {
    hide Released, PutIn;
    if c != last && c != v {
      var a :| Released(ix, v, a, v, c) && BinServes(a, v, H, x, u, c, r);
      var b :| Released(ix, v, b, v, c) && BinServes(b, v, H, y, w, c, r);
      ReleasedOnce(ix, v, a, v, b, v, c);
      if c in H && CanSplit(H[c].size, r) && !IsHuge(8 * r) && v != NULL {
        PutInOnce(a, x, y, H, v);
      }
    }
  }

  lemma MergedForthOnce(ix: Index, v: int, H: Heap, x: Index, u: int, y: Index, w: int, last: int, c: int)
    requires Members(ix) && Rooted(ix) && MergedForth(ix, v, H, x, u, last, c) && MergedForth(ix, v, H, y, w, last, c)
    ensures x == y && u == w
  {
    hide Released;
    if !H[Next(H, c)].used && Next(H, c) != last {
      ReleasedOnce(ix, v, x, u, y, w, Next(H, c));
    }
  }

  lemma MergedBackOnce(ix: Index, v: int, H: Heap, x: Index, u: int, y: Index, w: int, c: int)
    requires Members(ix) && Rooted(ix) && MergedBack(ix, v, H, x, u, c) && MergedBack(ix, v, H, y, w, c)
    ensures x == y && u == w && Members(x) && Rooted(x)
  {
    if !H[c].pin {
      ReleasedOnce(ix, v, x, u, y, w, Prev(H, c));
    }
  }

  lemma PutBackOnce(ix: Index, x: Index, y: Index, H: Heap, H': Heap, last: int, c: int, d: int)
    requires PutBack(ix, x, H, H', last, c, d) && PutBack(ix, y, H, H', last, c, d)
    ensures x == y
  {
    hide PutIn;
    if Next(H, c) != last {
      PutInOnce(ix, x, y, H', d);
    }
  }

  lemma FreeOnce(ix: Index, v: int, H: Heap, x: Index, u: int, y: Index, w: int, H': Heap, last: int, c: int)
    requires Members(ix) && Rooted(ix)
    requires FreePlaces(ix, v, H, x, u, H', last, c) && FreePlaces(ix, v, H, y, w, H', last, c)
    ensures x == y && u == w
  {
    hide MergedBack, MergedForth, PutBack;
    var x1, u1, x2 :| MergedBack(ix, v, H, x1, u1, c) && MergedForth(x1, u1, H, x2, u, last, c)
      && c in H && PutBack(x2, x, H, H', last, c, MergedAt(H, c));
    var y1, w1, y2 :| MergedBack(ix, v, H, y1, w1, c) && MergedForth(y1, w1, H, y2, w, last, c)
      && c in H && PutBack(y2, y, H, H', last, c, MergedAt(H, c));
    MergedBackOnce(ix, v, H, x1, u1, y1, w1, c);
    MergedForthOnce(x1, u1, H, x2, u, y2, w, last, c);
    PutBackOnce(x2, x, y, H, H', last, c, MergedAt(H, c));
  }

  lemma ShrinkOnce(ix: Index, v: int, H: Heap, x: Index, u: int, y: Index, w: int, H': Heap, last: int, c: int, r: int)
    requires Members(ix) && Rooted(ix)
    requires ShrinkPlaces(ix, v, H, x, u, H', last, c, r) && ShrinkPlaces(ix, v, H, y, w, H', last, c, r)
    ensures x == y && u == w
  {
    hide MergedForth, PutBack;
    if c in H && CanSplit(H[c].size, r) {
      var a :| MergedForth(ix, v, H, a, u, last, c) && PutBack(a, x, H, H', last, c, c + r + 1);
      var b :| MergedForth(ix, v, H, b, w, last, c) && PutBack(b, y, H, H', last, c, c + r + 1);
      MergedForthOnce(ix, v, H, a, u, b, w, last, c);
      PutBackOnce(a, x, y, H, H', last, c, c + r + 1);
    }
  }

  lemma RestOnce(ix: Index, x: Index, y: Index, h: Heap, b: int, r: int)
    requires RestPlaces(ix, x, h, b, r) && RestPlaces(ix, y, h, b, r)
    ensures x == y
  {
    hide PutIn;
    if CanSplit(h[b].size, r) {
      PutInOnce(ix, x, y, SplitH(h, b, r, true), b + r + 1);
    }
  }

  lemma AfterOnce(ix: Index, v: int, H: Heap, x: Index, u: int, y: Index, w: int, c: int, r: int)
    requires Members(ix) && Rooted(ix) && AfterPlaces(ix, v, H, x, u, c, r) && AfterPlaces(ix, v, H, y, w, c, r)
    ensures x == y && u == w
  {
    hide Released, RestPlaces, JoinH;
    var a :| Released(ix, v, a, u, Next(H, c)) && RestPlaces(a, x, JoinH(H, c), c, r);
    var b :| Released(ix, v, b, w, Next(H, c)) && RestPlaces(b, y, JoinH(H, c), c, r);
    ReleasedOnce(ix, v, a, u, b, w, Next(H, c));
    RestOnce(a, x, y, JoinH(H, c), c, r);
  }

  lemma BothOnce(ix: Index, v: int, H: Heap, x: Index, u: int, y: Index, w: int, b: int, c: int, r: int)
    requires Members(ix) && Rooted(ix) && BothPlaces(ix, v, H, x, u, b, c, r) && BothPlaces(ix, v, H, y, w, b, c, r)
    ensures x == y && u == w
  {
    hide RestPlaces, JoinH, TakenBackH, TakenOut;
    var h := JoinH(TakenBackH(H, b), b);
    var x1, u1, x2 :| Released(ix, v, x1, u1, Next(H, c)) && Released(x1, u1, x2, u, b) && RestPlaces(x2, x, h, b, r);
    var y1, w1, y2 :| Released(ix, v, y1, w1, Next(H, c)) && Released(y1, w1, y2, w, b) && RestPlaces(y2, y, h, b, r);
    ReleasedOnce(ix, v, x1, u1, y1, w1, Next(H, c));
    ReleasedOnce(x1, u1, x2, u, y2, w, b);
    RestOnce(x2, x, y, h, b, r);
  }

  lemma BeforeOnce(ix: Index, v: int, H: Heap, x: Index, u: int, y: Index, w: int, b: int, r: int)
    requires Members(ix) && Rooted(ix) && BeforePlaces(ix, v, H, x, u, b, r) && BeforePlaces(ix, v, H, y, w, b, r)
    ensures x == y && u == w
  {
    hide Released, RestPlaces, TakenBackH;
    var a :| Released(ix, v, a, u, b) && RestPlaces(a, x, TakenBackH(H, b), b, r);
    var e :| Released(ix, v, e, w, b) && RestPlaces(e, y, TakenBackH(H, b), b, r);
    ReleasedOnce(ix, v, a, u, e, w, b);
    RestOnce(a, x, y, TakenBackH(H, b), b, r);
  }

  lemma NearbyOnce(ix: Index, v: int, H: Heap, x: Index, u: int, y: Index, w: int, last: int, c: int, r: int)
    requires Members(ix) && Rooted(ix)
    requires NearbyPlaces(ix, v, H, x, u, last, c, r) && NearbyPlaces(ix, v, H, y, w, last, c, r)
    ensures x == y && u == w
  {
    hide AfterPlaces, BothPlaces, BeforePlaces, FitsAfter, FitsBoth;
    if FitsAfter(H, last, c, r) {
      AfterOnce(ix, v, H, x, u, y, w, c, r);
    } else if FitsBoth(H, last, c, r) {
      BothOnce(ix, v, H, x, u, y, w, Prev(H, c), c, r);
    } else {
      BeforeOnce(ix, v, H, x, u, y, w, Prev(H, c), r);
    }
  }

  lemma CopyStepsOnce(H: Heap, h: Heap, h': Heap, H1: Heap, H2: Heap, last: int, e: int, e': int, c: int, d: int,
                      r: int)
    requires CopyStep(H, h, H1, last, e, c, d, r) && CopyStep(H, h', H2, last, e', c, d, r)
    ensures h == h' && e == e' && H1 == H2
  {
  }

  /** The copying realloc: the new block, and everything after it. */
  lemma CopyOnce(ix: Index, v: int, H: Heap, x: Index, u: int, H1: Heap, y: Index, w: int, H2: Heap, last: int, c: int,
                 d: int, d': int, r: nat)
    requires Shaped(ix, H) && NULL !in H
    requires CopyPlaces(ix, v, H, x, u, H1, last, c, d, r) && CopyPlaces(ix, v, H, y, w, H2, last, c, d', r)
    ensures d == d' && H1 == H2 && x == y && u == w
  {
    hide Shaped, MallocPlaces, FreePlaces, Picked, FreeStep, SplitH, Use, ExtendH, TakenH;
    MembersOf(ix, H);
    var x1, u1, h, e :| CopiedAway(ix, v, H, x1, u1, h, x, u, H1, last, e, c, d, r);
    var y1, w1, h', e' :| CopiedAway(ix, v, H, y1, w1, h', y, w, H2, last, e', c, d', r);
    OnePicked(v, ix, H, last, r, d, d');
    CopyStepsOnce(H, h, h', H1, H2, last, e, e', c, d, r);
    MallocOnce(ix, v, H, x1, u1, y1, w1, last, d, r);
    FreeOnce(x1, u1, h, x, u, y, w, H1, e, c);
  }

  // ----- what is in the bins after a call

  lemma RemovedKeys(ix: Index, s: Slot, k: int)
    requires Members(ix) && s in ix.rings && 0 <= k < |ix.rings[s]|
    ensures Removed(ix, s, k).slot.Keys == ix.slot.Keys - {ix.rings[s][k]}
  {
  }

  lemma TakenOutKeys(ix: Index, x: Index, c: int)
    requires Members(ix) && TakenOut(ix, x, c)
    ensures x.slot.Keys == ix.slot.Keys - {c}
  {
    hide Prefers, Replaced, Detached, Removed;
    var s, r := ix.slot[c], ix.rings[ix.slot[c]];
    if InTrie(s) && |r| == 1 && !IsLeaf(ix, s) {
      var q :| Successor(ix, s, q) && x == Replaced(Detached(ix, q), s, ix.rings[q]);
      assert r == [c];
      PromotedKeys(ix, q, s, c);
    } else {
      var k :| 0 <= k < |r| && r[k] == c && x == Removed(ix, s, k);
      RemovedKeys(ix, s, k);
    }
  }

  lemma ReleasedKeys(ix: Index, v: int, x: Index, u: int, c: int)
    requires Members(ix) && Released(ix, v, x, u, c)
    ensures x.slot.Keys == (if c == v then ix.slot.Keys else ix.slot.Keys - {c}) && u == if c == v then NULL else v
  {
    hide TakenOut;
    if c != v {
      TakenOutKeys(ix, x, c);
    }
  }

  lemma PutInKeys(ix: Index, x: Index, H: Heap, c: int)
    requires PutIn(ix, x, H, c)
    ensures x.slot.Keys == ix.slot.Keys + {c}
  {
    hide NewSlot, Shaped;
  }

  /** After malloc has served r words from chunk c: which chunks are in bins, and the victim. */
  lemma MallocLeaves(ix: Index, v: int, H: Heap, x: Index, u: int, last: int, c: int, r: int)
    requires Shaped(ix, H) && Agree(H, ix.slot.Keys, v, last, {}) && c in H && !H[c].used
    requires MallocPlaces(ix, v, H, x, u, last, c, r)
    ensures c == last ==> x == ix && u == v
    ensures c == v ==> x == ix && u == if CanSplit(H[c].size, r) then c + r + 1 else NULL
    ensures c in ix.slot && CanSplit(H[c].size, r) && !IsHuge(8 * r) ==>
              u == c + r + 1 && x.slot.Keys == ix.slot.Keys - {c} + if v == NULL then {} else {v}
    ensures c in ix.slot && (!CanSplit(H[c].size, r) || IsHuge(8 * r)) ==> u == v && x.slot.Keys == ix.slot.Keys - {c}
  {
    hide Shaped, Released, PutIn;
    MembersOf(ix, H);
    if c != last && c != v {
      var y :| Released(ix, v, y, v, c) && BinServes(y, v, H, x, u, c, r);
      ReleasedKeys(ix, v, y, v, c);
      if CanSplit(H[c].size, r) && !IsHuge(8 * r) && v != NULL {
        PutInKeys(y, x, H, v);
      }
    }
  }

  /** The free chunks that a freed block takes in and that were in a bin or the victim. */
  ghost function TakenIn(H: Heap, last: int, c: int): set<int>
    requires c in H
  {
    (if H[c].pin then {} else {Prev(H, c)}) + NextTaken(H, last, c)
  }

  ghost function NextTaken(H: Heap, last: int, c: int): set<int>
    requires c in H
  {
    if Next(H, c) in H && !H[Next(H, c)].used && Next(H, c) != last then {Next(H, c)} else {}
  }

  /** After free of block c: the merged chunk is in its bin unless it is the end of the heap,
      its parts are not, and the victim is gone if it was one of them. */
  lemma FreeLeaves(ix: Index, v: int, H: Heap, x: Index, u: int, H': Heap, start: int, last: int, brk: int, c: int)
    requires Tiled(H, start, last, brk) && PinsOk(H, start) && Shaped(ix, H)
    requires Agree(H, ix.slot.Keys, v, last, {}) && c in H && H[c].used
    requires FreePlaces(ix, v, H, x, u, H', last, c)
    ensures u == if v in TakenIn(H, last, c) then NULL else v
    ensures x.slot.Keys ==
              ix.slot.Keys - TakenIn(H, last, c) + if Next(H, c) == last then {} else {MergedAt(H, c)}
  {
    hide Shaped, Released, PutIn, Bounded, Forward, Spaced;
    MembersOf(ix, H);
    var x1, u1, x2 :| MergedBack(ix, v, H, x1, u1, c) && MergedForth(x1, u1, H, x2, u, last, c)
      && c in H && PutBack(x2, x, H, H', last, c, MergedAt(H, c));
    BackLeaves(ix, v, H, x1, u1, start, last, brk, c);
    ForthLeaves(x1, u1, H, x2, u, last, c);
    assert v in NextTaken(H, last, c) ==> v != NULL;
    if Next(H, c) != last {
      PutInKeys(x2, x, H', MergedAt(H, c));
    }
  }

  lemma BackLeaves(ix: Index, v: int, H: Heap, x: Index, u: int, start: int, last: int, brk: int, c: int)
    requires Tiled(H, start, last, brk) && PinsOk(H, start) && c in H && Members(ix)
    requires Agree(H, ix.slot.Keys, v, last, {}) && MergedBack(ix, v, H, x, u, c)
    ensures var b := if H[c].pin then {} else {Prev(H, c)};
            u == (if v in b then NULL else v) && x.slot.Keys == ix.slot.Keys - b && Members(x)
  {
    hide TakenOut, Bounded, Forward, Backward, Spaced;
    if !H[c].pin {
      ReleasedKeys(ix, v, x, u, Prev(H, c));
    }
  }

  lemma ForthLeaves(ix: Index, v: int, H: Heap, x: Index, u: int, last: int, c: int)
    requires Members(ix) && MergedForth(ix, v, H, x, u, last, c)
    requires NULL !in H && v !in ix.slot
    ensures u == (if v in NextTaken(H, last, c) then NULL else v)
    ensures x.slot.Keys == ix.slot.Keys - NextTaken(H, last, c)
  {
    hide Released;
    if !H[Next(H, c)].used && Next(H, c) != last {
      ReleasedKeys(ix, v, x, u, Next(H, c));
    }
  }

  /** After block c has been cut to r words: so it is with the rest. */
  lemma ShrinkLeaves(ix: Index, v: int, H: Heap, x: Index, u: int, H': Heap, last: int, c: int, r: int)
    requires Shaped(ix, H) && Agree(H, ix.slot.Keys, v, last, {}) && c in H && CanSplit(H[c].size, r)
    requires ShrinkPlaces(ix, v, H, x, u, H', last, c, r)
    ensures u == if v in NextTaken(H, last, c) then NULL else v
    ensures x.slot.Keys == ix.slot.Keys - NextTaken(H, last, c) + if Next(H, c) == last then {} else {c + r + 1}
  {
    hide Shaped, MergedForth, PutIn;
    MembersOf(ix, H);
    var y :| MergedForth(ix, v, H, y, u, last, c) && PutBack(y, x, H, H', last, c, c + r + 1);
    ForthLeaves(ix, v, H, y, u, last, c);
    if Next(H, c) != last {
      PutInKeys(y, x, H', c + r + 1);
    }
  }

  lemma RestLeaves(ix: Index, x: Index, h: Heap, b: int, r: int)
    requires RestPlaces(ix, x, h, b, r)
    ensures x.slot.Keys == ix.slot.Keys + if CanSplit(h[b].size, r) then {b + r + 1} else {}
  {
    hide PutIn;
    if CanSplit(h[b].size, r) {
      PutInKeys(ix, x, SplitH(h, b, r, true), b + r + 1);
    }
  }

  lemma AfterLeaves(ix: Index, v: int, H: Heap, x: Index, u: int, c: int, r: int)
    requires Members(ix) && v !in ix.slot && AfterPlaces(ix, v, H, x, u, c, r)
    requires c in JoinH(H, c) && JoinH(H, c)[c].size == H[c].size + H[Next(H, c)].size + 1
    ensures u == if v == Next(H, c) then NULL else v
    ensures x.slot.Keys ==
              ix.slot.Keys - {Next(H, c)}
              + if CanSplit(H[c].size + H[Next(H, c)].size + 1, r) then {c + r + 1} else {}
  {
    hide Released, RestPlaces, JoinH;
    var a :| Released(ix, v, a, u, Next(H, c)) && RestPlaces(a, x, JoinH(H, c), c, r);
    ReleasedKeys(ix, v, a, u, Next(H, c));
    RestLeaves(a, x, JoinH(H, c), c, r);
  }

  lemma BothLeaves(ix: Index, v: int, H: Heap, x: Index, u: int, b: int, c: int, r: int)
    requires Members(ix) && v !in ix.slot && NULL !in H && BothPlaces(ix, v, H, x, u, b, c, r) && Next(H, c) in H
    requires Next(H, c) != b && JoinH(TakenBackH(H, b), b)[b].size == H[c].size + H[b].size + H[Next(H, c)].size + 2
    ensures u == if v in {Next(H, c), b} then NULL else v
    ensures x.slot.Keys ==
              ix.slot.Keys - {Next(H, c), b}
              + if CanSplit(H[c].size + H[b].size + H[Next(H, c)].size + 2, r) then {b + r + 1} else {}
  {
    hide RestPlaces, JoinH, TakenBackH, TakenOut;
    var h := JoinH(TakenBackH(H, b), b);
    var y, w, z :| Released(ix, v, y, w, Next(H, c)) && Released(y, w, z, u, b) && RestPlaces(z, x, h, b, r);
    ReleasedKeys(ix, v, y, w, Next(H, c));
    ReleasedKeys(y, w, z, u, b);
    RestLeaves(z, x, h, b, r);
  }

  lemma BeforeLeaves(ix: Index, v: int, H: Heap, x: Index, u: int, b: int, c: int, r: int)
    requires Members(ix) && v !in ix.slot && BeforePlaces(ix, v, H, x, u, b, r) && Next(H, b) == c
    requires b in TakenBackH(H, b) && TakenBackH(H, b)[b].size == H[b].size + H[c].size + 1
    ensures u == if v == b then NULL else v
    ensures x.slot.Keys ==
              ix.slot.Keys - {b} + if CanSplit(H[c].size + H[b].size + 1, r) then {b + r + 1} else {}
  {
    hide Released, RestPlaces, TakenBackH;
    var a :| Released(ix, v, a, u, b) && RestPlaces(a, x, TakenBackH(H, b), b, r);
    ReleasedKeys(ix, v, a, u, b);
    RestLeaves(a, x, TakenBackH(H, b), b, r);
  }

  /** The words of block c and the neighbours it grows into. */
  ghost function GrownSize(H: Heap, last: int, c: int, r: int): int {
    if FitsAfter(H, last, c, r) then H[c].size + H[Next(H, c)].size + 1
    else if FitsBoth(H, last, c, r) then H[c].size + H[Prev(H, c)].size + H[Next(H, c)].size + 2
    else if FitsBefore(H, last, c, r) then H[c].size + H[Prev(H, c)].size + 1
    else 0
  }

  lemma AfterFused(H: Heap, start: int, last: int, brk: int, c: int)
    requires Tiled(H, start, last, brk) && c in H && c != last
    ensures Next(H, c) in H && c in JoinH(H, c) && JoinH(H, c)[c].size == H[c].size + H[Next(H, c)].size + 1
  {
    JoinCuts(H, start, last, brk, c);
  }

  lemma BeforeFused(H: Heap, start: int, last: int, brk: int, c: int)
    requires Tiled(H, start, last, brk) && PinsOk(H, start) && c in H && H[c].used && !H[c].pin && !H[last].used
    ensures var b := Prev(H, c);
            && b in H && Next(H, b) == c && b in TakenBackH(H, b)
            && TakenBackH(H, b)[b].size == H[b].size + H[c].size + 1
  {
    BelievedFree(H, start, last, brk, c);
    TakenBack(H, start, last, brk, Prev(H, c), c);
  }

  lemma BothFused(H: Heap, start: int, last: int, brk: int, c: int, r: int)
    requires Tiled(H, start, last, brk) && PinsOk(H, start) && c in H && H[c].used && !H[last].used
    requires FitsBoth(H, last, c, r)
    ensures var b := Prev(H, c);
            && b in H && Next(H, b) == c && b in TakenBackH(H, b) && Next(TakenBackH(H, b), b) in TakenBackH(H, b)
            && JoinH(TakenBackH(H, b), b)[b].size == H[c].size + H[b].size + H[Next(H, c)].size + 2
  {
    BelievedFree(H, start, last, brk, c);
    TakenBack(H, start, last, brk, Prev(H, c), c);
    TakenBackNext(H, start, last, brk, Prev(H, c), c);
  }

  /** After block c has grown into the chunks next to it: what it took in is in no bin and not
      the victim, and the rest, if it makes a chunk, is in its bin. */
  lemma NearbyLeaves(ix: Index, v: int, H: Heap, x: Index, u: int, start: int, last: int, brk: int, c: int, r: int)
    requires Tiled(H, start, last, brk) && PinsOk(H, start) && Shaped(ix, H) && c in H && H[c].used
    requires Agree(H, ix.slot.Keys, v, last, {})
    requires FitsNearby(H, last, c, r) && NearbyPlaces(ix, v, H, x, u, last, c, r)
    ensures var taken := if FitsAfter(H, last, c, r) then {Next(H, c)}
                         else if FitsBoth(H, last, c, r) then {Next(H, c), Prev(H, c)} else {Prev(H, c)};
            var b := if FitsAfter(H, last, c, r) then c else Prev(H, c);
            && u == (if v in taken then NULL else v)
            && x.slot.Keys ==
                 ix.slot.Keys - taken + if CanSplit(GrownSize(H, last, c, r), r) then {b + r + 1} else {}
  {
    hide Shaped, Released, RestPlaces, AfterPlaces, BothPlaces, BeforePlaces, Bounded, Forward, Backward, Spaced;
    MembersOf(ix, H);
    VictimApart(H, ix.slot.Keys, v, last);
    if FitsAfter(H, last, c, r) {
      AfterFused(H, start, last, brk, c);
      AfterLeaves(ix, v, H, x, u, c, r);
    } else {
      BelievedFree(H, start, last, brk, c);
      if FitsBoth(H, last, c, r) {
        BothFused(H, start, last, brk, c, r);
        BothLeaves(ix, v, H, x, u, Prev(H, c), c, r);
      } else {
        BeforeFused(H, start, last, brk, c);
        BeforeLeaves(ix, v, H, x, u, Prev(H, c), c, r);
      }
    }
  }

  lemma VictimApart(H: Heap, K: set<int>, v: int, last: int)
    requires Agree(H, K, v, last, {})
    ensures v !in K && NULL !in H && last in H && !H[last].used
  {
  }
}
