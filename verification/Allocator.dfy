/** malloc, free and realloc (allocator.c) over one arena of words. */
module Allocator {
  import opened AllocatorSteps
  import opened ReallocSteps
  import opened Places
  import opened Bits
  import opened Layout
  import opened Rings
  import opened Tiling
  import opened Fields
  import opened IndexModel
  import opened IndexChanges
  import opened TrieChanges
  import opened TrieSearch
  import opened HeapOps
  import opened HeapModel
  import opened ExactTags
  import opened HeapFacts
  import MemLib
  import FreeIndex

  class Allocator {
    const arena: MemLib.Arena
    const index: FreeIndex.FreeIndex
    ghost var H: Heap
    ghost var start: int
    ghost var last: int

    constructor (arena: MemLib.Arena)
      requires 8 * arena.words.Length <= MemLib.TWO_TO_THE_31
      ensures this.arena == arena && fresh(index) && fresh(index.bins) && Objects()
      ensures B() == seq(NUM_OF_BINS, _ => NULL) && index.ix == Index(map[], map[])
    {
      this.arena := arena;
      index := new FreeIndex.FreeIndex(arena.words);
    }

    ghost function M(): seq<int>
      reads arena.words
    {
      arena.words[..]
    }

    ghost function B(): seq<int>
      reads index.bins
    {
      index.bins[..]
    }

    /** The victim, NULL when there is none. */
    ghost function V(): int
      reads index.bins
    {
      if index.bins.Length == NUM_OF_BINS then index.bins[1] else NULL
    }

    /** The indexed chunks. */
    ghost function K(): set<int>
      reads index
    {
      index.ix.slot.Keys
    }

    ghost predicate Objects() {
      && index.mem == arena.words && index.bins != arena.words && index.bins.Length == NUM_OF_BINS
      && 8 * arena.words.Length <= MemLib.TWO_TO_THE_31
    }

    /** Memory is laid out as H says and the bins hold exactly the abstract index. */
    ghost predicate Base()
      reads this, arena, arena.words, index, index.bins
    {
      && Objects() && arena.over == 0
      && Laid(M(), H, start, last, arena.brk)
      && Shaped(index.ix, H)
      && Wired(M(), B(), index.ix)
    }

    // ----- fields of chunks

    /** The size of chunk c, in words. */
    function Size(c: int): nat
      requires 0 <= c + CURRENT_SIZE < arena.words.Length
      reads arena.words
    {
      SizeWords(arena.words[c + CURRENT_SIZE])
    }

    function NextChunk(c: int): int
      requires 0 <= c + CURRENT_SIZE < arena.words.Length
      reads arena.words
    {
      c + Size(c) + 1
    }

    function PreviousChunk(c: int): int
      requires 0 <= c < arena.words.Length
      reads arena.words
    {
      c - SizeWords(arena.words[c]) - 1
    }

    lemma Reads(c: int)
      requires Laid(M(), H, start, last, arena.brk) && c in H
      ensures 2 <= c && c + H[c].size + 1 < arena.brk <= arena.words.Length
      ensures Size(c) == H[c].size && NextChunk(c) == Next(H, c)
      ensures arena.words[c + CURRENT_SIZE] == HeaderOf(H[c])
      ensures PreviousInUse(arena.words[c + CURRENT_SIZE]) == H[c].pin
      ensures CurrentInUse(arena.words[c + CURRENT_SIZE]) == H[c].used
      ensures c != last ==> Next(H, c) in H && Prev(H, Next(H, c)) == c
    {
      LaidCarved(M(), H, start, last, arena.brk);
      HeaderParts(H[c].size, H[c].used, H[c].pin);
      assert Field(M(), c, CURRENT_SIZE) == HeaderOf(H[c]);
    }

    // ----- splitting and combining free chunks

    method Put(i: int, v: int)
      requires Objects() && 0 <= i < arena.words.Length
      modifies arena.words
      ensures M() == old(M())[i := v]
    {
      arena.words[i] := v;
    }

    /** The stores of split_chunk, for a chunk of s words. */
    method WriteSplit(c: int, r: int, ghost s: int) returns (n: int)
      requires Objects() && 2 <= c && 3 <= r && CanSplit(s, r) && c + s + 1 < arena.words.Length
      requires Size(c) == s && index.bins[0] != c + r + 1
      modifies arena.words
      ensures n == c + r + 1 && Within(old(M()), M(), c + 1, c + s + 1)
      ensures Field(M(), c, CURRENT_SIZE) == Header(r, false, PreviousInUse(old(arena.words[c + CURRENT_SIZE])))
      ensures At(M(), n) == 8 * r && Field(M(), n, CURRENT_SIZE) == Header(s - r - 1, false, false)
      ensures At(M(), c + s + 1) == 8 * (s - r - 1)
    {
      var leftover := Size(c) - r - 1;
      HeaderParts(r, false, PreviousInUse(arena.words[c + CURRENT_SIZE]));
      HeaderParts(leftover, false, false);
      Put(c + CURRENT_SIZE, Header(r, false, PreviousInUse(arena.words[c + CURRENT_SIZE])));
      n := NextChunk(c);
      Put(n, 8 * r);
      Put(n + CURRENT_SIZE, Header(leftover, false, false));
      if n != index.bins[0] {
        Put(NextChunk(n), 8 * leftover);
      }
    }

    /** Cut free chunk c down to r words; the rest becomes the free chunk n. */
    method SplitChunk(c: int, r: int) returns (n: int)
      requires Base() && PinsOk(H, start) && c in H && !H[c].used && c !in K()
      requires 3 <= r && CanSplit(H[c].size, r) && (B()[0] == NULL || B()[0] in H)
      modifies `H, `last, arena.words
      ensures Base() && PinsOk(H, start) && n == c + r + 1 && H == SplitH(old(H), c, r, false)
      ensures last == (if c == old(last) then n else old(last))
      ensures Untouched(old(M()), M(), old(H), {})
    {
      hide Shaped, Wired, PinsOk, Untouched;
      Reads(c);
      SplitCuts(H, start, last, arena.brk, c, r, false);
      n := WriteSplit(c, r, H[c].size);
      SplitDone(old(M()), M(), B(), index.ix, H, start, last, arena.brk, c, r);
      SplitUntouched(old(M()), M(), H, start, last, arena.brk, c);
      last := if c == last then n else last;
      H := SplitH(H, c, r, false);
    }

    /** The stores of combine_chunks, for neighbours of s and t words, and what the assertion at
        line 760 says. */
    method WriteCombine(l: int, ghost s: int, ghost t: int) returns (held: bool)
      requires Objects() && 2 <= l && 3 <= s && 3 <= t && l + s + t + 2 < arena.words.Length
      requires Size(l) == s && Size(l + s + 1) == t
      requires index.bins[0] != l + s + 1 ==> l + s + t + 2 + CURRENT_SIZE < arena.words.Length
      modifies arena.words, index.bins
      ensures held <==>
                old(index.bins[0] == l + s + 1 || !PreviousInUse(arena.words[l + s + t + 2 + CURRENT_SIZE]))
      ensures Within(old(M()), M(), l + 1, l + s + t + 2)
      ensures Field(M(), l, CURRENT_SIZE) == Header(s + t + 1, false, PreviousInUse(old(arena.words[l + CURRENT_SIZE])))
      ensures old(B()[0]) != l + s + 1 ==> At(M(), l + s + t + 2) == 8 * (s + t + 1)
      ensures B() == old(B())[1 := if old(B()[1]) == l || old(B()[1]) == l + s + 1 then NULL else old(B()[1])]
    {
      var right := NextChunk(l);
      var combined := Size(l) + Size(right) + 1;
      held := true;
      if right != index.bins[0] {
        Put(NextChunk(right), 8 * combined);
        held := !PreviousInUse(arena.words[NextChunk(right) + CURRENT_SIZE]);
      }
      if index.bins[1] == l || index.bins[1] == right {
        index.bins[1] := NULL;
      }
      Put(l + CURRENT_SIZE, Header(combined, false, PreviousInUse(arena.words[l + CURRENT_SIZE])));
    }

    /** combine_chunks: free chunk l and its free successor become one. The assertion at line
        760 holds unless the chunk after both believes its predecessor in use. */
    method CombineChunks(l: int) returns (held: bool)
      requires Base() && PinsOk(H, start) && l in H && !H[l].used && l !in K() && l != last
      requires Next(H, l) in H && !H[Next(H, l)].used && Next(H, l) !in K() && B()[0] == last
      modifies `H, `last, arena.words, index.bins
      ensures Base() && PinsOk(H, start) && H == JoinH(old(H), l)
      ensures last == (if Next(old(H), l) == old(last) then l else old(last))
      ensures held <==> !old(AbsorbsStale(H, last, l))
      ensures Untouched(old(M()), M(), old(H), {})
      ensures B() == old(B())[1 := if old(B()[1]) == l || old(B()[1]) == Next(old(H), l) then NULL else old(B()[1])]
    {
      hide Shaped, Wired, PinsOk, Untouched, Heads, Feet;
      Reads(l);
      ghost var r := Next(H, l);
      Reads(r);
      if r != last {
        Reads(Next(H, r));
      }
      held := WriteCombine(l, H[l].size, H[r].size);
      CombineDone(old(M()), M(), old(B()), B(), index.ix, H, start, last, arena.brk, l);
      PairUntouched(old(M()), M(), H, start, last, arena.brk, l);
      last := if r == last then l else last;
      H := JoinH(H, l);
    }

    /** Hand chunk c to the client: set its bit and its successor's previous bit. */
    method MarkInUse(c: int)
      requires Base() && PinsOk(H, start) && c in H && c !in K() && c != last && Next(H, c) in H
      modifies `H, arena.words
      ensures Base() && PinsOk(H, start) && H == Use(old(H), c)
      ensures Untouched(old(M()), M(), old(H), {c})
    {
      Reads(c);
      Reads(Next(H, c));
      HeaderBits(H[c].size, H[c].used, H[c].pin);
      HeaderBits(H[Next(H, c)].size, H[Next(H, c)].used, H[Next(H, c)].pin);
      HeaderParts(H[c].size, true, H[c].pin);
      Put(c + CURRENT_SIZE, SetCurrentInUse(arena.words[c + CURRENT_SIZE]));
      var nx := NextChunk(c);
      Put(nx + CURRENT_SIZE, SetPreviousInUse(arena.words[nx + CURRENT_SIZE]));
      ToggleDone(old(M()), M(), B(), index.ix, H, Use(H, c), start, last, arena.brk, c);
      H := Use(H, c);
    }

    /** The first stores of free, for a chunk of s words. */
    method WriteFree(c: int, ghost s: int)
      requires Objects() && 2 <= c && 3 <= s && c + s + 2 < arena.words.Length && Size(c) == s
      requires SizeWords(ClearCurrentInUse(arena.words[c + CURRENT_SIZE])) == s
      modifies arena.words
      ensures Within(old(M()), M(), c + 1, c + s + 2)
      ensures Field(M(), c, CURRENT_SIZE) == ClearCurrentInUse(old(arena.words[c + CURRENT_SIZE]))
      ensures Field(M(), c + s + 1, CURRENT_SIZE) == ClearPreviousInUse(old(arena.words[c + s + 1 + CURRENT_SIZE]))
      ensures At(M(), c + s + 1) == 8 * s
    {
      Put(c + NEXT, NULL);
      Put(c + PREV, NULL);
      Put(c + CURRENT_SIZE, ClearCurrentInUse(arena.words[c + CURRENT_SIZE]));
      var nx := NextChunk(c);
      Put(nx + CURRENT_SIZE, ClearPreviousInUse(arena.words[nx + CURRENT_SIZE]));
      Put(nx, 8 * Size(c));
    }

    /** The first stores of free: clear the links, the bits, and write the footer. */
    method MarkFree(c: int)
      requires Base() && PinsOk(H, start) && c in H && c !in K() && c != last && Next(H, c) in H
      modifies `H, arena.words
      ensures Base() && PinsOk(H, start) && H == Unuse(old(H), c)
      ensures Untouched(old(M()), M(), old(H), {c})
    {
      Reads(c);
      Reads(Next(H, c));
      HeaderBits(H[c].size, H[c].used, H[c].pin);
      HeaderBits(H[Next(H, c)].size, H[Next(H, c)].used, H[Next(H, c)].pin);
      HeaderParts(H[c].size, false, H[c].pin);
      WriteFree(c, H[c].size);
      ToggleDone(old(M()), M(), B(), index.ix, H, Unuse(H, c), start, last, arena.brk, c);
      H := Unuse(H, c);
    }

    // ----- bins and victim

    /** The heap between two steps of an operation that has the chunks X in hand. */
    ghost predicate Inv(X: set<int>)
      reads this, arena, arena.words, index, index.bins
    {
      Base() && PinsOk(H, start) && Agree(H, K(), B()[1], last, X)
    }

    /** Between calls, every free chunk is in its bin, the victim, or the end of the heap. */
    ghost predicate Valid()
      reads this, arena, arena.words, index, index.bins
    {
      Inv({}) && B()[0] == last
    }

    lemma IndexOk()
      requires Base()
      ensures index.Ok(H)
    {
      LaidCarved(M(), H, start, last, arena.brk);
    }

    lemma WholeIndex()
      requires Base()
      ensures Members(index.ix) && Rooted(index.ix)
    {
    }

    lemma KMembers(c: int)
      requires Base() && c in K()
      ensures c in index.ix.slot && c in H && !H[c].used
    {
    }

    method RemoveChunkOrVictim(c: int, ghost X: set<int>)
      requires Inv(X) && c in H && !H[c].used && c != last && c !in X
      modifies index`ix, index.bins, arena.words
      ensures Inv(X + {c}) && B()[0] == old(B()[0]) && Untouched(old(M()), M(), H, {})
      ensures Released(old(index.ix), old(V()), index.ix, V(), c)
    {
      AgreeTake(H, K(), B()[1], last, X, c);
      IndexOk();
      if c == index.bins[1] {
        index.bins[1] := NULL;
        IndexKept(M(), M(), old(B()), B(), index.ix, H, H);
      } else {
        index.RemoveChunk(c, H);
        QuietLaid(old(M()), M(), H, start, last, arena.brk);
        assert B()[1] == old(B())[..2][1] && B()[0] == old(B())[..2][0];
      }
    }

    method InsertChunk(c: int, ghost X: set<int>)
      requires Base() && Agree(H, K(), B()[1], last, X) && c in X
      modifies index`ix, index.bins, arena.words
      ensures Base() && Agree(H, K(), B()[1], last, X - {c}) && B()[..2] == old(B()[..2])
      ensures Untouched(old(M()), M(), H, {}) && V() == old(V())
      ensures Indexed(old(index.ix), index.ix, H, c) && PutIn(old(index.ix), index.ix, H, c)
    {
      AgreeGive(H, K(), B()[1], last, X, c);
      IndexOk();
      index.InsertChunk(c, H);
      QuietLaid(old(M()), M(), H, start, last, arena.brk);
      assert B()[1] == old(B())[..2][1];
    }

    /** v becomes the victim. */
    method SetVictim(v: int, ghost X: set<int>)
      requires Base() && PinsOk(H, start) && Agree(H, K(), v, last, X)
      modifies index.bins
      ensures Inv(X) && B()[0] == old(B()[0]) && V() == v
    {
      index.bins[1] := v;
      LaidCarved(M(), H, start, last, arena.brk);
      IndexKept(M(), M(), old(B()), B(), index.ix, H, H);
    }

    /** Nothing has changed since `m`, `b`, `h`, `x` and `k` were recorded. */
    ghost predicate Same(m: seq<int>, b: seq<int>, h: Heap, x: Index, k: int)
      reads this, arena, arena.words, index, index.bins
    {
      M() == m && B() == b && H == h && index.ix == x && arena.brk == k
    }

    /** c has been found for a request of r words: it is in hand, cut to size if it could
        be, and no chunk in use was touched. */
    ghost predicate Found(c: int, r: int, m: seq<int>, h: Heap, e: int)
      reads this, arena, arena.words, index, index.bins
    {
      && Inv({c}) && B()[0] == last == e
      && c in h && !h[c].used && c != e && h[c].size >= r && H == TakenH(h, c, r)
      && Untouched(m, M(), h, {})
    }

    method SplitVictim(v: int, r: int)
      requires Valid() && 3 <= r && v == B()[1] && v != NULL && CanSplit(H[v].size, r)
      modifies `H, `last, arena.words, index.bins
      ensures last == old(last) && Found(v, r, old(M()), old(H), old(last)) && V() == v + r + 1
    {
      var n := SplitChunk(v, r);
      AgreeVictimSplit(old(H), H, start, last, arena.brk, K(), v, r);
      SetVictim(n, {v});
    }

    method UseVictim(v: int, r: int)
      requires Valid() && 3 <= r && v == B()[1] && v != NULL && r <= H[v].size && !CanSplit(H[v].size, r)
      modifies index.bins
      ensures Found(v, r, old(M()), old(H), old(last)) && V() == NULL
    {
      AgreeTake(H, K(), v, last, {}, v);
      assert {} + {v} == {v};
      SetVictim(NULL, {v});
    }

    /** The victim, when it is large enough for the request. */
    method TakeVictim(r: int) returns (c: int)
      requires Valid() && 3 <= r
      modifies `H, `last, arena.words, index.bins
      ensures last == old(last)
      ensures c == if VictimServes(old(V()), old(H), r) then old(V()) else NULL
      ensures c == NULL ==> Valid() && Same(old(M()), old(B()), old(H), old(index.ix), old(arena.brk))
      ensures c != NULL ==> Found(c, r, old(M()), old(H), old(last))
      ensures c != NULL ==> MallocPlaces(index.ix, old(V()), old(H), index.ix, V(), old(last), c, r)
    {
      c := index.bins[1];
      if c != NULL && CanSplit(ReadSize(c), r) {
        SplitVictim(c, r);
      } else if c != NULL && ReadSize(c) >= r {
        UseVictim(c, r);
      } else {
        c := NULL;
      }
    }

    /** Size of a chunk of the heap. */
    function ReadSize(c: int): (s: nat)
      requires Base() && c in H
      reads this, arena, arena.words, index, index.bins
      ensures s == H[c].size
    {
      Reads(c);
      Size(c)
    }

    // ----- malloc

    /** Take chunk c out of its bin. */
    method RemoveChunk(c: int)
      requires Valid() && c in K()
      modifies index`ix, index.bins, arena.words
      ensures Inv({c}) && B()[0] == last && Untouched(old(M()), M(), H, {})
      ensures c != old(V()) == V() && Released(old(index.ix), old(V()), index.ix, old(V()), c)
    {
      AgreeIndexed(H, K(), B()[1], last, {}, c);
      RemoveChunkOrVictim(c, {});
      assert {} + {c} == {c};
    }

    /** The victim goes to its bin, just before another takes its place. */
    method RetireVictim(ghost X: set<int>)
      requires Inv(X) && B()[1] != NULL
      modifies index`ix, index.bins, arena.words
      ensures Base() && Agree(H, K(), NULL, last, X) && B()[0] == old(B()[0]) && Untouched(old(M()), M(), H, {})
      ensures PutIn(old(index.ix), index.ix, H, old(V()))
    {
      AgreeRetire(H, K(), B()[1], last, X);
      IndexOk();
      index.InsertChunk(index.bins[1], H);
      QuietLaid(old(M()), M(), H, start, last, arena.brk);
      assert B()[0] == old(B())[..2][0];
    }

    method CutToVictim(c: int, r: int)
      requires Base() && PinsOk(H, start) && Agree(H, K(), NULL, last, {c}) && B()[0] == last
      requires 3 <= r && CanSplit(H[c].size, r)
      modifies `H, `last, index.bins, arena.words
      ensures last == old(last) && Inv({c}) && B()[0] == last
      ensures H == SplitH(old(H), c, r, false) && Untouched(old(M()), M(), old(H), {}) && V() == c + r + 1
    {
      hide Shaped, Wired, Tiled, Heads, Feet, PinsOk;
      AgreeInHand(H, K(), NULL, last, {c}, c);
      var n := SplitChunk(c, r);
      AgreeNewVictim(old(H), H, start, last, arena.brk, K(), c, r);
      SetVictim(n, {c});
    }

    /** Cut chunk c, in hand, to r words and make the rest the victim. */
    method SplitToVictim(c: int, r: int)
      requires Inv({c}) && B()[0] == last && 3 <= r && CanSplit(H[c].size, r)
      modifies `H, `last, index`ix, index.bins, arena.words
      ensures last == old(last) && Inv({c}) && B()[0] == last
      ensures H == SplitH(old(H), c, r, false) && Untouched(old(M()), M(), old(H), {}) && V() == c + r + 1
      ensures if old(V()) == NULL then index.ix == old(index.ix)
              else PutIn(old(index.ix), index.ix, old(H), old(V()))
    {
      if index.bins[1] != NULL {
        RetireVictim({c});
        ghost var m := M();
        CutToVictim(c, r);
        UntouchedTwice(old(M()), m, M(), old(H), {});
      } else {
        CutToVictim(c, r);
      }
    }

    /** Serve a request, not a huge one, from indexed chunk c. */
    method TakeFromBin(c: int, r: int)
      requires Valid() && c in K() && 3 <= r <= H[c].size && !IsHuge(8 * r)
      modifies `H, `last, index`ix, index.bins, arena.words
      ensures last == old(last) && Found(c, r, old(M()), old(H), old(last))
      ensures MallocPlaces(old(index.ix), old(V()), old(H), index.ix, V(), old(last), c, r)
    {
      hide Shaped, Wired, Laid, PinsOk, Untouched, Released, PutIn, BinServes, MallocPlaces;
      AgreeIndexed(H, K(), B()[1], last, {}, c);
      RemoveChunk(c);
      ghost var x := index.ix;
      if CanSplit(ReadSize(c), r) {
        ghost var m := M();
        SplitToVictim(c, r);
        UntouchedTwice(old(M()), m, M(), old(H), {});
        RestIsVictim(x, old(V()), old(H), index.ix, c, r);
      } else {
        NothingLeft(x, old(V()), old(H), c, r);
      }
      BinServed(old(index.ix), old(V()), old(H), x, index.ix, V(), last, c, r);
    }

    method SmallMalloc(r: int) returns (c: int)
      requires Valid() && 3 <= r && !IsLarge(8 * r)
      modifies `H, `last, index`ix, index.bins, arena.words
      ensures last == old(last)
      ensures SmallPick(old(V()), old(index.ix), old(H), r, c)
      ensures c == NULL ==> Valid() && Same(old(M()), old(B()), old(H), old(index.ix), old(arena.brk))
      ensures c != NULL ==> Found(c, r, old(M()), old(H), old(last))
      ensures c != NULL ==> MallocPlaces(old(index.ix), old(V()), old(H), index.ix, V(), old(last), c, r)
    {
      hide Laid, PinsOk, Agree, SmallestAbove, MallocPlaces;
      IndexOk();
      c := index.bins[SmallRequestIndex(8 * r)];
      SmallBinFits(M(), B(), index.ix, H, r);
      if c != NULL {
        TakeFromBin(c, r);
        return;
      }
      c := TakeVictim(r);
      if c != NULL {
        return;
      }
      IndexOk();
      c := index.NextBin(31, H);
      if c != NULL {
        AboveInTrie(index.ix, H, c);
        TrieFitsSmall(index.ix, H, c, r);
        TakeFromBin(c, r);
      }
    }

    /** Serve a huge request from the huge bin: the best fit, never split. */
    method HugeMalloc(r: int) returns (c: int)
      requires Valid() && 3 <= r
      modifies index`ix, index.bins, arena.words
      ensures BestHuge(old(index.ix), H, 8 * r, c)
      ensures c == NULL ==> Valid() && Same(old(M()), old(B()), H, old(index.ix), arena.brk)
      ensures c != NULL ==> Inv({c}) && B()[0] == last && c in H && !H[c].used && c != last && r <= H[c].size
      ensures c != NULL ==> Untouched(old(M()), M(), H, {})
      ensures c != NULL && IsHuge(8 * r) ==>
                MallocPlaces(old(index.ix), old(V()), H, index.ix, V(), last, c, r)
    {
      hide Laid, PinsOk;
      IndexOk();
      c := index.FindHuge(8 * r, H);
      if c != NULL {
        assert c in K();
        KMembers(c);
        AgreeIndexed(H, K(), B()[1], last, {}, c);
        RemoveChunk(c);
      }
    }

    /** A chunk for a large request that is not huge. */
    method TrieMalloc(r: int) returns (c: int, over: bool)
      requires Valid() && 3 <= r && IsLarge(8 * r) && !IsHuge(8 * r)
      modifies `H, `last, index`ix, index.bins, arena.words
      ensures last == old(last)
      ensures over <==> !old(VictimServes(V(), H, r)) && ReadsPastBins(old(index.ix), old(H), 8 * r)
      ensures TriePick(old(V()), old(index.ix), old(H), r, c)
      ensures c == NULL ==> Valid() && Same(old(M()), old(B()), old(H), old(index.ix), old(arena.brk))
      ensures c != NULL ==> Found(c, r, old(M()), old(H), old(last))
      ensures c != NULL ==> MallocPlaces(old(index.ix), old(V()), old(H), index.ix, V(), old(last), c, r)
    {
      hide Laid, PinsOk, Agree, BestFor, ReadsPastBins, MallocPlaces;
      over := false;
      c := TakeVictim(r);
      if c != NULL {
        return;
      }
      IndexOk();
      c, over := index.FindBestChunk(8 * r, H);
      if c != NULL {
        KMembers(c);
        TakeFromBin(c, r);
      }
    }

    /** The end-of-heap chunk ends where the break is. */
    predicate EndsAtBreak()
      reads this, arena, arena.words, index, index.bins
      requires index.bins.Length == NUM_OF_BINS
    {
      var end := index.bins[0];
      0 <= end + CURRENT_SIZE < arena.words.Length && 8 * (NextChunk(end) + 1) == arena.Break()
    }

    /** Ask for k more words and write them into the end-of-heap chunk's header, whatever
        mem_sbrk makes of that number. The chunk still ends at the break if and only if it was
        granted all or nothing. */
    method AskForMore(k: int) returns (ok: bool)
      requires Valid() && 0 < k
      modifies arena`brk, arena`over, arena.words
      ensures index.bins.Length == NUM_OF_BINS
      ensures EndsAtBreak() <==> MemLib.AllOrNothing(8 * k, old(arena.Room()))
      ensures ok == MemLib.Granted(8 * k, old(arena.Room()))
      ensures arena.Break() == old(arena.Break()) + if ok then MemLib.ToInt(8 * k) else 0
      ensures 0 <= last + CURRENT_SIZE < |old(M())|
      ensures M() == if ok then old(M())[last + CURRENT_SIZE := Header(Words(H[last].size + k), false, H[last].pin)]
                     else old(M())
      ensures 0 <= arena.over < 8
    {
      hide Wired, Shaped, PinsOk;
      Reads(last);
      AgreeEnd(H, K(), B()[1], last, {});
      MemLib.AllOrNothingExactly(8 * k, arena.Room());
      HeaderParts(H[last].size + k, false, H[last].pin);
      var r := arena.Sbrk(MemLib.ToInt(8 * k));
      ok := r != MemLib.FAILED;
      if ok {
        var end := index.bins[0];
        Put(end + CURRENT_SIZE, arena.words[end + CURRENT_SIZE] + 8 * k);
      }
    }

    /** Ask for k more words at the end of the heap. */
    method GrowEnd(k: int) returns (ok: bool)
      requires Valid() && 0 < k && MemLib.AllOrNothing(8 * k, arena.Room())
      modifies `H, arena`brk, arena`over, arena.words
      ensures ok == (old(arena.brk) + k <= arena.words.Length)
      ensures !ok ==> Valid() && M() == old(M()) && H == old(H) && arena.brk == old(arena.brk)
      ensures ok ==> Valid() && H == GrowH(old(H), last, k) && arena.brk == old(arena.brk) + k
      ensures ok ==> Untouched(old(M()), M(), old(H), {})
    {
      hide Wired, Shaped, PinsOk;
      MemLib.AllOrNothingExactly(8 * k, arena.Room());
      ok := AskForMore(k);
      if ok {
        GrowDone(old(M()), M(), B(), index.ix, H, GrowH(H, last, k), start, last, old(arena.brk), k);
        AgreeGrow(H, GrowH(H, last, k), K(), B()[1], last, {}, k);
        H := GrowH(H, last, k);
      }
    }

    /** n becomes the end of the heap. */
    method SetEnd(n: int, ghost X: set<int>)
      requires Inv(X) && n == last
      modifies index.bins
      ensures Inv(X) && B()[0] == last && V() == old(V())
    {
      index.bins[0] := n;
      LaidCarved(M(), H, start, last, arena.brk);
      IndexKept(M(), M(), old(B()), B(), index.ix, H, H);
    }

    /** Cut r words off the end-of-heap chunk. */
    method CutEnd(r: int) returns (c: int)
      requires Valid() && 3 <= r && CanSplit(H[last].size, r)
      modifies `H, `last, index.bins, arena.words
      ensures Inv({c}) && c == old(last) && last == c + r + 1 && B()[0] == last
      ensures H == SplitH(old(H), c, r, false) && Untouched(old(M()), M(), old(H), {}) && V() == old(V())
    {
      hide Shaped, Wired, Heads, Feet, PinsOk;
      c := index.bins[0];
      var n := SplitChunk(c, r);
      AgreeCutLast(old(H), H, start, c, arena.brk, K(), B()[1], r);
      SetEnd(n, {c});
    }

    /** Make the end-of-heap chunk large enough to be split for r words. */
    method ExtendEnd(r: int) returns (ok: bool)
      requires Valid() && 3 <= r && GrowthSound(H, last, arena.Room(), r)
      modifies `H, arena`brk, arena`over, arena.words
      ensures ok == (old(arena.brk) + Shortfall(old(H[last].size), r) <= arena.words.Length)
      ensures !ok ==> Valid() && M() == old(M()) && H == old(H) && arena.brk == old(arena.brk)
      ensures ok ==> Valid() && H == ExtendH(old(H), last, r) && CanSplit(H[last].size, r)
      ensures ok ==> arena.brk == old(arena.brk) + Shortfall(old(H[last].size), r)
      ensures ok ==> Untouched(old(M()), M(), old(H), {})
    {
      hide Shaped, Wired, Heads, Feet, PinsOk;
      Reads(last);
      ok := true;
      if !CanSplit(Size(index.bins[0]), r) {
        ok := GrowEnd(r - Size(index.bins[0]) + EXTENSION_SIZE / 8);
      } else {
        assert GrowH(H, last, 0) == H;
      }
    }

    method EndOfHeapMalloc(r: int) returns (c: int)
      requires Valid() && 3 <= r && GrowthSound(H, last, arena.Room(), r)
      modifies `H, `last, arena`brk, arena`over, index.bins, arena.words
      ensures c == NULL ==> Valid() && Same(old(M()), old(B()), old(H), index.ix, old(arena.brk)) && last == old(last)
      ensures c == NULL <==> old(arena.brk) + Shortfall(old(H[last].size), r) > arena.words.Length
      ensures c != NULL ==> Inv({c}) && c == old(last) && last == c + r + 1 && B()[0] == last
      ensures c != NULL ==> H == SplitH(ExtendH(old(H), c, r), c, r, false) && Untouched(old(M()), M(), old(H), {})
      ensures c != NULL ==> arena.brk == old(arena.brk) + Shortfall(old(H[last].size), r)
      ensures V() == old(V())
    {
      hide Shaped, Wired, Heads, Feet, PinsOk, Untouched;
      Reads(last);
      var ok := ExtendEnd(r);
      if !ok {
        return NULL;
      }
      ghost var m, h := M(), H;
      c := CutEnd(r);
      UntouchedAcross(old(M()), m, M(), old(H), h, {});
    }

    /** What the code does with a request whose growth is not sound, up to the store that spoils
        the heap: no bin has such a chunk, mem_sbrk grants less than it was asked for, and the
        end-of-heap chunk then ends above the break. */
    method GrowUnsoundly(r: int) returns (c: int, ok: bool)
      requires Valid() && 3 <= r && Addable(r) && !GrowthSound(H, last, arena.Room(), r)
      modifies index`ix, arena`brk, arena`over, index.bins, arena.words
      ensures c == NULL && ok && index.bins.Length == NUM_OF_BINS && !EndsAtBreak()
      ensures arena.Break() == old(arena.Break()) + MemLib.ToInt(8 * Shortfall(old(H[last].size), r))
      ensures 0 <= last + CURRENT_SIZE < arena.words.Length
      ensures arena.words[last + CURRENT_SIZE] ==
                Header(Words(H[last].size + Shortfall(H[last].size, r)), false, H[last].pin)
    {
      hide Shaped, Wired, PinsOk;
      UnsoundIsLast(H, start, last, arena.brk, arena.Room(), r);
      Reads(last);
      c := HugeMalloc(r);
      ok := false;
      if c == NULL && !CanSplit(Size(index.bins[0]), r) {
        ok := AskForMore(r - Size(index.bins[0]) + EXTENSION_SIZE / 8);
      }
    }

    /** A chunk for r words, wherever there is one. */
    method FindChunk(r: int) returns (c: int, over: bool)
      requires Valid() && 3 <= r && GrowthSound(H, last, arena.Room(), r)
      modifies `H, `last, index`ix, arena`brk, arena`over, index.bins, arena.words
      ensures c == NULL ==>
                Valid() && Same(old(M()), old(B()), old(H), old(index.ix), old(arena.brk)) && last == old(last)
      ensures c == NULL ==> old(arena.brk) + Shortfall(old(H[last].size), r) > arena.words.Length
      ensures Picked(old(V()), old(index.ix), old(H), old(last), r, c)
      ensures over <==> AsksPast(old(V()), old(index.ix), old(H), r)
      ensures c != NULL ==> Inv({c}) && B()[0] == last && Untouched(old(M()), M(), old(H), {})
      ensures c != NULL ==> FoundStep(old(H), H, old(last), last, c, r)
      ensures c != NULL ==> arena.brk == old(arena.brk) + Growth(old(H), old(last), c, r)
      ensures c != NULL ==> MallocPlaces(old(index.ix), old(V()), old(H), index.ix, V(), old(last), c, r)
      ensures c == old(last) ==> index.ix == old(index.ix)
    {
      hide Laid, PinsOk, Shaped, Wired, Untouched, SmallPick, TriePick, BestHuge, ReadsPastBins, Released, BinServes;
      over := false;
      if IsHuge(8 * r) {
        c := HugeMalloc(r);
      } else if IsLarge(8 * r) {
        c, over := TrieMalloc(r);
      } else {
        c := SmallMalloc(r);
      }
      if c == NULL {
        c := EndOfHeapMalloc(r);
      }
    }

    /** The chunk found for a request is handed out. */
    method HandOut(c: int, ghost r: int)
      requires Inv({c}) && B()[0] == last
      modifies `H, arena.words
      ensures Valid() && c >= 2 && c in old(H) && Next(old(H), c) in old(H) && H == Use(old(H), c)
      ensures Untouched(old(M()), M(), old(H), {})
    {
      hide Shaped, Wired, Heads, Feet, PinsOk, Bounded, Forward, Backward, Spaced;
      AgreeInHand(H, K(), B()[1], last, {c}, c);
      Reads(c);
      MarkInUse(c);
      AgreeUse(old(H), H, K(), B()[1], last, c);
      FreeInHand(old(M()), M(), old(H), c);
    }

    /** my_malloc: `size` bytes. `over` says that the search read the entry after the last
        bin. */
    method Malloc(size: nat) returns (p: int, over: bool)
      requires Valid() && size < TWO_TO_THE_64 && GrowthSound(H, last, arena.Room(), RequestWords(size))
      modifies `H, `last, index`ix, arena`brk, arena`over, index.bins, arena.words
      ensures Valid()
      ensures p == NULL ==> Same(old(M()), old(B()), old(H), old(index.ix), old(arena.brk)) && last == old(last)
      ensures p == NULL ==>
                size == 0 || old(arena.brk) + Shortfall(old(H[last].size), RequestWords(size)) > arena.words.Length
      ensures p == NULL && size > 0 ==> Picked(old(V()), old(index.ix), old(H), old(last), RequestWords(size), NULL)
      ensures over <==> size > 0 && AsksPast(old(V()), old(index.ix), old(H), RequestWords(size))
      ensures p != NULL ==> size > 0 && MallocStep(old(H), H, old(last), last, p - NEXT, RequestWords(size))
      ensures p != NULL ==> Picked(old(V()), old(index.ix), old(H), old(last), RequestWords(size), p - NEXT)
      ensures p != NULL ==> Untouched(old(M()), M(), old(H), {})
      ensures p != NULL ==> arena.brk == old(arena.brk) + Growth(old(H), old(last), p - NEXT, RequestWords(size))
      ensures p != NULL ==>
                MallocPlaces(old(index.ix), old(V()), old(H), index.ix, V(), old(last), p - NEXT, RequestWords(size))
      ensures p - NEXT == old(last) ==> index.ix == old(index.ix)
    {
      hide Shaped, Wired, Heads, Feet, PinsOk, Tiled, Untouched, Picked, AsksPast, MallocPlaces;
      over := false;
      if size == 0 {
        return NULL, over;
      }
      var r := RequestWords(size);
      var c;
      c, over := FindChunk(r);
      if c == NULL {
        return NULL, over;
      }
      ghost var m, h := M(), H;
      HandOut(c, r);
      FoundKeepsUsed(old(H), h, start, old(last), last, old(arena.brk), c, r);
      FoundUsed(old(H), h, H, old(last), last, c, r);
      UntouchedAcross(old(M()), m, M(), old(H), h, {});
      p := c + NEXT;
    }

    // ----- free

    lemma ReadsPrevious(c: int)
      requires Laid(M(), H, start, last, arena.brk) && PinsOk(H, start) && c in H && !H[c].pin
      ensures Prev(H, c) in H && !H[Prev(H, c)].used && Prev(H, c) != last && Next(H, Prev(H, c)) == c
      ensures 0 <= c < arena.words.Length && PreviousChunk(c) == Prev(H, c)
    {
      Reads(c);
      assert Prev(H, c) in H && Next(H, Prev(H, c)) == c;
    }

    /** Free chunks d and its successor r, both in hand, become one. */
    method Merge(d: int, ghost r: int) returns (held: bool)
      requires Inv({d, r}) && B()[0] == last && d in H && d != last && r == Next(H, d) && r in H
      modifies `H, `last, arena.words, index.bins
      ensures Inv({d}) && B()[0] == last == old(last) && H == JoinH(old(H), d) && KeepsUsed(old(H), H, d)
      ensures held <==> !old(AbsorbsStale(H, last, d))
      ensures Untouched(old(M()), M(), old(H), {}) && V() == old(V())
    {
      hide Shaped, Wired, Heads, Feet, PinsOk;
      AgreeInHand(H, K(), B()[1], last, {d, r}, d);
      AgreeInHand(H, K(), B()[1], last, {d, r}, r);
      held := CombineChunks(d);
      AgreeMerge(old(H), H, start, old(last), arena.brk, K(), B()[1], d, r);
    }

    /** Merge c, in hand, with the chunk before it when its tag says that is free. */
    method MergeBackward(c: int) returns (d: int, held: bool)
      requires Inv({c}) && B()[0] == last
      modifies `H, `last, index`ix, arena.words, index.bins
      ensures c in old(H) && old(!H[c].pin ==> Prev(H, c) in H && Next(H, Prev(H, c)) == c)
      ensures Inv({d}) && B()[0] == last == old(last) && d == old(MergedAt(H, c)) && H == old(MergeBackH(H, c))
      ensures held <==> old(H[c].pin || !AbsorbsStale(H, last, Prev(H, c)))
      ensures KeepsUsed(old(H), H, c)
      ensures Untouched(old(M()), M(), old(H), {})
      ensures MergedBack(old(index.ix), old(V()), old(H), index.ix, V(), c)
      ensures old(H[c].pin) ==> index.ix == old(index.ix)
    {
      hide Shaped, Wired, Heads, Feet, Untouched, AbsorbsStale, Released;
      AgreeInHand(H, K(), B()[1], last, {c}, c);
      Reads(c);
      if PreviousInUse(arena.words[c + CURRENT_SIZE]) {
        d, held := c, true;
        UntouchedSame(M(), H);
      } else {
        ReadsPrevious(c);
        d := PreviousChunk(c);
        RemoveChunkOrVictim(d, {c});
        assert {c} + {d} == {d, c};
        ghost var m := M();
        held := Merge(d, c);
        UntouchedTwice(old(M()), m, M(), old(H), {});
      }
    }

    /** Take the free chunk after d out of its place and merge d, in hand, with it. */
    method MergeNext(d: int, next: int) returns (held: bool)
      requires Inv({d}) && B()[0] == last && d in H && d != last && next == Next(H, d) && next in H
      requires !H[next].used && next != last
      modifies `H, `last, index`ix, arena.words, index.bins
      ensures Inv({d}) && B()[0] == last == old(last) && H == JoinH(old(H), d)
      ensures held <==> !old(AbsorbsStale(H, last, d))
      ensures Untouched(old(M()), M(), old(H), {})
      ensures Released(old(index.ix), old(V()), index.ix, V(), next)
    {
      hide Shaped, Wired, Heads, Feet, Untouched, Released, AbsorbsStale, Bounded, Forward, Backward, Spaced;
      NotItself(H, d);
      RemoveChunkOrVictim(next, {d});
      assert {d} + {next} == {d, next};
      ghost var m := M();
      held := Merge(d, next);
      UntouchedTwice(old(M()), m, M(), old(H), {});
    }

    lemma NotItself(h: Heap, d: int)
      requires Tiled(h, start, last, arena.brk) && d in h
      ensures Next(h, d) != d
    {
    }

    /** Merge d, in hand, with the end-of-heap chunk after it. */
    method MergeEnd(d: int) returns (held: bool)
      requires Inv({d}) && B()[0] == last && d in H && Next(H, d) == last && last in H
      modifies `H, `last, arena.words, index.bins
      ensures Inv({}) && last == d && H == JoinH(old(H), d) && held && V() == old(V())
      ensures Untouched(old(M()), M(), old(H), {})
    {
      hide Shaped, Wired, Heads, Feet, Untouched;
      AgreeInHand(H, K(), B()[1], last, {d}, d);
      AgreeEnd(H, K(), B()[1], last, {d});
      held := CombineChunks(d);
      AgreeMergeEnd(old(H), H, start, old(last), arena.brk, K(), B()[1], d);
    }

    lemma JoinKeepsAll(d: int)
      requires Inv({d}) && d in H && Next(H, d) in H && !H[Next(H, d)].used
      ensures forall c {:trigger KeepsUsed(H, JoinH(H, d), c)} :: KeepsUsed(H, JoinH(H, d), c)
    {
      hide Shaped, Wired, Heads, Feet, PinsOk, Bounded, Forward, Backward, Spaced;
      AgreeInHand(H, K(), B()[1], last, {d}, d);
    }

    lemma KeepsUsedSame(h: Heap)
      ensures forall c {:trigger KeepsUsed(h, h, c)} :: KeepsUsed(h, h, c)
    {
    }

    /** Merge d, in hand, with the chunk after it when that is free. */
    method MergeForward(d: int) returns (end: bool, held: bool)
      requires Inv({d}) && B()[0] == last
      modifies `H, `last, index`ix, arena.words, index.bins
      ensures d in old(H) && Next(old(H), d) in old(H) && H == MergeForthH(old(H), d)
      ensures end == (Next(old(H), d) == old(last)) && last == (if end then d else old(last))
      ensures held <==> !old(AbsorbsStale(H, last, d))
      ensures forall c {:trigger KeepsUsed(old(H), H, c)} :: KeepsUsed(old(H), H, c)
      ensures if end then Inv({}) else Inv({d}) && B()[0] == last
      ensures Untouched(old(M()), M(), old(H), {})
      ensures MergedForth(old(index.ix), old(V()), old(H), index.ix, V(), old(last), d)
      ensures end || old(H[Next(H, d)].used) ==> index.ix == old(index.ix)
    {
      hide Shaped, Wired, Heads, Feet, PinsOk, Untouched, Released, JoinH, KeepsUsed, Bounded, Forward, Backward,
           Spaced;
      AgreeInHand(H, K(), B()[1], last, {d}, d);
      Reads(d);
      var next := NextChunk(d);
      Reads(next);
      end, held := false, true;
      KeepsUsedSame(H);
      if !CurrentInUse(arena.words[next + CURRENT_SIZE]) {
        JoinKeepsAll(d);
        if next != index.bins[0] {
          held := MergeNext(d, next);
        } else {
          end := true;
          held := MergeEnd(d);
        }
      } else {
        UntouchedSame(M(), H);
      }
    }

    /** Put d where it belongs: at the end of the heap or in its bin. */
    method PutAway(d: int, end: bool)
      requires if end then Inv({}) && d == last else Inv({d}) && B()[0] == last
      modifies index`ix, arena.words, index.bins
      ensures Valid() && Untouched(old(M()), M(), H, {}) && V() == old(V())
      ensures if end then index.ix == old(index.ix)
              else Indexed(old(index.ix), index.ix, H, d) && PutIn(old(index.ix), index.ix, H, d)
    {
      hide Shaped, Wired, Laid, PinsOk, Untouched, Indexed, PutIn;
      if end {
        SetEnd(d, {});
        UntouchedSame(M(), H);
      } else {
        InsertChunk(d, {d});
        assert {d} - {d} == {};
        assert B()[0] == old(B())[..2][0];
      }
    }

    /** Tags cleared and links forgotten; c is now in hand. */
    method Reclaim(c: int)
      requires Valid() && c in H && H[c].used
      modifies `H, arena.words
      ensures Inv({c}) && B()[0] == last && Next(old(H), c) in old(H) && H == Unuse(old(H), c)
      ensures Untouched(old(M()), M(), old(H), {c}) && KeepsUsed(old(H), H, c)
    {
      hide Shaped, Wired, Heads, Feet, Untouched;
      Reads(c);
      AgreeOutside(H, K(), B()[1], last, {}, c);
      MarkFree(c);
      AgreeUnuse(old(H), H, K(), B()[1], last, c);
    }

    lemma StaleAfter(c: int)
      requires Valid() && c in H && H[c].used
      ensures Next(H, c) in H && NextStays(H, c)
      ensures var H1 := Unuse(H, c);
              && c in H1 && (!H1[c].pin ==> Prev(H1, c) in H1 && Next(H1, Prev(H1, c)) == c)
              && (H1[c].pin || !AbsorbsStale(H1, last, Prev(H1, c)))
              && (AbsorbsStale(MergeBackH(H1, c), last, MergedAt(H1, c)) <==> AbsorbsStale(H, last, c))
    {
      hide Shaped, Wired, Heads, Feet, PinsOk, AbsorbsStale;
      AgreeOutside(H, K(), B()[1], last, {}, c);
      AgreeEnd(H, K(), B()[1], last, {});
      Reads(c);
      FreeMeetsStale(H, start, last, arena.brk, c);
      FreeKeepsNext(H, start, last, arena.brk, c);
    }

    /** my_free. The assertion at line 760 fails exactly when the chunk after the block is free
        and not the end of the heap, and the chunk after that believes it is in use. */
    method Free(p: int) returns (held: bool)
      requires Valid() && p - NEXT in H && H[p - NEXT].used
      modifies `H, `last, index`ix, arena.words, index.bins
      ensures Valid() && FreeStep(old(H), H, p - NEXT)
      ensures held <==> !old(AbsorbsStale(H, last, p - NEXT))
      ensures Untouched(old(M()), M(), old(H), {p - NEXT})
      ensures FreePlaces(old(index.ix), old(V()), old(H), index.ix, V(), H, old(last), p - NEXT)
      ensures old(Alone(H, p - NEXT)) ==> H == old(Unuse(H, p - NEXT)) && Indexed(old(index.ix), index.ix, H, p - NEXT)
    {
      hide Shaped, Wired, Laid, PinsOk, Untouched, Agree, KeepsUsed, Indexed, AbsorbsStale, PutIn, MergedBack,
           MergedForth, FreePlaces;
      var c := p - NEXT;
      AgreeEnd(H, K(), B()[1], last, {});
      StaleAfter(c);
      Reclaim(c);
      ghost var m1, h1 := M(), H;
      var d, backHeld := MergeBackward(c);
      UntouchedBut(old(M()), m1, M(), old(H), h1, c);
      KeepsUsedTwice(old(H), h1, H, c);
      ghost var m2, h2 := M(), H;
      ghost var x, u := index.ix, V();
      var end, forthHeld := MergeForward(d);
      UntouchedBut(old(M()), m2, M(), old(H), h2, c);
      KeepsUsedTwice(old(H), h2, H, c);
      ghost var m3, y := M(), index.ix;
      PutAway(d, end);
      UntouchedBut(old(M()), m3, M(), old(H), H, c);
      held := backHeld && forthHeld;
      FreedPlaces(old(H), h2, H, old(last), c, old(index.ix), old(V()), x, u, y, V(), index.ix);
    }

    // ----- realloc

    /** The stores of split_mallocd_chunk, for a chunk of s words. */
    method WriteCut(c: int, r: int, ghost s: int) returns (n: int)
      requires Objects() && 2 <= c && 3 <= r && CanSplit(s, r) && c + s + 1 < arena.words.Length && Size(c) == s
      modifies arena.words
      ensures n == c + r + 1 && Within(old(M()), M(), c + 1, c + s + 1) && PayloadSame(old(M()), M(), c, r)
      ensures Field(M(), c, CURRENT_SIZE) == Header(r, true, PreviousInUse(old(arena.words[c + CURRENT_SIZE])))
      ensures Field(M(), n, CURRENT_SIZE) == Header(s - r - 1, false, true)
      ensures B()[0] != n ==> At(M(), c + s + 1) == 8 * (s - r - 1)
    {
      var leftover := Size(c) - r - 1;
      HeaderParts(r, true, PreviousInUse(arena.words[c + CURRENT_SIZE]));
      HeaderBits(leftover, false, false);
      HeaderParts(leftover, false, true);
      Put(c + CURRENT_SIZE, Header(r, true, PreviousInUse(arena.words[c + CURRENT_SIZE])));
      n := NextChunk(c);
      Put(n + CURRENT_SIZE, Header(leftover, false, false));
      Put(n + CURRENT_SIZE, SetPreviousInUse(arena.words[n + CURRENT_SIZE]));
      if n != index.bins[0] {
        Put(NextChunk(n), 8 * leftover);
      }
    }

    /** split_mallocd_chunk: cut chunk c, in use, down to r words. */
    method SplitMallocdChunk(c: int, r: int) returns (n: int)
      requires Base() && c in H && H[c].used && 3 <= r && CanSplit(H[c].size, r) && B()[0] != c + r + 1
      modifies `H, `last, arena.words
      ensures Base() && n == c + r + 1 && H == SplitH(old(H), c, r, true)
      ensures last == if c == old(last) then n else old(last)
      ensures Untouched(old(M()), M(), old(H), {c}) && PayloadSame(old(M()), M(), c, r)
    {
      hide Shaped, Wired, Untouched;
      Reads(c);
      n := WriteCut(c, r, H[c].size);
      CutUsedDone(old(M()), M(), B(), index.ix, H, SplitH(H, c, r, true), start, last, arena.brk, c, r);
      last := if c == last then n else last;
      H := SplitH(H, c, r, true);
    }

    /** The rest of a block that shrinks, in hand. */
    method CutBlock(c: int, r: int) returns (n: int)
      requires Valid() && c in H && H[c].used && 3 <= r && CanSplit(H[c].size, r)
      modifies `H, `last, arena.words
      ensures Inv({n}) && B()[0] == last == old(last) && n == c + r + 1 && H == SplitH(old(H), c, r, true)
      ensures Untouched(old(M()), M(), old(H), {c}) && PayloadSame(old(M()), M(), c, r)
      ensures c in H && H[c].used && H[c].size == r && KeepsUsed(old(H), H, c)
    {
      hide Shaped, Wired, Heads, Feet, Untouched;
      SplitCuts(H, start, last, arena.brk, c, r, true);
      SplitBits(H, start, last, arena.brk, c, r, true);
      AgreeEnd(H, K(), B()[1], last, {});
      n := SplitMallocdChunk(c, r);
      AgreeCutUsed(old(H), H, start, last, arena.brk, K(), B()[1], c, r);
    }

    lemma StaleAfterCut(c: int, r: int)
      requires Valid() && c in H && H[c].used && 3 <= r && CanSplit(H[c].size, r)
      ensures CutKeepsNext(H, c, r)
      ensures AbsorbsStale(SplitH(H, c, r, true), last, c + r + 1) <==> AbsorbsStale(H, last, c)
    {
      hide Shaped, Wired, Heads, Feet, PinsOk, AbsorbsStale;
      AgreeOutside(H, K(), B()[1], last, {}, c);
      CutMeetsStale(H, start, last, arena.brk, c, r);
      SplitCuts(H, start, last, arena.brk, c, r, true);
    }

    /** The splitting half of realloc_chunk_is_smaller. */
    method ShrinkBlock(c: int, r: int) returns (held: bool)
      requires Valid() && c in H && H[c].used && 3 <= r && CanSplit(H[c].size, r)
      modifies `H, `last, index`ix, arena.words, index.bins
      ensures Valid() && ShrinkStep(old(H), H, c, r)
      ensures held <==> !old(AbsorbsStale(H, last, c))
      ensures ShrinkPlaces(old(index.ix), old(V()), old(H), index.ix, V(), H, old(last), c, r)
      ensures Untouched(old(M()), M(), old(H), {c}) && PayloadSame(old(M()), M(), c, r)
    {
      hide Shaped, Wired, Laid, PinsOk, Agree, KeepsUsed, Untouched, PayloadSame, AbsorbsStale, PutIn, MergedForth,
           ShrinkPlaces, Indexed;
      StaleAfterCut(c, r);
      var n := CutBlock(c, r);
      ghost var m1, h1 := M(), H;
      var end;
      end, held := MergeForward(n);
      UntouchedBut(old(M()), m1, M(), old(H), h1, c);
      UntouchedPayload(m1, M(), h1, c);
      PayloadTwice(old(M()), m1, M(), c, r);
      KeepsUsedTwice(old(H), h1, H, c);
      KeepsUsedAt(h1, H, n, c);
      ghost var m2, y := M(), index.ix;
      PutAway(n, end);
      UntouchedBut(old(M()), m2, M(), old(H), H, c);
      UntouchedPayload(m2, M(), H, c);
      PayloadTwice(old(M()), m2, M(), c, r);
      ShrunkPlaces(old(H), h1, H, old(last), c, r, old(index.ix), old(V()), y, V(), index.ix);
    }

    method ReallocSmaller(p: int, r: int) returns (q: int, held: bool)
      requires Valid() && p - NEXT in H && H[p - NEXT].used && 3 <= r <= H[p - NEXT].size
      modifies `H, `last, index`ix, arena.words, index.bins
      ensures Valid() && q == p && Moved(old(M()), M(), old(H), H, p - NEXT, q - NEXT, r)
      ensures if CanSplit(old(H[p - NEXT].size), r) then ShrinkStep(old(H), H, p - NEXT, r) else H == old(H)
      ensures ShrinkPlaces(old(index.ix), old(V()), old(H), index.ix, V(), H, old(last), p - NEXT, r)
      ensures held <==> !old(CanSplit(H[p - NEXT].size, r) && AbsorbsStale(H, last, p - NEXT))
    {
      hide Shaped, Wired, Heads, Feet, PinsOk, Agree, KeepsUsed, Untouched, PayloadSame, AbsorbsStale, MergedForth,
           PutBack;
      var c := p - NEXT;
      q, held := p, true;
      Reads(c);
      AgreeOutside(H, K(), B()[1], last, {}, c);
      if CanSplit(Size(c), r) {
        held := ShrinkBlock(c, r);
        ShrinkLive(old(H), H, start, old(last), arena.brk, c, r);
        ShrinkUsed(old(H), H, start, old(last), arena.brk, c, r);
        SamePlace(old(H), H, c, r);
        StayedPut(old(M()), M(), c, r);
      } else {
        UntouchedNone(M(), H, c);
        SamePlace(H, H, c, H[c].size);
        PayloadNone(M(), c, r);
        StayedPut(M(), M(), c, r);
      }
    }

    /** Between steps, whatever the previous-in-use bits say. */
    ghost predicate Kept(X: set<int>)
      reads this, arena, arena.words, index, index.bins
    {
      Base() && Agree(H, K(), B()[1], last, X) && B()[0] == last
    }

    /** Write the previous-in-use bit of chunk x. */
    method WritePin(x: int, pin: bool)
      requires Base() && x in H
      modifies `H, arena.words
      ensures Base() && H == SetPin(old(H), x, pin) && Untouched(old(M()), M(), old(H), {})
      ensures forall X :: old(Kept(X)) ==> Kept(X)
    {
      hide Shaped, Wired, Heads, Feet, Untouched, Agree;
      Reads(x);
      HeaderBits(H[x].size, H[x].used, H[x].pin);
      var h := arena.words[x + CURRENT_SIZE];
      Put(x + CURRENT_SIZE, if pin then SetPreviousInUse(h) else ClearPreviousInUse(h));
      PinDone(old(M()), M(), B(), index.ix, H, SetPin(H, x, pin), start, last, arena.brk, x, pin);
      H := SetPin(H, x, pin);
      forall X | old(Kept(X))
        ensures Kept(X)
      {
        AgreePin(old(H), H, K(), B()[1], last, X, x, pin);
      }
    }

    /** Write the footer of free chunk n again. */
    method RewriteFooter(n: int)
      requires Base() && n in H && !H[n].used && n != last
      modifies arena.words
      ensures M() == old(M())
    {
      Reads(n);
      assert At(M(), Next(H, n)) == 8 * H[n].size;
      Put(NextChunk(n), 8 * Size(n));
    }

    /** The rest of block b beyond r words becomes a free chunk in its bin. */
    method SplitOffRest(b: int, r: int) returns (n: int)
      requires Kept({}) && b in H && H[b].used && b != last && 3 <= r && CanSplit(H[b].size, r)
      modifies `H, `last, index`ix, arena.words, index.bins
      ensures Kept({}) && last == old(last) && n == b + r + 1 && H == SplitH(old(H), b, r, true)
      ensures Untouched(old(M()), M(), old(H), {b}) && PayloadSame(old(M()), M(), b, r)
      ensures PutIn(old(index.ix), index.ix, H, n) && V() == old(V())
    {
      hide Shaped, Wired, Heads, Feet, Untouched, PayloadSame, KeepsUsed, PutIn;
      AgreeEnd(H, K(), B()[1], last, {});
      SplitFacts(H, start, last, arena.brk, b, r);
      n := SplitMallocdChunk(b, r);
      AgreeCutUsed(old(H), H, start, last, arena.brk, K(), B()[1], b, r);
      ghost var m := M();
      InsertChunk(n, {n});
      assert B()[0] == old(B())[..2][0];
      assert {n} - {n} == {};
      UntouchedBut(old(M()), m, M(), old(H), H, b);
      UntouchedPayload(m, M(), H, b);
      PayloadTwice(old(M()), m, M(), b, r);
    }

    /** The last stores of resize_chunk_and_split after a split: n says its predecessor is in
        use, the chunk after n that n is not, and n's footer is written once more. */
    method AnnounceRest(b: int, n: int)
      requires Kept({}) && b in H && H[b].used && b != last && n == Next(H, b)
      requires n in H && !H[n].used && H[n].pin && n != last && Next(H, n) in H
      modifies `H, arena.words
      ensures Kept({}) && H == SetPin(old(H), Next(old(H), n), false) && Untouched(old(M()), M(), old(H), {})
    {
      hide Shaped, Wired, Heads, Feet, Untouched, PayloadSame, Agree;
      ghost var h := H;
      PinAgain(h, n);
      WritePin(n, true);
      Reads(n);
      ghost var m1 := M();
      WritePin(NextChunk(n), false);
      UntouchedTwice(old(M()), m1, M(), h, {});
      Reads(n);
      RewriteFooter(n);
      Reads(b);
      PinAgain(H, n);
      ghost var m2, h2 := M(), H;
      WritePin(NextChunk(b), true);
      PinKeepsUntouched(m2, M(), h, h2, Next(h, n));
      UntouchedTwice(old(M()), m2, M(), h, {});
    }

    /** resize_chunk_and_split once the header holds the new size: block b keeps r words if
        the rest makes a chunk, everything otherwise. */
    method SplitResized(b: int, r: int)
      requires Kept({}) && b in H && H[b].used && b != last && 3 <= r <= H[b].size
      requires Next(H, b) in H && PinsBut(H, start, Next(H, b))
      modifies `H, `last, index`ix, arena.words, index.bins
      ensures Valid() && last == old(last)
      ensures CanSplit(old(H)[b].size, r) ==> Next(old(H), b) in SplitH(old(H), b, r, true)
      ensures H == ResizeH(old(H), b, r)
      ensures Untouched(old(M()), M(), old(H), {b}) && PayloadSame(old(M()), M(), b, r)
      ensures RestPlaces(old(index.ix), index.ix, old(H), b, r) && V() == old(V())
    {
      hide Shaped, Wired, Heads, Feet, Untouched, PayloadSame, KeepsUsed, Agree, PutIn, RestPlaces;
      Reads(b);
      if CanSplit(Size(b), r) {
        SplitResizedPins(H, start, last, arena.brk, b, r);
        SplitFacts(H, start, last, arena.brk, b, r);
        var n := SplitOffRest(b, r);
        ghost var m, h := M(), H;
        RestPut(old(index.ix), index.ix, old(H), b, r);
        AgreeEnd(H, K(), B()[1], last, {});
        AnnounceRest(b, n);
        UntouchedBut(old(M()), m, M(), old(H), h, b);
        UntouchedPayload(m, M(), h, b);
        PayloadTwice(old(M()), m, M(), b, r);
      } else {
        NoRest(index.ix, H, b, r);
        WholeResizedPins(H, start, b);
        WritePin(NextChunk(b), true);
        UntouchedPayload(old(M()), M(), old(H), b);
        PayloadPrefix(old(M()), M(), b, old(H)[b].size, r);
        UntouchedWeaker(old(M()), M(), old(H), b);
      }
    }

    /** resize_chunk_and_split: block b, whose chunk has become `size` words, keeps r of them
        if the rest makes a chunk. Heap h and memory m are what the first store makes true. */
    method ResizeChunkAndSplit(b: int, size: int, r: int, ghost h: Heap, ghost m: seq<int>)
      requires Objects() && arena.over == 0 && 2 <= b && b + CURRENT_SIZE < arena.words.Length
      requires m == M()[b + CURRENT_SIZE := Header(Words(size), true, PreviousInUse(arena.words[b + CURRENT_SIZE]))]
      requires Resizing(m, B(), index.ix, h, start, last, arena.brk, b) && h[b].size == size && 3 <= r <= size
      modifies `H, `last, index`ix, arena.words, index.bins
      ensures Valid() && last == old(last)
      ensures CanSplit(size, r) ==> Next(h, b) in SplitH(h, b, r, true)
      ensures H == ResizeH(h, b, r) && Untouched(m, M(), h, {b}) && PayloadSame(m, M(), b, r)
      ensures RestPlaces(old(index.ix), index.ix, h, b, r) && V() == old(V())
    {
      hide Shaped, Wired, Laid, PinsBut, Agree, RestPlaces;
      Put(b + CURRENT_SIZE, Header(Words(size), true, PreviousInUse(arena.words[b + CURRENT_SIZE])));
      H := h;
      SplitResized(b, r);
    }

    /** realloc_chunk_and_after: grow into the free chunk after the block, unless that is the
        end of the heap or both together are too small. */
    method ReallocChunkAndAfter(p: int, r: int) returns (q: int)
      requires Valid() && p - NEXT in H && H[p - NEXT].used && 3 <= r && H[p - NEXT].size < r
      requires Next(H, p - NEXT) in H && !H[Next(H, p - NEXT)].used
      modifies `H, `last, index`ix, arena.words, index.bins
      ensures Valid() && last == old(last)
      ensures q == NULL ==> Same(old(M()), old(B()), old(H), old(index.ix), arena.brk)
      ensures q == NULL <==> old(Next(H, p - NEXT) == last || H[p - NEXT].size + H[Next(H, p - NEXT)].size + 1 < r)
      ensures q != NULL ==> q == p && Moved(old(M()), M(), old(H), H, p - NEXT, q - NEXT, r)
      ensures q != NULL ==> AfterStep(old(H), H, p - NEXT, r)
      ensures q != NULL ==> AfterPlaces(old(index.ix), old(V()), old(H), index.ix, V(), p - NEXT, r)
      ensures q != NULL && old(Exact(H, start)) ==> Exact(H, start)
    {
      hide Shaped, Wired, Heads, Feet, PinsOk, Agree, Untouched, PayloadSame, KeepsUsed, Bounded, Forward, Backward,
           Spaced, Moved, Live, Released, RestPlaces, AfterPlaces;
      var c := p - NEXT;
      Reads(c);
      AgreeOutside(H, K(), B()[1], last, {}, c);
      var next := NextChunk(c);
      Reads(next);
      if Size(c) + Size(next) + 1 < r || next == index.bins[0] {
        return NULL;
      }
      RemoveChunkOrVictim(next, {});
      assert {} + {next} == {next};
      ghost var x := index.ix;
      Reads(c);
      Reads(next);
      var size := Size(c) + Size(next) + 1;
      ghost var h := JoinH(H, c);
      ghost var m1 := M();
      ghost var m := m1[c + CURRENT_SIZE := Header(Words(size), true, PreviousInUse(arena.words[c + CURRENT_SIZE]))];
      AbsorbNext(m1, m, B(), index.ix, H, h, start, last, arena.brk, c);
      ResizeChunkAndSplit(c, size, r, h, m);
      AfterPut(old(index.ix), old(V()), old(H), x, index.ix, V(), c, r);
      AfterLive(old(H), h, H, start, last, arena.brk, c, r);
      GrownInPlace(old(M()), m1, m, M(), old(H), h, H, start, last, arena.brk, c, r);
      if old(Exact(H, start)) {
        AfterExact(old(H), h, H, start, last, arena.brk, c, r);
      }
      q := p;
    }

    /** memmove and memcpy: n words from src to dst, in an order that never overwrites a word
        still to be read. */
    method CopyWords(dst: int, src: int, n: nat)
      requires Objects() && 0 <= dst && dst + n <= arena.words.Length && 0 <= src && src + n <= arena.words.Length
      requires dst <= src || src + n <= dst
      modifies arena.words
      ensures Within(old(M()), M(), dst, dst + n - 1)
      ensures Copied(old(M()), M(), src - NEXT, dst - NEXT, n)
    {
      var i := 0;
      while i < n
        invariant 0 <= i <= n
        invariant forall j :: 0 <= j < arena.words.Length && !(dst <= j < dst + i) ==>
                  arena.words[j] == old(arena.words[j])
        invariant forall j :: dst <= j < dst + i ==> arena.words[j] == old(arena.words[j - dst + src])
      {
        arena.words[dst + i] := arena.words[src + i];
        i := i + 1;
      }
    }

    /** The free chunk before block c, when its tag says there is one. */
    lemma BehindFree(c: int)
      requires Valid() && c in H && H[c].used && !H[c].pin
      ensures Prev(H, c) in H && Behind(H, start, last, arena.brk, Prev(H, c), c)
      ensures 0 <= c < arena.words.Length && PreviousChunk(c) == Prev(H, c)
    {
      ReadsPrevious(c);
      AgreeOutside(H, K(), B()[1], last, {}, c);
    }

    /** The common end of the two paths that grow a block backward: the free chunks X around
        block c are in hand and h is the heap with all of them in block b. */
    method MoveAndResize(b: int, c: int, size: int, r: int, ghost X: set<int>, ghost h: Heap)
      requires Inv(X) && B()[0] == last && Fused(H, h, start, last, arena.brk, X, b, c, size) && b in h
      requires H[c].size <= r && 3 <= r <= size
      modifies `H, `last, index`ix, arena.words, index.bins
      ensures Valid() && last == old(last) && Next(h, b) in h
      ensures CanSplit(size, r) ==> Next(h, b) in SplitH(h, b, r, true)
      ensures h[b].size == size && H == ResizeH(h, b, r)
      ensures Untouched(old(M()), M(), old(H), {c}) && Copied(old(M()), M(), c, b, old(H[c].size))
      ensures RestPlaces(old(index.ix), index.ix, h, b, r) && V() == old(V())
    {
      hide Shaped, Wired, Heads, Feet, PinsOk, Agree, Untouched, PayloadSame, KeepsUsed, Bounded, Forward, Backward,
           Spaced, Copied, Resizing, JoinH, RestPlaces;
      Reads(b);
      Reads(c);
      CopyWords(b + NEXT, c + NEXT, Size(c));
      assert arena.words[b + CURRENT_SIZE] == At(M(), b + CURRENT_SIZE) == At(old(M()), b + CURRENT_SIZE);
      ghost var m := M()[b + CURRENT_SIZE := Header(Words(size), true, PreviousInUse(arena.words[b + CURRENT_SIZE]))];
      FusedMove(old(M()), M(), m, B(), index.ix, H, h, start, last, arena.brk, X, b, c, size);
      ResizeChunkAndSplit(b, size, r, h, m);
      MoveThenResize(old(M()), m, M(), old(H), h, b, c, r);
    }

    /** realloc_chunk_and_before: grow into the free chunk before the block, moving the
        contents down, unless both together are too small. The assertion at line 922 wants the
        chunk after the block in use. */
    method ReallocChunkAndBefore(p: int, r: int) returns (q: int, held: bool)
      requires p - NEXT in H && H[p - NEXT].used && !H[p - NEXT].pin && 3 <= r && H[p - NEXT].size < r && Valid()
      modifies `H, `last, index`ix, arena.words, index.bins
      ensures Valid() && last == old(last)
      ensures q == NULL ==> Same(old(M()), old(B()), old(H), old(index.ix), arena.brk)
      ensures held <==> old(NextUsed(H, p - NEXT))
      ensures q == NULL ==> !Roomier(H, p - NEXT, r)
      ensures q != NULL ==> old(Roomier(H, p - NEXT, r)) && IsPrev(old(H), p - NEXT, q - NEXT)
      ensures q != NULL ==> Moved(old(M()), M(), old(H), H, p - NEXT, q - NEXT, r)
      ensures q != NULL ==> BeforeStep(old(H), H, q - NEXT, r)
      ensures q != NULL ==> BeforePlaces(old(index.ix), old(V()), old(H), index.ix, V(), q - NEXT, r)
      ensures q != NULL && old(Exact(H, start) && NextUsed(H, p - NEXT)) ==> Exact(H, start)
    {
      hide Shaped, Wired, Heads, Feet, PinsOk, Agree, Untouched, PayloadSame, KeepsUsed, Bounded, Forward, Backward,
           Spaced, Moved, Live, Copied, Exact, Within, JoinH, SplitH, Released, RestPlaces, BeforePlaces;
      var c := p - NEXT;
      Reads(c);
      BehindFree(c);
      Reads(Next(H, c));
      held := CurrentInUse(arena.words[NextChunk(c) + CURRENT_SIZE]);
      var b := PreviousChunk(c);
      Reads(b);
      var size := Size(b) + Size(c) + 1;
      if size < r {
        return NULL, held;
      }
      RemoveChunkOrVictim(b, {});
      assert {} + {b} == {b};
      ghost var x := index.ix;
      ghost var m1, h := M(), TakenBackH(H, b);
      TakenBack(H, start, last, arena.brk, b, c);
      MoveAndResize(b, c, size, r, {b}, h);
      BeforePut(old(index.ix), old(V()), old(H), x, index.ix, V(), b, r);
      BeforeLive(old(H), h, H, start, last, arena.brk, b, c, r);
      MovedDown(old(M()), m1, M(), old(H), H, b, c, r);
      if old(Exact(H, start) && NextUsed(H, c)) {
        BeforeExact(old(H), h, H, start, last, arena.brk, b, c, r);
      }
      q := b + NEXT;
    }

    /** realloc_chunk_before_and_after: grow into the free chunks on both sides, unless the
        one after is the end of the heap or all three together are too small. */
    method ReallocChunkBeforeAndAfter(p: int, r: int) returns (q: int)
      requires p - NEXT in H && H[p - NEXT].used && !H[p - NEXT].pin && 3 <= r && H[p - NEXT].size < r
      requires !NextUsed(H, p - NEXT) && Valid()
      modifies `H, `last, index`ix, arena.words, index.bins
      ensures Valid() && last == old(last)
      ensures q == NULL ==> Same(old(M()), old(B()), old(H), old(index.ix), arena.brk)
      ensures q == NULL <==> !old(FitsBoth(H, last, p - NEXT, r))
      ensures q != NULL ==> IsPrev(old(H), p - NEXT, q - NEXT) && Moved(old(M()), M(), old(H), H, p - NEXT, q - NEXT, r)
      ensures q != NULL ==> BothStep(old(H), H, q - NEXT, r)
      ensures q != NULL ==> BothPlaces(old(index.ix), old(V()), old(H), index.ix, V(), q - NEXT, p - NEXT, r)
      ensures q != NULL && old(Exact(H, start)) ==> Exact(H, start)
    {
      hide Shaped, Wired, Heads, Feet, PinsOk, Agree, Untouched, PayloadSame, KeepsUsed, Bounded, Forward, Backward,
           Spaced, Moved, Live, Copied, Exact, Within, JoinH, SplitH, Released, RestPlaces, BothPlaces;
      var c := p - NEXT;
      Reads(c);
      BehindFree(c);
      var b := PreviousChunk(c);
      Reads(b);
      var next := NextChunk(c);
      Reads(next);
      var size := Size(c) + Size(b) + Size(next) + 2;
      if size < r || next == index.bins[0] {
        return NULL;
      }
      RemoveChunkOrVictim(next, {});
      assert {} + {next} == {next};
      ghost var m1, x, u := M(), index.ix, V();
      RemoveChunkOrVictim(b, {next});
      assert {next} + {b} == {b, next};
      UntouchedTwice(old(M()), m1, M(), H, {});
      ghost var m2, y, h1 := M(), index.ix, TakenBackH(H, b);
      TakenBack(H, start, last, arena.brk, b, c);
      ghost var h := JoinH(h1, b);
      TakenBackJoin(H, start, last, arena.brk, b, c);
      MoveAndResize(b, c, size, r, {b, next}, h);
      BothPut(old(index.ix), old(V()), old(H), x, u, y, index.ix, V(), b, c, r);
      BothLive(old(H), h1, h, H, start, last, arena.brk, b, c, r);
      MovedDown(old(M()), m2, M(), old(H), H, b, c, r);
      if old(Exact(H, start)) {
        BothExact(old(H), h1, h, H, start, last, arena.brk, b, c, r);
      }
      q := b + NEXT;
    }

    /** Block c takes the end-of-heap chunk in; until that is cut off again the heap has no
        free chunk at its end. */
    method TakeTail(c: int, size: int)
      requires Valid() && AtTail(H, start, last, arena.brk, c) && size == H[c].size + H[last].size + 1
      modifies `H, `last, index.bins, arena.words
      ensures Base() && last == c && c in old(H) && Next(old(H), c) in old(H) && H == JoinH(old(H), c)
      ensures B() == old(B())[0 := NULL] && Untouched(old(M()), M(), old(H), {})
    {
      hide Shaped, Wired, Heads, Feet, PinsOk, Untouched, Bounded, Forward, Backward, Spaced, Agree;
      Reads(c);
      AgreeEnd(H, K(), B()[1], last, {});
      index.bins[0] := NULL;
      Put(c + CURRENT_SIZE, Header(Words(size), true, PreviousInUse(arena.words[c + CURRENT_SIZE])));
      AbsorbEnd(old(M()), M(), old(B()), B(), index.ix, H, JoinH(H, c), start, last, arena.brk, c);
      HeaderUntouched(old(M()), M(), H, start, last, arena.brk, c);
      H, last := JoinH(H, c), c;
    }

    /** The last stores of realloc_chunk_after_extend_heap: block c, which reaches the end of
        the heap, takes that chunk in and gives all but r words back. */
    method TailOff(c: int, size: int, r: int)
      requires Valid() && AtTail(H, start, last, arena.brk, c) && size == H[c].size + H[last].size + 1
      requires 3 <= r && H[c].size <= r && CanSplit(size, r)
      modifies `H, `last, index.bins, arena.words
      ensures Valid() && last == c + r + 1 && H == TailH(old(H), c, r) && Untouched(old(M()), M(), old(H), {c})
      ensures PayloadSame(old(M()), M(), c, old(H[c].size))
      ensures V() == old(V())
    {
      hide Shaped, Wired, Heads, Feet, PinsOk, Untouched, PayloadSame, Tiled, Agree, TailH;
      ghost var h0, e, v := H, last, B()[1];
      TailJoined(h0, start, e, arena.brk, c);
      TailCut(h0, start, e, arena.brk, c, r);
      TakeTail(c, size);
      ghost var m, h := M(), H;
      var n := SplitMallocdChunk(c, r);
      TailHIs(h0, c, r);
      TailAgree(h0, H, start, e, arena.brk, K(), v, c, r);
      TailPins(h0, H, start, e, arena.brk, c, r);
      TailLive(h0, H, start, e, arena.brk, c, r);
      ghost var m2 := M();
      PinAgain(H, n);
      WritePin(n, true);
      SetEnd(n, {});
      TailFrame(old(M()), m, m2, M(), h0, h, H, c, r);
    }

    method ReallocChunkAfterExtendHeap(p: int, r: int) returns (q: int)
      requires Valid() && AtTail(H, start, last, arena.brk, p - NEXT)
      requires 3 <= r && H[p - NEXT].size < r && TailSound(H, last, arena.Room(), p - NEXT, r)
      modifies `H, `last, index`ix, arena`brk, arena`over, arena.words, index.bins
      ensures q == NULL ==>
                Valid() && Same(old(M()), old(B()), old(H), old(index.ix), old(arena.brk)) && last == old(last)
      ensures q == NULL <==> old(arena.brk) + Lacking(old(H[p - NEXT].size + H[last].size + 1), r) > arena.words.Length
      ensures q != NULL ==>
                TailStep(old(H), H, old(last), p - NEXT, r, Lacking(old(H[p - NEXT].size + H[last].size + 1), r))
      ensures q != NULL ==> Valid() && q == p && Moved(old(M()), M(), old(H), H, p - NEXT, q - NEXT, r)
      ensures q != NULL ==> arena.brk == old(arena.brk) + Lacking(old(H[p - NEXT].size + H[last].size + 1), r)
      ensures old(arena.brk) <= arena.brk
      ensures q != NULL && old(Exact(H, start)) ==> Exact(H, start)
      ensures index.ix == old(index.ix) && V() == old(V())
    {
      hide Shaped, Wired, Heads, Feet, PinsOk, Agree, Untouched, PayloadSame, KeepsUsed, Bounded, Forward, Backward,
           Spaced, Moved, Live, Copied, Exact, Within, JoinH, SplitH, TailH;
      var c := p - NEXT;
      Reads(c);
      var next := NextChunk(c);
      Reads(next);
      var size := Size(c) + Size(next) + 1;
      ghost var k := 0;
      if 8 * r + SMALLEST_CHUNK > 8 * size {
        var difference := r + (SMALLEST_CHUNK + EXTENSION_SIZE) / 8 - size;
        var ok := GrowEnd(difference);
        if !ok {
          return NULL;
        }
        size := size + difference;
        k := difference;
      } else {
        GrowNothing(M(), H, last);
      }
      ghost var m1, h1 := M(), H;
      GrownTail(old(H), h1, start, last, old(arena.brk), c, k);
      TailOff(c, size, r);
      TailMoved(old(M()), m1, M(), old(H), h1, H, start, old(last), old(arena.brk), c, r, k);
      if old(Exact(H, start)) {
        GrowExact(old(H), start, old(last), k);
        TailExact(h1, H, start, old(last), arena.brk, c, r);
      }
      q := p;
    }

    /** Copy n payload words of block c to block d. */
    method CopyPayload(d: int, c: int, n: nat)
      requires Valid() && c in H && H[c].used && d in H && H[d].used && c != d && n <= H[c].size && n <= H[d].size
      modifies arena.words
      ensures Valid() && Untouched(old(M()), M(), H, {d}) && Copied(old(M()), M(), c, d, n)
    {
      hide Shaped, Wired, Heads, Feet, PinsOk, Agree, Untouched, Copied;
      Reads(c);
      Reads(d);
      CopyWords(d + NEXT, c + NEXT, n);
      PayloadDone(old(M()), M(), B(), index.ix, H, start, last, arena.brk, d);
    }

    /** default_realloc: malloc, copy, free. */
    method DefaultRealloc(p: int, r: int) returns (q: int, held: bool, over: bool)
      requires Valid() && p - NEXT in H && H[p - NEXT].used && 3 <= r && GrowthSound(H, last, arena.Room(), r)
      modifies `H, `last, index`ix, arena`brk, arena`over, arena.words, index.bins
      ensures Valid() && old(arena.brk) <= arena.brk
      ensures q == NULL ==> Same(old(M()), old(B()), old(H), old(index.ix), old(arena.brk)) && last == old(last)
      ensures q == NULL ==> old(arena.brk) + Shortfall(old(H[last].size), r) > arena.words.Length
      ensures q == NULL ==> Picked(old(V()), old(index.ix), old(H), old(last), r, NULL)
      ensures q != NULL ==> Moved(old(M()), M(), old(H), H, p - NEXT, q - NEXT, r)
      ensures q != NULL && old(H[p - NEXT].size) != r ==>
                arena.brk == old(arena.brk) + Growth(old(H), old(last), q - NEXT, r)
                && Recopied(old(H), H, old(last), p - NEXT, q - NEXT, r)
      ensures over <==> old(H[p - NEXT].size) != r && AsksPast(old(V()), old(index.ix), old(H), r)
      ensures if q != NULL && old(H[p - NEXT].size) != r then
                CopyHolds(old(H), H, old(last), p - NEXT, q - NEXT, r, held)
              else held
      ensures q != NULL && old(H[p - NEXT].size) != r ==>
                CopyPlaces(old(index.ix), old(V()), old(H), index.ix, V(), H, old(last), p - NEXT, q - NEXT, r)
      ensures q != NULL && old(Exact(H, start)) ==> Exact(H, start) && held
    {
      hide Shaped, Wired, Heads, Feet, PinsOk, Agree, Untouched, Tiled, Moved, Live, Copied, Exact, MallocStep,
           FreeStep, Picked, AsksPast, AbsorbsStale, Addable, MallocPlaces, FreePlaces;
      var c := p - NEXT;
      Reads(c);
      AgreeEnd(H, K(), B()[1], last, {});
      var copySize := Size(c);
      held, over := true, false;
      if copySize == r {
        MovedNowhere(M(), H, c, r);
        return p, held, over;
      }
      WholeRequest(r);
      q, over := Malloc(8 * r);
      if q == NULL {
        return NULL, held, over;
      }
      var d := q - NEXT;
      ghost var m1, h1, e1, k1 := M(), H, last, arena.brk;
      ghost var x, u := index.ix, V();
      WholeIndex();
      MallocLive(old(H), H, start, old(last), last, old(arena.brk), d, r);
      LiveElsewhere(old(H), H, c, d, H[d].size);
      ShortfallGrows(old(H), old(last), d, r);
      AgreeEnd(H, K(), B()[1], last, {});
      if r < copySize {
        copySize := r;
      }
      CopyPayload(d, c, copySize);
      ghost var m2 := M();
      held := Free(p);
      FreeLive(h1, H, start, e1, k1, c);
      CopiedOver(old(M()), m1, m2, M(), old(H), h1, H, c, d, r, copySize);
      assert CopyStep(old(H), h1, H, old(last), e1, c, d, r);
      assert CopiedAway(old(index.ix), old(V()), old(H), x, u, h1, index.ix, V(), H, old(last), e1, c, d, r);
      if old(Exact(H, start)) {
        MallocExact(old(H), h1, start, old(last), e1, old(arena.brk), d, r);
        FreeExact(h1, H, start, e1, k1, c);
        ExactMeetsNothing(h1, start, e1, k1, c);
      }
    }

    lemma NotPinched(c: int, r: int)
      requires Valid()
      ensures FitsNearby(H, last, c, r) ==> !Pinched(H, last, c, r)
    {
      RoomIsNotPinched(H, start, last, arena.brk, c, r);
    }

    /** The first three tests of realloc_chunk_is_larger: room in the chunks next to p. */
    method GrowNearby(p: int, r: int) returns (q: int, held: bool)
      requires Valid() && p - NEXT in H && 3 <= r && H[p - NEXT].used && H[p - NEXT].size < r
      modifies `H, `last, index`ix, arena.words, index.bins
      ensures Valid() && last == old(last)
      ensures q == NULL ==> Same(old(M()), old(B()), old(H), old(index.ix), arena.brk)
      ensures q == NULL <==> !old(FitsNearby(H, last, p - NEXT, r))
      ensures held <==> !old(Pinched(H, last, p - NEXT, r))
      ensures q != NULL ==> NearbyStep(old(H), H, last, p - NEXT, q - NEXT, r)
      ensures q != NULL ==> NearbyPlaces(old(index.ix), old(V()), old(H), index.ix, V(), last, p - NEXT, r)
      ensures q != NULL ==> Moved(old(M()), M(), old(H), H, p - NEXT, q - NEXT, r)
      ensures q != NULL && old(Exact(H, start)) ==> Exact(H, start)
    {
      hide Shaped, Wired, Heads, Feet, PinsOk, Agree, Untouched, Tiled, Moved, Live, Copied, Exact, AfterStep,
           BothStep, BeforeStep, AfterPlaces, BothPlaces, BeforePlaces;
      var c := p - NEXT;
      AgreeOutside(H, K(), B()[1], last, {}, c);
      NotPinched(c, r);
      Reads(c);
      Reads(Next(H, c));
      q, held := NULL, true;
      if !CurrentInUse(arena.words[NextChunk(c) + CURRENT_SIZE]) {
        q := ReallocChunkAndAfter(p, r);
        if q != NULL {
          return;
        }
      }
      Reads(c);
      Reads(Next(H, c));
      if !PreviousInUse(arena.words[c + CURRENT_SIZE]) && !CurrentInUse(arena.words[NextChunk(c) + CURRENT_SIZE]) {
        BehindFree(c);
        q := ReallocChunkBeforeAndAfter(p, r);
        if q != NULL {
          return;
        }
      }
      Reads(c);
      Reads(Next(H, c));
      if !PreviousInUse(arena.words[c + CURRENT_SIZE]) && NextChunk(c) != index.bins[0] {
        BehindFree(c);
        q, held := ReallocChunkAndBefore(p, r);
      }
    }

    /** realloc_chunk_is_larger: the growing paths, in the order the allocator tries them. */
    method ReallocLarger(p: int, r: int) returns (q: int, held: bool, over: bool)
      requires Valid() && p - NEXT in H && 3 <= r && H[p - NEXT].used && H[p - NEXT].size < r
      requires GrowthSound(H, last, arena.Room(), r) && TailSound(H, last, arena.Room(), p - NEXT, r)
      modifies `H, `last, index`ix, arena`brk, arena`over, arena.words, index.bins
      ensures Valid() && old(arena.brk) <= arena.brk
      ensures q == NULL ==> Same(old(M()), old(B()), old(H), old(index.ix), old(arena.brk)) && last == old(last)
      ensures q == NULL ==> old(arena.brk) + Shortfall(old(H[last].size), r) > arena.words.Length
      ensures q == NULL ==> Picked(old(V()), old(index.ix), old(H), old(last), r, NULL)
      ensures q != NULL ==> Moved(old(M()), M(), old(H), H, p - NEXT, q - NEXT, r)
      ensures q != NULL ==>
                GrowStep(old(H), H, old(last), old(arena.brk), arena.brk, arena.words.Length, p - NEXT, q - NEXT, r)
      ensures q != NULL ==>
                GrowPlaces(old(index.ix), old(V()), old(H), index.ix, V(), H, old(last), old(arena.brk),
                           arena.words.Length, p - NEXT, q - NEXT, r)
      ensures q == NULL ==> old(Recopies(H, last, arena.brk, arena.words.Length, p - NEXT, r))
      ensures over <==>
                old(Recopies(H, last, arena.brk, arena.words.Length, p - NEXT, r)
                    && AsksPast(V(), index.ix, H, r))
      ensures GrowHolds(old(H), H, old(last), old(arena.brk), arena.words.Length, p - NEXT, q - NEXT, r, held)
      ensures q != NULL && old(Exact(H, start)) ==> Exact(H, start)
      ensures old(Exact(H, start)) ==> (held <==> !old(Pinched(H, last, p - NEXT, r)))
    {
      hide Picked, Shaped, Wired, Heads, Feet, PinsOk, Agree, Untouched, Bounded, Forward, Backward, Spaced, Moved,
           Live, Copied, Exact, FitsNearby, NearbyStep, TailStep, Recopied, CopyHolds, AsksPast, Pinched,
           AbsorbsStale, GrowthSound, TailSound, Lacking, Shortfall, NearbyPlaces, CopyPlaces;
      var c := p - NEXT;
      AgreeEnd(H, K(), B()[1], last, {});
      over := false;
      q, held := GrowNearby(p, r);
      if q != NULL {
        return;
      }
      AgreeOutside(H, K(), B()[1], last, {}, c);
      Reads(c);
      Reads(Next(H, c));
      if !CurrentInUse(arena.words[NextChunk(c) + CURRENT_SIZE]) && NextChunk(c) == index.bins[0] {
        q := ReallocChunkAfterExtendHeap(p, r);
        if q != NULL {
          return;
        }
      }
      var copyHeld;
      q, copyHeld, over := DefaultRealloc(p, r);
      held := held && copyHeld;
    }

    /** my_realloc: block p resized to `size` bytes. */
    method Realloc(p: int, size: nat) returns (q: int, held: bool, over: bool)
      requires Valid() && p - NEXT in H && H[p - NEXT].used && size < TWO_TO_THE_64
      requires GrowthSound(H, last, arena.Room(), RequestWords(size))
      requires TailSound(H, last, arena.Room(), p - NEXT, RequestWords(size))
      modifies `H, `last, index`ix, arena`brk, arena`over, arena.words, index.bins
      ensures Valid() && old(arena.brk) <= arena.brk
      ensures q == NULL ==> Same(old(M()), old(B()), old(H), old(index.ix), old(arena.brk)) && last == old(last)
      ensures q == NULL ==> old(arena.brk) + Shortfall(old(H[last].size), RequestWords(size)) > arena.words.Length
      ensures q == NULL ==> Picked(old(V()), old(index.ix), old(H), old(last), RequestWords(size), NULL)
      ensures q != NULL ==> Moved(old(M()), M(), old(H), H, p - NEXT, q - NEXT, RequestWords(size))
      ensures RequestWords(size) <= old(H[p - NEXT].size) ==> q == p && arena.brk == old(arena.brk)
      ensures RequestWords(size) <= old(H[p - NEXT].size) ==>
                if CanSplit(old(H[p - NEXT].size), RequestWords(size)) then
                  ShrinkStep(old(H), H, p - NEXT, RequestWords(size))
                else H == old(H)
      ensures q != NULL && RequestWords(size) > old(H[p - NEXT].size) ==>
                GrowStep(old(H), H, old(last), old(arena.brk), arena.brk, arena.words.Length, p - NEXT, q - NEXT,
                         RequestWords(size))
      ensures old(Exact(H, start)) ==>
                (Exact(H, start) <==> !old(CutsBeforeBlock(H, p - NEXT, RequestWords(size))))
                && (TagsExact(H, start) <==> !old(CutsBeforeBlock(H, p - NEXT, RequestWords(size))))
      ensures RequestWords(size) <= old(H[p - NEXT].size) ==>
                ShrinkPlaces(old(index.ix), old(V()), old(H), index.ix, V(), H, old(last), p - NEXT, RequestWords(size))
      ensures q != NULL && RequestWords(size) > old(H[p - NEXT].size) ==>
                GrowPlaces(old(index.ix), old(V()), old(H), index.ix, V(), H, old(last), old(arena.brk),
                           arena.words.Length, p - NEXT, q - NEXT, RequestWords(size))
      ensures q == NULL ==>
                old(Recopies(H, last, arena.brk, arena.words.Length, p - NEXT, RequestWords(size)))
      ensures over <==>
                old(Recopies(H, last, arena.brk, arena.words.Length, p - NEXT, RequestWords(size))
                    && AsksPast(V(), index.ix, H, RequestWords(size)))
      ensures if RequestWords(size) <= old(H[p - NEXT].size) then
                held <==> !old(CanSplit(H[p - NEXT].size, RequestWords(size)) && AbsorbsStale(H, last, p - NEXT))
              else
                GrowHolds(old(H), H, old(last), old(arena.brk), arena.words.Length, p - NEXT, q - NEXT,
                          RequestWords(size), held)
      ensures old(Exact(H, start)) ==> (held <==> !old(Pinched(H, last, p - NEXT, RequestWords(size))))
    {
      hide Picked, Shaped, Wired, Heads, Feet, PinsOk, Agree, Untouched, Tiled, Moved, Live, Copied, Exact,
           ShrinkStep, GrowStep, GrowHolds, AsksPast, AbsorbsStale, TagsExact, ShrinkPlaces, GrowPlaces;
      var c, r := p - NEXT, RequestWords(size);
      over := false;
      Reads(c);
      AgreeOutside(H, K(), B()[1], last, {}, c);
      if r <= Size(c) {
        q, held := ReallocSmaller(p, r);
        if old(Exact(H, start)) {
          ExactMeetsNothing(old(H), start, old(last), arena.brk, c);
        }
        if old(Exact(H, start)) && CanSplit(old(H[c].size), r) {
          ShrinkExact(old(H), H, start, old(last), arena.brk, c, r);
        }
      } else {
        q, held, over := ReallocLarger(p, r);
      }
      if Exact(H, start) {
        ExactIsTagged(H, start);
      }
    }

    // ----- initialisation

    /** No bin but bin 0 holds a chunk: what my_init relies on, because it resets only bin 0. */
    ghost predicate Empty()
      reads index, index.bins
    {
      && index.bins.Length == NUM_OF_BINS && index.ix == Index(map[], map[])
      && forall n {:trigger B()[n]} :: 1 <= n < NUM_OF_BINS ==> B()[n] == NULL
    }

    /** The storage for the first chunk, from the first aligned address on, unless the arena has
        no room for it. */
    method FirstChunk() returns (firstByte: int)
      requires 0 <= arena.over < 8 && 0 <= arena.brk && arena.Room() >= 0
      modifies arena`brk, arena`over
      ensures firstByte == MemLib.FAILED <==>
                Align(old(arena.Break())) + INITIAL_CHUNK_SIZE + 2 * 8 > 8 * arena.words.Length
      ensures firstByte != MemLib.FAILED ==>
                firstByte == Align(old(arena.Break())) && arena.over == 0
                && arena.brk == firstByte / 8 + INITIAL_CHUNK_SIZE / 8 + 2
    {
      var top := arena.Break();
      var reqSize := Align(top) - top;
      if reqSize != 0 {
        var _ := arena.Sbrk(reqSize);
      }
      firstByte := arena.Sbrk(INITIAL_CHUNK_SIZE + 2 * 8);
    }

    /** my_init, when the system grants the first chunk: the heap is one end-of-heap chunk,
        starting at the first aligned address from the break on. */
    method Init()
      requires Objects() && Empty() && 2 <= arena.brk && 0 <= arena.over < 8
      requires Align(8 * arena.brk + arena.over) / 8 + INITIAL_CHUNK_SIZE / 8 + 2 <= arena.words.Length
      modifies `H, `start, `last, arena`brk, arena`over, arena.words, index.bins
      ensures Valid() && Exact(H, start) && Live(H) == map[]
      ensures start == last == Align(old(arena.Break())) / 8 && arena.brk == start + INITIAL_CHUNK_SIZE / 8 + 2
      ensures H == InitialH(start) && Empty()
    {
      var firstByte := FirstChunk();
      var first := firstByte / 8;
      arena.words[first + CURRENT_SIZE] := INITIAL_CHUNK_SIZE;
      arena.words[first + CURRENT_SIZE] := SetPreviousInUse(arena.words[first + CURRENT_SIZE]);
      index.bins[0] := first;
      assert B() == old(B())[0 := first];
      BinZeroFree(M(), old(B()), first);
      H, start, last := InitialH(first), first, first;
      HeaderBits(INITIAL_CHUNK_SIZE / 8, false, false);
      InitialLaid(M(), first);
    }

    /** Full collapse: when nothing is live, every bin but bin 0 is empty, so that my_init may
        be called again, if and only if the tags are exact and free chunks apart; bin 0 is then
        one chunk that reaches the break. */
    lemma Collapses()
      requires Valid() && Live(H) == map[]
      ensures Empty() <==> Exact(H, start)
      ensures Empty() ==>
                H.Keys == {start} && B()[0] == last == start && 8 * H[start].size + 16 == 8 * (arena.brk - start)
    {
      hide Wired, Heads, Feet, Shaped, Bounded, Forward, Backward, Spaced;
      AgreeEnd(H, K(), B()[1], last, {});
      if Empty() {
        EmptyIsExact(H, start, last, arena.brk);
      }
      if Exact(H, start) {
        OneChunk(H, start, last, arena.brk);
        NothingHeld(H, K(), B()[1], last);
        NothingIndexed();
      }
    }

    lemma NothingIndexed()
      requires Base() && K() == {} && B()[1] == NULL
      ensures Empty()
    {
      NoChunkNoBin(index.ix, B());
    }

    /** The client stores v in word i of its block at p. */
    method WriteWord(p: int, i: nat, v: int)
      requires Valid() && p - NEXT in H && H[p - NEXT].used && i < H[p - NEXT].size
      modifies arena.words
      ensures Valid() && Untouched(old(M()), M(), H, {p - NEXT})
      ensures 0 <= p + i < arena.words.Length && M() == old(M())[p + i := v]
    {
      hide Shaped, Wired, Heads, Feet, PinsOk, Agree, Untouched;
      Reads(p - NEXT);
      Put(p + i, v);
      PayloadDone(old(M()), M(), B(), index.ix, H, start, last, arena.brk, p - NEXT);
    }

    /** No room: a request of this size would move the break past the end of the arena. */
    ghost predicate NeedsMore(size: nat)
      reads this, arena
    {
      last in H && arena.brk + Shortfall(H[last].size, RequestWords(size)) > arena.words.Length
    }

    lemma EndIsFree()
      requires Valid()
      ensures last in H && !H[last].used
    {
      AgreeEnd(H, K(), B()[1], last, {});
    }

    lemma IntSize(c: int, size: nat)
      requires Valid() && size <= MemLib.TWO_TO_THE_31
      ensures GrowthSound(H, last, arena.Room(), RequestWords(size))
      ensures c in H ==> TailSound(H, last, arena.Room(), c, RequestWords(size))
    {
      IntSizesSound(H, start, last, arena.brk, arena.Room(), c, size);
    }

    /** Headers and footers are 64-bit words with room to spare. */
    lemma TagsFit(c: int)
      requires Valid() && c in H
      ensures 0 <= arena.words[c + CURRENT_SIZE] < 0x1_0000_0000
      ensures !H[c].used && c != last ==> 0 <= arena.words[Next(H, c)] < 0x1_0000_0000
    {
      Reads(c);
      if !H[c].used && c != last {
        assert At(M(), Next(H, c)) == 8 * H[c].size;
      }
    }
  }
}
