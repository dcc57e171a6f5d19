/** The validator (validator.h): replays a trace against the allocator, checking alignment,
    bounds, overlap and contents at every step. */
module Validator {
  import opened Bits
  import opened Layout
  import opened Rings
  import opened Tiling
  import opened IndexModel
  import opened HeapOps
  import opened HeapModel
  import opened ExactTags
  import opened AllocatorSteps
  import opened ReallocSteps
  import opened Places
  import opened Client
  import opened Tables
  import opened Trace
  import MemLib
  import Allocator

  /** Wrong stands for every failed check; OutOfMemory for a malloc or realloc that
      returned NULL. */
  datatype Verdict = Passed | OutOfMemory | Wrong

  class Validator {
    const t: Tables
    var ranges: seq<Range>
    ghost var order: seq<int>

    /** A validator for the trace whose tables these are. */
    constructor (t: Tables)
      ensures this.t == t && ranges == [] && order == []
    {
      this.t := t;
      ranges, order := [], [];
    }

    /** Everything the validator believes is true of the allocator. */
    ghost predicate Ok()
      reads this, t, t.a, t.a.arena, t.a.arena.words, t.a.index, t.a.index.bins, t.blocks, t.sizes
    {
      && t.Ok() && Contents(t.a.M(), t.held, {}) && Recorded(ranges, order, t.held)
    }

    // ----- ranges

    /** add_range: the payload of `size` bytes at byte address lo is recorded if it is
        aligned, inside the heap and apart from every recorded range. */
    method AddRange(lo: int, size: int) returns (ok: bool)
      requires size > 0
      modifies `ranges
      ensures ok <==>
                && lo % ALIGNMENT == 0 && 8 * t.a.arena.lo <= lo && lo + size - 1 <= t.a.arena.HeapHi()
                && forall j {:trigger old(ranges)[j]} :: 0 <= j < |old(ranges)| ==>
                     Apart(Range(lo, lo + size - 1), old(ranges)[j])
      ensures ranges == if ok then [Range(lo, lo + size - 1)] + old(ranges) else old(ranges)
    {
      var hi := lo + size - 1;
      if lo % ALIGNMENT != 0 {
        return false;
      }
      if hi > t.a.arena.HeapHi() || lo < 8 * t.a.arena.lo {
        return false;
      }
      var j := 0;
      while j < |ranges|
        invariant 0 <= j <= |ranges| && ranges == old(ranges)
        invariant forall i {:trigger ranges[i]} :: 0 <= i < j ==> Apart(Range(lo, hi), ranges[i])
      {
        if !(lo > ranges[j].hi || ranges[j].lo > hi) {
          return false;
        }
        j := j + 1;
      }
      ranges := [Range(lo, hi)] + ranges;
      ok := true;
    }

    /** remove_range: the first range that starts at lo goes, if there is one. */
    method RemoveRange(lo: int) returns (ghost k: nat)
      modifies `ranges
      ensures k <= |old(ranges)| && forall j {:trigger old(ranges)[j]} :: 0 <= j < k ==> old(ranges)[j].lo != lo
      ensures k < |old(ranges)| ==> old(ranges)[k].lo == lo && ranges == DropAt(old(ranges), k)
      ensures k == |old(ranges)| ==> ranges == old(ranges)
    {
      var j := 0;
      while j < |ranges|
        invariant 0 <= j <= |ranges| && ranges == old(ranges)
        invariant forall i {:trigger ranges[i]} :: 0 <= i < j ==> ranges[i].lo != lo
      {
        if ranges[j].lo == lo {
          k := j;
          ranges := ranges[..j] + ranges[j + 1..];
          return;
        }
        j := j + 1;
      }
      k := j;
    }

    // ----- contents

    /** Store the pattern in the words of block p up to byte `size`. */
    method Fill(p: int, size: nat)
      requires t.Separate() && t.a.Valid() && p - NEXT in t.a.H && t.a.H[p - NEXT].used
      requires WordsFor(size) <= t.a.H[p - NEXT].size
      modifies t.a.arena.words
      ensures t.a.Valid() && Untouched(old(t.a.M()), t.a.M(), t.a.H, {p - NEXT}) && Filled(t.a.M(), p, WordsFor(size))
    {
      hide Untouched, Pattern;
      var i := 0;
      UntouchedNone(t.a.M(), t.a.H, p - NEXT);
      while 8 * i < size
        invariant 0 <= i <= WordsFor(size)
        invariant t.a.Valid() && Untouched(old(t.a.M()), t.a.M(), t.a.H, {p - NEXT}) && Filled(t.a.M(), p, i)
        decreases WordsFor(size) - i
      {
        ghost var m := t.a.M();
        t.a.WriteWord(p, i, Pattern(i, p));
        UntouchedTwice(old(t.a.M()), m, t.a.M(), t.a.H, {p - NEXT});
        FilledOne(m, t.a.M(), p, i);
        i := i + 1;
      }
    }

    /** The first words of block q, up to byte `size`, carry the pattern of address p. */
    method HasPattern(q: int, p: int, size: nat) returns (ok: bool)
      requires 0 <= q && q + WordsFor(size) <= t.a.arena.words.Length
      ensures ok <==> forall k {:trigger Field(t.a.M(), q, k)} :: 0 <= k < WordsFor(size) ==>
                Field(t.a.M(), q, k) == Pattern(k, p)
    {
      hide Pattern;
      var i := 0;
      while 8 * i < size
        invariant 0 <= i <= WordsFor(size)
        invariant forall k {:trigger Field(t.a.M(), q, k)} :: 0 <= k < i ==> Field(t.a.M(), q, k) == Pattern(k, p)
        decreases WordsFor(size) - i
      {
        if t.a.arena.words[q + i] != Pattern(i, p) {
          assert Field(t.a.M(), q, i) != Pattern(i, p);
          return false;
        }
        i := i + 1;
      }
      ok := true;
    }

    // ----- one request

    /** A malloc request. */
    method DoAlloc(i: nat, size: nat) returns (v: Verdict)
      requires Ok() && i < t.blocks.Length && i !in t.place && 0 < size <= MAX_INT
      modifies `ranges, t`held, `order, t`place, t.blocks, t.sizes
      modifies t.a`H, t.a`last, t.a.index`ix, t.a.arena`brk, t.a.arena`over, t.a.index.bins, t.a.arena.words
      ensures v != Wrong
      ensures v == OutOfMemory ==> t.a.NeedsMore(size) && Ok() && t.AskedNow() == old(t.AskedNow())
      ensures v == Passed ==> Ok() && t.AskedNow() == old(t.AskedNow())[i := size]
      ensures v == Passed ==> Follows(old(t.Now()), t.Now(), Alloc(i, size), t.a.arena.words.Length)
      ensures v == OutOfMemory ==> Refused(old(t.Now()), Alloc(i, size), t.a.arena.words.Length)
      ensures v == Passed && old(Exact(t.a.H, t.a.start)) ==> Exact(t.a.H, t.a.start)
    {
      hide Shaped, Wired, Heads, Feet, PinsOk, Agree, Tiled, Untouched, Contents, Recorded, Named, Sizes, Exact,
           MallocStep, Live, Filled, AskedIn, Picked, AsksPast, GrowthSound, TailSound, RequestWords, Growth,
           MallocPlaces, Shortfall, Serves;
      t.a.EndIsFree();
      t.a.IntSize(0, size);
      var p, over := t.a.Malloc(size);
      if p == NULL {
        return OutOfMemory;
      }
      ghost var c := p - NEXT;
      MallocKeeps(old(t.a.M()), t.a.M(), old(t.a.H), t.a.H, t.a.start, old(t.a.last), t.a.last, old(t.a.arena.brk),
                  t.held, c, i, size);
      if old(Exact(t.a.H, t.a.start)) {
        MallocExact(old(t.a.H), t.a.H, t.a.start, old(t.a.last), t.a.last, old(t.a.arena.brk), c, RequestWords(size));
      }
      ghost var h0, h1 := t.held, t.held[c := Held(i, size)];
      NewRangeFits(t.a.H, t.a.start, t.a.last, t.a.arena.brk, ranges, order, t.held, h1, c, size);
      var added := AddRange(8 * p, size);
      if added {
        RecordedAdd(old(ranges), order, h0, c, i, size);
        NamedAdd(t.blocks[..], t.sizes[..], t.place, h0, c, i, size);
        AskedAdd(t.blocks[..], t.sizes[..], t.place, h0, c, i, size);
        t.held, order, t.place := h1, [c] + order, t.place[i := c];
        Keep(p, i, size);
      }
      v := if added then Passed else Wrong;
    }

    /** Fill the block at p with its pattern and enter it in the tables. */
    method Keep(p: int, i: nat, size: nat)
      requires t.Separate() && t.a.Valid() && t.a.start == t.a.arena.lo && i < t.blocks.Length
      requires Sizes(t.a.H, t.held) && p - NEXT in t.held && t.held[p - NEXT].size == size
      requires Contents(t.a.M(), t.held, {p - NEXT})
      requires Recorded(ranges, order, t.held) && Named(t.blocks[..][i := p], t.sizes[..][i := size], t.place, t.held)
      modifies t.blocks, t.sizes, t.a.arena.words
      ensures Ok()
    {
      hide Shaped, Wired, Heads, Feet, PinsOk, Agree, Tiled, Untouched, Contents, Recorded, Named, Sizes, Filled;
      ghost var m, c := t.a.M(), p - NEXT;
      FillKeeps(t.a.H, t.held, c);
      Fill(p, size);
      ContentsKept(m, t.a.M(), t.a.H, t.held, {c});
      ContentsFilled(t.a.M(), t.held, c);
      t.blocks[i] := p;
      t.sizes[i] := size;
      assert t.blocks[..] == old(t.blocks[..])[i := p] && t.sizes[..] == old(t.sizes[..])[i := size];
    }

    /** The record of block c goes from the range list. */
    method DropRecord(c: int)
      requires Recorded(ranges, order, t.held) && c in t.held
      modifies `ranges, `order
      ensures Recorded(ranges, order, t.held - {c})
    {
      RecordedAt(ranges, order, t.held, c);
      ghost var k := RemoveRange(8 * (c + NEXT));
      RecordedDrop(old(ranges), order, t.held, k);
      order := Without(order, k);
    }

    /** A free request. */
    method DoFree(i: nat) returns (held: bool)
      requires Ok() && i in t.place
      modifies `ranges, t`held, `order, t`place
      modifies t.a`H, t.a`last, t.a.index`ix, t.a.index.bins, t.a.arena.words
      ensures Ok() && t.AskedNow() == old(t.AskedNow()) - {i}
      ensures Follows(old(t.Now()), t.Now(), Free(i), t.a.arena.words.Length)
      ensures old(Exact(t.a.H, t.a.start)) ==> Exact(t.a.H, t.a.start) && held
    {
      hide Shaped, Wired, Heads, Feet, Agree, Tiled, Untouched, Contents, Recorded, Sizes, Exact, FreeStep, Live,
           Filled, AskedIn, AbsorbsStale, FreePlaces;
      var p := t.blocks[i];
      var c := p - NEXT;
      NamedFree(t.blocks[..], t.sizes[..], t.place, t.held, i);
      AskedFree(t.blocks[..], t.sizes[..], t.place, t.held, i);
      FillKeeps(t.a.H, t.held, c);
      t.a.EndIsFree();
      DropRecord(c);
      held := t.a.Free(p);
      FreeKeeps(old(t.a.M()), t.a.M(), old(t.a.H), t.a.H, t.a.start, old(t.a.last), t.a.arena.brk, t.held, c);
      if old(Exact(t.a.H, t.a.start)) {
        FreeExact(old(t.a.H), t.a.H, t.a.start, old(t.a.last), t.a.arena.brk, c);
        ExactMeetsNothing(old(t.a.H), t.a.start, old(t.a.last), t.a.arena.brk, c);
      }
      t.held, t.place := t.held - {c}, t.place - {i};
    }

    /** Block c has been reallocated to newp: check and record it there. */
    method Reenter(c: int, newp: int, i: nat, size: nat, ghost h1: Blocks, ghost h2: Blocks) returns (good: bool)
      requires t.Separate() && t.a.Valid() && t.a.start == t.a.arena.lo && i in t.place && t.place[i] == c
      requires c in t.held && size > 0
      requires Recorded(ranges, order, t.held) && Named(t.blocks[..], t.sizes[..], t.place, t.held)
      requires h1 == t.held - {c} && newp - NEXT !in h1 && h2 == h1[newp - NEXT := Held(i, size)]
      requires Sizes(t.a.H, h2) && Contents(t.a.M(), h2, {newp - NEXT})
      requires forall k {:trigger Field(t.a.M(), newp, k)} ::
                 0 <= k < WordsFor(Min(t.held[c].size, size)) ==> Field(t.a.M(), newp, k) == Pattern(k, c + NEXT)
      modifies `ranges, t`held, `order, t`place, t.blocks, t.sizes, t.a.arena.words
      ensures good && Ok() && t.held == h2 && t.place == old(t.place)[i := newp - NEXT]
    {
      hide Shaped, Wired, Heads, Feet, PinsOk, Agree, Tiled, Untouched, Contents, Recorded, Sizes, Filled, Named,
           Apart, Pattern;
      ghost var d := newp - NEXT;
      NamedIndex(t.blocks[..], t.sizes[..], t.place, t.held, i);
      var oldp := t.blocks[i];
      DropRecord(c);
      NewRangeFits(t.a.H, t.a.start, t.a.last, t.a.arena.brk, ranges, order, h1, h2, d, size);
      ghost var rs := ranges;
      good := AddRange(8 * newp, size);
      var oldsize := if size < t.sizes[i] then size else t.sizes[i];
      if good {
        FillKeeps(t.a.H, h2, d);
        InArena(t.a, d);
        good := HasPattern(newp, oldp, oldsize);
      }
      if good {
        RecordedAdd(rs, order, h1, d, i, size);
        NamedMove(t.blocks[..], t.sizes[..], t.place, t.held, d, i, size);
        t.held, order, t.place := h2, [d] + order, t.place[i := d];
        Keep(newp, i, size);
      }
    }

    /** A realloc request. */
    method DoRealloc(i: nat, size: nat) returns (v: Verdict, held: bool)
      requires Ok() && i in t.place && 0 < size <= MAX_INT
      modifies `ranges, t`held, `order, t`place, t.blocks, t.sizes
      modifies t.a`H, t.a`last, t.a.index`ix, t.a.arena`brk, t.a.arena`over, t.a.index.bins, t.a.arena.words
      ensures v != Wrong
      ensures v == OutOfMemory ==> t.a.NeedsMore(size) && Ok() && t.AskedNow() == old(t.AskedNow())
      ensures v == Passed ==> Ok() && t.AskedNow() == old(t.AskedNow())[i := size]
      ensures v == Passed ==> Follows(old(t.Now()), t.Now(), Realloc(i, size), t.a.arena.words.Length)
      ensures v == OutOfMemory ==> Refused(old(t.Now()), Realloc(i, size), t.a.arena.words.Length)
      ensures v == Passed && old(Exact(t.a.H, t.a.start) && !CutsAt(t.a.H, t.place, i, size)) ==>
                Exact(t.a.H, t.a.start)
      ensures old(Exact(t.a.H, t.a.start)) ==>
                (held <==> !old(Pinched(t.a.H, t.a.last, t.place[i], RequestWords(size))))
    {
      hide Shaped, Wired, Heads, Feet, PinsOk, Agree, Tiled, Untouched, Contents, Recorded, Sizes, Exact, Moved,
           Live, Filled, AskedIn, GrowStep, ShrinkStep, CutsBeforeBlock, Named, Pattern, GrowHolds, Pinched,
           AbsorbsStale, TagsExact, GrowPlaces, ShrinkPlaces, Picked, Recopies;
      NamedIndex(t.blocks[..], t.sizes[..], t.place, t.held, i);
      t.a.EndIsFree();
      var oldp := t.blocks[i];
      var c := oldp - NEXT;
      FillKeeps(t.a.H, t.held, c);
      t.a.IntSize(c, size);
      var newp, over;
      newp, held, over := t.a.Realloc(oldp, size);
      if newp == NULL {
        return OutOfMemory, held;
      }
      ghost var d, h1 := newp - NEXT, t.held - {c};
      ReallocKeeps(old(t.a.M()), t.a.M(), old(t.a.H), t.a.H, t.held, c, d, i, size);
      PatternMoved(old(t.a.M()), t.a.M(), old(t.a.H), t.a.H, t.held, c, d, size, newp);
      AskedMove(t.blocks[..], t.sizes[..], t.place, t.held, d, i, size);
      var good := Reenter(c, newp, i, size, h1, h1[d := Held(i, size)]);
      v := if good then Passed else Wrong;
    }

    // ----- a whole trace

    /** The next request, which the client may make. */
    method Replay(op: Op) returns (v: Verdict, held: bool)
      requires Ok() && MayAsk(t.AskedNow(), op, t.blocks.Length)
      modifies `ranges, t`held, `order, t`place, t.blocks, t.sizes
      modifies t.a`H, t.a`last, t.a.index`ix, t.a.arena`brk, t.a.arena`over, t.a.index.bins, t.a.arena.words
      ensures v != Wrong
      ensures v == OutOfMemory ==>
                (op.Alloc? || op.Realloc?) && t.a.NeedsMore(op.size) && Ok() && t.AskedNow() == old(t.AskedNow())
      ensures v == Passed ==> Ok() && t.AskedNow() == AfterOp(old(t.AskedNow()), op)
      ensures v == Passed ==> Follows(old(t.Now()), t.Now(), op, t.a.arena.words.Length)
      ensures v == OutOfMemory ==> Refused(old(t.Now()), op, t.a.arena.words.Length)
      ensures v == Passed && old(Exact(t.a.H, t.a.start) && !Cuts(t.Now(), op)) ==> Exact(t.a.H, t.a.start)
      ensures old(Exact(t.a.H, t.a.start)) ==> (held <==> !old(Pinches(t.Now(), op)))
    {
      hide Shaped, Wired, Heads, Feet, PinsOk, Agree, Tiled, Contents, Recorded, Sizes, Exact, AskedIn, Pinched,
           MallocStep, FreeStep, Resized, Served, FreePlaces, NoRoomFor, Recopies;
      AskedKeys(t.blocks[..], t.sizes[..], t.place, t.held);
      hide Named;
      held := true;
      match op {
        case Alloc(i, size) =>
          v := DoAlloc(i, size);
        case Realloc(i, size) =>
          v, held := DoRealloc(i, size);
        case Free(i) =>
          held := DoFree(i);
          v := Passed;
        case Write(_) =>
          v := Passed;
      }
    }

    /** An empty heap, initialised, and no ranges. */
    method Start()
      requires t.Ready()
      modifies `ranges, t`held, `order, t`place
      modifies t.a`H, t.a`start, t.a`last, t.a.arena`brk, t.a.arena`over, t.a.index.bins, t.a.arena.words
      ensures Ok() && t.AskedNow() == map[] && Exact(t.a.H, t.a.start)
      ensures t.Now() == FirstMoment(t.a.arena.lo)
    {
      hide Shaped, Wired, Heads, Feet, PinsOk, Agree, Tiled, Exact, Live;
      t.a.arena.ResetBrk();
      t.a.Init();
      ranges, t.held, order, t.place := [], map[], [], map[];
      NothingHeldYet(t.a.H, t.a.M(), t.blocks[..], t.sizes[..]);
    }

    /** eval_mm_valid. On every well-formed trace no check fails: the answer is Passed unless
        malloc or realloc finds no room for request `failed`, after serving those before it.
        `met` is what each request met and, last, the end of the run. As long as none has cut its
        block right before a block in use, which no growing trace does, the tags are exact, and
        the assertions at lines 760 and 922 have held (`held`) if and only if no request has been
        pinched. When everything has been freed, the bins are empty, so that the next trace may
        start with my_init alone, if and only if the tags are exact. */
    method EvalValid(ops: seq<Op>) returns (v: Verdict, failed: nat, held: bool, ghost met: seq<Moment>)
      requires t.Ready() && WellFormed(ops, t.blocks.Length)
      modifies `ranges, t`held, `order, t`place, t.blocks, t.sizes
      modifies t.a`H, t.a`start, t.a`last, t.a.index`ix, t.a.arena`brk, t.a.arena`over, t.a.index.bins
      modifies t.a.arena.words
      ensures v != Wrong
      ensures failed <= |ops| && (v == Passed <==> failed == |ops|)
      ensures History(met, ops, t.a.arena.lo, t.a.arena.words.Length) && |met| == failed + 1
      ensures v == OutOfMemory ==>
                (ops[failed].Alloc? || ops[failed].Realloc?) && t.a.NeedsMore(ops[failed].size)
                && t.AskedNow() == Asked(ops, failed) && Refused(met[failed], ops[failed], t.a.arena.words.Length)
      ensures v == Passed ==> t.a.arena.Break() == 8 * t.a.arena.lo && ranges == []
      ensures v == Passed && Asked(ops, |ops|) == map[] ==> (t.a.Empty() <==> Exact(t.a.H, t.a.start))
      ensures v == Passed && NoCuts(met, ops) ==> Exact(t.a.H, t.a.start)
      ensures NoCuts(met, ops) ==> (held <==> NoPinches(met, ops))
      ensures Growing(ops) ==> NoCuts(met, ops)
    {
      hide Laid, Shaped, Wired, PinsOk, Agree, Contents, Recorded, Sizes, Exact, AskedIn, Named, Live, MayAsk, Grows,
           NoCuts, NoPinches, Cuts, Pinches, History, Follows, Refused, Proper;
      Start();
      failed, held, met := 0, true, [t.Now()];
      t.NowProper();
      HistoryStarts(ops, t.a.arena.lo, t.a.arena.words.Length);
      NothingMet(ops);
      while failed < |ops|
        invariant 0 <= failed <= |ops| && Ok() && t.AskedNow() == Asked(ops, failed)
        invariant |met| == failed + 1 && met[failed] == t.Now()
        invariant History(met, ops, t.a.arena.lo, t.a.arena.words.Length)
        invariant Growing(ops) ==> NoCuts(met[..failed], ops)
        invariant NoCuts(met[..failed], ops) ==> Exact(t.a.H, t.a.start) && (held <==> NoPinches(met[..failed], ops))
      {
        if Growing(ops) {
          t.GrowingCutsNothing(ops[failed]);
        }
        OneMore(met, ops);
        var fine;
        v, fine := Replay(ops[failed]);
        held := held && fine;
        if v != Passed {
          return;
        }
        t.NowProper();
        HistoryGoesOn(met, t.Now(), ops, t.a.arena.lo, t.a.arena.words.Length);
        assert (met + [t.Now()])[..failed + 1] == met;
        met := met + [t.Now()];
        failed := failed + 1;
      }
      OneMore(met, ops);
      if Asked(ops, |ops|) == map[] {
        t.AllFreed();
      }
      t.a.arena.ResetBrk();
      ranges := [];
      v := Passed;
    }
  }

  /** Malloc adds one block and leaves what the others hold. */
  lemma MallocKeeps(m: seq<int>, m': seq<int>, H: Heap, H': Heap, start: int, last: int, last': int, brk: int,
                    held: Blocks, c: int, i: nat, size: nat)
    requires Tiled(H, start, last, brk) && Sizes(H, held) && Contents(m, held, {}) && 0 < size <= MAX_INT
    requires MallocStep(H, H', last, last', c, RequestWords(size)) && Untouched(m, m', H, {})
    ensures c !in held && Sizes(H', held[c := Held(i, size)]) && Contents(m', held[c := Held(i, size)], {c})
  {
    hide Tiled, Live, Contents, Untouched, MallocStep;
    MallocLive(H, H', start, last, last', brk, c, RequestWords(size));
    SizesAlloc(H, H', held, c, i, size);
    ContentsKept(m, m', H, held, {});
    ContentsSub(m', held, held[c := Held(i, size)], {}, {c});
  }

  /** A new block's range passes every check against the recorded ranges. */
  lemma NewRangeFits(H: Heap, start: int, last: int, brk: int, ranges: seq<Range>, order: seq<int>, held: Blocks,
                     held': Blocks, c: int, size: nat)
    requires Tiled(H, start, last, brk) && Recorded(ranges, order, held) && Sizes(H, held')
    requires c !in held && c in held' && held'[c].size == size
    requires forall x {:trigger x in held} :: x in held ==> x in held' && held'[x] == held[x]
    ensures var r := RangeOf(c, size);
            && r.lo % ALIGNMENT == 0 && 8 * start <= r.lo && r.hi <= 8 * brk - 1
            && forall j {:trigger ranges[j]} :: 0 <= j < |ranges| ==> Apart(r, ranges[j])
  {
    hide Tiled, Serves, Live;
    assert Serves(H, c, size);
    RangeInHeap(H, start, last, brk, c, size);
    forall j | 0 <= j < |ranges|
      ensures Apart(RangeOf(c, size), ranges[j])
    {
      var d := order[j];
      assert d in held && Serves(H, d, held'[d].size);
      RangesApart(H, start, last, brk, c, size, d, held[d].size);
    }
  }

  /** Free takes one block and leaves what the others hold. */
  lemma FreeKeeps(m: seq<int>, m': seq<int>, H: Heap, H': Heap, start: int, last: int, brk: int, held: Blocks, c: int)
    requires Tiled(H, start, last, brk) && PinsOk(H, start) && Sizes(H, held) && Contents(m, held, {})
    requires c in H && H[c].used && last in H && !H[last].used && FreeStep(H, H', c) && Untouched(m, m', H, {c})
    ensures Sizes(H', held - {c}) && Contents(m', held - {c}, {})
  {
    hide Tiled, Live, PinsOk, Untouched, FreeStep, Filled;
    FreeLive(H, H', start, last, brk, c);
    SizesFree(H, H', held, c);
    ContentsSub(m, held, held, {}, {c});
    ContentsKept(m, m', H, held, {c});
    ContentsSub(m', held, held - {c}, {c}, {});
  }

  /** Realloc moves one block and leaves what the others hold. */
  lemma ReallocKeeps(m: seq<int>, m': seq<int>, H: Heap, H': Heap, held: Blocks, c: int, d: int, i: nat, size: nat)
    requires Sizes(H, held) && Contents(m, held, {}) && c in held && Moved(m, m', H, H', c, d, RequestWords(size))
    requires 0 < size <= MAX_INT
    ensures d !in held - {c} && Sizes(H', (held - {c})[d := Held(i, size)])
    ensures Contents(m', (held - {c})[d := Held(i, size)], {d})
  {
    hide Live, Untouched, Filled, Copied;
    SizesMove(m, m', H, H', held, c, d, i, size);
    ContentsSub(m, held, held, {}, {c});
    ContentsKept(m, m', H, held, {c});
    ContentsSub(m', held, (held - {c})[d := Held(i, size)], {c}, {d});
  }

  lemma InArena(a: Allocator.Allocator, c: int)
    requires a.Valid() && c in a.H
    ensures 2 <= c && c + a.H[c].size + 1 < a.arena.words.Length
  {
    a.Reads(c);
  }

  lemma FilledOne(m: seq<int>, m': seq<int>, p: int, i: nat)
    requires Filled(m, p, i) && 0 <= p && p + i < |m| && m' == m[p + i := Pattern(i, p)]
    ensures Filled(m', p, i + 1)
  {
    hide Pattern;
    forall k | 0 <= k < i + 1
      ensures Field(m', p, k) == Pattern(k, p)
    {
      if k < i {
        assert Field(m, p, k) == Pattern(k, p);
      }
    }
  }
}
