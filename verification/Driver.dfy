/** Space utilization, the checking run and the loop over the traces (mdriver.c). */
module Driver {
  import opened Layout
  import opened Rings
  import opened Tiling
  import opened IndexModel
  import opened HeapOps
  import opened HeapModel
  import opened HeapFacts
  import opened ExactTags
  import opened AllocatorSteps
  import opened ReallocSteps
  import opened Places
  import opened Client
  import opened Tables
  import opened Trace
  import Allocator
  import Checker
  import Histories
  import Validator

  const MEM_ALLOWANCE := 40 * 1024

  function Most(x: int, y: int): int {
    if x > y then x else y
  }

  /** The largest total size allocated at once by the first n requests. */
  ghost function HighWater(ops: seq<Op>, n: nat): int
    requires n <= |ops|
  {
    if n == 0 then 0
    else
      var before, now := HighWater(ops, n - 1), Sum(Asked(ops, n));
      if before < now then now else before
  }

  /** A sum over indices is at most a sum over distinct chunks that are each as large. */
  lemma {:induction false} SumInjected(f: map<int, int>, place: map<nat, int>, g: map<int, int>)
    requires forall i {:trigger i in f} :: i in f ==> i >= 0 && i in place && place[i] in g && f[i] <= g[place[i]]
    requires forall i, j {:trigger place[i], place[j]} :: i in f && j in f && place[i] == place[j] ==> i == j
    requires forall k {:trigger k in g} :: k in g ==> 0 <= g[k]
    ensures Sum(f) <= Sum(g)
    decreases |f|
  {
    if exists i :: i in f {
      var i :| i in f;
      SumTake(f, i);
      SumTake(g, place[i]);
      SumInjected(f - {i}, place, g - {place[i]});
    } else {
      assert f == map[];
      SumAtMost(f, g);
    }
  }

  /** What is allocated at any time fits the heap of that time. */
  lemma AskedBelowHeap(H: Heap, start: int, last: int, brk: int, bs: seq<int>, ss: seq<int>, place: map<nat, int>,
                       held: Blocks, asked: map<nat, nat>)
    requires Tiled(H, start, last, brk) && Sizes(H, held) && Named(bs, ss, place, held) && asked == AskedIn(place, held)
    ensures Sum(asked) <= 8 * (brk - start) - 8
  {
    Conserved(H, start, last, brk);
    ChunksHavePositiveExtents(H, start, last);
    forall i | i in asked
      ensures i in place && place[i] in Extents(H) && asked[i] <= Extents(H)[place[i]]
    {
      assert Serves(H, place[i], held[place[i]].size);
    }
    forall i, j | i in asked && j in asked && place[i] == place[j]
      ensures i == j
    {
      assert held[place[i]].index == i && held[place[j]].index == j;
    }
    SumInjected(asked, place, Extents(H));
  }

  lemma ChunksHavePositiveExtents(H: Heap, start: int, last: int)
    requires Bounded(H, start, last)
    ensures forall c {:trigger c in Extents(H)} :: c in Extents(H) ==> 0 <= Extents(H)[c]
  {
  }

  /** A malloc request, with the running total. */
  method DoAlloc(t: Tables, i: nat, size: nat, total: int) returns (ok: bool, total': int)
    requires t.Ok() && i < t.blocks.Length && i !in t.place && 0 < size <= MAX_INT && total == Sum(t.AskedNow())
    modifies t`held, t`place, t.blocks, t.sizes
    modifies t.a`H, t.a`last, t.a.index`ix, t.a.arena`brk, t.a.arena`over, t.a.index.bins, t.a.arena.words
    ensures ok ==> t.Ok() && t.AskedNow() == old(t.AskedNow())[i := size] && total' == Sum(t.AskedNow())
    ensures if ok then old(t.a.arena.brk) <= t.a.arena.brk
            else t.a.NeedsMore(size) && t.Ok() && t.AskedNow() == old(t.AskedNow())
    ensures ok ==> Follows(old(t.Now()), t.Now(), Alloc(i, size), t.a.arena.words.Length)
    ensures !ok ==> Refused(old(t.Now()), Alloc(i, size), t.a.arena.words.Length)
    ensures old(Exact(t.a.H, t.a.start)) ==> Exact(t.a.H, t.a.start)
  {
    hide Shaped, Wired, Heads, Feet, PinsOk, Agree, Tiled, Sizes, Live, Moved, GrowStep, ShrinkStep, FreeStep,
         MallocStep, AskedIn, CutsBeforeBlock, Exact, Sum, Untouched, Named, Picked, AsksPast, GrowthSound,
         TailSound, MallocPlaces, RequestWords, Growth, Shortfall;
    t.a.EndIsFree();
    AskedKeys(t.blocks[..], t.sizes[..], t.place, t.held);
    t.a.IntSize(0, size);
    var p, over := t.a.Malloc(size);
    ok, total' := p != NULL, total;
    if ok {
      ghost var c := p - NEXT;
      MallocLive(old(t.a.H), t.a.H, t.a.start, old(t.a.last), t.a.last, old(t.a.arena.brk), c, RequestWords(size));
      ShortfallGrows(old(t.a.H), old(t.a.last), c, RequestWords(size));
      if old(Exact(t.a.H, t.a.start)) {
        MallocExact(old(t.a.H), t.a.H, t.a.start, old(t.a.last), t.a.last, old(t.a.arena.brk), c, RequestWords(size));
      }
      SizesAlloc(old(t.a.H), t.a.H, t.held, c, i, size);
      NamedAdd(t.blocks[..], t.sizes[..], t.place, t.held, c, i, size);
      AskedAdd(t.blocks[..], t.sizes[..], t.place, t.held, c, i, size);
      SumPut(t.AskedNow(), i, size);
      t.held, t.place := t.held[c := Held(i, size)], t.place[i := c];
      t.blocks[i] := p;
      t.sizes[i] := size;
      assert t.blocks[..] == old(t.blocks[..])[i := p] && t.sizes[..] == old(t.sizes[..])[i := size];
      total' := total + size;
    }
  }

  lemma CutIsSmaller(H: Heap, c: int, r: int)
    ensures CutsBeforeBlock(H, c, r) ==> c in H && r <= H[c].size
  {
  }

  /** A realloc request. */
  method DoRealloc(t: Tables, i: nat, newsize: nat, total: int) returns (ok: bool, total': int, held: bool)
    requires t.Ok() && i in t.place && 0 < newsize <= MAX_INT && total == Sum(t.AskedNow())
    modifies t`held, t`place, t.blocks, t.sizes
    modifies t.a`H, t.a`last, t.a.index`ix, t.a.arena`brk, t.a.arena`over, t.a.index.bins, t.a.arena.words
    ensures ok ==> t.Ok() && t.AskedNow() == old(t.AskedNow())[i := newsize] && total' == Sum(t.AskedNow())
    ensures if ok then old(t.a.arena.brk) <= t.a.arena.brk
            else t.a.NeedsMore(newsize) && t.Ok() && t.AskedNow() == old(t.AskedNow())
    ensures ok ==> Follows(old(t.Now()), t.Now(), Realloc(i, newsize), t.a.arena.words.Length)
    ensures !ok ==> Refused(old(t.Now()), Realloc(i, newsize), t.a.arena.words.Length)
    ensures old(Exact(t.a.H, t.a.start) && !CutsAt(t.a.H, t.place, i, newsize)) ==> Exact(t.a.H, t.a.start)
    ensures old(Exact(t.a.H, t.a.start) && CutsAt(t.a.H, t.place, i, newsize)) ==>
              ok && !TagsExact(t.a.H, t.a.start)
    ensures old(Exact(t.a.H, t.a.start)) ==>
              (held <==> !old(Pinched(t.a.H, t.a.last, t.place[i], RequestWords(newsize))))
  {
    hide Shaped, Wired, Heads, Feet, PinsOk, Agree, Tiled, Sizes, Live, Moved, GrowStep, ShrinkStep, FreeStep,
         MallocStep, AskedIn, CutsBeforeBlock, Exact, Sum, Untouched, Named, Picked, AbsorbsStale, Pinched,
         GrowHolds, TagsExact, GrowPlaces, ShrinkPlaces, Recopies;
    t.a.EndIsFree();
    AskedKeys(t.blocks[..], t.sizes[..], t.place, t.held);
    NamedIndex(t.blocks[..], t.sizes[..], t.place, t.held, i);
    var oldsize, oldp := t.sizes[i], t.blocks[i];
    ghost var c := oldp - NEXT;
    FillKeeps(t.a.H, t.held, c);
    t.a.IntSize(c, newsize);
    CutIsSmaller(t.a.H, c, RequestWords(newsize));
    var newp, over;
    newp, held, over := t.a.Realloc(oldp, newsize);
    ok, total' := newp != NULL, total;
    if ok {
      ghost var d := newp - NEXT;
      SizesMove(old(t.a.M()), t.a.M(), old(t.a.H), t.a.H, t.held, c, d, i, newsize);
      NamedMove(t.blocks[..], t.sizes[..], t.place, t.held, d, i, newsize);
      AskedMove(t.blocks[..], t.sizes[..], t.place, t.held, d, i, newsize);
      SumPut(t.AskedNow(), i, newsize);
      t.held, t.place := (t.held - {c})[d := Held(i, newsize)], t.place[i := d];
      t.blocks[i] := newp;
      t.sizes[i] := newsize;
      assert t.blocks[..] == old(t.blocks[..])[i := newp] && t.sizes[..] == old(t.sizes[..])[i := newsize];
      total' := total + (newsize - oldsize);
    }
  }

  /** A free request. */
  method DoFree(t: Tables, i: nat, total: int) returns (total': int, held: bool)
    requires t.Ok() && i in t.place && total == Sum(t.AskedNow())
    modifies t`held, t`place
    modifies t.a`H, t.a`last, t.a.index`ix, t.a.index.bins, t.a.arena.words
    ensures t.Ok() && t.AskedNow() == old(t.AskedNow()) - {i} && total' == Sum(t.AskedNow()) <= total
    ensures Follows(old(t.Now()), t.Now(), Free(i), t.a.arena.words.Length)
    ensures old(Exact(t.a.H, t.a.start)) ==> Exact(t.a.H, t.a.start) && held
  {
    hide Shaped, Wired, Heads, Feet, PinsOk, Agree, Tiled, Sizes, Live, Moved, GrowStep, ShrinkStep, FreeStep,
         MallocStep, AskedIn, CutsBeforeBlock, Exact, Sum, Untouched, Named, Picked, AbsorbsStale, Pinched,
         GrowHolds, TagsExact, FreePlaces;
    t.a.EndIsFree();
    AskedKeys(t.blocks[..], t.sizes[..], t.place, t.held);
    NamedIndex(t.blocks[..], t.sizes[..], t.place, t.held, i);
    var size, p := t.sizes[i], t.blocks[i];
    ghost var c := p - NEXT;
    FillKeeps(t.a.H, t.held, c);
    held := t.a.Free(p);
    FreeLive(old(t.a.H), t.a.H, t.a.start, old(t.a.last), t.a.arena.brk, c);
    if old(Exact(t.a.H, t.a.start)) {
      FreeExact(old(t.a.H), t.a.H, t.a.start, old(t.a.last), t.a.arena.brk, c);
      ExactMeetsNothing(old(t.a.H), t.a.start, old(t.a.last), t.a.arena.brk, c);
    }
    SizesFree(old(t.a.H), t.a.H, t.held, c);
    NamedFree(t.blocks[..], t.sizes[..], t.place, t.held, i);
    AskedFree(t.blocks[..], t.sizes[..], t.place, t.held, i);
    SumTake(t.AskedNow(), i);
    t.held, t.place := t.held - {c}, t.place - {i};
    total' := total - size;
  }

  /** The next request and the total after it. */
  method Replay(t: Tables, op: Op, total: int) returns (ok: bool, total': int, held: bool)
    requires t.Ok() && MayAsk(t.AskedNow(), op, t.blocks.Length) && total == Sum(t.AskedNow())
    modifies t`held, t`place, t.blocks, t.sizes
    modifies t.a`H, t.a`last, t.a.index`ix, t.a.arena`brk, t.a.arena`over, t.a.index.bins, t.a.arena.words
    ensures ok ==> t.Ok() && t.AskedNow() == AfterOp(old(t.AskedNow()), op) && total' == Sum(t.AskedNow())
    ensures ok ==> old(t.a.arena.brk) <= t.a.arena.brk && (op.Free? || op.Write? ==> total' <= total)
    ensures ok ==> Follows(old(t.Now()), t.Now(), op, t.a.arena.words.Length)
    ensures !ok ==> Refused(old(t.Now()), op, t.a.arena.words.Length)
    ensures !ok ==>
              (op.Alloc? || op.Realloc?) && t.a.NeedsMore(op.size) && t.Ok() && t.AskedNow() == old(t.AskedNow())
    ensures old(Exact(t.a.H, t.a.start) && !Cuts(t.Now(), op)) ==> Exact(t.a.H, t.a.start)
    ensures old(Exact(t.a.H, t.a.start) && Cuts(t.Now(), op)) ==> ok && !TagsExact(t.a.H, t.a.start)
    ensures old(Exact(t.a.H, t.a.start)) ==> (held <==> !old(Pinches(t.Now(), op)))
  {
    hide Sizes, AskedIn, Sum, Exact, TagsExact, Pinched, MallocStep, FreeStep, Resized, Served, FreePlaces,
         NoRoomFor, Recopies;
    AskedKeys(t.blocks[..], t.sizes[..], t.place, t.held);
    hide Named;
    held := true;
    match op {
      case Alloc(i, size) =>
        ok, total' := DoAlloc(t, i, size, total);
      case Realloc(i, size) =>
        ok, total', held := DoRealloc(t, i, size, total);
      case Free(i) =>
        total', held := DoFree(t, i, total);
        ok := true;
      case Write(_) =>
        ok, total' := true, total;
    }
  }

  /** An empty heap, initialised. */
  method Start(t: Tables)
    requires t.Ready()
    modifies t`held, t`place
    modifies t.a`H, t.a`start, t.a`last, t.a.arena`brk, t.a.arena`over, t.a.index.bins, t.a.arena.words
    ensures t.Ok() && t.AskedNow() == map[] && Sum(t.AskedNow()) == 0 <= t.a.arena.HeapSize()
    ensures Exact(t.a.H, t.a.start) && t.Now() == FirstMoment(t.a.arena.lo)
  {
    hide Shaped, Wired, Heads, Feet, PinsOk, Agree, Tiled, Exact, Live;
    t.a.arena.ResetBrk();
    t.a.Init();
    t.held, t.place := map[], map[];
    NothingHeldYet(t.a.H, t.a.M(), t.blocks[..], t.sizes[..]);
    SumNothing();
  }

  /** One round of the loop: the request, then the mark. */
  method Round(t: Tables, op: Op, total: int, most: int) returns (ok: bool, total': int, most': int)
    requires t.Ok() && MayAsk(t.AskedNow(), op, t.blocks.Length)
    requires total == Sum(t.AskedNow()) <= most <= t.a.arena.HeapSize()
    modifies t`held, t`place, t.blocks, t.sizes
    modifies t.a`H, t.a`last, t.a.index`ix, t.a.arena`brk, t.a.arena`over, t.a.index.bins, t.a.arena.words
    ensures ok ==> t.Ok() && t.AskedNow() == AfterOp(old(t.AskedNow()), op) && total' == Sum(t.AskedNow())
    ensures ok ==> total' <= most' == Most(total', most) <= t.a.arena.HeapSize()
    ensures ok ==> Follows(old(t.Now()), t.Now(), op, t.a.arena.words.Length)
    ensures !ok ==> Refused(old(t.Now()), op, t.a.arena.words.Length)
    ensures !ok ==> (op.Alloc? || op.Realloc?) && t.a.NeedsMore(op.size) && t.AskedNow() == old(t.AskedNow())
    ensures old(Exact(t.a.H, t.a.start) && !Cuts(t.Now(), op)) ==> Exact(t.a.H, t.a.start)
  {
    hide Shaped, Wired, Heads, Feet, PinsOk, Agree, Tiled, Sizes, AskedIn, Sum, Named, MayAsk, AfterOp, Exact,
         TagsExact, Cuts, Pinches, Follows, Refused;
    var held;
    ok, total', held := Replay(t, op, total);
    most' := if op.Alloc? || op.Realloc? then Most(total', most) else most;
    if ok {
      AskedBelowHeap(t.a.H, t.a.start, t.a.last, t.a.arena.brk, t.blocks[..], t.sizes[..], t.place, t.held,
                     t.AskedNow());
    }
  }

  /** util is the larger of the mark and 40 KB, divided by the larger of the heap and 40 KB. */
  predicate IsRatio(util: real, mark: int, heap: int) {
    util * (if heap > 40960 then heap else 40960) as real == (if mark > 40960 then mark else 40960) as real
  }

  /** The ratio of the mark to the heap, both at least the allowance. */
  function Utilization(mark: int, heap: int): (r: real)
    requires mark <= heap
    ensures IsRatio(r, mark, heap) && 0.0 < r <= 1.0
  {
    Divided(Most(mark, MEM_ALLOWANCE), Most(heap, MEM_ALLOWANCE));
    Most(mark, MEM_ALLOWANCE) as real / Most(heap, MEM_ALLOWANCE) as real
  }

  lemma Divided(x: int, y: int)
    requires 0 < x <= y
    ensures 0.0 < x as real / y as real <= 1.0 && x as real / y as real * y as real == x as real
  {
  }

  /** The loop of eval_mm_util: every request, and the high-water mark. */
  method ReplayAll(t: Tables, ops: seq<Op>) returns (ok: bool, most: int, failed: nat, ghost met: seq<Moment>)
    requires t.Ready() && WellFormed(ops, t.blocks.Length)
    modifies t`held, t`place, t.blocks, t.sizes
    modifies t.a`H, t.a`start, t.a`last, t.a.index`ix, t.a.arena`brk, t.a.arena`over, t.a.index.bins
    modifies t.a.arena.words
    ensures failed <= |ops| && (ok <==> failed == |ops|)
    ensures History(met, ops, t.a.arena.lo, t.a.arena.words.Length) && |met| == failed + 1
    ensures !ok ==> (ops[failed].Alloc? || ops[failed].Realloc?) && t.a.NeedsMore(ops[failed].size)
                    && t.AskedNow() == Asked(ops, failed)
                    && Refused(met[failed], ops[failed], t.a.arena.words.Length)
    ensures ok ==> met[|ops|] == t.Now() && t.a.arena.HeapSize() == 8 * (met[|ops|].brk - t.a.arena.lo)
    ensures ok ==> most == HighWater(ops, |ops|) <= t.a.arena.HeapSize() < 0x8000_0000
    ensures ok && Asked(ops, |ops|) == map[] ==> (t.a.Empty() <==> Exact(t.a.H, t.a.start))
    ensures ok && NoCuts(met, ops) ==> Exact(t.a.H, t.a.start)
    ensures Growing(ops) ==> NoCuts(met, ops)
  {
    hide Laid, Shaped, Wired, PinsOk, Agree, Sizes, AskedIn, Named, MayAsk, Sum, AfterOp, Exact, Grows, NoCuts,
         NoPinches, Cuts, History, Follows, Refused, Proper;
    Start(t);
    t.NowProper();
    var total := 0;
    most := 0;
    ok, failed, met := true, 0, [t.Now()];
    HistoryStarts(ops, t.a.arena.lo, t.a.arena.words.Length);
    NothingMet(ops);
    while failed < |ops|
      invariant 0 <= failed <= |ops| && t.Ok() && t.AskedNow() == Asked(ops, failed)
      invariant total == Sum(Asked(ops, failed)) <= most
      invariant most == HighWater(ops, failed) <= t.a.arena.HeapSize()
      invariant |met| == failed + 1 && met[failed] == t.Now()
      invariant History(met, ops, t.a.arena.lo, t.a.arena.words.Length)
      invariant Growing(ops) ==> NoCuts(met[..failed], ops)
      invariant NoCuts(met[..failed], ops) ==> Exact(t.a.H, t.a.start)
    {
      if Growing(ops) {
        t.GrowingCutsNothing(ops[failed]);
      }
      OneMore(met, ops);
      ok, total, most := Round(t, ops[failed], total, most);
      if !ok {
        return;
      }
      t.NowProper();
      HistoryGoesOn(met, t.Now(), ops, t.a.arena.lo, t.a.arena.words.Length);
      assert (met + [t.Now()])[..failed + 1] == met;
      met := met + [t.Now()];
      failed := failed + 1;
    }
    OneMore(met, ops);
    if Asked(ops, |ops|) == map[] {
      t.AllFreed();
    }
    HeapBound(t.a);
  }

  /** eval_mm_util: the high-water mark over the final heap size, both at least the
      allowance. The mark never exceeds the heap, so the ratio is at most one. What is left in
      the bins is as after eval_mm_valid. */
  method EvalUtil(t: Tables, ops: seq<Op>) returns (ok: bool, util: real, failed: nat, ghost met: seq<Moment>)
    requires t.Ready() && WellFormed(ops, t.blocks.Length)
    modifies t`held, t`place, t.blocks, t.sizes
    modifies t.a`H, t.a`start, t.a`last, t.a.index`ix, t.a.arena`brk, t.a.arena`over, t.a.index.bins
    modifies t.a.arena.words
    ensures failed <= |ops| && (ok <==> failed == |ops|)
    ensures History(met, ops, t.a.arena.lo, t.a.arena.words.Length) && |met| == failed + 1
    ensures !ok ==> (ops[failed].Alloc? || ops[failed].Realloc?) && t.a.NeedsMore(ops[failed].size)
                    && t.AskedNow() == Asked(ops, failed)
                    && Refused(met[failed], ops[failed], t.a.arena.words.Length)
    ensures ok ==> met[|ops|] == t.Now() && t.a.arena.HeapSize() == 8 * (met[|ops|].brk - t.a.arena.lo)
    ensures ok ==> HighWater(ops, |ops|) <= t.a.arena.HeapSize() < 0x8000_0000
    ensures ok ==>
              var mark, heap := HighWater(ops, |ops|), t.a.arena.HeapSize();
              util * (if heap > 40960 then heap else 40960) as real == (if mark > 40960 then mark else 40960) as real
              && 0.0 < util <= 1.0
    ensures ok && Asked(ops, |ops|) == map[] ==> (t.a.Empty() <==> Exact(t.a.H, t.a.start))
    ensures ok && NoCuts(met, ops) ==> Exact(t.a.H, t.a.start)
    ensures Growing(ops) ==> NoCuts(met, ops)
  {
    hide Laid, Shaped, Wired, PinsOk, Agree, Exact, NoCuts, History, Utilization, Refused, HighWater, Asked,
         WellFormed, Growing;
    var most;
    ok, most, failed, met := ReplayAll(t, ops);
    util := if ok then Utilization(most, t.a.arena.HeapSize()) else 0.0;
  }

  /** The assertions that a replayed trace may fail: that the chunk after the block is in use
      (allocator.c, line 922), and that the tags agree (my_checker.c). */
  datatype Assertion = NextInUse | TagsAgree

  datatype Outcome = Passed | NoRoom | Aborted(what: Assertion)

  lemma CutIsNotPinched(m: Moment, op: Op)
    ensures !(Cuts(m, op) && Pinches(m, op))
  {
  }

  /** One round of eval_mm_check: the request, then the checker. */
  method RoundChecked(t: Tables, op: Op, total: int, asserting: bool) returns (v: Outcome, total': int)
    requires t.Ok() && MayAsk(t.AskedNow(), op, t.blocks.Length) && total == Sum(t.AskedNow())
    modifies t`held, t`place, t.blocks, t.sizes
    modifies t.a`H, t.a`last, t.a.index`ix, t.a.arena`brk, t.a.arena`over, t.a.index.bins, t.a.arena.words
    ensures v == Passed ==> t.Ok() && t.AskedNow() == AfterOp(old(t.AskedNow()), op) && total' == Sum(t.AskedNow())
    ensures v == Passed ==> Follows(old(t.Now()), t.Now(), op, t.a.arena.words.Length)
    ensures v == NoRoom ==> Refused(old(t.Now()), op, t.a.arena.words.Length)
    ensures v == NoRoom ==>
              (op.Alloc? || op.Realloc?) && t.a.NeedsMore(op.size) && t.AskedNow() == old(t.AskedNow())
    ensures v.Aborted? ==> asserting
    ensures old(Exact(t.a.H, t.a.start) && !Cuts(t.Now(), op)) ==> Exact(t.a.H, t.a.start)
    ensures asserting && old(Exact(t.a.H, t.a.start)) ==>
              (v == Aborted(TagsAgree) <==> old(Cuts(t.Now(), op)))
              && (v == Aborted(NextInUse) <==> old(Pinches(t.Now(), op)))
  {
    hide Shaped, Wired, Heads, Feet, PinsOk, Agree, Tiled, Sizes, AskedIn, Sum, Named, MayAsk, AfterOp, Exact,
         TagsExact, Cuts, Pinches, Follows, Refused;
    CutIsNotPinched(t.Now(), op);
    var ok, held;
    ok, total', held := Replay(t, op, total);
    if asserting && !held {
      return Aborted(NextInUse), total';
    }
    if !ok {
      return NoRoom, total';
    }
    var checked := Checker.MyChecker(t.a);
    if Exact(t.a.H, t.a.start) {
      Checker.ExactPasses(t.a);
    }
    v := if asserting && !checked then Aborted(TagsAgree) else Passed;
  }

  /** eval_mm_check: the checker runs after every request. Assertions are on for the whole
      program or off for the whole program. Without them nothing fails but a request that finds
      no room. With them the program ends at exactly the first request that cuts its block right
      before a block in use, after it, or is pinched, during it; the model then goes on to the
      end of the call. `met` is what each request met and, last, the end of the run. The table of
      sizes, which the source keeps only in its other loops, is kept here too. */
  method EvalCheck(t: Tables, ops: seq<Op>, asserting: bool)
    returns (v: Outcome, failed: nat, ghost met: seq<Moment>)
    requires t.Ready() && WellFormed(ops, t.blocks.Length)
    modifies t`held, t`place, t.blocks, t.sizes
    modifies t.a`H, t.a`start, t.a`last, t.a.index`ix, t.a.arena`brk, t.a.arena`over, t.a.index.bins
    modifies t.a.arena.words
    ensures failed <= |ops| && (v == Passed <==> failed == |ops|)
    ensures History(met, ops, t.a.arena.lo, t.a.arena.words.Length) && |met| == failed + 1
    ensures v == Passed ==> t.AskedNow() == Asked(ops, |ops|) && met[|ops|] == t.Now()
    ensures v == NoRoom ==>
              (ops[failed].Alloc? || ops[failed].Realloc?) && t.a.NeedsMore(ops[failed].size)
              && t.AskedNow() == Asked(ops, failed) && Refused(met[failed], ops[failed], t.a.arena.words.Length)
    ensures v.Aborted? ==> asserting
    ensures asserting ==> NoCuts(met[..failed], ops) && NoPinches(met[..failed], ops)
    ensures v == Aborted(TagsAgree) <==> asserting && !NoCuts(met, ops)
    ensures v == Aborted(NextInUse) <==> asserting && !NoPinches(met, ops)
    ensures v == Passed && Asked(ops, |ops|) == map[] ==> (t.a.Empty() <==> Exact(t.a.H, t.a.start))
    ensures v == Passed && NoCuts(met, ops) ==> Exact(t.a.H, t.a.start)
    ensures Growing(ops) ==> NoCuts(met, ops)
  {
    hide Laid, Shaped, Wired, PinsOk, Agree, Sizes, AskedIn, Named, MayAsk, Sum, AfterOp, Exact, TagsExact, Grows,
         NoCuts, NoPinches, Cuts, Pinches, History, Follows, Refused, Proper;
    Start(t);
    t.NowProper();
    var total := 0;
    failed, met := 0, [t.Now()];
    HistoryStarts(ops, t.a.arena.lo, t.a.arena.words.Length);
    NothingMet(ops);
    while failed < |ops|
      invariant 0 <= failed <= |ops| && t.Ok() && t.AskedNow() == Asked(ops, failed)
      invariant total == Sum(t.AskedNow()) && |met| == failed + 1 && met[failed] == t.Now()
      invariant History(met, ops, t.a.arena.lo, t.a.arena.words.Length)
      invariant Growing(ops) ==> NoCuts(met[..failed], ops)
      invariant NoCuts(met[..failed], ops) ==> Exact(t.a.H, t.a.start)
      invariant asserting ==> NoCuts(met[..failed], ops) && NoPinches(met[..failed], ops)
    {
      if Growing(ops) {
        t.GrowingCutsNothing(ops[failed]);
      }
      OneMore(met, ops);
      v, total := RoundChecked(t, ops[failed], total, asserting);
      if v != Passed {
        return;
      }
      t.NowProper();
      HistoryGoesOn(met, t.Now(), ops, t.a.arena.lo, t.a.arena.words.Length);
      assert (met + [t.Now()])[..failed + 1] == met;
      met := met + [t.Now()];
      failed := failed + 1;
    }
    OneMore(met, ops);
    if Asked(ops, |ops|) == map[] {
      t.AllFreed();
    }
    v := Passed;
  }

  /** A trace as read from its file: its requests, on this many block names. */
  datatype File = File(ids: nat, ops: seq<Op>)

  /** The trace never asks for less than before and gives everything back. */
  ghost predicate Tidy(f: File) {
    WellFormed(f.ops, f.ids) && Growing(f.ops) && Asked(f.ops, |f.ops|) == map[]
  }

  /** On a heap from `start` to `max`, some request of the trace finds no room. */
  ghost predicate Overflows(f: File, start: int, max: int) {
    exists met: seq<Moment> :: History(met, f.ops, start, max) && |met| <= |f.ops|
      && Refused(met[|met| - 1], f.ops[|met| - 1], max)
  }

  /** On a heap from `start` to `max`, the trace is served to the end, and this is the ratio. */
  ghost predicate Utilizes(f: File, start: int, max: int, util: real) {
    exists met: seq<Moment> :: History(met, f.ops, start, max) && |met| == |f.ops| + 1
      && IsRatio(util, HighWater(f.ops, |f.ops|), 8 * (met[|f.ops|].brk - start))
  }

  lemma OverflowsThere(f: File, start: int, max: int, met: seq<Moment>, n: nat)
    requires History(met, f.ops, start, max) && |met| == n + 1 <= |f.ops| && Refused(met[n], f.ops[n], max)
    ensures Overflows(f, start, max)
  {
    hide History, Refused;
  }

  lemma UtilizesThat(f: File, start: int, max: int, met: seq<Moment>, util: real, heap: int)
    requires History(met, f.ops, start, max) && |met| == |f.ops| + 1 && heap == 8 * (met[|f.ops|].brk - start)
    requires IsRatio(util, HighWater(f.ops, |f.ops|), heap)
    ensures Utilizes(f, start, max, util)
  {
    hide History, IsRatio;
  }

  /** The three evaluations of one trace, with nothing but my_init before each. When the first
      finds room for everything, so do the others: they meet the same heaps. */
  method Evaluate(a: Allocator.Allocator, f: File, checkHeap: bool) returns (done: bool, util: real)
    requires a.Objects() && a.Empty() && Tidy(f)
    requires 2 <= a.arena.lo && a.arena.lo + INITIAL_CHUNK_SIZE / 8 + 2 <= a.arena.words.Length
    modifies a`H, a`start, a`last, a.index`ix, a.arena`brk, a.arena`over, a.index.bins, a.arena.words
    ensures done ==> a.Empty() && 0.0 < util <= 1.0 && Utilizes(f, a.arena.lo, a.arena.words.Length, util)
    ensures !done ==> Overflows(f, a.arena.lo, a.arena.words.Length)
  {
    hide WellFormed, Growing, Exact, NoCuts, NoPinches, History, Refused, HighWater, IsRatio, Overflows, Utilizes;
    var t := new Tables(a, f.ids);
    var validator := new Validator.Validator(t);
    util := 0.0;
    var v, failed, held, met := validator.EvalValid(f.ops);
    if v != Validator.Passed {
      OverflowsThere(f, a.arena.lo, a.arena.words.Length, met, failed);
      return false, util;
    }
    if checkHeap {
      var outcome, stopped;
      ghost var again;
      outcome, stopped, again := EvalCheck(t, f.ops, false);
      if stopped < |f.ops| {
        Histories.ServedAgain(met, again, f.ops, a.arena.lo, a.arena.words.Length);
      }
    }
    util := Measure(t, f, met);
    done := true;
  }

  /** eval_mm_util of a trace that has been served to the end before, in history `met`. */
  method Measure(t: Tables, f: File, ghost met: seq<Moment>) returns (util: real)
    requires t.Ready() && WellFormed(f.ops, t.blocks.Length)
    requires History(met, f.ops, t.a.arena.lo, t.a.arena.words.Length) && |met| == |f.ops| + 1
    modifies t`held, t`place, t.blocks, t.sizes
    modifies t.a`H, t.a`start, t.a`last, t.a.index`ix, t.a.arena`brk, t.a.arena`over, t.a.index.bins
    modifies t.a.arena.words
    ensures 0.0 < util <= 1.0 && Utilizes(f, t.a.arena.lo, t.a.arena.words.Length, util)
    ensures Tidy(f) ==> t.a.Empty()
  {
    hide WellFormed, Growing, Exact, NoCuts, NoPinches, History, Refused, HighWater, Utilizes;
    var ok, stopped;
    ghost var again;
    ok, util, stopped, again := EvalUtil(t, f.ops);
    if stopped < |f.ops| {
      Histories.ServedAgain(met, again, f.ops, t.a.arena.lo, t.a.arena.words.Length);
    } else {
      UtilizesThat(f, t.a.arena.lo, t.a.arena.words.Length, again, util, t.a.arena.HeapSize());
    }
  }

  /** The driver's loop over the traces, on one allocator. If they all grow and give everything
      back, every one is evaluated to its ratio, unless some request of the first that is not
      finds no room. */
  method EvaluateAll(a: Allocator.Allocator, files: seq<File>, checkHeap: bool) returns (utils: seq<real>)
    requires a.Objects() && a.Empty() && forall f {:trigger Tidy(f)} :: f in files ==> Tidy(f)
    requires 2 <= a.arena.lo && a.arena.lo + INITIAL_CHUNK_SIZE / 8 + 2 <= a.arena.words.Length
    modifies a`H, a`start, a`last, a.index`ix, a.arena`brk, a.arena`over, a.index.bins, a.arena.words
    ensures |utils| <= |files|
    ensures forall i {:trigger utils[i]} :: 0 <= i < |utils| ==>
              0.0 < utils[i] <= 1.0 && Utilizes(files[i], a.arena.lo, a.arena.words.Length, utils[i])
    ensures if |utils| == |files| then a.Empty() else Overflows(files[|utils|], a.arena.lo, a.arena.words.Length)
  {
    hide Tidy, Overflows, Utilizes;
    utils := [];
    while |utils| < |files|
      invariant |utils| <= |files| && a.Empty()
      invariant forall i {:trigger utils[i]} :: 0 <= i < |utils| ==>
                  0.0 < utils[i] <= 1.0 && Utilizes(files[i], a.arena.lo, a.arena.words.Length, utils[i])
    {
      var done, util := Evaluate(a, files[|utils|], checkHeap);
      if !done {
        return;
      }
      utils := utils + [util];
    }
  }

  lemma HeapBound(a: Allocator.Allocator)
    requires a.Valid() && a.start == a.arena.lo
    ensures a.arena.HeapSize() == 8 * (a.arena.brk - a.arena.lo) < 0x8000_0000
  {
  }

  // ----- a trace with a known ratio

  /** One malloc of 60000 bytes. */
  function OneLarge(): seq<Op> {
    [Alloc(0, 60000)]
  }

  lemma OneLargeMark()
    ensures WellFormed(OneLarge(), 1) && HighWater(OneLarge(), 1) == 60000
  {
    assert Asked(OneLarge(), 0) == map[];
    assert Asked(OneLarge(), 1) == map[0 := 60000];
    SumTake(map[0 := 60000], 0);
    assert map[0 := 60000] - {0} == map[];
  }

  /** The end of the heap, 39184 bytes at first, is extended by 21168 bytes to serve it. */
  lemma OneLargeHeap(met: seq<Moment>, start: int, max: int)
    requires History(met, OneLarge(), start, max) && start + 7546 <= max
    ensures if |met| == 1 then !Refused(met[0], OneLarge()[0], max)
            else |met| == 2 && 8 * (met[1].brk - start) == 39200 + 21168
  {
    hide Proper, Picked, MallocPlaces;
    if |met| == 2 {
      assert Follows(met[0], met[1], OneLarge()[0], max);
    }
  }

  /** The trace of one malloc of 60000 bytes has the ratio 60000 / 60368. */
  method RatioRun(t: Tables) returns (util: real)
    requires t.Ready() && t.blocks.Length > 0 && t.a.arena.lo + 7546 <= t.a.arena.words.Length
    modifies t`held, t`place, t.blocks, t.sizes
    modifies t.a`H, t.a`start, t.a`last, t.a.index`ix, t.a.arena`brk, t.a.arena`over, t.a.index.bins
    modifies t.a.arena.words
    ensures util * 60368.0 == 60000.0 && util < 1.0
  {
    hide History, Refused, NoCuts, Growing, Exact, WellFormed, HighWater;
    var ok, failed;
    ghost var met;
    OneLargeMark();
    assert WellFormed(OneLarge(), t.blocks.Length) by { MoreNames(OneLarge(), 1, t.blocks.Length); }
    ok, util, failed, met := EvalUtil(t, OneLarge());
    OneLargeHeap(met, t.a.arena.lo, t.a.arena.words.Length);
  }

  lemma MoreNames(ops: seq<Op>, n: nat, ids: nat)
    requires WellFormed(ops, n) && n <= ids
    ensures WellFormed(ops, ids)
  {
    hide Asked;
  }
}
