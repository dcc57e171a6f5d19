/** What the driver keeps of a trace while it is replayed: the tables of blocks and of sizes
    (trace_t of mdriver.h), and on the ghost side the blocks they describe. */
module Tables {
  import opened Layout
  import opened Rings
  import opened Tiling
  import opened IndexModel
  import opened HeapOps
  import opened HeapModel
  import opened ExactTags
  import opened AllocatorSteps
  import opened ReallocSteps
  import opened Places
  import opened Client
  import opened Trace
  import Allocator

  /** What a request meets: the heap up to the break, the index, the victim, and where the
      blocks of the trace lie. */
  datatype Moment = Moment(H: Heap, last: int, brk: int, ix: Index, v: int, place: map<nat, int>)

  /** The heap is tiled, its tags can be believed, and every free chunk has its place. */
  ghost predicate Proper(m: Moment, start: int, max: int) {
    && Tiled(m.H, start, m.last, m.brk) && m.brk <= max && PinsOk(m.H, start)
    && Shaped(m.ix, m.H) && Agree(m.H, m.ix.slot.Keys, m.v, m.last, {})
  }

  ghost function FirstMoment(start: int): Moment {
    Moment(InitialH(start), start, start + INITIAL_CHUNK_SIZE / 8 + 2, Index(map[], map[]), NULL, map[])
  }

  /** What serving a request makes of a moment, in an arena of `max` words. */
  ghost predicate Follows(m: Moment, m': Moment, op: Op, max: int) {
    match op
    case Alloc(i, s) =>
      && i in m'.place && m'.place == m.place[i := m'.place[i]]
      && Served(m, m', m'.place[i], RequestWords(s))
    case Realloc(i, s) =>
      && i in m.place && i in m'.place && m'.place == m.place[i := m'.place[i]]
      && Resized(m, m', m.place[i], m'.place[i], RequestWords(s), max)
    case Free(i) =>
      && i in m.place && m'.place == m.place - {i} && m'.brk == m.brk
      && FreeStep(m.H, m'.H, m.place[i])
      && FreePlaces(m.ix, m.v, m.H, m'.ix, m'.v, m'.H, m.last, m.place[i])
    case Write(_) => m' == m
  }

  /** Chunk c has served r words. */
  ghost predicate Served(m: Moment, m': Moment, c: int, r: nat) {
    && Picked(m.v, m.ix, m.H, m.last, r, c)
    && MallocStep(m.H, m'.H, m.last, m'.last, c, r)
    && MallocPlaces(m.ix, m.v, m.H, m'.ix, m'.v, m.last, c, r)
    && m'.brk == m.brk + Growth(m.H, m.last, c, r)
  }

  /** Block c has become block d of r words. */
  ghost predicate Resized(m: Moment, m': Moment, c: int, d: int, r: nat, max: int) {
    && c in m.H
    && if m.H[c].size < r then
         && GrowStep(m.H, m'.H, m.last, m.brk, m'.brk, max, c, d, r)
         && GrowPlaces(m.ix, m.v, m.H, m'.ix, m'.v, m'.H, m.last, m.brk, max, c, d, r)
       else
         && d == c && m'.brk == m.brk
         && (if CanSplit(m.H[c].size, r) then ShrinkStep(m.H, m'.H, c, r) else m'.H == m.H)
         && ShrinkPlaces(m.ix, m.v, m.H, m'.ix, m'.v, m'.H, m.last, c, r)
  }

  /** Nothing but the end of the heap could serve r words, and the arena has no room. */
  ghost predicate NoRoomFor(m: Moment, r: nat, max: int) {
    && Picked(m.v, m.ix, m.H, m.last, r, NULL)
    && m.last in m.H && m.brk + Shortfall(m.H[m.last].size, r) > max
  }

  /** The request gets NULL. */
  ghost predicate Refused(m: Moment, op: Op, max: int) {
    match op
    case Alloc(i, s) => NoRoomFor(m, RequestWords(s), max)
    case Realloc(i, s) =>
      && i in m.place && Recopies(m.H, m.last, m.brk, max, m.place[i], RequestWords(s))
      && NoRoomFor(m, RequestWords(s), max)
    case Free(_) => false
    case Write(_) => false
  }

  /** `met` is what the requests met, one after the other, from my_init on; when it is longer
      than the trace, its last moment is the end of the run. */
  ghost predicate History(met: seq<Moment>, ops: seq<Op>, start: int, max: int) {
    && 0 < |met| <= |ops| + 1 && met[0] == FirstMoment(start)
    && (forall j {:trigger met[j]} :: 0 <= j < |met| ==> Proper(met[j], start, max))
    && forall j {:trigger ops[j]} :: 0 <= j < |met| - 1 ==> Follows(met[j], met[j + 1], ops[j], max)
  }

  lemma HistoryStarts(ops: seq<Op>, start: int, max: int)
    requires Proper(FirstMoment(start), start, max)
    ensures History([FirstMoment(start)], ops, start, max)
  {
  }

  lemma HistoryGoesOn(met: seq<Moment>, m: Moment, ops: seq<Op>, start: int, max: int)
    requires |met| <= |ops| && History(met, ops, start, max) && Proper(m, start, max)
    requires Follows(met[|met| - 1], m, ops[|met| - 1], max)
    ensures History(met + [m], ops, start, max)
  {
    hide Proper, Follows;
    var path := met + [m];
    forall j | 0 <= j < |path|
      ensures Proper(path[j], start, max)
    {
      assert j < |met| ==> path[j] == met[j];
    }
  }

  /** The request is a realloc that cuts its block right before a block in use. */
  ghost predicate Cuts(m: Moment, op: Op) {
    op.Realloc? && CutsAt(m.H, m.place, op.index, op.size)
  }

  /** The request is a realloc of a block that both free neighbours together cannot help, which
      the assertion at line 922 does not survive. */
  ghost predicate Pinches(m: Moment, op: Op) {
    op.Realloc? && op.index in m.place && Pinched(m.H, m.last, m.place[op.index], RequestWords(op.size))
  }

  /** None of the requests made at these moments cuts its block right before a block in use. */
  ghost predicate NoCuts(met: seq<Moment>, ops: seq<Op>) {
    forall j {:trigger met[j]} :: 0 <= j < |met| && j < |ops| ==> !Cuts(met[j], ops[j])
  }

  ghost predicate NoPinches(met: seq<Moment>, ops: seq<Op>) {
    forall j {:trigger met[j]} :: 0 <= j < |met| && j < |ops| ==> !Pinches(met[j], ops[j])
  }

  /** The last moment counts when a request is made at it. */
  lemma OneMore(met: seq<Moment>, ops: seq<Op>)
    requires 0 < |met|
    ensures var n := |met| - 1;
            && (NoCuts(met, ops) <==> NoCuts(met[..n], ops) && (n < |ops| ==> !Cuts(met[n], ops[n])))
            && (NoPinches(met, ops) <==> NoPinches(met[..n], ops) && (n < |ops| ==> !Pinches(met[n], ops[n])))
  {
    hide Cuts, Pinches;
    var n := |met| - 1;
    assert forall j {:trigger met[..n][j]} :: 0 <= j < n ==> met[..n][j] == met[j];
    assert forall j {:trigger met[j]} :: 0 <= j < n ==> met[..n][j] == met[j];
  }

  lemma NothingMet(ops: seq<Op>)
    ensures NoCuts([], ops) && NoPinches([], ops)
  {
  }

  class Tables {
    const a: Allocator.Allocator
    const blocks: array<int>
    const sizes: array<int>
    ghost var held: Blocks
    ghost var place: map<nat, int>

    /** Tables for a trace with `ids` block names. */
    constructor (a: Allocator.Allocator, ids: nat)
      ensures fresh(blocks) && fresh(sizes)
      ensures this.a == a && blocks.Length == ids && sizes.Length == ids && Separate()
      ensures held == map[] && place == map[]
    {
      this.a := a;
      blocks := new int[ids];
      sizes := new int[ids];
      held, place := map[], map[];
    }

    ghost predicate Separate() {
      && blocks != sizes && blocks != a.arena.words && sizes != a.arena.words
      && blocks != a.index.bins && sizes != a.index.bins && blocks.Length == sizes.Length
    }

    /** my_init may be called: the bins are empty and the arena has room for the first chunk. */
    ghost predicate Ready()
      reads this, a, a.arena, a.index, a.index.bins
    {
      && Separate() && a.Objects() && a.Empty()
      && 2 <= a.arena.lo && a.arena.lo + INITIAL_CHUNK_SIZE / 8 + 2 <= a.arena.words.Length
    }

    /** The tables describe the allocator's live blocks, each large enough for its size. */
    ghost predicate Ok()
      reads this, a, a.arena, a.arena.words, a.index, a.index.bins, blocks, sizes
    {
      && Separate() && a.Valid() && a.start == a.arena.lo
      && Sizes(a.H, held) && Named(blocks[..], sizes[..], place, held)
    }

    /** The sizes last asked for, by index in the trace. */
    ghost function AskedNow(): map<nat, nat>
      reads this
    {
      AskedIn(place, held)
    }

    ghost function Now(): Moment
      reads this, a, a.arena, a.index, a.index.bins
    {
      Moment(a.H, a.last, a.arena.brk, a.index.ix, a.V(), place)
    }

    lemma NowProper()
      requires a.Valid() && a.start == a.arena.lo
      ensures Proper(Now(), a.arena.lo, a.arena.words.Length)
    {
      hide Shaped, Wired, Heads, Feet, PinsOk, Agree, Tiled;
    }

    /** A growing request does not cut. */
    lemma GrowingCutsNothing(op: Op)
      requires Ok() && Grows(AskedNow(), op) && MayAsk(AskedNow(), op, blocks.Length)
      ensures !Cuts(Now(), op)
    {
      hide Sizes, Named, Serves, CutsAt, AskedIn;
      if op.Realloc? {
        if op.index in place {
          AskedKeys(blocks[..], sizes[..], place, held);
          NoCut(a.H, blocks[..], sizes[..], place, held, op.index, op.size);
        } else {
          NotPlaced(op);
        }
      }
    }

    lemma NotPlaced(op: Op)
      requires op.Realloc? && op.index !in place
      ensures !Cuts(Now(), op)
    {
    }

    /** When everything has been freed, the bins are empty, so that the next trace may start
        with my_init alone, if and only if the tags are exact. */
    lemma AllFreed()
      requires Ok() && AskedNow() == map[]
      ensures a.Empty() <==> Exact(a.H, a.start)
    {
      hide Sizes, Named, Exact, Live, AskedIn;
      AllReturned(a.H, blocks[..], sizes[..], place, held);
      a.Collapses();
    }
  }

  lemma AllReturned(H: Heap, bs: seq<int>, ss: seq<int>, place: map<nat, int>, held: Blocks)
    requires Named(bs, ss, place, held) && Sizes(H, held) && AskedIn(place, held) == map[]
    ensures Live(H) == map[]
  {
    AskedKeys(bs, ss, place, held);
    assert forall c :: c !in held;
    assert held == map[];
  }
}
