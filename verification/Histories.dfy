/** A trace has one history: what its requests meet depends on nothing but the requests. */
module Histories {
  import opened Layout
  import opened Tiling
  import opened IndexModel
  import opened HeapOps
  import opened HeapModel
  import opened AllocatorSteps
  import opened ReallocSteps
  import opened Places
  import opened Tables
  import opened Trace
  import Determinism

  lemma OneEnd(H: Heap, start: int, e: int, b: int, e': int, b': int)
    requires Tiled(H, start, e, b) && Tiled(H, start, e', b')
    ensures e == e'
  {
  }

  lemma NoNull(m: Moment, start: int, max: int)
    requires Proper(m, start, max)
    ensures NULL !in m.H && Members(m.ix) && Rooted(m.ix) && m.brk <= max
  {
  }

  lemma StepOnce(H: Heap, H1: Heap, e1: int, H2: Heap, e2: int, last: int, c: int, r: int)
    requires MallocStep(H, H1, last, e1, c, r) && MallocStep(H, H2, last, e2, c, r)
    ensures H1 == H2 && e1 == e2 && c in H && last in H
  {
  }

  lemma FreeStepOnce(H: Heap, H1: Heap, H2: Heap, c: int)
    requires FreeStep(H, H1, c) && FreeStep(H, H2, c)
    ensures H1 == H2
  {
  }

  lemma ShrinkStepOnce(H: Heap, H1: Heap, H2: Heap, c: int, r: int)
    requires ShrinkStep(H, H1, c, r) && ShrinkStep(H, H2, c, r)
    ensures H1 == H2
  {
  }

  lemma ServedOnce(m: Moment, x: Moment, y: Moment, c: int, d: int, r: nat, start: int, max: int)
    requires Proper(m, start, max) && Served(m, x, c, r) && Served(m, y, d, r)
    ensures c == d && x.H == y.H && x.last == y.last && x.brk == y.brk && x.ix == y.ix && x.v == y.v
  {
    hide Picked, MallocStep, MallocPlaces, Tiled, PinsOk, Shaped, Agree;
    StepOnce(m.H, x.H, x.last, x.H, x.last, m.last, c, r);
    StepOnce(m.H, y.H, y.last, y.H, y.last, m.last, d, r);
    NoNull(m, start, max);
    Determinism.OnePicked(m.v, m.ix, m.H, m.last, r, c, d);
    StepOnce(m.H, x.H, x.last, y.H, y.last, m.last, c, r);
    Determinism.MallocOnce(m.ix, m.v, m.H, x.ix, x.v, y.ix, y.v, m.last, c, r);
  }

  lemma NearbyStepOnce(H: Heap, H1: Heap, H2: Heap, last: int, c: int, d1: int, d2: int, r: int)
    requires NearbyStep(H, H1, last, c, d1, r) && NearbyStep(H, H2, last, c, d2, r)
    ensures d1 == d2 && H1 == H2
  {
    hide FitsAfter, FitsBoth, FitsBefore, JoinH, TakenBackH, ResizeH, SplitH;
  }

  lemma TailStepOnce(H: Heap, H1: Heap, H2: Heap, last: int, c: int, r: int, k: int)
    requires TailStep(H, H1, last, c, r, k) && TailStep(H, H2, last, c, r, k)
    ensures H1 == H2
  {
  }

  lemma GrownOnce(m: Moment, x: Moment, y: Moment, c: int, d: int, e: int, r: nat, start: int, max: int)
    requires Proper(m, start, max) && c in m.H && m.H[c].size < r
    requires Resized(m, x, c, d, r, max) && Resized(m, y, c, e, r, max)
    ensures d == e && x.H == y.H && x.brk == y.brk && x.ix == y.ix && x.v == y.v
  {
    hide FitsNearby, NearbyStep, TailStep, Recopied, NearbyPlaces, CopyPlaces, Tiled, PinsOk, Shaped, Agree;
    NoNull(m, start, max);
    if FitsNearby(m.H, m.last, c, r) {
      NearbyStepOnce(m.H, x.H, y.H, m.last, c, d, e, r);
      Determinism.NearbyOnce(m.ix, m.v, m.H, x.ix, x.v, y.ix, y.v, m.last, c, r);
    } else if Recopies(m.H, m.last, m.brk, max, c, r) {
      Determinism.CopyOnce(m.ix, m.v, m.H, x.ix, x.v, x.H, y.ix, y.v, y.H, m.last, c, d, e, r);
    } else {
      TailStepOnce(m.H, x.H, y.H, m.last, c, r, Lacking(m.H[c].size + m.H[m.last].size + 1, r));
    }
  }

  lemma ResizedOnce(m: Moment, x: Moment, y: Moment, c: int, d: int, e: int, r: nat, start: int, max: int)
    requires Proper(m, start, max) && Resized(m, x, c, d, r, max) && Resized(m, y, c, e, r, max)
    ensures d == e && x.H == y.H && x.brk == y.brk && x.ix == y.ix && x.v == y.v
  {
    hide GrowStep, GrowPlaces, ShrinkStep, ShrinkPlaces, Tiled, PinsOk, Shaped, Agree;
    NoNull(m, start, max);
    if m.H[c].size < r {
      GrownOnce(m, x, y, c, d, e, r, start, max);
    } else {
      if CanSplit(m.H[c].size, r) {
        ShrinkStepOnce(m.H, x.H, y.H, c, r);
      }
      Determinism.ShrinkOnce(m.ix, m.v, m.H, x.ix, x.v, y.ix, y.v, x.H, m.last, c, r);
    }
  }

  /** A request has one outcome. */
  lemma FollowsOnce(m: Moment, x: Moment, y: Moment, op: Op, start: int, max: int)
    requires Proper(m, start, max) && Proper(x, start, max) && Proper(y, start, max)
    requires Follows(m, x, op, max) && Follows(m, y, op, max)
    ensures x == y
  {
    hide Served, Resized, FreeStep, FreePlaces, Proper;
    match op {
      case Alloc(i, s) =>
        ServedOnce(m, x, y, x.place[i], y.place[i], RequestWords(s), start, max);
      case Realloc(i, s) =>
        ResizedOnce(m, x, y, m.place[i], x.place[i], y.place[i], RequestWords(s), start, max);
        ProperEnd(x, y, start, max);
      case Free(i) =>
        NoNull(m, start, max);
        FreeStepOnce(m.H, x.H, y.H, m.place[i]);
        ProperEnd(x, y, start, max);
        Determinism.FreeOnce(m.ix, m.v, m.H, x.ix, x.v, y.ix, y.v, x.H, m.last, m.place[i]);
      case Write(_) =>
    }
  }

  lemma ProperEnd(x: Moment, y: Moment, start: int, max: int)
    requires Proper(x, start, max) && Proper(y, start, max) && x.H == y.H
    ensures x.last == y.last
  {
    hide Tiled;
    OneEnd(x.H, start, x.last, x.brk, y.last, y.brk);
  }

  /** A request that is refused at a moment is not served at it. */
  lemma NotBoth(m: Moment, x: Moment, op: Op, start: int, max: int)
    requires Proper(m, start, max) && Proper(x, start, max) && Follows(m, x, op, max)
    ensures !Refused(m, op, max)
  {
    hide Served, Resized, Proper, NoRoomFor;
    NoNull(x, start, max);
    if Refused(m, op, max) {
      match op {
        case Alloc(i, s) =>
          ServedHadRoom(m, x, x.place[i], RequestWords(s), start, max);
        case Realloc(i, s) =>
          CopiedHadRoom(m, x, m.place[i], x.place[i], RequestWords(s), start, max);
      }
    }
  }

  lemma ServedHadRoom(m: Moment, x: Moment, c: int, r: nat, start: int, max: int)
    requires Proper(m, start, max) && x.brk <= max && Served(m, x, c, r)
    ensures !NoRoomFor(m, r, max)
  {
    hide Picked, MallocStep, MallocPlaces, Tiled, PinsOk, Shaped, Agree;
    if NoRoomFor(m, r, max) {
      NoNull(m, start, max);
      StepOnce(m.H, x.H, x.last, x.H, x.last, m.last, c, r);
      Determinism.OnePicked(m.v, m.ix, m.H, m.last, r, c, NULL);
    }
  }

  lemma CopiedHadRoom(m: Moment, x: Moment, c: int, d: int, r: nat, start: int, max: int)
    requires Proper(m, start, max) && x.brk <= max && Resized(m, x, c, d, r, max)
    requires Recopies(m.H, m.last, m.brk, max, c, r)
    ensures !NoRoomFor(m, r, max)
  {
    hide Picked, MallocStep, MallocPlaces, FreeStep, FreePlaces, Tiled, PinsOk, Shaped, Agree, FitsNearby, Recopied,
         NearbyStep, TailStep;
    if NoRoomFor(m, r, max) {
      NoNull(m, start, max);
      var y, u, h, e :| CopiedAway(m.ix, m.v, m.H, y, u, h, x.ix, x.v, x.H, m.last, e, c, d, r);
      StepOnce(m.H, h, e, h, e, m.last, d, r);
      Determinism.OnePicked(m.v, m.ix, m.H, m.last, r, d, NULL);
    }
  }

  /** Two histories of one trace agree as far as both go. */
  lemma {:induction false} HistoryOnce(met: seq<Moment>, met': seq<Moment>, ops: seq<Op>, start: int, max: int)
    requires History(met, ops, start, max) && History(met', ops, start, max) && |met| <= |met'|
    ensures met == met'[..|met|]
    decreases |met|
  {
    hide Proper, Follows;
    var n := |met| - 1;
    if n == 0 {
      assert met == [met[0]] == met'[..1];
    } else {
      HistoryPrefix(met, n, ops, start, max);
      HistoryOnce(met[..n], met', ops, start, max);
      assert met[n - 1] == met[..n][n - 1] == met'[..n][n - 1] == met'[n - 1];
      assert Follows(met[n - 1], met[n - 1 + 1], ops[n - 1], max);
      assert Follows(met'[n - 1], met'[n - 1 + 1], ops[n - 1], max);
      FollowsOnce(met[n - 1], met[n], met'[n], ops[n - 1], start, max);
      assert met == met[..n] + [met[n]] == met'[..n] + [met'[n]] == met'[..n + 1];
    }
  }

  lemma HistoryPrefix(met: seq<Moment>, n: nat, ops: seq<Op>, start: int, max: int)
    requires History(met, ops, start, max) && 0 < n <= |met|
    ensures History(met[..n], ops, start, max)
  {
    hide Proper, Follows;
    var path := met[..n];
    assert forall j {:trigger path[j]} :: 0 <= j < n ==> path[j] == met[j];
  }

  /** A trace that has been served to the end is not refused anything on another run. */
  lemma ServedAgain(met: seq<Moment>, met': seq<Moment>, ops: seq<Op>, start: int, max: int)
    requires History(met, ops, start, max) && |met| == |ops| + 1
    requires History(met', ops, start, max) && |met'| <= |ops|
    ensures !Refused(met'[|met'| - 1], ops[|met'| - 1], max)
  {
    hide Proper, Follows, Refused;
    var n := |met'| - 1;
    HistoryOnce(met', met, ops, start, max);
    assert met'[n] == met[..n + 1][n] == met[n];
    assert Follows(met[n], met[n + 1], ops[n], max);
    NotBoth(met[n], met[n + 1], ops[n], start, max);
  }
}
