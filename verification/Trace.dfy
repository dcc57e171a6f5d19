/** Traces of requests (mdriver.h) and when they are well formed. */
module Trace {
  import opened Layout

  /** One request: `index` names the block, `size` is in bytes. */
  datatype Op = Alloc(index: nat, size: nat) | Realloc(index: nat, size: nat) | Free(index: nat) | Write(index: nat)

  const MAX_INT := 0x7fff_ffff

  /** The blocks that the first n requests leave allocated, with the sizes asked for. */
  function Asked(ops: seq<Op>, n: nat): map<nat, nat>
    requires n <= |ops|
  {
    if n == 0 then map[]
    else AfterOp(Asked(ops, n - 1), ops[n - 1])
  }

  function AfterOp(asked: map<nat, nat>, op: Op): map<nat, nat> {
    match op
    case Alloc(i, s) => asked[i := s]
    case Realloc(i, s) => asked[i := s]
    case Free(i) => asked - {i}
    case Write(_) => asked
  }

  /** The next request is one a client may make when `asked` is allocated: malloc under an
      index that is not, realloc and free under one that is, with positive sizes. */
  predicate MayAsk(asked: map<nat, nat>, op: Op, ids: nat) {
    match op
    case Alloc(i, s) => i < ids && i !in asked && 0 < s <= MAX_INT
    case Realloc(i, s) => i < ids && i in asked && 0 < s <= MAX_INT
    case Free(i) => i < ids && i in asked
    case Write(_) => true
  }

  ghost predicate WellFormed(ops: seq<Op>, ids: nat) {
    forall j {:trigger Asked(ops, j)} :: 0 <= j < |ops| ==> MayAsk(Asked(ops, j), ops[j], ids)
  }

  /** No realloc asks for less than the block was last asked to hold, and the blocks that
      are reallocated are not huge: a huge malloc is served by a whole chunk, however much
      larger, and a realloc of that block, even to a larger size, may cut it. */
  ghost predicate Growing(ops: seq<Op>) {
    forall j {:trigger Asked(ops, j)} :: 0 <= j < |ops| ==> Grows(Asked(ops, j), ops[j])
  }

  predicate Grows(asked: map<nat, nat>, op: Op) {
    op.Realloc? && op.index in asked ==> asked[op.index] <= op.size && !IsHuge(8 * RequestWords(asked[op.index]))
  }
}
