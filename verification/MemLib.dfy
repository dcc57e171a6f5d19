/** The simulated memory system (memlib.c): an arena that grows by sbrk.

    The arena is an array of words indexed by word address; addresses below `lo` are
    outside the heap, so that neither NULL nor the root sentinel is a heap address. */
module MemLib {

  /** The failure value of mem_sbrk, (void*) -1. */
  const FAILED := -1

  const TWO_TO_THE_31 := 0x8000_0000

  /** A size_int passed where mem_sbrk expects an int: the low 32 bits, signed. */
  function ToInt(x: int): int {
    var low := x % (2 * TWO_TO_THE_31);
    if low < TWO_TO_THE_31 then low else low - 2 * TWO_TO_THE_31
  }

  /** mem_sbrk, asked for x bytes when the arena has `room` bytes left, moves the break. */
  predicate Granted(x: int, room: int) {
    0 <= ToInt(x) <= room
  }

  /** Asked for x bytes, mem_sbrk moves the break by x bytes or not at all. */
  predicate AllOrNothing(x: int, room: int) {
    Granted(x, room) ==> ToInt(x) == x
  }

  /** What a caller may test before the call: the low 32 bits are all there is, or they are
      refused, as a negative number or as more than there is room for. Otherwise mem_sbrk
      grants less than it was asked for. */
  lemma AllOrNothingExactly(x: nat, room: int)
    ensures AllOrNothing(x, room) <==> x < TWO_TO_THE_31 || ToInt(x) < 0 || ToInt(x) > room
    ensures !AllOrNothing(x, room) <==> Granted(x, room) && ToInt(x) < x
    ensures x < 2 * TWO_TO_THE_31 ==> AllOrNothing(x, room)
    ensures x <= room < TWO_TO_THE_31 ==> Granted(x, room)
  {
    var low := x % (2 * TWO_TO_THE_31);
    if x < 2 * TWO_TO_THE_31 {
      assert low == x;
    } else {
      assert low < x;
    }
  }

  class Arena {
    const words: array<int>
    const lo: int
    var brk: int
    var over: int

    /** mem_init, with the storage for `max` words. The break lies `over` bytes above the
        first byte of word `brk`. */
    constructor (lo: int, max: nat)
      requires 2 <= lo <= max
      ensures this.lo == lo && brk == lo && over == 0 && words.Length == max && fresh(words)
    {
      this.lo := lo;
      words := new int[max];
      brk, over := lo, 0;
    }

    /** mem_reset_brk. */
    method ResetBrk()
      modifies `brk, `over
      ensures brk == lo && over == 0
    {
      brk, over := lo, 0;
    }

    /** The byte address of the break. */
    function Break(): int
      reads `brk, `over
    {
      8 * brk + over
    }

    /** The bytes between the break and the end of the arena. */
    function Room(): int
      reads `brk, `over
    {
      8 * words.Length - Break()
    }

    method MoveBreak(bytes: int)
      modifies `brk, `over
      ensures Break() == bytes && 0 <= over < 8
    {
      brk, over := bytes / 8, bytes % 8;
    }

    /** mem_sbrk: grow the heap by `incr` bytes and return the old break, or undo the step
        and return FAILED when the increment is negative or the arena is exhausted. */
    method Sbrk(incr: int) returns (r: int)
      requires 0 <= over < 8
      modifies `brk, `over
      ensures 0 <= over < 8
      ensures if 0 <= incr && old(Break()) + incr <= 8 * words.Length
              then r == old(Break()) && Break() == old(Break()) + incr
              else r == FAILED && brk == old(brk) && over == old(over)
    {
      r := Break();
      MoveBreak(Break() + incr);
      if incr < 0 || Break() > 8 * words.Length {
        MoveBreak(Break() + -incr);
        r := FAILED;
      }
    }

    /** mem_heap_hi: the last byte of the heap. */
    function HeapHi(): int
      reads `brk, `over
    {
      Break() - 1
    }

    /** mem_heapsize, in bytes. */
    function HeapSize(): int
      reads `brk, `over
    {
      Break() - 8 * lo
    }
  }
}
