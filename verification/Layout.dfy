/** Chunk layout, header words and size classes (allocator_helper.h and the indexing
    functions of allocator.c).

    Memory is addressed by word: address `a` stands for byte address 8 * a, so every
    address is 8-aligned by construction. Requests and chunk sizes inside the
    allocator are multiples of eight bytes; they are kept as a number of words `w`,
    meaning 8 * w bytes, and the size-class functions below take bytes. */
module Layout {
  import opened Bits

  const NULL := 0
  const NO_PARENT_ROOT_NODE := 1

  const ALIGNMENT := 8
  const SMALLEST_MALLOC := 24
  const SMALLEST_CHUNK := SMALLEST_MALLOC + 8
  const LARGE_CHUNK_CUTOFF := 249
  const HUGE_CHUNK_CUTOFF := 16777215
  const INITIAL_CHUNK_SIZE := 39184
  const EXTENSION_SIZE := SMALLEST_CHUNK + 320
  const LARGE_BIN_SEARCH_MAX := 16
  const NUM_OF_BINS := 64

  /** The functions that take a word apart give 0 for a negative argument only to be total. */

  /** Word offsets of the fields of a chunk. PREVIOUS_SIZE is the last payload word of
      the chunk before; NEXT is the first word the client may use. CHILD, CHILD + 1,
      PARENT and TAG exist only in large chunks; TAG packs bin_number and shift. */
  const CURRENT_SIZE := 1
  const NEXT := 2
  const PREV := 3
  const CHILD := 4
  const PARENT := 6
  const TAG := 7

  const TWO_TO_THE_32 := 0x1_0000_0000

  /** The bin_number and shift fields, two 32-bit halves of one word. */
  function Tag(bin: int, shift: int): int {
    bin + TWO_TO_THE_32 * shift
  }

  function TagBin(w: int): int {
    w % TWO_TO_THE_32
  }

  function TagShift(w: int): nat {
    if w < 0 then 0 else w / TWO_TO_THE_32
  }

  /** A header word: the size in bytes with the two in-use bits below it. */
  function Header(words: nat, used: bool, pin: bool): nat {
    8 * words + (if used then 1 else 0) + (if pin then 2 else 0)
  }

  function SizeWords(h: int): nat {
    if h < 0 then 0 else h / 8
  }

  predicate CurrentInUse(h: int) {
    h % 2 == 1
  }

  predicate PreviousInUse(h: int) {
    h / 2 % 2 == 1
  }

  /** SET_CURRENT_INUSE and its three companions, on the header word. */
  function SetCurrentInUse(h: int): int {
    if CurrentInUse(h) then h else h + 1
  }

  function ClearCurrentInUse(h: int): int {
    if CurrentInUse(h) then h - 1 else h
  }

  function SetPreviousInUse(h: int): int {
    if PreviousInUse(h) then h else h + 2
  }

  function ClearPreviousInUse(h: int): int {
    if PreviousInUse(h) then h - 2 else h
  }

  predicate IsLarge(bytes: int) {
    bytes > LARGE_CHUNK_CUTOFF
  }

  predicate IsHuge(bytes: int) {
    bytes > HUGE_CHUNK_CUTOFF
  }

  /** The word at offset `j` of a free chunk of `words` words may hold a link. */
  predicate IsLink(words: int, j: int) {
    NEXT <= j <= PREV || (IsLarge(8 * words) && NEXT <= j <= TAG)
  }

  function Align(bytes: nat): (r: nat)
    ensures r % ALIGNMENT == 0 && bytes <= r < bytes + ALIGNMENT
  {
    (bytes + (ALIGNMENT - 1)) / ALIGNMENT * ALIGNMENT
  }

  function Max(a: nat, b: nat): nat {
    if a < b then b else a
  }

  const TWO_TO_THE_64 := 0x1_0000_0000_0000_0000

  /** Rounding a size up does not leave 64 bits. */
  predicate Roundable(bytes: nat) {
    bytes + (ALIGNMENT - 1) < TWO_TO_THE_64
  }

  /** The size, in words, that malloc and realloc ask for. From 2^64 - 7 bytes on the sum in
      ALIGN starts again at 0, and the request is the smallest there is. */
  function RequestWords(bytes: nat): (r: nat)
    ensures 3 <= r
    ensures bytes < TWO_TO_THE_64 ==> (bytes <= 8 * r <==> Roundable(bytes))
    ensures Roundable(bytes) ==> r == 3 || 8 * r < bytes + ALIGNMENT
  {
    if Roundable(bytes) then Max(Align(bytes), SMALLEST_MALLOC) / 8 else SMALLEST_MALLOC / 8
  }

  /** What the macros compute on 64-bit words: ALIGN, then MAX with the smallest request. */
  function RequestBits(bytes: nat): nat
    requires bytes < TWO_TO_THE_64
  {
    AlignBits(bytes);
    MaxWord(And((bytes + (ALIGNMENT - 1)) % Pow2(64), Pow2(64) - ALIGNMENT), SMALLEST_MALLOC)
  }

  lemma AlignBits(bytes: nat)
    requires bytes < TWO_TO_THE_64
    ensures Pow2(64) == TWO_TO_THE_64
    ensures var sum := (bytes + (ALIGNMENT - 1)) % Pow2(64);
            And(sum, Pow2(64) - ALIGNMENT) == (if Roundable(bytes) then Align(bytes) else 0) < Pow2(64)
    ensures SMALLEST_MALLOC < Pow2(64)
  {
    Pow2Of64();
    AndNotSeven((bytes + (ALIGNMENT - 1)) % Pow2(64), 64);
  }

  lemma Pow2Of64()
    ensures Pow2(64) == TWO_TO_THE_64
  {
    assert Pow2(8) == 256;
    hide Pow2;
    Pow2Add(8, 8);
    Pow2Add(16, 16);
    Pow2Add(32, 32);
  }

  /** The bit tricks compute the request, for every size there is; the request covers the size
      asked for unless that is within seven bytes of 2^64. */
  lemma RequestTrick(bytes: nat)
    requires bytes < TWO_TO_THE_64
    ensures RequestBits(bytes) == 8 * RequestWords(bytes)
    ensures bytes <= RequestBits(bytes) <==> Roundable(bytes)
    ensures !Roundable(bytes) ==> RequestBits(bytes) == SMALLEST_MALLOC
  {
    AlignBits(bytes);
  }

  /** A request of r words and a smallest chunk after it: the sum does not leave 64 bits. */
  predicate Addable(r: int) {
    8 * r + SMALLEST_CHUNK < TWO_TO_THE_64
  }

  // ----- size classes

  function SmallRequestIndex(bytes: nat): nat {
    bytes / 8
  }

  function LargeRequestIndex(bytes: nat): nat
    requires IsLarge(bytes)
  {
    var l := Log2(bytes);
    assert l >= 1 by { Log2Bound(bytes, 1); }
    16 + 2 * l + Shr(bytes, l - 1) % 2
  }

  /** The bin a free chunk of this many bytes belongs to. */
  function BinOf(bytes: nat): nat {
    if IsHuge(bytes) then 2
    else if IsLarge(bytes) then LargeRequestIndex(bytes)
    else SmallRequestIndex(bytes)
  }

  /** Bin n >= 32 holds the sizes whose top bit is TopBit(n) and whose two leading
      bits, read as a number, are RootPos(n). */
  function TopBit(n: nat): nat
    requires n >= 16
  {
    (n - 16) / 2
  }

  function RootPos(n: nat): nat {
    2 + n % 2
  }

  /** The bin of a large, non-huge size determines its top two bits, and conversely. */
  lemma LargeIndexPrefix(bytes: nat)
    requires IsLarge(bytes) && bytes % 8 == 0
    ensures var n := LargeRequestIndex(bytes);
            32 <= n && 8 <= TopBit(n) == Log2(bytes)
            && Shr(bytes, TopBit(n) - 1) == RootPos(n) && Shr(bytes, TopBit(n)) == 1
            && (n <= 63 <==> !IsHuge(bytes))
  {
    ShrLog2(bytes);
    Log2Bound(bytes, 8);
    assert Pow2(8) == 256;
    Log2Bound(bytes, 24);
    assert Pow2(12) == 4096;
    assert Pow2(24) == 16777216;
  }

  lemma LargeIndexMonotone(a: nat, b: nat)
    requires IsLarge(a) && a % 8 == 0 && b % 8 == 0 && a <= b
    ensures LargeRequestIndex(a) <= LargeRequestIndex(b)
  {
    LargeIndexPrefix(a);
    LargeIndexPrefix(b);
    Log2Monotone(a, b);
    ShrMonotone(a, b, Log2(a) - 1);
  }

  /** Whatever lies in a large bin above the request's own bin is larger than the
      request, so the next-bin searches only ever find chunks that fit. */
  lemma HigherBinFits(request: nat, bytes: nat)
    requires request % 8 == 0 && bytes % 8 == 0 && IsLarge(bytes) && !IsHuge(bytes)
    requires BinOf(request) < BinOf(bytes)
    requires !IsHuge(request)
    ensures request < bytes
  {
    if request >= bytes {
      LargeIndexMonotone(bytes, request);
    }
  }

  /** Bins 32 to 63 hold exactly the documented ranges: bin n starts at RootPos(n)
      times its granule and ends one granule later. */
  lemma LargeBinRange(bytes: nat, n: nat)
    requires bytes % 8 == 0 && 32 <= n <= 63
    ensures var granule := Pow2(TopBit(n) - 1);
            BinOf(bytes) == n <==> RootPos(n) * granule <= bytes < (RootPos(n) + 1) * granule
  {
    var granule := Pow2(TopBit(n) - 1);
    ShrIsQuotient(bytes, TopBit(n) - 1, RootPos(n));
    Pow2Monotone(7, TopBit(n) - 1);
    Pow2Monotone(TopBit(n) - 1, 22);
    assert Pow2(7) == 128;
    assert Pow2(11) == 2048;
    assert Pow2(22) == 4194304;
    if BinOf(bytes) == n {
      LargeIndexPrefix(bytes);
    }
    if RootPos(n) * granule <= bytes < (RootPos(n) + 1) * granule {
      assert 256 <= bytes < 16777216;
      LargeIndexPrefix(bytes);
      assert Shr(bytes, TopBit(n)) == 1;
      if TopBit(n) < Log2(bytes) {
        NothingAboveTopBit(bytes, TopBit(n), Log2(bytes));
      } else if Log2(bytes) < TopBit(n) {
        NothingAboveTopBit(bytes, Log2(bytes), TopBit(n));
      }
    }
  }

  /** Bins 3 to 31 hold one size each, and bin 2 everything above the huge cutoff. */
  lemma ListBinRange(bytes: nat, n: nat)
    requires bytes % 8 == 0 && bytes >= SMALLEST_MALLOC && 2 <= n <= 31
    ensures BinOf(bytes) == n <==> if n == 2 then bytes >= 16777216 else bytes == 8 * n
  {
    BinInRange(bytes);
  }

  lemma NothingAboveTopBit(x: nat, k: nat, l: nat)
    requires Shr(x, k) == 1 && k < l
    ensures Shr(x, l) == 0
  {
    ShrAdd(x, k, l - k);
    ShrOne(l - k);
  }

  lemma {:induction false} ShrOne(k: nat)
    requires k > 0
    ensures Shr(1, k) == 0
  {
    if k > 1 {
      ShrOne(k - 1);
    }
  }

  lemma {:induction false} Pow2Monotone(a: nat, b: nat)
    requires a <= b
    ensures Pow2(a) <= Pow2(b)
    decreases b - a
  {
    if a < b {
      Pow2Monotone(a + 1, b);
    }
  }

  /** Every multiple of eight that is at least 24 lands in bins 2 to 63. */
  lemma BinInRange(bytes: nat)
    requires bytes % 8 == 0 && bytes >= SMALLEST_MALLOC
    ensures 2 <= BinOf(bytes) <= 63
    ensures BinOf(bytes) >= 32 <==> IsLarge(bytes) && !IsHuge(bytes)
    ensures 3 <= BinOf(bytes) <= 31 <==> !IsLarge(bytes)
  {
    if IsLarge(bytes) {
      LargeIndexPrefix(bytes);
    }
  }
}
