/** Machine words of the 64-bit build: bit tests on bitmaps, the size macros of
    zend_alloc.c and the overflow-checked address computation. A word is an `int` in
    `0 <= w < WORD`; every wrap-around is written out as `% WORD`. */
module Words {

  const WORD: int := 0x1_0000_0000_0000_0000
  const HALF_WORD: int := 0x8000_0000_0000_0000

  const HEADER: int := 16          // ZEND_MM_ALIGNED_HEADER_SIZE, also the segment header
  const MIN_BLOCK: int := 32       // ZEND_MM_ALIGNED_MIN_HEADER_SIZE
  const MAX_SMALL: int := 544      // ZEND_MM_MAX_SMALL_SIZE
  const NUM_BUCKETS: int := 64

  // ---------- bits ----------

  function Pow2(k: nat): (r: nat)
    ensures r >= 1
  {
    if k == 0 then 1 else 2 * Pow2(k - 1)
  }

  /** `n >> k` on an unsigned word. */
  function Shr(n: nat, k: nat): nat
  {
    if k == 0 then n else Shr(n / 2, k - 1)
  }

  predicate Bit(n: nat, i: nat)
  {
    Shr(n, i) % 2 == 1
  }

  /** `n | (1 << i)`, characterised bit by bit in SetBitBits. */
  function SetBit(n: nat, i: nat): nat
  {
    if i == 0 then 2 * (n / 2) + 1 else 2 * SetBit(n / 2, i - 1) + n % 2
  }

  /** `n & ~(1 << i)`, characterised bit by bit in ClearBitBits. */
  function ClearBit(n: nat, i: nat): nat
  {
    if i == 0 then 2 * (n / 2) else 2 * ClearBit(n / 2, i - 1) + n % 2
  }

  lemma Halve(a: nat, b: nat)
    requires b < 2
    ensures (2 * a + b) / 2 == a && (2 * a + b) % 2 == b
  {
  }

  lemma {:induction false} SetBitBits(n: nat, i: nat, j: nat)
    ensures Bit(SetBit(n, i), j) <==> j == i || Bit(n, j)
    decreases i
  {
    if i == 0 {
      Halve(n / 2, 1);
    } else {
      Halve(SetBit(n / 2, i - 1), n % 2);
      if j > 0 { SetBitBits(n / 2, i - 1, j - 1); }
    }
  }

  lemma {:induction false} ClearBitBits(n: nat, i: nat, j: nat)
    ensures Bit(ClearBit(n, i), j) <==> j != i && Bit(n, j)
    decreases i
  {
    if i == 0 {
      Halve(n / 2, 0);
    } else {
      Halve(ClearBit(n / 2, i - 1), n % 2);
      if j > 0 { ClearBitBits(n / 2, i - 1, j - 1); }
    }
  }

  lemma {:induction false} ShrShr(n: nat, i: nat, j: nat)
    ensures Shr(Shr(n, i), j) == Shr(n, i + j)
    decreases i
  {
    if i > 0 { ShrShr(n / 2, i - 1, j); }
  }

  lemma ShiftedBit(n: nat, i: nat, j: nat)
    ensures Bit(Shr(n, i), j) <==> Bit(n, i + j)
  {
    hide Shr;
    ShrShr(n, i, j);
  }

  lemma ShrStep(n: nat, k: nat)
    requires k > 0
    ensures Shr(n, k) == Shr(n, k - 1) / 2
  {
    ShrShr(n, k - 1, 1);
  }

  lemma {:induction false} ShrMonotone(a: nat, b: nat, k: nat)
    requires a <= b
    ensures Shr(a, k) <= Shr(b, k)
    decreases k
  {
    if k > 0 { ShrMonotone(a / 2, b / 2, k - 1); }
  }

  lemma MulTwo(q: int, p: int) ensures q * (2 * p) == 2 * (q * p) { }

  lemma {:induction false} ShrBounds(n: nat, k: nat)
    ensures Shr(n, k) * Pow2(k) <= n < (Shr(n, k) + 1) * Pow2(k)
    decreases k
  {
    if k > 0 {
      ShrBounds(n / 2, k - 1);
      var q, p := Shr(n / 2, k - 1), Pow2(k - 1);
      MulTwo(q, p);
      MulTwo(q + 1, p);
    }
  }

  lemma {:induction false} Pow2Monotone(a: nat, b: nat)
    requires a <= b
    ensures Pow2(a) <= Pow2(b)
    decreases b
  {
    if a < b { Pow2Monotone(a, b - 1); }
  }

  lemma {:induction false} Pow2Add(a: nat, b: nat)
    ensures Pow2(a + b) == Pow2(a) * Pow2(b)
    decreases a
  {
    if a > 0 {
      Pow2Add(a - 1, b);
      MulTwo(Pow2(b), Pow2(a - 1));
    }
  }

  lemma Pow2Next(k: nat) ensures Pow2(k + 1) == 2 * Pow2(k) { }

  lemma FourthPower()
    ensures Pow2(4) == 16
  {
    hide Pow2;
    assert Pow2(0) == 1 by { Pow2None(); }
    Pow2Next(0);
    Pow2Next(1);
    Pow2Next(2);
    Pow2Next(3);
  }

  lemma Pow2None() ensures Pow2(0) == 1 { }

  lemma Pow2At64()
    ensures Pow2(64) == WORD && Pow2(63) == HALF_WORD
  {
    hide Pow2;
    assert Pow2(4) == 16 by { FourthPower(); }
    assert Pow2(64) == 2 * Pow2(63) by { Pow2Next(63); }
    assert Pow2(8) == 256 by { Pow2Add(4, 4); }
    assert Pow2(16) == 0x1_0000 by { Pow2Add(8, 8); }
    assert Pow2(32) == 0x1_0000_0000 by { Pow2Add(16, 16); }
    assert Pow2(64) == WORD by { Pow2Add(32, 32); }
  }

  /** A zero word has no bits, a non-zero one has a set bit below any bound it respects. */
  lemma {:induction false} NonZeroHasBit(n: nat, bound: nat) returns (i: nat)
    requires 0 < n < Pow2(bound)
    ensures i < bound && Bit(n, i)
    decreases n
  {
    if n % 2 == 1 { i := 0; }
    else { i := NonZeroHasBit(n / 2, bound - 1); i := i + 1; }
  }

  lemma {:induction false} ZeroHasNoBit(i: nat)
    ensures !Bit(0, i)
  {
    if i > 0 { ZeroHasNoBit(i - 1); }
  }

  lemma {:induction false} SetBitBound(n: nat, i: nat, k: nat)
    requires n < Pow2(k) && i < k
    ensures SetBit(n, i) < Pow2(k)
    decreases i
  {
    var p := Pow2(k - 1);
    assert Pow2(k) == 2 * p;
    if i > 0 {
      assert n / 2 < p;
      SetBitBound(n / 2, i - 1, k - 1);
    }
  }

  lemma {:induction false} ClearBitBound(n: nat, i: nat)
    ensures ClearBit(n, i) <= n
    decreases i
  {
    if i > 0 { ClearBitBound(n / 2, i - 1); }
  }

  lemma {:induction false} ShrZeroIsSmall(n: nat, k: nat)
    ensures Shr(n, k) == 0 <==> n < Pow2(k)
    decreases k
  {
    if k > 0 { ShrZeroIsSmall(n / 2, k - 1); }
  }

  /** The portable `zend_mm_high_bit`: position of the leading one. */
  method HighBit(size: nat) returns (r: nat)
    requires 0 < size < WORD
    ensures r < NUM_BUCKETS && Shr(size, r) == 1
  {
    var s, n := size, 0;
    while s != 0
      invariant s == Shr(size, n)
      invariant n > 0 ==> Shr(size, n - 1) != 0
      invariant n <= NUM_BUCKETS
      decreases s
    {
      Pow2At64();
      ShrZeroIsSmall(size, 64);
      ShrStep(size, n + 1);
      s := s / 2;
      n := n + 1;
    }
    ShrStep(size, n);
    r := n - 1;
  }

  const LOW_OFFSET: seq<nat> := [4, 0, 1, 0, 2, 0, 1, 0, 3, 0, 1, 0, 2, 0, 1, 0]

  /** The low four bits of a word, from its low nibble. */
  lemma NibbleBits(s: nat)
    ensures var r := s % 16;
            && Bit(s, 0) == (r % 2 == 1) && Bit(s, 1) == (r / 2 % 2 == 1)
            && Bit(s, 2) == (r / 4 % 2 == 1) && Bit(s, 3) == (r / 8 == 1)
  {
    var s1, s2, s3 := Shr(s, 1), Shr(s, 2), Shr(s, 3);
    assert s1 == s / 2 by { ShrStep(s, 1); }
    assert s2 == s1 / 2 by { ShrStep(s, 2); }
    assert s3 == s2 / 2 by { ShrStep(s, 3); }
    hide Shr;
    assert Shr(s, 0) == s by { ShrNone(s); }
    NibbleParts(s, s1, s2, s3);
  }

  lemma ShrNone(s: nat) ensures Shr(s, 0) == s { }

  lemma NibbleParts(s: nat, s1: nat, s2: nat, s3: nat)
    requires s1 == s / 2 && s2 == s1 / 2 && s3 == s2 / 2
    ensures var r := s % 16;
            && s % 2 == r % 2 && s1 % 2 == r / 2 % 2 && s2 % 2 == r / 4 % 2 && s3 % 2 == r / 8
  {
    var b0, b1, b2, b3, q := s % 2, s1 % 2, s2 % 2, s3 % 2, s3 / 2;
    var r := 8 * b3 + 4 * b2 + 2 * b1 + b0;
    assert s == 16 * q + r;
    ModUnique(s, 16, q, r);
    BitsOfNibble(b0, b1, b2, b3);
  }

  lemma BitsOfNibble(b0: nat, b1: nat, b2: nat, b3: nat)
    requires b0 < 2 && b1 < 2 && b2 < 2 && b3 < 2
    ensures var r := 8 * b3 + 4 * b2 + 2 * b1 + b0;
            r % 2 == b0 && r / 2 % 2 == b1 && r / 4 % 2 == b2 && r / 8 == b3
  {
  }

  /** What one look-up in the nibble table of `zend_mm_low_bit` says about the low four bits. */
  lemma NibbleTable(s: nat)
    ensures var n := LOW_OFFSET[s % 16];
            n <= 4 && (forall j: nat | j < n :: !Bit(s, j)) && (n < 4 ==> Bit(s, n))
  {
    NibbleBits(s);
    var n, r := LOW_OFFSET[s % 16], s % 16;
    hide Bit;
    assert n == (if r % 2 == 1 then 0 else if r / 2 % 2 == 1 then 1 else if r / 4 % 2 == 1 then 2
                 else if r / 8 == 1 then 3 else 4);
    forall j: nat | j < n ensures !Bit(s, j) {
      assert j == 0 || j == 1 || j == 2 || j == 3;
    }
  }

  lemma NibbleZero(s: nat)
    requires LOW_OFFSET[s % 16] == 4
    ensures s % 16 == 0 && Shr(s, 4) == s / 16
  {
    ShrStep(s, 1);
    ShrStep(s, 2);
    ShrStep(s, 3);
    ShrStep(s, 4);
  }

  /** The portable `zend_mm_low_bit`: position of the lowest one. The loop does not
      end on zero, so callers must pass a non-zero word. */
  method LowBit(size: nat) returns (r: nat)
    requires size > 0
    ensures Bit(size, r) && forall j: nat | j < r :: !Bit(size, j)
  {
    var s, index := size, 0;
    var n := LOW_OFFSET[s % 16];
    while n == 4
      invariant s > 0 && s == Shr(size, index) && n == LOW_OFFSET[s % 16]
      invariant forall j: nat | j < index :: !Bit(size, j)
      decreases s
    {
      NibbleTable(s);
      NibbleZero(s);
      forall j: nat | index <= j < index + 4 ensures !Bit(size, j) {
        ShrShr(size, index, j - index);
        assert !Bit(s, j - index);
      }
      ShrShr(size, index, 4);
      s := s / 16;
      index := index + n;
      n := LOW_OFFSET[s % 16];
    }
    NibbleTable(s);
    forall j: nat | index <= j < index + n ensures !Bit(size, j) {
      ShrShr(size, index, j - index);
      assert !Bit(s, j - index);
    }
    ShrShr(size, index, n);
    r := index + n;
  }

  ghost predicate PowerOfTwo(n: nat) { exists k: nat :: n == Pow2(k) }

  lemma {:induction false} Pow2Bits(k: nat, j: nat)
    ensures Bit(Pow2(k), j) <==> j == k
    decreases k
  {
    if k > 0 && j > 0 { Pow2Bits(k - 1, j - 1); }
    if k == 0 && j > 0 { ZeroHasNoBit(j - 1); }
  }

  lemma {:induction false} OnlyBit(n: nat, k: nat)
    requires Shr(n, k) == 1 && forall j: nat | j < k :: !Bit(n, j)
    ensures n == Pow2(k)
    decreases k
  {
    if k > 0 {
      forall j: nat | j < k - 1 ensures !Bit(n / 2, j) { assert !Bit(n, j + 1); }
      OnlyBit(n / 2, k - 1);
      assert !Bit(n, 0);
    }
  }

  lemma {:induction false} LeadingOneUnique(n: nat, a: nat, b: nat)
    requires Shr(n, a) == 1 && Shr(n, b) == 1
    ensures a == b
  {
    if a < b {
      ShrShr(n, a, b - a); assert Shr(1, b - a) == Shr(0, b - a - 1); ShrZero(b - a - 1);
    } else if b < a {
      ShrShr(n, b, a - b); assert Shr(1, a - b) == Shr(0, a - b - 1); ShrZero(a - b - 1);
    }
  }

  lemma {:induction false} ShrZero(k: nat)
    ensures Shr(0, k) == 0
  {
    if k > 0 { ShrZero(k - 1); }
  }

  lemma {:induction false} ShrOfPow2(k: nat)
    ensures Shr(Pow2(k), k) == 1
  {
    if k > 0 { ShrOfPow2(k - 1); }
  }

  /** The startup check `low_bit(block_size) == high_bit(block_size)`: for the low bit `lo` and
      the high bit `hi` of a word it holds exactly for powers of two. */
  lemma BlockSizeCheck(n: nat, lo: nat, hi: nat)
    requires Bit(n, lo) && (forall j: nat | j < lo :: !Bit(n, j)) && Shr(n, hi) == 1
    ensures lo == hi <==> PowerOfTwo(n)
  {
    if lo == hi { OnlyBit(n, hi); }
    if PowerOfTwo(n) {
      var k :| n == Pow2(k);
      Pow2Bits(k, lo);
      ShrOfPow2(k);
      LeadingOneUnique(n, k, hi);
    }
  }

  // ---------- left shift of a word, as used by the trie descents ----------

  /** `n << j` on a 64-bit word. */
  function Shl(n: nat, j: nat): nat
  {
    if j == 0 then n % WORD else 2 * Shl(n, j - 1) % WORD
  }

  lemma ShlNext(n: nat, j: nat)
    requires j > 0
    ensures Shl(n, j) == 2 * Shl(n, j - 1) % WORD
  {
  }

  lemma {:induction false} ModBits(y: nat, k: nat, i: nat)
    requires i < k
    ensures Bit(y % Pow2(k), i) <==> Bit(y, i)
    decreases k
  {
    var p := Pow2(k - 1);
    assert Pow2(k) == 2 * p;
    hide Pow2, Bit;
    ModHalves(y, p);
    var x := y % (2 * p);
    Halve(y / 2 % p, y % 2);
    BitHalf(x, i);
    BitHalf(y, i);
    if i > 0 { ModBits(y / 2, k - 1, i - 1); }
  }

  lemma BitHalf(n: nat, i: nat)
    ensures Bit(n, i) <==> if i == 0 then n % 2 == 1 else Bit(n / 2, i - 1)
  {
  }

  lemma ModHalves(y: nat, p: nat)
    requires p > 0
    ensures y % (2 * p) == 2 * (y / 2 % p) + y % 2
  {
    var h := y / 2;
    var q, r := h / p, h % p;
    assert h == q * p + r;
    assert y == q * (2 * p) + (2 * r + y % 2) by { assert y == 2 * h + y % 2; assert 2 * (q * p) == q * (2 * p); }
    var s := 2 * r + y % 2;
    assert 0 <= s < 2 * p;
    ModUnique(y, 2 * p, q, s);
  }

  lemma AtLeastOnce(k: int, d: int)
    requires k >= 1 && d > 0
    ensures k * d >= d
  {
    assert k * d == (k - 1) * d + d;
    assert (k - 1) * d >= 0;
  }

  lemma ModUnique(y: int, d: int, q: int, r: int)
    requires d > 0 && 0 <= r < d && y == q * d + r
    ensures y % d == r && y / d == q
  {
    var q', r' := y / d, y % d;
    assert y == q' * d + r';
    assert (q - q') * d == r' - r && (q' - q) * d == r - r';
    if q > q' { AtLeastOnce(q - q', d); }
    if q < q' { AtLeastOnce(q' - q, d); }
  }

  lemma {:induction false} ShlBits(n: nat, j: nat, i: nat)
    requires i < 64
    ensures Bit(Shl(n, j), i) <==> i >= j && Bit(n, i - j)
    decreases j
  {
    Pow2At64();
    if j == 0 {
      ModBits(n, 64, i);
    } else {
      var x := Shl(n, j - 1);
      ModBits(2 * x, 64, i);
      if i > 0 {
        ShlBits(n, j - 1, i - 1);
        assert 2 * x / 2 == x;
      }
    }
  }

  /** The branch bit of a descent: the top bit of `n << j` is bit `64 - j` of `n`, one below. */
  lemma TopBit(n: nat, j: nat)
    requires 1 <= j <= 63
    ensures Shl(n, j) / HALF_WORD % 2 == Shr(n, 63 - j) % 2
    ensures Shl(n, j) / HALF_WORD == Shr(n, 63 - j) % 2
  {
    ShlBits(n, j, 63);
    var x := Shl(n, j);
    Pow2At64();
    ShrBounds(x, 63);
    var q := Shr(x, 63);
    assert x < WORD;
    assert q * HALF_WORD <= x;
    assert q < 2;
    assert x / HALF_WORD == q;
  }

  /** The bit tested at a node with `k` bits of the size left is bit `k - 1` of the size. */
  lemma BranchBit(size: nat, k: nat)
    requires 0 < k < 64
    ensures Shl(size, 64 - k) / HALF_WORD % 2 == Shr(size, k - 1) % 2
  {
    TopBit(size, 64 - k);
  }

  // ---------- size macros ----------

  /** ZEND_MM_TRUE_SIZE on a 64-bit word. */
  function TrueSize(size: nat): nat
  {
    if size < HEADER then MIN_BLOCK else (size + HEADER + 7) % WORD / 8 * 8
  }

  /** Every wrap of the rounding is seen by the test `true_size < size`; the rounding that does not
      wrap is the least aligned block that holds header and payload; a wrapped size is small, so
      the test made only on the small path of the allocator misses nothing. */
  lemma TrueSizeSpec(size: nat)
    requires size < WORD
    ensures TrueSize(size) < size <==> size + HEADER + 7 >= WORD
    ensures TrueSize(size) < size ==> TrueSize(size) < MAX_SMALL
    ensures TrueSize(size) >= size ==>
              var t := TrueSize(size);
              && t % 8 == 0 && MIN_BLOCK <= t < WORD && t >= size + HEADER
              && forall u | u % 8 == 0 && u >= MIN_BLOCK && u >= size + HEADER :: t <= u
  {
  }

  predicate Small(size: int) { size < MAX_SMALL }

  /** ZEND_MM_BUCKET_INDEX, meaningful for block sizes below MAX_SMALL. */
  function BucketIndex(size: int): int { size / 8 - MIN_BLOCK / 8 }

  /** Small block sizes and bucket numbers are in bijection. */
  lemma BucketIndexBijective(a: int, b: int)
    requires a % 8 == 0 && MIN_BLOCK <= a < MAX_SMALL
    requires b % 8 == 0 && MIN_BLOCK <= b < MAX_SMALL
    ensures 0 <= BucketIndex(a) < NUM_BUCKETS
    ensures a == MIN_BLOCK + 8 * BucketIndex(a)
    ensures BucketIndex(a) == BucketIndex(b) <==> a == b
    ensures BucketIndex(a) <= BucketIndex(b) <==> a <= b
  {
  }

  /** Segment size asked from the storage for a block of `trueSize` bytes (`unit` is heap->block_size). */
  function SegmentSize(trueSize: nat, unit: nat): nat
    requires unit > 0
  {
    if trueSize > (unit + WORD - 2 * HEADER) % WORD
    then MaskDown((trueSize + 2 * HEADER + unit - 1) % WORD, unit)
    else unit
  }

  /** `x & ~(unit - 1)` for a power of two. */
  function MaskDown(x: nat, unit: nat): (r: nat)
    requires unit > 0
    ensures r % unit == 0 && x - unit < r <= x && (x < unit ==> r == 0)
  {
    MaskDownMultiple(x, unit);
    x - x % unit
  }

  lemma MaskDownMultiple(x: nat, unit: nat)
    requires unit > 0
    ensures (x - x % unit) % unit == 0
  {
    MultipleOf(x / unit, unit);
  }

  lemma MultipleOf(q: int, unit: int)
    requires unit > 0
    ensures q * unit % unit == 0 && q * unit / unit == q
  {
    ModUnique(q * unit, unit, q, 0);
  }

  lemma Pow2Multiples(a: nat, b: nat)
    requires a <= b
    ensures Pow2(b) % Pow2(a) == 0
  {
    Pow2Add(b - a, a);
    MultipleOf(Pow2(b - a), Pow2(a));
  }

  lemma {:induction false} Pow2StrictlyMonotone(a: nat, b: nat)
    requires Pow2(a) < Pow2(b)
    ensures a < b
  {
    if b <= a { Pow2Monotone(b, a); }
  }

  /** What the startup check accepts as block size. */
  ghost predicate AnyUnit(unit: nat) { 0 < unit < WORD && PowerOfTwo(unit) }

  /** A block size with room for a segment header and a guard. */
  ghost predicate GoodUnit(unit: nat) { AnyUnit(unit) && 2 * HEADER <= unit }

  lemma UnitDividesWord(unit: nat)
    requires GoodUnit(unit)
    ensures WORD % unit == 0 && unit <= HALF_WORD && unit % 8 == 0
  {
    var k: nat :| unit == Pow2(k);
    Pow2At64();
    Pow2StrictlyMonotone(k, 64);
    Pow2Multiples(k, 64);
    Pow2Monotone(k, 63);
    assert Pow2(5) == 32;
    assert Pow2(4) == 16;
    if k < 5 { Pow2Monotone(k, 4); assert false; }
    Pow2Multiples(3, k);
    assert Pow2(3) == 8;
  }

  /** Rounding a segment up to the unit: the test `segment_size < true_size` is true exactly when
      the rounding wraps, and otherwise the segment is a multiple of the unit with room for the
      block, the segment header and the guard. */
  lemma SegmentSizeSpec(t: nat, unit: nat)
    requires GoodUnit(unit) && MIN_BLOCK <= t < WORD && t % 8 == 0
    ensures SegmentSize(t, unit) < t <==> t > unit - 2 * HEADER && t + 2 * HEADER + unit - 1 >= WORD
    ensures SegmentSize(t, unit) >= t ==>
              var s := SegmentSize(t, unit);
              s % unit == 0 && s % 8 == 0 && t + 2 * HEADER <= s < WORD && s < t + 2 * HEADER + unit
  {
    UnitDividesWord(unit);
    hide PowerOfTwo;
    var s := SegmentSize(t, unit);
    assert (unit + WORD - 2 * HEADER) % WORD == unit - 2 * HEADER by { ModUnique(unit + WORD - 2 * HEADER, WORD, 1, unit - 2 * HEADER); }
    if t > unit - 2 * HEADER {
      SegmentWrap(t, unit, (t + 2 * HEADER + unit - 1) % WORD, s);
    } else {
      MultipleOf(1, unit);
    }
    EightDivides(s, unit);
  }

  lemma SegmentWrap(t: nat, unit: nat, x: nat, s: nat)
    requires 32 <= unit <= HALF_WORD && MIN_BLOCK <= t < WORD && t > unit - 2 * HEADER
    requires x == (t + 2 * HEADER + unit - 1) % WORD
    requires x - unit < s <= x && (x < unit ==> s == 0)
    ensures s < t <==> t + 2 * HEADER + unit - 1 >= WORD
    ensures s >= t ==> t + 2 * HEADER <= s < WORD && s < t + 2 * HEADER + unit
  {
  }

  lemma EightDivides(s: nat, unit: nat)
    requires unit > 0 && unit % 8 == 0 && s % unit == 0
    ensures s % 8 == 0
  {
    var q, v := s / unit, unit / 8;
    assert s == q * unit && unit == v * 8;
    assert s == (q * v) * 8 by { assert q * (v * 8) == (q * v) * 8; }
    MultipleOf(q * v, 8);
  }

  // ---------- safe_address ----------

  datatype SafeResult = Address(value: int) | Overflow

  /** The amd64 form: a 128-bit product, the offset added to the low half, the carry to the high. */
  function SafeAddress(nmemb: nat, size: nat, offset: nat): SafeResult
    requires nmemb < WORD && size < WORD && offset < WORD
  {
    var lo, hi := nmemb * size % WORD, nmemb * size / WORD;
    var sum := lo + offset;
    var carry := sum / WORD;
    if (hi + carry) % WORD != 0 then Overflow else Address(sum % WORD)
  }

  lemma SafeAddressExact(nmemb: nat, size: nat, offset: nat)
    requires nmemb < WORD && size < WORD && offset < WORD
    ensures SafeAddress(nmemb, size, offset) ==
            if nmemb * size + offset < WORD then Address(nmemb * size + offset) else Overflow
  {
    Product(nmemb, size);
    Halves(nmemb * size, offset);
  }

  lemma Halves(p: nat, offset: nat)
    requires p <= (WORD - 1) * (WORD - 1) && offset < WORD
    ensures var hi, sum := p / WORD, p % WORD + offset;
            && ((hi + sum / WORD) % WORD == 0 <==> p + offset < WORD)
            && (p + offset < WORD ==> sum % WORD == p + offset)
  {
    assert p == p / WORD * WORD + p % WORD;
    assert p / WORD <= WORD - 2;
  }

  lemma MulMonotone(a: nat, b: nat, c: nat)
    requires b <= c
    ensures a * b <= a * c
  {
    assert a * (c - b) >= 0;
    assert a * c == a * b + a * (c - b);
  }

  lemma Product(a: nat, b: nat)
    requires a < WORD && b < WORD
    ensures a * b <= (WORD - 1) * (WORD - 1)
  {
    MulMonotone(a, b, WORD - 1);
    MulMonotone(WORD - 1, a, WORD - 1);
  }
}
