/**
  Deterministic charges for retained allocations (src/resident_credit.rs:315-384).
  `None` is arithmetic overflow of `usize`.
*/
module ResidentCharge {
  import opened Wrappers
  import opened Text

  const HEAP_ALLOCATION_OVERHEAD := 32
  const HEAP_ALIGNMENT := 16
  const WIDTH := 64

  // ----- machine words as bits -----

  function Pow2(k: nat): (r: nat)
    ensures r > 0
  {
    if k == 0 then 1 else 2 * Pow2(k - 1)
  }

  function BitAnd(a: nat, b: nat, width: nat): nat {
    if width == 0 then 0
    else (if a % 2 == 1 && b % 2 == 1 then 1 else 0) + 2 * BitAnd(a / 2, b / 2, width - 1)
  }

  function BitNot(a: nat, width: nat): nat {
    if width == 0 then 0 else (1 - a % 2) + 2 * BitNot(a / 2, width - 1)
  }

  lemma {:induction false} AndWithOnes(x: nat, width: nat)
    requires x < Pow2(width)
    ensures BitAnd(x, BitNot(0, width), width) == x
  {
    if width > 0 {
      AndWithOnes(x / 2, width - 1);
    }
  }

  lemma ModOfDouble(x: nat, m: nat)
    requires m > 0
    ensures x % (2 * m) == x % 2 + 2 * ((x / 2) % m)
  {
    var half, q := x / 2, x / 2 / m;
    assert half == q * m + half % m;
    assert x == x % 2 + 2 * half;
    assert x == q * (2 * m) + (x % 2 + 2 * (half % m));
    ModIsUnique(x, 2 * m, q, x % 2 + 2 * (half % m));
  }

  lemma MultipleIsFar(k: int, d: int)
    requires d > 0
    ensures k != 0 ==> k * d >= d || k * d <= -d
  {
    if k >= 1 {
      assert (k - 1) * d >= 0;
    } else if k <= -1 {
      assert (-k - 1) * d >= 0;
    }
  }

  lemma ModIsUnique(x: nat, d: nat, q: nat, r: nat)
    requires d > 0 && x == q * d + r && r < d
    ensures x % d == r && x / d == q
  {
    var k := x / d - q;
    assert k * d == r - x % d;
    MultipleIsFar(k, d);
  }

  /** Clearing the low bits by mask subtracts the remainder. */
  lemma {:induction false} MaskClearsRemainder(x: nat, k: nat, width: nat)
    requires k <= width && x < Pow2(width)
    ensures BitAnd(x, BitNot(Pow2(k) - 1, width), width) == x - x % Pow2(k)
  {
    if k == 0 {
      AndWithOnes(x, width);
    } else {
      var half := Pow2(k - 1);
      MaskHalves(half, width);
      MaskClearsRemainder(x / 2, k - 1, width - 1);
      ModOfDouble(x, half);
      hide BitNot, Pow2;
      var rest := BitNot(half - 1, width - 1);
      assert BitAnd(x, 2 * rest, width) == 2 * BitAnd(x / 2, rest, width - 1);
    }
  }

  lemma MaskHalves(half: nat, width: nat)
    requires half > 0 && width > 0
    ensures BitNot(2 * half - 1, width) == 2 * BitNot(half - 1, width - 1)
  {
    assert (2 * half - 1) % 2 == 1 && (2 * half - 1) / 2 == half - 1;
  }

  // ----- rounding -----

  /** `(value + (align - 1)) & !(align - 1)`, checked. */
  function RoundUp(value: usize, align: nat): Option<usize>
    requires align > 0
  {
    if value + (align - 1) > MAX_USIZE then None
    else Some(Masked(value + (align - 1), align - 1))
  }

  function Masked(value: usize, mask: nat): (r: usize) {
    BitAndFits(value, BitNot(mask, WIDTH), WIDTH);
    BitAnd(value, BitNot(mask, WIDTH), WIDTH)
  }

  lemma BitAndFits(a: nat, b: nat, width: nat)
    ensures BitAnd(a, b, width) <= a
  {
  }

  lemma WordSize()
    ensures Pow2(WIDTH) == MAX_USIZE + 1
  {
    hide Pow2;
    FourBits();
    Squared(4, 0x10);
    Squared(8, 0x100);
    Squared(16, 0x1_0000);
    Squared(32, 0x1_0000_0000);
  }

  lemma FourBits()
    ensures Pow2(4) == 0x10
  {
  }

  lemma Squared(a: nat, power: nat)
    requires Pow2(a) == power
    ensures Pow2(2 * a) == power * power
  {
    Pow2Sum(a, a);
  }

  lemma {:induction false} Pow2Sum(a: nat, b: nat)
    ensures Pow2(a + b) == Pow2(a) * Pow2(b)
  {
    if a > 0 {
      Pow2Sum(a - 1, b);
      assert Pow2(a) * Pow2(b) == 2 * (Pow2(a - 1) * Pow2(b));
    }
  }

  /** For a power-of-two alignment the mask gives the least aligned value not below the argument. */
  lemma RoundUpIsLeast(value: usize, k: nat, multiple: nat)
    requires k <= WIDTH
    ensures var r := RoundUp(value, Pow2(k));
      && (r.None? <==> value + (Pow2(k) - 1) > MAX_USIZE)
      && (r.Some? ==>
            && r.value % Pow2(k) == 0 && value <= r.value < value + Pow2(k)
            && (multiple % Pow2(k) == 0 && value <= multiple ==> r.value <= multiple))
  {
    hide BitAnd, BitNot, Pow2;
    var x := value + (Pow2(k) - 1);
    if x <= MAX_USIZE {
      WordSize();
      MaskClearsRemainder(x, k, WIDTH);
      LeastMultiple(value, Pow2(k), multiple);
    }
  }

  lemma LeastMultiple(value: nat, align: nat, multiple: nat)
    requires align > 0
    ensures var x := value + (align - 1); var r := x - x % align;
      && r % align == 0 && value <= r < value + align
      && (multiple % align == 0 && value <= multiple ==> r <= multiple)
  {
    var x := value + (align - 1);
    var q, m := x / align, multiple / align;
    assert x - x % align == q * align + 0;
    ModIsUnique(q * align, align, q, 0);
    if multiple % align == 0 && value <= multiple {
      assert (m - q) * align == multiple - (x - x % align);
      MultipleIsFar(m - q, align);
    }
  }

  function CheckedAdd(a: usize, b: nat): Option<usize> {
    if a + b > MAX_USIZE then None else Some(a + b)
  }

  function CheckedMul(a: nat, b: nat): Option<usize> {
    if a * b > MAX_USIZE then None else Some(a * b)
  }

  /** One heap allocation: rounded to at least the common alignment, plus a fixed header. */
  function HeapAllocationCharge(size: usize, align: nat): Option<usize>
    requires align > 0
  {
    if size == 0 then Some(0) else
    var rounded := RoundUp(size, if align < HEAP_ALIGNMENT then HEAP_ALIGNMENT else align);
    if rounded.None? then None else CheckedAdd(rounded.value, HEAP_ALLOCATION_OVERHEAD)
  }

  function ByteBufferCharge(capacity: usize): Option<usize> {
    HeapAllocationCharge(capacity, 1)
  }

  function VecBackingCharge(capacity: usize, elementSize: nat, align: nat): Option<usize>
    requires align > 0
  {
    if elementSize == 0 then Some(0) else
    var bytes := CheckedMul(capacity, elementSize);
    if bytes.None? then None else HeapAllocationCharge(bytes.value, align)
  }

  /** A byte buffer is charged for all its bytes, and less than one header and one alignment unit more. */
  lemma ByteBufferChargeIsTight(capacity: usize)
    ensures var charge := ByteBufferCharge(capacity);
      charge.Some? && capacity > 0 ==>
        capacity + HEAP_ALLOCATION_OVERHEAD <= charge.value < capacity + HEAP_ALLOCATION_OVERHEAD + HEAP_ALIGNMENT
  {
    assert Pow2(4) == HEAP_ALIGNMENT;
    hide BitAnd, BitNot, Pow2;
    RoundUpIsLeast(capacity, 4, 0);
  }
}
