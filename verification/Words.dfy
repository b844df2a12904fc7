/** 32-bit index arithmetic of the rings.

    The rings are indexed by free-running counters that the program keeps in `u32` fields.  Every index operation
    is written once here, for two readings of a counter: `U32`, the wrapping 32-bit word of the program, and
    `Wide`, the unbounded count that the word stands for. */
module Words {
  const TWO32: int := 0x1_0000_0000

  type u32 = x: int | 0 <= x < 0x1_0000_0000

  type byte = x: int | 0 <= x < 256

  datatype Mode = Wide | U32

  function Min(a: int, b: int): int {
    if a <= b then a else b
  }

  /** `x as u32`, and the result of a wrapping operation whose exact result is `x`. */
  function Wrap(x: int): u32 {
    x % TWO32
  }

  /** `x.wrapping_add(k)`. */
  function Add(m: Mode, x: int, k: int): int {
    match m
    case Wide => x + k
    case U32 => Wrap(x + k)
  }

  /** `x.wrapping_sub(y)`. */
  function Sub(m: Mode, x: int, y: int): int {
    match m
    case Wide => x - y
    case U32 => Wrap(x - y)
  }

  /** Bitwise conjunction of two natural numbers, bit by bit. */
  function BitAnd(a: nat, b: nat): (r: nat)
    ensures r <= b
  {
    if a == 0 || b == 0 then 0
    else (if a % 2 == 1 && b % 2 == 1 then 1 else 0) + 2 * BitAnd(a / 2, b / 2)
  }

  /** The slot of a ring of `n` descriptors that a counter selects: `x & mod_mask` on words. */
  function Slot(m: Mode, n: nat, x: int): (slot: nat)
    requires n > 0
    ensures slot < n
  {
    match m
    case Wide => x % n
    case U32 => BitAnd(Wrap(x), n - 1)
  }

  predicate PowerOfTwo(n: nat) {
    n == 1 || (n > 1 && n % 2 == 0 && PowerOfTwo(n / 2))
  }

  /** A nonzero multiple of `n` is at least `n` away from zero. */
  lemma MultipleIsFar(a: int, n: nat)
    ensures a >= 1 ==> a * n >= n
    ensures a <= -1 ==> a * n <= 0 - n
  {
    if a >= 1 {
      assert a * n == (a - 1) * n + n;
      assert (a - 1) * n >= 0;
    } else if a <= -1 {
      assert a * n == (a + 1) * n - n;
      assert (-a - 1) * n >= 0;
      assert (a + 1) * n == -((-a - 1) * n);
    }
  }

  lemma ModUnique(x: int, n: nat, q: int, r: int)
    requires 0 <= r < n
    requires x == q * n + r
    ensures x % n == r
  {
    var q', r' := x / n, x % n;
    assert x == q' * n + r';
    assert (q - q') * n == q * n - q' * n;
    MultipleIsFar(q - q', n);
  }

  lemma {:induction false} MaskIsMod(x: nat, n: nat)
    requires PowerOfTwo(n)
    ensures BitAnd(x, n - 1) == x % n
  {
    if n > 1 {
      var h := n / 2;
      MaskIsMod(x / 2, h);
      MaskStep(x, h);
      HalfMod(x, h);
      assert n == 2 * h;
    }
  }

  lemma MaskStep(x: nat, h: nat)
    requires h > 0
    ensures BitAnd(x, 2 * h - 1) == 2 * BitAnd(x / 2, h - 1) + x % 2
  {
    assert (2 * h - 1) % 2 == 1 && (2 * h - 1) / 2 == h - 1;
  }

  lemma HalfMod(x: nat, h: nat)
    requires h > 0
    ensures x % (2 * h) == 2 * (x / 2 % h) + x % 2
  {
    var y := x / 2;
    var q, r := y / h, y % h;
    assert y == q * h + r;
    assert q * (2 * h) == 2 * (q * h);
    ModUnique(x, 2 * h, q, 2 * r + x % 2);
  }

  lemma {:induction false} PowersDivide(n: nat, m: nat)
    requires PowerOfTwo(n) && PowerOfTwo(m) && n <= m
    ensures m % n == 0
  {
    if n > 1 {
      PowersDivide(n / 2, m / 2);
      var c := m / 2 / (n / 2);
      assert m / 2 == c * (n / 2);
      ModUnique(m, n, c, 0);
    }
  }

  lemma Double(n: nat)
    requires PowerOfTwo(n)
    ensures PowerOfTwo(2 * n)
  {
  }

  lemma TimesSixteen(n: nat)
    requires PowerOfTwo(n)
    ensures PowerOfTwo(16 * n)
  {
    Double(n);
    Double(2 * n);
    Double(4 * n);
    Double(8 * n);
  }

  lemma WordIsPower()
    ensures PowerOfTwo(TWO32)
  {
    TimesSixteen(1);
    TimesSixteen(0x10);
    TimesSixteen(0x100);
    TimesSixteen(0x1000);
    TimesSixteen(0x1_0000);
    TimesSixteen(0x10_0000);
    TimesSixteen(0x100_0000);
    TimesSixteen(0x1000_0000);
  }

  /** Masking the wrapped word selects the slot of the unbounded count, after any number of wraps. */
  lemma SlotOfWord(n: nat, x: int)
    requires PowerOfTwo(n) && n <= TWO32
    ensures Slot(U32, n, Wrap(x)) == Slot(Wide, n, x) == Slot(U32, n, x)
  {
    assert Wrap(Wrap(x)) == Wrap(x);
    MaskIsMod(Wrap(x), n);
    assert Wrap(x) % n == x % n by {
      WordIsPower();
      PowersDivide(n, TWO32);
      WholeWords(x, n);
    }
  }

  lemma WholeWords(x: int, n: nat)
    requires n > 0 && TWO32 % n == 0
    ensures x % n == Wrap(x) % n
  {
    var c, w, y := TWO32 / n, x / TWO32, Wrap(x);
    var q, r := y / n, y % n;
    assert w * TWO32 == (w * c) * n by {
      assert TWO32 == c * n;
    }
    assert (w * c + q) * n == (w * c) * n + q * n;
    ModUnique(x, n, w * c + q, r);
  }

  lemma WrapWord(x: u32)
    ensures Wrap(x) == x
  {
  }

  /** Wrapping twice is wrapping once. */
  lemma WrapAdd(x: int, k: int)
    ensures Wrap(Wrap(x) + k) == Wrap(x + k)
  {
  }

  /** The wrapped distance of two words is the distance of the counts, as long as that fits a word. */
  lemma DistanceExact(x: int, y: int)
    requires 0 <= x - y < TWO32
    ensures Sub(U32, Wrap(x), Wrap(y)) == x - y
    ensures Wrap(x) == Wrap(y) <==> x == y
  {
  }

  /** The same for a counter advanced by `k` before masking, as in `producer.wrapping_add(index) & mod_mask`. */
  lemma {:induction false} SlotOfSum(n: nat, x: int, k: int)
    requires PowerOfTwo(n) && n <= TWO32
    ensures Slot(U32, n, Wrap(x) + k) == Slot(Wide, n, x + k)
  {
    WrapAdd(x, k);
    SlotOfWord(n, x + k);
  }

  /** The mask as the program writes it. */
  lemma SlotIsMasked(n: nat, x: u32)
    requires n > 0
    ensures Slot(U32, n, x) == BitAnd(x, n - 1) < n
  {
  }
}
