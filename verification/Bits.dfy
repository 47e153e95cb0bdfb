/** The logarithm of pkg/ebpf/cpu/futexsnoop/bits.bpf.h, computed by shifts and ors on unsigned integers. */
module Bits {
  import opened Bytes

  const TWO_32: int := 0x1_0000_0000
  type u32 = x: int | 0 <= x < TWO_32
  type i32 = x: int | -0x8000_0000 <= x < 0x8000_0000

  function Pow2(n: nat): (p: nat)
    ensures p >= 1
  {
    if n == 0 then 1 else 2 * Pow2(n - 1)
  }

  /** The bitwise or of two unsigned integers, bit by bit. */
  function Or(a: nat, b: nat): (r: nat)
  {
    if a == 0 && b == 0 then 0
    else (if a % 2 == 1 || b % 2 == 1 then 1 else 0) + 2 * Or(a / 2, b / 2)
  }

  /** `v >> n`, one bit at a time. */
  function ShiftRight(v: nat, n: nat): (r: nat)
    decreases v, n
  {
    if n == 0 then v else if v == 0 then 0 else ShiftRight(v / 2, n - 1)
  }

  /** `b << n` of a truth value b. */
  function Flag(b: bool, n: nat): (r: nat)
  {
    if b then Pow2(n) else 0
  }

  /** The lowest k bits of a are zero. */
  predicate Clear(a: nat, k: nat)
  {
    k == 0 || (a % 2 == 0 && Clear(a / 2, k - 1))
  }

  /** The exponent of the largest power of two that is not above v. */
  function FloorLog2(v: nat): (r: nat)
  {
    if v < 2 then 0 else 1 + FloorLog2(v / 2)
  }

  lemma {:induction false} FloorLog2Bounds(v: nat)
    requires v > 0
    ensures Pow2(FloorLog2(v)) <= v < Pow2(FloorLog2(v) + 1)
  {
    if v >= 2 { FloorLog2Bounds(v / 2); }
  }

  lemma {:induction false} Pow2Monotone(m: nat, n: nat)
    requires m <= n
    ensures Pow2(m) <= Pow2(n)
  {
    if m < n { Pow2Monotone(m, n - 1); }
  }

  lemma {:induction false} Pow2Sum(m: nat, n: nat)
    ensures Pow2(m + n) == Pow2(m) * Pow2(n)
  {
    if m > 0 { Pow2Sum(m - 1, n); }
  }

  lemma {:induction false} SmallPowers()
    ensures Pow2(0) == 1 && Pow2(1) == 2 && Pow2(2) == 4 && Pow2(3) == 8 && Pow2(4) == 16
  {}

  lemma {:induction false} Powers()
    ensures Pow2(0) == 1 && Pow2(1) == 2 && Pow2(2) == 4 && Pow2(3) == 8 && Pow2(4) == 16
    ensures Pow2(8) == 0x100 && Pow2(16) == 0x1_0000 && Pow2(32) == TWO_32
  {
    hide Pow2;
    SmallPowers();
    Pow2Sum(4, 4);
    Pow2Sum(8, 8);
    Pow2Sum(16, 16);
  }

  lemma {:induction false} WordPowers()
    ensures Pow2(32) == TWO_32 && Pow2(64) == TWO_64
  {
    hide Pow2;
    Powers();
    Pow2Sum(32, 32);
  }

  lemma {:induction false} OrZero(a: nat)
    ensures Or(a, 0) == a && Or(0, a) == a
  {
    if a > 0 { OrZero(a / 2); }
  }

  /** On numbers without a common bit, or is addition. */
  lemma {:induction false} OrDisjoint(k: nat, a: nat, b: nat)
    requires Clear(a, k) && b < Pow2(k)
    ensures Or(a, b) == a + b
  {
    if k == 0 {
      OrZero(a);
    } else {
      OrDisjoint(k - 1, a / 2, b / 2);
    }
  }

  lemma {:induction false} ClearSum(a: nat, k: nat)
    requires Clear(a, k + 1)
    ensures Clear(a, k) && Clear(a + Pow2(k), k)
  {
    if k > 0 {
      ClearSum(a / 2, k - 1);
      assert (a + Pow2(k)) / 2 == a / 2 + Pow2(k - 1);
    }
  }

  lemma {:induction false} ClearZero(k: nat)
    ensures Clear(0, k)
  {
    if k > 0 { ClearZero(k - 1); }
  }

  lemma {:induction false} ShiftZero(n: nat)
    ensures ShiftRight(0, n) == 0
  {}

  lemma {:induction false} ShiftTwice(v: nat, r: nat, s: nat)
    ensures ShiftRight(ShiftRight(v, r), s) == ShiftRight(v, r + s)
  {
    if r > 0 && v > 0 { ShiftTwice(v / 2, r - 1, s); }
  }

  lemma {:induction false} ShiftBelow(v: nat, n: nat, w: nat)
    ensures v < Pow2(n + w) ==> ShiftRight(v, w) < Pow2(n)
    ensures v >= Pow2(w) <==> ShiftRight(v, w) > 0
  {
    if w > 0 && v > 0 { ShiftBelow(v / 2, n, w - 1); }
  }

  /** The logarithm of what a shift leaves is less by as much as was shifted. */
  lemma {:induction false} ShiftLog(v: nat, r: nat)
    requires ShiftRight(v, r) > 0
    ensures FloorLog2(v) == r + FloorLog2(ShiftRight(v, r))
  {
    if r > 0 {
      ShiftZero(r - 1);
      ShiftLog(v / 2, r - 1);
    }
  }

  /** What one round of the search has to go on: r bits are gone, and at most Pow2(k) are left. */
  ghost predicate Narrowed(value: nat, r: nat, v: nat, k: nat)
  {
    && v == ShiftRight(value, r) && v < Pow2(Pow2(k))
    && Clear(r, k)
    && (if value > 0 then v > 0 else r == 0)
  }

  /** A round halves the width: it shifts out half of the bits when the upper half is not empty. */
  lemma {:induction false} Narrow(value: nat, r: nat, v: nat, k: nat)
    requires Narrowed(value, r, v, k + 1)
    ensures
      var shift := Flag(v >= Pow2(Pow2(k)), k);
      Or(r, shift) == r + shift && Narrowed(value, r + shift, ShiftRight(v, shift), k)
  {
    var w := Pow2(k);
    assert Pow2(k + 1) == w + w;
    var shift := Flag(v >= Pow2(w), k);
    OrDisjoint(k + 1, r, shift);
    ShiftTwice(value, r, shift);
    ClearSum(r, k);
    ShiftBelow(v, w, w);
  }

  lemma {:induction false} FirstRound(value: nat)
    requires value < TWO_32
    ensures Narrowed(value, 0, value, 5)
  {
    hide Clear;
    Powers();
    ClearZero(5);
  }

  /** The last round reads the answer off the two bits that are left. */
  lemma {:induction false} LastRound(value: nat, r: nat, v: nat)
    requires Narrowed(value, r, v, 1)
    ensures Or(r, ShiftRight(v, 1)) == FloorLog2(value)
  {
    SmallPowers();
    assert ShiftRight(v, 1) == v / 2;
    OrDisjoint(1, r, v / 2);
    if value > 0 { ShiftLog(value, r); }
  }

  lemma {:induction false} FloorLog2Below(v: nat, n: nat)
    requires v < Pow2(n) && n > 0
    ensures FloorLog2(v) < n
  {
    if v > 0 {
      FloorLog2Bounds(v);
      if n <= FloorLog2(v) { Pow2Monotone(n, FloorLog2(v)); }
    }
  }

  /** Five rounds of a binary search for the top bit find the logarithm; it is 0 for 0. */
  method Log2(value: u32) returns (res: u64)
    ensures res == FloorLog2(value) < 32
  {
    hide Or, FloorLog2, ShiftRight, Pow2, Clear;
    Powers();
    FloorLog2Below(value, 32);
    FirstRound(value);
    Narrow(value, 0, value, 4);
    var v, r: nat, shift: nat := value, 0, 0;
    r := Flag(v > 0xFFFF, 4);
    v := ShiftRight(v, r);
    Narrow(value, r, v, 3);
    shift := Flag(v > 0xFF, 3);
    v := ShiftRight(v, shift);
    r := Or(r, shift);
    Narrow(value, r, v, 2);
    shift := Flag(v > 0xF, 2);
    v := ShiftRight(v, shift);
    r := Or(r, shift);
    Narrow(value, r, v, 1);
    shift := Flag(v > 0x3, 1);
    v := ShiftRight(v, shift);
    r := Or(r, shift);
    LastRound(value, r, v);
    r := Or(r, ShiftRight(v, 1));
    res := r;
  }

  method Log2l(v: u64) returns (res: u64)
    ensures res == FloorLog2(v) < 64
  {
    hide Or, FloorLog2, ShiftRight, Pow2, Clear;
    var hi := ShiftRight(v, 32);
    WordPowers();
    ShiftBelow(v, 32, 32);
    FloorLog2Below(v, 64);
    if hi != 0 {
      ShiftLog(v, 32);
      res := Log2(hi);
      res := res + 32;
    } else {
      res := Log2(v % TWO_32);
    }
  }
}
