/** Rust's fixed-width integers and the checked operations the sampler uses.

    Dafny integers are unbounded, so each operation states where the Rust
    operation panics: overflow of `+`, `*` and unsigned `-` (as a debug build
    does), division by zero, and the one signed division that overflows. */
module RustInt {
  import opened Outcomes

  const I32_MIN: int := -0x8000_0000
  const I32_MAX: int := 0x7fff_ffff
  const U32_MAX: int := 0xffff_ffff
  const U64_MAX: int := 0xffff_ffff_ffff_ffff

  type I32 = x: int | I32_MIN <= x <= I32_MAX
  type U32 = x: int | 0 <= x <= U32_MAX
  type U64 = x: int | 0 <= x <= U64_MAX

  /** An `i32` obtained from a `usize` by `try_into().unwrap()`: never negative. */
  type NonNegI32 = x: int | 0 <= x <= I32_MAX

  predicate IsI32(x: int) {
    I32_MIN <= x <= I32_MAX
  }

  function Abs(x: int): nat {
    if x < 0 then -x else x
  }

  /** Integer division rounding toward zero, as Rust's `/` on signed integers
      (Dafny's own `/` is Euclidean). */
  function TruncDiv(a: int, b: int): (q: int)
    requires b != 0
    ensures Abs(q) == Abs(a) / Abs(b)
    ensures q != 0 ==> (q > 0 <==> (a > 0 <==> b > 0))
  {
    NatDivFacts(Abs(a), Abs(b));
    var m: int := Abs(a) / Abs(b);
    if (a < 0) == (b < 0) then m else -m
  }

  lemma NatDivFacts(x: nat, y: nat)
    requires y > 0
    ensures x / y >= 0
    ensures x == 0 ==> x / y == 0
  {
  }

  /** `a + b` on `i32`. */
  function AddI32(a: I32, b: I32): (r: Outcome<I32>)
    ensures r.Ok? <==> IsI32(a + b)
    ensures r.Ok? ==> r.value == a + b
    ensures r.Panic? ==> r.cause == ArithmeticOverflow
  {
    if IsI32(a + b) then Ok(a + b) else Panic(ArithmeticOverflow)
  }

  /** `a * b` on `i32`. */
  function MulI32(a: I32, b: I32): (r: Outcome<I32>)
    ensures r.Ok? <==> IsI32(a * b)
    ensures r.Ok? ==> r.value == a * b
    ensures r.Panic? ==> r.cause == ArithmeticOverflow
  {
    if IsI32(a * b) then Ok(a * b) else Panic(ArithmeticOverflow)
  }

  /** `a / b` on `i32`: panics on a zero divisor and on `i32::MIN / -1`. */
  function DivI32(a: I32, b: I32): (r: Outcome<I32>)
    ensures r.Ok? <==> b != 0 && !(a == I32_MIN && b == -1)
    ensures r.Ok? ==> r.value == TruncDiv(a, b)
    ensures b == 0 ==> r == Panic(DivideByZero)
  {
    if b == 0 then Panic(DivideByZero)
    else if a == I32_MIN && b == -1 then Panic(ArithmeticOverflow)
    else Ok(TruncDiv(a, b))
  }

  /** `a - b` on an unsigned type whose values include `a`: panics on underflow. */
  function SubUnsigned(a: nat, b: nat): (r: Outcome<nat>)
    ensures r.Ok? <==> b <= a
    ensures r.Ok? ==> r.value + b == a
    ensures r.Panic? ==> r.cause == ArithmeticOverflow
  {
    if b <= a then Ok(a - b) else Panic(ArithmeticOverflow)
  }

  /** `n as u32` for a `usize` length: keeps the low 32 bits. */
  function UsizeAsU32(n: nat): (r: U32)
    ensures n <= U32_MAX ==> r == n
    ensures (r - n) % 0x1_0000_0000 == 0
  {
    n % 0x1_0000_0000
  }

  /** `x as i32` for a `u64`: keeps the low 32 bits, read as two's complement. */
  function U64AsI32(x: U64): (r: I32)
    ensures x <= I32_MAX ==> r == x
    ensures (r - x) % 0x1_0000_0000 == 0
  {
    var low := x % 0x1_0000_0000;
    if low <= I32_MAX then low else low - 0x1_0000_0000
  }
}
