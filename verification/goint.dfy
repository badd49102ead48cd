/** Go's fixed-width integer types. Dafny integers are unbounded, so the
    widths the client relies on are written out here, together with the
    two's-complement wrap-around Go applies to signed arithmetic. */
module GoInt {

  const TwoTo32: int := 0x1_0000_0000
  const TwoTo63: int := 0x8000_0000_0000_0000
  const TwoTo64: int := 0x1_0000_0000_0000_0000

  type int32 = x: int | -0x8000_0000 <= x < 0x8000_0000
  type int64 = x: int | -0x8000_0000_0000_0000 <= x < 0x8000_0000_0000_0000
  type uint64 = x: int | 0 <= x < 0x1_0000_0000_0000_0000
  type byte = x: int | 0 <= x < 256

  /** The int32 value Go stores for the mathematical result `x`. */
  function Wrap32(x: int): (r: int32)
    ensures r % TwoTo32 == x % TwoTo32
    ensures -0x8000_0000 <= x < 0x8000_0000 ==> r == x
  {
    var m := x % TwoTo32;
    if m < 0x8000_0000 then m else m - TwoTo32
  }

  /** The int64 value Go stores for the mathematical result `x`. */
  function Wrap64(x: int): (r: int64)
    ensures r % TwoTo64 == x % TwoTo64
    ensures -TwoTo63 <= x < TwoTo63 ==> r == x
  {
    var m := x % TwoTo64;
    if m < TwoTo63 then m else m - TwoTo64
  }

  /** The uint64 value Go stores for the mathematical result `x`. */
  function WrapU64(x: int): (r: uint64)
    ensures r % TwoTo64 == x % TwoTo64
    ensures 0 <= x < TwoTo64 ==> r == x
  {
    x % TwoTo64
  }

  /** Go's integer division truncates toward zero; Dafny's is Euclidean. */
  function TruncDiv(a: int, b: int): (q: int)
    requires b > 0
    ensures a >= 0 ==> q == a / b
  {
    if a >= 0 then a / b else -((-a) / b)
  }

  function Pow2(k: nat): (r: nat)
    ensures r > 0
  {
    if k == 0 then 1 else 2 * Pow2(k - 1)
  }

  /** Go's `&` on non-negative operands, one bit at a time. */
  function BitAnd(a: nat, b: nat): (r: nat)
    decreases a
  {
    if a == 0 || b == 0 then 0 else 2 * BitAnd(a / 2, b / 2) + (a % 2) * (b % 2)
  }

  lemma MulMonotone(d: nat, y: int)
    ensures y >= 1 ==> d * y >= d
    ensures y <= -1 ==> d * y <= -(d as int)
  {
  }

  lemma DivUnique(a: nat, d: nat, q: nat, r: nat)
    requires d > 0 && a == d * q + r && r < d
    ensures a / d == q
  {
    var x := a / d;
    assert d * (x - q) == r - a % d;
    MulMonotone(d, x - q);
  }

  lemma DivDiv(a: nat, c: nat)
    requires c > 0
    ensures (a / 2) / c == a / (2 * c)
  {
    var q := a / 2;
    var q2 := q / c;
    var r2 := q % c;
    assert a == 2 * q + a % 2;
    assert q == c * q2 + r2;
    assert a == (2 * c) * q2 + (2 * r2 + a % 2);
    DivUnique(a, 2 * c, q2, 2 * r2 + a % 2);
  }

  /** Masking with a single bit `2^k` keeps exactly bit `k`. */
  lemma {:induction false} BitAndPow2(a: nat, k: nat)
    ensures BitAnd(a, Pow2(k)) == Pow2(k) * ((a / Pow2(k)) % 2)
    decreases k
  {
    if k == 0 {
      assert BitAnd(a, 1) == a % 2;
    } else if a == 0 {
      assert BitAnd(a, Pow2(k)) == 0;
    } else {
      var p := Pow2(k - 1);
      assert Pow2(k) == 2 * p;
      assert (2 * p) / 2 == p && (2 * p) % 2 == 0;
      assert BitAnd(a, 2 * p) == 2 * BitAnd(a / 2, p);
      BitAndPow2(a / 2, k - 1);
      DivDiv(a, p);
      var x := (a / (2 * p)) % 2;
      assert BitAnd(a / 2, p) == p * x;
      assert 2 * (p * x) == (2 * p) * x;
    }
  }

}
