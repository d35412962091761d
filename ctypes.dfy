/** The fixed-width unsigned integers of the firmware, and its wrap-around arithmetic. */
module CTypes {

  type uint8 = x: int | 0 <= x < 0x100
  type uint16 = x: int | 0 <= x < 0x1_0000
  type uint32 = x: int | 0 <= x < 0x1_0000_0000

  /** Assignment of an arbitrary integer to a `uint8_t`: the value modulo 2^8. */
  function Trunc8(n: int): (r: uint8)
    ensures 0 <= n < 0x100 ==> r == n
    ensures (n - r) % 0x100 == 0
  {
    n % 0x100
  }

  /** Assignment of an arbitrary integer to a `uint16_t`: the value modulo 2^16. */
  function Trunc16(n: int): (r: uint16)
    ensures 0 <= n < 0x1_0000 ==> r == n
    ensures (n - r) % 0x1_0000 == 0
  {
    n % 0x1_0000
  }

  /** Assignment of an arbitrary integer to a `uint32_t` (or a 32-bit `unsigned`): modulo 2^32. */
  function Trunc32(n: int): (r: uint32)
    ensures 0 <= n < 0x1_0000_0000 ==> r == n
    ensures (n - r) % 0x1_0000_0000 == 0
  {
    n % 0x1_0000_0000
  }

  /** Assignment of a `uint8_t` to an `int8_t`: values from 128 on become negative. */
  function Int8(b: uint8): (r: int)
    ensures -0x80 <= r < 0x80
    ensures r >= 0 <==> b < 0x80
    ensures r >= 0 ==> r == b
  {
    if b < 0x80 then b else b - 0x100
  }

  /** `n % m` is the remainder of any division of `n` by `m` with a remainder in range. */
  lemma DivModUnique(n: int, m: int, q: int, r: int)
    requires m > 0 && 0 <= r < m && n == q * m + r
    ensures n % m == r
  {
    var q0, r0 := n / m, n % m;
    assert (q - q0) * m == r0 - r;
    if q > q0 {
      MulAtLeast(q - q0, m);
    } else if q < q0 {
      MulAtLeast(q0 - q, m);
    }
  }

  lemma MulAtLeast(k: int, m: int)
    requires k >= 1 && m > 0
    ensures k * m >= m
  {
  }

  /** Reducing modulo `m` before a multiply-and-add step does not change the result modulo `m`. */
  lemma ModMulAdd(x: nat, b: nat, c: nat, m: nat)
    requires m > 0
    ensures ((x % m) * b + c) % m == (x * b + c) % m
  {
    var q := x / m;
    assert x == q * m + x % m;
    var y := (x % m) * b + c;
    assert x * b + c == y + (q * b) * m by {
      calc {
        x * b + c;
        (q * m + x % m) * b + c;
        q * m * b + (x % m) * b + c;
      }
    }
    DivModUnique(y, m, y / m, y % m);
    DivModUnique(x * b + c, m, y / m + q * b, y % m);
  }

  /** Truncating to 32 bits and then to 16 bits is truncating to 16 bits. */
  lemma Trunc16OfTrunc32(x: int)
    ensures Trunc16(Trunc32(x)) == Trunc16(x)
  {
    var q := x / 0x1_0000_0000;
    var r := x % 0x1_0000_0000;
    DivModUnique(x, 0x1_0000, q * 0x1_0000 + r / 0x1_0000, r % 0x1_0000);
  }

  /** Truncating to 16 bits and then to 8 bits is truncating to 8 bits. */
  lemma Trunc8OfTrunc16(x: int)
    ensures Trunc8(Trunc16(x)) == Trunc8(x)
  {
    var q := x / 0x1_0000;
    var r := x % 0x1_0000;
    DivModUnique(x, 0x100, q * 0x100 + r / 0x100, r % 0x100);
  }
}
