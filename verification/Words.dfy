/** Machine words of the original, written out over unbounded integers. */
module Words {

  const TWO32: int := 0x1_0000_0000
  const TWO63: int := 0x8000_0000_0000_0000
  const TWO64: int := 0x1_0000_0000_0000_0000

  type uint32 = x: int | 0 <= x < TWO32
  type uint64 = x: int | 0 <= x < TWO64
  type int64 = x: int | -TWO63 <= x < TWO63

  datatype Option<+T> = None | Some(value: T)

  /** Unsigned increment with wrap-around. */
  function Succ32(x: uint32): uint32 {
    if x == TWO32 - 1 then 0 else x + 1
  }

  function Succ64(x: uint64): uint64 {
    if x == TWO64 - 1 then 0 else x + 1
  }

  /** Two's complement reduction of an integer to 64 bits. */
  function Wrap64(x: int): int64 {
    var m := x % TWO64;
    if m < TWO63 then m else m - TWO64
  }

  function Min(a: int, b: int): int {
    if a <= b then a else b
  }

  lemma ModUnique(a: int, d: int, q: int, r: int)
    requires 0 < d && a == q * d + r && 0 <= r < d
    ensures a % d == r
  {
    var k := a / d - q;
    assert k * d == r - a % d;
    assert k >= 1 ==> k * d >= d;
    assert k <= -1 ==> k * d <= -d;
  }

  lemma CongruentIff(a: int, b: int, d: int)
    requires 0 < d
    ensures a % d == b % d <==> (a - b) % d == 0
  {
    var p, q, r := a / d, b / d, (a - b) / d;
    assert a == p * d + a % d && b == q * d + b % d;
    if a % d == b % d {
      assert a - b == (p - q) * d + 0;
      ModUnique(a - b, d, p - q, 0);
    }
    if (a - b) % d == 0 {
      assert a - b == r * d;
      assert a == (q + r) * d + b % d;
      ModUnique(a, d, q + r, b % d);
    }
  }
}
