/** Vocabulary shared by every module of the model. */
module Common {

  type byte = x: int | 0 <= x < 0x100
  type u16 = x: int | 0 <= x < 0x1_0000
  type u32 = x: int | 0 <= x < 0x1_0000_0000

  datatype Option<+T> = None | Some(value: T)

  function Min(a: int, b: int): int { if a <= b then a else b }

  function Max(a: int, b: int): int { if a >= b then a else b }

  function CeilDiv(a: nat, b: nat): nat
    requires b > 0
  { (a + b - 1) / b }

  /** Quotient and remainder are determined by the division equation. */
  lemma DivModUnique(x: int, n: int, q: int, r: int)
    requires n > 0 && x == q * n + r && 0 <= r < n
    ensures x / n == q && x % n == r
  {
    var d := x / n - q;
    assert d * n == r - x % n;
    if d >= 1 {
      MulAtLeast(d, n);
      assert false;
    } else if d <= -1 {
      MulAtLeast(-d, n);
      assert false;
    }
  }

  lemma Divide(x: int, n: int) returns (q: int, r: int)
    requires n > 0
    ensures x == q * n + r && 0 <= r < n && q == x / n && r == x % n
  {
    q, r := x / n, x % n;
  }

  lemma MulAtLeast(d: int, n: int)
    requires d >= 1 && n > 0
    ensures d * n >= n
  {
    assert (d - 1) * n >= 0;
  }

  /** The four bytes of a 32-bit word in network order. */
  function BigEndian4(id: u32): (r: seq<byte>)
    ensures |r| == 4
  {
    [id / 0x100_0000 % 256, id / 0x1_0000 % 256, id / 0x100 % 256, id % 256]
  }

  function Word4(s: seq<byte>): u32
    requires |s| >= 4
  {
    ((s[0] as int * 0x100 + s[1]) * 0x100 + s[2]) * 0x100 + s[3]
  }

  lemma Word4OfBigEndian4(id: u32)
    ensures Word4(BigEndian4(id)) == id
  {
    assert id / 0x100 / 0x100 == id / 0x1_0000;
    assert id / 0x1_0000 / 0x100 == id / 0x100_0000;
  }

  lemma Word4Same(s: seq<byte>, t: seq<byte>)
    requires |s| >= 4 && |t| >= 4 && forall k :: 0 <= k < 4 ==> s[k] == t[k]
    ensures Word4(s) == Word4(t)
  {
  }
}
