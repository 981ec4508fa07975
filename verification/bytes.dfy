/** Octets and the fixed-width integers that the protocol puts on the wire in network byte order. */
module Bytes {

  type byte = b: int | 0 <= b < 0x100

  function U16(s: seq<byte>): (n: int)
    requires |s| >= 2
    ensures 0 <= n < 0x1_0000
  {
    var high: int := s[0];
    high * 0x100 + s[1]
  }

  function U32(s: seq<byte>): (n: int)
    requires |s| >= 4
    ensures 0 <= n < 0x1_0000_0000
  {
    var a: int, b: int, c: int := s[0], s[1], s[2];
    a * 0x100_0000 + b * 0x1_0000 + c * 0x100 + s[3]
  }

  /** The low 16 bits of `n`, most significant byte first: a wider value is truncated. */
  function Be16(n: nat): (s: seq<byte>)
    ensures |s| == 2 && U16(s) == n % 0x1_0000
  {
    var low := n % 0x1_0000;
    [low / 0x100, low % 0x100]
  }

  /** The low 32 bits of `n`, most significant byte first: a wider value is truncated. */
  function Be32(n: nat): (s: seq<byte>)
    ensures |s| == 4 && U32(s) == n % 0x1_0000_0000
  {
    var low := n % 0x1_0000_0000;
    Be16(low / 0x1_0000) + Be16(low % 0x1_0000)
  }

  lemma Quarters(m: nat)
    ensures m / 0x1_0000 / 0x100 == m / 0x100_0000
    ensures m % 0x1_0000 / 0x100 == m / 0x100 % 0x100 && m % 0x1_0000 % 0x100 == m % 0x100
  {
    var q, r := m / 0x1_0000, m % 0x1_0000;
    var a, b := r / 0x100, r % 0x100;
    assert m == (q * 0x100 + a) * 0x100 + b;
    assert m / 0x100 == q * 0x100 + a && m % 0x100 == b;
  }

  lemma Be16Order(n: nat)
    ensures var m := n % 0x1_0000; Be16(n) == [m / 0x100, m % 0x100]
  {
  }

  lemma Be32Order(n: nat)
    ensures var m := n % 0x1_0000_0000;
            Be32(n) == [m / 0x100_0000, m / 0x1_0000 % 0x100, m / 0x100 % 0x100, m % 0x100]
  {
    var m := n % 0x1_0000_0000;
    Be16Order(m / 0x1_0000);
    Be16Order(m % 0x1_0000);
    Quarters(m);
    SmallMod(m);
    hide Be16;
  }

  lemma SmallMod(m: nat)
    requires m < 0x1_0000_0000
    ensures m / 0x1_0000 % 0x1_0000 == m / 0x1_0000 && m % 0x1_0000 % 0x1_0000 == m % 0x1_0000
  {
  }

  /** Most significant byte first, in both directions. */
  lemma NetworkOrder(n: nat, a: byte, b: byte, c: byte, d: byte)
    ensures var m := n % 0x1_0000; Be16(n) == [m / 0x100, m % 0x100]
    ensures var m := n % 0x1_0000_0000;
            Be32(n) == [m / 0x100_0000, m / 0x1_0000 % 0x100, m / 0x100 % 0x100, m % 0x100]
    ensures U16([a, b]) == a * 0x100 + b
    ensures U32([a, b, c, d]) == a * 0x100_0000 + b * 0x1_0000 + c * 0x100 + d
  {
    Be16Order(n);
    Be32Order(n);
    hide Be16, Be32;
  }

  /** A number is determined by the bytes it is read from. */
  lemma Be16OfU16(s: seq<byte>)
    requires |s| >= 2
    ensures Be16(U16(s)) == s[..2]
  {
    var n := U16(s);
    assert n / 0x100 == s[0] && n % 0x100 == s[1];
  }

  lemma U32Halves(s: seq<byte>)
    requires |s| >= 4
    ensures U32(s) == U16(s) * 0x1_0000 + U16(s[2..])
  {
  }

  lemma Be32OfHalves(high: nat, low: nat)
    requires high < 0x1_0000 && low < 0x1_0000
    ensures Be32(high * 0x1_0000 + low) == Be16(high) + Be16(low)
  {
    hide Be16, U16, U32;
    var n := high * 0x1_0000 + low;
    assert n / 0x1_0000 == high && n % 0x1_0000 == low;
  }

  lemma Be32OfU32(s: seq<byte>)
    requires |s| >= 4
    ensures Be32(U32(s)) == s[..4]
  {
    hide U16, U32, Be16, Be32;
    U32Halves(s);
    Be32OfHalves(U16(s), U16(s[2..]));
    Be16OfU16(s);
    Be16OfU16(s[2..]);
    assert s[..2] + s[2..][..2] == s[..4];
  }

  function Min(a: int, b: int): int {
    if a <= b then a else b
  }

  datatype Option<+T> = None | Some(value: T)

  lemma Assoc<T>(x: seq<T>, y: seq<T>, z: seq<T>)
    ensures (x + y) + z == x + (y + z)
  {
  }

  lemma ConsAppend<T>(x: seq<T>, y: seq<T>)
    requires x != []
    ensures [x[0]] + (x[1..] + y) == x + y
  {
  }
}
