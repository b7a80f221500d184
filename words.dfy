/** Go's fixed-width integers as used by stackblur.go, and the three
    conversions a channel value goes through: NRGBA.RGBA(), to8b and the
    final uint8(...) narrowing. */
module Words {

  /** A stored 8-bit channel value of an NRGBA pixel. */
  newtype uint8 = x: int | 0 <= x < 0x100

  /** Go's uint32: the type of every accumulator and of every ring slot.
      Arithmetic on it is checked never to leave the range, so each update
      of an accumulator carries the proof that it does not wrap. */
  newtype uint32 = x: int | 0 <= x < 0x1_0000_0000

  /** The 16-bit value NRGBA.RGBA() reports for a stored byte `v` of the
      alpha channel (and of any channel of an opaque pixel): `v` copied
      into both bytes, so its high byte and its low byte are both `v`. */
  function Rgba16(v: uint8): (c: uint32)
    ensures c as int / 0x100 == v as int
    ensures c as int % 0x100 == v as int
    ensures c as int < 0x1_0000
  {
    (v as int * 0x101) as uint32
  }

  /** to8b: keeps the low byte of a 32-bit value. */
  function To8b(c: uint32): (b: uint32)
    ensures b < 0x100
    ensures c < 0x100 ==> b == c
    ensures (c as int - b as int) % 0x100 == 0
  {
    (c as int % 0x100) as uint32
  }

  /** Reading a stored byte back through RGBA() and to8b gives the byte. */
  lemma To8bOfRgba16(v: uint8)
    ensures To8b(Rgba16(v)) as int == v as int
  {
  }

  /** Go's conversion uint8(x) of a non-negative value: it keeps the low
      8 bits, so it wraps silently above 255. */
  function Narrow8(x: nat): (b: uint8)
    ensures x < 0x100 ==> b as int == x
    ensures (x - b as int) % 0x100 == 0
  {
    (x % 0x100) as uint8
  }

  /** Go's uint32 division: the quotient rounded toward zero, the largest
      `q` with `q * b <= a`. */
  function Div32(a: uint32, b: uint32): (q: uint32)
    requires b != 0
    ensures q as int * b as int <= a as int < (q as int + 1) * b as int
  {
    var q := a / b;
    assert a as int == q as int * b as int + a as int % b as int;
    q
  }

  /** Only one quotient brackets `a` that way: it is `a / b`. */
  lemma QuotientUnique(a: int, b: int, q: int)
    requires b > 0 && q * b <= a < (q + 1) * b
    ensures q == a / b
  {
    var d := a / b;
    assert d * b <= a < (d + 1) * b;
    if q < d {
      MulLe(q + 1, d, b);
    } else if d < q {
      MulLe(d + 1, q, b);
    }
  }

  lemma MulLe(x: int, y: int, b: int)
    requires b > 0 && x <= y
    ensures x * b <= y * b
  {
  }

}
