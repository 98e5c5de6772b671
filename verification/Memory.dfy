/** Big-endian byte memory. */
module Memory {
  type Byte = b: int | 0 <= b < 0x100

  type Word32 = w: int | 0 <= w < 0x1_0000_0000

  type Mem = int -> Byte

  /** The four bytes of a word, most significant first. */
  function WordBytes(w: Word32): (bs: seq<Byte>)
    ensures |bs| == 4
  {
    var h := w / 0x100;
    var hh := h / 0x100;
    [hh / 0x100, hh % 0x100, h % 0x100, w % 0x100]
  }

  function BytesWord(a: Byte, b: Byte, c: Byte, d: Byte): Word32 {
    ((a * 0x100 + b) * 0x100 + c) * 0x100 + d
  }

  /** The byte at the lowest address counts most. */
  lemma BigEndian(a: Byte, b: Byte, c: Byte, d: Byte)
    ensures BytesWord(a, b, c, d) == 0x100_0000 * a + 0x1_0000 * b + 0x100 * c + d
    ensures WordBytes(0x100_0000 * a + 0x1_0000 * b + 0x100 * c + d) == [a, b, c, d]
  {
    BytesRoundTrip(a, b, c, d);
    hide WordBytes;
  }

  lemma WordRoundTrip(w: Word32)
    ensures var bs := WordBytes(w); BytesWord(bs[0], bs[1], bs[2], bs[3]) == w
  {
  }

  lemma BytesRoundTrip(a: Byte, b: Byte, c: Byte, d: Byte)
    ensures WordBytes(BytesWord(a, b, c, d)) == [a, b, c, d]
  {
    var w := BytesWord(a, b, c, d);
    assert w / 0x100 == (a * 0x100 + b) * 0x100 + c;
    assert w / 0x100 / 0x100 == a * 0x100 + b;
  }

  function Word(m: Mem, a: int): Word32 { BytesWord(m(a), m(a + 1), m(a + 2), m(a + 3)) }

  function Bytes(m: Mem, a: int, n: nat): seq<Byte> { seq(n, i => m(a + i)) }

  /** `memcpy` of a byte string into memory. */
  function Write(m: Mem, at: int, bs: seq<Byte>): Mem {
    (a: int) => if at <= a < at + |bs| then bs[a - at] else m(a)
  }

  ghost predicate Same(m: Mem, n: Mem) { forall a :: m(a) == n(a) }

  /** The ranges [a, a + n) and [b, b + k) share no byte. */
  predicate Apart(a: int, n: nat, b: int, k: nat) { a + n <= b || b + k <= a }

  lemma WordOfBytes(m: Mem, a: int, bs: seq<Byte>, i: nat)
    requires Bytes(m, a, |bs|) == bs && i + 4 <= |bs|
    ensures Word(m, a + i) == BytesWord(bs[i], bs[i + 1], bs[i + 2], bs[i + 3])
  {
    var all := Bytes(m, a, |bs|);
    assert all[i] == m(a + i) && all[i + 1] == m(a + (i + 1)) && all[i + 2] == m(a + (i + 2))
           && all[i + 3] == m(a + (i + 3));
  }
}
