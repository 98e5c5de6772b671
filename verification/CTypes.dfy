/**
The C-level values the printer works on: integer widths and their conversions,
NUL-terminated strings, and the variable argument list.
 */
module CTypes {
  const INT_MAX: int := 0x7FFF_FFFF
  const NUL: char := '\0'

  function Max(x: int, y: int): int { if x >= y then x else y }

  function Min(x: int, y: int): int { if x <= y then x else y }

  /** The integer widths of C; conversions wrap modulo 2^width. */
  datatype Width = W8 | W16 | W32 | W64

  function Modulus(w: Width): int {
    match w
    case W8 => 0x100
    case W16 => 0x1_0000
    case W32 => 0x1_0000_0000
    case W64 => 0x1_0000_0000_0000_0000
  }

  function AsUnsigned(x: int, w: Width): (u: int)
    ensures 0 <= u < Modulus(w)
  {
    x % Modulus(w)
  }

  function AsSigned(x: int, w: Width): (v: int)
    ensures -Modulus(w) <= 2 * v < Modulus(w)
  {
    var u := AsUnsigned(x, w);
    if 2 * u < Modulus(w) then u else u - Modulus(w)
  }

  /** Widening an unsigned value to a wider signed type and back is lossless. */
  lemma UnsignedThroughSigned64(x: int)
    ensures AsUnsigned(AsSigned(x, W64), W64) == AsUnsigned(x, W64)
  {
  }

  function FirstNul(s: seq<char>): (n: nat)
    ensures n <= |s| && NUL !in s[..n]
    ensures n < |s| ==> s[n] == NUL
  {
    if s == [] || s[0] == NUL then 0 else
      var rest := s[1..];
      assert s == [s[0]] + rest;
      var n := 1 + FirstNul(rest);
      assert s[..n] == [s[0]] + rest[..n - 1];
      n
  }

  /** The characters before the first NUL. */
  function Text(s: seq<char>): (t: string)
    ensures NUL !in t
  {
    s[..FirstNul(s)]
  }

  /** Memory a `char *` points at: readable up to and including a NUL. */
  type CStr = s: seq<char> | NUL in s witness ['\0']

  /**
  The part of the platform ABI the printer depends on. `long`, and with it PTRDIFF_T and
  UINTPTR_T, `size_t`, and with it pointers, and `ptrdiff_t`, which only C99 speaks of, are 32 or 64 bits wide.
   */
  datatype Abi = Abi(wideLong: bool, wideSize: bool, widePtrdiff: bool) {
    function Long(): Width { if wideLong then W64 else W32 }

    function Size(): Width { if wideSize then W64 else W32 }

    function Ptrdiff(): Width { if widePtrdiff then W64 else W32 }
  }

  /** One argument: the word passed, and the string it points at when it is used as a `char *`. */
  datatype Slot = Slot(word: int, text: CStr)

  /** A `va_list`: the argument words in order. What lies past the arguments passed is arbitrary. */
  type VaList = nat -> Slot
}
