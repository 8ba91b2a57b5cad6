/** Bytes, as values below 256. */
module Bytes {
  type Byte = b: nat | b < 256
}

/** Characters, and the bytes that stand for them. */
module Characters {
  import opened Bytes

  predicate IsBlank(c: char) { c == ' ' || c == '\t' }

  predicate IsDigit(c: char) { '0' <= c <= '9' }

  function DigitValue(c: char): (d: nat)
    requires IsDigit(c)
    ensures d < 10 && DigitChar(d) == c
  {
    c as int - '0' as int
  }

  function DigitChar(d: nat): char { if d < 10 then ('0' as int + d) as char else '?' }

  predicate IsDigitByte(b: Byte) { IsDigit(b as char) }

  function DigitByteValue(b: Byte): nat
    requires IsDigitByte(b)
  {
    DigitValue(b as char)
  }

  function DigitByte(d: nat): Byte { DigitChar(d) as int }
}

/** The sixteen colours of a text screen. */
module Palette {
  type Nibble = n: nat | n < 16

  function Bright(n: Nibble): Nibble { if n < 8 then n + 8 else n }
}

/** Values kept within bounds. */
module Ranges {
  function Clamp(v: int, top: nat): (r: nat)
    ensures r <= top && (0 <= v <= top ==> r == v)
  {
    if v < 0 then 0 else if v > top then top else v
  }
}

/** Copies into buffers of a fixed size. */
module Buffers {
  /** Characters copied with a terminator into a buffer of `size` bytes: as many from
      the start as leave room for it. */
  function Cut<T>(s: seq<T>, size: nat): (r: seq<T>)
    requires 0 < size
    ensures r <= s && |r| < size && (r != s ==> |r| + 1 == size)
  {
    if |s| < size then s else s[..size - 1]
  }
}

/** Numbers in decimal, as printf writes them. */
module Numerals {
  import opened Characters

  /** `n` with its digits written by `digit`. */
  function Numeral<T>(n: nat, digit: nat -> T): (s: seq<T>)
    ensures |s| > 0 && forall i :: 0 <= i < |s| ==> exists d :: 0 <= d < 10 && s[i] == digit(d)
  {
    if n < 10 then [digit(n)] else Numeral(n / 10, digit) + [digit(n % 10)]
  }

  function Decimal(n: nat): (s: string)
    ensures s != ""
  {
    Numeral(n, DigitChar)
  }
}
