/** `bytes.hex()` and `bytes.fromhex()`. */
module Hex {
  import opened Wrappers
  import opened Utf8

  const HexDigits: string := "0123456789abcdef"

  /** `bytes.hex()`: two lower-case hexadecimal digits per byte. */
  function ToHex(b: seq<byte>): (r: string)
    ensures |r| == 2 * |b|
  {
    if b == [] then "" else [HexDigits[b[0] / 16], HexDigits[b[0] % 16]] + ToHex(b[1..])
  }

  /** The value of a hexadecimal digit of either case. */
  function HexValue(c: char): (r: Option<nat>)
    ensures r.Some? ==> r.value < 16
  {
    if '0' <= c <= '9' then Some(c as int - '0' as int)
    else if 'a' <= c <= 'f' then Some(c as int - 'a' as int + 10)
    else if 'A' <= c <= 'F' then Some(c as int - 'A' as int + 10)
    else None
  }

  /** The ASCII whitespace `bytes.fromhex` skips between byte pairs. */
  predicate IsAsciiSpace(c: char) {
    c == ' ' || ('\t' <= c <= '\r')
  }

  /** `bytes.fromhex(s)`; `None` stands for the `ValueError` it raises. Whitespace may
      precede any pair, but never splits one. */
  function FromHex(s: string): Option<seq<byte>>
    decreases |s|
  {
    if s == [] then Some([])
    else if IsAsciiSpace(s[0]) then FromHex(s[1..])
    else if |s| < 2 then None
    else
      match (HexValue(s[0]), HexValue(s[1]))
      case (Some(hi), Some(lo)) =>
        (match FromHex(s[2..])
         case None => None
         case Some(rest) => Some([hi * 16 + lo] + rest))
      case _ => None
  }

  lemma HexDigitValue(n: nat)
    requires n < 16
    ensures HexValue(HexDigits[n]) == Some(n)
  {
  }

  /** The two digits `hex` writes for one byte read back as that byte. */
  lemma BytePair(x: byte)
    ensures HexValue(HexDigits[x / 16]) == Some(x / 16) && HexValue(HexDigits[x % 16]) == Some(x % 16)
    ensures !IsAsciiSpace(HexDigits[x / 16])
    ensures (x / 16) * 16 + x % 16 == x
  {
    HexDigitValue(x / 16);
    HexDigitValue(x % 16);
  }

  /** A leading pair of digits is one byte in front of the rest. */
  lemma FromHexPair(c0: char, c1: char, rest: string, hi: nat, lo: nat)
    requires !IsAsciiSpace(c0) && HexValue(c0) == Some(hi) && HexValue(c1) == Some(lo)
    ensures FromHex([c0, c1] + rest) ==
      match FromHex(rest) case None => None case Some(t) => Some([hi * 16 + lo] + t)
  {
    var s := [c0, c1] + rest;
    assert s[0] == c0 && s[1] == c1 && s[2..] == rest;
  }

  /** `bytes.fromhex(b.hex()) == b`. */
  lemma {:induction false} FromHexToHex(b: seq<byte>)
    ensures FromHex(ToHex(b)) == Some(b)
    decreases |b|
  {
    if b != [] {
      var x := b[0];
      BytePair(x);
      FromHexPair(HexDigits[x / 16], HexDigits[x % 16], ToHex(b[1..]), x / 16, x % 16);
      FromHexToHex(b[1..]);
      assert [x] + b[1..] == b;
    }
  }
}
