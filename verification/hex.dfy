/**
 * Conversion between bytes and hexadecimal text. The encoder writes two
 * uppercase hexadecimal digits per byte, high nibble first; the decoder reads
 * two digits per byte in either case.
 */
module Hex {
  import opened ChangesetFormat

  datatype Option<T> = None | Some(value: T)

  predicate IsUpperHexDigit(c: char) {
    '0' <= c <= '9' || 'A' <= c <= 'F'
  }

  predicate IsHexDigit(c: char) {
    IsUpperHexDigit(c) || 'a' <= c <= 'f'
  }

  /** The value of a hexadecimal digit of either case, or None for any other character. */
  function DigitValue(c: char): (r: Option<int>)
    ensures r.Some? <==> IsHexDigit(c)
    ensures r.Some? ==> 0 <= r.value < 16
  {
    if '0' <= c <= '9' then Some(c as int - '0' as int)
    else if 'A' <= c <= 'F' then Some(c as int - 'A' as int + 10)
    else if 'a' <= c <= 'f' then Some(c as int - 'a' as int + 10)
    else None
  }

  /** The uppercase digit for a nibble; decoding it gives the nibble back. */
  function HexDigit(n: int): (c: char)
    requires 0 <= n < 16
    ensures IsUpperHexDigit(c) && DigitValue(c) == Some(n)
  {
    if n < 10 then ('0' as int + n) as char else ('A' as int + n - 10) as char
  }

  /** Encodes bytes as hexadecimal text: two uppercase digits per byte. */
  function Bin2Hex(b: seq<byte>): (s: string)
    ensures |s| == 2 * |b|
    ensures forall i :: 0 <= i < |s| ==> IsUpperHexDigit(s[i])
  {
    if b == [] then ""
    else [HexDigit(b[0] as int / 16), HexDigit(b[0] as int % 16)] + Bin2Hex(b[1..])
  }

  /**
   * Decodes hexadecimal text of either case into bytes. Text of odd length or
   * holding a character that is not a hexadecimal digit is rejected.
   */
  function Hex2Bin(s: string): (r: Option<seq<byte>>)
    ensures r.Some? <==> |s| % 2 == 0 && forall i :: 0 <= i < |s| ==> IsHexDigit(s[i])
    ensures r.Some? ==> 2 * |r.value| == |s|
    decreases |s|
  {
    if |s| == 0 then Some([])
    else if |s| == 1 then None
    else
      match (DigitValue(s[0]), DigitValue(s[1]), Hex2Bin(s[2..]))
      case (Some(hi), Some(lo), Some(rest)) => Some([(hi * 16 + lo) as byte] + rest)
      case _ => None
  }

  /** Decoding the encoding of any bytes gives those bytes back. */
  lemma {:induction false} Hex2BinOfBin2Hex(b: seq<byte>)
    ensures Hex2Bin(Bin2Hex(b)) == Some(b)
  {
    if b != [] {
      var s := Bin2Hex(b);
      var hi, lo := b[0] as int / 16, b[0] as int % 16;
      assert s[2..] == Bin2Hex(b[1..]);
      Hex2BinOfBin2Hex(b[1..]);
      assert DigitValue(s[0]) == Some(hi) && DigitValue(s[1]) == Some(lo);
      assert (hi * 16 + lo) as byte == b[0];
      assert [b[0]] + b[1..] == b;
    }
  }

  /** ASCII case mapping of one character; every other character is left alone. */
  function ToUpper(c: char): char {
    if 'a' <= c <= 'z' then (c as int - 32) as char else c
  }

  function ToLower(c: char): char {
    if 'A' <= c <= 'Z' then (c as int + 32) as char else c
  }

  function UpperString(s: string): string
  {
    seq(|s|, i requires 0 <= i < |s| => ToUpper(s[i]))
  }

  function LowerString(s: string): string
  {
    seq(|s|, i requires 0 <= i < |s| => ToLower(s[i]))
  }

  /** Encoding what some text decodes to gives that text back, in uppercase. */
  lemma {:induction false} Bin2HexOfHex2Bin(s: string)
    requires Hex2Bin(s).Some?
    ensures Bin2Hex(Hex2Bin(s).value) == UpperString(s)
  {
    if |s| > 0 {
      var b := Hex2Bin(s).value;
      assert Hex2Bin(s[2..]).Some?;
      Bin2HexOfHex2Bin(s[2..]);
      var hi, lo := DigitValue(s[0]).value, DigitValue(s[1]).value;
      assert b == [(hi * 16 + lo) as byte] + Hex2Bin(s[2..]).value;
      assert b[1..] == Hex2Bin(s[2..]).value;
      assert b[0] as int / 16 == hi && b[0] as int % 16 == lo;
      assert HexDigit(hi) == ToUpper(s[0]);
      assert HexDigit(lo) == ToUpper(s[1]);
      assert UpperString(s) == [ToUpper(s[0]), ToUpper(s[1])] + UpperString(s[2..]);
    }
  }

  /** A character is a digit of a given value exactly when its other-case form is. */
  lemma DigitValueCaseInsensitive(c: char)
    ensures DigitValue(ToLower(c)) == DigitValue(c) == DigitValue(ToUpper(c))
  {
  }

  /** The decoder ignores the case of its input: upper, lower or mixed case decode alike. */
  lemma {:induction false} Hex2BinCaseInsensitive(s: string)
    ensures Hex2Bin(LowerString(s)) == Hex2Bin(s) == Hex2Bin(UpperString(s))
    decreases |s|
  {
    if |s| >= 2 {
      var lower, upper := LowerString(s), UpperString(s);
      assert lower[2..] == LowerString(s[2..]);
      assert upper[2..] == UpperString(s[2..]);
      Hex2BinCaseInsensitive(s[2..]);
      DigitValueCaseInsensitive(s[0]);
      DigitValueCaseInsensitive(s[1]);
    }
  }
}
