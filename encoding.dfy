/** Byte-level encodings the tool relies on: the text form of a 256-bit hash
    (NBitcoin's uint256), UTF-8 for file paths kept in the index store, and
    decimal digits for counts and file numbers. */
module Encoding {
  import opened Wrappers

  newtype byte = x: int | 0 <= x < 256

  type Bytes = seq<byte>

  function Zeros(n: nat): (r: Bytes)
    ensures |r| == n
    ensures forall i :: 0 <= i < n ==> r[i] == 0
  {
    if n == 0 then [] else [0] + Zeros(n - 1)
  }

  /** A 256-bit hash as its 32 bytes (uint256.ToBytes()). */
  type Hash = h: Bytes | |h| == 32 witness Zeros(32)

  /** uint256.Zero, the previous-output hash of a generation input. */
  const ZeroHash: Hash := Zeros(32)

  function Reverse<T>(s: seq<T>): (r: seq<T>)
    ensures |r| == |s|
    ensures forall i :: 0 <= i < |s| ==> r[i] == s[|s| - 1 - i]
  {
    if s == [] then [] else Reverse(s[1..]) + [s[0]]
  }

  lemma ReverseReverse<T>(s: seq<T>)
    ensures Reverse(Reverse(s)) == s
  {
    assert forall i :: 0 <= i < |s| ==> Reverse(Reverse(s))[i] == s[i];
  }

  // ---------------------------------------------------------------------
  // Hexadecimal text of a hash

  function HexDigit(n: nat): (c: char)
    requires n < 16
  {
    if n < 10 then ('0' as int + n) as char else ('a' as int + n - 10) as char
  }

  /** The value of a hexadecimal digit in either case. */
  function HexValue(c: char): (r: Option<nat>)
    ensures r.Some? ==> r.value < 16
  {
    if '0' <= c <= '9' then Some(c as int - '0' as int)
    else if 'a' <= c <= 'f' then Some(c as int - 'a' as int + 10)
    else if 'A' <= c <= 'F' then Some(c as int - 'A' as int + 10)
    else None
  }

  function Hex(bs: Bytes): (t: string)
    ensures |t| == 2 * |bs|
  {
    if bs == [] then []
    else [HexDigit(bs[0] as int / 16), HexDigit(bs[0] as int % 16)] + Hex(bs[1..])
  }

  /** Hexadecimal text (an even number of digits) back to bytes. */
  function Unhex(t: string): (r: Option<Bytes>)
    ensures r.Some? ==> 2 * |r.value| == |t|
  {
    if t == [] then Some([])
    else if |t| == 1 then None
    else match (HexValue(t[0]), HexValue(t[1]), Unhex(t[2..]))
      case (Some(hi), Some(lo), Some(rest)) => Some([(16 * hi + lo) as byte] + rest)
      case _ => None
  }

  lemma {:induction false} UnhexHex(bs: Bytes)
    ensures Unhex(Hex(bs)) == Some(bs)
  {
    if bs != [] {
      var t := Hex(bs);
      var hi, lo := bs[0] as int / 16, bs[0] as int % 16;
      assert t[0] == HexDigit(hi) && t[1] == HexDigit(lo) && t[2..] == Hex(bs[1..]);
      assert HexValue(HexDigit(hi)) == Some(hi);
      assert HexValue(HexDigit(lo)) == Some(lo);
      UnhexHex(bs[1..]);
      assert [(16 * hi + lo) as byte] + bs[1..] == bs;
    }
  }

  /** uint256.ToString(): the bytes in reverse order as 64 lower-case
      hexadecimal digits. */
  function HashText(h: Hash): (t: string)
    ensures |t| == 64
  {
    Hex(Reverse(h))
  }

  /** uint256.TryParse on a 64-character string: exactly 64 hexadecimal digits
      of either case, read back in reverse byte order. */
  function ParseHash(t: string): (r: Option<Hash>)
    ensures r.Some? ==> |t| == 64
  {
    if |t| != 64 then None
    else match Unhex(t)
      case Some(bs) => Some(Reverse(bs))
      case None => None
  }

  /** Parsing the text of a hash gives the hash back. */
  lemma HashTextRoundTrip(h: Hash)
    ensures ParseHash(HashText(h)) == Some(h)
  {
    UnhexHex(Reverse(h));
    ReverseReverse(h);
  }

  /** Two hashes with the same text are the same hash. */
  lemma HashTextInjective(h1: Hash, h2: Hash)
    requires HashText(h1) == HashText(h2)
    ensures h1 == h2
  {
    HashTextRoundTrip(h1);
    HashTextRoundTrip(h2);
  }

  // ---------------------------------------------------------------------
  // Decimal digits

  type Digit = c: char | '0' <= c <= '9' witness '0'

  /** A non-empty run of decimal digits, as a `[0-9]+` capture group holds. */
  type Digits = ds: seq<Digit> | |ds| > 0 witness ['0']

  function DigitsValue(ds: seq<Digit>): (n: nat)
  {
    if ds == [] then 0
    else 10 * DigitsValue(ds[..|ds| - 1]) + (ds[|ds| - 1] as int - '0' as int)
  }

  /** int.ToString() of a non-negative number: its decimal digits, with no
      leading zero. */
  function DecimalText(n: nat): (t: seq<Digit>)
    ensures |t| > 0
    ensures |t| > 1 ==> t[0] != '0'
  {
    if n < 10 then [('0' as int + n) as char]
    else DecimalText(n / 10) + [('0' as int + n % 10) as char]
  }

  /** int.Parse reads back what ToString wrote. */
  lemma {:induction false} DecimalTextRoundTrip(n: nat)
    ensures DigitsValue(DecimalText(n)) == n
  {
    var t := DecimalText(n);
    if n >= 10 {
      DecimalTextRoundTrip(n / 10);
      assert t[..|t| - 1] == DecimalText(n / 10);
    }
  }

  // ---------------------------------------------------------------------
  // UTF-8 (Encoding.UTF8.GetBytes / GetString)

  predicate IsContinuation(b: byte) { 0x80 <= b < 0xC0 }

  /** The UTF-8 bytes of one Unicode scalar value. */
  function EncodeChar(c: char): (r: Bytes)
    ensures 1 <= |r| <= 4
  {
    var n := c as int;
    if n < 0x80 then [n as byte]
    else if n < 0x800 then [(0xC0 + n / 64) as byte, (0x80 + n % 64) as byte]
    else if n < 0x10000 then
      [(0xE0 + n / 4096) as byte, (0x80 + n / 64 % 64) as byte, (0x80 + n % 64) as byte]
    else
      [(0xF0 + n / 262144) as byte, (0x80 + n / 4096 % 64) as byte,
       (0x80 + n / 64 % 64) as byte, (0x80 + n % 64) as byte]
  }

  function Utf8Encode(s: string): (r: Bytes)
    ensures s == [] <==> r == []
  {
    if s == [] then [] else EncodeChar(s[0]) + Utf8Encode(s[1..])
  }

  const ReplacementChar: char := 0xFFFD as char

  predicate IsScalar(n: int) { 0 <= n < 0xD800 || 0xE000 <= n < 0x110000 }

  /** The first character of a byte sequence and the number of bytes it
      takes; a byte that does not start a well-formed, shortest-form
      sequence decodes to U+FFFD and takes one byte. */
  function DecodeFirst(bs: Bytes): (r: (char, nat))
    requires |bs| > 0
    ensures 1 <= r.1 <= |bs|
  {
    var b0 := bs[0] as int;
    if b0 < 0x80 then (b0 as char, 1)
    else if 0xC2 <= b0 < 0xE0 && |bs| >= 2 && IsContinuation(bs[1]) then
      (((b0 - 0xC0) * 64 + (bs[1] as int - 0x80)) as char, 2)
    else if 0xE0 <= b0 < 0xF0 && |bs| >= 3 && IsContinuation(bs[1]) && IsContinuation(bs[2]) then
      var n := (b0 - 0xE0) * 4096 + (bs[1] as int - 0x80) * 64 + (bs[2] as int - 0x80);
      if 0x800 <= n && IsScalar(n) then (n as char, 3) else (ReplacementChar, 1)
    else if 0xF0 <= b0 < 0xF5 && |bs| >= 4 && IsContinuation(bs[1]) && IsContinuation(bs[2])
            && IsContinuation(bs[3]) then
      var n := (b0 - 0xF0) * 262144 + (bs[1] as int - 0x80) * 4096
               + (bs[2] as int - 0x80) * 64 + (bs[3] as int - 0x80);
      if 0x10000 <= n && IsScalar(n) then (n as char, 4) else (ReplacementChar, 1)
    else (ReplacementChar, 1)
  }

  function Utf8Decode(bs: Bytes): (s: string)
    decreases |bs|
  {
    if bs == [] then []
    else
      var (c, len) := DecodeFirst(bs);
      [c] + Utf8Decode(bs[len..])
  }

  lemma DivMod64(n: int)
    requires n >= 0
    ensures n == (n / 64) * 64 + n % 64
    ensures n / 64 / 64 == n / 4096
    ensures n / 4096 / 64 == n / 262144
  {
  }

  /** The bytes of one character decode to that character, whatever follows. */
  lemma DecodeEncodeChar(c: char, rest: Bytes)
    ensures DecodeFirst(EncodeChar(c) + rest) == (c, |EncodeChar(c)|)
  {
    var n := c as int;
    var bs := EncodeChar(c) + rest;
    DivMod64(n);
    DivMod64(n / 64);
    DivMod64(n / 4096);
    if n < 0x80 {
    } else if n < 0x800 {
      assert bs[0] as int == 0xC0 + n / 64 && bs[1] as int == 0x80 + n % 64;
      assert (bs[0] as int - 0xC0) * 64 + (bs[1] as int - 0x80) == n;
    } else if n < 0x10000 {
      assert bs[0] as int == 0xE0 + n / 4096;
      assert bs[1] as int == 0x80 + n / 64 % 64 && bs[2] as int == 0x80 + n % 64;
      assert (bs[0] as int - 0xE0) * 4096 + (bs[1] as int - 0x80) * 64 + (bs[2] as int - 0x80) == n;
    } else {
      assert bs[0] as int == 0xF0 + n / 262144;
      assert bs[1] as int == 0x80 + n / 4096 % 64;
      assert bs[2] as int == 0x80 + n / 64 % 64 && bs[3] as int == 0x80 + n % 64;
      assert (bs[0] as int - 0xF0) * 262144 + (bs[1] as int - 0x80) * 4096
             + (bs[2] as int - 0x80) * 64 + (bs[3] as int - 0x80) == n;
    }
  }

  /** GetString(GetBytes(s)) == s: a path stored as UTF-8 reads back unchanged. */
  lemma {:induction false} Utf8RoundTrip(s: string)
    ensures Utf8Decode(Utf8Encode(s)) == s
  {
    if s != [] {
      var e := EncodeChar(s[0]);
      var rest := Utf8Encode(s[1..]);
      DecodeEncodeChar(s[0], rest);
      assert (e + rest)[|e|..] == rest;
      Utf8RoundTrip(s[1..]);
    }
  }
}
