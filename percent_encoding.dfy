/**
 * Percent-encoding of raw bytes as section 2.1 of RFC 3986 defines it, with the
 * unreserved set of section 2.3 (`A-Z a-z 0-9 - . _ ~`) left as it is and every
 * other byte written as '%' followed by two upper-case hexadecimal digits.
 * It stands in for `urlencoding::encode_binary`, whose code is not part of this
 * model, applied to the info-hash and the peer id.
 */
module PercentEncoding {
  import opened Wrappers
  import opened Primitives

  /** The unreserved characters of section 2.3 of RFC 3986. */
  predicate IsUnreserved(c: char) {
    || ('A' <= c <= 'Z')
    || ('a' <= c <= 'z')
    || ('0' <= c <= '9')
    || c == '-' || c == '.' || c == '_' || c == '~'
  }

  /** A hexadecimal digit, in either case (section 2.1 makes them equivalent). */
  predicate IsHexDigit(c: char) {
    ('0' <= c <= '9') || ('A' <= c <= 'F') || ('a' <= c <= 'f')
  }

  predicate IsUpperHexDigit(c: char) {
    ('0' <= c <= '9') || ('A' <= c <= 'F')
  }

  /** The upper-case hexadecimal digit that producers should emit (section 2.1). */
  function HexDigit(d: nat): (c: char)
    requires d < 16
    ensures IsUpperHexDigit(c)
  {
    if d < 10 then ('0' as int + d) as char else ('A' as int + d - 10) as char
  }

  function HexValue(c: char): (d: nat)
    requires IsHexDigit(c)
    ensures d < 16
  {
    if '0' <= c <= '9' then c as int - '0' as int
    else if 'A' <= c <= 'F' then c as int - 'A' as int + 10
    else c as int - 'a' as int + 10
  }

  /** One byte: itself when it is an unreserved character, else a percent-triplet. */
  function EncodeByte(b: byte): (s: string)
    ensures (|s| == 1 && IsUnreserved(s[0])) || (|s| == 3 && s[0] == '%' && IsUpperHexDigit(s[1]) && IsUpperHexDigit(s[2]))
  {
    var c := b as char;
    if IsUnreserved(c) then [c] else ['%', HexDigit(b / 16), HexDigit(b % 16)]
  }

  /** Every byte encoded, in order; the stand-in for `urlencoding::encode_binary`. */
  function PercentEncode(bs: seq<byte>): string {
    if bs == [] then [] else EncodeByte(bs[0]) + PercentEncode(bs[1..])
  }

  /**
   * Decoding: a percent-triplet gives the byte its two digits denote, an
   * unreserved character gives its own code; anything else is malformed.
   */
  function PercentDecode(s: string): Option<seq<byte>>
    decreases |s|
  {
    if s == [] then Some([])
    else if s[0] == '%' then
      if |s| >= 3 && IsHexDigit(s[1]) && IsHexDigit(s[2]) then
        match PercentDecode(s[3..])
        case Some(rest) => Some([16 * HexValue(s[1]) + HexValue(s[2])] + rest)
        case None => None
      else None
    else if IsUnreserved(s[0]) then
      match PercentDecode(s[1..])
      case Some(rest) => Some([s[0] as int] + rest)
      case None => None
    else None
  }

  /** Decoding one encoded byte, then the rest. */
  lemma DecodeEncodedByte(b: byte, rest: string)
    ensures PercentDecode(EncodeByte(b) + rest) ==
      match PercentDecode(rest)
      case Some(bs) => Some([b] + bs)
      case None => None
  {
  }

  /** Decoding an encoding gives back exactly the original bytes. */
  lemma {:induction false} DecodeEncode(bs: seq<byte>)
    ensures PercentDecode(PercentEncode(bs)) == Some(bs)
  {
    if bs != [] {
      DecodeEncode(bs[1..]);
      DecodeEncodedByte(bs[0], PercentEncode(bs[1..]));
      assert [bs[0]] + bs[1..] == bs;
    }
  }

  /** Two byte strings with the same encoding are equal. */
  lemma EncodeInjective(a: seq<byte>, b: seq<byte>)
    requires PercentEncode(a) == PercentEncode(b)
    ensures a == b
  {
    DecodeEncode(a);
    DecodeEncode(b);
  }

  /**
   * The encoding is safe to put into a query string: every character is
   * unreserved, a '%', or an upper-case hexadecimal digit.
   */
  lemma {:induction false} EncodeIsUriSafe(bs: seq<byte>)
    ensures forall i | 0 <= i < |PercentEncode(bs)| ::
      IsUnreserved(PercentEncode(bs)[i]) || PercentEncode(bs)[i] == '%' || IsUpperHexDigit(PercentEncode(bs)[i])
  {
    if bs != [] {
      EncodeIsUriSafe(bs[1..]);
      var e, r := EncodeByte(bs[0]), PercentEncode(bs[1..]);
      assert PercentEncode(bs) == e + r;
      forall i | 0 <= i < |e + r|
        ensures IsUnreserved((e + r)[i]) || (e + r)[i] == '%' || IsUpperHexDigit((e + r)[i])
      {
        if i >= |e| {
          assert (e + r)[i] == r[i - |e|];
        }
      }
    }
  }

  /** Each byte becomes one or three characters. */
  lemma {:induction false} EncodeLength(bs: seq<byte>)
    ensures |bs| <= |PercentEncode(bs)| <= 3 * |bs|
  {
    if bs != [] {
      EncodeLength(bs[1..]);
    }
  }

  /** `n` copies of a string, back to back. */
  function Repeat(s: string, n: nat): (r: string)
    ensures |r| == n * |s|
  {
    if n == 0 then [] else s + Repeat(s, n - 1)
  }

  /** `n` zero bytes encode as `n` copies of "%00". */
  lemma {:induction false} EncodeZeros(n: nat)
    ensures PercentEncode(seq(n, i => 0)) == Repeat("%00", n)
  {
    if n > 0 {
      var z: seq<byte> := seq(n, i => 0);
      assert z[1..] == seq(n - 1, i => 0);
      assert !IsUnreserved(0 as char);
      EncodeZeros(n - 1);
    }
  }
}
