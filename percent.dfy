/**
 * `urllib.parse.unquote` (percent-decoding, section 2.1 of RFC 3986) as the
 * Python standard library performs it: maximal runs of ASCII characters are
 * turned into bytes (`%XX` with two hexadecimal digits becomes one byte, any
 * other character stands for itself), each run's bytes are decoded as UTF-8
 * with `errors='replace'`, and non-ASCII characters are kept as they are.
 */
module Percent {
  import opened Text

  type byte = x: int | 0 <= x < 256

  const Replacement: char := '\U{FFFD}'

  predicate IsAscii(c: char) { c as int < 0x80 }

  predicate AllAscii(s: string) { forall j :: 0 <= j < |s| ==> IsAscii(s[j]) }

  predicate IsHex(c: char) { '0' <= c <= '9' || 'a' <= c <= 'f' || 'A' <= c <= 'F' }

  function HexValue(c: char): (v: nat)
    requires IsHex(c)
    ensures v < 16
  {
    if '0' <= c <= '9' then c as int - '0' as int
    else if 'a' <= c <= 'f' then c as int - 'a' as int + 10
    else c as int - 'A' as int + 10
  }

  function HexDigit(v: nat): (c: char)
    requires v < 16
    ensures IsHex(c) && HexValue(c) == v && IsAscii(c)
  {
    "0123456789ABCDEF"[v]
  }

  /** `unquote_to_bytes` on a run of ASCII characters. */
  function UnquoteToBytes(s: string): seq<byte>
    requires AllAscii(s)
  {
    if s == [] then []
    else if s[0] == '%' && |s| >= 3 && IsHex(s[1]) && IsHex(s[2])
    then [16 * HexValue(s[1]) + HexValue(s[2])] + UnquoteToBytes(s[3..])
    else [s[0] as int] + UnquoteToBytes(s[1..])
  }

  // ------------------------------------------------------------- UTF-8

  predicate IsCont(b: byte) { 0x80 <= b <= 0xBF }

  /** Total length of the UTF-8 sequence announced by a lead byte; 0 for a byte that cannot start one. */
  function SequenceLength(b0: byte): nat {
    if b0 < 0x80 then 1
    else if 0xC2 <= b0 <= 0xDF then 2
    else if 0xE0 <= b0 <= 0xEF then 3
    else if 0xF0 <= b0 <= 0xF4 then 4
    else 0
  }

  /** The range the second byte must lie in, which excludes overlong forms, surrogates and values above U+10FFFF. */
  predicate SecondOk(b0: byte, b1: byte) {
    if b0 == 0xE0 then 0xA0 <= b1 <= 0xBF
    else if b0 == 0xED then 0x80 <= b1 <= 0x9F
    else if b0 == 0xF0 then 0x90 <= b1 <= 0xBF
    else if b0 == 0xF4 then 0x80 <= b1 <= 0x8F
    else IsCont(b1)
  }

  /**
   * Decodes the character at the front of `bs` and says how many bytes it
   * used. An ill-formed sequence yields U+FFFD for its maximal valid prefix
   * (at least one byte), as CPython's decoder with `errors='replace'` does.
   */
  function DecodeOne(bs: seq<byte>): (r: (char, nat))
    requires |bs| >= 1
    ensures 1 <= r.1 <= |bs|
  {
    var b0 := bs[0];
    var n := SequenceLength(b0);
    var x0: int, x1: int, x2: int, x3: int :=
      b0, (if |bs| > 1 then bs[1] else 0), (if |bs| > 2 then bs[2] else 0), (if |bs| > 3 then bs[3] else 0);
    if n == 1 then ((b0 as char), 1)
    else if n == 0 || |bs| < 2 || !SecondOk(b0, bs[1]) then (Replacement, 1)
    else if n == 2 then (((x0 - 0xC0) * 64 + (x1 - 0x80)) as char, 2)
    else if |bs| < 3 || !IsCont(bs[2]) then (Replacement, 2)
    else if n == 3 then (((x0 - 0xE0) * 4096 + (x1 - 0x80) * 64 + (x2 - 0x80)) as char, 3)
    else if |bs| < 4 || !IsCont(bs[3]) then (Replacement, 3)
    else (((x0 - 0xF0) * 262144 + (x1 - 0x80) * 4096 + (x2 - 0x80) * 64 + (x3 - 0x80)) as char, 4)
  }

  /** `bytes.decode('utf-8', 'replace')`. */
  function Utf8Decode(bs: seq<byte>): (s: string)
    decreases |bs|
    ensures |s| <= |bs|
  {
    if bs == [] then []
    else
      var (c, n) := DecodeOne(bs);
      [c] + Utf8Decode(bs[n..])
  }

  /** The UTF-8 encoding of one character. */
  function EncodeChar(c: char): (r: seq<byte>)
    ensures 1 <= |r| <= 4
    ensures |r| == 1 <==> IsAscii(c)
  {
    var cp := c as int;
    if cp < 0x80 then [cp]
    else if cp < 0x800 then [0xC0 + cp / 64, 0x80 + cp % 64]
    else if cp < 0x10000 then [0xE0 + cp / 4096, 0x80 + (cp / 64) % 64, 0x80 + cp % 64]
    else [0xF0 + cp / 262144, 0x80 + (cp / 4096) % 64, 0x80 + (cp / 64) % 64, 0x80 + cp % 64]
  }

  /** `str.encode('utf-8')`. */
  function Utf8Encode(s: string): (r: seq<byte>)
    ensures |r| >= |s|
    ensures |r| == |s| <==> AllAscii(s)
  {
    if s == [] then [] else EncodeChar(s[0]) + Utf8Encode(s[1..])
  }

  lemma DecodeEncodeChar(c: char, rest: seq<byte>)
    ensures DecodeOne(EncodeChar(c) + rest) == (c, |EncodeChar(c)|)
  {
    var cp := c as int;
    if cp < 0x80 {
    } else if cp < 0x800 {
      DecodeTwo(c, rest);
    } else if cp < 0x10000 {
      DecodeThree(c, rest);
    } else {
      DecodeFour(c, rest);
    }
  }

  lemma DecodeTwo(c: char, rest: seq<byte>)
    requires 0x80 <= c as int < 0x800
    ensures DecodeOne(EncodeChar(c) + rest) == (c, 2)
  {
    var cp := c as int;
    var bs := EncodeChar(c) + rest;
    assert bs[0] == 0xC0 + cp / 64 && bs[1] == 0x80 + cp % 64;
    assert cp == (cp / 64) * 64 + cp % 64;
  }

  lemma DecodeThree(c: char, rest: seq<byte>)
    requires 0x800 <= c as int < 0x10000
    ensures DecodeOne(EncodeChar(c) + rest) == (c, 3)
  {
    var cp := c as int;
    var bs := EncodeChar(c) + rest;
    var q := cp / 64;
    assert bs[0] == 0xE0 + cp / 4096 && bs[1] == 0x80 + q % 64 && bs[2] == 0x80 + cp % 64;
    assert cp == q * 64 + cp % 64;
    assert q == (q / 64) * 64 + q % 64;
    assert cp / 4096 == q / 64;
  }

  lemma DecodeFour(c: char, rest: seq<byte>)
    requires 0x10000 <= c as int
    ensures DecodeOne(EncodeChar(c) + rest) == (c, 4)
  {
    var cp := c as int;
    var bs := EncodeChar(c) + rest;
    var q := cp / 64;
    var p := q / 64;
    assert bs[0] == 0xF0 + cp / 262144 && bs[1] == 0x80 + p % 64 && bs[2] == 0x80 + q % 64 && bs[3] == 0x80 + cp % 64;
    assert cp == q * 64 + cp % 64;
    assert q == p * 64 + q % 64;
    assert p == (p / 64) * 64 + p % 64;
    assert cp / 4096 == p;
    assert cp / 262144 == p / 64;
    assert p * 4096 == (p / 64) * 262144 + (p % 64) * 4096;
    assert q * 64 == p * 4096 + (q % 64) * 64;
    assert 0x10000 <= cp <= 0x10FFFF && 16 <= p < 0x110;
  }

  lemma {:induction false} Utf8RoundTrip(s: string)
    ensures Utf8Decode(Utf8Encode(s)) == s
  {
    if s != [] {
      var e := Utf8Encode(s[1..]);
      DecodeEncodeChar(s[0], e);
      assert (EncodeChar(s[0]) + e)[|EncodeChar(s[0])|..] == e;
      Utf8RoundTrip(s[1..]);
    }
  }

  // ------------------------------------------------------------- unquote

  /** Length of the longest prefix of `s` made of ASCII characters. */
  function AsciiRun(s: string): (n: nat)
    ensures n <= |s| && AllAscii(s[..n])
    ensures n < |s| ==> !IsAscii(s[n])
  {
    if s == [] || !IsAscii(s[0]) then 0
    else
      var n := 1 + AsciiRun(s[1..]);
      assert s[..n] == [s[0]] + s[1..][..n - 1];
      n
  }

  function DecodeRuns(s: string): string
    decreases |s|
  {
    if s == [] then []
    else if !IsAscii(s[0]) then [s[0]] + DecodeRuns(s[1..])
    else
      var n := AsciiRun(s);
      Utf8Decode(UnquoteToBytes(s[..n])) + DecodeRuns(s[n..])
  }

  /** `urllib.parse.unquote(s)`: strings without `%` are returned unchanged. */
  function PercentDecode(s: string): (r: string)
    ensures !('%' in s) ==> r == s
  {
    if !('%' in s) then s else DecodeRuns(s)
  }

  /** Percent-encodes every UTF-8 byte of `s` as `%XX`, the inverse of the decoder. */
  function PercentEncode(s: string): (r: string)
    ensures AllAscii(r)
  {
    var bs := Utf8Encode(s);
    EncodeBytes(bs)
  }

  function EncodeBytes(bs: seq<byte>): (r: string)
    ensures AllAscii(r) && |r| == 3 * |bs|
  {
    if bs == [] then "" else ['%', HexDigit(bs[0] / 16), HexDigit(bs[0] % 16)] + EncodeBytes(bs[1..])
  }

  lemma {:induction false} UnquoteEncodeBytes(bs: seq<byte>)
    ensures UnquoteToBytes(EncodeBytes(bs)) == bs
  {
    if bs != [] {
      var e := EncodeBytes(bs);
      assert e[3..] == EncodeBytes(bs[1..]);
      UnquoteEncodeBytes(bs[1..]);
    }
  }

  lemma DecodeRunsAscii(s: string)
    requires s != [] && AllAscii(s)
    ensures DecodeRuns(s) == Utf8Decode(UnquoteToBytes(s))
  {
    assert AsciiRun(s) == |s|;
    assert s[..|s|] == s;
    assert s[|s|..] == [];
  }

  /** Decoding undoes encoding, for every string. */
  lemma PercentRoundTrip(s: string)
    ensures PercentDecode(PercentEncode(s)) == s
  {
    var bs := Utf8Encode(s);
    var e := EncodeBytes(bs);
    if s == [] {
      assert e == [];
    } else {
      assert e[0] == '%';
      DecodeRunsAscii(e);
      UnquoteEncodeBytes(bs);
      Utf8RoundTrip(s);
    }
  }
}
