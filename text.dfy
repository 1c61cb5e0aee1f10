/**
 * Python `str` operations the two scripts rely on, written out on `seq<char>`:
 * `in`, `find`, `split(sep)`, `split(sep, 1)`, `join`, `strip()` and the
 * decimal rendering done by `str(int)`.
 */
module Text {
  import opened Wrappers

  /** `pat` occurs in `s` starting at index `i`. */
  predicate OccursAt(s: string, pat: string, i: nat) {
    i + |pat| <= |s| && s[i..i + |pat|] == pat
  }

  /** `s.find(pat)`, starting the search at `from`; None stands for -1. */
  function IndexFrom(s: string, pat: string, from: nat): (r: Option<nat>)
    requires from <= |s|
    decreases |s| - from
    ensures r.Some? ==> from <= r.value && OccursAt(s, pat, r.value)
    ensures r.Some? ==> forall j :: from <= j < r.value ==> !OccursAt(s, pat, j)
    ensures r.None? ==> forall j :: from <= j <= |s| ==> !OccursAt(s, pat, j)
  {
    if OccursAt(s, pat, from) then Some(from)
    else if from == |s| then None
    else IndexFrom(s, pat, from + 1)
  }

  /** `s.find(pat)`: the first occurrence. */
  function IndexOf(s: string, pat: string): (r: Option<nat>)
    ensures r.Some? ==> OccursAt(s, pat, r.value)
    ensures r.Some? ==> forall j :: 0 <= j < r.value ==> !OccursAt(s, pat, j)
    ensures r.None? ==> forall j :: 0 <= j <= |s| ==> !OccursAt(s, pat, j)
  {
    IndexFrom(s, pat, 0)
  }

  /** Python's `pat in s`. */
  predicate Contains(s: string, pat: string) {
    IndexOf(s, pat).Some?
  }

  /** For a one-character pattern, `pat in s` is membership of the character. */
  lemma ContainsChar(s: string, c: char)
    ensures Contains(s, [c]) <==> c in s
  {
    if c in s {
      var i :| 0 <= i < |s| && s[i] == c;
      assert OccursAt(s, [c], i);
    }
    if Contains(s, [c]) {
      var i := IndexOf(s, [c]).value;
      assert s[i] == s[i..i + 1][0] == c;
    }
  }

  /** `s.split(sep, 1)`: the text before and after the first `sep`, or None when there is none. */
  function SplitOnce(s: string, sep: string): (r: Option<(string, string)>)
    requires |sep| > 0
    ensures r.Some? <==> Contains(s, sep)
    ensures r.Some? ==> s == r.value.0 + sep + r.value.1 && !Contains(r.value.0, sep)
  {
    match IndexOf(s, sep)
    case None => None
    case Some(i) =>
      var before, after := s[..i], s[i + |sep|..];
      assert s == before + sep + after;
      assert !Contains(before, sep) by {
        forall j | 0 <= j <= |before| ensures !OccursAt(before, sep, j) {
          if j + |sep| <= |before| {
            assert before[j..j + |sep|] == s[j..j + |sep|];
            assert !OccursAt(s, sep, j);
          }
        }
      }
      Some((before, after))
  }

  /** No proper prefix of `sep` is also a suffix of it, so two occurrences never overlap. */
  predicate NoBorder(sep: string) {
    forall d :: 0 < d < |sep| ==> !Shifted(sep, d)
  }

  /** `sep` agrees with itself moved right by `d`. */
  predicate Shifted(sep: string, d: nat) {
    forall j :: d <= j < |sep| ==> sep[j] == sep[j - d]
  }

  lemma OverlapShifted(s: string, sep: string, i: nat, k: nat)
    requires OccursAt(s, sep, i) && OccursAt(s, sep, k) && i < k < i + |sep|
    ensures Shifted(sep, k - i)
  {
    forall j | k - i <= j < |sep| ensures sep[j] == sep[j - (k - i)] {
      assert sep[j] == s[i + j];
      assert sep[j - (k - i)] == s[k + j - (k - i)];
    }
  }

  /** For a separator without a border, the first occurrence is the one after the first text that avoids it. */
  lemma SplitOnceAt(s: string, sep: string, before: string, after: string)
    requires |sep| > 0 && NoBorder(sep)
    requires s == before + sep + after && !Contains(before, sep)
    ensures SplitOnce(s, sep) == Some((before, after))
  {
    assert OccursAt(s, sep, |before|) by { assert s[|before|..|before| + |sep|] == sep; }
    var i := IndexOf(s, sep).value;
    if i < |before| {
      if i + |sep| <= |before| {
        assert s[i..i + |sep|] == before[i..i + |sep|];
        assert OccursAt(before, sep, i);
        assert false;
      } else {
        OverlapShifted(s, sep, i, |before|);
        assert false;
      }
    }
    assert s[..i] == before;
    assert s[i + |sep|..] == after;
  }

  /** `s.split(sep)` for a non-empty separator. */
  function Split(s: string, sep: string): (r: seq<string>)
    requires |sep| > 0
    decreases |s|
    ensures |r| >= 1
  {
    match IndexOf(s, sep)
    case None => [s]
    case Some(i) => [s[..i]] + Split(s[i + |sep|..], sep)
  }

  /** `sep.join(items)`. */
  function Join(items: seq<string>, sep: string): string {
    if |items| == 0 then ""
    else if |items| == 1 then items[0]
    else items[0] + sep + Join(items[1..], sep)
  }

  /**
   * A two-character separator whose characters differ (such as `"; "`)
   * cannot straddle the border between an item and the separator after it,
   * so splitting a join gives back the items.
   */
  lemma {:induction false} SplitJoin(items: seq<string>, sep: string)
    requires |sep| == 2 && sep[0] != sep[1]
    requires |items| >= 1
    requires forall k :: 0 <= k < |items| ==> !Contains(items[k], sep)
    ensures Split(Join(items, sep), sep) == items
  {
    var s := Join(items, sep);
    if |items| == 1 {
      assert s == items[0];
    } else {
      var x, rest := items[0], Join(items[1..], sep);
      assert s == x + sep + rest;
      assert OccursAt(s, sep, |x|) by { assert s[|x|..|x| + 2] == sep; }
      forall j | 0 <= j < |x| ensures !OccursAt(s, sep, j) {
        if j + 2 <= |x| {
          assert !OccursAt(x, sep, j);
          assert s[j..j + 2] == x[j..j + 2];
        } else {
          assert s[j + 1] == sep[0];
        }
      }
      assert IndexOf(s, sep) == Some(|x|);
      assert s[..|x|] == x;
      assert s[|x| + 2..] == rest;
      SplitJoin(items[1..], sep);
    }
  }

  /** Python's `str.isspace()` for one character, which is also what `\s` matches in `re`. */
  predicate IsSpace(c: char) {
    var n := c as int;
    (0x09 <= n <= 0x0D) || (0x1C <= n <= 0x20) || n == 0x85 || n == 0xA0 || n == 0x1680
    || (0x2000 <= n <= 0x200A) || n == 0x2028 || n == 0x2029 || n == 0x202F || n == 0x205F
    || n == 0x3000
  }

  function LStrip(s: string): (r: string)
    ensures |r| <= |s| && r == s[|s| - |r|..]
    ensures r == [] || !IsSpace(r[0])
    ensures forall j :: 0 <= j < |s| - |r| ==> IsSpace(s[j])
  {
    if s != [] && IsSpace(s[0]) then LStrip(s[1..]) else s
  }

  function RStrip(s: string): (r: string)
    ensures |r| <= |s| && r == s[..|r|]
    ensures r == [] || !IsSpace(r[|r| - 1])
    ensures forall j :: |r| <= j < |s| ==> IsSpace(s[j])
  {
    if s != [] && IsSpace(s[|s| - 1]) then RStrip(s[..|s| - 1]) else s
  }

  /** `s.strip()`: the longest infix that neither starts nor ends with whitespace. */
  function Strip(s: string): (r: string)
    ensures r == [] || (!IsSpace(r[0]) && !IsSpace(r[|r| - 1]))
    ensures |r| <= |LStrip(s)| <= |s|
    ensures r == s[|s| - |LStrip(s)|..][..|r|]
  {
    RStrip(LStrip(s))
  }

  lemma StripNoSpace(s: string)
    requires s == [] || (!IsSpace(s[0]) && !IsSpace(s[|s| - 1]))
    ensures Strip(s) == s
  {
  }

  // ---------------------------------------------------------------- decimals

  predicate IsDigit(c: char) { '0' <= c <= '9' }

  function DigitChar(d: nat): (c: char)
    requires d < 10
    ensures IsDigit(c)
  {
    "0123456789"[d]
  }

  function DigitValue(c: char): (d: nat)
    requires IsDigit(c)
    ensures d < 10 && DigitChar(d) == c
  {
    (c as int - '0' as int)
  }

  /** `str(n)` for a non-negative integer. */
  function NatToDecimal(n: nat): (r: string)
    ensures |r| >= 1 && forall j :: 0 <= j < |r| ==> IsDigit(r[j])
    ensures r[0] == '0' ==> n == 0
  {
    if n < 10 then [DigitChar(n)] else NatToDecimal(n / 10) + [DigitChar(n % 10)]
  }

  /** `str(i)` for any integer: a minus sign in front of the digits of `-i`. */
  function IntToDecimal(i: int): string {
    if i < 0 then "-" + NatToDecimal(-i) else NatToDecimal(i)
  }

  /** `int(s)` for a string of digits. */
  function ParseDecimal(s: string): nat
    requires forall j :: 0 <= j < |s| ==> IsDigit(s[j])
  {
    if s == [] then 0 else 10 * ParseDecimal(s[..|s| - 1]) + DigitValue(s[|s| - 1])
  }

  lemma {:induction false} ParseNatToDecimal(n: nat)
    ensures ParseDecimal(NatToDecimal(n)) == n
  {
    var s := NatToDecimal(n);
    if n >= 10 {
      assert s[..|s| - 1] == NatToDecimal(n / 10);
      assert s[|s| - 1] == DigitChar(n % 10);
      DigitRoundTrip(n % 10);
      ParseNatToDecimal(n / 10);
      assert n == 10 * (n / 10) + n % 10;
    } else {
      assert s[..0] == [];
      DigitRoundTrip(n);
    }
  }

  lemma DigitRoundTrip(d: nat)
    requires d < 10
    ensures DigitValue(DigitChar(d)) == d
  {
  }

  /** `int(str(i))`: a signed decimal reads back as the integer it renders. */
  function ParseSigned(s: string): Option<int> {
    if |s| >= 1 && s[0] == '-' && (forall j :: 1 <= j < |s| ==> IsDigit(s[j]))
    then var v: int := 0 - ParseDecimal(s[1..]) as int; Some(v)
    else if forall j :: 0 <= j < |s| ==> IsDigit(s[j]) then Some(ParseDecimal(s))
    else None
  }

  lemma ParseIntToDecimal(i: int)
    ensures ParseSigned(IntToDecimal(i)) == Some(i)
  {
    if i < 0 {
      var d := NatToDecimal(-i);
      ParseNegative(d);
      ParseNatToDecimal(-i);
      assert IntToDecimal(i) == "-" + d;
      assert ParseSigned("-" + d) == Some(i);
    } else {
      var d := NatToDecimal(i);
      ParseDigits(d);
      ParseNatToDecimal(i);
      assert IntToDecimal(i) == d;
    }
  }

  lemma ParseNegative(d: string)
    requires |d| >= 1 && forall j :: 0 <= j < |d| ==> IsDigit(d[j])
    ensures ParseSigned("-" + d) == Some(0 - ParseDecimal(d))
  {
    var s := "-" + d;
    assert s[1..] == d;
    forall j | 1 <= j < |s| ensures IsDigit(s[j]) {
      assert s[j] == d[j - 1];
    }
  }

  lemma ParseDigits(d: string)
    requires |d| >= 1 && forall j :: 0 <= j < |d| ==> IsDigit(d[j])
    ensures ParseSigned(d) == Some(ParseDecimal(d))
  {
    assert d[0] != '-';
  }


  function Pow10(k: nat): (r: nat)
    ensures r >= 1
  {
    if k == 0 then 1 else 10 * Pow10(k - 1)
  }

  lemma {:induction false} Pow10Monotone(a: nat, b: nat)
    requires a <= b
    ensures Pow10(a) <= Pow10(b)
  {
    if a < b { Pow10Monotone(a, b - 1); }
  }

  /** A positive number has exactly `k` decimal digits when `10^(k-1) <= n < 10^k`. */
  lemma {:induction false} DecimalLengthBounds(n: nat)
    ensures n < Pow10(|NatToDecimal(n)|)
    ensures n >= 1 ==> Pow10(|NatToDecimal(n)| - 1) <= n
  {
    if n >= 10 {
      DecimalLengthBounds(n / 10);
    }
  }

  lemma DecimalLengthIs(n: nat, k: nat)
    requires k >= 1
    ensures |NatToDecimal(n)| == k <==> (k == 1 || Pow10(k - 1) <= n) && n < Pow10(k)
  {
    var d := |NatToDecimal(n)|;
    DecimalLengthBounds(n);
    if d < k {
      Pow10Monotone(d, k - 1);
      if k > 1 { assert n < Pow10(k - 1); }
    } else if d > k {
      Pow10Monotone(k, d - 1);
    }
  }
}
