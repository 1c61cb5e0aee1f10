/**
 * The query component of `urllib.parse.urlparse` and the first value that
 * `urllib.parse.parse_qs` collects for one parameter name.
 */
module UrlQuery {
  import opened Wrappers
  import opened Text
  import opened Percent

  /** `urlsplit` deletes tab, carriage return and line feed anywhere in the URL. */
  function RemoveUnsafe(s: string): (r: string)
    ensures forall j :: 0 <= j < |r| ==> r[j] !in {'\t', '\r', '\n'}
  {
    if s == [] then []
    else if s[0] in {'\t', '\r', '\n'} then RemoveUnsafe(s[1..])
    else [s[0]] + RemoveUnsafe(s[1..])
  }

  /** Leading C0 control characters and spaces, which `urlsplit` strips first. */
  function LStripControl(s: string): string {
    if s != [] && s[0] as int <= 0x20 then LStripControl(s[1..]) else s
  }

  predicate IsSchemeChar(c: char) {
    'a' <= c <= 'z' || 'A' <= c <= 'Z' || '0' <= c <= '9' || c in {'+', '-', '.'}
  }

  /** The URL after its `scheme:` prefix, when it has one. */
  function AfterScheme(u: string): string {
    match IndexOf(u, ":")
    case Some(i) =>
      if i > 0 && ('a' <= u[0] <= 'z' || 'A' <= u[0] <= 'Z') && forall j :: 0 <= j < i ==> IsSchemeChar(u[j])
      then u[i + 1..] else u
    case None => u
  }

  /** Index where the network location that starts at 2 ends: the first `/`, `?` or `#`, or the end. */
  function NetlocEnd(u: string, k: nat): (e: nat)
    requires 2 <= k <= |u|
    decreases |u| - k
    ensures k <= e <= |u|
  {
    if k == |u| || u[k] in {'/', '?', '#'} then k else NetlocEnd(u, k + 1)
  }

  /**
   * `urlparse(url).query`, or None where `urlsplit` raises on an unmatched
   * square bracket in the network location. Its other refusals (a bracketed
   * host that is not an IPv6 or IPvFuture address, a network location that
   * NFKC normalisation changes into a separator) are not modelled: such a
   * URL yields its query here.
   */
  function QueryOf(url: string): Option<string> {
    var u := AfterScheme(RemoveUnsafe(LStripControl(url)));
    var netloc := if |u| >= 2 && u[..2] == "//" then u[2..NetlocEnd(u, 2)] else "";
    if ('[' in netloc) != (']' in netloc) then None
    else
      var rest := if |u| >= 2 && u[..2] == "//" then u[NetlocEnd(u, 2)..] else u;
      var noFragment := match SplitOnce(rest, "#") case Some(p) => p.0 case None => rest;
      match SplitOnce(noFragment, "?")
      case Some(p) => Some(p.1)
      case None => Some("")
  }

  /** `unquote(x.replace('+', ' '))`, applied by `parse_qsl` to names and values. */
  function FormDecode(x: string): string {
    PercentDecode(seq(|x|, j requires 0 <= j < |x| => if x[j] == '+' then ' ' else x[j]))
  }

  /**
   * Scans `&`-separated fields in order. Empty fields and fields without `=`
   * are skipped, and so are fields with an empty value (blank values are
   * not kept). The first field whose decoded name is `name` gives its
   * decoded value.
   */
  function FirstValue(fields: seq<string>, name: string): Option<string> {
    if fields == [] then None
    else
      var f := fields[0];
      match SplitOnce(f, "=")
      case Some((n, v)) =>
        if |v| > 0 && FormDecode(n) == name then Some(FormDecode(v)) else FirstValue(fields[1..], name)
      case None => FirstValue(fields[1..], name)
  }

  /** `parse_qs(query).get(name)[0]`, or None when `name` got no value. */
  function QueryParam(query: string, name: string): Option<string> {
    if query == [] then None else FirstValue(Split(query, "&"), name)
  }

  // ------------------------------------------------------------ properties

  lemma Utf8DecodeNonEmpty(bs: seq<byte>)
    requires bs != []
    ensures Utf8Decode(bs) != []
  {
  }

  lemma DecodeRunsNonEmpty(s: string)
    requires s != []
    ensures DecodeRuns(s) != []
  {
    if IsAscii(s[0]) {
      var n := AsciiRun(s);
      assert n >= 1;
      assert UnquoteToBytes(s[..n]) != [];
      Utf8DecodeNonEmpty(UnquoteToBytes(s[..n]));
    }
  }

  /** A non-empty text never percent-decodes to the empty text. */
  lemma PercentDecodeNonEmpty(s: string)
    requires s != []
    ensures PercentDecode(s) != []
  {
    if '%' in s { DecodeRunsNonEmpty(s); }
  }

  /** A value that `parse_qs` reports is never empty, because blank values are dropped before decoding. */
  lemma {:induction false} FirstValueNonEmpty(fields: seq<string>, name: string)
    requires FirstValue(fields, name).Some?
    ensures FirstValue(fields, name).value != []
  {
    var f := fields[0];
    match SplitOnce(f, "=")
    case Some((n, v)) =>
      if |v| > 0 && FormDecode(n) == name {
        var x := seq(|v|, j requires 0 <= j < |v| => if v[j] == '+' then ' ' else v[j]);
        assert x != [];
        PercentDecodeNonEmpty(x);
      } else {
        FirstValueNonEmpty(fields[1..], name);
      }
    case None =>
      FirstValueNonEmpty(fields[1..], name);
  }
}
