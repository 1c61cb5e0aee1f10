/**
 * The SF task-code resolver (`SFTasksManager.extract_task_code`): an ordered
 * fallback from the task's own `taskCode` to the `_ug_view_param` embedded in
 * its `buttonRedirect`, read as a JSON object or, when that text is not JSON,
 * searched with the pattern `"taskId"\s*:\s*"([^"]+)"`.
 */
module SfTaskCode {
  import opened Wrappers
  import opened Text
  import opened Percent
  import opened UrlQuery

  /**
   * A task record as the task list delivers it. A field that is absent is
   * None; JSON null is read as absent too, which matches the source for
   * every field but `title` (see `Title`); `status` is the integer status code.
   */
  datatype Task = Task(
    taskCode: Option<string>,
    buttonRedirect: Option<string>,
    title: Option<string>,
    taskPeriod: Option<string>,
    status: Option<int>)

  /**
   * What `json.loads` makes of a text, as far as the resolver looks at it:
   * a decoding error, a value that is not an object, or an object with its
   * `taskId` member (None when the object has no such member). The other
   * exceptions `json.loads` can raise (an integer past the interpreter's
   * digit limit, nesting past the recursion limit) have no reading here.
   */
  datatype JsonReading = Malformed | NotObject | Object(taskId: Option<string>)

  const ParamName := "_ug_view_param"
  const Marker := "_ug_view_param="

  // ---------------------------------------------------- strategy 1: taskCode

  /** A truthy `taskCode`: present and non-empty. */
  function DirectCode(t: Task): Option<string> {
    if t.taskCode.Some? && t.taskCode.value != "" then t.taskCode else None
  }

  // -------------------------------------------- strategy 2: marker splitting

  /** The text after the first marker in the decoded redirect. */
  function MarkerCandidate(decoded: string): (r: Option<string>)
    ensures r.Some? <==> Contains(decoded, Marker)
    ensures r.Some? ==> exists before :: decoded == before + Marker + r.value && !Contains(before, Marker)
  {
    match SplitOnce(decoded, Marker)
    case Some((before, after)) => Some(after)
    case None => None
  }

  // ----------------------------------------------- strategy 3: query parsing

  /** Query-parses one candidate URL; a URL that does not split, or has an empty query, gives None. */
  function QueryValue(url: string): Option<string> {
    match QueryOf(url)
    case None => None
    case Some(q) => if q == "" then None else QueryParam(q, ParamName)
  }

  /** The raw redirect is parsed before the decoded one; the first value found wins, and none gives "". */
  function QueryCandidate(raw: string, decoded: string): string {
    match QueryValue(raw)
    case Some(v) => v
    case None => QueryValue(decoded).GetOr("")
  }

  /** The `_ug_view_param` text taken from the redirect, "" when there is none. */
  function Candidate(redirect: string): string {
    var decoded := PercentDecode(redirect);
    match MarkerCandidate(decoded)
    case Some(after) => after
    case None => QueryCandidate(redirect, decoded)
  }

  // ----------------------------------------- strategy 4 and 5: JSON, regex

  const TaskIdKey := "\"taskId\""

  /** First index at or after `p` that does not hold whitespace. */
  function SkipSpaces(s: string, p: nat): (e: nat)
    requires p <= |s|
    decreases |s| - p
    ensures p <= e <= |s| && (e < |s| ==> !IsSpace(s[e]))
    ensures forall j :: p <= j < e ==> IsSpace(s[j])
  {
    if p < |s| && IsSpace(s[p]) then SkipSpaces(s, p + 1) else p
  }

  /** First index at or after `p` that holds a double quote, or `|s|`. */
  function NextQuote(s: string, p: nat): (e: nat)
    requires p <= |s|
    decreases |s| - p
    ensures p <= e <= |s| && (e < |s| ==> s[e] == '"')
    ensures forall j :: p <= j < e ==> s[j] != '"'
  {
    if p < |s| && s[p] != '"' then NextQuote(s, p + 1) else p
  }

  /**
   * The group the pattern captures when it matches at `p`. Every part of the
   * pattern is followed by a character the part cannot match, so the greedy
   * match is the only one and no backtracking is needed.
   */
  function MatchAt(s: string, p: nat): Option<string>
    requires p <= |s|
  {
    if !OccursAt(s, TaskIdKey, p) then None
    else
      var a := SkipSpaces(s, p + |TaskIdKey|);
      if a == |s| || s[a] != ':' then None
      else
        var b := SkipSpaces(s, a + 1);
        if b == |s| || s[b] != '"' then None
        else
          var e := NextQuote(s, b + 1);
          if e == b + 1 || e == |s| then None else Some(s[b + 1..e])
  }

  /** `re.search`: the leftmost position where the pattern matches. */
  function SearchFrom(s: string, p: nat): Option<string>
    requires p <= |s|
    decreases |s| - p
  {
    match MatchAt(s, p)
    case Some(v) => Some(v)
    case None => if p == |s| then None else SearchFrom(s, p + 1)
  }

  function RegexTaskId(s: string): Option<string> {
    SearchFrom(s, 0)
  }

  /** Decodes the candidate once more, strips it and reads it. */
  function ReadCandidate(ug: string, loads: string -> JsonReading): string {
    var c := Strip(PercentDecode(ug));
    match loads(c)
    case Object(id) => id.GetOr("")
    case NotObject => ""
    case Malformed => RegexTaskId(c).GetOr("")
  }

  // ------------------------------------------------------------ the resolver

  /** `extract_task_code(task)`; `loads` stands for `json.loads`. */
  function ExtractTaskCode(t: Task, loads: string -> JsonReading): (code: string)
    ensures DirectCode(t).Some? ==> code == DirectCode(t).value
    ensures DirectCode(t).None? && (t.buttonRedirect.None? || t.buttonRedirect.value == "") ==> code == ""
  {
    match DirectCode(t)
    case Some(c) => c
    case None =>
      var redirect := t.buttonRedirect.GetOr("");
      if redirect == "" then ""
      else
        var ug := Candidate(redirect);
        if ug == "" then "" else ReadCandidate(ug, loads)
  }

  // ------------------------------------------------------------ properties

  /** What the pattern describes with `w1` and `w2` blanks around the colon. */
  predicate PatternWith(s: string, p: nat, w1: nat, w2: nat, v: string) {
    var a := p + |TaskIdKey| + w1;
    var b := a + 1 + w2;
    && OccursAt(s, TaskIdKey, p)
    && b + |v| + 2 <= |s|
    && (forall j :: p + |TaskIdKey| <= j < a ==> IsSpace(s[j]))
    && s[a] == ':'
    && (forall j :: a + 1 <= j < b ==> IsSpace(s[j]))
    && s[b] == '"' && s[b + 1..b + 1 + |v|] == v && s[b + 1 + |v|] == '"'
    && v != [] && (forall j :: 0 <= j < |v| ==> v[j] != '"')
  }

  /** What the pattern describes, stated without the search: the key, blanks, a colon, blanks and a quoted value. */
  ghost predicate PatternAt(s: string, p: nat, v: string) {
    exists w1: nat, w2: nat :: PatternWith(s, p, w1, w2, v)
  }

  lemma MatchAtGivesPattern(s: string, p: nat, v: string)
    requires p <= |s| && MatchAt(s, p) == Some(v)
    ensures PatternAt(s, p, v)
  {
    var a := SkipSpaces(s, p + |TaskIdKey|);
    assert OccursAt(s, TaskIdKey, p) && a < |s| && s[a] == ':';
    var b := SkipSpaces(s, a + 1);
    assert b < |s| && s[b] == '"';
    var e := NextQuote(s, b + 1);
    assert b + 1 < e < |s| && v == s[b + 1..e];
    assert s[e] == '"' && e == b + 1 + |v|;
    forall j | 0 <= j < |v| ensures v[j] != '"' {
      assert v[j] == s[b + 1 + j];
    }
    assert PatternWith(s, p, a - p - |TaskIdKey|, b - a - 1, v);
  }

  lemma PatternGivesMatch(s: string, p: nat, v: string, w1: nat, w2: nat)
    requires p <= |s| && PatternWith(s, p, w1, w2, v)
    ensures MatchAt(s, p) == Some(v)
  {
    var a := p + |TaskIdKey| + w1;
    var b := a + 1 + w2;
    SkipSpacesTo(s, p + |TaskIdKey|, a);
    SkipSpacesTo(s, a + 1, b);
    forall j | b + 1 <= j < b + 1 + |v| ensures s[j] != '"' {
      assert s[j] == v[j - b - 1];
    }
    NextQuoteTo(s, b + 1, b + 1 + |v|);
    assert s[b + 1..b + 1 + |v|] == v;
  }

  lemma {:induction false} SkipSpacesTo(s: string, p: nat, e: nat)
    requires p <= e < |s| && !IsSpace(s[e])
    requires forall j :: p <= j < e ==> IsSpace(s[j])
    ensures SkipSpaces(s, p) == e
    decreases e - p
  {
    if p < e {
      SkipSpacesTo(s, p + 1, e);
    }
  }

  lemma {:induction false} NextQuoteTo(s: string, p: nat, e: nat)
    requires p <= e < |s| && s[e] == '"'
    requires forall j :: p <= j < e ==> s[j] != '"'
    ensures NextQuote(s, p) == e
    decreases e - p
  {
    if p < e {
      NextQuoteTo(s, p + 1, e);
    }
  }


  /** MatchAt finds exactly the values the pattern describes at `p`. */
  lemma MatchAtSound(s: string, p: nat, v: string)
    requires p <= |s|
    ensures MatchAt(s, p) == Some(v) <==> PatternAt(s, p, v)
  {
    if MatchAt(s, p) == Some(v) {
      MatchAtGivesPattern(s, p, v);
    }
    if PatternAt(s, p, v) {
      var w1: nat, w2: nat :| PatternWith(s, p, w1, w2, v);
      PatternGivesMatch(s, p, v, w1, w2);
    }
  }

  /** The search returns the value at the leftmost position where the pattern holds. */
  lemma {:induction false} SearchFromLeftmost(s: string, p: nat, q: nat, v: string)
    requires p <= q <= |s|
    requires PatternAt(s, q, v)
    requires forall j, w :: p <= j < q ==> !PatternAt(s, j, w)
    decreases q - p
    ensures SearchFrom(s, p) == Some(v)
  {
    MatchAtSound(s, p, v);
    if p < q {
      if MatchAt(s, p).Some? {
        MatchAtSound(s, p, MatchAt(s, p).value);
        assert false;
      }
      SearchFromLeftmost(s, p + 1, q, v);
    }
  }

  /** A truthy taskCode wins whatever the redirect holds. */
  lemma DirectCodeWins(t: Task, redirect: Option<string>, loads: string -> JsonReading)
    requires t.taskCode.Some? && t.taskCode.value != ""
    ensures ExtractTaskCode(t.(buttonRedirect := redirect), loads) == t.taskCode.value
  {
  }

  /**
   * With the marker present after decoding, the candidate is the text after
   * its first occurrence, and query parsing plays no part.
   */
  lemma MarkerFirst(t: Task, loads: string -> JsonReading)
    requires DirectCode(t).None? && t.buttonRedirect.Some?
    requires Contains(PercentDecode(t.buttonRedirect.value), Marker)
    ensures var decoded := PercentDecode(t.buttonRedirect.value);
      var after := decoded[IndexOf(decoded, Marker).value + |Marker|..];
      ExtractTaskCode(t, loads) == if after == "" then "" else ReadCandidate(after, loads)
  {
  }

  lemma MarkerNoBorder()
    ensures NoBorder(Marker)
  {
    forall d | 0 < d < |Marker| ensures !Shifted(Marker, d) {
      assert Marker[|Marker| - 1] != Marker[|Marker| - 1 - d];
    }
  }

  /** Without the marker, the raw redirect's query is consulted before the decoded one's. */
  lemma QueryRawFirst(t: Task, loads: string -> JsonReading)
    requires DirectCode(t).None? && t.buttonRedirect.Some? && t.buttonRedirect.value != ""
    requires !Contains(PercentDecode(t.buttonRedirect.value), Marker)
    ensures var raw := t.buttonRedirect.value;
      QueryValue(raw).Some? ==> ExtractTaskCode(t, loads) == ReadCandidate(QueryValue(raw).value, loads)
    ensures var raw := t.buttonRedirect.value;
      QueryValue(raw).None? && QueryValue(PercentDecode(raw)).Some? ==>
        ExtractTaskCode(t, loads) == ReadCandidate(QueryValue(PercentDecode(raw)).value, loads)
    ensures var raw := t.buttonRedirect.value;
      QueryValue(raw).None? && QueryValue(PercentDecode(raw)).None? ==> ExtractTaskCode(t, loads) == ""
  {
    var raw := t.buttonRedirect.value;
    if QueryValue(raw).Some? {
      QueryValueNonEmpty(raw);
    } else if QueryValue(PercentDecode(raw)).Some? {
      QueryValueNonEmpty(PercentDecode(raw));
    }
  }

  lemma QueryValueNonEmpty(url: string)
    requires QueryValue(url).Some?
    ensures QueryValue(url).value != ""
  {
    var q := QueryOf(url).value;
    FirstValueNonEmpty(Split(q, "&"), ParamName);
  }

  /**
   * The regular expression is consulted only when the candidate is not JSON:
   * a candidate read as a non-object gives "", an object gives its taskId or "".
   */
  lemma JsonBeforeRegex(ug: string, loads: string -> JsonReading)
    ensures var c := Strip(PercentDecode(ug));
      loads(c) != Malformed ==> ReadCandidate(ug, loads) == (if loads(c).Object? then loads(c).taskId.GetOr("") else "")
    ensures var c := Strip(PercentDecode(ug));
      loads(c) == Malformed ==> ReadCandidate(ug, loads) == RegexTaskId(c).GetOr("")
  {
  }

  /**
   * A redirect that percent-encodes `prefix + "_ug_view_param=" + json`,
   * where `json` has no `%` and no surrounding blanks and reads as an object
   * with a taskId, resolves to that taskId.
   */
  lemma EncodedRedirectResolves(prefix: string, json: string, id: string, loads: string -> JsonReading)
    requires !Contains(prefix, Marker)
    requires json != [] && !('%' in json) && !IsSpace(json[0]) && !IsSpace(json[|json| - 1])
    requires loads(json) == Object(Some(id))
    ensures ExtractTaskCode(Task(None, Some(PercentEncode(prefix + Marker + json)), None, None, None), loads) == id
  {
    var x := prefix + Marker + json;
    var redirect := PercentEncode(x);
    assert |redirect| == 3 * |Utf8Encode(x)| >= 3 * |x| > 0;
    PercentRoundTrip(x);
    MarkerNoBorder();
    SplitOnceAt(x, Marker, prefix, json);
    assert MarkerCandidate(PercentDecode(redirect)) == Some(json);
    assert Candidate(redirect) == json;
    StripNoSpace(json);
    assert PercentDecode(json) == json;
    assert ReadCandidate(json, loads) == id;
  }

  /**
   * A candidate that is not JSON but starts with `"taskId":"<v>"` resolves
   * through the pattern to `v`.
   */
  lemma RegexFallbackResolves(v: string, rest: string)
    requires v != [] && forall j :: 0 <= j < |v| ==> v[j] != '"'
    ensures RegexTaskId(TaskIdKey + ":\"" + v + "\"" + rest) == Some(v)
  {
    var s := TaskIdKey + ":\"" + v + "\"" + rest;
    var b := |TaskIdKey| + 1;
    assert OccursAt(s, TaskIdKey, 0);
    assert s[|TaskIdKey|] == ':' && s[b] == '"';
    assert s[b + 1..b + 1 + |v|] == v;
    assert s[b + 1 + |v|] == '"';
    assert PatternWith(s, 0, 0, 0, v);
    SearchFromLeftmost(s, 0, 0, v);
  }
}
