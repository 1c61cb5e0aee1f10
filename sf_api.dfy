/**
 * Request assembly of the SF Express client (`SFExpressAPI`): the signature
 * input, the header merge of `_build_headers`, `share_login`'s guard and
 * field extraction, the cookie string built from a login response, and the
 * error shape of `_post_json`. MD5 and the `sw8` token are foreign code and
 * enter as parameters.
 */
module SfApi {
  import opened Wrappers
  import opened Text
  import opened Percent

  const SysCode := "MCS-MIMP-CORE"
  const SignaturePrefix := "wwesldfs29aniversaryvdld29&timestamp="

  // -------------------------------------------------------------- signature

  /** How a missing `sys_code` prints inside an f-string. */
  function SysCodeText(sysCode: Option<string>): string {
    match sysCode
    case Some(c) => c
    case None => "None"
  }

  /** The text whose MD5 hex digest is the signature. */
  function SignatureInput(timestamp: string, sysCode: Option<string>): string {
    SignaturePrefix + timestamp + "&sysCode=" + SysCodeText(sysCode)
  }

  /** `generate_signature`: MD5 over the UTF-8 bytes of the signature input. */
  function Signature(timestamp: string, sysCode: Option<string>, md5Hex: seq<byte> -> string): string {
    md5Hex(Utf8Encode(SignatureInput(timestamp, sysCode)))
  }

  predicate AllDigits(s: string) { forall j :: 0 <= j < |s| ==> IsDigit(s[j]) }

  /**
   * Distinct digit timestamps (or distinct sys codes) never share a
   * signature input: the input determines both parts.
   */
  lemma SignatureInputInjective(t1: string, c1: Option<string>, t2: string, c2: Option<string>)
    requires AllDigits(t1) && AllDigits(t2)
    requires SignatureInput(t1, c1) == SignatureInput(t2, c2)
    ensures t1 == t2 && SysCodeText(c1) == SysCodeText(c2)
  {
    var sep := "&sysCode=";
    Regroup(SignaturePrefix, t1, sep, SysCodeText(c1));
    Regroup(SignaturePrefix, t2, sep, SysCodeText(c2));
    Cancel(SignaturePrefix, t1 + sep + SysCodeText(c1), t2 + sep + SysCodeText(c2));
    TailInjective(t1, SysCodeText(c1), t2, SysCodeText(c2));
  }

  lemma Regroup(p: string, t: string, sep: string, c: string)
    ensures p + t + sep + c == p + (t + sep + c)
  {
  }

  lemma Cancel(p: string, x: string, y: string)
    requires p + x == p + y
    ensures x == y
  {
    assert x == (p + x)[|p|..];
    assert y == (p + y)[|p|..];
  }

  /** The digits before `&sysCode=` and the text after it are both recovered from the tail. */
  lemma TailInjective(t1: string, c1: string, t2: string, c2: string)
    requires AllDigits(t1) && AllDigits(t2)
    requires t1 + "&sysCode=" + c1 == t2 + "&sysCode=" + c2
    ensures t1 == t2 && c1 == c2
  {
    var tail1 := t1 + "&sysCode=" + c1;
    var tail2 := t2 + "&sysCode=" + c2;
    if |t1| < |t2| {
      TailAt(t1, c1, t2, c2);
      assert false;
    } else if |t2| < |t1| {
      TailAt(t2, c2, t1, c1);
      assert false;
    }
    assert t1 == tail1[..|t1|] == tail2[..|t1|] == t2;
    assert c1 == tail1[|t1| + 9..] == tail2[|t1| + 9..] == c2;
  }


  /** After a shorter digit run comes '&', where a longer one still has a digit. */
  lemma TailAt(t: string, c: string, u: string, d: string)
    requires AllDigits(u) && |t| < |u|
    ensures t + "&sysCode=" + c != u + "&sysCode=" + d
  {
    var x := t + "&sysCode=" + c;
    var y := u + "&sysCode=" + d;
    assert x[|t|] == '&';
    assert y[|t|] == u[|t|];
  }

  // ---------------------------------------------------------------- headers

  /** What `get_sw8` returns: a dict with a `code` member, or anything else. */
  datatype Sw8Reply = Sw8Dict(code: string) | Sw8Other

  function Sw8Code(r: Sw8Reply): string {
    match r
    case Sw8Dict(c) => c
    case Sw8Other => ""
  }

  const Overwritten: set<string> := {"timestamp", "signature", "sw8", "referer"}

  /**
   * `_build_headers`: a copy of the default headers, then the four
   * per-request values, then the caller's extra headers, each step winning
   * over the previous one. `nowMillis` is `int(time.time() * 1000)`.
   */
  function BuildHeaders(defaults: map<string, string>, nowMillis: nat, sw8: Sw8Reply, referer: string,
                        extra: map<string, string>, md5Hex: seq<byte> -> string): (h: map<string, string>)
    ensures h.Keys == defaults.Keys + Overwritten + extra.Keys
    ensures forall k :: k in extra ==> h[k] == extra[k]
    ensures forall k :: k in defaults && k !in Overwritten && k !in extra ==> h[k] == defaults[k]
    ensures "timestamp" !in extra ==> h["timestamp"] == NatToDecimal(nowMillis)
    ensures "sw8" !in extra ==> h["sw8"] == Sw8Code(sw8)
    ensures "referer" !in extra ==> h["referer"] == referer
    ensures "signature" !in extra ==> h["signature"] == Signature(NatToDecimal(nowMillis), Some(SysCode), md5Hex)
  {
    var timestamp := NatToDecimal(nowMillis);
    var updated := defaults["timestamp" := timestamp]["signature" := Signature(timestamp, Some(SysCode), md5Hex)]
                           ["sw8" := Sw8Code(sw8)]["referer" := referer];
    updated + extra
  }

  /**
   * Unless the extra headers replace them, the signature header is the
   * signature of the very timestamp sent in the timestamp header.
   */
  lemma SignatureMatchesTimestamp(defaults: map<string, string>, nowMillis: nat, sw8: Sw8Reply, referer: string,
                                  extra: map<string, string>, md5Hex: seq<byte> -> string)
    requires "timestamp" !in extra && "signature" !in extra
    ensures var h := BuildHeaders(defaults, nowMillis, sw8, referer, extra, md5Hex);
      h["signature"] == Signature(h["timestamp"], Some(SysCode), md5Hex) && AllDigits(h["timestamp"])
  {
  }

  // ------------------------------------------------------------ share_login

  datatype Cookie = Cookie(key: string, value: string)

  predicate DistinctKeys(jar: seq<Cookie>) {
    forall i, j :: 0 <= i < j < |jar| ==> jar[i].key != jar[j].key
  }

  /** The value a cookie jar (an insertion-ordered dict) holds for `k`. */
  function Lookup(jar: seq<Cookie>, k: string): (r: Option<string>)
    ensures r.None? <==> forall i :: 0 <= i < |jar| ==> jar[i].key != k
  {
    if jar == [] then None
    else if jar[0].key == k then Some(jar[0].value)
    else Lookup(jar[1..], k)
  }

  /**
   * Storing a morsel in the jar: an existing key keeps its place and takes
   * the new value, a new key goes at the end.
   */
  function Put(jar: seq<Cookie>, c: Cookie): (r: seq<Cookie>)
    ensures Lookup(r, c.key) == Some(c.value)
    ensures forall k :: k != c.key ==> Lookup(r, k) == Lookup(jar, k)
  {
    if jar == [] then [c]
    else if jar[0].key == c.key then [c] + jar[1..]
    else [jar[0]] + Put(jar[1..], c)
  }

  /** Put keeps every present name in its place and appends a new one at the end. */
  lemma {:induction false} PutShape(jar: seq<Cookie>, c: Cookie)
    ensures |Put(jar, c)| == |jar| + (if Lookup(jar, c.key).None? then 1 else 0)
    ensures forall i :: 0 <= i < |jar| ==> Put(jar, c)[i].key == jar[i].key
    ensures forall i :: |jar| <= i < |Put(jar, c)| ==> Put(jar, c)[i] == c
  {
    if jar != [] && jar[0].key != c.key {
      var r, rest := Put(jar, c), Put(jar[1..], c);
      PutShape(jar[1..], c);
      assert r == [jar[0]] + rest;
      assert Lookup(jar, c.key) == Lookup(jar[1..], c.key);
      forall i | 1 <= i < |jar| ensures r[i].key == jar[i].key {
        assert r[i] == rest[i - 1] && jar[1..][i - 1] == jar[i];
      }
      forall i | |jar| <= i < |r| ensures r[i] == c {
        assert r[i] == rest[i - 1];
      }
    }
  }

  /** Put never duplicates a name, and a name already present keeps its place. */
  lemma PutKeepsOrder(jar: seq<Cookie>, c: Cookie)
    requires DistinctKeys(jar)
    ensures DistinctKeys(Put(jar, c))
    ensures |Put(jar, c)| == |jar| + (if Lookup(jar, c.key).None? then 1 else 0)
    ensures forall i :: 0 <= i < |jar| ==> Put(jar, c)[i].key == jar[i].key
    ensures forall i :: |jar| <= i < |Put(jar, c)| ==> Put(jar, c)[i] == c
  {
    var r := Put(jar, c);
    PutShape(jar, c);
    forall i, j | 0 <= i < j < |r| ensures r[i].key != r[j].key {
      if j < |jar| {
        assert r[i].key == jar[i].key && r[j].key == jar[j].key;
      } else {
        assert Lookup(jar, c.key).None? && r[j] == c && r[i].key == jar[i].key;
      }
    }
  }

  /** The value of the last cookie named `k` in `cs`, if any. */
  function LastFor(cs: seq<Cookie>, k: string): Option<string> {
    if cs == [] then None
    else if cs[|cs| - 1].key == k then Some(cs[|cs| - 1].value)
    else LastFor(cs[..|cs| - 1], k)
  }

  /** Loading the morsels of one Set-Cookie header into the jar, in order. */
  function LoadHeader(jar: seq<Cookie>, cs: seq<Cookie>): (r: seq<Cookie>)
    ensures forall k :: Lookup(r, k) == (if LastFor(cs, k).Some? then LastFor(cs, k) else Lookup(jar, k))
  {
    if cs == [] then jar else Put(LoadHeader(jar, cs[..|cs| - 1]), cs[|cs| - 1])
  }

  lemma {:induction false} LoadHeaderDistinct(jar: seq<Cookie>, cs: seq<Cookie>)
    requires DistinctKeys(jar)
    ensures DistinctKeys(LoadHeader(jar, cs))
    decreases |cs|
  {
    if cs != [] {
      LoadHeaderDistinct(jar, cs[..|cs| - 1]);
      PutKeepsOrder(LoadHeader(jar, cs[..|cs| - 1]), cs[|cs| - 1]);
    }
  }

  function Flatten(hs: seq<seq<Cookie>>): seq<Cookie> {
    if hs == [] then [] else Flatten(hs[..|hs| - 1]) + hs[|hs| - 1]
  }

  lemma {:induction false} LastForAppend(a: seq<Cookie>, b: seq<Cookie>, k: string)
    ensures LastFor(a + b, k) == if LastFor(b, k).Some? then LastFor(b, k) else LastFor(a, k)
    decreases |b|
  {
    if b != [] {
      assert (a + b)[..|a + b| - 1] == a + b[..|b| - 1];
      LastForAppend(a, b[..|b| - 1], k);
    } else {
      assert a + b == a;
    }
  }

  /** The jar after loading every Set-Cookie header of a response, in order. */
  function LoadAll(hs: seq<seq<Cookie>>): seq<Cookie> {
    if hs == [] then [] else LoadHeader(LoadAll(hs[..|hs| - 1]), hs[|hs| - 1])
  }

  /**
   * The jar has one entry per cookie name, holding the value of the last
   * morsel with that name across all headers.
   */
  lemma {:induction false} LoadAllLastWins(hs: seq<seq<Cookie>>)
    ensures DistinctKeys(LoadAll(hs))
    ensures forall k :: Lookup(LoadAll(hs), k) == LastFor(Flatten(hs), k)
    decreases |hs|
  {
    if hs != [] {
      var init := hs[..|hs| - 1];
      LoadAllLastWins(init);
      LoadHeaderDistinct(LoadAll(init), hs[|hs| - 1]);
      forall k ensures Lookup(LoadAll(hs), k) == LastFor(Flatten(hs), k) {
        LastForAppend(Flatten(init), hs[|hs| - 1], k);
      }
    }
  }

  function CookieItems(cs: seq<Cookie>): (r: seq<string>)
    ensures |r| == |cs|
    ensures forall j :: 0 <= j < |cs| ==> r[j] == cs[j].key + "=" + cs[j].value
  {
    if cs == [] then [] else CookieItems(cs[..|cs| - 1]) + [cs[|cs| - 1].key + "=" + cs[|cs| - 1].value]
  }

  /** `"; ".join(f"{k}={v}" ...)`. */
  function JoinCookies(cs: seq<Cookie>): string {
    Join(CookieItems(cs), "; ")
  }

  /**
   * The cookie string of a response: the Set-Cookie jar if it holds
   * anything, else the response's own cookies, else "".
   */
  function CookieString(jar: seq<Cookie>, responseCookies: seq<Cookie>): (r: string)
    ensures jar != [] ==> r == JoinCookies(jar)
    ensures jar == [] && responseCookies != [] ==> r == JoinCookies(responseCookies)
    ensures r == "" <==> (jar == [] || JoinCookies(jar) == "") && (responseCookies == [] || jar != [] || JoinCookies(responseCookies) == "")
  {
    if jar != [] then JoinCookies(jar)
    else if responseCookies != [] then JoinCookies(responseCookies)
    else ""
  }

  /**
   * `_build_cookie_from_response`: load each Set-Cookie header's morsels
   * into a jar, then join it (or the response's own cookies).
   */
  method BuildCookieFromResponse(headers: seq<seq<Cookie>>, responseCookies: seq<Cookie>) returns (s: string)
    ensures s == CookieString(LoadAll(headers), responseCookies)
  {
    var jar: seq<Cookie> := [];
    var i := 0;
    while i < |headers|
      invariant 0 <= i <= |headers|
      invariant jar == LoadAll(headers[..i])
    {
      var h := headers[i];
      var j := 0;
      while j < |h|
        invariant 0 <= j <= |h|
        invariant jar == LoadHeader(LoadAll(headers[..i]), h[..j])
      {
        assert h[..j + 1][..j] == h[..j];
        jar := Put(jar, h[j]);
        j := j + 1;
      }
      assert h[..j] == h;
      assert headers[..i + 1][..i] == headers[..i];
      i := i + 1;
    }
    assert headers[..i] == headers;
    if jar != [] {
      s := JoinCookies(jar);
    } else if responseCookies != [] {
      s := JoinCookies(responseCookies);
    } else {
      s := "";
    }
  }

  /** The `obj` member of the login reply: a dict (a missing member reads as "") or some other value. */
  datatype LoginObj = ObjDict(userId: string, token: string) | ObjNotDict

  /** The decoded JSON body; `success` is the truthiness of its `success` member. */
  datatype LoginBody = BodyDict(success: bool, obj: LoginObj, errorMessage: string) | BodyNotDict

  /** What the share-login GET comes back with. */
  datatype LoginReply =
    | LoginAnswered(body: LoginBody, setCookieHeaders: seq<seq<Cookie>>, responseCookies: seq<Cookie>)
    | LoginRequestFailed(detail: string)  // a `requests` exception, HTTP errors included
    | LoginUnreadable(detail: string)     // `response.json()` raised ValueError

  datatype ShareLoginInfo = ShareLoginInfo(success: bool, userId: string, token: string, cookies: string, error: string)

  const EmptySignError := "sign为空，无法请求分享登录接口"

  /** The query parameters of the share-login request. */
  function ShareLoginParams(sign: string): (p: map<string, string>)
    ensures p.Keys == {"bizCode", "source", "sign"}
    ensures !('%' in Strip(sign)) ==> p["sign"] == Strip(sign)
  {
    map["bizCode" := "622", "source" := "SFAPP", "sign" := PercentDecode(Strip(sign))]
  }

  /** A percent-encoded sign reaches the request decoded, whatever it holds. */
  lemma EncodedSignDecoded(s: string)
    requires s != ""
    ensures ShareLoginParams(PercentEncode(s))["sign"] == s
  {
    var e := PercentEncode(s);
    EncodedEnds(Utf8Encode(s));
    StripNoSpace(e);
    PercentRoundTrip(s);
  }

  lemma {:induction false} EncodedEnds(bs: seq<byte>)
    requires bs != []
    ensures var e := EncodeBytes(bs); e[0] == '%' && IsHex(e[|e| - 1]) && !IsSpace(e[0]) && !IsSpace(e[|e| - 1])
  {
    if |bs| > 1 {
      EncodedEnds(bs[1..]);
      var e := EncodeBytes(bs);
      assert e[3..] == EncodeBytes(bs[1..]);
    }
  }

  /**
   * `share_login(sign)` given the reply its request gets. An empty sign
   * returns before any request, so the reply is not consulted.
   */
  function ShareLogin(sign: string, reply: LoginReply): (r: ShareLoginInfo)
    ensures sign == "" ==> r == ShareLoginInfo(false, "", "", "", EmptySignError)
    ensures reply.LoginAnswered? && reply.body.BodyNotDict? ==> !r.success
    ensures !reply.LoginAnswered? ==> !r.success && r.userId == "" && r.token == "" && r.cookies == ""
    ensures r.success ==> sign != "" && reply.LoginAnswered? && reply.body.BodyDict? && reply.body.success
    ensures sign != "" && reply.LoginAnswered? ==>
      r.cookies == CookieString(LoadAll(reply.setCookieHeaders), reply.responseCookies)
    ensures sign != "" && reply.LoginAnswered? && reply.body.BodyDict? ==>
      && r.success == reply.body.success && r.error == reply.body.errorMessage
      && (reply.body.obj.ObjDict? ==> r.userId == reply.body.obj.userId && r.token == reply.body.obj.token)
      && (reply.body.obj.ObjNotDict? ==> r.userId == "" && r.token == "")
  {
    if sign == "" then ShareLoginInfo(false, "", "", "", EmptySignError)
    else
      match reply
      case LoginRequestFailed(d) => ShareLoginInfo(false, "", "", "", "请求分享登录接口失败: " + d)
      case LoginUnreadable(d) => ShareLoginInfo(false, "", "", "", "分享登录响应解析失败: " + d)
      case LoginAnswered(body, headers, responseCookies) =>
        var cookies := CookieString(LoadAll(headers), responseCookies);
        match body
        case BodyNotDict => ShareLoginInfo(false, "", "", cookies, "分享登录返回异常")
        case BodyDict(success, obj, msg) =>
          match obj
          case ObjDict(uid, tok) => ShareLoginInfo(success, uid, tok, cookies, msg)
          case ObjNotDict => ShareLoginInfo(success, "", "", cookies, msg)
  }

  /** With an empty sign no request is made: every reply gives the same result. */
  lemma EmptySignMakesNoRequest(r1: LoginReply, r2: LoginReply)
    ensures ShareLogin("", r1) == ShareLogin("", r2)
  {
  }

  // ------------------------------------------------------------- _post_json

  /** One entry of a reward list: a dict with its `point` (0 when missing), or not a dict. */
  datatype RewardItem = PointItem(point: int) | NotDictItem

  /** The `obj` member of a POST reply: a list of reward entries, or anything else. */
  datatype ReplyObj = ObjList(items: seq<RewardItem>) | ObjOther

  /** A decoded POST reply; `success` is the truthiness of its `success` member. */
  datatype Body = Body(success: bool, obj: ReplyObj)

  /** How a POST ends at the transport level. */
  datatype Transport =
    | Answered(body: Body)
    | RequestFailed(detail: string)  // a `requests` exception: caught by `_post_json`
    | Raised(detail: string)         // any other exception (from `get_sw8`, say): propagates

  /** What `_post_json` hands back to its caller. */
  datatype PostResult = Json(body: Body) | ErrorDict(error: string, message: string) | Raises(detail: string)

  /** `_post_json`: a transport exception becomes `{"success": False, "error": ..., "message": ...}`. */
  function PostJson(t: Transport, errorMessage: string): (r: PostResult)
    ensures t.RequestFailed? <==> r.ErrorDict?
    ensures t.RequestFailed? ==> r.error == t.detail && r.message == errorMessage
    ensures t.Answered? <==> r.Json?
  {
    match t
    case Answered(b) => Json(b)
    case RequestFailed(d) => ErrorDict(d, errorMessage)
    case Raised(d) => Raises(d)
  }

  /** `result.get('success')` is truthy. */
  predicate Succeeded(r: PostResult) {
    r.Json? && r.body.success
  }

  /** A transport failure never reads as success. */
  lemma FailedPostNotSucceeded(t: Transport, errorMessage: string)
    requires !t.Answered?
    ensures !Succeeded(PostJson(t, errorMessage))
  {
  }
}
