/**
 * The WPS client (`WPSAPI`): cookie-string parsing, the classification of
 * the key, sign-in and lottery replies, and the fold that reads the user's
 * lottery count and points out of the page-info `data` list. Each reply is
 * an input; the encryption between the key and the sign-in request is
 * foreign code and its failures arrive as an exception of the sign-in
 * request.
 */
module WpsApi {
  import opened Wrappers
  import opened Text

  // ------------------------------------------------------- _parse_cookies

  /** The dict built from the `"; "`-separated items, item by item. */
  function CookieDict(items: seq<string>): map<string, string> {
    if items == [] then map[]
    else
      var m := CookieDict(items[..|items| - 1]);
      match SplitOnce(items[|items| - 1], "=")
      case None => m
      case Some((k, v)) => m[k := v]
  }

  /** `_parse_cookies`: split on `"; "`, keep the items holding '=', split each at its first '='. */
  method ParseCookies(cookieStr: string) returns (cookies: map<string, string>)
    ensures cookies == CookieDict(Split(cookieStr, "; "))
  {
    var items := Split(cookieStr, "; ");
    cookies := map[];
    var i := 0;
    while i < |items|
      invariant 0 <= i <= |items|
      invariant cookies == CookieDict(items[..i])
    {
      var item := items[i];
      CookieDictStep(items, i);
      ContainsChar(item, '=');
      if '=' in item {
        var kv := SplitOnce(item, "=").value;
        cookies := cookies[kv.0 := kv.1];
      }
      i := i + 1;
    }
    assert items[..i] == items;
  }

  lemma CookieDictStep(items: seq<string>, i: nat)
    requires i < |items|
    ensures CookieDict(items[..i + 1]) ==
      match SplitOnce(items[i], "=")
      case None => CookieDict(items[..i])
      case Some((k, v)) => CookieDict(items[..i])[k := v]
  {
    assert items[..i + 1][..i] == items[..i];
  }

  /** An item without '=' contributes nothing. */
  lemma ItemWithoutEquals(items: seq<string>, x: string)
    requires !('=' in x)
    ensures CookieDict(items + [x]) == CookieDict(items)
  {
    assert (items + [x])[..|items|] == items;
    ContainsChar(x, '=');
  }

  /** An item `k=v` whose key holds no '=' sets `k` to `v`, overwriting any earlier value. */
  lemma LaterItemWins(items: seq<string>, k: string, v: string)
    requires !('=' in k)
    ensures CookieDict(items + [k + "=" + v]) == CookieDict(items)[k := v]
  {
    assert (items + [k + "=" + v])[..|items|] == items;
    ContainsChar(k, '=');
    SplitOnceAt(k + "=" + v, "=", k, v);
  }

  /**
   * The value of a key is the one of the last item naming it: an item
   * `k=v` followed only by items that are without '=' or name other keys.
   */
  lemma {:induction false} LastItemDecides(items: seq<string>, j: nat, k: string, v: string)
    requires j < |items| && items[j] == k + "=" + v && !('=' in k)
    requires forall l :: j < l < |items| ==> !('=' in items[l]) || (SplitOnce(items[l], "=").Some? && SplitOnce(items[l], "=").value.0 != k)
    ensures k in CookieDict(items) && CookieDict(items)[k] == v
    decreases |items|
  {
    var init := items[..|items| - 1];
    var last := items[|items| - 1];
    assert items == init + [last];
    if j == |items| - 1 {
      LaterItemWins(init, k, v);
    } else {
      LastItemDecides(init, j, k, v);
      if !('=' in last) {
        ItemWithoutEquals(init, last);
      }
    }
  }

  // --------------------------------------------------------------- replies

  /** The common members of a JSON reply; a missing `result` or `ext_msg` reads as "". */
  datatype Envelope = Envelope(result: string, hasData: bool, msg: Option<string>, code: Option<int>, extMsg: string)

  predicate IsOk(e: Envelope) { e.result == "ok" }
  predicate OkWithData(e: Envelope) { e.result == "ok" && e.hasData }
  predicate NotLoggedIn(e: Envelope) { e.code == Some(2000000) && e.extMsg == "userNotLogin" }

  const UnknownError := "未知错误"
  const TokenExpiredMessage := "Token已过期，请重新登录"

  function Msg(e: Envelope): string { e.msg.GetOr(UnknownError) }

  /**
   * How a request that raises for a bad HTTP status ends: a decoded reply,
   * a `requests` exception (HTTP errors included) or any other exception.
   */
  datatype Reply<T> = Answered(envelope: Envelope, data: T) | NetworkError(detail: string) | OtherError(detail: string)

  /** The error text of a request that raised. */
  function RaisedMessage<T>(r: Reply<T>): string
    requires !r.Answered?
  {
    if r.NetworkError? then "网络请求失败: " + r.detail else "未知错误: " + r.detail
  }

  // ------------------------------------------------------- get_encrypt_key

  /** `get_encrypt_key`: the public key when the reply is ok and carries data. */
  function EncryptKey(r: Reply<string>): (k: Result<string, string>)
    ensures k.Ok? <==> r.Answered? && OkWithData(r.envelope)
    ensures k.Ok? ==> k.value == r.data
    ensures r.Answered? && !OkWithData(r.envelope) ==> k == Err(Msg(r.envelope))
  {
    match r
    case Answered(e, key) => if OkWithData(e) then Ok(key) else Err(Msg(e))
    case _ => Err(RaisedMessage(r))
  }

  // ---------------------------------------------------------------- sign_in

  /** The sign-in reply's `data`: the `reward_name` of each reward ("" when absent). */
  datatype SignData = SignData(rewardNames: seq<string>)

  /** How the sign-in POST ends; it does not raise for a bad HTTP status. */
  datatype SignReply =
    | SignAnswered(status: int, envelope: Envelope, data: SignData)
    | SignNetworkError(detail: string)
    | SignOtherError(detail: string)

  datatype SignOutcome = Signed(alreadySigned: bool, data: SignData) | SignFailed(error: string, tokenExpired: bool)

  /** `sign_in`: fetch the key, and only with a key post the encrypted request and classify its reply. */
  function SignIn(key: Reply<string>, post: SignReply): (r: SignOutcome)
    ensures EncryptKey(key).Err? ==> r == SignFailed("获取公钥失败: " + EncryptKey(key).error, false)
    ensures r.Signed? <==>
              EncryptKey(key).Ok? && post.SignAnswered? && post.status == 200
              && (IsOk(post.envelope) || (!NotLoggedIn(post.envelope) && Msg(post.envelope) == "has sign"))
    ensures r.Signed? ==> r.alreadySigned == !IsOk(post.envelope) && r.data == post.data
    ensures (r.SignFailed? && r.tokenExpired) <==>
              EncryptKey(key).Ok? && post.SignAnswered? && post.status == 200
              && !IsOk(post.envelope) && NotLoggedIn(post.envelope)
    ensures EncryptKey(key).Ok? && post.SignAnswered? && post.status != 200 ==> r == SignFailed("HTTP " + IntToDecimal(post.status), false)
  {
    match EncryptKey(key)
    case Err(e) => SignFailed("获取公钥失败: " + e, false)
    case Ok(_) =>
      match post
      case SignNetworkError(d) => SignFailed("网络请求失败: " + d, false)
      case SignOtherError(d) => SignFailed("未知错误: " + d, false)
      case SignAnswered(status, e, data) =>
        if status != 200 then SignFailed("HTTP " + IntToDecimal(status), false)
        else if IsOk(e) then Signed(false, data)
        else if NotLoggedIn(e) then SignFailed(TokenExpiredMessage, true)
        else if Msg(e) == "has sign" then Signed(true, data)
        else SignFailed(Msg(e), false)
  }

  /** Without a key the sign-in request is never sent: its reply cannot matter. */
  lemma KeyFailureSkipsPost(key: Reply<string>, p1: SignReply, p2: SignReply)
    requires EncryptKey(key).Err?
    ensures SignIn(key, p1) == SignIn(key, p2)
  {
  }

  /** The expiry check comes first: an expired login saying "has sign" is still expired. */
  lemma ExpiryBeforeHasSign(key: Reply<string>, e: Envelope, data: SignData)
    requires EncryptKey(key).Ok? && !IsOk(e) && NotLoggedIn(e) && e.msg == Some("has sign")
    ensures SignIn(key, SignAnswered(200, e, data)) == SignFailed(TokenExpiredMessage, true)
  {
  }

  // ---------------------------------------------------------------- lottery

  /** The reply's `data.lottery_v2` (all defaults when absent). */
  datatype LotteryV2 = LotteryV2(success: bool, rewardName: Option<string>, sendMsg: Option<string>, errorCode: Option<int>)

  /** One draw: a prize, a refusal inside an ok reply, or a failed request. */
  datatype Draw = Won(prizeName: string) | Missed(error: string, errorCode: int) | Refused(error: string, tokenExpired: bool)

  predicate DrawSucceeded(d: Draw) { d.Won? }
  predicate DrawTokenExpired(d: Draw) { d.Refused? && d.tokenExpired }

  /** `lottery`. */
  function Lottery(r: Reply<LotteryV2>): (d: Draw)
    ensures d.Won? <==> r.Answered? && OkWithData(r.envelope) && r.data.success
    ensures d.Won? ==> d.prizeName == r.data.rewardName.GetOr("未知")
    ensures d.Missed? <==> r.Answered? && OkWithData(r.envelope) && !r.data.success
    ensures d.Missed? ==> d.error == r.data.sendMsg.GetOr("抽奖失败") && d.errorCode == r.data.errorCode.GetOr(0)
    ensures DrawTokenExpired(d) <==> r.Answered? && !OkWithData(r.envelope) && NotLoggedIn(r.envelope)
  {
    match r
    case Answered(e, v2) =>
      if OkWithData(e) then
        if v2.success then Won(v2.rewardName.GetOr("未知"))
        else Missed(v2.sendMsg.GetOr("抽奖失败"), v2.errorCode.GetOr(0))
      else if NotLoggedIn(e) then Refused(TokenExpiredMessage, true)
      else Refused(Msg(e), false)
    case _ => Refused(RaisedMessage(r), false)
  }

  // ---------------------------------------------------------- get_user_info

  datatype Session = Session(status: string, times: int)
  datatype TaskCenter = TaskCenter(integral: int, adventIntegral: int)

  /**
   * One entry of the page-info `data` list: its `type`, its `lottery_v2`
   * session list and `task_center_user_info` when present, its `number`
   * and `component_node_id` ("" when absent).
   */
  datatype Item = Item(itemType: Option<int>, lottery: Option<seq<Session>>, taskCenter: Option<TaskCenter>,
                       number: string, nodeId: string)

  datatype UserInfo = UserInfo(lotteryTimes: int, points: int, adventPoints: int,
                               lotteryNumber: string, lotteryNodeId: string,
                               pointsNumber: string, pointsNodeId: string)

  const EmptyUserInfo := UserInfo(0, 0, 0, "", "", "", "")
  const InProgress := "IN_PROGRESS"

  /** The `times` of the first session in progress. */
  function FirstInProgress(sessions: seq<Session>): (r: Option<int>)
    ensures r.None? <==> forall j :: 0 <= j < |sessions| ==> sessions[j].status != InProgress
  {
    if sessions == [] then None
    else if sessions[0].status == InProgress then Some(sessions[0].times)
    else FirstInProgress(sessions[1..])
  }

  lemma {:induction false} FirstInProgressAt(sessions: seq<Session>, j: nat)
    requires j < |sessions| && sessions[j].status == InProgress
    requires forall l :: 0 <= l < j ==> sessions[l].status != InProgress
    ensures FirstInProgress(sessions) == Some(sessions[j].times)
    decreases j
  {
    if j > 0 {
      FirstInProgressAt(sessions[1..], j - 1);
    }
  }

  /** A type-45 item whose lottery has a session in progress. */
  predicate LotteryMatch(it: Item) {
    it.itemType == Some(45) && it.lottery.Some? && FirstInProgress(it.lottery.value).Some?
  }

  /** A type-36 item carrying the task-center numbers. */
  predicate PointsMatch(it: Item) {
    it.itemType == Some(36) && it.taskCenter.Some?
  }

  function ApplyItem(u: UserInfo, it: Item): UserInfo {
    if it.itemType == Some(45) && it.lottery.Some? then
      match FirstInProgress(it.lottery.value)
      case None => u
      case Some(t) => u.(lotteryTimes := t, lotteryNumber := it.number, lotteryNodeId := it.nodeId)
    else if PointsMatch(it) then
      u.(points := it.taskCenter.value.integral, adventPoints := it.taskCenter.value.adventIntegral,
         pointsNumber := it.number, pointsNodeId := it.nodeId)
    else u
  }

  /** The user info after visiting the items in order. */
  function FoldItems(items: seq<Item>): UserInfo {
    if items == [] then EmptyUserInfo else ApplyItem(FoldItems(items[..|items| - 1]), items[|items| - 1])
  }

  /** `get_user_info`'s classification of its reply. */
  function UserInfoOf(r: Reply<seq<Item>>): (res: Result<UserInfo, string>)
    ensures res.Ok? <==> r.Answered? && OkWithData(r.envelope)
  {
    match r
    case Answered(e, items) => if OkWithData(e) then Ok(FoldItems(items)) else Err(Msg(e))
    case _ => Err(RaisedMessage(r))
  }

  /** `get_user_info`: the loop over the data list, with the inner search for a session in progress. */
  method GetUserInfo(r: Reply<seq<Item>>) returns (res: Result<UserInfo, string>)
    ensures res == UserInfoOf(r)
  {
    if !r.Answered? {
      return Err(RaisedMessage(r));
    }
    if !OkWithData(r.envelope) {
      return Err(Msg(r.envelope));
    }
    var items := r.data;
    var info := EmptyUserInfo;
    var i := 0;
    while i < |items|
      invariant 0 <= i <= |items|
      invariant info == FoldItems(items[..i])
    {
      assert items[..i + 1][..i] == items[..i];
      var it := items[i];
      ghost var before := info;
      if it.itemType == Some(45) && it.lottery.Some? {
        var sessions := it.lottery.value;
        var j := 0;
        while j < |sessions|
          invariant 0 <= j <= |sessions|
          invariant info == before
          invariant forall l :: 0 <= l < j ==> sessions[l].status != InProgress
        {
          if sessions[j].status == InProgress {
            FirstInProgressAt(sessions, j);
            info := info.(lotteryTimes := sessions[j].times, lotteryNumber := it.number, lotteryNodeId := it.nodeId);
            break;
          }
          j := j + 1;
        }
      } else if it.itemType == Some(36) && it.taskCenter.Some? {
        var tc := it.taskCenter.value;
        info := info.(points := tc.integral, adventPoints := tc.adventIntegral,
                      pointsNumber := it.number, pointsNodeId := it.nodeId);
      }
      assert info == ApplyItem(before, it);
      i := i + 1;
    }
    assert items[..i] == items;
    res := Ok(info);
  }

  lemma {:induction false} LotteryUntouched(items: seq<Item>)
    requires forall l :: 0 <= l < |items| ==> !LotteryMatch(items[l])
    ensures FoldItems(items).lotteryTimes == 0 && FoldItems(items).lotteryNumber == "" && FoldItems(items).lotteryNodeId == ""
    decreases |items|
  {
    if items != [] {
      LotteryUntouched(items[..|items| - 1]);
    }
  }

  /**
   * The lottery fields come from the last item with a session in progress,
   * and from that item's first such session; with no such item they keep
   * their defaults.
   */
  lemma {:induction false} LotteryFromLastMatch(items: seq<Item>, j: nat)
    requires j < |items| && LotteryMatch(items[j])
    requires forall l :: j < l < |items| ==> !LotteryMatch(items[l])
    ensures var u := FoldItems(items);
      && u.lotteryTimes == FirstInProgress(items[j].lottery.value).value
      && u.lotteryNumber == items[j].number && u.lotteryNodeId == items[j].nodeId
    decreases |items|
  {
    if j < |items| - 1 {
      LotteryFromLastMatch(items[..|items| - 1], j);
    }
  }

  /** The points fields come from the last type-36 item carrying task-center numbers. */
  lemma {:induction false} PointsFromLastMatch(items: seq<Item>, j: nat)
    requires j < |items| && PointsMatch(items[j])
    requires forall l :: j < l < |items| ==> !PointsMatch(items[l])
    ensures var u := FoldItems(items);
      && u.points == items[j].taskCenter.value.integral
      && u.adventPoints == items[j].taskCenter.value.adventIntegral
      && u.pointsNumber == items[j].number && u.pointsNodeId == items[j].nodeId
    decreases |items|
  {
    if j < |items| - 1 {
      PointsFromLastMatch(items[..|items| - 1], j);
    }
  }
}
