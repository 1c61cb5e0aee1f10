/**
 * The WPS coordinator (`WPSTasks`): the per-account pipeline of
 * `process_account` (guards, sign-in, user info, the lottery loop, final
 * user info), `run` over all accounts and the counters of `_print_summary`.
 * Every remote reply is an input (`WpsReplies`); the i-th draw of an
 * account receives `lottery(i)`. The calls made and the random waits are
 * returned as a trace of events.
 */
module WpsMain {
  import opened Wrappers
  import opened WpsApi

  /** One entry of `accounts` in the configuration; a `user_id` of 0 is falsy like a missing one. */
  datatype AccountInfo = AccountInfo(accountName: Option<string>, userId: Option<int>, cookies: string,
                                     maxLotteryLimit: Option<int>)

  /** The replies one account's requests receive. */
  datatype WpsReplies = WpsReplies(key: Reply<string>, signPost: SignReply, userInfo: Reply<seq<Item>>,
                                   lottery: nat -> Reply<LotteryV2>, finalUserInfo: Reply<seq<Item>>)

  datatype Event =
    | KeyCall | SignCall | UserInfoCall
    | DrawPause                                   // `random.uniform(1, 3)` before each draw
    | LotteryCall(number: string, nodeId: string)
    | AccountPause                                // `random.uniform(5, 10)` between accounts

  const DefaultAccountName := "未命名账号"
  const MissingUserId := "账号配置中缺少user_id，跳过签到"
  const MissingCookies := "账号配置中缺少cookies"
  const AlreadySigned := "今日已签到"
  const FreshlySigned := "签到成功"
  const DefaultNumber := "ZJ2025092916515917"
  const DefaultNodeId := "FN1762346087mJlk"
  const DefaultMaxLottery := 5

  // ---------------------------------------------------------- sign rewards

  /** The non-empty `reward_name`s, in order. */
  function Rewards(names: seq<string>): (r: seq<string>)
    ensures |r| <= |names|
    ensures forall j :: 0 <= j < |r| ==> r[j] != "" && r[j] in names
  {
    if names == [] then []
    else
      var init := Rewards(names[..|names| - 1]);
      var last := names[|names| - 1];
      if last == "" then init else init + [last]
  }

  /** Filtering distributes over concatenation, so the order of the rewards is kept. */
  lemma {:induction false} RewardsAppend(a: seq<string>, b: seq<string>)
    ensures Rewards(a + b) == Rewards(a) + Rewards(b)
    decreases |b|
  {
    if b == [] {
      assert a + b == a;
    } else {
      var b' := b[..|b| - 1];
      assert (a + b)[..|a + b| - 1] == a + b';
      RewardsAppend(a, b');
    }
  }

  /** Names that are all non-empty are kept as they are. */
  lemma {:induction false} RewardsKeepsNonEmpty(names: seq<string>)
    requires forall j :: 0 <= j < |names| ==> names[j] != ""
    ensures Rewards(names) == names
  {
    if names != [] {
      RewardsKeepsNonEmpty(names[..|names| - 1]);
    }
  }

  // ---------------------------------------------------------- lottery loop

  predicate Stopped(ds: seq<Draw>) {
    ds != [] && DrawTokenExpired(ds[|ds| - 1])
  }

  /** The draws of a loop over `range(k)`: the i-th call gets `replies(i)`, and the loop breaks after a token expiry. */
  function DrawLoop(k: nat, replies: nat -> Reply<LotteryV2>): (ds: seq<Draw>)
    ensures |ds| <= k
  {
    if k == 0 then []
    else
      var ds := DrawLoop(k - 1, replies);
      if Stopped(ds) then ds else ds + [Lottery(replies(|ds|))]
  }

  /** The prizes of the successful draws, in order. */
  function Prizes(ds: seq<Draw>): (ps: seq<string>)
    ensures |ps| <= |ds|
  {
    if ds == [] then []
    else
      var init := Prizes(ds[..|ds| - 1]);
      var last := ds[|ds| - 1];
      if last.Won? then init + [last.prizeName] else init
  }

  function CountWon(ds: seq<Draw>): nat {
    if ds == [] then 0 else CountWon(ds[..|ds| - 1]) + (if ds[|ds| - 1].Won? then 1 else 0)
  }

  /**
   * The loop makes the i-th call with the i-th reply, continues past any
   * failure other than a token expiry, and ends either after all `k` calls
   * or right after the first expiry.
   */
  lemma {:induction false} DrawLoopShape(k: nat, replies: nat -> Reply<LotteryV2>)
    ensures var ds := DrawLoop(k, replies);
      && (forall i :: 0 <= i < |ds| ==> ds[i] == Lottery(replies(i)))
      && (forall i :: 0 <= i < |ds| - 1 ==> !DrawTokenExpired(ds[i]))
      && (|ds| == k || Stopped(ds))
  {
    if k > 0 {
      DrawLoopShape(k - 1, replies);
    }
  }

  /** Once stopped, further iterations add nothing. */
  lemma {:induction false} DrawLoopStopped(k: nat, m: nat, replies: nat -> Reply<LotteryV2>)
    requires k <= m && Stopped(DrawLoop(k, replies))
    ensures DrawLoop(m, replies) == DrawLoop(k, replies)
    decreases m - k
  {
    if k < m {
      DrawLoopStopped(k, m - 1, replies);
    }
  }

  /** `successful_draws` counts the prizes. */
  lemma {:induction false} PrizesCountWon(ds: seq<Draw>)
    ensures |Prizes(ds)| == CountWon(ds)
  {
    if ds != [] {
      PrizesCountWon(ds[..|ds| - 1]);
    }
  }

  function DrawEvents(m: nat, number: string, nodeId: string): (es: seq<Event>)
    ensures |es| == 2 * m
  {
    if m == 0 then [] else DrawEvents(m - 1, number, nodeId) + [DrawPause, LotteryCall(number, nodeId)]
  }

  /** The `for` loop over `range(planned)` with its `break` on a token expiry. */
  method RunDraws(planned: int, number: string, nodeId: string, replies: nat -> Reply<LotteryV2>)
    returns (results: seq<Draw>, prizes: seq<string>, events: seq<Event>)
    ensures results == DrawLoop(if planned > 0 then planned else 0, replies)
    ensures prizes == Prizes(results)
    ensures events == DrawEvents(|results|, number, nodeId)
  {
    var n: nat := if planned > 0 then planned else 0;
    results, prizes, events := [], [], [];
    var i := 0;
    while i < n
      invariant 0 <= i <= n
      invariant results == DrawLoop(i, replies) && |results| == i && !Stopped(results)
      invariant prizes == Prizes(results)
      invariant events == DrawEvents(i, number, nodeId)
    {
      events := events + [DrawPause, LotteryCall(number, nodeId)];
      var d := Lottery(replies(i));
      assert (results + [d])[..i] == results;
      results := results + [d];
      if d.Won? {
        prizes := prizes + [d.prizeName];
      } else if d.Refused? && d.tokenExpired {
        DrawLoopStopped(i + 1, n, replies);
        break;
      }
      i := i + 1;
    }
  }

  // ------------------------------------------------------- process_account

  /** `result['lottery_info']`. */
  datatype LotteryInfo = LotteryInfo(totalAttempts: int, successfulDraws: nat, results: seq<Draw>, prizes: seq<string>)

  /**
   * The dict `process_account` returns. `lotteryInfo`, `userInfo` and
   * `finalUserInfo` are None where the source leaves `{}`; `signInfo` is
   * None only before the sign-in reply, and an empty `sign_info` reply is
   * `Some(SignData([]))`.
   */
  datatype AccountResult = AccountResult(
    accountName: string, success: bool, message: string,
    signInfo: Option<SignData>, signRewards: seq<string>,
    lotteryInfo: Option<LotteryInfo>, userInfo: Option<UserInfo>, finalUserInfo: Option<UserInfo>)

  predicate HasUserId(a: AccountInfo) { a.userId.Some? && a.userId.value != 0 }

  function Min(x: int, y: int): int { if x <= y then x else y }

  function Blank(a: AccountInfo): AccountResult {
    AccountResult(a.accountName.GetOr(DefaultAccountName), false, "", None, [], None, None, None)
  }

  function SignEvents(key: Reply<string>): seq<Event> {
    if EncryptKey(key).Ok? then [KeyCall, SignCall] else [KeyCall]
  }

  /** The number of draws planned: the lottery count capped by the limit, 5 when no limit is configured. */
  function Planned(times: int, limit: Option<int>): int {
    Min(times, limit.GetOr(DefaultMaxLottery))
  }

  /** What follows a successful sign-in: the user info, the lottery loop and the final user info. */
  function AfterSignIn(a: AccountInfo, env: WpsReplies, r: AccountResult): (AccountResult, seq<Event>) {
    var info := UserInfoOf(env.userInfo);
    var times := if info.Ok? then info.value.lotteryTimes else 0;
    var number := if info.Ok? then info.value.lotteryNumber else DefaultNumber;
    var nodeId := if info.Ok? then info.value.lotteryNodeId else DefaultNodeId;
    var planned := Planned(times, a.maxLotteryLimit);
    var draws := DrawLoop(if planned > 0 then planned else 0, env.lottery);
    var lotteryInfo := if times > 0 then Some(LotteryInfo(planned, CountWon(draws), draws, Prizes(draws))) else r.lotteryInfo;
    var drawEvents := if times > 0 then DrawEvents(|draws|, number, nodeId) else [];
    var final := UserInfoOf(env.finalUserInfo);
    (r.(userInfo := if info.Ok? then Some(info.value) else r.userInfo,
        lotteryInfo := lotteryInfo,
        finalUserInfo := if final.Ok? then Some(final.value) else r.finalUserInfo),
     [UserInfoCall] + drawEvents + [UserInfoCall])
  }

  /** `process_account`: the result and the calls and waits it makes. */
  function AccountRun(a: AccountInfo, env: WpsReplies): (AccountResult, seq<Event>) {
    var blank := Blank(a);
    if !HasUserId(a) then (blank.(message := MissingUserId), [])
    else if a.cookies == "" then (blank.(message := MissingCookies), [])
    else
      match SignIn(env.key, env.signPost)
      case SignFailed(error, expired) =>
        (blank.(message := if expired then TokenExpiredMessage else error), SignEvents(env.key))
      case Signed(already, data) =>
        var signed := blank.(success := true, signInfo := Some(data),
                             message := if already then AlreadySigned else FreshlySigned,
                             signRewards := if already then [] else Rewards(data.rewardNames));
        var (r, es) := AfterSignIn(a, env, signed);
        (r, SignEvents(env.key) + es)
  }

  /** `process_account`, step by step. */
  method ProcessAccount(a: AccountInfo, env: WpsReplies) returns (result: AccountResult, events: seq<Event>)
    ensures (result, events) == AccountRun(a, env)
  {
    result := Blank(a);
    events := [];
    if !(a.userId.Some? && a.userId.value != 0) {
      result := result.(message := MissingUserId);
      return;
    }
    if a.cookies == "" {
      result := result.(message := MissingCookies);
      return;
    }
    events := SignEvents(env.key);
    var sign := SignIn(env.key, env.signPost);
    if sign.Signed? {
      result := result.(success := true, signInfo := Some(sign.data));
      if sign.alreadySigned {
        result := result.(message := AlreadySigned);
      } else {
        result := result.(message := FreshlySigned, signRewards := Rewards(sign.data.rewardNames));
      }
    } else {
      result := result.(message := if sign.tokenExpired then TokenExpiredMessage else sign.error);
      return;
    }
    var rest;
    result, rest := ProcessAfterSignIn(a, env, result);
    events := events + rest;
  }

  /** The part of `process_account` after a successful sign-in. */
  method ProcessAfterSignIn(a: AccountInfo, env: WpsReplies, signed: AccountResult)
    returns (result: AccountResult, events: seq<Event>)
    ensures (result, events) == AfterSignIn(a, env, signed)
  {
    result := signed;
    events := [UserInfoCall];
    var info := GetUserInfo(env.userInfo);
    if info.Ok? {
      result := result.(userInfo := Some(info.value));
    }
    var times := if info.Ok? then info.value.lotteryTimes else 0;
    var number := if info.Ok? then info.value.lotteryNumber else DefaultNumber;
    var nodeId := if info.Ok? then info.value.lotteryNodeId else DefaultNodeId;
    var limit := if a.maxLotteryLimit.None? then DefaultMaxLottery else a.maxLotteryLimit.value;
    var planned := Min(times, limit);
    var drawEvents := [];
    if times > 0 {
      var results, prizes;
      results, prizes, drawEvents := RunDraws(planned, number, nodeId, env.lottery);
      PrizesCountWon(results);
      result := result.(lotteryInfo := Some(LotteryInfo(planned, |prizes|, results, prizes)));
    }
    events := events + drawEvents + [UserInfoCall];
    var final := GetUserInfo(env.finalUserInfo);
    if final.Ok? {
      result := result.(finalUserInfo := Some(final.value));
    }
  }

  // -------------------------------------------------- per-account properties

  /** A missing `user_id` is reported before the cookies are looked at, and neither guard makes a call. */
  lemma Guards(a: AccountInfo, env: WpsReplies)
    ensures !HasUserId(a) ==> AccountRun(a, env) == (Blank(a).(message := MissingUserId), [])
    ensures HasUserId(a) && a.cookies == "" ==> AccountRun(a, env) == (Blank(a).(message := MissingCookies), [])
    ensures !HasUserId(a) || a.cookies == "" ==> !AccountRun(a, env).0.success
  {
  }

  /**
   * `success` is exactly a passed guard and a successful sign-in; a failed
   * sign-in, expired or not, leaves no user info and no lottery, and makes
   * no call after the sign-in.
   */
  lemma SuccessIsSignIn(a: AccountInfo, env: WpsReplies)
    ensures var (r, es) := AccountRun(a, env);
      && (r.success <==> HasUserId(a) && a.cookies != "" && SignIn(env.key, env.signPost).Signed?)
      && (!r.success ==> r.userInfo.None? && r.lotteryInfo.None? && r.finalUserInfo.None?
                         && UserInfoCall !in es && forall e :: e in es ==> !e.LotteryCall?)
  {
    var (r, es) := AccountRun(a, env);
    if !r.success && HasUserId(a) && a.cookies != "" {
      assert es == SignEvents(env.key);
    }
  }

  /** An expired token on sign-in is reported with its own message. */
  lemma ExpiredSignIn(a: AccountInfo, env: WpsReplies)
    requires HasUserId(a) && a.cookies != ""
    requires SignIn(env.key, env.signPost).SignFailed? && SignIn(env.key, env.signPost).tokenExpired
    ensures AccountRun(a, env).0.message == TokenExpiredMessage
  {
  }

  /** Rewards are kept only on a fresh sign-in, the non-empty names in order. */
  lemma SignRewards(a: AccountInfo, env: WpsReplies)
    requires HasUserId(a) && a.cookies != "" && SignIn(env.key, env.signPost).Signed?
    ensures var s := SignIn(env.key, env.signPost);
      var r := AccountRun(a, env).0;
      && r.message == (if s.alreadySigned then AlreadySigned else FreshlySigned)
      && r.signRewards == (if s.alreadySigned then [] else Rewards(s.data.rewardNames))
  {
  }

  /**
   * `lottery_info` exists only when the user info reported draws; its
   * `total_attempts` is the planned count, which the calls never exceed and
   * fall short of only after a token expiry; `successful_draws` is the
   * number of prizes, and each draw's prize comes from its own reply.
   */
  lemma LotteryInfoFacts(a: AccountInfo, env: WpsReplies)
    requires AccountRun(a, env).0.success
    ensures var r := AccountRun(a, env).0;
      var info := UserInfoOf(env.userInfo);
      var times := if info.Ok? then info.value.lotteryTimes else 0;
      && (r.lotteryInfo.Some? <==> times > 0)
      && (r.lotteryInfo.Some? ==>
           var li := r.lotteryInfo.value;
           && li.totalAttempts == Planned(times, a.maxLotteryLimit)
           && |li.results| <= (if li.totalAttempts > 0 then li.totalAttempts else 0)
           && (|li.results| < li.totalAttempts ==> Stopped(li.results))
           && li.successfulDraws == |li.prizes|
           && (forall i :: 0 <= i < |li.results| ==> li.results[i] == Lottery(env.lottery(i))))
  {
    var r := AccountRun(a, env).0;
    if r.lotteryInfo.Some? {
      var li := r.lotteryInfo.value;
      var n: nat := if li.totalAttempts > 0 then li.totalAttempts else 0;
      DrawLoopShape(n, env.lottery);
      PrizesCountWon(li.results);
    }
  }

  /** Without a configured limit at most five draws are made, whatever the lottery count. */
  lemma DefaultLimit(times: int)
    ensures Planned(times, None) <= DefaultMaxLottery
    ensures times <= 5 ==> Planned(times, None) == times
  {
  }

  // -------------------------------------------------------------- the run

  function NoAccountPause(es: seq<Event>): bool {
    forall j :: 0 <= j < |es| ==> es[j] != AccountPause
  }

  function CountAccountPauses(es: seq<Event>): nat {
    if es == [] then 0 else CountAccountPauses(es[..|es| - 1]) + (if es[|es| - 1] == AccountPause then 1 else 0)
  }

  /** The results of `run`, one per account, in order; account `i` sees `env(i)`. */
  function Results(accounts: seq<AccountInfo>, env: nat -> WpsReplies): (rs: seq<AccountResult>)
    ensures |rs| == |accounts|
  {
    if accounts == [] then []
    else Results(accounts[..|accounts| - 1], env) + [AccountRun(accounts[|accounts| - 1], env(|accounts| - 1)).0]
  }

  /** The trace of `run`: each account's calls, with a wait after every account but the last. */
  function RunEvents(accounts: seq<AccountInfo>, env: nat -> WpsReplies): seq<Event> {
    if accounts == [] then []
    else
      var n := |accounts| - 1;
      RunEvents(accounts[..n], env) + (if n > 0 then [AccountPause] else []) + AccountRun(accounts[n], env(n)).1
  }

  lemma {:induction false} ResultsAt(accounts: seq<AccountInfo>, env: nat -> WpsReplies, i: nat)
    requires i < |accounts|
    ensures Results(accounts, env)[i] == AccountRun(accounts[i], env(i)).0
    decreases |accounts|
  {
    if i < |accounts| - 1 {
      ResultsAt(accounts[..|accounts| - 1], env, i);
    }
  }

  lemma {:induction false} CountAccountPausesAppend(a: seq<Event>, b: seq<Event>)
    ensures CountAccountPauses(a + b) == CountAccountPauses(a) + CountAccountPauses(b)
    decreases |b|
  {
    if b == [] {
      assert a + b == a;
    } else {
      assert (a + b)[..|a + b| - 1] == a + b[..|b| - 1];
      assert (a + b)[|a + b| - 1] == b[|b| - 1];
      CountAccountPausesAppend(a, b[..|b| - 1]);
    }
  }

  lemma {:induction false} NoAccountPauseCount(es: seq<Event>)
    requires NoAccountPause(es)
    ensures CountAccountPauses(es) == 0
  {
    if es != [] {
      NoAccountPauseCount(es[..|es| - 1]);
    }
  }

  lemma AccountRunNoPause(a: AccountInfo, env: WpsReplies)
    ensures NoAccountPause(AccountRun(a, env).1)
  {
    forall r ensures NoAccountPause(AfterSignIn(a, env, r).1) {
      AfterSignInNoPause(a, env, r);
    }
    forall es | NoAccountPause(es) ensures NoAccountPause(SignEvents(env.key) + es) {
      NoPauseAppend(SignEvents(env.key), es);
    }
  }

  lemma AfterSignInNoPause(a: AccountInfo, env: WpsReplies, r: AccountResult)
    ensures NoAccountPause(AfterSignIn(a, env, r).1)
  {
    var i := UserInfoOf(env.userInfo);
    var number := if i.Ok? then i.value.lotteryNumber else DefaultNumber;
    var nodeId := if i.Ok? then i.value.lotteryNodeId else DefaultNodeId;
    var planned := Planned(if i.Ok? then i.value.lotteryTimes else 0, a.maxLotteryLimit);
    var m := |DrawLoop(if planned > 0 then planned else 0, env.lottery)|;
    DrawEventsNoPause(m, number, nodeId);
    NoPauseAppend([UserInfoCall], DrawEvents(m, number, nodeId));
    NoPauseAppend([UserInfoCall] + DrawEvents(m, number, nodeId), [UserInfoCall]);
    NoPauseAppend([UserInfoCall], []);
    NoPauseAppend([UserInfoCall] + [], [UserInfoCall]);
  }

  lemma NoPauseAppend(xs: seq<Event>, ys: seq<Event>)
    requires NoAccountPause(xs) && NoAccountPause(ys)
    ensures NoAccountPause(xs + ys)
  {
    forall j | 0 <= j < |xs + ys| ensures (xs + ys)[j] != AccountPause {
      if j >= |xs| {
        assert (xs + ys)[j] == ys[j - |xs|];
      }
    }
  }

  lemma {:induction false} DrawEventsNoPause(m: nat, number: string, nodeId: string)
    ensures NoAccountPause(DrawEvents(m, number, nodeId))
  {
    if m > 0 {
      DrawEventsNoPause(m - 1, number, nodeId);
    }
  }

  /** `run` waits between accounts only: one wait fewer than there are accounts. */
  lemma {:induction false} RunPauses(accounts: seq<AccountInfo>, env: nat -> WpsReplies)
    ensures CountAccountPauses(RunEvents(accounts, env)) == if accounts == [] then 0 else |accounts| - 1
  {
    if accounts != [] {
      var n := |accounts| - 1;
      var es := AccountRun(accounts[n], env(n)).1;
      var sep: seq<Event> := if n > 0 then [AccountPause] else [];
      RunPauses(accounts[..n], env);
      CountAccountPausesAppend(RunEvents(accounts[..n], env), sep);
      CountAccountPausesAppend(RunEvents(accounts[..n], env) + sep, es);
      AccountRunNoPause(accounts[n], env(n));
      NoAccountPauseCount(es);
      assert CountAccountPauses(sep) == (if n > 0 then 1 else 0) by {
        if n > 0 { assert sep[..0] == []; }
      }
    }
  }

  // -------------------------------------------------------------- summary

  /** The counters `_print_summary` logs. */
  datatype Summary = Summary(total: nat, success: nat, failed: int, totalAttempts: int, totalSuccessfulDraws: nat)

  function CountSuccess(rs: seq<AccountResult>): (n: nat)
    ensures n <= |rs|
  {
    if rs == [] then 0 else CountSuccess(rs[..|rs| - 1]) + (if rs[|rs| - 1].success then 1 else 0)
  }

  function SumAttempts(rs: seq<AccountResult>): int {
    if rs == [] then 0
    else
      var r := rs[|rs| - 1];
      SumAttempts(rs[..|rs| - 1]) + (if r.lotteryInfo.Some? then r.lotteryInfo.value.totalAttempts else 0)
  }

  function SumDraws(rs: seq<AccountResult>): nat {
    if rs == [] then 0
    else
      var r := rs[|rs| - 1];
      SumDraws(rs[..|rs| - 1]) + (if r.lotteryInfo.Some? then r.lotteryInfo.value.successfulDraws else 0)
  }

  /** An account that passes both guards and whose sign-in succeeds. */
  predicate SignedIn(a: AccountInfo, env: WpsReplies) {
    HasUserId(a) && a.cookies != "" && SignIn(env.key, env.signPost).Signed?
  }

  /** How many of the accounts signed in, account `i` seeing `env(i)`. */
  function CountSignedIn(accounts: seq<AccountInfo>, env: nat -> WpsReplies): (n: nat)
    ensures n <= |accounts|
  {
    if accounts == [] then 0
    else
      var k := |accounts| - 1;
      CountSignedIn(accounts[..k], env) + (if SignedIn(accounts[k], env(k)) then 1 else 0)
  }

  /** The `success` count of a run is the number of accounts that signed in. */
  lemma {:induction false} SuccessCountsSignedIn(accounts: seq<AccountInfo>, env: nat -> WpsReplies)
    ensures CountSuccess(Results(accounts, env)) == CountSignedIn(accounts, env)
  {
    if accounts != [] {
      var n := |accounts| - 1;
      SuccessCountsSignedIn(accounts[..n], env);
      var rs := Results(accounts, env);
      assert rs[..n] == Results(accounts[..n], env);
      SuccessIsSignIn(accounts[n], env(n));
    }
  }

  class WPSTasks {
    var accounts: seq<AccountInfo>
    var accountResults: seq<AccountResult>

    constructor (accounts: seq<AccountInfo>)
      ensures this.accounts == accounts && accountResults == []
    {
      this.accounts := accounts;
      accountResults := [];
    }

    /** `run`: process every account in order, waiting between accounts. */
    method Run(env: nat -> WpsReplies) returns (events: seq<Event>)
      modifies this
      ensures accounts == old(accounts)
      ensures accountResults == old(accountResults) + Results(accounts, env)
      ensures events == RunEvents(accounts, env)
    {
      events := [];
      if accounts == [] {
        return;
      }
      var idx := 0;
      while idx < |accounts|
        invariant 0 <= idx <= |accounts|
        invariant accounts == old(accounts)
        invariant accountResults == old(accountResults) + Results(accounts[..idx], env)
        invariant events == RunEvents(accounts[..idx], env)
      {
        assert accounts[..idx + 1][..idx] == accounts[..idx];
        if idx > 0 {
          events := events + [AccountPause];
        }
        var result, es := ProcessAccount(accounts[idx], env(idx));
        accountResults := accountResults + [result];
        events := events + es;
        idx := idx + 1;
      }
      assert accounts[..idx] == accounts;
    }

    /** The counters of `_print_summary`, accumulated over `account_results`. */
    method PrintSummary() returns (s: Summary)
      ensures s.total == |accountResults| && s.success == CountSuccess(accountResults)
      ensures s.failed == s.total - s.success && s.failed >= 0
      ensures s.totalAttempts == SumAttempts(accountResults)
      ensures s.totalSuccessfulDraws == SumDraws(accountResults)
    {
      var rs := accountResults;
      var success := 0;
      var attempts := 0;
      var draws := 0;
      var i := 0;
      while i < |rs|
        invariant 0 <= i <= |rs|
        invariant success == CountSuccess(rs[..i])
        invariant attempts == SumAttempts(rs[..i])
        invariant draws == SumDraws(rs[..i])
      {
        assert rs[..i + 1][..i] == rs[..i];
        var r := rs[i];
        if r.success {
          success := success + 1;
        }
        if r.lotteryInfo.Some? {
          attempts := attempts + r.lotteryInfo.value.totalAttempts;
          draws := draws + r.lotteryInfo.value.successfulDraws;
        }
        i := i + 1;
      }
      assert rs[..i] == rs;
      s := Summary(|rs|, success, |rs| - success, attempts, draws);
    }
  }
}
