/**
 * The SF Express points runner (`SFTasksManager`): account validation, the
 * per-task and per-account pipelines, the run over all accounts and the
 * totals of the summary notification. Every remote call answers from an
 * oracle: the account's login reply, sign-in outcome and task list, and the
 * k-th processed task's finish and reward replies.
 */
module SfMain {
  import opened Wrappers
  import opened Text
  import opened SfApi
  import opened SfTaskCode

  // ----------------------------------------------------------- from_dict

  /**
   * An account entry of the configuration, each field already read as
   * `data.get(k) or ""` (absent, null and empty all read as "").
   */
  datatype RawAccount = RawAccount(accountName: string, sign: string, userAgent: string, channel: string, deviceId: string)

  datatype AccountConfig = AccountConfig(accountName: string, sign: string, userAgent: string, channel: string, deviceId: string)

  const DefaultAccountName := "未命名账号"
  const RequiredFields := ["sign", "channel", "device_id"]

  function AccountName(raw: RawAccount): string {
    if raw.accountName == "" then DefaultAccountName else raw.accountName
  }

  /** The value of a required field, by its configuration key. */
  function Required(raw: RawAccount, field: string): string {
    if field == "sign" then raw.sign
    else if field == "channel" then raw.channel
    else if field == "device_id" then raw.deviceId
    else "-"
  }

  /** Position of a required field in the order the check visits them. */
  function Rank(field: string): nat {
    if field == "sign" then 0 else if field == "channel" then 1 else 2
  }

  /** The empty required fields, appended in the order sign, channel, device_id. */
  function MissingFields(raw: RawAccount): (m: seq<string>)
    ensures forall f :: f in m <==> f in RequiredFields && Required(raw, f) == ""
    ensures forall i, j :: 0 <= i < j < |m| ==> Rank(m[i]) < Rank(m[j])
  {
    var m0: seq<string> := [];
    var m1 := if raw.sign == "" then m0 + ["sign"] else m0;
    var m2 := if raw.channel == "" then m1 + ["channel"] else m1;
    if raw.deviceId == "" then m2 + ["device_id"] else m2
  }

  /** `SFAccountConfig.from_dict`: the account, or the message of the ValueError it raises. */
  function FromDict(raw: RawAccount): (r: Result<AccountConfig, string>)
    ensures r.Err? <==> raw.sign == "" || raw.channel == "" || raw.deviceId == ""
    ensures r.Err? ==> r.error == "账号【" + AccountName(raw) + "】缺少必填字段: " + Join(MissingFields(raw), "、")
    ensures r.Ok? ==> r.value == AccountConfig(AccountName(raw), raw.sign, raw.userAgent, raw.channel, raw.deviceId)
  {
    var missing := MissingFields(raw);
    if missing != [] then
      Err("账号【" + AccountName(raw) + "】缺少必填字段: " + Join(missing, "、"))
    else
      Ok(AccountConfig(AccountName(raw), raw.sign, raw.userAgent, raw.channel, raw.deviceId))
  }

  /** The values of the entries `check` accepts, in order. */
  function KeepOk(raws: seq<RawAccount>, check: RawAccount -> Result<AccountConfig, string>): (r: seq<AccountConfig>)
    ensures |r| <= |raws|
  {
    if raws == [] then []
    else KeepOk(raws[..|raws| - 1], check) + (match check(raws[|raws| - 1]) case Ok(a) => [a] case Err(_) => [])
  }

  /** The accounts `load_config` keeps: the valid ones, in configuration order. */
  function ValidAccounts(raws: seq<RawAccount>): (r: seq<AccountConfig>)
    ensures |r| <= |raws|
  {
    KeepOk(raws, FromDict)
  }

  lemma {:induction false} KeepOkHas(raws: seq<RawAccount>, check: RawAccount -> Result<AccountConfig, string>, i: nat)
    requires i < |raws| && check(raws[i]).Ok?
    ensures check(raws[i]).value in KeepOk(raws, check)
    decreases |raws|
  {
    var n := |raws| - 1;
    if i < n {
      KeepOkHas(raws[..n], check, i);
      assert raws[..n][i] == raws[i];
    }
  }

  lemma {:induction false} KeepOkSource(raws: seq<RawAccount>, check: RawAccount -> Result<AccountConfig, string>, a: AccountConfig)
    returns (i: nat)
    requires a in KeepOk(raws, check)
    ensures i < |raws| && check(raws[i]) == Ok(a)
    decreases |raws|
  {
    var n := |raws| - 1;
    if a in KeepOk(raws[..n], check) {
      i := KeepOkSource(raws[..n], check, a);
      assert raws[..n][i] == raws[i];
    } else {
      i := n;
    }
  }

  /** An account is kept exactly when some entry of the configuration validates to it. */
  lemma ValidAccountsMembers(raws: seq<RawAccount>, a: AccountConfig)
    ensures a in ValidAccounts(raws) <==> exists i :: 0 <= i < |raws| && FromDict(raws[i]) == Ok(a)
  {
    if a in ValidAccounts(raws) {
      var i := KeepOkSource(raws, FromDict, a);
    }
    forall i | 0 <= i < |raws| && FromDict(raws[i]) == Ok(a) ensures a in ValidAccounts(raws) {
      KeepOkHas(raws, FromDict, i);
    }
  }

  lemma {:induction false} KeepOkAppend(xs: seq<RawAccount>, ys: seq<RawAccount>, check: RawAccount -> Result<AccountConfig, string>)
    ensures KeepOk(xs + ys, check) == KeepOk(xs, check) + KeepOk(ys, check)
    decreases |ys|
  {
    if ys == [] {
      assert xs + ys == xs;
    } else {
      var init := ys[..|ys| - 1];
      assert (xs + ys)[..|xs + ys| - 1] == xs + init;
      KeepOkAppend(xs, init, check);
    }
  }

  /** Filtering commutes with concatenation, so the kept accounts keep their relative order. */
  lemma ValidAccountsAppend(xs: seq<RawAccount>, ys: seq<RawAccount>)
    ensures ValidAccounts(xs + ys) == ValidAccounts(xs) + ValidAccounts(ys)
  {
    KeepOkAppend(xs, ys, FromDict);
  }

  lemma {:induction false} KeepOkAll(raws: seq<RawAccount>, check: RawAccount -> Result<AccountConfig, string>)
    requires forall i :: 0 <= i < |raws| ==> check(raws[i]).Ok?
    ensures |KeepOk(raws, check)| == |raws|
    ensures forall i :: 0 <= i < |raws| ==> KeepOk(raws, check)[i] == check(raws[i]).value
    decreases |raws|
  {
    if raws != [] {
      var init := raws[..|raws| - 1];
      KeepOkAll(init, check);
      var v := KeepOk(raws, check);
      assert v == KeepOk(init, check) + [check(raws[|raws| - 1]).value];
      forall i | 0 <= i < |raws| ensures v[i] == check(raws[i]).value {
        if i < |init| {
          assert raws[i] == init[i];
        }
      }
    }
  }

  /** Nothing is dropped from a configuration whose every account is valid. */
  lemma ValidAccountsAllValid(raws: seq<RawAccount>)
    requires forall i :: 0 <= i < |raws| ==> FromDict(raws[i]).Ok?
    ensures |ValidAccounts(raws)| == |raws|
    ensures forall i :: 0 <= i < |raws| ==> ValidAccounts(raws)[i] == FromDict(raws[i]).value
  {
    KeepOkAll(raws, FromDict);
  }

  // ------------------------------------------------------------ oracle

  /** The three pacing pauses; their random lengths are not modelled. */
  datatype Stage = AfterSign | BetweenTasks | BetweenAccounts

  /** The bounds, in seconds, of each pause's uniform draw. */
  function DelayRange(s: Stage): (int, int) {
    match s
    case AfterSign => (2, 5)
    case BetweenTasks => (10, 15)
    case BetweenAccounts => (3, 8)
  }

  /** Remote calls and pauses, in the order an account's run makes them. */
  datatype Event = LoginCall | SignCall | TaskListCall | FinishCall(code: string) | RewardCall | Pause(stage: Stage)

  /** What `auto_sign_and_fetch_package` reports: its `success` and `days`. */
  datatype SignReport = SignReport(success: bool, days: int)

  /**
   * The replies one account's run receives: `finish(k)` and `reward(k)`
   * answer the k-th processed task (counting from 0).
   */
  datatype Env = Env(login: LoginReply, sign: SignReport, taskList: seq<Task>,
                     finish: nat -> Transport, reward: nat -> Transport)

  // ------------------------------------------------- process_single_task

  datatype TaskResult = TaskResult(title: string, success: bool, points: int)

  const DefaultTitle := "未知任务"

  /** `task.get('title', '未知任务')`, a null title read as an absent one. */
  function Title(t: Task): string { t.title.GetOr(DefaultTitle) }

  /** Every reward entry is a dict (otherwise `item.get` raises and the task fails). */
  predicate AllDicts(items: seq<RewardItem>) {
    forall j :: 0 <= j < |items| ==> items[j].PointItem?
  }

  function SumPoints(items: seq<RewardItem>): int
    requires AllDicts(items)
  {
    if items == [] then 0 else SumPoints(items[..|items| - 1]) + items[|items| - 1].point
  }

  /** The outcome and calls of `process_single_task` for the k-th processed task. */
  function SingleTask(t: Task, k: nat, env: Env, loads: string -> JsonReading): (TaskResult, seq<Event>) {
    RunTask(Title(t), ExtractTaskCode(t, loads), k, env)
  }

  /**
   * `process_single_task` once the code is resolved: at most the finish call
   * and then the reward call, in that order, and success only after both.
   */
  function RunTask(title: string, code: string, k: nat, env: Env): (r: (TaskResult, seq<Event>))
    ensures r.1 <= [FinishCall(code), RewardCall]
    ensures r.0.success ==> r.1 == [FinishCall(code), RewardCall]
  {
    var failed := TaskResult(title, false, 0);
    if code == "" then (failed, [])
    else if !Succeeded(PostJson(env.finish(k), "完成任务请求失败")) then (failed, [FinishCall(code)])
    else
      var events := [FinishCall(code), RewardCall];
      var reward := PostJson(env.reward(k), "获取任务奖励请求失败");
      if reward.Raises? then (failed, events)
      else if Succeeded(reward) && reward.body.obj.ObjList? then
        var items := reward.body.obj.items;
        if AllDicts(items) then (TaskResult(title, true, SumPoints(items)), events)
        else (failed, events)
      else (TaskResult(title, true, 0), events)
  }

  /**
   * The point accumulation of `process_single_task`: `ok` is false when an
   * entry is not a dict, which raises inside the loop.
   */
  method AddPoints(items: seq<RewardItem>) returns (ok: bool, points: int)
    ensures ok == AllDicts(items)
    ensures ok ==> points == SumPoints(items)
  {
    points := 0;
    var j := 0;
    while j < |items|
      invariant 0 <= j <= |items|
      invariant AllDicts(items[..j]) && points == SumPoints(items[..j])
    {
      if items[j].NotDictItem? {
        return false, 0;
      }
      assert items[..j + 1][..j] == items[..j];
      points := points + items[j].point;
      j := j + 1;
    }
    assert items[..j] == items;
    ok := true;
  }

  /**
   * `process_single_task`. Exceptions from either call, and a reward entry
   * that is not a dict, land in its catch-all and fail the task.
   */
  method ProcessSingleTask(t: Task, k: nat, env: Env, loads: string -> JsonReading)
    returns (r: TaskResult, events: seq<Event>)
    ensures (r, events) == SingleTask(t, k, env, loads)
  {
    var title := Title(t);
    var code := ExtractTaskCode(t, loads);
    if code == "" {
      return TaskResult(title, false, 0), [];
    }
    var finish := PostJson(env.finish(k), "完成任务请求失败");
    if !Succeeded(finish) {
      return TaskResult(title, false, 0), [FinishCall(code)];
    }
    events := [FinishCall(code), RewardCall];
    var reward := PostJson(env.reward(k), "获取任务奖励请求失败");
    if reward.Raises? {
      return TaskResult(title, false, 0), events;
    }
    var points := 0;
    if Succeeded(reward) && reward.body.obj.ObjList? {
      var ok;
      ok, points := AddPoints(reward.body.obj.items);
      if !ok {
        return TaskResult(title, false, 0), events;
      }
    }
    r := TaskResult(title, true, points);
  }

  /**
   * A task without a code fails with no call; a successful task had its
   * finish call succeed; points are non-zero only on success, and then
   * they are the sum of the entries of a successful reward reply.
   */
  lemma SingleTaskOutcome(t: Task, k: nat, env: Env, loads: string -> JsonReading)
    ensures var (r, events) := SingleTask(t, k, env, loads);
      && r.title == Title(t)
      && (ExtractTaskCode(t, loads) == "" ==> !r.success && r.points == 0 && events == [])
      && (r.success ==>
            Succeeded(PostJson(env.finish(k), "完成任务请求失败")) && events == [FinishCall(ExtractTaskCode(t, loads)), RewardCall])
      && (!r.success ==> r.points == 0)
      && (r.points != 0 ==> var reward := PostJson(env.reward(k), "获取任务奖励请求失败");
                             Succeeded(reward) && reward.body.obj.ObjList? && AllDicts(reward.body.obj.items)
                             && r.points == SumPoints(reward.body.obj.items))
      && var reward := PostJson(env.reward(k), "获取任务奖励请求失败");
         var listed := Succeeded(reward) && reward.body.obj.ObjList?;
         && (r.success <==>
               && ExtractTaskCode(t, loads) != ""
               && Succeeded(PostJson(env.finish(k), "完成任务请求失败"))
               && !reward.Raises?
               && (listed ==> AllDicts(reward.body.obj.items)))
         && (r.success && listed ==> AllDicts(reward.body.obj.items) && r.points == SumPoints(reward.body.obj.items))
         && (r.success && !listed ==> r.points == 0)
  {
    RunTaskOutcome(Title(t), ExtractTaskCode(t, loads), k, env);
  }

  lemma RunTaskOutcome(title: string, code: string, k: nat, env: Env)
    ensures var (r, events) := RunTask(title, code, k, env);
      && r.title == title
      && (code == "" ==> !r.success && r.points == 0 && events == [])
      && (r.success ==> Succeeded(PostJson(env.finish(k), "完成任务请求失败")))
      && (!r.success ==> r.points == 0)
      && (r.points != 0 ==> var reward := PostJson(env.reward(k), "获取任务奖励请求失败");
                             Succeeded(reward) && reward.body.obj.ObjList? && AllDicts(reward.body.obj.items)
                             && r.points == SumPoints(reward.body.obj.items))
      && var reward := PostJson(env.reward(k), "获取任务奖励请求失败");
         var listed := Succeeded(reward) && reward.body.obj.ObjList?;
         && (r.success <==>
               && code != ""
               && Succeeded(PostJson(env.finish(k), "完成任务请求失败"))
               && !reward.Raises?
               && (listed ==> AllDicts(reward.body.obj.items)))
         && (r.success && listed ==> AllDicts(reward.body.obj.items) && r.points == SumPoints(reward.body.obj.items))
         && (r.success && !listed ==> r.points == 0)
  {
  }


  // ----------------------------------------------- process_account_tasks

  predicate IsDaily(t: Task) { t.taskPeriod == Some("D") }
  predicate IsDone(t: Task) { t.status == Some(3) }
  predicate IsPending(t: Task) { IsDaily(t) && !IsDone(t) }

  /** `total_tasks`: the daily tasks, finished ones included. */
  function CountDaily(ts: seq<Task>): nat {
    if ts == [] then 0 else CountDaily(ts[..|ts| - 1]) + (if IsDaily(ts[|ts| - 1]) then 1 else 0)
  }

  /** The daily tasks already finished (status 3). */
  function CountDone(ts: seq<Task>): nat {
    if ts == [] then 0 else CountDone(ts[..|ts| - 1]) + (if IsDaily(ts[|ts| - 1]) && IsDone(ts[|ts| - 1]) then 1 else 0)
  }

  /** The tasks that reach `process_single_task`, in list order. */
  function Pending(ts: seq<Task>): (ps: seq<Task>)
    ensures forall t :: t in ps <==> t in ts && IsPending(t)
  {
    if ts == [] then []
    else
      var init := ts[..|ts| - 1];
      assert forall t :: t in ts <==> t in init || t == ts[|ts| - 1];
      Pending(init) + (if IsPending(ts[|ts| - 1]) then [ts[|ts| - 1]] else [])
  }

  /** Every daily task is either counted as done or processed. */
  lemma {:induction false} DailySplit(ts: seq<Task>)
    ensures CountDaily(ts) == |Pending(ts)| + CountDone(ts)
    decreases |ts|
  {
    if ts != [] {
      DailySplit(ts[..|ts| - 1]);
    }
  }

  /** The results of the processed tasks, the k-th answered by the k-th oracle replies. */
  function Results(ps: seq<Task>, env: Env, loads: string -> JsonReading): (rs: seq<TaskResult>)
    ensures |rs| == |ps|
  {
    if ps == [] then []
    else Results(ps[..|ps| - 1], env, loads) + [SingleTask(ps[|ps| - 1], |ps| - 1, env, loads).0]
  }

  /** The pauses and calls of the task loop. */
  function TaskEvents(ps: seq<Task>, env: Env, loads: string -> JsonReading): seq<Event> {
    if ps == [] then []
    else TaskEvents(ps[..|ps| - 1], env, loads) + [Pause(BetweenTasks)] + SingleTask(ps[|ps| - 1], |ps| - 1, env, loads).1
  }

  function CountSucceeded(rs: seq<TaskResult>): nat {
    if rs == [] then 0 else CountSucceeded(rs[..|rs| - 1]) + (if rs[|rs| - 1].success then 1 else 0)
  }

  function SuccessPoints(rs: seq<TaskResult>): int {
    if rs == [] then 0 else SuccessPoints(rs[..|rs| - 1]) + (if rs[|rs| - 1].success then rs[|rs| - 1].points else 0)
  }

  datatype AccountStat = AccountStat(accountName: string, signSuccess: bool, signDays: int,
                                     totalTasks: nat, completedTasks: nat, totalPoints: int,
                                     tasks: seq<TaskResult>, error: Option<string>)

  function Blank(name: string): AccountStat {
    AccountStat(name, false, 0, 0, 0, 0, [], None)
  }

  /** `fetch_login_info` returns the login only when it succeeded and carries a user id and cookies. */
  predicate LoginUsable(info: ShareLoginInfo) {
    info.success && info.userId != "" && info.cookies != ""
  }

  const IncompleteConfig := "配置信息不完整"
  const LoginFailed := "分享登录失败"

  /** The stat and the calls of `process_account_tasks`. */
  function AccountRun(a: AccountConfig, env: Env, loads: string -> JsonReading): (AccountStat, seq<Event>) {
    if a.sign == "" then (Blank(a.accountName).(error := Some(IncompleteConfig)), [])
    else if !LoginUsable(ShareLogin(a.sign, env.login)) then (Blank(a.accountName).(error := Some(LoginFailed)), [LoginCall])
    else
      var ps := Pending(env.taskList);
      var rs := Results(ps, env, loads);
      (AccountStat(a.accountName, env.sign.success, env.sign.days, CountDaily(env.taskList),
                   CountSucceeded(rs), SuccessPoints(rs), rs, None),
       [LoginCall, SignCall, Pause(AfterSign), TaskListCall] + TaskEvents(ps, env, loads))
  }

  /**
   * The task loop of `process_account_tasks`: count each daily task, skip
   * the finished ones, pause before each remaining one and process it,
   * counting its points only when it succeeded.
   */
  method ProcessTaskList(ts: seq<Task>, env: Env, loads: string -> JsonReading)
    returns (totalTasks: nat, tasks: seq<TaskResult>, completed: nat, points: int, events: seq<Event>)
    ensures totalTasks == CountDaily(ts)
    ensures tasks == Results(Pending(ts), env, loads)
    ensures completed == CountSucceeded(tasks) && points == SuccessPoints(tasks)
    ensures events == TaskEvents(Pending(ts), env, loads)
  {
    totalTasks, tasks, completed, points, events := 0, [], 0, 0, [];
    ghost var ps: seq<Task> := [];
    var i := 0;
    while i < |ts|
      invariant 0 <= i <= |ts|
      invariant ps == Pending(ts[..i])
      invariant totalTasks == CountDaily(ts[..i])
      invariant tasks == Results(ps, env, loads)
      invariant completed == CountSucceeded(tasks) && points == SuccessPoints(tasks)
      invariant events == TaskEvents(ps, env, loads)
    {
      var t := ts[i];
      PendingStep(ts, i);
      if !IsDaily(t) {
        i := i + 1;
        continue;
      }
      totalTasks := totalTasks + 1;
      if IsDone(t) {
        i := i + 1;
        continue;
      }
      tasks, completed, points, events := RecordTask(ps, t, env, loads, tasks, completed, points, events);
      ps := ps + [t];
      i := i + 1;
    }
    assert ts[..i] == ts;
  }

  /** One pending task of the loop: pause, process it, and count it when it succeeded. */
  method RecordTask(ghost ps: seq<Task>, t: Task, env: Env, loads: string -> JsonReading,
                    tasks: seq<TaskResult>, completed: nat, points: int, events: seq<Event>)
    returns (tasks': seq<TaskResult>, completed': nat, points': int, events': seq<Event>)
    requires tasks == Results(ps, env, loads) && events == TaskEvents(ps, env, loads)
    requires completed == CountSucceeded(tasks) && points == SuccessPoints(tasks)
    ensures tasks' == Results(ps + [t], env, loads) && events' == TaskEvents(ps + [t], env, loads)
    ensures completed' == CountSucceeded(tasks') && points' == SuccessPoints(tasks')
  {
    LoopStep(ps, t, env, loads);
    var r, own := ProcessSingleTask(t, |tasks|, env, loads);
    events' := events + [Pause(BetweenTasks)] + own;
    tasks' := tasks + [r];
    completed', points' := completed, points;
    if r.success {
      completed' := completed + 1;
      points' := points + r.points;
    }
  }

  lemma PendingStep(ts: seq<Task>, i: nat)
    requires i < |ts|
    ensures !IsPending(ts[i]) ==> Pending(ts[..i + 1]) == Pending(ts[..i])
    ensures IsPending(ts[i]) ==> Pending(ts[..i + 1]) == Pending(ts[..i]) + [ts[i]]
    ensures CountDaily(ts[..i + 1]) == CountDaily(ts[..i]) + (if IsDaily(ts[i]) then 1 else 0)
  {
    assert ts[..i + 1][..i] == ts[..i];
    if !IsPending(ts[i]) {
      assert Pending(ts[..i]) + [] == Pending(ts[..i]);
    }
  }

  lemma LoopStep(ps: seq<Task>, t: Task, env: Env, loads: string -> JsonReading)
    ensures Results(ps + [t], env, loads) == Results(ps, env, loads) + [SingleTask(t, |ps|, env, loads).0]
    ensures TaskEvents(ps + [t], env, loads) == TaskEvents(ps, env, loads) + [Pause(BetweenTasks)] + SingleTask(t, |ps|, env, loads).1
    ensures forall rs: seq<TaskResult>, r: TaskResult {:trigger rs + [r]} ::
      CountSucceeded(rs + [r]) == CountSucceeded(rs) + (if r.success then 1 else 0) &&
      SuccessPoints(rs + [r]) == SuccessPoints(rs) + (if r.success then r.points else 0)
  {
    assert (ps + [t])[..|ps|] == ps;
    forall rs: seq<TaskResult>, r: TaskResult
      ensures CountSucceeded(rs + [r]) == CountSucceeded(rs) + (if r.success then 1 else 0)
      ensures SuccessPoints(rs + [r]) == SuccessPoints(rs) + (if r.success then r.points else 0)
    {
      assert (rs + [r])[..|rs|] == rs;
    }
  }

  /** `process_account_tasks`: the guards, the login, the sign-in, then the task loop. */
  method ProcessAccountTasks(a: AccountConfig, env: Env, loads: string -> JsonReading)
    returns (stat: AccountStat, events: seq<Event>)
    ensures (stat, events) == AccountRun(a, env, loads)
  {
    stat := Blank(a.accountName);
    events := [];
    if a.sign == "" {
      stat := stat.(error := Some(IncompleteConfig));
      return;
    }
    events := [LoginCall];
    var info := ShareLogin(a.sign, env.login);
    if !LoginUsable(info) {
      stat := stat.(error := Some(LoginFailed));
      return;
    }
    stat := stat.(signSuccess := env.sign.success, signDays := env.sign.days);
    var totalTasks, tasks, completed, points, taskEvents := ProcessTaskList(env.taskList, env, loads);
    stat := stat.(totalTasks := totalTasks, completedTasks := completed, totalPoints := points, tasks := tasks);
    events := [LoginCall, SignCall, Pause(AfterSign), TaskListCall] + taskEvents;
  }

  lemma {:induction false} SucceededAtMost(rs: seq<TaskResult>)
    ensures CountSucceeded(rs) <= |rs|
    decreases |rs|
  {
    if rs != [] {
      SucceededAtMost(rs[..|rs| - 1]);
    }
  }

  /**
   * The account's counters: `total_tasks` counts the daily tasks,
   * `completed_tasks` is at most the number of processed tasks, which is
   * at most `total_tasks`, and `total_points` sums the successful results.
   */
  lemma AccountCounters(a: AccountConfig, env: Env, loads: string -> JsonReading)
    ensures var stat := AccountRun(a, env, loads).0;
      && stat.completedTasks <= |stat.tasks| <= stat.totalTasks
      && stat.completedTasks == CountSucceeded(stat.tasks)
      && stat.totalPoints == SuccessPoints(stat.tasks)
      && (stat.error.None? ==> stat.totalTasks == CountDaily(env.taskList)
                               && |stat.tasks| == |Pending(env.taskList)|)
  {
    var stat := AccountRun(a, env, loads).0;
    SucceededAtMost(stat.tasks);
    DailySplit(env.taskList);
  }

  /** A login without success, user id or cookies ends the account with zero counters and no further call. */
  lemma FailedLoginZero(a: AccountConfig, env: Env, loads: string -> JsonReading)
    requires a.sign != "" && !LoginUsable(ShareLogin(a.sign, env.login))
    ensures AccountRun(a, env, loads) == (Blank(a.accountName).(error := Some(LoginFailed)), [LoginCall])
  {
  }

  /** Each processed task is preceded by exactly one pause, so the pauses count the processed tasks. */
  function CountPauses(es: seq<Event>, s: Stage): nat {
    if es == [] then 0 else CountPauses(es[..|es| - 1], s) + (if es[|es| - 1] == Pause(s) then 1 else 0)
  }

  lemma {:induction false} CountPausesAppend(xs: seq<Event>, ys: seq<Event>, s: Stage)
    ensures CountPauses(xs + ys, s) == CountPauses(xs, s) + CountPauses(ys, s)
    decreases |ys|
  {
    if ys == [] {
      assert xs + ys == xs;
    } else {
      assert (xs + ys)[..|xs + ys| - 1] == xs + ys[..|ys| - 1];
      CountPausesAppend(xs, ys[..|ys| - 1], s);
    }
  }

  lemma {:induction false} NoPauseCount(es: seq<Event>, s: Stage)
    requires forall j :: 0 <= j < |es| ==> !es[j].Pause?
    ensures CountPauses(es, s) == 0
    decreases |es|
  {
    if es != [] {
      NoPauseCount(es[..|es| - 1], s);
    }
  }

  lemma SingleTaskNoPause(t: Task, k: nat, env: Env, loads: string -> JsonReading, s: Stage)
    ensures CountPauses(SingleTask(t, k, env, loads).1, s) == 0
  {
    var es := RunTask(Title(t), ExtractTaskCode(t, loads), k, env).1;
    assert forall j :: 0 <= j < |es| ==> es[j] in [FinishCall(ExtractTaskCode(t, loads)), RewardCall];
    NoPauseCount(es, s);
  }

  lemma {:induction false} TaskEventsPauses(ps: seq<Task>, env: Env, loads: string -> JsonReading)
    ensures CountPauses(TaskEvents(ps, env, loads), BetweenTasks) == |ps|
    ensures CountPauses(TaskEvents(ps, env, loads), BetweenAccounts) == 0
    decreases |ps|
  {
    if ps != [] {
      var init := ps[..|ps| - 1];
      var last := SingleTask(ps[|ps| - 1], |ps| - 1, env, loads).1;
      TaskEventsPauses(init, env, loads);
      SingleTaskNoPause(ps[|ps| - 1], |ps| - 1, env, loads, BetweenTasks);
      SingleTaskNoPause(ps[|ps| - 1], |ps| - 1, env, loads, BetweenAccounts);
      CountPausesAppend(TaskEvents(init, env, loads) + [Pause(BetweenTasks)], last, BetweenTasks);
      CountPausesAppend(TaskEvents(init, env, loads) + [Pause(BetweenTasks)], last, BetweenAccounts);
      assert (TaskEvents(init, env, loads) + [Pause(BetweenTasks)])[..|TaskEvents(init, env, loads)|] == TaskEvents(init, env, loads);
    }
  }

  /** An account's own run never makes an account-switch pause, and pauses once per processed task. */
  lemma AccountRunPauses(a: AccountConfig, env: Env, loads: string -> JsonReading)
    ensures CountPauses(AccountRun(a, env, loads).1, BetweenAccounts) == 0
    ensures CountPauses(AccountRun(a, env, loads).1, BetweenTasks) == |AccountRun(a, env, loads).0.tasks|
  {
    if a.sign != "" && LoginUsable(ShareLogin(a.sign, env.login)) {
      var ps := Pending(env.taskList);
      LoggedInPauses(ps, env, loads);
      assert |AccountRun(a, env, loads).0.tasks| == |Results(ps, env, loads)| == |ps|;
    } else if a.sign != "" {
      NoPauseCount([LoginCall], BetweenAccounts);
      NoPauseCount([LoginCall], BetweenTasks);
    }
  }

  /** After a usable login: the login, sign-in, pause and task-list calls, then the task loop. */
  lemma LoggedInPauses(ps: seq<Task>, env: Env, loads: string -> JsonReading)
    ensures CountPauses([LoginCall, SignCall, Pause(AfterSign), TaskListCall] + TaskEvents(ps, env, loads), BetweenAccounts) == 0
    ensures CountPauses([LoginCall, SignCall, Pause(AfterSign), TaskListCall] + TaskEvents(ps, env, loads), BetweenTasks) == |ps|
  {
    TaskEventsPauses(ps, env, loads);
    HeadPauses(TaskEvents(ps, env, loads));
  }

  /** The calls before the task loop hold only the after-sign-in pause. */
  lemma HeadPauses(tail: seq<Event>)
    ensures CountPauses([LoginCall, SignCall, Pause(AfterSign), TaskListCall] + tail, BetweenAccounts) == CountPauses(tail, BetweenAccounts)
    ensures CountPauses([LoginCall, SignCall, Pause(AfterSign), TaskListCall] + tail, BetweenTasks) == CountPauses(tail, BetweenTasks)
  {
    var head := [LoginCall, SignCall, Pause(AfterSign), TaskListCall];
    NoPauseCount(head[..2], BetweenAccounts);
    NoPauseCount(head[..2], BetweenTasks);
    assert head[..3][..2] == head[..2] && head[..3] == head[..2] + [Pause(AfterSign)];
    assert head[..3] == head[..|head| - 1];
    CountPausesAppend(head, tail, BetweenAccounts);
    CountPausesAppend(head, tail, BetweenTasks);
  }

  // --------------------------------------------------- run_all_accounts

  /** `f` applied to each account and the replies it gets, in account order; the i-th account is answered by `env(i)`. */
  function PerAccount<S>(accounts: seq<AccountConfig>, env: nat -> Env, f: (AccountConfig, Env) -> S): (r: seq<S>)
    ensures |r| == |accounts|
  {
    if accounts == [] then []
    else PerAccount(accounts[..|accounts| - 1], env, f) + [f(accounts[|accounts| - 1], env(|accounts| - 1))]
  }

  lemma {:induction false} PerAccountAt<S>(accounts: seq<AccountConfig>, env: nat -> Env, f: (AccountConfig, Env) -> S, i: nat)
    requires i < |accounts|
    ensures PerAccount(accounts, env, f)[i] == f(accounts[i], env(i))
    decreases |accounts|
  {
    var n := |accounts| - 1;
    if i < n {
      PerAccountAt(accounts[..n], env, f, i);
      assert accounts[..n][i] == accounts[i];
    }
  }

  /** The stats of a run over `accounts`, the i-th account answered by `env(i)`. */
  function Stats(accounts: seq<AccountConfig>, env: nat -> Env, loads: string -> JsonReading): (r: seq<AccountStat>)
    ensures |r| == |accounts|
  {
    PerAccount(accounts, env, (a, e) => AccountRun(a, e, loads).0)
  }

  /** The calls and pauses of a run: an account-switch pause between consecutive accounts. */
  function RunEvents(accounts: seq<AccountConfig>, env: nat -> Env, loads: string -> JsonReading): seq<Event> {
    if accounts == [] then []
    else
      var n := |accounts| - 1;
      RunEvents(accounts[..n], env, loads) + (if n > 0 then [Pause(BetweenAccounts)] else [])
        + AccountRun(accounts[n], env(n), loads).1
  }

  /** One stat per account, in account order: stat i is account i's `process_account_tasks` stat. */
  lemma StatsPerAccount(accounts: seq<AccountConfig>, env: nat -> Env, loads: string -> JsonReading, i: nat)
    requires i < |accounts|
    ensures Stats(accounts, env, loads)[i] == AccountRun(accounts[i], env(i), loads).0
  {
    PerAccountAt(accounts, env, (a, e) => AccountRun(a, e, loads).0, i);
  }

  /** A run over n accounts pauses for an account switch exactly n - 1 times. */
  lemma {:induction false} RunSwitchPauses(accounts: seq<AccountConfig>, env: nat -> Env, loads: string -> JsonReading)
    requires accounts != []
    ensures CountPauses(RunEvents(accounts, env, loads), BetweenAccounts) == |accounts| - 1
    decreases |accounts|
  {
    var n := |accounts| - 1;
    var own := AccountRun(accounts[n], env(n), loads).1;
    AccountRunPauses(accounts[n], env(n), loads);
    if n == 0 {
      assert RunEvents(accounts, env, loads) == [] + [] + own;
      assert [] + [] + own == own;
    } else {
      var prev := RunEvents(accounts[..n], env, loads);
      RunSwitchPauses(accounts[..n], env, loads);
      CountPausesAppend(prev + [Pause(BetweenAccounts)], own, BetweenAccounts);
      assert (prev + [Pause(BetweenAccounts)])[..|prev|] == prev;
    }
  }

  class SFTasksManager {
    var accounts: seq<AccountConfig>
    var taskSummary: seq<AccountStat>

    /** The manager reads its configuration as it is built. */
    constructor (raws: seq<RawAccount>)
      ensures accounts == ValidAccounts(raws) && taskSummary == []
    {
      taskSummary := [];
      accounts := ValidAccounts(raws);
    }

    /** `load_config`: keep every entry `from_dict` accepts, in order. */
    method LoadConfig(raws: seq<RawAccount>)
      modifies this
      ensures accounts == ValidAccounts(raws)
      ensures taskSummary == old(taskSummary)
    {
      var kept: seq<AccountConfig> := [];
      var i := 0;
      while i < |raws|
        invariant 0 <= i <= |raws|
        invariant kept == ValidAccounts(raws[..i])
      {
        assert raws[..i + 1][..i] == raws[..i];
        match FromDict(raws[i]) {
          case Ok(a) => kept := kept + [a];
          case Err(_) =>
        }
        i := i + 1;
      }
      assert raws[..i] == raws;
      accounts := kept;
    }

    /** `run_all_accounts`: one stat appended per account, a pause between accounts. */
    method RunAllAccounts(env: nat -> Env, loads: string -> JsonReading) returns (events: seq<Event>)
      modifies this
      ensures accounts == old(accounts)
      ensures taskSummary == old(taskSummary) + Stats(accounts, env, loads)
      ensures events == RunEvents(accounts, env, loads)
    {
      events := [];
      var i := 0;
      while i < |accounts|
        invariant 0 <= i <= |accounts|
        invariant accounts == old(accounts)
        invariant taskSummary == old(taskSummary) + Stats(accounts[..i], env, loads)
        invariant events == RunEvents(accounts[..i], env, loads)
      {
        assert accounts[..i + 1][..i] == accounts[..i];
        var stat, own := ProcessAccountTasks(accounts[i], env(i), loads);
        taskSummary := taskSummary + [stat];
        if i > 0 {
          events := events + [Pause(BetweenAccounts)];
        }
        events := events + own;
        i := i + 1;
      }
      assert accounts[..i] == accounts;
    }
  }

  // -------------------------------------------------- notification totals

  datatype Totals = Totals(accounts: nat, signSuccess: nat, completed: int, points: int)

  /** The four totals `send_notification` computes over the summary. */
  function Summarize(summary: seq<AccountStat>): Totals {
    if summary == [] then Totals(0, 0, 0, 0)
    else
      var t := Summarize(summary[..|summary| - 1]);
      var s := summary[|summary| - 1];
      Totals(t.accounts + 1, t.signSuccess + (if s.signSuccess then 1 else 0),
             t.completed + s.completedTasks, t.points + s.totalPoints)
  }

  /** The number of task results held in the summary. */
  function TaskCount(summary: seq<AccountStat>): nat {
    if summary == [] then 0 else TaskCount(summary[..|summary| - 1]) + |summary[|summary| - 1].tasks|
  }

  /** The task results of every account of the summary, in order. */
  function AllTasks(summary: seq<AccountStat>): seq<TaskResult> {
    if summary == [] then [] else AllTasks(summary[..|summary| - 1]) + summary[|summary| - 1].tasks
  }

  lemma {:induction false} SucceededAppend(xs: seq<TaskResult>, ys: seq<TaskResult>)
    ensures CountSucceeded(xs + ys) == CountSucceeded(xs) + CountSucceeded(ys)
    ensures SuccessPoints(xs + ys) == SuccessPoints(xs) + SuccessPoints(ys)
    decreases |ys|
  {
    if ys == [] {
      assert xs + ys == xs;
    } else {
      var n := |ys| - 1;
      SucceededAppend(xs, ys[..n]);
      assert (xs + ys)[..|xs + ys| - 1] == xs + ys[..n];
    }
  }

  /**
   * Over the stats of a run: one account per stat, no more sign-ins than
   * accounts, no more completed tasks than processed tasks, and the
   * completed and point totals are those of the successful task results
   * of all accounts together.
   */
  lemma {:induction false} RunTotals(accounts: seq<AccountConfig>, env: nat -> Env, loads: string -> JsonReading)
    ensures var st := Stats(accounts, env, loads);
      var t := Summarize(st);
      && t.accounts == |accounts|
      && t.signSuccess <= t.accounts
      && 0 <= t.completed <= TaskCount(st)
      && t.completed == CountSucceeded(AllTasks(st))
      && t.points == SuccessPoints(AllTasks(st))
    decreases |accounts|
  {
    if accounts != [] {
      var n := |accounts| - 1;
      RunTotals(accounts[..n], env, loads);
      AccountCounters(accounts[n], env(n), loads);
      var st := Stats(accounts, env, loads);
      assert st[..|st| - 1] == Stats(accounts[..n], env, loads);
      SucceededAppend(AllTasks(st[..|st| - 1]), st[|st| - 1].tasks);
    }
  }
}
