# ZaiZaiCat-Checkin sign-in runners in Dafny

This project models the two sign-in runners of the ZaiZaiCat-Checkin scripts and proves properties of them.

**The SF Express points-task runner** (`script/sf/main.py`, `script/sf/api.py`):
- validating account configurations;
- the share login, with its empty-`sign` guard and the extraction of fields from the reply;
- the request headers and their MD5 signature input;
- the cookie string built from `Set-Cookie` headers;
- the ordered task-code resolver;
- the per-task and per-account loops, with their counters;
- the run over all accounts and its totals.

**The WPS sign-in and lottery runner** (`script/wps/main.py`, `script/wps/api.py`):
- parsing the cookie string;
- the layout of the AES key, zero padding, IV and PKCS#7 padding (section 6.3 of RFC 5652);
- the canonical plaintext JSON;
- classifying the key, sign-in and lottery replies;
- the user-info fold over the page data;
- the per-account pipeline with its bounded lottery loop;
- the run over all accounts and the summary counters.

Modelling choices:
- **Remote calls are inputs.** The reply to every remote call is a parameter, for example a `LoginReply`, a `Transport`, a `SignReply` or a `Reply<LotteryV2>`. Repeated calls are indexed by their ordinal: the k-th processed SF task gets `finish(k)` and `reward(k)`, the i-th WPS draw gets `lottery(i)`, and account i of a run gets `env(i)`.
- **Calls and waits form a trace.** Operations that call the network return the trace of calls and random waits they make. That is how "no request is made" and "waits happen only between accounts" are stated.
- **Imperative code stays imperative.** The code that changes state step by step is written as methods with loops, and each is proved equal to a specification function. This covers the task loop, the point accumulation, the cookie jar loop, `_parse_cookies`, the `get_user_info` loop with its inner `break`, the lottery `for` loop with its `break`, `run` and `_print_summary`. The two coordinators, `SFTasksManager` and `WPSTasks`, are classes whose `modifies` methods append to `task_summary` and `account_results`.

Modules, one per file:

| file | module | models |
|---|---|---|
| wrappers.dfy | Wrappers | `Option`, `Result` |
| text.dfy | Text | `str.find`, `split`, `split(sep, 1)`, `join`, `strip`, and `str(int)` with its inverse |
| percent.dfy | Percent | `urllib.parse.unquote` and UTF-8 with `errors='replace'` (section 2.1 of RFC 3986), plus a percent-encoder as its inverse |
| urlquery.dfy | UrlQuery | the query component of `urlparse`, and the first value of `parse_qs` |
| sf_taskcode.dfy | SfTaskCode | `extract_task_code` |
| sf_api.dfy | SfApi | `generate_signature`, `_build_headers`, the cookie jar and join, `share_login`, `_post_json` |
| sf_main.dfy | SfMain | `from_dict`, `load_config`, `process_single_task`, `process_account_tasks`, `run_all_accounts`, the totals |
| wps_crypto.dfy | WpsCrypto | `generate_aes_key`, the key/IV/padding of `aes_encrypt`, the plaintext of `generate_crypto_data` |
| wps_api.dfy | WpsApi | `_parse_cookies`, `get_encrypt_key`, `sign_in`, `lottery`, `get_user_info` |
| wps_main.dfy | WpsMain | `process_account`, `run`, `_print_summary` |
| cookie_interop.dfy | CookieInterop | the SF cookie string read back by the WPS cookie parser |

The resolver's query-parsing fallback is reached whenever the percent-decoded redirect lacks the `_ug_view_param=` marker but `urlparse` and `parse_qs` still find the parameter in the raw or the decoded redirect. Two ways this happens: a tab, CR or LF splits the marker (`urlparse` strips those characters, which `UrlQuery.RemoveUnsafe` models), or the name is encoded twice (`?%255Fug_view_param=...` decodes once to `%5Fug_view_param=`, and `parse_qs` decodes the name a second time).

## Model

| member | source | states |
|---|---|---|
| SfTaskCode.ExtractTaskCode | script/sf/main.py:168-210 | A truthy `taskCode` is the result. With no `taskCode` and an empty or missing `buttonRedirect`, the result is `""`. |
| SfTaskCode.DirectCodeWins | script/sf/main.py:170-172 | A non-empty `taskCode` is returned unchanged, whatever `buttonRedirect` holds. |
| SfTaskCode.MarkerFirst | script/sf/main.py:178-182 | When the decoded redirect contains `_ug_view_param=`, the candidate is exactly the text after its first occurrence, and query parsing plays no part. |
| SfTaskCode.QueryRawFirst | script/sf/main.py:183-197 | Without the marker, the raw redirect's query is consulted before the decoded one's. The first value found wins, and none gives `""`. |
| SfTaskCode.QueryValueNonEmpty | script/sf/main.py:190-191 | A value `parse_qs` yields is never empty, because blank values are dropped. So a found value always ends the search. |
| SfTaskCode.JsonBeforeRegex | script/sf/main.py:199-210 | The candidate is decoded again and stripped. JSON that is not an object gives `""`. An object gives its `taskId`, or `""`. The regular expression is used only when the JSON does not parse. |
| SfTaskCode.MatchAtSound | script/sf/main.py:206-208 | The matcher succeeds at a position exactly when `"taskId"\s*:\s*"([^"]+)"` matches there, and it returns the captured group. |
| SfTaskCode.SearchFromLeftmost | script/sf/main.py:206-208 | The search returns the group of the leftmost match, as `re.search` does. |
| SfTaskCode.EncodedRedirectResolves | script/sf/main.py:174-204 | A redirect that percent-encodes `prefix + "_ug_view_param=" + json` resolves to the `taskId` of that JSON object. |
| SfTaskCode.RegexFallbackResolves | script/sf/main.py:205-208 | Text starting with `"taskId":"v"` yields `v` through the regex fallback. |
| SfMain.MissingFields | script/sf/main.py:73-79 | A field is listed exactly when it is required and empty. Fields are listed in the order sign, channel, device_id. |
| SfMain.FromDict | script/sf/main.py:65-91 | Validation fails exactly when `sign`, `channel` or `device_id` is empty. The error names the account, defaulting to `未命名账号`, and lists the missing fields joined by `、`. Otherwise the fields are copied. |
| SfMain.ValidAccountsMembers | script/sf/main.py:126-131 | An account is loaded exactly when some configured entry validates to it. |
| SfMain.ValidAccountsAppend | script/sf/main.py:126-131 | Loading is entry by entry. The valid accounts keep their original order, and invalid ones are dropped without affecting the others. |
| SfMain.ValidAccountsAllValid | script/sf/main.py:126-131 | When every entry is valid, all are kept, position by position. |
| SfMain.SFTasksManager.constructor | script/sf/main.py:97-113 | A new manager holds the valid accounts and an empty summary. |
| SfMain.SFTasksManager.LoadConfig | script/sf/main.py:115-131 | `accounts` becomes the valid configured accounts. The summary is unchanged. |
| SfMain.AddPoints | script/sf/main.py:314-319 | The loop sums `point` over the reward list. It fails exactly when an entry is not a dict. |
| SfMain.RunTask | script/sf/main.py:300-327 | Once the code is resolved, a task makes at most the finish call and then the reward call, in that order. A successful task made both. |
| SfMain.ProcessSingleTask | script/sf/main.py:285-327 | Equals `SingleTask`: the per-task result and the calls made. |
| SfMain.SingleTaskOutcome | script/sf/main.py:297-327 | An empty code gives `success False` with 0 points and no call. The task succeeds exactly when the code is non-empty, the finish call succeeds, the reward call does not raise, and a successful reward list holds only dicts. A successful task with a successful reward list carries that list's point sum; a successful task without one carries 0. A failure carries 0 points. |
| SfMain.Pending | script/sf/main.py:394-406 | The tasks processed are exactly the daily (`"D"`) tasks whose status is not 3. |
| SfMain.DailySplit | script/sf/main.py:397-406 | `total_tasks` counts every daily task: the processed ones plus the status-3 ones. |
| SfMain.ProcessTaskList | script/sf/main.py:394-417 | The task loop: `total_tasks` is the daily count. Each pending task is processed in order, counted as completed only on success, and only successful tasks add points. |
| SfMain.ProcessAccountTasks | script/sf/main.py:329-423 | Equals `AccountRun`: the account's stat and its calls and waits. |
| SfMain.RecordTask | script/sf/main.py:408-417 | One step of the task loop: the result list, the completed count, the points and the trace grow by exactly that task's result and calls. |
| SfMain.AccountCounters | script/sf/main.py:397-417 | `completed_tasks <= len(tasks) <= total_tasks`. `total_points` is the sum over successful results only. |
| SfMain.FailedLoginZero | script/sf/main.py:360-363 | A failed or unusable login leaves every counter at zero with error `分享登录失败`. Its only call is the login. |
| SfMain.TaskEventsPauses | script/sf/main.py:408-412 | Exactly one between-task wait precedes each processed task. |
| SfMain.AccountRunPauses | script/sf/main.py:380-412 | An account's run never makes the between-accounts wait. It makes one between-task wait per task result. |
| SfMain.StatsPerAccount | script/sf/main.py:433-439 | Stat i of the summary is account i's stat, for every i: one stat per account, in account order. |
| SfMain.RunSwitchPauses | script/sf/main.py:443-446 | A run over n accounts waits between accounts exactly n-1 times. |
| SfMain.SFTasksManager.RunAllAccounts | script/sf/main.py:425-446 | The summary grows by the run's stats, the accounts are unchanged, and the trace is the run's trace. |
| SfMain.RunTotals | script/sf/main.py:462-465 | Over a run's summary: the account count, at most that many sign-ins, at most as many completed tasks as task results, and the completed and point totals equal the count and the point sum of the successful task results of all accounts. |
| SfApi.SignatureInputInjective | script/sf/api.py:114-117 | For digit timestamps, the signed text determines both the timestamp and the rendered `sys_code`. |
| SfApi.BuildHeaders | script/sf/api.py:219-236 | The keys are the defaults, the four overwritten keys and the extra keys. Extra headers win. Untouched defaults keep their values. `timestamp`, `sw8` (the `code` of a dict reply, else `""`), `referer` and `signature` are set as computed. |
| SfApi.SignatureMatchesTimestamp | script/sf/api.py:221-228 | The `signature` header is computed from the very digits placed in the `timestamp` header. |
| SfApi.Put | script/sf/api.py:206-209 | Storing a cookie sets its key and leaves every other key's value as it was. |
| SfApi.PutShape | script/sf/api.py:206-209 | Storing a cookie keeps every present name in place and grows the jar by one exactly when the name is new, appending it at the end. |
| SfApi.PutKeepsOrder | script/sf/api.py:206-209 | Storing keeps keys distinct and existing positions. A new key is appended at the end. |
| SfApi.LoadHeader | script/sf/api.py:207-209 | After loading a header, each key holds its last value in the header, or its old value. |
| SfApi.LoadAllLastWins | script/sf/api.py:206-209 | After all headers, the jar has distinct keys, and each key holds its last value across all headers. |
| SfApi.CookieString | script/sf/api.py:211-217 | The jar is preferred over `response.cookies`. The result is their `"; "`-joined `key=value` pairs, or `""`. |
| SfApi.BuildCookieFromResponse | script/sf/api.py:204-217 | The loop over headers and morsels equals `CookieString` of the loaded jar. |
| SfApi.ShareLoginParams | script/sf/api.py:142-143 | The parameters are `bizCode`, `source` and `sign`. A stripped sign without `%` is passed unchanged. |
| SfApi.EncodedSignDecoded | script/sf/api.py:142-143 | A percent-encoded sign reaches the request as the original text, because it is stripped and then decoded. |
| SfApi.ShareLogin | script/sf/api.py:131-188 | An empty `sign` gives the fixed error with empty fields. A failed request gives `success False` with empty fields. A body that is not a dict gives `success False`. A dict body gives its `success` and `errorMessage`, and `userId`/`token` from `obj`, which are `""` when `obj` is not a dict. The cookies are the cookie string of the reply. |
| SfApi.EmptySignMakesNoRequest | script/sf/api.py:131-139 | With an empty `sign`, the reply cannot influence the result, because no request is made. |
| SfApi.PostJson | script/sf/api.py:238-251 | A transport exception becomes `{success False, error, message}`. A decoded reply is passed through. |
| SfApi.FailedPostNotSucceeded | script/sf/api.py:246-251 | A failed POST never counts as successful. |
| WpsCrypto.RandomPart | script/wps/api.py:38-39 | `count` characters, all from `[a-z0-9]`. |
| WpsCrypto.GenerateAesKey | script/wps/api.py:28-41 | `max(n-10, 0)` alphabet characters followed by the decimal timestamp. |
| WpsCrypto.AesKeyLength | script/wps/api.py:38-41 | A 32-character key is produced exactly when the timestamp has ten digits. |
| WpsCrypto.GeneratedKeyAscii | script/wps/api.py:38-41 | Generated keys are ASCII, so their UTF-8 length equals their length. |
| WpsCrypto.PaddedKey | script/wps/api.py:56-57 | The key's UTF-8 followed by zeros up to 32 bytes. A longer key is unchanged. |
| WpsCrypto.CipherParams | script/wps/api.py:56-63 | AES accepts the key exactly when its UTF-8 is at most 32 bytes and the IV (the UTF-8 of the first 16 characters) is 16 bytes. |
| WpsCrypto.AsciiKeyAccepted | script/wps/api.py:56-63 | An ASCII key of 16 to 32 characters is accepted. The key bytes are its characters padded with zeros, and the IV is its first 16 characters. |
| WpsCrypto.GeneratedKeyAccepted | script/wps/api.py:56-63 | A key generated with a ten-digit timestamp is always accepted. |
| WpsCrypto.Pkcs7Pad | script/wps/api.py:66-67 | The padded length is a multiple of 16 in the range `len+1` to `len+16`. The data is a prefix. |
| WpsCrypto.PadUnpad | script/wps/api.py:66-67 | Removing the padding gives the data back. |
| WpsCrypto.AesEncrypt | script/wps/api.py:44-71 | Fails exactly when the key or IV is rejected. Otherwise the result is base64 of CBC over the padded UTF-8 plaintext. |
| WpsCrypto.Plaintext | script/wps/api.py:357-360 | The text starts with `{"user_id":` and ends with `}`. |
| WpsCrypto.PlaintextRoundTrip | script/wps/api.py:357-360 | The plaintext is exactly `{"user_id":<id>,"platform":<p>}`: reading it back gives the id and platform. |
| WpsApi.ParseCookies | script/wps/api.py:133-148 | The loop equals the item-by-item dict over the `"; "` split. |
| WpsApi.ItemWithoutEquals | script/wps/api.py:145 | An item without `=` is ignored. |
| WpsApi.LaterItemWins | script/wps/api.py:144-147 | `k=v` with no `=` in `k` sets `k` to `v`, overwriting an earlier value. The split is at the first `=`, so `v` may hold `=`. |
| WpsApi.LastItemDecides | script/wps/api.py:143-148 | A key's value is the one from its last item. |
| WpsApi.EncryptKey | script/wps/api.py:277-330 | The key is returned exactly when the reply is `ok` with `data`. Otherwise the error is `msg`, defaulting to `未知错误`, or the exception text. |
| WpsApi.SignIn | script/wps/api.py:380-498 | A key failure gives `获取公钥失败: ...`. With status 200, `ok` is success, `code 2000000` with `userNotLogin` is `token_expired`, `has sign` is already-signed success, and anything else fails with `msg`. Another status gives `HTTP <status>`. |
| WpsApi.KeyFailureSkipsPost | script/wps/api.py:399-404 | Without a key, the sign-in reply cannot matter, because no POST is made. |
| WpsApi.ExpiryBeforeHasSign | script/wps/api.py:446-466 | The expiry check precedes the `has sign` check. |
| WpsApi.Lottery | script/wps/api.py:569-615 | An `ok` reply with `lottery_v2.success` wins `reward_name`, defaulting to `未知`. An `ok` reply without it fails with `send_msg`/`error_code`, defaulting to `抽奖失败`/0. Otherwise the result is `token_expired` exactly when `code 2000000` and `userNotLogin`. |
| WpsApi.FirstInProgress | script/wps/api.py:232-238 | There is none exactly when no session is `IN_PROGRESS`. |
| WpsApi.FirstInProgressAt | script/wps/api.py:232-238 | The `times` comes from the first `IN_PROGRESS` session. |
| WpsApi.UserInfoOf | script/wps/api.py:206-257 | Succeeds exactly on an `ok` reply with `data`. |
| WpsApi.GetUserInfo | script/wps/api.py:150-274 | The loop with its inner `break` equals the fold over the data list. |
| WpsApi.LotteryUntouched | script/wps/api.py:210-238 | With no type-45 item in progress, `lottery_times` is 0 and the component strings are `""`. |
| WpsApi.LotteryFromLastMatch | script/wps/api.py:223-238 | The lottery fields come from the last type-45 item that has a session in progress. A later match overwrites an earlier one. |
| WpsApi.PointsFromLastMatch | script/wps/api.py:241-246 | `points`, `advent_points` and the points component come from the last type-36 item. |
| CookieInterop.JoinThenParse | script/sf/api.py:211-215 | Parsing a joined cookie string gives every key the value of its last pair, and no other key. This needs keys without `=` and no `"; "` in keys or values. |
| CookieInterop.JarThenParse | script/wps/api.py:143-148 | The WPS parser reads back exactly what an SF cookie jar holds. |
| WpsMain.Rewards | script/wps/main.py:174-176 | The kept reward names are all non-empty and come from the list. |
| WpsMain.RewardsAppend | script/wps/main.py:174-176 | The filter preserves order. |
| WpsMain.RewardsKeepsNonEmpty | script/wps/main.py:174-176 | Non-empty names are all kept. |
| WpsMain.DrawLoopShape | script/wps/main.py:261-290 | The i-th draw uses the i-th reply. The loop continues past every failure except a token expiry, and ends after all planned draws or right after the first expiry. |
| WpsMain.DrawLoopStopped | script/wps/main.py:286-288 | After a token expiry, later iterations add nothing. |
| WpsMain.PrizesCountWon | script/wps/main.py:293-298 | The count of successful draws equals the number of prizes. |
| WpsMain.RunDraws | script/wps/main.py:261-290 | The `for` loop with its `break` equals `DrawLoop` over `range(planned)`. It makes one wait and one lottery call per draw. |
| WpsMain.ProcessAccount | script/wps/main.py:107-333 | Equals `AccountRun`: the result dict and the calls and waits. |
| WpsMain.ProcessAfterSignIn | script/wps/main.py:203-321 | The user info, the lottery and the final user info, as the spec function states. |
| WpsMain.Guards | script/wps/main.py:139-149 | A missing `user_id` is reported first, then missing cookies. Either guard makes no call and leaves `success False`. |
| WpsMain.SuccessIsSignIn | script/wps/main.py:161-201 | `success` holds exactly when both guards pass and sign-in succeeded. A failed sign-in leaves no user info and no lottery, and makes no later call. |
| WpsMain.ExpiredSignIn | script/wps/main.py:187-196 | A token expiry on sign-in gives the message `Token已过期，请重新登录`. |
| WpsMain.SignRewards | script/wps/main.py:161-177 | The message is `今日已签到` or `签到成功`. Rewards are kept only on a fresh sign-in: the non-empty names, in order. |
| WpsMain.LotteryInfoFacts | script/wps/main.py:227-298 | `lottery_info` exists exactly when the user info reported draws. `total_attempts` is `min(times, limit)` even after an early break. Fewer calls happen only after an expiry. `successful_draws` is the number of prizes, and each draw's result comes from its reply. |
| WpsMain.DefaultLimit | script/wps/main.py:232-245 | Without a configured limit, at most 5 draws are planned. |
| WpsMain.ResultsAt | script/wps/main.py:349-351 | Result i is account i's `process_account` result. |
| WpsMain.RunPauses | script/wps/main.py:349-357 | A run waits between accounts only: `n-1` waits for `n` accounts. |
| WpsMain.SuccessCountsSignedIn | script/wps/main.py:371-373 | The summary's `success` count is the number of accounts that passed the guards and signed in. |
| WpsMain.WPSTasks.constructor | script/wps/main.py:82-98 | A new coordinator holds the configured accounts and no results. |
| WpsMain.WPSTasks.Run | script/wps/main.py:335-363 | `account_results` grows by one result per account, in order. The accounts are unchanged, and the trace is the run's trace. |
| WpsMain.WPSTasks.PrintSummary | script/wps/main.py:365-399 | `total`, `success`, `failed = total - success` (never negative), and the sums of `total_attempts` and `successful_draws` over the results that have lottery info. |

## Left out

- HTTP traffic (`requests`, `Session`, `raise_for_status`, `response.json`): each call's reply is an input. An HTTP error status raised by `raise_for_status` arrives as a network-error reply.
- `json.loads` in the task-code resolver is a parameter (`loads`) that reports a decoding error, a non-object, or an object's `taskId`.
- MD5, AES-CBC, base64, RSA and `RSA.import_key` are foreign. The MD5 hex function, the cipher and the encoder are parameters. The RSA-encrypted token and the `extra` field of `sign_in` are not modelled; an exception while building them arrives as the sign-in request's exception.
- `get_sw8` runs JavaScript from a file that is not part of this model. Its result is an input: a dict with a `code`, or anything else.
- `random.choice` (a `pick` function), `time.time()` (a `now` parameter), and `random.uniform` with `time.sleep`. Each wait is a `Pause`/`DrawPause`/`AccountPause` event without its duration.
- Reading the configuration file, logging, `traceback` printing, the notification text and its sending, and the `prize_summary` tally of `_print_summary` (it only logs).
- `SimpleCookie` header parsing: each `Set-Cookie` header arrives as its list of parsed morsels.
- `auto_sign_and_fetch_package` and `get_task_list` (script/sf/main.py:148-166, 239-283) are outside the core. Their results (`success`/`days`, the task list) are inputs.
- SfMain.ProcessAccountTasks: its `except Exception` branch (`error = str(e)`) is not modelled. The typed inputs exclude the non-dict values that would raise there. They also exclude a `json.loads` failure other than a decoding error (an integer past the interpreter's digit limit, nesting past the recursion limit): in the source that exception escapes `extract_task_code`, which is called outside the task's own `try`, and ends the account's task loop in this branch.
- SfMain.Title: a `title` that is present but JSON null reads as the default `未知任务`, where the source's `task.get('title', '未知任务')` keeps None; the task's title field does not tell null from absent.
- UrlQuery.QueryOf: only the unmatched-bracket refusal of `urlsplit` is modelled. The bracketed-host check (a host in brackets that is not an IPv6 or IPvFuture address) and the NFKC network-location check also raise `ValueError` in recent Python versions; the model returns the query for those URLs, so the resolver can find a code there where the source yields `""`.
- WpsMain.ProcessAccount: its `except Exception` branch (`处理账号时发生异常`) is not modelled, for the same reason. `user_agent` only selects a header and is left out.
- The account record (`WpsMain.AccountInfo`) types `user_id` as an optional integer. Any other JSON value is outside the model; a missing value or 0 counts as falsy.
- SfApi.ShareLogin: its "unreadable reply" branch (`ValueError`) is reachable only with `requests` versions where a JSON decoding error is not a `RequestException`. It is modelled but cannot be told apart by its inputs.
- Values the source reads with `.get(...)` and uses as numbers (`point`, `times`, `integral`, `max_lottery_limit`) are modelled as integers. Floats and other JSON types are outside the model.
