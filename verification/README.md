# Philosopher discussion core, modelled in Dafny

This project models the deterministic core of `philosopher_discussion_openai.py`.
That program runs a multi-round discussion between three prompted "philosopher"
agents. In every round each philosopher answers the current question, and a
"moderator" agent turns the answers into the next round's question. At the end,
a "summarizer" call writes an article, and a plain-text summary is used when no
usable article is available.

Every remote call is replaced by an oracle `Endpoint = (nat, Request) -> Reply`.
The `k`-th request of the process receives `remote(k, req)`, and every operation
threads the trace `sent` of requests made so far. A reply is one of three things:

- an answer with its raw text;
- a parsed reply without `choices`;
- an exception with its message.

Retries of the same request can therefore get different replies.

Modules:

- `Text`: Python's `strip`, `startswith`, `endswith`, `replace`, slicing, `join` and `str(int)`.
- `Remote`: the oracle and the request parameters of the three kinds of call.
- `Client`: `get_response` and `generate_article`.
- `Records`: round records and the failure classification.
- `Moderator`: the moderator input, the question cut and the three-attempt loop.
- `Discussion`: `conduct_discussion`.
- `Summary`: `generate_simple_summary`.
- `Report`: the article-or-summary decision of `generate_word`.
- `Questions`: the topic slug and the `load_questions` filter.
- `RateLimit`: `RateLimiter` over an abstract clock.
- `Common`: the `Option` type.

Three behaviours of the code are reproduced on purpose:

- **A moderator reply without `choices` raises nothing.** The loop then moves on without sleeping. If that happens on all three attempts, the question stays unchanged and no fallback is used.
- **A round in which every philosopher failed makes no moderator call.** The next round asks the same question again. No fallback question is used.
- **A failed `generate_article` call is treated as an article.** Its text is put into the report instead of the plain-text summary (see Findings).

## Model

| member | source | states |
|---|---|---|
| Text.StripSpan | philosopher_discussion_openai.py:91 | `strip()` returns the stretch of the text between the first and last non-whitespace characters; everything before and after that stretch is whitespace |
| Text.Strip | philosopher_discussion_openai.py:255 | a stripped text is no longer than the original and neither starts nor ends with a removed character |
| Text.StripEmpty | philosopher_discussion_openai.py:91 | stripping yields the empty text exactly when every character is removable |
| Text.StripIdempotent | philosopher_discussion_openai.py:255 | stripping an already stripped text changes nothing |
| Text.StripKeepsCharacters | philosopher_discussion_openai.py:171 | stripping introduces no character that was not in the original |
| Text.RemoveAll | philosopher_discussion_openai.py:171 | `replace(c, "")` keeps only characters other than `c`, keeps every such character's value, and leaves a text without `c` unchanged |
| Text.RemoveAllAppend | philosopher_discussion_openai.py:171 | removing `c` from a concatenation removes it from each part, so the kept characters stay in their order |
| Text.RemoveAllOne | philosopher_discussion_openai.py:171 | a single character is dropped exactly when it is `c` |
| Text.JoinContains | philosopher_discussion_openai.py:378 | every line passed to `"\n".join` occurs in the joined text |
| Text.DecimalRoundTrip | philosopher_discussion_openai.py:367 | the decimal text of a round number reads back as that number |
| Client.Backoff | philosopher_discussion_openai.py:100 | the wait after attempt `k` is `k*15` seconds, capped at 60 |
| Client.Attempts | philosopher_discussion_openai.py:75-104 | the retry loop sends the request at most once per remaining attempt; it stops at the first answer; only the last reply can be an answer; an unanswered run uses up every attempt; the waits follow `min(k*15, 60)` with none after the last attempt |
| Client.GetResponse | philosopher_discussion_openai.py:63-106 | at most `retries` identical participant requests; the first answer is returned stripped; after all attempts fail the text is `"API请求失败: "` plus the last error; with no attempts allowed the text is `"所有重试都失败了"`; waits are `min(k*15, 60)` and none follows the final attempt |
| Client.ScheduleSum | philosopher_discussion_openai.py:99-102 | waits that follow the backoff schedule add up to the schedule's total |
| Client.AlwaysFailingCall | philosopher_discussion_openai.py:75-104 | against an endpoint that never answers, exactly `retries` requests go out, the text is a failure text, and the total sleep is the sum of the first `retries - 1` backoffs |
| Client.GenerateArticle | philosopher_discussion_openai.py:141-163 | the article call is a single request with no retry; an answer is returned stripped; any failure becomes `"生成总结文章失败: "` plus the error text |
| Records.Classify | philosopher_discussion_openai.py:203-215 | a returned text is filed as an error exactly when it starts with `"API请求失败"` or `"API请求超时"`; the text is kept either way, under exactly one key |
| Records.Successes | philosopher_discussion_openai.py:203-204 | the successful answers: every one is an answer from the round, every answer of the round is among them, and they are empty exactly when nobody answered |
| Records.SuccessesAppend | philosopher_discussion_openai.py:203-204 | the successes of two stretches of entries are those of the first followed by those of the second, so they keep the round's order |
| Moderator.Truncate | philosopher_discussion_openai.py:257-259 | a next question of more than 100 characters becomes its first 100 characters plus `"..."`; a shorter one is kept; the result is at most 103 characters |
| Moderator.TruncateIdempotent | philosopher_discussion_openai.py:257-259 | cutting an already cut question changes nothing |
| Moderator.JudgeInput | philosopher_discussion_openai.py:223-225 | the moderator input starts with the question header; with no answers it is the header alone |
| Moderator.JudgeInputIgnoresFailures | philosopher_discussion_openai.py:223-225 | the moderator input depends only on the successful answers: dropping the failed entries does not change it |
| Moderator.AnswerLinesIgnoreFailures | philosopher_discussion_openai.py:224-225 | failed entries contribute no line to the moderator input |
| Moderator.JudgeInputContainsAnswer | philosopher_discussion_openai.py:223-225 | every successful answer appears in the moderator input, labelled `"{name} 的回答："` |
| Moderator.AskFrom | philosopher_discussion_openai.py:240-268 | the moderator loop makes one to three attempts; it stops at the first answer; only the last reply can be an answer; an unanswered run uses all three attempts; a wait is possible only between attempts |
| Moderator.AskFromWaits | philosopher_discussion_openai.py:240-268 | for any mix of replies, the waits are exactly one `min((retry+1)*15, 60)` for each raised reply before the last attempt, in order, and none for a reply without `choices` |
| Moderator.RaisedWaitsNone | philosopher_discussion_openai.py:250-265 | replies without `choices` alone give no wait |
| Moderator.RaisedWaitsAll | philosopher_discussion_openai.py:262-265 | raised replies alone give the backoff schedule in order |
| Moderator.Moderate | philosopher_discussion_openai.py:221-268 | the moderator step sends one to three moderator requests; an answer becomes the stripped and cut next question; a raise on the third attempt gives `"请继续探讨上一个问题的深层含义。"`; a third reply without `choices` leaves the question unchanged |
| Moderator.ModerateWaits | philosopher_discussion_openai.py:240-268 | the moderator step's waits are those of its replies before the last: one `min((retry+1)*15, 60)` per raised reply, none for a reply without `choices` |
| Moderator.ModerateUniformWaits | philosopher_discussion_openai.py:240-268 | a run of replies without `choices` costs no wait; a run of raised replies waits 15 then 30 seconds |
| Moderator.MixedModeratorRun | philosopher_discussion_openai.py:240-268 | a reply without `choices`, then a raise, then an answer: three requests, one 30-second wait, and the answer becomes the cut next question |
| Discussion.AskOne | philosopher_discussion_openai.py:199-215 | the entry is `get_response` with the philosopher's own prompt and the current question, classified and filed under the philosopher's name, and the trace is the one that call leaves; this costs one to five participant requests about the question |
| Discussion.OneAsked | philosopher_discussion_openai.py:199-215 | a turn of one philosopher is exactly one such `get_response` call |
| Discussion.AskAll | philosopher_discussion_openai.py:199-215 | each philosopher in order gets the entry of its own `get_response` call, made on the trace the previous one left; only participant requests about the current question are sent; an endpoint that never answers gives only errors after five requests each; one that always answers gives only answers after one request each |
| Discussion.MixedTurn | philosopher_discussion_openai.py:199-215 | when the first philosopher is always answered and the second never is, the round holds an answer for the first, an error for the second, and counts as answered |
| Discussion.AnsweredOne | philosopher_discussion_openai.py:63-106 | a philosopher whose prompt is always answered gets a content entry under its name |
| Discussion.FailedOne | philosopher_discussion_openai.py:63-106 | a philosopher whose prompt is never answered gets an error entry under its name |
| Discussion.PlayRound | philosopher_discussion_openai.py:187-273 | the record holds the answers of the panel asked in turn; it is numbered `index+1` and flagged `"本轮无有效回答"` exactly when nobody answered; when someone answered and a round follows, the next question and trace are those of the moderator step called on the answers, right after the panel's requests; otherwise the question is kept and only participant requests are sent |
| Discussion.OnePlayed | philosopher_discussion_openai.py:187-273 | a chain of one round is exactly one played round |
| Discussion.Conduct | philosopher_discussion_openai.py:165-275 | the history has one record per round, numbered 1.. in order; every round is played on the trace the previous round left, on the question the previous round's moderator step chose (or kept); the first is on the initial question, which the report then opens with; after the last round no moderator request is made; an unreachable endpoint gives all rounds flagged, all on the initial question, and no moderator request; an always-answering endpoint gives no flagged round |
| Summary.ResponseLine | philosopher_discussion_openai.py:370-376 | an answered philosopher's line is the name, `"的观点："`, the first 100 characters of the answer and `"..."`; a failed one is the name, `"："` and `"(未能获取完整回答)"`, nothing else |
| Summary.FailureTextHidden | philosopher_discussion_openai.py:375-376 | the line for a failed philosopher does not depend on the error text |
| Summary.RoundLines | philosopher_discussion_openai.py:366-376 | a round contributes its heading, its question line, then one line per philosopher in order |
| Summary.SummaryRoundAt | philosopher_discussion_openai.py:363-376 | the header comes first; the lines of each round come complete, in round order, right after those of the previous round |
| Summary.SummaryLineAt | philosopher_discussion_openai.py:366-376 | every line of a round's block (heading, question, philosopher lines) is the summary line at the round's offset plus its position in the block |
| Summary.SummaryResponseLine | philosopher_discussion_openai.py:368-376 | the line of every philosopher of every round is among the summary lines, at a fixed position |
| Summary.SummaryMentionsQuestion | philosopher_discussion_openai.py:361-378 | every round's question line appears in the summary text |
| Summary.SummaryMentions | philosopher_discussion_openai.py:361-378 | every philosopher's line of every round appears in the summary text |
| Summary.SimpleSummary | philosopher_discussion_openai.py:361-378 | the summary starts with `"讨论要点总结："`, and is that header alone for an empty history |
| Summary.RoundHeadingNamesRound | philosopher_discussion_openai.py:367 | two rounds with the same heading have the same number |
| Report.FailedArticleUsedAsWritten | philosopher_discussion_openai.py:344 | as written, the text of every failed article call passes the usability test |
| Report.UseArticleAsWritten | philosopher_discussion_openai.py:344 | as written, the article is used when it is non-empty and starts with neither participant failure head |
| Report.UseArticle | philosopher_discussion_openai.py:344 | as intended, a text starting with `"生成总结文章失败"` is not used either |
| Report.FailedArticleShownAsWritten | philosopher_discussion_openai.py:343-345 | as written, the summary section after any failed article call is the failure text alone |
| Report.TimeoutShownAsArticle | philosopher_discussion_openai.py:344 | an article call that raises with message `Read timed out.` yields `"生成总结文章失败: Read timed out."`, and the report's summary section is that text alone |
| Report.InitialQuestion | philosopher_discussion_openai.py:279 | round 1's question, or `"未知问题"` for an empty history; for a conducted discussion of at least one round it is the initial question (stated on `Discussion.Conduct`) |
| Report.ArticleFailureNotParticipantFailure | philosopher_discussion_openai.py:163 | an article failure text is non-empty and does not start with either participant failure head |
| Report.ArticleUsedIffAnswered | philosopher_discussion_openai.py:344 | with the corrected test, the article is used exactly when the call was answered and the stripped answer is usable |
| Report.SummarySection | philosopher_discussion_openai.py:343-349 | as written: the article alone when it passes the test; otherwise the fixed note followed by `generate_simple_summary` of the history |
| Report.CorrectedSummarySection | philosopher_discussion_openai.py:343-349 | the same section with the corrected test |
| Report.TestsAgreeOnAnswers | philosopher_discussion_openai.py:344 | the two tests give the same section for every text that is not an article failure |
| Report.FailedArticleFallsBack | philosopher_discussion_openai.py:344-349 | with the corrected test, a failed article call always leads to the note and the plain-text summary |
| Questions.TopicSlug | philosopher_discussion_openai.py:171 | the slug has at most 10 characters, no `?` or `？`, and no whitespace at its ends |
| Questions.TopicSlugFromQuestion | philosopher_discussion_openai.py:171 | every slug character comes from the question's first 10 characters |
| Questions.TopicSlugKeeps | philosopher_discussion_openai.py:171 | a first 10 characters without `?`, `？` or whitespace at the ends are the slug unchanged |
| Questions.TopicSlugIdempotent | philosopher_discussion_openai.py:171 | the slug of a slug is the slug itself |
| Questions.Filter | philosopher_discussion_openai.py:386-387 | the offered questions are no more than the bank's, each under 100 characters, with no double quote at either end |
| Questions.LoadQuestions | philosopher_discussion_openai.py:380-391 | an unreadable bank gives the single default question `"什么是真正的幸福？"`; a readable one gives at most as many questions as it holds, each under 100 characters with no double quote at either end |
| Questions.FilterSource | philosopher_discussion_openai.py:386-387 | each offered question is the unquoted form of a kept bank entry at or after its own position |
| Questions.FilterComplete | philosopher_discussion_openai.py:386-387 | every kept bank entry is offered, unquoted |
| Questions.FilterAppend | philosopher_discussion_openai.py:386-387 | filtering two stretches of the bank gives the questions of the first followed by those of the second, so the bank's order and repeated entries are kept |
| Questions.FilterOne | philosopher_discussion_openai.py:386-387 | a single entry is offered, unquoted, exactly when it is short and complete |
| Questions.UnquoteKeepsEnd | philosopher_discussion_openai.py:386-387 | kept questions never end in a double quote, so `strip('"')` only removes leading quotes |
| RateLimit.NewLimiter | philosopher_discussion_openai.py:14-16 | the interval is 60 seconds divided by the rate, and the first request is measured against time 0 |
| RateLimit.Wait | philosopher_discussion_openai.py:18-23 | `wait` sleeps exactly when less than the interval has passed, and only for the rest of the interval; the recorded time is at least one interval after the previous one and never before the call |
| RateLimit.Run | philosopher_discussion_openai.py:18-23 | over a series of calls, consecutive request times are at least one interval apart, and no request goes out before its caller arrived |
| RateLimit.RunSpacing | philosopher_discussion_openai.py:18-23 | in a series of calls, requests `n` places apart go out at least `n` intervals apart |
| RateLimit.FirstCallFree | philosopher_discussion_openai.py:14-23 | the program's limiter of 5 requests per minute lets a first call made at least 12 seconds after time 0 through without sleeping |
| RateLimit.SpacedGap | philosopher_discussion_openai.py:21-23 | requests `n` places apart are at least `n` intervals apart |
| RateLimit.PerMinute | philosopher_discussion_openai.py:12-23 | with a limiter of `N` requests per minute, request `i + N` goes out at least 60 seconds after request `i` |

## Left out

- HTTP (`requests.post`), headers, proxies and the environment variable: each remote call is an oracle reply, and the request records only the URL, model, sampling parameters, timeouts and the two messages.
- Logging (`print`): it is not modelled. The prints inside the `try` blocks (lines 92 and 156) could themselves raise, for example on a console that cannot encode the text, and turn an answer into a failed attempt. The oracle's `Raised` reply stands for any exception of an attempt, so such a failure is covered as a raised reply.
- Lone surrogates: a Python `str` can hold them, but a Dafny `char` is a Unicode scalar value, so the model's strings are code points other than surrogates.
- Timestamps in records and file names, `os.makedirs`, JSON files and the `.docx` document: these are I/O and wall-clock. Only the summary-section decision and the report's initial question are modelled from `generate_word`.
- `json.dumps` of the history sent to the summarizer: it is a foreign library. `Client.GenerateArticle` takes the serialized text as a parameter.
- Prompt-file loading (`_load_prompt`) and the three-entry philosopher table: the panel and its prompts are parameters.
- `get_user_input`, `random.choice` and `main`: interactive and nondeterministic.
- RateLimit.Wait: real sleeping and float arithmetic are replaced by exact reals with the clock passed in. How much longer the sleep took than asked is a non-negative parameter. The rate limiter is modelled on its own and is not threaded through the retry loops, because it only delays requests and never changes a reply.
- RateLimit.NewLimiter: a zero rate raises `ZeroDivisionError` in the source and is excluded by its precondition.
- Questions.LoadQuestions: a missing or malformed bank, and an entry without a text `question`, are all one `None` input. An empty filtered list is returned as is, and the later `random.choice` that would raise on it is outside the model.
- Discussion.Conduct: philosopher names are assumed distinct. The source keys a round's answers by name in a dict, and its three names are distinct. Every save of the discussion record (`save_discussion`, lines 178-185, called at 219 and 273 with no `try`) is also assumed to succeed. In the source a failed save raises out of `conduct_discussion`, so no history is returned. One way this happens: a question whose first 10 characters contain `/` keeps it in the slug (line 171), so the file path at line 176 names a missing directory. The model always returns one record per round.

## Findings

| source | as written | input that shows it | evidently intended | confidence | as-written member | corrected member |
|---|---|---|---|---|---|---|
| philosopher_discussion_openai.py:344 | the report uses the article unless it is empty or starts with `"API请求失败"` or `"API请求超时"`; a failed `generate_article` returns `"生成总结文章失败: …"` and so passes | an article call that raises with message `Read timed out.`; the report prints `"生成总结文章失败: Read timed out."` as the article instead of the plain-text summary | a failed article call falls back to the note and the plain-text summary | high; not executed | Report.FailedArticleShownAsWritten | Report.FailedArticleFallsBack |
