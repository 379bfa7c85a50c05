/**
 The generation client: one participant call with bounded retry and backoff
 (`get_response`), and the single summarizer call (`generate_article`).
 Neither raises: exhaustion is reported as text of a recognisable shape.
 */
module Client {
  import opened Text
  import opened Remote

  /** Attempts a participant call gets when the caller passes no budget. */
  const DefaultRetries: int := 5

  /** Head of the text `get_response` returns once every attempt failed. */
  const FailurePrefix: string := "API请求失败"

  /** What `get_response` returns when the budget allowed no attempt at all. */
  const NoAttemptsText: string := "所有重试都失败了"

  /** Head of the text `generate_article` returns when its call failed. */
  const ArticleFailurePrefix: string := "生成总结文章失败"

  /** The summarizer's fixed system instruction. */
  const ArticleInstruction: string :=
    "\n"
    + "        请将以下哲学讨论整理成一篇严谨的学术文章，要求：\n"
    + "        1. 采用总-分-总的结构\n"
    + "        2. 突出各个哲学家观点的异同\n"
    + "        3. 分析讨论的演进过程\n"
    + "        4. 总结各方观点的价值\n"
    + "        5.不要用列举的方法，应该用通顺的话语将你的论点串联起来\n"
    + "        6.不要用“讨论”、“讨论记录”、“讨论总结”等字眼，应该用“文章”、“论文”等字眼\n"
    + "\n"
    + "        讨论内容如下：\n"
    + "        "

  /**
   Seconds slept after failed attempt number `attempt` (counting from 1)
   when another attempt follows: 15 s per attempt so far, capped at 60 s.
   */
  function Backoff(attempt: int): (seconds: int)
    ensures seconds <= 60 && seconds <= attempt * 15
    ensures seconds == 60 || seconds == attempt * 15
  {
    if attempt * 15 < 60 then attempt * 15 else 60
  }

  /** Total backoff before attempts 2..n+1: the sum of `Backoff(1..n)`. */
  function TotalBackoff(n: nat): int {
    if n == 0 then 0 else TotalBackoff(n - 1) + Backoff(n)
  }

  /** Sum of a sequence of waits. */
  function Sum(ws: seq<int>): int {
    if ws == [] then 0 else Sum(ws[..|ws| - 1]) + ws[|ws| - 1]
  }

  /** The participant request `get_response` sends, identical on every attempt. */
  function ParticipantRequest(prompt: string, question: string): Request {
    Request(ParticipantParams, prompt, question)
  }

  /** `sent'` is `sent` followed by zero or more copies of `req`. */
  predicate Extends(sent: seq<Request>, sent': seq<Request>, req: Request) {
    && |sent| <= |sent'|
    && sent'[..|sent|] == sent
    && forall j :: |sent| <= j < |sent'| ==> sent'[j] == req
  }

  /** `n` copies of `req`. */
  function Copies(req: Request, n: nat): (rs: seq<Request>)
    ensures |rs| == n && forall j :: 0 <= j < n ==> rs[j] == req
  {
    if n == 0 then [] else [req] + Copies(req, n - 1)
  }

  /** Appending copies of `req` extends the trace by exactly that many requests. */
  lemma ExtendsByCopies(sent: seq<Request>, req: Request, n: nat)
    ensures |sent + Copies(req, n)| == |sent| + n
    ensures Extends(sent, sent + Copies(req, n), req)
  {
    var sent' := sent + Copies(req, n);
    assert sent'[..|sent|] == sent;
  }

  /** The returned text, the seconds slept, and the trace after the call. */
  datatype CallResult = CallResult(text: string, waits: seq<int>, sent: seq<Request>)

  /** The reply that ended the loop, the seconds slept, and how many requests were sent. */
  datatype Attempted = Attempted(last: Reply, waits: seq<int>, count: nat)

  /** Text returned when the final attempt got the unusable `reply`. */
  function ExhaustedText(reply: Reply): string
    requires !reply.Answer?
  {
    FailurePrefix + ": " + RaisedText(reply)
  }

  /**
   The retry loop from attempt number `attempt` on, with `retries` the
   budget and `base` the index of the next request in the process: each
   attempt sends `req` once; an answer ends the loop; an unusable reply is
   followed by a backoff when attempts remain and ends the loop otherwise.
   */
  function Attempts(remote: Endpoint, base: nat, req: Request, attempt: int, retries: int): (r: Attempted)
    requires 1 <= attempt <= retries
    ensures 1 <= r.count <= retries - attempt + 1
    ensures r.last == remote(base + r.count - 1, req)
    ensures forall j :: base <= j < base + r.count - 1 ==> !remote(j, req).Answer?
    ensures !r.last.Answer? ==> r.count == retries - attempt + 1
    ensures |r.waits| == r.count - 1
    ensures forall k :: 0 <= k < |r.waits| ==> r.waits[k] == Backoff(attempt + k)
    decreases retries - attempt
  {
    var reply := remote(base, req);
    if reply.Answer? || attempt == retries then Attempted(reply, [], 1)
    else
      var rest := Attempts(remote, base + 1, req, attempt + 1, retries);
      Attempted(rest.last, [Backoff(attempt)] + rest.waits, rest.count + 1)
  }

  /**
   `get_response(prompt, question, retries)`: at most `retries` attempts of
   the same request; the first answer, stripped, is returned; if every
   attempt failed, the text is `"API请求失败: "` and the last error; the
   backoff after failed attempt `k` is `min(k * 15, 60)` seconds and no wait
   follows the final attempt.
   */
  function GetResponse(remote: Endpoint, sent: seq<Request>, prompt: string, question: string, retries: int): (r: CallResult)
    ensures Extends(sent, r.sent, ParticipantRequest(prompt, question))
    ensures retries < 1 ==> r.text == NoAttemptsText && r.sent == sent && r.waits == []
    ensures retries >= 1 ==> 1 <= |r.sent| - |sent| <= retries
    ensures forall j :: |sent| <= j < |r.sent| - 1 ==> !remote(j, ParticipantRequest(prompt, question)).Answer?
    ensures |r.sent| > |sent| ==>
              var last := remote(|r.sent| - 1, ParticipantRequest(prompt, question));
              && (last.Answer? ==> r.text == Strip(last.content, Spaces))
              && (!last.Answer? ==> |r.sent| - |sent| == retries && r.text == ExhaustedText(last))
    ensures |r.sent| > |sent| ==> |r.waits| == |r.sent| - |sent| - 1
    ensures forall k :: 0 <= k < |r.waits| ==> r.waits[k] == Backoff(k + 1)
  {
    if retries < 1 then CallResult(NoAttemptsText, [], sent)
    else
      var req := ParticipantRequest(prompt, question);
      var a := Attempts(remote, |sent|, req, 1, retries);
      var text := if a.last.Answer? then Strip(a.last.content, Spaces) else ExhaustedText(a.last);
      ExtendsByCopies(sent, req, a.count);
      CallResult(text, a.waits, sent + Copies(req, a.count))
  }

  /** Waits that follow the schedule `Backoff(1), Backoff(2), ...` add up to `TotalBackoff`. */
  lemma {:induction false} ScheduleSum(ws: seq<int>)
    requires forall k :: 0 <= k < |ws| ==> ws[k] == Backoff(k + 1)
    ensures Sum(ws) == TotalBackoff(|ws|)
  {
    if ws != [] {
      var init := ws[..|ws| - 1];
      assert forall k :: 0 <= k < |init| ==> init[k] == Backoff(k + 1);
      ScheduleSum(init);
    }
  }

  /**
   Against an endpoint that never answers, a call with budget `retries >= 1`
   makes exactly `retries` attempts, returns failure text, and sleeps
   `TotalBackoff(retries - 1)` seconds in all.
   */
  lemma AlwaysFailingCall(remote: Endpoint, sent: seq<Request>, prompt: string, question: string, retries: int)
    requires retries >= 1
    requires forall k: nat :: !remote(k, ParticipantRequest(prompt, question)).Answer?
    ensures var r := GetResponse(remote, sent, prompt, question, retries);
            && |r.sent| - |sent| == retries
            && StartsWith(r.text, FailurePrefix)
            && Sum(r.waits) == TotalBackoff(retries - 1)
  {
    var r := GetResponse(remote, sent, prompt, question, retries);
    ScheduleSum(r.waits);
  }

  /** The summarizer request: the serialized discussion under the fixed instruction. */
  function ArticleRequest(discussionText: string): Request {
    Request(ArticleParams, ArticleInstruction, discussionText)
  }

  /** The article text and the trace after the call. */
  datatype ArticleResult = ArticleResult(text: string, sent: seq<Request>)

  /**
   `generate_article`: a single attempt, no retry; an answer is returned
   stripped, any failure as `"生成总结文章失败: "` and its error text.
   */
  function GenerateArticle(remote: Endpoint, sent: seq<Request>, discussionText: string): (r: ArticleResult)
    ensures r.sent == sent + [ArticleRequest(discussionText)]
    ensures var reply := remote(|sent|, ArticleRequest(discussionText));
            && (reply.Answer? ==> r.text == Strip(reply.content, Spaces))
            && (!reply.Answer? ==> StartsWith(r.text, ArticleFailurePrefix + ": ")
                                   && r.text[|ArticleFailurePrefix| + 2..] == RaisedText(reply))
  {
    var reply := remote(|sent|, ArticleRequest(discussionText));
    var text :=
      match reply
      case Answer(c) => Strip(c, Spaces)
      case _ => ArticleFailurePrefix + ": " + RaisedText(reply);
    ArticleResult(text, sent + [ArticleRequest(discussionText)])
  }
}
