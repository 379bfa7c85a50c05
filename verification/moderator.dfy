/**
 The moderator step that turns a round's answers into the next question:
 building the moderator's input, the 100-character cap on the question, and
 the three-attempt loop with its fixed fallback question.
 */
module Moderator {
  import opened Text
  import opened Remote
  import opened Records
  import Client

  /** Longest next question kept before it is cut. */
  const MaxQuestionLength: nat := 100

  /** The question used when every moderator attempt raised. */
  const FallbackQuestion: string := "请继续探讨上一个问题的深层含义。"

  /** Attempts the moderator call gets. */
  const ModeratorRetries: nat := 3

  /**
   The next question as kept: a text longer than 100 characters becomes its
   first 100 characters followed by the ellipsis.
   */
  function Truncate(q: string): (r: string)
    ensures |r| <= MaxQuestionLength + |Ellipsis|
    ensures StartsWith(r, Prefix(q, MaxQuestionLength))
    ensures |q| <= MaxQuestionLength ==> r == q
    ensures |q| > MaxQuestionLength ==> EndsWith(r, Ellipsis) && |r| == MaxQuestionLength + |Ellipsis|
  {
    if |q| > MaxQuestionLength then q[..MaxQuestionLength] + Ellipsis else q
  }

  /** A question already cut is not cut again. */
  lemma {:induction false} TruncateIdempotent(q: string)
    ensures Truncate(Truncate(q)) == Truncate(q)
  {
    if |q| > MaxQuestionLength {
      assert (q[..MaxQuestionLength] + Ellipsis)[..MaxQuestionLength] == q[..MaxQuestionLength];
    }
  }

  /** The line a philosopher contributes to the moderator's input; none for a failure. */
  function AnswerLine(r: Response): string {
    match r.entry
    case Content(t) => r.name + " 的回答：" + t + "\n\n"
    case Error(_) => ""
  }

  /** The philosophers' lines, in order. */
  function AnswerLines(rs: seq<Response>): string {
    if rs == [] then "" else AnswerLines(rs[..|rs| - 1]) + AnswerLine(rs[|rs| - 1])
  }

  /** The first part of the moderator's input: the round's question. */
  function QuestionHeader(question: string): string {
    "问题：" + question + "\n\n"
  }

  /** The moderator's input: the round's question, then each answer under its philosopher's name. */
  function JudgeInput(question: string, rs: seq<Response>): (input: string)
    ensures StartsWith(input, QuestionHeader(question))
    ensures rs == [] ==> input == QuestionHeader(question)
  {
    QuestionHeader(question) + AnswerLines(rs)
  }

  /** Failed philosophers contribute nothing: the input depends on the answers only. */
  lemma {:induction false} JudgeInputIgnoresFailures(question: string, rs: seq<Response>)
    ensures JudgeInput(question, rs) == JudgeInput(question, Successes(rs))
  {
    AnswerLinesIgnoreFailures(rs);
  }

  /** Appending one entry appends its line. */
  lemma {:induction false} AnswerLinesAppend(rs: seq<Response>, r: Response)
    ensures AnswerLines(rs + [r]) == AnswerLines(rs) + AnswerLine(r)
  {
    assert (rs + [r])[..|rs|] == rs;
  }

  /** Failed entries contribute no line: the lines of the successes alone are the lines of the round. */
  lemma {:induction false} AnswerLinesIgnoreFailures(rs: seq<Response>)
    ensures AnswerLines(Successes(rs)) == AnswerLines(rs)
    decreases |rs|
  {
    if rs != [] {
      var init := rs[..|rs| - 1];
      var last := rs[|rs| - 1];
      AnswerLinesIgnoreFailures(init);
      if last.entry.Content? {
        AnswerLinesAppend(Successes(init), last);
      } else {
        assert Successes(rs) == Successes(init);
      }
    }
  }

  /** Every answer reaches the moderator, labelled with its philosopher's name. */
  lemma {:induction false} JudgeInputContainsAnswer(question: string, rs: seq<Response>, i: nat)
    requires i < |rs| && rs[i].entry.Content?
    ensures Occurs(rs[i].name + " 的回答：" + rs[i].entry.text, JudgeInput(question, rs))
    decreases |rs|
  {
    var line := rs[i].name + " 的回答：" + rs[i].entry.text;
    var init := rs[..|rs| - 1];
    var head := QuestionHeader(question) + AnswerLines(init);
    assert JudgeInput(question, rs) == head + AnswerLine(rs[|rs| - 1]);
    if i == |rs| - 1 {
      assert AnswerLine(rs[i]) == line + "\n\n";
      OccursBetween(line, head, "\n\n");
    } else {
      assert init[i] == rs[i];
      JudgeInputContainsAnswer(question, init, i);
      OccursExtend(line, head, AnswerLine(rs[|rs| - 1]));
    }
  }


  /** The reply that ended the loop, the seconds slept, and how many requests were sent. */
  datatype Moderated = Moderated(last: Reply, waits: seq<int>, count: nat)

  /**
   The moderator loop from attempt `retry` (counting from 0) on, with `base`
   the index of the next request. An answer ends the loop. A reply without
   choices raises nothing: the loop goes on at once. A raised error is
   followed by a backoff unless it came on the last attempt.
   */
  function AskFrom(remote: Endpoint, base: nat, req: Request, retry: nat): (r: Moderated)
    requires retry < ModeratorRetries
    ensures 1 <= r.count <= ModeratorRetries - retry
    ensures r.last == remote(base + r.count - 1, req)
    ensures forall j :: base <= j < base + r.count - 1 ==> !remote(j, req).Answer?
    ensures !r.last.Answer? ==> r.count == ModeratorRetries - retry
    ensures |r.waits| < r.count
    decreases ModeratorRetries - retry
  {
    var reply := remote(base, req);
    if reply.Answer? || retry == ModeratorRetries - 1 then Moderated(reply, [], 1)
    else
      var rest := AskFrom(remote, base + 1, req, retry + 1);
      var wait := if reply.Raised? then [Client.Backoff(retry + 1)] else [];
      Moderated(rest.last, wait + rest.waits, rest.count + 1)
  }

  /** The replies to `n` consecutive copies of `req` sent from request index `base` on. */
  function Replies(remote: Endpoint, base: nat, req: Request, n: nat): (replies: seq<Reply>)
    ensures |replies| == n
    decreases n
  {
    if n == 0 then [] else [remote(base, req)] + Replies(remote, base + 1, req, n - 1)
  }

  /** Reply `j` of the run is the one to request `base + j`. */
  lemma {:induction false} RepliesAt(remote: Endpoint, base: nat, req: Request, n: nat)
    ensures forall j :: 0 <= j < n ==> Replies(remote, base, req, n)[j] == remote(base + j, req)
    decreases n
  {
    if n > 0 {
      RepliesAt(remote, base + 1, req, n - 1);
      var later := Replies(remote, base + 1, req, n - 1);
      assert forall j :: 0 < j < n ==> Replies(remote, base, req, n)[j] == later[j - 1];
    }
  }

  /**
   The sleeps owed for `replies` to attempts `retry, retry + 1, ...`, each
   followed by another attempt: `Backoff(retry + 1 + j)` for every raised
   reply `j`, in order, and nothing for a reply without choices.
   */
  function RaisedWaits(replies: seq<Reply>, retry: nat): seq<int>
    decreases |replies|
  {
    if replies == [] then []
    else (if replies[0].Raised? then [Client.Backoff(retry + 1)] else []) + RaisedWaits(replies[1..], retry + 1)
  }

  /** Replies without choices owe no sleep. */
  lemma {:induction false} RaisedWaitsNone(replies: seq<Reply>, retry: nat)
    requires forall j :: 0 <= j < |replies| ==> replies[j].NoChoices?
    ensures RaisedWaits(replies, retry) == []
    decreases |replies|
  {
    if replies != [] {
      RaisedWaitsNone(replies[1..], retry + 1);
    }
  }

  /** Raised replies owe the backoff schedule from attempt `retry + 1` on. */
  lemma {:induction false} RaisedWaitsAll(replies: seq<Reply>, retry: nat)
    requires forall j :: 0 <= j < |replies| ==> replies[j].Raised?
    ensures |RaisedWaits(replies, retry)| == |replies|
    ensures forall k :: 0 <= k < |replies| ==> RaisedWaits(replies, retry)[k] == Client.Backoff(retry + 1 + k)
    decreases |replies|
  {
    if replies != [] {
      RaisedWaitsAll(replies[1..], retry + 1);
      var w := RaisedWaits(replies, retry);
      forall k | 0 < k < |replies| ensures w[k] == Client.Backoff(retry + 1 + k) {
        assert w[k] == RaisedWaits(replies[1..], retry + 1)[k - 1];
      }
    }
  }

  /** Prepending one reply prepends its wait, if any, to the waits of the rest. */
  lemma RaisedWaitsCons(reply: Reply, later: seq<Reply>, retry: nat)
    ensures RaisedWaits([reply] + later, retry)
            == (if reply.Raised? then [Client.Backoff(retry + 1)] else []) + RaisedWaits(later, retry + 1)
  {
    assert ([reply] + later)[1..] == later;
  }

  /**
   The moderator loop sleeps once after every raised reply that another
   attempt follows, `Backoff(retry + 1 + j)` for the `j`-th, in order, and
   never after a reply without choices.
   */
  lemma {:induction false} AskFromWaits(remote: Endpoint, base: nat, req: Request, retry: nat)
    requires retry < ModeratorRetries
    ensures var r := AskFrom(remote, base, req, retry);
            r.waits == RaisedWaits(Replies(remote, base, req, r.count - 1), retry)
    decreases ModeratorRetries - retry
  {
    var reply := remote(base, req);
    if !reply.Answer? && retry < ModeratorRetries - 1 {
      AskFromWaits(remote, base + 1, req, retry + 1);
      var rest := AskFrom(remote, base + 1, req, retry + 1);
      AskFromRetries(remote, base, req, retry);
      RepliesCons(remote, base, req, rest.count - 1);
      RaisedWaitsCons(reply, Replies(remote, base + 1, req, rest.count - 1), retry);
    } else {
      var r := AskFrom(remote, base, req, retry);
      assert r.waits == [] && r.count == 1;
      assert Replies(remote, base, req, 0) == [];
    }
  }

  /** A first attempt that is not an answer, with retries left, adds its wait and one call to the rest. */
  lemma AskFromRetries(remote: Endpoint, base: nat, req: Request, retry: nat)
    requires retry < ModeratorRetries - 1 && !remote(base, req).Answer?
    ensures var rest := AskFrom(remote, base + 1, req, retry + 1);
            var wait := if remote(base, req).Raised? then [Client.Backoff(retry + 1)] else [];
            AskFrom(remote, base, req, retry) == Moderated(rest.last, wait + rest.waits, rest.count + 1)
  {
  }

  /** Unfolds one reply from the front of a run. */
  lemma RepliesCons(remote: Endpoint, base: nat, req: Request, n: nat)
    ensures Replies(remote, base, req, n + 1) == [remote(base, req)] + Replies(remote, base + 1, req, n)
  {
  }

  /** The moderator request for a round. */
  function ModeratorRequest(judgePrompt: string, question: string, rs: seq<Response>): Request {
    Request(ModeratorParams, judgePrompt, JudgeInput(question, rs))
  }

  /** The question for the next round, the seconds slept, and the trace after the step. */
  datatype NextQuestion = NextQuestion(question: string, waits: seq<int>, sent: seq<Request>)

  /**
   The moderator step after a round with answers `rs` to `question`: one to
   three copies of the moderator request are sent; the next question is the
   first answer (stripped, at most 103 characters), or the fallback when the
   third attempt raised, or `question` itself when the third reply had no
   choices.
   */
  function Moderate(remote: Endpoint, sent: seq<Request>, judgePrompt: string, question: string, rs: seq<Response>): (r: NextQuestion)
    ensures Client.Extends(sent, r.sent, ModeratorRequest(judgePrompt, question, rs))
    ensures 1 <= |r.sent| - |sent| <= ModeratorRetries
    ensures r.question == question || |r.question| <= MaxQuestionLength + |Ellipsis|
    ensures forall j :: |sent| <= j < |r.sent| - 1 ==> !remote(j, ModeratorRequest(judgePrompt, question, rs)).Answer?
    ensures var last := remote(|r.sent| - 1, ModeratorRequest(judgePrompt, question, rs));
            && (last.Answer? ==> r.question == Truncate(Strip(last.content, Spaces)))
            && (!last.Answer? ==> |r.sent| - |sent| == ModeratorRetries)
            && (last.Raised? ==> r.question == FallbackQuestion)
            && (last.NoChoices? ==> r.question == question)
    ensures |r.waits| < |r.sent| - |sent|
  {
    var req := ModeratorRequest(judgePrompt, question, rs);
    var m := AskFrom(remote, |sent|, req, 0);
    var sent' := sent + Client.Copies(req, m.count);
    Client.ExtendsByCopies(sent, req, m.count);
    assert remote(|sent'| - 1, req) == m.last;
    NextQuestion(Settle(m.last, question), m.waits, sent')
  }

  /**
   The question the moderator step settles on after its last reply: the
   stripped and cut answer, the fallback after a raise, or the old question
   after a reply without choices.
   */
  function Settle(last: Reply, question: string): (next: string)
    ensures next == question || |next| <= MaxQuestionLength + |Ellipsis|
    ensures last.Answer? ==> next == Truncate(Strip(last.content, Spaces))
    ensures last.Raised? ==> next == FallbackQuestion
    ensures last.NoChoices? ==> next == question
  {
    match last
    case Answer(c) => Truncate(Strip(c, Spaces))
    case Raised(_) => FallbackQuestion
    case NoChoices => question
  }

  /**
   The moderator step sleeps only after a raised error that another attempt
   follows, `Backoff(j + 1)` after attempt `j` (from 0), and never after a
   reply without choices.
   */
  lemma ModerateWaits(remote: Endpoint, sent: seq<Request>, judgePrompt: string, question: string, rs: seq<Response>)
    ensures var r := Moderate(remote, sent, judgePrompt, question, rs);
            var req := ModeratorRequest(judgePrompt, question, rs);
            r.waits == RaisedWaits(Replies(remote, |sent|, req, |r.sent| - |sent| - 1), 0)
  {
    AskFromWaits(remote, |sent|, ModeratorRequest(judgePrompt, question, rs), 0);
  }

  /**
   Two uniform runs: replies without choices cost no wait, and errors on
   every attempt but the last give the backoff schedule `Backoff(1), Backoff(2)`.
   */
  lemma {:induction false} ModerateUniformWaits(remote: Endpoint, sent: seq<Request>, judgePrompt: string, question: string, rs: seq<Response>)
    ensures var r := Moderate(remote, sent, judgePrompt, question, rs);
            var req := ModeratorRequest(judgePrompt, question, rs);
            && ((forall j :: |sent| <= j < |r.sent| - 1 ==> remote(j, req).NoChoices?) ==> r.waits == [])
            && ((forall j :: |sent| <= j < |r.sent| - 1 ==> remote(j, req).Raised?) ==>
                  && |r.waits| == |r.sent| - |sent| - 1
                  && (forall k :: 0 <= k < |r.waits| ==> r.waits[k] == Client.Backoff(k + 1)))
  {
    var r := Moderate(remote, sent, judgePrompt, question, rs);
    var req := ModeratorRequest(judgePrompt, question, rs);
    if forall j :: |sent| <= j < |r.sent| - 1 ==> remote(j, req).NoChoices? {
      ModerateNoChoicesWaits(remote, sent, judgePrompt, question, rs);
    }
    if forall j :: |sent| <= j < |r.sent| - 1 ==> remote(j, req).Raised? {
      ModerateRaisedWaits(remote, sent, judgePrompt, question, rs);
    }
  }

  /** Replies without choices before the last attempt cost the moderator step no wait. */
  lemma ModerateNoChoicesWaits(remote: Endpoint, sent: seq<Request>, judgePrompt: string, question: string, rs: seq<Response>)
    requires var r := Moderate(remote, sent, judgePrompt, question, rs);
             forall j :: |sent| <= j < |r.sent| - 1 ==> remote(j, ModeratorRequest(judgePrompt, question, rs)).NoChoices?
    ensures Moderate(remote, sent, judgePrompt, question, rs).waits == []
  {
    var r := Moderate(remote, sent, judgePrompt, question, rs);
    var req := ModeratorRequest(judgePrompt, question, rs);
    var replies := Replies(remote, |sent|, req, |r.sent| - |sent| - 1);
    ModerateWaits(remote, sent, judgePrompt, question, rs);
    RepliesAt(remote, |sent|, req, |r.sent| - |sent| - 1);
    RaisedWaitsNone(replies, 0);
  }

  /** Raised errors before the last attempt cost the moderator step the backoff schedule. */
  lemma ModerateRaisedWaits(remote: Endpoint, sent: seq<Request>, judgePrompt: string, question: string, rs: seq<Response>)
    requires var r := Moderate(remote, sent, judgePrompt, question, rs);
             forall j :: |sent| <= j < |r.sent| - 1 ==> remote(j, ModeratorRequest(judgePrompt, question, rs)).Raised?
    ensures var r := Moderate(remote, sent, judgePrompt, question, rs);
            && |r.waits| == |r.sent| - |sent| - 1
            && forall k :: 0 <= k < |r.waits| ==> r.waits[k] == Client.Backoff(k + 1)
  {
    var r := Moderate(remote, sent, judgePrompt, question, rs);
    var req := ModeratorRequest(judgePrompt, question, rs);
    var replies := Replies(remote, |sent|, req, |r.sent| - |sent| - 1);
    ModerateWaits(remote, sent, judgePrompt, question, rs);
    RepliesAt(remote, |sent|, req, |r.sent| - |sent| - 1);
    RaisedWaitsAll(replies, 0);
  }


  /**
   A mixed run: no choices, then an error, then an answer. The only sleep is
   the 30 seconds after the second attempt's error, and the answer becomes
   the next question.
   */
  lemma MixedModeratorRun(remote: Endpoint, sent: seq<Request>, judgePrompt: string, question: string, rs: seq<Response>)
    requires var req := ModeratorRequest(judgePrompt, question, rs);
             && remote(|sent|, req).NoChoices?
             && remote(|sent| + 1, req).Raised?
             && remote(|sent| + 2, req).Answer?
    ensures var r := Moderate(remote, sent, judgePrompt, question, rs);
            var req := ModeratorRequest(judgePrompt, question, rs);
            && |r.sent| - |sent| == 3
            && r.waits == [30]
            && r.question == Truncate(Strip(remote(|sent| + 2, req).content, Spaces))
  {
    ModerateWaits(remote, sent, judgePrompt, question, rs);
  }
}
