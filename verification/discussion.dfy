/**
 The discussion loop (`conduct_discussion`): every round asks each
 philosopher in turn, files each answer as content or error, records the
 round, and lets the moderator pick the next question unless the round was
 the last one or nobody answered.
 */
module Discussion {
  import opened Common
  import opened Text
  import opened Remote
  import opened Records
  import Client
  import Moderator
  import Report

  /** A participant: the name it is filed under and its system prompt. */
  datatype Philosopher = Philosopher(name: string, prompt: string)

  /** `sent'` is `sent` followed by participant requests about `question` only. */
  predicate ParticipantsOnly(sent: seq<Request>, sent': seq<Request>, question: string) {
    && |sent| <= |sent'|
    && sent'[..|sent|] == sent
    && forall j :: |sent| <= j < |sent'| ==> sent'[j].params == ParticipantParams && sent'[j].user == question
  }

  /** The entries line up with the panel, and each is filed by `Classify`. */
  predicate Aligned(rs: seq<Response>, phils: seq<Philosopher>) {
    && |rs| == |phils|
    && forall i :: 0 <= i < |rs| ==>
         && rs[i].name == phils[i].name
         && (rs[i].entry.Error? <==> IsFailureText(rs[i].entry.text))
  }

  /** No participant request is ever answered. */
  ghost predicate NeverAnswers(remote: Endpoint) {
    forall k: nat, req: Request :: req.params == ParticipantParams ==> !remote(k, req).Answer?
  }

  /** Every participant request is answered with a text that does not look like a failure. */
  ghost predicate AlwaysAnswers(remote: Endpoint) {
    forall k: nat, req: Request :: req.params == ParticipantParams ==>
      remote(k, req).Answer? && !IsFailureText(Strip(remote(k, req).content, Spaces))
  }

  /** Every entry is an error. */
  predicate AllFailed(rs: seq<Response>) {
    forall i :: 0 <= i < |rs| ==> rs[i].entry.Error?
  }

  /** Every entry is an answer. */
  predicate AllAnswered(rs: seq<Response>) {
    forall i :: 0 <= i < |rs| ==> rs[i].entry.Content?
  }

  /**
   The entry and the trace after asking `phil` about `question` on trace
   `sent`: what `get_response` returned with the philosopher's own prompt,
   filed by `Classify` under the philosopher's name.
   */
  predicate AskedOne(remote: Endpoint, sent: seq<Request>, phil: Philosopher, question: string,
                     response: Response, sent': seq<Request>)
  {
    var c := Client.GetResponse(remote, sent, phil.prompt, question, Client.DefaultRetries);
    response == Response(phil.name, Classify(c.text)) && sent' == c.sent
  }

  /**
   `traces` are the traces between the calls of asking `phils` in turn about
   `question`: philosopher `i` is asked on `traces[i]`, gets entry `rs[i]`,
   and leaves `traces[i + 1]`.
   */
  predicate TurnTraces(remote: Endpoint, traces: seq<seq<Request>>, phils: seq<Philosopher>, question: string,
                       rs: seq<Response>)
  {
    && |traces| == |phils| + 1
    && |rs| == |phils|
    && forall i: nat :: i < |phils| ==> AskedAt(remote, traces, phils, question, rs, i)
  }

  /** Philosopher `i` of the turn was asked on `traces[i]`, got `rs[i]` and left `traces[i + 1]`. */
  predicate AskedAt(remote: Endpoint, traces: seq<seq<Request>>, phils: seq<Philosopher>, question: string,
                    rs: seq<Response>, i: nat)
    requires i < |phils| && |traces| == |phils| + 1 && |rs| == |phils|
  {
    AskedOne(remote, traces[i], phils[i], question, rs[i], traces[i + 1])
  }

  /** Asking one more philosopher on the trace the turn left extends the turn by one step. */
  lemma TurnExtend(remote: Endpoint, traces: seq<seq<Request>>, phils: seq<Philosopher>, question: string,
                   rs: seq<Response>, phil: Philosopher, r: Response, after: seq<Request>)
    requires TurnTraces(remote, traces, phils, question, rs)
    requires TurnTraces(remote, [traces[|phils|], after], [phil], question, [r])
    ensures TurnTraces(remote, traces + [after], phils + [phil], question, rs + [r])
  {
    OneAsked(remote, traces[|phils|], phil, question, r, after);
    forall i: nat | i < |phils| + 1
      ensures AskedAt(remote, traces + [after], phils + [phil], question, rs + [r], i)
    {
      if i < |phils| {
        AskedAtShift(remote, traces, phils, question, rs, phil, r, after, i);
      } else {
        AskedAtLast(remote, traces, phils, question, rs, phil, r, after);
      }
    }
  }

  /** Asking one more philosopher leaves an earlier step of the turn as it was. */
  lemma AskedAtShift(remote: Endpoint, traces: seq<seq<Request>>, phils: seq<Philosopher>, question: string,
                     rs: seq<Response>, phil: Philosopher, r: Response, after: seq<Request>, i: nat)
    requires i < |phils| && |traces| == |phils| + 1 && |rs| == |phils|
    requires AskedAt(remote, traces, phils, question, rs, i)
    ensures AskedAt(remote, traces + [after], phils + [phil], question, rs + [r], i)
  {
    var traces', phils', rs' := traces + [after], phils + [phil], rs + [r];
    assert traces'[i] == traces[i] && traces'[i + 1] == traces[i + 1];
    assert phils'[i] == phils[i] && rs'[i] == rs[i];
  }

  /** Asking one more philosopher on the trace the turn left becomes the turn's final step. */
  lemma AskedAtLast(remote: Endpoint, traces: seq<seq<Request>>, phils: seq<Philosopher>, question: string,
                    rs: seq<Response>, phil: Philosopher, r: Response, after: seq<Request>)
    requires |traces| == |phils| + 1 && |rs| == |phils|
    requires AskedOne(remote, traces[|phils|], phil, question, r, after)
    ensures AskedAt(remote, traces + [after], phils + [phil], question, rs + [r], |phils|)
  {
    var traces', phils', rs' := traces + [after], phils + [phil], rs + [r];
    assert traces'[|phils|] == traces[|phils|] && traces'[|phils| + 1] == after;
    assert phils'[|phils|] == phil && rs'[|phils|] == r;
  }

  /** A turn of one philosopher is exactly one call of `get_response` filed under its name. */
  lemma OneAsked(remote: Endpoint, sent: seq<Request>, phil: Philosopher, question: string, r: Response, sent': seq<Request>)
    ensures TurnTraces(remote, [sent, sent'], [phil], question, [r]) <==> AskedOne(remote, sent, phil, question, r, sent')
  {
    assert AskedAt(remote, [sent, sent'], [phil], question, [r], 0) <==> AskedOne(remote, sent, phil, question, r, sent');
  }

  /** `rs` and `sent'` are what asking `phils` in turn gives, starting on trace `sent`. */
  ghost predicate AskedInTurn(remote: Endpoint, sent: seq<Request>, phils: seq<Philosopher>, question: string,
                              rs: seq<Response>, sent': seq<Request>)
  {
    exists traces: seq<seq<Request>> ::
      && TurnTraces(remote, traces, phils, question, rs)
      && traces[0] == sent
      && traces[|phils|] == sent'
  }

  /** Every request with `prompt` as system prompt is answered with a usable text. */
  ghost predicate AnswersPrompt(remote: Endpoint, prompt: string) {
    forall k: nat, req: Request :: req.params == ParticipantParams && req.system == prompt ==>
      remote(k, req).Answer? && !IsFailureText(Strip(remote(k, req).content, Spaces))
  }

  /** No request with `prompt` as system prompt is answered. */
  ghost predicate FailsPrompt(remote: Endpoint, prompt: string) {
    forall k: nat, req: Request :: req.params == ParticipantParams && req.system == prompt ==> !remote(k, req).Answer?
  }

  /**
   A mixed round: the first philosopher is always answered and the second
   never is. The first entry is an answer, the second an error, and the
   round has a success.
   */
  lemma MixedTurn(remote: Endpoint, sent: seq<Request>, a: Philosopher, b: Philosopher, question: string,
                  rs: seq<Response>, sent': seq<Request>)
    requires AnswersPrompt(remote, a.prompt) && FailsPrompt(remote, b.prompt)
    requires AskedInTurn(remote, sent, [a, b], question, rs, sent')
    ensures |rs| == 2
    ensures rs[0].name == a.name && rs[0].entry.Content?
    ensures rs[1].name == b.name && rs[1].entry.Error?
    ensures HasSuccess(rs)
  {
    var traces :| TurnTraces(remote, traces, [a, b], question, rs) && traces[0] == sent && traces[2] == sent';
    assert AskedAt(remote, traces, [a, b], question, rs, 0);
    assert AskedAt(remote, traces, [a, b], question, rs, 1);
    AnsweredOne(remote, traces[0], a, question, rs[0], traces[1]);
    FailedOne(remote, traces[1], b, question, rs[1], traces[2]);
  }

  /** A philosopher whose prompt is always answered gets an answer filed under its name. */
  lemma AnsweredOne(remote: Endpoint, sent: seq<Request>, phil: Philosopher, question: string,
                    r: Response, sent': seq<Request>)
    requires AnswersPrompt(remote, phil.prompt) && AskedOne(remote, sent, phil, question, r, sent')
    ensures r.name == phil.name && r.entry.Content?
  {
    assert remote(|sent|, Client.ParticipantRequest(phil.prompt, question)).Answer?;
  }

  /** A philosopher whose prompt is never answered gets an error filed under its name. */
  lemma FailedOne(remote: Endpoint, sent: seq<Request>, phil: Philosopher, question: string,
                  r: Response, sent': seq<Request>)
    requires FailsPrompt(remote, phil.prompt) && AskedOne(remote, sent, phil, question, r, sent')
    ensures r.name == phil.name && r.entry.Error?
  {
    var c := Client.GetResponse(remote, sent, phil.prompt, question, Client.DefaultRetries);
    assert !remote(|c.sent| - 1, Client.ParticipantRequest(phil.prompt, question)).Answer?;
    assert StartsWith(c.text, Client.FailurePrefix);
  }

  /**
   Asks one philosopher, with the default budget of attempts, and files the
   returned text as content or error under the philosopher's name.
   */
  method AskOne(remote: Endpoint, sent: seq<Request>, phil: Philosopher, question: string)
    returns (response: Response, sent': seq<Request>)
    ensures TurnTraces(remote, [sent, sent'], [phil], question, [response])
    ensures response.name == phil.name
    ensures response.entry.Error? <==> IsFailureText(response.entry.text)
    ensures ParticipantsOnly(sent, sent', question)
    ensures 1 <= |sent'| - |sent| <= Client.DefaultRetries
    ensures NeverAnswers(remote) ==> response.entry.Error? && |sent'| - |sent| == Client.DefaultRetries
    ensures AlwaysAnswers(remote) ==> response.entry.Content? && |sent'| - |sent| == 1
  {
    var req := Client.ParticipantRequest(phil.prompt, question);
    var c := Client.GetResponse(remote, sent, phil.prompt, question, Client.DefaultRetries);
    if NeverAnswers(remote) {
      assert !remote(|c.sent| - 1, req).Answer?;
      assert StartsWith(c.text, Client.FailurePrefix);
    }
    if AlwaysAnswers(remote) {
      assert remote(|sent|, req).Answer?;
    }
    response := Response(phil.name, Classify(c.text));
    sent' := c.sent;
    assert AskedAt(remote, [sent, sent'], [phil], question, [response], 0);
  }

  /**
   The loop of `AskAll` after `i` philosophers: the turn so far is recorded
   in `traces`, the entries line up with the panel asked so far, and
   `current` is the trace the last of them left.
   */
  ghost predicate TurnProgress(remote: Endpoint, sent: seq<Request>, phils: seq<Philosopher>, question: string,
                               i: nat, traces: seq<seq<Request>>, responses: seq<Response>, current: seq<Request>)
  {
    && i <= |phils|
    && TurnTraces(remote, traces, phils[..i], question, responses)
    && traces[0] == sent && traces[i] == current
    && Aligned(responses, phils[..i])
    && ParticipantsOnly(sent, current, question)
    && i <= |current| - |sent| <= Client.DefaultRetries * i
    && (NeverAnswers(remote) ==> AllFailed(responses) && |current| - |sent| == Client.DefaultRetries * i)
    && (AlwaysAnswers(remote) ==> AllAnswered(responses) && |current| - |sent| == i)
  }

  /** One iteration of the loop of `AskAll`: philosopher `i` is asked on the current trace. */
  method AskNext(remote: Endpoint, sent: seq<Request>, phils: seq<Philosopher>, question: string,
                 i: nat, ghost traces: seq<seq<Request>>, responses: seq<Response>, current: seq<Request>)
    returns (ghost traces': seq<seq<Request>>, responses': seq<Response>, current': seq<Request>)
    requires i < |phils|
    requires TurnProgress(remote, sent, phils, question, i, traces, responses, current)
    ensures TurnProgress(remote, sent, phils, question, i + 1, traces', responses', current')
  {
    var r, after := AskOne(remote, current, phils[i], question);
    TurnExtend(remote, traces, phils[..i], question, responses, phils[i], r, after);
    assert phils[..i + 1] == phils[..i] + [phils[i]];
    assert forall j :: |sent| <= j < |current| ==> after[j] == current[j];
    traces' := traces + [after];
    responses' := responses + [r];
    current' := after;
  }

  /**
   Asks each philosopher in turn. An endpoint that never answers costs the
   full budget per philosopher and leaves only errors; one that always
   answers costs one request each and leaves only answers.
   */
  method AskAll(remote: Endpoint, sent: seq<Request>, phils: seq<Philosopher>, question: string)
    returns (responses: seq<Response>, sent': seq<Request>)
    ensures AskedInTurn(remote, sent, phils, question, responses, sent')
    ensures Aligned(responses, phils)
    ensures ParticipantsOnly(sent, sent', question)
    ensures |phils| <= |sent'| - |sent| <= Client.DefaultRetries * |phils|
    ensures NeverAnswers(remote) ==>
              AllFailed(responses) && |sent'| - |sent| == Client.DefaultRetries * |phils|
    ensures AlwaysAnswers(remote) ==> AllAnswered(responses) && |sent'| - |sent| == |phils|
  {
    responses := [];
    sent' := sent;
    ghost var traces := [sent];
    assert phils[..0] == [];
    for i := 0 to |phils|
      invariant TurnProgress(remote, sent, phils, question, i, traces, responses, sent')
    {
      traces, responses, sent' := AskNext(remote, sent, phils, question, i, traces, responses, sent');
    }
    assert phils[..|phils|] == phils;
    assert TurnTraces(remote, traces, phils, question, responses);
  }

  /**
   Round `rec` was played on trace `sent` and left `sent'`, after which
   `next` is asked: the panel was asked in turn about the round's question
   (participant requests only); when someone answered and a round follows,
   the moderator was called on the trace the panel left and `next` is its
   question; otherwise `next` is the round's own question.
   */
  ghost predicate Played(remote: Endpoint, phils: seq<Philosopher>, judgePrompt: string, sent: seq<Request>,
                         rec: RoundRecord, rounds: int, next: string, sent': seq<Request>)
  {
    exists asked: seq<Request> ::
      && AskedInTurn(remote, sent, phils, rec.question, rec.responses, asked)
      && ParticipantsOnly(sent, asked, rec.question)
      && if HasSuccess(rec.responses) && rec.round < rounds then
           var m := Moderator.Moderate(remote, asked, judgePrompt, rec.question, rec.responses);
           next == m.question && sent' == m.sent
         else
           next == rec.question && sent' == asked
  }

  /** The question asked after record `i`: the next record's, or `last` after the final one. */
  function NextAsked(h: seq<RoundRecord>, i: nat, last: string): string
    requires i < |h|
  {
    if i + 1 < |h| then h[i + 1].question else last
  }

  /**
   `traces` are the traces between the rounds of `history`: round `i` is
   played on `traces[i]` and leaves `traces[i + 1]`; `last` is what is asked
   after the final round.
   */
  ghost predicate Chained(remote: Endpoint, traces: seq<seq<Request>>, phils: seq<Philosopher>, judgePrompt: string,
                          history: seq<RoundRecord>, rounds: int, last: string)
  {
    && |traces| == |history| + 1
    && forall i: nat :: i < |history| ==> PlayedAt(remote, traces, phils, judgePrompt, history, rounds, last, i)
  }

  /** Round `i` of `history` was played on `traces[i]` and left `traces[i + 1]`. */
  ghost predicate PlayedAt(remote: Endpoint, traces: seq<seq<Request>>, phils: seq<Philosopher>, judgePrompt: string,
                           history: seq<RoundRecord>, rounds: int, last: string, i: nat)
    requires i < |history| && |traces| == |history| + 1
  {
    Played(remote, phils, judgePrompt, traces[i], history[i], rounds, NextAsked(history, i, last), traces[i + 1])
  }

  /** A chain of one round is exactly one played round. */
  lemma OnePlayed(remote: Endpoint, phils: seq<Philosopher>, judgePrompt: string, sent: seq<Request>,
                  rec: RoundRecord, rounds: int, next: string, sent': seq<Request>)
    ensures Chained(remote, [sent, sent'], phils, judgePrompt, [rec], rounds, next)
        <==> Played(remote, phils, judgePrompt, sent, rec, rounds, next, sent')
  {
    assert PlayedAt(remote, [sent, sent'], phils, judgePrompt, [rec], rounds, next, 0)
       <==> Played(remote, phils, judgePrompt, sent, rec, rounds, next, sent');
  }

  /** Playing one more round, on the question the chain ends with, extends the chain. */
  lemma ChainExtend(remote: Endpoint, traces: seq<seq<Request>>, phils: seq<Philosopher>, judgePrompt: string,
                    history: seq<RoundRecord>, rounds: int, last: string,
                    before: seq<Request>, rec: RoundRecord, next: string, after: seq<Request>)
    requires Chained(remote, traces, phils, judgePrompt, history, rounds, last)
    requires traces[|history|] == before && rec.question == last
    requires Chained(remote, [before, after], phils, judgePrompt, [rec], rounds, next)
    ensures Chained(remote, traces + [after], phils, judgePrompt, history + [rec], rounds, next)
  {
    OnePlayed(remote, phils, judgePrompt, before, rec, rounds, next, after);
    forall i: nat | i < |history| + 1
      ensures PlayedAt(remote, traces + [after], phils, judgePrompt, history + [rec], rounds, next, i)
    {
      if i < |history| {
        PlayedAtShift(remote, traces, phils, judgePrompt, history, rounds, last, rec, next, after, i);
      } else {
        PlayedAtLast(remote, traces, phils, judgePrompt, history, rounds, before, rec, next, after);
      }
    }
  }

  /** Appending a round whose question is `last` leaves an earlier round's entry of the chain as it was. */
  lemma PlayedAtShift(remote: Endpoint, traces: seq<seq<Request>>, phils: seq<Philosopher>, judgePrompt: string,
                      history: seq<RoundRecord>, rounds: int, last: string,
                      rec: RoundRecord, next: string, after: seq<Request>, i: nat)
    requires i < |history| && |traces| == |history| + 1 && rec.question == last
    ensures PlayedAt(remote, traces + [after], phils, judgePrompt, history + [rec], rounds, next, i)
        <==> PlayedAt(remote, traces, phils, judgePrompt, history, rounds, last, i)
  {
    var traces', history' := traces + [after], history + [rec];
    assert traces'[i] == traces[i] && traces'[i + 1] == traces[i + 1] && history'[i] == history[i];
    assert NextAsked(history', i, next) == NextAsked(history, i, last);
  }

  /** A round played on the trace the chain left becomes the chain's final entry. */
  lemma PlayedAtLast(remote: Endpoint, traces: seq<seq<Request>>, phils: seq<Philosopher>, judgePrompt: string,
                     history: seq<RoundRecord>, rounds: int,
                     before: seq<Request>, rec: RoundRecord, next: string, after: seq<Request>)
    requires |traces| == |history| + 1 && traces[|history|] == before
    requires Played(remote, phils, judgePrompt, before, rec, rounds, next, after)
    ensures PlayedAt(remote, traces + [after], phils, judgePrompt, history + [rec], rounds, next, |history|)
  {
    var traces', history' := traces + [after], history + [rec];
    assert traces'[|history|] == before && traces'[|history| + 1] == after && history'[|history|] == rec;
    assert NextAsked(history', |history|, next) == next;
  }

  /** The last record of `h`'s question, or the empty string. */
  function LastQuestion(h: seq<RoundRecord>): string {
    if h == [] then [] else h[|h| - 1].question
  }

  /** A chain's final `last` can be renamed to the last record's question when the two agree. */
  lemma ChainLast(remote: Endpoint, traces: seq<seq<Request>>, phils: seq<Philosopher>, judgePrompt: string,
                  history: seq<RoundRecord>, rounds: int, last: string)
    requires Chained(remote, traces, phils, judgePrompt, history, rounds, last)
    requires history != [] ==> last == LastQuestion(history)
    ensures Chained(remote, traces, phils, judgePrompt, history, rounds, LastQuestion(history))
  {
    if history != [] {
      assert last == LastQuestion(history);
    }
  }

  /** `history` and `sent'` are what playing its rounds one after another gives, starting on trace `sent`. */
  ghost predicate ConductedFrom(remote: Endpoint, sent: seq<Request>, phils: seq<Philosopher>, judgePrompt: string,
                                history: seq<RoundRecord>, rounds: int, sent': seq<Request>)
  {
    exists traces: seq<seq<Request>> ::
      && Chained(remote, traces, phils, judgePrompt, history, rounds, LastQuestion(history))
      && traces[0] == sent
      && traces[|history|] == sent'
  }

  /** The moderator is called after round `index` (from 0) of `rounds`: someone answered and a round follows. */
  predicate CallsModerator(rs: seq<Response>, index: nat, rounds: int) {
    HasSuccess(rs) && index < rounds - 1
  }

  /** The record of round `index` (from 0): numbered, aligned with the panel, flagged exactly when nobody answered. */
  predicate Shaped(rec: RoundRecord, index: nat, phils: seq<Philosopher>) {
    && rec.round == index + 1
    && Aligned(rec.responses, phils)
    && (rec.error.None? <==> HasSuccess(rec.responses))
    && (rec.error.Some? ==> rec.error.value == NoValidAnswers)
  }

  /**
   The question asked after round `prev`: the same when nobody answered,
   otherwise the same or a cut one. This is a corollary of `Played`, which
   pins the next question to the moderator's reply; it is kept as a short
   shape check on the history alone.
   */
  predicate Follows(prev: RoundRecord, question: string) {
    && (!HasSuccess(prev.responses) ==> question == prev.question)
    && (question == prev.question || |question| <= Moderator.MaxQuestionLength + |Ellipsis|)
  }

  /**
   Round `index` of `rounds` on `question`: everyone is asked; a round
   nobody answered is flagged and keeps its question; otherwise the moderator
   picks the next question, except after the last round.
   */
  method PlayRound(remote: Endpoint, phils: seq<Philosopher>, judgePrompt: string, sent: seq<Request>,
                   question: string, index: nat, rounds: int)
    returns (record: RoundRecord, next: string, sent': seq<Request>)
    ensures Chained(remote, [sent, sent'], phils, judgePrompt, [record], rounds, next)
    ensures Shaped(record, index, phils)
    ensures record.question == question
    ensures Follows(record, next)
    ensures |sent| + |phils| <= |sent'| && sent'[..|sent|] == sent
    ensures !CallsModerator(record.responses, index, rounds) ==>
              next == question && ParticipantsOnly(sent, sent', question)
    ensures CallsModerator(record.responses, index, rounds) ==>
              && |sent'| > |sent|
              && sent'[|sent'| - 1] == Moderator.ModeratorRequest(judgePrompt, question, record.responses)
    ensures NeverAnswers(remote) ==> record.error == Some(NoValidAnswers)
    ensures AlwaysAnswers(remote) && phils != [] ==> record.error == None
  {
    var rs, asked := AskAll(remote, sent, phils, question);
    ghost var played := AskedInTurn(remote, sent, phils, question, rs, asked) && ParticipantsOnly(sent, asked, question);
    if !HasSuccess(rs) {
      record := RoundRecord(index + 1, question, rs, Some(NoValidAnswers));
      next := question;
      sent' := asked;
    } else {
      record := RoundRecord(index + 1, question, rs, None);
      if index < rounds - 1 {
        var m := Moderator.Moderate(remote, asked, judgePrompt, question, rs);
        next := m.question;
        sent' := m.sent;
        assert sent'[..|asked|] == asked;
        assert sent'[..|sent|] == asked[..|sent|];
      } else {
        next := question;
        sent' := asked;
      }
    }
    if AlwaysAnswers(remote) && phils != [] {
      assert rs[0].entry.Content?;
    }
    assert played;
    assert Played(remote, phils, judgePrompt, sent, record, rounds, next, sent');
    OnePlayed(remote, phils, judgePrompt, sent, record, rounds, next, sent');
  }

  /** Every record is shaped for its position. */
  predicate AllShaped(h: seq<RoundRecord>, phils: seq<Philosopher>) {
    forall i :: 0 <= i < |h| ==> Shaped(h[i], i, phils)
  }

  /**
   Every record's question follows from the record before it: the
   history-only corollary of `Chained`, which fixes each question exactly.
   */
  predicate AllLinked(h: seq<RoundRecord>) {
    forall i :: 0 < i < |h| ==> Follows(h[i - 1], h[i].question)
  }

  /**
   The records so far are shaped and linked, the first asks the initial
   question, and `question` (asked next) follows from the last record.
   The linking part is a corollary of `Chained`, kept as a loop invariant
   that speaks of the history alone.
   */
  predicate Opened(history: seq<RoundRecord>, phils: seq<Philosopher>, initial: string, question: string) {
    && AllShaped(history, phils)
    && AllLinked(history)
    && (history == [] ==> question == initial)
    && (history != [] ==> history[0].question == initial && Follows(history[|history| - 1], question))
  }

  /** Appending a shaped round on the question asked next keeps the history opened. */
  lemma OpenedStep(history: seq<RoundRecord>, phils: seq<Philosopher>, initial: string, question: string,
                   record: RoundRecord, next: string)
    requires Opened(history, phils, initial, question)
    requires Shaped(record, |history|, phils) && record.question == question && Follows(record, next)
    ensures Opened(history + [record], phils, initial, next)
  {
    var h := history + [record];
    assert forall i :: 0 <= i < |history| ==> h[i] == history[i];
  }

  /** Every record so far is flagged and asked the initial question, which is also asked next. */
  predicate Stuck(history: seq<RoundRecord>, initial: string, question: string) {
    && (forall i :: 0 <= i < |history| ==> history[i].error == Some(NoValidAnswers) && history[i].question == initial)
    && question == initial
  }

  /** No record so far is flagged. */
  predicate AllClean(history: seq<RoundRecord>) {
    forall i :: 0 <= i < |history| ==> history[i].error == None
  }

  /** Participant-only extensions compose. */
  lemma ParticipantsChain(a: seq<Request>, b: seq<Request>, c: seq<Request>, question: string)
    requires ParticipantsOnly(a, b, question) && ParticipantsOnly(b, c, question)
    ensures ParticipantsOnly(a, c, question)
  {
    assert c[..|a|] == b[..|a|];
    assert forall j :: |a| <= j < |b| ==> c[j] == b[j];
  }

  /**
   The state of the discussion loop before round `index` of `n`: the
   records so far, the traces between them, the question asked next and the
   current trace `current`.
   */
  ghost predicate Progress(remote: Endpoint, sent: seq<Request>, phils: seq<Philosopher>, judgePrompt: string,
                           initial: string, rounds: int, n: nat, index: nat, traces: seq<seq<Request>>,
                           history: seq<RoundRecord>, question: string, current: seq<Request>)
  {
    && index <= n
    && |history| == index
    && Chained(remote, traces, phils, judgePrompt, history, rounds, question)
    && traces[0] == sent && traces[index] == current
    && (index == n && n > 0 ==> question == history[n - 1].question)
    && Opened(history, phils, initial, question)
    && |sent| <= |current| && current[..|sent|] == sent
    && (index == n && n > 0 && phils != [] ==> |current| > |sent| && current[|current| - 1].params == ParticipantParams)
    && (NeverAnswers(remote) ==> Stuck(history, initial, question) && ParticipantsOnly(sent, current, initial))
    && (AlwaysAnswers(remote) && phils != [] ==> AllClean(history))
  }

  /** One iteration of the discussion loop: round `index` is played on the current question and trace. */
  method PlayNext(remote: Endpoint, sent: seq<Request>, phils: seq<Philosopher>, judgePrompt: string,
                  initial: string, rounds: int, n: nat, index: nat, ghost traces: seq<seq<Request>>,
                  history: seq<RoundRecord>, question: string, current: seq<Request>)
    returns (ghost traces': seq<seq<Request>>, history': seq<RoundRecord>, question': string, current': seq<Request>)
    requires index < n && n == (if rounds < 0 then 0 else rounds)
    requires Progress(remote, sent, phils, judgePrompt, initial, rounds, n, index, traces, history, question, current)
    ensures Progress(remote, sent, phils, judgePrompt, initial, rounds, n, index + 1, traces', history', question', current')
  {
    var record, next, after := PlayRound(remote, phils, judgePrompt, current, question, index, rounds);
    ChainExtend(remote, traces, phils, judgePrompt, history, rounds, question, current, record, next, after);
    OpenedStep(history, phils, initial, question, record, next);
    assert after[..|sent|] == sent;
    if NeverAnswers(remote) {
      ParticipantsChain(sent, current, after, initial);
    }
    traces' := traces + [after];
    history' := history + [record];
    question' := next;
    current' := after;
  }

  /**
   `conduct_discussion(initial, rounds)`: one record per round, numbered
   from 1, the first on the initial question; a round nobody answered is
   flagged and the next round asks the same question again; no moderator
   request follows the last round. Against an endpoint that never answers,
   every round is flagged, every round asks the initial question, and only
   participant requests are sent; against one that always answers, no round
   is flagged.
   */
  method Conduct(remote: Endpoint, sent: seq<Request>, phils: seq<Philosopher>, judgePrompt: string,
                 initial: string, rounds: int)
    returns (history: seq<RoundRecord>, sent': seq<Request>)
    ensures ConductedFrom(remote, sent, phils, judgePrompt, history, rounds, sent')
    ensures |history| == (if rounds < 0 then 0 else rounds)
    ensures Report.InitialQuestion(history) == if rounds >= 1 then initial else Report.UnknownQuestion
    ensures AllShaped(history, phils)
    ensures AllLinked(history)
    ensures history != [] ==> history[0].question == initial
    ensures |sent| <= |sent'| && sent'[..|sent|] == sent
    ensures rounds > 0 && phils != [] ==> |sent'| > |sent| && sent'[|sent'| - 1].params == ParticipantParams
    ensures NeverAnswers(remote) ==>
              && (forall i :: 0 <= i < |history| ==> history[i].error == Some(NoValidAnswers) && history[i].question == initial)
              && ParticipantsOnly(sent, sent', initial)
    ensures AlwaysAnswers(remote) && phils != [] ==> forall i :: 0 <= i < |history| ==> history[i].error == None
  {
    history := [];
    sent' := sent;
    var question := initial;
    var n := if rounds < 0 then 0 else rounds;
    ghost var traces := [sent];
    for index := 0 to n
      invariant Progress(remote, sent, phils, judgePrompt, initial, rounds, n, index, traces, history, question, sent')
    {
      traces, history, question, sent' := PlayNext(remote, sent, phils, judgePrompt, initial, rounds, n, index,
                                                   traces, history, question, sent');
    }
    ChainLast(remote, traces, phils, judgePrompt, history, rounds, question);
  }
}
