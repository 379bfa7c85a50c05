/**
 The discussion records: one entry per philosopher per round, holding either
 the answer (`content`) or the failure text (`error`), never both, and the
 rule that decides which of the two an answer becomes.
 */
module Records {
  import opened Common
  import opened Text
  import Client

  /** Second failure head the orchestrator recognises; `get_response` never produces it. */
  const TimeoutPrefix: string := "API请求超时"

  /** Note attached to a round in which no philosopher answered. */
  const NoValidAnswers: string := "本轮无有效回答"

  /** A philosopher's entry in a round: the `content` or the `error` key. */
  datatype Entry = Content(text: string) | Error(text: string)

  /** One philosopher's entry, under the philosopher's name. */
  datatype Response = Response(name: string, entry: Entry)

  /**
   One round of the history: its 1-based number, the question put, the
   entries in philosopher order, and the note when nobody answered.
   Timestamps are not modelled.
   */
  datatype RoundRecord = RoundRecord(round: nat, question: string, responses: seq<Response>, error: Option<string>)

  /** The text `get_response` returned is treated as a failure. */
  predicate IsFailureText(s: string) {
    StartsWith(s, Client.FailurePrefix) || StartsWith(s, TimeoutPrefix)
  }

  /** Files a returned text as an answer or as an error, keeping the text. */
  function Classify(text: string): (e: Entry)
    ensures e.text == text
    ensures e.Error? <==> IsFailureText(text)
  {
    if IsFailureText(text) then Error(text) else Content(text)
  }

  /** Some philosopher answered. */
  predicate HasSuccess(rs: seq<Response>) {
    exists i :: 0 <= i < |rs| && rs[i].entry.Content?
  }

  /**
   The answered entries, in their original order (what the orchestrator
   keeps in `round_responses`).
   */
  function Successes(rs: seq<Response>): (ok: seq<Response>)
    ensures |ok| <= |rs|
    ensures forall r :: r in ok ==> r.entry.Content? && r in rs
    ensures forall r :: r in rs && r.entry.Content? ==> r in ok
    ensures ok == [] <==> !HasSuccess(rs)
  {
    if rs == [] then []
    else
      var init := rs[..|rs| - 1];
      var last := rs[|rs| - 1];
      assert forall i :: 0 <= i < |init| ==> init[i] == rs[i];
      Successes(init) + (if last.entry.Content? then [last] else [])
  }

  /**
   Filtering works entry by entry: the answers of a concatenation are the
   answers of each part, in the same order.
   */
  lemma {:induction false} SuccessesAppend(a: seq<Response>, b: seq<Response>)
    ensures Successes(a + b) == Successes(a) + Successes(b)
    decreases |b|
  {
    if b == [] {
      assert a + b == a;
    } else {
      var init, x := b[..|b| - 1], b[|b| - 1];
      var kept := if x.entry.Content? then [x] else [];
      SplitLast(b);
      ConcatAssoc(a, init, [x]);
      SuccessesSnoc(a + init, x);
      SuccessesSnoc(init, x);
      SuccessesAppend(a, init);
      ConcatAssoc(Successes(a), Successes(init), kept);
    }
  }

  /** One more entry adds itself to the successes exactly when it is an answer. */
  lemma SuccessesSnoc(rs: seq<Response>, x: Response)
    ensures Successes(rs + [x]) == Successes(rs) + (if x.entry.Content? then [x] else [])
  {
    assert (rs + [x])[..|rs|] == rs;
  }
}
