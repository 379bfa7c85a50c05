/**
 The plain-text summary of a discussion (`generate_simple_summary`), used
 when no article could be generated: a header line, then for every round its
 heading, its question, and one line per philosopher.
 */
module Summary {
  import opened Text
  import opened Records

  /** The summary's first line. */
  const SummaryHeader: string := "讨论要点总结："

  /** How many characters of an answer the summary quotes. */
  const ExcerptLength: nat := 100

  /** What the summary says about a philosopher whose answer failed. */
  const MissingAnswer: string := "(未能获取完整回答)"

  /** The label between a philosopher's name and the quoted answer. */
  const ViewpointLabel: string := "的观点："

  /** The label between a philosopher's name and the missing-answer note. */
  const MissingLabel: string := "："

  /** A round's heading: a blank line, then `第{round}轮讨论：`. */
  function RoundHeading(round: nat): string {
    "\n第" + Decimal(round) + "轮讨论："
  }

  /** A round's question line. */
  function QuestionLine(question: string): string {
    "问题：" + question
  }

  /**
   A philosopher's line: the first 100 characters of the answer followed by
   the ellipsis, or the missing-answer note; the error text itself is never
   shown.
   */
  function ResponseLine(r: Response): (line: string)
    ensures StartsWith(line, r.name)
    ensures r.entry.Content? ==>
              && StartsWith(line, r.name + ViewpointLabel)
              && EndsWith(line, Ellipsis)
              && |line| == |r.name| + |ViewpointLabel| + |Prefix(r.entry.text, ExcerptLength)| + |Ellipsis|
              && line[|r.name| + |ViewpointLabel|..|line| - |Ellipsis|] == Prefix(r.entry.text, ExcerptLength)
    ensures r.entry.Error? ==>
              && StartsWith(line, r.name + MissingLabel)
              && EndsWith(line, MissingAnswer)
              && |line| == |r.name| + |MissingLabel| + |MissingAnswer|
  {
    match r.entry
    case Content(text) => r.name + ViewpointLabel + Prefix(text, ExcerptLength) + Ellipsis
    case Error(_) => r.name + MissingLabel + MissingAnswer
  }

  /** The line of a failed philosopher does not depend on its error text. */
  lemma FailureTextHidden(name: string, e1: string, e2: string)
    ensures ResponseLine(Response(name, Error(e1))) == ResponseLine(Response(name, Error(e2)))
  {
  }

  /** The lines of one round: heading, question, one line per philosopher. */
  function RoundLines(rec: RoundRecord): (lines: seq<string>)
    ensures |lines| == 2 + |rec.responses|
    ensures lines[0] == RoundHeading(rec.round) && lines[1] == QuestionLine(rec.question)
    ensures forall k :: 0 <= k < |rec.responses| ==> lines[2 + k] == ResponseLine(rec.responses[k])
  {
    [RoundHeading(rec.round), QuestionLine(rec.question)]
      + seq(|rec.responses|, k requires 0 <= k < |rec.responses| => ResponseLine(rec.responses[k]))
  }

  /** The summary's lines: the header, then each round's lines in order. */
  function SummaryLines(h: seq<RoundRecord>): (lines: seq<string>)
    ensures |lines| >= 1 && lines[0] == SummaryHeader
  {
    if h == [] then [SummaryHeader] else SummaryLines(h[..|h| - 1]) + RoundLines(h[|h| - 1])
  }

  /**
   `generate_simple_summary`: the lines joined by newlines. It opens with
   the header, and an empty history gives the header alone.
   */
  function SimpleSummary(h: seq<RoundRecord>): (text: string)
    ensures StartsWith(text, SummaryHeader)
    ensures h == [] ==> text == SummaryHeader
  {
    JoinStartsWithFirst(SummaryLines(h), "\n");
    Join(SummaryLines(h), "\n")
  }

  /** Where round `i`'s lines begin: after the header and the lines of the rounds before it. */
  function RoundOffset(h: seq<RoundRecord>, i: nat): nat
    requires i <= |h|
  {
    |SummaryLines(h[..i])|
  }

  /** The lines for the first rounds are the start of the lines for all of them. */
  lemma {:induction false} SummaryLinesPrefix(h: seq<RoundRecord>, i: nat)
    requires i <= |h|
    ensures |SummaryLines(h[..i])| <= |SummaryLines(h)|
    ensures SummaryLines(h)[..|SummaryLines(h[..i])|] == SummaryLines(h[..i])
    decreases |h| - i
  {
    if i < |h| {
      var init := h[..|h| - 1];
      assert init[..i] == h[..i];
      SummaryLinesPrefix(init, i);
      assert SummaryLines(h) == SummaryLines(init) + RoundLines(h[|h| - 1]);
    } else {
      assert h[..i] == h;
    }
  }

  /**
   Round `i`'s lines sit, complete and in order, right after those of round
   `i - 1`: the first round's right after the header.
   */
  lemma {:induction false} SummaryRoundAt(h: seq<RoundRecord>, i: nat)
    requires i < |h|
    ensures RoundOffset(h, 0) == 1
    ensures RoundOffset(h, i + 1) == RoundOffset(h, i) + 2 + |h[i].responses|
    ensures RoundOffset(h, i + 1) <= |SummaryLines(h)|
    ensures SummaryLines(h)[RoundOffset(h, i)..RoundOffset(h, i + 1)] == RoundLines(h[i])
  {
    assert h[..0] == [];
    var pre := h[..i + 1];
    assert pre[..|pre| - 1] == h[..i];
    assert SummaryLines(pre) == SummaryLines(h[..i]) + RoundLines(h[i]);
    SummaryLinesPrefix(h, i + 1);
  }

  /** Every line of the summary appears in its text. */
  lemma {:induction false} SummaryHasLine(h: seq<RoundRecord>, n: nat)
    requires n < |SummaryLines(h)|
    ensures Occurs(SummaryLines(h)[n], SimpleSummary(h))
  {
    JoinContains(SummaryLines(h), "\n", n);
  }

  /** Line `j` of round `i`'s block is summary line `RoundOffset(h, i) + j`. */
  lemma {:induction false} SummaryLineAt(h: seq<RoundRecord>, i: nat, j: nat)
    requires i < |h| && j < 2 + |h[i].responses|
    ensures RoundOffset(h, i) + j < |SummaryLines(h)|
    ensures SummaryLines(h)[RoundOffset(h, i) + j] == RoundLines(h[i])[j]
  {
    SummaryRoundAt(h, i);
    var lines := SummaryLines(h);
    var o := RoundOffset(h, i);
    var block := lines[o..RoundOffset(h, i + 1)];
    assert block[j] == lines[o + j];
  }

  /** Round `i`'s `k`-th philosopher's line is a summary line. */
  lemma {:induction false} SummaryResponseLine(h: seq<RoundRecord>, i: nat, k: nat)
    requires i < |h| && k < |h[i].responses|
    ensures RoundOffset(h, i) + 2 + k < |SummaryLines(h)|
    ensures SummaryLines(h)[RoundOffset(h, i) + 2 + k] == ResponseLine(h[i].responses[k])
  {
    var rec := h[i];
    assert RoundLines(rec)[2 + k] == ResponseLine(rec.responses[k]);
    SummaryLineAt(h, i, 2 + k);
  }

  /** The question of every round appears in the summary, whether or not anyone was asked. */
  lemma {:induction false} SummaryMentionsQuestion(h: seq<RoundRecord>, i: nat)
    requires i < |h|
    ensures Occurs(QuestionLine(h[i].question), SimpleSummary(h))
  {
    SummaryLineAt(h, i, 1);
    SummaryHasLine(h, RoundOffset(h, i) + 1);
  }

  /** The line of every philosopher of every round appears in the summary. */
  lemma {:induction false} SummaryMentions(h: seq<RoundRecord>, i: nat, k: nat)
    requires i < |h| && k < |h[i].responses|
    ensures Occurs(ResponseLine(h[i].responses[k]), SimpleSummary(h))
  {
    SummaryResponseLine(h, i, k);
    SummaryHasLine(h, RoundOffset(h, i) + 2 + k);
  }

  /** Different rounds get different headings: the heading names its round. */
  lemma RoundHeadingNamesRound(n: nat, m: nat)
    requires RoundHeading(n) == RoundHeading(m)
    ensures n == m
  {
    var dn := Decimal(n);
    var dm := Decimal(m);
    var hn := RoundHeading(n);
    assert |dn| == |dm|;
    assert dn == hn[2..2 + |dn|];
    assert dm == RoundHeading(m)[2..2 + |dm|];
    DecimalRoundTrip(n);
    DecimalRoundTrip(m);
  }
}
