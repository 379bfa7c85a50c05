/**
 The summary section of the report (`generate_word`): the generated article
 when it is usable, otherwise a fixed note followed by the plain-text
 summary. Only this decision and the report's initial question are modelled;
 the document layout is not.
 */
module Report {
  import opened Text
  import opened Remote
  import opened Records
  import Client
  import Summary

  /** The report's initial question when the history is empty. */
  const UnknownQuestion: string := "未知问题"

  /** The note placed before the plain-text summary. */
  const FallbackNote: string := "由于技术原因，未能生成总结文章。以下是讨论要点："

  /** The question the report opens with: round 1's, or a placeholder. */
  function InitialQuestion(h: seq<RoundRecord>): (q: string)
    ensures h != [] ==> q == h[0].question
    ensures h == [] ==> q == UnknownQuestion
  {
    if h == [] then UnknownQuestion else h[0].question
  }

  /**
   The decision as the report makes it: a non-empty article is used unless
   it starts like a failed participant call. A failed article call starts
   differently, so it passes this test.
   */
  predicate UseArticleAsWritten(article: string) {
    article != [] && !IsFailureText(article)
  }

  /** The decision as intended: a failed article call is not used either. */
  predicate UseArticle(article: string) {
    UseArticleAsWritten(article) && !StartsWith(article, Client.ArticleFailurePrefix)
  }

  /** A failure text of `generate_article` is not mistaken for a participant failure. */
  lemma ArticleFailureNotParticipantFailure(text: string)
    requires StartsWith(text, Client.ArticleFailurePrefix + ": ")
    ensures text != [] && !IsFailureText(text)
  {
    assert text[0] == Client.ArticleFailurePrefix[0];
    assert Client.FailurePrefix[0] != text[0];
    assert TimeoutPrefix[0] != text[0];
  }

  /**
   As written, every failed article call ends up in the report as if it were
   the article: the error message replaces the summary.
   */
  lemma FailedArticleUsedAsWritten(remote: Endpoint, sent: seq<Request>, discussionText: string)
    requires !remote(|sent|, Client.ArticleRequest(discussionText)).Answer?
    ensures UseArticleAsWritten(Client.GenerateArticle(remote, sent, discussionText).text)
  {
    ArticleFailureNotParticipantFailure(Client.GenerateArticle(remote, sent, discussionText).text);
  }

  /**
   A concrete case: the summarizer times out, and the report's summary
   section is its error message instead of the plain-text summary.
   */
  lemma {:induction false} TimeoutShownAsArticle(remote: Endpoint, sent: seq<Request>, discussionText: string, h: seq<RoundRecord>)
    requires remote(|sent|, Client.ArticleRequest(discussionText)) == Raised("Read timed out.")
    ensures var text := Client.GenerateArticle(remote, sent, discussionText).text;
            && text == "生成总结文章失败: Read timed out."
            && SummarySection(h, text) == [text]
  {
    var text := Client.GenerateArticle(remote, sent, discussionText).text;
    assert text == Client.ArticleFailurePrefix + ": " + "Read timed out.";
    FailedArticleShownAsWritten(remote, sent, discussionText, h);
  }

  /**
   With the intended decision, the article is used exactly when the call was
   answered and the stripped answer is usable.
   */
  lemma ArticleUsedIffAnswered(remote: Endpoint, sent: seq<Request>, discussionText: string)
    ensures var reply := remote(|sent|, Client.ArticleRequest(discussionText));
            var used := UseArticle(Client.GenerateArticle(remote, sent, discussionText).text);
            used <==> reply.Answer? && UseArticle(Strip(reply.content, Spaces))
  {
    var reply := remote(|sent|, Client.ArticleRequest(discussionText));
    var text := Client.GenerateArticle(remote, sent, discussionText).text;
    if !reply.Answer? {
      assert StartsWith(text, Client.ArticleFailurePrefix + ": ");
      assert text[..|Client.ArticleFailurePrefix|] == Client.ArticleFailurePrefix;
    }
  }

  /**
   The summary section as the report builds it: the article as it stands
   when it passes the test as written, otherwise the note and the
   plain-text summary of the history.
   */
  function SummarySection(h: seq<RoundRecord>, article: string): (paragraphs: seq<string>)
    ensures UseArticleAsWritten(article) ==> paragraphs == [article]
    ensures !UseArticleAsWritten(article) ==>
              && |paragraphs| == 2
              && paragraphs[0] == FallbackNote
              && paragraphs[1] == Summary.SimpleSummary(h)
              && StartsWith(paragraphs[1], Summary.SummaryHeader)
  {
    if UseArticleAsWritten(article) then [article] else [FallbackNote, Summary.SimpleSummary(h)]
  }

  /** As written, whenever the article call fails, its error message becomes the summary section. */
  lemma {:induction false} FailedArticleShownAsWritten(remote: Endpoint, sent: seq<Request>, discussionText: string, h: seq<RoundRecord>)
    requires !remote(|sent|, Client.ArticleRequest(discussionText)).Answer?
    ensures var text := Client.GenerateArticle(remote, sent, discussionText).text;
            SummarySection(h, text) == [text]
  {
    FailedArticleUsedAsWritten(remote, sent, discussionText);
  }

  /** The summary section with the corrected test: a failed article call is not shown. */
  function CorrectedSummarySection(h: seq<RoundRecord>, article: string): (paragraphs: seq<string>)
    ensures UseArticle(article) ==> paragraphs == [article]
    ensures !UseArticle(article) ==>
              && |paragraphs| == 2
              && paragraphs[0] == FallbackNote
              && paragraphs[1] == Summary.SimpleSummary(h)
              && StartsWith(paragraphs[1], Summary.SummaryHeader)
  {
    if UseArticle(article) then [article] else [FallbackNote, Summary.SimpleSummary(h)]
  }

  /** With the corrected test, whenever the article call fails, the report falls back to the plain-text summary. */
  lemma {:induction false} FailedArticleFallsBack(remote: Endpoint, sent: seq<Request>, discussionText: string, h: seq<RoundRecord>)
    requires !remote(|sent|, Client.ArticleRequest(discussionText)).Answer?
    ensures CorrectedSummarySection(h, Client.GenerateArticle(remote, sent, discussionText).text)
              == [FallbackNote, Summary.SimpleSummary(h)]
  {
    ArticleUsedIffAnswered(remote, sent, discussionText);
  }

  /** The two tests agree on every text except a failed article call's. */
  lemma TestsAgreeOnAnswers(h: seq<RoundRecord>, article: string)
    requires !StartsWith(article, Client.ArticleFailurePrefix)
    ensures SummarySection(h, article) == CorrectedSummarySection(h, article)
  {
  }
}
