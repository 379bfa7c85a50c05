/**
 Questions outside the discussion loop: the topic slug put into file names,
 and the filter that picks complete questions from the question bank
 (`load_questions`).
 */
module Questions {
  import opened Common
  import opened Text

  /** How many leading characters of the question the slug is taken from. */
  const SlugSource: nat := 10

  /**
   The topic slug: the question's first ten characters without ASCII or
   full-width question marks, stripped of whitespace.
   */
  function TopicSlug(q: string): (slug: string)
    ensures |slug| <= SlugSource
    ensures '?' !in slug && '？' !in slug
    ensures slug != [] ==> !IsSpace(slug[0]) && !IsSpace(slug[|slug| - 1])
  {
    var unmarked := RemoveAll(RemoveAll(Prefix(q, SlugSource), '?'), '？');
    StripKeepsCharacters(unmarked, Spaces);
    Strip(unmarked, Spaces)
  }

  /** Every character of the slug comes from the question's first ten characters. */
  lemma TopicSlugFromQuestion(q: string, c: char)
    requires c in TopicSlug(q)
    ensures c in q[..if |q| < SlugSource then |q| else SlugSource]
  {
    var p := Prefix(q, SlugSource);
    StripKeepsCharacters(RemoveAll(RemoveAll(p, '?'), '？'), Spaces);
    assert p == q[..if |q| < SlugSource then |q| else SlugSource];
  }

  /**
   Nothing else is removed: when the first ten characters hold no question
   mark and neither end is whitespace, they are the slug.
   */
  lemma {:induction false} TopicSlugKeeps(q: string)
    requires '?' !in Prefix(q, SlugSource) && '？' !in Prefix(q, SlugSource)
    requires var p := Prefix(q, SlugSource); p != [] ==> !IsSpace(p[0]) && !IsSpace(p[|p| - 1])
    ensures TopicSlug(q) == Prefix(q, SlugSource)
  {
    StripClean(Prefix(q, SlugSource), Spaces);
  }

  /** The slug of a slug is itself. */
  lemma {:induction false} TopicSlugIdempotent(q: string)
    ensures TopicSlug(TopicSlug(q)) == TopicSlug(q)
  {
    var s := TopicSlug(q);
    assert Prefix(s, SlugSource) == s;
    StripIdempotent(RemoveAll(RemoveAll(Prefix(q, SlugSource), '?'), '？'), Spaces);
  }

  /** The question offered when the bank cannot be read. */
  const DefaultQuestion: string := "什么是真正的幸福？"

  /** Questions must be shorter than this to be kept. */
  const MaxBankQuestion: nat := 100

  /** Endings that mark a question as cut off or quoted. */
  const IncompleteEndings: seq<string> := ["...", "。", "？\"", "\""]

  /** The question ends with one of the incomplete endings. */
  predicate Incomplete(q: string) {
    exists i :: 0 <= i < |IncompleteEndings| && EndsWith(q, IncompleteEndings[i])
  }

  /** A bank question is kept when it is short and complete. */
  predicate Keep(q: string) {
    |q| < MaxBankQuestion && !Incomplete(q)
  }

  /** The kept form of a question: surrounding double quotes removed. */
  function Unquote(q: string): string {
    Strip(q, Chars({'"'}))
  }

  /** The kept questions, unquoted, in bank order. */
  function Filter(qs: seq<string>): (kept: seq<string>)
    ensures |kept| <= |qs|
    ensures forall i :: 0 <= i < |kept| ==> |kept[i]| < MaxBankQuestion
    ensures forall i :: 0 <= i < |kept| && kept[i] != [] ==> kept[i][0] != '"' && kept[i][|kept[i]| - 1] != '"'
    decreases |qs|
  {
    if qs == [] then []
    else (if Keep(qs[0]) then [Unquote(qs[0])] else []) + Filter(qs[1..])
  }

  /**
   `load_questions`: the bank's questions in order, or `None` when the file
   is missing or malformed or an entry has no text question, in which case
   the default question is offered alone.
   */
  function LoadQuestions(bank: Option<seq<string>>): (qs: seq<string>)
    ensures bank.None? ==> qs == [DefaultQuestion]
    ensures bank.Some? ==> |qs| <= |bank.value|
    ensures bank.Some? ==> forall i :: 0 <= i < |qs| ==> |qs[i]| < MaxBankQuestion
    ensures bank.Some? ==> forall i :: 0 <= i < |qs| && qs[i] != [] ==> qs[i][0] != '"' && qs[i][|qs[i]| - 1] != '"'
  {
    match bank
    case None => [DefaultQuestion]
    case Some(entries) => Filter(entries)
  }

  /** Each kept question is the unquoted form of a kept bank entry at or after its own position. */
  lemma {:induction false} FilterSource(qs: seq<string>, i: nat) returns (j: nat)
    requires i < |Filter(qs)|
    ensures i <= j < |qs| && Keep(qs[j]) && Filter(qs)[i] == Unquote(qs[j])
    decreases |qs|
  {
    var head := if Keep(qs[0]) then [Unquote(qs[0])] else [];
    assert Filter(qs) == head + Filter(qs[1..]);
    if Keep(qs[0]) && i == 0 {
      j := 0;
    } else {
      var j' := FilterSource(qs[1..], i - |head|);
      j := j' + 1;
    }
  }

  /** Every kept bank entry is offered, unquoted. */
  lemma {:induction false} FilterComplete(qs: seq<string>, j: nat)
    requires j < |qs| && Keep(qs[j])
    ensures Unquote(qs[j]) in Filter(qs)
    decreases |qs|
  {
    if j > 0 {
      FilterComplete(qs[1..], j - 1);
      assert qs[1..][j - 1] == qs[j];
    }
  }

  /** Filtering two stretches of the bank filters each in turn, so order and repeats are kept. */
  lemma {:induction false} FilterAppend(a: seq<string>, b: seq<string>)
    ensures Filter(a + b) == Filter(a) + Filter(b)
    decreases |a|
  {
    if a == [] {
      assert a + b == b;
    } else {
      var head := if Keep(a[0]) then [Unquote(a[0])] else [];
      assert (a + b)[0] == a[0] && (a + b)[1..] == a[1..] + b;
      assert Filter(a + b) == head + Filter(a[1..] + b);
      FilterAppend(a[1..], b);
      ConcatAssoc(head, Filter(a[1..]), Filter(b));
    }
  }

  /** A single bank entry is offered, unquoted, exactly when it is kept. */
  lemma FilterOne(q: string)
    ensures Filter([q]) == if Keep(q) then [Unquote(q)] else []
  {
    assert [q][1..] == [];
  }

  /**
   A kept question does not end in a double quote, so unquoting removes
   only leading quotes: the kept form is a suffix of the question.
   */
  lemma UnquoteKeepsEnd(q: string)
    requires Keep(q)
    ensures EndsWith(q, Unquote(q))
  {
    var k := StripSpan(q, Chars({'"'}));
    var r := Unquote(q);
    if q != [] {
      assert !EndsWith(q, IncompleteEndings[3]);
      assert q[|q| - 1..] == [q[|q| - 1]];
    }
    assert k + |r| == |q|;
    assert q[|q| - |r|..] == r;
  }
}
