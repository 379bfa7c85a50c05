/**
 The remote chat-completion endpoints, replaced by an oracle.

 Every HTTP request the program makes is one `Request`; the requests made so
 far form a trace `sent`, and the `k`-th request of the process (counting from
 0) receives `remote(k, req)`. An oracle is any total function, so it can
 answer differently on each retry of the same request.
 */
module Remote {
  import opened Common

  /** The fixed parts of a request body and of the `requests.post` call. */
  datatype Params = Params(
    url: string,
    model: string,
    temperature: real,
    maxTokens: nat,
    topP: Option<real>,
    connectTimeout: nat,
    readTimeout: nat)

  /** One chat-completion request: a system instruction and a user message. */
  datatype Request = Request(params: Params, system: string, user: string)

  /**
   What one request produced:
   - `Answer`: a reply whose `choices` list is non-empty; `content` is the
     first choice's message text, not yet stripped;
   - `NoChoices`: a parsed reply whose `choices` list is missing or empty;
   - `Raised`: an exception (transport error, timeout, non-2xx status,
     malformed JSON, missing `message`/`content`), carrying `str(e)`.
   */
  datatype Reply = Answer(content: string) | NoChoices | Raised(error: string)

  /** The oracle: the reply to the `k`-th request of the process. */
  type Endpoint = (nat, Request) -> Reply

  const ChatUrl: string := "https://api.openai.com/v1/chat/completions"
  const ArticleUrl: string := "https://api.siliconflow.cn/v1/chat/completions"

  /** Parameters of a participant call (`get_response`). */
  const ParticipantParams: Params := Params(ChatUrl, "gpt-4o-mini", 0.5, 1000, None, 60, 120)

  /** Parameters of a moderator call: short, more varied output. */
  const ModeratorParams: Params := Params(ChatUrl, "gpt-4o-mini", 0.7, 50, Some(0.95), 30, 60)

  /** Parameters of the summarizer call (`generate_article`). */
  const ArticleParams: Params := Params(ArticleUrl, "Pro/deepseek-ai/DeepSeek-R1", 0.3, 4000, None, 60, 180)

  /** Message of the `ValueError` raised when a reply has no usable choice. */
  const FormatError: string := "API返回格式错误"

  /**
   `str(e)` for the exception an unusable reply leads to inside a `try` block
   that raises `ValueError(FormatError)` when `choices` is missing or empty.
   */
  function RaisedText(reply: Reply): string
    requires !reply.Answer?
  {
    match reply
    case NoChoices => FormatError
    case Raised(e) => e
  }
}
