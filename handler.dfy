/** `handler(req, res)` as a function of the request verb, the request body and
    the provider: which status and JSON payload it answers with, and which
    `contents`, if any, it sends to the provider on the way. */
module Handler {
  import opened Wrappers
  import opened Seqs
  import Bullets
  import Extract
  import Payload
  import JsText

  /** The `messages` field of the body: an array of messages, or anything else
      (missing, `null`, an object, a string, ...). */
  datatype MessagesField = NotAnArray | MessageArray(items: seq<Payload.Message>)

  /** `req.body`: `null` or `undefined`, which cannot be destructured, or a value
      whose `messages` field is read. */
  datatype Body = NoBody | JsonBody(messages: MessagesField)

  /** What the call to the provider does with the `contents` it is sent: it
      answers with `response.data`, or it throws, carrying the diagnostic that
      `error?.response?.data || error.message` reads. */
  datatype ProviderOutcome = Replied(data: Option<Extract.ProviderResponse>) | Failed(details: string)

  /** Why the `catch` branch ran. `BodyUnreadable` is the `TypeError` raised by
      destructuring a missing body; its message is not modelled. */
  datatype Failure = ProviderFailure(details: string) | BodyUnreadable

  /** The JSON bodies the handler answers with. */
  datatype Reply =
    | ServerStatus(status: string)
    | ErrorReply(error: string)
    | RequestFailed(error: string, cause: Failure)
    | BulletReply(bullets: seq<string>)

  /** Status, JSON body, and the `contents` sent to the provider (`None` when
      the provider is not called). */
  datatype Response = Response(status: int, reply: Reply, sent: Option<seq<Payload.ProviderContent>>)

  const ServerRunning: string := "Serverless API running"
  const MethodNotAllowed: string := "Method not allowed"
  const MessagesMustBeArray: string := "messages must be an array"
  const GeminiRequestFailed: string := "Gemini request failed"

  /** Lines 90-93 on success, lines 94-100 on failure, once `contents` is built. */
  function CallProvider(contents: seq<Payload.ProviderContent>, outcome: ProviderOutcome): Response {
    match outcome
    case Replied(data) =>
      Response(200, BulletReply(Bullets.FormatAsBullets(Extract.ExtractText(data))), Some(contents))
    case Failed(details) =>
      Response(500, RequestFailed(GeminiRequestFailed, ProviderFailure(details)), Some(contents))
  }

  /** `handler(req, res)`, lines 30-101. */
  function Handle(verb: string, body: Body, provider: seq<Payload.ProviderContent> -> ProviderOutcome): Response {
    if verb == "GET" then Response(200, ServerStatus(ServerRunning), None)
    else if verb != "POST" then Response(405, ErrorReply(MethodNotAllowed), None)
    else
      match body
      case NoBody => Response(500, RequestFailed(GeminiRequestFailed, BodyUnreadable), None)
      case JsonBody(NotAnArray) => Response(400, ErrorReply(MessagesMustBeArray), None)
      case JsonBody(MessageArray(items)) =>
        var contents := Payload.BuildContents(items);
        CallProvider(contents, provider(contents))
  }

  /** A POST whose body holds an array of messages. */
  predicate IsChatRequest(verb: string, body: Body) {
    verb == "POST" && body.JsonBody? && body.messages.MessageArray?
  }

  // ---------------------------------------------------------------------------
  // Lemmas

  /** Lines 31-36: GET reports that the server runs, and calls nothing. */
  lemma GetReportsStatus(body: Body, provider: seq<Payload.ProviderContent> -> ProviderOutcome)
    ensures Handle("GET", body, provider) == Response(200, ServerStatus(ServerRunning), None)
  {
  }

  /** Lines 38-40: any other method but POST is refused with 405. */
  lemma OtherMethodRefused(verb: string, body: Body, provider: seq<Payload.ProviderContent> -> ProviderOutcome)
    requires verb != "GET" && verb != "POST"
    ensures Handle(verb, body, provider) == Response(405, ErrorReply(MethodNotAllowed), None)
  {
  }

  /** Lines 43-46: a POST whose `messages` is not an array is refused with 400
      before the provider is called. */
  lemma NotAnArrayRefused(provider: seq<Payload.ProviderContent> -> ProviderOutcome)
    ensures Handle("POST", JsonBody(NotAnArray), provider) == Response(400, ErrorReply(MessagesMustBeArray), None)
  {
  }

  /** Line 43 inside the `try` of lines 42-100: a missing body throws, and the
      `catch` answers 500 without calling the provider. */
  lemma MissingBodyFails(provider: seq<Payload.ProviderContent> -> ProviderOutcome)
    ensures Handle("POST", NoBody, provider) == Response(500, RequestFailed(GeminiRequestFailed, BodyUnreadable), None)
  {
  }

  /** Lines 67-100: a chat request sends exactly the `contents` built from its
      messages; a reply becomes the bullets of the extracted text with 200, a
      failure becomes 500 with the provider's diagnostic. */
  lemma ChatRequestAnswered(items: seq<Payload.Message>, provider: seq<Payload.ProviderContent> -> ProviderOutcome)
    ensures var r := Handle("POST", JsonBody(MessageArray(items)), provider);
      var contents := Payload.BuildContents(items);
      && r.sent == Some(contents)
      && (provider(contents).Replied? ==>
            r == Response(200, BulletReply(Bullets.FormatAsBullets(Extract.ExtractText(provider(contents).data))), Some(contents)))
      && (provider(contents).Failed? ==>
            r == Response(500, RequestFailed(GeminiRequestFailed, ProviderFailure(provider(contents).details)), Some(contents)))
  {
  }

  /** The handler answers only with 200, 400, 405 or 500. */
  lemma StatusCodes(verb: string, body: Body, provider: seq<Payload.ProviderContent> -> ProviderOutcome)
    ensures Handle(verb, body, provider).status in {200, 400, 405, 500}
  {
  }

  /** The provider is called exactly for a chat request. */
  lemma ProviderCalledIff(verb: string, body: Body, provider: seq<Payload.ProviderContent> -> ProviderOutcome)
    ensures Handle(verb, body, provider).sent.Some? <==> IsChatRequest(verb, body)
  {
  }

  /** Bullets are answered exactly when a chat request got a reply from the
      provider, and they are answered with 200. */
  lemma BulletsIff(verb: string, body: Body, provider: seq<Payload.ProviderContent> -> ProviderOutcome)
    ensures var r := Handle(verb, body, provider);
      r.reply.BulletReply? <==>
        IsChatRequest(verb, body) && provider(Payload.BuildContents(body.messages.items)).Replied?
    ensures var r := Handle(verb, body, provider); r.reply.BulletReply? ==> r.status == 200
  {
  }

  /** 200 is answered to GET and to a chat request the provider replied to, and
      to nothing else. */
  lemma SuccessIff(verb: string, body: Body, provider: seq<Payload.ProviderContent> -> ProviderOutcome)
    ensures Handle(verb, body, provider).status == 200 <==>
      verb == "GET" || (IsChatRequest(verb, body) && provider(Payload.BuildContents(body.messages.items)).Replied?)
  {
  }

  /** A request that does not reach the provider is answered the same whatever
      the provider would have done. */
  lemma RefusalIgnoresProvider(verb: string, body: Body,
                               p: seq<Payload.ProviderContent> -> ProviderOutcome,
                               q: seq<Payload.ProviderContent> -> ProviderOutcome)
    requires !IsChatRequest(verb, body)
    ensures Handle(verb, body, p) == Handle(verb, body, q)
  {
  }

  /** The answer to a chat request depends on the provider only through what it
      does with the `contents` sent. */
  lemma AnswerDependsOnOutcome(verb: string, body: Body,
                               p: seq<Payload.ProviderContent> -> ProviderOutcome,
                               q: seq<Payload.ProviderContent> -> ProviderOutcome)
    requires IsChatRequest(verb, body)
    requires p(Payload.BuildContents(body.messages.items)) == q(Payload.BuildContents(body.messages.items))
    ensures Handle(verb, body, p) == Handle(verb, body, q)
  {
  }

  /** A bullet reply is never empty and none of its bullets has white space at
      either end or holds a line break. */
  lemma BulletReplyClean(verb: string, body: Body, provider: seq<Payload.ProviderContent> -> ProviderOutcome)
    ensures var r := Handle(verb, body, provider);
      r.reply.BulletReply? ==>
        && |r.reply.bullets| >= 1
        && forall i :: 0 <= i < |r.reply.bullets| ==>
          JsText.IsTrimmed(r.reply.bullets[i]) && '\n' !in r.reply.bullets[i]
  {
    var r := Handle(verb, body, provider);
    if r.reply.BulletReply? {
      var contents := Payload.BuildContents(body.messages.items);
      Bullets.BulletsAreCleanLines(Extract.ExtractText(provider(contents).data));
    }
  }

  /** A sentinel of `extractText` is a single line with no marker, so it reaches
      the user as the single bullet it is. */
  lemma SentinelIsOneBullet(t: string)
    requires t == Extract.NoResponseFromAI || t == Extract.NoContentInResponse
    ensures Bullets.FormatAsBullets(t) == [t]
  {
    assert Bullets.PlainLine(t);
    Bullets.PlainLineKept(t);
    Bullets.OneTrimmedLine(t);
  }

  /** From request to answer: a reply whose single part is "1. Do X\n2. Do Y"
      reaches the user as the bullets "Do X" and "Do Y". */
  lemma ExampleNumberedReply(items: seq<Payload.Message>, provider: seq<Payload.ProviderContent> -> ProviderOutcome,
                             text: string)
    requires text == "1. Do X\n2. Do Y"
    requires provider(Payload.BuildContents(items)) == Replied(Some(Extract.ProviderResponse(Some(
      [Some(Extract.Candidate(Some(Extract.Content(Some([Extract.Part(Some(text))])))))]))))
    ensures Handle("POST", JsonBody(MessageArray(items)), provider)
      == Response(200, BulletReply(["Do X", "Do Y"]), Some(Payload.BuildContents(items)))
  {
    ChatRequestAnswered(items, provider);
    SinglePartText(text);
    Bullets.ExampleNumbered(text);
  }

  /** A reply with one part whose text is already trimmed extracts to that text. */
  lemma SinglePartText(text: string)
    requires JsText.IsTrimmed(text)
    ensures Extract.ExtractText(Some(Extract.ProviderResponse(Some(
      [Some(Extract.Candidate(Some(Extract.Content(Some([Extract.Part(Some(text))])))))])))) == text
  {
    var parts := [Extract.Part(Some(text))];
    Extract.PartsJoined(parts, []);
    assert [Some(Extract.Candidate(Some(Extract.Content(Some(parts)))))] + []
      == [Some(Extract.Candidate(Some(Extract.Content(Some(parts)))))];
    Extract.JoinTextsOne(parts[0]);
    JsText.TrimmedIsFixpoint(text);
  }
}
