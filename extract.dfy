/** `extractText`: the text of the provider's reply, read from a response in which
    every level may be missing. */
module Extract {
  import opened Wrappers
  import opened Seqs
  import opened JsText

  /** One entry of `content.parts`; `text` is `None` when it is missing, `null`
      or `undefined`. */
  datatype Part = Part(text: Option<string>)

  /** A candidate's `content`. */
  datatype Content = Content(parts: Option<seq<Part>>)

  /** One entry of `candidates`. */
  datatype Candidate = Candidate(content: Option<Content>)

  /** The body of the provider's reply (`response.data`). A candidate entry may
      itself be `null`, which `candidates[0]?.` tolerates. */
  datatype ProviderResponse = ProviderResponse(candidates: Option<seq<Option<Candidate>>>)

  const NoResponseFromAI: string := "No response from AI"
  const NoContentInResponse: string := "No content in response"

  /** `p.text || ""`: a missing text and the empty text both read as "". */
  function PartText(p: Part): (r: string)
    ensures r == (if p.text.Some? && p.text.value != "" then p.text.value else "")
  {
    p.text.GetOr("")
  }

  /** `parts.map((p) => p.text || "").join("")`. */
  function JoinTexts(parts: seq<Part>): string {
    Concat(Map(PartText, parts))
  }

  /** `data?.candidates ?? []`. */
  function CandidatesOf(data: Option<ProviderResponse>): seq<Option<Candidate>> {
    match data
    case None => []
    case Some(d) => d.candidates.GetOr([])
  }

  /** `candidate?.content?.parts ?? []`. */
  function PartsOf(candidate: Option<Candidate>): seq<Part> {
    match candidate
    case None => []
    case Some(c) =>
      match c.content
      case None => []
      case Some(content) => content.parts.GetOr([])
  }

  /** `extractText(data)`, lines 6-12. */
  function ExtractText(data: Option<ProviderResponse>): string {
    var candidates := CandidatesOf(data);
    if |candidates| == 0 then NoResponseFromAI
    else
      var parts := PartsOf(candidates[0]);
      if |parts| == 0 then NoContentInResponse
      else Trim(JoinTexts(parts))
  }

  // ---------------------------------------------------------------------------
  // Lemmas

  /** Lines 7-8: no candidates at any level gives the first sentinel. */
  lemma NoCandidates(data: Option<ProviderResponse>)
    requires data.None? || data.value.candidates.None? || data.value.candidates.value == []
    ensures ExtractText(data) == NoResponseFromAI
  {
  }

  /** Lines 9-10: a first candidate that is `null`, or has no content, or no parts,
      or an empty list of parts, gives the second sentinel, whatever the other
      candidates hold. */
  lemma NoParts(c: Option<Candidate>, rest: seq<Option<Candidate>>)
    requires c.None? || c.value.content.None? || c.value.content.value.parts.None?
      || c.value.content.value.parts.value == []
    ensures ExtractText(Some(ProviderResponse(Some([c] + rest)))) == NoContentInResponse
  {
  }

  /** Line 11: one candidate with parts gives the trimmed concatenation of their texts. */
  lemma PartsJoined(parts: seq<Part>, rest: seq<Option<Candidate>>)
    requires parts != []
    ensures ExtractText(Some(ProviderResponse(Some([Some(Candidate(Some(Content(Some(parts)))))] + rest))))
      == Trim(JoinTexts(parts))
  {
  }

  /** The three outcomes cover every response: the first sentinel when there is
      no candidate, the second when the first candidate has no part, and
      otherwise the part texts concatenated and trimmed, which leaves no white
      space at either end. */
  lemma ExtractCases(data: Option<ProviderResponse>)
    ensures CandidatesOf(data) == [] ==> ExtractText(data) == NoResponseFromAI
    ensures CandidatesOf(data) != [] && PartsOf(CandidatesOf(data)[0]) == [] ==>
      ExtractText(data) == NoContentInResponse
    ensures CandidatesOf(data) != [] && PartsOf(CandidatesOf(data)[0]) != [] ==>
      && ExtractText(data) == Trim(JoinTexts(PartsOf(CandidatesOf(data)[0])))
      && IsTrimmed(ExtractText(data))
  {
    if CandidatesOf(data) != [] && PartsOf(CandidatesOf(data)[0]) != [] {
      TrimSpec(JoinTexts(PartsOf(CandidatesOf(data)[0])));
    }
  }

  /** Only the first candidate is read: the candidates after it never change the result. */
  lemma OnlyFirstCandidate(c: Option<Candidate>, rest: seq<Option<Candidate>>)
    ensures ExtractText(Some(ProviderResponse(Some([c] + rest))))
      == ExtractText(Some(ProviderResponse(Some([c]))))
  {
  }

  /** The texts of two runs of parts are joined end to end. */
  lemma JoinTextsConcat(a: seq<Part>, b: seq<Part>)
    ensures JoinTexts(a + b) == JoinTexts(a) + JoinTexts(b)
  {
    MapConcat(PartText, a, b);
    ConcatAppend(Map(PartText, a), Map(PartText, b));
  }

  /** A single part contributes its text, or nothing when the text is missing. */
  lemma JoinTextsOne(p: Part)
    ensures JoinTexts([p]) == p.text.GetOr("")
  {
    assert Map(PartText, [p]) == [PartText(p)];
    assert Concat([PartText(p)]) == PartText(p) + Concat([PartText(p)][1..]);
  }

  /** A part without text, anywhere among the parts, changes nothing. */
  lemma MissingTextIgnored(a: seq<Part>, b: seq<Part>)
    ensures JoinTexts(a + [Part(None)] + b) == JoinTexts(a + b)
  {
    JoinTextsConcat(a + [Part(None)], b);
    JoinTextsConcat(a, [Part(None)]);
    JoinTextsOne(Part(None));
    JoinTextsConcat(a, b);
  }

  /** Two parts with text give their texts one after the other, trimmed. */
  lemma TwoParts(p: Part, q: Part, rest: seq<Option<Candidate>>)
    ensures ExtractText(Some(ProviderResponse(Some([Some(Candidate(Some(Content(Some([p, q])))))] + rest))))
      == Trim(PartText(p) + PartText(q))
  {
    PartsJoined([p, q], rest);
    assert [p, q] == [p] + [q];
    JoinTextsConcat([p], [q]);
    JoinTextsOne(p);
    JoinTextsOne(q);
  }

  /** White space between parts survives, only the two ends are trimmed: parts
      "Hi " and " there" give "Hi  there". */
  lemma ExampleTwoParts(p: Part, q: Part, rest: seq<Option<Candidate>>)
    requires p == Part(Some("Hi ")) && q == Part(Some(" there"))
    ensures ExtractText(Some(ProviderResponse(Some([Some(Candidate(Some(Content(Some([p, q])))))] + rest))))
      == "Hi  there"
  {
    TwoParts(p, q, rest);
    JoinedGreeting(PartText(p) + PartText(q));
  }

  lemma JoinedGreeting(s: string)
    requires s == "Hi " + " there"
    ensures Trim(s) == "Hi  there"
  {
    assert s == "Hi  there";
    TrimmedIsFixpoint(s);
  }
}
