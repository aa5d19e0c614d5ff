/** The `contents` list sent to the provider (lines 48-75): the fixed system
    instruction first, then one entry per chat message whose text is truthy, in
    the order of the messages, with the chat role mapped to the provider's. */
module Payload {
  import opened Wrappers
  import opened Seqs

  /** One entry of the request's `messages`; `text` is `None` when it is missing,
      `null` or `undefined`. */
  datatype Message = Message(role: string, text: Option<string>)

  /** `{ text }` inside an entry's `parts`. */
  datatype ProviderPart = ProviderPart(text: string)

  /** `{ role, parts }`, one entry of `contents`. */
  datatype ProviderContent = ProviderContent(role: string, parts: seq<ProviderPart>)

  /** The advisor prompt of lines 52-62. Its wording matters to the provider, not
      to how `contents` is built, so it is kept here as a constant without its text. */
  const SystemPrompt: string := "<advisor prompt>"

  /** `systemInstruction`: the prompt as a single part, sent with role "user". */
  const SystemInstruction: ProviderContent := ProviderContent("user", [ProviderPart(SystemPrompt)])

  /** `m.text` is truthy: present and not the empty string. */
  predicate HasText(m: Message) {
    m.text.Some? && m.text.value != ""
  }

  /** `m.role === "assistant" ? "model" : "user"`. */
  function ProviderRole(role: string): (r: string)
    ensures r == "model" <==> role == "assistant"
    ensures r == "user" <==> role != "assistant"
  {
    if role == "assistant" then "model" else "user"
  }

  /** `({ role: ..., parts: [{ text: m.text }] })`. */
  function ToContent(m: Message): ProviderContent {
    ProviderContent(ProviderRole(m.role), [ProviderPart(m.text.GetOr(""))])
  }

  /** `contents` built from `messages`. */
  function BuildContents(messages: seq<Message>): seq<ProviderContent> {
    [SystemInstruction] + Map(ToContent, Filter(HasText, messages))
  }

  // ---------------------------------------------------------------------------
  // Lemmas

  /** The shape of `contents`: the system instruction first, then exactly one
      entry per message with text, so one more entry than such messages; every
      later entry is a kept message's role, mapped, and its text as the single part. */
  lemma ContentsShape(messages: seq<Message>)
    ensures var c := BuildContents(messages);
      && |c| == 1 + Count(HasText, messages)
      && c[0] == SystemInstruction
      && forall i :: 1 <= i < |c| ==>
        var m := Filter(HasText, messages)[i - 1];
        && m in messages && HasText(m)
        && c[i] == ProviderContent(ProviderRole(m.role), [ProviderPart(m.text.value)])
  {
    var kept := Filter(HasText, messages);
    FilterLength(HasText, messages);
    FilterMembers(HasText, messages);
    MapIndex(ToContent, kept);
  }

  /** Every entry is sent as "user" or "model", and an entry after the first is
      "model" exactly when its message came from the assistant. */
  lemma ContentsRoles(messages: seq<Message>)
    ensures var c := BuildContents(messages);
      && (forall i :: 0 <= i < |c| ==> c[i].role == "user" || c[i].role == "model")
      && forall i :: 1 <= i < |c| ==>
        (c[i].role == "model" <==> Filter(HasText, messages)[i - 1].role == "assistant")
  {
    MapIndex(ToContent, Filter(HasText, messages));
  }

  /** The entries follow the order of the messages: the contents of two runs of
      messages are the contents of the first followed by the entries of the second. */
  lemma ContentsConcat(a: seq<Message>, b: seq<Message>)
    ensures BuildContents(a + b) == BuildContents(a) + BuildContents(b)[1..]
  {
    FilterConcat(HasText, a, b);
    MapConcat(ToContent, Filter(HasText, a), Filter(HasText, b));
  }

  /** One message adds one entry when it has text and none otherwise. */
  lemma ContentsOne(m: Message)
    ensures BuildContents([m]) == if HasText(m) then [SystemInstruction, ToContent(m)] else [SystemInstruction]
  {
    FilterOne(HasText, m);
  }

  /** A message without text, wherever it stands, has no effect on `contents`. */
  lemma TextlessMessageDropped(a: seq<Message>, m: Message, b: seq<Message>)
    requires !HasText(m)
    ensures BuildContents(a + [m] + b) == BuildContents(a + b)
  {
    FilterConcat(HasText, a + [m], b);
    FilterConcat(HasText, a, [m]);
    FilterOne(HasText, m);
    assert Filter(HasText, a + [m]) == Filter(HasText, a);
    FilterConcat(HasText, a, b);
    assert Filter(HasText, a + [m] + b) == Filter(HasText, a + b);
  }

  /** No messages, or none with text, leave only the system instruction. */
  lemma NoTextNoEntries(messages: seq<Message>)
    requires forall i :: 0 <= i < |messages| ==> !HasText(messages[i])
    ensures BuildContents(messages) == [SystemInstruction]
  {
    FilterLength(HasText, messages);
    NoneCounted(messages);
  }

  lemma {:induction false} NoneCounted(messages: seq<Message>)
    requires forall i :: 0 <= i < |messages| ==> !HasText(messages[i])
    ensures Count(HasText, messages) == 0
  {
    if |messages| > 0 {
      NoneCounted(messages[1..]);
    }
  }
}
