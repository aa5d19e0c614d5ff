# CultivAI chat endpoint, modelled in Dafny

This project models the serverless chat endpoint `api/chat.js` of CultivAI, a farming
advisor. The endpoint takes a chat history, prefixes it with a fixed advisor prompt,
sends it to a generative-language provider, and answers with the reply cut into
bullet points. Everything is pure, so the model is functions and lemmas only:

- `js_text.dfy` (module `JsText`): the two JavaScript string operations the
  endpoint calls, `trim` (lines 11, 15, 18, 26) and `split(/\r?\n/)` (line 17), with
  white space exactly as JavaScript defines it for `\s` and `trim`. Beside them are
  the helpers `trim` is built from (`TrimStart`, `TrimEnd`, also used for the `\s*`
  of the marker rules) and `split` and `join` on one character, a reference the
  proofs about lines use.
- `seqs.dfy` (module `Seqs`): `map`, `filter` and the array `join("")` of line 11
  on sequences.
- `wrappers.dfy` (module `Wrappers`): `Option`, for JSON fields that may be
  missing, `null` or `undefined`.
- `bullets.dfy` (module `Bullets`): `formatAsBullets`. It splits the text into
  lines, trims them and drops the empty ones. It then removes a leading list
  marker from each line with four anchored rules, applied once each in a fixed
  order, and trims again. Each rule has a reference definition: "`r` is `s` less
  the longest prefix the pattern matches", and the rule is proved to meet it.
- `extract.dfy` (module `Extract`): `extractText`. It reads the reply text out of
  a response that may miss any level (`candidates`, `content`, `parts`, `text`).
- `payload.dfy` (module `Payload`): the `contents` list sent to the provider.
- `handler.dfy` (module `Handler`): the handler as a function of the HTTP
  method, the request body and the provider. The provider is a function from the
  `contents` it is sent to an outcome: a reply, or a failure with a diagnostic.
  The result is the status, the JSON body and the `contents` sent, if the
  provider was called at all.

Four behaviours of the code that the model keeps as written:

- The GET answer has the fields `status` and `time`, and no model name.
- The first marker rule's character class (line 22) is written in a mis-decoded
  form. The model uses the characters as written: `-`, `*`, and
  U+00E2 U+20AC U+00A2 U+017E U+00A4 U+2013 U+00AA U+00AB U+2014 U+00A6 U+00A3
  U+0192. So a line starting with "•" (U+2022) keeps it
  (`Bullets.ExampleBulletGlyphKept`).
- A request without a body makes the destructuring on line 43 throw inside the
  `try`. It is answered with 500 "Gemini request failed", not 400.
- A line that is only a marker, such as "-" or "3.", gives an empty bullet. The
  filter on line 19 runs before the markers are stripped.

## Model

| member | source | states |
|---|---|---|
| JsText.TrimStartSpec | api/chat.js:18 | `trimStart` leaves a suffix of the input. Everything it removed is white space, and what is left does not start with white space. |
| JsText.TrimEndSpec | api/chat.js:18 | `trimEnd` leaves a prefix of the input. Everything it removed is white space, and what is left does not end with white space. |
| JsText.TrimSpec | api/chat.js:18 | `trim` leaves a result with no white space at either end. The input is white space, then that result, then white space. The result is empty exactly when the input is all white space. |
| JsText.TrimmedIsFixpoint | api/chat.js:26 | A string with no white space at either end is its own trim, so the final `trim` of line 26 changes nothing once a rule has left such a string. |
| JsText.TrimIgnoresTrailingCR | api/chat.js:17-18 | A trailing carriage return does not change the trim. |
| JsText.SplitLinesAgreesWithSplitOn | api/chat.js:17 | Both splits give the same number of pieces and the same last piece. Each earlier piece of `split(/\r?\n/)` is the matching piece of `split("\n")`, or that piece less a final carriage return. |
| JsText.TrimmedLinesAgree | api/chat.js:17-18 | Trimming the pieces of `split(/\r?\n/)` gives the same lines as trimming the pieces of `split("\n")`. |
| JsText.SplitOnPieces | api/chat.js:17 | No piece of a split holds the separator; with `JsText.JoinSplit` this pins the pieces down. |
| JsText.JoinSplit | api/chat.js:17 | Joining the pieces of a split with the separator gives the string back. |
| JsText.SplitJoin | api/chat.js:17 | Splitting joined pieces gives the pieces back when none holds the separator. |
| JsText.SplitConcat | api/chat.js:17 | A separator splits a string into the pieces before it, followed by the pieces after it. |
| Bullets.DigitRunSpec | api/chat.js:23 | The digit run measured at the start of a line is made of digits, and the character after it is not a digit. |
| Bullets.StripGlyphSpec | api/chat.js:22 | The first rule removes the longest prefix made of a glyph of the class and then white space. It leaves the line alone when no such prefix exists. |
| Bullets.StripNumberSpec | api/chat.js:23 | The second rule removes the longest prefix made of digits, a dot, then white space. Otherwise it leaves the line alone. |
| Bullets.StripLetterSpec | api/chat.js:24 | The third rule removes the longest prefix made of an ASCII letter, a dot, then white space. Otherwise it leaves the line alone. |
| Bullets.StripStarSpec | api/chat.js:25 | The fourth rule removes the longest prefix made of `*` and at least one white-space character. Otherwise it leaves the line alone. |
| Bullets.StripMarkersKeepsSuffix | api/chat.js:20-27 | The four rules and the final `trim` turn a trimmed line into a suffix of it with no white space at either end. |
| Bullets.LinesByNewline | api/chat.js:16-19 | The kept lines are the same whether the text is split on `\r?\n` or on `\n` alone. |
| Bullets.LinesConcat | api/chat.js:16-19 | The lines of `a + "\n" + b` are the lines of `a` followed by the lines of `b`: order is kept. |
| Bullets.LinesOfOneLine | api/chat.js:16-19 | Text without a line break gives no line when it is blank, and its trim otherwise. |
| Bullets.LinesAreTrimmed | api/chat.js:16-19 | Every kept line is non-empty, has no white space at either end and holds no line break. |
| Bullets.LinesCount | api/chat.js:16-19 | As many lines are kept as there are pieces that do not trim to nothing. A text that is not blank keeps at least one. |
| Bullets.FormatBlank | api/chat.js:15 | Empty or all-white-space text gives exactly `["No response received"]`. |
| Bullets.FormatLines | api/chat.js:16-27 | Other text gives one bullet per kept line, at least one, as many as the non-blank pieces. Bullet i is the stripped line i, a suffix of it, with no white space at either end and no line break. |
| Bullets.FormatConcat | api/chat.js:14-28 | The bullets of two non-blank texts joined by a line break are the bullets of the first, then those of the second. |
| Bullets.FormatOneLine | api/chat.js:14-28 | A non-blank text without a line break gives the single bullet of its trimmed line. |
| Bullets.BulletsAreCleanLines | api/chat.js:14-28 | Every result has at least one bullet. No bullet has white space at either end or holds a line break. |
| Bullets.FormatIdempotent | api/chat.js:14-28 | Joining the bullets with line breaks and formatting again gives the same bullets, when none is empty and none loses anything to a second stripping. |
| Bullets.UnmarkedLineKept | api/chat.js:20-27 | The four rules and the final `trim` leave a trimmed line unchanged when it starts with none of the four markers: no glyph of the first class (the star among them), no digits followed by a dot, no letter followed by a dot. |
| Bullets.ExampleNumbered | api/chat.js:14-28 | `"1. Do X\n2. Do Y"` gives `["Do X", "Do Y"]`. |
| Bullets.ExampleDashAndStar | api/chat.js:14-28 | `"- Item one\n* Item two"` gives `["Item one", "Item two"]`. |
| Bullets.ExampleDashOnly | api/chat.js:19-26 | `"-"` gives `[""]`: the filter runs before the stripping. |
| Bullets.ExampleNumberOnly | api/chat.js:19-26 | `"3.\nok"` gives `["", "ok"]`. |
| Bullets.ExampleBulletGlyphKept | api/chat.js:22 | `"• Item three"` is kept whole, because U+2022 is not in the class as written. |
| Bullets.ExampleYearKept | api/chat.js:23 | `"2024 harvest"` is kept whole: digits not followed by a dot are no marker. |
| Extract.PartText | api/chat.js:11 | A part contributes what JavaScript's `||` with "" gives: its text when that is present and not empty, and "" otherwise. |
| Extract.NoCandidates | api/chat.js:7-8 | A missing response, missing candidates or an empty candidate list gives "No response from AI". |
| Extract.NoParts | api/chat.js:9-10 | A first candidate that is null, or has no content, no parts or an empty parts list, gives "No content in response", whatever the later candidates hold. |
| Extract.PartsJoined | api/chat.js:9-11 | A first candidate with parts gives the trimmed concatenation of their texts. |
| Extract.ExtractCases | api/chat.js:11 | Whenever the first candidate has parts, the result has no white space at either end; the two sentinel cases cover every other response. |
| Extract.OnlyFirstCandidate | api/chat.js:9 | Candidates after the first never change the result. |
| Extract.JoinTextsConcat | api/chat.js:11 | The texts of two runs of parts are concatenated in order. |
| Extract.MissingTextIgnored | api/chat.js:11 | A part without text contributes nothing, wherever it stands. |
| Extract.TwoParts | api/chat.js:11 | Two parts give their texts one after the other, trimmed. |
| Extract.ExampleTwoParts | api/chat.js:11 | Parts "Hi " and " there" give "Hi  there": inner white space survives. |
| Payload.ContentsShape | api/chat.js:48-75 | The first entry is the system instruction, and there is one more entry than messages with text. Entry i + 1 comes from the i-th message with text: a message of the input, with its role mapped and its text as the single part. |
| Payload.ContentsRoles | api/chat.js:48-75 | Every entry has role "user" or "model", and a later entry has role "model" exactly when its message's role is "assistant". |
| Payload.ContentsConcat | api/chat.js:67-75 | The entries of two runs of messages follow each other in order, after one system instruction. |
| Payload.ContentsOne | api/chat.js:67-75 | One message adds one entry when its text is truthy, and none otherwise. |
| Payload.TextlessMessageDropped | api/chat.js:70 | A message without text has no effect on `contents`, wherever it stands. |
| Payload.NoTextNoEntries | api/chat.js:67-75 | Messages none of which has text leave only the system instruction. |
| Handler.GetReportsStatus | api/chat.js:31-36 | GET is answered with 200 and "Serverless API running", and the provider is not called. |
| Handler.OtherMethodRefused | api/chat.js:38-40 | Any method other than GET and POST is answered with 405 "Method not allowed", and the provider is not called. |
| Handler.NotAnArrayRefused | api/chat.js:43-46 | A POST whose `messages` is not an array is answered with 400 "messages must be an array", and the provider is not called. |
| Handler.MissingBodyFails | api/chat.js:42-100 | A POST without a body is answered with 500 "Gemini request failed", and the provider is not called. |
| Handler.ChatRequestAnswered | api/chat.js:67-100 | A chat request sends exactly the `contents` built from its messages. A reply gives 200 and the bullets of the extracted text. A failure gives 500 and the provider's diagnostic. |
| Handler.StatusCodes | api/chat.js:30-101 | The status is always 200, 400, 405 or 500. |
| Handler.ProviderCalledIff | api/chat.js:42-88 | The provider is called exactly for a POST whose `messages` is an array. |
| Handler.BulletsIff | api/chat.js:90-93 | Bullets are answered exactly when such a request got a reply from the provider, and always with 200. |
| Handler.SuccessIff | api/chat.js:31-93 | Status 200 is answered exactly to GET, and to a chat request the provider replied to. |
| Handler.RefusalIgnoresProvider | api/chat.js:31-46 | A request that does not reach the provider gets the same answer whatever the provider would do. |
| Handler.AnswerDependsOnOutcome | api/chat.js:79-100 | The answer to a chat request depends on the provider only through its outcome for the `contents` sent. |
| Handler.BulletReplyClean | api/chat.js:90-93 | A bullet answer holds at least one bullet. No bullet has white space at either end or holds a line break. |
| Handler.SentinelIsOneBullet | api/chat.js:90-91 | A sentinel of `extractText` reaches the user as itself, the single bullet. |
| Handler.ExampleNumberedReply | api/chat.js:67-93 | A reply whose one part is `"1. Do X\n2. Do Y"` is answered with 200 and `["Do X", "Do Y"]`. |

## Left out

- The HTTP call (lines 77-88) is not modelled: no URL, headers, API key or JSON encoding. The provider is a function parameter from the `contents` sent to an outcome, and the model records what it was sent.
- The environment reads of lines 3-4 are not modelled. The model name only enters the URL.
- The `time` field of the GET answer (line 34) reads the clock, so `Handler.ServerStatus` carries only the status text.
- The error log of line 95 is not modelled.
- The `res.status(...).json(...)` calls are modelled as the returned `Handler.Response`.
- The wording of the advisor prompt (lines 52-62) is not modelled, only its place. `Payload.SystemPrompt` is a placeholder constant.
- The provider's diagnostic (line 98, `error?.response?.data || error.message`) is an opaque string in `Handler.ProviderOutcome.Failed`. When the provider answered with an error, the source forwards its JSON body, an object.
- The message of the `TypeError` thrown for a missing body (line 43) is not modelled. `Handler.Failure.BodyUnreadable` stands for it.
- A `null` entry in `parts` (line 11) or in `messages` (line 70) would make the code throw, which answers with 500. Entries are values here, so that case does not arise.
- JSON values of the wrong type are not modelled: a number as `text`, a non-string `role`, or an array-like object as `candidates`. Texts and roles are strings. The tests `!candidates.length` and `!parts.length` become emptiness tests on sequences.
- Characters are Unicode scalar values, not UTF-16 code units. Every character the regular expressions and `trim` look at lies in the Basic Multilingual Plane, so no result changes.
- The endpoint has no request timeout, no OPTIONS, CORS or 404 handling and no catch-all inside `extractText`, and neither has the model.
