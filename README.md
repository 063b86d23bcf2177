# R & S Flooring chat widget: dispatch engine, reply segmentation and markdown

A Dafny model of the logic inside the R & S Flooring chat widget
(`src/components/Chatbot.tsx`), with proofs about that logic. The model covers:

- **Reply segmentation.** The service's reply is cut at the literal two-character
  delimiter `\k`, blank pieces are dropped, the greeting stands in when nothing
  is left, and every piece is trimmed (`strings.dfy`, `segmentation.dfy`).
- **The dispatch engine.** The conversation, the typing indicator, the queue of
  messages typed while the bot is busy, and the busy flag. They are updated by
  `sendMessage`, `handleQuickQuestion` and `handleBotResponse`, and by the
  widget's storage effects. A class with methods models this in
  `dispatch.dfy`, and `scenarios.dfy` walks through it.
- **Session storage.** The visitor id is read or created, and the conversation
  is loaded and saved under that visitor's key (`session_store.dfy`).
- **`parseMarkdown`.** Its six regular-expression passes are modelled exactly,
  lazy `(.+?)` groups included (`markdown.dfy`).

The asynchronous handler is split into events:

- A dispatch issues a request and records it in `inFlight`.
- `GatewayReturned(k, result)` is the moment request `k` is answered. It runs
  the reveal loop and the completion (the bot becomes idle and the queue's
  head is scheduled).
- A scheduled head waits in `drains` for its 2000 ms timer.
- `DrainFire` is the oldest timer firing.

Outstanding requests may be answered in any order. Some steps that the browser
can interleave are taken as one step here; the lines on
`Dispatch.Chatbot.RevealReplies`, `Dispatch.Chatbot.Send` and
`Dispatch.Chatbot.QuickQuestion` under "Left out" say which.

Files:

- `wrappers.dfy`: `Option`.
- `strings.dfy`: JavaScript `trim`.
- `segmentation.dfy`: split, filter, fallback and trim.
- `conversation.dfy`: messages, screens and the welcome text.
- `session_store.dfy`: storage and the id and history decisions.
- `dispatch.dfy`: the `Chatbot` class.
- `markdown.dfy`: `parseMarkdown`.
- `scenarios.dfy`: walk-throughs from a freshly mounted widget.

### What the code does and does not guarantee

- **More than one request can be outstanding.** Nothing in the code keeps a
  second request from being issued while one is outstanding:
  - `handleQuickQuestion` dispatches whether or not the bot is busy (lines 203-213).
  - A message sent during the 2000 ms pause after a reply, when `botBusy` is
    already false, dispatches at once, while the queued message's timer is
    still pending (lines 176-183 and 196-200).

  `Scenarios.QuickQuestionWhileBusy` and `Scenarios.SendDuringCooldown` show two
  outstanding requests. No invariant claims otherwise.
- **Busy does not block sending.** The send button is disabled while busy
  (line 453). Pressing Enter still calls `sendMessage` (line 447), which queues
  the text instead of dropping it.
- **Quick questions are neither trimmed nor queued.**
- **The HTTP status is not consulted.** A non-2xx response whose body decodes
  is handled as a reply. Only a thrown error leads to the contact fallback.
- **Link URLs and text are not escaped.** `parseMarkdown` builds HTML by
  substitution alone, and its output is inserted as raw HTML (line 410). The
  model keeps the text as it is: `Markdown.PlainTextUnchanged` shows that
  text without markers comes back unchanged, angle brackets included.
- **The delimiter is a literal backslash followed by `k`.** It is not a newline.

## Model

| member | source | states |
|---|---|---|
| Strings.Trim | src/components/Chatbot.tsx:187-188 | the trimmed text neither starts nor ends with whitespace, and it is empty exactly when the input is blank |
| Strings.TrimIsInfix | src/components/Chatbot.tsx:187-188 | `trim` only cuts: the input is a blank prefix, then the trimmed text, then a blank suffix |
| Strings.TrimIdempotent | src/components/Chatbot.tsx:157 | trimming twice is the same as trimming once |
| Strings.TrimmedIsFixed | src/components/Chatbot.tsx:157 | text with no whitespace at either end is kept unchanged by `trim` |
| Strings.IsSpace | src/components/Chatbot.tsx:187-188 | space, tab, line feed and carriage return are whitespace to `trim`, and no printable ASCII character is |
| Segmentation.ReplyText | src/components/Chatbot.tsx:142 | the text is empty exactly when the reply is missing or empty, and is the reply itself when one is present |
| Segmentation.Split | src/components/Chatbot.tsx:142 | `split("\\k")` yields at least one piece, the first piece is a prefix of the reply, and no piece contains the delimiter |
| Segmentation.SplitThenJoin | src/components/Chatbot.tsx:142 | splitting loses nothing: joining the pieces with the delimiter gives back the reply |
| Segmentation.JoinThenSplit | src/components/Chatbot.tsx:142 | delimiter-free pieces joined with the delimiter split back into exactly those pieces |
| Segmentation.SplitAfterPiece | src/components/Chatbot.tsx:142 | a delimiter-free piece followed by the delimiter is cut off as the first piece |
| Segmentation.SplitOfDelimiterFree | src/components/Chatbot.tsx:142 | a reply without the delimiter is a single piece |
| Segmentation.NonBlank | src/components/Chatbot.tsx:142 | the filter keeps a piece exactly when its trim is non-empty, and never grows the sequence |
| Segmentation.NonBlankAppend | src/components/Chatbot.tsx:142 | the filter commutes with concatenation, so kept pieces stay in reply order |
| Segmentation.NonBlankKeepsAll | src/components/Chatbot.tsx:142 | pieces that are all non-blank are all kept |
| Segmentation.NoneKeptWhenAllBlank | src/components/Chatbot.tsx:142 | nothing survives the filter exactly when every piece is blank |
| Segmentation.GreetingIsTrimmed | src/components/Chatbot.tsx:145 | the fallback greeting is non-empty and already trimmed |
| Segmentation.Replies | src/components/Chatbot.tsx:142-146 | the list to reveal always has at least one entry, and every entry is non-blank |
| Segmentation.TrimAll | src/components/Chatbot.tsx:157 | each entry is replaced by its trim, position by position |
| Segmentation.TrimAllKeepsTrimmed | src/components/Chatbot.tsx:157 | trimming entries that are already trimmed changes nothing |
| Segmentation.Segments | src/components/Chatbot.tsx:142-157 | a successful reply yields at least one bot text, and none of them is empty |
| Segmentation.SegmentsAreTrimmed | src/components/Chatbot.tsx:157 | every shown segment is trimmed |
| Segmentation.FallbackWhenNoneKept | src/components/Chatbot.tsx:144-146 | when the filter keeps nothing, the greeting alone is shown |
| Segmentation.FallbackWhenAllBlank | src/components/Chatbot.tsx:142-146 | a reply whose pieces are all blank is shown as the greeting alone |
| Segmentation.SegmentsWhenSomeText | src/components/Chatbot.tsx:142-157 | with some non-blank piece, the texts are the trimmed non-blank pieces in order. A text is shown exactly when it is the trim of a non-blank piece |
| Segmentation.KeptTexts | src/components/Chatbot.tsx:142-157 | a text is among the trimmed kept pieces exactly when it is the trim of some non-blank piece |
| Segmentation.SegmentsOfJoin | src/components/Chatbot.tsx:142-157 | non-blank delimiter-free turns joined with the delimiter come back as those turns, trimmed, one per turn |
| Segmentation.SegmentsOfBlankJoin | src/components/Chatbot.tsx:142-146 | blank turns joined with the delimiter give the greeting alone |
| Segmentation.SegmentsOfEmptyReply | src/components/Chatbot.tsx:142-146 | a missing reply, an empty reply and a bare delimiter each give the greeting alone |
| Conversation.BotMessages | src/components/Chatbot.tsx:155-159 | one bot message per text, in the same order |
| SessionStore.SessionStorage.GetItem | src/components/Chatbot.tsx:27 | a value is returned exactly when the key is stored, and it is the stored value |
| SessionStore.HistoryKey | src/components/Chatbot.tsx:35 | the key is `chat_messages_` followed by the visitor id, so the id can be read back from it, and it is never the id key |
| SessionStore.SessionStorage.SetItem | src/components/Chatbot.tsx:30 | the entry under the key becomes the value, and no other entry changes |
| SessionStore.Truthy | src/components/Chatbot.tsx:28 | JavaScript truthiness of a `getItem` result: a missing value and the empty string are false. It has no contract of its own; `ResolveUserId` (line 28) and `StoredHistory` (line 36) state the branches it decides |
| SessionStore.ResolveUserId | src/components/Chatbot.tsx:26-32 | the id is never empty. It is the stored id when one is stored and non-empty, and `user_` plus the suffix otherwise |
| SessionStore.EntriesAfterUserId | src/components/Chatbot.tsx:26-32 | afterwards the id key holds the resolved id and no other key changes. An existing id leaves the store untouched |
| SessionStore.UserIdIsStable | src/components/Chatbot.tsx:26-32 | resolving the id a second time returns the first id whatever suffix is offered, and leaves the store unchanged |
| SessionStore.HistoryKeysAreDistinct | src/components/Chatbot.tsx:35 | a conversation key never equals the id key, and different visitors have different conversation keys |
| SessionStore.StoredHistory | src/components/Chatbot.tsx:34-48 | nothing is loaded when the visitor's entry is missing or empty. Otherwise the result is what decoding that entry yields |
| SessionStore.EntriesAfterSave | src/components/Chatbot.tsx:61-65 | a non-empty conversation is stored encoded under the visitor's key, an empty one writes nothing, and no other key changes |
| SessionStore.SaveKeepsUserId | src/components/Chatbot.tsx:61-65 | saving a conversation never changes the visitor id |
| SessionStore.SaveThenLoad | src/components/Chatbot.tsx:34-65 | with a codec that round-trips, the load decision reads back exactly the conversation the save wrote |
| Dispatch.RoundTexts | src/components/Chatbot.tsx:141-175 | an answered request always produces at least one bot text and never an empty one. A failure produces exactly the contact text |
| Dispatch.Chatbot.constructor | src/components/Chatbot.tsx:15-32 | the id is the resolved id, the store is updated as settling the id requires, and the widget starts idle on the chat screen with everything empty |
| Dispatch.Chatbot.SetInput | src/components/Chatbot.tsx:446 | the input box holds the typed text |
| Dispatch.Chatbot.BeginRound | src/components/Chatbot.tsx:131-139 | the bot is busy and shows the typing indicator. One request with the visitor id and the text is added to the outstanding ones, and nothing else changes |
| Dispatch.Chatbot.Send | src/components/Chatbot.tsx:186-201 | blank input changes nothing. Otherwise the input is cleared and the trimmed text shown as a user message. When busy it goes to the queue's tail; when idle it is dispatched at once. The engine invariant is kept |
| Dispatch.Chatbot.Accept | src/components/Chatbot.tsx:189-200 | for a non-empty trimmed text: the same outcome as `Send` |
| Dispatch.Chatbot.QuickQuestion | src/components/Chatbot.tsx:203-213 | switches to the chat screen, shows the question and dispatches it whatever the busy flag, leaving the queue alone |
| Dispatch.Chatbot.RevealReplies | src/components/Chatbot.tsx:148-164 | the texts are appended in order as bot messages after everything already shown, the indicator ends cleared, and nothing else changes |
| Dispatch.Chatbot.FinishRound | src/components/Chatbot.tsx:176-183 | the bot is idle, the queue loses its head, and a non-empty head is scheduled after every earlier schedule (FIFO). No empty text is ever queued or scheduled |
| Dispatch.Chatbot.GatewayReturned | src/components/Chatbot.tsx:130-184 | the answered request is gone. Its bot texts follow all earlier messages, the indicator is cleared and the bot is idle. The queue's head moves to the end of the schedule, and the engine invariant holds |
| Dispatch.Chatbot.DrainFire | src/components/Chatbot.tsx:179-181 | the oldest scheduled text is dispatched without a second user message, and the others stay scheduled in order |
| Dispatch.Chatbot.LoadHistory | src/components/Chatbot.tsx:34-48 | a stored conversation that decodes replaces the current one and marks the welcome as done. Otherwise nothing changes |
| Dispatch.Chatbot.ShowWelcome | src/components/Chatbot.tsx:50-59 | on the chat screen, with no messages and no welcome yet, the conversation becomes exactly the welcome message. Otherwise nothing changes |
| Dispatch.Chatbot.MountEffects | src/components/Chatbot.tsx:34-59 | the two mount effects as React runs them, in one commit with the first render's state: on a fresh chat screen the conversation ends as the welcome alone, even when a stored conversation was restored first. Otherwise the outcome is the load's |
| Dispatch.Chatbot.RestoreOrWelcome | src/components/Chatbot.tsx:34-59 | the intended mount: a stored conversation that decodes is shown, and the welcome is shown only when nothing was restored. From any other state the outcome is the load's alone. The welcome flag records either |
| Dispatch.Chatbot.SaveHistory | src/components/Chatbot.tsx:61-65 | the store becomes the save decision applied to the current conversation |
| Markdown.IsLineTerminator | src/components/Chatbot.tsx:226-234 | the characters the regular-expression `.` does not match: line feed and carriage return are among them, while tab and printable ASCII are not |
| Markdown.FindClose | src/components/Chatbot.tsx:226-231 | finds the first position where a lazy `(.+?)` group can close on the marker, and no earlier position qualifies |
| Markdown.UrlEnd | src/components/Chatbot.tsx:234 | a found end is a `)` closing a URL group with no line terminator, and it is the least such `)`. Nothing is found exactly when no `)` can close the group |
| Markdown.LinkAt | src/components/Chatbot.tsx:234 | a found label end and URL end lie inside the text, in order, with a non-empty label and URL |
| Markdown.LinkAtIsLeast | src/components/Chatbot.tsx:234 | the label end found is the least `](` after a clean label that is followed by a closable URL, and nothing is found exactly when there is none |
| Markdown.LinkMatch | src/components/Chatbot.tsx:234 | a match is a `[`, a clean non-empty label, `](`, a clean non-empty URL and `)`. It is the one the lazy regex takes (shortest label, then shortest URL), and there is one whenever any link starts at the text's head |
| Markdown.LinkMatchAt | src/components/Chatbot.tsx:234 | a link whose label has no earlier `]` and whose URL has no `)` is the match taken |
| Markdown.LinkMatchOfSource | src/components/Chatbot.tsx:234 | `[caption](url)` with clean, bracket-free parts matches with exactly its caption and URL as groups |
| Markdown.Anchor | src/components/Chatbot.tsx:234 | the anchor is `<a href="`, the URL, the fixed attributes (closing `href`, then `target="_blank"`, `rel` and `class`), the caption and `</a>`, in that order |
| Markdown.ReplaceLinks | src/components/Chatbot.tsx:234 | text without `[` comes back unchanged |
| Markdown.LinkPass | src/components/Chatbot.tsx:234 | the link pass turns `[caption](url)` into exactly the anchor for that caption and URL |
| Markdown.ReplaceNewlines | src/components/Chatbot.tsx:237 | no newline is left, and text without a newline is returned unchanged |
| Markdown.ParseMarkdown | src/components/Chatbot.tsx:224-240 | the rendered HTML never contains a newline |
| Markdown.SpansSkipPlain | src/components/Chatbot.tsx:226-231 | a span pass copies text without the marker's character and carries on after it |
| Markdown.LinksSkipPlain | src/components/Chatbot.tsx:234 | the link pass copies text without `[` and carries on after it |
| Markdown.SpanStep | src/components/Chatbot.tsx:226-231 | at a marker whose lazy group closes, the pass emits the opening tag, the group and the closing tag, then carries on after the closing marker |
| Markdown.LinkStep | src/components/Chatbot.tsx:234 | at a link match, the pass emits the rendered caption and URL and carries on after the closing `)` |
| Markdown.SpanAt | src/components/Chatbot.tsx:226-231 | a marker, a clean marker-free group and the marker again become the wrapped group, and the pass continues after them |
| Markdown.PassesKeepPlain | src/components/Chatbot.tsx:226-237 | each of the six passes keeps text with no `*`, `_`, `[` or newline unchanged |
| Markdown.PlainTextUnchanged | src/components/Chatbot.tsx:224-240 | text with no `*`, `_`, `[` or newline is rendered unchanged, with no escaping |
| Markdown.SingleSpan | src/components/Chatbot.tsx:226-231 | a span pass over one span yields the group between the opening and closing tags |
| Markdown.LoneAsterisks | src/components/Chatbot.tsx:226-227 | the bold passes leave `*x*` alone |
| Markdown.BoldSpan | src/components/Chatbot.tsx:226 | `**x**` renders as `<strong>x</strong>` |
| Markdown.ItalicSpan | src/components/Chatbot.tsx:230 | `*x*` renders as `<em>x</em>` |
| Markdown.BoldThenItalic | src/components/Chatbot.tsx:224-240 | `**x**` then plain text then `*y*` renders with `x` in `strong`, `y` in `em`, the text between them kept, and no asterisk left |
| Markdown.LinkSpan | src/components/Chatbot.tsx:234 | `[caption](url)` renders as an anchor to `url` that opens in a new tab and shows `caption` |
| Markdown.AnchorHasNoNewline | src/components/Chatbot.tsx:234-237 | the line-break pass keeps an anchor built from clean groups unchanged |
| Markdown.ReplaceSpans | src/components/Chatbot.tsx:226-231 | one span pass. It has no contract of its own: `SpanAt`, `SpansSkipPlain` and `SingleSpan` state what it does |
| Markdown.ReplaceLinksWith | src/components/Chatbot.tsx:234 | the link pass. It has no contract of its own: `LinksSkipPlain`, `LinkStep` and `LinkPass` state what it does |
| Scenarios.Mount | src/components/Chatbot.tsx:15-59 | a freshly mounted widget with nothing stored shows the welcome message alone, idle on the chat screen |
| Scenarios.ReloadAsWritten | src/components/Chatbot.tsx:34-65 | as the code is written, a reload with a stored conversation that decodes shows only the welcome, and the save then stores the welcome over the conversation |
| Scenarios.ReloadRestores | src/components/Chatbot.tsx:34-65 | with the intended mount, the same reload shows the stored conversation, and storage still holds it |
| Scenarios.QuickQuestionWhileBusy | src/components/Chatbot.tsx:203-213 | a quick question asked while a typed message awaits its reply leaves two requests outstanding |
| Scenarios.SendDuringCooldown | src/components/Chatbot.tsx:176-201 | a message typed during the 2000 ms pause is dispatched at once. When the timer fires, the queued message is dispatched as well, and both are outstanding |
| Scenarios.JoinedTurns | src/components/Chatbot.tsx:142-157 | a reply of trimmed non-empty turns joined by the delimiter is shown as exactly those turns |
| Scenarios.MultiTurnReply | src/components/Chatbot.tsx:141-164 | after sending a message and receiving a multi-turn reply, the log is the welcome, the user message, then one bot message per turn, in order |
| Scenarios.FailedExchange | src/components/Chatbot.tsx:166-176 | a failed exchange shows the welcome, the user's message and then the contact text alone, and the bot is idle again |

## Left out

- Rendering (JSX, the home, FAQ and appointment screens, icons, scrolling, `formatTime`, the open or closed state): presentation only.
- The network request (the URL, headers and JSON body): the gateway's outcome is an input, `GatewayResult`.
- Message timestamps (`new Date()`): they depend on the clock, and no logic reads them.
- The random visitor-id suffix (`Math.random`): it is a parameter of the constructor.
- JSON encoding and decoding of the stored conversation: they are function parameters. A decode failure is `None`.
- The 300 ms, 1000 ms, 200 ms and 2000 ms delays: only the order of events is modelled. The 2000 ms timers are the `drains` sequence.
- `console.error` logging: it has no effect on state.
- HTML sanitisation: the source does none, so there is nothing to model.
- Dispatch.Chatbot.RevealReplies: runs in one step, so states where only part of a reply is shown are not modelled. This also rules out a second request's answer or a send interleaving with the reveal.
- Dispatch.Chatbot.Send: reads the current busy flag. The source reads the value captured at the last render, so two sends before a re-render could both see an idle bot. React's batching and stale closures are not modelled.
- Dispatch.Chatbot.QuickQuestion: the screen switch and the 300 ms later dispatch happen as one step.
- Dispatch.Chatbot.LoadHistory: is modelled on its own and, for the mount, inside `MountEffects` (as written) and `RestoreOrWelcome` (as intended); the walk-throughs mount with `MountEffects`, which with nothing stored also shows the welcome alone. React's commit and re-render machinery is not modelled beyond that order.
- Markdown.BoldThenItalic: proved for a marker-free gap without line terminators. Other text between the spans is not covered.

## Findings

| source | as written | input that shows it | evidently intended | confidence | as-written member | corrected member |
|---|---|---|---|---|---|---|
| src/components/Chatbot.tsx:34-65 | the load and welcome effects run in the same commit and both see the first render's empty conversation, so the welcome replaces the restored conversation, and the save effect then stores the welcome over it | a reload of the page while a non-empty conversation that decodes is stored under the visitor's key | the stored conversation is shown again, and the welcome appears only when nothing was restored | high; not executed | Scenarios.ReloadAsWritten | Scenarios.ReloadRestores |

The walk-throughs in `scenarios.dfy` mount with the code as written (`Dispatch.Chatbot.MountEffects`). With nothing stored, it gives the same state as the corrected version.
