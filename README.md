# Therapist chat session, modelled in Dafny

This project models the chat session handling of the journaling app's
"virtual therapist" component (`components/TherapistPanel.jsx`). Three things
are modelled.

- **The session log.** This is an ordered list of `{ role, content }`
  messages plus a `loading` flag, and the value kept under the browser
  storage key. `Session.TherapistChat` is a class with those three fields.
  Its methods are the load effect, the save effect, `sendMessage` and
  `handleSubmit`.
- **The history formatter.** It is the pure map that converts the messages
  before a send into the provider's format. For the provider, the role
  "assistant" becomes "model".
- **The reply enricher.** It trims the model text and collects up to three
  extras, in the order quote, breathing exercise, gratitude prompt. It then
  joins the reply and the extras with a blank line.

The provider call and `Math.random` are inputs. The provider's answer is a
`Completion`: `Replied(text)` or `Failed`. The two random values are a
`Draws` pair of reals in [0, 1). The first decides whether a quote is added
(`< 0.3`). The second picks it (`floor(pick * 5)`).

Modules:

- `Text` (text.dfy): models the JavaScript primitives the component uses.
  These are `trim` (the full ECMAScript white-space set), `toLowerCase`
  (ASCII letters only), `includes` and `Array.prototype.join`.
- `Messages` (messages.dfy): `Message`, the provider's `Turn`/`Part`
  format, `Request`, and `FormatHistory` with its lemmas.
- `Enricher` (enricher.dfy): the constants `motivationalQuotes`,
  `breathingExercise` and `gratitudePrompt`, the extras and the enriched
  reply.
- `Session` (session.dfy): the greeting, the apology, the storage states
  and the `TherapistChat` class.

Storage is `Stored`, with four states:

- `Absent`: nothing stored.
- `Blank`: the empty string. It is the only falsy value the read can return.
- `Parsed(log)`: the stored value parses as a list.
- `Malformed`: the stored value does not parse.

Saving stores `Parsed(messages)`.

Malformed storage gets no greeting. The empty `catch` (line 56 of
`components/TherapistPanel.jsx`) leaves the log as the initial `[]`, and the
save effect then stores that empty list. Later loads restore `[]` and never
seed the greeting, until a send stores a non-empty log. `Load` and `Mount`
state this.

## Model

| member | source | states |
|---|---|---|
| Text.Trim | components/TherapistPanel.jsx:100 | `trim` (also used at line 131) never lengthens its input, and neither end of the result is white space. |
| Text.TrimStart | components/TherapistPanel.jsx:100 | The result is the longest suffix of the input that does not start with white space. Everything dropped is white space. |
| Text.TrimEnd | components/TherapistPanel.jsx:100 | The result is the longest prefix of the input that does not end with white space. Everything dropped is white space. |
| Text.TrimIsSlice | components/TherapistPanel.jsx:100 | `trim` returns a slice `s[i..j]` of its input. `s[..i]` and `s[j..]` are all white space. Together with `Trim`'s contract this fixes the result uniquely. |
| Text.TrimEmptyIff | components/TherapistPanel.jsx:131-132 | The input trims to the empty string exactly when every character is white space. This is the blank-input guard. |
| Text.ToLower | components/TherapistPanel.jsx:105-106 | Lower-casing keeps the length. No upper-case ASCII letter survives. Each upper-case letter becomes its lower-case partner, and every other character is kept. |
| Text.ToLowerIdempotent | components/TherapistPanel.jsx:105-106 | Lower-casing a lower-cased string changes nothing. |
| Text.Contains | components/TherapistPanel.jsx:105-106 | A contained word is never longer than the text, and the empty word is contained in every text. |
| Text.ContainsIff | components/TherapistPanel.jsx:105-106 | `includes` holds exactly when the word occurs at some index of the text. Both directions are proved. |
| Text.Join | components/TherapistPanel.jsx:108 | The empty array joins to the empty string. A non-empty array's join starts with its first part. |
| Text.JoinCons | components/TherapistPanel.jsx:108 | Joining `[h, ...t]` yields `h` followed by separator-plus-part for each later part, in order. |
| Text.JoinContainsPart | components/TherapistPanel.jsx:108 | Every part of a join occurs in the joined string. |
| Text.JoinLayout | components/TherapistPanel.jsx:108 | Joining a head with three runs of parts yields the head, then the separated parts of each run, in order. |
| Messages.FormatHistory | components/TherapistPanel.jsx:80-83 | The history has exactly one turn per message. |
| Messages.FormatHistoryShape | components/TherapistPanel.jsx:80-83 | The history has one turn per message, in the same order. Each turn's only part is the message content. Its role is "model" for an assistant message and the original role otherwise. |
| Messages.FormatHistoryAppend | components/TherapistPanel.jsx:80-83 | Formatting a concatenation gives the concatenation of the formatted pieces. |
| Messages.HistoryAfterExchange | components/TherapistPanel.jsx:76-83 | After a send, the next request's history is the previous history plus exactly two turns: the user text with role "user", then the reply with role "model". |
| Messages.ModelRoleIff | components/TherapistPanel.jsx:81 | In a log of user and assistant messages, a turn has role "model" exactly when its message is an assistant message, and role "user" exactly when its message is a user message. |
| Messages.FormatHistoryInverse | components/TherapistPanel.jsx:80-83 | When no message already has role "model", every turn reads back as its own message, so formatting loses nothing. |
| Enricher.QuoteIndex | components/TherapistPanel.jsx:104 | `floor(pick * 5)` is a valid index `0..4` into the five quotes. It is the integer part of `pick * 5`. |
| Enricher.Render | components/TherapistPanel.jsx:104-106 | Each pushed block shows its content: the chosen quote, the breathing exercise or the gratitude prompt. |
| Enricher.Extras | components/TherapistPanel.jsx:103-106 | There are at most three extras. There are none exactly when the quote draw misses and neither keyword pair occurs in the user text. |
| Enricher.ExtrasSpec | components/TherapistPanel.jsx:103-106 | The extras come in the order quote, breathing, gratitude, with each kind at most once. The quote uses the pick's index and is present exactly when the first draw fires. The breathing block is present exactly when the lower-cased text contains "anxious" or "panic". The gratitude block is present exactly when it contains "empty" or "unmotivated". |
| Enricher.CollectExtras | components/TherapistPanel.jsx:103-106 | The sequence of conditional pushes yields exactly `Extras`. |
| Enricher.EnrichedReply | components/TherapistPanel.jsx:100-108 | `fullReply` opens with the trimmed model text. |
| Enricher.EnrichedReplyLayout | components/TherapistPanel.jsx:100-108 | The reply is the trimmed model text, followed by the quote, breathing and gratitude pieces in that order. Each present piece is `"\n\n"` plus its block, and each absent piece is empty. |
| Enricher.EnrichedReplyStartsWithReply | components/TherapistPanel.jsx:100-108 | The trimmed model text is a prefix of the reply. The reply equals the trimmed text exactly when no extra fires. |
| Enricher.EnrichedReplyContainsExtra | components/TherapistPanel.jsx:108 | The text of every collected extra occurs in the reply. |
| Enricher.EnrichedReplyContainsBlocks | components/TherapistPanel.jsx:104-108 | Each block that fires occurs in the reply text. |
| Enricher.MentionsAt | components/TherapistPanel.jsx:105-106 | A word with no upper-case letters that occurs in the user text is found in the lower-cased text. |
| Enricher.AnxiousBringsBreathing | components/TherapistPanel.jsx:105 | For the user text "I feel so anxious today", the reply always contains the breathing block, whatever the model says and whatever the draws. |
| Enricher.EmptyBringsGratitude | components/TherapistPanel.jsx:106 | For the user text "I feel empty and unmotivated", the reply always contains the gratitude block. |
| Enricher.KeywordsIgnoreCase | components/TherapistPanel.jsx:105-106 | Keyword matching ignores ASCII case. For every user text, lower-casing it first changes neither trigger and not the extras. |
| Session.Reply | components/TherapistPanel.jsx:108-123 | On success, the assistant message opens with the trimmed model text. On failure, it is exactly the apology. |
| Session.TherapistChat.constructor | components/TherapistPanel.jsx:30-31 | The component starts with an empty log and `loading` false. Storage holds whatever the browser has. |
| Session.TherapistChat.Load | components/TherapistPanel.jsx:51-65 | With no stored value or a falsy one, the log is exactly the one assistant greeting. A value that parses becomes the log as is. A value that does not parse leaves the log unchanged, with no greeting. Reloading what was saved restores the log. |
| Session.TherapistChat.Save | components/TherapistPanel.jsx:67-69 | The whole log is written back. |
| Session.TherapistChat.Mount | components/TherapistPanel.jsx:51-69 | After the load and save effects of the first render, the log follows the three load cases and storage holds the log. |
| Session.TherapistChat.BeginSend | components/TherapistPanel.jsx:75-83 | `loading` is set and the user message is appended. The log is saved. The request carries the earlier log in provider format, plus the new text. |
| Session.TherapistChat.FinishSend | components/TherapistPanel.jsx:99-126 | Exactly one assistant message is appended. It is the enriched reply on success and exactly the apology on failure. The log is saved and `loading` ends false on both paths. |
| Session.TherapistChat.Send | components/TherapistPanel.jsx:75-127 | The log becomes the old log, then the user message, then exactly one assistant reply. Earlier messages are unchanged. The request is the formatted earlier log. `loading` ends false and storage holds the log. A log of only user and assistant messages keeps that shape. |
| Session.TherapistChat.Submit | components/TherapistPanel.jsx:129-135 | Input that is blank after trimming sends nothing and changes no field. Any other input is sent in its trimmed form, with the effect `Send` states. |

## Left out

- The generative-text provider calls are left out (`getGenerativeModel`, `startChat`, `chat.sendMessage`, `response.text()`, lines 11-27 and 86-100). They are network calls into a foreign library. Their outcome is the `Completion` input. The model name, system instruction, safety settings and generation config are constants passed to that library, and they have no behaviour here.
- `Math.random` is floating point. It is modelled as two real draws in [0, 1). IEEE rounding of `pick * 5` is not modelled.
- `JSON.parse`, `JSON.stringify` and `localStorage` are library calls and browser I/O. Storage is the `Stored` value. A stored value that parses to something other than a list of `{ role, content }` objects is not modelled, because `Parsed` always holds a message list.
- React effect scheduling and async interleaving are not modelled. `Send` runs its two halves back to back. Another submission while the call is in flight is not modelled. Only the disabled button prevents one (line 168), and that is a UI guard.
- The scroll effect (lines 71-73), the JSX rendering, the form reset (line 133) and the `console.error` log (line 115) are presentation and I/O.
- React's development-mode double run of effects is outside the component's logic.
- Text.ToLower: folds ASCII letters only. Unicode case mapping is not modelled. The only effect on the keyword tests would be non-ASCII characters that lower-case to ASCII letters.
- Enricher.Render: in `components/TherapistPanel.jsx` each label (lines 104-106) opens with four characters. They are the UTF-8 bytes of an emoji read as Windows-1252, for example U+00F0 U+0178 U+2019 U+00AC. The model uses the emoji those bytes encode: U+1F4AC, U+1F9D8 and U+1F4D3. So its labels differ from the source text in those first characters.
