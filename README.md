# DeepSeek chatbot: a Dafny model of the reply segmenter and the chat transcript

The program is a single-page Streamlit chat (`app.py`). Almost all of it
renders widgets or calls a hosted chat-completion API. Two pieces have logic
of their own, and this project models both and proves properties of them:

* **The `<think>` segmenter** (`extract_think_content`). It looks up the first
  `<think>` and the first `</think>` in a reply with `str.find`. When both are
  present, the reasoning is the stripped text between them. The answer is the
  text before `<think>`, left as it is, followed by the stripped text after
  `</think>`. Otherwise the reply comes back unchanged with no reasoning.
  Module `Segmentation` (`segmentation.dfy`) holds it. It rests on module
  `PyStr` (`pystr.dfy`), which models the three Python string operations it
  uses: `find` with its `-1` sentinel, step-1 slicing (which never fails and is
  empty when the start is past the stop), and `strip()` over Python's
  whitespace set.
* **The chat transcript** (`st.session_state.messages`). A new session seeds
  it with one assistant greeting, and "Reset Chat" puts that greeting back.
  A submitted prompt appends the user turn. Then the system instruction plus
  the transcript is sent for completion, and the raw, unsplit reply is
  appended as the assistant turn. Module `Chat` (`chat.dfy`) models this as a
  class `Session` whose `messages: seq<Message>` field its methods reassign.
  The request list is the function `Request`. The completion itself is a
  parameter `complete: seq<Message> -> string` of `Submit`. A failed call is
  that function returning `""`, which is what `deepseek_chat` returns on an
  exception.

Main results:

* `Find` returns exactly the first occurrence, or `-1` exactly when the
  pattern is absent.
* `Strip` is characterised independently, as the unique infix with only
  whitespace around it and no whitespace at its ends. It is also idempotent.
* Without both markers the reply is returned character for character.
* With both markers, the split uses the first occurrence of each. When they
  are well ordered, every later marker stays verbatim. One inside the
  reasoning span is found in the reasoning. One after the first `</think>` is
  found in the answer's stripped tail.
* With well-ordered markers, the reply decomposes exactly as prefix, `<think>`,
  inner text, `</think>`, suffix.
* With inverted markers, nothing fails. The reasoning is `""`, and the answer
  still contains both markers.
* The transcript always opens with the greeting, alternates assistant and
  user turns, and ends with an assistant turn. In the program this holds only
  when each run reaches line 90 once it has passed line 65. A rerun during
  the network call, or a `None` reply content that makes line 75 raise,
  leaves a user turn without a reply. Both causes are outside the model (see
  "Left out").
* Every request holds exactly one system message, at its front, and ends
  with the prompt just submitted.

One point of precedence matters. At `app.py:21`, `.strip()` applies only to
the slice after `</think>`. It does not apply to the whole concatenation, so
any whitespace before `<think>` stays in the answer (`ExamplePaddedAnswer`).
The model keeps the code's reading.

## Model

| member | source | states |
|---|---|---|
| `PyStr.FindFrom` | app.py:16-17 | the scan from a start index returns the leftmost occurrence at or after it, or -1 exactly when none follows |
| `PyStr.Find` | app.py:16-17 | `str.find`: -1 exactly when the pattern does not occur, otherwise an index where it occurs with no occurrence before it |
| `PyStr.FindIsFirstOccurrence` | app.py:16-17 | the first occurrence is unique, so `Find` returns it whatever index the caller knows to be first |
| `PyStr.Slice` | app.py:20-21 | `s[a:b]` never fails, equals `s[a..b]` for in-range ordered bounds and is empty when the start is at or past the stop |
| `PyStr.SliceNormalises` | app.py:20-21 | out-of-range bounds: the slice is empty when the start is at or past `len` or the stop is at or before `-len`. Otherwise a negative bound counts from the end, one below `-len` acts as 0, and one above `len` acts as `len` |
| `PyStr.LeadingWhitespace` | app.py:20-21 | the count of leading whitespace: all of it is whitespace and the next character is not |
| `PyStr.ContentEnd` | app.py:20-21 | where trailing whitespace begins: everything after it is whitespace and the character before it is not |
| `PyStr.Strip` | app.py:20-21 | `str.strip()` is empty exactly when the input is all whitespace, and otherwise neither starts nor ends with whitespace |
| `PyStr.StripIsTrimmedInfix` | app.py:20-21 | any infix with only whitespace around it and non-whitespace ends is exactly what `strip()` returns |
| `PyStr.StripIdempotent` | app.py:20 | stripping a stripped string changes nothing |
| `PyStr.StripKeepsSpan` | app.py:21 | a span that starts and ends with non-whitespace survives `strip()` intact |
| `PyStr.StripKeepsOccurrence` | app.py:20-21 | an occurrence of a pattern with non-whitespace ends, lying wholly inside a slice, is still found after that slice is stripped |
| `Segmentation.ExtractThinkContent` | app.py:12-23 | reasoning is `None` exactly when one of the markers is missing, and then the answer is the reply itself, untrimmed |
| `Segmentation.MarkersDisjoint` | app.py:16-17 | an occurrence of `<think>` and one of `</think>` never overlap |
| `Segmentation.SegmentWithMarkers` | app.py:16-22 | with first `<think>` at i and first `</think>` at j, the result is `(strip(s[i+7:j]), s[:i] + strip(s[j+8:]))`, with only the tail stripped |
| `Segmentation.SegmentOrdered` | app.py:19-22 | for well-ordered markers the reply is prefix, `<think>`, inner text, `</think>` and suffix, the reasoning is the stripped inner text and the answer keeps the prefix untrimmed |
| `Segmentation.SegmentOrderedKeepsLaterMarkers` | app.py:16-21 | for well-ordered first markers, any other `<think>` or `</think>` between them is found in the reasoning, and any after the first `</think>` is found in the answer after its untrimmed prefix |
| `Segmentation.InvertedAnswerKeepsMarkers` | app.py:21 | the answer built for inverted markers holds `</think>` in its prefix part and `<think>` in its stripped tail |
| `Segmentation.SegmentInverted` | app.py:19-22 | when `</think>` precedes `<think>` nothing fails, the reasoning is the empty string and both markers leak into the answer |
| `Segmentation.ExampleSimpleSplit` | app.py:12-23 | `"A<think>B</think>C"` gives `("B", "AC")` |
| `Segmentation.ExamplePaddedReasoning` | app.py:12-23 | `"<think>  B  </think>"` gives `("B", "")` |
| `Segmentation.ExampleRepeatedOpen` | app.py:12-23 | `"<think>X<think>Y</think>Z"` gives `("X<think>Y", "Z")`, since only the first `<think>` counts |
| `Segmentation.ExamplePaddedAnswer` | app.py:21 | `" A <think>B</think> C "` gives `("B", " A C")`: the prefix keeps its spaces |
| `Segmentation.ExampleInverted` | app.py:19-23 | `"</think>A<think>B"` gives `("", "</think>AA<think>B")` |
| `Segmentation.ExampleUnclosed` | app.py:19-23 | `" <think> x "` has no closing marker and comes back as `(None, " <think> x ")` with no trimming |
| `Chat.Request` | app.py:30 | the request is the system instruction followed by the whole history, element for element and in order |
| `Chat.RequestForPrompt` | app.py:64-72 | the request sent after the user turn has one system message, at the front, and ends with the user's prompt |
| `Chat.AppendTurnKeepsShape` | app.py:64-90 | appending a user turn and then an assistant turn keeps the transcript's alternating shape |
| `Chat.Session.constructor` | app.py:5-8 | a new session's transcript is exactly the assistant greeting |
| `Chat.Session.Reset` | app.py:52-55 | after reset the transcript is exactly the assistant greeting, whatever it held before |
| `Chat.Session.Submit` | app.py:64-90 | an empty prompt changes nothing. Otherwise the transcript becomes the old one plus the user turn plus the raw reply, and that reply is what the completion returns for the system instruction followed by the transcript that already holds the prompt |

## Left out

- Streamlit rendering (app.py:39-61, 67-87) is not modelled: headers, sidebar, chat bubbles, spinner, `st.write`, `st.rerun`. That includes the reasoning panel, shown only when the reasoning is non-empty (line 78), and its unescaped HTML (lines 79-84). Both are display only.
- Loading the API key from `st.secrets` (line 10) is external configuration.
- The network call in `deepseek_chat` (lines 25-36) is not modelled. Neither are its fixed base URL, its model name, or the error notification shown by `st.error`. Its result is the `complete` parameter of `Submit`. The failure path is that function returning `""`, as line 36 does. `choices[0].message.content` being `None` is not modelled.
- Streamlit's per-session storage and re-run semantics are framework behaviour. The "messages not yet in the session" check at line 5 is the constructor. A later run finds the state already present, which corresponds to calling no constructor.
- `st.chat_input` yields `None` when nothing was submitted. Line 64 tests the prompt's truthiness. Both cases are modelled as the empty prompt, for which `Submit` does nothing.
- `PyStr.IsWhitespace` lists the 29 characters for which Python's `str.isspace` holds. That set follows the Unicode version of the Python release and is fixed here.
- Python strings may hold lone surrogates, which Dafny's `char` (a Unicode scalar value) cannot. No operation here depends on them.
