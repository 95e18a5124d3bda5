# Trivia Quest session controller and explanation renderer, in Dafny

This project models the logic core of the Trivia Quest page (`app/page.tsx`).
The page runs a ten-question trivia quiz whose questions and grading come from
an external quiz agent. The model has two parts:

- **The session controller** (module `Quiz`, class `QuizSession`). It holds the
  state cells of `Home`: the phase (`setup`, `active`, `feedback`, `results`),
  the chosen category and difficulty, the user/assistant transcript sent to the
  agent on every call, the selected answer, the last question, feedback and
  final results, and the `loading` and `error` cells. `StartQuiz`,
  `SubmitAnswer`, `NextQuestion` and `ResetQuiz` are the page's handlers, one
  method each. The agent call is a parameter `outcome`: a usable result
  (`Replied`), a reply without one (`Unsuccessful`), or an exception (`Threw`).
  Each handler returns the `Request` (message and history) it hands to the
  agent. `JSON.stringify` is the session's constant `serialize`, fixed when the
  session is constructed and not otherwise interpreted. A ghost field
  `exchanges` records the successful exchanges. The class invariant `Valid()`
  ties the transcript to those exchanges and says each phase has the data its
  screen needs.
- **The markdown subset renderer** (module `Markdown`). It is pure.
  `RenderMarkdown` splits an explanation on `'\n'` and classifies every line as
  a heading (levels 1–3), an unordered item, an ordered item, a spacer or a
  paragraph. `FormatInline` models `text.split(/\*\*(.*?)\*\*/g)` as the
  ECMAScript split loop: at the leftmost index where `**` opens a pair, the
  lazy group ends at the nearest following `**`, and no line terminator may
  come before it. Captured groups become strong spans.

`wrappers.dfy` holds the `Option` type used for the agent's optional fields, and
`strings.dfy` (module `Strings`) the `startsWith`/`endsWith` tests that both
parts use.

Each handler is atomic. `loading` is set on entry and cleared on every exit
path, so between handlers it is always false. The page disables its buttons
while `loading` holds, and the model states this as a `!loading` precondition.
That precondition is what rules out a second request while one is in flight.
`SelectAnswer` also requires the `active` phase and one of the shown option
labels, because only the option buttons of the question screen call it.

Some behaviour of the code differs from an idealised controller. The model
follows the code:

- `startQuiz`, `submitAnswer` and `nextQuestion` do not check the phase.
- `submitAnswer` never clears the selection.
- `nextQuestion` clears the selection before the call, so the selection is lost even when the call fails.
- `resetQuiz` keeps the chosen category and difficulty.
- `question_number` is passed through unclamped.

## Model

| member | source | states |
|---|---|---|
| `Markdown.SplitLines` | app/page.tsx:82 | `text.split('\n')` gives one more line than there are newlines, and no line contains a newline |
| `Markdown.JoinSplitLines` | app/page.tsx:82 | joining the lines with `'\n'` gives back the text |
| `Markdown.SplitJoinLines` | app/page.tsx:82 | for newline-free lines, splitting their join gives back exactly those lines (the inverse direction) |
| `Markdown.CloseFrom` | app/page.tsx:125 | the lazy `(.*?)\*\*` stops at a `**` with no line terminator before it and no earlier `**` |
| `Markdown.CloseFromNearest` | app/page.tsx:125 | the lazy group closes at the nearest possible `**`, and fails only when no `**` can be reached without crossing a line terminator |
| `Markdown.MatchAt` | app/page.tsx:125 | a match at an index opens with `**` there and closes with a later `**` |
| `Markdown.SplitFrom` | app/page.tsx:125 | the split loop always yields an odd number of parts (literal, group, literal, …) |
| `Markdown.FirstMatch` | app/page.tsx:125 | the leftmost index from a start where a `**…**` pair opens: a pair opens there, and at no earlier index |
| `Markdown.SplitFromLeftmost` | app/page.tsx:125 | the split is leftmost-first: the text up to the leftmost opening index is one literal part, that pair's group is the next part, and splitting resumes right after the pair; with no pair left, the rest is one literal |
| `Markdown.SplitFromWhole` | app/page.tsx:125-126 | the split yields a single part exactly when no remaining index starts a `**…**` pair |
| `Markdown.SplitFromGroups` | app/page.tsx:125 | no captured group contains `**` |
| `Markdown.Split` | app/page.tsx:125 | `text.split(/\*\*(.*?)\*\*/g)` yields literal, group, literal, …, literal: an odd number of parts |
| `Markdown.RejoinSplit` | app/page.tsx:125 | putting `**` back around every captured part gives back the original text: split drops only the delimiters of matched pairs, so an unpaired `**` stays literal |
| `Markdown.PairAt` | app/page.tsx:125 | a `**` followed by star-free text with no line terminator and then a `**` matches as one pair |
| `Markdown.SplitOnePair` | app/page.tsx:125 | `a**b**c` with star-free `a`, `b`, `c` and no line terminator in `b` splits into exactly `[a, b, c]` |
| `Markdown.SplitTwoPairs` | app/page.tsx:125 | two pairs in otherwise star-free text are both matched, in order, giving five parts |
| `Markdown.FormatInline` | app/page.tsx:124-136 | the text is returned unchanged exactly when it has no `**…**` pair; otherwise there are 2k+1 spans, the odd-indexed ones are strong, and strong spans contain no `**` |
| `Markdown.SpansOf` | app/page.tsx:127-135 | each part is kept as a span, strong exactly at odd indexes |
| `Markdown.FormatInlineLeftmost` | app/page.tsx:124-135 | when the text is formatted, its leading literal runs exactly up to the leftmost index where a pair opens, and the first strong span is that pair's group |
| `Markdown.FormatInlineRoundTrip` | app/page.tsx:124-135 | the formatted spans, with delimiters put back around the strong ones, spell the original text |
| `Markdown.UnpairedStaysLiteral` | app/page.tsx:124-126 | a lone `**` in otherwise star-free text opens no pair, so the text comes back unchanged |
| `Markdown.FormatOnePair` | app/page.tsx:124-135 | one star-free pair formats as literal, strong, literal |
| `Markdown.EmphasisExample` | app/page.tsx:124-135 | `"Score **10** points"` formats as `"Score "`, strong `"10"`, `" points"` |
| `Markdown.TwoPairsExample` | app/page.tsx:124-135 | `"**a** **b**"` formats as `""`, strong `"a"`, `" "`, strong `"b"`, `""`: both pairs are matched |
| `Markdown.DigitRun` | app/page.tsx:107 | counts the maximal run of decimal digits from an index |
| `Markdown.OrderedPrefix` | app/page.tsx:107-110 | a reported `^\d+\.\s` prefix is digits, a dot and one whitespace character |
| `Markdown.OrderedPrefixComplete` | app/page.tsx:107 | whenever `^\d+\.\s` matches some prefix length, `OrderedPrefix` finds exactly that length |
| `Markdown.OrderedMarkerFound` | app/page.tsx:107 | `^\d+\.\s` matches a prefix of the line exactly when `OrderedPrefix` reports one |
| `Markdown.MarkersByFirstChar` | app/page.tsx:83-113 | each marker fixes the line's first character (`#`; `-` or `*`; a digit; whitespace for a blank line) |
| `Markdown.Classify` | app/page.tsx:82-118 | the per-line callback: a line is a heading, unordered item, ordered item or spacer exactly when its own marker is present; the forms exclude each other, so the test order does not change the result |
| `Markdown.ClassifyKeepsText` | app/page.tsx:83-118 | a heading is its marker (`"# "`, `"## "`, `"### "`) plus its text; a list item holds the inline formatting of the line after its marker and a paragraph that of the whole line, and undoing that formatting gives the text back; a spacer line is whitespace only |
| `Markdown.RenderMarkdown` | app/page.tsx:78-82 | the result is absent exactly for the empty text; otherwise there is one block per `'\n'`-separated line |
| `Markdown.RenderMarkdownLines` | app/page.tsx:79-82 | block i is the classification of line i, and the lines joined with `'\n'` rebuild the text |
| `Markdown.PlainTextIsOneParagraph` | app/page.tsx:78-118 | a single non-blank line with no heading, list or ordered-list marker and no pair renders as one paragraph holding the text verbatim, whatever its first character |
| `Markdown.NumberLedParagraph` | app/page.tsx:107-118 | `"42 is the answer"` has no `.` after its number, so it renders as one verbatim paragraph |
| `Markdown.RenderOneLine` | app/page.tsx:78-82 | a non-empty text without a newline renders as exactly the block of its one line |
| `Markdown.ParagraphByFirstChar` | app/page.tsx:83-118 | a line whose first character is not `#`, `-`, `*`, a digit or whitespace becomes a paragraph of its inline formatting |
| `Markdown.OneLineParagraph` | app/page.tsx:78-135 | a text of one line whose first character is not `#`, `-`, `*`, a digit or whitespace renders as one paragraph of its inline formatting |
| `Markdown.EmphasisParagraph` | app/page.tsx:78-135 | `"Score **10** points"` renders as one paragraph of `"Score "`, strong `"10"`, `" points"` |
| `Quiz.StartMessageRoundTrip` | app/page.tsx:157 | the start message `Start quiz: Category=<c>, Difficulty=<d>` reads back as exactly `c` and `d`, and never as an answer message |
| `Quiz.DifficultyFromSuffix` | app/page.tsx:157 | the three difficulty suffixes end in different letters, so only the one that was written matches |
| `Quiz.AnswerMessageRoundTrip` | app/page.tsx:188 | the answer message `My answer is <label>` reads back as exactly the label, and never as a start message |
| `Quiz.NextMessageDistinct` | app/page.tsx:219 | `Next question` reads as neither a start message nor an answer message |
| `Quiz.FlattenIsTranscript` | app/page.tsx:163-166 | n successful exchanges leave exactly 2n turns, alternating user then assistant |
| `Quiz.TranscriptExchanges` | app/page.tsx:194-198 | every alternating transcript is the flattening of the exchanges read from it |
| `Quiz.ExchangesFlatten` | app/page.tsx:230-234 | reading the exchanges back from their transcript gives the same exchanges |
| `Quiz.FlattenAppend` | app/page.tsx:194-198 | one more exchange appends exactly its user turn and its assistant turn |
| `Quiz.QuizSession.TranscriptParity` | app/page.tsx:163-166 | in every valid session the transcript alternates from a user turn and has twice as many turns as there were successful exchanges |
| `Quiz.QuizSession.Screen` | app/page.tsx:374 | in every valid session the screen of the current phase is shown, because its data is present (the guards at lines 277, 374, 477 and 570) |
| `Quiz.QuizSession.constructor` | app/page.tsx:139-148 | the initial cells: setup phase, Science, Medium, empty transcript, no selection, no error, not loading |
| `Quiz.QuizSession.SelectCategory` | app/page.tsx:297 | the category changes, and its frame lets nothing else change |
| `Quiz.QuizSession.SelectDifficulty` | app/page.tsx:331 | the difficulty changes, and its frame lets nothing else change |
| `Quiz.QuizSession.SelectAnswer` | app/page.tsx:411-416 | picking one of the shown option labels sets the selection, and its frame lets nothing else change |
| `Quiz.QuizSession.StartQuiz` | app/page.tsx:151-178 | writes only loading, error, question, transcript and phase (category, difficulty, selection, feedback and results are kept by its frame). Sends `Start quiz: Category=<c>, Difficulty=<d>` with an empty history. A usable result makes the transcript exactly that one exchange, stores the question and moves to `active`. A failure changes only the error, with one message for an unsuccessful reply and another for an exception |
| `Quiz.QuizSession.SubmitAnswer` | app/page.tsx:180-210 | writes only loading, error, feedback, transcript and phase (the selection and everything else are kept by its frame). With no selection, sends nothing and changes nothing. Otherwise sends `My answer is <label>` with the whole transcript. A usable result appends exactly one exchange, stores the feedback and moves to `feedback`. A failure changes only the error |
| `Quiz.QuizSession.NextQuestion` | app/page.tsx:212-247 | keeps category, difficulty and feedback by its frame. Clears the selection, then sends `Next question` with the whole transcript. A result with `quiz_complete` true stores the final results, moves to `results` and leaves the transcript as it was. Any other usable result appends one exchange and moves to `active`. A failure changes only the error (and the cleared selection) |
| `Quiz.QuizSession.AppendExchange` | app/page.tsx:194-198 | `[...prev, user, assistant]`: the transcript grows by exactly the user turn and the assistant turn, and stays the flattening of the exchanges |
| `Quiz.QuizSession.ResetQuiz` | app/page.tsx:249-257 | back to `setup` with an empty transcript, no selection, no question, feedback, results or error; category, difficulty and loading are kept by its frame |

## Left out

- The agent call (`callAIAgent`) is not part of this model. The agent is a network service, and only the three outcomes the handlers tell apart are modelled.
- `JSON.stringify` is left uninterpreted: it is the session's `serialize` constant.
- Awaiting the agent is not modelled. Each handler runs atomically, so `loading` is never observed true between handlers, and the model does not show the button states during a call.
- `activeAgentId` and `console.error` are not modelled: one drives a status badge, the other writes to the console.
- Display is left out: the JSX and theme, the category icons and colours, the `?? 0` and `'N/A'` display defaults, and the progress-bar percentage `(question_number / 10) * 100`, which is floating-point display arithmetic.
- The numeric fields of a reply are modelled as `int`. In the code they are JavaScript numbers, but the controller never computes with them.
- Strings are sequences of Unicode scalar values, whereas JavaScript strings are UTF-16 code units. Surrogate pairs are therefore not modelled, and they do not affect the ASCII markers the renderer tests for.
