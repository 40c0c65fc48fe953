# A verified model of the wellness app's page logic

The repository is a React wellness app. Its pages call a hosted backend for
authentication, storage and an AI chat. This project models the four pieces
of page logic that compute something on their own:

- **The chat page's `sendMessage`** (`ChatSession`, `StreamLines`).
  - It guards against a blank input or a request already in flight.
  - It appends the user turn and an empty assistant placeholder.
  - It reads the streamed reply. Each decoded chunk is added to a text buffer, the buffer is split on newlines, and the trailing partial line is kept for the next chunk.
  - Each complete `data: ` line has its payload trimmed. `[DONE]` is skipped, and the content field of every other payload is appended to the reply. The last message is kept equal to the reply.
  - On failure the placeholder is removed.
- **The Pomodoro timer** of the productivity page (`Pomodoro`).
  - The state is the running flag, the seconds left and the session type, plus the signed-in user and the session rows it inserts.
  - It has the once-a-second tick, session completion, start/pause, reset and the Focus/Break selectors.
  - `formatTime` renders the seconds left as mm:ss.
- **The dashboard's arithmetic** (`Dashboard`).
  - The stress and energy levels are derived from a logged mood.
  - A mood is never logged without a user.
  - The seven-day mean mood, the journal count and the focus hours come from `loadStats`.
- **The insights page** (`Insights`).
  - `loadInsights` builds the mood history and averages the stress and energy levels.
  - `getMoodTrend` labels the trend improving, declining or stable.
  - It also computes the focus-hours figure.

`Common` holds what the pages share:
- an optional value, for anything that may be `null` or `undefined` (a query result, the signed-in user, an extracted content);
- the left-to-right sum of `reduce`;
- `Math.floor`, `Math.ceil`, `Math.round` and JavaScript's `%` of an integer quotient.

Modelling choices:
- The chat page is a class with the buffer, the reply and the message list as fields.
  - The streaming loop is a method with a loop, proved against the pure functions `CompleteLines`, `LastLine` and `Assembled` in `StreamLines`.
  - Ghost fields hold the text received so far and the lines processed so far. The invariant `Streaming` relates them to the buffer and the reply.
- `JSON.parse` plus the lookup of `choices[0].delta.content` is a function `Extractor` from payload to optional content, given when a chat is created.
  - A fragment is appended when the content is a non-empty string.
  - An `Extractor` answer of `Some("")` or `None` covers every falsy `content` and every parse error.
- `trim()` strips the ECMAScript white-space and line-terminator code points.
- The timer is a class. Each `setInterval` callback, and each effect run at zero, is one call of `Tick`. `Tick` completes a session in one step. `TickAsWritten` and `SessionCompleteAsWritten` model the page's completion as two steps around the awaited insert (see "## Findings").
- The chat's read loop is written twice: as the method `ChatSession.Chat.SendMessage` and as the function `StreamLines.Reassemble`. `SendMessage` ensures that the lines it processed and the buffer it leaves are those of `Reassemble`, so the chunking lemmas about the function apply to the method.
- `formatTime` follows JavaScript for every safe integer (magnitude below 2^53):
  - `Math.floor` for the minutes;
  - a `%` that keeps the dividend's sign;
  - `toString` with a minus sign;
  - `padStart(2, "0")`.
- `Math.round(a / b)` is the integer `(2a + b) div 2b`, since JavaScript rounds halves up. `Math.ceil(a / b)` is `-((-a) div b)`.
- In `getMoodTrend` the averages and the ±0.5 comparisons are on exact reals. A lemma restates them as integer cross-multiplication.

Servers end the stream with `data: [DONE]`. The code does not stop there. It skips that line with `continue` (pages/Chat.tsx:79) and goes on with any lines after it (`StreamLines.SkippedLine`).

## Model

| member | source | states |
|---|---|---|
| Common.Sum | irx_mmm_sourcecode/pipe1/src/pages/Dashboard.tsx:52 | the `reduce` sum from the left; it has no ensures of its own, and `SumBounds`, `SumNonNegative`, `SumConstant` and `SumAppend` state its properties |
| Common.FloorDiv | irx_mmm_sourcecode/pipe1/src/pages/Productivity.tsx:79 | `Math.floor(s / 60)` is the q with 60q <= s < 60(q + 1) |
| Common.JsRemainder | irx_mmm_sourcecode/pipe1/src/pages/Productivity.tsx:80 | for s >= 0, `s % 60` is in [0, 60) and completes the floor quotient |
| Common.CeilDiv | irx_mmm_sourcecode/pipe1/src/pages/Dashboard.tsx:66-67 | `Math.ceil(a / b)` for b > 0 is the least integer r with a <= b·r |
| Common.RoundDiv | irx_mmm_sourcecode/pipe1/src/pages/Dashboard.tsx:52 | `Math.round(a / b)` for b > 0 is the integer r with 2br <= 2a + b < 2b(r + 1) |
| Common.RoundDivIsRoundOfQuotient | irx_mmm_sourcecode/pipe1/src/pages/Dashboard.tsx:52 | that integer is floor(a/b + ½) on the exact quotient, i.e. `Math.round` |
| Common.RoundDivMonotone | irx_mmm_sourcecode/pipe1/src/pages/Dashboard.tsx:54 | rounding a quotient is monotone in the dividend |
| Common.RoundDivExact | irx_mmm_sourcecode/pipe1/src/pages/Dashboard.tsx:52 | an exact multiple k·b rounds to k |
| Common.SumBounds | irx_mmm_sourcecode/pipe1/src/pages/Dashboard.tsx:52 | a `reduce` sum of values in [lo, hi] lies in [n·lo, n·hi] |
| Common.SumNonNegative | irx_mmm_sourcecode/pipe1/src/pages/Dashboard.tsx:54 | a sum of non-negative durations is non-negative |
| Common.SumConstant | irx_mmm_sourcecode/pipe1/src/pages/Insights.tsx:70-71 | n equal values sum to n times the value |
| Common.SumAppend | irx_mmm_sourcecode/pipe1/src/pages/Dashboard.tsx:54 | the sum of a concatenation is the sum of the parts |
| StreamLines.Split | irx_mmm_sourcecode/pipe1/src/pages/Chat.tsx:73 | `split("\n")` gives at least one piece and no piece holds a newline |
| StreamLines.JoinSplit | irx_mmm_sourcecode/pipe1/src/pages/Chat.tsx:73 | joining the pieces with newlines gives back the text |
| StreamLines.SplitJoin | irx_mmm_sourcecode/pipe1/src/pages/Chat.tsx:73 | splitting newline-free pieces joined with newlines gives back the pieces |
| StreamLines.SplitNoNewline | irx_mmm_sourcecode/pipe1/src/pages/Chat.tsx:73 | text without a newline splits into itself alone |
| StreamLines.SplitAfterLine | irx_mmm_sourcecode/pipe1/src/pages/Chat.tsx:73 | a newline-free line followed by a newline is split off as the first piece |
| StreamLines.JoinIsTerminated | irx_mmm_sourcecode/pipe1/src/pages/Chat.tsx:73-74 | the joined pieces are the complete lines, each with its newline, followed by the last piece |
| StreamLines.TerminatedAppend | irx_mmm_sourcecode/pipe1/src/pages/Chat.tsx:76 | writing lines with their newlines distributes over concatenation |
| StreamLines.TextConserved | irx_mmm_sourcecode/pipe1/src/pages/Chat.tsx:72-74 | no text is lost: the complete lines, each followed by a newline, and then the kept last line give back the buffer, and neither holds a newline |
| StreamLines.LinesDetermined | irx_mmm_sourcecode/pipe1/src/pages/Chat.tsx:72-74 | the split into complete lines and a newline-free rest is unique |
| StreamLines.CarryOver | irx_mmm_sourcecode/pipe1/src/pages/Chat.tsx:72-74 | splitting the kept partial line plus the next chunk continues the split of the whole text |
| StreamLines.PartialTailIgnored | irx_mmm_sourcecode/pipe1/src/pages/Chat.tsx:69-74 | a trailing partial line adds no complete line and only extends the buffer, so it is never processed |
| StreamLines.ConcatAppend | irx_mmm_sourcecode/pipe1/src/pages/Chat.tsx:72 | the received text of two chunk runs is their concatenation |
| StreamLines.ReassembleIsSplit | irx_mmm_sourcecode/pipe1/src/pages/Chat.tsx:68-76 | after any chunk sequence the loop has handed on exactly the complete lines of the concatenated text and buffers its last line |
| StreamLines.FeedPreserves | irx_mmm_sourcecode/pipe1/src/pages/Chat.tsx:72-96 | one chunk keeps the buffer newline-free, keeps all text accounted for and extends the reply by the new lines' fragments |
| StreamLines.ChunkingIrrelevant | irx_mmm_sourcecode/pipe1/src/pages/Chat.tsx:68-76 | two chunkings of the same text give the same lines and the same buffer |
| StreamLines.TrimStartSpec | irx_mmm_sourcecode/pipe1/src/pages/Chat.tsx:78 | trimming the start drops a white-space prefix and leaves a suffix that starts with non-white-space |
| StreamLines.TrimEndSpec | irx_mmm_sourcecode/pipe1/src/pages/Chat.tsx:78 | trimming the end drops a white-space suffix and leaves a prefix that ends with non-white-space |
| StreamLines.TrimEnds | irx_mmm_sourcecode/pipe1/src/pages/Chat.tsx:78 | `trim()` leaves no white space at either end |
| StreamLines.TrimSpec | irx_mmm_sourcecode/pipe1/src/pages/Chat.tsx:78 | `trim()` is a slice of the text with only white space cut off on each side |
| StreamLines.TrimSurrounded | irx_mmm_sourcecode/pipe1/src/pages/Chat.tsx:78 | white space around a core with non-white-space ends trims to that core |
| StreamLines.CompleteLines | irx_mmm_sourcecode/pipe1/src/pages/Chat.tsx:73-74 | the lines before the last piece of `split("\n")`; no ensures of its own: `TextConserved`, `LinesDetermined`, `CarryOver` and `PartialTailIgnored` state its properties |
| StreamLines.LastLine | irx_mmm_sourcecode/pipe1/src/pages/Chat.tsx:74 | `lines.pop()`, the kept partial line; no ensures of its own: `TextConserved` and `PartialTailIgnored` state it is newline-free and extended by a partial tail |
| StreamLines.Reassemble | irx_mmm_sourcecode/pipe1/src/pages/Chat.tsx:68-76 | the read loop as a fold over chunks; no ensures of its own: `ReassembleIsSplit` and `ChunkingIrrelevant` state its properties, and `ChatSession.Chat.SendMessage` ensures its loop agrees with it |
| StreamLines.TrimStart | irx_mmm_sourcecode/pipe1/src/pages/Chat.tsx:78 | the leading half of `trim()`; no ensures of its own: `TrimStartSpec` states it |
| StreamLines.TrimEnd | irx_mmm_sourcecode/pipe1/src/pages/Chat.tsx:78 | the trailing half of `trim()`; no ensures of its own: `TrimEndSpec` states it |
| StreamLines.Trim | irx_mmm_sourcecode/pipe1/src/pages/Chat.tsx:78 | `trim()`; no ensures of its own: `TrimEnds`, `TrimSpec` and `TrimSurrounded` state its properties |
| StreamLines.IsDataLine | irx_mmm_sourcecode/pipe1/src/pages/Chat.tsx:77 | `line.startsWith("data: ")`; a predicate with no ensures, used by `DataLinePayload` and `SkippedLine` |
| StreamLines.Payload | irx_mmm_sourcecode/pipe1/src/pages/Chat.tsx:78 | `line.slice(6).trim()`; no ensures of its own: `DataLinePayload` states it |
| StreamLines.Fragment | irx_mmm_sourcecode/pipe1/src/pages/Chat.tsx:77-94 | the text one line adds; no ensures of its own: `SkippedLine` and `ContentLine` state each case |
| StreamLines.Assembled | irx_mmm_sourcecode/pipe1/src/pages/Chat.tsx:85 | the reply from a sequence of lines; no ensures of its own: `AssembledSnoc`, `AssembledAppend` and `EventStreamAssembles` state its properties |
| StreamLines.Fragments | irx_mmm_sourcecode/pipe1/src/pages/Chat.tsx:76-96 | one fragment per complete line |
| StreamLines.AssembledSnoc | irx_mmm_sourcecode/pipe1/src/pages/Chat.tsx:85 | one more line extends the reply by its fragment |
| StreamLines.AssembledAppend | irx_mmm_sourcecode/pipe1/src/pages/Chat.tsx:47 | the reply only grows: the reply of earlier lines is a prefix of the reply after more lines |
| StreamLines.SkippedLine | irx_mmm_sourcecode/pipe1/src/pages/Chat.tsx:77-94 | non-`data: ` lines, `[DONE]` and unparsable or content-less payloads add nothing, and the lines after them are still processed |
| StreamLines.ContentLine | irx_mmm_sourcecode/pipe1/src/pages/Chat.tsx:81-85 | a data payload with content adds exactly that content in place |
| StreamLines.DataLinePayload | irx_mmm_sourcecode/pipe1/src/pages/Chat.tsx:77-78 | `data: ` followed by a payload with non-white-space ends is a data line carrying that payload |
| StreamLines.EventStreamAssembles | irx_mmm_sourcecode/pipe1/src/pages/Chat.tsx:68-96 | two content frames, blank separator lines and `[DONE]`, chunked in any way, give those six lines, an empty buffer and a reply of both contents in order |
| ChatSession.Chat.constructor | irx_mmm_sourcecode/pipe1/src/pages/Chat.tsx:20-22 | a chat starts with no messages, an empty input and no request in flight |
| ChatSession.Chat.SetInput | irx_mmm_sourcecode/pipe1/src/pages/Chat.tsx:163 | the input field holds the typed text |
| ChatSession.Chat.Begin | irx_mmm_sourcecode/pipe1/src/pages/Chat.tsx:40-57 | a blank input or a request in flight changes nothing; otherwise exactly the user turn and an empty assistant placeholder are appended, the input is cleared and the request holds the earlier messages and the user turn |
| ChatSession.Chat.ConsumeChunk | irx_mmm_sourcecode/pipe1/src/pages/Chat.tsx:72-96 | the buffer becomes the text after the last newline of buffer + chunk, the complete lines are processed in order, the reply grows by their fragments and all text stays accounted for |
| ChatSession.Chat.ProcessLines | irx_mmm_sourcecode/pipe1/src/pages/Chat.tsx:76-96 | the reply grows by the lines' fragments and only the last message changes, to the reply |
| ChatSession.Chat.Fail | irx_mmm_sourcecode/pipe1/src/pages/Chat.tsx:98-103 | the last message, the placeholder, is removed, leaving the messages before it, and the request is over |
| ChatSession.Chat.Finish | irx_mmm_sourcecode/pipe1/src/pages/Chat.tsx:101-103 | the request is over |
| ChatSession.Chat.SendMessage | irx_mmm_sourcecode/pipe1/src/pages/Chat.tsx:39-104 | for a streamed reply the messages end with the user turn and the reply assembled from the complete lines of all received text, and the partial tail stays in the buffer; on rejection or a failed read only the user turn was added; for any stream the processed lines and the buffer are those of `Reassemble` on the chunks |
| Pomodoro.FocusRecord | irx_mmm_sourcecode/pipe1/src/pages/Productivity.tsx:50-58 | a completed focus session is recorded as 25 completed minutes with the task or "Focus session" |
| Pomodoro.Timer.constructor | irx_mmm_sourcecode/pipe1/src/pages/Productivity.tsx:15-18 | the timer starts in focus with 1500 seconds, not running |
| Pomodoro.Timer.SignIn | irx_mmm_sourcecode/pipe1/src/pages/Productivity.tsx:21-29 | the session's user is known and the timer invariant is kept |
| Pomodoro.Timer.SetTaskDescription | irx_mmm_sourcecode/pipe1/src/pages/Productivity.tsx:132 | the task field holds the typed text and the timer invariant is kept |
| Pomodoro.Timer.SessionComplete | irx_mmm_sourcecode/pipe1/src/pages/Productivity.tsx:47-67 | the timer stops, the type flips, 300 s follow a focus session and 1500 s a break, and only a focus session with a user adds one record; this is the completion in one step, corrected as under "## Findings" |
| Pomodoro.Timer.Tick | irx_mmm_sourcecode/pipe1/src/pages/Productivity.tsx:31-45 | while running with time left exactly one second goes, paused with time left nothing changes, at zero the session completes, and the time never goes negative; a step adds at most one record, and after one it leaves a stopped break with 300 s, so the next step cannot record again |
| Pomodoro.Timer.SessionCompleteAsWritten | irx_mmm_sourcecode/pipe1/src/pages/Productivity.tsx:47-67 | as written: the timer stops; a user's focus session sends its insert and keeps the type and the 0 s until it settles; otherwise the completion is whole at once |
| Pomodoro.Timer.InsertSettled | irx_mmm_sourcecode/pipe1/src/pages/Productivity.tsx:60-66 | after the awaited insert the call that saw focus sets a break with 300 s |
| Pomodoro.Timer.TickAsWritten | irx_mmm_sourcecode/pipe1/src/pages/Productivity.tsx:31-45 | the effect step completing as written: at 0 in a user's focus session it sends an insert and leaves a stopped timer at 0 in focus; at 0 in a break, or in focus without a user, it stops, flips the type and sets the new type's full length with no record, as the completion without an awaited insert does |
| Pomodoro.DoubleInsertAsWritten | irx_mmm_sourcecode/pipe1/src/pages/Productivity.tsx:31-67 | as written, a signed-in user's focus session run down from 1500 s inserts two identical rows, then ends in a break with 300 s |
| Pomodoro.SingleInsert | irx_mmm_sourcecode/pipe1/src/pages/Productivity.tsx:31-67 | with one-step completion the same run inserts exactly one row and ends in a break with 300 s |
| Pomodoro.Timer.Toggle | irx_mmm_sourcecode/pipe1/src/pages/Productivity.tsx:69-71 | the running flag flips, nothing else changes and the timer invariant is kept |
| Pomodoro.Timer.Reset | irx_mmm_sourcecode/pipe1/src/pages/Productivity.tsx:73-76 | the timer stops with the full length of the current type |
| Pomodoro.Timer.SelectFocus | irx_mmm_sourcecode/pipe1/src/pages/Productivity.tsx:100-104 | the timer stops in focus with 1500 s |
| Pomodoro.Timer.SelectBreak | irx_mmm_sourcecode/pipe1/src/pages/Productivity.tsx:111-115 | the timer stops in a break with 300 s |
| Pomodoro.Decimal | irx_mmm_sourcecode/pipe1/src/pages/Productivity.tsx:81 | the digits `toString` writes for a natural number; no ensures of its own: `DecimalDigits` states them |
| Pomodoro.IntToString | irx_mmm_sourcecode/pipe1/src/pages/Productivity.tsx:81 | `toString` of an integer, with a leading '-' for a negative one; no ensures of its own: `DecimalDigits` and `FormatTimeMinusOne` state it |
| Pomodoro.PadStart2 | irx_mmm_sourcecode/pipe1/src/pages/Productivity.tsx:81 | `padStart(2, "0")`; no ensures of its own: `LeadingZero` and `PaddedDecimal` state it |
| Pomodoro.FormatTime | irx_mmm_sourcecode/pipe1/src/pages/Productivity.tsx:78-82 | `formatTime`; no ensures of its own: `FormatTimeRoundTrip`, `FormatTimeShape` and `FormatTimeMinusOne` state its properties |
| Pomodoro.ColonAt | irx_mmm_sourcecode/pipe1/src/pages/Productivity.tsx:81 | finds the first ':' of a rendering, or reports there is none |
| Pomodoro.DecimalDigits | irx_mmm_sourcecode/pipe1/src/pages/Productivity.tsx:81 | `toString` of a natural number is a non-empty digit string whose value is the number, one digit below 10 and two below 100 |
| Pomodoro.LeadingZero | irx_mmm_sourcecode/pipe1/src/pages/Productivity.tsx:81 | the zero added by `padStart` does not change the value |
| Pomodoro.PaddedDecimal | irx_mmm_sourcecode/pipe1/src/pages/Productivity.tsx:81 | a padded number is at least two digits with the same value, exactly two below 100 |
| Pomodoro.FormatTimeRoundTrip | irx_mmm_sourcecode/pipe1/src/pages/Productivity.tsx:78-82 | for s >= 0, reading the mm:ss rendering back gives s |
| Pomodoro.FormatNonNegative | irx_mmm_sourcecode/pipe1/src/pages/Productivity.tsx:78-82 | for a non-negative count the rendering has no sign: the padded digits of the quotient and the remainder by 60, joined by ':' |
| Pomodoro.ColonAfterDigits | irx_mmm_sourcecode/pipe1/src/pages/Productivity.tsx:81 | in digits followed by ':' the first ':' is the one after the digits, so the minutes part of the rendering cannot be mistaken |
| Pomodoro.ParseJoined | irx_mmm_sourcecode/pipe1/src/pages/Productivity.tsx:81 | two non-empty digit strings joined by ':' read back as minutes·60 + seconds |
| Pomodoro.FormatTimeShape | irx_mmm_sourcecode/pipe1/src/pages/Productivity.tsx:78-82 | below 6000 s (so for every timer value) the rendering is exactly five characters, two digits ':' two digits, with seconds below 60 and minutes·60 + seconds = s |
| Pomodoro.FormatTimeMinusOne | irx_mmm_sourcecode/pipe1/src/pages/Productivity.tsx:78-82 | a negative input keeps JavaScript's signs: -1 renders as "-1:-1" |
| Dashboard.StressLevel | irx_mmm_sourcecode/pipe1/src/pages/Dashboard.tsx:66 | the stress level is the least integer not below (11 - mood)/2 |
| Dashboard.EnergyLevel | irx_mmm_sourcecode/pipe1/src/pages/Dashboard.tsx:67 | the energy level is the least integer not below mood/2 |
| Dashboard.LevelsInRange | irx_mmm_sourcecode/pipe1/src/pages/Dashboard.tsx:66-67 | for moods 1..10 both levels lie in 1..5 |
| Dashboard.LevelsMonotone | irx_mmm_sourcecode/pipe1/src/pages/Dashboard.tsx:66-67 | stress does not increase and energy does not decrease as mood rises |
| Dashboard.LevelsComplementary | irx_mmm_sourcecode/pipe1/src/pages/Dashboard.tsx:66-67 | stress + energy = 6 for every mood |
| Dashboard.LogMood | irx_mmm_sourcecode/pipe1/src/pages/Dashboard.tsx:58-68 | nothing is logged exactly when there is no user; otherwise the entry has the user, the mood, and the stress and energy levels `StressLevel(mood)` and `EnergyLevel(mood)`, which lie in 1..5 for moods 1..10 and sum to 6 |
| Dashboard.MoodAverage | irx_mmm_sourcecode/pipe1/src/pages/Dashboard.tsx:52 | 0 without logs; otherwise the rounded mean, within half a point of the exact mean |
| Dashboard.MoodAverageBetween | irx_mmm_sourcecode/pipe1/src/pages/Dashboard.tsx:52 | the rounded mean lies between any bounds of the scores, so between their minimum and maximum |
| Dashboard.MoodAverageRoundsMean | irx_mmm_sourcecode/pipe1/src/pages/Dashboard.tsx:52 | the mean mood is `Math.round` of the exact mean |
| Dashboard.JournalCount | irx_mmm_sourcecode/pipe1/src/pages/Dashboard.tsx:53 | the number of entries, 0 when the data is absent |
| Dashboard.FocusTime | irx_mmm_sourcecode/pipe1/src/pages/Dashboard.tsx:54 | 0 hours when the data is absent or empty |
| Dashboard.FocusTimeRounds | irx_mmm_sourcecode/pipe1/src/pages/Dashboard.tsx:54 | the hours are the total minutes rounded to the nearest hour, and more sessions never give fewer hours |
| Dashboard.LoadStats | irx_mmm_sourcecode/pipe1/src/pages/Dashboard.tsx:51-55 | the three figures are the mean mood, the journal count and the focus time of the three results |
| Dashboard.StatsInRange | irx_mmm_sourcecode/pipe1/src/pages/Dashboard.tsx:51-55 | scores on 1..10 give a mean on 1..10, no logs give 0, and non-negative durations give non-negative hours |
| Insights.Average | irx_mmm_sourcecode/pipe1/src/pages/Insights.tsx:47-50 | dividing by `length \|\| 1` makes the average of no logs 0 |
| Insights.StressValues | irx_mmm_sourcecode/pipe1/src/pages/Insights.tsx:48 | one value per log, its stress level or 0 when absent |
| Insights.EnergyValues | irx_mmm_sourcecode/pipe1/src/pages/Insights.tsx:50 | one value per log, its energy level or 0 when absent |
| Insights.TrendPoints | irx_mmm_sourcecode/pipe1/src/pages/Insights.tsx:53-56 | the history has one point per log, in order, with its date label and score |
| Insights.InitialStateStable | irx_mmm_sourcecode/pipe1/src/pages/Insights.tsx:11-16 | the initial state, kept by a load without mood data, is an empty history labelled stable with zero averages and no sessions |
| Insights.LoadInsights | irx_mmm_sourcecode/pipe1/src/pages/Insights.tsx:46-60 | without mood data the state is unchanged; otherwise the history has the logs' length, order and scores, the levels are averaged, and the session count is the number of rows or 0 |
| Insights.AverageBetween | irx_mmm_sourcecode/pipe1/src/pages/Insights.tsx:47-50 | an average of values in [lo, hi] lies in [lo, hi] |
| Insights.LoggedLevelsInRange | irx_mmm_sourcecode/pipe1/src/pages/Insights.tsx:108 | logs written by the dashboard for moods 1..10 average to stress and energy in [1, 5], matching the "/5" display |
| Insights.Moods | irx_mmm_sourcecode/pipe1/src/pages/Insights.tsx:70-71 | the scores of the history, one per point in order |
| Insights.Recent | irx_mmm_sourcecode/pipe1/src/pages/Insights.tsx:66 | `slice(-7)` is the last min(n, 7) scores |
| Insights.OrZero | irx_mmm_sourcecode/pipe1/src/pages/Insights.tsx:48 | `x \|\| 0` for a nullable level; no ensures of its own: `StressValues` and `EnergyValues` state it per log |
| Insights.FirstHalf | irx_mmm_sourcecode/pipe1/src/pages/Insights.tsx:67 | `slice(0, Math.ceil(length / 2))`; no ensures of its own: `HalvesNonEmpty` states its length |
| Insights.SecondHalf | irx_mmm_sourcecode/pipe1/src/pages/Insights.tsx:68 | `slice(Math.ceil(length / 2))`; no ensures of its own: `HalvesNonEmpty` states it is the rest |
| Insights.Mean | irx_mmm_sourcecode/pipe1/src/pages/Insights.tsx:70-71 | the exact mean of a half; no ensures of its own: `CompareMeans` relates it to the integer sums |
| Insights.Classify | irx_mmm_sourcecode/pipe1/src/pages/Insights.tsx:67-75 | the ±0.5 comparison of the halves' means; no ensures of its own: `ClassifyCrossMultiplied` and `ConstantHalvesBalanced` state it |
| Insights.MoodTrend | irx_mmm_sourcecode/pipe1/src/pages/Insights.tsx:64-76 | `getMoodTrend`; no ensures of its own: `FewPointsStable`, `TrendCrossMultiplied`, `ConstantScoresStable` and `OnlyLastSevenMatter` state its properties |
| Insights.HalvesNonEmpty | irx_mmm_sourcecode/pipe1/src/pages/Insights.tsx:67-68 | from two scores on, both halves are non-empty, the first has ceil(m/2) and together they are the list, so no division by zero occurs |
| Insights.FewPointsStable | irx_mmm_sourcecode/pipe1/src/pages/Insights.tsx:65 | fewer than two points give "stable" |
| Insights.ClassifyCrossMultiplied | irx_mmm_sourcecode/pipe1/src/pages/Insights.tsx:70-75 | "improving" iff 2·S2·n1 > 2·S1·n2 + n1·n2, "declining" iff 2·S2·n1 < 2·S1·n2 − n1·n2, otherwise "stable" |
| Insights.TrendCrossMultiplied | irx_mmm_sourcecode/pipe1/src/pages/Insights.tsx:64-76 | the same threshold rule for the label of a whole history |
| Insights.CompareMeans | irx_mmm_sourcecode/pipe1/src/pages/Insights.tsx:73-74 | comparing two means with a ±0.5 margin is the same as the cross-multiplied integer comparison, in both directions |
| Insights.ConstantScoresStable | irx_mmm_sourcecode/pipe1/src/pages/Insights.tsx:64-76 | all-equal scores give "stable" |
| Insights.ConstantHalvesBalanced | irx_mmm_sourcecode/pipe1/src/pages/Insights.tsx:67-75 | equal scores meet neither threshold |
| Insights.OnlyLastSevenMatter | irx_mmm_sourcecode/pipe1/src/pages/Insights.tsx:66 | from seven points on, earlier points do not change the label |
| Insights.RaisingLaterScoreNeverWorsens | irx_mmm_sourcecode/pipe1/src/pages/Insights.tsx:70-75 | raising a score in the second half keeps "improving" and cannot create "declining" |
| Insights.SumUpdate | irx_mmm_sourcecode/pipe1/src/pages/Insights.tsx:71 | replacing one score changes the sum by the difference |
| Insights.FocusHours | irx_mmm_sourcecode/pipe1/src/pages/Insights.tsx:149 | round(sessions·25/60) is the h with 120h <= 50·sessions + 60 < 120(h + 1) |
| Insights.FocusHoursAgreeWithDashboard | irx_mmm_sourcecode/pipe1/src/pages/Insights.tsx:149 | the figure is `Math.round` of the exact quotient and equals the dashboard's focus time over that many 25-minute sessions |

## Findings

| source | as written | input that shows it | evidently intended | confidence | as-written member | corrected member |
|---|---|---|---|---|---|---|
| irx_mmm_sourcecode/pipe1/src/pages/Productivity.tsx:47-67 | `handleSessionComplete` stops the timer and then awaits the insert before it flips the type and sets the time. The stop is rendered at 0 s in focus, which re-runs the effect on `[isRunning, timeLeft]`, and its `timeLeft === 0` branch calls `handleSessionComplete` again | a signed-in user's focus session run down from 1500 s | one completed focus session inserts one row and shows one toast; `Pomodoro.SingleInsert` proves one row for the same run | not executed; assumes React renders the stop before the insert settles | Pomodoro.DoubleInsertAsWritten | Pomodoro.Timer.Tick |

The rest of the model uses the one-step completion (`Pomodoro.Timer.SessionComplete`, called by `Pomodoro.Timer.Tick`).

## Left out

- The byte-level UTF-8 decoding of `TextDecoder` with `stream: true` is not modelled: chunks are already-decoded strings.
- `JSON.parse` and the optional-chained lookup of `choices[0].delta.content` are the `Extractor` parameter. A `content` that is a non-string value is outside the model.
- `fetch`, the reader, the HTTP status check, the Supabase queries, inserts and auth calls, `toast` and navigation are I/O. They become:
  - the `Response` value, with a rejected request standing for any throw before reading;
  - `Timer.SignIn` and the optional user;
  - the list of inserted session records.
  An insert's own success or failure is not modelled, because the page ignores it.
- `Date.now`, `toISOString`, the 7- and 30-day windows and the ordering by `created_at` are done by the database queries. The rows arrive as the model's inputs. `toLocaleDateString` is the `dateLabel` parameter.
- `toFixed(1)` of the averages is float-to-string formatting and is left out. The averages are exact reals, not IEEE doubles.
- `setInterval`/`useEffect` timing and React's batching of state updates are left out. Each tick, and each effect run at zero, is one call of `Pomodoro.Timer.Tick` (or `Pomodoro.Timer.TickAsWritten`). The only interleaving modelled is the settling of the awaited insert (`Pomodoro.Timer.InsertSettled`), placed after the effect's second run.
- The rendering of the pages, the dashboard's and insights' auth effects, the journal analysis function and the other pages (authentication, profile, journal, landing, navigation, mood selector) are not part of this model.
- Pomodoro.FormatTime: integers are exact. Beyond 2^53 in magnitude, the page's floating-point quotient `seconds / 60` is no longer the exact floor, and from 1e21 `toString` uses exponent notation. Neither is modelled.
- The toasts of `handleSessionComplete` are not modelled, so the second toast of the double completion is not shown in the model, only its second row.
- Pomodoro.FormatTimeRoundTrip: the parse-back round trip is proved for s >= 0 only. For negative inputs, which the timer never produces, the rendering carries minus signs (see `Pomodoro.FormatTimeMinusOne`).
