# Lyric timing in the music player, in Dafny

This project models the lyric-timing core of the player's `script.js`:

- **reading LRC text** (`parseLrc`): split the text on line feeds, look for the pattern `[MM:SS.ss]text` in each line, keep the lines that match, and stable-sort them by time;
- **the manual sync session of the lyric lab**:
  - the pasted lyrics become a list of trimmed, non-empty raw lines;
  - each tap stamps the next line with the current playback time;
  - restart throws the stamps away;
  - once every line is stamped, `finishGen` makes the stamps the lyrics being played and writes them out as LRC text;
- **the lab display** (`updateLabDisplay`): the previous, current and next line around the cursor, and the progress bar;
- **the active-line lookup** of the playback loop: the last entry in list order whose time has been reached.

Times are exact non-negative reals (`Timeline.Seconds`). The writer's `Math.floor`, `% 60`, `toFixed(2)` and `padStart` are written out on them, so rounding is exact: `toFixed(2)` rounds halves up (`JsText.Centi`).

The modules are:

- `JsText`: the string primitives the core relies on: `trim`, `split('\n')`, decimal digits, `padStart` and `toFixed(2)`.
- `Timeline`: the timed line and the stable sort by time.
- `LrcFormat`: the regular expression, `parseLrc` and the writer loop of `finishGen`.
- `LrcRoundTrip`: what reading the written text gives back.
- `ActiveLine`: the lookup during playback.
- `SyncSession`: the session state as a class `Studio`. Its fields are the four globals `parsedLyrics`, `rawLines`, `syncIndex` and `generatedLyrics`. The methods update them in place.

Main results:

- **Round trip** (`LrcRoundTrip.RoundTrip`, `LrcRoundTrip.ExactRoundTrip`): reading back the written LRC text of a time-sorted list gives the same lines in the same order, each time rounded half-up to hundredths. For this, every entry must be under 100 minutes and its text must be trimmed and free of line terminators. When the times are already whole hundredths, the list comes back unchanged. A completed sync session therefore saves text that reads back as its lines (`SyncSession.CompletedSessionReadsBack`).
- **What the reader accepts and drops**:
  - the pattern is found anywhere in a line;
  - a line without a match is dropped;
  - a stamp with three or more minute digits (100 minutes and over) does not match, so the writer's own line for such an entry is dropped on reading when its text holds no `[` (`LrcRoundTrip.LongLineDropped`). When the text does hold a stamp, that inner stamp is read instead;
  - `(.*)` stops at `\r`, U+2028 and U+2029 as well as `\n`, so a text with such a character comes back cut at the first one (`LrcRoundTrip.TerminatorCutsText`).
- **The lookup** (`ActiveLine.ActiveIsLastReached`): the lookup shows the entry at the largest index whose time is at most the playback position. Of two entries with equal times, the later one in the list is shown.
- **The session** (`SyncSession.Studio`): stamps the raw lines one by one, in order, and keeps the invariant "one stamp per line passed, carrying that line's text".

Behaviour of script.js worth spelling out:

- **Pattern position**: the pattern is not anchored to the start of a line. `line.match` finds it at its leftmost position (`LrcFormat.FirstMatch`).
- **Taps after completion**: a tap after every line has been stamped still does something. It runs `finishGen` again, which sets the lyrics being played back to the stamps and saves the LRC text again. The stamps and the cursor stay as they are (`SyncSession.Studio.RecordTimestamp`).
- **Starting a session**: start is refused when no audio is loaded or the trimmed lyrics text is blank. There is no separate check for an empty line list, and none is needed: non-blank text always gives at least one raw line (`SyncSession.StartGivesLines`).
- **Completion**: there is no separate operation that completes a session. `finishGen` runs by itself on the tap that stamps the last line.
- **No completion screen**: `updateLabDisplay` is called only while lines remain (script.js:351, script.js:395). The last tap runs `finishGen` instead, which hides the lab (script.js:417), so the COMPLETE branch of `updateLabDisplay` is never on screen. `SyncSession.Studio.RecordTimestamp` states the display only for taps that leave lines to stamp.
- **Text read back**: lyric text comes back trimmed and cut at the first line terminator, and lines at 100 minutes or later are lost when their text holds no `[` (see above).

## Model

| member | source | states |
|---|---|---|
| JsText.TrimStart | script.js:277 | never lengthens; `JsText.TrimStartSpec` states its contract |
| JsText.TrimEnd | script.js:277 | never lengthens; `JsText.TrimEndSpec` states its contract |
| JsText.Trim | script.js:277 | `trim`; `JsText.TrimSpec` states its contract |
| JsText.JoinLines | script.js:275 | the inverse of the `split('\n')` on this line, used to state split's contract; `JsText.JoinSplit` and `JsText.SplitJoin` state its contract |
| JsText.DecimalValue | script.js:277 | `parseInt` of a digit string; `JsText.DecimalRoundTrip` states its contract |
| JsText.CentiText | script.js:407 | a hundredths count with a point before its last two digits; `JsText.CentiTextValue` states its contract |
| JsText.ToFixed2 | script.js:407 | `toFixed(2)`; `JsText.Centi` and `JsText.CentiTextValue` state its contract |
| JsText.TrimStartSpec | script.js:277 | trimStart removes exactly the longest all-whitespace prefix |
| JsText.TrimEndSpec | script.js:277 | trimEnd removes exactly the longest all-whitespace suffix |
| JsText.TrimSpec | script.js:346 | trim leaves no whitespace at either end, gives "" exactly for all-whitespace input, and leaves a trimmed string alone |
| JsText.NewlineIndex | script.js:275 | the index of the first line feed, or the length when there is none |
| JsText.SplitLines | script.js:275 | `split('\n')` gives at least one piece, and no piece holds a line feed |
| JsText.JoinSplit | script.js:275 | joining the pieces of a split with line feeds gives the text back |
| JsText.SplitJoin | script.js:275 | splitting a join of line-feed-free pieces gives the pieces back |
| JsText.NatToDecimal | script.js:406 | `toString()` of a count is digits with no leading zero, with 1, 2 or 3+ digits by magnitude |
| JsText.DecimalRoundTrip | script.js:277 | `parseInt` of `toString()` gives the number back |
| JsText.PadStart | script.js:406-407 | `padStart` yields the larger of the width and the input length |
| JsText.PadStartSpec | script.js:406-407 | `padStart` keeps the input as a suffix and fills only with the pad character |
| JsText.Centi | script.js:407 | `toFixed(2)` picks the hundredths count nearest to 100x, halves rounding up |
| JsText.CentiTextValue | script.js:407 | the `toFixed(2)` text is digits, a point and two digits, spelling exactly the rounded hundredths count |
| JsText.SecondsField | script.js:407 | the seconds field padded to width 5 is two digits, a point and two digits |
| JsText.MinutesField | script.js:406 | a minute count under 100 is written as exactly two digits |
| JsText.Digits4Value | script.js:407 | the four digits of the seconds field read back as the hundredths count |
| Timeline.InsertByTime | script.js:279 | one insertion step of the stable sort; `Timeline.InsertSpec` and `Timeline.InsertKeepsTies` state its contract |
| Timeline.SortByTime | script.js:279 | the stable sort by time; `Timeline.SortByTimeSpec` states its contract |
| Timeline.AtTime | script.js:279 | the entries at one time, in list order: exactly the members with that time |
| Timeline.InsertSpec | script.js:279 | inserting one entry into a sorted list keeps it sorted and adds exactly that entry |
| Timeline.InsertKeepsTies | script.js:279 | the inserted entry goes after every entry with the same time |
| Timeline.InsertAtEnd | script.js:279 | an entry no earlier than every entry is appended |
| Timeline.SortByTimeSpec | script.js:279 | the sort yields a sorted permutation and keeps the relative order of equal times (stable) |
| Timeline.SortSortedIsIdentity | script.js:279 | sorting an already sorted list changes nothing |
| LrcFormat.DigitRunEnd | script.js:274 | `\d*` takes the longest run of digits |
| LrcFormat.UpToLineTerminator | script.js:274 | `(.*)` captures the longest prefix free of line terminators |
| LrcFormat.MatchAt | script.js:274 | a match at a position starts with `[`, captures two minute digits and a seconds group of the pattern's shape, and a rest without line terminators |
| LrcFormat.MatchAtSpec | script.js:274 | the matcher matches at a position exactly where the pattern occurs there (`PatternAt`), and captures the two digits, the seconds group and the rest after `]` up to a line terminator |
| LrcFormat.FirstMatchSpec | script.js:276 | `match` finds nothing exactly when the pattern occurs nowhere in the line; otherwise it finds the leftmost occurrence, with that occurrence's groups |
| LrcFormat.StampTime | script.js:277 | `parseInt(m[1])*60 + parseFloat(m[2])` for an occurrence of the pattern: a non-negative time; `ParsedEntry` states it |
| LrcFormat.ParseLine | script.js:276-277 | one line of `parseLrc`; `LrcRoundTrip.ParsedEntry` states its contract |
| LrcFormat.Matched | script.js:275-278 | the `map`/`filter` stage; `LrcRoundTrip.MatchedMembers` and `LrcRoundTrip.MatchedAppend` state its contract |
| LrcFormat.ParseLrc | script.js:273-279 | `parseLrc`; `LrcRoundTrip.ParseLrcOrder`, `LrcRoundTrip.ParseWritten` and `LrcRoundTrip.UnsortedFileExample` state its contract |
| LrcFormat.Stamp | script.js:406-408 | the `[MM:SS.ss]` stamp; `LrcRoundTrip.ShortStamp`, `LrcRoundTrip.LongMinutes` and `LrcRoundTrip.StampChars` state its contract |
| LrcFormat.LrcBody | script.js:408 | one written line; `LrcRoundTrip.LineRoundTrip` states its contract |
| LrcFormat.Lines | script.js:404-409 | the line-feed-ended concatenation; `LrcRoundTrip.LinesIsJoin` states its contract |
| LrcFormat.LrcText | script.js:404-409 | the written text; `LrcFormat.BuildLrc`, `LrcRoundTrip.SplitWritten` and `LrcRoundTrip.RoundTrip` state its contract |
| LrcFormat.FirstMatch | script.js:276 | `match` returns the leftmost matching position, and none exactly when no position matches |
| LrcFormat.SecondsValue | script.js:277 | `parseFloat` of the seconds group is non-negative |
| LrcFormat.Minutes | script.js:406 | `Math.floor(time / 60)`: the whole minutes of the time |
| LrcFormat.SecondsInMinute | script.js:407 | `time % 60` is below 60 |
| LrcFormat.Bodies | script.js:405-408 | one written line per entry, in the given order |
| LrcFormat.BuildLrc | script.js:404-409 | the loop accumulates each entry's line and a line feed, in order |
| LrcRoundTrip.ParseLrcOrder | script.js:273-279 | `parseLrc` returns a sorted permutation of the matching lines' entries, with equal times in line order |
| LrcRoundTrip.MatchedMembers | script.js:275-278 | an entry is kept exactly when some line parses to it |
| LrcRoundTrip.MatchedAppend | script.js:275-278 | the `map`/`filter` stage works line by line |
| LrcRoundTrip.ParsedEntry | script.js:276-277 | a line gives no entry exactly when the pattern occurs nowhere in it; otherwise the entry comes from the leftmost occurrence: its time is the minutes times 60 plus the seconds spelled there, and its text is what follows `]` up to a line terminator, trimmed |
| LrcRoundTrip.NoBracketNoEntry | script.js:274-277 | a line without `[` gives no entry |
| LrcRoundTrip.NoBracketNoLyrics | script.js:273-279 | text without `[` gives no lyrics |
| LrcRoundTrip.NothingMatched | script.js:275-278 | when no line matches, nothing is kept |
| LrcRoundTrip.EmptyAndGarbage | script.js:273-279 | the empty text and a line with no timestamp give no lyrics |
| LrcRoundTrip.MatchWritten | script.js:274-276 | a line starting with a written stamp matches at position 0, capturing its fields |
| LrcRoundTrip.MatchAtWritten | script.js:274 | the pattern matches a written stamp at its own position |
| LrcRoundTrip.ParseShortStamped | script.js:276-277 | a line starting with a written stamp parses to the stamp's value and the trimmed text up to the first line terminator |
| LrcRoundTrip.ParseShortStampedOneLine | script.js:276-277 | such a line with a trimmed, one-line text gives that text back |
| LrcRoundTrip.ShortSecondsValue | script.js:277 | a written seconds field is whole seconds plus hundredths |
| LrcRoundTrip.LongMinutes | script.js:406 | a time of 100 minutes or more is written with three or more minute digits |
| LrcRoundTrip.StampChars | script.js:406-408 | a written stamp holds `[` only at its start and no line feed |
| LrcRoundTrip.PadStampChars | script.js:406-407 | zero padding keeps a field made of digits and points |
| LrcRoundTrip.CentiTextChars | script.js:407 | the `toFixed(2)` text is made of digits and a point |
| LrcRoundTrip.LongLineDropped | script.js:274-277 | the written line of an entry at 100 minutes or later, whose text holds no `[`, gives no entry on reading |
| LrcRoundTrip.RoundToCenti | script.js:406-407 | what reading back gives for a written time: within half a hundredth of it |
| LrcRoundTrip.CentiSplit | script.js:406-407 | the minutes and the rounded seconds field together spell the rounded time |
| LrcRoundTrip.ShortStamp | script.js:406-408 | under 100 minutes the stamp is `[MM:SS.ss]`, and it reads back as the time rounded to hundredths |
| LrcRoundTrip.MinutesValue | script.js:277 | `parseInt` of the two-digit minute field is the minute count |
| LrcRoundTrip.LineRoundTrip | script.js:406-408 | a written line of a writable entry reads back as the entry with its time rounded |
| LrcRoundTrip.TerminatorCutsText | script.js:274-277 | a written line whose text holds a line terminator reads back with the text cut at the first one |
| LrcRoundTrip.UpToFirstTerminator | script.js:274 | `(.*)` stops at the first line terminator |
| LrcRoundTrip.LinesCons | script.js:405-408 | writing line by line is the first line, a line feed and the rest |
| LrcRoundTrip.LinesIsJoin | script.js:405-408 | the written text is the lines joined by line feeds, ending with an empty piece |
| LrcRoundTrip.SplitWritten | script.js:405-408 | splitting the written text gives one piece per entry and a final empty piece |
| LrcRoundTrip.SplitOneLines | script.js:275 | splitting written lines gives them back |
| LrcRoundTrip.RoundAll | script.js:406-407 | each entry with its time rounded to hundredths |
| LrcRoundTrip.MatchedWritten | script.js:275-278 | the written lines parse to the entries with rounded times, and the trailing empty piece is dropped |
| LrcRoundTrip.MatchedEach | script.js:275-278 | lines that each parse give their entries in order |
| LrcRoundTrip.RoundingKeepsOrder | script.js:407 | rounding to hundredths keeps a sorted list sorted |
| LrcRoundTrip.CentiMonotone | script.js:407 | `toFixed(2)` rounding is monotone |
| LrcRoundTrip.ParseWritten | script.js:273-279 | reading the written text gives the sorted list of rounded entries |
| LrcRoundTrip.RoundTrip | script.js:273-279 | reading back a sorted list's written text gives the same texts in the same order, each time within half a hundredth |
| LrcRoundTrip.ExactRoundTrip | script.js:273-279 | a sorted list with times in whole hundredths reads back unchanged |
| LrcRoundTrip.UnsortedFileExample | script.js:273-279 | `[00:01.50]Hello` then `[00:00.25]World` read back as World at 0.25 s, then Hello at 1.5 s |
| LrcRoundTrip.TwoLineFile | script.js:273-279 | two stamped lines with the second earlier come back swapped |
| LrcRoundTrip.SortTwo | script.js:279 | the sort swaps two entries that are out of order |
| LrcRoundTrip.ExactCenti | script.js:407 | a time in whole hundredths is unchanged by rounding |
| ActiveLine.Reverse | script.js:611 | `reverse()` gives the same entries in the opposite order |
| ActiveLine.LastReached | script.js:611 | the largest index whose time is reached, and every later entry not yet reached |
| ActiveLine.FindReachedSpec | script.js:611 | `find` returns the first reached entry, and none exactly when no entry is reached |
| ActiveLine.ActiveIsLastReached | script.js:611 | the lookup shows the entry at the largest reached index, or nothing |
| ActiveLine.ActiveSpec | script.js:611 | nothing is shown exactly when no entry is reached; otherwise the shown entry is reached and no later one is |
| ActiveLine.ActiveAtOwnTime | script.js:611 | an entry is shown at its own time when no later entry is reached |
| ActiveLine.TieGoesToLater | script.js:611 | of two entries with equal times, the later one in the list wins |
| ActiveLine.SortedActiveIsLatest | script.js:611 | on a sorted list the shown entry has the greatest reached time |
| ActiveLine.ThreeLineExample | script.js:611 | lines at 0, 5 and 10 s: shown before, between, at and after their times |
| ActiveLine.TieExample | script.js:611 | two lines at 5 s: the second is shown at 5 s |
| ActiveLine.FindReached | script.js:611 | `find` with the reached-time test; `ActiveLine.FindReachedSpec` states its contract |
| ActiveLine.Active | script.js:611 | the lookup; `ActiveLine.ActiveIsLastReached` and `ActiveLine.ActiveSpec` state its contract |
| ActiveLine.LastReachedMonotone | script.js:611 | a later playback position never has a smaller last reached index |
| ActiveLine.PlaybackNeverGoesBack | script.js:611 | once a line is shown, playing forward always shows a line at the same index or further down the list |
| SyncSession.TrimmedNonEmpty | script.js:346 | `map(trim).filter`; `SyncSession.RawLinesAreRaw`, `SyncSession.TrimmedNonEmptyAppend` and `SyncSession.RawLinesKept` state its contract |
| SyncSession.RawLines | script.js:346 | `rawLines` of the text; `SyncSession.StartGivesLines` and `SyncSession.RawLinesOfPasted` state its contract |
| SyncSession.RawLinesAreRaw | script.js:346 | every raw line is non-empty, trimmed and free of line feeds |
| SyncSession.TrimKeepsOut | script.js:346 | trimming adds no character |
| SyncSession.TrimmedNonEmptyAppend | script.js:346 | raw lines keep the order of the text's lines |
| SyncSession.TrimmedNonEmptyOne | script.js:346 | a blank line disappears and any other line is trimmed |
| SyncSession.RawLinesKept | script.js:346 | lines that are already raw survive unchanged |
| SyncSession.RawLinesOfPasted | script.js:346 | pasting raw lines one per line gives exactly those lines to stamp |
| SyncSession.JoinEnds | script.js:314 | a helper about `JsText.JoinLines`: a block of raw lines joined by `\n` starts and ends with the first and last lines' outer characters, so the `trim` on this line keeps it whole |
| SyncSession.StartGivesLines | script.js:314-315 | non-blank lyrics always give at least one raw line |
| SyncSession.ViewWindow | script.js:363-371 | the current line is the one the next tap stamps; its neighbours or "..." and "(End)" flank it; the bar is under 100% |
| SyncSession.ViewSlides | script.js:363-379 | as a function of the cursor, one step slides the window by a line and grows the bar; the step past the last line reaches the COMPLETE branch, which script.js never shows |
| SyncSession.LineOr | script.js:367-369 | the line when it exists and is not empty, the fallback otherwise; `SyncSession.ViewWindow` states its contract |
| SyncSession.View | script.js:363-379 | `updateLabDisplay`; `SyncSession.ViewWindow` and `SyncSession.ViewSlides` state its contract |
| SyncSession.Studio.Display | script.js:355-380 | what `updateLabDisplay` would show for the current state; `SyncSession.Studio.RecordTimestamp` states it after every tap that refreshes the lab, that is every tap that leaves lines to stamp |
| SyncSession.Studio.constructor | script.js:2 | the session starts with no lines, no stamps and the cursor at 0 |
| SyncSession.Studio.StartSync | script.js:312-347 | refused without audio or with blank lyrics, state unchanged; otherwise the raw lines of the trimmed text, cursor 0 and no stamps |
| SyncSession.Studio.Restart | script.js:337-339 | cursor back to 0, stamps cleared, lines and lyrics kept |
| SyncSession.Studio.FinishGen | script.js:402-409 | the stamps become the lyrics played, and the LRC text of the stamps is produced |
| SyncSession.Studio.RecordTimestamp | script.js:382-396 | a tap before the end stamps the current line with the time and moves on; on the last line, or after it, `finishGen` runs; while lines remain, the refreshed lab shows the line just stamped as previous and the next one as current; the session invariant is kept |
| SyncSession.Studio.LoadLrc | script.js:273-281 | the lyrics played become the parsed text; the session is untouched |
| SyncSession.CompletedSessionReadsBack | script.js:402-409 | a completed session with sorted stamps under 100 minutes saves text that reads back as its lines, each time rounded to hundredths |

## Left out

- Persistence: `saveAsset` in `parseLrc` and `finishGen` writes to IndexedDB. This is I/O and is not modelled.
- The DOM effects are not modelled: toasts, the lab's HTML, CSS classes, the pulse and flash animations, timers, and the fade of the lyric text during playback. `View` models only the text and bar width that `updateLabDisplay` sets. The bar width is a number of percent, not the CSS string.
- Audio is not modelled. The audio element's presence is the `hasAudio` parameter and its clock is the `now` parameter. Pausing and resetting the audio, `resumeAudio`, and the `launch` into the player that `finishGen` ends with are left out.
- The download: the `Blob` and the download button. The text they carry is `LrcFormat.LrcText`.
- Reading files (`handleFile`) and the paste path's `launch`. `LoadLrc` models the `parseLrc` they call. The paste path's own guard against empty text is UI flow.
- Recording, upload, export and QR code: these are outside the lyric-timing core.
- Numbers are exact reals, not IEEE doubles. `parseFloat`, `/ 60`, `% 60` and `toFixed(2)` are exact here. Binary rounding and the exponent form of `toFixed` for huge values are not modelled.
- LrcRoundTrip.RoundTrip: needs a time-sorted list, trimmed one-line texts and times under 100 minutes. Outside these, the text is changed (`TerminatorCutsText`) or the line is lost when its text holds no `[` (`LongLineDropped`), so no verbatim round trip exists. A list in any order is covered by `LrcRoundTrip.ParseWritten`: it reads back as the stable sort of its rounded entries.
