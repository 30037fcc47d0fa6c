# Ai-Sub-Translator core, modelled in Dafny

This project models the two pure parts of the subtitle translator and proves
properties about them.

- **The subtitle codec layer.** There are four codecs and a registry:
  - SRT, WebVTT, ASS/SSA, and the SUB family (MicroDVD, SubViewer and YouTube SBV, told apart by sniffing the content).
  - Each codec decodes text into a sequence of `Cue` records and encodes cues back to text.
  - The registry maps a file extension to a codec.
- **The batch translation loop** of the `POST /` translation route, plus the error path of `POST /single`. Over an abstract translation capability, the loop:
  - cuts the cues into batches;
  - calls the capability once per batch, in order;
  - merges each result back by position, or flags the whole batch when the call throws;
  - emits progress events and then one completion event.
- **The client's time helpers** `formatTime` and `parseTime`.

Every regular expression the code uses is modelled as a hand-written recogniser for its fixed grammar, with leftmost-match semantics. Each codec is a total function over a string. Malformed blocks are dropped, never reported.

## Modules

| file | module | what it holds |
|---|---|---|
| `text.dfy` | `Text` | JavaScript string operations the codecs use: `trim`, `split`, `join`, `padStart`, `toLowerCase`, first-occurrence `replace`, `indexOf`, and decimal digits |
| `clock.dfy` | `Clock` | the time-code model: `HH:MM:SS,mmm` clocks, the split-based readers, the timing-line (`-->`) matcher, and `msToTime` |
| `blocks.dfy` | `Blocks` | `split(/\n\s*\n/)`, with the regex backtracking modelled exactly |
| `cues.dfy` | `Cues` | the `Cue` record, and the `index \|\| subtitles.length + 1` numbering |
| `layout.dfy` | `Layout` | the numbered `n\nstart --> end\ntext` entries the SRT, WebVTT and SUB encoders write |
| `srt.dfy`, `vtt.dfy`, `ass.dfy`, `sub.dfy` | `Srt`, `Vtt`, `Ass`, `Sub` | the four codecs |
| `registry.dfy` | `Registry` | the extension table, and the `parse`/`stringify` dispatch |
| `translate.dfy` | `Translate` | request validation, the batch loop, and the single-text route |
| `helpers.dfy` | `Helpers` | `formatTime` and `parseTime` |

**Abstract capability.** The AI provider is a function `cap(k, texts)`. It gives the outcome of the `k`-th `translateBatch` call on `texts`: `Translated(texts')` or `Threw(message)`. The loop returns three things: the final cues, the events, and the texts of every call it made.

**Details of the code worth knowing.**

- A progress event is written only after a *successful* batch. Its percentage is `round(100 * successful batches / all batches)`. With fewer than 200 batches, a failed batch keeps every event below 100; from 200 batches on, one failure among them still rounds to 100 (`Translate.PercentShort`).
- MicroDVD frame 100 at 23.976 fps is 4171 ms, which is 4170.8 rounded (`Sub.FrameHundred`).
- The MicroDVD sniff checks only that the first line starts with `{digits}{digits}`. Text after the braces is not required.
- The parser table is a plain JavaScript object, so the lower-case names it inherits from `Object.prototype` (`constructor`, `__proto__`) pass its guard, and the call that follows fails (`Registry.Parse`).

## Model

| member | source | states |
|---|---|---|
| Cues.Number | api/services/subtitle-parser/srt.js:33 | a cue keeps an id it already has (`index \|\| n` keeps any non-zero, non-empty id); an unset id becomes `k + 1`; no other field changes |
| Cues.Yielding | api/services/subtitle-parser/srt.js:31-32 | the positions of the blocks that yield a cue: every such position and no other, strictly increasing |
| Cues.Somes | api/services/subtitle-parser/srt.js:31-40 | no more cues are pushed than there are blocks |
| Cues.SomesPicks | api/services/subtitle-parser/srt.js:31-40 | the cues pushed are the values yielded, one per yielding block, cue `j` being that of the `j`-th yielding block |
| Cues.SomesAppend | api/services/subtitle-parser/srt.js:7-41 | the cues pushed for two runs of blocks are those of the first run followed by those of the second |
| Cues.CollectPushed | api/services/subtitle-parser/srt.js:7-41 | the loop's output: cue `j` is the value of the `j`-th yielding block, numbered with `j` as its fallback |
| Cues.CollectAll | api/services/subtitle-parser/srt.js:7-41 | when every block yields a cue carrying its own id, the output is exactly those cues, in order |
| Cues.SomesAll | api/services/subtitle-parser/srt.js:31-40 | when every block yields a cue, every cue is kept, in order |
| Cues.NumberedKeeps | api/services/subtitle-parser/srt.js:33 | cues that all carry an id keep it |
| Blocks.SeparatorAt | api/services/subtitle-parser/srt.js:5 | `\n\s*\n` at the start of a string matches from a line feed, through white space, to the last line feed of that white-space run; no match means no later line feed closes a white-space run |
| Blocks.SplitBlank | api/services/subtitle-parser/srt.js:5 | the split always has at least one piece |
| Blocks.SplitBlankJoin | api/services/subtitle-parser/srt.js:5 | non-empty, trimmed blocks with no blank line, joined by empty lines, split back into exactly those blocks |
| Blocks.ScanBlock | api/services/subtitle-parser/srt.js:5 | a block followed by an empty line is split off whole |
| Layout.NumberedBlocksIgnoresIdentity | api/services/subtitle-parser/srt.js:46-50 | the encoder reads only each cue's display times and text, so ids and all other fields have no effect |
| Layout.EntryLines | api/services/subtitle-parser/srt.js:48 | an entry's lines are the number, the timing line, then the text's lines |
| Layout.EntryIsBlock | api/services/subtitle-parser/srt.js:48 | an entry with stored times and non-empty, trimmed, blank-line-free text is one block for the decoder |
| Layout.TimingArrow | api/services/subtitle-parser/srt.js:21-23 | the written timing line `s --> e` is matched, giving back `s` and `e` |
| Layout.JoinedBlocks | api/services/subtitle-parser/srt.js:5 | entries joined by empty lines, with a final line feed, trim and split back into the entries |
| Clock.DigitRun | api/services/subtitle-parser/sub.js:113 | the number of leading digits: all digits before it, and a non-digit at it |
| Clock.RenderIsClock | api/services/subtitle-parser/sub.js:123-132 | a rendered `h:m:s,f` is read back, by splitting on `:` and the separator, as `h*3600000 + m*60000 + s*1000 + f` |
| Clock.Clock12IsClock | api/services/subtitle-parser/srt.js:52-61 | a twelve-character clock is read the same by the split-based reader and by the fixed-width reader |
| Clock.MsDecompose | api/services/subtitle-parser/sub.js:134-138 | the hour, minute, second and millisecond parts of a count add back up to the count; minutes and seconds are below 60 and milliseconds below 1000 |
| Clock.MsToClockReads | api/services/subtitle-parser/sub.js:134-140 | `msToTime` output reads back as the same milliseconds; below 100 hours it is an exact `HH:MM:SS,mmm` |
| Clock.TimeLen | api/services/subtitle-parser/vtt.js:23 | the time grammar on either side of the arrow matches 12 characters (`HH:MM:SS.mmm`), 9 (`MM:SS.mmm`, WebVTT only), or nothing |
| Clock.ArrowAt | api/services/subtitle-parser/srt.js:22 | a timing-line match at a position captures two times, each of the codec's grammar |
| Clock.FindArrow | api/services/subtitle-parser/srt.js:21-23 | the leftmost timing-line match in a line captures two times of the grammar |
| Clock.SeparatorSwap | api/services/subtitle-parser/srt.js:27-28 | replacing the first `,` or `.` of a clock swaps its millisecond separator and keeps the milliseconds it reads |
| Srt.TimeToMs | api/services/subtitle-parser/srt.js:52-61 | a stored time reads as `h*3600000 + m*60000 + s*1000 + mmm` of its four fields |
| Srt.NormalizeTime | api/services/subtitle-parser/srt.js:27-28 | a captured time with its dot made a comma is a stored `HH:MM:SS,mmm` time reading the same milliseconds; a comma time is unchanged |
| Srt.ParseBlock | api/services/subtitle-parser/srt.js:8-40 | a block yields a cue exactly when it has two lines or more, the line where the timing is expected (second after an all-digit index line, first otherwise) holds a timing match, and the text after it is non-empty; the cue's times are the matched ones with their dot made a comma, its milliseconds read them, its text is the rest of the block trimmed, and its id is the index (0 without one) |
| Srt.DroppedBlock | api/services/subtitle-parser/srt.js:9-31 | a block with fewer than two lines, no timing match where one is expected (a non-numeric first line is that line), or empty text yields no cue and raises nothing |
| Srt.Parse | api/services/subtitle-parser/srt.js:3-44 | the cues are those of the blank-line blocks that yield one, in order, the `j`-th taking its index as id, or `j + 1` when the index is 0 or missing; every cue is decoded |
| Srt.KeptDecoded | api/services/subtitle-parser/srt.js:31-33 | cues kept and numbered `index \|\| position` remain decoded |
| Srt.Stringify | api/services/subtitle-parser/srt.js:46-50 | the output is the entries `n\nstart --> end\ntext` numbered 1..n with the stored times, joined by empty lines, then one line feed; no cues are written as a lone line feed |
| Srt.EntryParts | api/services/subtitle-parser/srt.js:8-29 | the entry written for a cue numbered `n >= 1` splits into an index line reading `n`, a timing line matching the cue's times, and the cue's text |
| Srt.ParseEntry | api/services/subtitle-parser/srt.js:8-39 | decoding the entry written for a cue with number `n >= 1` gives that cue back with id `n` |
| Srt.ParseEntries | api/services/subtitle-parser/srt.js:7-41 | decoding every written entry gives every cue back, numbered from 1 |
| Srt.EmptyRoundTrip | api/services/subtitle-parser/srt.js:5-9 | the empty file the encoder writes decodes to no cues |
| Srt.BlocksRoundTrip | api/services/subtitle-parser/srt.js:3-50 | a non-empty encoding splits back into its entries and decodes to its cues |
| Srt.RoundTrip | api/services/subtitle-parser/srt.js:3-50 | `parse(stringify(cs))` has the same times, milliseconds and texts as `cs`, with ids 1..n |
| Vtt.BlankFrom | api/services/subtitle-parser/vtt.js:6 | the leftmost empty line at or after a position, or none |
| Vtt.StripHeader | api/services/subtitle-parser/vtt.js:6 | content starting with `WEBVTT` loses everything up to and including the first empty line after it; other content, and content with no empty line, is kept |
| Vtt.StripWrittenHeader | api/services/subtitle-parser/vtt.js:6 | the header the encoder writes is exactly what the decoder strips |
| Vtt.TimeToMs | api/services/subtitle-parser/vtt.js:64-75 | a three-field time reads as the fixed-width clock does |
| Vtt.NormalizeTime | api/services/subtitle-parser/vtt.js:47-52 | a two-field `MM:SS.mmm` time gains an `00:` hour and a three-field time is kept; both read the same milliseconds before and after |
| Vtt.ShortTimeReading | api/services/subtitle-parser/vtt.js:64-75 | a two-field time reads as 0 hours plus its minutes, seconds and milliseconds |
| Vtt.ParseBlock | api/services/subtitle-parser/vtt.js:10-41 | a block yields a cue exactly when it has two lines or more, the timing line (second when the first holds no `-->`, first otherwise) holds a timing match, and the text after it is non-empty; the cue's times are the matched ones given an hour field, its milliseconds read the matched times, its text is the rest of the block trimmed, and its id is the first line when that is not the timing line |
| Vtt.DroppedBlock | api/services/subtitle-parser/vtt.js:10-32 | a block with fewer than two lines, no timing match where one is expected, or empty text yields no cue and raises nothing |
| Vtt.Parse | api/services/subtitle-parser/vtt.js:3-45 | the cues are those of the blocks after the header that yield one, in order, the `j`-th taking its identifier line as id, or `j + 1` when there is none; every cue is decoded |
| Vtt.KeptDecoded | api/services/subtitle-parser/vtt.js:32-34 | cues kept and numbered `cueId \|\| position` remain decoded |
| Vtt.DotTime | api/services/subtitle-parser/vtt.js:57-58 | a stored time with its first comma made a dot is a dot clock reading the same milliseconds |
| Vtt.Stringify | api/services/subtitle-parser/vtt.js:54-62 | the output starts with `WEBVTT` and an empty line, and ends in a line feed; what the decoder's header strip leaves is the entries numbered 1..n with dotted times, joined by empty lines, then one line feed |
| Vtt.DigitsHaveNoArrow | api/services/subtitle-parser/vtt.js:17 | a number line holds no `-->`, so it is read as the cue identifier |
| Vtt.ParseEntry | api/services/subtitle-parser/vtt.js:10-41 | decoding the entry written for a cue as number `n` gives back a cue with string id `"n"`, the times in dotted form, their milliseconds, and the same text |
| Vtt.ParseEntries | api/services/subtitle-parser/vtt.js:9-42 | decoding all the written entries gives every cue back |
| Vtt.EntryDecodes | api/services/subtitle-parser/vtt.js:10-41 | entry `i` decodes to cue `i` |
| Vtt.ParseWritten | api/services/subtitle-parser/vtt.js:6-7 | the decoder goes past the written header straight to the entries |
| Vtt.BodyRoundTrip | api/services/subtitle-parser/vtt.js:7-45 | the written entries split back into themselves and decode to the cues |
| Vtt.EmptyBody | api/services/subtitle-parser/vtt.js:7-11 | a header with no cues decodes to nothing |
| Vtt.RoundTrip | api/services/subtitle-parser/vtt.js:3-62 | `parse(stringify(cs))` has the same milliseconds and texts, dot-separated times, and ids `"1".."n"` |
| Ass.CentisAt | api/services/subtitle-parser/ass.js:92 | `(\d+):(\d{2}):(\d{2})\.(\d{2})` matched at the start: the four captures, which show the matched text |
| Ass.FindCentis | api/services/subtitle-parser/ass.js:92 | the leftmost match in a string, and the text it shows occurs in the string |
| Ass.ShownFound | api/services/subtitle-parser/ass.js:105 | a written `H:MM:SS.CC` is matched at its start, whatever follows |
| Ass.TimeToMs | api/services/subtitle-parser/ass.js:104-114 | 0 with no match; otherwise the leftmost match's `h*3600000 + mm*60000 + ss*1000 + cc*10`, a whole number of centiseconds |
| Ass.CentisTens | api/services/subtitle-parser/ass.js:108-113 | a matched time reads as a multiple of 10 ms |
| Ass.FormatTime | api/services/subtitle-parser/ass.js:90-102 | input with no match is returned unchanged; a match becomes a comma clock reading the milliseconds `timeToMs` reads, which is an exact `HH:MM:SS,mmm` when the hours have at most two digits |
| Ass.FormatReads | api/services/subtitle-parser/ass.js:95-101 | the rewritten clock reads hours, minutes, seconds, and centiseconds times 10 |
| Ass.ShownReads | api/services/subtitle-parser/ass.js:104-114 | a written `H:MM:SS.CC` is matched whole and read as its fields' milliseconds |
| Ass.MsToAssTimeReads | api/services/subtitle-parser/ass.js:175-182 | `msToASSTime` output is matched whole, and reads back as `ms - ms % 10`: truncated, not rounded |
| Ass.AssTimeFound | api/services/subtitle-parser/ass.js:104-114 | the time written for `ms` is found again and read as `ms - ms % 10` |
| Ass.CentisTruncation | api/services/subtitle-parser/ass.js:179 | `floor((ms % 1000) / 10) * 10 == ms % 1000 - ms % 10` |
| Ass.Fields | api/services/subtitle-parser/ass.js:61-78 | the fields before trimming: at least one |
| Ass.FieldsLaws | api/services/subtitle-parser/ass.js:61-78 | rejoined with commas the fields give the line back; only the last field can hold a comma |
| Ass.FieldsCount | api/services/subtitle-parser/ass.js:66-70 | the number of cuts is the number of commas, capped at `fieldCount - 1` |
| Ass.SplitDialogueLine | api/services/subtitle-parser/ass.js:61-78 | at most `fieldCount` fields; exactly `fieldCount` when there are enough commas, otherwise one more than the number of commas |
| Ass.SplitDialogueLoop | api/services/subtitle-parser/ass.js:61-78 | the character loop computes `SplitDialogueLine` |
| Ass.FieldsJoin | api/services/subtitle-parser/ass.js:61-78 | comma-free fields followed by a last field (commas allowed) are cut back into exactly those fields |
| Ass.StripTags | api/services/subtitle-parser/ass.js:83 | removing `{...}` tags never lengthens the text; text with no `{` is unchanged |
| Ass.StripTagsLeaves | api/services/subtitle-parser/ass.js:83 | removing tags adds no character, and no `{` with a `}` after it remains |
| Ass.TagsPlain | api/services/subtitle-parser/ass.js:83 | text before the first `{` is kept as it is |
| Ass.TagDropped | api/services/subtitle-parser/ass.js:83 | a tag `{...}` at the start is removed and the rest is stripped in turn |
| Ass.Unclosed | api/services/subtitle-parser/ass.js:83 | text with no `}` is kept whole, an unclosed `{` included |
| Ass.Escape | api/services/subtitle-parser/ass.js:134 | escaped text holds no line break |
| Ass.CleanText | api/services/subtitle-parser/ass.js:80-88 | the result is trimmed; text with no `{` and no backslash is only trimmed |
| Ass.CleanPieces | api/services/subtitle-parser/ass.js:80-88 | a tag is dropped, `\N` and `\n` become line breaks and `\h` a space, the text around them is kept, and the whole is trimmed |
| Ass.PassOne | api/services/subtitle-parser/ass.js:84-86 | one global replacement turns the occurrence after a prefix that cannot start one into its replacement, when the rest holds no occurrence |
| Ass.Unescape | api/services/subtitle-parser/ass.js:84 | turning `\N` back into line breaks undoes the escape of text without backslashes |
| Ass.CleanEscaped | api/services/subtitle-parser/ass.js:80-88 | cleaning the escape of trimmed text that has no `{` and no backslash gives the text back |
| Ass.FormatFields | api/services/subtitle-parser/ass.js:27 | a `Format:` line's columns are its comma-separated parts, trimmed and lower-cased |
| Ass.StateAfterIs | api/services/subtitle-parser/ass.js:12-32 | after any prefix of a script, the parser is inside `[Events]` exactly when the last `[...]` header was `[Events]`; it holds the columns of the last `Format:` line read there, and the column positions agree with them |
| Ass.AdvanceTracks | api/services/subtitle-parser/ass.js:13-32 | each line keeps that state invariant |
| Ass.DialogueCue | api/services/subtitle-parser/ass.js:34-53 | only a `Dialogue:` line inside `[Events]`, once a `text` column is known, yields a cue; its times are formatted and read from the fields at the start and end columns, `0:00:00.00` when a column is absent or empty; its raw text is the fields from the text column on, rejoined with commas and trimmed; its text is that cleaned, and its style is the fields before the text column |
| Ass.DialogueYields | api/services/subtitle-parser/ass.js:36-38 | such a line yields a cue exactly when it has enough fields to reach the text column |
| Ass.Parse | api/services/subtitle-parser/ass.js:3-59 | the cues are those of the lines that yield one, in order, each read in the section state left by the lines before it; cue `i` is decoded and numbered `i + 1` |
| Ass.KeptLines | api/services/subtitle-parser/ass.js:43-44 | the cues kept are numbered 1..n in order |
| Ass.LineYields | api/services/subtitle-parser/ass.js:12-38 | line `i` yields a cue exactly when it is a dialogue line, the last header before it was `[Events]`, a `Format:` line with a `text` column was read in that section, and the line has enough fields |
| Ass.Rewrite | api/services/subtitle-parser/ass.js:127-144 | the rewrite puts out one line per original line |
| Ass.RewriteAt | api/services/subtitle-parser/ass.js:127-144 | output line `i` depends only on line `i` and on how many dialogue lines come before it |
| Ass.Stringify | api/services/subtitle-parser/ass.js:116-147 | without the preserve flag or original content, the fixed header comes first; with both, and no cue to restyle, the original comes back unchanged |
| Ass.RewriteKeeps | api/services/subtitle-parser/ass.js:130-139 | when no cue can be restyled, every line is kept |
| Ass.PreservedLines | api/services/subtitle-parser/ass.js:116-147 | preserve mode keeps the line count; non-dialogue lines are byte-identical; the `k`-th dialogue line becomes the `k`-th cue's restyled line when that cue exists, has style columns and a non-empty raw text, and is kept otherwise |
| Ass.MinimalHeader | api/services/subtitle-parser/ass.js:150-163 | the minimal script starts with the fixed header |
| Ass.MinimalShape | api/services/subtitle-parser/ass.js:149-173 | the minimal script's lines are the header's lines, then exactly one dialogue line per cue, then the empty line after the final line feed |
| Ass.EventsColumns | api/services/subtitle-parser/ass.js:27-30 | the header's `Format:` line sets the text, start and end columns to 9, 1 and 2, and a field count of 10 |
| Ass.ColumnsCue | api/services/subtitle-parser/ass.js:34-53 | in that state, a minimal dialogue line yields the cue of its columns |
| Ass.FieldsCue | api/services/subtitle-parser/ass.js:34-53 | under any `Format:` line with a `text` column, a dialogue line of one field per column yields the cue of those fields, trimmed: start and end from their columns, the raw text from the text column on, the style before it |
| Ass.MinimalLineReads | api/services/subtitle-parser/ass.js:34-53 | read back, the line written for a cue gives its milliseconds truncated to centiseconds, display times that read them, the escaped text as raw text, and the original text when it holds no `{` and no backslash |
| Sub.BracedAt | api/services/subtitle-parser/sub.js:8 | `\{\d+\}` at the start matches a whole braced digit run |
| Sub.FramePair | api/services/subtitle-parser/sub.js:8 | two braced frame numbers at the start of a line, and the length they cover |
| Sub.Sniff | api/services/subtitle-parser/sub.js:8-15 | MicroDVD exactly when the first line starts with two braced numbers; SBV exactly when it does not, there is no `[INFORMATION]` marker, and no line holds a SubViewer timing pair; SubViewer otherwise |
| Sub.MsToTime | api/services/subtitle-parser/sub.js:134-140 | `timeToMs(msToTime(ms)) == ms` for every `ms`; below 100 hours the result is an exact zero-padded `HH:MM:SS,mmm` |
| Sub.SubViewerTimeToMs | api/services/subtitle-parser/sub.js:112-121 | a SubViewer time `HH:MM:SS.CC` reads as `HH*3600000 + MM*60000 + SS*1000 + CC*10`, a whole number of centiseconds |
| Sub.DisplayTime | api/services/subtitle-parser/sub.js:63-66 | the raw time with its dot made a comma and a `0` appended is an `HH:MM:SS,mmm` whose milliseconds equal `subViewerTimeToMs` of the raw time |
| Sub.DigitsSnocZero | api/services/subtitle-parser/sub.js:63 | appending `0` multiplies the value by ten |
| Sub.SbvTimeLen | api/services/subtitle-parser/sub.js:81 | the SBV time grammar matches nothing or at least 11 characters |
| Sub.NormalizedSbv | api/services/subtitle-parser/sub.js:102-110 | a normalised SBV time is a comma clock with at least two hour digits, reading the same milliseconds as the time matched |
| Sub.NormalizeRender | api/services/subtitle-parser/sub.js:102-110 | normalising pads the hours to two digits and turns the dot into a comma |
| Sub.RenderSplit | api/services/subtitle-parser/sub.js:103-106 | a rendered time splits on `:` into hours, minutes and the rest, and the rest splits on `.` into seconds and fraction |
| Sub.FrameMsNearest | api/services/subtitle-parser/sub.js:20-30 | the rounded milliseconds are within half a millisecond of `frame * 1000 / 23.976`, never exactly half away, and never fall as the frame grows |
| Sub.FrameHundred | api/services/subtitle-parser/sub.js:29 | frame 100 is 4171 ms |
| Sub.MicroDvdCue | api/services/subtitle-parser/sub.js:23-41 | a line yields a cue exactly when it starts with a frame pair followed by a non-empty text with no line break; the cue keeps both frames, has milliseconds rounded from them and display times reading those milliseconds, and its text holds no `\|` |
| Sub.PipesReplaced | api/services/subtitle-parser/sub.js:27 | no `\|` survives the replacement |
| Sub.ParseMicroDvd | api/services/subtitle-parser/sub.js:18-46 | the cues are those of the lines that yield one, in order, numbered 1..n |
| Sub.BracedReads | api/services/subtitle-parser/sub.js:23-25 | a braced frame number is matched whole and read back as the number |
| Sub.FramePairReads | api/services/subtitle-parser/sub.js:23-26 | two written braced frames are matched and read back as the same frames |
| Sub.MicroDvdReads | api/services/subtitle-parser/sub.js:23-41 | a line written as two braced frames and text gives those frames, their rounded milliseconds, and the text with `\|` made a line break |
| Sub.FindCentiPair | api/services/subtitle-parser/sub.js:54 | the leftmost SubViewer timing pair in a line captures two SubViewer times |
| Sub.ReplaceBr | api/services/subtitle-parser/sub.js:59 | replacing `[br]` never lengthens the text; text with no `[` is unchanged |
| Sub.BrPlain | api/services/subtitle-parser/sub.js:59 | text before the first `[` is kept as it is |
| Sub.BrReplaced | api/services/subtitle-parser/sub.js:59 | a `[br]` at the start, in any letter case, becomes a line break and the rest is replaced in turn |
| Sub.BrFree | api/services/subtitle-parser/sub.js:59 | text holding no `[br]` in any letter case is unchanged |
| Sub.ReplaceBrComplete | api/services/subtitle-parser/sub.js:59 | no `[br]`, in any letter case, remains after the replacement |
| Sub.SubViewerCue | api/services/subtitle-parser/sub.js:53-68 | a block yields a cue exactly when its first line holds a timing pair; the start and end come from the pair's first and second time, in that order, as display times and as milliseconds, which the exact `HH:MM:SS,mmm` display times read back; the text is the remaining lines joined by line feeds with `[br]` made a line break |
| Sub.CentiPairOf | api/services/subtitle-parser/sub.js:54 | two SubViewer times joined by a comma are matched as that pair |
| Sub.SubViewerReads | api/services/subtitle-parser/sub.js:53-68 | a written block, timing pair then text, is read back as the pair's display times and milliseconds and the text with `[br]` replaced |
| Sub.ParseSubViewer | api/services/subtitle-parser/sub.js:48-73 | the cues are those of the blank-line blocks of the untrimmed content that yield one, in order, numbered 1..n |
| Sub.SubViewerKeepsEmpty | api/services/subtitle-parser/sub.js:56-68 | a block that is only a timing line is kept, with empty text |
| Sub.SbvPairAt | api/services/subtitle-parser/sub.js:81 | an SBV timing pair at a position captures two SBV times |
| Sub.FindSbvPair | api/services/subtitle-parser/sub.js:81 | the leftmost SBV timing pair in a line captures two SBV times |
| Sub.SbvCue | api/services/subtitle-parser/sub.js:80-95 | a block yields a cue exactly when its first line holds an SBV pair; the start and end are the pair's first and second time normalised, which read, through `timeToMs`, the cue's milliseconds; the text is the remaining lines joined by line feeds |
| Sub.SbvPairOf | api/services/subtitle-parser/sub.js:81 | two SBV times joined by a comma are matched as that pair |
| Sub.SbvReads | api/services/subtitle-parser/sub.js:80-95 | a written block, timing pair then text, is read back as the pair's normalised times, their milliseconds and the text |
| Sub.ParseSbv | api/services/subtitle-parser/sub.js:75-100 | the cues are those of the blank-line blocks of the trimmed content that yield one, in order, numbered 1..n |
| Sub.SbvCueMs | api/services/subtitle-parser/sub.js:84-93 | the milliseconds stored are those of the times as matched |
| Sub.Parse | api/services/subtitle-parser/sub.js:3-16 | the cues are those the sniffed sub-format's reader keeps from its lines or blocks, in order; cue `i` is numbered `i + 1` and decoded as that sub-format decodes |
| Sub.KeptAs | api/services/subtitle-parser/sub.js:33 | every reader numbers its cues by position |
| Sub.Stringify | api/services/subtitle-parser/sub.js:142-147 | the output is what the SRT encoder writes: entries numbered 1..n with the stored times, joined by empty lines, then one line feed |
| Sub.WrittenAsSrt | api/services/subtitle-parser/sub.js:142-147 | what the encoder writes is SRT: the SRT decoder reads back every writable cue, numbered 1..n |
| Registry.Parse | api/services/subtitle-parser/index.js:20-26 | succeeds exactly when the lower-cased format, dot included, is a table key, and then returns that codec's decoding; a lower-cased `constructor` or `__proto__` finds an inherited member and fails with `parser.parse is not a function`; any other format fails with `Unsupported format: <format>` |
| Registry.Stringify | api/services/subtitle-parser/index.js:28-34 | succeeds exactly when `.` plus the lower-cased format is a key, and then returns that codec's encoding, with an absent preserve flag meaning `true`; otherwise fails with the same message |
| Registry.TableKeys | api/services/subtitle-parser/index.js:9-17 | the table has exactly seven keys |
| Registry.KeysDotted | api/services/subtitle-parser/index.js:9-17 | every key is a dot and three letters |
| Registry.Aliases | api/services/subtitle-parser/index.js:9-17 | `.txt`, `.ssa` and `.sbv` pick the codecs of `.srt`, `.ass` and `.sub`; the four main extensions pick four different codecs |
| Registry.DottedFormatNotEncoded | api/services/subtitle-parser/index.js:29 | a format given with its dot is never accepted by the encoder |
| Registry.SameCodecBothWays | api/services/subtitle-parser/index.js:21-29 | encoding with `f` succeeds exactly when decoding with `.f` does, and uses the same codec |
| Registry.InheritedApart | api/services/subtitle-parser/index.js:9-29 | no inherited name is a table key, and none starts with the dot the encoder adds, so `stringify` never reaches one |
| Registry.CaseIgnored | api/services/subtitle-parser/index.js:21 | the format's letter case does not matter |
| Registry.PreserveDefault | api/services/subtitle-parser/index.js:28 | leaving out the preserve flag is passing `true` |
| Translate.Validate | api/routes/translate.js:20-27 | a request is accepted exactly when the required fields are present and the provider is known; otherwise status 400, with the missing-fields message checked first |
| Translate.Batches | api/routes/translate.js:34-40 | no batches exactly when there are no cues; otherwise `ceil(N / size)` batches hold the cues |
| Translate.BatchSlices | api/routes/translate.js:38-40 | batch `k` is the slice starting at `k * size` |
| Translate.BatchCount | api/routes/translate.js:38-40 | the number of batches is `(N + size - 1) / size` |
| Translate.BatchesCover | api/routes/translate.js:38-40 | the batches concatenate back to the input; none is empty or longer than the batch size |
| Translate.BatchLengths | api/routes/translate.js:38-40 | every batch but the last has exactly the batch size |
| Translate.Merge | api/routes/translate.js:55-61 | a successful batch keeps every other field and the error flag, saves the old text, and takes the translation at the cue's index when it is non-empty, the old text otherwise |
| Translate.Flag | api/routes/translate.js:77-83 | a failed batch keeps every other field and the text, saves the old text, and sets the error flag |
| Translate.Apply | api/routes/translate.js:55-83 | the cue after its batch's call, per outcome |
| Translate.PercentRounds | api/routes/translate.js:64 | the percentage is the integer nearest `100 * ok / count`, with halves going up |
| Translate.PercentGrows | api/routes/translate.js:64 | one more success never lowers the percentage |
| Translate.PercentBounded | api/routes/translate.js:64 | the percentage is at most 100, and exactly 100 when every batch succeeded |
| Translate.PercentShort | api/routes/translate.js:64 | with a failed batch the percentage stays below 100 when there are fewer than 200 batches, and from 200 batches on one failure still rounds to 100 |
| Translate.Turn | api/routes/translate.js:44-84 | one loop turn: one call with the batch's texts, the batch's cues appended, and a progress event after a success only |
| Translate.AfterCalls | api/routes/translate.js:44-61 | after `n` batches there have been `n` calls, call `k` with batch `k`'s texts, and the cues pushed are the settled batches end to end |
| Translate.TurnProgress | api/routes/translate.js:63-72 | each turn keeps the progress invariant: one event per success, each carrying the total, at most 100 percent, `completed` strictly growing and `progress` never falling |
| Translate.AfterProgress | api/routes/translate.js:44-85 | the progress invariant holds after every number of batches |
| Translate.TranslateAll | api/routes/translate.js:34-91 | the loop cuts, calls in batch order, settles every cue at its own position with the other fields unchanged, and streams progress events followed by one completion event carrying the result; all successes end at 100 percent, all failures give no progress event, and a successful last call reports all cues completed |
| Translate.CallsOfRun | api/routes/translate.js:44-52 | the calls made cut the input as the route does |
| Translate.CuesOfRun | api/routes/translate.js:44-85 | cue `k * size + j` of the result is input cue `k * size + j` after call `k` |
| Translate.FieldsOfRun | api/routes/translate.js:44-85 | the result has the input's length and order, and only the text, original text and error flag change |
| Translate.EventsOfRun | api/routes/translate.js:63-91 | the events form the stream described above |
| Translate.AllSucceeded | api/routes/translate.js:63-72 | when every call succeeds there is one progress event per call, and the last is at 100 percent |
| Translate.FullProgress | api/routes/translate.js:63-72 | the same, stated over the batches |
| Translate.AllFailed | api/routes/translate.js:74-84 | when every call throws there is no progress event |
| Translate.LastCompletes | api/routes/translate.js:63-72 | when the last call succeeds, the last progress event reports every cue as completed, those of earlier failed batches included |
| Translate.RunEnds | api/routes/translate.js:63-90 | the tail of the stream: all successes end at 100 percent just before the completion event, all failures leave the completion event alone, and a successful last call reports all cues completed |
| Translate.SettledPrefix | api/routes/translate.js:55-83 | cue by cue, the settled batches keep every field but the text, the original text and the error flag, and save the old text |
| Translate.Handle | api/routes/translate.js:8-91 | a request missing a field or naming an unknown provider is rejected with status 400 before any call; otherwise the loop's calls, cues and events are streamed, ending in the completion event |
| Translate.Single | api/routes/translate.js:105-130 | the same validation; then the call's translation is the answer, and a failed call is answered with status 500 and its message, never a cue flag |
| Helpers.FormatTime | public/js/utils/helpers.js:2-9 | the result reads back, split on `:` and `,`, as `ms`; the hours have at least two digits; it is twelve characters exactly below 100 hours, and then it is `HH:MM:SS,mmm` |
| Helpers.FormatFields | public/js/utils/helpers.js:3-8 | the fields are the whole hours, the minutes and seconds left over (each below 60), and the milliseconds (below 1000), in two, two and three digits |
| Helpers.HoursWidth | public/js/utils/helpers.js:8 | hours padded to two digits stay two digits exactly when they are below 100 |
| Helpers.FindFrom | public/js/utils/helpers.js:12 | the leftmost `\d{2}:\d{2}:\d{2}[,.]\d{3}` at or after a position, or none anywhere after it |
| Helpers.FindClock12 | public/js/utils/helpers.js:12 | the leftmost match in the string; no match exactly when no position has one |
| Helpers.LeftmostIs | public/js/utils/helpers.js:12 | a match with none before it is the one found |
| Helpers.ParseTime | public/js/utils/helpers.js:11-21 | 0 when the string holds no match; never more than 362439999 |
| Helpers.ParseLeftmost | public/js/utils/helpers.js:12-20 | the leftmost match's hours, minutes, seconds and milliseconds give the result |
| Helpers.ParseAtStart | public/js/utils/helpers.js:12-20 | a clock at the start of the string is the one read |
| Helpers.DotAccepted | public/js/utils/helpers.js:12 | `,` and `.` before the milliseconds read the same |
| Helpers.TailClock | public/js/utils/helpers.js:12 | in a written clock the match starts at the last two hour digits, so the hours are read modulo 100 |
| Helpers.ParseWraps | public/js/utils/helpers.js:2-21 | `parseTime(formatTime(ms)) == ms % 360000000` for every `ms` |
| Helpers.RoundTrip | public/js/utils/helpers.js:2-21 | below 100 hours, `parseTime(formatTime(ms)) == ms` |
| Helpers.HundredHoursWrap | public/js/utils/helpers.js:2-21 | at 100 hours the round trip gives 0, and 101:02:03.456 comes back as 1:02:03.456 |

## Left out

- Transport is not modelled: Express, the SSE headers and `res.write` framing, multer upload and download, the health check. Events are a returned sequence, and replies are values.
- The AI providers are not modelled. Their SDK and network calls and their pad/truncate post-processing are out. Each provider is the abstract capability `cap`, and the known provider names are the constant set `{openai, gemini, grok}`.
- The outer `catch` of the batch route and its `error` event are not modelled. The loop catches every batch error itself, and the model has no other failure to raise.
- Console logging is not modelled.
- Floating point is replaced by exact integers. The MicroDVD `Math.round(frame / 23.976 * 1000)` is `(frame * 250000 + 2997) / 5994`, and the progress `Math.round` is an exact round-half-up. `Sub.FrameMsNearest` and `Translate.PercentRounds` state how these relate to the real quotient.
- Only `\n` line endings and ASCII white space are modelled. CRLF input, Unicode `trim` and Unicode `toLowerCase` are out.
- `parseInt` is applied only to the all-digit strings the patterns capture. Its lenient parsing of other strings is out.
- Sub.TimeToMs: requires an `H+:MM:SS,f+` clock. The source splits any string, but its only callers pass normalised SBV times (sub.js:92-93), which have that shape.
- Vtt.TimeToMs: requires a time the timing pattern captured, which is the only input the source passes it. The contract states the three-field reading; the two-field reading is in `Vtt.ShortTimeReading`.
- Sub.MicroDvdReads: requires text with no line break. JavaScript's `.` does not match `\n`, `\r`, U+2028 or U+2029, so a text holding one of them fails the `(.+)$` pattern.
- Translate.Handle: requires a batch size other than 0. With 0 the route's loop never ends. A negative or fractional batch size cannot be expressed, because sizes are natural numbers.
- Translate.TranslateAll: requires a batch size of at least 1, for the same reason.
- Srt.Stringify: that the decoder reads the output back is stated by `Srt.RoundTrip`, only for writable cues: exact stored times, and non-empty trimmed text with no blank line.
- Vtt.Stringify: the contract states the body the decoder sees after its header strip; reading it back is stated by `Vtt.RoundTrip`, only for writable cues.
- Sub.Stringify: reading the output back is stated through the SRT decoder by `Sub.WrittenAsSrt`, only for writable cues.
- Ass.StripTags: the contract states what removal cannot do, with `Ass.StripTagsLeaves`; what it keeps and drops is stated step by step by `Ass.TagsPlain`, `Ass.TagDropped` and `Ass.Unclosed`.
- Ass.CleanText: the contract states the trimming; the tag removal and the escape mapping are stated by `Ass.CleanPieces` for text of one shape (a tag, then `\N`, `\n` and `\h` once each), not for arbitrary arrangements.
- Sub.ReplaceBr: the contract states what replacement cannot do; what it keeps and replaces is stated step by step by `Sub.BrPlain`, `Sub.BrReplaced` and `Sub.BrFree`.
- Ass.PreservedLines: requires style columns with no line breaks. A line break inside a style column would split the rewritten line in two.
- Ass.MinimalLineReads: requires trimmed text. The decoder trims the text column, so an untrimmed text is not read back as written.
- Ass.Stringify: the contract states the two modes' outer shape. Line by line, the modes are stated by `Ass.PreservedLines` and `Ass.MinimalShape`.
- An absent `originalContent` and the empty string are the same value (`""`): the code treats both as falsy.
- A cue's `rawText` counts as missing when it is empty. A cue's `assStyle` is truthy whenever present, even when empty.
- Only what the SUB encoder writes is modelled. Its output is SRT, and reading it back is stated through the SRT decoder; no SUB reader reads it.
- The rest of `helpers.js` (`debounce`, `throttle`, `escapeHtml`, `downloadBlob`) and the browser UI are not part of this model, being DOM and timer plumbing.
