# twitch_tts_bot text core in Dafny

This project models the deterministic text processing of the Twitch text-to-speech bot. A chat message is handled in these steps:

1. It is split into tokens (`split_message`).
2. The tokens are cut into segments at `{n}` effect markers and `{.}` reset markers (`sound_play`).
3. Each segment becomes a job (`process_segment`, `apply_effect`). Every token is resolved either to a library sound `sounds/<name>.wav` or to speech text. Speech text is number-normalised (`fix_numbers`) and punctuated. The segment's effect ids become a chain of abstract sox operations. Temporary speech files are removed afterwards.
4. The segment outputs are combined into the clip that is played.

The model also covers:

- the older normaliser `fixNumbers.py`, in which conversion errors propagate;
- the sound-list builder `list_sounds`, which turns a directory listing into the `[name]` entries used by the lookup.

Everything is pure and functional. The following are parameters rather than being computed:

- `isnumeric`;
- `num2words(int(run), lang='pl')`, modelled as a three-way `Conversion` (words, `ValueError`, any other exception);
- the uuid temporary names;
- the directory listing;
- the `max_effect_repetitions` ceiling, as an `Option<int>`.

Sox calls are modelled as the `Effects.Op` values they would issue. Float arguments are stored in hundredths.

Modules, one file each:

| module | file | covers |
|---|---|---|
| `Basics` | basics.dfy | `Option`, `Result`, prefix/suffix tests, sequence flattening |
| `Tokenizer` | tokenizer.dfy | split_message.py |
| `Numbers` | numbers.dfy | fix_numbers.py and fixNumbers.py |
| `Segmenter` | segmenter.dfy | the segmentation loop of sound_play.py |
| `Effects` | effects.dfy | counting, clamping and the effect table of `apply_effect` |
| `Assembly` | assembly.dfy | `process_segment`, input combination, cleanup and the final clip |
| `SoundLibrary` | sound_library.dfy | list_sounds.py |
| `Pipeline` | pipeline.dfy | one message end to end, and how the sound list meets the lookup |

### Tokenizer

`Lex` is a hand-written scanner for the pattern at split_message.py:6. At each position it tries these alternatives in order:

1. a `[` span up to the first `]`;
2. a `{` span up to the first `}`;
3. a maximal run of characters other than `[ ] { }` and space.

Any other character is skipped. A `[` or `{` with no closer falls through to the word alternative, which cannot start on a bracket, so that character is dropped.

`Merge` is the loop at lines 9-14. It decides what to merge with the two `re.match` tests of line 11:

- `ClosesSpan` covers `\[.*\]|\{.*\}`. Python's `.` does not match a newline, so the closer must lie on the token's first line.
- `OpensSpan` covers `\[.*|\{.*`.

### Numbers

Both normalisers are modelled twice:

- as the reference `Render(Pieces(text))`, where `Pieces` cuts the text into single non-numeric characters and maximal numeric runs;
- as the one-pass buffered scan the source runs (`ScanNumbers`, `FixNumbersScan`).

A proof connects the two. Under `KeepRun` (fix_numbers.py), a `ValueError` keeps the run verbatim, and any other exception is caught by the outer handler, which returns the original text (`FixNumbers`). Under `Propagate` (fixNumbers.py), every conversion failure escapes (`FixNumbersStrict`).

### Segmenter

`Segments` is the loop at sound_play.py:52-68. A token that matches `\{\d+\}` at its start but whose inner text is not all digits (for example `{12}x`) would make `int()` raise. That token is the `Malformed` kind, and the loop returns `Err`.

`Pipeline.SegmentsNeverFail` shows this cannot happen for tokenizer output. Every token that starts with `{` is a whole brace span ending at its first `}`, so the marker test only accepts pure `{digits}`.

### Behaviour worth noting

- `SOUND_CAP` is read at sound_play.py:20 and never used, so every listed sound name plays.
- An unlisted `[name]` is spoken with its brackets (sound_play.py:99-104).
- fix_numbers.py buffers `isnumeric` runs, not digit runs. A run that `int()` rejects (a numeric character that is not a decimal digit) raises `ValueError` and is kept verbatim. Any other exception makes fix_numbers.py return the whole original text (lines 45-48). fixNumbers.py has no fallback at all.
- A bracket span that crosses a newline fails the test at split_message.py:11, so it is glued onto a preceding plain word.

## Model

| member | source | states |
|---|---|---|
| Tokenizer.FindFrom | split_message.py:6 | the first occurrence of a closing character from a position on, or none: the first `]`/`}` that ends a span |
| Tokenizer.WordLength | split_message.py:6 | the word alternative takes the longest prefix free of `[ ] { }` and space |
| Tokenizer.Lex | split_message.py:6 | every match is a closed `[...]` or `{...}` span or a non-empty separator-free word; matches of single-line text are single-line |
| Tokenizer.MatchAtLength | split_message.py:6 | a match at a `[` (or `{`) runs exactly to the first `]` (or `}`); a match at any other character is the maximal separator-free word |
| Tokenizer.MatchAtUnique | split_message.py:6 | at any position at most one match exists |
| Tokenizer.MatchExcludesSkip | split_message.py:6 | where the scanner skips a character (a separator, or a `[`/`{` with no closer after it) no alternative matches |
| Tokenizer.FindAllUnique | split_message.py:6 | the left-to-right match list of a text is unique: at each position at most one match exists and skipping is only allowed where none does |
| Tokenizer.LexFindAll | split_message.py:6 | the scanner's matches are the `findall` list: in order, non-overlapping, each a span to its first closer or a maximal word, with skipped characters exactly those where no alternative matches |
| Tokenizer.LexBlank | split_message.py:6 | text made only of spaces and stray closers yields no match; text with any word character yields at least one |
| Tokenizer.SplitMessageBlank | split_message.py:4-16 | empty or all-space input (stray `]`/`}` included) gives an empty token list; a word character gives a non-empty one |
| Tokenizer.SplitMessage | split_message.py:4-16 | output tokens are non-empty and of any two neighbouring tokens at least one opens a span |
| Tokenizer.SplitMessageOfMatches | split_message.py:4-16 | `split_message` is the merge of whatever list satisfies the `findall` characterisation |
| Tokenizer.LexShapes | split_message.py:6 | for single-line text every match is either a span that opens and closes on its line, or a word with no space and no bracket |
| Tokenizer.SplitMessageTokenShapes | split_message.py:6-14 | every output token is non-empty and is either a span matched unchanged from the text or contains none of `[ ] { }` |
| Tokenizer.Merge | split_message.py:9-14 | merging never lengthens the list, and the result is empty exactly when the input is |
| Tokenizer.MergeNoAdjacentPlain | split_message.py:9-14 | after merging, of any two neighbouring tokens at least one opens a span |
| Tokenizer.MergeKeepsSpans | split_message.py:9-14 | a token that opens a span is an input token unchanged: no word is ever glued onto a span |
| Tokenizer.MergeNonEmptyTokens | split_message.py:9-14 | merging non-empty tokens gives non-empty tokens |
| Tokenizer.MergeWordsHaveNoBrackets | split_message.py:9-14 | merged plain tokens contain no bracket when their parts had none |
| Tokenizer.SplitSpacesJoin | split_message.py:12 | splitting `a + " " + w` on spaces is splitting `a` then the space-free word `w`: the inverse of one glue step |
| Tokenizer.MergeRoundTrip | split_message.py:9-14 | splitting every plain merged token on single spaces and flattening gives back the merge's input, in order |
| Tokenizer.SplitMessageRoundTrip | split_message.py:4-16 | for single-line text, un-merging the output of `split_message` recovers the regex match list exactly |
| Numbers.NumericPrefix | fix_numbers.py:19-22 | the buffered run is non-empty when the text starts numeric and never exceeds the text |
| Numbers.NumericPrefixSpec | fix_numbers.py:19-22 | the buffered run is all numeric and is followed by a non-numeric character or the end: it is maximal |
| Numbers.PiecesJoin | fix_numbers.py:19-32 | joining the pieces' texts gives back the text: nothing is lost or reordered |
| Numbers.PiecesWellCut | fix_numbers.py:19-32 | plain pieces are non-numeric, runs are non-empty and numeric, and no two runs are adjacent, so every run is maximal |
| Numbers.PiecesSplit | fix_numbers.py:19-32 | cutting text at a non-numeric boundary cuts its pieces there |
| Numbers.ScanNumbers | fix_numbers.py:15-43 | the one-pass buffered scan equals the piece-wise rendering, failure included, under either error policy |
| Numbers.FixNumbers | fix_numbers.py:5-48 | unless some run raises an exception other than `ValueError`, the output is each character unchanged and each maximal run converted or, on `ValueError`, kept verbatim, in order; otherwise it is the original text |
| Numbers.FixNumbersStrict | fixNumbers.py:4-20 | succeeds iff every maximal numeric run converts; a failure names a run of the text that did not convert |
| Numbers.FixNumbersScan | fix_numbers.py:5-48 | the buffered scan with the outer handler equals `FixNumbers`: an escaping exception returns the original text |
| Numbers.ScanLoop | fix_numbers.py:19-32 | after the loop, the joined symbols render everything before the trailing buffer, which is the maximal numeric suffix; or a flush failed and the whole text fails with that run |
| Numbers.RenderKeepRun | fix_numbers.py:24-31 | with the `ValueError` fallback, rendering succeeds iff no run raises another exception, and then yields each piece's spoken form in order |
| Numbers.RenderPropagate | fixNumbers.py:7-18 | without the fallback, rendering succeeds iff every run converts, then agrees with the fallback rendering; a failure names a run of the text that did not convert |
| Numbers.NoNumericUnchanged | fix_numbers.py:19-32 | text without numeric characters comes back unchanged from both normalisers |
| Numbers.FixNumbersNoneConverted | fix_numbers.py:24-40 | when no run converts, the output equals the input |
| Numbers.TrailingRunConverted | fix_numbers.py:35-40 | a numeric run at the very end is still flushed: the output gains exactly its conversion, in both normalisers |
| Numbers.StrictAgreesWhenAllConvert | fixNumbers.py:4-20 | the strict normaliser succeeds iff every maximal run converts, then equals the fallback normaliser's result; otherwise its error is a run that failed |
| Segmenter.KindOf | sound_play.py:53-58 | a token is an effect marker or malformed iff it matches `\{\d+\}` at its start; it is malformed iff, in addition, the text between its first and last character is not all digits (where `int(token[1:-1])` raises); an effect's id is the decimal value of that text, never negative; a token is a reset iff it is `{.}` |
| Segmenter.Segments | sound_play.py:52-68 | on success, segments are non-empty; concatenated they are exactly the non-marker tokens in order; each token carries the ids of the `{n}` markers since the last `{.}`; the segments' token lists are exactly the maximal runs of text tokens (`Runs`), in order, so every `{n}` and `{.}` closes the open segment |
| Segmenter.RunsCoverTexts | sound_play.py:52-68 | the reference runs are the maximal runs of text tokens: flattened they give the text tokens in order, one run per run start |
| Segmenter.SegmentsFailOnlyOnMalformed | sound_play.py:52-57 | the loop fails iff some token passes the `{\d+}` start test without being all digits inside, and the error names such a token |
| Segmenter.ScanConsistent | sound_play.py:52-65 | after any prefix of tokens the loop state agrees with the reference: pending ids, tagged tokens, text tokens, the run count, and the closed segments plus the open one are the runs so far |
| Segmenter.StepConsistent | sound_play.py:52-65 | one iteration of the loop keeps the loop state in agreement with the reference |
| Segmenter.SinceLastResetIsSuffix | sound_play.py:58-63 | the tokens that contribute pending ids are exactly those after the last `{.}`, which contains no `{.}` |
| Segmenter.BraceSpanKind | sound_play.py:53-65 | a brace span is an effect marker iff its inside is non-empty digits (with that decimal value), a reset iff its inside is `.`, and ordinary text otherwise (`{x}`, `{}`) |
| Effects.EffectOps | sound_play.py:141-185 | ids 1 to 12 issue a non-empty list of sox calls and every other id issues none |
| Effects.Distinct | sound_play.py:135 | the ids without repetition, with the same members |
| Effects.EffectCounts | sound_play.py:135-139 | one count per distinct id, keyed in first-occurrence order |
| Effects.OccurrencesCount | sound_play.py:135 | the count of an id is its multiplicity in the id list |
| Effects.CountsRespectCeiling | sound_play.py:135-139 | each counted id occurs in the list; without a ceiling the count is its multiplicity; with one it is at most the ceiling, unchanged when within it and the ceiling when above |
| Effects.EffectChain | sound_play.py:135-185 | without a ceiling, the chain holds exactly the operations of the markers taken one by one, as a multiset: grouping by id loses and adds nothing |
| Effects.DistinctFirstOccurrenceOrder | sound_play.py:135-141 | the chain handles ids in the order of their first occurrence |
| Effects.KnownIds | sound_play.py:184-185 | no longer than the input; an id is kept iff it occurs and lies in 1..12 |
| Effects.KnownIdsAppend | sound_play.py:184-185 | filtering keeps the order: the known ids of `a + b` are those of `a` followed by those of `b` |
| Effects.UnknownIdsContributeNothing | sound_play.py:184-185 | dropping the ids outside 1..12 leaves the chain unchanged |
| Assembly.EndsSentence | sound_play.py:103 | the closed form (ends in `.`, `!` or `?` with no earlier newline, optionally followed by one final newline) holds iff some stop character is preceded only by non-newlines and followed by the end or one final newline: the meaning of the regular expression on that line |
| Assembly.Punctuate | sound_play.py:103-104 | speech text is left as is or gets one `.` appended |
| Assembly.PunctuateSingleLine | sound_play.py:103-104 | for single-line text, `.` is appended iff the text does not end in `.`, `!` or `?`; the result passes the test, and punctuating twice equals once |
| Assembly.LibraryPath | sound_play.py:100 | a library path starts with `sounds/` and ends with `.wav` |
| Assembly.Resolve | sound_play.py:99-104 | a token plays a library file iff it starts with `[`, ends with `]` and is listed; everything else is spoken |
| Assembly.InputPaths | sound_play.py:98-109 | a listed name resolves to `sounds/<inner>.wav`; any other token to a `tmp/` speech file |
| Assembly.Combined | sound_play.py:130-133 | the combination keeps the files in order: none gives nothing, one is copied, several are concatenated |
| Assembly.CommonPrefix | sound_play.py:118 | the result is a prefix of both paths, and the next characters differ |
| Assembly.CommonPrefixIsDir | sound_play.py:118 | the common prefix with `sounds` is `sounds` iff the path starts with `sounds` |
| Assembly.Removed | sound_play.py:115-119 | cleanup removes exactly the input paths not starting with `sounds`, and no more paths than there are inputs |
| Assembly.RemovedSpeechOnly | sound_play.py:115-119 | an input is removed iff it holds speech: library files are never deleted |
| Assembly.ProcessSegment | sound_play.py:94-121 | one input per token holding that token's resolution, combined in order and never empty for a non-empty segment; the chain is the segment's effect chain; cleanup removes exactly the speech inputs and never a library file |
| Assembly.FinalClip | sound_play.py:75-83 | nothing plays for zero outputs; otherwise the outputs in order, copied when there is one and concatenated when several |
| Pipeline.SplitMessageBraceClean | split_message.py:6-14 | every output token that starts with `{` is a whole brace span closed by its first `}` |
| Pipeline.SegmentsNeverFail | sound_play.py:52-57 | the `int()` of an effect marker never raises on tokenizer output |
| Pipeline.AllClipsResolve | sound_play.py:52-104 | across all jobs, the clips are the resolutions of the message's text tokens, in order |
| Pipeline.HandleMessage | sound_play.py:43-83 | a message always renders, with one job per segment; nothing plays iff there is no job |
| Pipeline.HandleMessageSpec | sound_play.py:43-83 | a message always renders; there is one job per segment, each with inputs and the chain of that segment's effect ids; the clips resolve the text tokens in order; nothing plays iff there is no text token; otherwise the job outputs play in order |
| SoundLibrary.Entry | list_sounds.py:23 | an entry starts with `[` and ends with `]`, two characters shorter than its file name |
| SoundLibrary.EntryRoundTrip | list_sounds.py:23 | the inside of an entry is the file name minus `.wav`, and `sounds/` + inside + `.wav` is `sounds/` + the file name |
| SoundLibrary.EntryInjective | list_sounds.py:23 | distinct `.wav` files give distinct entries |
| SoundLibrary.ListSounds | list_sounds.py:17-25 | no more entries than file names, and every entry starts with `[` and ends with `]` |
| SoundLibrary.ListSoundsAppend | list_sounds.py:21-23 | the list follows the listing order: listing two parts lists each in turn |
| SoundLibrary.ListSoundsEntries | list_sounds.py:21-23 | one entry per `.wav` file and no other; an entry is in the list iff it is built from a listed `.wav` file |
| Pipeline.ListedEntryResolves | list_sounds.py:23 | the entry of a listed `.wav` file resolves to that very file `sounds/<file>` |
| Pipeline.LibraryClipsAreListed | sound_play.py:99-100 | every library clip resolved against the list is `sounds/<file>` for some listed `.wav` file |

## Left out

- The asyncio queue loop of `sound_play`:
  - the `wait_for` timeout and `task_done`;
  - the exception handler that logs and continues (sound_play.py:37-51, 84-91).
  `HandleMessage` returns `Err` only where the marker `int()` would raise, and `Pipeline.HandleMessage` proves that this cannot happen. Failures of the speech request, sox and file operations, which the handler also catches, are not modelled.
- `async_play` and playback (sound_play.py:190-199), because they are OS audio and file deletion.
- The speech request (sound_play.py:106-108), because it is the network and a shell. The temporary file name is taken from a parameter instead of `uuid.uuid4()` (lines 107 and 112), and so is each output name.
- The audio effect of the sox calls, `shutil.copy` and the fixed `tmp/combined_input.wav` path, because they are audio and file-system work. Only the combination choice and the list of sox calls are modelled. Float arguments of those calls are written in hundredths (`Pad(50, 50)`, `Tempo(50)`, `Tempo(150)`).
- `num2words`, because it is a foreign library. It is an uninterpreted parameter with three outcomes (words, `ValueError`, any other exception). `int()` of a numeric run is folded into it.
- `isnumeric`, because it depends on the Unicode character database. It is an uninterpreted parameter.
- Segmenter.KindOf: `\d` in the marker test and the `int()` of the marker are modelled for ASCII digits only. Python also accepts other Unicode decimal digits.
- `SOUND_CAP` (sound_play.py:20), because the source reads it but never uses it. There is no sample cap.
- Logging, configuration loading and `clean_tmp`, because they are I/O. The repetition ceiling is an `Option<int>` parameter.
- main.py, pubsub.py, start.py and oauth.py, because they are chat transport, authentication and task wiring.
- `os.listdir`, because it is the file system. Its result is the input sequence of `SoundLibrary.ListSounds`. That sequence is taken in whatever order the listing gives.
- Tokenizer.SplitMessageRoundTrip, Tokenizer.LexShapes and Tokenizer.SplitMessageTokenShapes: proved only for text without newlines. The scanner and merge themselves follow the regexes on any text. A `[..]` span that spans lines with its closer after the first newline fails the merge test `\[.*\]`. Such a span is glued onto a preceding plain word.
- Assembly.PunctuateSingleLine: the exact closed form is proved for single-line text. `Assembly.EndsSentence` states the test for any text.
- A bracketed name that is not in the sound list is deliberately not unwrapped. It is spoken with its brackets, as in the source.
