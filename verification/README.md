# Subtitle preprocessing of the auto-synced dubbing script, in Dafny

This project models the subtitle stages of `main.py`. These are the steps
between reading a SubRip (`.srt`) file and handing the cues to speech
synthesis:

- **Parsing.** The parse loop turns the file's lines into the subtitle
  dictionary `subsDict`. A digit-only line followed by a timing line
  `HH:MM:SS,mmm --> HH:MM:SS,mmm` opens a cue. The cue's text runs up to the
  first blank line. The previous cue, found under `str(int(key) - 1)`,
  learns the gap to the new one.
- **Combining.** `combine_subtitle_entries` folds a cue into the one before
  it when the gap between them is zero and the two texts are short enough.
- **Buffer promotion.** With a positive `addBufferMilliseconds`, every cue's
  timing is replaced by its buffered timing.
- **Translation.** `translate_dictionary` collects the texts and counts their
  UTF-8 bytes. It sends them to the translation service in one request, or
  in slices of 100 above 27000 bytes. It writes the answers back by position
  and lays out the translated SubRip file. With translation skipped, it copies
  each text instead.
- **The language loop.** A fresh copy of the prepared dictionary is
  translated once per target language.

The dictionary is an insertion-ordered mapping. It is modelled as a
sequence of `Entry(key, cue)` with distinct keys:

- assigning to a present key keeps its position;
- assigning to a new key appends it;
- `del` removes the entry.

Keys stay strings, exactly as the index lines read once stripped. Numeric
fields, which the script stores as decimal strings, are integers here. An
empty `break_until_next` is `None`.

Modules:

- `Text`: the `str` operations the script relies on (`strip`, `isdigit`,
  `int`/`str`, `split(' --> ')`, the UTF-8 length).
- `Timestamps`: the timing-line pattern and the clock arithmetic.
- `Cues`: the cue record and the ordered dictionary.
- `SrtParser`: the parse loop, as a specification function (`Parse`) and as
  the loop itself (`ParseSrt`).
- `Combiner`: the combining loop as written (`Combine`), and an independent
  left-to-right pairwise reference (`Pairwise`).
- `Promotion`: the buffer promotion.
- `Translation`: the translation stage, with the service as a function
  parameter.
- `Subtitles`: the class `SubtitleDict`. Its methods update the dictionary in
  place, each proved against the function of its stage.
- `Pipeline`: the stages in the order the script runs them.

The source's uncaught errors become `Result` failures:

- `IndexOutOfRange`: reading past the last line.
- `MissingKey`: the previous cue's key was never parsed.
- `AnswerTooShort`: the service sent back fewer texts than there are cues.

The chunked translation path writes each slice's answers from the first cue
of the whole dictionary on. Each later slice therefore overwrites the earlier
ones, and a dictionary of more than 100 cues fails unless the service answers
with more texts than it was sent. The evident intent is to place each
slice's answers after those of the slices before it. The model follows the
code as written (`AssignChunksSpec`, `LargeDictionaryFails`).

## Model

| member | source | states |
|---|---|---|
| Text.StripSpec | main.py:130 | `strip()` yields the empty string exactly for an all-whitespace line; otherwise the result neither starts nor ends with whitespace |
| Text.TrimStartSpec | main.py:130 | the left strip drops exactly the leading whitespace: a suffix of the line, all of whose dropped characters are whitespace |
| Text.TrimEndSpec | main.py:130 | the right strip drops exactly the trailing whitespace |
| Text.ShowNatRoundTrip | main.py:174 | `int(str(n)) == n` for every natural number |
| Text.CanonicalRoundTrip | main.py:174 | `str(int(k)) == k` exactly for digit strings without a leading zero |
| Text.Utf8LengthAscii | main.py:241 | a text's UTF-8 length equals its character count exactly when the text is ASCII |
| Text.Utf8LengthAppend | main.py:241 | the UTF-8 length of a concatenation is the sum of the lengths |
| Timestamps.ClockRoundTrip | main.py:153-154 | reading a clock written from `ms` (below 100 hours) gives back `ms` |
| Timestamps.TimestampSplit | main.py:148-150 | `split(' --> ')` cuts a timing line at offset 12: part 0 is the start clock, and part 1 begins with the end clock |
| Timestamps.StripTimestampLine | main.py:132 | the stripped timing line is still a timing line with the same two clocks |
| Timestamps.RejoinedTimestamp | main.py:201 | the rewritten timing line of a combined cue is a timing line made of the first line's start part and the second line's end part |
| Timestamps.RejoinedClocks | main.py:201 | the rewritten line reads the first cue's start and the second cue's end |
| Cues.PutSpec | main.py:146 | `d[k] = c` leaves `k` mapped to `c`, keeps keys distinct, grows the dictionary only for a new key, and leaves every other entry in place |
| Cues.PutLookup | main.py:146 | after `d[k] = c`, `k` maps to `c` and every other key maps to what it did before |
| Cues.PutKeys | main.py:146 | `d[k] = c` keeps the key order, and a new key goes last |
| Cues.RemoveAt | main.py:206 | `del` removes exactly one entry and keeps the order of the rest |
| Cues.NeighbourKeys | main.py:174 | `str(int(k) - 1)` and `str(int(k) + 1)` differ from `k` and are one away from it in value; the successor of the predecessor of a canonical positive key is the key |
| Cues.NewCueTiming | main.py:153-170 | a new cue's duration is end minus start; with a positive buffer `b` the buffered interval is `[start + b, end - b]` and `2b` shorter, otherwise the buffered fields equal the plain ones; the gap is empty and there is no translation |
| SrtParser.CollectText | main.py:133-143 | the text loop returns exactly `CueText` for the block, including running off the end of the file |
| SrtParser.CueTextSpec | main.py:133-143 | a block's text is the stripped lines from the one after the timing line up to the first blank line below it, joined by single spaces; with no blank line below, it fails with an index error |
| SrtParser.LinkFails | main.py:172-174 | the gap bookkeeping fails exactly when the block is not on the first line and the previous key is absent |
| SrtParser.StoreKeys | main.py:146-176 | storing fails, with the previous key as the KeyError, exactly when the block is not first and the previous cue is absent; otherwise the new key is last or the key keeps its place |
| SrtParser.StoreLater | main.py:172-174 | a later block stores its cue and writes `start - previous end` into the previous cue; no other key changes |
| SrtParser.StoreFirst | main.py:146-176 | the block on the first line stores its cue with gap `'0'`, and nothing else changes |
| SrtParser.AddCueKeys | main.py:131-176 | a recognised block fails with a KeyError on `str(int(key) - 1)` exactly when it is below the first line and that key is absent |
| SrtParser.AddCueLater | main.py:146-174 | a later block whose previous cue exists stores the cue built from its lines; keys other than it and its predecessor keep their cues |
| SrtParser.AddCueFirst | main.py:146-176 | the block on the first line stores its cue with a zero gap; every other key keeps its cue |
| SrtParser.ParseFromNoBlocks | main.py:129-131 | with no block left to open, the loop leaves the dictionary unchanged |
| SrtParser.ParseSrt | main.py:129-176 | the parse loop returns exactly `Parse(lines, buffer)`, its errors included |
| SrtParser.ParseKeys | main.py:129-146 | a successful parse has a key exactly for each stripped digit-only line that is followed by a timing line |
| SrtParser.LastCueOpen | main.py:146-176 | in a successful parse, the last block (if not on the first line) keeps the cue built from its own lines, with an empty gap |
| SrtParser.CueAtShaped | main.py:146-170 | the cue built for a block has a digit key, consistent buffered timing, a timing line that spells out its start and end, and no gap yet |
| SrtParser.ParseGaps | main.py:129-176 | with index lines of distinct values, every gap recorded in a cue is the distance from its end to the start of the cue under the next index, the first line's `'0'` included |
| SrtParser.ParseWellFormed | main.py:129-176 | a successful parse yields distinct digit keys, each cue consistent with the buffer and with its timing line, and no translation |
| Combiner.MergeCue | main.py:188-201 | a merged cue keeps its own start, buffered start, gap and translation, and its text is as long as the two texts and one space between them |
| Combiner.CombineStep | main.py:183-210 | one loop iteration keeps the dictionary combinable, never grows it, and keeps keys distinct |
| Combiner.CombineIsPairwise | main.py:180-212 | when keys increase along the order, the loop as written equals the left-to-right pairwise reference |
| Combiner.PairwiseEntry | main.py:183-206 | for each input entry, its key disappears exactly when it was absorbed by the one before it; otherwise the key holds the entry merged with its successor, or the entry unchanged |
| Combiner.NoCascade | main.py:183-210 | when a cue is folded into the one before it, that one holds exactly the two merged and the next cue keeps its own key: the loop as written never chains |
| Combiner.ChainOfThree | main.py:183-206 | of three joinable neighbours, the first absorbs the second and the third stays as it was |
| Combiner.PairwiseSettled | main.py:180-212 | after combining, no entry can absorb the entry after it |
| Combiner.PairwiseOfSettled | main.py:180-212 | a dictionary in which nothing can be absorbed is left unchanged |
| Combiner.CombineIdempotent | main.py:180-212 | a second combining pass changes nothing |
| Combiner.PairwiseIncreasing | main.py:180-212 | combining keeps the keys increasing |
| Combiner.MergeTiming | main.py:192-198 | merging a cue with the cue that starts at its end spans the first start to the second end, and the durations add up; with a non-negative buffer the buffered timing stays consistent |
| Combiner.MergeTimestamps | main.py:201 | the rewritten timing line of a merged cue still spells out its start and end |
| Combiner.IncreasingApart | main.py:174 | keys that increase along the dictionary are digit strings no two of which have the same value, so `str(int(k) + 1)` names one cue |
| Combiner.CombineTimed | main.py:180-212 | when every zero gap is a true one, every combined cue's timing fields and timing line agree |
| Promotion.PromoteTiming | main.py:217-221 | with a positive buffer `b`, a cue's start moves `b` later, its end `b` earlier, its duration shrinks by `2b`, and nothing else changes; otherwise the cue is unchanged |
| Promotion.PromoteAllKeys | main.py:217-221 | promotion keeps every key at its position |
| Promotion.PromoteAllTiming | main.py:217-221 | promotion promotes each cue; with a positive buffer every cue becomes consistent with no buffer, and otherwise the dictionary is unchanged |
| Subtitles.SubtitleDict.AbsorbNext | main.py:183-210 | one iteration on the live dictionary performs exactly `CombineStep` |
| Subtitles.SubtitleDict.CombineEntries | main.py:180-212 | the in-place loop over a snapshot leaves exactly `Combine` of the old entries |
| Subtitles.SubtitleDict.PromoteBuffer | main.py:217-221 | the in-place loop leaves exactly `PromoteAll` of the old entries |
| Subtitles.SubtitleDict.CollectTexts | main.py:232-236 | the texts to translate are the cue texts, in dictionary order |
| Translation.Texts | main.py:232-236 | one text per cue, the `i`-th being cue `i`'s text |
| Translation.PayloadBytes | main.py:239-241 | the byte-count loop returns the summed UTF-8 length of the texts |
| Translation.Utf8TotalBounds | main.py:239-241 | the payload is between one and four bytes per character, and exactly one per character for ASCII texts |
| Translation.Utf8TotalAppend | main.py:239-241 | the payload of two lists is the sum of their payloads |
| Translation.ChunkedSpec | main.py:251 | there are `ceil(n / 100)` slices, none empty, all but the last exactly 100 long, and their concatenation is the list |
| Translation.ChunkedPrefix | main.py:251 | the first `k` slices, flattened, are the list up to the end of slice `k` |
| Translation.AssignPositional | main.py:294-295 | writing back succeeds exactly when there are at least as many answers as cues; cue `i` then holds answer `i`, and nothing else changes |
| Subtitles.SubtitleDict.AssignAnswers | main.py:294-295 | the in-place loop succeeds exactly when there are enough answers, and then leaves `AssignPositional`'s result |
| Translation.AssignChunksSpec | main.py:254-276 | the sliced path succeeds exactly when every slice's answer has at least one text per cue, and then the last slice's answers are the ones that remain |
| Translation.SinglePath | main.py:280-295 | at most 27000 bytes go out in one request, which succeeds exactly when every cue gets an answer; cue `i` then holds answer `i` |
| Translation.SmallDictionarySingleRequest | main.py:246-295 | with 100 cues or fewer, both paths send the same request and write back the same answers |
| Translation.LargeDictionaryFails | main.py:246-276 | above 27000 bytes and 100 cues, a service that never answers with more texts than it was sent makes the run fail |
| Translation.SkipCopiesText | main.py:298-300 | skipping the service gives every cue its own text as its translation, and changes nothing else |
| Subtitles.SubtitleDict.CopyOwnTexts | main.py:298-300 | the in-place skip loop leaves exactly `CopyTexts` of the old entries |
| Translation.TranslateKeepsCues | main.py:245-300 | a successful run keeps every key, position and field, and gives every cue a translation |
| Translation.TranslatedFile | main.py:303-316 | a run succeeds exactly when its writing back does; it yields no file when skipped, and a file otherwise |
| Translation.SrtBlockLayout | main.py:312-314 | a block of the translated file is the key, the timing line and the translation, each on its own line, then a blank line |
| Translation.SrtDocumentAppend | main.py:311-314 | the file for two runs of cues laid end to end is the two files laid end to end |
| Translation.WriteSrt | main.py:310-314 | the writing loop produces exactly `SrtDocument` of the dictionary |
| Subtitles.SubtitleDict.Translate | main.py:228-316 | translating in place yields `TranslatedFile` of the old entries; on success it leaves `TranslateEntries`' dictionary, with every cue translated |
| Pipeline.ParsedCombinable | main.py:186-201 | every parsed dictionary meets what the combiner needs: digit keys and timing lines with a separator |
| Pipeline.Prepare | main.py:129-221 | preparation fails exactly when parsing does, with the same error |
| Pipeline.PrepareIsPairwise | main.py:214-221 | when index lines count up, preparation is pairwise merging followed by promotion, and a second combining pass changes nothing |
| Pipeline.PrepareSubtitles | main.py:129-221 | parsing, then combining and promoting a fresh dictionary, yields exactly `Prepare` |
| Pipeline.TranslateAllSpec | main.py:330-338 | the language loop succeeds exactly when every language's run does, yielding each language's own file; otherwise it reports the first failing language's error |
| Pipeline.TranslateLanguages | main.py:330-338 | translating a fresh copy per language yields exactly `TranslateAll` |
| Pipeline.ParsedTimed | main.py:129-176 | with increasing index lines, the parsed dictionary meets the combiner's timing hypothesis: each cue agrees with its timing line, and a zero gap means the next cue starts where it ends |
| Pipeline.PreparedTimed | main.py:129-221 | with increasing index lines and a non-negative buffer, parsing, combining and promotion succeed and every prepared cue's duration is end minus start with its buffered fields equal to its plain ones |
| Pipeline.ProcessSpec | main.py:129-338 | a run succeeds exactly when the file parses and every language translates; a parse error is reported before any language; output `l` is language `l`'s file |
| Pipeline.Run | main.py:129-338 | the whole run yields exactly `Process` |

## Left out

- Reading the configuration files, `ffprobe` and the total audio length are left out; the script only prints them or passes them on.
- File input and output are left out. The `.srt` file's lines are a parameter, and the translated file is returned as a string.
- The output file name, built with `langcodes` and `pathlib` from the video name, is left out.
- The Google Translate API and its authentication are left out. The service is a function parameter from the texts sent to the texts received, and a failed call is not modelled.
- Speech synthesis, audio building and everything after translation are left out.
- Progress printing is left out.
- `copy.deepcopy` becomes a fresh `SubtitleDict` built from the same entry values, since entries are immutable values here.
- `str.isdigit()` and the pattern's `\d` also accept non-ASCII decimal digits in Python. The model accepts ASCII digits only.
- The model reads the two clocks from the 29 characters the pattern matches. The script splits the whole stripped line instead, so whatever follows the end clock reaches its last `int()` call unless a split removes it first. Trailing digits, or `_` and digits, become part of the end milliseconds: `00:00:01,000 --> 00:00:02,0005` ends at 2005 in the script and at 2000 in the model. Trailing text that starts with `,`, `:` or ` --> ` is cut off by the splits and ignored, as in the model. Any other trailing text, such as ` x`, makes `int()` raise `ValueError`, which the model does not report.
- Subtitles.SubtitleDict.Translate: on failure it says nothing about the entries, although the script leaves the cues it already overwrote.
- SrtParser.AddCueLater: does not state the gap written into the previous cue; `SrtParser.StoreLater` states it for the same store.
- Combiner.CombineIsPairwise: the equality with the pairwise reference needs keys that increase along the dictionary order, as they do in a file whose index lines count up. Other orders are modelled by `Combine` but not characterised.
- Subtitles.SubtitleDict.CombineEntries: requires digit keys and timing lines with a separator. Otherwise the script raises `ValueError` or `IndexError`, which the loop does not catch. `Pipeline.ParsedCombinable` proves that every parsed dictionary meets this requirement.
- SrtParser.ParseGaps: needs index lines whose values are distinct. With index lines `1`, `2`, `02`, both later blocks write the gap of cue `1`, and the last write measures the distance to `02`, not to the cue under `2`. The model does the same, but the lemma does not cover such files.
- Combiner.MergeTiming: with a negative buffer it states only how far the buffered duration is from the buffered end minus start.
