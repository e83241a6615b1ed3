# Subtitle generation and phrase matching of a speech-recognition clipper

This project models the text-processing core of a tool that recognises
speech, lets a user pick phrases or speakers, and writes SRT subtitles.
It covers two Python files:

- `utils/subtitle_utils.py`:
  - `time_convert` formats milliseconds as an SRT time.
  - `Text2SRT` is a record holding a text, its interval and its formatted times. It has `text()` and `srt()`.
  - `generate_srt` is a single greedy pass. It merges consecutive sentences of the same speaker when the gap is at most a threshold, then writes numbered SRT blocks.
- `utils/trans_utils.py`:
  - `pre_proc` normalises text for matching. It drops punctuation and puts spaces around CJK characters.
  - `proc` finds every occurrence of a phrase in the recognised text and maps it to a scaled time span through the word timestamps.
  - `proc_spk` collects the scaled spans of one speaker's long sentences.

The Dafny modules follow the files:

| module | file | what it holds |
|---|---|---|
| `Wrappers` | `wrappers.dfy` | `Option`, `Result` |
| `PyErrors` | `py_errors.dfy` | the exceptions raised, as one datatype |
| `Decimal` | `decimal.dfy` | `str(n)` and `int(s)` for naturals |
| `PyStr` | `py_str.dfy` | the Python string built-ins the core calls: `isspace`, `lstrip`, `find`, `count`, `split()`, `split(c)` and `<=` on strings |
| `SubtitleUtils` | `subtitle_utils.dfy` | `time_convert`, `Text2SRT`, the SRT time parser of the time-format tests |
| `GenerateSrt` | `generate_srt.dfy` | `generate_srt`, the merge as a function, and a reference definition by maximal runs |
| `TransUtils` | `trans_utils.dfy` | `pre_proc`, `proc`, `proc_spk` |

The loops of the source are methods with loop invariants:
- `TextOf` (the loop of `text()`)
- `GenerateSrt` with its step `Advance`
- `PreProc`, `Proc` and `ProcSpk`

Each method is proved equal to a specification function, and the
properties are lemmas about those functions. `Text2SRT` never changes
after `__init__`, so it is a datatype built by `NewText2Srt`, with the
invariant `Valid`.

An exception in the source is an `Err` result:
- `IndexError` for a missing timestamp or word;
- `KeyError` for a sentence without a speaker in `proc_spk`;
- `Diverges` for the `proc` loop that never ends (see below).

The three share one datatype, `PyErrors.Raised`.

Behaviour of the code worth noting, and where the repository's tests or
comments expect otherwise:

- **Millisecond field.** `time_convert` does not pad it. 5 ms is `00:00:00,5` (`TimeConvertFiveMs`), whereas `test_time_convert.py:18-34` expects `00:00:00,005`. The hour field is never capped: 100 hours is `100:00:00,0` (`TimeConvertHundredHours`). The times still read back exactly with the tests' parser (`TimeConvertRoundTrip`), because that parser reads the millisecond field as an integer.
- **Merge test is inclusive.** The printed expectations of `test_merge_logic.py` (the `"Expected: ..."` strings at lines 54-55 and 63) predict the wrong cues:
  - At a threshold of 100 ms the first three sentences still merge, since the gaps are 100 and 50 (`ScenarioAt100`).
  - At 50 ms the second and third sentences still merge (`ScenarioAt50`).
- **First interval only.** `Text2SRT.__init__` takes the end of the last interval (`timestamp[-1][1]`, utils/subtitle_utils.py:38). `generate_srt`, however, reads only `timestamp[0]` of each sentence (lines 83-84 and 89-90), so a later interval never extends a cue. `FirstIntervalOnly` proves this on the three intervals of the multi-segment sentence at `test_timestamp_bug.py:85-93`. A merged sentence's end overwrites the cue's end even when it is earlier (`EndOverwritten`).
- **Flat timestamp pairs.** `test_timestamp_bug.py:75-83` builds a sentence whose timestamp is a flat pair `[1000, 3000]` and passes it to `generate_srt` inside a `try` (lines 98-104). The code does not convert such a pair: `timestamp[0][0]` indexes into a number and raises `TypeError` (see "## Left out"). An empty timestamp list raises `IndexError`, which the model does return (`GenerateSrt`).
- **Speaker tag.** A cue with a speaker has the index line `{index}  <|spk{speaker}|>`: the tag goes after two spaces on the index line, not in the text (`HeaderLine`).
- **`ti` before the -1 check.** `proc` computes `ti` before it tests `fi == -1`. That value is never used on the break path, so the model computes it after the test.
- **Zero-word phrase.** When the phrase has no word (empty or all whitespace) and occurs, `proc` finds the same position forever (`ProcZeroWordsRepeats`). The model returns `Err(Diverges)` after the first iteration's index checks.
- **CJK test on tokens.** `text()` compares a whole token with `'一' <= word <= '鿿'`. Python compares the strings lexicographically, so this tests the first character, with an edge at U+9FFF (`CjkWordIsComparison`).

## Model

| member | source | states |
|---|---|---|
| SubtitleUtils.TimeConvert | utils/subtitle_utils.py:8-24 | `time_convert(ms)`. The hour, minute and second fields come from successive floor divisions: `ms // 1000`, then `// 60` twice, with `% 60` for minutes and seconds. Each field is `"00"` for zero, and otherwise `str(n)` with one `'0'` in front when that is a single digit. The tail is the unpadded `str(ms % 1000)`. The contract states that the result is at least ten characters long and holds only digits, `:` and `,`. |
| SubtitleUtils.TimeConvertLayout | utils/subtitle_utils.py:8-24 | The result is hours:minutes:seconds,milliseconds. Hours are `ms // 1000 // 60 // 60` in at least two digits, and exactly two below 100 hours. Minutes and seconds are two digits each, modulo 60. The millisecond field is `str(ms % 1000)` with no padding: 1 to 3 digits, 3 only when the remainder is at least 100. |
| SubtitleUtils.TimeConvertRoundTrip | utils/subtitle_utils.py:8-24 | For every `ms >= 0`, parsing the formatted time back with the tests' `parse_srt_time_to_ms` gives `ms`. |
| SubtitleUtils.TimeConvertFiveMs | utils/subtitle_utils.py:20-24 | 5 ms formats as `00:00:00,5`: the millisecond field is not zero-padded. |
| SubtitleUtils.TimeConvertHundredHours | utils/subtitle_utils.py:15-24 | 100 hours formats as `100:00:00,0`: the hour field grows past two digits. |
| SubtitleUtils.NewText2Srt | utils/subtitle_utils.py:35-41 | The record keeps the text and timestamp. Its start is the first interval's start and its end is the last interval's end, both minus the offset. Its time strings are `time_convert` of these (`Valid`). |
| SubtitleUtils.ValidTimesReadBack | utils/subtitle_utils.py:38-41 | In a valid record, `start_time` and `end_time` read back to `start_sec` and `end_sec`. |
| SubtitleUtils.CjkWordIsComparison | utils/subtitle_utils.py:50 | Python's string comparison `'一' <= word <= '鿿'` holds exactly when the token is CJK by `IsCjkWord`, in both directions. |
| SubtitleUtils.TextOf | utils/subtitle_utils.py:43-54 | `text()` returns a plain string unchanged. For a token list it returns the joined tokens, which never begin with whitespace. |
| SubtitleUtils.TextAllCjk | utils/subtitle_utils.py:47-54 | A list of CJK tokens is joined with no separator. |
| SubtitleUtils.TextNoCjk | utils/subtitle_utils.py:47-54 | A list of non-CJK tokens whose first token starts with a non-space is joined with single spaces and has no leading space. |
| SubtitleUtils.Srt | utils/subtitle_utils.py:56-61 | `srt()` with `acc_ost = 0` is `"{start} --> {end}\n{text}\n"`, where the two times are `time_convert` of `start_sec` and `end_sec` and the text is `text()`. The contract states that the block has exactly seven characters besides the two times and the text, and ends in a newline. |
| SubtitleUtils.SrtTimeLine | utils/subtitle_utils.py:56-61 | The first line of `srt()` splits into three words: the start time, `-->` and the end time. The two times read back to the record's start and end. |
| GenerateSrt.GenerateSrt | utils/subtitle_utils.py:67-123 | The result is `""` exactly for no sentence. It is `IndexError` exactly when some sentence has no interval. Otherwise it is the rendering of `Merge`: the numbered blocks of the merged cues, in order. |
| GenerateSrt.Advance | utils/subtitle_utils.py:87-114 | One iteration. When the sentence joins the open cue (same speaker, gap at most the threshold), the cue takes the sentence's end and its text after one space, and the output is unchanged. Otherwise the open cue's block is appended, the index moves on, and a cue opens on the sentence. |
| GenerateSrt.AppendBlock | utils/subtitle_utils.py:103-108 | Writing a cue's block extends the rendering of the cues closed before by that cue's block, with the speaker tag when there is a speaker. |
| GenerateSrt.CueRecord | utils/subtitle_utils.py:103 | The `Text2SRT` record built for a cue renders the cue's own start, end and text. |
| GenerateSrt.MergeSpan | utils/subtitle_utils.py:82-114 | The first cue has the first sentence's speaker and start. The last cue ends at the end of the last sentence's first interval. |
| GenerateSrt.MergeIsRuns | utils/subtitle_utils.py:87-121 | The greedy pass yields exactly one cue per maximal run of sentences that the merge test does not split. Each cue carries the run's speaker, first start, last end and texts joined by spaces. |
| GenerateSrt.CueCount | utils/subtitle_utils.py:94-108 | The number of cues is one plus the number of places where the merge test fails. |
| GenerateSrt.MergeThresholdMonotone | utils/subtitle_utils.py:97 | A larger merge threshold never gives more cues. |
| GenerateSrt.SpeakerChangesSplit | utils/subtitle_utils.py:94-97 | Whatever the threshold, there are at least one plus as many cues as there are speaker changes between neighbouring sentences: a change of speaker always starts a new cue. |
| GenerateSrt.MergeApart | utils/subtitle_utils.py:94-114 | No two neighbouring cues would merge: each pair has different speakers or a gap above the threshold. |
| GenerateSrt.MergeIdempotent | utils/subtitle_utils.py:87-121 | Merging the cues again, each taken as a sentence, gives the same cues. |
| GenerateSrt.MergeKeepsTexts | utils/subtitle_utils.py:91-114 | The cue texts, joined by spaces, are the sentence texts joined by spaces: no text is lost or reordered. |
| GenerateSrt.FirstIntervalOnly | utils/subtitle_utils.py:83-84 | A sentence with several intervals gives a cue spanning only its first interval. |
| GenerateSrt.EndOverwritten | utils/subtitle_utils.py:99 | A merged sentence's end replaces the cue's end even when it is earlier. |
| GenerateSrt.ScenarioAt1000 | test_merge_logic.py:16-49 | At 1000 ms the three speaker-0 sentences become one cue from 0 to 6000, followed by the speaker-1 cue and the last speaker-0 cue. |
| GenerateSrt.ScenarioAt100 | test_merge_logic.py:16-58 | At 100 ms the cues are the same as at 1000 ms, because the gap test is inclusive. |
| GenerateSrt.ScenarioAt50 | test_merge_logic.py:16-66 | At 50 ms the first sentence stands alone, and the second and third still merge (gap 50). |
| TransUtils.PreProc | utils/trans_utils.py:24-40 | The loop's result is `PreProcSpec`: each character's step applied in order, then one trailing space dropped. |
| TransUtils.PreProcNoPunc | utils/trans_utils.py:26-30 | The output holds none of the nine punctuation characters. |
| TransUtils.PreProcOnlySpaces | utils/trans_utils.py:28-39 | Apart from spaces, the output is the input with its punctuation removed: only spaces are added or dropped. |
| TransUtils.PreProcCjkSpacing | utils/trans_utils.py:31-35 | Every CJK character in the output has a space before it, unless it is first, and a space after it, unless it is last. |
| TransUtils.PreProcPlain | utils/trans_utils.py:36-39 | Text without CJK and punctuation comes out unchanged, except that one trailing space is dropped. |
| TransUtils.PreProcTwoCjk | utils/trans_utils.py:31-39 | Two CJK characters come out separated by one space, with no trailing space. |
| TransUtils.Proc | utils/trans_utils.py:42-55 | The loop's result is `ProcSpec`. For a phrase of at least one word it is the pairs of all successive matches, or `IndexError` at the first match whose words are missing. For a phrase with no word it is `[]` when there is no occurrence, and otherwise `IndexError` or divergence. |
| TransUtils.MatchPair | utils/trans_utils.py:49-54 | The pair for a match exists exactly when both Python indices, the space count `ti` and `ti + ld - 1`, are within `-len .. len - 1` of the timestamp list. The pair is then the start of word `ti` and the end of word `ti + ld - 1`, times 16. |
| TransUtils.HitInRange | utils/trans_utils.py:54 | For a phrase of at least one word, a match has its pair exactly when `ti + ld - 1` is below the number of timestamps. |
| TransUtils.MatchesSound | utils/trans_utils.py:47-53 | Every position the loop records is an occurrence of the phrase. Successive positions are at least `ld` apart. |
| TransUtils.MatchesCover | utils/trans_utils.py:47-53 | Every occurrence of the phrase lies within `ld` characters after some recorded position: none is missed except those the `ld`-wide skip jumps over. |
| TransUtils.MatchesOverlap | utils/trans_utils.py:52 | The offset moves by the word count, not by the phrase length. In `"a a a"` the phrase `"a a"` is found at 0 and again at 2. |
| TransUtils.CollectPairs | utils/trans_utils.py:53-54 | The pairs succeed exactly when every match has its words. There is then one pair per match, in order. Otherwise the error is `IndexError`. |
| TransUtils.ProcZeroWordsRepeats | utils/trans_utils.py:44-53 | With no word in the phrase, the next search starts at the match just found and finds it again: the loop never ends. |
| TransUtils.ProcNoWord | utils/trans_utils.py:44-51 | An empty or all-whitespace phrase has no word, that is `len(dest_text.split()) == 0` (the two are equivalent by `PyStr.WordCountZero`). For such a phrase, `proc` returns normally exactly when the phrase does not occur, and then returns no pair. |
| TransUtils.ProcSpk | utils/trans_utils.py:57-66 | The loop's result is `ProcSpkSpec`: the sentences in order, each contributing its scaled span when its speaker is `dest_spk[3:]` and it lasts more than 999 ms, or the first exception. |
| TransUtils.ProcSpkResult | utils/trans_utils.py:59-66 | `proc_spk` raises exactly when some sentence lacks an interval or a speaker. Otherwise it yields at most one pair per sentence, and each pair spans at least 16000. |
| TransUtils.ProcSpkAppend | utils/trans_utils.py:60-66 | `proc_spk` on a concatenation is `proc_spk` on each part, concatenated in order, or the first part's exception. |

## Left out

- Times are naturals. The source calls `int(ms)`, so negative and fractional milliseconds (and the truncation of fractional ones) are not modelled.
- SubtitleUtils.NewText2Srt: it requires the shifted start and end to be non-negative. The source accepts negative values, which `time_convert` would then format with Python's floor division.
- SubtitleUtils.Srt: `srt()` is modelled with `acc_ost = 0` only, the one value `generate_srt` uses, and with exact integer times. In the source even the default `acc_ost=0.0` is a float, so `start_sec + acc_ost*1000` becomes a float before `int()` in `time_convert`. The model therefore agrees with the source only for times below 2^53 ms; above that the source rounds (start 9007199254740993 is written as ...992). The `OverflowError` the source raises for times beyond the float range is not modelled.
- `Text2SRT.time`: left out. It returns floating-point seconds and is not used by the core.
- `str2list`: left out. It tokenises with a Unicode regular expression, and nothing in the core calls it.
- `convert_pcm_to_float`, `write_state` and `load_state`: left out. They are array conversion and file-I/O placeholders.
- `main.py`, `asr_processor.py` and `models.py` are not part of this model. They hold the web service, the speech recogniser and its data classes.
- `lang` parameter of `proc`: omitted, because the body never reads it.
- TransUtils.ProcSpk: a sentence is modelled as missing `spk` (KeyError) or having a number. A `spk` key present with the value `None` would be compared as the string `"None"`, and that case is not modelled.
- TransUtils.Proc: the loop that never ends for a phrase with no word is reported as `Err(Diverges)` after its first iteration, not run forever. `ProcZeroWordsRepeats` shows that the loop state repeats.
- SubtitleUtils.ParseSrtTime: the tests' `int()` also accepts signs, surrounding blanks and underscores. The model accepts only plain digit strings, which is all `time_convert` produces.
- Timestamps in the sentences of `generate_srt` and `proc_spk` (the shared `GenerateSrt.Sentence`) are natural numbers, and speaker ids are natural numbers written with `str()`.
- GenerateSrt.GenerateSrt: a timestamp is a list of `(start, end)` pairs. A flat pair such as `[1000, 3000]`, where `timestamp[0]` is a number, makes the source raise `TypeError` at `timestamp[0][0]`. An interval with fewer than two items raises `IndexError` at `timestamp[0][1]`. Neither input can be written in the model, so neither error path is modelled; the same holds for `TransUtils.ProcSpk`. The source does not normalise such timestamps either: it raises.
- Default arguments: `merge_threshold=4000` of `generate_srt` and `offset=0` of `Text2SRT` are not defaults in the model. Every caller passes them explicitly: `GenerateSrt` takes the threshold, and the records built for cues pass offset 0.
