# Bilingual subtitle pipeline, modelled in Dafny

`subtitle-github.py` turns an English `.srt` subtitle file into a bilingual
one. It works in four steps:

1. It cuts the file's text into blank-line separated blocks.
2. It parses each block into a cue (an optional number, a time line holding
   `-->`, and the text lines joined by spaces), silently dropping blocks
   that lack either a time line or text.
3. It sends the cue texts, in batches of 100, to a chat-completion service.
   The service is asked to answer one `original|||translation` line per
   text. Each reply is reduced to the text after the first `|||` on every
   line that holds one, then padded with empty strings up to the batch
   length.
4. It writes every cue again: a fresh sequential number, the time, the text,
   the translation at the cue's position, and an empty line.

This project models that pipeline as pure functions:

- `Process(content, context, service)` maps the file's text to the output
  file's text, or to `None` when a service call raises (the script then
  writes nothing).
- The service and the metadata context are parameters.

Modules follow the script's steps:

- `Text`: the Python string operations the script relies on.
- `Blocks`: `split_srt_blocks`.
- `Cues`: the block-parse loop.
- `Replies`: reply parsing and padding in `translate_lines_with_context`.
- `Batching`: the batch loop.
- `Assembly`: the output loop.
- `Pipeline`: `process_srt_file` end to end.
- `Wrappers` and `Seqs` are generic helpers.

## Model

| member | source | states |
|---|---|---|
| Text.Strip | subtitle-github.py:71 | `str.strip()`: the result is a slice of the input with only whitespace cut away on either side, and it neither starts nor ends with whitespace |
| Text.StripKeeps | subtitle-github.py:121-122 | stripping a line keeps every occurrence of a whitespace-free pattern such as `-->`, so a stripped time line still holds the delimiter |
| Text.Find | subtitle-github.py:92 | the position found is an occurrence of the pattern and no earlier position is one; `None` means there is no occurrence at all |
| Text.ContainsIff | subtitle-github.py:92 | `pat in s` holds exactly when the pattern occurs somewhere in `s` |
| Text.AfterFirst | subtitle-github.py:93 | `s.split(pat, 1)[1]`: the text after the first occurrence of the pattern |
| Text.SplitJoin | subtitle-github.py:71 | joining line-feed-free lines with line feeds and splitting on line feeds gives the lines back |
| Text.JoinSplit | subtitle-github.py:71 | splitting on line feeds and joining with line feeds gives the text back |
| Text.LinesOfTerminated | subtitle-github.py:145-151 | text written as lines each ended by a line feed reads back, by `splitlines`, as exactly those lines |
| Text.Decimal | subtitle-github.py:146 | `str(n)` for a natural number is all digits with no leading zero |
| Text.DecimalValue | subtitle-github.py:146 | the digits of `str(n)` denote `n` |
| Text.StripTrimmed | subtitle-github.py:71 | a text that neither starts nor ends with whitespace is left unchanged by `strip` |
| Text.StripBlankSuffix | subtitle-github.py:71 | whitespace appended to a text is removed again by `strip`: the result is the strip of the text alone |
| Text.SplitConcat | subtitle-github.py:71 | a line feed between two texts splits them independently: the lines of the whole are the lines of the first followed by the lines of the second |
| Text.SplitAtEmptyLine | subtitle-github.py:71 | two texts separated by one empty line give the first text's lines, one empty line, then the second text's lines |
| Text.LinesOfJoin | subtitle-github.py:115 | `strip().splitlines()` gives back single lines joined by line feeds when the first starts and the last ends with a non-space |
| Text.Lines | subtitle-github.py:115 | `splitlines()`: single lines, none exactly for the empty text, and otherwise the line-feed pieces, with the final empty piece dropped exactly when the text ends with a line feed |
| Text.StrippedLines | subtitle-github.py:115 | `strip().splitlines()`, as applied to each block at line 115 and to the service reply at lines 88 and 91: single lines, none at all exactly when the text is all whitespace |
| Text.Join | subtitle-github.py:129 | `sep.join(xs)`; Text.SplitJoin and Text.JoinSplit state that, with a line feed as separator, splitting undoes it |
| Text.IsDigits | subtitle-github.py:117 | `re.match(r"^\d+$")`: a non-empty run of digits; Text.Decimal yields one and Pipeline.DigitsLine shows it is a non-blank single line |
| Text.LinesOfStrippedJoin | subtitle-github.py:115 | non-blank single lines joined by line feeds read back, after `strip().splitlines()`, as the same lines with only the first line's leading and the last line's trailing whitespace removed, none of them blank |
| Blocks.SplitBlocks | subtitle-github.py:69-71 | at least one block; an all-whitespace text gives the single empty block; otherwise every block is a run of non-blank lines, and the blocks' lines, read in order, are exactly the non-blank lines of the stripped text; split back into lines, the blocks are exactly the maximal runs of non-blank lines of the stripped text, so a blank line never lies inside a block |
| Blocks.Group | subtitle-github.py:71 | every piece between blank-line separators is a non-empty run of non-blank lines |
| Blocks.GroupFlatten | subtitle-github.py:71 | the pieces, read in order, hold every non-blank line once, in order, and nothing else |
| Blocks.GroupAtBlank | subtitle-github.py:71 | a blank line always separates blocks: the blocks before and after it are found independently |
| Blocks.GroupNoBlank | subtitle-github.py:71 | text without a blank line is one block |
| Blocks.BlankLineSeparates | subtitle-github.py:69-71 | in a text that is not all whitespace, a blank line always separates blocks: the blocks are those of the lines before it followed by those of the lines after it, so no block spans it |
| Blocks.BlocksOfGroups | subtitle-github.py:71 | splitting each block back into lines gives the runs it was made from |
| Blocks.JoinedIsBlock | subtitle-github.py:71 | non-blank single lines joined by line feeds form a block none of whose lines is blank |
| Blocks.GroupOfJoined | subtitle-github.py:71 | the lines of blocks written one after another with an empty line between them group back into exactly those blocks' lines |
| Blocks.SplitJoinedBlocks | subtitle-github.py:69-71 | `split_srt_blocks` undoes writing blocks separated by empty lines, provided the text has no surrounding whitespace |
| Cues.Scan | subtitle-github.py:118-124 | the inner loop's text lines are the stripped non-time lines, in order; a time is found exactly when some line after the first holds `-->` |
| Cues.ScanTime | subtitle-github.py:120-122 | the time kept is the last line holding `-->`, stripped |
| Cues.ParseBlock | subtitle-github.py:115-130 | a block yields a cue exactly when it has at least two lines and, after its first line, both a line with `-->` and one without; the cue's index is the first line when it is all digits, its time is the last `-->` line stripped, and its text is the other lines stripped and joined by single spaces |
| Cues.CueTextNonEmpty | subtitle-github.py:124-129 | when no line of a block is blank, a cue taken from it has a non-empty text |
| Cues.TextFact | subtitle-github.py:124-125 | the text lines are non-empty exactly when some line after the first lacks `-->` |
| Cues.TimeFact | subtitle-github.py:120-125 | a time is found exactly when some line after the first holds `-->`, and the stored time is non-empty and still holds `-->` |
| Cues.ParseBlocks | subtitle-github.py:114-130 | never more cues than blocks |
| Cues.ParseOrder | subtitle-github.py:114-130 | the cues are the results of the qualifying blocks, in block order, with no block skipped that qualifies and none used twice |
| Cues.FirstLineOnlyIndex | subtitle-github.py:116-124 | the first line of a block never contributes to the time or the text |
| Cues.TimeOnFirstLineDropped | subtitle-github.py:116-125 | a block whose only `-->` line is its first line is dropped |
| Cues.CueSingleLine | subtitle-github.py:115-129 | a cue's time and text hold no line feed |
| Cues.CueOfLines | subtitle-github.py:115-130 | a block whose first line is a numeral and which has a time line and a text line after it yields the cue with that numeral as index, the last time line, stripped, as time and the text lines joined by spaces |
| Cues.StandardLines | subtitle-github.py:115 | a block written as numeral, time line and text lines is read back line by line as written |
| Cues.StandardBody | subtitle-github.py:120-124 | in that layout the time line is the last one holding `-->`, and the text lines are the stripped lines after it |
| Cues.PlainTextLines | subtitle-github.py:120-124 | stripped lines without `-->` are all kept as text, unchanged and in order |
| Cues.OnePlainLine | subtitle-github.py:124-129 | a single plain text line is the whole cue text |
| Cues.TwoPlainLines | subtitle-github.py:124-129 | two plain text lines become one cue text, joined by a single space |
| Cues.StandardBlock | subtitle-github.py:114-130 | a block written as numeral, time line and text lines yields the cue with that numeral, the stripped time and the text lines joined by spaces |
| Replies.ReplyEntry | subtitle-github.py:92-94 | a reply line contributes exactly when it holds the triple-bar delimiter, and then it contributes the stripped text after the delimiter's first occurrence |
| Replies.ParseReply | subtitle-github.py:90-94 | never more entries than reply lines, and none for an all-whitespace reply; Replies.ParseReplyOrder states which lines contribute |
| Replies.PairLine | subtitle-github.py:92-94 | a line made of an original, the triple-bar delimiter and a translation, whose original holds no bar character, contributes its stripped translation, even when the translation itself holds the delimiter |
| Replies.ParseReplyOrder | subtitle-github.py:90-94 | the parsed entries come one per delimited line, in reply order, and lines without the delimiter are skipped |
| Replies.ParseReplySingleLine | subtitle-github.py:88-94 | parsed entries hold no line feed |
| Replies.Pad | subtitle-github.py:97-98 | the padding loop keeps every entry in place, adds only empty strings at the end, reaches the batch length and never shortens the list |
| Replies.AlignReply | subtitle-github.py:88-99 | the per-batch result is never shorter than the batch, is exactly as long as the batch if and only if the reply has at most that many delimited lines, and holds the parsed entries followed by empty strings |
| Replies.AlignReplyExact | subtitle-github.py:96-99 | corrected alignment: exactly one entry per batch text, namely the parsed entry at that position or `""` |
| Replies.ExactAgreesWhenFits | subtitle-github.py:96-99 | when the reply does not overshoot, the corrected alignment and the script's alignment agree |
| Batching.BatchesFrom | subtitle-github.py:137-138 | every slice `text_blocks[i:i + 100]` taken by the loop is non-empty and at most 100 long |
| Batching.BatchesFromCover | subtitle-github.py:137-138 | the slices from `start` on, concatenated, are exactly the texts from `start` on |
| Batching.Batches | subtitle-github.py:133-138 | the batches are non-empty, at most 100 long, and concatenated in order give back the text list |
| Batching.BatchAt | subtitle-github.py:137-138 | batch `k` is the slice starting at `100 * k` |
| Batching.FullBatch | subtitle-github.py:137-138 | every batch but the last holds exactly 100 texts |
| Batching.TranslateAll | subtitle-github.py:134-140 | the loop completes exactly when every batch is answered, and then `translated_texts` is at least as long as the text list |
| Batching.FailedAt | subtitle-github.py:137-140 | when the loop does not complete, some batch's call raised |
| Batching.TranslateAllConcat | subtitle-github.py:137-140 | `translated_texts` is the in-order concatenation of the per-batch results |
| Batching.TranslationOfPosition | subtitle-github.py:133-140 | when no reply overshoots, the text at position `i` is paired with entry `i % 100` of the reply to batch `i / 100` |
| Batching.OverlongReplyShifts | subtitle-github.py:137-140 | as written: a reply to the first batch with surplus delimited lines gives the first text of the second batch that reply's surplus entry |
| Batching.TranslateAllExact | subtitle-github.py:137-140 | corrected loop: completes exactly when every batch is answered, and then has exactly one translation per text |
| Batching.TranslateAllExactConcat | subtitle-github.py:137-140 | the corrected loop's result is the in-order concatenation of the corrected per-batch results |
| Batching.ExactAlignment | subtitle-github.py:137-140 | corrected loop: whatever the replies, text `j` of batch `k` gets entry `j` of its own batch's reply or `""` |
| Assembly.EntryWrites | subtitle-github.py:146-151 | the five writes for one cue are its entry lines, each ended by a line feed |
| Assembly.WriteFrom | subtitle-github.py:145-151 | the writes from cue `k` on are empty exactly when no cue is left; Assembly.WriteFromTerminated states what they are |
| Assembly.Assemble | subtitle-github.py:144-151 | the output file is empty exactly when there are no cues; Assembly.AssembleLines states it line by line |
| Assembly.WriteFromTerminated | subtitle-github.py:145-151 | the writes of the loop are the cues' entries, in cue order, as terminated lines |
| Assembly.AssembleLines | subtitle-github.py:144-151 | the output file, read back line by line, is the cues' entries in cue order |
| Assembly.OutputLineAt | subtitle-github.py:145-151 | with a translation for every cue, cue `k` occupies output lines `5k` to `5k + 4`: number `k + 1`, time, text, translation, empty line |
| Assembly.IndexIgnored | subtitle-github.py:145-148 | the output ignores the cues' original numbers: cues differing only in their index give the same file |
| Pipeline.ParseSrt | subtitle-github.py:110-130 | `parsed_blocks` has at most one cue per block |
| Pipeline.CueTexts | subtitle-github.py:135 | `text_blocks` is the cues' texts, in cue order |
| Pipeline.CueBatches | subtitle-github.py:133-138 | the batches sent, concatenated, are `text_blocks` |
| Pipeline.TranslateCues | subtitle-github.py:133-140 | `translated_texts` exists exactly when every batch is answered, and then it is never shorter than the cue list, so every cue gets a translation line |
| Pipeline.Process | subtitle-github.py:110-151 | an output file is produced exactly when every translation call answers |
| Pipeline.TrailingWhitespaceIgnored | subtitle-github.py:69-71 | whitespace at the end of the file, such as a final line feed, changes neither the parsed cues nor the output file, because `split_srt_blocks` strips the text first |
| Pipeline.ParsedCues | subtitle-github.py:110-130 | every parsed cue has a time holding `-->`, a non-empty text, and single-line time and text |
| Pipeline.SolidBlockLines | subtitle-github.py:110-115 | no line of a block that `split_srt_blocks` yields is blank once the block is stripped and split into lines |
| Pipeline.TranslationsSingleLine | subtitle-github.py:88-99 | every translation is a single line |
| Pipeline.ProcessOutputLines | subtitle-github.py:110-151 | the output file has exactly five lines per cue: cue `k` in parse order gives number `k + 1`, its time, its text, translation `k` and an empty line |
| Pipeline.CueTranslation | subtitle-github.py:133-140 | when no reply overshoots, cue `i` is paired with entry `i % 100` of the reply to batch `i / 100` |
| Pipeline.OverlongFirstReply | subtitle-github.py:133-140 | with more than 100 cues, a first reply with more than 100 delimited lines gives cue 101 that reply's 101st entry instead of its own translation |
| Pipeline.ParseJoined | subtitle-github.py:110-130 | a file written as blocks separated by empty lines, with no surrounding whitespace, is parsed block by block |
| Pipeline.StandardLayout | subtitle-github.py:69-71 | numeral, time line and plain text lines joined by line feeds form a block with no whitespace at either end |
| Pipeline.OneLineCue | subtitle-github.py:114-130 | a numbered block with one text line yields its numeral, stripped time and that line |
| Pipeline.TwoLineCue | subtitle-github.py:114-130 | a numbered block with two text lines yields its numeral, stripped time and the two lines joined by a space |
| Pipeline.NoTimeBlock | subtitle-github.py:116-125 | a numbered block whose other line has no `-->` is dropped |
| Pipeline.ParseThree | subtitle-github.py:110-130 | three blocks written one after another are parsed one at a time, in order |
| Pipeline.SampleFile | subtitle-github.py:110-130 | a file of a one-line cue, a block without a time and a two-line cue gives exactly two cues: the middle block is dropped and the last cue's lines are joined by a space |
| Pipeline.SampleFileEndingNewline | subtitle-github.py:110-130 | the same three-block file followed by a final line feed gives the same two cues |

## Left out

- TMDB lookup (`get_movie_info_from_tmdb`, lines 38-66): network calls. The overview it yields is the `context` parameter.
- `clean_title` (lines 28-35): no network access, but it only builds the lookup's query from the file name, and its behaviour is Python `re` semantics (Unicode `\b`, case-insensitive release tags). It is left out with the lookup. The fallback text `"无剧情简介"` (line 108) is the caller's choice of that parameter.
- The prompt and the chat-completion call (lines 76-88): the service is the parameter `service(context, batch)`. Its reply is the raw text before `.strip()`. `None` stands for the call raising, which aborts the file before anything is written (and, since nothing catches it, stops `main` as well).
- File I/O, the output path, the `tqdm` progress bar, `print` and `main` (lines 104-105, 137, 143-144, 153-160): the model takes the file's text and returns the output file's text.
- API keys and client configuration (lines 20-24): not behaviour.
- Whitespace and line breaks are ASCII: `strip` and `\s` use space, tab, line feed, vertical tab, form feed and carriage return, and `splitlines` breaks only at line feeds. Python's `strip` also removes `\x1c`-`\x1f`, `\x85` and the Unicode spaces. Its `splitlines` also breaks at `\r`, `\v`, `\f`, `\x1c`-`\x1e`, `\x85` and the Unicode line separators.
- The file is read in text mode (line 104), which turns `\r` and `\r\n` into line feeds, so the file's text never holds a carriage return. A service reply can: a carriage return at a reply line's end is still removed where line 93 strips the entry. The `errors="ignore"` decoding is not modelled.
- Pipeline.ParsedCues: proves every cue text non-empty under the line-feed-only `splitlines`. Python's extra line breaks can give an empty text: the block `1\v\v00:00 --> 00:01` splits into `1`, an empty line and the time line, the empty line makes `text_lines` non-empty, and `" ".join([""])` is `""`.
- `\d` in `^\d+$` is modelled as ASCII digits. Python's `re.match` with `$` also accepts one trailing line feed, but block lines never hold one.
- Pipeline.ParseSrt: states only the length bound. The cues' contents are stated by Cues.ParseOrder, Cues.ParseBlock and Pipeline.ParsedCues.
- Cues.ParseBlocks: states only the length bound. The order and contents are stated by Cues.ParseOrder.
- Concurrency: the script has none.
- The service is a function of `(context, batch)`, so two identical batches with the same context get the same reply, or both fail. The script's calls (lines 84-87) are independent requests that may answer differently. No lemma relies on this.
- Failures other than a raising service call: the model assumes the file is read, the TMDB lookup (line 107) returns and the output file opens (line 144). In the script, `requests.get` and `.json()` (lines 46-63) can raise, and so can the lookups of `results`, `id` and the output `open`. Neither `process_srt_file` nor `main` (lines 156-160) handles any exception, so such a failure writes nothing for the file, exactly like a raising service call, and also stops `main` before the remaining files.
- Surplus reply entries are kept. The docstring of `translate_lines_with_context` (line 75) promises a strict one-to-one correspondence between texts and translations, and the comment at line 96 says the padding keeps them aligned. Nothing at lines 96-99 or at line 140 drops the entries beyond the batch length, so the model keeps them as the code does (see Findings).

## Findings

| source | as written | input that shows it | evidently intended | confidence | as-written member | corrected member |
|---|---|---|---|---|---|---|
| subtitle-github.py:96-99 | the reply's entries are padded up to the batch length but never cut to it, and `translated_texts.extend` (line 140) appends all of them | more than 100 cues, and a reply to the first batch holding 101 delimited lines: cue 101 gets that reply's 101st entry, and every later cue is shifted by one | each batch contributes exactly one translation per text (surplus entries dropped), so cue `i` always gets its own batch's entry | not executed | Batching.OverlongReplyShifts | Batching.ExactAlignment |
