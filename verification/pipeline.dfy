/** `process_srt_file` without its I/O: the file's text in, the bilingual
    file's text out, with the metadata context and the translation service
    as parameters. `None` means a translation call raised, in which case the
    source writes no output file. */
module Pipeline {
  import opened Wrappers
  import opened Seqs
  import opened Text
  import opened Blocks
  import opened Cues
  import opened Replies
  import opened Batching
  import opened Assembly

  /** `parsed_blocks`. */
  function ParseSrt(content: string): (r: seq<Cue>)
    ensures |r| <= |SplitBlocks(content)|
  {
    ParseBlocks(SplitBlocks(content))
  }

  /** `text_blocks`. */
  function CueTexts(cues: seq<Cue>): (r: seq<string>)
    ensures |r| == |cues|
    ensures forall k :: 0 <= k < |r| ==> r[k] == cues[k].text
  {
    seq(|cues|, k requires 0 <= k < |cues| => cues[k].text)
  }

  /** The batches sent to the service. */
  function CueBatches(cues: seq<Cue>): (r: seq<seq<string>>)
    ensures Flatten(r) == CueTexts(cues)
  {
    Batches(CueTexts(cues), BatchSize)
  }

  /** `translated_texts`: never shorter than the cue list, so every cue's
      entry carries a translation line. */
  function TranslateCues(cues: seq<Cue>, context: string, service: Service): (r: Option<seq<string>>)
    ensures r.Some? <==> AllReplied(CueBatches(cues), context, service)
    ensures r.Some? ==> |r.value| >= |cues|
  {
    TranslateAll(CueBatches(cues), context, service)
  }

  /** The whole file. The output exists exactly when every batch was
      answered. */
  function Process(content: string, context: string, service: Service): (r: Option<string>)
    ensures r.Some? <==> AllReplied(CueBatches(ParseSrt(content)), context, service)
  {
    var cues := ParseSrt(content);
    match TranslateCues(cues, context, service)
    case None => None
    case Some(translated) => Some(Assemble(cues, translated))
  }

  /** Whitespace at the end of the file, a final line feed for instance,
      changes neither the cues nor the output file. */
  lemma TrailingWhitespaceIgnored(content: string, w: string, context: string, service: Service)
    requires IsBlank(w)
    ensures ParseSrt(content + w) == ParseSrt(content)
    ensures Process(content + w, context, service) == Process(content, context, service)
  {
    TrailingWhitespaceParse(content, w);
  }

  lemma TrailingWhitespaceParse(content: string, w: string)
    requires IsBlank(w)
    ensures ParseSrt(content + w) == ParseSrt(content)
  {
    StripBlankSuffix(content, w);
    assert SplitBlocks(content + w) == SplitBlocks(content);
  }

  /** Every parsed cue has a time holding `-->` and a non-empty text, and
      its fields are single lines. */
  lemma ParsedCues(content: string)
    ensures forall k :: 0 <= k < |ParseSrt(content)| ==>
      Contains(ParseSrt(content)[k].time, Arrow) &&
      '\n' !in ParseSrt(content)[k].time && '\n' !in ParseSrt(content)[k].text
    ensures forall k :: 0 <= k < |ParseSrt(content)| ==> |ParseSrt(content)[k].text| > 0
  {
    var blocks := SplitBlocks(content);
    var cues := ParseSrt(content);
    var origin := ParseOrder(blocks);
    forall k | 0 <= k < |cues|
      ensures Contains(cues[k].time, Arrow) && '\n' !in cues[k].time && '\n' !in cues[k].text
      ensures |cues[k].text| > 0
    {
      var block := blocks[origin[k]];
      CueSingleLine(block);
      SolidBlockLines(content, origin[k]);
      CueTextNonEmpty(block);
    }
  }

  /** No block `split_srt_blocks` yields has a blank line once stripped
      and split into lines. */
  lemma SolidBlockLines(content: string, k: nat)
    requires k < |SplitBlocks(content)|
    ensures SolidLines(StrippedLines(SplitBlocks(content)[k]))
  {
    var block := SplitBlocks(content)[k];
    if Strip(content) == "" {
      assert block == "";
      assert Split("") == [""];
      assert StrippedLines(block) == [];
    } else {
      var lines := Split(block);
      assert IsRun(lines);
      JoinSplit(block);
      LinesOfStrippedJoin(lines);
    }
  }

  /** Translations are single lines. */
  lemma TranslationsSingleLine(batches: seq<seq<string>>, context: string, service: Service)
    requires AllReplied(batches, context, service)
    ensures forall i :: 0 <= i < |TranslateAll(batches, context, service).value| ==>
      '\n' !in TranslateAll(batches, context, service).value[i]
  {
    var aligned := AlignedReplies(batches, context, service);
    TranslateAllConcat(batches, context, service);
    forall k | 0 <= k < |aligned|
      ensures forall m :: 0 <= m < |aligned[k]| ==> '\n' !in aligned[k][m]
    {
      ParseReplySingleLine(service(context, batches[k]).value);
    }
    FlattenElements(aligned);
  }

  /** The output file, line by line: cue `k` (in parse order) occupies
      lines `5 * k` to `5 * k + 4`, holding the number `k + 1`, the cue's
      time, its text, the translation at position `k` and an empty line. */
  lemma ProcessOutputLines(content: string, context: string, service: Service, k: nat)
    requires Process(content, context, service).Some?
    requires k < |ParseSrt(content)|
    ensures var cues := ParseSrt(content);
      var translated := TranslateCues(cues, context, service).value;
      var out := Lines(Process(content, context, service).value);
      && |out| == 5 * |cues|
      && out[5 * k..5 * k + 5] == [Decimal(k + 1), cues[k].time, cues[k].text, translated[k], ""]
  {
    var cues := ParseSrt(content);
    ParsedCues(content);
    TranslationsSingleLine(CueBatches(cues), context, service);
    OutputLineAt(cues, TranslateCues(cues, context, service).value, k);
  }

  /** When no reply holds more delimited lines than its batch has texts,
      cue `i` is paired with entry `i % 100` of the reply to batch
      `i / 100`. */
  lemma CueTranslation(cues: seq<Cue>, context: string, service: Service, i: nat)
    requires AllReplied(CueBatches(cues), context, service)
    requires forall m :: 0 <= m < |CueBatches(cues)| ==>
      |ParseReply(service(context, CueBatches(cues)[m]).value)| <= |CueBatches(cues)[m]|
    requires i < |cues|
    ensures i / BatchSize < |CueBatches(cues)|
    ensures i % BatchSize < |CueBatches(cues)[i / BatchSize]|
    ensures TranslateCues(cues, context, service).value[i]
      == AlignReply(CueBatches(cues)[i / BatchSize], service(context, CueBatches(cues)[i / BatchSize]).value)[i % BatchSize]
  {
    var batches := CueBatches(cues);
    forall m | 0 <= m < |batches| - 1 ensures |batches[m]| == BatchSize {
      FullBatch(CueTexts(cues), BatchSize, m);
    }
    TranslationOfPosition(batches, context, service, i);
  }

  /** With more than 100 cues, a reply to the first batch holding more than
      100 delimited lines makes cue 101 (position 100) carry that reply's
      101st entry rather than its own translation. */
  lemma OverlongFirstReply(cues: seq<Cue>, context: string, service: Service)
    requires |cues| > BatchSize
    requires AllReplied(CueBatches(cues), context, service)
    requires |ParseReply(service(context, CueBatches(cues)[0]).value)| > BatchSize
    ensures TranslateCues(cues, context, service).value[BatchSize]
      == ParseReply(service(context, CueBatches(cues)[0]).value)[BatchSize]
  {
    var batches := CueBatches(cues);
    assert |batches| >= 2 by {
      if |batches| < 2 {
        FlattenUniformAtMost(batches, BatchSize);
      }
    }
    FullBatch(CueTexts(cues), BatchSize, 0);
    OverlongReplyShifts(batches, context, service);
  }

  /** A file written as blocks separated by empty lines, with no
      surrounding whitespace, is parsed block by block. */
  lemma ParseJoined(blocks: seq<string>)
    requires |blocks| >= 1
    requires forall k :: 0 <= k < |blocks| ==> IsBlock(blocks[k])
    requires |blocks[0]| > 0 && !IsSpace(blocks[0][0])
    requires |blocks[|blocks| - 1]| > 0 && !IsSpace(blocks[|blocks| - 1][|blocks[|blocks| - 1]| - 1])
    ensures ParseSrt(Join("\n\n", blocks)) == ParseBlocks(blocks)
  {
    SplitJoinedBlocks(blocks);
  }

  /** A single text line as it stands in a file: no line feed, no
      delimiter, and no whitespace at either end. */
  predicate IsPlainLine(s: string)
  {
    '\n' !in s && !Contains(s, Arrow) && |s| > 0 && !IsSpace(s[0]) && !IsSpace(s[|s| - 1])
  }

  /** A time line holds the delimiter, so it is not blank. */
  lemma TimeNotBlank(time: string)
    requires Contains(time, Arrow)
    ensures !IsBlank(time)
  {
    var i := Find(time, Arrow).value;
    assert time[i..i + |Arrow|][0] == time[i];
  }

  /** A numeral line is a non-blank single line starting with a digit. */
  lemma DigitsLine(s: string)
    requires IsDigits(s)
    ensures '\n' !in s && !IsBlank(s) && !IsSpace(s[0])
  {
    assert forall i :: 0 <= i < |s| ==> IsDigit(s[i]) && s[i] != '\n';
    assert !IsSpace(s[0]);
  }

  /** Lines in the standard layout, joined by line feeds, form a block
      with no whitespace at either end. */
  lemma StandardLayout(lines: seq<string>)
    requires |lines| >= 3 && IsDigits(lines[0])
    requires '\n' !in lines[1] && Contains(lines[1], Arrow)
    requires forall k :: 2 <= k < |lines| ==> IsPlainLine(lines[k])
    ensures var b := Join("\n", lines);
      IsBlock(b) && |b| > 0 && !IsSpace(b[0]) && !IsSpace(b[|b| - 1])
  {
    DigitsLine(lines[0]);
    TimeNotBlank(lines[1]);
    JoinedIsBlock(lines);
    JoinFirst("\n", lines);
    JoinLast("\n", lines);
  }

  /** A numbered block with one text line. */
  lemma OneLineCue(num: string, time: string, text: string)
    requires IsDigits(num) && '\n' !in time && Contains(time, Arrow) && IsPlainLine(text)
    ensures var b := Join("\n", [num, time, text]);
      && IsBlock(b) && |b| > 0 && !IsSpace(b[0])
      && ParseBlock(b) == Some(Cue(Some(num), Strip(time), text))
  {
    StandardLayout([num, time, text]);
    StripTrimmed(text);
    assert [num, time] + [text] == [num, time, text];
    StandardBlock(num, time, [text]);
    OnePlainLine(text);
  }

  /** A numbered block with two text lines, which are joined by a space. */
  lemma TwoLineCue(num: string, time: string, la: string, lb: string)
    requires IsDigits(num) && '\n' !in time && Contains(time, Arrow) && IsPlainLine(la) && IsPlainLine(lb)
    ensures var b := Join("\n", [num, time, la, lb]);
      && IsBlock(b) && |b| > 0 && !IsSpace(b[|b| - 1])
      && ParseBlock(b) == Some(Cue(Some(num), Strip(time), la + " " + lb))
  {
    StandardLayout([num, time, la, lb]);
    StripTrimmed(la);
    StripTrimmed(lb);
    assert [num, time] + [la, lb] == [num, time, la, lb];
    StandardBlock(num, time, [la, lb]);
    TwoPlainLines(la, lb);
  }

  /** A numbered block whose other line has no time is dropped. */
  lemma NoTimeBlock(num: string, junk: string)
    requires IsDigits(num) && IsPlainLine(junk)
    ensures IsBlock(Join("\n", [num, junk])) && ParseBlock(Join("\n", [num, junk])) == None
  {
    DigitsLine(num);
    JoinedIsBlock([num, junk]);
    LinesOfJoin([num, junk]);
    assert [num, junk][1..] == [junk];
  }

  /** Three blocks written one after another are parsed one by one. */
  lemma ParseThree(b1: string, b2: string, b3: string)
    requires IsBlock(b1) && IsBlock(b2) && IsBlock(b3)
    requires |b1| > 0 && !IsSpace(b1[0]) && |b3| > 0 && !IsSpace(b3[|b3| - 1])
    ensures ParseSrt(Join("\n\n", [b1, b2, b3])) == ParseBlocks([b1, b2, b3])
  {
    var bs := [b1, b2, b3];
    assert forall k :: 0 <= k < |bs| ==> IsBlock(bs[k]);
    assert bs[0] == b1 && bs[|bs| - 1] == b3;
    ParseJoined(bs);
  }

  /** A three-block file: a numbered cue with one text line, a numbered
      block without a time line, and a numbered cue with two text lines.
      It gives exactly two cues; the middle block is dropped, and the two
      text lines of the last block are joined by a space. */
  lemma SampleFile(num1: string, time1: string, text1: string,
                   num2: string, junk: string,
                   num3: string, time3: string, line3a: string, line3b: string)
    requires IsDigits(num1) && IsDigits(num2) && IsDigits(num3)
    requires '\n' !in time1 && Contains(time1, Arrow)
    requires '\n' !in time3 && Contains(time3, Arrow)
    requires IsPlainLine(text1) && IsPlainLine(junk) && IsPlainLine(line3a) && IsPlainLine(line3b)
    ensures ParseSrt(Join("\n\n", [Join("\n", [num1, time1, text1]), Join("\n", [num2, junk]),
                                    Join("\n", [num3, time3, line3a, line3b])]))
      == [Cue(Some(num1), Strip(time1), text1), Cue(Some(num3), Strip(time3), line3a + " " + line3b)]
  {
    OneLineCue(num1, time1, text1);
    NoTimeBlock(num2, junk);
    TwoLineCue(num3, time3, line3a, line3b);
    var b1, b2, b3 := Join("\n", [num1, time1, text1]), Join("\n", [num2, junk]), Join("\n", [num3, time3, line3a, line3b]);
    ParseThree(b1, b2, b3);
    FilterMapOneDropped(ParseBlock, b1, b2, b3,
      Cue(Some(num1), Strip(time1), text1), Cue(Some(num3), Strip(time3), line3a + " " + line3b));
  }

  /** The same file ending with a line feed, as editors save it, gives the
      same two cues. */
  lemma SampleFileEndingNewline(num1: string, time1: string, text1: string,
                                num2: string, junk: string,
                                num3: string, time3: string, line3a: string, line3b: string)
    requires IsDigits(num1) && IsDigits(num2) && IsDigits(num3)
    requires '\n' !in time1 && Contains(time1, Arrow)
    requires '\n' !in time3 && Contains(time3, Arrow)
    requires IsPlainLine(text1) && IsPlainLine(junk) && IsPlainLine(line3a) && IsPlainLine(line3b)
    ensures ParseSrt(Join("\n\n", [Join("\n", [num1, time1, text1]), Join("\n", [num2, junk]),
                                    Join("\n", [num3, time3, line3a, line3b])]) + "\n")
      == [Cue(Some(num1), Strip(time1), text1), Cue(Some(num3), Strip(time3), line3a + " " + line3b)]
  {
    var file := Join("\n\n", [Join("\n", [num1, time1, text1]), Join("\n", [num2, junk]),
                               Join("\n", [num3, time3, line3a, line3b])]);
    var cues := [Cue(Some(num1), Strip(time1), text1), Cue(Some(num3), Strip(time3), line3a + " " + line3b)];
    assert ParseSrt(file) == cues by {
      SampleFile(num1, time1, text1, num2, junk, num3, time3, line3a, line3b);
    }
    NewlineIgnored(file);
  }

  lemma NewlineIgnored(file: string)
    ensures ParseSrt(file + "\n") == ParseSrt(file)
  {
    var w := "\n";
    assert IsBlank(w) by {
      assert |w| == 1 && IsSpace(w[0]);
    }
    TrailingWhitespaceParse(file, w);
  }
}
