/** The block-parse loop of `process_srt_file`: each block becomes a cue
    `{index, time, text}` or is dropped without an error. */
module Cues {
  import opened Wrappers
  import opened Seqs
  import opened Text

  /** The time-range delimiter. */
  const Arrow := "-->"

  /** A parsed cue. `index` is the block's first line when it is all digits
      and is never used again; `time` is a stripped line holding `-->`;
      `text` is the block's other lines, stripped and joined by spaces. */
  datatype Cue = Cue(index: Option<string>, time: string, text: string)

  predicate IsTimeLine(line: string) { Contains(line, Arrow) }

  ghost predicate HasTimeLine(body: seq<string>)
  {
    exists i :: 0 <= i < |body| && IsTimeLine(body[i])
  }

  ghost predicate HasTextLine(body: seq<string>)
  {
    exists i :: 0 <= i < |body| && !IsTimeLine(body[i])
  }

  /** Line `i` of `body` is its last time line. */
  ghost predicate IsLastTimeLine(body: seq<string>, i: int)
  {
    0 <= i < |body| && IsTimeLine(body[i]) && forall j :: i < j < |body| ==> !IsTimeLine(body[j])
  }

  /** What a non-time line contributes to the text. */
  function TextEntry(line: string): Option<string>
  {
    if IsTimeLine(line) then None else Some(Strip(line))
  }

  /** The stripped non-time lines of `body`, in order. */
  function TextLines(body: seq<string>): seq<string>
  {
    FilterMap(TextEntry, body)
  }

  /** The loop over `lines[1:]`: a time line replaces `timecode`, any other
      line is appended, stripped, to `text_lines`. A time is found exactly
      when one comes in or a body line holds the delimiter; the text lines
      are the incoming ones followed by the stripped non-time lines. */
  function Scan(body: seq<string>, time: Option<string>, texts: seq<string>): (r: (Option<string>, seq<string>))
    ensures r.1 == texts + TextLines(body)
    ensures r.0.Some? <==> time.Some? || HasTimeLine(body)
    decreases |body|
  {
    if |body| == 0 then (time, texts)
    else
      BodyStep(body);
      TextStep(body, texts);
      if IsTimeLine(body[0]) then Scan(body[1..], Some(Strip(body[0])), texts)
      else Scan(body[1..], time, texts + [Strip(body[0])])
  }

  /** One step of the text lines, as `Scan` accumulates them. */
  lemma TextStep(body: seq<string>, texts: seq<string>)
    requires |body| > 0
    ensures IsTimeLine(body[0]) ==> texts + TextLines(body) == texts + TextLines(body[1..])
    ensures !IsTimeLine(body[0]) ==> texts + TextLines(body) == (texts + [Strip(body[0])]) + TextLines(body[1..])
  {
    assert TextLines(body) == (if IsTimeLine(body[0]) then [] else [Strip(body[0])]) + TextLines(body[1..]);
  }

  /** The time found is the last time line, stripped, or the incoming one
      when the body has no time line. */
  lemma {:induction false} ScanTime(body: seq<string>, time: Option<string>, texts: seq<string>)
    ensures !HasTimeLine(body) ==> Scan(body, time, texts).0 == time
    ensures forall i :: IsLastTimeLine(body, i) ==> Scan(body, time, texts).0 == Some(Strip(body[i]))
    decreases |body|
  {
    if |body| > 0 {
      BodyStep(body);
      var next := if IsTimeLine(body[0]) then Some(Strip(body[0])) else time;
      var more := if IsTimeLine(body[0]) then texts else texts + [Strip(body[0])];
      assert Scan(body, time, texts) == Scan(body[1..], next, more);
      ScanTime(body[1..], next, more);
      forall i | IsLastTimeLine(body, i) ensures Scan(body, time, texts).0 == Some(Strip(body[i])) {
        if i > 0 {
          assert IsLastTimeLine(body[1..], i - 1);
          assert body[1..][i - 1] == body[i];
        }
      }
    }
  }

  /** How the existence and position of time lines relate between `body`
      and `body[1..]`. */
  lemma BodyStep(body: seq<string>)
    requires |body| > 0
    ensures HasTimeLine(body) <==> IsTimeLine(body[0]) || HasTimeLine(body[1..])
    ensures forall i :: 0 < i < |body| ==> (IsLastTimeLine(body, i) <==> IsLastTimeLine(body[1..], i - 1))
    ensures IsLastTimeLine(body, 0) <==> IsTimeLine(body[0]) && !HasTimeLine(body[1..])
  {
    if HasTimeLine(body[1..]) {
      var i :| 0 <= i < |body| - 1 && IsTimeLine(body[1..][i]);
      assert IsTimeLine(body[i + 1]);
    }
    if HasTimeLine(body) && !IsTimeLine(body[0]) {
      var i :| 0 <= i < |body| && IsTimeLine(body[i]);
      assert body[1..][i - 1] == body[i];
    }
    forall i | 0 < i < |body|
      ensures IsLastTimeLine(body, i) <==> IsLastTimeLine(body[1..], i - 1)
    {
      assert forall j :: i < j < |body| ==> body[j] == body[1..][j - 1];
    }
  }

  /** Some time line of a non-empty set of candidates is the last one. */
  lemma LastTimeIndex(body: seq<string>) returns (i: nat)
    requires HasTimeLine(body)
    ensures IsLastTimeLine(body, i)
  {
    var j :| 0 <= j < |body| && IsTimeLine(body[j]);
    i := j;
    var k := j + 1;
    while k < |body|
      invariant i < k <= |body|
      invariant IsTimeLine(body[i])
      invariant forall m :: i < m < k ==> !IsTimeLine(body[m])
    {
      if IsTimeLine(body[k]) {
        i := k;
      }
      k := k + 1;
    }
  }

  /** The three conditions under which a block yields a cue. */
  ghost predicate Qualifies(lines: seq<string>)
  {
    |lines| >= 2 && HasTimeLine(lines[1..]) && HasTextLine(lines[1..])
  }

  /** `c` is the cue the block with these lines describes: the first line
      only decides the index; the time is the last time line after it,
      stripped; the text is the other lines after it, stripped and joined
      by single spaces in their original order. */
  ghost predicate IsCueOf(lines: seq<string>, c: Cue)
    requires |lines| >= 1
  {
    && c.index == (if IsDigits(lines[0]) then Some(lines[0]) else None)
    && (forall i :: IsLastTimeLine(lines[1..], i) ==> c.time == Strip(lines[1..][i]))
    && c.text == Join(" ", TextLines(lines[1..]))
    && Contains(c.time, Arrow)
  }

  /** One iteration of the block loop. */
  function ParseBlock(block: string): (r: Option<Cue>)
    ensures r.Some? <==> Qualifies(StrippedLines(block))
    ensures r.Some? ==> IsCueOf(StrippedLines(block), r.value)
  {
    var lines := StrippedLines(block);
    if |lines| < 2 then None
    else
      var index := if IsDigits(lines[0]) then Some(Strip(lines[0])) else None;
      var scan := Scan(lines[1..], None, []);
      IndexFact(lines[0]);
      TextFact(lines[1..]);
      TimeFact(lines[1..]);
      ScanTime(lines[1..], None, []);
      if |scan.1| > 0 && scan.0.Some? && |scan.0.value| > 0 then
        var c := Cue(index, scan.0.value, Join(" ", scan.1));
        assert IsCueOf(lines, c);
        Some(c)
      else None
  }

  lemma IndexFact(first: string)
    ensures IsDigits(first) ==> Strip(first) == first
  {
    if IsDigits(first) {
      StripNoSpace(first);
    }
  }

  /** The scanned text lines are the reference text lines, and there are
      some exactly when a body line is not a time line. */
  lemma TextFact(body: seq<string>)
    ensures Scan(body, None, []).1 == TextLines(body)
    ensures |TextLines(body)| > 0 <==> HasTextLine(body)
  {
    assert [] + TextLines(body) == TextLines(body);
    FilterMapEmpty(TextEntry, body);
    if HasTextLine(body) {
      var i :| 0 <= i < |body| && !IsTimeLine(body[i]);
      assert TextEntry(body[i]).Some?;
    }
  }

  /** A scanned time is a non-empty line holding the delimiter. */
  lemma TimeFact(body: seq<string>)
    ensures Scan(body, None, []).0.Some? <==> HasTimeLine(body)
    ensures Scan(body, None, []).0.Some? ==>
      Contains(Scan(body, None, []).0.value, Arrow) && |Scan(body, None, []).0.value| > 0
  {
    if HasTimeLine(body) {
      var i := LastTimeIndex(body);
      ScanTime(body, None, []);
      assert Scan(body, None, []).0 == Some(Strip(body[i]));
      ArrowNoSpace();
      StripKeeps(body[i], Arrow);
      var t := Strip(body[i]);
      assert OccursAt(t, Arrow, Find(t, Arrow).value);
    }
  }

  lemma ArrowNoSpace()
    ensures |Arrow| > 0 && forall i :: 0 <= i < |Arrow| ==> !IsSpace(Arrow[i])
  {
  }

  /** The parse loop over all blocks. */
  function ParseBlocks(blocks: seq<string>): (r: seq<Cue>)
    ensures |r| <= |blocks|
  {
    FilterMap(ParseBlock, blocks)
  }

  /** Cues come out in block order, one per qualifying block and none for
      any other block. */
  lemma ParseOrder(blocks: seq<string>) returns (origin: seq<nat>)
    ensures IsOrigin(ParseBlock, blocks, ParseBlocks(blocks), origin)
  {
    origin := FilterMapOrigin(ParseBlock, blocks);
  }

  /** The first line never reaches the time or the text: blocks that differ
      only in their first line give the same cue up to the index. */
  lemma FirstLineOnlyIndex(b1: string, b2: string)
    requires |StrippedLines(b1)| >= 2 && |StrippedLines(b2)| >= 2
    requires StrippedLines(b1)[1..] == StrippedLines(b2)[1..]
    ensures ParseBlock(b1).Some? <==> ParseBlock(b2).Some?
    ensures ParseBlock(b1).Some? ==>
      ParseBlock(b1).value.time == ParseBlock(b2).value.time &&
      ParseBlock(b1).value.text == ParseBlock(b2).value.text
  {
    var l1, l2 := StrippedLines(b1), StrippedLines(b2);
    if ParseBlock(b1).Some? {
      var i := LastTimeIndex(l1[1..]);
    }
  }

  /** A block whose only time line is its first line is dropped, digits or
      not: the first line is never read as a time. */
  lemma TimeOnFirstLineDropped(block: string)
    requires |StrippedLines(block)| >= 1 && IsTimeLine(StrippedLines(block)[0])
    requires forall i :: 1 <= i < |StrippedLines(block)| ==> !IsTimeLine(StrippedLines(block)[i])
    ensures ParseBlock(block) == None
  {
  }

  /** A block in the standard layout (a number line, a time line, then
      text lines without the delimiter) yields the cue with that number,
      the stripped time and the stripped text lines joined by spaces. */
  lemma StandardBlock(num: string, time: string, texts: seq<string>)
    requires IsDigits(num)
    requires '\n' !in time && Contains(time, Arrow)
    requires |texts| >= 1 && forall k :: 0 <= k < |texts| ==> '\n' !in texts[k] && !Contains(texts[k], Arrow)
    requires |texts[|texts| - 1]| > 0 && !IsSpace(texts[|texts| - 1][|texts[|texts| - 1]| - 1])
    ensures ParseBlock(Join("\n", [num, time] + texts)) == Some(Cue(Some(num), Strip(time), Join(" ", TextLines(texts))))
  {
    StandardLines(num, time, texts);
    StandardCue(Join("\n", [num, time] + texts), num, time, texts);
  }

  lemma StandardCue(block: string, num: string, time: string, texts: seq<string>)
    requires StrippedLines(block) == [num, time] + texts
    requires IsDigits(num) && Contains(time, Arrow)
    requires |texts| >= 1 && forall k :: 0 <= k < |texts| ==> !Contains(texts[k], Arrow)
    ensures ParseBlock(block) == Some(Cue(Some(num), Strip(time), Join(" ", TextLines(texts))))
  {
    var lines := [num, time] + texts;
    assert lines[0] == num && lines[1..] == [time] + texts;
    StandardBody(time, texts);
    CueOfLines(block, 0);
  }

  /** Stripped lines without the delimiter are the text lines unchanged. */
  lemma PlainTextLines(texts: seq<string>)
    requires forall k :: 0 <= k < |texts| ==> !IsTimeLine(texts[k]) && Strip(texts[k]) == texts[k]
    ensures TextLines(texts) == texts
  {
    FilterMapAll(TextEntry, texts);
  }

  /** A plain text line is the whole text of the cue. */
  lemma OnePlainLine(t: string)
    requires !IsTimeLine(t) && Strip(t) == t
    ensures Join(" ", TextLines([t])) == t
  {
    assert TextLines([t]) == [t] by {
      PlainTextLines([t]);
    }
  }

  /** Two plain text lines make the text of the cue joined by a space. */
  lemma TwoPlainLines(la: string, lb: string)
    requires !IsTimeLine(la) && Strip(la) == la
    requires !IsTimeLine(lb) && Strip(lb) == lb
    ensures Join(" ", TextLines([la, lb])) == la + " " + lb
  {
    assert TextLines([la, lb]) == [la, lb] by {
      PlainTextLines([la, lb]);
    }
    JoinPair(" ", la, lb);
  }

  /** A qualifying block's cue is determined by its lines: the numeric
      first line, the last time line and the text lines. */
  lemma CueOfLines(block: string, i: nat)
    requires Qualifies(StrippedLines(block)) && IsDigits(StrippedLines(block)[0])
    requires IsLastTimeLine(StrippedLines(block)[1..], i)
    ensures ParseBlock(block) == Some(Cue(Some(StrippedLines(block)[0]), Strip(StrippedLines(block)[1..][i]),
      Join(" ", TextLines(StrippedLines(block)[1..]))))
  {
  }

  /** The lines of a block in the standard layout are read back as written. */
  lemma StandardLines(num: string, time: string, texts: seq<string>)
    requires IsDigits(num)
    requires '\n' !in time
    requires |texts| >= 1 && forall k :: 0 <= k < |texts| ==> '\n' !in texts[k]
    requires |texts[|texts| - 1]| > 0 && !IsSpace(texts[|texts| - 1][|texts[|texts| - 1]| - 1])
    ensures StrippedLines(Join("\n", [num, time] + texts)) == [num, time] + texts
  {
    var lines := [num, time] + texts;
    assert '\n' !in num by {
      assert forall i :: 0 <= i < |num| ==> IsDigit(num[i]);
    }
    assert forall k :: 0 <= k < |lines| ==> '\n' !in lines[k] by {
      assert forall k :: 2 <= k < |lines| ==> lines[k] == texts[k - 2];
    }
    assert lines[|lines| - 1] == texts[|texts| - 1];
    LinesOfJoin(lines);
  }

  /** After the number line: the time line is the last time line, and the
      text lines are the stripped remaining lines. */
  lemma StandardBody(time: string, texts: seq<string>)
    requires Contains(time, Arrow)
    requires |texts| >= 1 && forall k :: 0 <= k < |texts| ==> !Contains(texts[k], Arrow)
    ensures IsLastTimeLine([time] + texts, 0)
    ensures HasTimeLine([time] + texts) && HasTextLine([time] + texts)
    ensures TextLines([time] + texts) == TextLines(texts)
    ensures |TextLines(texts)| == |texts| && forall k :: 0 <= k < |texts| ==> TextLines(texts)[k] == Strip(texts[k])
  {
    var body := [time] + texts;
    assert forall k :: 0 <= k < |texts| ==> body[k + 1] == texts[k];
    assert IsTimeLine(body[0]) && !IsTimeLine(body[1]);
    assert body[1..] == texts;
    FilterMapAll(TextEntry, texts);
  }

  /** When no line of a block is blank, a cue taken from it has a
      non-empty text: some line after the first lacks `-->`, and it is not
      empty once stripped. */
  lemma CueTextNonEmpty(block: string)
    requires SolidLines(StrippedLines(block))
    ensures ParseBlock(block).Some? ==> |ParseBlock(block).value.text| > 0
  {
    if ParseBlock(block).Some? {
      var lines := StrippedLines(block);
      var body := lines[1..];
      var texts := TextLines(body);
      TextFact(body);
      var origin := FilterMapOrigin(TextEntry, body);
      var j := origin[0];
      assert body[j] == lines[j + 1];
      StripNonBlank(body[j]);
      assert texts[0] == Strip(body[j]);
      JoinFirst(" ", texts);
    }
  }

  /** Cue fields are single lines. */
  lemma CueSingleLine(block: string)
    requires ParseBlock(block).Some?
    ensures '\n' !in ParseBlock(block).value.time
    ensures '\n' !in ParseBlock(block).value.text
  {
    var lines := StrippedLines(block);
    var i := LastTimeIndex(lines[1..]);
    TimeSingleLine(lines[1..], i);
    TextSingleLine(lines[1..]);
  }

  lemma TimeSingleLine(body: seq<string>, i: nat)
    requires forall k :: 0 <= k < |body| ==> '\n' !in body[k]
    requires i < |body|
    ensures '\n' !in Strip(body[i])
  {
    StripNoNewline(body[i]);
  }

  lemma TextSingleLine(body: seq<string>)
    requires forall k :: 0 <= k < |body| ==> '\n' !in body[k]
    ensures '\n' !in Join(" ", TextLines(body))
  {
    var texts := TextLines(body);
    var origin := FilterMapOrigin(TextEntry, body);
    forall k | 0 <= k < |texts| ensures '\n' !in texts[k] {
      StripNoNewline(body[origin[k]]);
    }
    JoinNoNewline(" ", texts);
  }
}
