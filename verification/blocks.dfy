/** `split_srt_blocks`: cutting the raw subtitle text into blank-line
    separated blocks. Python's `re.split(r'\n\s*\n', text.strip())` cuts at
    every line feed, run of whitespace, line feed. After `strip` the first
    and last lines are not blank, so every run of blank lines lies between
    two non-blank lines and the pieces are exactly the maximal runs of
    non-blank lines, each joined back with line feeds. An empty stripped text
    gives the one empty piece `[""]`, as `re.split` does. */
module Blocks {
  import opened Wrappers
  import opened Seqs
  import opened Text

  /** A line that belongs to some block, as opposed to a separator line. */
  function ContentLine(line: string): Option<string>
  {
    if IsBlank(line) then None else Some(line)
  }

  /** The non-blank lines, in order. */
  function NonBlank(lines: seq<string>): seq<string>
  {
    FilterMap(ContentLine, lines)
  }

  /** Maximal runs of consecutive non-blank lines; `run` is the run being
      collected when `lines` starts. */
  function Group(lines: seq<string>, run: seq<string>): (r: seq<seq<string>>)
    requires forall k :: 0 <= k < |run| ==> !IsBlank(run[k])
    ensures forall k :: 0 <= k < |r| ==> IsRun(r[k])
    decreases |lines|
  {
    if |lines| == 0 then
      if |run| == 0 then [] else [run]
    else if IsBlank(lines[0]) then
      (if |run| == 0 then [] else [run]) + Group(lines[1..], [])
    else
      Group(lines[1..], run + [lines[0]])
  }

  /** Read in order, the runs hold the pending run followed by exactly the
      non-blank lines. */
  lemma {:induction false} GroupFlatten(lines: seq<string>, run: seq<string>)
    requires forall k :: 0 <= k < |run| ==> !IsBlank(run[k])
    ensures Flatten(Group(lines, run)) == run + NonBlank(lines)
    decreases |lines|
  {
    if |lines| == 0 {
      if |run| > 0 {
        assert Flatten([run]) == run + Flatten([run][1..]);
      }
    } else {
      NonBlankStep(lines);
      if IsBlank(lines[0]) {
        var head := if |run| == 0 then [] else [run];
        GroupFlatten(lines[1..], []);
        FlattenAppend(head, Group(lines[1..], []));
        assert Flatten(head) == run by {
          if |run| > 0 {
            assert Flatten([run]) == run + Flatten([run][1..]);
          }
        }
      } else {
        GroupFlatten(lines[1..], run + [lines[0]]);
        assert run + [lines[0]] + NonBlank(lines[1..]) == run + ([lines[0]] + NonBlank(lines[1..]));
      }
    }
  }

  lemma NonBlankStep(lines: seq<string>)
    requires |lines| > 0
    ensures NonBlank(lines) == (if IsBlank(lines[0]) then [] else [lines[0]]) + NonBlank(lines[1..])
  {
  }

  /** One step of the grouping loop. */
  lemma GroupStep(lines: seq<string>, run: seq<string>)
    requires forall k :: 0 <= k < |run| ==> !IsBlank(run[k])
    requires |lines| > 0
    ensures Group(lines, run) ==
      if IsBlank(lines[0]) then (if |run| == 0 then [] else [run]) + Group(lines[1..], [])
      else Group(lines[1..], run + [lines[0]])
  {
  }

  /** A non-empty run of non-blank lines. */
  predicate IsRun(g: seq<string>)
  {
    |g| > 0 && forall j :: 0 <= j < |g| ==> !IsBlank(g[j])
  }

  ghost predicate NoNewlines(lines: seq<string>)
  {
    forall j :: 0 <= j < |lines| ==> '\n' !in lines[j]
  }

  /** The runs are made of input lines, so they hold no line feed either. */
  lemma {:induction false} GroupNoNewline(lines: seq<string>, run: seq<string>)
    requires forall k :: 0 <= k < |run| ==> !IsBlank(run[k])
    requires NoNewlines(lines) && NoNewlines(run)
    ensures forall k :: 0 <= k < |Group(lines, run)| ==> NoNewlines(Group(lines, run)[k])
    decreases |lines|
  {
    if |lines| > 0 {
      assert NoNewlines(lines[1..]) by {
        forall j | 0 <= j < |lines| - 1 ensures '\n' !in lines[1..][j] {
          assert lines[1..][j] == lines[j + 1];
        }
      }
      if IsBlank(lines[0]) {
        GroupNoNewline(lines[1..], []);
      } else {
        GroupNoNewline(lines[1..], run + [lines[0]]);
      }
    }
  }

  /** Without a blank line there is a single run. */
  lemma {:induction false} GroupNoBlank(lines: seq<string>, run: seq<string>)
    requires forall k :: 0 <= k < |run| ==> !IsBlank(run[k])
    requires forall k :: 0 <= k < |lines| ==> !IsBlank(lines[k])
    ensures Group(lines, run) == if |run + lines| == 0 then [] else [run + lines]
    decreases |lines|
  {
    if |lines| > 0 {
      GroupNoBlank(lines[1..], run + [lines[0]]);
      assert run + [lines[0]] + lines[1..] == run + lines;
    } else {
      assert run + lines == run;
    }
  }

  /** A blank line always ends the current run: the runs on either side of
      it are found independently. */
  lemma {:induction false} GroupAtBlank(a: seq<string>, x: string, b: seq<string>, run: seq<string>)
    requires forall k :: 0 <= k < |run| ==> !IsBlank(run[k])
    requires IsBlank(x)
    ensures Group(a + [x] + b, run) == Group(a, run) + Group(b, [])
    decreases |a|
  {
    if |a| == 0 {
      GroupBlankFirst(x, b, run);
      assert a + [x] + b == [x] + b;
    } else {
      var next := if IsBlank(a[0]) then [] else run + [a[0]];
      GroupAtBlank(a[1..], x, b, next);
      GroupAtBlankStep(a, x, b, run);
    }
  }

  lemma GroupBlankFirst(x: string, b: seq<string>, run: seq<string>)
    requires forall k :: 0 <= k < |run| ==> !IsBlank(run[k])
    requires IsBlank(x)
    ensures Group([x] + b, run) == Group([], run) + Group(b, [])
  {
    GroupStep([x] + b, run);
    assert ([x] + b)[1..] == b;
  }

  lemma GroupAtBlankStep(a: seq<string>, x: string, b: seq<string>, run: seq<string>)
    requires forall k :: 0 <= k < |run| ==> !IsBlank(run[k])
    requires IsBlank(x) && |a| > 0
    requires var next := if IsBlank(a[0]) then [] else run + [a[0]];
      Group(a[1..] + [x] + b, next) == Group(a[1..], next) + Group(b, [])
    ensures Group(a + [x] + b, run) == Group(a, run) + Group(b, [])
  {
    var lines := a + [x] + b;
    AroundTail(a, x, b);
    GroupStep(lines, run);
    GroupStep(a, run);
    if IsBlank(a[0]) {
      var head := if |run| == 0 then [] else [run];
      AppendAssoc(head, Group(a[1..], []), Group(b, []));
    }
  }

  /** The lines of each block. */
  function SplitAll(blocks: seq<string>): (r: seq<seq<string>>)
    ensures |r| == |blocks|
    ensures forall k :: 0 <= k < |r| ==> r[k] == Split(blocks[k])
  {
    seq(|blocks|, k requires 0 <= k < |blocks| => Split(blocks[k]))
  }

  function JoinAll(groups: seq<seq<string>>): (r: seq<string>)
    ensures |r| == |groups|
    ensures forall k :: 0 <= k < |r| ==> r[k] == Join("\n", groups[k])
  {
    seq(|groups|, k requires 0 <= k < |groups| => Join("\n", groups[k]))
  }

  /** `split_srt_blocks(text)`. For a text that is not all whitespace: every
      block is a run of non-blank lines, and the blocks' lines, read in
      order, are exactly the non-blank lines of the stripped text. */
  function SplitBlocks(text: string): (r: seq<string>)
    ensures |r| >= 1
    ensures Strip(text) == "" ==> r == [""]
    ensures Strip(text) != "" ==>
      && (forall k :: 0 <= k < |r| ==> IsRun(Split(r[k])))
      && Flatten(SplitAll(r)) == NonBlank(Split(Strip(text)))
    ensures Strip(text) != "" ==> SplitAll(r) == Group(Split(Strip(text)), [])
  {
    var t := Strip(text);
    if t == "" then [""]
    else
      var groups := Group(Split(t), []);
      BlocksOfGroups(Split(t), groups);
      GroupFlatten(Split(t), []);
      FirstLineNotBlank(t);
      assert |NonBlank(Split(t))| > 0;
      JoinAll(groups)
  }

  /** A blank line of the stripped text is always a block boundary: the
      blocks are those of the lines before it followed by those of the
      lines after it, so no block reaches across it. */
  lemma BlankLineSeparates(text: string, before: seq<string>, x: string, after: seq<string>)
    requires Strip(text) != ""
    requires Split(Strip(text)) == before + [x] + after
    requires IsBlank(x)
    ensures SplitAll(SplitBlocks(text)) == Group(before, []) + Group(after, [])
  {
    GroupAtBlank(before, x, after, []);
  }

  lemma BlocksOfGroups(lines: seq<string>, groups: seq<seq<string>>)
    requires NoNewlines(lines)
    requires groups == Group(lines, [])
    ensures SplitAll(JoinAll(groups)) == groups
  {
    GroupNoNewline(lines, []);
    forall k | 0 <= k < |groups|
      ensures Split(Join("\n", groups[k])) == groups[k]
    {
      SplitJoin(groups[k]);
    }
  }

  /** A block as a subtitle file holds it: lines of which none is blank. */
  predicate IsBlock(b: string)
  {
    forall k :: 0 <= k < |Split(b)| ==> !IsBlank(Split(b)[k])
  }

  /** Non-blank lines joined by line feeds form a block. */
  lemma JoinedIsBlock(lines: seq<string>)
    requires |lines| >= 1
    requires forall k :: 0 <= k < |lines| ==> '\n' !in lines[k] && !IsBlank(lines[k])
    ensures IsBlock(Join("\n", lines))
  {
    SplitJoin(lines);
  }

  /** The lines of blocks separated by one empty line group back into the
      blocks' lines. */
  lemma {:induction false} GroupOfJoined(blocks: seq<string>)
    requires |blocks| >= 1
    requires forall k :: 0 <= k < |blocks| ==> IsBlock(blocks[k])
    ensures Group(Split(Join("\n\n", blocks)), []) == SplitAll(blocks)
  {
    var b := blocks[0];
    GroupNoBlank(Split(b), []);
    assert [] + Split(b) == Split(b);
    if |blocks| == 1 {
      assert SplitAll(blocks) == [Split(b)];
    } else {
      var rest := blocks[1..];
      var j := Join("\n\n", rest);
      assert Join("\n\n", blocks) == b + "\n\n" + j;
      SplitAtEmptyLine(b, j);
      assert Group(Split(j), []) == SplitAll(rest) by {
        assert forall k :: 0 <= k < |rest| ==> rest[k] == blocks[k + 1];
        GroupOfJoined(rest);
      }
      GroupAtBlank(Split(b), "", Split(j), []);
      assert SplitAll(blocks) == [Split(b)] + SplitAll(rest);
    }
  }

  /** `split_srt_blocks` undoes writing blocks separated by empty lines,
      provided the text has no surrounding whitespace to strip. */
  lemma SplitJoinedBlocks(blocks: seq<string>)
    requires |blocks| >= 1
    requires forall k :: 0 <= k < |blocks| ==> IsBlock(blocks[k])
    requires |blocks[0]| > 0 && !IsSpace(blocks[0][0])
    requires |blocks[|blocks| - 1]| > 0 && !IsSpace(blocks[|blocks| - 1][|blocks[|blocks| - 1]| - 1])
    ensures SplitBlocks(Join("\n\n", blocks)) == blocks
  {
    var t := Join("\n\n", blocks);
    JoinFirst("\n\n", blocks);
    JoinLast("\n\n", blocks);
    StripTrimmed(t);
    GroupOfJoined(blocks);
    var r := SplitBlocks(t);
    assert r == JoinAll(SplitAll(blocks));
    forall k | 0 <= k < |blocks| ensures r[k] == blocks[k] {
      JoinSplit(blocks[k]);
    }
  }

  /** A stripped, non-empty text starts with a non-blank line. */
  lemma FirstLineNotBlank(t: string)
    requires |t| > 0 && !IsSpace(t[0])
    ensures |NonBlank(Split(t))| > 0
  {
    var lines := Split(t);
    assert lines[0][0] == t[0];
    assert ContentLine(lines[0]).Some?;
  }
}
