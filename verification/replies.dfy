/** The reply-parsing tail of `translate_lines_with_context`: the
    translation service's free-form reply becomes a list of translations,
    padded with empty strings up to the batch length and never truncated. */
module Replies {
  import opened Wrappers
  import opened Seqs
  import opened Text

  /** Separates an original line from its translation in a reply line. */
  const Delimiter := "|||"

  /** What one reply line contributes: a line holding the delimiter gives
      the stripped text after its first occurrence; any other line gives
      nothing. */
  function ReplyEntry(line: string): (r: Option<string>)
    ensures r.Some? <==> Contains(line, Delimiter)
    ensures r.Some? ==> exists i :: IsFirstOccurrence(line, Delimiter, i) && r.value == Strip(line[i + |Delimiter|..])
  {
    if Contains(line, Delimiter) then Some(Strip(AfterFirst(line, Delimiter))) else None
  }

  /** A reply line in the requested `original|||translation` form, whose
      original holds no `|`, gives its translation, stripped; a `|||`
      inside the translation stays part of it. */
  lemma PairLine(src: string, zh: string)
    requires '|' !in src
    ensures ReplyEntry(src + Delimiter + zh) == Some(Strip(zh))
  {
    var line := src + Delimiter + zh;
    assert line[|src|..|src| + |Delimiter|] == Delimiter;
    assert OccursAt(line, Delimiter, |src|);
    forall j | 0 <= j < |src| ensures !OccursAt(line, Delimiter, j) {
      assert line[j..j + |Delimiter|][0] == src[j];
    }
    assert Find(line, Delimiter) == Some(|src|);
    assert line[|src| + |Delimiter|..] == zh;
  }

  /** The `translated_pairs` loop. */
  function ParseReply(reply: string): (r: seq<string>)
    ensures |r| <= |StrippedLines(reply)|
    ensures Strip(reply) == "" ==> r == []
  {
    FilterMap(ReplyEntry, StrippedLines(reply))
  }

  /** One entry per delimited reply line, in reply order, and none for any
      other line. */
  lemma ParseReplyOrder(reply: string) returns (origin: seq<nat>)
    ensures IsOrigin(ReplyEntry, StrippedLines(reply), ParseReply(reply), origin)
  {
    origin := FilterMapOrigin(ReplyEntry, StrippedLines(reply));
  }

  /** Entries are single lines. */
  lemma ParseReplySingleLine(reply: string)
    ensures forall k :: 0 <= k < |ParseReply(reply)| ==> '\n' !in ParseReply(reply)[k]
  {
    var lines := StrippedLines(reply);
    var entries := ParseReply(reply);
    var origin := FilterMapOrigin(ReplyEntry, lines);
    forall k | 0 <= k < |entries| ensures '\n' !in entries[k] {
      var line := lines[origin[k]];
      var i :| IsFirstOccurrence(line, Delimiter, i) && entries[k] == Strip(line[i + |Delimiter|..]);
      assert '\n' !in line[i + |Delimiter|..];
      StripNoNewline(line[i + |Delimiter|..]);
    }
  }

  /** The padding loop: append `""` while shorter than `n`. The entries
      already there are kept, the added ones are empty and at the end, and
      nothing is ever removed. */
  function Pad(xs: seq<string>, n: nat): (r: seq<string>)
    ensures |r| == Max(|xs|, n)
    ensures forall i :: 0 <= i < |xs| ==> r[i] == xs[i]
    ensures forall i :: |xs| <= i < |r| ==> r[i] == ""
    decreases n - |xs|
  {
    if |xs| < n then Pad(xs + [""], n) else xs
  }

  /** `translate_lines_with_context(batch, context)` once the service has
      answered `reply`. Never shorter than the batch; exactly as long as the
      batch unless the reply holds more delimited lines than the batch has
      texts, and then longer. */
  function AlignReply(batch: seq<string>, reply: string): (r: seq<string>)
    ensures |r| >= |batch|
    ensures |r| == |batch| <==> |ParseReply(reply)| <= |batch|
    ensures |r| == Max(|ParseReply(reply)|, |batch|)
    ensures forall i :: 0 <= i < |r| ==> r[i] == if i < |ParseReply(reply)| then ParseReply(reply)[i] else ""
  {
    Pad(ParseReply(reply), |batch|)
  }

  /** Corrected alignment: surplus entries are dropped before padding, so
      the result always has exactly one entry per batch text. */
  function AlignReplyExact(batch: seq<string>, reply: string): (r: seq<string>)
    ensures |r| == |batch|
    ensures forall i :: 0 <= i < |r| ==> r[i] == if i < |ParseReply(reply)| then ParseReply(reply)[i] else ""
  {
    var parsed := ParseReply(reply);
    TruncatedPad(parsed, |batch|);
    Pad(parsed[..Min(|parsed|, |batch|)], |batch|)
  }

  /** Cutting to `n` entries and padding to `n` keeps the first `n`
      entries in place and fills the rest with `""`. */
  lemma TruncatedPad(xs: seq<string>, n: nat)
    ensures |Pad(xs[..Min(|xs|, n)], n)| == n
    ensures forall i :: 0 <= i < n ==> Pad(xs[..Min(|xs|, n)], n)[i] == if i < |xs| then xs[i] else ""
  {
    var cut := xs[..Min(|xs|, n)];
    var r := Pad(cut, n);
    forall i | 0 <= i < n ensures r[i] == if i < |xs| then xs[i] else "" {
      if i < |cut| {
        assert r[i] == cut[i];
      }
    }
  }

  /** The two agree whenever the reply does not overshoot. */
  lemma ExactAgreesWhenFits(batch: seq<string>, reply: string)
    requires |ParseReply(reply)| <= |batch|
    ensures AlignReplyExact(batch, reply) == AlignReply(batch, reply)
  {
  }
}
