/** String primitives the subtitle script borrows from Python's `str`:
    `strip`, `split("\n")`, `splitlines`, `in`, `split(sep, 1)`, `join`,
    the `^\d+$` test and `str(int)`. Whitespace is ASCII whitespace and the
    only line break is the line feed. */
module Text {
  import opened Wrappers
  import opened Seqs

  /** Space, tab, line feed, vertical tab, form feed, carriage return. */
  predicate IsSpace(c: char) { c == ' ' || '\t' <= c <= '\r' }

  /** A line made of whitespace only (the empty line included). */
  predicate IsBlank(s: string) { forall i :: 0 <= i < |s| ==> IsSpace(s[i]) }

  function TrimStart(s: string): (r: string)
    ensures |r| <= |s| && r == s[|s| - |r|..]
    ensures forall i :: 0 <= i < |s| - |r| ==> IsSpace(s[i])
    ensures |r| > 0 ==> !IsSpace(r[0])
  {
    if |s| > 0 && IsSpace(s[0]) then TrimStart(s[1..]) else s
  }

  function TrimEnd(s: string): (r: string)
    ensures |r| <= |s| && r == s[..|r|]
    ensures forall i :: |r| <= i < |s| ==> IsSpace(s[i])
    ensures |r| > 0 ==> !IsSpace(r[|r| - 1])
  {
    if |s| > 0 && IsSpace(s[|s| - 1]) then TrimEnd(s[..|s| - 1]) else s
  }

  /** `s.strip()`: the result is a slice `s[lo..lo + |r|]` with only
      whitespace outside it and no whitespace at either of its ends. */
  function Strip(s: string): (r: string)
    ensures |r| <= |s|
    ensures |r| > 0 ==> !IsSpace(r[0]) && !IsSpace(r[|r| - 1])
    ensures exists lo :: StrippedAt(s, r, lo)
  {
    var t := TrimStart(s);
    var r := TrimEnd(t);
    assert StrippedAt(s, r, |s| - |t|);
    r
  }

  ghost predicate StrippedAt(s: string, r: string, lo: int)
  {
    && 0 <= lo && lo + |r| <= |s|
    && r == s[lo..lo + |r|]
    && (forall i :: 0 <= i < lo ==> IsSpace(s[i]))
    && (forall i :: lo + |r| <= i < |s| ==> IsSpace(s[i]))
  }

  /** A string that neither starts nor ends with whitespace is its own
      strip. */
  lemma StripTrimmed(s: string)
    requires |s| > 0 ==> !IsSpace(s[0]) && !IsSpace(s[|s| - 1])
    ensures Strip(s) == s
  {
    assert TrimStart(s) == s;
    assert TrimEnd(s) == s;
  }

  /** Stripping a string without whitespace changes nothing. */
  lemma StripNoSpace(s: string)
    requires forall i :: 0 <= i < |s| ==> !IsSpace(s[i])
    ensures Strip(s) == s
  {
    StripTrimmed(s);
  }

  /** Stripping keeps every non-whitespace character, so a piece of text
      without whitespace that occurs in `s` occurs in `Strip(s)`. */
  lemma StripKeeps(s: string, pat: string)
    requires |pat| > 0 && forall i :: 0 <= i < |pat| ==> !IsSpace(pat[i])
    requires Contains(s, pat)
    ensures Contains(Strip(s), pat)
  {
    var r := Strip(s);
    var lo :| StrippedAt(s, r, lo);
    var i := Find(s, pat).value;
    OccurrenceInside(s, r, lo, pat, i);
    ContainsIff(r, pat);
  }

  /** An occurrence of a whitespace-free pattern lies inside the stripped
      slice. */
  lemma OccurrenceInside(s: string, r: string, lo: int, pat: string, i: int)
    requires StrippedAt(s, r, lo)
    requires |pat| > 0 && forall k :: 0 <= k < |pat| ==> !IsSpace(pat[k])
    requires OccursAt(s, pat, i)
    ensures OccursAt(r, pat, i - lo)
  {
    assert s[i] == s[i..i + |pat|][0] == pat[0];
    assert s[i + |pat| - 1] == s[i..i + |pat|][|pat| - 1] == pat[|pat| - 1];
    SliceOccurs(s, lo, lo + |r|, pat, i);
  }

  /** An occurrence within the bounds of a slice is an occurrence in it. */
  lemma SliceOccurs(s: string, lo: int, hi: int, pat: string, i: int)
    requires 0 <= lo <= i && i + |pat| <= hi <= |s|
    requires OccursAt(s, pat, i)
    ensures OccursAt(s[lo..hi], pat, i - lo)
  {
    var t := s[lo..hi];
    var inner, outer := t[i - lo..i - lo + |pat|], s[i..i + |pat|];
    forall k | 0 <= k < |pat| ensures inner[k] == outer[k] {
      assert t[i - lo + k] == s[i + k];
    }
    assert inner == outer;
  }

  /** A slice of a string without line feeds has none either. */
  lemma StripNoNewline(s: string)
    requires '\n' !in s
    ensures '\n' !in Strip(s)
  {
    var r := Strip(s);
    var lo :| StrippedAt(s, r, lo);
    forall i | 0 <= i < |r| ensures r[i] != '\n' {
      assert r[i] == s[lo + i];
    }
  }

  /** Stripping an all-whitespace text leaves nothing. */
  lemma StripBlank(s: string)
    requires IsBlank(s)
    ensures Strip(s) == ""
  {
    var r := Strip(s);
    var lo :| StrippedAt(s, r, lo);
  }

  /** Whitespace added at the end is removed again by `strip`. */
  lemma StripBlankSuffix(x: string, w: string)
    requires IsBlank(w)
    ensures Strip(x + w) == Strip(x)
  {
    if IsBlank(x) {
      StripBlank(x);
      assert IsBlank(x + w) by {
        forall i | 0 <= i < |x + w| ensures IsSpace((x + w)[i]) {
          if i >= |x| {
            assert (x + w)[i] == w[i - |x|];
          }
        }
      }
      StripBlank(x + w);
    } else {
      TrimStartAppend(x, w);
      TrimEndBlankSuffix(TrimStart(x), w);
    }
  }

  lemma {:induction false} TrimEndBlankSuffix(t: string, w: string)
    requires IsBlank(w)
    ensures TrimEnd(t + w) == TrimEnd(t)
    decreases |w|
  {
    if |w| == 0 {
      assert t + w == t;
    } else {
      var u := t + w;
      var v := w[..|w| - 1];
      assert u[|u| - 1] == w[|w| - 1];
      assert u[..|u| - 1] == t + v;
      assert IsBlank(v) by {
        forall i | 0 <= i < |v| ensures IsSpace(v[i]) {
          assert v[i] == w[i];
        }
      }
      TrimEndBlankSuffix(t, v);
    }
  }

  /** Stripping a line that is not blank leaves something. */
  lemma StripNonBlank(s: string)
    requires !IsBlank(s)
    ensures |Strip(s)| > 0
  {
    var r := Strip(s);
    var lo :| StrippedAt(s, r, lo);
    var i :| 0 <= i < |s| && !IsSpace(s[i]);
  }

  /** Trimming a line that is not blank keeps it not blank, and adds no
      line feed. */
  lemma TrimStartKeepsLine(s: string)
    requires !IsBlank(s)
    ensures !IsBlank(TrimStart(s))
    ensures '\n' !in s ==> '\n' !in TrimStart(s)
  {
    var a := TrimStart(s);
    SuffixKeepsLine(s, |s| - |a|);
  }

  /** Cutting only whitespace off the front of a line that is not blank
      leaves a line that is not blank, with no new line feed. */
  lemma SuffixKeepsLine(s: string, d: nat)
    requires d <= |s| && !IsBlank(s)
    requires forall i :: 0 <= i < d ==> IsSpace(s[i])
    ensures !IsBlank(s[d..])
    ensures '\n' !in s ==> '\n' !in s[d..]
  {
    var i :| 0 <= i < |s| && !IsSpace(s[i]);
    assert s[d..][i - d] == s[i];
    if '\n' !in s {
      forall k | 0 <= k < |s| - d ensures s[d..][k] != '\n' {
        assert s[d..][k] == s[d + k];
      }
    }
  }

  lemma TrimEndKeepsLine(s: string)
    requires !IsBlank(s)
    ensures !IsBlank(TrimEnd(s))
    ensures '\n' !in s ==> '\n' !in TrimEnd(s)
  {
    var i :| 0 <= i < |s| && !IsSpace(s[i]);
    var b := TrimEnd(s);
    assert b[i] == s[i];
    forall k | 0 <= k < |b| ensures b[k] == s[k] {
    }
  }

  /** Leading whitespace ends inside a first part that is not blank. */
  lemma {:induction false} TrimStartAppend(x: string, y: string)
    requires !IsBlank(x)
    ensures TrimStart(x + y) == TrimStart(x) + y
    decreases |x|
  {
    HeadTail(x, y);
    if IsSpace(x[0]) {
      assert !IsBlank(x[1..]) by {
        var i :| 0 <= i < |x| && !IsSpace(x[i]);
        assert x[1..][i - 1] == x[i];
      }
      TrimStartAppend(x[1..], y);
    }
  }

  /** Trailing whitespace ends inside a last part that is not blank. */
  lemma {:induction false} TrimEndPrepend(y: string, x: string)
    requires !IsBlank(x)
    ensures TrimEnd(y + x) == y + TrimEnd(x)
    decreases |x|
  {
    var s := y + x;
    if IsSpace(x[|x| - 1]) {
      var x' := x[..|x| - 1];
      assert !IsBlank(x') by {
        var i :| 0 <= i < |x| && !IsSpace(x[i]);
        assert x'[i] == x[i];
      }
      LastOfAppend(y, x);
      TrimEndPrepend(y, x');
    }
  }

  lemma LastOfAppend(y: string, x: string)
    requires |x| > 0
    ensures (y + x)[|y + x| - 1] == x[|x| - 1]
    ensures (y + x)[..|y + x| - 1] == y + x[..|x| - 1]
  {
  }

  // ---- Occurrences of a pattern

  predicate OccursAt(s: string, pat: string, i: int)
  {
    0 <= i && i + |pat| <= |s| && s[i..i + |pat|] == pat
  }

  /** The first occurrence of `pat` in `s` at or after `from`. */
  function FindFrom(s: string, pat: string, from: nat): (r: Option<nat>)
    ensures r.Some? ==> from <= r.value && OccursAt(s, pat, r.value)
    ensures forall j :: from <= j && (r.None? || j < r.value) ==> !OccursAt(s, pat, j)
    decreases |s| - from
  {
    if from + |pat| > |s| then None
    else if s[from..from + |pat|] == pat then Some(from)
    else FindFrom(s, pat, from + 1)
  }

  function Find(s: string, pat: string): (r: Option<nat>)
    ensures r.Some? ==> OccursAt(s, pat, r.value)
    ensures forall j :: 0 <= j && (r.None? || j < r.value) ==> !OccursAt(s, pat, j)
  {
    FindFrom(s, pat, 0)
  }

  /** Python's `pat in s`. */
  predicate Contains(s: string, pat: string)
  {
    Find(s, pat).Some?
  }

  lemma ContainsIff(s: string, pat: string)
    ensures Contains(s, pat) <==> exists i :: OccursAt(s, pat, i)
  {
    if Contains(s, pat) {
      assert OccursAt(s, pat, Find(s, pat).value);
    }
  }

  /** The second half of Python's `s.split(pat, 1)`: everything after the
      first occurrence of `pat`. */
  function AfterFirst(s: string, pat: string): (r: string)
    requires Contains(s, pat)
    ensures exists i :: IsFirstOccurrence(s, pat, i) && r == s[i + |pat|..]
  {
    var i := Find(s, pat).value;
    assert IsFirstOccurrence(s, pat, i);
    s[i + |pat|..]
  }

  ghost predicate IsFirstOccurrence(s: string, pat: string, i: int)
  {
    OccursAt(s, pat, i) && forall j :: 0 <= j < i ==> !OccursAt(s, pat, j)
  }

  // ---- Splitting and joining

  /** `s.split("\n")`: the pieces between line feeds, at least one. */
  function Split(s: string): (r: seq<string>)
    ensures |r| >= 1
    ensures forall k :: 0 <= k < |r| ==> '\n' !in r[k]
    decreases |s|
  {
    if |s| == 0 then [""]
    else
      var rest := Split(s[1..]);
      if s[0] == '\n' then [""] + rest
      else [[s[0]] + rest[0]] + rest[1..]
  }

  /** `sep.join(xs)`. */
  function Join(sep: string, xs: seq<string>): string
  {
    if |xs| == 0 then ""
    else if |xs| == 1 then xs[0]
    else xs[0] + sep + Join(sep, xs[1..])
  }

  lemma JoinPair(sep: string, a: string, b: string)
    ensures Join(sep, [a, b]) == a + sep + b
  {
    assert [a, b][1..] == [b];
  }

  lemma JoinFirst(sep: string, xs: seq<string>)
    requires |xs| >= 1 && |xs[0]| > 0
    ensures |Join(sep, xs)| > 0 && Join(sep, xs)[0] == xs[0][0]
  {
  }

  lemma {:induction false} JoinLast(sep: string, xs: seq<string>)
    requires |xs| >= 1 && |xs[|xs| - 1]| > 0
    ensures |Join(sep, xs)| > 0
    ensures Join(sep, xs)[|Join(sep, xs)| - 1] == xs[|xs| - 1][|xs[|xs| - 1]| - 1]
  {
    if |xs| > 1 {
      JoinLast(sep, xs[1..]);
      assert xs[1..][|xs| - 2] == xs[|xs| - 1];
    }
  }

  /** `s.splitlines()` for line-feed line breaks: the pieces between line
      feeds, except that a final line feed does not start an empty line. */
  function Lines(s: string): (r: seq<string>)
    ensures forall k :: 0 <= k < |r| ==> '\n' !in r[k]
    ensures r == [] <==> s == ""
    ensures Split(s) == r || Split(s) == r + [""]
    ensures Split(s) == r + [""] <==> s == "" || s[|s| - 1] == '\n'
  {
    SplitLast(s);
    var pieces := Split(s);
    if pieces[|pieces| - 1] == "" then pieces[..|pieces| - 1] else pieces
  }

  /** The last line-feed piece is empty exactly when the text is empty or
      ends with a line feed. */
  lemma {:induction false} SplitLast(s: string)
    ensures Split(s)[|Split(s)| - 1] == "" <==> s == "" || s[|s| - 1] == '\n'
    decreases |s|
  {
    if |s| > 0 {
      var t := s[1..];
      var rest := Split(t);
      SplitLast(t);
      if s[0] != '\n' && |rest| == 1 {
        JoinSplit(t);
        assert t == rest[0];
        if |t| > 0 {
          assert t[|t| - 1] in rest[0];
        }
      } else if |t| > 0 {
        assert s[|s| - 1] == t[|t| - 1];
      }
    }
  }

  /** `s.strip().splitlines()`, the reading of both a subtitle block and a
      service reply: single lines, and none at all exactly when the text is
      all whitespace. */
  function StrippedLines(s: string): (r: seq<string>)
    ensures r == [] <==> Strip(s) == ""
    ensures forall k :: 0 <= k < |r| ==> '\n' !in r[k]
  {
    Lines(Strip(s))
  }

  /** Each line followed by a line feed: the text a sequence of
      `write(line + "\n")` calls produces. */
  function Terminated(lines: seq<string>): string
  {
    if |lines| == 0 then "" else lines[0] + "\n" + Terminated(lines[1..])
  }

  lemma {:induction false} SplitPrefix(a: string, t: string)
    requires '\n' !in a
    ensures Split(a + t) == [a + Split(t)[0]] + Split(t)[1..]
    decreases |a|
  {
    if |a| > 0 {
      assert (a + t)[1..] == a[1..] + t;
      SplitPrefix(a[1..], t);
      assert [a[0]] + (a[1..] + Split(t)[0]) == a + Split(t)[0];
    } else {
      assert a + t == t;
      assert a + Split(t)[0] == Split(t)[0];
      assert [Split(t)[0]] + Split(t)[1..] == Split(t);
    }
  }

  /** Splitting at a line feed that ends a line-feed-free prefix. */
  lemma SplitAtNewline(a: string, t: string)
    requires '\n' !in a
    ensures Split(a + "\n" + t) == [a] + Split(t)
  {
    assert a + "\n" + t == a + ("\n" + t);
    SplitPrefix(a, "\n" + t);
    assert ("\n" + t)[1..] == t;
    assert Split("\n" + t) == [""] + Split(t);
    assert a + "" == a;
  }

  lemma SplitNoNewline(a: string)
    requires '\n' !in a
    ensures Split(a) == [a]
  {
    assert a + "" == a;
    SplitPrefix(a, "");
  }

  /** A line feed between two texts splits them independently. */
  lemma {:induction false} SplitConcat(a: string, t: string)
    ensures Split(a + "\n" + t) == Split(a) + Split(t)
    decreases |a|
  {
    if |a| == 0 {
      assert a + "\n" + t == "\n" + t;
      SplitNewlineFirst(t);
    } else {
      var u := a[1..] + "\n" + t;
      SplitConcat(a[1..], t);
      assert a + "\n" + t == [a[0]] + u;
      assert a == [a[0]] + a[1..];
      SplitCons(a[0], u);
      SplitCons(a[0], a[1..]);
      var rest, st := Split(a[1..]), Split(t);
      if a[0] == '\n' {
        AppendAssoc([""], rest, st);
      } else {
        HeadTail(rest, st);
        AppendAssoc([[a[0]] + rest[0]], rest[1..], st);
      }
    }
  }

  /** One step of `Split`: the first character either ends the first line
      or joins it. */
  lemma SplitCons(c: char, u: string)
    ensures Split([c] + u) ==
      if c == '\n' then [""] + Split(u) else [[c] + Split(u)[0]] + Split(u)[1..]
  {
    assert ([c] + u)[1..] == u;
  }

  /** An empty line between two texts: the first text's lines, one empty
      line, then the second text's lines. */
  lemma SplitAtEmptyLine(a: string, t: string)
    ensures Split(a + "\n\n" + t) == Split(a) + [""] + Split(t)
  {
    assert a + "\n\n" + t == a + "\n" + ("\n" + t);
    SplitConcat(a, "\n" + t);
    SplitNewlineFirst(t);
    AppendAssoc(Split(a), [""], Split(t));
  }

  /** A leading line feed starts with an empty line. */
  lemma SplitNewlineFirst(t: string)
    ensures Split("\n" + t) == [""] + Split(t)
  {
    assert ("\n" + t)[1..] == t;
  }

  /** Joining lines with line feeds and splitting again gives the lines back. */
  lemma {:induction false} SplitJoin(lines: seq<string>)
    requires |lines| >= 1
    requires forall k :: 0 <= k < |lines| ==> '\n' !in lines[k]
    ensures Split(Join("\n", lines)) == lines
  {
    if |lines| == 1 {
      SplitNoNewline(lines[0]);
    } else {
      SplitJoin(lines[1..]);
      SplitAtNewline(lines[0], Join("\n", lines[1..]));
    }
  }

  /** Lines joined by line feeds, with no whitespace at the very start or
      end, are read back by stripping and `splitlines` as the same lines. */
  lemma LinesOfJoin(lines: seq<string>)
    requires |lines| >= 1 && forall k :: 0 <= k < |lines| ==> '\n' !in lines[k]
    requires |lines[0]| > 0 && !IsSpace(lines[0][0])
    requires |lines[|lines| - 1]| > 0 && !IsSpace(lines[|lines| - 1][|lines[|lines| - 1]| - 1])
    ensures Lines(Strip(Join("\n", lines))) == lines
  {
    var j := Join("\n", lines);
    assert Strip(j) == j by {
      JoinFirst("\n", lines);
      JoinLast("\n", lines);
      StripTrimmed(j);
    }
    assert Split(j) == lines by {
      SplitJoin(lines);
    }
    assert lines[|lines| - 1] != "";
    LinesWhole(j, lines);
  }

  /** Without a final line feed, `splitlines` gives every piece. */
  lemma LinesWhole(s: string, pieces: seq<string>)
    requires Split(s) == pieces && |pieces| > 0 && pieces[|pieces| - 1] != ""
    ensures Lines(s) == pieces
  {
  }

  /** The lines of a block after `strip`: the first line loses its leading
      whitespace and the last line its trailing whitespace; the lines in
      between are untouched. */
  function TrimEdges(lines: seq<string>): (r: seq<string>)
    requires |lines| >= 1
    ensures |r| == |lines|
  {
    TrimLast(TrimFirst(lines))
  }

  function TrimFirst(lines: seq<string>): (r: seq<string>)
    requires |lines| >= 1
    ensures |r| == |lines|
  {
    [TrimStart(lines[0])] + lines[1..]
  }

  function TrimLast(lines: seq<string>): (r: seq<string>)
    requires |lines| >= 1
    ensures |r| == |lines|
  {
    lines[..|lines| - 1] + [TrimEnd(lines[|lines| - 1])]
  }

  /** Leading whitespace of lines joined by line feeds is the first line's. */
  lemma JoinTrimStart(lines: seq<string>)
    requires |lines| >= 1 && !IsBlank(lines[0])
    ensures TrimStart(Join("\n", lines)) == Join("\n", TrimFirst(lines))
  {
    var first := TrimStart(lines[0]);
    if |lines| > 1 {
      var rest := lines[1..];
      var j := Join("\n", rest);
      assert Join("\n", lines) == lines[0] + "\n" + j;
      assert Join("\n", [first] + rest) == first + "\n" + j by {
        JoinCons("\n", first, rest);
      }
      TrimStartLine(lines[0], j);
    } else {
      assert [first] + lines[1..] == [first];
    }
  }

  lemma TrimStartLine(x: string, rest: string)
    requires !IsBlank(x)
    ensures TrimStart(x + "\n" + rest) == TrimStart(x) + "\n" + rest
  {
    AppendAssoc(x, "\n", rest);
    AppendAssoc(TrimStart(x), "\n", rest);
    TrimStartAppend(x, "\n" + rest);
  }

  lemma JoinCons(sep: string, x: string, xs: seq<string>)
    requires |xs| >= 1
    ensures Join(sep, [x] + xs) == x + sep + Join(sep, xs)
  {
    assert ([x] + xs)[1..] == xs;
  }

  /** Lines joined by line feeds whose last line is not blank are not blank. */
  lemma {:induction false} JoinNotBlank(lines: seq<string>)
    requires |lines| >= 1 && !IsBlank(lines[|lines| - 1])
    ensures !IsBlank(Join("\n", lines))
  {
    if |lines| > 1 {
      assert lines[1..][|lines| - 2] == lines[|lines| - 1];
      JoinNotBlank(lines[1..]);
      var rest := Join("\n", lines[1..]);
      var i :| 0 <= i < |rest| && !IsSpace(rest[i]);
      var head := lines[0] + "\n";
      assert Join("\n", lines) == head + rest;
      assert (head + rest)[|head| + i] == rest[i];
    }
  }

  /** Trailing whitespace of lines joined by line feeds is the last line's. */
  lemma {:induction false} JoinTrimEnd(lines: seq<string>)
    requires |lines| >= 1 && !IsBlank(lines[|lines| - 1])
    ensures TrimEnd(Join("\n", lines)) == Join("\n", TrimLast(lines))
  {
    var last := TrimEnd(lines[|lines| - 1]);
    var g := lines[..|lines| - 1] + [last];
    if |lines| == 1 {
      assert g == [last];
    } else {
      var tail := lines[1..];
      assert tail[|tail| - 1] == lines[|lines| - 1];
      var rest := Join("\n", tail);
      JoinNotBlank(tail);
      assert Join("\n", lines) == (lines[0] + "\n") + rest;
      TrimEndPrepend(lines[0] + "\n", rest);
      JoinTrimEnd(tail);
      assert g[0] == lines[0] && g[1..] == tail[..|tail| - 1] + [last];
    }
  }

  /** Single lines none of which is blank: the lines of a block. */
  predicate SolidLines(lines: seq<string>)
  {
    forall k :: 0 <= k < |lines| ==> '\n' !in lines[k] && !IsBlank(lines[k])
  }

  lemma TrimFirstSolid(lines: seq<string>)
    requires |lines| >= 1 && SolidLines(lines)
    ensures SolidLines(TrimFirst(lines))
  {
    TrimStartKeepsLine(lines[0]);
    ReplaceFirstSolid(lines, TrimStart(lines[0]));
  }

  lemma ReplaceFirstSolid(lines: seq<string>, x: string)
    requires |lines| >= 1 && SolidLines(lines)
    requires '\n' !in x && !IsBlank(x)
    ensures SolidLines([x] + lines[1..])
  {
    var f := [x] + lines[1..];
    forall k | 1 <= k < |f| ensures f[k] == lines[k] {
    }
  }

  lemma TrimLastSolid(lines: seq<string>)
    requires |lines| >= 1 && SolidLines(lines)
    ensures SolidLines(TrimLast(lines))
  {
    TrimEndKeepsLine(lines[|lines| - 1]);
    ReplaceLastSolid(lines, TrimEnd(lines[|lines| - 1]));
  }

  lemma ReplaceLastSolid(lines: seq<string>, x: string)
    requires |lines| >= 1 && SolidLines(lines)
    requires '\n' !in x && !IsBlank(x)
    ensures SolidLines(lines[..|lines| - 1] + [x])
  {
    var g := lines[..|lines| - 1] + [x];
    forall k | 0 <= k < |g| - 1 ensures g[k] == lines[k] {
    }
  }

  /** `strip` of lines joined by line feeds, none of them blank, is the
      join of the lines with their outer edges trimmed. */
  lemma StripJoin(lines: seq<string>)
    requires |lines| >= 1 && SolidLines(lines)
    ensures Strip(Join("\n", lines)) == Join("\n", TrimEdges(lines))
    ensures SolidLines(TrimEdges(lines))
  {
    var s := Join("\n", lines);
    var f := TrimFirst(lines);
    JoinTrimStart(lines);
    TrimFirstSolid(lines);
    JoinTrimEnd(f);
    TrimLastSolid(f);
    assert Strip(s) == TrimEnd(TrimStart(s));
  }

  /** Reading non-blank single lines joined by line feeds back with
      `strip().splitlines()` gives the same lines, with only the first
      line's leading and the last line's trailing whitespace removed, and
      none of them blank. */
  lemma LinesOfStrippedJoin(lines: seq<string>)
    requires |lines| >= 1 && SolidLines(lines)
    ensures StrippedLines(Join("\n", lines)) == TrimEdges(lines)
    ensures SolidLines(TrimEdges(lines))
  {
    var g := TrimEdges(lines);
    StripJoin(lines);
    SplitJoin(g);
    assert g[|g| - 1] != "";
    LinesWhole(Join("\n", g), g);
  }

  /** Splitting and joining again gives the text back. */
  lemma {:induction false} JoinSplit(s: string)
    ensures Join("\n", Split(s)) == s
    decreases |s|
  {
    if |s| > 0 {
      JoinSplit(s[1..]);
      var rest := Split(s[1..]);
      if s[0] == '\n' {
        assert s == "\n" + s[1..];
      } else {
        assert s == [s[0]] + s[1..];
      }
    }
  }

  /** Written lines read back as the same lines. */
  lemma {:induction false} LinesOfTerminated(lines: seq<string>)
    requires forall k :: 0 <= k < |lines| ==> '\n' !in lines[k]
    ensures Split(Terminated(lines)) == lines + [""]
    ensures Lines(Terminated(lines)) == lines
  {
    if |lines| > 0 {
      LinesOfTerminated(lines[1..]);
      SplitAtNewline(lines[0], Terminated(lines[1..]));
      assert lines == [lines[0]] + lines[1..];
    }
  }

  lemma {:induction false} TerminatedAppend(xs: seq<string>, ys: seq<string>)
    ensures Terminated(xs + ys) == Terminated(xs) + Terminated(ys)
  {
    if |xs| == 0 {
      assert xs + ys == ys;
    } else {
      assert (xs + ys)[1..] == xs[1..] + ys;
      TerminatedAppend(xs[1..], ys);
    }
  }

  lemma {:induction false} JoinNoNewline(sep: string, xs: seq<string>)
    requires '\n' !in sep
    requires forall k :: 0 <= k < |xs| ==> '\n' !in xs[k]
    ensures '\n' !in Join(sep, xs)
  {
    if |xs| > 1 {
      JoinNoNewline(sep, xs[1..]);
    }
  }

  // ---- Decimal numerals

  predicate IsDigit(c: char) { '0' <= c <= '9' }

  /** Python's `re.match(r"^\d+$", s)` with ASCII digits. */
  predicate IsDigits(s: string)
  {
    |s| > 0 && forall i :: 0 <= i < |s| ==> IsDigit(s[i])
  }

  function DigitChar(d: nat): (c: char)
    requires d < 10
    ensures IsDigit(c) && c as int - '0' as int == d
  {
    ('0' as int + d) as char
  }

  /** `str(n)`: decimal digits without leading zeros. */
  function Decimal(n: nat): (r: string)
    ensures IsDigits(r)
    ensures |r| > 1 ==> r[0] != '0'
  {
    if n < 10 then [DigitChar(n)] else Decimal(n / 10) + [DigitChar(n % 10)]
  }

  /** The number a string of decimal digits denotes. */
  function DigitsValue(s: string): nat
    requires forall i :: 0 <= i < |s| ==> IsDigit(s[i])
  {
    if |s| == 0 then 0
    else
      assert IsDigit(s[|s| - 1]);
      DigitsValue(s[..|s| - 1]) * 10 + (s[|s| - 1] as int - '0' as int)
  }

  /** The numeral reads back as the number it was written for. */
  lemma {:induction false} DecimalValue(n: nat)
    ensures DigitsValue(Decimal(n)) == n
  {
    if n >= 10 {
      DecimalValue(n / 10);
      var r := Decimal(n);
      assert r[..|r| - 1] == Decimal(n / 10);
    }
  }
}
