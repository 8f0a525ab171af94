/** The output loop of `process_srt_file`: every cue is written again with
    a fresh sequential number, its time line, its text and the translation
    at its position. The file is modelled as the string written to it. */
module Assembly {
  import opened Seqs
  import opened Text
  import opened Cues

  /** The lines written for the cue at position `k`: its number `k + 1`,
      its time, its text, the translation at position `k` if there is one,
      and an empty separator line. The cue's own index plays no part. */
  function EntryLines(k: nat, cue: Cue, translated: seq<string>): seq<string>
  {
    [Decimal(k + 1), cue.time, cue.text] + (if k < |translated| then [translated[k]] else []) + [""]
  }

  /** The entries of all cues, in cue order. */
  function Entries(cues: seq<Cue>, translated: seq<string>): (r: seq<seq<string>>)
    ensures |r| == |cues|
    ensures forall k :: 0 <= k < |r| ==> r[k] == EntryLines(k, cues[k], translated)
  {
    seq(|cues|, k requires 0 <= k < |cues| => EntryLines(k, cues[k], translated))
  }

  /** The writes of the loop from cue `k` on. */
  function WriteFrom(cues: seq<Cue>, translated: seq<string>, k: nat): (r: string)
    ensures r == "" <==> k >= |cues|
    decreases |cues| - k
  {
    if k >= |cues| then ""
    else
      Decimal(k + 1) + "\n"
      + cues[k].time + "\n"
      + cues[k].text + "\n"
      + (if k < |translated| then translated[k] + "\n" else "")
      + "\n"
      + WriteFrom(cues, translated, k + 1)
  }

  /** The whole output file. */
  function Assemble(cues: seq<Cue>, translated: seq<string>): (r: string)
    ensures r == "" <==> |cues| == 0
  {
    WriteFrom(cues, translated, 0)
  }

  lemma TerminatedCons(x: string, ys: seq<string>)
    ensures Terminated([x] + ys) == x + "\n" + Terminated(ys)
  {
    assert ([x] + ys)[1..] == ys;
  }

  /** The writes for one cue are its entry lines, each ended by a line feed. */
  lemma EntryWrites(k: nat, cue: Cue, translated: seq<string>)
    ensures Terminated(EntryLines(k, cue, translated)) ==
      Decimal(k + 1) + "\n" + cue.time + "\n" + cue.text + "\n"
      + (if k < |translated| then translated[k] + "\n" else "")
      + "\n"
  {
    var tail: seq<string> := (if k < |translated| then [translated[k]] else []) + [""];
    var tailText := (if k < |translated| then translated[k] + "\n" else "") + "\n";
    assert Terminated(tail) == tailText by {
      TerminatedCons("", []);
      if k < |translated| {
        TerminatedCons(translated[k], [""]);
      } else {
        assert tail == [""];
      }
    }
    ThreeLines(Decimal(k + 1), cue.time, cue.text, tail);
    assert EntryLines(k, cue, translated) == [Decimal(k + 1), cue.time, cue.text] + tail;
  }

  lemma ThreeLines(a: string, b: string, c: string, tail: seq<string>)
    ensures Terminated([a, b, c] + tail) == a + "\n" + b + "\n" + c + "\n" + Terminated(tail)
  {
    assert [a, b, c] + tail == [a] + ([b] + ([c] + tail));
    TerminatedCons(a, [b] + ([c] + tail));
    TerminatedCons(b, [c] + tail);
    TerminatedCons(c, tail);
  }

  lemma {:induction false} WriteFromTerminated(cues: seq<Cue>, translated: seq<string>, k: nat)
    requires k <= |cues|
    ensures WriteFrom(cues, translated, k) == Terminated(Flatten(Entries(cues, translated)[k..]))
    decreases |cues| - k
  {
    var entries := Entries(cues, translated);
    if k < |cues| {
      WriteFromTerminated(cues, translated, k + 1);
      assert entries[k..] == [entries[k]] + entries[k + 1..];
      assert Flatten(entries[k..]) == entries[k] + Flatten(entries[k + 1..]);
      TerminatedAppend(entries[k], Flatten(entries[k + 1..]));
      EntryWrites(k, cues[k], translated);
    } else {
      assert entries[k..] == [];
    }
  }

  /** The output, read back line by line, is the cues' entries in cue
      order, provided no field holds a line feed. */
  lemma AssembleLines(cues: seq<Cue>, translated: seq<string>)
    requires forall k :: 0 <= k < |cues| ==> '\n' !in cues[k].time && '\n' !in cues[k].text
    requires forall k :: 0 <= k < |translated| ==> '\n' !in translated[k]
    ensures Lines(Assemble(cues, translated)) == Flatten(Entries(cues, translated))
  {
    var entries := Entries(cues, translated);
    WriteFromTerminated(cues, translated, 0);
    assert entries[0..] == entries;
    EntriesNoNewline(cues, translated);
    LinesOfTerminated(Flatten(entries));
  }

  lemma EntriesNoNewline(cues: seq<Cue>, translated: seq<string>)
    requires forall k :: 0 <= k < |cues| ==> '\n' !in cues[k].time && '\n' !in cues[k].text
    requires forall k :: 0 <= k < |translated| ==> '\n' !in translated[k]
    ensures forall i :: 0 <= i < |Flatten(Entries(cues, translated))| ==> '\n' !in Flatten(Entries(cues, translated))[i]
  {
    var entries := Entries(cues, translated);
    forall k | 0 <= k < |entries|
      ensures forall m :: 0 <= m < |entries[k]| ==> '\n' !in entries[k][m]
    {
      NumeralNoNewline(k + 1);
    }
    FlattenElements(entries);
  }

  lemma NumeralNoNewline(n: nat)
    ensures '\n' !in Decimal(n)
  {
    var d := Decimal(n);
    forall i | 0 <= i < |d| ensures d[i] != '\n' {
      assert IsDigit(d[i]);
    }
  }

  lemma {:induction false} FlattenElements(xss: seq<seq<string>>)
    requires forall k :: 0 <= k < |xss| ==> forall m :: 0 <= m < |xss[k]| ==> '\n' !in xss[k][m]
    ensures forall i :: 0 <= i < |Flatten(xss)| ==> '\n' !in Flatten(xss)[i]
  {
    if |xss| > 0 {
      FlattenElements(xss[1..]);
      assert Flatten(xss) == xss[0] + Flatten(xss[1..]);
    }
  }

  /** When every cue has a translation, cue `k` occupies output lines
      `5 * k` to `5 * k + 4`: its number `k + 1`, its time, its text, its
      translation and an empty line. */
  lemma OutputLineAt(cues: seq<Cue>, translated: seq<string>, k: nat)
    requires forall i :: 0 <= i < |cues| ==> '\n' !in cues[i].time && '\n' !in cues[i].text
    requires forall i :: 0 <= i < |translated| ==> '\n' !in translated[i]
    requires |translated| >= |cues|
    requires k < |cues|
    ensures |Lines(Assemble(cues, translated))| == 5 * |cues|
    ensures Lines(Assemble(cues, translated))[5 * k..5 * k + 5]
      == [Decimal(k + 1), cues[k].time, cues[k].text, translated[k], ""]
  {
    var entries := Entries(cues, translated);
    AssembleLines(cues, translated);
    FiveLinesEach(cues, translated);
    FlattenUniform(entries, 5);
    FlattenUniformAt(entries, 5, k);
  }

  /** With a translation for every cue, each entry is exactly five lines. */
  lemma FiveLinesEach(cues: seq<Cue>, translated: seq<string>)
    requires |translated| >= |cues|
    ensures forall k :: 0 <= k < |cues| ==>
      Entries(cues, translated)[k] == [Decimal(k + 1), cues[k].time, cues[k].text, translated[k], ""]
  {
  }

  /** Renumbering: the output ignores the cues' original indices. */
  lemma {:induction false} IndexIgnored(cues: seq<Cue>, others: seq<Cue>, translated: seq<string>, k: nat)
    requires |cues| == |others|
    requires forall i :: 0 <= i < |cues| ==> cues[i].time == others[i].time && cues[i].text == others[i].text
    ensures WriteFrom(cues, translated, k) == WriteFrom(others, translated, k)
    decreases |cues| - k
  {
    if k < |cues| {
      IndexIgnored(cues, others, translated, k + 1);
    }
  }
}
