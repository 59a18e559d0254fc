/** The summary assembler: the per-chunk summaries, in chunk order, joined
    with a blank line between neighbours. */
module Assembly {
  import opened Text

  /** The blank line between two summaries. */
  const Separator: string := "\n\n"

  /** `"\n\n".join(summaries)`: no summary gives the empty text, a single
      summary comes back unchanged, and otherwise the length is that of all
      summaries plus one separator between each neighbouring pair. */
  function Assemble(summaries: seq<string>): (r: string)
    ensures |summaries| == 0 ==> r == []
    ensures |summaries| == 1 ==> r == summaries[0]
    ensures |summaries| > 0 ==> |r| == TotalLength(summaries) + (|summaries| - 1) * |Separator|
  {
    if |summaries| == 0 then ""
    else
      JoinLength(Separator, summaries);
      Join(Separator, summaries)
  }

  /** Summary `i` appears verbatim at its place in the final text, after
      all earlier summaries and their separators, and is followed by a
      blank line unless it is the last. */
  lemma AssemblePlacement(summaries: seq<string>, i: nat)
    requires i < |summaries|
    ensures var r := Assemble(summaries); var at := JoinOffset(Separator, summaries, i);
      && at + |summaries[i]| <= |r|
      && r[at..at + |summaries[i]|] == summaries[i]
      && (i + 1 < |summaries| ==> at + |summaries[i]| + 2 <= |r| && r[at + |summaries[i]|..at + |summaries[i]| + 2] == Separator)
  {
    JoinPlacement(Separator, summaries, i);
  }

  /** Assembling one more summary appends a blank line and that summary. */
  lemma AssembleAppend(summaries: seq<string>, s: string)
    requires |summaries| > 0
    ensures Assemble(summaries + [s]) == Assemble(summaries) + Separator + s
  {
    JoinAppend(Separator, summaries, s);
  }

  /** Three summaries come out with one blank line between each pair. */
  lemma AssembleThree(a: string, b: string, c: string)
    ensures Assemble([a, b, c]) == a + Separator + b + Separator + c
  {
    AssembleAppend([a], b);
    assert [a] + [b] == [a, b];
    AssembleAppend([a, b], c);
    assert [a, b] + [c] == [a, b, c];
  }
}
