/** The cached character and line counts of a testcase, and what they count. */
module TextCounts {
  import opened ProblemTables

  /** `replace($1, E'\n', '')`. */
  function WithoutNewlines(s: string): string {
    if s == "" then ""
    else if s[0] == '\n' then WithoutNewlines(s[1..])
    else [s[0]] + WithoutNewlines(s[1..])
  }

  /** `CASE WHEN s = '' THEN 0 ELSE 1 + char_length(s) - char_length(replace(s, E'\n', '')) END`. */
  function LineCount(s: string): int {
    if s == "" then 0 else 1 + |s| - |WithoutNewlines(s)|
  }

  /** The row data a testcase INSERT or UPDATE computes from the content. */
  function Measured(c: Content): CaseData {
    CaseData(c, |c.input|, LineCount(c.input), |c.output|, LineCount(c.output))
  }

  /** The newline-separated pieces of a text. */
  function Lines(s: string): (r: seq<string>)
    ensures |r| > 0
  {
    if s == "" then [""]
    else
      var rest := Lines(s[1..]);
      if s[0] == '\n' then [""] + rest else [[s[0]] + rest[0]] + rest[1..]
  }

  function Unlines(r: seq<string>): string
    requires |r| > 0
  {
    if |r| == 1 then r[0] else r[0] + "\n" + Unlines(r[1..])
  }

  /** Splitting at newlines loses nothing: the pieces hold no newline and glue back to the text. */
  lemma {:induction false} LinesSplit(s: string)
    ensures |Lines(s)| == 1 + |s| - |WithoutNewlines(s)|
    ensures Unlines(Lines(s)) == s
    ensures forall k :: 0 <= k < |Lines(s)| ==> '\n' !in Lines(s)[k]
    decreases |s|
  {
    if s != "" {
      var rest, pieces := s[1..], Lines(s[1..]);
      LinesSplit(rest);
      if s[0] == '\n' {
        GlueFirst("", pieces);
        assert ([""] + pieces)[1..] == pieces;
        assert s == "" + "\n" + rest;
      } else {
        GlueLonger(s[0], pieces);
        assert s == [s[0]] + rest;
      }
    }
  }

  lemma GlueFirst(first: string, pieces: seq<string>)
    requires |pieces| > 0
    ensures Unlines([first] + pieces) == first + "\n" + Unlines(pieces)
  {
    assert ([first] + pieces)[1..] == pieces;
  }

  lemma GlueLonger(c: char, pieces: seq<string>)
    requires |pieces| > 0
    ensures Unlines([[c] + pieces[0]] + pieces[1..]) == [c] + Unlines(pieces)
  {
    var glued := [[c] + pieces[0]] + pieces[1..];
    assert glued[1..] == pieces[1..];
    if |pieces| > 1 {
      Regroup(c, pieces[0], Unlines(pieces[1..]));
    }
  }

  lemma Regroup(c: char, first: string, rest: string)
    ensures ([c] + first) + "\n" + rest == [c] + (first + "\n" + rest)
  {
  }

  /** The cached line count is the number of newline-separated pieces, and zero for the empty text. */
  lemma LineCountCounts(s: string)
    ensures LineCount(s) == if s == "" then 0 else |Lines(s)|
    ensures Unlines(Lines(s)) == s
  {
    LinesSplit(s);
  }

  /** The four cached columns count the text they are named after. */
  lemma MeasuredCounts(c: Content)
    ensures Measured(c) == CaseData(
      c,
      |c.input|, if c.input == "" then 0 else |Lines(c.input)|,
      |c.output|, if c.output == "" then 0 else |Lines(c.output)|)
  {
    LineCountCounts(c.input);
    LineCountCounts(c.output);
  }
}
