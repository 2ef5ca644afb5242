/**
 The line normalisation of `process_file` (trimeol.py): every line loses its
 trailing spaces, tabs and line feeds and gets exactly one line feed back;
 the file counts as changed when the total length differs.
 */
module Normalize {
  import opened Strip
  import opened Lines

  /** Characters `line.rstrip` removes from every line. */
  const LineTrimChars: set<char> := {' ', '\t', '\n'}

  /** A normalised line: it ends in a line feed, and the character before
      that (if any) is neither a space, a tab nor another line feed. */
  predicate Clean(line: string)
  {
    Terminated(line) && (|line| == 1 || line[|line| - 2] !in LineTrimChars)
  }

  /** `line.rstrip(' \t\n') + '\n'`. */
  function NormalizeLine(line: string): (r: string)
    ensures Clean(r)
    ensures |r| - 1 <= |line| && r[..|r| - 1] == line[..|r| - 1]
    ensures forall i | |r| - 1 <= i < |line| :: line[i] in LineTrimChars
    ensures IsLine(line) ==> IsLine(r)
  {
    RStrip(line, LineTrimChars) + "\n"
  }

  /** A line is left as it is exactly when it is already clean. */
  lemma NormalizeLineFixpoint(line: string)
    ensures NormalizeLine(line) == line <==> Clean(line)
  {
    if Clean(line) {
      RStripUnique(line, LineTrimChars, line[..|line| - 1]);
    }
  }

  /** On a line that ends in a line feed normalisation never lengthens, and
      keeps the length only when it keeps the line. */
  lemma NormalizeLineLength(line: string)
    requires Terminated(line)
    ensures |NormalizeLine(line)| <= |line|
    ensures |NormalizeLine(line)| == |line| <==> NormalizeLine(line) == line
  {
    var r := RStrip(line, LineTrimChars);
    assert line[|line| - 1] in LineTrimChars;
    assert |r| < |line|;
    if |r| == |line| - 1 {
      assert r + "\n" == line;
    }
  }

  /** Every line, normalised, in the original order. */
  function NormalizedLines(lines: seq<string>): (out: seq<string>)
    ensures |out| == |lines|
    ensures forall i | 0 <= i < |lines| :: out[i] == NormalizeLine(lines[i])
  {
    seq(|lines|, i requires 0 <= i < |lines| => NormalizeLine(lines[i]))
  }

  /** The `data` that `process_file` builds from `lines`. */
  function Normalize(lines: seq<string>): string
  {
    Join(NormalizedLines(lines))
  }

  /** The normalisation of a whole text, split into lines as a file read in
      text mode is. */
  function NormalizeContent(content: string): string
  {
    Normalize(SplitLines(content))
  }

  /** One more line read: both accumulators grow by that line's share. */
  lemma ReadOneMore(lines: seq<string>, i: nat)
    requires i < |lines|
    ensures Join(NormalizedLines(lines[..i + 1])) == Join(NormalizedLines(lines[..i])) + NormalizeLine(lines[i])
    ensures |Join(lines[..i + 1])| == |Join(lines[..i])| + |lines[i]|
  {
    assert lines[..i + 1] == lines[..i] + [lines[i]];
    JoinAppend(lines[..i], [lines[i]]);
    assert NormalizedLines(lines[..i + 1]) == NormalizedLines(lines[..i]) + [NormalizeLine(lines[i])];
    JoinAppend(NormalizedLines(lines[..i]), [NormalizeLine(lines[i])]);
  }

  /** The reading loop of `process_file`: it accumulates the original length
      and the normalised text one line at a time. */
  method ReadNormalized(lines: seq<string>) returns (data: string, originalLen: nat)
    ensures data == Join(NormalizedLines(lines))
    ensures originalLen == |Join(lines)|
  {
    data := "";
    originalLen := 0;
    var i := 0;
    while i < |lines|
      invariant 0 <= i <= |lines|
      invariant data == Join(NormalizedLines(lines[..i]))
      invariant originalLen == |Join(lines[..i])|
    {
      ReadOneMore(lines, i);
      originalLen := originalLen + |lines[i]|;
      data := data + (RStrip(lines[i], LineTrimChars) + "\n");
      i := i + 1;
    }
    assert lines[..i] == lines;
  }

  /** Normalising lines: the first result line is the first line normalised. */
  lemma NormalizeCons(lines: seq<string>)
    requires lines != []
    ensures Normalize(lines) == NormalizeLine(lines[0]) + Normalize(lines[1..])
  {
    assert NormalizedLines(lines)[1..] == NormalizedLines(lines[1..]);
  }

  /** The lines of the output are exactly the normalised input lines. */
  lemma OutputLines(lines: seq<string>)
    requires forall i | 0 <= i < |lines| :: IsLine(lines[i])
    ensures WellSplit(NormalizedLines(lines))
    ensures SplitLines(Normalize(lines)) == NormalizedLines(lines)
  {
    SplitJoin(NormalizedLines(lines));
  }

  /** Every line of the output ends in exactly one line feed with no space
      or tab before it. */
  lemma OutputClean(content: string)
    ensures forall i | 0 <= i < |SplitLines(NormalizeContent(content))| ::
      Clean(SplitLines(NormalizeContent(content))[i])
  {
    var lines := SplitLines(content);
    OutputLines(lines);
  }

  /** The output is empty only for an empty input, and otherwise ends in a
      line feed. */
  lemma OutputTerminated(content: string)
    ensures NormalizeContent(content) == [] <==> content == []
    ensures NormalizeContent(content) != [] ==>
      NormalizeContent(content)[|NormalizeContent(content)| - 1] == '\n'
  {
    var lines := SplitLines(content);
    var out := NormalizedLines(lines);
    assert forall i | 0 <= i < |lines| :: |lines[i]| > 0;
    JoinLast(lines);
    assert forall i | 0 <= i < |out| :: |out[i]| > 0;
    JoinLast(out);
    if out != [] {
      assert Clean(out[|out| - 1]);
    }
  }

  /** Normalising a normalised text gives it back unchanged. */
  lemma NormalizeIdempotent(content: string)
    ensures NormalizeContent(NormalizeContent(content)) == NormalizeContent(content)
  {
    var lines := SplitLines(content);
    var out := NormalizedLines(lines);
    OutputLines(lines);
    forall i | 0 <= i < |out| ensures NormalizeLine(out[i]) == out[i] {
      NormalizeLineFixpoint(out[i]);
    }
    assert NormalizedLines(out) == out;
  }

  /** Over lines that all end in a line feed the total length never grows,
      and keeps its value only when every line is kept. */
  lemma {:induction false} TerminatedLengths(lines: seq<string>)
    requires forall i | 0 <= i < |lines| :: Terminated(lines[i])
    ensures |Normalize(lines)| <= |Join(lines)|
    ensures |Normalize(lines)| == |Join(lines)| ==> Normalize(lines) == Join(lines)
  {
    if lines != [] {
      NormalizeCons(lines);
      NormalizeLineLength(lines[0]);
      TerminatedLengths(lines[1..]);
    }
  }

  /** The test at trimeol.py:62: the file is rewritten when its length changes. */
  predicate LengthChanged(content: string)
  {
    |NormalizeContent(content)| != |content|
  }

  /** The test the length comparison stands for: the text itself changes. */
  predicate ContentChanged(content: string)
  {
    NormalizeContent(content) != content
  }

  /** A length change is always a content change. */
  lemma LengthChangeIsChange(content: string)
    ensures LengthChanged(content) ==> ContentChanged(content)
  {
  }

  /** When the text is empty or ends in a line feed, comparing lengths is
      the same as comparing contents. */
  lemma LengthCheckSound(content: string)
    requires content == [] || content[|content| - 1] == '\n'
    ensures LengthChanged(content) <==> ContentChanged(content)
  {
    var lines := SplitLines(content);
    JoinLast(lines);
    forall i | 0 <= i < |lines| ensures Terminated(lines[i]) {
      assert IsLine(lines[i]);
    }
    TerminatedLengths(lines);
  }

  /** Without a final line feed the length test misses changes: in
      "x \ny" the blank is stripped and a line feed is added, so the length
      stays 4 while the text becomes "x\ny\n". */
  lemma LengthCheckMissesChange()
    ensures !LengthChanged("x \ny") && ContentChanged("x \ny")
    ensures NormalizeContent("x \ny") == "x\ny\n"
  {
    var lines := ["x \n", "y"];
    assert Join(lines) == "x \ny";
    SplitJoin(lines);
    RStripUnique("x \n", LineTrimChars, "x");
    RStripUnique("y", LineTrimChars, "y");
    NormalizeCons(lines);
    NormalizeCons(lines[1..]);
  }

  /** Trailing blanks and tabs go, the line feeds stay. */
  lemma StripsBlanksAndTabs()
    ensures NormalizeContent("foo \nbar\t\n") == "foo\nbar\n"
  {
    var lines := ["foo \n", "bar\t\n"];
    assert Join(lines) == "foo \nbar\t\n";
    SplitJoin(lines);
    RStripUnique("foo \n", LineTrimChars, "foo");
    RStripUnique("bar\t\n", LineTrimChars, "bar");
    NormalizeCons(lines);
    NormalizeCons(lines[1..]);
  }

  /** The lines of "\n\nab": two empty lines and an unterminated "ab". */
  lemma BlankBlankAbLines()
    ensures SplitLines("\n\nab") == ["\n", "\n", "ab"]
  {
    var lines := ["\n", "\n", "ab"];
    assert Join(lines) == "\n\nab";
    SplitJoin(lines);
  }

  /** The empty lines stay, the last line gains a line feed. */
  lemma BlankBlankAbNormalized()
    ensures NormalizedLines(["\n", "\n", "ab"]) == ["\n", "\n", "ab\n"]
  {
    assert NormalizeLine("\n") == "\n" by {
      RStripUnique("\n", LineTrimChars, "");
    }
    assert NormalizeLine("ab") == "ab\n" by {
      RStripUnique("ab", LineTrimChars, "ab");
    }
  }

  /** A file of two empty lines and "ab" gains only a final line feed. */
  lemma FinalLineFeedAdded()
    ensures NormalizeContent("\n\nab") == "\n\nab\n"
  {
    BlankBlankAbLines();
    BlankBlankAbNormalized();
    assert Join(["\n", "\n", "ab\n"]) == "\n\nab\n";
  }
}
