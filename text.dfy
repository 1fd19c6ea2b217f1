/**
 * Line-oriented text, shared by the `__str__` renderings of the grid puzzles:
 * a sequence of lines joined with a newline after each, and the inverse that
 * splits text back into its lines.
 */
module Text {
  /** Every line followed by a newline, in order. */
  function JoinLines(lines: seq<string>): string
  {
    if |lines| == 0 then "" else JoinLines(lines[..|lines| - 1]) + lines[|lines| - 1] + "\n"
  }

  /** The first newline at or after position `i`, or the end of the text. */
  function LineEnd(s: string, i: nat): (k: nat)
    requires i <= |s|
    ensures i <= k <= |s|
    ensures k < |s| ==> s[k] == '\n'
    ensures forall j :: i <= j < k ==> s[j] != '\n'
    decreases |s| - i
  {
    if i == |s| || s[i] == '\n' then i else LineEnd(s, i + 1)
  }

  /** The lines of a text: the pieces between newlines, without them. */
  function SplitLines(s: string): seq<string>
    decreases |s|
  {
    if |s| == 0 then []
    else
      var k := LineEnd(s, 0);
      if k == |s| then [s] else [s[..k]] + SplitLines(s[k + 1..])
  }

  /** Joining a first line in front of the rest. */
  lemma {:induction false} JoinLinesCons(line: string, lines: seq<string>)
    ensures JoinLines([line] + lines) == line + "\n" + JoinLines(lines)
    decreases |lines|
  {
    if |lines| > 0 {
      var n := |lines|;
      assert ([line] + lines)[..n] == [line] + lines[..n - 1];
      JoinLinesCons(line, lines[..n - 1]);
    }
  }

  /** Appending a last line. */
  lemma JoinLinesSnoc(lines: seq<string>, line: string)
    ensures JoinLines(lines + [line]) == JoinLines(lines) + line + "\n"
  {
    assert (lines + [line])[..|lines|] == lines;
  }

  /** Text that ends with the first k lines joined, followed by line k and a newline, ends with the first k + 1 lines joined. */
  lemma JoinLinesStep(pre: string, lines: seq<string>, k: nat)
    requires k < |lines|
    ensures pre + JoinLines(lines[..k]) + lines[k] + "\n" == pre + JoinLines(lines[..k + 1])
  {
    assert lines[..k + 1] == lines[..k] + [lines[k]];
    JoinLinesSnoc(lines[..k], lines[k]);
  }

  /** Splitting joined lines gives back the lines, if none holds a newline. */
  lemma {:induction false} SplitJoin(lines: seq<string>)
    requires forall k :: 0 <= k < |lines| ==> '\n' !in lines[k]
    ensures SplitLines(JoinLines(lines)) == lines
    decreases |lines|
  {
    if |lines| > 0 {
      var line, rest := lines[0], lines[1..];
      assert lines == [line] + rest;
      JoinLinesCons(line, rest);
      var s := JoinLines(lines);
      assert s == line + "\n" + JoinLines(rest);
      assert s[|line|] == '\n';
      assert forall j :: 0 <= j < |line| ==> s[j] == line[j];
      var k := LineEnd(s, 0);
      assert k == |line|;
      assert s[..k] == line;
      assert s[k + 1..] == JoinLines(rest);
      SplitJoin(rest);
    }
  }
}
