/** Line-oriented text I/O: what `BufferedReader.readLine` returns when called
    until it yields `null`, and what a sequence of `appendLine` calls writes. */
module Lines {

  predicate IsLineBreak(c: char) {
    c == '\n' || c == '\r'
  }

  predicate HasNoLineBreak(s: string) {
    forall i :: 0 <= i < |s| ==> !IsLineBreak(s[i])
  }

  /** Index of the first line break in `t`, or `|t|` when there is none. */
  function FirstBreak(t: string): (i: nat)
    ensures i <= |t|
    ensures HasNoLineBreak(t[..i])
    ensures i < |t| ==> IsLineBreak(t[i])
    decreases |t|
  {
    if |t| == 0 || IsLineBreak(t[0]) then 0
    else
      var i := 1 + FirstBreak(t[1..]);
      assert t[..i] == [t[0]] + t[1..][..i - 1];
      i
  }

  /** One `readLine` on a non-empty rest of input: the line, without its
      terminator, and the input after the terminator. A line ends at '\n', at
      '\r', or at a "\r\n" pair, which counts as a single terminator. */
  function NextLine(t: string): (r: (string, string))
    requires |t| > 0
    ensures HasNoLineBreak(r.0)
    ensures |r.1| < |t|
  {
    var i := FirstBreak(t);
    if i == |t| then (t, "")
    else if t[i] == '\r' && i + 1 < |t| && t[i + 1] == '\n' then (t[..i], t[i + 2..])
    else (t[..i], t[i + 1..])
  }

  /** Every line `readLine` returns before it reports end of input: a final line
      without terminator is returned, an empty rest of input is not. */
  function ReadLines(t: string): (ls: seq<string>)
    ensures forall k :: 0 <= k < |ls| ==> HasNoLineBreak(ls[k])
    ensures |ls| <= |t|
    ensures ls == [] <==> t == ""
    ensures t != "" && HasNoLineBreak(t) ==> ls == [t]
    decreases |t|
  {
    if |t| == 0 then []
    else
      var (line, rest) := NextLine(t);
      [line] + ReadLines(rest)
  }

  /** The text a sequence of `appendLine` calls writes: each line followed by '\n'. */
  function WriteLines(ls: seq<string>): (t: string)
    ensures |t| >= |ls|
    decreases |ls|
  {
    if |ls| == 0 then "" else ls[0] + "\n" + WriteLines(ls[1..])
  }

  /** The text is empty only for no lines; otherwise it opens with the first
      line and its '\n' and ends with a '\n'. */
  lemma {:induction false} WriteLinesFraming(ls: seq<string>)
    ensures var t := WriteLines(ls);
      && (t == "" <==> ls == [])
      && (ls != [] ==> |t| > |ls[0]| && t[|t| - 1] == '\n' && t[..|ls[0]| + 1] == ls[0] + "\n")
    decreases |ls|
  {
    if |ls| > 1 {
      WriteLinesFraming(ls[1..]);
    }
  }

  /** A line ends at '\n', at '\r' not followed by '\n', or at "\r\n"; each
      of these ends exactly one line, and what follows is read on its own. */
  lemma ReadLinesTerminated(line: string, term: string, rest: string)
    requires HasNoLineBreak(line)
    requires term == "\n" || term == "\r\n" || (term == "\r" && (rest == [] || rest[0] != '\n'))
    ensures ReadLines(line + term + rest) == [line] + ReadLines(rest)
  {
    var t := line + term + rest;
    assert t == line + (term + rest);
    FirstBreakBefore(line, term + rest);
    assert t[..|line|] == line;
    assert t[|line| + |term|..] == rest;
  }

  lemma {:induction false} FirstBreakBefore(line: string, rest: string)
    requires HasNoLineBreak(line)
    requires |rest| > 0 && IsLineBreak(rest[0])
    ensures FirstBreak(line + rest) == |line|
    decreases |line|
  {
    var t := line + rest;
    if |line| > 0 {
      assert t[1..] == line[1..] + rest;
      FirstBreakBefore(line[1..], rest);
    }
  }

  lemma NextLineOfTerminated(line: string, rest: string)
    requires HasNoLineBreak(line)
    ensures NextLine(line + "\n" + rest) == (line, rest)
  {
    var t := line + "\n" + rest;
    FirstBreakOfTerminated(line, rest);
    assert t[..|line|] == line;
    assert t[|line| + 1..] == rest;
  }

  lemma {:induction false} FirstBreakOfTerminated(line: string, rest: string)
    requires HasNoLineBreak(line)
    ensures FirstBreak(line + "\n" + rest) == |line|
    decreases |line|
  {
    var t := line + "\n" + rest;
    if |line| > 0 {
      assert t[1..] == line[1..] + "\n" + rest;
      FirstBreakOfTerminated(line[1..], rest);
    }
  }

  /** Reading back what was written gives the same lines, as long as no line
      holds a line break of its own. */
  lemma {:induction false} ReadWriteLines(ls: seq<string>)
    requires forall k :: 0 <= k < |ls| ==> HasNoLineBreak(ls[k])
    ensures ReadLines(WriteLines(ls)) == ls
    decreases |ls|
  {
    if |ls| > 0 {
      var rest := WriteLines(ls[1..]);
      assert WriteLines(ls) == ls[0] + "\n" + rest;
      NextLineOfTerminated(ls[0], rest);
      ReadWriteLines(ls[1..]);
      assert [ls[0]] + ls[1..] == ls;
    }
  }
}
