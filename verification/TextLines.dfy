/** Splitting a log file into lines, as bytes.splitlines does: breaks are \n, \r and \r\n. */
module TextLines {

  predicate IsBreak(c: char) { c == '\n' || c == '\r' }

  predicate NoBreaks(s: string) { forall i | 0 <= i < |s| :: !IsBreak(s[i]) }

  function LineLength(raw: string): (k: nat)
    ensures k <= |raw|
  {
    if raw == "" || IsBreak(raw[0]) then 0 else 1 + LineLength(raw[1..])
  }

  lemma {:induction false} LineLengthStopsAtBreak(raw: string)
    ensures NoBreaks(raw[..LineLength(raw)])
    ensures LineLength(raw) < |raw| ==> IsBreak(raw[LineLength(raw)])
  {
    if raw != "" && !IsBreak(raw[0]) {
      LineLengthStopsAtBreak(raw[1..]);
      var k := LineLength(raw[1..]);
      assert raw[..k + 1] == [raw[0]] + raw[1..][..k];
    }
  }

  // \r\n is one break.
  function BreakLength(raw: string, k: nat): (b: nat)
    requires k < |raw|
    ensures 1 <= b && k + b <= |raw|
  {
    if raw[k] == '\r' && k + 1 < |raw| && raw[k + 1] == '\n' then 2 else 1
  }

  function AfterBreak(raw: string, k: nat): string
    requires k < |raw|
  {
    raw[k + BreakLength(raw, k)..]
  }

  // bytes.splitlines
  function SplitLines(raw: string): seq<string>
    decreases |raw|
  {
    if raw == "" then []
    else
      var k := LineLength(raw);
      if k == |raw| then [raw] else [raw[..k]] + SplitLines(AfterBreak(raw, k))
  }

  predicate Terminated(raw: string) { raw == "" || IsBreak(raw[|raw| - 1]) }

  lemma {:induction false} LineLengthOf(raw: string, k: nat)
    requires k <= |raw| && NoBreaks(raw[..k]) && (k < |raw| ==> IsBreak(raw[k]))
    ensures LineLength(raw) == k
  {
    if k > 0 {
      assert !IsBreak(raw[..k][0]);
      assert raw[1..][..k - 1] == raw[..k][1..];
      LineLengthOf(raw[1..], k - 1);
    }
  }

  lemma SplitOneLine(line: string)
    requires NoBreaks(line) && line != ""
    ensures SplitLines(line + "\n") == [line]
  {
    var raw := line + "\n";
    assert raw[..|line|] == line;
    LineLengthOf(raw, |line|);
    assert raw[|line| + 1..] == "";
  }

  lemma SplitFirstLine(raw: string, k: nat)
    requires k < |raw| && LineLength(raw) == k
    ensures SplitLines(raw) == [raw[..k]] + SplitLines(AfterBreak(raw, k))
  {
  }

  // The lines with this text glued to the last of them.
  function LastLengthened(lines: seq<string>, line: string): seq<string>
    requires lines != []
  {
    lines[..|lines| - 1] + [lines[|lines| - 1] + line]
  }

  lemma PrependKeeps(head: string, tail: seq<string>, line: string)
    ensures [head] + (tail + [line]) == ([head] + tail) + [line]
    ensures tail != [] ==> LastLengthened([head] + tail, line) == [head] + LastLengthened(tail, line)
  {
  }

  /** A line ends at the first break, whichever of the three it is, and the rest is split in the same way. */
  lemma SplitAtBreak(line: string, rest: string)
    requires NoBreaks(line)
    ensures SplitLines(line + ("\n" + rest)) == [line] + SplitLines(rest)
    ensures SplitLines(line + ("\r\n" + rest)) == [line] + SplitLines(rest)
    ensures (rest == "" || rest[0] != '\n') ==> SplitLines(line + ("\r" + rest)) == [line] + SplitLines(rest)
    ensures SplitLines(line) == if line == "" then [] else [line]
  {
    SplitAt(line, "\n", rest);
    SplitAt(line, "\r\n", rest);
    if rest == "" || rest[0] != '\n' { SplitAt(line, "\r", rest); }
    assert line[..|line|] == line;
    LineLengthOf(line, |line|);
  }

  lemma SplitAt(line: string, br: string, rest: string)
    requires NoBreaks(line)
    requires br == "\n" || br == "\r\n" || (br == "\r" && (rest == "" || rest[0] != '\n'))
    ensures SplitLines(line + (br + rest)) == [line] + SplitLines(rest)
  {
    var raw, k := line + (br + rest), |line|;
    assert raw == (line + br) + rest;
    assert raw[..k] == line && raw[k] == br[0];
    LineLengthOf(raw, k);
    assert k + 1 < |raw| ==> raw[k + 1] == (br + rest)[1];
    assert ((line + br) + rest)[|line + br|..] == rest;
  }

  /** Appending a line to a terminated file adds one line; on an unterminated file it
      lengthens the last line instead. */
  lemma {:induction false} SplitAfterAppend(raw: string, line: string)
    requires NoBreaks(line) && line != ""
    ensures Terminated(raw) ==> SplitLines(raw + (line + "\n")) == SplitLines(raw) + [line]
    ensures !Terminated(raw) ==>
      SplitLines(raw) != [] && SplitLines(raw + (line + "\n")) == LastLengthened(SplitLines(raw), line)
    decreases |raw|
  {
    var suffix := line + "\n";
    var k := LineLength(raw);
    LineLengthStopsAtBreak(raw);
    if raw == "" {
      assert raw + suffix == suffix;
      SplitOneLine(line);
    } else if k == |raw| {
      assert raw[..k] == raw;
      assert raw + suffix == (raw + line) + "\n";
      SplitOneLine(raw + line);
    } else {
      AppendKeepsFirstLine(raw, suffix, k);
      SplitFirstLines(raw, suffix, k);
      SplitAfterAppend(AfterBreak(raw, k), line);
      PrependKeeps(raw[..k], SplitLines(AfterBreak(raw, k)), line);
    }
  }

  lemma {:induction false} SplitFirstLines(raw: string, suffix: string, k: nat)
    requires k < |raw| && NoBreaks(raw[..k]) && IsBreak(raw[k])
    requires suffix != "" && suffix[0] != '\n'
    ensures SplitLines(raw) == [raw[..k]] + SplitLines(AfterBreak(raw, k))
    ensures SplitLines(raw + suffix) == [raw[..k]] + SplitLines(AfterBreak(raw, k) + suffix)
  {
    AppendKeepsFirstLine(raw, suffix, k);
    LineLengthOf(raw, k);
    LineLengthOf(raw + suffix, k);
    SplitFirstLine(raw, k);
    SplitFirstLine(raw + suffix, k);
  }

  lemma AppendKeepsFirstLine(raw: string, suffix: string, k: nat)
    requires k < |raw| && NoBreaks(raw[..k]) && IsBreak(raw[k])
    requires suffix != "" && suffix[0] != '\n'
    ensures (raw + suffix)[..k] == raw[..k]
    ensures AfterBreak(raw + suffix, k) == AfterBreak(raw, k) + suffix
    ensures Terminated(AfterBreak(raw, k)) == Terminated(raw)
  {
    var b := BreakLength(raw, k);
    DropOfAppend(raw, suffix, k + b);
    assert (raw + suffix)[..k] == raw[..k];
    if k + b < |raw| {
      var tail := raw[k + b..];
      assert tail[|tail| - 1] == raw[|raw| - 1];
    }
  }

  lemma DropOfAppend(a: string, b: string, k: nat)
    requires k <= |a|
    ensures (a + b)[k..] == a[k..] + b
  {
  }
}
