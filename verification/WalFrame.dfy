/** The byte layout of the write-ahead log: newline-terminated lines, and the
    line scanner the reader runs over them. */
module WalFrame {
  import opened Wrappers
  import opened Text

  /** The file that holds these lines. */
  function Frame(lines: seq<string>): (r: string)
    ensures |r| >= |lines|
  {
    if lines == [] then "" else lines[0] + "\n" + Frame(lines[1..])
  }

  /** A line the scanner gives back unchanged. */
  predicate CleanLine(line: string) {
    '\n' !in line && (line == "" || line[|line| - 1] != '\r')
  }

  predicate CleanLines(lines: seq<string>) {
    forall i :: 0 <= i < |lines| ==> CleanLine(lines[i])
  }

  function DropCR(line: string): string {
    if line != "" && line[|line| - 1] == '\r' then line[..|line| - 1] else line
  }

  /** bufio.ScanLines: the next token and the bytes behind it. A trailing
      carriage return is dropped and an unterminated last line is still a token. */
  function ScanLine(data: string): Option<(string, string)> {
    if data == "" then None
    else
      var line := Before(data, '\n');
      Some((DropCR(line), if |line| < |data| then data[|line| + 1..] else ""))
  }

  lemma {:induction false} FrameAppend(a: seq<string>, b: seq<string>)
    ensures Frame(a + b) == Frame(a) + Frame(b)
  {
    if a == [] {
      assert a + b == b;
    } else {
      FrameUnfolds(a);
      FrameUnfolds(a + b);
      assert (a + b)[1..] == a[1..] + b;
      FrameAppend(a[1..], b);
      hide *;
      Regroup(a[0] + "\n", Frame(a[1..]), Frame(b));
    }
  }

  lemma Regroup(a: string, b: string, c: string)
    ensures a + (b + c) == a + b + c
  {
  }

  lemma FrameUnfolds(lines: seq<string>)
    requires lines != []
    ensures Frame(lines) == lines[0] + "\n" + Frame(lines[1..])
  {
  }

  /** The bytes of lines i up to j. */
  function FrameIn(lines: seq<string>, i: nat, j: nat): string
    requires i <= j <= |lines|
  {
    Frame(lines[i..j])
  }

  /** The bytes of the lines from i on. */
  function FrameFrom(lines: seq<string>, i: nat): string
    requires i <= |lines|
  {
    Frame(lines[i..])
  }

  lemma FrameSplit(lines: seq<string>, i: nat, j: nat, k: nat)
    requires i <= j <= k <= |lines|
    ensures FrameIn(lines, i, k) == FrameIn(lines, i, j) + FrameIn(lines, j, k)
    ensures |FrameIn(lines, j, k)| >= k - j
  {
    FrameAppend(lines[i..j], lines[j..k]);
    assert lines[i..j] + lines[j..k] == lines[i..k];
  }

  /** Cutting the file at a boundary leaves the file of the remaining lines. */
  lemma FrameTail(lines: seq<string>, i: nat, j: nat)
    requires i <= j <= |lines|
    ensures |FrameIn(lines, i, j)| <= |FrameFrom(lines, i)|
    ensures FrameFrom(lines, i)[|FrameIn(lines, i, j)|..] == FrameFrom(lines, j)
    ensures FrameIn(lines, i, |lines|) == FrameFrom(lines, i)
  {
    FrameAppend(lines[i..j], lines[j..]);
    assert lines[i..j] + lines[j..] == lines[i..];
    assert lines[i..|lines|] == lines[i..];
  }

  lemma BeforeNewline(line: string, rest: string)
    requires '\n' !in line
    ensures Before(line + "\n" + rest, '\n') == line
  {
    var s := line + "\n" + rest;
    var b := Before(s, '\n');
    assert s[|line|] == '\n' && s[..|line|] == line;
    assert b == s[..|b|];
  }

  /** Scanning a file of clean lines gives its first line and the file of the
      rest, so counting line lengths plus one counts bytes. */
  lemma ScanFirst(lines: seq<string>)
    requires CleanLines(lines)
    ensures ScanLine(Frame(lines))
         == if lines == [] then None else Some((lines[0], Frame(lines[1..])))
    ensures lines != [] ==> |Frame(lines)| == |lines[0]| + 1 + |Frame(lines[1..])|
  {
    if lines != [] {
      var line, rest := lines[0], Frame(lines[1..]);
      assert CleanLine(line);
      BeforeNewline(line, rest);
      assert (line + "\n" + rest)[|line| + 1..] == rest;
    }
  }

  lemma ScanAtBoundary(lines: seq<string>, i: nat)
    requires CleanLines(lines) && i <= |lines|
    ensures ScanLine(FrameFrom(lines, i))
         == if i == |lines| then None else Some((lines[i], FrameFrom(lines, i + 1)))
    ensures i < |lines| ==> |FrameIn(lines, i, i + 1)| == |lines[i]| + 1
  {
    assert CleanLines(lines[i..]);
    ScanFirst(lines[i..]);
    if i < |lines| {
      assert lines[i..][1..] == lines[i + 1..];
      assert lines[i..i + 1] == [lines[i]];
      assert Frame([lines[i]]) == lines[i] + "\n" + Frame([]);
    }
  }

  /** A scan of arbitrary bytes can lose count: after a dropped carriage return
      the reader's position is one byte short of the next line. */
  lemma CarriageReturnLosesCount(line: string, rest: string)
    requires '\n' !in line && line != "" && line[|line| - 1] == '\r'
    ensures ScanLine(line + "\n" + rest) == Some((line[..|line| - 1], rest))
    ensures |line[..|line| - 1]| + 1 + |rest| == |line + "\n" + rest| - 1
  {
    BeforeNewline(line, rest);
    assert (line + "\n" + rest)[|line| + 1..] == rest;
  }
}
