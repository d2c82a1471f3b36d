/** The text operations of the Python library the section generator uses. */
module PythonText {

  /** Characters for which str.isspace holds; strip and the class \s of regular expressions use the same. */
  predicate IsSpace(c: char) {
    var n := c as int;
    || 0x09 <= n <= 0x0D || 0x1C <= n <= 0x20 || n == 0x85 || n == 0xA0 || n == 0x1680
    || 0x2000 <= n <= 0x200A || n == 0x2028 || n == 0x2029 || n == 0x202F || n == 0x205F || n == 0x3000
  }

  /** Characters at which splitlines ends a line. */
  predicate IsBreak(c: char) {
    var n := c as int;
    0x0A <= n <= 0x0D || 0x1C <= n <= 0x1E || n == 0x85 || n == 0x2028 || n == 0x2029
  }

  function StripLeft(s: string): (t: string)
    ensures t == [] || !IsSpace(t[0])
  {
    if s != [] && IsSpace(s[0]) then StripLeft(s[1..]) else s
  }

  function StripRight(s: string): (t: string)
    ensures t <= s
    ensures t == [] || !IsSpace(t[|t| - 1])
  {
    if s != [] && IsSpace(s[|s| - 1]) then StripRight(s[..|s| - 1]) else s
  }

  function Strip(s: string): string {
    StripRight(StripLeft(s))
  }

  /** The white space of ASCII: tab to carriage return, the four separators, and the space. */
  predicate AsciiSpaces(s: string) {
    forall k | 0 <= k < |s| :: s[k] as int in {9, 10, 11, 12, 13, 28, 29, 30, 31, 32}
  }

  /** Stripping takes off white space only. */
  lemma {:induction false} StripLeftTakesSpaces(s: string)
    ensures var n := |s| - |StripLeft(s)|;
      n >= 0 && s[n..] == StripLeft(s) && forall i | 0 <= i < n :: IsSpace(s[i])
    decreases |s|
  {
    if s != [] && IsSpace(s[0]) {
      StripLeftTakesSpaces(s[1..]);
    }
  }

  lemma {:induction false} StripRightTakesSpaces(s: string)
    ensures forall i | |StripRight(s)| <= i < |s| :: IsSpace(s[i])
    decreases |s|
  {
    if s != [] && IsSpace(s[|s| - 1]) {
      StripRightTakesSpaces(s[..|s| - 1]);
    }
  }

  lemma {:induction false} StripRightKeepsNonBlank(s: string)
    requires s != [] && !IsSpace(s[0])
    ensures StripRight(s) != [] && StripRight(s)[0] == s[0]
    decreases |s|
  {
    if IsSpace(s[|s| - 1]) {
      StripRightKeepsNonBlank(s[..|s| - 1]);
    }
  }

  lemma {:induction false} StripRightKeepsFront(front: string, back: string)
    requires front != "" && !IsSpace(front[|front| - 1])
    ensures front <= StripRight(front + back)
    decreases |back|
  {
    var s := front + back;
    if back == [] {
      assert s == front;
    } else if IsSpace(s[|s| - 1]) {
      assert s[..|s| - 1] == front + back[..|back| - 1];
      StripRightKeepsFront(front, back[..|back| - 1]);
    }
  }

  lemma {:induction false} StripRightOf(s: string, back: string)
    requires (s == "" || !IsSpace(s[|s| - 1])) && AsciiSpaces(back)
    ensures StripRight(s + back) == s
    decreases |back|
  {
    if back == [] {
      assert s + back == s;
    } else {
      assert (s + back)[..|s + back| - 1] == s + back[..|back| - 1];
      assert (s + back)[|s + back| - 1] == back[|back| - 1];
      StripRightOf(s, back[..|back| - 1]);
    }
  }

  lemma {:induction false} StripLeftOf(front: string, s: string)
    requires AsciiSpaces(front) && (s == "" || !IsSpace(s[0]))
    ensures StripLeft(front + s) == s
    decreases |front|
  {
    if front == [] {
      assert front + s == s;
    } else {
      assert (front + s)[1..] == front[1..] + s;
      StripLeftOf(front[1..], s);
    }
  }

  /** Stripping takes all white space off both ends and leaves what is between. */
  lemma StripOf(front: string, s: string, back: string)
    requires AsciiSpaces(front) && AsciiSpaces(back)
    requires s != "" && !IsSpace(s[0]) && !IsSpace(s[|s| - 1])
    ensures Strip(front + s + back) == s
  {
    assert front + s + back == front + (s + back);
    StripLeftOf(front, s + back);
    StripRightOf(s, back);
  }

  predicate StartsWith(s: string, prefix: string) {
    prefix <= s
  }

  predicate NoBreak(s: string) {
    forall k | 0 <= k < |s| :: !IsBreak(s[k])
  }

  predicate NoBreaks(lines: seq<string>) {
    forall k | 0 <= k < |lines| :: NoBreak(lines[k])
  }

  /** Where the first line of a text ends. */
  function LineEnd(s: string): (n: nat)
    ensures n <= |s| && NoBreak(s[..n]) && (n < |s| ==> IsBreak(s[n]))
  {
    if s == [] || IsBreak(s[0]) then 0
    else
      var n := LineEnd(s[1..]);
      assert s[..n + 1] == [s[0]] + s[1..][..n];
      n + 1
  }

  /** A carriage return and a line feed end one line together. */
  function BreakLength(s: string, n: nat): (k: nat)
    requires n < |s|
    ensures 1 <= k <= |s| - n
  {
    if s[n] == '\r' && n + 1 < |s| && s[n + 1] == '\n' then 2 else 1
  }

  function SplitLines(s: string): (lines: seq<string>)
    ensures NoBreaks(lines)
    decreases |s|
  {
    if s == [] then []
    else
      var n := LineEnd(s);
      if n == |s| then [s] else [s[..n]] + SplitLines(s[n + BreakLength(s, n)..])
  }

  /** "\n".join(lines) */
  function Join(lines: seq<string>): string {
    if lines == [] then ""
    else if |lines| == 1 then lines[0]
    else lines[0] + "\n" + Join(lines[1..])
  }

  /** Every line followed by a line feed. */
  function Unlines(lines: seq<string>): string {
    if lines == [] then "" else lines[0] + "\n" + Unlines(lines[1..])
  }

  lemma {:induction false} LineEndAt(line: string, rest: string)
    requires NoBreak(line)
    ensures LineEnd(line + "\n" + rest) == |line|
    ensures LineEnd(line) == |line|
    decreases |line|
  {
    var s := line + "\n" + rest;
    if line == [] {
      assert s[0] == '\n';
    } else {
      assert s[1..] == line[1..] + "\n" + rest;
      LineEndAt(line[1..], rest);
    }
  }

  lemma SplitFirst(line: string, rest: string)
    requires NoBreak(line)
    ensures SplitLines(line + "\n" + rest) == [line] + SplitLines(rest)
  {
    LineEndAt(line, rest);
    var s := line + "\n" + rest;
    assert s[|line|] == '\n';
    assert s[..|line|] == line && s[|line| + 1..] == rest;
  }

  /** A line ends at any line break, and a carriage return takes the line feed behind it along. */
  lemma SplitAtBreak(line: string, break_: char, rest: string)
    requires NoBreak(line) && break_ as int in {10, 11, 12, 13, 28, 29, 30, 133, 8232, 8233}
    ensures SplitLines(line + [break_] + rest)
         == [line] + SplitLines(if break_ == '\r' && rest != "" && rest[0] == '\n' then rest[1..] else rest)
  {
    LineEndAtBreak(line, break_, rest);
    var s := line + [break_] + rest;
    assert s[|line|] == break_ && s[..|line|] == line;
    assert s[|line| + 1..] == rest;
    if rest != "" {
      assert s[|line| + 1] == rest[0] && s[|line| + 2..] == rest[1..];
    }
  }

  lemma {:induction false} LineEndAtBreak(line: string, break_: char, rest: string)
    requires NoBreak(line) && IsBreak(break_)
    ensures LineEnd(line + [break_] + rest) == |line|
    decreases |line|
  {
    if line != [] {
      assert (line + [break_] + rest)[1..] == line[1..] + [break_] + rest;
      LineEndAtBreak(line[1..], break_, rest);
    }
  }

  /** Lines that were written out one per line are read back as they were. */
  lemma {:induction false} SplitUnlines(lines: seq<string>)
    requires NoBreaks(lines)
    ensures SplitLines(Unlines(lines)) == lines
    decreases |lines|
  {
    if lines != [] {
      SplitFirst(lines[0], Unlines(lines[1..]));
      SplitUnlines(lines[1..]);
    }
  }

  function WithoutEmptyLast(lines: seq<string>): seq<string> {
    if lines != [] && lines[|lines| - 1] == "" then lines[..|lines| - 1] else lines
  }

  /** Joining and splitting loses at most one empty line at the end. */
  lemma {:induction false} SplitJoin(lines: seq<string>)
    requires NoBreaks(lines)
    ensures SplitLines(Join(lines)) == WithoutEmptyLast(lines)
    decreases |lines|
  {
    if |lines| == 1 {
      LineEndAt(lines[0], "");
      assert lines[0] != "" ==> SplitLines(lines[0]) == [lines[0]];
    } else if |lines| > 1 {
      SplitFirst(lines[0], Join(lines[1..]));
      SplitJoin(lines[1..]);
      WithoutEmptyLastTail(lines);
    }
  }

  lemma WithoutEmptyLastTail(lines: seq<string>)
    requires |lines| > 1
    ensures WithoutEmptyLast(lines) == [lines[0]] + WithoutEmptyLast(lines[1..])
  {
  }

  lemma {:induction false} UnlinesIsJoin(lines: seq<string>)
    requires lines != []
    ensures Unlines(lines) == Join(lines) + "\n"
    decreases |lines|
  {
    if |lines| == 1 {
      assert lines[1..] == [];
      assert Unlines(lines) == lines[0] + "\n" + "";
    } else {
      UnlinesIsJoin(lines[1..]);
      assert Unlines(lines) == lines[0] + "\n" + (Join(lines[1..]) + "\n");
    }
  }

  lemma {:induction false} UnlinesConcat(a: seq<string>, b: seq<string>)
    ensures Unlines(a + b) == Unlines(a) + Unlines(b)
    decreases |a|
  {
    if a == [] {
      assert a + b == b;
    } else {
      assert (a + b)[1..] == a[1..] + b;
      UnlinesConcat(a[1..], b);
    }
  }

  /** str.replace for a single character. */
  function Replace(s: string, c: char, r: string): string {
    if s == [] then "" else (if s[0] == c then r else [s[0]]) + Replace(s[1..], c, r)
  }

  lemma {:induction false} ReplaceConcat(s: string, t: string, c: char, r: string)
    ensures Replace(s + t, c, r) == Replace(s, c, r) + Replace(t, c, r)
    decreases |s|
  {
    if s == [] {
      assert s + t == t;
    } else {
      assert (s + t)[1..] == s[1..] + t;
      ReplaceConcat(s[1..], t, c, r);
    }
  }
}
