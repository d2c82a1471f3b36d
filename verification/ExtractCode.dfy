/** Turns a piece of a web page into C string literals, and what a C compiler reads back from them. */
module ExtractCode {
  import opened Options
  import opened PythonText

  // ----- What is kept of a text -----

  /** Where white space followed by two slashes starts, or the end of the line. */
  function CommentAt(line: string): (n: nat)
    ensures n <= |line|
    ensures n < |line| ==> IsComment(line, n)
    ensures forall k | 0 <= k < n :: !IsComment(line, k)
  {
    if line == [] || IsComment(line, 0) then 0
    else
      var n := CommentAt(line[1..]);
      assert forall k | 1 <= k < |line| :: IsComment(line, k) <==> IsComment(line[1..], k - 1);
      n + 1
  }

  predicate IsComment(line: string, k: nat) {
    k + 2 < |line| && IsSpace(line[k]) && line[k + 1] == '/' && line[k + 2] == '/'
  }

  /** A line without its comment and without the white space in front of that. */
  function CutComment(line: string): string {
    StripRight(line[..CommentAt(line)])
  }

  function CutAll(lines: seq<string>): (cut: seq<string>)
    ensures |cut| == |lines|
  {
    seq(|lines|, i requires 0 <= i < |lines| => CutComment(lines[i]))
  }

  predicate StartsComment(line: string) {
    StartsWith(StripLeft(line), "//")
  }

  predicate Blank(line: string) {
    Strip(line) == ""
  }

  function DropComments(lines: seq<string>): seq<string> {
    if lines == [] then []
    else (if StartsComment(lines[0]) then [] else [lines[0]]) + DropComments(lines[1..])
  }

  function DropBlank(lines: seq<string>): seq<string> {
    if lines == [] then []
    else (if Blank(lines[0]) then [] else [lines[0]]) + DropBlank(lines[1..])
  }

  /** The text as the script works on it: joined and split again at every stage. */
  function Clean(content: string): string {
    var c1 := Join(CutAll(SplitLines(Strip(content))));
    var c2 := Join(DropComments(SplitLines(c1)));
    Join(DropBlank(SplitLines(c2)))
  }

  /** The same on lines, in one go: comments cut off, comment lines and blank lines dropped. */
  function CleanLines(content: string): seq<string> {
    DropBlank(DropComments(CutAll(SplitLines(Strip(content)))))
  }

  lemma {:induction false} DropCommentsKeepsNoBreaks(lines: seq<string>)
    requires NoBreaks(lines)
    ensures NoBreaks(DropComments(lines))
    decreases |lines|
  {
    if lines != [] {
      DropCommentsKeepsNoBreaks(lines[1..]);
    }
  }

  lemma {:induction false} DropBlankKeeps(lines: seq<string>)
    requires NoBreaks(lines)
    ensures NoBreaks(DropBlank(lines))
    ensures forall k | 0 <= k < |DropBlank(lines)| :: DropBlank(lines)[k] in lines && !Blank(DropBlank(lines)[k])
    decreases |lines|
  {
    if lines != [] {
      DropBlankKeeps(lines[1..]);
    }
  }

  lemma {:induction false} DropCommentsKeeps(lines: seq<string>)
    ensures forall k | 0 <= k < |DropComments(lines)| ::
      DropComments(lines)[k] in lines && !StartsComment(DropComments(lines)[k])
    decreases |lines|
  {
    if lines != [] {
      DropCommentsKeeps(lines[1..]);
    }
  }

  lemma {:induction false} DropCommentsEmptyLast(lines: seq<string>)
    requires lines != [] && lines[|lines| - 1] == ""
    ensures DropComments(lines) == DropComments(lines[..|lines| - 1]) + [""]
    decreases |lines|
  {
    if |lines| == 1 {
      assert lines[1..] == [] && lines[..0] == [];
    } else {
      DropCommentsEmptyLast(lines[1..]);
      assert lines[..|lines| - 1][1..] == lines[1..][..|lines| - 2];
    }
  }

  lemma {:induction false} DropBlankEmptyLast(lines: seq<string>)
    requires lines != [] && lines[|lines| - 1] == ""
    ensures DropBlank(lines) == DropBlank(lines[..|lines| - 1])
    decreases |lines|
  {
    if |lines| == 1 {
      assert lines[1..] == [] && lines[..0] == [];
    } else {
      DropBlankEmptyLast(lines[1..]);
      assert lines[..|lines| - 1][1..] == lines[1..][..|lines| - 2];
    }
  }

  /** A lost empty line would have been dropped as blank anyway. */
  lemma EmptyLastIsDropped(lines: seq<string>)
    ensures DropBlank(WithoutEmptyLast(lines)) == DropBlank(lines)
    ensures DropBlank(DropComments(WithoutEmptyLast(lines))) == DropBlank(DropComments(lines))
  {
    if lines != [] && lines[|lines| - 1] == "" {
      DropBlankEmptyLast(lines);
      DropCommentsEmptyLast(lines);
      var kept := DropComments(WithoutEmptyLast(lines));
      DropBlankEmptyLast(kept + [""]);
      assert (kept + [""])[..|kept|] == kept;
    }
  }

  /** Joining and splitting between the stages changes nothing. */
  lemma StagesCompose(content: string)
    ensures Clean(content) == Join(CleanLines(content))
    ensures SplitLines(Clean(content)) == CleanLines(content)
  {
    var cut := CutAll(SplitLines(Strip(content)));
    CutKeepsNoBreaks(SplitLines(Strip(content)));
    SplitJoin(cut);
    var kept := DropComments(WithoutEmptyLast(cut));
    DropCommentsKeepsNoBreaks(WithoutEmptyLast(cut));
    SplitJoin(kept);
    EmptyLastIsDropped(kept);
    EmptyLastIsDropped(cut);
    assert DropBlank(SplitLines(Join(kept))) == CleanLines(content);
    CleanLinesAreClean(content);
    SplitJoin(CleanLines(content));
  }

  lemma CutKeepsNoBreaks(lines: seq<string>)
    requires NoBreaks(lines)
    ensures NoBreaks(CutAll(lines))
  {
    forall k | 0 <= k < |lines| ensures NoBreak(CutAll(lines)[k]) {
      assert NoBreak(lines[k]);
      assert CutComment(lines[k]) <= lines[k];
    }
  }

  /** No line of the result is blank, starts as a comment, or still has a comment behind white space. */
  lemma CleanLinesAreClean(content: string)
    ensures NoBreaks(CleanLines(content))
    ensures forall k | 0 <= k < |CleanLines(content)| ::
      var l := CleanLines(content)[k];
      l != "" && !Blank(l) && !StartsComment(l) && CommentAt(l) == |l|
  {
    var lines := SplitLines(Strip(content));
    var cut := CutAll(lines);
    CutKeepsNoBreaks(lines);
    DropCommentsKeepsNoBreaks(cut);
    DropCommentsKeeps(cut);
    DropBlankKeeps(DropComments(cut));
    forall k | 0 <= k < |CleanLines(content)|
      ensures var l := CleanLines(content)[k]; l != "" && !Blank(l) && !StartsComment(l) && CommentAt(l) == |l|
    {
      var l := CleanLines(content)[k];
      assert l in DropComments(cut);
      assert l in cut;
      var j :| 0 <= j < |cut| && cut[j] == l;
      CutHasNoComment(lines[j]);
      assert Blank("");
    }
  }

  lemma CutHasNoComment(line: string)
    ensures CommentAt(CutComment(line)) == |CutComment(line)|
  {
    var l := CutComment(line);
    CommentPersists(l, line, CommentAt(l));
    assert l <= line[..CommentAt(line)];
  }

  lemma CommentPersists(l: string, line: string, n: nat)
    requires l <= line
    ensures IsComment(l, n) ==> IsComment(line, n)
  {
  }

  // ----- What is kept -----

  /** A kept line is a line of the text, cut; only white space and the comment behind it are gone. */
  lemma OnlyTheCommentIsCut(line: string)
    ensures CutComment(line) <= line
    ensures forall i | |CutComment(line)| <= i < CommentAt(line) :: IsSpace(line[i])
  {
    StripRightTakesSpaces(line[..CommentAt(line)]);
    assert forall i | 0 <= i < CommentAt(line) :: line[..CommentAt(line)][i] == line[i];
  }

  /** Code in front of a comment is kept as it is, whatever the comment says. */
  lemma CodeBeforeCommentIsKept(code: string, gap: string, comment: string, line: string)
    requires CommentAt(code) == |code| && (code == "" || !IsSpace(code[|code| - 1]))
    requires gap != "" && AsciiSpaces(gap) && line == code + gap + ("//" + comment)
    ensures CutComment(line) == code
  {
    CommentBehindGap(code, gap, comment, line);
    FrontOfLine(code, gap, "//" + comment, line);
    StripRightOf(code, gap[..|gap| - 1]);
    CutAt(line, |code| + |gap| - 1, code + gap[..|gap| - 1]);
  }

  /** Slashes with no white space in front of them, as in an address, are no comment: only the end is stripped. */
  lemma SlashesInCodeAreKept(line: string)
    requires forall k: nat {:trigger line[k]} | k + 2 < |line| && line[k + 1] == '/' && line[k + 2] == '/' :: !IsSpace(line[k])
    ensures CutComment(line) == StripRight(line)
  {
    assert CommentAt(line) == |line|;
    assert line[..|line|] == line;
  }

  lemma CutAt(line: string, at: nat, front: string)
    requires at <= |line| && CommentAt(line) == at && line[..at] == front
    ensures CutComment(line) == StripRight(front)
  {
  }

  lemma FrontOfLine(code: string, gap: string, rest: string, line: string)
    requires gap != "" && line == code + gap + rest
    ensures line[..|code| + |gap| - 1] == code + gap[..|gap| - 1]
  {
  }

  lemma CommentBehindGap(code: string, gap: string, comment: string, line: string)
    requires CommentAt(code) == |code| && gap != "" && AsciiSpaces(gap) && line == code + gap + ("//" + comment)
    ensures CommentAt(line) == |code| + |gap| - 1
  {
    var at := |code| + |gap| - 1;
    assert line[at] == gap[|gap| - 1] && line[at + 1] == '/' && line[at + 2] == '/';
    assert IsComment(line, at);
    forall k | 0 <= k < at ensures !IsComment(line, k) {
      NoCommentYet(code, gap, "//" + comment, line, k);
    }
  }

  lemma NoCommentYet(code: string, gap: string, rest: string, line: string, k: nat)
    requires CommentAt(code) == |code| && gap != "" && AsciiSpaces(gap) && line == code + gap + rest
    requires k + 1 < |code| + |gap|
    ensures !IsComment(line, k)
  {
    if k + 2 < |code| {
      assert line[k] == code[k] && line[k + 1] == code[k + 1] && line[k + 2] == code[k + 2];
      assert !IsComment(code, k);
    } else if k + 2 < |code| + |gap| {
      assert line[k + 2] == gap[k + 2 - |code|];
    } else {
      assert line[k + 1] == gap[k + 1 - |code|];
    }
  }

  /** What the cleaning is meant to keep: a line that has something left and is no comment from its start. */
  predicate Keeps(line: string) {
    !Blank(CutComment(line)) && !StartsComment(CutComment(line))
  }

  /** Two slashes with nothing but white space in front of them. */
  predicate SlashesAt(line: string, i: nat) {
    i + 1 < |line| && line[i] == '/' && line[i + 1] == '/' && forall j | 0 <= j < i :: IsSpace(line[j])
  }

  /** A line is blank exactly if it is nothing but white space. */
  lemma BlankMeans(line: string)
    ensures Blank(line) <==> forall i | 0 <= i < |line| :: IsSpace(line[i])
  {
    var t := StripLeft(line);
    StripLeftTakesSpaces(line);
    if t != "" {
      assert line[|line| - |t|] == t[0] && !IsSpace(t[0]);
      StripRightKeepsNonBlank(t);
    }
  }

  /** A line is a comment from its start exactly if two slashes stand behind nothing but white space. */
  lemma StartsCommentMeans(line: string)
    ensures StartsComment(line) <==> exists i: nat :: SlashesAt(line, i)
  {
    var t := StripLeft(line);
    var n := |line| - |t|;
    StripLeftTakesSpaces(line);
    if StartsComment(line) {
      assert t[0] == '/' && t[1] == '/' && line[n] == t[0] && line[n + 1] == t[1];
      assert SlashesAt(line, n);
    }
    if i: nat :| SlashesAt(line, i) {
      SlashesAreFirst(line, i, n);
      assert t[0] == line[n] && t[1] == line[n + 1];
    }
  }

  lemma SlashesAreFirst(line: string, i: nat, n: nat)
    requires SlashesAt(line, i) && n <= |line| && forall j | 0 <= j < n :: IsSpace(line[j])
    requires n < |line| ==> !IsSpace(line[n])
    ensures n == i
  {
    assert !IsSpace('/');
  }

  /** The places, in rising order, of those of the first `n` lines that are kept. */
  predicate Selects(places: seq<nat>, lines: seq<string>, n: nat)
    requires n <= |lines|
  {
    && (forall k | 0 <= k < |places| :: places[k] < n && Keeps(lines[places[k]]))
    && (forall j, k | 0 <= j < k < |places| :: places[j] < places[k])
    && (forall i: nat | i < n && Keeps(lines[i]) :: i in places)
  }

  /** These are the lines at those places, each cut. */
  predicate CutFrom(kept: seq<string>, places: seq<nat>, lines: seq<string>) {
    && |kept| == |places| && (forall k | 0 <= k < |places| :: places[k] < |lines|)
    && (forall k | 0 <= k < |kept| :: kept[k] == CutComment(lines[places[k]]))
  }

  /** The cleaned lines are, in order, exactly the lines of the text that have something left, each cut. */
  lemma CleanLinesAreKept(content: string) returns (places: seq<nat>)
    ensures var lines := SplitLines(Strip(content));
      Selects(places, lines, |lines|) && CutFrom(CleanLines(content), places, lines)
  {
    var lines := SplitLines(Strip(content));
    places := PlacesKept(lines, |lines|);
    assert lines[..|lines|] == lines;
    assert Filtered(lines) == CleanLines(content);
  }

  /** The two filters on a list that is cut line by line. */
  function Filtered(lines: seq<string>): seq<string> {
    DropBlank(DropComments(CutAll(lines)))
  }

  function KeptOf(line: string): seq<string> {
    if Keeps(line) then [CutComment(line)] else []
  }

  lemma {:induction false} DropCommentsLast(lines: seq<string>, line: string)
    ensures DropComments(lines + [line]) == DropComments(lines) + if StartsComment(line) then [] else [line]
    decreases |lines|
  {
    if lines == [] {
      assert [line][1..] == [] && lines + [line] == [line];
    } else {
      assert (lines + [line])[1..] == lines[1..] + [line];
      DropCommentsLast(lines[1..], line);
    }
  }

  lemma {:induction false} DropBlankLast(lines: seq<string>, line: string)
    ensures DropBlank(lines + [line]) == DropBlank(lines) + if Blank(line) then [] else [line]
    decreases |lines|
  {
    if lines == [] {
      assert [line][1..] == [] && lines + [line] == [line];
    } else {
      assert (lines + [line])[1..] == lines[1..] + [line];
      DropBlankLast(lines[1..], line);
    }
  }

  lemma FilteredLast(all: seq<string>, lines: seq<string>, line: string)
    requires all == lines + [line]
    ensures Filtered(all) == Filtered(lines) + KeptOf(line)
  {
    var cut := CutAll(lines);
    assert CutAll(all) == cut + [CutComment(line)];
    DropCommentsLast(cut, CutComment(line));
    DropBlankLast(DropComments(cut), CutComment(line));
    assert DropComments(cut) + [] == DropComments(cut) && Filtered(lines) + [] == Filtered(lines);
  }

  lemma {:induction false} PlacesKept(lines: seq<string>, n: nat) returns (places: seq<nat>)
    requires n <= |lines|
    ensures Selects(places, lines, n) && CutFrom(Filtered(lines[..n]), places, lines)
    decreases n
  {
    places := [];
    if n > 0 {
      places := PlacesKept(lines, n - 1);
      FilteredLast(lines[..n], lines[..n - 1], lines[n - 1]);
      places := OneMorePlace(lines, n - 1, places, Filtered(lines[..n - 1]));
    }
  }

  lemma OneMorePlace(lines: seq<string>, n: nat, places: seq<nat>, kept: seq<string>) returns (more: seq<nat>)
    requires n < |lines| && Selects(places, lines, n) && CutFrom(kept, places, lines)
    ensures Selects(more, lines, n + 1) && CutFrom(kept + KeptOf(lines[n]), more, lines)
  {
    more := places + if Keeps(lines[n]) then [n] else [];
    assert Keeps(lines[n]) ==> more[|places|] == n;
    forall i: nat | i < n + 1 && Keeps(lines[i]) ensures i in more {
      assert i < n ==> i in places;
    }
  }

  // ----- Printing -----

  const INDENT: string := "    "
  const BREAK: string := "\\n\"\n    \""   // ends a literal with an escaped line feed and opens the next one

  /** The script's escaping: one replacement after the other, the line feeds last. */
  function Escape(text: string): string {
    var a := Replace(text, '\r', "");
    var b := Replace(a, '\\', "\\\\");
    var c := Replace(b, '\"', "\\\"");
    Replace(c, '\n', BREAK)
  }

  function Print(text: string): string {
    INDENT + "\"" + Escape(text) + "\";"
  }

  function Extract(content: string): string {
    Print(Clean(content))
  }

  /** What one character becomes. */
  function EscapeChar(c: char): string {
    if c == '\r' then "" else if c == '\\' then "\\\\" else if c == '\"' then "\\\"" else if c == '\n' then BREAK else [c]
  }

  lemma EscapeConcat(s: string, t: string)
    ensures Escape(s + t) == Escape(s) + Escape(t)
  {
    ReplaceConcat(s, t, '\r', "");
    var a, b := Replace(s, '\r', ""), Replace(t, '\r', "");
    ReplaceConcat(a, b, '\\', "\\\\");
    var c, d := Replace(a, '\\', "\\\\"), Replace(b, '\\', "\\\\");
    ReplaceConcat(c, d, '\"', "\\\"");
    ReplaceConcat(Replace(c, '\"', "\\\""), Replace(d, '\"', "\\\""), '\n', BREAK);
  }

  lemma ReplaceSingle(c: char, d: char, r: string)
    ensures Replace([c], d, r) == if c == d then r else [c]
  {
    assert [c][1..] == [];
  }

  /** The replacements do not disturb each other: every character is escaped on its own. */
  lemma EscapeSingle(c: char)
    ensures Escape([c]) == EscapeChar(c)
  {
    ReplaceSingle(c, '\r', "");
    if c != '\r' {
      ReplaceSingle(c, '\\', "\\\\");
      if c == '\\' {
        NothingToReplace("\\\\", '\"', "\\\"");
        NothingToReplace("\\\\", '\n', BREAK);
      } else {
        ReplaceSingle(c, '\"', "\\\"");
        if c == '\"' {
          NothingToReplace("\\\"", '\n', BREAK);
        } else {
          ReplaceSingle(c, '\n', BREAK);
        }
      }
    }
  }

  // ----- Reading C string literals -----

  function Prepend(s: string, r: Option<string>): Option<string> {
    if r.Some? then Some(s + r.value) else None
  }

  /** Between literals: white space, the next literal, or the final semicolon. */
  function Outside(s: string): Option<string>
    decreases |s|
  {
    if s == [] then None
    else if s[0] == ' ' || s[0] == '\n' then Outside(s[1..])
    else if s[0] == '\"' then Inside(s[1..])
    else if s == ";" then Some("")
    else None
  }

  /** Within a literal; it must not contain a raw line feed, and only these escapes are known. */
  function Inside(s: string): Option<string>
    decreases |s|
  {
    if s == [] || s[0] == '\n' then None
    else if s[0] == '\"' then Outside(s[1..])
    else if s[0] == '\\' then
      if |s| == 1 then None
      else if s[1] == 'n' then Prepend("\n", Inside(s[2..]))
      else if s[1] == '\\' then Prepend("\\", Inside(s[2..]))
      else if s[1] == '\"' then Prepend("\"", Inside(s[2..]))
      else None
    else Prepend([s[0]], Inside(s[1..]))
  }

  // One step of the reader for each thing the printer writes.

  lemma SkipSpace(c: char, s: string)
    requires c == ' ' || c == '\n'
    ensures Outside([c] + s) == Outside(s)
  {
    assert ([c] + s)[1..] == s;
  }

  lemma QuoteSwitches(s: string)
    ensures Outside("\"" + s) == Inside(s) && Inside("\"" + s) == Outside(s)
  {
    assert ("\"" + s)[1..] == s;
  }

  lemma ReadEscape(c: char, s: string)
    requires c in {'n', '\\', '\"'}
    ensures Inside(['\\', c] + s) == Prepend(if c == 'n' then "\n" else [c], Inside(s))
  {
    assert (['\\', c] + s)[2..] == s;
  }

  lemma ReadPlain(c: char, s: string)
    requires c !in {'\n', '\\', '\"'}
    ensures Inside([c] + s) == Prepend([c], Inside(s))
  {
    assert ([c] + s)[1..] == s;
  }

  lemma OutsideIndent(s: string)
    ensures Outside(INDENT + s) == Outside(s)
  {
    SkipSpace(' ', s);
    SkipSpace(' ', " " + s);
    assert " " + (" " + s) == "  " + s;
    SkipSpace(' ', "  " + s);
    assert " " + ("  " + s) == "   " + s;
    SkipSpace(' ', "   " + s);
    assert " " + ("   " + s) == INDENT + s;
  }

  lemma InsideBreak(s: string)
    ensures Inside(BREAK + s) == Prepend("\n", Inside(s))
  {
    QuoteSwitches(s);
    var quoted := "\"" + s;
    OutsideIndent(quoted);
    var indented := INDENT + quoted;
    SkipSpace('\n', indented);
    var fed := "\n" + indented;
    QuoteSwitches(fed);
    ReadEscape('n', "\"" + fed);
    BreakSpelled(s);
  }

  lemma BreakSpelled(s: string)
    ensures ['\\', 'n'] + ("\"" + ("\n" + (INDENT + ("\"" + s)))) == BREAK + s
  {
  }

  lemma {:induction false} InsideEscaped(text: string)
    ensures Inside(Escape(text) + "\";") == Some(Replace(text, '\r', ""))
    decreases |text|
  {
    if text == [] {
      QuoteSwitches(";");
      assert Escape(text) + "\";" == "\"" + ";";
    } else {
      var c, rest := text[0], text[1..];
      assert text == [c] + rest;
      EscapeConcat([c], rest);
      EscapeSingle(c);
      InsideEscaped(rest);
      var tail := Escape(rest) + "\";";
      assert Escape(text) + "\";" == EscapeChar(c) + tail;
      if c == '\n' {
        InsideBreak(tail);
      } else if c == '\\' || c == '\"' {
        ReadEscape(c, tail);
        assert ['\\', c] == EscapeChar(c);
      } else if c == '\r' {
        assert "" + tail == tail;
        assert "" + Replace(rest, '\r', "") == Replace(rest, '\r', "");
      } else {
        ReadPlain(c, tail);
      }
    }
  }

  /** Reading printed literals gives the text back, carriage returns apart. */
  lemma PrintThenRead(text: string)
    ensures Outside(Print(text)) == Some(Replace(text, '\r', ""))
  {
    InsideEscaped(text);
    var tail := Escape(text) + "\";";
    QuoteSwitches(tail);
    OutsideIndent("\"" + tail);
    assert Print(text) == INDENT + ("\"" + tail);
  }

  lemma {:induction false} NothingToReplace(s: string, c: char, r: string)
    requires c !in s
    ensures Replace(s, c, r) == s
    decreases |s|
  {
    if s != [] {
      NothingToReplace(s[1..], c, r);
    }
  }

  lemma {:induction false} JoinedHasNoReturn(lines: seq<string>)
    requires NoBreaks(lines)
    ensures '\r' !in Join(lines)
    decreases |lines|
  {
    if lines != [] {
      assert NoBreak(lines[0]);
      if |lines| > 1 {
        JoinedHasNoReturn(lines[1..]);
      }
    }
  }

  /** For every input text the generated literals read back as exactly its cleaned lines. */
  lemma ExtractReadsBack(content: string)
    ensures Outside(Extract(content)) == Some(Join(CleanLines(content)))
  {
    StagesCompose(content);
    PrintThenRead(Clean(content));
    CleanLinesAreClean(content);
    JoinedHasNoReturn(CleanLines(content));
    NothingToReplace(Clean(content), '\r', "");
  }

  // ----- The lines of the generated code -----

  /** One literal a line; all but the last end with an escaped line feed. */
  function Literals(lines: seq<string>): (code: seq<string>)
    requires lines != []
    ensures |code| == |lines|
  {
    if |lines| == 1 then [INDENT + "\"" + Escape(lines[0]) + "\";"]
    else [INDENT + "\"" + Escape(lines[0]) + "\\n\""] + Literals(lines[1..])
  }

  /** The generated code, as lines; a text with nothing left in it still gives one empty literal. */
  function CodeLines(content: string): seq<string> {
    var clean := CleanLines(content);
    Literals(if clean == [] then [""] else clean)
  }

  lemma {:induction false} PrintIsLiterals(lines: seq<string>)
    requires lines != []
    ensures Print(Join(lines)) == Join(Literals(lines))
    decreases |lines|
  {
    if |lines| > 1 {
      var rest := lines[1..];
      PrintIsLiterals(rest);
      EscapeConcat(lines[0] + "\n", Join(rest));
      EscapeConcat(lines[0], "\n");
      EscapeSingle('\n');
      BreakInPrint(Escape(lines[0]), Escape(Join(rest)));
    }
  }

  lemma BreakInPrint(a: string, b: string)
    ensures INDENT + "\"" + (a + BREAK + b) + "\";"
         == (INDENT + "\"" + a + "\\n\"") + "\n" + (INDENT + "\"" + b + "\";")
  {
  }

  lemma {:induction false} EscapeKeepsNoBreak(line: string)
    requires NoBreak(line)
    ensures NoBreak(Escape(line))
    decreases |line|
  {
    if line != [] {
      assert line == [line[0]] + line[1..];
      EscapeConcat([line[0]], line[1..]);
      EscapeSingle(line[0]);
      EscapeKeepsNoBreak(line[1..]);
    }
  }

  lemma {:induction false} LiteralsAreQuoted(lines: seq<string>)
    requires lines != [] && NoBreaks(lines)
    ensures NoBreaks(Literals(lines))
    ensures forall k | 0 <= k < |lines| :: StartsWith(Literals(lines)[k], INDENT + "\"")
    decreases |lines|
  {
    EscapeKeepsNoBreak(lines[0]);
    if |lines| > 1 {
      LiteralsAreQuoted(lines[1..]);
    }
  }

  /** For every input text: each generated line is a quote behind the indent, so none can be taken for a marker. */
  lemma EveryCodeLineIsQuoted(content: string)
    ensures SplitLines(Extract(content)) == CodeLines(content) && Extract(content) == Join(CodeLines(content))
    ensures CodeLines(content) != [] && NoBreaks(CodeLines(content))
    ensures forall k | 0 <= k < |CodeLines(content)| :: StartsWith(CodeLines(content)[k], INDENT + "\"")
  {
    StagesCompose(content);
    CleanLinesAreClean(content);
    var lines := if CleanLines(content) == [] then [""] else CleanLines(content);
    assert Join(lines) == Clean(content);
    PrintIsLiterals(lines);
    LiteralsAreQuoted(lines);
    var code := Literals(lines);
    assert code[|code| - 1] != "";
    SplitJoin(code);
  }
}
