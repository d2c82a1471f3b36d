/** Replaces a maintained section of a header file: the four-mode line machine and what it amounts to. */
module InsertCode {
  import opened Options
  import opened PythonText
  import ExtractCode

  datatype Mode = Search | Armed | Within | Done

  /** Which lines mark a section: the maintenance notice, the declaration on the next line, and the end. */
  datatype Markers = Markers(prefix: string -> bool, decl: string -> bool, postfix: string -> bool)

  predicate Hits(line: string, marker: string) {
    StartsWith(Strip(line), marker)
  }

  function Declaration(name: string): string {
    "static const char " + name + "[] PROGMEM ="
  }

  /** The markers for a section name, given the notice and the end marker. */
  function Script(name: string, notice: string, end: string): Markers {
    Markers(line => Hits(line, notice), line => Hits(line, Declaration(name)), line => Hits(line, end))
  }

  // ----- The machine -----

  function Next(mode: Mode, line: string, m: Markers): Mode {
    match mode
    case Search => if m.prefix(line) then Armed else Search
    case Armed => if m.decl(line) then Within else Search
    case Within => if m.postfix(line) then Done else Within
    case Done => Done
  }

  /** What one line adds to the output. */
  function Emitted(mode: Mode, line: string, m: Markers, code: string): string {
    match mode
    case Search => line + "\n"
    case Armed => line + "\n" + if m.decl(line) then code + "\n" else ""
    case Within => if m.postfix(line) then line + "\n" else ""
    case Done => line + "\n"
  }

  function ModeAfter(lines: seq<string>, m: Markers): Mode {
    if lines == [] then Search else Next(ModeAfter(lines[..|lines| - 1], m), lines[|lines| - 1], m)
  }

  function Output(lines: seq<string>, m: Markers, code: string): string {
    if lines == [] then ""
    else
      var before := lines[..|lines| - 1];
      Output(before, m, code) + Emitted(ModeAfter(before, m), lines[|lines| - 1], m, code)
  }

  /** None stands for the exit with an error. */
  function Inserted(dest: string, m: Markers, code: string): Option<string> {
    var lines := SplitLines(dest);
    if ModeAfter(lines, m) == Done then Some(Output(lines, m, code)) else None
  }

  /** Mode and output of the loop in front of line `i`. */
  predicate Copied(lines: seq<string>, m: Markers, code: string, i: nat, mode: Mode, output: string) {
    i <= |lines| && mode == ModeAfter(lines[..i], m) && output == Output(lines[..i], m, code)
  }

  lemma CopyOneMore(lines: seq<string>, m: Markers, code: string, i: nat, mode: Mode, output: string)
    requires i < |lines| && Copied(lines, m, code, i, mode, output)
    ensures Copied(lines, m, code, i + 1, Next(mode, lines[i], m), output + Emitted(mode, lines[i], m, code))
  {
    assert lines[..i + 1][..i] == lines[..i];
  }

  /** The loop of insert_code. */
  method Insert(dest: string, m: Markers, code: string) returns (result: Option<string>)
    ensures result == Inserted(dest, m, code)
  {
    var lines := SplitLines(dest);
    var newcontent, mode, nextmode := "", Search, Search;
    var i := 0;
    while i < |lines|
      invariant i <= |lines| && mode == nextmode
      invariant Copied(lines, m, code, i, mode, newcontent)
    {
      var line := lines[i];
      ghost var before, contentBefore := mode, newcontent;
      if mode != Within {
        newcontent := newcontent + (line + "\n");
      }
      if mode == Search && m.prefix(line) {
        nextmode := Armed;
      }
      if mode == Armed {
        if m.decl(line) {
          nextmode := Within;
          newcontent := newcontent + (code + "\n");
        } else {
          nextmode := Search;
        }
      }
      if mode == Within {
        if m.postfix(line) {
          newcontent := newcontent + (line + "\n");
          nextmode := Done;
        }
      }
      CopyOneMore(lines, m, code, i, before, contentBefore);
      assert newcontent == contentBefore + Emitted(before, line, m, code);
      mode := nextmode;
      i := i + 1;
    }
    assert lines[..i] == lines;
    result := if mode == Done then Some(newcontent) else None;
  }

  // ----- What the machine amounts to -----

  /**
   * The section from the declaration at `d` to the end marker at `e`: the machine is armed in front of the
   * declaration, and the end marker is the first one behind it.
   */
  ghost predicate Section(lines: seq<string>, m: Markers, d: nat, e: nat) {
    && d < e < |lines|
    && ModeAfter(lines[..d], m) == Armed && m.decl(lines[d])
    && (forall k | d < k < e :: !m.postfix(lines[k])) && m.postfix(lines[e])
  }

  lemma ModeOneMore(lines: seq<string>, m: Markers, k: nat)
    requires k < |lines|
    ensures ModeAfter(lines[..k + 1], m) == Next(ModeAfter(lines[..k], m), lines[k], m)
  {
    assert lines[..k + 1][..k] == lines[..k];
  }

  /** A machine that is past its search has been through a declaration. */
  lemma {:induction false} FindDeclaration(lines: seq<string>, m: Markers, k: nat) returns (d: nat)
    requires k <= |lines| && ModeAfter(lines[..k], m) == Within
    ensures d < k && ModeAfter(lines[..d], m) == Armed && m.decl(lines[d])
    ensures forall j | d < j < k :: !m.postfix(lines[j])
    decreases k
  {
    ModeOneMore(lines, m, k - 1);
    if ModeAfter(lines[..k - 1], m) == Armed {
      d := k - 1;
    } else {
      d := FindDeclaration(lines, m, k - 1);
    }
  }

  /** A machine that is done has been through a section. */
  lemma {:induction false} FindSection(lines: seq<string>, m: Markers, k: nat) returns (d: nat, e: nat)
    requires k <= |lines| && ModeAfter(lines[..k], m) == Done
    ensures Section(lines, m, d, e)
    decreases k
  {
    ModeOneMore(lines, m, k - 1);
    if ModeAfter(lines[..k - 1], m) == Within {
      d := FindDeclaration(lines, m, k - 1);
      e := k - 1;
    } else {
      d, e := FindSection(lines, m, k - 1);
    }
  }

  /** The modes on the way through a text with a section. */
  lemma {:induction false} Modes(lines: seq<string>, m: Markers, d: nat, e: nat, k: nat)
    requires Section(lines, m, d, e) && k <= |lines|
    ensures k <= d ==> ModeAfter(lines[..k], m) in {Search, Armed}
    ensures d < k <= e ==> ModeAfter(lines[..k], m) == Within
    ensures e < k ==> ModeAfter(lines[..k], m) == Done
    decreases k
  {
    if k <= d {
      SearchingAt(lines, m, k, d);
    } else {
      ModeOneMore(lines, m, k - 1);
      if k - 1 > d {
        Modes(lines, m, d, e, k - 1);
      }
    }
  }

  lemma OutputOneMore(lines: seq<string>, m: Markers, code: string, k: nat)
    requires k < |lines|
    ensures Output(lines[..k + 1], m, code)
         == Output(lines[..k], m, code) + Emitted(ModeAfter(lines[..k], m), lines[k], m, code)
  {
    assert lines[..k + 1][..k] == lines[..k];
  }

  lemma UnlinesOneMore(lines: seq<string>, lo: nat, k: nat)
    requires lo <= k < |lines|
    ensures Unlines(lines[lo..k + 1]) == Unlines(lines[lo..k]) + (lines[k] + "\n")
  {
    assert lines[lo..k + 1] == lines[lo..k] + [lines[k]];
    UnlinesConcat(lines[lo..k], [lines[k]]);
    assert Unlines([lines[k]]) == lines[k] + "\n" + "";
  }

  /** While it searches the machine copies. */
  lemma {:induction false} SearchCopies(lines: seq<string>, m: Markers, code: string, d: nat, k: nat)
    requires k <= d < |lines| && ModeAfter(lines[..d], m) == Armed
    ensures Output(lines[..k], m, code) == Unlines(lines[..k])
  {
    if k > 0 {
      SearchCopies(lines, m, code, d, k - 1);
      SearchingAt(lines, m, k - 1, d);
      SearchingAt(lines, m, k, d);
      ModeOneMore(lines, m, k - 1);
      OutputOneMore(lines, m, code, k - 1);
      UnlinesOneMore(lines, 0, k - 1);
    }
  }

  /** What is out once the machine is past the declaration. */
  function Past(lines: seq<string>, code: string, d: nat, e: nat, k: nat): string
    requires d < e < |lines| && d < k <= |lines|
  {
    Unlines(lines[..d + 1]) + (code + "\n") + if k <= e then "" else Unlines(lines[e..k])
  }

  predicate Reached(lines: seq<string>, m: Markers, code: string, d: nat, e: nat, k: nat) {
    d < e < |lines| && d < k <= |lines| && Output(lines[..k], m, code) == Past(lines, code, d, e, k)
  }

  lemma PastOneMore(lines: seq<string>, code: string, d: nat, e: nat, k: nat)
    requires d < e < |lines| && d < k < |lines|
    ensures Past(lines, code, d, e, k + 1)
         == Past(lines, code, d, e, k) + if k < e then "" else lines[k] + "\n"
  {
    if k >= e {
      UnlinesOneMore(lines, e, k);
      assert Unlines(lines[e..e]) == "";
    }
  }

  lemma PastDeclaration(lines: seq<string>, m: Markers, code: string, d: nat, e: nat)
    requires Section(lines, m, d, e)
    ensures Reached(lines, m, code, d, e, d + 1)
  {
    OutputOneMore(lines, m, code, d);
    SearchCopies(lines, m, code, d, d);
    UnlinesOneMore(lines, 0, d);
    var front, line := Unlines(lines[..d]), lines[d] + "\n";
    Regroup(front, line, code + "\n");
    assert Past(lines, code, d, e, d + 1) == front + line + (code + "\n") + "";
  }

  /** Behind the declaration nothing is emitted up to the end marker, then every line. */
  predicate EmitsTail(lines: seq<string>, m: Markers, code: string, e: nat, k: nat)
    requires k < |lines|
  {
    Emitted(ModeAfter(lines[..k], m), lines[k], m, code) == if k < e then "" else lines[k] + "\n"
  }

  lemma EmittedBehind(lines: seq<string>, m: Markers, code: string, d: nat, e: nat, k: nat)
    requires Section(lines, m, d, e) && d < k < |lines|
    ensures EmitsTail(lines, m, code, e, k)
  {
    Modes(lines, m, d, e, k);
  }

  lemma PastStep(lines: seq<string>, m: Markers, code: string, d: nat, e: nat, k: nat)
    requires d < e < |lines| && d < k < |lines|
    requires Reached(lines, m, code, d, e, k) && EmitsTail(lines, m, code, e, k)
    ensures Reached(lines, m, code, d, e, k + 1)
  {
    OutputOneMore(lines, m, code, k);
    PastOneMore(lines, code, d, e, k);
  }

  lemma {:induction false} Reaches(lines: seq<string>, m: Markers, code: string, d: nat, e: nat, k: nat)
    requires Reached(lines, m, code, d, e, k)
    requires forall j: nat | d < j < |lines| :: EmitsTail(lines, m, code, e, j)
    ensures Reached(lines, m, code, d, e, |lines|)
    decreases |lines| - k
  {
    if k < |lines| {
      PastStep(lines, m, code, d, e, k);
      Reaches(lines, m, code, d, e, k + 1);
    }
  }

  /** The declaration, the new code, then nothing up to the end marker, then everything. */
  lemma Progress(lines: seq<string>, m: Markers, code: string, d: nat, e: nat)
    requires Section(lines, m, d, e)
    ensures Output(lines, m, code) == Past(lines, code, d, e, |lines|)
  {
    forall j: nat | d < j < |lines| ensures EmitsTail(lines, m, code, e, j) {
      EmittedBehind(lines, m, code, d, e, j);
    }
    PastDeclaration(lines, m, code, d, e);
    Reaches(lines, m, code, d, e, d + 1);
    assert lines[..|lines|] == lines;
  }

  lemma Regroup(a: string, b: string, c: string)
    ensures a + b + c == a + (b + c)
  {
  }

  /** A machine that is armed later on has not entered a section before. */
  lemma {:induction false} SearchingAt(lines: seq<string>, m: Markers, k: nat, d: nat)
    requires k <= d <= |lines| && ModeAfter(lines[..d], m) in {Search, Armed}
    ensures ModeAfter(lines[..k], m) in {Search, Armed}
    decreases d - k
  {
    if k < d {
      ModeOneMore(lines, m, d - 1);
      SearchingAt(lines, m, k, d - 1);
    }
  }

  function Spliced(lines: seq<string>, d: nat, e: nat, code: seq<string>): seq<string>
    requires d < e < |lines|
  {
    lines[..d + 1] + code + lines[e..]
  }

  /** The machine goes through a section. */
  ghost predicate HasSection(lines: seq<string>, m: Markers) {
    exists d: nat, e: nat :: Section(lines, m, d, e)
  }

  lemma DoneMeansSection(lines: seq<string>, m: Markers)
    ensures ModeAfter(lines, m) == Done <==> HasSection(lines, m)
  {
    assert lines[..|lines|] == lines;
    if ModeAfter(lines, m) == Done {
      var d, e := FindSection(lines, m, |lines|);
    } else if d: nat, e: nat :| Section(lines, m, d, e) {
      Modes(lines, m, d, e, |lines|);
    }
  }

  /** The insertion succeeds exactly when the machine goes through a section. */
  lemma InsertFindsSection(dest: string, m: Markers, code: string)
    ensures Inserted(dest, m, code).Some? <==> HasSection(SplitLines(dest), m)
  {
    DoneMeansSection(SplitLines(dest), m);
  }

  /** Then only the lines strictly between the declaration and the end marker are replaced. */
  lemma InsertIsSplice(dest: string, m: Markers, code: string, d: nat, e: nat)
    requires Section(SplitLines(dest), m, d, e)
    ensures var lines := SplitLines(dest);
      Inserted(dest, m, code) == Some(Unlines(lines[..d + 1]) + (code + "\n") + Unlines(lines[e..]))
  {
    var lines := SplitLines(dest);
    assert lines[..|lines|] == lines && lines[e..|lines|] == lines[e..];
    Modes(lines, m, d, e, |lines|);
    Progress(lines, m, code, d, e);
  }

  /** There is only one section the machine can mean. */
  lemma SectionIsUnique(lines: seq<string>, m: Markers, d: nat, e: nat, d': nat, e': nat)
    requires Section(lines, m, d, e) && Section(lines, m, d', e')
    ensures d == d' && e == e'
  {
    Modes(lines, m, d, e, d');
    Modes(lines, m, d', e', d);
  }

  // ----- The section as it stands in the text -----

  /** How many maintenance notices stand directly in front of line `d`. */
  function Notices(lines: seq<string>, m: Markers, d: nat): nat
    requires d <= |lines|
  {
    if d == 0 || !m.prefix(lines[d - 1]) then 0 else 1 + Notices(lines, m, d - 1)
  }

  /** A declaration directly behind an odd number of notices. */
  predicate Opens(lines: seq<string>, m: Markers, d: nat) {
    d < |lines| && m.decl(lines[d]) && Notices(lines, m, d) % 2 == 1
  }

  /** No line is a notice and a declaration at once. */
  ghost predicate Distinct(lines: seq<string>, m: Markers) {
    forall k | 0 <= k < |lines| :: !(m.prefix(lines[k]) && m.decl(lines[k]))
  }

  /** The first declaration that opens, and the first end marker behind it. */
  ghost predicate TextSection(lines: seq<string>, m: Markers, d: nat, e: nat) {
    && d < e < |lines|
    && Opens(lines, m, d) && (forall k | 0 <= k < d :: !Opens(lines, m, k))
    && (forall k | d < k < e :: !m.postfix(lines[k])) && m.postfix(lines[e])
  }

  /** While it searches, the machine is armed exactly behind an odd number of notices. */
  lemma {:induction false} ArmedByNotices(lines: seq<string>, m: Markers, d: nat)
    requires d <= |lines| && Distinct(lines, m) && ModeAfter(lines[..d], m) in {Search, Armed}
    ensures ModeAfter(lines[..d], m) == if Notices(lines, m, d) % 2 == 1 then Armed else Search
    decreases d
  {
    if d > 0 {
      ModeOneMore(lines, m, d - 1);
      SearchingAt(lines, m, d - 1, d);
      ArmedByNotices(lines, m, d - 1);
    }
  }

  /** It searches as long as nothing has opened. */
  lemma {:induction false} NothingOpened(lines: seq<string>, m: Markers, d: nat)
    requires d <= |lines| && Distinct(lines, m) && forall k | 0 <= k < d :: !Opens(lines, m, k)
    ensures ModeAfter(lines[..d], m) in {Search, Armed}
    decreases d
  {
    if d > 0 {
      NothingOpened(lines, m, d - 1);
      assert !Opens(lines, m, d - 1);
      ModeOneMore(lines, m, d - 1);
      ArmedByNotices(lines, m, d - 1);
    }
  }

  lemma OpenedBefore(lines: seq<string>, m: Markers, k: nat, d: nat)
    requires k < d <= |lines| && Distinct(lines, m) && Opens(lines, m, k)
    ensures ModeAfter(lines[..d], m) !in {Search, Armed}
  {
    if ModeAfter(lines[..d], m) in {Search, Armed} {
      SearchingAt(lines, m, k, d);
      ArmedByNotices(lines, m, k);
      ModeOneMore(lines, m, k);
      SearchingAt(lines, m, k + 1, d);
    }
  }

  /** The section the machine goes through is the one that stands in the text. */
  lemma SectionIsInText(lines: seq<string>, m: Markers, d: nat, e: nat)
    requires Distinct(lines, m)
    ensures Section(lines, m, d, e) <==> TextSection(lines, m, d, e)
  {
    if Section(lines, m, d, e) {
      ArmedByNotices(lines, m, d);
      forall k | 0 <= k < d ensures !Opens(lines, m, k) {
        if Opens(lines, m, k) {
          OpenedBefore(lines, m, k, d);
        }
      }
    }
    if TextSection(lines, m, d, e) {
      NothingOpened(lines, m, d);
      ArmedByNotices(lines, m, d);
    }
  }

  lemma {:induction false} FirstSection(lines: seq<string>, m: Markers, d: nat, e: nat) returns (d': nat, e': nat)
    requires d < e < |lines| && Opens(lines, m, d) && m.postfix(lines[e])
    ensures TextSection(lines, m, d', e')
    decreases d + e
  {
    if k :| 0 <= k < d && Opens(lines, m, k) {
      d', e' := FirstSection(lines, m, k, e);
    } else if k :| d < k < e && m.postfix(lines[k]) {
      d', e' := FirstSection(lines, m, d, k);
    } else {
      d', e' := d, e;
    }
  }

  /**
   * The insertion succeeds exactly when somewhere in the text a declaration stands directly behind an odd number
   * of notices and an end marker comes later.
   */
  lemma FoundIffInText(dest: string, m: Markers, code: string)
    requires Distinct(SplitLines(dest), m)
    ensures var lines := SplitLines(dest);
      Inserted(dest, m, code).Some? <==> exists d: nat, e: nat :: d < e < |lines| && Opens(lines, m, d) && m.postfix(lines[e])
  {
    var lines := SplitLines(dest);
    InsertFindsSection(dest, m, code);
    if d: nat, e: nat :| Section(lines, m, d, e) {
      SectionIsInText(lines, m, d, e);
    }
    if d: nat, e: nat :| d < e < |lines| && Opens(lines, m, d) && m.postfix(lines[e]) {
      var d', e' := FirstSection(lines, m, d, e);
      SectionIsInText(lines, m, d', e');
    }
  }

  // ----- Idempotence and commutation -----

  /** A generated line: a quote behind the indent. */
  predicate Quoted(line: string) {
    StartsWith(line, ExtractCode.INDENT + "\"")
  }

  /** No generated line marks anything, and an end marker marks nothing else. */
  ghost predicate MarkersOk(m: Markers) {
    && (forall line: string | Quoted(line) :: !m.prefix(line) && !m.decl(line) && !m.postfix(line))
    && (forall line: string | m.postfix(line) :: !m.prefix(line) && !m.decl(line))
  }

  /** Both sections end at the same kind of line. */
  ghost predicate SameEnds(a: Markers, b: Markers) {
    forall line: string :: a.postfix(line) == b.postfix(line)
  }

  ghost predicate IsCode(code: seq<string>) {
    code != [] && NoBreaks(code) && forall k | 0 <= k < |code| :: Quoted(code[k])
  }

  /** The spliced text has the section again, now around the new code. */
  lemma SplicedHasSection(lines: seq<string>, m: Markers, d: nat, e: nat, code: seq<string>)
    requires Section(lines, m, d, e) && MarkersOk(m) && IsCode(code)
    ensures Section(Spliced(lines, d, e, code), m, d, d + 1 + |code|)
  {
    var s := Spliced(lines, d, e, code);
    assert s[..d] == lines[..d] && s[d] == lines[d] && s[d + 1 + |code|] == lines[e];
    forall k | d < k < d + 1 + |code| ensures !m.postfix(s[k]) {
      assert s[k] == code[k - d - 1];
      assert Quoted(code[k - d - 1]);
    }
  }

  lemma UnlinesSpliced(lines: seq<string>, d: nat, e: nat, code: seq<string>)
    requires d < e < |lines| && code != []
    ensures Unlines(Spliced(lines, d, e, code)) == Unlines(lines[..d + 1]) + (Join(code) + "\n") + Unlines(lines[e..])
  {
    UnlinesIsJoin(code);
    UnlinesConcat(lines[..d + 1], code);
    UnlinesConcat(lines[..d + 1] + code, lines[e..]);
  }

  lemma SplicedHasNoBreaks(lines: seq<string>, d: nat, e: nat, code: seq<string>)
    requires d < e < |lines| && NoBreaks(lines) && NoBreaks(code)
    ensures NoBreaks(Spliced(lines, d, e, code))
  {
    var s := Spliced(lines, d, e, code);
    forall k | 0 <= k < |s| ensures NoBreak(s[k]) {
      if k <= d {
        assert s[k] == lines[k];
      } else if k <= d + |code| {
        assert s[k] == code[k - d - 1];
      } else {
        assert s[k] == lines[k - d - 1 - |code| + e];
      }
    }
  }

  lemma OutputIsSpliced(dest: string, m: Markers, code: seq<string>, d: nat, e: nat)
    requires Section(SplitLines(dest), m, d, e) && IsCode(code)
    ensures Inserted(dest, m, Join(code)) == Some(Unlines(Spliced(SplitLines(dest), d, e, code)))
    ensures SplitLines(Unlines(Spliced(SplitLines(dest), d, e, code))) == Spliced(SplitLines(dest), d, e, code)
  {
    var lines := SplitLines(dest);
    InsertIsSplice(dest, m, Join(code), d, e);
    UnlinesSpliced(lines, d, e, code);
    SplicedHasNoBreaks(lines, d, e, code);
    SplitUnlines(Spliced(lines, d, e, code));
  }

  /** The insertion turns a text with these lines into one with those. */
  predicate Gives(lines: seq<string>, m: Markers, code: seq<string>, result: seq<string>) {
    Inserted(Unlines(lines), m, Join(code)) == Some(Unlines(result))
  }

  /** The same for a text that is given by its lines. */
  lemma OutputOfLines(lines: seq<string>, m: Markers, code: seq<string>, d: nat, e: nat)
    requires NoBreaks(lines) && Section(lines, m, d, e) && IsCode(code)
    ensures Gives(lines, m, code, Spliced(lines, d, e, code))
  {
    SplitUnlines(lines);
    OutputIsSpliced(Unlines(lines), m, code, d, e);
  }

  lemma SplicedIsStable(lines: seq<string>, m: Markers, code: seq<string>, d: nat, e: nat)
    requires NoBreaks(lines) && Section(lines, m, d, e) && MarkersOk(m) && IsCode(code)
    ensures Gives(Spliced(lines, d, e, code), m, code, Spliced(lines, d, e, code))
  {
    var s := Spliced(lines, d, e, code);
    SplicedHasSection(lines, m, d, e, code);
    SplicedHasNoBreaks(lines, d, e, code);
    OutputOfLines(s, m, code, d, d + 1 + |code|);
    SplicedAgain(lines, code, d, e);
  }

  lemma SplicedAgain(lines: seq<string>, code: seq<string>, d: nat, e: nat)
    requires d < e < |lines|
    ensures var s := Spliced(lines, d, e, code); Spliced(s, d, d + 1 + |code|, code) == s
  {
    var s := Spliced(lines, d, e, code);
    assert s[..d + 1] == lines[..d + 1] && s[d + 1 + |code|..] == lines[e..];
  }

  /** Inserting generated code a second time changes nothing. */
  lemma InsertIsIdempotent(dest: string, m: Markers, content: string, once: string)
    requires MarkersOk(m) && Inserted(dest, m, ExtractCode.Extract(content)) == Some(once)
    ensures Inserted(once, m, ExtractCode.Extract(content)) == Some(once)
  {
    ExtractCode.EveryCodeLineIsQuoted(content);
    var code := ExtractCode.CodeLines(content);
    var d, e := SectionOf(dest, m, Join(code));
    OutputIsSpliced(dest, m, code, d, e);
    SplicedIsStable(SplitLines(dest), m, code, d, e);
  }

  lemma SectionOf(dest: string, m: Markers, code: string) returns (d: nat, e: nat)
    requires Inserted(dest, m, code).Some?
    ensures Section(SplitLines(dest), m, d, e)
  {
    InsertFindsSection(dest, m, code);
    d, e :| Section(SplitLines(dest), m, d, e);
  }

  /** Code lines and an end marker leave a searching machine searching. */
  lemma {:induction false} SearchesThroughCode(before: seq<string>, code: seq<string>, m: Markers)
    requires IsCode(code) && MarkersOk(m)
    requires ModeAfter(before, m) in {Search, Armed}
    ensures ModeAfter(before + code, m) == Search
    decreases |code|
  {
    var front, last := code[..|code| - 1], code[|code| - 1];
    assert Quoted(last);
    assert (before + code)[..|before + code| - 1] == before + front;
    if front == [] {
      assert before + front == before;
    } else {
      SearchesThroughCode(before, front, m);
    }
  }

  /** Behind a section of its own that is still to come, another section's splice shifts the machine but does not disturb it. */
  lemma {:induction false} ModeShifted(lines: seq<string>, m: Markers, code: seq<string>, d: nat, e: nat, k: nat)
    requires d < e < k <= |lines| && MarkersOk(m) && IsCode(code)
    requires m.postfix(lines[e]) && ModeAfter(lines[..k], m) in {Search, Armed}
    ensures ModeAfter(Spliced(lines, d, e, code)[..k - e + d + 1 + |code|], m) == ModeAfter(lines[..k], m)
    decreases k
  {
    var s, at := Spliced(lines, d, e, code), k - e + d + |code|;
    assert s[at] == lines[k - 1];
    ModeOneMore(s, m, at);
    ModeOneMore(lines, m, k - 1);
    SearchingAt(lines, m, k - 1, k);
    if k - 1 > e {
      ModeShifted(lines, m, code, d, e, k - 1);
    } else {
      SearchingAt(lines, m, d + 1, k);
      SearchesThroughCode(lines[..d + 1], code, m);
      assert s[..at] == lines[..d + 1] + code;
    }
  }

  /** Splices of two sections that do not overlap give the same text in either order. */
  lemma SplicesCommute(lines: seq<string>, a: Markers, b: Markers, codeA: seq<string>, codeB: seq<string>,
                       dA: nat, eA: nat, dB: nat, eB: nat)
    requires NoBreaks(lines) && MarkersOk(a) && MarkersOk(b) && SameEnds(a, b)
    requires IsCode(codeA) && IsCode(codeB)
    requires Section(lines, a, dA, eA) && Section(lines, b, dB, eB) && eA < dB
    ensures var x, y := Spliced(lines, dA, eA, codeA), Spliced(lines, dB, eB, codeB);
      Gives(x, b, codeB, Spliced(y, dA, eA, codeA)) && Gives(y, a, codeA, Spliced(y, dA, eA, codeA))
  {
    SecondThenFirst(lines, a, codeA, codeB, dA, eA, dB, eB);
    FirstThenSecond(lines, b, codeA, codeB, dA, eA, dB, eB) by {
      assert b.postfix(lines[eA]) == a.postfix(lines[eA]);
    }
  }

  lemma SecondThenFirst(lines: seq<string>, a: Markers, codeA: seq<string>, codeB: seq<string>,
                        dA: nat, eA: nat, dB: nat, eB: nat)
    requires NoBreaks(lines) && IsCode(codeA) && IsCode(codeB)
    requires Section(lines, a, dA, eA) && eA < dB < eB < |lines|
    ensures var y := Spliced(lines, dB, eB, codeB); Gives(y, a, codeA, Spliced(y, dA, eA, codeA))
  {
    SectionUntouched(lines, a, codeB, dA, eA, dB, eB);
    SplicedHasNoBreaks(lines, dB, eB, codeB);
    OutputOfLines(Spliced(lines, dB, eB, codeB), a, codeA, dA, eA);
  }

  lemma FirstThenSecond(lines: seq<string>, b: Markers, codeA: seq<string>, codeB: seq<string>,
                        dA: nat, eA: nat, dB: nat, eB: nat)
    requires NoBreaks(lines) && IsCode(codeA) && IsCode(codeB) && MarkersOk(b)
    requires dA < eA < dB && Section(lines, b, dB, eB) && b.postfix(lines[eA])
    ensures Gives(Spliced(lines, dA, eA, codeA), b, codeB, Spliced(Spliced(lines, dB, eB, codeB), dA, eA, codeA))
  {
    var n := dA + 1 + |codeA|;
    SectionShifted(lines, b, codeA, dA, eA, dB, eB);
    SplicedHasNoBreaks(lines, dA, eA, codeA);
    OutputOfLines(Spliced(lines, dA, eA, codeA), b, codeB, dB - eA + n, eB - eA + n);
    SplicedTwice(lines, codeA, codeB, dA, eA, dB, eB);
  }

  lemma SectionShifted(lines: seq<string>, b: Markers, code: seq<string>, d: nat, e: nat, dB: nat, eB: nat)
    requires d < e < dB && Section(lines, b, dB, eB) && MarkersOk(b) && IsCode(code) && b.postfix(lines[e])
    ensures Section(Spliced(lines, d, e, code), b, dB - e + d + 1 + |code|, eB - e + d + 1 + |code|)
  {
    var s, n := Spliced(lines, d, e, code), d + 1 + |code|;
    ModeShifted(lines, b, code, d, e, dB);
    assert s[dB - e + n] == lines[dB] && s[eB - e + n] == lines[eB];
    forall k | dB - e + n < k < eB - e + n ensures !b.postfix(s[k]) {
      assert s[k] == lines[k + e - n];
    }
  }

  lemma SectionUntouched(lines: seq<string>, a: Markers, code: seq<string>, d: nat, e: nat, dB: nat, eB: nat)
    requires Section(lines, a, d, e) && e < dB < eB < |lines|
    ensures Section(Spliced(lines, dB, eB, code), a, d, e)
  {
    var s := Spliced(lines, dB, eB, code);
    assert s[..d] == lines[..d];
    assert forall k | 0 <= k <= dB :: s[k] == lines[k];
  }

  lemma SplicedTwice(lines: seq<string>, a: seq<string>, b: seq<string>, dA: nat, eA: nat, dB: nat, eB: nat)
    requires dA < eA < dB < eB < |lines|
    ensures var n := dA + 1 + |a|;
      Spliced(Spliced(lines, dA, eA, a), dB - eA + n, eB - eA + n, b) == Spliced(Spliced(lines, dB, eB, b), dA, eA, a)
  {
    var n := dA + 1 + |a|;
    var sA, sB := Spliced(lines, dA, eA, a), Spliced(lines, dB, eB, b);
    var middle := lines[eA..dB + 1];
    assert sA[..dB - eA + n + 1] == lines[..dA + 1] + a + middle;
    assert sA[eB - eA + n..] == lines[eB..];
    assert sB[..dA + 1] == lines[..dA + 1];
    assert sB[eA..] == middle + b + lines[eB..];
    assert lines[..dA + 1] + a + middle + b + lines[eB..] == lines[..dA + 1] + a + (middle + b + lines[eB..]);
  }

  /**
   * Where both sections are found and do not overlap, maintaining them in either order gives the same header.
   */
  lemma InsertsCommute(dest: string, a: Markers, b: Markers, contentA: string, contentB: string,
                       dA: nat, eA: nat, dB: nat, eB: nat)
    returns (x: string, y: string)
    requires MarkersOk(a) && MarkersOk(b) && SameEnds(a, b)
    requires Section(SplitLines(dest), a, dA, eA) && Section(SplitLines(dest), b, dB, eB)
    requires eA < dB || eB < dA
    ensures Inserted(dest, a, ExtractCode.Extract(contentA)) == Some(x)
    ensures Inserted(dest, b, ExtractCode.Extract(contentB)) == Some(y)
    ensures Inserted(x, b, ExtractCode.Extract(contentB)) == Inserted(y, a, ExtractCode.Extract(contentA))
    ensures Inserted(x, b, ExtractCode.Extract(contentB)).Some?
  {
    ExtractCode.EveryCodeLineIsQuoted(contentA);
    ExtractCode.EveryCodeLineIsQuoted(contentB);
    var codeA, codeB := ExtractCode.CodeLines(contentA), ExtractCode.CodeLines(contentB);
    var lines := SplitLines(dest);
    OutputIsSpliced(dest, a, codeA, dA, eA);
    OutputIsSpliced(dest, b, codeB, dB, eB);
    x, y := Unlines(Spliced(lines, dA, eA, codeA)), Unlines(Spliced(lines, dB, eB, codeB));
    if eA < dB {
      SplicesCommute(lines, a, b, codeA, codeB, dA, eA, dB, eB);
    } else {
      SplicesCommute(lines, b, a, codeB, codeA, dB, eB, dA, eA);
    }
  }

  // ----- The markers of the script -----

  const PREFIX: string :=
    "// DO NOT MODIFY" + " THIS SECTION. IT IS MAINTAINED BY 'extract_code.py', generated from 'mockup.html'"
  const POSTFIX: string := "// END OF SECTION" + " GENERATED BY 'extract_code.py'"

  /** A marker no generated line can hit. */
  predicate Unquoted(marker: string) {
    marker != "" && marker[0] != '\"'
  }

  /** No line can hit both markers. */
  predicate Apart(a: string, b: string) {
    !(a <= b) && !(b <= a)
  }

  lemma QuotedHitsNothing(line: string, marker: string)
    requires Quoted(line) && Unquoted(marker)
    ensures !Hits(line, marker)
  {
    var t := line[4..];
    assert line[4] == '\"' && t[0] == '\"';
    assert line[1..][1..][1..][1..] == t;
    assert StripLeft(line) == StripLeft(line[1..]) == StripLeft(line[1..][1..]);
    assert StripLeft(line[1..][1..]) == StripLeft(line[1..][1..][1..]) == StripLeft(t) == t;
    StripRightKeepsNonBlank(t);
  }

  /** A marker is hit behind any indent, whatever follows it on the line. */
  lemma IndentedMarkerIsHit(indent: string, marker: string, rest: string)
    requires AsciiSpaces(indent)
    requires marker != "" && !IsSpace(marker[0]) && !IsSpace(marker[|marker| - 1])
    ensures Hits(indent + marker + rest, marker)
  {
    assert indent + marker + rest == indent + (marker + rest);
    StripLeftOf(indent, marker + rest);
    StripRightKeepsFront(marker, rest);
  }

  lemma PrefixesCompare(s: string, a: string, b: string)
    requires a <= s && b <= s
    ensures a <= b || b <= a
  {
    assert a == s[..|a|] && b == s[..|b|];
  }

  /** Texts whose first characters keep them apart make good markers, whatever the name of the section. */
  lemma ScriptMarkersOk(name: string, notice: string, end: string)
    requires Unquoted(notice) && Unquoted(end) && Apart(notice, end) && Apart(Declaration(name), end)
    ensures MarkersOk(Script(name, notice, end))
  {
    var m := Script(name, notice, end);
    forall line: string | Quoted(line) ensures !m.prefix(line) && !m.decl(line) && !m.postfix(line) {
      QuotedHitsNothing(line, notice);
      QuotedHitsNothing(line, Declaration(name));
      QuotedHitsNothing(line, end);
    }
    forall line: string | m.postfix(line) ensures !m.prefix(line) && !m.decl(line) {
      if Hits(line, notice) {
        PrefixesCompare(Strip(line), notice, end);
      }
      if Hits(line, Declaration(name)) {
        PrefixesCompare(Strip(line), Declaration(name), end);
      }
    }
  }

  /** Two sections with the same end marker. */
  lemma ScriptsEndAlike(name: string, other: string, notice: string, end: string)
    ensures SameEnds(Script(name, notice, end), Script(other, notice, end))
  {
    var a, b := Script(name, notice, end), Script(other, notice, end);
    forall line: string ensures a.postfix(line) == b.postfix(line) {
      assert a.postfix(line) == Hits(line, end);
    }
  }

  /** The texts of the script itself are such. */
  lemma ScriptTextsApart(name: string)
    ensures Unquoted(PREFIX) && Unquoted(POSTFIX) && Apart(PREFIX, POSTFIX)
    ensures Apart(Declaration(name), POSTFIX) && Apart(PREFIX, Declaration(name))
  {
    assert PREFIX[0] == '/' && POSTFIX[0] == '/' && PREFIX[3] == 'D' && POSTFIX[3] == 'E';
    assert Declaration(name)[0] == 's';
  }

  /** No line is a notice of the script and a declaration. */
  lemma ScriptDistinct(lines: seq<string>, name: string)
    ensures Distinct(lines, Script(name, PREFIX, POSTFIX))
  {
    ScriptTextsApart(name);
    forall k | 0 <= k < |lines| && Hits(lines[k], PREFIX) ensures !Hits(lines[k], Declaration(name)) {
      if Hits(lines[k], Declaration(name)) {
        PrefixesCompare(Strip(lines[k]), PREFIX, Declaration(name));
      }
    }
  }

  // ----- What the script does with the header -----

  /** The markers of one of its two sections. */
  function SectionOfScript(name: string): Markers {
    Script(name, PREFIX, POSTFIX)
  }

  lemma ScriptOk(name: string)
    ensures MarkersOk(SectionOfScript(name))
  {
    ScriptTextsApart(name);
    ScriptMarkersOk(name, PREFIX, POSTFIX);
  }

  /** Whether a section is found, told from the header alone. */
  lemma ScriptFindsSection(dest: string, name: string, code: string)
    ensures var lines, m := SplitLines(dest), SectionOfScript(name);
      Inserted(dest, m, code).Some? <==> exists d: nat, e: nat :: d < e < |lines| && Opens(lines, m, d) && m.postfix(lines[e])
  {
    ScriptDistinct(SplitLines(dest), name);
    FoundIffInText(dest, SectionOfScript(name), code);
  }

  /** Maintaining a section with the same content again changes nothing. */
  lemma ScriptIsIdempotent(dest: string, name: string, content: string, once: string)
    requires Inserted(dest, SectionOfScript(name), ExtractCode.Extract(content)) == Some(once)
    ensures Inserted(once, SectionOfScript(name), ExtractCode.Extract(content)) == Some(once)
  {
    ScriptOk(name);
    InsertIsIdempotent(dest, SectionOfScript(name), content, once);
  }

  /** The two sections of the header, where both stand in the text and apart, may be maintained in either order. */
  lemma ScriptSectionsCommute(dest: string, header: string, body: string, dA: nat, eA: nat, dB: nat, eB: nat)
    returns (x: string, y: string)
    requires TextSection(SplitLines(dest), SectionOfScript("HTML_HEADER"), dA, eA)
    requires TextSection(SplitLines(dest), SectionOfScript("HTML_CONTROL_BODY"), dB, eB)
    requires eA < dB || eB < dA
    ensures var a, b := SectionOfScript("HTML_HEADER"), SectionOfScript("HTML_CONTROL_BODY");
      && Inserted(dest, a, ExtractCode.Extract(header)) == Some(x)
      && Inserted(dest, b, ExtractCode.Extract(body)) == Some(y)
      && Inserted(x, b, ExtractCode.Extract(body)) == Inserted(y, a, ExtractCode.Extract(header))
      && Inserted(x, b, ExtractCode.Extract(body)).Some?
  {
    var a, b := SectionOfScript("HTML_HEADER"), SectionOfScript("HTML_CONTROL_BODY");
    ScriptOk("HTML_HEADER");
    ScriptOk("HTML_CONTROL_BODY");
    ScriptsEndAlike("HTML_HEADER", "HTML_CONTROL_BODY", PREFIX, POSTFIX);
    ScriptDistinct(SplitLines(dest), "HTML_HEADER");
    ScriptDistinct(SplitLines(dest), "HTML_CONTROL_BODY");
    SectionIsInText(SplitLines(dest), a, dA, eA);
    SectionIsInText(SplitLines(dest), b, dB, eB);
    x, y := InsertsCommute(dest, a, b, header, body, dA, eA, dB, eB);
  }

  // ----- When a section is not found -----

  /** A notice repeated on consecutive lines arms the machine after an odd number of them only. */
  lemma {:induction false} RepeatedNotice(before: seq<string>, notices: seq<string>, m: Markers)
    requires ModeAfter(before, m) == Search
    requires forall k | 0 <= k < |notices| :: m.prefix(notices[k]) && !m.decl(notices[k])
    ensures ModeAfter(before + notices, m) == if |notices| % 2 == 1 then Armed else Search
    decreases |notices|
  {
    if notices == [] {
      assert before + notices == before;
    } else {
      var front := notices[..|notices| - 1];
      assert (before + notices)[..|before + notices| - 1] == before + front;
      RepeatedNotice(before, front, m);
    }
  }

  lemma {:induction false} RowOfNotices(lines: seq<string>, m: Markers, d: nat)
    requires d <= |lines| && forall k | 0 <= k < d :: m.prefix(lines[k])
    ensures Notices(lines, m, d) == d
  {
    if d > 0 {
      RowOfNotices(lines, m, d - 1);
    }
  }

  /** A header with `n` notices in a row: its section is found exactly if `n` is odd. */
  lemma NoticesInARow(n: nat, m: Markers, notice: string, decl: string, end: string, code: string)
    requires NoBreaks([notice, decl, end])
    requires m.prefix(notice) && !m.decl(notice) && m.decl(decl) && !m.prefix(decl) && m.postfix(end) && !m.decl(end)
    ensures var dest := Unlines(seq(n, _ => notice) + [decl, end]);
      Inserted(dest, m, code).Some? <==> n % 2 == 1
  {
    var lines := seq(n, _ => notice) + [decl, end];
    forall k | 0 <= k < |lines| ensures NoBreak(lines[k]) {
      assert lines[k] in [notice, decl, end];
      assert NoBreak([notice, decl, end][0]) && NoBreak([notice, decl, end][1]) && NoBreak([notice, decl, end][2]);
    }
    SplitUnlines(lines);
    RowOfNotices(lines, m, n);
    FoundIffInText(Unlines(lines), m, code);
    assert Opens(lines, m, n) <==> n % 2 == 1;
    assert m.postfix(lines[n + 1]);
  }
}
