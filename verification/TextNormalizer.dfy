/**
 * The text normaliser: NFKC, line ends, control characters, cells, blank
 * lines.  Unicode enters as three tables; the cleaning that follows them is modelled in full.
 */
module TextNormalizer {

  /** NFKC, the control characters (category Cc) and the characters that strip removes. */
  datatype Unicode = Unicode(nfkc: string -> string, control: char -> bool, space: char -> bool) {
    ghost predicate Valid() {
      && (forall c <- "\n\t\r\U{000B}\U{000C}" :: control(c)) && !control(' ')
      && (forall c <- " \n\t" :: space(c))
    }
  }

  // ----- Strings -----

  function Split(s: string, sep: char): (parts: seq<string>)
    ensures |parts| > 0
  {
    if s == "" then [""]
    else
      var rest := Split(s[1..], sep);
      if s[0] == sep then [""] + rest else [[s[0]] + rest[0]] + rest[1..]
  }

  function Join(parts: seq<string>, sep: char): string
    requires |parts| > 0
  {
    if |parts| == 1 then parts[0] else parts[0] + [sep] + Join(parts[1..], sep)
  }

  function StripLeft(u: Unicode, s: string): string {
    if s != "" && u.space(s[0]) then StripLeft(u, s[1..]) else s
  }

  function StripRight(u: Unicode, s: string): string {
    if s != "" && u.space(s[|s| - 1]) then StripRight(u, s[..|s| - 1]) else s
  }

  function Strip(u: Unicode, s: string): string {
    StripRight(u, StripLeft(u, s))
  }

  function StripTabs(s: string): string {
    if s != "" && s[|s| - 1] == '\t' then StripTabs(s[..|s| - 1]) else s
  }

  // ----- The steps of the normaliser -----

  /** CRLF and CR become LF. */
  function UnixLines(s: string): string {
    if s == "" then ""
    else if s[0] == '\r' then "\n" + UnixLines(if |s| > 1 && s[1] == '\n' then s[2..] else s[1..])
    else [s[0]] + UnixLines(s[1..])
  }

  predicate Kept(u: Unicode, c: char) { c == '\n' || c == '\t' || !u.control(c) }

  function WithoutControls(u: Unicode, s: string): string {
    if s == "" then "" else (if Kept(u, s[0]) then [s[0]] else "") + WithoutControls(u, s[1..])
  }

  predicate Blank(c: char) { c == ' ' || c == '\U{000B}' || c == '\U{000C}' }

  /** Every run of blanks becomes one space. */
  function Collapse(s: string): string {
    if s == "" then ""
    else if Blank(s[0]) then (if |s| > 1 && Blank(s[1]) then Collapse(s[1..]) else " " + Collapse(s[1..]))
    else [s[0]] + Collapse(s[1..])
  }

  function CleanCell(u: Unicode, cell: string): string {
    Strip(u, Collapse(cell))
  }

  function CleanCells(u: Unicode, cells: seq<string>): seq<string> {
    seq(|cells|, i requires 0 <= i < |cells| => CleanCell(u, cells[i]))
  }

  function CleanLine(u: Unicode, line: string): string {
    StripTabs(Join(CleanCells(u, Split(line, '\t')), '\t'))
  }

  /** Cleans every line and drops a blank line that follows a blank one. */
  function CleanLines(u: Unicode, lines: seq<string>): seq<string> {
    if lines == [] then []
    else
      var before := CleanLines(u, lines[..|lines| - 1]);
      var line := CleanLine(u, lines[|lines| - 1]);
      if line == "" && before != [] && before[|before| - 1] == "" then before else before + [line]
  }

  lemma {:induction false} CleanLinesNonEmpty(u: Unicode, lines: seq<string>)
    requires lines != []
    ensures CleanLines(u, lines) != []
  {
    if |lines| > 1 {
      CleanLinesNonEmpty(u, lines[..|lines| - 1]);
    }
  }

  function Clean(u: Unicode, s: string): string {
    var lines := Split(WithoutControls(u, UnixLines(s)), '\n');
    CleanLinesNonEmpty(u, lines);
    Strip(u, Join(CleanLines(u, lines), '\n'))
  }

  function Normalize(u: Unicode, text: string): string {
    Clean(u, u.nfkc(text))
  }

  lemma CleanNextLine(u: Unicode, lines: seq<string>, next: string)
    ensures var before, line := CleanLines(u, lines), CleanLine(u, next);
            CleanLines(u, lines + [next])
            == if line == "" && before != [] && before[|before| - 1] == "" then before else before + [line]
  {
    assert (lines + [next])[..|lines|] == lines;
  }

  method NormalizeText(u: Unicode, text: string) returns (r: string)
    ensures r == Normalize(u, text)
  {
    var lines := Split(WithoutControls(u, UnixLines(u.nfkc(text))), '\n');
    var result := [];
    var previousBlank := false;
    for n := 0 to |lines|
      invariant result == CleanLines(u, lines[..n])
      invariant previousBlank <==> result != [] && result[|result| - 1] == ""
    {
      assert lines[..n + 1] == lines[..n] + [lines[n]];
      CleanNextLine(u, lines[..n], lines[n]);
      var line := NormalizeLine(u, lines[n]);
      if line == "" && previousBlank {
        continue;
      }
      result := result + [line];
      previousBlank := line == "";
    }
    assert lines[..|lines|] == lines;
    CleanLinesNonEmpty(u, lines);
    r := Strip(u, Join(result, '\n'));
  }

  method NormalizeLine(u: Unicode, line: string) returns (r: string)
    ensures r == CleanLine(u, line)
  {
    var raw := Split(line, '\t');
    var cells := [];
    for k := 0 to |raw|
      invariant |cells| == k && forall i | 0 <= i < k :: cells[i] == CleanCell(u, raw[i])
    {
      cells := cells + [Strip(u, Collapse(raw[k]))];
    }
    assert cells == CleanCells(u, raw);
    r := StripTabs(Join(cells, '\t'));
  }

  // ----- Splitting and joining -----

  lemma {:induction false} SplitParts(s: string, sep: char)
    ensures forall i | 0 <= i < |Split(s, sep)| :: sep !in Split(s, sep)[i] && forall c <- Split(s, sep)[i] :: c in s
  {
    if s != "" {
      SplitParts(s[1..], sep);
      var rest := Split(s[1..], sep);
      forall i | 0 <= i < |Split(s, sep)| ensures sep !in Split(s, sep)[i] && forall c <- Split(s, sep)[i] :: c in s {
        if s[0] == sep {
          assert i > 0 ==> Split(s, sep)[i] == rest[i - 1];
        } else {
          assert Split(s, sep)[i] == if i == 0 then [s[0]] + rest[0] else rest[i];
        }
      }
    }
  }

  lemma {:induction false} SplitWithoutSep(s: string, sep: char)
    requires sep !in s
    ensures Split(s, sep) == [s]
  {
    if s != "" {
      SplitWithoutSep(s[1..], sep);
      assert s == [s[0]] + s[1..];
    }
  }

  lemma {:induction false} SplitAtSep(s: string, sep: char, rest: string)
    requires sep !in s
    ensures Split(s + [sep] + rest, sep) == [s] + Split(rest, sep)
  {
    var whole := s + [sep] + rest;
    if s == "" {
      assert whole[1..] == rest;
    } else {
      SplitAtSep(s[1..], sep, rest);
      assert whole[1..] == s[1..] + [sep] + rest;
      assert s == [s[0]] + s[1..];
    }
  }

  /** Splitting takes apart what joining put together. */
  lemma {:induction false} SplitJoin(parts: seq<string>, sep: char)
    requires |parts| > 0 && forall i | 0 <= i < |parts| :: sep !in parts[i]
    ensures Split(Join(parts, sep), sep) == parts
  {
    if |parts| == 1 {
      SplitWithoutSep(parts[0], sep);
    } else {
      SplitJoin(parts[1..], sep);
      SplitAtSep(parts[0], sep, Join(parts[1..], sep));
      assert parts == [parts[0]] + parts[1..];
    }
  }

  lemma {:induction false} JoinSplit(s: string, sep: char)
    ensures Join(Split(s, sep), sep) == s
  {
    if s != "" {
      JoinSplit(s[1..], sep);
      var parts, rest := Split(s, sep), Split(s[1..], sep);
      if s[0] == sep {
        assert parts[1..] == rest && parts[0] == "";
      } else {
        assert parts[1..] == rest[1..] && |parts| == |rest|;
      }
      assert s == [s[0]] + s[1..];
    }
  }

  lemma {:induction false} JoinLast(parts: seq<string>, last: string, sep: char)
    requires |parts| > 0
    ensures Join(parts + [last], sep) == Join(parts, sep) + [sep] + last
  {
    if |parts| == 1 {
      assert (parts + [last])[1..] == [last];
    } else {
      JoinLast(parts[1..], last, sep);
      assert (parts + [last])[1..] == parts[1..] + [last];
    }
  }

  lemma {:induction false} JoinCharacters(parts: seq<string>, sep: char)
    requires |parts| > 0
    ensures forall c <- Join(parts, sep) :: c == sep || exists i | 0 <= i < |parts| :: c in parts[i]
  {
    if |parts| > 1 {
      JoinCharacters(parts[1..], sep);
      forall c | c in Join(parts, sep) ensures c == sep || exists i | 0 <= i < |parts| :: c in parts[i] {
        if c !in parts[0] && c != sep {
          var i :| 0 <= i < |parts[1..]| && c in parts[1..][i];
          assert c in parts[i + 1];
        }
      }
    }
  }

  // ----- Tidy cells -----

  /** Nothing left to collapse or strip. */
  ghost predicate TidyCell(u: Unicode, cell: string) {
    && (forall i | 0 <= i < |cell| :: Blank(cell[i]) ==> cell[i] == ' ')
    && (forall i | 0 <= i < |cell| - 1 :: cell[i] == ' ' ==> cell[i + 1] != ' ')
    && (cell != "" ==> !u.space(cell[0]) && !u.space(cell[|cell| - 1]))
  }

  ghost predicate Collapsed(s: string) {
    && (forall i | 0 <= i < |s| :: Blank(s[i]) ==> s[i] == ' ')
    && forall i | 0 <= i < |s| - 1 :: s[i] == ' ' ==> s[i + 1] != ' '
  }

  lemma {:induction false} CollapseCollapses(s: string)
    ensures Collapsed(Collapse(s)) && (forall c <- Collapse(s) :: c in s || (c == ' ' && exists b <- s :: Blank(b)))
    ensures Collapse(s) != "" && Collapse(s)[0] == ' ' ==> Blank(s[0])
  {
    if s != "" {
      CollapseCollapses(s[1..]);
      assert forall c <- s[1..] :: c in s;
    }
  }

  lemma {:induction false} CollapseKeeps(s: string)
    requires Collapsed(s)
    ensures Collapse(s) == s
  {
    if s != "" {
      assert Collapsed(s[1..]) by {
        forall i | 0 <= i < |s[1..]| ensures s[1..][i] == s[i + 1] {
        }
      }
      CollapseKeeps(s[1..]);
      assert s == [s[0]] + s[1..];
    }
  }

  lemma {:induction false} StripLeftIs(u: Unicode, s: string) returns (n: nat)
    ensures n <= |s| && StripLeft(u, s) == s[n..] && (n < |s| ==> !u.space(s[n])) && forall i | 0 <= i < n :: u.space(s[i])
  {
    n := 0;
    if s != "" && u.space(s[0]) {
      var m := StripLeftIs(u, s[1..]);
      n := m + 1;
      assert s[1..][m..] == s[n..];
      forall i | 0 <= i < n ensures u.space(s[i]) {
        assert i > 0 ==> s[i] == s[1..][i - 1];
      }
    }
  }

  lemma {:induction false} StripRightIs(u: Unicode, s: string) returns (n: nat)
    ensures n <= |s| && StripRight(u, s) == s[..n] && (n > 0 ==> !u.space(s[n - 1])) && forall i | n <= i < |s| :: u.space(s[i])
  {
    n := |s|;
    if s != "" && u.space(s[|s| - 1]) {
      n := StripRightIs(u, s[..|s| - 1]);
      assert s[..|s| - 1][..n] == s[..n];
    } else {
      assert s[..n] == s;
    }
  }

  /** Stripping takes a stretch out of the middle. */
  lemma StripIs(u: Unicode, s: string) returns (a: nat, b: nat)
    ensures a <= b <= |s| && Strip(u, s) == s[a..b]
    ensures Strip(u, s) != "" ==> !u.space(Strip(u, s)[0]) && !u.space(Strip(u, s)[|Strip(u, s)| - 1])
  {
    a := StripLeftIs(u, s);
    var n := StripRightIs(u, s[a..]);
    b := a + n;
    assert s[a..][..n] == s[a..b];
    if n > 0 {
      assert s[a..b][0] == s[a] && s[a..b][n - 1] == s[a..][n - 1];
    }
  }

  lemma StripKeeps(u: Unicode, s: string)
    requires s != "" ==> !u.space(s[0]) && !u.space(s[|s| - 1])
    ensures Strip(u, s) == s
  {
  }

  lemma CleanCellIsTidy(u: Unicode, cell: string)
    ensures TidyCell(u, CleanCell(u, cell))
    ensures forall c <- CleanCell(u, cell) :: c in cell || (c == ' ' && exists b <- cell :: Blank(b))
  {
    CollapseCollapses(cell);
    var collapsed := Collapse(cell);
    var a, b := StripIs(u, collapsed);
    var r := CleanCell(u, cell);
    assert r == collapsed[a..b];
    assert forall i | 0 <= i < |r| :: r[i] == collapsed[a + i];
  }

  lemma TidyCellIsKept(u: Unicode, cell: string)
    requires TidyCell(u, cell)
    ensures CleanCell(u, cell) == cell
  {
    assert Collapsed(cell);
    CollapseKeeps(cell);
    StripKeeps(u, cell);
  }

  // ----- Tidy lines -----

  /** All cells are tidy and no tab stands at the end. */
  ghost predicate TidyLine(u: Unicode, line: string) {
    var cells := Split(line, '\t');
    && (forall i | 0 <= i < |cells| :: TidyCell(u, cells[i]))
    && (line != "" ==> line[|line| - 1] != '\t')
  }

  lemma {:induction false} StripTabsIs(s: string) returns (n: nat)
    ensures n <= |s| && StripTabs(s) == s[..n] && (n > 0 ==> s[n - 1] != '\t') && forall i | n <= i < |s| :: s[i] == '\t'
  {
    n := |s|;
    if s != "" && s[|s| - 1] == '\t' {
      n := StripTabsIs(s[..|s| - 1]);
      assert s[..|s| - 1][..n] == s[..n];
    } else {
      assert s[..n] == s;
    }
  }

  /** Removing tabs at the end removes empty cells at the end. */
  lemma {:induction false} StripTabsOfCells(u: Unicode, cells: seq<string>)
    requires |cells| > 0 && forall i | 0 <= i < |cells| :: TidyCell(u, cells[i]) && '\t' !in cells[i]
    ensures TidyLine(u, StripTabs(Join(cells, '\t')))
  {
    var last, joined := cells[|cells| - 1], Join(cells, '\t');
    if |cells| == 1 {
      SplitJoin(cells, '\t');
      assert last != "" ==> last[|last| - 1] in last;
    } else {
      var front := cells[..|cells| - 1];
      assert cells == front + [last];
      JoinLast(front, last, '\t');
      if last == "" {
        assert joined == Join(front, '\t') + ['\t'] && joined[..|joined| - 1] == Join(front, '\t');
        StripTabsOfCells(u, front);
      } else {
        assert joined[|joined| - 1] == last[|last| - 1] && last[|last| - 1] in last;
        SplitJoin(cells, '\t');
      }
    }
  }

  lemma CleanLineIsTidy(u: Unicode, line: string)
    ensures TidyLine(u, CleanLine(u, line))
  {
    var raw := Split(line, '\t');
    var cells := CleanCells(u, raw);
    SplitParts(line, '\t');
    forall i | 0 <= i < |cells| ensures TidyCell(u, cells[i]) && '\t' !in cells[i] {
      CleanCellIsTidy(u, raw[i]);
    }
    StripTabsOfCells(u, cells);
  }

  lemma CleanLineCharacters(u: Unicode, line: string)
    ensures forall c <- CleanLine(u, line) :: c in line || c == '\t' || c == ' '
  {
    var raw := Split(line, '\t');
    var cells := CleanCells(u, raw);
    SplitParts(line, '\t');
    JoinCharacters(cells, '\t');
    var n := StripTabsIs(Join(cells, '\t'));
    forall c | c in CleanLine(u, line) ensures c in line || c == '\t' || c == ' ' {
      assert c in Join(cells, '\t');
      if c != '\t' {
        var i :| 0 <= i < |cells| && c in cells[i];
        CleanCellIsTidy(u, raw[i]);
      }
    }
  }

  lemma TidyLineIsKept(u: Unicode, line: string)
    requires TidyLine(u, line)
    ensures CleanLine(u, line) == line
  {
    var cells := Split(line, '\t');
    forall i | 0 <= i < |cells| ensures CleanCell(u, cells[i]) == cells[i] {
      TidyCellIsKept(u, cells[i]);
    }
    assert CleanCells(u, cells) == cells;
    JoinSplit(line, '\t');
  }

  /** A tidy line that is not blank begins with tabs at most and ends without white space. */
  lemma TidyLineEnds(u: Unicode, line: string)
    requires u.Valid() && TidyLine(u, line) && line != ""
    ensures u.space(line[0]) ==> line[0] == '\t' && TidyLine(u, line[1..]) && line[1..] != ""
    ensures !u.space(line[|line| - 1])
  {
    var cells := Split(line, '\t');
    JoinSplit(line, '\t');
    SplitParts(line, '\t');
    LastCellEnds(cells, line);
    if line[0] == '\t' {
      assert cells == [""] + Split(line[1..], '\t');
      assert forall i | 0 <= i < |cells| - 1 :: cells[i + 1] == Split(line[1..], '\t')[i];
    } else {
      assert cells[0][0] == line[0];
    }
  }

  lemma {:induction false} LastCellEnds(cells: seq<string>, line: string)
    requires |cells| > 0 && line == Join(cells, '\t') && line != "" && line[|line| - 1] != '\t'
    ensures cells[|cells| - 1] != "" && cells[|cells| - 1][|cells[|cells| - 1]| - 1] == line[|line| - 1]
  {
    if |cells| > 1 {
      var front, last := cells[..|cells| - 1], cells[|cells| - 1];
      assert cells == front + [last];
      JoinLast(front, last, '\t');
      assert line == Join(front, '\t') + ['\t'] + last;
    }
  }

  // ----- Tidy texts -----

  /** Tidy lines, never two blank ones in a row. */
  ghost predicate TidyLines(u: Unicode, lines: seq<string>) {
    && (forall i | 0 <= i < |lines| :: TidyLine(u, lines[i]) && forall c <- lines[i] :: c != '\n' && c != '\r' && Kept(u, c))
    && forall i | 0 <= i < |lines| - 1 :: lines[i] != "" || lines[i + 1] != ""
  }

  /** What the normaliser produces: tidy lines, no white space at either end. */
  ghost predicate TidyText(u: Unicode, s: string) {
    && TidyLines(u, Split(s, '\n'))
    && (s != "" ==> !u.space(s[0]) && !u.space(s[|s| - 1]))
  }

  lemma {:induction false} CleanLinesAreTidy(u: Unicode, lines: seq<string>)
    requires u.Valid() && forall i | 0 <= i < |lines| :: forall c <- lines[i] :: c != '\n' && c != '\r' && Kept(u, c)
    ensures TidyLines(u, CleanLines(u, lines))
  {
    if lines != [] {
      CleanLinesAreTidy(u, lines[..|lines| - 1]);
      CleanLineIsTidy(u, lines[|lines| - 1]);
      CleanLineCharacters(u, lines[|lines| - 1]);
    }
  }

  lemma {:induction false} TidyLinesAreKept(u: Unicode, lines: seq<string>)
    requires TidyLines(u, lines)
    ensures CleanLines(u, lines) == lines
  {
    if lines != [] {
      var front, last := lines[..|lines| - 1], lines[|lines| - 1];
      TidyLinesAreKept(u, front);
      TidyLineIsKept(u, last);
      assert lines == front + [last];
      assert front != [] ==> front[|front| - 1] == lines[|lines| - 2];
    }
  }

  lemma {:induction false} StripLeftOfLines(u: Unicode, lines: seq<string>)
    requires u.Valid() && TidyLines(u, lines) && |lines| > 0
    ensures var s := StripLeft(u, Join(lines, '\n')); TidyLines(u, Split(s, '\n')) && (s != "" ==> !u.space(s[0]))
    decreases |lines|, |lines[0]|
  {
    var s := Join(lines, '\n');
    assert forall i | 0 <= i < |lines| :: '\n' !in lines[i];
    SplitJoin(lines, '\n');
    if lines[0] == "" {
      if |lines| > 1 {
        assert s == "\n" + Join(lines[1..], '\n') && s[1..] == Join(lines[1..], '\n');
        StripLeftOfLines(u, lines[1..]);
      }
    } else if u.space(s[0]) {
      TidyLineEnds(u, lines[0]);
      assert s[0] == lines[0][0];
      var next := [lines[0][1..]] + lines[1..];
      assert forall c <- next[0] :: c in lines[0];
      assert s[1..] == Join(next, '\n');
      StripLeftOfLines(u, next);
    }
  }

  lemma {:induction false} StripRightOfLines(u: Unicode, lines: seq<string>)
    requires u.Valid() && TidyLines(u, lines) && |lines| > 0
    ensures var s := StripRight(u, Join(lines, '\n')); TidyLines(u, Split(s, '\n'))
  {
    var s := Join(lines, '\n');
    var last := lines[|lines| - 1];
    assert forall i | 0 <= i < |lines| :: '\n' !in lines[i];
    SplitJoin(lines, '\n');
    if |lines| > 1 {
      var front := lines[..|lines| - 1];
      assert lines == front + [last];
      JoinLast(front, last, '\n');
      if last == "" {
        assert s[..|s| - 1] == Join(front, '\n');
        StripRightOfLines(u, front);
      } else {
        TidyLineEnds(u, last);
        assert s[|s| - 1] == last[|last| - 1];
      }
    } else if last != "" {
      TidyLineEnds(u, last);
    }
  }

  lemma {:induction false} UnixLinesKeeps(s: string)
    requires '\r' !in s
    ensures UnixLines(s) == s
  {
    if s != "" {
      UnixLinesKeeps(s[1..]);
      assert s == [s[0]] + s[1..];
    }
  }

  lemma {:induction false} UnixLinesHasNoReturns(s: string)
    ensures '\r' !in UnixLines(s)
    decreases |s|
  {
    if s != "" {
      UnixLinesHasNoReturns(s[1..]);
      if |s| > 1 {
        UnixLinesHasNoReturns(s[2..]);
      }
    }
  }

  lemma {:induction false} WithoutControlsIs(u: Unicode, s: string)
    ensures forall c <- WithoutControls(u, s) :: Kept(u, c) && c in s
    ensures (forall c <- s :: Kept(u, c)) ==> WithoutControls(u, s) == s
  {
    if s != "" {
      WithoutControlsIs(u, s[1..]);
      assert s == [s[0]] + s[1..];
    }
  }

  /** Whatever goes in, the result is tidy; in particular it never has two blank lines in a row. */
  lemma CleanIsTidy(u: Unicode, s: string)
    requires u.Valid()
    ensures TidyText(u, Clean(u, s))
  {
    var kept := WithoutControls(u, UnixLines(s));
    var lines := Split(kept, '\n');
    UnixLinesHasNoReturns(s);
    WithoutControlsIs(u, UnixLines(s));
    SplitParts(kept, '\n');
    CleanLinesAreTidy(u, lines);
    CleanLinesNonEmpty(u, lines);
    var joined := Join(CleanLines(u, lines), '\n');
    StripLeftOfLines(u, CleanLines(u, lines));
    var left := StripLeft(u, joined);
    JoinSplit(left, '\n');
    StripRightOfLines(u, Split(left, '\n'));
    var a, b := StripIs(u, joined);
  }

  /** A tidy text passes through the cleaning unchanged. */
  lemma TidyTextIsKept(u: Unicode, s: string)
    requires u.Valid() && TidyText(u, s)
    ensures Clean(u, s) == s
  {
    var lines := Split(s, '\n');
    JoinSplit(s, '\n');
    JoinCharacters(lines, '\n');
    forall c | c in s ensures c != '\r' && Kept(u, c) {
      if c != '\n' {
        var i :| 0 <= i < |lines| && c in lines[i];
      }
    }
    UnixLinesKeeps(s);
    WithoutControlsIs(u, s);
    TidyLinesAreKept(u, lines);
    StripKeeps(u, s);
  }

  // ----- Idempotence -----

  /**
   * Normalising twice changes nothing exactly when NFKC leaves the first
   * result alone.  NFKC is only asked to keep a normalised text tidy: it may
   * compose or reorder characters, not bring in white space or controls.
   */
  lemma IdempotentExactlyWhenNfkcKeeps(u: Unicode, text: string)
    requires u.Valid()
    requires TidyText(u, u.nfkc(Normalize(u, text)))
    ensures Normalize(u, Normalize(u, text)) == Normalize(u, text) <==> u.nfkc(Normalize(u, text)) == Normalize(u, text)
  {
    var once := Normalize(u, text);
    CleanIsTidy(u, u.nfkc(text));
    TidyTextIsKept(u, once);
    TidyTextIsKept(u, u.nfkc(once));
  }

  predicate Ascii(s: string) {
    forall c <- s :: c as int < 128
  }

  predicate AllAscii(parts: seq<string>) {
    forall i | 0 <= i < |parts| :: Ascii(parts[i])
  }

  lemma {:induction false} UnixLinesCharacters(s: string)
    ensures forall c <- UnixLines(s) :: c in s || c == '\n'
    decreases |s|
  {
    if s != "" {
      UnixLinesCharacters(s[1..]);
      if |s| > 1 {
        UnixLinesCharacters(s[2..]);
      }
    }
  }

  lemma {:induction false} CleanLinesCharacters(u: Unicode, lines: seq<string>)
    requires AllAscii(lines)
    ensures AllAscii(CleanLines(u, lines))
  {
    if lines != [] {
      CleanLinesCharacters(u, lines[..|lines| - 1]);
      CleanLineCharacters(u, lines[|lines| - 1]);
    }
  }

  lemma CleanKeepsAscii(u: Unicode, s: string)
    requires Ascii(s)
    ensures Ascii(Clean(u, s))
  {
    var lines := Split(WithoutControls(u, UnixLines(s)), '\n');
    RawLinesAscii(u, s);
    CleanLinesCharacters(u, lines);
    CleanLinesNonEmpty(u, lines);
    var joined := Join(CleanLines(u, lines), '\n');
    JoinAscii(CleanLines(u, lines), '\n');
    var a, b := StripIs(u, joined);
    assert forall c <- joined[a..b] :: c in joined;
  }

  lemma RawLinesAscii(u: Unicode, s: string)
    requires Ascii(s)
    ensures AllAscii(Split(WithoutControls(u, UnixLines(s)), '\n'))
  {
    UnixLinesCharacters(s);
    WithoutControlsIs(u, UnixLines(s));
    SplitParts(WithoutControls(u, UnixLines(s)), '\n');
  }

  lemma JoinAscii(parts: seq<string>, sep: char)
    requires |parts| > 0 && sep as int < 128 && AllAscii(parts)
    ensures Ascii(Join(parts, sep))
  {
    JoinCharacters(parts, sep);
  }

  /** On ASCII, where NFKC is the identity, the normaliser is idempotent. */
  lemma IdempotentOnAscii(u: Unicode, text: string)
    requires u.Valid() && Ascii(text) && forall s | Ascii(s) :: u.nfkc(s) == s
    ensures Normalize(u, Normalize(u, text)) == Normalize(u, text)
  {
    CleanKeepsAscii(u, text);
    CleanIsTidy(u, text);
    TidyTextIsKept(u, Normalize(u, text));
  }

  /** A control character that separates a letter from its accent hides the pair from the first NFKC only. */
  lemma NotIdempotentWitness(u: Unicode)
    requires u.Valid() && u.control('\0')
    requires !u.control('e') && !u.control('\U{0301}') && !u.control('\U{00E9}')
    requires !u.space('e') && !u.space('\U{0301}') && !u.space('\U{00E9}')
    requires u.nfkc("e\0\U{0301}") == "e\0\U{0301}" && u.nfkc("e\U{0301}") == "\U{00E9}"
    ensures Normalize(u, "e\0\U{0301}") == "e\U{0301}" && Normalize(u, "e\U{0301}") == "\U{00E9}"
  {
    var pair := "e\U{0301}";
    var hidden := "e\0\U{0301}";
    UnixLinesKeeps(hidden);
    RemovesMiddle(u, hidden);
    assert pair == [hidden[0], hidden[2]];
    OneCellIsKept(u, pair);
    OneCellIsKept(u, "\U{00E9}");
    UnixLinesKeeps(pair);
    WithoutControlsIs(u, pair);
    assert Clean(u, hidden) == Clean(u, pair);
  }

  lemma RemovesMiddle(u: Unicode, s: string)
    requires |s| == 3 && Kept(u, s[0]) && !Kept(u, s[1]) && Kept(u, s[2])
    ensures WithoutControls(u, s) == [s[0], s[2]]
  {
    assert s[1..] == [s[1], s[2]] && s[1..][1..] == [s[2]] && [s[2]][1..] == "";
    assert WithoutControls(u, [s[2]]) == [s[2]];
    assert WithoutControls(u, s[1..]) == WithoutControls(u, s[1..][1..]);
  }

  lemma OneCellIsKept(u: Unicode, s: string)
    requires u.Valid() && s != "" && forall c <- s :: !u.control(c) && !u.space(c)
    ensures Clean(u, s) == s
  {
    assert forall c <- s :: c != '\n' && c != '\t' && c != '\r' && !Blank(c);
    SplitWithoutSep(s, '\n');
    SplitWithoutSep(s, '\t');
    assert TidyText(u, s);
    TidyTextIsKept(u, s);
  }
}
