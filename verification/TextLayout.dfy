/**
 * What of a text survives normalisation: every visible character, in order, and
 * what lies between two of them - nothing, space, a number of cell borders, or
 * a line break with or without a blank line.
 */
module TextLayout {
  import opened TextNormalizer
  import opened NormalizerIdempotence

  /** Neither white space nor a control character. */
  predicate Visible(u: Unicode, c: char) {
    !u.space(c) && !u.control(c)
  }

  /**
   * What separates a visible character from the one before it.  `Tabs` counts
   * the cell borders on one line; `Lines` says whether a blank line intervenes
   * and counts the cell borders on the new line before the character.
   */
  datatype Gap = Start | Joined | Spaced | Tabs(borders: nat) | Lines(blank: bool, indent: nat)

  function AddSpace(g: Gap): Gap {
    if g == Joined then Spaced else g
  }

  function AddTab(g: Gap): Gap {
    match g
    case Start => Start
    case Joined | Spaced => Tabs(1)
    case Tabs(n) => Tabs(n + 1)
    case Lines(blank, n) => Lines(blank, n + 1)
  }

  function AddBreak(g: Gap): Gap {
    match g
    case Start => Start
    case Joined | Spaced | Tabs(_) => Lines(false, 0)
    case Lines(_, _) => Lines(true, 0)
  }

  function AddSeparator(c: char, g: Gap): Gap {
    if c == '\n' || c == '\r' then AddBreak(g) else if c == '\t' then AddTab(g) else AddSpace(g)
  }

  /** The visible characters of a text, each with the gap before it; a return and line feed pair is one break. */
  function Layout(u: Unicode, s: string, g: Gap): seq<(char, Gap)> {
    if s == "" then []
    else if Visible(u, s[0]) then [(s[0], g)] + Layout(u, s[1..], Joined)
    else if Deleted(u, s[0]) then Layout(u, s[1..], g)
    else if s[0] == '\r' && |s| > 1 && s[1] == '\n' then Layout(u, s[1..], g)
    else Layout(u, s[1..], AddSeparator(s[0], g))
  }

  /** The gap that a text leaves behind. */
  function Trail(u: Unicode, s: string, g: Gap): Gap {
    if s == "" then g
    else if Visible(u, s[0]) then Trail(u, s[1..], Joined)
    else if Deleted(u, s[0]) then Trail(u, s[1..], g)
    else Trail(u, s[1..], AddSeparator(s[0], g))
  }

  ghost predicate Tables(u: Unicode) {
    u.Valid() && u.space('\r')
  }

  /** No control characters but tabs and line feeds. */
  ghost predicate Clear(u: Unicode, s: string) {
    forall c <- s :: Kept(u, c)
  }

  lemma ClearMeans(u: Unicode, c: char)
    requires Tables(u) && Kept(u, c)
    ensures c != '\r' && !Deleted(u, c)
    ensures !Visible(u, c) <==> u.space(c)
  {
  }

  // ----- Texts without controls can be read piece by piece -----

  lemma {:induction false} LayoutOfParts(u: Unicode, s: string, t: string, g: Gap)
    requires Tables(u) && Clear(u, s)
    ensures Layout(u, s + t, g) == Layout(u, s, g) + Layout(u, t, Trail(u, s, g))
    ensures Trail(u, s + t, g) == Trail(u, t, Trail(u, s, g))
  {
    if s == "" {
      assert s + t == t;
    } else {
      var c, rest := s[0], s[1..];
      assert c in s && (forall x <- rest :: x in s);
      ClearMeans(u, c);
      assert (s + t)[0] == c && (s + t)[1..] == rest + t;
      LayoutOfParts(u, rest, t, if Visible(u, c) then Joined else AddSeparator(c, g));
      if Visible(u, c) {
        assert [(c, g)] + (Layout(u, rest, Joined) + Layout(u, t, Trail(u, rest, Joined)))
            == [(c, g)] + Layout(u, rest, Joined) + Layout(u, t, Trail(u, rest, Joined));
      }
    }
  }

  lemma LayoutOfOne(u: Unicode, c: char, g: Gap)
    requires Tables(u) && Kept(u, c) && u.space(c)
    ensures Layout(u, [c], g) == [] && Trail(u, [c], g) == AddSeparator(c, g)
  {
    ClearMeans(u, c);
    assert [c][1..] == "";
  }

  // ----- Line ends and control characters -----

  lemma {:induction false} SiftKeepsLayout(u: Unicode, s: string, g: Gap)
    requires Tables(u)
    ensures Layout(u, Sift(u, s), g) == Layout(u, s, g)
    decreases |s|
  {
    if s != "" {
      SiftNext(u, s);
      if s[0] == '\r' {
        SiftReturn(u, s, g);
        SiftKeepsLayout(u, AfterReturn(s), AddBreak(g));
      } else {
        var next := if Visible(u, s[0]) then Joined else if Deleted(u, s[0]) then g else AddSeparator(s[0], g);
        SiftKeepsLayout(u, s[1..], next);
        SiftOne(u, s, g);
      }
    }
  }

  lemma SiftReturn(u: Unicode, s: string, g: Gap)
    requires Tables(u) && s != "" && s[0] == '\r'
    ensures Layout(u, s, g) == Layout(u, AfterReturn(s), AddBreak(g))
    ensures Layout(u, ['\n'] + Sift(u, AfterReturn(s)), g) == Layout(u, Sift(u, AfterReturn(s)), AddBreak(g))
  {
    assert (['\n'] + Sift(u, AfterReturn(s)))[1..] == Sift(u, AfterReturn(s));
    if |s| > 1 && s[1] == '\n' {
      assert s[1..][0] == '\n' && s[1..][1..] == s[2..];
    }
  }

  lemma SiftOne(u: Unicode, s: string, g: Gap)
    requires Tables(u) && s != "" && s[0] != '\r'
    ensures var next := if Visible(u, s[0]) then Joined else if Deleted(u, s[0]) then g else AddSeparator(s[0], g);
            var before := if Visible(u, s[0]) then [(s[0], g)] else [];
            && Layout(u, s, g) == before + Layout(u, s[1..], next)
            && Layout(u, FirstKept(u, s) + Sift(u, s[1..]), g) == before + Layout(u, Sift(u, s[1..]), next)
  {
    var all := FirstKept(u, s) + Sift(u, s[1..]);
    if Deleted(u, s[0]) {
      assert all == Sift(u, s[1..]);
    } else {
      assert all[0] == s[0] && all[1..] == Sift(u, s[1..]);
    }
  }

  // ----- Cells -----

  /** A gap at the beginning of a cell. */
  predicate AtBorder(g: Gap) {
    g != Joined && g != Spaced
  }

  /** Two gaps that differ at most by space, which a cell border or line end makes the same. */
  predicate SameAtBorder(g: Gap, h: Gap) {
    AddTab(g) == AddTab(h) && AddBreak(g) == AddBreak(h)
  }

  /** A stretch of space inside a cell. */
  ghost predicate InCell(u: Unicode, s: string) {
    Clear(u, s) && '\t' !in s && '\n' !in s
  }

  lemma {:induction false} StripLeftKeepsLayout(u: Unicode, s: string, g: Gap)
    requires Tables(u) && InCell(u, s) && AtBorder(g)
    ensures Layout(u, StripLeft(u, s), g) == Layout(u, s, g) && Trail(u, StripLeft(u, s), g) == Trail(u, s, g)
    ensures InCell(u, StripLeft(u, s))
  {
    if s != "" && u.space(s[0]) {
      assert s[0] in s && (forall c <- s[1..] :: c in s);
      ClearMeans(u, s[0]);
      StripLeftKeepsLayout(u, s[1..], g);
    }
  }

  lemma {:induction false} StripRightKeepsLayout(u: Unicode, s: string, g: Gap)
    requires Tables(u) && InCell(u, s)
    ensures Layout(u, StripRight(u, s), g) == Layout(u, s, g) && SameAtBorder(Trail(u, StripRight(u, s), g), Trail(u, s, g))
  {
    if s != "" && u.space(s[|s| - 1]) {
      var front, c := s[..|s| - 1], s[|s| - 1];
      assert s == front + [c] && c in s && (forall x <- front :: x in s);
      StripRightKeepsLayout(u, front, g);
      LayoutOfParts(u, front, [c], g);
      LayoutOfOne(u, c, Trail(u, front, g));
    }
  }

  /** A run of blanks is as good as one space. */
  lemma {:induction false} CollapseKeepsLayout(u: Unicode, s: string, g: Gap)
    requires Tables(u) && InCell(u, s)
    ensures Layout(u, Collapse(s), g) == Layout(u, s, g) && Trail(u, Collapse(s), g) == Trail(u, s, g)
    ensures InCell(u, Collapse(s))
    decreases |s|
  {
    if s != "" {
      var c, rest := s[0], s[1..];
      assert c in s && (forall x <- rest :: x in s);
      ClearMeans(u, c);
      if Blank(c) {
        assert c == ' ' && u.space(c);
        CollapseKeepsLayout(u, rest, AddSpace(g));
        if |s| > 1 && Blank(s[1]) {
          CollapseKeepsLayout(u, rest, g);
          assert rest[0] == s[1] && s[1] in s && s[1] == ' ';
          SecondSpace(u, rest, g);
        } else {
          FirstOf(u, ' ', Collapse(rest), g);
        }
      } else {
        CollapseKeepsLayout(u, rest, if Visible(u, c) then Joined else AddSeparator(c, g));
        FirstOf(u, c, Collapse(rest), g);
      }
    }
  }

  lemma SecondSpace(u: Unicode, s: string, g: Gap)
    requires Tables(u) && s != "" && s[0] == ' '
    ensures Layout(u, s, AddSpace(g)) == Layout(u, s, g) && Trail(u, s, AddSpace(g)) == Trail(u, s, g)
  {
    ClearMeans(u, ' ');
  }

  lemma FirstOf(u: Unicode, c: char, rest: string, g: Gap)
    requires Tables(u) && Kept(u, c)
    ensures var next := if Visible(u, c) then Joined else AddSeparator(c, g);
            && Layout(u, [c] + rest, g) == (if Visible(u, c) then [(c, g)] else []) + Layout(u, rest, next)
            && Trail(u, [c] + rest, g) == Trail(u, rest, next)
  {
    ClearMeans(u, c);
    assert ([c] + rest)[1..] == rest;
  }

  lemma CellKeepsLayout(u: Unicode, cell: string, g: Gap)
    requires Tables(u) && InCell(u, cell) && AtBorder(g)
    ensures Layout(u, CleanCell(u, cell), g) == Layout(u, cell, g)
    ensures SameAtBorder(Trail(u, CleanCell(u, cell), g), Trail(u, cell, g))
    ensures Clear(u, CleanCell(u, cell))
  {
    CollapseKeepsLayout(u, cell, g);
    StripLeftKeepsLayout(u, Collapse(cell), g);
    StripRightKeepsLayout(u, StripLeft(u, Collapse(cell)), g);
    var a, b := StripIs(u, Collapse(cell));
    assert forall c <- Collapse(cell)[a..b] :: c in Collapse(cell);
  }

  // ----- Lines -----

  ghost predicate AllInCell(u: Unicode, cells: seq<string>) {
    forall i | 0 <= i < |cells| :: InCell(u, cells[i])
  }

  ghost predicate AllClear(u: Unicode, parts: seq<string>) {
    forall i | 0 <= i < |parts| :: Clear(u, parts[i])
  }

  lemma JoinIsClear(u: Unicode, parts: seq<string>, sep: char)
    requires |parts| > 0 && AllClear(u, parts) && (sep == '\t' || sep == '\n')
    ensures Clear(u, Join(parts, sep))
  {
    JoinCharacters(parts, sep);
  }

  /** What follows a separator is read from the gap behind it. */
  lemma AfterSeparator(u: Unicode, before: string, sep: char, after: string, g: Gap)
    requires Tables(u) && Clear(u, before) && (sep == '\t' || sep == '\n')
    ensures var h := AddSeparator(sep, Trail(u, before, g));
            && Layout(u, before + [sep] + after, g) == Layout(u, before, g) + Layout(u, after, h)
            && Trail(u, before + [sep] + after, g) == Trail(u, after, h)
  {
    assert before + [sep] + after == before + ([sep] + after);
    LayoutOfParts(u, before, [sep] + after, g);
    FirstOf(u, sep, after, Trail(u, before, g));
  }

  lemma {:induction false} CellsKeepLayout(u: Unicode, raw: seq<string>, g: Gap)
    requires Tables(u) && |raw| > 0 && AllInCell(u, raw) && AtBorder(g)
    ensures Layout(u, Join(CleanCells(u, raw), '\t'), g) == Layout(u, Join(raw, '\t'), g)
    ensures SameAtBorder(Trail(u, Join(CleanCells(u, raw), '\t'), g), Trail(u, Join(raw, '\t'), g))
    ensures Clear(u, Join(CleanCells(u, raw), '\t'))
  {
    CellKeepsLayout(u, raw[0], g);
    var cells := CleanCells(u, raw);
    if |raw| > 1 {
      var h := AddTab(Trail(u, raw[0], g));
      CellsKeepLayout(u, raw[1..], h);
      assert cells[1..] == CleanCells(u, raw[1..]);
      AfterSeparator(u, raw[0], '\t', Join(raw[1..], '\t'), g);
      AfterSeparator(u, cells[0], '\t', Join(cells[1..], '\t'), g);
    }
  }

  lemma {:induction false} StripTabsKeepsLayout(u: Unicode, s: string, g: Gap)
    requires Tables(u) && Clear(u, s)
    ensures Layout(u, StripTabs(s), g) == Layout(u, s, g) && AddBreak(Trail(u, StripTabs(s), g)) == AddBreak(Trail(u, s, g))
    ensures Clear(u, StripTabs(s))
  {
    if s != "" && s[|s| - 1] == '\t' {
      var front := s[..|s| - 1];
      assert s == front + ['\t'] && (forall x <- front :: x in s);
      StripTabsKeepsLayout(u, front, g);
      LayoutOfParts(u, front, ['\t'], g);
      LayoutOfOne(u, '\t', Trail(u, front, g));
    }
  }

  lemma LineKeepsLayout(u: Unicode, line: string, g: Gap)
    requires Tables(u) && Clear(u, line) && '\n' !in line && AtBorder(g)
    ensures Layout(u, CleanLine(u, line), g) == Layout(u, line, g)
    ensures AddBreak(Trail(u, CleanLine(u, line), g)) == AddBreak(Trail(u, line, g))
    ensures Clear(u, CleanLine(u, line))
  {
    var raw := Split(line, '\t');
    SplitParts(line, '\t');
    JoinSplit(line, '\t');
    CellsKeepLayout(u, raw, g);
    StripTabsKeepsLayout(u, Join(CleanCells(u, raw), '\t'), g);
  }

  // ----- Whole texts -----

  ghost predicate AllLines(u: Unicode, lines: seq<string>) {
    forall i | 0 <= i < |lines| :: Clear(u, lines[i]) && '\n' !in lines[i]
  }

  /** The state of reading some lines: what was visible, and the gap after a further line end. */
  ghost predicate SameReading(u: Unicode, cleaned: seq<string>, lines: seq<string>)
    requires |cleaned| > 0 && |lines| > 0
  {
    && Layout(u, Join(cleaned, '\n'), Start) == Layout(u, Join(lines, '\n'), Start)
    && AddBreak(Trail(u, Join(cleaned, '\n'), Start)) == AddBreak(Trail(u, Join(lines, '\n'), Start))
  }

  lemma BreakIsAtBorder(g: Gap)
    ensures AtBorder(AddBreak(g)) && AddBreak(AddBreak(AddBreak(g))) == AddBreak(AddBreak(g))
  {
  }

  /** Once a blank line has ended, further blank lines make no difference. */
  predicate Settled(g: Gap) {
    AddBreak(g) == g
  }

  /** Cleaned lines read like the raw ones, and behind a blank one further blank lines would make no difference. */
  ghost predicate ReadsAlike(u: Unicode, cleaned: seq<string>, lines: seq<string>)
    requires |lines| > 0
  {
    && |cleaned| > 0 && AllClear(u, cleaned) && SameReading(u, cleaned, lines)
    && (cleaned[|cleaned| - 1] == "" ==> Settled(AddBreak(Trail(u, Join(cleaned, '\n'), Start))))
  }

  lemma {:induction false} LinesKeepLayout(u: Unicode, lines: seq<string>)
    requires Tables(u) && |lines| > 0 && AllLines(u, lines)
    ensures ReadsAlike(u, CleanLines(u, lines), lines)
  {
    var front, last := lines[..|lines| - 1], lines[|lines| - 1];
    assert lines == front + [last];
    if |lines| == 1 {
      FirstLineKeepsLayout(u, last);
      assert lines == [last];
    } else {
      LinesKeepLayout(u, front);
      NextLineKeepsLayout(u, front, last);
    }
  }

  lemma FirstLineKeepsLayout(u: Unicode, line: string)
    requires Tables(u) && Clear(u, line) && '\n' !in line
    ensures ReadsAlike(u, CleanLines(u, [line]), [line])
  {
    LineKeepsLayout(u, line, Start);
    assert [line][..0] == [] && CleanLines(u, []) == [];
    assert CleanLines(u, [line]) == [CleanLine(u, line)];
  }

  lemma NextLineKeepsLayout(u: Unicode, front: seq<string>, last: string)
    requires Tables(u) && |front| > 0 && AllLines(u, front) && Clear(u, last) && '\n' !in last
    requires ReadsAlike(u, CleanLines(u, front), front)
    ensures ReadsAlike(u, CleanLines(u, front + [last]), front + [last])
  {
    var before, line := CleanLines(u, front), CleanLine(u, last);
    var h := AddBreak(Trail(u, Join(front, '\n'), Start));
    CleanNextLine(u, front, last);
    JoinIsClear(u, front, '\n');
    JoinIsClear(u, before, '\n');
    LineKeepsLayout(u, last, h);
    JoinLast(front, last, '\n');
    AfterSeparator(u, Join(front, '\n'), '\n', last, Start);
    JoinLast(before, line, '\n');
    AfterSeparator(u, Join(before, '\n'), '\n', line, Start);
    BreakIsAtBorder(Trail(u, Join(front, '\n'), Start));
  }

  lemma {:induction false} StripStartKeepsLayout(u: Unicode, s: string)
    requires Tables(u) && Clear(u, s)
    ensures Layout(u, StripLeft(u, s), Start) == Layout(u, s, Start) && Clear(u, StripLeft(u, s))
  {
    if s != "" && u.space(s[0]) {
      assert s[0] in s && (forall c <- s[1..] :: c in s);
      ClearMeans(u, s[0]);
      StripStartKeepsLayout(u, s[1..]);
    }
  }

  lemma {:induction false} StripEndKeepsLayout(u: Unicode, s: string, g: Gap)
    requires Tables(u) && Clear(u, s)
    ensures Layout(u, StripRight(u, s), g) == Layout(u, s, g)
  {
    if s != "" && u.space(s[|s| - 1]) {
      var front, c := s[..|s| - 1], s[|s| - 1];
      assert s == front + [c] && c in s && (forall x <- front :: x in s);
      StripEndKeepsLayout(u, front, g);
      LayoutOfParts(u, front, [c], g);
      LayoutOfOne(u, c, Trail(u, front, g));
    }
  }

  lemma CleanKeepsLayout(u: Unicode, s: string)
    requires Tables(u)
    ensures Layout(u, Clean(u, s), Start) == Layout(u, s, Start)
  {
    var sifted := Sift(u, s);
    SiftKeepsLayout(u, s, Start);
    WithoutControlsIs(u, UnixLines(s));
    var lines := Split(sifted, '\n');
    SplitParts(sifted, '\n');
    JoinSplit(sifted, '\n');
    LinesKeepLayout(u, lines);
    var joined := Join(CleanLines(u, lines), '\n');
    JoinIsClear(u, CleanLines(u, lines), '\n');
    StripStartKeepsLayout(u, joined);
    StripEndKeepsLayout(u, StripLeft(u, joined), Start);
  }

  /**
   * Normalising a text keeps every visible character of its NFKC form, in
   * order, and what lies between any two of them: no word is joined or split, no
   * cell border appears or is lost, and line breaks and blank lines stay.
   */
  lemma LayoutSurvives(u: Unicode, text: string)
    requires Tables(u)
    ensures Layout(u, Normalize(u, text), Start) == Layout(u, u.nfkc(text), Start)
  {
    CleanKeepsLayout(u, u.nfkc(text));
  }

  // ----- One line -----

  ghost predicate EmptyFrom(cells: seq<string>, n: nat) {
    forall i | n <= i < |cells| :: cells[i] == ""
  }

  lemma {:induction false} StripTabsDropsEmptyCells(cells: seq<string>) returns (n: nat)
    requires |cells| > 0 && forall i | 0 <= i < |cells| :: '\t' !in cells[i]
    ensures 1 <= n <= |cells| && Split(StripTabs(Join(cells, '\t')), '\t') == cells[..n] && EmptyFrom(cells, n)
  {
    n := |cells|;
    var last, joined := cells[|cells| - 1], Join(cells, '\t');
    SplitJoin(cells, '\t');
    assert cells[..n] == cells;
    if |cells| == 1 {
      assert last != "" ==> last[|last| - 1] in last;
    } else {
      var front := cells[..|cells| - 1];
      assert cells == front + [last];
      JoinLast(front, last, '\t');
      if last == "" {
        assert joined == Join(front, '\t') + ['\t'] && joined[..|joined| - 1] == Join(front, '\t');
        n := StripTabsDropsEmptyCells(front);
        assert cells[..n] == front[..n];
      } else {
        assert joined[|joined| - 1] == last[|last| - 1] && last[|last| - 1] in last;
      }
    }
  }

  /** The cells of a cleaned line are the stripped and collapsed raw cells in order, up to empty cells at the end. */
  lemma LineCells(u: Unicode, line: string) returns (n: nat)
    ensures var raw, cells := Split(line, '\t'), Split(CleanLine(u, line), '\t');
            && 1 <= n <= |raw| && |cells| == n
            && (forall i | 0 <= i < n :: cells[i] == CleanCell(u, raw[i]))
            && (forall i | n <= i < |raw| :: CleanCell(u, raw[i]) == "")
  {
    var raw := Split(line, '\t');
    var cells := CleanCells(u, raw);
    SplitParts(line, '\t');
    forall i | 0 <= i < |cells| ensures '\t' !in cells[i] {
      CleanCellIsTidy(u, raw[i]);
      assert !Blank('\t');
    }
    n := StripTabsDropsEmptyCells(cells);
    assert forall i | 0 <= i < n :: cells[..n][i] == cells[i];
    forall i | n <= i < |raw| ensures CleanCell(u, raw[i]) == "" {
      assert cells[i] == "";
    }
  }

  /** A table row keeps its columns. */
  lemma TableRowWitness(u: Unicode)
    requires Tables(u) && Visible(u, 'a') && Visible(u, 'b') && u.nfkc("a\tb") == "a\tb"
    ensures Layout(u, Normalize(u, "a\tb"), Start) == [('a', Start), ('b', Tabs(1))]
  {
    LayoutSurvives(u, "a\tb");
    FirstOf(u, 'a', "\tb", Start);
    FirstOf(u, '\t', "b", Joined);
    FirstOf(u, 'b', "", Tabs(1));
    assert ['a'] + "\tb" == "a\tb" && ['\t'] + "b" == "\tb" && ['b'] + "" == "b";
  }
}
