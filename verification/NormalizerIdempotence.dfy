/**
 * When normalising a text twice changes nothing, as a condition on the text
 * itself.  Only general laws of NFKC are used: it is a projection, it neither
 * adds nor loses control characters, and white space separates, so that a text
 * is in normal form exactly when the parts around a white-space character are.
 */
module NormalizerIdempotence {
  import opened TextNormalizer

  /** The text is in normalisation form NFKC. */
  predicate Stable(u: Unicode, s: string) {
    u.nfkc(s) == s
  }

  ghost predicate Projects(u: Unicode) {
    forall s: string :: Stable(u, u.nfkc(s))
  }

  ghost predicate KeepsControls(u: Unicode) {
    forall s: string, c: char | u.control(c) :: c in u.nfkc(s) <==> c in s
  }

  function Around(s: string, c: char, t: string): string { s + [c] + t }

  ghost predicate SpaceSeparates(u: Unicode) {
    forall s: string, c: char, t: string | u.space(c) ::
      Stable(u, Around(s, c, t)) <==> Stable(u, s) && Stable(u, [c]) && Stable(u, t)
  }

  /** White space separates, and the white space that the cleaning writes is in normal form itself. */
  ghost predicate Separates(u: Unicode) {
    && (forall c <- " \n\t\r" :: u.space(c) && Stable(u, [c]))
    && SpaceSeparates(u)
  }

  ghost predicate Lawful(u: Unicode) {
    u.Valid() && Projects(u) && KeepsControls(u) && Separates(u)
  }

  /** The laws can be met: on ASCII they hold of the identity. */
  lemma IdentityIsLawful()
    ensures Lawful(Unicode((s: string) => s, (c: char) => c < ' ' || c == '\U{007F}', (c: char) => c in " \n\t\r\U{000B}\U{000C}"))
  {
  }

  /** A control character that the normaliser deletes. */
  predicate Deleted(u: Unicode, c: char) {
    c != '\r' && !Kept(u, c)
  }

  function WithoutDeleted(u: Unicode, s: string): string {
    if s == "" then "" else (if Deleted(u, s[0]) then "" else [s[0]]) + WithoutDeleted(u, s[1..])
  }

  lemma {:induction false} NothingDeleted(u: Unicode, s: string)
    requires forall c <- s :: !Deleted(u, c)
    ensures WithoutDeleted(u, s) == s
  {
    if s != "" {
      NothingDeleted(u, s[1..]);
      assert s == [s[0]] + s[1..];
    }
  }

  // ----- Consequences of the laws -----

  lemma Cut(u: Unicode, s: string, c: char, t: string)
    requires Separates(u) && u.space(c)
    ensures Stable(u, s + [c] + t) <==> Stable(u, s) && Stable(u, [c]) && Stable(u, t)
  {
    assert Stable(u, Around(s, c, t)) <==> Stable(u, s) && Stable(u, [c]) && Stable(u, t);
  }

  lemma EmptyIsStable(u: Unicode)
    requires Separates(u)
    ensures Stable(u, "")
  {
    Cut(u, "", ' ', "");
    assert "" + [' '] + "" == " ";
  }

  lemma CutFirst(u: Unicode, c: char, t: string)
    requires Separates(u) && u.space(c)
    ensures Stable(u, [c] + t) <==> Stable(u, [c]) && Stable(u, t)
  {
    EmptyIsStable(u);
    Cut(u, "", c, t);
    assert "" + [c] + t == [c] + t;
  }

  lemma CutLast(u: Unicode, s: string, c: char)
    requires Separates(u) && u.space(c)
    ensures Stable(u, s + [c]) <==> Stable(u, s) && Stable(u, [c])
  {
    EmptyIsStable(u);
    Cut(u, s, c, "");
    assert s + [c] + "" == s + [c];
  }

  /** White space that NFKC leaves alone. */
  ghost predicate Plain(u: Unicode, s: string) {
    forall c <- s :: u.space(c) ==> Stable(u, [c])
  }

  lemma StableIsPlain(u: Unicode, s: string)
    requires Separates(u) && Stable(u, s)
    ensures Plain(u, s)
  {
    forall c | c in s && u.space(c) ensures Stable(u, [c]) {
      var i :| 0 <= i < |s| && s[i] == c;
      assert s == s[..i] + [c] + s[i + 1..];
      Cut(u, s[..i], c, s[i + 1..]);
    }
  }

  // ----- No step of the cleaning makes or breaks stability -----

  lemma {:induction false} StripLeftKeepsStability(u: Unicode, s: string)
    requires Separates(u) && Plain(u, s)
    ensures Stable(u, StripLeft(u, s)) <==> Stable(u, s)
    ensures forall c <- StripLeft(u, s) :: c in s
  {
    if s != "" && u.space(s[0]) {
      assert s == [s[0]] + s[1..];
      CutFirst(u, s[0], s[1..]);
      StripLeftKeepsStability(u, s[1..]);
    }
  }

  lemma {:induction false} StripRightKeepsStability(u: Unicode, s: string)
    requires Separates(u) && Plain(u, s)
    ensures Stable(u, StripRight(u, s)) <==> Stable(u, s)
  {
    if s != "" && u.space(s[|s| - 1]) {
      var front := s[..|s| - 1];
      assert s == front + [s[|s| - 1]];
      CutLast(u, front, s[|s| - 1]);
      StripRightKeepsStability(u, front);
    }
  }

  lemma StripKeepsStability(u: Unicode, s: string)
    requires Separates(u) && Plain(u, s)
    ensures Stable(u, Strip(u, s)) <==> Stable(u, s)
  {
    StripLeftKeepsStability(u, s);
    StripRightKeepsStability(u, StripLeft(u, s));
  }

  lemma {:induction false} StripTabsKeepsStability(u: Unicode, s: string)
    requires Separates(u)
    ensures Stable(u, StripTabs(s)) <==> Stable(u, s)
  {
    if s != "" && s[|s| - 1] == '\t' {
      var front := s[..|s| - 1];
      assert s == front + ['\t'];
      CutLast(u, front, '\t');
      StripTabsKeepsStability(u, front);
    }
  }

  lemma Regroup(a: string, b: string, c: string)
    ensures a + (b + c) == a + b + c
  {
  }

  /** Whatever stands before it, a run of spaces may be collapsed. */
  lemma {:induction false} CollapseKeepsStability(u: Unicode, before: string, s: string)
    requires Separates(u) && forall c <- s :: Blank(c) ==> c == ' '
    ensures Stable(u, before + Collapse(s)) <==> Stable(u, before + s)
    decreases |s|
  {
    if s != "" {
      var rest := s[1..];
      assert s == [s[0]] + rest;
      if !Blank(s[0]) {
        CollapseKeepsStability(u, before + [s[0]], rest);
        Regroup(before, [s[0]], rest);
        Regroup(before, [s[0]], Collapse(rest));
      } else {
        Regroup(before, [' '], rest);
        if |s| > 1 && Blank(s[1]) {
          CollapseKeepsStability(u, before, rest);
          assert rest == [' '] + rest[1..];
          OneOfTwoSpaces(u, before, rest[1..]);
        } else {
          CollapseKeepsStability(u, "", rest);
          assert "" + rest == rest && "" + Collapse(rest) == Collapse(rest);
          Regroup(before, [' '], Collapse(rest));
          SameAfterSpace(u, before, rest, Collapse(rest));
        }
      }
    }
  }

  lemma SameAfterSpace(u: Unicode, before: string, s: string, t: string)
    requires Separates(u) && (Stable(u, s) <==> Stable(u, t))
    ensures Stable(u, before + [' '] + s) <==> Stable(u, before + [' '] + t)
  {
    Cut(u, before, ' ', s);
    Cut(u, before, ' ', t);
  }

  lemma OneOfTwoSpaces(u: Unicode, before: string, s: string)
    requires Separates(u)
    ensures Stable(u, before + ([' '] + s)) <==> Stable(u, before + [' '] + ([' '] + s))
  {
    assert before + ([' '] + s) == before + [' '] + s;
    CutFirst(u, ' ', s);
    SameAfterSpace(u, before, s, [' '] + s);
  }

  ghost predicate AllStable(u: Unicode, parts: seq<string>) {
    forall i | 0 <= i < |parts| :: Stable(u, parts[i])
  }

  lemma {:induction false} JoinIsStable(u: Unicode, parts: seq<string>, sep: char)
    requires Separates(u) && |parts| > 0 && sep in {'\t', '\n'}
    ensures Stable(u, Join(parts, sep)) <==> AllStable(u, parts)
  {
    if |parts| > 1 {
      JoinIsStable(u, parts[1..], sep);
      Cut(u, parts[0], sep, Join(parts[1..], sep));
      assert parts == [parts[0]] + parts[1..];
    }
  }

  /** What is left once line ends are unified and controls deleted. */
  ghost predicate Sifted(u: Unicode, s: string) {
    Plain(u, s) && forall c <- s :: Kept(u, c)
  }

  lemma CellKeepsStability(u: Unicode, cell: string)
    requires u.Valid() && Separates(u) && Sifted(u, cell)
    ensures Stable(u, CleanCell(u, cell)) <==> Stable(u, cell)
  {
    CollapseKeepsStability(u, "", cell);
    assert "" + cell == cell && "" + Collapse(cell) == Collapse(cell);
    CollapseCollapses(cell);
    StripKeepsStability(u, Collapse(cell));
  }

  lemma LineKeepsStability(u: Unicode, line: string)
    requires u.Valid() && Separates(u) && Sifted(u, line)
    ensures Stable(u, CleanLine(u, line)) <==> Stable(u, line)
  {
    var raw := Split(line, '\t');
    var cells := CleanCells(u, raw);
    SplitParts(line, '\t');
    forall i | 0 <= i < |raw| ensures Stable(u, cells[i]) <==> Stable(u, raw[i]) {
      CellKeepsStability(u, raw[i]);
    }
    JoinSplit(line, '\t');
    JoinIsStable(u, raw, '\t');
    JoinIsStable(u, cells, '\t');
    assert AllStable(u, cells) <==> AllStable(u, raw);
    StripTabsKeepsStability(u, Join(cells, '\t'));
  }

  lemma AllStableNext(u: Unicode, parts: seq<string>, last: string)
    ensures AllStable(u, parts + [last]) <==> AllStable(u, parts) && Stable(u, last)
  {
    var all := parts + [last];
    assert all[|parts|] == last && forall i | 0 <= i < |parts| :: all[i] == parts[i];
  }

  lemma {:induction false} LinesKeepStability(u: Unicode, lines: seq<string>)
    requires u.Valid() && Separates(u) && forall i | 0 <= i < |lines| :: Sifted(u, lines[i])
    ensures AllStable(u, CleanLines(u, lines)) <==> AllStable(u, lines)
    ensures forall i | 0 <= i < |CleanLines(u, lines)| :: Plain(u, CleanLines(u, lines)[i])
  {
    if lines != [] {
      var front, last := lines[..|lines| - 1], lines[|lines| - 1];
      LinesKeepStability(u, front);
      LineKeepsStability(u, last);
      CleanLineCharacters(u, last);
      EmptyIsStable(u);
      assert lines == front + [last];
      AllStableNext(u, front, last);
      AllStableNext(u, CleanLines(u, front), CleanLine(u, last));
    }
  }

  function Sift(u: Unicode, s: string): string {
    WithoutControls(u, UnixLines(s))
  }

  /** The text after a carriage return and the line feed that may belong to it. */
  function AfterReturn(s: string): string
    requires s != ""
  {
    if |s| > 1 && s[1] == '\n' then s[2..] else s[1..]
  }

  function FirstKept(u: Unicode, s: string): string
    requires s != ""
  {
    if Deleted(u, s[0]) then "" else [s[0]]
  }

  lemma SiftNext(u: Unicode, s: string)
    requires s != ""
    ensures s[0] == '\r' ==> Sift(u, s) == ['\n'] + Sift(u, AfterReturn(s))
    ensures s[0] != '\r' ==> Sift(u, s) == FirstKept(u, s) + Sift(u, s[1..])
  {
    if s[0] == '\r' {
      assert UnixLines(s) == ['\n'] + UnixLines(AfterReturn(s));
      assert UnixLines(s)[1..] == UnixLines(AfterReturn(s));
    } else {
      assert UnixLines(s)[1..] == UnixLines(s[1..]);
    }
  }

  lemma SiftOther(u: Unicode, before: string, s: string)
    requires s != "" && s[0] != '\r'
    ensures before + Sift(u, s) == before + FirstKept(u, s) + Sift(u, s[1..])
    ensures before + WithoutDeleted(u, s) == before + FirstKept(u, s) + WithoutDeleted(u, s[1..])
  {
    SiftNext(u, s);
    Regroup(before, FirstKept(u, s), Sift(u, s[1..]));
    Regroup(before, FirstKept(u, s), WithoutDeleted(u, s[1..]));
  }

  lemma ReturnKeepsStability(u: Unicode, before: string, s: string)
    requires Separates(u) && s != "" && s[0] == '\r'
    requires Stable(u, Sift(u, AfterReturn(s))) <==> Stable(u, WithoutDeleted(u, AfterReturn(s)))
    ensures Stable(u, before + Sift(u, s)) <==> Stable(u, before + WithoutDeleted(u, s))
  {
    var tail, bare := AfterReturn(s), WithoutDeleted(u, s[1..]);
    SiftNext(u, s);
    assert before + Sift(u, s) == before + ['\n'] + Sift(u, tail);
    Cut(u, before, '\n', Sift(u, tail));
    assert before + WithoutDeleted(u, s) == before + ['\r'] + bare;
    Cut(u, before, '\r', bare);
    if tail != s[1..] {
      assert s[1..][1..] == tail && bare == ['\n'] + WithoutDeleted(u, tail);
      CutFirst(u, '\n', WithoutDeleted(u, tail));
    }
  }

  /** Unifying line ends makes no difference either. */
  lemma {:induction false} SiftKeepsStability(u: Unicode, before: string, s: string)
    requires Separates(u)
    ensures Stable(u, before + Sift(u, s)) <==> Stable(u, before + WithoutDeleted(u, s))
    decreases |s|
  {
    if s != "" {
      if s[0] == '\r' {
        var tail := AfterReturn(s);
        SiftKeepsStability(u, "", tail);
        assert "" + Sift(u, tail) == Sift(u, tail) && "" + WithoutDeleted(u, tail) == WithoutDeleted(u, tail);
        ReturnKeepsStability(u, before, s);
      } else {
        SiftOther(u, before, s);
        SiftKeepsStability(u, before + FirstKept(u, s), s[1..]);
      }
    }
  }

  lemma SiftedText(u: Unicode, s: string)
    requires Lawful(u) && Plain(u, s)
    ensures Sifted(u, Sift(u, s))
  {
    UnixLinesCharacters(s);
    WithoutControlsIs(u, UnixLines(s));
  }

  /** The cleaned text is in normal form exactly when deleting the control characters leaves it in normal form. */
  lemma CleanKeepsStability(u: Unicode, s: string)
    requires Lawful(u) && Plain(u, s)
    ensures Stable(u, Clean(u, s)) <==> Stable(u, WithoutDeleted(u, s))
  {
    var sifted := Sift(u, s);
    SiftKeepsStability(u, "", s);
    assert "" + sifted == sifted && "" + WithoutDeleted(u, s) == WithoutDeleted(u, s);
    SiftedText(u, s);
    var lines := Split(sifted, '\n');
    SplitParts(sifted, '\n');
    JoinSplit(sifted, '\n');
    JoinIsStable(u, lines, '\n');
    LinesKeepStability(u, lines);
    CleanLinesNonEmpty(u, lines);
    var cleaned := CleanLines(u, lines);
    JoinIsStable(u, cleaned, '\n');
    JoinCharacters(cleaned, '\n');
    assert Plain(u, Join(cleaned, '\n'));
    StripKeepsStability(u, Join(cleaned, '\n'));
  }

  // ----- Idempotence -----

  lemma CleanDeletesNothingMore(u: Unicode, s: string)
    requires Lawful(u)
    ensures forall c <- Clean(u, s) :: Kept(u, c)
  {
    CleanIsTidy(u, s);
    var text := Clean(u, s);
    var lines := Split(text, '\n');
    JoinSplit(text, '\n');
    JoinCharacters(lines, '\n');
    forall c | c in text ensures Kept(u, c) {
      if c != '\n' {
        var i :| 0 <= i < |lines| && c in lines[i];
        assert TidyLine(u, lines[i]);
      }
    }
  }

  /**
   * Normalising twice changes nothing if and only if deleting the control
   * characters from the NFKC form of the text leaves it in NFKC form.
   */
  lemma IdempotentExactlyWhenDeletionKeepsForm(u: Unicode, text: string)
    requires Lawful(u)
    ensures Normalize(u, Normalize(u, text)) == Normalize(u, text) <==> Stable(u, WithoutDeleted(u, u.nfkc(text)))
  {
    var once := Normalize(u, text);
    StableIsPlain(u, u.nfkc(text));
    CleanKeepsStability(u, u.nfkc(text));
    CleanIsTidy(u, u.nfkc(text));
    TidyTextIsKept(u, once);
    CleanDeletesNothingMore(u, u.nfkc(text));
    var again := u.nfkc(once);
    NothingDeleted(u, again) by {
      forall c | c in again ensures !Deleted(u, c) {
        assert u.control(c) ==> c in once;
      }
    }
    StableIsPlain(u, again);
    CleanKeepsStability(u, again);
  }

  /** In particular whenever the text holds no control character that is deleted. */
  lemma IdempotentWithoutControls(u: Unicode, text: string)
    requires Lawful(u) && forall c <- text :: !Deleted(u, c)
    ensures Normalize(u, Normalize(u, text)) == Normalize(u, text)
  {
    forall c | c in u.nfkc(text) ensures !Deleted(u, c) {
      assert u.control(c) ==> c in text;
    }
    NothingDeleted(u, u.nfkc(text));
    IdempotentExactlyWhenDeletionKeepsForm(u, text);
  }
}
