/** What the cleaning pass makes of a text, told from its own lines and characters. */
module ImportCleaning {
  import opened Basics
  import opened Whitespace
  import opened ImportText
  import opened ImportPost
  import opened ImportPostFacts

  // ---- Macros ----

  predicate IsName(name: string) {
    name != "" && forall i :: 0 <= i < |name| ==>
      var c := name[i]; 'a' <= c <= 'z' || 'A' <= c <= 'Z' || '0' <= c <= '9' || c == '-' || c == '_'
  }

  predicate IsNumber(volume: string) {
    volume != "" && forall i :: 0 <= i < |volume| ==> '0' <= volume[i] <= '9'
  }

  /** The text starts with a macro: its brackets are both escaped or both bare. */
  predicate Spells(text: string, name: string, volume: string, escaped: bool, rest: string) {
    && IsName(name) && IsNumber(volume)
    && text == "linkgit:" + name + (if escaped then "\\[" + volume + "\\]" else "[" + volume + "]") + rest
  }

  ghost predicate StartsMacro(text: string) {
    exists name, volume, escaped, rest :: Spells(text, name, volume, escaped, rest)
  }

  function OpeningOf(escaped: bool): string {
    if escaped then "\\[" else "["
  }

  function ClosingOf(escaped: bool): string {
    if escaped then "\\]" else "]"
  }

  lemma NameIs(text: string, n: nat)
    requires n < |text| && (forall i :: 0 <= i < n ==> NameChar(text[i])) && !NameChar(text[n])
    ensures NameLength(text) == n
  {
    hide NameChar;
  }

  lemma OpeningIs(escaped: bool, rest: string)
    requires rest != "" && rest[0] != '['
    ensures Opening(OpeningOf(escaped) + rest) == OpeningOf(escaped)
    ensures Closing(OpeningOf(escaped)) == ClosingOf(escaped)
    ensures !NameChar((OpeningOf(escaped) + rest)[0])
  {
    var text := OpeningOf(escaped) + rest;
    assert text[..|OpeningOf(escaped)|] == OpeningOf(escaped);
    assert text[0] == OpeningOf(escaped)[0];
  }

  lemma StartDiffers(text: string, mark: string)
    requires text != "" && mark != "" && text[0] != mark[0]
    ensures !StartsWith(text, mark)
  {
    if |mark| <= |text| { assert text[..|mark|][0] == text[0]; }
  }

  lemma VolumeIs(volume: string, escaped: bool, rest: string)
    requires IsNumber(volume)
    ensures Position(volume + ClosingOf(escaped) + rest, ClosingOf(escaped)) == Some(|volume|)
  {
    var text, mark := volume + ClosingOf(escaped) + rest, ClosingOf(escaped);
    assert text[|volume|..] == mark + rest && (mark + rest)[..|mark|] == mark;
    forall i | 0 <= i < |volume| ensures !StartsWith(text[i..], mark) {
      assert text[i..][0] == volume[i];
      StartDiffers(text[i..], mark);
    }
    PositionIs(text, mark, |volume|);
  }

  lemma MacroSpelled(text: string, name: string, volume: string, escaped: bool, rest: string)
    requires Spells(text, name, volume, escaped, rest)
    ensures MacroAt(text) == Some(Macro(name, volume, |name| + |volume| + if escaped then 4 else 2))
  {
    hide Match, IsName, IsNumber;
    var spelled := name + (OpeningOf(escaped) + (volume + ClosingOf(escaped) + rest));
    assert text == MACRO + spelled;
    Prefixed(MACRO, spelled);
    BracketsMatch(name, volume, escaped, rest);
  }

  lemma Prefixed(prefix: string, rest: string)
    ensures StartsWith(prefix + rest, prefix)
    ensures (prefix + rest)[|prefix|..] == rest && (prefix + rest)[..|prefix|] == prefix
    ensures forall i :: 0 <= i < |prefix| ==> (prefix + rest)[i] == prefix[i]
    ensures rest != "" ==> (prefix + rest)[|prefix|] == rest[0]
  {
  }

  lemma BracketsMatch(name: string, volume: string, escaped: bool, rest: string)
    requires IsName(name) && IsNumber(volume)
    ensures Match(name + (OpeningOf(escaped) + (volume + ClosingOf(escaped) + rest))) ==
      Some(Macro(name, volume, |name| + |volume| + if escaped then 4 else 2))
  {
    hide Match, Position, Opening, Closing, NameLength, NameChar, StartsWith;
    var opening, closing := OpeningOf(escaped), ClosingOf(escaped);
    var payload := volume + closing + rest;
    var spelled := name + (opening + payload);
    OpeningIs(escaped, payload);
    VolumeIs(volume, escaped, rest);
    Prefixed(name, opening + payload);
    Prefixed(opening, payload);
    Prefixed(volume, closing + rest);
    assert payload == volume + (closing + rest);
    assert spelled == name + opening + payload;
    Prefixed(name + opening, payload);
    NamesAreNameChars(name);
    NameIs(spelled, |name|);
    MatchIs(spelled, |name|, opening, payload, volume);
  }

  lemma NamesAreNameChars(name: string)
    ensures IsName(name) <==> name != "" && forall i :: 0 <= i < |name| ==> NameChar(name[i])
  {
  }

  lemma MacroIsSpelled(text: string)
    requires MacroAt(text).Some?
    ensures StartsMacro(text)
  {
    hide Match, Position, NameLength, Opening, Closing, NameChar, StartsMacro, IsName;
    var spelled := text[|MACRO|..];
    MatchSpelled(spelled);
    MatchFits(spelled);
    MatchPieces(spelled);
    var m, opening := MacroAt(text).value, Opening(spelled[NameLength(spelled)..]);
    NamesAreNameChars(m.name);
    assert text == MACRO + spelled && spelled == spelled[..m.length] + spelled[m.length..];
    PiecesStart(text, m.name, m.volume, spelled[|m.name|..], spelled[m.length..]);
  }

  lemma PiecesStart(text: string, name: string, volume: string, behind: string, rest: string)
    requires IsName(name) && IsNumber(volume) && Opening(behind) != ""
    requires text == MACRO + (name + Opening(behind) + volume + Closing(Opening(behind)) + rest)
    ensures StartsMacro(text)
  {
    hide IsName, IsNumber;
    var escaped := Opening(behind) == "\\[";
    assert text == "linkgit:" + name + (if escaped then "\\[" + volume + "\\]" else "[" + volume + "]") + rest;
    assert Spells(text, name, volume, escaped, rest);
  }

  /** A macro comes out as its name and volume in backticks, and the line goes on behind it. */
  lemma MacroIsRendered(text: string, name: string, volume: string, escaped: bool, rest: string)
    requires Spells(text, name, volume, escaped, rest)
    ensures Strip(text) == "`" + name + "(" + volume + ")`" + Strip(rest)
  {
    hide MacroAt, Strip;
    MacroSpelled(text, name, volume, escaped, rest);
    StripUnfolds(text);
    var n := |MACRO| + |name| + |volume| + if escaped then 4 else 2;
    assert text[n..] == rest;
  }

  /** Any other character comes out as it stands. */
  lemma CharIsCopied(text: string)
    requires text != "" && !StartsMacro(text)
    ensures Strip(text) == [text[0]] + Strip(text[1..])
  {
    hide MacroAt, Strip, StartsMacro;
    if MacroAt(text).Some? { MacroIsSpelled(text); }
    StripUnfolds(text);
  }

  // ---- Lines ----

  /** A comment on a line of its own, blanks around it aside, that opens with the converter's warning. */
  ghost predicate WarningComment(line: string) {
    && (exists x :: 0 <= x <= |line| - 13 && IsBlank(line[..x]) && line[x..x + 13] == "<!-- Warning:")
    && (exists y :: 3 <= y <= |line| && line[y - 3..y] == "-->" && IsBlank(line[y..]))
  }

  lemma WarningIff(line: string)
    ensures IsWarning(line) <==> WarningComment(line)
  {
    hide TrimStart, TrimEnd, StartsWith, EndsWith, IsBlank;
    if IsWarning(line) {
      var x := OpensWarning(line);
      var y := ClosesWarning(line);
    }
    if WarningComment(line) {
      var x :| 0 <= x <= |line| - 13 && IsBlank(line[..x]) && line[x..x + 13] == "<!-- Warning:";
      var y :| 3 <= y <= |line| && line[y - 3..y] == "-->" && IsBlank(line[y..]);
      OpenedWarning(line, x);
      ClosedWarning(line, y);
    }
  }

  /** The nearest line above that is no warning is blank. */
  ghost predicate BelowGap(lines: seq<string>, i: nat)
    requires i <= |lines|
  {
    exists j :: 0 <= j < i && IsBlank(lines[j]) && forall k :: j < k < i ==> WarningComment(lines[k])
  }

  ghost predicate Stays(lines: seq<string>, i: nat)
    requires i < |lines|
  {
    !WarningComment(lines[i]) && !(IsBlank(lines[i]) && BelowGap(lines, i))
  }

  /** The first `n` lines without warnings and without a second blank line in a row, macros rendered. */
  ghost function Cleaned(lines: seq<string>, n: nat): seq<string>
    requires n <= |lines|
  {
    if n == 0 then [] else Cleaned(lines, n - 1) + if Stays(lines, n - 1) then [Strip(lines[n - 1])] else []
  }

  predicate EndsBlank(lines: seq<string>) {
    lines != [] && IsBlank(lines[|lines| - 1])
  }

  lemma {:induction false} CollapsedSnoc(lines: seq<string>, line: string, previousBlank: bool)
    ensures Collapsed(lines + [line], previousBlank) == Collapsed(lines, previousBlank) +
      if IsBlank(line) && (if lines == [] then previousBlank else EndsBlank(lines)) then [] else [line]
  {
    hide IsBlank;
    if lines == [] {
      assert [] + [line] == [line] && [line][1..] == [];
    } else {
      assert (lines + [line])[1..] == lines[1..] + [line];
      CollapsedSnoc(lines[1..], line, IsBlank(lines[0]));
    }
  }

  lemma {:induction false} KeptSnoc(lines: seq<string>, line: string)
    ensures Stripped(WithoutWarnings(lines + [line])) ==
      Stripped(WithoutWarnings(lines)) + if IsWarning(line) then [] else [Strip(line)]
  {
    hide IsWarning, Strip, Stripped, WithoutWarnings;
    StrippedCons(line, []);
    NothingAtAll();
    if lines == [] {
      assert [] + [line] == [line] && [line] + [] == [line];
    } else {
      assert lines + [line] == [lines[0]] + (lines[1..] + [line]) && lines == [lines[0]] + lines[1..];
      KeptSnoc(lines[1..], line);
      StrippedCons(lines[0], lines[1..]);
      StrippedCons(lines[0], lines[1..] + [line]);
    }
  }

  lemma StripKeepsBlank(line: string)
    ensures IsBlank(Strip(line)) <==> IsBlank(line)
  {
    StripBlankness(line);
  }

  lemma {:induction false} StripBlankness(line: string)
    ensures IsBlank(Strip(line)) <==> IsBlank(line)
    decreases |line|
  {
    hide MacroAt, Strip, Render;
    if line == "" {
      EmptyLine(line);
    } else {
      StripUnfolds(line);
      if MacroAt(line).Some? {
        MacroStarts(line);
        RenderTicks(MacroAt(line).value);
        SolidStart(line);
        SolidStart(Strip(line));
      } else {
        StripBlankness(line[1..]);
        BlankCons(line);
        BlankCons(Strip(line));
        assert Strip(line)[1..] == Strip(line[1..]);
      }
    }
  }

  lemma SolidStart(text: string)
    requires text != "" && (text[0] == 'l' || text[0] == '`')
    ensures !IsBlank(text)
  {
  }

  lemma BlankCons(text: string)
    requires text != ""
    ensures IsBlank(text) <==> IsWhite(text[0]) && IsBlank(text[1..])
  {
    assert text == [text[0]] + text[1..];
  }

  lemma GapNext(lines: seq<string>, i: nat)
    requires i < |lines|
    ensures BelowGap(lines, i + 1) <==> IsBlank(lines[i]) || (WarningComment(lines[i]) && BelowGap(lines, i))
    ensures !BelowGap(lines, 0)
  {
    hide IsBlank, WarningComment;
    if BelowGap(lines, i + 1) {
      var j :| 0 <= j < i + 1 && IsBlank(lines[j]) && forall k :: j < k < i + 1 ==> WarningComment(lines[k]);
      if j < i { assert WarningComment(lines[i]); }
    }
    if WarningComment(lines[i]) && BelowGap(lines, i) {
      var j :| 0 <= j < i && IsBlank(lines[j]) && forall k :: j < k < i ==> WarningComment(lines[k]);
      assert forall k :: j < k < i + 1 ==> WarningComment(lines[k]);
    }
  }

  lemma {:induction false} CleanedUpTo(lines: seq<string>, n: nat)
    requires n <= |lines|
    ensures var kept := Stripped(WithoutWarnings(lines[..n]));
      Collapsed(kept, false) == Cleaned(lines, n) && (EndsBlank(kept) <==> BelowGap(lines, n))
    decreases n
  {
    hide IsWarning, WarningComment, Strip, IsBlank, Stripped, WithoutWarnings, Collapsed, BelowGap;
    if n == 0 {
      NothingAtAll();
      CollapsedNothing();
      assert lines[..0] == [];
      if lines != [] { GapNext(lines, 0); } else { NoGap(lines); }
    } else {
      var line := lines[n - 1];
      CleanedUpTo(lines, n - 1);
      assert lines[..n] == lines[..n - 1] + [line];
      KeptSnoc(lines[..n - 1], line);
      WarningIff(line);
      StripKeepsBlank(line);
      GapNext(lines, n - 1);
      CollapsedSnoc(Stripped(WithoutWarnings(lines[..n - 1])), Strip(line), false);
      BlankIsNoWarning(line);
      NothingAdded(Stripped(WithoutWarnings(lines[..n - 1])), Strip(line));
      NothingAdded(Cleaned(lines, n - 1), Strip(line));
    }
  }

  lemma NothingAdded(lines: seq<string>, line: string)
    ensures lines + [] == lines && (EndsBlank(lines + [line]) <==> IsBlank(line))
  {
  }

  lemma NoGap(lines: seq<string>)
    ensures !BelowGap(lines, 0)
  {
  }

  lemma CollapsedNothing()
    ensures Collapsed([], false) == []
  {
  }

  lemma BlankIsNoWarning(line: string)
    ensures WarningComment(line) ==> !IsBlank(line)
  {
    if x :| 0 <= x <= |line| - 13 && IsBlank(line[..x]) && line[x..x + 13] == "<!-- Warning:" {
      assert line[x] == line[x..x + 13][0];
    }
  }

  /**
    The pass keeps, in their order and with macros rendered, exactly the lines that are neither a warning nor a
    blank line below another with at most warnings between.
  */
  lemma PostSelects(lines: seq<string>)
    ensures Post(lines) == Cleaned(lines, |lines|)
  {
    hide *;
    CleanedUpTo(lines, |lines|);
    PostIs(lines);
    assert lines[..|lines|] == lines;
  }

  // ---- Texts ----

  /** Splitting cuts at the newlines and nowhere else: the lines, each ended again, are the text, ended. */
  lemma {:induction false} SplitCuts(text: string)
    ensures LinesToText(Split(text)) == text + if text == "" || text[|text| - 1] == '\n' then "" else "\n"
    decreases |text|
  {
    hide LinesToText, Split;
    SplitStep(text);
    if text != "" {
      var rest := text[1..];
      SplitCuts(rest);
      if text[0] == '\n' {
        TextCons("", Split(rest));
        assert text == "" + "\n" + rest;
      } else if |text| == 1 {
        OneLineText([text[0]]);
      } else if text[1] == '\n' {
        SplitCuts(text[2..]);
        TextCons([text[0]], Split(text[2..]));
        assert text == [text[0]] + "\n" + text[2..];
      } else {
        NoLines(Split(rest));
        TextLonger(text[0], Split(rest));
        assert [text[0]] + rest == text;
      }
    } else {
      NoText();
    }
  }

  lemma SplitStep(text: string)
    ensures text == "" ==> Split(text) == []
    ensures text != "" && text[0] == '\n' ==> Split(text) == [""] + Split(text[1..])
    ensures |text| == 1 && text[0] != '\n' ==> Split(text) == [[text[0]]]
    ensures |text| > 1 && text[0] != '\n' && text[1] == '\n' ==> Split(text) == [[text[0]]] + Split(text[2..])
    ensures |text| > 1 && text[0] != '\n' && text[1] != '\n' && Split(text[1..]) != [] ==>
      Split(text) == [[text[0]] + Split(text[1..])[0]] + Split(text[1..])[1..]
  {
  }

  lemma TextCons(line: string, lines: seq<string>)
    ensures LinesToText([line] + lines) == line + "\n" + LinesToText(lines)
  {
    assert ([line] + lines)[1..] == lines;
  }

  lemma TextLonger(c: char, lines: seq<string>)
    requires lines != []
    ensures LinesToText([[c] + lines[0]] + lines[1..]) == [c] + LinesToText(lines)
  {
    hide LinesToText;
    TextCons([c] + lines[0], lines[1..]);
    TextCons(lines[0], lines[1..]);
    assert lines == [lines[0]] + lines[1..];
  }

  lemma OneLineText(line: string)
    ensures LinesToText([line]) == line + "\n"
  {
  }

  lemma NoLines(lines: seq<string>)
    ensures LinesToText(lines) != "" ==> lines != []
  {
  }

  lemma LinesAreTheText(text: string)
    ensures LinesToText(TextToLines(text)) == text + if text == "" || text[|text| - 1] == '\n' then "" else "\n"
    ensures forall i :: 0 <= i < |TextToLines(text)| ==> OneLine(TextToLines(text)[i])
  {
    hide Split, OneLine;
    SplitCuts(text);
    LinesAreLines(text);
  }
}
