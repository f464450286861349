/** Lines of a text as the importer splits and joins them. Carriage returns do not occur. */
module ImportText {
  import opened Whitespace

  predicate StartsWith(text: string, prefix: string) {
    |prefix| <= |text| && text[..|prefix|] == prefix
  }

  predicate EndsWith(text: string, suffix: string) {
    |suffix| <= |text| && text[|text| - |suffix|..] == suffix
  }

  predicate OneLine(line: string) {
    forall i :: 0 <= i < |line| ==> line[i] != '\n'
  }

  /** Split at every newline; a final newline opens no further line. */
  function TextToLines(text: string): seq<string> {
    if text == "" then [] else Split(text)
  }

  function Split(text: string): seq<string> {
    if text == "" then []
    else if text[0] == '\n' then [""] + Split(text[1..])
    else if |text| == 1 || text[1] == '\n' then [[text[0]]] + (if |text| == 1 then [] else Split(text[2..]))
    else
      var rest := Split(text[1..]);
      if rest == [] then [[text[0]]] else [[text[0]] + rest[0]] + rest[1..]
  }

  /** Every line followed by a newline. */
  function LinesToText(lines: seq<string>): string {
    if lines == [] then "" else lines[0] + "\n" + LinesToText(lines[1..])
  }

  lemma {:induction false} SplitLine(line: string, rest: string)
    requires OneLine(line)
    ensures Split(line + "\n" + rest) == [line] + Split(rest)
  {
    var text := line + "\n" + rest;
    if line == "" {
      assert text == "\n" + rest && text[1..] == rest;
    } else if |line| == 1 {
      assert text[1] == '\n' && text[2..] == rest && [text[0]] == line;
    } else {
      assert text[1..] == line[1..] + "\n" + rest && text[1] == line[1] != '\n';
      SplitLine(line[1..], rest);
      assert [text[0]] + line[1..] == line;
      assert ([line[1..]] + Split(rest))[1..] == Split(rest);
    }
  }

  lemma {:induction false} LinesOfLines(lines: seq<string>)
    requires forall i :: 0 <= i < |lines| ==> OneLine(lines[i])
    ensures TextToLines(LinesToText(lines)) == lines
  {
    if lines != [] {
      LinesOfLines(lines[1..]);
      SplitLine(lines[0], LinesToText(lines[1..]));
    }
  }

  lemma NoText()
    ensures LinesToText([]) == ""
  {
  }

  lemma {:induction false} PushLine(lines: seq<string>, line: string)
    ensures LinesToText(lines + [line]) == LinesToText(lines) + line + "\n"
  {
    if lines == [] {
      assert [] + [line] == [line];
    } else {
      assert (lines + [line])[1..] == lines[1..] + [line];
      PushLine(lines[1..], line);
    }
  }

  /** The lines that hold more than whitespace. */
  function Solid(lines: seq<string>): seq<string> {
    if lines == [] then [] else (if IsBlank(lines[0]) then [] else [lines[0]]) + Solid(lines[1..])
  }

  lemma {:induction false} SolidAppend(a: seq<string>, b: seq<string>)
    ensures Solid(a + b) == Solid(a) + Solid(b)
  {
    if a == [] {
      assert a + b == b;
    } else {
      assert (a + b)[1..] == a[1..] + b;
      SolidAppend(a[1..], b);
    }
  }
}

/** Cleaning the converter's markdown: warning comments, manual-page macros, runs of blank lines. */
module ImportPost {
  import opened Basics
  import opened Whitespace
  import opened ImportText

  const WARNING: string := "<!-- Warning:"
  const WARNING_END: string := "-->"
  const MACRO: string := "linkgit:"

  predicate IsWarning(line: string) {
    StartsWith(TrimStart(line), WARNING) && EndsWith(TrimEnd(line), WARNING_END)
  }

  // ---- Macros ----

  predicate NameChar(c: char) {
    'a' <= c <= 'z' || 'A' <= c <= 'Z' || '0' <= c <= '9' || c == '-' || c == '_'
  }

  predicate IsDigit(c: char) {
    '0' <= c <= '9'
  }

  function NameLength(text: string): (n: nat)
    ensures n <= |text| && (n < |text| ==> !NameChar(text[n]))
    ensures forall i :: 0 <= i < n ==> NameChar(text[i])
  {
    if text != "" && NameChar(text[0]) then
      var n := NameLength(text[1..]);
      assert forall i :: 1 <= i < n + 1 ==> text[i] == text[1..][i - 1];
      1 + n
    else 0
  }

  /** First position of `mark` in the text. */
  function Position(text: string, mark: string): (p: Option<nat>)
    ensures p.Some? ==> p.value + |mark| <= |text|
  {
    if StartsWith(text, mark) then Some(0)
    else if text == "" then None
    else
      match Position(text[1..], mark)
      case None => None
      case Some(p) => Some(p + 1)
  }

  datatype Macro = Macro(name: string, volume: string, length: nat)

  function Opening(text: string): string {
    if StartsWith(text, "\\[") then "\\[" else if StartsWith(text, "[") then "[" else ""
  }

  function Closing(opening: string): string {
    if opening == "[" then "]" else "\\]"
  }

  /** A name, an opening bracket, digits, a closing bracket; both brackets escaped or neither. */
  function Match(rest: string): Option<Macro> {
    var n := NameLength(rest);
    if n == 0 then None
    else
      var opening := Opening(rest[n..]);
      if opening == "" then None
      else
        var payload := rest[n + |opening|..];
        match Position(payload, Closing(opening))
        case None => None
        case Some(p) =>
          var volume := payload[..p];
          if volume == "" || exists i :: 0 <= i < |volume| && !IsDigit(volume[i]) then None
          else Some(Macro(rest[..n], volume, n + |opening| + p + |Closing(opening)|))
  }

  function Render(m: Macro): string {
    "`" + m.name + "(" + m.volume + ")`"
  }

  /** The macro a text starts with. */
  function MacroAt(text: string): Option<Macro> {
    if StartsWith(text, MACRO) then Match(text[|MACRO|..]) else None
  }

  lemma MatchFits(rest: string)
    requires Match(rest).Some?
    ensures var m := Match(rest).value;
      && 0 < m.length <= |rest| && m.name != "" && m.volume != ""
      && (forall i :: 0 <= i < |m.name| ==> NameChar(m.name[i])) &&
         (forall i :: 0 <= i < |m.volume| ==> IsDigit(m.volume[i]))
  {
  }

  /** Every macro rendered, every other character as it stands. */
  function Strip(line: string): string
    decreases |line|
  {
    if line == "" then ""
    else
      var m := MacroAt(line);
      if m.Some? && |MACRO| + m.value.length <= |line|
      then Render(m.value) + Strip(line[|MACRO| + m.value.length..])
      else [line[0]] + Strip(line[1..])
  }

  function Stripped(lines: seq<string>): (r: seq<string>)
    ensures |r| == |lines|
  {
    if lines == [] then [] else [Strip(lines[0])] + Stripped(lines[1..])
  }

  function WithoutWarnings(lines: seq<string>): seq<string> {
    if lines == [] then [] else (if IsWarning(lines[0]) then [] else [lines[0]]) + WithoutWarnings(lines[1..])
  }

  function Collapsed(lines: seq<string>, previousBlank: bool): seq<string> {
    if lines == [] then []
    else
      var blank := IsBlank(lines[0]);
      (if blank && previousBlank then [] else [lines[0]]) + Collapsed(lines[1..], blank)
  }

  function Post(lines: seq<string>): seq<string> {
    Collapsed(Stripped(WithoutWarnings(lines)), false)
  }

  // ---- The loops ----

  lemma NameStep(rest: string, n: nat)
    requires n <= |rest|
    ensures n < |rest| && NameChar(rest[n]) ==> NameLength(rest[n..]) == 1 + NameLength(rest[n + 1..])
    ensures n == |rest| || !NameChar(rest[n]) ==> NameLength(rest[n..]) == 0
    ensures NameLength(rest[0..]) == NameLength(rest)
  {
    assert rest[0..] == rest;
    if n < |rest| { assert rest[n..][1..] == rest[n + 1..]; }
  }

  method NameEnd(rest: string) returns (nameEnd: nat)
    ensures nameEnd == NameLength(rest)
  {
    hide NameLength, NameChar;
    nameEnd := 0;
    NameStep(rest, 0);
    while nameEnd < |rest| && NameChar(rest[nameEnd])
      invariant nameEnd <= |rest| && NameLength(rest) == nameEnd + NameLength(rest[nameEnd..])
    {
      NameStep(rest, nameEnd);
      nameEnd := nameEnd + 1;
    }
    NameStep(rest, nameEnd);
  }

  /** Length of the matched macro, and its rendering appended, when the text starts with one. */
  method TryRenderLinkgit(rest: string, out: string) returns (length: Option<nat>, rendered: string)
    ensures Match(rest).None? ==> length == None && rendered == out
    ensures Match(rest).Some? ==>
      length == Some(Match(rest).value.length) && rendered == out + Render(Match(rest).value)
  {
    hide NameLength, Position, Opening, Closing, Render;
    var nameEnd := NameEnd(rest);
    if nameEnd == 0 {
      return None, out;
    }
    var opening := Opening(rest[nameEnd..]);
    if opening == "" {
      return None, out;
    }
    OpeningFits(rest[nameEnd..]);
    var payload := rest[nameEnd + |opening|..];
    var close := Position(payload, Closing(opening));
    if close.None? {
      return None, out;
    }
    var volume := payload[..close.value];
    if volume == "" || exists i :: 0 <= i < |volume| && !IsDigit(volume[i]) {
      return None, out;
    }
    length := Some(nameEnd + |opening| + close.value + |Closing(opening)|);
    rendered := out + "`";
    rendered := rendered + rest[..nameEnd];
    rendered := rendered + "(";
    rendered := rendered + volume;
    rendered := rendered + ")`";
    RenderPieces(out, Macro(rest[..nameEnd], volume, length.value));
  }

  lemma OpeningFits(text: string)
    ensures |Opening(text)| <= |text| && Closing(Opening(text)) != ""
  {
  }

  lemma RenderPieces(out: string, m: Macro)
    ensures out + "`" + m.name + "(" + m.volume + ")`" == out + Render(m)
  {
  }

  lemma CopyStep(out: string, rest: string)
    requires rest != "" && MacroAt(rest).None?
    ensures out + Strip(rest) == (out + [rest[0]]) + Strip(rest[1..])
  {
    hide MacroAt;
  }

  lemma MacroStep(out: string, rest: string)
    requires MacroAt(rest).Some?
    ensures var m := MacroAt(rest).value;
      |MACRO| + m.length <= |rest| && m.length > 0 &&
      out + Strip(rest) == (out + Render(m)) + Strip(rest[|MACRO| + m.length..])
  {
    hide Match, Render;
    MatchFits(rest[|MACRO|..]);
  }

  method StripLinkgitMacros(line: string) returns (out: string)
    ensures out == Strip(line)
  {
    hide Match, Render, Strip;
    out := "";
    var i := 0;
    assert line[0..] == line;
    while i < |line|
      invariant i <= |line| && out + Strip(line[i..]) == Strip(line)
      decreases |line| - i
    {
      if StartsWith(line[i..], MACRO) {
        assert line[i..][|MACRO|..] == line[i + |MACRO|..];
        if MacroAt(line[i..]).Some? { MacroStep(out, line[i..]); }
        var length;
        length, out := TryRenderLinkgit(line[i + |MACRO|..], out);
        if length.Some? {
          assert line[i..][|MACRO| + length.value..] == line[i + |MACRO| + length.value..];
          i := i + |MACRO| + length.value;
          continue;
        }
      }
      CopyStep(out, line[i..]);
      assert line[i..][1..] == line[i + 1..];
      out := out + [line[i]];
      i := i + 1;
    }
    NothingLeft(out, line[i..]);
  }

  lemma NothingLeft(out: string, rest: string)
    requires rest == ""
    ensures out + Strip(rest) == out
  {
  }

  lemma CollapseStep(lines: seq<string>, i: nat, previousBlank: bool, kept: seq<string>)
    requires i < |lines|
    ensures kept + Collapsed(lines[i..], previousBlank)
         == (if IsBlank(lines[i]) && previousBlank then kept else kept + [lines[i]]) + Collapsed(lines[i + 1..],
           IsBlank(lines[i]))
  {
    hide IsBlank;
    var rest := Collapsed(lines[i + 1..], IsBlank(lines[i]));
    assert lines[i..][1..] == lines[i + 1..];
    Joined(kept, lines[i], rest);
  }

  lemma Joined(kept: seq<string>, line: string, rest: seq<string>)
    ensures kept + ([line] + rest) == kept + [line] + rest && kept + ([] + rest) == kept + rest
  {
  }

  lemma CollapseEnds(lines: seq<string>, previousBlank: bool, kept: seq<string>)
    ensures [] + Collapsed(lines[0..], previousBlank) == Collapsed(lines, previousBlank)
    ensures kept + Collapsed(lines[|lines|..], previousBlank) == kept
  {
    assert lines[0..] == lines && lines[|lines|..] == [];
  }

  method CollapseBlankLines(text: string) returns (out: string)
    ensures out == LinesToText(Collapsed(TextToLines(text), false))
  {
    hide *;
    var lines := TextToLines(text);
    ghost var kept: seq<string> := [];
    out := "";
    NoText();
    var previousBlank := false;
    CollapseEnds(lines, previousBlank, kept);
    for i := 0 to |lines|
      invariant out == LinesToText(kept) && kept + Collapsed(lines[i..], previousBlank) == Collapsed(lines, false)
    {
      var blank := IsBlank(lines[i]);
      CollapseStep(lines, i, previousBlank, kept);
      if blank && previousBlank {
        continue;
      }
      PushLine(kept, lines[i]);
      kept := kept + [lines[i]];
      out := out + lines[i] + "\n";
      previousBlank := blank;
    }
    CollapseEnds(lines, previousBlank, kept);
  }

  lemma NextKept(lines: seq<string>, i: nat, kept: seq<string>)
    requires i < |lines|
    ensures kept + Stripped(WithoutWarnings(lines[i..]))
         == (if IsWarning(lines[i]) then kept else kept + [Strip(lines[i])]) + Stripped(WithoutWarnings(lines[i + 1..]))
  {
    hide IsWarning, Strip;
    assert lines[i..][1..] == lines[i + 1..];
    var rest := WithoutWarnings(lines[i + 1..]);
    assert ([lines[i]] + rest)[1..] == rest && [] + rest == rest;
    assert kept + ([Strip(lines[i])] + Stripped(rest)) == kept + [Strip(lines[i])] + Stripped(rest);
  }

  method PostprocessMarkdown(raw: string) returns (result: string)
    ensures result == LinesToText(Post(TextToLines(raw)))
  {
    hide *;
    var lines := TextToLines(raw);
    ghost var kept: seq<string> := [];
    var out := "";
    NoText();
    LinesAreLines(raw);
    AllLines(lines, kept);
    for i := 0 to |lines|
      invariant out == LinesToText(kept)
      invariant kept + Stripped(WithoutWarnings(lines[i..])) == Stripped(WithoutWarnings(lines))
      invariant forall k :: 0 <= k < |kept| ==> OneLine(kept[k])
    {
      NextKept(lines, i, kept);
      if IsWarning(lines[i]) {
        continue;
      }
      var stripped := StripLinkgitMacros(lines[i]);
      StripStaysOnLine(lines[i]);
      PushLine(kept, stripped);
      kept := kept + [stripped];
      out := out + stripped + "\n";
    }
    AllLines(lines, kept);
    LinesOfLines(kept);
    PostIs(lines);
    result := CollapseBlankLines(out);
  }

  lemma AllLines(lines: seq<string>, kept: seq<string>)
    ensures [] + Stripped(WithoutWarnings(lines[0..])) == Stripped(WithoutWarnings(lines))
    ensures kept + Stripped(WithoutWarnings(lines[|lines|..])) == kept
  {
    hide IsWarning, Strip;
    assert lines[0..] == lines && lines[|lines|..] == [];
  }

  lemma PostIs(lines: seq<string>)
    ensures Post(lines) == Collapsed(Stripped(WithoutWarnings(lines)), false)
  {
  }

  lemma {:induction false} SplitIntoLines(text: string)
    ensures forall i :: 0 <= i < |Split(text)| ==> OneLine(Split(text)[i])
    decreases |text|
  {
    if text != "" {
      SplitIntoLines(text[1..]);
      if |text| > 1 { SplitIntoLines(text[2..]); }
    }
  }

  lemma LinesAreLines(text: string)
    ensures forall i :: 0 <= i < |TextToLines(text)| ==> OneLine(TextToLines(text)[i])
  {
    SplitIntoLines(text);
  }

  lemma RenderedOnLine(m: Macro)
    requires forall i :: 0 <= i < |m.name| ==> NameChar(m.name[i])
    requires forall i :: 0 <= i < |m.volume| ==> IsDigit(m.volume[i])
    ensures OneLine(Render(m))
  {
  }

  /** The macro at the start of `line`, if there is one, and what stripping makes of the line. */
  lemma StripUnfolds(line: string)
    requires line != ""
    ensures MacroAt(line).Some? ==> (var n := |MACRO| + MacroAt(line).value.length;
      |MACRO| < n <= |line| && Strip(line) == Render(MacroAt(line).value) + Strip(line[n..]))
    ensures MacroAt(line).None? ==> Strip(line) == [line[0]] + Strip(line[1..])
  {
    hide MacroAt, Render;
    if MacroAt(line).Some? { MacroFits(line); }
  }

  lemma MacroFits(line: string)
    requires MacroAt(line).Some?
    ensures var m := MacroAt(line).value;
      && 0 < m.length && |MACRO| + m.length <= |line| && m.name != "" && m.volume != ""
      && (forall i :: 0 <= i < |m.name| ==> NameChar(m.name[i])) &&
         (forall i :: 0 <= i < |m.volume| ==> IsDigit(m.volume[i]))
  {
    hide Match;
    MatchFits(line[|MACRO|..]);
  }

  lemma OneLinePart(line: string, n: nat)
    requires OneLine(line) && n <= |line|
    ensures OneLine(line[n..])
  {
  }

  lemma OneLineJoin(a: string, b: string)
    requires OneLine(a) && OneLine(b)
    ensures OneLine(a + b)
  {
  }

  lemma EmptyLine(line: string)
    requires line == ""
    ensures Strip(line) == "" && OneLine("")
  {
  }

  /** A macro holds no newline, and neither does its rendering. */
  lemma {:induction false} StripStaysOnLine(line: string)
    requires OneLine(line)
    ensures OneLine(Strip(line))
    decreases |line|
  {
    if line != "" { assert OneLine([line[0]]); }
    hide *;
    if line == "" {
      EmptyLine(line);
    } else {
      StripUnfolds(line);
      var m := MacroAt(line);
      if m.Some? {
        MacroFits(line);
        RenderedOnLine(m.value);
        OneLinePart(line, |MACRO| + m.value.length);
        StripStaysOnLine(line[|MACRO| + m.value.length..]);
        OneLineJoin(Render(m.value), Strip(line[|MACRO| + m.value.length..]));
      } else {
        OneLinePart(line, 1);
        StripStaysOnLine(line[1..]);
        OneLineJoin([line[0]], Strip(line[1..]));
      }
    }
  }
}
