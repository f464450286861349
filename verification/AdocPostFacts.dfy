/** Cleaning twice is cleaning once, and what the cleaned text no longer holds. */
module ImportPostFacts {
  import opened Basics
  import opened Whitespace
  import opened ImportText
  import opened ImportPost

  predicate NoTick(text: string) {
    forall i :: 0 <= i < |text| ==> text[i] != '`'
  }

  // ---- A macro is decided by its own characters ----

  lemma StartsInside(text: string, other: string, mark: string, n: nat, i: nat)
    requires n <= |text| && n <= |other| && text[..n] == other[..n] && i + |mark| <= n
    ensures StartsWith(text[i..], mark) == StartsWith(other[i..], mark)
  {
    assert text[i..][..|mark|] == text[..n][i..i + |mark|];
    assert other[i..][..|mark|] == other[..n][i..i + |mark|];
  }

  lemma {:induction false} PositionFinds(text: string, mark: string)
    requires Position(text, mark).Some?
    ensures var p := Position(text, mark).value;
      StartsWith(text[p..], mark) && forall i :: 0 <= i < p ==> !StartsWith(text[i..], mark)
    decreases |text|
  {
    hide StartsWith;
    assert text[0..] == text;
    if !StartsWith(text, mark) {
      PositionFinds(text[1..], mark);
      assert forall i :: 1 <= i <= |text| ==> text[i..] == text[1..][i - 1..];
    }
  }

  lemma {:induction false} PositionIs(text: string, mark: string, p: nat)
    requires p <= |text| && StartsWith(text[p..], mark) && forall i :: 0 <= i < p ==> !StartsWith(text[i..], mark)
    ensures Position(text, mark) == Some(p)
    decreases |text|
  {
    hide StartsWith, Position;
    assert text[0..] == text;
    if p > 0 {
      forall i | 0 <= i < p ensures text[1..][i..] == text[i + 1..] {}
      PositionIs(text[1..], mark, p - 1);
    }
    PositionStep(text, mark);
  }

  lemma PositionStep(text: string, mark: string)
    ensures StartsWith(text, mark) ==> Position(text, mark) == Some(0)
    ensures !StartsWith(text, mark) && text != "" && Position(text[1..], mark).Some?
         ==> Position(text, mark) == Some(Position(text[1..], mark).value + 1)
  {
    hide StartsWith;
  }

  lemma SamePosition(text: string, other: string, mark: string, p: nat)
    requires mark != "" && Position(text, mark) == Some(p) && p + |mark| <= |other|
    requires text[..p + |mark|] == other[..p + |mark|]
    ensures Position(other, mark) == Some(p)
  {
    hide Position, StartsWith;
    PositionFinds(text, mark);
    StartsInside(text, other, mark, p + |mark|, p);
    forall i | 0 <= i < p ensures !StartsWith(other[i..], mark) { StartsInside(text, other, mark, p + |mark|, i); }
    PositionIs(other, mark, p);
  }

  lemma SameOpening(text: string, other: string, n: nat)
    requires Opening(text) != "" && |Opening(text)| < n <= |text| && n <= |other| && text[..n] == other[..n]
    ensures Opening(other) == Opening(text)
  {
    assert text[0..] == text && other[0..] == other;
    StartsInside(text, other, "\\[", n, 0);
    StartsInside(text, other, "[", n, 0);
  }

  /** The pieces of a match: name, opening, volume, closing, in this order at the start of the text. */
  lemma MatchPieces(rest: string)
    requires Match(rest).Some?
    ensures var m := Match(rest).value; var opening := Opening(rest[|m.name|..]);
      && |m.name| < |rest| && NameLength(rest) == |m.name| && opening != "" && m.name == rest[..|m.name|]
      && |m.name| + |opening| + |m.volume| + |Closing(opening)| == m.length <= |rest|
      && Position(rest[|m.name| + |opening|..], Closing(opening)) == Some(|m.volume|)
      && m.volume == rest[|m.name| + |opening|..][..|m.volume|]
  {
    hide NameLength, Opening, Closing, Position, NameChar;
    OpeningFits(rest[NameLength(rest)..]);
  }

  lemma MatchIs(rest: string, n: nat, opening: string, payload: string, volume: string)
    requires n > 0 && NameLength(rest) == n && opening != "" && opening == Opening(rest[n..]) && Closing(opening) != ""
    requires n + |opening| <= |rest| && payload == rest[n + |opening|..] && volume != "" && |volume| <= |payload|
    requires volume == payload[..|volume|]
    requires Position(payload, Closing(opening)) == Some(|volume|) && forall i :: 0 <= i < |volume| ==>
      IsDigit(volume[i])
    ensures Match(rest) == Some(Macro(rest[..n], volume, n + |opening| + |volume| + |Closing(opening)|))
  {
    hide NameLength, Opening, Closing, Position;
  }

  /** Two texts that agree on the length of a match both match, and alike. */
  lemma SameMatch(rest: string, other: string)
    requires Match(rest).Some? && Match(rest).value.length <= |other|
    requires other[..Match(rest).value.length] == rest[..Match(rest).value.length]
    ensures Match(other) == Match(rest)
  {
    hide *;
    var m := Match(rest).value;
    MatchPieces(rest);
    MatchFits(rest);
    var n, len := |m.name|, m.length;
    var opening := Opening(rest[n..]);
    OpeningFits(rest[n..]);
    SameNameHere(rest, other, n, len);
    SliceAgain(rest, other, len, n, len);
    SameOpening(rest[n..], other[n..], len - n);
    var at := n + |opening|;
    SliceAgain(rest, other, len, at, len);
    SamePosition(rest[at..], other[at..], Closing(opening), |m.volume|);
    SliceAgain(rest, other, len, at, at + |m.volume|);
    MatchIs(other, n, opening, other[at..], m.volume);
  }

  lemma SameNameHere(rest: string, other: string, n: nat, len: nat)
    requires NameLength(rest) == n < len <= |rest| && len <= |other| && rest[..len] == other[..len]
    ensures NameLength(other) == n && rest[..n] == other[..n]
  {
    hide NameLength;
    SliceAgain(rest, other, len, 0, n + 1);
    SliceAgain(rest, other, len, 0, n);
  }

  lemma SliceAgain(text: string, other: string, n: nat, i: nat, j: nat)
    requires n <= |text| && n <= |other| && text[..n] == other[..n] && i <= j <= n
    ensures text[i..][..j - i] == other[i..][..j - i]
    ensures i == 0 ==> text[..j] == other[..j]
  {
    assert text[i..][..j - i] == text[..n][i..j] && other[i..][..j - i] == other[..n][i..j];
    assert text[..j] == text[..n][..j] && other[..j] == other[..n][..j];
  }

  /** Length of the macro at the start of a text, prefix included. */
  function Extent(text: string): nat
    requires MacroAt(text).Some?
  {
    |MACRO| + MacroAt(text).value.length
  }

  lemma SameMacro(text: string, other: string)
    requires MacroAt(text).Some? && Extent(text) <= |text| && Extent(text) <= |other|
    requires text[..Extent(text)] == other[..Extent(text)]
    ensures MacroAt(other) == MacroAt(text)
  {
    hide Match;
    var n := Extent(text);
    SliceAgain(text, other, n, 0, |MACRO|);
    SliceAgain(text, other, n, |MACRO|, n);
    SameMatch(text[|MACRO|..], other[|MACRO|..]);
  }

  lemma NoTickParts(a: string, b: string, c: string, d: string)
    requires NoTick(a) && NoTick(b) && NoTick(c) && NoTick(d)
    ensures NoTick(a + b + c + d)
  {
  }

  lemma BracketsHaveNoTick(text: string)
    ensures NoTick(Opening(text)) && NoTick(Closing(Opening(text)))
  {
  }

  lemma NamesHaveNoTick(m: Macro)
    requires forall i :: 0 <= i < |m.name| ==> NameChar(m.name[i])
    requires forall i :: 0 <= i < |m.volume| ==> IsDigit(m.volume[i])
    ensures NoTick(m.name) && NoTick(m.volume)
  {
  }

  /** A match is its four pieces, one after the other. */
  lemma MatchSpelled(rest: string)
    requires Match(rest).Some?
    ensures var (m, opening) := (Match(rest).value, Opening(rest[NameLength(rest)..]));
      m.length <= |rest| && rest[..m.length] == m.name + opening + m.volume + Closing(opening)
  {
    hide *;
    var m := Match(rest).value;
    MatchPieces(rest);
    PiecesSpell(rest, m.name, Opening(rest[|m.name|..]), m.volume, Closing(Opening(rest[|m.name|..])));
  }

  lemma PiecesSpell(rest: string, name: string, opening: string, volume: string, closing: string)
    requires |name| + |opening| <= |rest| && name == rest[..|name|] && opening == Opening(rest[|name|..])
    requires Position(rest[|name| + |opening|..], closing) == Some(|volume|)
    requires |volume| <= |rest[|name| + |opening|..]| && volume == rest[|name| + |opening|..][..|volume|]
    ensures |name| + |opening| + |volume| + |closing| <= |rest|
    ensures rest[..|name| + |opening| + |volume| + |closing|] == name + opening + volume + closing
  {
    hide *;
    OpeningIsThere(rest[|name|..]);
    ClosingIsThere(rest[|name| + |opening|..], closing, |volume|);
    FourPieces(rest, name, opening, volume, closing);
  }

  lemma FourPieces(rest: string, a: string, b: string, c: string, d: string)
    requires |a| <= |rest| && rest[..|a|] == a && |b| <= |rest| - |a| && rest[|a|..][..|b|] == b
    requires |c| <= |rest| - |a| - |b| && rest[|a| + |b|..][..|c|] == c
    requires |d| <= |rest| - |a| - |b| - |c| && rest[|a| + |b|..][|c|..][..|d|] == d
    ensures rest[..|a| + |b| + |c| + |d|] == a + b + c + d
  {
    var all := a + b + c + d;
    forall i | 0 <= i < |all| ensures rest[i] == all[i] {
      if i < |a| { assert rest[..|a|][i] == rest[i]; }
      else if i < |a| + |b| { assert rest[|a|..][..|b|][i - |a|] == rest[i]; }
      else if i < |a| + |b| + |c| { assert rest[|a| + |b|..][..|c|][i - |a| - |b|] == rest[i]; }
      else { assert rest[|a| + |b|..][|c|..][..|d|][i - |a| - |b| - |c|] == rest[i]; }
    }
  }

  lemma ClosingIsThere(payload: string, closing: string, n: nat)
    requires Position(payload, closing) == Some(n)
    ensures n + |closing| <= |payload| && payload[n..][..|closing|] == closing
  {
    hide Position;
    PositionFinds(payload, closing);
  }

  lemma MatchHasNoTick(rest: string)
    requires Match(rest).Some?
    ensures Match(rest).value.length <= |rest| && NoTick(rest[..Match(rest).value.length])
  {
    hide *;
    MatchFits(rest);
    MatchSpelled(rest);
    var m, opening := Match(rest).value, Opening(rest[NameLength(rest)..]);
    NamesHaveNoTick(m);
    BracketsHaveNoTick(rest[NameLength(rest)..]);
    NoTickParts(m.name, opening, m.volume, Closing(opening));
  }

  /** No backtick occurs in a macro. */
  lemma MacroHasNoTick(text: string)
    requires MacroAt(text).Some?
    ensures Extent(text) <= |text| && NoTick(text[..Extent(text)])
  {
    hide Match;
    MatchHasNoTick(text[|MACRO|..]);
    var n := Extent(text);
    forall i | 0 <= i < n ensures text[i] != '`' {
      if i < |MACRO| {
        assert text[i] == MACRO[i];
      } else {
        assert text[i] == text[|MACRO|..][..n - |MACRO|][i - |MACRO|];
      }
    }
  }

  lemma OpeningIsThere(text: string)
    ensures |Opening(text)| <= |text| && text[..|Opening(text)|] == Opening(text)
  {
  }

  // ---- Stripping ----

  lemma RenderTicks(m: Macro)
    ensures |Render(m)| >= 4 && Render(m)[0] == '`' && Render(m)[|Render(m)| - 1] == '`'
  {
  }

  lemma AfterHead(head: string, rest: string, i: nat)
    requires |head| <= i <= |head| + |rest|
    ensures (head + rest)[i..] == rest[i - |head|..]
  {
  }

  lemma NoTickTail(c: char, rest: string, n: nat)
    requires 0 < n <= |rest| + 1 && NoTick(([c] + rest)[..n])
    ensures NoTick(rest[..n - 1]) && ([c] + rest)[..n] == [c] + rest[..n - 1]
  {
    forall i | 0 <= i < n - 1 ensures rest[i] != '`' { assert ([c] + rest)[..n][i + 1] == rest[i]; }
  }

  lemma RenderedHasTick(text: string)
    requires MacroAt(text).Some?
    ensures Strip(text) != "" && Strip(text)[0] == '`' && !NoTick(Strip(text))
  {
    MacroFits(text);
    StripUnfolds(text);
    RenderTicks(MacroAt(text).value);
    hide Strip, MacroAt, Render;
  }

  /** Up to its first backtick the stripped text is the text itself. */
  lemma {:induction false} LiteralPrefix(text: string, n: nat)
    requires n <= |Strip(text)| && NoTick(Strip(text)[..n])
    ensures n <= |text| && text[..n] == Strip(text)[..n]
    decreases |text|
  {
    hide *;
    if text == "" {
      EmptyLine(text);
    } else if n > 0 {
      StripUnfolds(text);
      PrefixSolid(Strip(text), n);
      if MacroAt(text).Some? {
        RenderedHasTick(text);
      } else {
        NoTickTail(text[0], Strip(text[1..]), n);
        LiteralPrefix(text[1..], n - 1);
        OneInFront(text, n);
      }
    }
  }

  lemma PrefixSolid(text: string, n: nat)
    requires 0 < n <= |text| && NoTick(text[..n])
    ensures text[0] != '`'
  {
    assert text[..n][0] == text[0];
  }

  lemma OneInFront(text: string, n: nat)
    requires 0 < n && text != "" && n - 1 <= |text[1..]|
    ensures text[..n] == [text[0]] + text[1..][..n - 1]
  {
  }

  /** The tick that ends a rendering comes before any suffix without one. */
  lemma SuffixBehindMacro(m: Macro, rest: string, k: nat)
    requires k <= |Render(m)| + |rest| && NoTick((Render(m) + rest)[k..])
    ensures k >= |Render(m)| && (Render(m) + rest)[k..] == rest[k - |Render(m)|..]
  {
    RenderTicks(m);
    hide Render;
    var out, last := Render(m) + rest, |Render(m)| - 1;
    assert out[last] == '`';
    AfterHead(Render(m), rest, k);
  }

  /** Behind its last backtick too. */
  lemma {:induction false} LiteralSuffix(text: string, k: nat)
    requires k <= |Strip(text)| && NoTick(Strip(text)[k..])
    ensures EndsWith(text, Strip(text)[k..])
    decreases |text|
  {
    if text == "" {
      assert Strip(text)[k..] == "";
    } else if k == 0 {
      assert Strip(text)[0..] == Strip(text);
      AllLiteral(text);
    } else {
      StripUnfolds(text);
      hide Strip, MacroAt, Render, EndsWith;
      if MacroAt(text).Some? {
        var m, n := MacroAt(text).value, |MACRO| + MacroAt(text).value.length;
        SuffixBehindMacro(m, Strip(text[n..]), k);
        LiteralSuffix(text[n..], k - |Render(m)|);
        SuffixOfSuffix(text, n, Strip(text)[k..]);
      } else {
        AfterHead([text[0]], Strip(text[1..]), k);
        LiteralSuffix(text[1..], k - 1);
        SuffixOfSuffix(text, 1, Strip(text)[k..]);
      }
    }
  }

  lemma SuffixOfSuffix(text: string, n: nat, suffix: string)
    requires n <= |text| && EndsWith(text[n..], suffix)
    ensures EndsWith(text, suffix)
  {
  }

  /** A stripped text without a backtick is the text. */
  lemma {:induction false} AllLiteral(text: string)
    requires NoTick(Strip(text))
    ensures Strip(text) == text
    decreases |text|
  {
    if text != "" {
      StripUnfolds(text);
      hide Strip, MacroAt, Render;
      if MacroAt(text).Some? {
        RenderedHasTick(text);
      } else {
        assert forall i :: 0 <= i < |Strip(text[1..])| ==> Strip(text[1..])[i] == Strip(text)[i + 1];
        AllLiteral(text[1..]);
      }
    }
  }

  // ---- No macro is left ----

  lemma MacroStarts(text: string)
    requires MacroAt(text).Some?
    ensures text != "" && text[0] == 'l'
  {
    assert text[0] == MACRO[0];
  }

  lemma MacroWasThere(text: string)
    requires MacroAt(Strip(text)).Some?
    ensures MacroAt(text).Some?
  {
    var out := Strip(text);
    hide Strip, Match;
    MacroHasNoTick(out);
    LiteralPrefix(text, Extent(out));
    SameMacro(out, text);
  }

  /** Rendering never creates a macro: a macro at the start of the stripped text would have been one before. */
  lemma NoMacroAtStart(text: string)
    ensures MacroAt(Strip(text)).None?
  {
    hide *;
    if MacroAt(Strip(text)).Some? {
      MacroWasThere(text);
      RenderedHasTick(text);
      MacroStarts(Strip(text));
    }
  }

  ghost predicate NoMacro(text: string) {
    forall k :: 0 <= k <= |text| ==> MacroAt(text[k..]).None?
  }

  lemma NotMacro(text: string, j: nat)
    requires j < |MACRO| && j < |text| && text[j] != MACRO[j]
    ensures MacroAt(text).None?
  {
    if |text| >= |MACRO| { assert text[..|MACRO|][j] == text[j]; }
  }

  /** Nor does one start inside a rendering: its name holds no colon, and the rest no letter. */
  lemma NoMacroInRendering(m: Macro, rest: string, k: nat)
    requires forall i :: 0 <= i < |m.name| ==> NameChar(m.name[i])
    requires forall i :: 0 <= i < |m.volume| ==> IsDigit(m.volume[i])
    requires k < |Render(m)|
    ensures MacroAt((Render(m) + rest)[k..]).None?
  {
    var out := Render(m) + rest;
    var paren := 1 + |m.name|;
    assert out[0] == '`' && out[paren] == '(' && forall i :: 1 <= i < paren ==> out[i] == m.name[i - 1];
    assert forall i :: paren < i <= paren + |m.volume| ==> out[i] == m.volume[i - paren - 1];
    assert out[paren + |m.volume| + 1] == ')' && out[paren + |m.volume| + 2] == '`' &&
           |out| >= |Render(m)| == paren + |m.volume| + 3;
    hide MacroAt, Render;
    if k == 0 || k >= paren {
      NotMacro(out[k..], 0);
    } else if paren <= k + 7 {
      NotMacro(out[k..], paren - k);
    } else {
      NotMacro(out[k..], 7);
    }
  }

  lemma {:induction false} NoMacroLeft(text: string)
    ensures NoMacro(Strip(text))
    decreases |text|
  {
    var out := Strip(text);
    if text != "" {
      StripUnfolds(text);
      if MacroAt(text).Some? { MacroFits(text); NoMacroLeft(text[Extent(text)..]); } else { NoMacroLeft(text[1..]); }
    }
    forall k | 0 <= k <= |out| ensures MacroAt(out[k..]).None? {
      if k == 0 {
        assert out[0..] == out;
        NoMacroAtStart(text);
      } else {
        NoMacroBehind(text, k);
      }
    }
  }

  lemma NoMacroBehind(text: string, k: nat)
    requires text != "" && 0 < k <= |Strip(text)|
    requires if MacroAt(text).Some? then Extent(text) <= |text| && NoMacro(Strip(text[Extent(text)..]))
             else NoMacro(Strip(text[1..]))
    ensures MacroAt(Strip(text)[k..]).None?
  {
    StripUnfolds(text);
    hide Strip, MacroAt, Render;
    if MacroAt(text).Some? {
      MacroFits(text);
      var m, rest := MacroAt(text).value, Strip(text[Extent(text)..]);
      if k < |Render(m)| { NoMacroInRendering(m, rest, k); } else { AfterHead(Render(m), rest, k); }
    } else {
      AfterHead([text[0]], Strip(text[1..]), k);
    }
  }

  lemma {:induction false} NothingToStrip(text: string)
    requires NoMacro(text)
    ensures Strip(text) == text
    decreases |text|
  {
    if text != "" {
      StripUnfolds(text);
      hide Strip, MacroAt;
      assert text[0..] == text && MacroAt(text).None?;
      forall k | 0 <= k <= |text[1..]| ensures MacroAt(text[1..][k..]).None? { assert text[1..][k..] == text[k + 1..]; }
      NothingToStrip(text[1..]);
    }
  }

  lemma StripIsIdempotent(text: string)
    ensures Strip(Strip(text)) == Strip(text)
  {
    NoMacroLeft(text);
    NothingToStrip(Strip(text));
  }

  // ---- Warnings ----

  lemma BlankHasNoTick(text: string)
    requires IsBlank(text)
    ensures NoTick(text)
  {
  }

  lemma NoTickJoin(text: string, i: nat, j: nat, k: nat)
    requires i <= j <= k <= |text| && NoTick(text[i..j]) && NoTick(text[j..k])
    ensures NoTick(text[i..k])
  {
    assert text[i..k] == text[i..j] + text[j..k];
  }

  /** How a line that opens a warning looks. */
  lemma OpensWarning(out: string) returns (k: nat)
    requires StartsWith(TrimStart(out), WARNING)
    ensures k + |WARNING| <= |out| && IsBlank(out[..k]) && out[k..k + |WARNING|] == WARNING
    ensures NoTick(out[..k + |WARNING|])
  {
    hide TrimStart, IsBlank, NoTick;
    TrimStartParts(out);
    k := |out| - |TrimStart(out)|;
    var n := k + |WARNING|;
    assert out[k..n] == TrimStart(out)[..|WARNING|];
    assert out[0..k] == out[..k] && out[0..n] == out[..n];
    MarksHaveNoTick();
    BlankHasNoTick(out[..k]);
    NoTickJoin(out, 0, k, n);
  }

  lemma MarksHaveNoTick()
    ensures NoTick(WARNING) && NoTick(WARNING_END) && |WARNING_END| == 3
  {
  }

  lemma OpenedWarning(line: string, k: nat)
    requires k + |WARNING| <= |line| && IsBlank(line[..k]) && line[k..k + |WARNING|] == WARNING
    ensures StartsWith(TrimStart(line), WARNING)
  {
    hide TrimStart, IsBlank;
    assert line[k] == line[k..k + |WARNING|][0] == '<';
    TrimStartIs(line, k);
    assert line[k..][..|WARNING|] == line[k..k + |WARNING|];
  }

  lemma WarningStart(line: string)
    requires StartsWith(TrimStart(Strip(line)), WARNING)
    ensures StartsWith(TrimStart(line), WARNING)
  {
    hide *;
    var out := Strip(line);
    var k := OpensWarning(out);
    var n := k + |WARNING|;
    LiteralPrefix(line, n);
    SameSlices(line, out, k, n);
    OpenedWarning(line, k);
  }

  lemma SameSlices(a: string, b: string, k: nat, n: nat)
    requires k <= n <= |a| && n <= |b| && a[..n] == b[..n]
    ensures a[..k] == b[..k] && a[k..n] == b[k..n]
  {
    assert a[..k] == a[..n][..k] && b[..k] == b[..n][..k] && a[k..n] == a[..n][k..] && b[k..n] == b[..n][k..];
  }

  lemma ClosesWarning(out: string) returns (e: nat)
    requires EndsWith(TrimEnd(out), WARNING_END)
    ensures 3 <= e <= |out| && IsBlank(out[e..]) && out[e - 3..e] == WARNING_END && NoTick(out[e - 3..])
  {
    hide TrimEnd, IsBlank, NoTick;
    MarksHaveNoTick();
    TrimEndParts(out);
    e := |TrimEnd(out)|;
    assert out[e - 3..e] == TrimEnd(out)[e - 3..];
    assert out[e..|out|] == out[e..] && out[e - 3..|out|] == out[e - 3..];
    BlankHasNoTick(out[e..]);
    NoTickJoin(out, e - 3, e, |out|);
  }

  lemma ClosedWarning(line: string, n: nat)
    requires 3 <= n <= |line| && IsBlank(line[n..]) && line[n - 3..n] == WARNING_END
    ensures EndsWith(TrimEnd(line), WARNING_END)
  {
    hide *;
    AngleIsSolid();
    TrimEndIs(line, n);
    PrefixEndsWith(line, n, WARNING_END);
  }

  lemma AngleIsSolid()
    ensures |WARNING_END| == 3 && !IsWhite(WARNING_END[2])
  {
  }

  lemma PrefixEndsWith(line: string, n: nat, suffix: string)
    requires |suffix| <= n <= |line| && line[n - |suffix|..n] == suffix
    ensures EndsWith(line[..n], suffix)
  {
    assert line[..n][n - |suffix|..] == line[n - |suffix|..n];
  }

  lemma SameEnds(a: string, b: string, n: nat, e: nat)
    requires 3 <= e <= |b| && 3 <= n <= |a| && a[n - 3..] == b[e - 3..]
    ensures a[n..] == b[e..] && a[n - 3..n] == b[e - 3..e]
  {
    assert a[n..] == a[n - 3..][3..] && b[e..] == b[e - 3..][3..];
    assert a[n - 3..n] == a[n - 3..][..3] && b[e - 3..e] == b[e - 3..][..3];
  }

  lemma WarningEnd(line: string)
    requires EndsWith(TrimEnd(Strip(line)), WARNING_END)
    ensures EndsWith(TrimEnd(line), WARNING_END)
  {
    var out := Strip(line);
    hide Strip, TrimEnd;
    var e := ClosesWarning(out);
    LiteralSuffix(line, e - 3);
    var n := |line| - (|out| - e);
    SameEnds(line, out, n, e);
    ClosedWarning(line, n);
  }

  /** Stripping never creates a warning line. */
  lemma NoNewWarning(line: string)
    requires IsWarning(Strip(line))
    ensures IsWarning(line)
  {
    hide StartsWith, EndsWith, Strip, TrimStart, TrimEnd;
    WarningStart(line);
    WarningEnd(line);
  }

  // ---- The whole pass ----

  ghost predicate NoDoubleBlank(lines: seq<string>) {
    forall i :: 0 <= i < |lines| - 1 ==> !(IsBlank(lines[i]) && IsBlank(lines[i + 1]))
  }

  ghost predicate Clean(line: string) {
    !IsWarning(line) && NoMacro(line)
  }

  lemma StrippedCons(line: string, lines: seq<string>)
    ensures Stripped(WithoutWarnings([line] + lines)) ==
      (if IsWarning(line) then [] else [Strip(line)]) + Stripped(WithoutWarnings(lines))
  {
    hide IsWarning, Strip;
    var rest := WithoutWarnings(lines);
    assert ([line] + lines)[1..] == lines && ([line] + rest)[1..] == rest && [] + rest == rest &&
           [] + Stripped(rest) == Stripped(rest);
  }

  lemma StrippedIsClean(line: string)
    requires !IsWarning(line)
    ensures Clean(Strip(line))
  {
    hide IsWarning, Strip, NoMacro;
    NoMacroLeft(line);
    if IsWarning(Strip(line)) { NoNewWarning(line); }
  }

  ghost predicate AllClean(lines: seq<string>) {
    forall i :: 0 <= i < |lines| ==> Clean(lines[i])
  }

  lemma CleanCons(line: string, lines: seq<string>)
    requires Clean(line) && AllClean(lines)
    ensures AllClean([line] + lines)
  {
    hide Clean;
  }

  lemma NothingIsClean(lines: seq<string>)
    requires lines == []
    ensures Stripped(WithoutWarnings(lines)) == [] && AllClean([])
  {
  }

  lemma {:induction false} StrippedLines(lines: seq<string>)
    ensures AllClean(Stripped(WithoutWarnings(lines)))
  {
    hide *;
    if lines == [] {
      NothingIsClean(lines);
    } else {
      StrippedLines(lines[1..]);
      StrippedCons(lines[0], lines[1..]);
      assert lines == [lines[0]] + lines[1..];
      var rest := Stripped(WithoutWarnings(lines[1..]));
      if IsWarning(lines[0]) {
        assert [] + rest == rest;
      } else {
        StrippedIsClean(lines[0]);
        CleanCons(Strip(lines[0]), rest);
      }
    }
  }

  lemma {:induction false} CollapsedFacts(lines: seq<string>, previousBlank: bool)
    ensures var out := Collapsed(lines, previousBlank);
      && (forall line :: line in out ==> line in lines) && Solid(out) == Solid(lines)
      && NoDoubleBlank(out) && (previousBlank && out != [] ==> !IsBlank(out[0]))
  {
    hide IsBlank;
    if lines != [] {
      var blank := IsBlank(lines[0]);
      CollapsedFacts(lines[1..], blank);
      var rest := Collapsed(lines[1..], blank);
      if blank && previousBlank {
        assert [] + rest == rest;
      } else {
        assert ([lines[0]] + rest)[1..] == rest;
      }
    }
  }

  lemma {:induction false} NothingToDrop(lines: seq<string>)
    requires forall i :: 0 <= i < |lines| ==> Clean(lines[i])
    ensures Stripped(WithoutWarnings(lines)) == lines
  {
    hide IsWarning, Strip, NoMacro, WithoutWarnings, Stripped;
    if lines == [] {
      NothingAtAll();
    } else {
      assert Clean(lines[0]);
      NothingToStrip(lines[0]);
      NothingToDrop(lines[1..]);
      LineStays(lines[0], lines[1..]);
      assert [lines[0]] + lines[1..] == lines;
    }
  }

  lemma NothingAtAll()
    ensures Stripped(WithoutWarnings([])) == []
  {
  }

  lemma LineStays(line: string, rest: seq<string>)
    requires !IsWarning(line) && Strip(line) == line
    ensures Stripped(WithoutWarnings([line] + rest)) == [line] + Stripped(WithoutWarnings(rest))
  {
    hide IsWarning, Strip;
    assert ([line] + rest)[1..] == rest;
    assert ([line] + WithoutWarnings(rest))[1..] == WithoutWarnings(rest);
  }

  lemma {:induction false} NothingToCollapse(lines: seq<string>, previousBlank: bool)
    requires NoDoubleBlank(lines) && (previousBlank && lines != [] ==> !IsBlank(lines[0]))
    ensures Collapsed(lines, previousBlank) == lines
  {
    if lines != [] {
      hide IsBlank;
      var rest := lines[1..];
      forall i | 0 <= i < |rest| - 1 ensures !(IsBlank(rest[i]) && IsBlank(rest[i + 1])) {
        assert rest[i] == lines[i + 1] && rest[i + 1] == lines[i + 1 + 1];
      }
      NothingToCollapse(rest, IsBlank(lines[0]));
    }
  }

  /**
    What the pass leaves: no warning line, no well-formed macro, no two blank lines in a row; every other
    non-blank line stays, stripped, in its place.
  */
  lemma PostCleans(lines: seq<string>)
    ensures forall line :: line in Post(lines) ==> Clean(line)
    ensures NoDoubleBlank(Post(lines))
    ensures Solid(Post(lines)) == Solid(Stripped(WithoutWarnings(lines)))
  {
    hide Clean, IsBlank;
    StrippedLines(lines);
    CollapsedFacts(Stripped(WithoutWarnings(lines)), false);
  }

  lemma PostTwice(lines: seq<string>)
    ensures Post(Post(lines)) == Post(lines)
  {
    hide Clean, NoDoubleBlank, IsBlank;
    PostCleans(lines);
    assert forall i :: 0 <= i < |Post(lines)| ==> Clean(Post(lines)[i]);
    NothingToDrop(Post(lines));
    NothingToCollapse(Post(lines), false);
  }

  lemma {:induction false} StrippedStaysOnLines(lines: seq<string>)
    requires forall i :: 0 <= i < |lines| ==> OneLine(lines[i])
    ensures forall i :: 0 <= i < |Stripped(WithoutWarnings(lines))| ==> OneLine(Stripped(WithoutWarnings(lines))[i])
  {
    if lines != [] {
      hide IsWarning, Strip, OneLine;
      StrippedStaysOnLines(lines[1..]);
      var rest := WithoutWarnings(lines[1..]);
      assert ([lines[0]] + rest)[1..] == rest && [] + rest == rest;
      assert OneLine(lines[0]);
      StripStaysOnLine(lines[0]);
    }
  }

  /** Cleaning cleaned text, split into lines again, changes nothing. */
  lemma PostprocessIsIdempotent(raw: string)
    ensures var once := LinesToText(Post(TextToLines(raw))); LinesToText(Post(TextToLines(once))) == once
  {
    hide TextToLines, LinesToText, OneLine, IsBlank;
    var lines := TextToLines(raw);
    LinesAreLines(raw);
    StrippedStaysOnLines(lines);
    CollapsedFacts(Stripped(WithoutWarnings(lines)), false);
    assert forall i :: 0 <= i < |Post(lines)| ==> Post(lines)[i] in Post(lines);
    LinesOfLines(Post(lines));
    PostTwice(lines);
  }
}
