/** Which lines make a description-list item and what becomes of them, told from the source lines alone. */
module ImportItems {
  import opened Basics
  import opened Whitespace
  import opened ImportText
  import opened ImportPre
  import opened ImportPreFacts
  import opened ImportListings

  // ---- Labels ----

  /** From `[` to `]`, blanks around it aside. */
  ghost predicate IsWrapped(text: string) {
    exists x, y ::
      0 <= x < y < |text| && text[x] == '[' && text[y] == ']' && IsBlank(text[..x]) && IsBlank(text[y + 1..])
  }

  lemma TrimIsSlice(text: string, x: nat, y: nat)
    requires x < y <= |text| && IsBlank(text[..x]) && IsBlank(text[y..]) && !IsWhite(text[x]) && !IsWhite(text[y - 1])
    ensures Trim(text) == text[x..y]
  {
    TrimStartIs(text, x);
    var mid := text[x..];
    assert mid[y - x..] == text[y..] && mid[y - x - 1] == text[y - 1];
    TrimEndIs(mid, y - x);
    assert mid[..y - x] == text[x..y];
  }

  lemma TrimBounds(text: string) returns (x: nat, y: nat)
    ensures x <= y <= |text| && Trim(text) == text[x..y] && IsBlank(text[..x]) && IsBlank(text[y..])
  {
    hide IsWhite, IsBlank, TrimStart, TrimEnd;
    TrimStartParts(text);
    TrimEndParts(TrimStart(text));
    var mid := TrimStart(text);
    x := |text| - |mid|;
    y := x + |TrimEnd(mid)|;
    assert mid == text[x..] && mid[|TrimEnd(mid)|..] == text[y..] && mid[..|TrimEnd(mid)|] == text[x..y];
  }

  lemma BracketsAreSolid()
    ensures !IsWhite('[') && !IsWhite(']')
  {
  }

  lemma WrappedIff(text: string)
    ensures IsAttribute(text) <==> IsWrapped(text)
  {
    hide Trim, IsBlank, IsWhite;
    var x, y := TrimBounds(text);
    var t := Trim(text);
    if IsBracketed(t) {
      assert t[0] == t[..1][0] && t[|t| - 1] == t[|t| - 1..][0];
      assert text[x] == t[0] && text[y - 1] == t[|t| - 1];
      assert text[y - 1 + 1..] == text[y..];
    }
    if a, b :| 0 <= a < b < |text| && text[a] == '[' && text[b] == ']' && IsBlank(text[..a]) && IsBlank(text[b + 1..]) {
      BracketsAreSolid();
      TrimIsSlice(text, a, b + 1);
      assert t[..1] == "[" && t[|t| - 1..] == "]";
    }
  }

  lemma TrimIsNothing(text: string)
    ensures Trim(text) == "" <==> IsBlank(text)
  {
    var x, y := TrimBounds(text);
    if IsBlank(text) { BlankTrims(text); }
    if Trim(text) == "" {
      assert x == y;
      assert text == text[..x] + text[x..];
      forall i | 0 <= i < |text| ensures IsWhite(text[i]) {
        if i < x { assert text[..x][i] == text[i]; } else { assert text[x..][i - x] == text[i]; }
      }
    }
  }

  /** Spaces and tabs behind the text are cut off. */
  lemma {:induction false} GapsAreCut(text: string)
    ensures var r := TrimGaps(text);
      && |r| <= |text| && r == text[..|r|] && (forall i :: |r| <= i < |text| ==> text[i] == ' ' || text[i] == '\t')
      && (r != "" ==> r[|r| - 1] != ' ' && r[|r| - 1] != '\t')
    decreases |text|
  {
    if text != "" && (text[|text| - 1] == ' ' || text[|text| - 1] == '\t') {
      GapsAreCut(text[..|text| - 1]);
    }
  }

  /** How a line without the gaps behind it splits at its first marker. */
  ghost predicate Splits(text: string, m: Option<Marker>, term: Option<Label>) {
    && FirstMarker(text, m)
    && (m.Some? ==> m.value.at + m.value.length <= |text|)
    && term ==
       if m.None? || IsBlank(text[..m.value.at]) || IsWrapped(text[..m.value.at]) then None
       else Some(Label(Trim(text[..m.value.at]), TrimStart(text[m.value.at + m.value.length..])))
  }

  /**
    A line is a label exactly when its first pair of colons outside backticks does not open it and stands behind
    a term that is neither blank nor a block attribute; it is split there.
  */
  lemma LabelIff(line: string, m: Option<Marker>, term: Option<Label>)
    requires Splits(TrimGaps(line), m, term)
    ensures LabelOf(line) == term
  {
    hide *;
    LabelIs(line);
    var text := TrimGaps(line);
    MarkerIsFirst(text);
    SplitsFirst(text, m, term);
    OneFirstMarker(text, m, FindMarker(text));
    if m.Some? {
      TrimIsNothing(text[..m.value.at]);
      WrappedIff(text[..m.value.at]);
      SplitsSome(text, m, term);
    } else {
      SplitsNone(text, m, term);
    }
  }

  lemma SplitsFirst(text: string, m: Option<Marker>, term: Option<Label>)
    requires Splits(text, m, term)
    ensures FirstMarker(text, m) && (m.Some? ==> m.value.at + m.value.length <= |text|)
  {
  }

  lemma SplitsSome(text: string, m: Option<Marker>, term: Option<Label>)
    requires Splits(text, m, term) && m.Some? && m.value.at + m.value.length <= |text|
    ensures term == if IsBlank(text[..m.value.at]) || IsWrapped(text[..m.value.at]) then None
                    else Some(Label(Trim(text[..m.value.at]), TrimStart(text[m.value.at + m.value.length..])))
  {
  }

  lemma SplitsNone(text: string, m: Option<Marker>, term: Option<Label>)
    requires Splits(text, m, term) && m.None?
    ensures term == None
  {
  }

  lemma MarkerIsFirst(text: string)
    ensures FirstMarker(text, FindMarker(text))
  {
    hide FirstMarker, MarkerFrom;
    MarkerFromIsFirst(text, 0, false);
  }

  lemma OneFirstMarker(text: string, m: Option<Marker>, n: Option<Marker>)
    requires FirstMarker(text, m) && FirstMarker(text, n)
    ensures m == n
  {
    hide MarkerAt;
    if m.Some? && n.Some? {
      assert m.value.at == n.value.at;
    }
  }

  // ---- Which lines an item takes ----

  ghost predicate HasMarker(text: string) {
    !MarkerAt(text, 0) && exists i :: 0 < i < |text| && MarkerAt(text, i)
  }

  ghost predicate IsHeading(text: string) {
    exists n :: 0 < n < |text| && text[n] == ' ' && forall i :: 0 <= i < n ==> text[i] == '='
  }

  predicate IsIndented(line: string) {
    |line| > 0 && (line[0] == '\t' || (|line| > 1 && line[0] == ' ' && line[1] == ' '))
  }

  /** At the left margin: the next label, a heading or a block attribute. */
  ghost predicate Closes(line: string) {
    !IsIndented(line) && (HasMarker(TrimEnd(line)) || IsHeading(TrimEnd(line)) || IsWrapped(line))
  }

  predicate IsPlus(line: string) {
    line != "" && line[0] == '+' && IsBlank(line[1..])
  }

  /** Behind the item's label and below a `+`, with no blank line between. */
  ghost predicate Attached(lines: seq<string>, start: nat, j: nat)
    requires j <= |lines|
  {
    exists p :: start < p < j && IsPlus(lines[p]) && forall k :: p < k < j ==> !IsBlank(lines[k])
  }

  predicate BelowBlank(lines: seq<string>, start: nat, j: nat)
    requires start < j <= |lines|
  {
    j > start + 1 && IsBlank(lines[j - 1])
  }

  /** Whether an item that started at `start` and reaches line `j` takes it. */
  ghost predicate Takes(lines: seq<string>, start: nat, j: nat)
    requires start < j < |lines|
  {
    if IsBlank(lines[j]) then !BelowBlank(lines, start, j)
    else !Closes(lines[j]) && (IsPlus(lines[j]) || IsIndented(lines[j]) || Attached(lines, start, j))
  }

  /** The item takes every line up to `end` and not the line there. */
  ghost predicate Reaches(lines: seq<string>, start: nat, end: nat) {
    && start < end <= |lines|
    && (forall j :: start < j < end ==> Takes(lines, start, j))
    && (end < |lines| ==> !Takes(lines, start, end))
  }

  lemma HeadingIff(text: string)
    ensures StartsWith(text, "=") && StartsWith(AfterEquals(text), " ") <==> IsHeading(text)
  {
    hide StartsWith;
    var n := EqualsOf(text);
    FirstIs(text, '=');
    FirstIs(AfterEquals(text), ' ');
    if m :| 0 < m < |text| && text[m] == ' ' && forall i :: 0 <= i < m ==> text[i] == '=' {
      assert m == n;
    }
  }

  lemma FirstIs(text: string, c: char)
    ensures StartsWith(text, [c]) <==> text != "" && text[0] == c
  {
  }

  lemma {:induction false} EqualsOf(text: string) returns (n: nat)
    ensures n <= |text| && AfterEquals(text) == text[n..] && (n < |text| ==> text[n] != '=')
    ensures forall i :: 0 <= i < n ==> text[i] == '='
  {
    if text != "" && text[0] == '=' {
      var m := EqualsOf(text[1..]);
      n := m + 1;
      assert forall i :: 0 < i < n ==> text[i] == text[1..][i - 1];
    } else {
      n := 0;
      assert text[0..] == text;
    }
  }

  lemma MarkerIff(text: string)
    ensures FindMarker(text).Some? <==> HasMarker(text)
  {
    hide FindMarker, Ticks, MarkerAt;
    MarkerIsFirst(text);
    MarkerAtEnd(text);
  }

  lemma MarkerAtEnd(text: string)
    ensures MarkerAt(text, 0) ==> 0 < |text|
    ensures forall i :: i >= |text| ==> !MarkerAt(text, i)
  {
  }

  lemma IndentedIff(line: string)
    ensures Indented(line) <==> IsIndented(line)
  {
    assert StartsWith(line, "\t") <==> line != "" && line[0] == '\t' by { FirstIs(line, '\t'); }
    assert |line| > 1 ==> line[..2] == [line[0], line[1]];
  }

  lemma WrappedEnd(line: string)
    ensures IsAttribute(TrimEnd(line)) <==> IsWrapped(line)
  {
    hide IsWrapped, Trim, TrimEnd;
    TrimOfEnd(line);
    WrappedIff(line);
  }

  lemma ClosesIff(line: string)
    ensures EndsItem(line) <==> Closes(line)
  {
    hide FindMarker, HasMarker, StartsWith, AfterEquals, IsHeading, IsAttribute, IsWrapped, Indented, IsIndented;
    hide TrimEnd;
    var text := TrimEnd(line);
    IndentedIff(line);
    MarkerIff(text);
    HeadingIff(text);
    WrappedEnd(line);
  }

  lemma PlusIff(line: string)
    ensures TrimEnd(line) == "+" <==> IsPlus(line)
  {
    hide TrimEnd;
    TrimEndParts(line);
    if TrimEnd(line) == "+" { assert line[..1][0] == line[0]; }
    if IsPlus(line) {
      TrimEndIs(line, 1);
      assert line[..1] == "+";
    }
  }

  // ---- What becomes of them ----

  /** Whether the item has text right above line `j`: on its label line for the first one. */
  predicate BelowText(lines: seq<string>, start: nat, rest: string, j: nat)
    requires start < j <= |lines|
  {
    if j == start + 1 then rest != "" else !IsBlank(lines[j - 1]) && !IsPlus(lines[j - 1])
  }

  /** A tab is taken off the front, or two to four spaces. */
  function Shifted(line: string): string {
    if line != "" && line[0] == '\t' then line[1..]
    else
      var n := Spaces(line);
      if n < 2 then line else if n < 4 then line[n..] else line[4..]
  }

  function Spaces(line: string): (n: nat)
    ensures n <= |line| && (n < |line| ==> line[n] != ' ') && forall i :: 0 <= i < n ==> line[i] == ' '
  {
    if line == "" || line[0] != ' ' then 0
    else
      var n := Spaces(line[1..]);
      assert forall i :: 0 < i < n + 1 ==> line[i] == line[1..][i - 1];
      n + 1
  }

  /** A blank line stays one, a `+` becomes one below text, any other line is shifted left. */
  function Piece(lines: seq<string>, start: nat, rest: string, j: nat): seq<string>
    requires start < j < |lines|
  {
    if IsBlank(lines[j]) then [""]
    else if IsPlus(lines[j]) then (if BelowText(lines, start, rest, j) then [""] else [])
    else [TrimEnd(Shifted(lines[j]))]
  }

  function Pieces(lines: seq<string>, start: nat, rest: string, j: nat, end: nat): seq<string>
    requires start < j <= end <= |lines|
    decreases end - j
  {
    if j == end then [] else Piece(lines, start, rest, j) + Pieces(lines, start, rest, j + 1, end)
  }

  lemma OutdentIs(line: string)
    ensures Outdent(line) == Shifted(line)
  {
    var n := Spaces(line);
    FirstIs(line, '\t');
    SpacesIff(line, "  ");
    SpacesIff(line, "   ");
    SpacesIff(line, "    ");
  }

  lemma SpacesIff(line: string, spaces: string)
    requires forall i :: 0 <= i < |spaces| ==> spaces[i] == ' '
    ensures StartsWith(line, spaces) <==> |spaces| <= Spaces(line)
  {
    var n := Spaces(line);
    assert StartsWith(line, spaces) ==> forall i :: 0 <= i < |spaces| ==> line[i] == line[..|spaces|][i];
    if |spaces| <= n { assert line[..|spaces|] == spaces; }
  }

  /** What the scan knows in front of line `j`, in terms of the lines above. */
  ghost predicate Knows(lines: seq<string>, start: nat, rest: string, j: nat, body: seq<string>, blanks: nat,
      afterPlus: bool)
    requires start < j <= |lines|
  {
    && blanks == (if BelowBlank(lines, start, j) then 1 else 0)
    && (afterPlus <==> Attached(lines, start, j))
    && (EndsEmpty(body) <==> !BelowText(lines, start, rest, j))
  }

  lemma AttachedNext(lines: seq<string>, start: nat, j: nat)
    requires start < j < |lines|
    ensures Attached(lines, start, j + 1) <==>
      IsPlus(lines[j]) || (!IsBlank(lines[j]) && Attached(lines, start, j))
    ensures !Attached(lines, start, start + 1)
  {
    hide IsPlus, IsBlank;
    if p :| start < p < j + 1 && IsPlus(lines[p]) && forall k :: p < k < j + 1 ==> !IsBlank(lines[k]) {
      if p < j { assert !IsBlank(lines[j]); }
    }
    if !IsBlank(lines[j]) && Attached(lines, start, j) {
      var p :| start < p < j && IsPlus(lines[p]) && forall k :: p < k < j ==> !IsBlank(lines[k]);
      assert forall k :: p < k < j + 1 ==> !IsBlank(lines[k]);
    }
  }

  // ---- The scan takes them in that way ----

  lemma ScanStops(lines: seq<string>, start: nat, rest: string, j: nat, body: seq<string>, blanks: nat, afterPlus: bool)
    requires start < j < |lines| && Knows(lines, start, rest, j, body, blanks, afterPlus) && !Takes(lines, start, j)
    ensures Absorb(lines, j, body, blanks, afterPlus) == Scan(j, body)
  {
    hide Absorb, EndsItem, Closes, Indented, IsIndented, IsPlus, IsBlank, TrimEnd, Outdent, Attached, BelowText;
    hide EndsEmpty;
    AbsorbStep(lines, j, body, blanks, afterPlus);
    BlankIff(lines[j]);
    ClosesIff(lines[j]);
    PlusIff(lines[j]);
    IndentedIff(lines[j]);
  }

  lemma ScanGoes(lines: seq<string>, start: nat, rest: string, j: nat, body: seq<string>, blanks: nat, afterPlus: bool)
    returns (more: nat, plus: bool)
    requires start < j < |lines| && Knows(lines, start, rest, j, body, blanks, afterPlus) && Takes(lines, start, j)
    ensures var next := body + Piece(lines, start, rest, j);
      && Absorb(lines, j, body, blanks, afterPlus) == Absorb(lines, j + 1, next, more, plus)
      && Knows(lines, start, rest, j + 1, next, more, plus)
  {
    hide Absorb, EndsItem, Closes, Indented, IsIndented, IsPlus, IsBlank, TrimEnd, Outdent, Attached, Shifted;
    var line := lines[j];
    AbsorbStep(lines, j, body, blanks, afterPlus);
    BlankIff(line);
    ClosesIff(line);
    PlusIff(line);
    IndentedIff(line);
    OutdentIs(line);
    AttachedNext(lines, start, j);
    if IsBlank(line) {
      more, plus := 1, false;
    } else if IsPlus(line) {
      more, plus := 0, true;
      assert body + [] == body;
    } else {
      OutdentKeeps(line);
      more, plus := 0, afterPlus;
    }
  }

  lemma {:induction false} Scanned(lines: seq<string>, start: nat, rest: string, j: nat, body: seq<string>,
      blanks: nat, afterPlus: bool, end: nat)
    requires start < j <= end && Reaches(lines, start, end)
    requires Knows(lines, start, rest, j, body, blanks, afterPlus)
    ensures Absorb(lines, j, body, blanks, afterPlus) == Scan(end, body + Pieces(lines, start, rest, j, end))
    decreases end - j
  {
    hide Absorb, Knows, Takes, Piece;
    if j < end {
      var more, plus := ScanGoes(lines, start, rest, j, body, blanks, afterPlus);
      var next := body + Piece(lines, start, rest, j);
      Scanned(lines, start, rest, j + 1, next, more, plus, end);
      assert next + Pieces(lines, start, rest, j + 1, end) == body + Pieces(lines, start, rest, j, end);
    } else {
      assert body + [] == body;
      if j < |lines| {
        ScanStops(lines, start, rest, j, body, blanks, afterPlus);
      } else {
        AbsorbEnd(lines, body, blanks, afterPlus);
      }
    }
  }

  /** The item's body before the empty lines at its end are cut off. */
  function Body(lines: seq<string>, start: nat, rest: string, end: nat): seq<string>
    requires start < end <= |lines|
  {
    (if rest == "" then [] else [rest]) + Pieces(lines, start, rest, start + 1, end)
  }

  ghost predicate EndsAt(body: seq<string>, k: nat) {
    && k <= |body| && (forall i :: k <= i < |body| ==> body[i] == "") && (k > 0 ==> body[k - 1] != "")
  }

  lemma {:induction false} CutEnd(body: seq<string>, k: nat)
    requires EndsAt(body, k)
    ensures DropEmptyEnd(body) == body[..k]
    decreases |body|
  {
    if k < |body| {
      CutEnd(body[..|body| - 1], k);
      assert body[..|body| - 1][..k] == body[..k];
    } else {
      assert body[..k] == body;
    }
  }

  lemma StartKnows(lines: seq<string>, start: nat, rest: string)
    requires start < |lines|
    ensures Knows(lines, start, rest, start + 1, if rest == "" then [] else [rest], 0, false)
  {
    hide IsPlus, IsBlank;
  }

  /** What an item comes out as: the term in bold and, unless it is empty, the body below a blank line. */
  function Written(term: Label, body: seq<string>): seq<string> {
    ["**" + term.text + "**"] + if body == [] then [] else [""] + body
  }

  lemma ItemWrites(lines: seq<string>, i: nat, term: Label, end: nat, k: nat)
    requires i < |lines| && LabelOf(lines[i]) == Some(term) && Reaches(lines, i, end) && i < end <= |lines|
    requires EndsAt(Body(lines, i, term.rest, end), k) && k <= |Body(lines, i, term.rest, end)|
    ensures Item(lines, i) == Some(Rewrite(Written(term, Body(lines, i, term.rest, end)[..k]), end - i))
  {
    hide *;
    var first := if term.rest == "" then [] else [term.rest];
    ItemIs(lines, i);
    FirstBodyIs(term);
    StartKnows(lines, i, term.rest);
    Scanned(lines, i, term.rest, i + 1, first, 0, false, end);
    BodyIs(lines, i, term.rest, end);
    CutEnd(Body(lines, i, term.rest, end), k);
    WrittenIs(term, Body(lines, i, term.rest, end)[..k]);
  }

  lemma BodyIs(lines: seq<string>, start: nat, rest: string, end: nat)
    requires Reaches(lines, start, end)
    ensures start < end <= |lines|
    ensures Body(lines, start, rest, end) ==
      (if rest == "" then [] else [rest]) + Pieces(lines, start, rest, start + 1, end)
  {
  }

  lemma WrittenIs(term: Label, body: seq<string>)
    ensures Written(term, body) == if body == [] then [Bold(term.text)] else [Bold(term.text), ""] + body
  {
    assert [Bold(term.text)] + ([""] + body) == [Bold(term.text), ""] + body;
    assert [Bold(term.text)] + [] == [Bold(term.text)];
  }

  lemma NoOpener(lines: seq<string>, i: nat)
    requires i < |lines| && forall ch :: !OpensListing(lines, i, ch)
    ensures Opener(lines, i) == None
  {
    hide OpensListing, Opener;
    if Opener(lines, i).Some? { OpenerIff(lines, i, Opener(lines, i).value); }
  }

  /**
    Outside a listing a label line and the lines its item takes come out as the bold term and the body, and the
    pass goes on behind them.
  */
  lemma LabelIsRewritten(lines: seq<string>, i: nat, m: Option<Marker>, term: Label, end: nat, k: nat)
    requires i < |lines| && (forall ch :: !OpensListing(lines, i, ch)) && Splits(TrimGaps(lines[i]), m, Some(term))
    requires Reaches(lines, i, end) && end <= |lines| && i < end && EndsAt(Body(lines, i, term.rest, end), k)
    requires k <= |Body(lines, i, term.rest, end)|
    ensures Pre(lines, i, None) == Written(term, Body(lines, i, term.rest, end)[..k]) + Pre(lines, end, None)
  {
    hide *;
    NoOpener(lines, i);
    LabelIff(lines[i], m, Some(term));
    ItemWrites(lines, i, term, end, k);
    PassStep(lines, i, None);
  }

  /** Any other line outside a listing stands. */
  lemma OtherLineStands(lines: seq<string>, i: nat, m: Option<Marker>)
    requires i < |lines| && (forall ch :: !OpensListing(lines, i, ch)) && Splits(TrimGaps(lines[i]), m, None)
    ensures Pre(lines, i, None) == [lines[i]] + Pre(lines, i + 1, None)
  {
    hide *;
    NoOpener(lines, i);
    LabelIff(lines[i], m, None);
    NoItem(lines, i);
    PassStep(lines, i, None);
  }

  // ---- What stands behind an item ----

  /** Empty or with something on it. */
  ghost predicate Tidy(body: seq<string>) {
    forall i :: 0 <= i < |body| ==> body[i] == "" || !IsBlank(body[i])
  }

  lemma {:induction false} PiecesAreTidy(lines: seq<string>, start: nat, rest: string, j: nat, end: nat)
    requires start < j <= end <= |lines|
    ensures Tidy(Pieces(lines, start, rest, j, end))
    decreases end - j
  {
    hide IsPlus, TrimEnd, Shifted, IsBlank, BelowText;
    if j < end {
      PiecesAreTidy(lines, start, rest, j + 1, end);
      TrimEndIsNotBlank(Shifted(lines[j]));
    }
  }

  lemma LabelIsTrimmed(line: string)
    ensures LabelOf(line).Some? ==> LabelOf(line).value.rest == "" || !IsBlank(LabelOf(line).value.rest)
  {
    hide *;
    if LabelOf(line).Some? { LabelIsHonest(line); }
  }

  /** The first line of the rest of the text comes out blank exactly when it is blank. */
  lemma FirstOut(lines: seq<string>, i: nat)
    requires i < |lines|
    ensures var out := Pre(lines, i, None); out != [] && (IsBlank(out[0]) <==> IsBlank(lines[i]))
  {
    hide *;
    PassStep(lines, i, None);
    if Opener(lines, i).None? && Item(lines, i).Some? {
      ItemUnfolds(lines, i);
      var term := LabelOf(lines[i]).value;
      var scan := Absorb(lines, i + 1, FirstBody(term), 0, false);
      HeadIsBold(term, DropEmptyEnd(scan.body));
      BoldIsNotBlank(term.text);
      LabelHolds(lines[i]);
    }
  }

  lemma HeadIsBold(term: Label, body: seq<string>)
    ensures ItemLines(term, body) != [] && ItemLines(term, body)[0] == Bold(term.text)
  {
  }

  lemma LabelHolds(line: string)
    ensures LabelOf(line).Some? ==> !IsBlank(line)
  {
    hide TrimGaps, Trim, TrimStart, IsAttribute, FindMarker;
    MarkerFits(TrimGaps(line));
    GapsAreCut(line);
    if LabelOf(line).Some? {
      var at := FindMarker(TrimGaps(line)).value.at;
      assert TrimGaps(line)[at] == ':' && line[at] == ':';
    }
  }

  /**
    An item swallows the blank line behind it: what it writes ends with a line of text, and a blank line comes
    next exactly when two blank lines stand there in the source.
  */
  lemma ItemRunsOnIff(lines: seq<string>, i: nat, m: Option<Marker>, term: Label, end: nat, k: nat)
    requires i < |lines| && (forall ch :: !OpensListing(lines, i, ch)) && Splits(TrimGaps(lines[i]), m, Some(term))
    requires Reaches(lines, i, end) && i < end < |lines| && EndsAt(Body(lines, i, term.rest, end), k)
    requires k <= |Body(lines, i, term.rest, end)|
    ensures var (own, rest) := (Written(term, Body(lines, i, term.rest, end)[..k]), Pre(lines, end, None));
      && Pre(lines, i, None) == own + rest && rest != [] && !IsBlank(own[|own| - 1])
      && (IsBlank(rest[0]) <==> end > i + 1 && IsBlank(lines[end - 1]) && IsBlank(lines[end]))
  {
    hide *;
    LabelIsRewritten(lines, i, m, term, end, k);
    LabelIff(lines[i], m, Some(term));
    FirstOut(lines, end);
    LeftOut(lines, i, end);
    LabelIsTrimmed(lines[i]);
    BodyIsTidy(lines, i, term.rest, end);
    WrittenEnds(term, Body(lines, i, term.rest, end), k);
  }

  lemma LeftOut(lines: seq<string>, i: nat, end: nat)
    requires Reaches(lines, i, end) && i < end < |lines|
    ensures IsBlank(lines[end]) ==> end > i + 1 && IsBlank(lines[end - 1])
  {
    hide IsBlank, Closes, Attached;
  }

  lemma BodyIsTidy(lines: seq<string>, i: nat, rest: string, end: nat)
    requires i < end <= |lines| && (rest == "" || !IsBlank(rest))
    ensures Tidy(Body(lines, i, rest, end))
  {
    hide IsBlank, Pieces;
    PiecesAreTidy(lines, i, rest, i + 1, end);
  }

  lemma WrittenEnds(term: Label, body: seq<string>, k: nat)
    requires Tidy(body) && EndsAt(body, k) && k <= |body|
    ensures var own := Written(term, body[..k]); !IsBlank(own[|own| - 1])
  {
    hide IsBlank;
    BoldIsNotBlank(term.text);
    if k > 0 { assert body[..k][k - 1] == body[k - 1]; }
  }
}
