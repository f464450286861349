/** When a listing opens and closes, told from the source lines alone, and that it passes through untouched. */
module ImportListings {
  import opened Basics
  import opened Whitespace
  import opened ImportText
  import opened ImportPre
  import opened ImportPreFacts

  // ---- Source lines ----

  /** Four or more of one character and nothing behind them but blanks. */
  ghost predicate IsRun(line: string, ch: char) {
    exists k :: 4 <= k <= |line| && (forall i :: 0 <= i < k ==> line[i] == ch) && IsBlank(line[k..])
  }

  /** A line from `[` to `]`, blanks behind it aside. */
  ghost predicate IsBlockAttribute(line: string) {
    exists k :: 2 <= k <= |line| && line[0] == '[' && line[k - 1] == ']' && IsBlank(line[k..])
  }

  predicate DelimiterChar(ch: char) {
    ch == '-' || ch == '.' || ch == '/' || ch == '+'
  }

  /** A run at the start of the file, below a blank line or below a block attribute. */
  ghost predicate OpensListing(lines: seq<string>, i: nat, ch: char) {
    && i < |lines| && DelimiterChar(ch) && IsRun(lines[i], ch)
    && (i == 0 || IsBlank(lines[i - 1]) || IsBlockAttribute(lines[i - 1]))
  }

  /** The listing that line `i` stands in: the last one opened in front of it and not closed by a run of its own. */
  ghost function Inside(lines: seq<string>, i: nat): Option<char>
    requires i <= |lines|
  {
    if i == 0 then None
    else
      match Inside(lines, i - 1)
      case Some(ch) => if IsRun(lines[i - 1], ch) then None else Some(ch)
      case None => OpenedAt(lines, i - 1)
  }

  ghost function OpenedAt(lines: seq<string>, i: nat): Option<char> {
    if exists ch :: OpensListing(lines, i, ch) then
      var ch :| OpensListing(lines, i, ch);
      Some(ch)
    else None
  }

  // ---- The pass tells them in the same way ----

  lemma RunIff(line: string, ch: char)
    requires !IsWhite(ch)
    ensures IsDelimiter(TrimEnd(line), ch) <==> IsRun(line, ch)
  {
    TrimEndParts(line);
    hide TrimEnd;
    var r := TrimEnd(line);
    if IsDelimiter(r, ch) {
      assert forall i :: 0 <= i < |r| ==> line[i] == r[i];
    }
    if k :| 4 <= k <= |line| && (forall i :: 0 <= i < k ==> line[i] == ch) && IsBlank(line[k..]) {
      TrimEndIs(line, k);
    }
  }

  lemma BlankIff(line: string)
    ensures TrimEnd(line) == "" <==> IsBlank(line)
  {
    TrimEndIsNotBlank(line);
    if IsBlank(line) && TrimEnd(line) != "" {
      TrimEndParts(line);
    }
  }

  lemma AttributeIff(line: string)
    ensures IsBracketed(TrimEnd(line)) <==> IsBlockAttribute(line)
  {
    TrimEndParts(line);
    hide TrimEnd;
    var r := TrimEnd(line);
    if IsBracketed(r) {
      assert r[0] == r[..1][0] && r[|r| - 1] == r[|r| - 1..][0];
      assert line[0] == r[0] && line[|r| - 1] == r[|r| - 1];
    }
    if k :| 2 <= k <= |line| && line[0] == '[' && line[k - 1] == ']' && IsBlank(line[k..]) {
      TrimEndIs(line, k);
      assert r == line[..k] && r[..1] == "[" && r[|r| - 1..] == "]";
    }
  }

  lemma OpenerIff(lines: seq<string>, i: nat, ch: char)
    requires i < |lines|
    ensures Opener(lines, i) == Some(ch) <==> OpensListing(lines, i, ch)
  {
    hide TrimEnd, IsRun, IsBlockAttribute, IsBracketed, IsDelimiter;
    var line := TrimEnd(lines[i]);
    if DelimiterChar(ch) { RunIff(lines[i], ch); }
    if i > 0 {
      BlankIff(lines[i - 1]);
      AttributeIff(lines[i - 1]);
    }
    RunStarts(line, ch);
    CharIn(ch);
    if line != "" { CharIn(line[0]); }
  }

  lemma RunStarts(line: string, ch: char)
    ensures IsDelimiter(line, ch) ==> line != "" && line[0] == ch
  {
  }

  lemma CharIn(ch: char)
    ensures ch in "-./+" <==> DelimiterChar(ch)
    ensures DelimiterChar(ch) ==> !IsWhite(ch)
  {
  }

  lemma {:induction false} InsideIs(lines: seq<string>, i: nat)
    requires i <= |lines|
    ensures Inside(lines, i) == ListingAt(lines, i)
    ensures Inside(lines, i).Some? ==> DelimiterChar(Inside(lines, i).value)
    decreases i
  {
    hide IsRun, Opener, TrimEnd, IsDelimiter, OpenedAt;
    if i > 0 {
      InsideIs(lines, i - 1);
      if Inside(lines, i - 1).Some? {
        CharIn(Inside(lines, i - 1).value);
        RunIff(lines[i - 1], Inside(lines, i - 1).value);
      } else {
        OpenedIs(lines, i - 1);
      }
    }
  }

  lemma OpenedIs(lines: seq<string>, i: nat)
    requires i < |lines|
    ensures OpenedAt(lines, i) == Opener(lines, i)
    ensures OpenedAt(lines, i).Some? ==> DelimiterChar(OpenedAt(lines, i).value)
  {
    hide Opener, OpensListing;
    forall ch
      ensures Opener(lines, i) == Some(ch) <==> OpensListing(lines, i, ch)
      ensures OpensListing(lines, i, ch) ==> DelimiterChar(ch)
    {
      OpenerIff(lines, i, ch);
      if OpensListing(lines, i, ch) { OpensIsDelimiter(lines, i, ch); }
    }
  }

  lemma OpensIsDelimiter(lines: seq<string>, i: nat, ch: char)
    requires OpensListing(lines, i, ch)
    ensures DelimiterChar(ch)
  {
  }

  // ---- No item takes in the start of a listing ----

  /** Behind a lone `+` only lines that hold something, and are no block attribute, keep its block open. */
  ghost predicate PlusHolds(lines: seq<string>, j: nat, afterPlus: bool) {
    afterPlus ==> 0 < j <= |lines| && TrimEnd(lines[j - 1]) != "" && !IsBracketed(TrimEnd(lines[j - 1]))
  }

  lemma OpenerStops(lines: seq<string>, i: nat, body: seq<string>, blanks: nat, afterPlus: bool)
    requires i < |lines| && Opener(lines, i).Some? && PlusHolds(lines, i, afterPlus)
    ensures Absorb(lines, i, body, blanks, afterPlus) == Scan(i, body)
  {
    hide EndsItem, TrimEnd, IsBracketed;
    var line, text := lines[i], TrimEnd(lines[i]);
    assert text != "" && text != "+";
    NotIndented(line);
  }

  lemma NotIndented(line: string)
    requires TrimEnd(line) != "" && !IsWhite(TrimEnd(line)[0])
    ensures !Indented(line)
  {
    TrimEndParts(line);
    IndentedIsWhite(line);
    assert line[0] == TrimEnd(line)[0];
  }

  lemma IndentedIsWhite(line: string)
    ensures Indented(line) ==> line != "" && IsWhite(line[0])
  {
    assert StartsWith(line, "\t") ==> line[0] == line[..1][0];
    assert StartsWith(line, "  ") ==> line[0] == line[..2][0];
  }

  /** An absorbed line that holds something is no block attribute. */
  lemma AbsorbedHolds(line: string)
    requires TrimEnd(line) != "" && !EndsItem(line)
    ensures !IsBracketed(TrimEnd(line))
  {
    var text := TrimEnd(line);
    if IsBracketed(text) {
      assert text[0] == text[..1][0];
      NotIndented(line);
      TrimEndParts(line);
      BracketedIsTrimmed(text);
    }
  }

  lemma BracketedIsTrimmed(text: string)
    requires IsBracketed(text)
    ensures IsAttribute(text)
  {
    assert text[0] == text[..1][0] && text[|text| - 1] == text[|text| - 1..][0];
    assert TrimStart(text) == text && TrimEnd(text) == text;
  }

  lemma {:induction false} AbsorbBefore(lines: seq<string>, j: nat, body: seq<string>, blanks: nat, afterPlus: bool,
          i: nat)
    requires j <= i < |lines| && Opener(lines, i).Some? && PlusHolds(lines, j, afterPlus)
    ensures Absorb(lines, j, body, blanks, afterPlus) == Absorb(lines[..i], j, body, blanks, afterPlus)
    decreases i - j
  {
    hide Absorb, EndsItem, TrimEnd, IsBracketed, Indented, Outdent, Opener;
    var front := lines[..i];
    if j == i {
      OpenerStops(lines, i, body, blanks, afterPlus);
      AbsorbEnd(front, body, blanks, afterPlus);
    } else {
      AbsorbStep(lines, j, body, blanks, afterPlus);
      AbsorbStep(front, j, body, blanks, afterPlus);
      assert front[j] == lines[j];
      var text := TrimEnd(lines[j]);
      if text == "" {
        if blanks + 1 < 2 { AbsorbBefore(lines, j + 1, body + [""], blanks + 1, false, i); }
      } else if !EndsItem(lines[j]) {
        AbsorbedHolds(lines[j]);
        if text == "+" {
          AbsorbBefore(lines, j + 1, if EndsEmpty(body) then body else body + [""], 0, true, i);
        } else if Indented(lines[j]) || afterPlus {
          AbsorbBefore(lines, j + 1, body + [TrimEnd(Outdent(lines[j]))], 0, afterPlus, i);
        }
      }
    }
  }

  // ---- The pass in front of a listing ----

  lemma FirstHolds(lines: seq<string>, j: nat)
    ensures PlusHolds(lines, j, false)
  {
  }

  /** The lines an item takes in open no listing. */
  lemma ItemOpensNothing(lines: seq<string>, j: nat, t: nat)
    requires j < t < |lines| && Item(lines, j).Some? && t < j + Item(lines, j).value.consumed
    ensures Opener(lines, t).None?
  {
    hide Absorb, Opener, LabelOf, DropEmptyEnd;
    ItemUnfolds(lines, j);
    if Opener(lines, t).Some? {
      FirstHolds(lines, j + 1);
      AbsorbBefore(lines, j + 1, FirstBody(LabelOf(lines[j]).value), 0, false, t);
    }
  }

  lemma {:induction false} StaysOutside(lines: seq<string>, j: nat, k: nat)
    requires j <= k <= |lines| && ListingAt(lines, j).None?
    requires forall t :: j <= t < k ==> Opener(lines, t).None?
    ensures ListingAt(lines, k).None?
    decreases k
  {
    hide Opener, IsDelimiter, TrimEnd;
    if j < k { StaysOutside(lines, j, k - 1); }
  }

  lemma FrontOpener(lines: seq<string>, i: nat, j: nat)
    requires j < i <= |lines|
    ensures Opener(lines[..i], j) == Opener(lines, j)
  {
    hide TrimEnd, IsDelimiter, IsBracketed;
  }

  lemma FrontItem(lines: seq<string>, i: nat, j: nat)
    requires j < i < |lines| && Opener(lines, i).Some?
    ensures Item(lines[..i], j) == Item(lines, j)
    ensures Item(lines, j).Some? ==> j + Item(lines, j).value.consumed <= i
  {
    hide Absorb, Opener, LabelOf, DropEmptyEnd, ItemLines;
    assert lines[..i][j] == lines[j];
    if LabelOf(lines[j]).Some? {
      FirstHolds(lines, j + 1);
      AbsorbBefore(lines, j + 1, FirstBody(LabelOf(lines[j]).value), 0, false, i);
    }
  }

  /** Up to a line that opens a listing the pass does what it does to the text in front of that line alone. */
  lemma {:induction false} PassBefore(lines: seq<string>, j: nat, i: nat)
    requires j <= i < |lines| && ListingAt(lines, i).None? && Opener(lines, i).Some?
    ensures Pre(lines, j, ListingAt(lines, j)) == Pre(lines[..i], j, ListingAt(lines, j)) + Pre(lines, i, None)
    decreases i - j
  {
    hide *;
    var front, mode := lines[..i], ListingAt(lines, j);
    if j == i {
      PassEndsAt(front, mode);
    } else {
      PassStep(lines, j, mode);
      PassStep(front, j, mode);
      assert front[j] == lines[j];
      FrontOpener(lines, i, j);
      FrontItem(lines, i, j);
      NextListing(lines, j);
      if mode.None? && Opener(lines, j).None? && Item(lines, j).Some? {
        var k := j + Item(lines, j).value.consumed;
        ItemConsumes(lines, j);
        forall t | j < t < k ensures Opener(lines, t).None? { ItemOpensNothing(lines, j, t); }
        StaysOutside(lines, j, k);
        PassBefore(lines, k, i);
        ThreeParts(Item(lines, j).value.lines, Pre(front, k, None), Pre(lines, i, None));
      } else {
        PassBefore(lines, j + 1, i);
        ThreeParts([lines[j]], Pre(front, j + 1, ListingAt(lines, j + 1)), Pre(lines, i, None));
      }
    }
  }

  lemma PassEndsAt(lines: seq<string>, mode: Option<char>)
    ensures Pre(lines, |lines|, mode) == [] && forall s: seq<string> :: [] + s == s
  {
  }

  lemma NextListing(lines: seq<string>, j: nat)
    requires j < |lines|
    ensures ListingAt(lines, j + 1) ==
      if ListingAt(lines, j).Some?
      then (if IsDelimiter(TrimEnd(lines[j]), ListingAt(lines, j).value) then None else ListingAt(lines, j))
      else Opener(lines, j)
  {
    hide IsDelimiter, TrimEnd, Opener;
  }

  lemma ItemConsumes(lines: seq<string>, j: nat)
    requires j < |lines| && Item(lines, j).Some?
    ensures 0 < Item(lines, j).value.consumed <= |lines| - j
  {
  }

  // ---- The listing itself ----

  lemma {:induction false} CloseIs(lines: seq<string>, i: nat, ch: char, k: nat)
    requires i <= k <= |lines| && !IsWhite(ch)
    requires (forall j :: i <= j < k ==> !IsRun(lines[j], ch)) && (k < |lines| ==> IsRun(lines[k], ch))
    ensures Close(lines, i, ch) == k
    decreases k - i
  {
    hide IsRun, IsDelimiter, TrimEnd;
    if i < |lines| { RunIff(lines[i], ch); }
    if i < k { CloseIs(lines, i + 1, ch, k); }
  }

  /**
    A line outside every listing that is a run at the start of the file, below a blank line or below a block
    attribute opens a listing: it and everything up to the first line that is again a run of its character come
    out as they stand, whatever they hold, behind what the text in front of them gives alone.
  */
  lemma ListingPassesThrough(lines: seq<string>, i: nat, ch: char, k: nat)
    requires i < k <= |lines| && Inside(lines, i) == None && OpensListing(lines, i, ch)
    requires (forall j :: i < j < k ==> !IsRun(lines[j], ch)) && (k < |lines| ==> IsRun(lines[k], ch))
    ensures var end := if k < |lines| then k + 1 else k;
      Pre(lines, 0, None) == Pre(lines[..i], 0, None) + lines[i..end] + Pre(lines, end, None)
    ensures k < |lines| ==> Inside(lines, k + 1) == None
  {
    hide *;
    OpensIsDelimiter(lines, i, ch);
    CharIn(ch);
    OpenerIff(lines, i, ch);
    InsideIs(lines, i);
    PassBefore(lines, 0, i);
    NoListingAtStart(lines);
    PassStep(lines, i, None);
    CloseIs(lines, i + 1, ch, k);
    ListingIsVerbatim(lines, i + 1, ch);
    if k < |lines| {
      assert lines[i..k + 1] == [lines[i]] + lines[i + 1..k + 1];
      ThreeParts([lines[i]], lines[i + 1..k + 1], Pre(lines, k + 1, None));
      ThreeParts(Pre(lines[..i], 0, None), lines[i..k + 1], Pre(lines, k + 1, None));
      InsideUntil(lines, i, ch, k);
    } else {
      PassEndsAt(lines, None);
      assert lines[i..k] == [lines[i]] + lines[i + 1..];
      assert Pre(lines[..i], 0, None) + lines[i..k] + [] == Pre(lines[..i], 0, None) + lines[i..k];
    }
  }

  lemma NoListingAtStart(lines: seq<string>)
    ensures ListingAt(lines, 0) == None
  {
  }

  lemma {:induction false} InsideFrom(lines: seq<string>, i: nat, ch: char, k: nat)
    requires i < k <= |lines| && Inside(lines, i) == None && Opener(lines, i) == Some(ch)
    requires forall j :: i < j < k ==> !IsRun(lines[j], ch)
    ensures Inside(lines, k) == Some(ch)
    decreases k
  {
    hide IsRun, Opener, OpenedAt;
    if k == i + 1 { OpenedIs(lines, i); } else { InsideFrom(lines, i, ch, k - 1); }
  }

  lemma InsideUntil(lines: seq<string>, i: nat, ch: char, k: nat)
    requires i < k < |lines| && Inside(lines, i) == None && Opener(lines, i) == Some(ch)
    requires (forall j :: i < j < k ==> !IsRun(lines[j], ch)) && IsRun(lines[k], ch)
    ensures Inside(lines, k + 1) == None
  {
    hide IsRun, Opener, OpenedAt;
    InsideFrom(lines, i, ch, k);
  }

  /** Below any other line a run opens nothing: it is copied like any line without a label. */
  lemma RunOpensNothing(lines: seq<string>, i: nat, ch: char)
    requires i < |lines| && Inside(lines, i) == None && DelimiterChar(ch) && IsRun(lines[i], ch)
    requires i > 0 && !IsBlank(lines[i - 1]) && !IsBlockAttribute(lines[i - 1])
    ensures Pre(lines, i, None) == [lines[i]] + Pre(lines, i + 1, None) && Inside(lines, i + 1) == None
  {
    hide *;
    NoOtherOpener(lines, i, ch);
    OpenedIs(lines, i);
    PassStep(lines, i, None);
    RunHasNoLabel(lines[i], ch);
    NoItem(lines, i);
    NextInside(lines, i);
  }

  lemma NextInside(lines: seq<string>, i: nat)
    requires i < |lines| && Inside(lines, i) == None
    ensures Inside(lines, i + 1) == OpenedAt(lines, i)
  {
    hide OpenedAt;
  }

  lemma NoOtherOpener(lines: seq<string>, i: nat, ch: char)
    requires 0 < i < |lines| && !IsBlank(lines[i - 1]) && !IsBlockAttribute(lines[i - 1])
    ensures OpenedAt(lines, i) == None
  {
    hide IsRun, IsBlank, IsBlockAttribute;
  }

  lemma NoItem(lines: seq<string>, i: nat)
    requires i < |lines| && LabelOf(lines[i]).None?
    ensures Item(lines, i) == None
  {
  }

  lemma RunHasNoLabel(line: string, ch: char)
    requires DelimiterChar(ch) && IsRun(line, ch)
    ensures LabelOf(line) == None
  {
    var k :| 4 <= k <= |line| && (forall i :: 0 <= i < k ==> line[i] == ch) && IsBlank(line[k..]);
    forall i | 0 <= i < |line| ensures line[i] != ':' {
      if i >= k { assert line[k..][i - k] == line[i]; }
    }
    NoColonNoLabel(line);
  }

  lemma NoColonNoLabel(line: string)
    requires forall i :: 0 <= i < |line| ==> line[i] != ':'
    ensures LabelOf(line) == None
  {
    var text := TrimGaps(line);
    assert forall i :: 0 <= i < |text| ==> text[i] == line[i];
    NoColonNoMarker(text, 0, false);
  }

  lemma {:induction false} NoColonNoMarker(line: string, i: nat, inTick: bool)
    requires i <= |line| && forall k :: 0 <= k < |line| ==> line[k] != ':'
    ensures MarkerFrom(line, i, inTick) == None
    decreases |line| - i
  {
    if i < |line| { NoColonNoMarker(line, i + 1, if line[i] == '`' then !inTick else inTick); }
  }
}
