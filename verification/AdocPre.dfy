/** Rewriting AsciiDoc lines the converter would lose: description lists become bold labels with a body. */
module ImportPre {
  import opened Basics
  import opened Whitespace
  import opened ImportText

  // ---- Line tests ----

  predicate IsDelimiter(line: string, ch: char) {
    |line| >= 4 && forall i :: 0 <= i < |line| ==> line[i] == ch
  }

  predicate IsBracketed(text: string) {
    StartsWith(text, "[") && EndsWith(text, "]")
  }

  predicate IsAttribute(term: string) {
    IsBracketed(Trim(term))
  }

  /** The delimiter that opens a listing at line `i`: a run standing alone, not a heading's underline. */
  function Opener(lines: seq<string>, i: nat): Option<char>
    requires i < |lines|
  {
    var line := TrimEnd(lines[i]);
    if line == "" || line[0] !in "-./+" || !IsDelimiter(line, line[0]) then None
    else
      var above := if i == 0 then "" else TrimEnd(lines[i - 1]);
      if above == "" || IsBracketed(above) then Some(line[0]) else None
  }

  function TrimGaps(text: string): (r: string)
    ensures |r| <= |text| && r == text[..|r|] && IsBlank(text[|r|..])
  {
    if text != "" && (text[|text| - 1] == ' ' || text[|text| - 1] == '\t') then
      var r := TrimGaps(text[..|text| - 1]);
      assert text[|r|..] == text[..|text| - 1][|r|..] + [text[|text| - 1]];
      r
    else text
  }

  function Colons(line: string, i: nat, limit: nat): (n: nat)
    requires i <= |line|
    ensures n <= limit && i + n <= |line| && forall k :: i <= k < i + n ==> line[k] == ':'
    ensures n == limit || i + n == |line| || line[i + n] != ':'
    decreases limit
  {
    if limit == 0 || i == |line| || line[i] != ':' then 0 else 1 + Colons(line, i + 1, limit - 1)
  }

  datatype Marker = Marker(at: nat, length: nat)

  /** The first run of two to four colons outside backticks, from `i` on; none if the line starts with it. */
  function MarkerFrom(line: string, i: nat, inTick: bool): (m: Option<Marker>)
    ensures m.Some? ==> 0 < m.value.at && 2 <= m.value.length <= 4 && m.value.at + m.value.length <= |line|
    ensures m.Some? ==> forall k :: m.value.at <= k < m.value.at + m.value.length ==> line[k] == ':'
    decreases |line| - i
  {
    if i + 1 >= |line| then None
    else if line[i] == '`' then MarkerFrom(line, i + 1, !inTick)
    else if !inTick && line[i] == ':' && line[i + 1] == ':' then
      if i == 0 then None else Some(Marker(i, 2 + Colons(line, i + 2, 2)))
    else MarkerFrom(line, i + 1, inTick)
  }

  function FindMarker(line: string): Option<Marker> {
    MarkerFrom(line, 0, false)
  }

  predicate Indented(line: string) {
    StartsWith(line, "\t") || StartsWith(line, "  ")
  }

  function Outdent(line: string): string {
    if StartsWith(line, "\t") then line[1..]
    else if StartsWith(line, "    ") then line[4..]
    else if StartsWith(line, "   ") then line[3..]
    else if StartsWith(line, "  ") then line[2..]
    else line
  }

  function AfterEquals(text: string): string {
    if text != "" && text[0] == '=' then AfterEquals(text[1..]) else text
  }

  /** A line at column 0 that ends an item whatever came before: the next label, a heading, a block attribute. */
  predicate EndsItem(line: string) {
    !Indented(line) &&
    var text := TrimEnd(line);
    || (FindMarker(text).Some? && !IsAttribute(text))
    || (StartsWith(text, "=") && StartsWith(AfterEquals(text), " "))
    || IsAttribute(text)
  }

  // ---- One item ----

  datatype Scan = Scan(next: nat, body: seq<string>)

  predicate EndsEmpty(body: seq<string>) {
    body == [] || body[|body| - 1] == ""
  }

  /** The lines an item takes in from `j` on: indented ones, one block behind a `+`, single blank lines. */
  function Absorb(lines: seq<string>, j: nat, body: seq<string>, blanks: nat, afterPlus: bool): (s: Scan)
    requires j <= |lines|
    ensures j <= s.next <= |lines|
    decreases |lines| - j
  {
    if j == |lines| then Scan(j, body)
    else
      var line := lines[j];
      var text := TrimEnd(line);
      if text == "" then
        if blanks + 1 >= 2 then Scan(j, body) else Absorb(lines, j + 1, body + [""], blanks + 1, false)
      else if EndsItem(line) then Scan(j, body)
      else if text == "+" then Absorb(lines, j + 1, if EndsEmpty(body) then body else body + [""], 0, true)
      else if !Indented(line) && !afterPlus then Scan(j, body)
      else Absorb(lines, j + 1, body + [TrimEnd(Outdent(line))], 0, afterPlus)
  }

  function DropEmptyEnd(body: seq<string>): seq<string> {
    if body != [] && body[|body| - 1] == "" then DropEmptyEnd(body[..|body| - 1]) else body
  }

  /** A label line split at its marker. */
  datatype Label = Label(text: string, rest: string)

  function LabelOf(line: string): Option<Label> {
    var text := TrimGaps(line);
    match FindMarker(text)
    case None => None
    case Some(m) =>
      var term := text[..m.at];
      if Trim(term) == "" || IsAttribute(term) then None
      else Some(Label(Trim(term), TrimStart(text[m.at + m.length..])))
  }

  datatype Rewrite = Rewrite(lines: seq<string>, consumed: nat)

  function Bold(term: string): string {
    "**" + term + "**"
  }

  function FirstBody(term: Label): seq<string> {
    if term.rest == "" then [] else [term.rest]
  }

  function ItemLines(term: Label, body: seq<string>): seq<string> {
    if body == [] then [Bold(term.text)] else [Bold(term.text), ""] + body
  }

  function Item(lines: seq<string>, start: nat): (r: Option<Rewrite>)
    requires start < |lines|
    ensures r.Some? ==> 0 < r.value.consumed <= |lines| - start
  {
    match LabelOf(lines[start])
    case None => None
    case Some(term) =>
      var scan := Absorb(lines, start + 1, FirstBody(term), 0, false);
      Some(Rewrite(ItemLines(term, DropEmptyEnd(scan.body)), scan.next - start))
  }

  // ---- The whole pass ----

  /** `listing` is the delimiter of the listing the scan is in, if any. */
  function Pre(lines: seq<string>, i: nat, listing: Option<char>): seq<string>
    requires i <= |lines|
    decreases |lines| - i
  {
    if i == |lines| then []
    else if listing.Some? then
      [lines[i]] + Pre(lines, i + 1, if IsDelimiter(TrimEnd(lines[i]), listing.value) then None else listing)
    else if Opener(lines, i).Some? then [lines[i]] + Pre(lines, i + 1, Opener(lines, i))
    else
      match Item(lines, i)
      case Some(r) => r.lines + Pre(lines, i + r.consumed, None)
      case None => [lines[i]] + Pre(lines, i + 1, None)
  }

  // ---- The loops ----

  /** Number of backticks in front of position `i`. */
  function Ticks(line: string, i: nat): nat
    requires i <= |line|
  {
    if i == 0 then 0 else Ticks(line, i - 1) + (if line[i - 1] == '`' then 1 else 0)
  }

  /** Two colons outside backticks. */
  predicate MarkerAt(line: string, i: nat) {
    i + 1 < |line| && line[i] == ':' && line[i + 1] == ':' && Ticks(line, i) % 2 == 0
  }

  /**
    The first two colons outside backticks, with the run they open, cut off after four; nothing if they open the
    line.
  */
  ghost predicate FirstMarker(line: string, m: Option<Marker>) {
    match m
    case Some(Marker(at, length)) =>
      && at > 0 && MarkerAt(line, at) && (forall j :: 0 <= j < at ==> !MarkerAt(line, j))
      && 2 <= length <= 4 && at + length <= |line| && (forall k :: at <= k < at + length ==> line[k] == ':')
      && (length == 4 || at + length == |line| || line[at + length] != ':')
    case None => MarkerAt(line, 0) || forall j :: 0 <= j < |line| ==> !MarkerAt(line, j)
  }

  lemma {:induction false} MarkerFromIsFirst(line: string, i: nat, inTick: bool)
    requires i <= |line| && inTick == (Ticks(line, i) % 2 == 1)
    requires forall j :: 0 <= j < i ==> !MarkerAt(line, j)
    ensures FirstMarker(line, MarkerFrom(line, i, inTick))
    decreases |line| - i
  {
    if i + 1 < |line| {
      if line[i] == '`' {
        MarkerFromIsFirst(line, i + 1, !inTick);
      } else if inTick || line[i] != ':' || line[i + 1] != ':' {
        MarkerFromIsFirst(line, i + 1, inTick);
      } else {
        assert MarkerAt(line, i);
      }
    }
  }

  /** The index loop. */
  method FindDlistMarker(line: string) returns (m: Option<Marker>)
    ensures m == FindMarker(line) && FirstMarker(line, m)
  {
    MarkerFromIsFirst(line, 0, false);
    hide FirstMarker, Ticks;
    var inTick := false;
    var i := 0;
    while i + 1 < |line|
      invariant FindMarker(line) == MarkerFrom(line, i, inTick)
    {
      var c := line[i];
      if c == '`' {
        inTick := !inTick;
        i := i + 1;
        continue;
      }
      if !inTick && c == ':' && line[i + 1] == ':' {
        if i == 0 {
          return None;
        }
        var length := 2;
        while i + length < |line| && line[i + length] == ':' && length < 4
          invariant 2 <= length <= 4 && i + length <= |line|
          invariant length + Colons(line, i + length, 4 - length) == 2 + Colons(line, i + 2, 2)
        {
          length := length + 1;
        }
        return Some(Marker(i, length));
      }
      i := i + 1;
    }
    return None;
  }

  /** The scan over an item's continuation lines, with the body collected so far. */
  method AbsorbLines(lines: seq<string>, from: nat, first: seq<string>) returns (j: nat, body: seq<string>)
    requires from <= |lines|
    ensures Absorb(lines, from, first, 0, false) == Scan(j, body)
  {
    hide FindMarker, TrimEnd, IsAttribute, EndsItem, Outdent, Indented, Absorb;
    body := first;
    j := from;
    var blanks := 0;
    var afterPlus := false;
    while j < |lines|
      invariant j <= |lines|
      invariant Absorb(lines, j, body, blanks, afterPlus) == Absorb(lines, from, first, 0, false)
    {
      AbsorbStep(lines, j, body, blanks, afterPlus);
      var line := lines[j];
      if TrimEnd(line) == "" {
        blanks := blanks + 1;
        if blanks >= 2 {
          break;
        }
        afterPlus := false;
        body := body + [""];
        j := j + 1;
        continue;
      }
      if EndsItem(line) {
        break;
      }
      blanks := 0;
      if TrimEnd(line) == "+" {
        if !EndsEmpty(body) {
          body := body + [""];
        }
        afterPlus := true;
        j := j + 1;
        continue;
      }
      if !Indented(line) && !afterPlus {
        break;
      }
      body := body + [TrimEnd(Outdent(line))];
      j := j + 1;
    }
    if j == |lines| { AbsorbEnd(lines, body, blanks, afterPlus); }
  }

  lemma ItemIs(lines: seq<string>, start: nat)
    requires start < |lines|
    ensures LabelOf(lines[start]).None? ==> Item(lines, start) == None
    ensures LabelOf(lines[start]).Some? ==> (
      var term := LabelOf(lines[start]).value;
      var scan := Absorb(lines, start + 1, FirstBody(term), 0, false);
      var body := DropEmptyEnd(scan.body);
      Item(lines, start) ==
        Some(Rewrite(if body == [] then [Bold(term.text)] else [Bold(term.text), ""] + body, scan.next - start)))
  {
    hide LabelOf, Absorb, DropEmptyEnd, Bold;
  }

  lemma LabelIs(line: string)
    ensures FindMarker(TrimGaps(line)).None? ==> LabelOf(line) == None
    ensures FindMarker(TrimGaps(line)).Some? ==> (
      var (text, m) := (TrimGaps(line), FindMarker(TrimGaps(line)).value);
      m.at + m.length <= |text| &&
      LabelOf(line) == if Trim(text[..m.at]) == "" || IsAttribute(text[..m.at]) then None
                       else Some(Label(Trim(text[..m.at]), TrimStart(text[m.at + m.length..]))))
  {
    hide FindMarker, Trim, TrimGaps, TrimStart, IsAttribute, IsBlank, IsWhite;
    MarkerFits(TrimGaps(line));
  }

  lemma FirstBodyIs(term: Label)
    ensures FirstBody(term) == if term.rest == "" then [] else [term.rest]
  {
  }

  lemma DropStep(body: seq<string>)
    ensures DropEmptyEnd(body) ==
      if body != [] && body[|body| - 1] == "" then DropEmptyEnd(body[..|body| - 1]) else body
  {
  }

  /** The term and inline text of a marked line; neither an empty term nor an attribute is a label. */
  method SplitLabel(line: string) returns (term: Option<Label>)
    ensures term == LabelOf(line)
  {
    hide *;
    LabelIs(line);
    var text := TrimGaps(line);
    var found := FindDlistMarker(text);
    if found.None? {
      return None;
    }
    var name := text[..found.value.at];
    if Trim(name) == "" || IsAttribute(name) {
      return None;
    }
    return Some(Label(Trim(name), TrimStart(text[found.value.at + found.value.length..])));
  }

  method DescriptionListRewrite(lines: seq<string>, start: nat) returns (r: Option<Rewrite>)
    requires start < |lines|
    ensures r == Item(lines, start)
  {
    hide *;
    ItemIs(lines, start);
    var term := SplitLabel(lines[start]);
    if term.None? {
      return None;
    }
    FirstBodyIs(term.value);
    var first: seq<string> := [];
    if term.value.rest != "" {
      first := [term.value.rest];
    }
    var j, body := AbsorbLines(lines, start + 1, first);
    ghost var whole := body;
    while body != [] && body[|body| - 1] == ""
      invariant DropEmptyEnd(body) == DropEmptyEnd(whole)
      decreases |body|
    {
      DropStep(body);
      body := body[..|body| - 1];
    }
    DropStep(body);
    if body == [] {
      return Some(Rewrite([Bold(term.value.text)], j - start));
    }
    return Some(Rewrite([Bold(term.value.text), ""] + body, j - start));
  }

  lemma MarkerFits(text: string)
    ensures FindMarker(text).Some? ==>
      FindMarker(text).value.at + FindMarker(text).value.length <= |text| && 2 <= FindMarker(text).value.length <= 4
    ensures FindMarker(text).Some? ==>
      forall k ::
        FindMarker(text).value.at <= k < FindMarker(text).value.at + FindMarker(text).value.length ==> text[k] == ':'
  {
  }

  lemma AbsorbEnd(lines: seq<string>, body: seq<string>, blanks: nat, afterPlus: bool)
    ensures Absorb(lines, |lines|, body, blanks, afterPlus) == Scan(|lines|, body)
  {
  }

  /** One turn of the scan. */
  lemma AbsorbStep(lines: seq<string>, j: nat, body: seq<string>, blanks: nat, afterPlus: bool)
    requires j < |lines|
    ensures var (line, text) := (lines[j], TrimEnd(lines[j]));
      Absorb(lines, j, body, blanks, afterPlus) ==
      if text == "" then
        if blanks + 1 >= 2 then Scan(j, body) else Absorb(lines, j + 1, body + [""], blanks + 1, false)
      else if EndsItem(line) then Scan(j, body)
      else if text == "+" then Absorb(lines, j + 1, if EndsEmpty(body) then body else body + [""], 0, true)
      else if !Indented(line) && !afterPlus then Scan(j, body)
      else Absorb(lines, j + 1, body + [TrimEnd(Outdent(line))], 0, afterPlus)
  {
  }

  method PreprocessAdoc(source: string) returns (out: string)
    ensures out == LinesToText(Pre(TextToLines(source), 0, None))
  {
    hide IsDelimiter, Opener, Item, LinesToText, TextToLines;
    var lines := TextToLines(source);
    ghost var done: seq<string> := [];
    out := "";
    NoText();
    var listing: Option<char> := None;
    var i := 0;
    while i < |lines|
      invariant i <= |lines| && out == LinesToText(done)
      invariant done + Pre(lines, i, listing) == Pre(lines, 0, None)
      decreases |lines| - i
    {
      ghost var rest := Pre(lines, i, listing);
      if listing.Some? {
        if IsDelimiter(TrimEnd(lines[i]), listing.value) {
          listing := None;
        }
      } else {
        var opener := Opener(lines, i);
        if opener.Some? {
          listing := opener;
        } else {
          var rewrite := DescriptionListRewrite(lines, i);
          if rewrite.Some? {
            PushLines(done, rewrite.value.lines);
            out := out + LinesToText(rewrite.value.lines);
            done := done + rewrite.value.lines;
            i := i + rewrite.value.consumed;
            continue;
          }
        }
      }
      PushLine(done, lines[i]);
      out := out + lines[i] + "\n";
      done := done + [lines[i]];
      i := i + 1;
    }
    assert Pre(lines, i, listing) == [] && done + [] == done;
  }

  lemma {:induction false} PushLines(done: seq<string>, more: seq<string>)
    ensures LinesToText(done + more) == LinesToText(done) + LinesToText(more)
  {
    if done == [] {
      assert [] + more == more;
    } else {
      assert (done + more)[1..] == done[1..] + more;
      PushLines(done[1..], more);
    }
  }
}
