/** The rewriting loses nothing: where every source line goes, and what is never touched. */
module ImportPreFacts {
  import opened Basics
  import opened Whitespace
  import opened ImportText
  import opened ImportPre

  // ---- Listings and unmarked text ----

  /** The first closing delimiter from `i` on. */
  function Close(lines: seq<string>, i: nat, ch: char): (k: nat)
    requires i <= |lines|
    ensures i <= k <= |lines|
    decreases |lines| - i
  {
    if i == |lines| || IsDelimiter(TrimEnd(lines[i]), ch) then i else Close(lines, i + 1, ch)
  }

  /** Everything in a listing, the closing delimiter included, comes out as it stands. */
  lemma {:induction false} ListingIsVerbatim(lines: seq<string>, i: nat, ch: char)
    requires i <= |lines|
    ensures var k := Close(lines, i, ch);
      Pre(lines, i, Some(ch)) == if k == |lines| then lines[i..] else lines[i..k + 1] + Pre(lines, k + 1, None)
    decreases |lines| - i
  {
    hide *;
    if i == |lines| {
      ListingEnds(lines, ch);
    } else {
      var k := Close(lines, i, ch);
      ListingStep(lines, i, ch);
      if !IsDelimiter(TrimEnd(lines[i]), ch) {
        ListingIsVerbatim(lines, i + 1, ch);
        if k < |lines| { ThreeParts([lines[i]], lines[i + 1..k + 1], Pre(lines, k + 1, None)); }
      } else {
        assert lines[i..i + 1] == [lines[i]];
      }
    }
  }

  lemma ListingEnds(lines: seq<string>, ch: char)
    ensures Close(lines, |lines|, ch) == |lines| && Pre(lines, |lines|, Some(ch)) == [] && lines[|lines|..] == []
  {
  }

  lemma ListingStep(lines: seq<string>, i: nat, ch: char)
    requires i < |lines|
    ensures Pre(lines, i, Some(ch)) ==
      [lines[i]] + Pre(lines, i + 1, if IsDelimiter(TrimEnd(lines[i]), ch) then None else Some(ch))
    ensures Close(lines, i, ch) == if IsDelimiter(TrimEnd(lines[i]), ch) then i else Close(lines, i + 1, ch)
  {
    hide IsDelimiter, Item, Opener;
  }

  /** The listing the scan is in before line `i`, as long as it takes lines one by one. */
  function ListingAt(lines: seq<string>, i: nat): Option<char>
    requires i <= |lines|
  {
    if i == 0 then None
    else
      var listing := ListingAt(lines, i - 1);
      if listing.Some? then (if IsDelimiter(TrimEnd(lines[i - 1]), listing.value) then None else listing)
      else Opener(lines, i - 1)
  }

  /** No line outside a listing starts a description-list item. */
  ghost predicate Unmarked(lines: seq<string>) {
    forall i :: 0 <= i < |lines| && ListingAt(lines, i).None? && Opener(lines, i).None? ==> LabelOf(lines[i]).None?
  }

  lemma {:induction false} UnmarkedFrom(lines: seq<string>, i: nat)
    requires i <= |lines| && Unmarked(lines)
    ensures Pre(lines, i, ListingAt(lines, i)) == lines[i..]
    decreases |lines| - i
  {
    hide IsDelimiter, LabelOf, Opener, Absorb;
    if i < |lines| {
      UnmarkedFrom(lines, i + 1);
      assert lines[i..] == [lines[i]] + lines[i + 1..];
    }
  }

  /** Text without a marker outside listings comes out verbatim. */
  lemma UnmarkedIsVerbatim(lines: seq<string>)
    requires Unmarked(lines)
    ensures Pre(lines, 0, None) == lines
  {
    UnmarkedFrom(lines, 0);
  }

  // ---- The fate of every line ----

  datatype Fate = Copied | Labelled(parts: Label) | Absorbed(content: string) | Gap

  /** The non-blank lines a source line turns into. */
  function Says(fate: Fate, line: string): seq<string> {
    match fate
    case Copied => if IsBlank(line) then [] else [line]
    case Labelled(parts) => [Bold(parts.text)] + FirstBody(parts)
    case Absorbed(content) => [content]
    case Gap => []
  }

  /**
    What a fate may do to a line: keep it, split it at its marker, trim it, or drop it when it holds nothing but
    a `+`.
  */
  ghost predicate Honest(fate: Fate, line: string) {
    match fate
    case Copied => true
    case Labelled(parts) => exists label_: string, colons: string, rest: string ::
      && TrimGaps(line) == label_ + colons + rest && 2 <= |colons| <= 4 &&
         (forall i :: 0 <= i < |colons| ==> colons[i] == ':')
      && parts.text == Trim(label_) && parts.text != "" && parts.rest == TrimStart(rest)
    case Absorbed(content) => !IsBlank(content) && Trim(content) == Trim(line)
    case Gap => TrimEnd(line) == "" || TrimEnd(line) == "+"
  }

  function AbsorbFates(lines: seq<string>, j: nat, blanks: nat, afterPlus: bool): seq<Fate>
    requires j <= |lines|
    decreases |lines| - j
  {
    if j == |lines| then []
    else
      var line := lines[j];
      var text := TrimEnd(line);
      if text == "" then
        if blanks + 1 >= 2 then [] else [Gap] + AbsorbFates(lines, j + 1, blanks + 1, false)
      else if EndsItem(line) then []
      else if text == "+" then [Gap] + AbsorbFates(lines, j + 1, 0, true)
      else if !Indented(line) && !afterPlus then []
      else [Absorbed(TrimEnd(Outdent(line)))] + AbsorbFates(lines, j + 1, 0, afterPlus)
  }

  /** One fate for every line from `i` on. */
  function Fates(lines: seq<string>, i: nat, listing: Option<char>): seq<Fate>
    requires i <= |lines|
    decreases |lines| - i
  {
    if i == |lines| then []
    else if listing.Some? then
      [Copied] + Fates(lines, i + 1, if IsDelimiter(TrimEnd(lines[i]), listing.value) then None else listing)
    else if Opener(lines, i).Some? then [Copied] + Fates(lines, i + 1, Opener(lines, i))
    else
      match Item(lines, i)
      case Some(r) => [Labelled(LabelOf(lines[i]).value)] + AbsorbFates(lines, i + 1, 0, false) + Fates(lines,
        i + r.consumed, None)
      case None => [Copied] + Fates(lines, i + 1, None)
  }

  /** The lines' contributions one after the other. */
  function Account(lines: seq<string>, fates: seq<Fate>): seq<string>
    requires |lines| == |fates|
  {
    if lines == [] then [] else Says(fates[0], lines[0]) + Account(lines[1..], fates[1..])
  }

  lemma {:induction false} AccountAppend(a: seq<string>, b: seq<string>, x: seq<Fate>, y: seq<Fate>)
    requires |a| == |x| && |b| == |y|
    ensures Account(a + b, x + y) == Account(a, x) + Account(b, y)
  {
    if a == [] {
      assert a + b == b && x + y == y;
    } else {
      hide Says;
      assert (a + b)[1..] == a[1..] + b && (x + y)[1..] == x[1..] + y;
      AccountAppend(a[1..], b, x[1..], y);
    }
  }

  lemma AccountCons(line: string, lines: seq<string>, fate: Fate, fates: seq<Fate>)
    requires |lines| == |fates|
    ensures Account([line] + lines, [fate] + fates) == Says(fate, line) + Account(lines, fates)
  {
    assert ([line] + lines)[1..] == lines && ([fate] + fates)[1..] == fates;
  }

  // ---- One item ----

  lemma TrimEndIsNotBlank(text: string)
    ensures TrimEnd(text) != "" ==> !IsBlank(TrimEnd(text)) && !IsBlank(text)
    ensures TrimEnd(text) == "" ==> IsBlank(text)
  {
    TrimEndParts(text);
    var r := TrimEnd(text);
    if r != "" { assert !IsWhite(r[|r| - 1]) && text[|r| - 1] == r[|r| - 1]; } else { assert text[0..] == text; }
  }

  lemma OutdentCuts(line: string) returns (k: nat)
    ensures k <= |line| && Outdent(line) == line[k..] && IsBlank(line[..k])
  {
    if StartsWith(line, "\t") {
      k := 1;
      assert line[0] == '\t';
    } else {
      k := if StartsWith(line, "    ") then 4
           else if StartsWith(line, "   ") then 3 else if StartsWith(line, "  ") then 2 else 0;
      assert line[..k] == "    "[..k];
      assert line[0..] == line;
    }
  }

  lemma BlankPrefix(text: string, a: nat)
    requires 0 < a <= |text| && IsBlank(text[..a])
    ensures IsWhite(text[0]) && IsBlank(text[1..][..a - 1])
  {
    var front, tail := text[..a], text[1..][..a - 1];
    assert front[0] == text[0];
    forall i | 0 <= i < |tail| ensures IsWhite(tail[i]) { assert tail[i] == front[i + 1]; }
  }

  lemma {:induction false} TrimStartDrops(text: string, a: nat)
    requires a <= |text| && IsBlank(text[..a])
    ensures TrimStart(text[a..]) == TrimStart(text)
    decreases a
  {
    hide TrimStart, IsBlank;
    if a > 0 {
      BlankPrefix(text, a);
      TrimStartDrops(text[1..], a - 1);
      TrimStartStep(text);
      assert text[1..][a - 1..] == text[a..];
    } else {
      assert text[0..] == text;
    }
  }

  lemma {:induction false} TrimStartSnoc(text: string, c: char)
    requires IsWhite(c)
    ensures TrimStart(text + [c]) == if IsBlank(text) then "" else TrimStart(text) + [c]
  {
    hide TrimStart, IsBlank;
    if text == "" {
      assert text + [c] == [c];
      BlankAlone(c);
    } else {
      assert (text + [c])[1..] == text[1..] + [c];
      TrimStartSnoc(text[1..], c);
      TrimStartStep(text);
      TrimStartStep(text + [c]);
      BlankCons(text);
    }
  }

  lemma BlankAlone(c: char)
    requires IsWhite(c)
    ensures TrimStart([c]) == "" && IsBlank("")
  {
    TrimStartStep([c]);
    assert [c][1..] == "";
  }

  lemma TrimStartStep(text: string)
    requires text != ""
    ensures TrimStart(text) == if IsWhite(text[0]) then TrimStart(text[1..]) else text
  {
    hide IsBlank;
  }

  lemma BlankCons(text: string)
    requires text != ""
    ensures IsBlank(text) <==> IsWhite(text[0]) && IsBlank(text[1..])
  {
    if IsWhite(text[0]) && IsBlank(text[1..]) {
      forall i | 0 <= i < |text| ensures IsWhite(text[i]) { if i > 0 { assert text[1..][i - 1] == text[i]; } }
    }
  }

  lemma TrimSnoc(text: string, c: char)
    requires IsWhite(c)
    ensures Trim(text + [c]) == Trim(text)
  {
    TrimStartSnoc(text, c);
    if IsBlank(text) {
      BlankTrims(text);
    } else {
      var r := TrimStart(text);
      assert (r + [c])[..|r + [c]| - 1] == r;
    }
  }

  lemma {:induction false} BlankTrims(text: string)
    requires IsBlank(text)
    ensures TrimStart(text) == "" && Trim(text) == ""
  {
    if text != "" {
      BlankCons(text);
      BlankTrims(text[1..]);
    }
  }

  /** Trailing whitespace does not matter to the trimmed content. */
  lemma {:induction false} TrimOfEnd(text: string)
    ensures Trim(TrimEnd(text)) == Trim(text)
    decreases |text|
  {
    hide *;
    if text == "" || !IsWhite(text[|text| - 1]) {
      TrimEndStays(text);
    } else {
      var front, c := text[..|text| - 1], text[|text| - 1];
      assert text == front + [c];
      TrimOfEnd(front);
      TrimSnoc(front, c);
      TrimEndSnoc(front, c);
    }
  }

  lemma TrimEndStays(text: string)
    requires text == "" || !IsWhite(text[|text| - 1])
    ensures TrimEnd(text) == text
  {
  }

  lemma TrimEndSnoc(text: string, c: char)
    requires IsWhite(c)
    ensures TrimEnd(text + [c]) == TrimEnd(text)
  {
    assert (text + [c])[..|text|] == text;
  }

  /** An absorbed line keeps its content. */
  lemma OutdentKeeps(line: string)
    requires TrimEnd(line) != ""
    ensures !IsBlank(TrimEnd(Outdent(line))) && Trim(TrimEnd(Outdent(line))) == Trim(line)
    ensures TrimEnd(Outdent(line)) != ""
  {
    hide Outdent, IsBlank, TrimEnd, TrimStart;
    var k := OutdentCuts(line);
    TrimStartDrops(line, k);
    TrimOfEnd(Outdent(line));
    TrimEndIsNotBlank(line);
    TrimEndIsNotBlank(Outdent(line));
    SolidBehindBlank(line, k);
  }

  lemma SolidBehindBlank(line: string, k: nat)
    requires k <= |line| && IsBlank(line[..k]) && !IsBlank(line)
    ensures !IsBlank(line[k..])
  {
    var i :| 0 <= i < |line| && !IsWhite(line[i]);
    assert forall j :: 0 <= j < k ==> line[..k][j] == line[j];
    assert line[k..][i - k] == line[i];
  }

  // ---- The account of one item ----

  lemma {:induction false} DropEmptyEndKeeps(body: seq<string>)
    ensures Solid(DropEmptyEnd(body)) == Solid(body)
  {
    if body != [] && body[|body| - 1] == "" {
      var front := body[..|body| - 1];
      DropEmptyEndKeeps(front);
      SolidAppend(front, [""]);
      assert body == front + [""];
      assert Solid([""]) == [];
    }
  }

  lemma OneMore(body: seq<string>, line: string)
    ensures Solid(body + [line]) == Solid(body) + (if IsBlank(line) then [] else [line])
  {
    SolidAppend(body, [line]);
    assert [line][1..] == [] && Solid([line]) == (if IsBlank(line) then [] else [line]) + Solid([]);
  }

  lemma NothingMore(body: seq<string>)
    ensures Solid(body + [""]) == Solid(body) && Solid(body) + [] == Solid(body)
  {
    OneMore(body, "");
  }

  ghost predicate AllHonest(fates: seq<Fate>, lines: seq<string>, at: nat) {
    at + |fates| <= |lines| && forall k :: 0 <= k < |fates| ==> Honest(fates[k], lines[at + k])
  }

  lemma HonestCons(fate: Fate, fates: seq<Fate>, lines: seq<string>, at: nat)
    requires at < |lines| && Honest(fate, lines[at]) && AllHonest(fates, lines, at + 1)
    ensures AllHonest([fate] + fates, lines, at)
  {
    hide Honest;
    forall k | 0 <= k < |[fate] + fates| ensures Honest(([fate] + fates)[k], lines[at + k]) {
      if k > 0 { assert ([fate] + fates)[k] == fates[k - 1] && lines[at + k] == lines[at + 1 + (k - 1)]; }
    }
  }

  lemma HonestAppend(x: seq<Fate>, y: seq<Fate>, lines: seq<string>, at: nat)
    requires AllHonest(x, lines, at) && AllHonest(y, lines, at + |x|)
    ensures AllHonest(x + y, lines, at)
  {
    hide Honest;
    forall k | 0 <= k < |x + y| ensures Honest((x + y)[k], lines[at + k]) {
      if k >= |x| { assert (x + y)[k] == y[k - |x|] && lines[at + k] == lines[at + |x| + (k - |x|)]; }
    }
  }

  /** The item's body holds what its lines say, one after the other. */
  lemma {:induction false} AbsorbAccount(lines: seq<string>, j: nat, body: seq<string>, blanks: nat, afterPlus: bool)
    requires j <= |lines|
    ensures var (scan, fates) := (Absorb(lines, j, body, blanks, afterPlus), AbsorbFates(lines, j, blanks, afterPlus));
      && j + |fates| == scan.next && AllHonest(fates, lines, j)
      && Solid(scan.body) == Solid(body) + Account(lines[j..scan.next], fates)
    decreases |lines| - j
  {
    hide Absorb, AbsorbFates, EndsItem, Indented, Outdent, Account, Solid, AllHonest, TrimEnd, IsBlank, Trim;
    var scan, fates := Absorb(lines, j, body, blanks, afterPlus), AbsorbFates(lines, j, blanks, afterPlus);
    if fates == [] {
      AbsorbStops(lines, j, body, blanks, afterPlus);
    } else {
      FatesAreThere(lines, j, blanks, afterPlus);
      AbsorbStep(lines, j, body, blanks, afterPlus);
      FatesStep(lines, j, blanks, afterPlus);
      var text := TrimEnd(lines[j]);
      if text == "" {
        AbsorbAccount(lines, j + 1, body + [""], blanks + 1, false);
        NothingMore(body);
        ItemStep(lines, j, body, Gap, body + [""], scan, AbsorbFates(lines, j + 1, blanks + 1, false));
      } else if text == "+" {
        var next := if EndsEmpty(body) then body else body + [""];
        AbsorbAccount(lines, j + 1, next, 0, true);
        NothingMore(body);
        ItemStep(lines, j, body, Gap, next, scan, AbsorbFates(lines, j + 1, 0, true));
      } else {
        var line := TrimEnd(Outdent(lines[j]));
        AbsorbAccount(lines, j + 1, body + [line], 0, afterPlus);
        OutdentKeeps(lines[j]);
        OneMore(body, line);
        ItemStep(lines, j, body, Absorbed(line), body + [line], scan, AbsorbFates(lines, j + 1, 0, afterPlus));
      }
    }
  }

  lemma AbsorbStops(lines: seq<string>, j: nat, body: seq<string>, blanks: nat, afterPlus: bool)
    requires j <= |lines| && AbsorbFates(lines, j, blanks, afterPlus) == []
    ensures Absorb(lines, j, body, blanks, afterPlus) == Scan(j, body) && AllHonest([], lines, j)
    ensures Solid(body) == Solid(body) + Account(lines[j..j], [])
  {
    hide EndsItem, Indented, Outdent, TrimEnd, Solid;
    assert lines[j..j] == [] && Account([], []) == [];
  }

  lemma FatesAreThere(lines: seq<string>, j: nat, blanks: nat, afterPlus: bool)
    requires j <= |lines| && AbsorbFates(lines, j, blanks, afterPlus) != []
    ensures j < |lines|
  {
  }

  lemma FatesStep(lines: seq<string>, j: nat, blanks: nat, afterPlus: bool)
    requires j < |lines| && AbsorbFates(lines, j, blanks, afterPlus) != []
    ensures var (line, text) := (lines[j], TrimEnd(lines[j]));
      && (text == "" ==> blanks + 1 < 2) && (text != "" ==> !EndsItem(line)) &&
         (text != "" && text != "+" ==> Indented(line) || afterPlus)
      && AbsorbFates(lines, j, blanks, afterPlus) ==
      if text == "" then [Gap] + AbsorbFates(lines, j + 1, blanks + 1, false)
      else if text == "+" then [Gap] + AbsorbFates(lines, j + 1, 0, true)
      else [Absorbed(TrimEnd(Outdent(line)))] + AbsorbFates(lines, j + 1, 0, afterPlus)
  {
    hide EndsItem, Indented, Outdent, TrimEnd;
  }

  lemma ItemStep(lines: seq<string>, j: nat, body: seq<string>, fate: Fate, next: seq<string>, scan: Scan,
          rest: seq<Fate>)
    requires j < |lines| && j + 1 + |rest| == scan.next <= |lines| && AllHonest(rest, lines, j + 1)
    requires Honest(fate, lines[j])
    requires Solid(next) == Solid(body) + Says(fate, lines[j])
    requires Solid(scan.body) == Solid(next) + Account(lines[j + 1..scan.next], rest)
    ensures AllHonest([fate] + rest, lines, j)
    ensures Solid(scan.body) == Solid(body) + Account(lines[j..scan.next], [fate] + rest)
  {
    hide Honest, AllHonest, Solid, Says, Account;
    HonestCons(fate, rest, lines, j);
    assert lines[j..scan.next] == [lines[j]] + lines[j + 1..scan.next];
    AccountCons(lines[j], lines[j + 1..scan.next], fate, rest);
    var a, b, c := Solid(body), Says(fate, lines[j]), Account(lines[j + 1..scan.next], rest);
    assert (a + b) + c == a + (b + c);
  }

  // ---- The account of the whole pass ----

  lemma HonestLabel(line: string, parts: Label, a: string, b: string, c: string)
    requires TrimGaps(line) == a + b + c && 2 <= |b| <= 4 && (forall i :: 0 <= i < |b| ==> b[i] == ':')
    requires parts.text == Trim(a) && parts.text != "" && parts.rest == TrimStart(c)
    ensures Honest(Labelled(parts), line)
  {
    hide TrimGaps, Trim, TrimStart;
  }

  lemma TrimStartIsNotBlank(text: string)
    ensures TrimStart(text) != "" ==> !IsBlank(TrimStart(text))
  {
    TrimStartParts(text);
    if TrimStart(text) != "" { assert !IsWhite(TrimStart(text)[0]); }
  }

  lemma LabelPieces(line: string) returns (a: string, b: string, c: string)
    requires LabelOf(line).Some?
    ensures TrimGaps(line) == a + b + c && 2 <= |b| <= 4 && (forall i :: 0 <= i < |b| ==> b[i] == ':')
    ensures LabelOf(line).value.text == Trim(a) && Trim(a) != "" && LabelOf(line).value.rest == TrimStart(c)
  {
    hide TrimGaps, Trim, TrimStart, IsAttribute, FindMarker;
    var text := TrimGaps(line);
    MarkerFits(text);
    var m := FindMarker(text).value;
    a, b, c := text[..m.at], text[m.at..m.at + m.length], text[m.at + m.length..];
  }

  lemma LabelIsHonest(line: string)
    requires LabelOf(line).Some?
    ensures Honest(Labelled(LabelOf(line).value), line)
    ensures LabelOf(line).value.rest != "" ==> !IsBlank(LabelOf(line).value.rest)
  {
    hide *;
    var a, b, c := LabelPieces(line);
    HonestLabel(line, LabelOf(line).value, a, b, c);
    TrimStartIsNotBlank(c);
  }

  lemma BoldIsNotBlank(text: string)
    ensures !IsBlank(Bold(text))
  {
    assert Bold(text)[0] == '*';
  }

  /** The lines of a rewritten item say what the label line and the absorbed lines say. */
  lemma ItemAccount(lines: seq<string>, i: nat)
    requires i < |lines| && Item(lines, i).Some?
    ensures LabelOf(lines[i]).Some?
    ensures var (r, fates) := (Item(lines, i).value,
      [Labelled(LabelOf(lines[i]).value)] + AbsorbFates(lines, i + 1, 0, false));
      && |fates| == r.consumed && AllHonest(fates, lines, i)
      && Solid(r.lines) == Account(lines[i..i + r.consumed], fates)
  {
    hide *;
    ItemUnfolds(lines, i);
    var parts := LabelOf(lines[i]).value;
    var first := FirstBody(parts);
    var scan, rest := Absorb(lines, i + 1, first, 0, false), AbsorbFates(lines, i + 1, 0, false);
    AbsorbAccount(lines, i + 1, first, 0, false);
    LabelIsHonest(lines[i]);
    HonestCons(Labelled(parts), rest, lines, i);
    DropEmptyEndKeeps(scan.body);
    ItemSays(parts, DropEmptyEnd(scan.body));
    FirstSays(parts);
    assert lines[i..scan.next] == [lines[i]] + lines[i + 1..scan.next];
    AccountCons(lines[i], lines[i + 1..scan.next], Labelled(parts), rest);
    LabelSays(parts, lines[i]);
    ThreeParts([Bold(parts.text)], Solid(first), Account(lines[i + 1..scan.next], rest));
  }

  lemma ThreeParts(a: seq<string>, b: seq<string>, c: seq<string>)
    ensures a + (b + c) == (a + b) + c
  {
  }

  lemma ItemUnfolds(lines: seq<string>, i: nat)
    requires i < |lines| && Item(lines, i).Some?
    ensures LabelOf(lines[i]).Some?
    ensures var (r, parts) := (Item(lines, i).value, LabelOf(lines[i]).value);
      var scan := Absorb(lines, i + 1, FirstBody(parts), 0, false);
      r.lines == ItemLines(parts, DropEmptyEnd(scan.body)) && r.consumed == scan.next - i
  {
    hide LabelOf, Absorb, DropEmptyEnd;
  }

  lemma LabelSays(parts: Label, line: string)
    ensures Says(Labelled(parts), line) == [Bold(parts.text)] + FirstBody(parts)
  {
  }

  lemma FirstSays(parts: Label)
    requires parts.rest != "" ==> !IsBlank(parts.rest)
    ensures Solid(FirstBody(parts)) == FirstBody(parts)
  {
    hide IsBlank;
    OneMore([], parts.rest);
    assert [] + [parts.rest] == [parts.rest] && Solid([]) == [];
  }

  lemma ItemSays(parts: Label, body: seq<string>)
    ensures Solid(ItemLines(parts, body)) == [Bold(parts.text)] + Solid(body)
  {
    BoldIsNotBlank(parts.text);
    hide IsBlank, Bold;
    var head := Bold(parts.text);
    OneMore([], head);
    OneMore([head], "");
    assert [] + [head] == [head] && [head] + [""] == [head, ""] && Solid([]) == [] &&
    IsBlank("") by { BlankTrimsNothing(); }
    if body != [] { SolidAppend([head, ""], body); } else { assert [head] + [] == [head]; }
  }

  lemma BlankTrimsNothing()
    ensures IsBlank("")
  {
  }

  lemma CopiedIsHonest(line: string)
    ensures Honest(Copied, line) && Says(Copied, line) == if IsBlank(line) then [] else [line]
  {
  }

  lemma CopyAccount(lines: seq<string>, i: nat, rest: seq<string>, fates: seq<Fate>)
    requires i < |lines| && |fates| == |lines| - (i + 1) && AllHonest(fates, lines, i + 1)
    requires Solid(rest) == Account(lines[i + 1..], fates)
    ensures AllHonest([Copied] + fates, lines, i) && Solid([lines[i]] + rest) == Account(lines[i..], [Copied] + fates)
  {
    hide AllHonest, Honest, Solid, Account, IsBlank;
    CopiedIsHonest(lines[i]);
    HonestCons(Copied, fates, lines, i);
    SolidAppend([lines[i]], rest);
    OneMore([], lines[i]);
    assert [] + [lines[i]] == [lines[i]] && Solid([]) == [] by { NoLinesNoText(); }
    assert lines[i..] == [lines[i]] + lines[i + 1..];
    AccountCons(lines[i], lines[i + 1..], Copied, fates);
  }

  lemma NoLinesNoText()
    ensures Solid([]) == []
  {
  }

  lemma SkipAccount(lines: seq<string>, i: nat, r: Rewrite, rest: seq<string>, item: seq<Fate>, fates: seq<Fate>)
    requires i + r.consumed <= |lines| && |item| == r.consumed && |fates| == |lines| - (i + r.consumed)
    requires AllHonest(item, lines, i) && Solid(r.lines) == Account(lines[i..i + r.consumed], item)
    requires AllHonest(fates, lines, i + r.consumed) && Solid(rest) == Account(lines[i + r.consumed..], fates)
    ensures AllHonest(item + fates, lines, i) && Solid(r.lines + rest) == Account(lines[i..], item + fates)
  {
    hide AllHonest, Solid, Account;
    HonestAppend(item, fates, lines, i);
    SolidAppend(r.lines, rest);
    assert lines[i..] == lines[i..i + r.consumed] + lines[i + r.consumed..];
    AccountAppend(lines[i..i + r.consumed], lines[i + r.consumed..], item, fates);
  }

  /**
    Nothing is lost: every source line is consumed once and has one fate, kept as it stands, split at its
    marker, trimmed into an item's body, or dropped when it was blank or a lone `+`; and the non-blank
    output is exactly what those fates say, in the order of the source.
  */
  lemma {:induction false} PreConserves(lines: seq<string>, i: nat, listing: Option<char>)
    requires i <= |lines|
    ensures var fates := Fates(lines, i, listing);
      && |fates| == |lines| - i && AllHonest(fates, lines, i)
      && Solid(Pre(lines, i, listing)) == Account(lines[i..], fates)
    decreases |lines| - i
  {
    hide *;
    if i == |lines| {
      PassEnds(lines, listing);
    } else {
      PassStep(lines, i, listing);
      var mode := if listing.Some? then (if IsDelimiter(TrimEnd(lines[i]), listing.value) then None else listing)
                  else Opener(lines, i);
      if listing.None? && mode.None? && Item(lines, i).Some? {
        var r := Item(lines, i).value;
        ItemAccount(lines, i);
        PreConserves(lines, i + r.consumed, None);
        SkipAccount(lines, i, r, Pre(lines, i + r.consumed, None),
          [Labelled(LabelOf(lines[i]).value)] + AbsorbFates(lines, i + 1, 0, false),
            Fates(lines, i + r.consumed, None));
      } else {
        PreConserves(lines, i + 1, mode);
        CopyAccount(lines, i, Pre(lines, i + 1, mode), Fates(lines, i + 1, mode));
      }
    }
  }

  lemma PassEnds(lines: seq<string>, listing: Option<char>)
    ensures Fates(lines, |lines|, listing) == [] && AllHonest([], lines, |lines|)
    ensures Solid(Pre(lines, |lines|, listing)) == Account(lines[|lines|..], [])
  {
    assert lines[|lines|..] == [];
  }

  /** One turn of the pass and of its fates. */
  lemma PassStep(lines: seq<string>, i: nat, listing: Option<char>)
    requires i < |lines|
    ensures var mode := if listing.Some? then (if IsDelimiter(TrimEnd(lines[i]),
      listing.value) then None else listing) else Opener(lines, i);
      if listing.None? && mode.None? && Item(lines, i).Some?
      then
        && Pre(lines, i, listing) == Item(lines, i).value.lines + Pre(lines, i + Item(lines, i).value.consumed, None)
        && LabelOf(lines[i]).Some?
        && Fates(lines, i, listing) ==
          [Labelled(LabelOf(lines[i]).value)] + AbsorbFates(lines, i + 1, 0, false) + Fates(lines,
            i + Item(lines, i).value.consumed, None)
      else Pre(lines, i, listing) == [lines[i]] + Pre(lines, i + 1, mode) &&
           Fates(lines, i, listing) == [Copied] + Fates(lines, i + 1, mode)
  {
    hide IsDelimiter, Opener, LabelOf, Absorb, AbsorbFates;
  }
}
