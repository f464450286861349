/**
  Replacing a span of a body: the seam rules, once on lines and once on text with byte offsets.

  A prefix must close its line before a fragment follows, a heading keeps a blank line on whichever side
  the splice touches, and the document ends with a terminator. Bytes are characters here.
*/
module Splices {
  import opened Basics
  import opened TextLines
  import opened Headings

  // ---- On lines ----

  function Terminated(lines: seq<string>): seq<string> {
    if lines == [] || Ended(lines[|lines| - 1]) then lines else lines[..|lines| - 1] + [lines[|lines| - 1] + "\n"]
  }

  predicate EndsBlank(lines: seq<string>) {
    lines != [] && lines[|lines| - 1] == "\n"
  }

  predicate Opens(lines: seq<string>) {
    lines != [] && IsOutline(lines[0])
  }

  predicate Closes(lines: seq<string>) {
    lines != [] && IsOutline(lines[|lines| - 1])
  }

  function Seam(lines: seq<string>, blank: bool): seq<string> {
    if lines != [] && blank && !EndsBlank(Terminated(lines)) then Terminated(lines) + ["\n"] else Terminated(lines)
  }

  function Assemble(prefix: seq<string>, fragment: seq<string>, tail: seq<string>): seq<string> {
    var front := if fragment != [] then Seam(prefix, Closes(prefix) || Opens(fragment)) + fragment else prefix;
    var left := if fragment != [] then Closes(fragment) else Closes(prefix);
    Terminated(if tail != [] then Seam(front, left || Opens(tail)) + tail else front)
  }

  function SpliceLines(lines: seq<string>, a: nat, b: nat, fragment: seq<string>): seq<string>
    requires a <= b <= |lines|
  {
    Assemble(lines[..a], fragment, lines[b..])
  }

  // ---- On text ----

  datatype SpliceError = InvertedRange(start: nat, end: nat) | OutOfBounds(offset: nat, length: nat)

  /** Where the outline headings of a text start; an ATX heading closes on the line it opens on. */
  function HeadingOffsets(text: string): set<nat> {
    var lines := Lines(text);
    set i | 0 <= i < |lines| && IsOutline(lines[i]) :: Offset(lines, i)
  }

  /** Start of the last line carrying content, nothing for an empty text. */
  function LastLineStart(text: string): Option<nat> {
    if text == "" then None else Some(LineStartBefore(text, |text| - 1))
  }

  /** The last line of `text` is one of the headings at `offsets`. */
  predicate ClosesAt(text: string, offsets: set<nat>) {
    LastLineStart(text).Some? && LastLineStart(text).value in offsets
  }

  /** Just behind the last newline before position `n`. */
  function LineStartBefore(text: string, n: nat): nat
    requires n < |text|
  {
    if n == 0 then 0 else if text[n - 1] == '\n' then n else LineStartBefore(text, n - 1)
  }

  function TerminateText(text: string): string {
    if text != "" && text[|text| - 1] == '\n' then text else text + "\n"
  }

  predicate EndsWithBlankLine(text: string) {
    text != "" && text[|text| - 1] == '\n' && (|text| == 1 || text[|text| - 2] == '\n')
  }

  function PushSeam(out: string, blank: bool): string {
    if out == "" then ""
    else
      var closed := TerminateText(out);
      if blank && !EndsWithBlankLine(closed) then closed + "\n" else closed
  }

  function AssembleText(prefix: string, fragment: string, tail: string,
                        prefixCloses: bool, fragmentOpens: bool, fragmentCloses: bool, tailOpens: bool): string
  {
    var front := if fragment != "" then PushSeam(prefix, prefixCloses || fragmentOpens) + fragment else prefix;
    var left := if fragment != "" then fragmentCloses else prefixCloses;
    var out := if tail != "" then PushSeam(front, left || tailOpens) + tail else front;
    if out != "" then TerminateText(out) else out
  }

  function Splice(body: string, start: nat, end: nat, fragment: string): Result<string, SpliceError> {
    if start > end then Err(InvertedRange(start, end))
    else if start > |body| then Err(OutOfBounds(start, |body|))
    else if end > |body| then Err(OutOfBounds(end, |body|))
    else
      var inBody, inFragment := HeadingOffsets(body), HeadingOffsets(fragment);
      Ok(AssembleText(body[..start], fragment, body[end..], ClosesAt(body[..start], inBody),
                      0 in inFragment, ClosesAt(fragment, inFragment), end in inBody))
  }

  // ---- The two agree ----

  lemma LastLine(lines: seq<string>)
    requires WellFormed(lines) && lines != []
    ensures Join(lines) == Join(lines[..|lines| - 1]) + lines[|lines| - 1] && Join(lines) != ""
  {
    var n := |lines| - 1;
    JoinAppend(lines[..n], [lines[n]]);
    assert lines == lines[..n] + [lines[n]];
    assert Join([lines[n]]) == lines[n] + Join([]);
  }

  lemma TerminatedWellFormed(lines: seq<string>)
    requires WellFormed(lines)
    ensures WellFormed(Terminated(lines)) && |Terminated(lines)| == |lines|
    ensures lines != [] ==>
      Ended(Terminated(lines)[|lines| - 1]) && Terminated(lines)[..|lines| - 1] == lines[..|lines| - 1]
  {
    if lines != [] && !Ended(lines[|lines| - 1]) {
      var n := |lines| - 1;
      WellFormedParts(lines[..n], lines[n..]);
      assert lines == lines[..n] + lines[n..];
      WellFormedAppend(lines[..n], [lines[n] + "\n"]);
    }
  }

  lemma TerminatedText(lines: seq<string>)
    requires WellFormed(lines)
    ensures WellFormed(Terminated(lines)) && (lines != [] ==> Ended(Terminated(lines)[|lines| - 1]))
    ensures Join(Terminated(lines)) == if lines == [] then "" else TerminateText(Join(lines))
  {
    TerminatedWellFormed(lines);
    if lines != [] {
      var n := |lines| - 1;
      assert IsLine(lines[n]);
      hide Join, WellFormed;
      LastLine(lines);
      LastLine(Terminated(lines));
      LastChar(Join(lines[..n]), lines[n]);
    }
  }

  lemma LastChar(front: string, line: string)
    requires line != ""
    ensures TerminateText(front + line) == front + (if Ended(line) then line else line + "\n")
  {
    var text := front + line;
    assert text[|text| - 1] == line[|line| - 1];
    assert text + "\n" == front + (line + "\n");
  }

  lemma BlankEnd(lines: seq<string>)
    requires WellFormed(lines)
    ensures EndsBlank(lines) <==> EndsWithBlankLine(Join(lines))
  {
    hide Join, WellFormed, EndsWithBlankLine;
    if lines == [] {
      NothingEndsBlank();
    } else if EndsBlank(lines) {
      BlankLast(lines);
    } else {
      SolidLast(lines);
    }
  }

  lemma NothingEndsBlank()
    ensures Join([]) == "" && !EndsWithBlankLine("") && WellFormed([])
  {
  }

  /** Behind the last line proper a blank line is one more newline. */
  lemma BlankLast(lines: seq<string>)
    requires WellFormed(lines) && EndsBlank(lines)
    ensures EndsWithBlankLine(Join(lines)) && Join(lines)[..|Join(lines)| - 1] == Join(lines[..|lines| - 1])
    ensures WellFormed(lines[..|lines| - 1])
  {
    hide Join;
    var front := lines[..|lines| - 1];
    LastLine(lines);
    if front == [] {
      NothingEndsBlank();
    } else {
      LastLine(front);
      assert Ended(front[|front| - 1]);
    }
  }

  lemma SolidLast(lines: seq<string>)
    requires WellFormed(lines) && lines != [] && !EndsBlank(lines)
    ensures Join(lines) != "" && !EndsWithBlankLine(Join(lines))
  {
    hide Join;
    LastLine(lines);
  }

  lemma SeamText(lines: seq<string>, blank: bool)
    requires WellFormed(lines)
    ensures WellFormed(Seam(lines, blank)) && Join(Seam(lines, blank)) == PushSeam(Join(lines), blank)
    ensures lines != [] ==> Ended(Seam(lines, blank)[|Seam(lines, blank)| - 1])
  {
    TerminatedText(lines);
    BlankEnd(Terminated(lines));
    NonEmptyJoin(lines);
    if lines != [] && blank && !EndsBlank(Terminated(lines)) {
      JoinAppend(Terminated(lines), ["\n"]);
      WellFormedAppend(Terminated(lines), ["\n"]);
      assert Join(["\n"]) == "\n" + Join([]);
    }
  }

  lemma HeadingAtOffset(lines: seq<string>, n: nat)
    requires WellFormed(lines) && n <= |lines|
    ensures Offset(lines, n) in HeadingOffsets(Join(lines)) <==> n < |lines| && IsOutline(lines[n])
  {
    hide IsOutline;
    LinesOfJoin(lines);
    forall i | 0 <= i < |lines| && Offset(lines, i) == Offset(lines, n) ensures i == n {
      if i < n { OffsetMonotone(lines, i, n); } else { OffsetMonotone(lines, n, i); }
    }
    if n < |lines| && IsOutline(lines[n]) { assert Offset(lines, n) in HeadingOffsets(Join(lines)); }
  }

  lemma {:induction false} LineStart(front: string, line: string, n: nat)
    requires IsLine(line) && (front != "" ==> Ended(front)) && |front| <= n < |front| + |line|
    ensures LineStartBefore(front + line, n) == |front|
    decreases n
  {
    if n > |front| { LineStart(front, line, n - 1); }
  }

  lemma FrontEnds(lines: seq<string>)
    requires WellFormed(lines) && lines != []
    ensures var front := Join(lines[..|lines| - 1]); front != "" ==> Ended(front)
  {
    var n := |lines| - 1;
    if n > 0 {
      assert WellFormed(lines[..n]);
      LastLine(lines[..n]);
      assert Ended(lines[n - 1]);
    }
  }

  lemma LastStart(lines: seq<string>)
    requires WellFormed(lines)
    ensures LastLineStart(Join(lines)) == if lines == [] then None else Some(Offset(lines, |lines| - 1))
  {
    hide *;
    if lines == [] {
      NoLastLine();
    } else {
      var n := |lines| - 1;
      SomeLastLine(lines);
      LastLine(lines);
      OffsetCuts(lines, n);
      FrontEnds(lines);
      LineStart(Join(lines[..n]), lines[n], |Join(lines)| - 1);
      LastLineStartIs(Join(lines));
    }
  }

  lemma NoLastLine()
    ensures LastLineStart(Join([])) == None
  {
  }

  lemma SomeLastLine(lines: seq<string>)
    requires WellFormed(lines) && lines != []
    ensures IsLine(lines[|lines| - 1]) && lines[|lines| - 1] != ""
  {
  }

  lemma LastLineStartIs(text: string)
    requires text != ""
    ensures LastLineStart(text) == Some(LineStartBefore(text, |text| - 1))
  {
  }

  /** The last line of a prefix is a heading of the whole body exactly when it is one of the prefix. */
  lemma PrefixCloses(lines: seq<string>, a: nat)
    requires WellFormed(lines) && a <= |lines|
    ensures var start := LastLineStart(Join(lines[..a]));
      start.Some? && start.value in HeadingOffsets(Join(lines)) <==> Closes(lines[..a])
  {
    hide *;
    PrefixWellFormed(lines, a);
    LastStart(lines[..a]);
    if a > 0 {
      PrefixOffset(lines, a, a - 1);
      HeadingAtOffset(lines, a - 1);
      PrefixClosing(lines, a);
    } else {
      NothingClosing();
      assert lines[..a] == [];
    }
  }

  lemma PrefixWellFormed(lines: seq<string>, a: nat)
    requires WellFormed(lines) && a <= |lines|
    ensures WellFormed(lines[..a])
  {
  }

  lemma PrefixClosing(lines: seq<string>, a: nat)
    requires 0 < a <= |lines|
    ensures Closes(lines[..a]) == IsOutline(lines[a - 1])
  {
    hide IsOutline;
    assert lines[..a][a - 1] == lines[a - 1];
  }

  lemma NothingClosing()
    ensures !Closes([])
  {
  }

  lemma {:induction false} PrefixOffset(lines: seq<string>, a: nat, n: nat)
    requires n <= a <= |lines|
    ensures Offset(lines[..a], n) == Offset(lines, n)
  {
    if n > 0 { PrefixOffset(lines, a, n - 1); }
  }

  lemma FragmentEdges(fragment: seq<string>)
    requires WellFormed(fragment)
    ensures 0 in HeadingOffsets(Join(fragment)) <==> Opens(fragment)
    ensures var start := LastLineStart(Join(fragment));
      start.Some? && start.value in HeadingOffsets(Join(fragment)) <==> Closes(fragment)
  {
    HeadingAtOffset(fragment, 0);
    LastStart(fragment);
    if fragment != [] { HeadingAtOffset(fragment, |fragment| - 1); }
  }

  /** The joined front half of a splice. */
  lemma FrontText(prefix: seq<string>, fragment: seq<string>, blank: bool)
    requires WellFormed(prefix) && WellFormed(fragment)
    ensures WellFormed(Seam(prefix, blank) + fragment)
    ensures Join(Seam(prefix, blank) + fragment) == PushSeam(Join(prefix), blank) + Join(fragment)
  {
    SeamText(prefix, blank);
    WellFormedAppend(Seam(prefix, blank), fragment);
    JoinAppend(Seam(prefix, blank), fragment);
  }

  lemma AssembledText(prefix: seq<string>, fragment: seq<string>, tail: seq<string>)
    requires WellFormed(prefix) && WellFormed(fragment) && WellFormed(tail)
    ensures Join(Assemble(prefix, fragment, tail))
         == AssembleText(Join(prefix), Join(fragment), Join(tail), Closes(prefix), Opens(fragment), Closes(fragment),
           Opens(tail))
    ensures WellFormed(Assemble(prefix, fragment, tail))
  {
    hide Join, WellFormed, IsOutline, TerminateText, PushSeam, Seam, Terminated;
    NonEmptyJoin(fragment);
    NonEmptyJoin(tail);
    FrontText(prefix, fragment, Closes(prefix) || Opens(fragment));
    var front := if fragment != [] then Seam(prefix, Closes(prefix) || Opens(fragment)) + fragment else prefix;
    var left := if fragment != [] then Closes(fragment) else Closes(prefix);
    FrontText(front, tail, left || Opens(tail));
    var out := if tail != [] then Seam(front, left || Opens(tail)) + tail else front;
    TerminatedText(out);
    NonEmptyJoin(out);
  }

  lemma CutText(lines: seq<string>, a: nat, b: nat)
    requires WellFormed(lines) && a <= b <= |lines|
    ensures Offset(lines, a) <= Offset(lines, b) <= |Join(lines)|
    ensures Join(lines)[..Offset(lines, a)] == Join(lines[..a]) && Join(lines)[Offset(lines, b)..] == Join(lines[b..])
    ensures WellFormed(lines[..a]) && WellFormed(lines[b..])
  {
    assert lines[..a] + lines[a..] == lines && lines[..b] + lines[b..] == lines;
    hide *;
    WellFormedParts(lines[..a], lines[a..]);
    WellFormedParts(lines[..b], lines[b..]);
    OffsetCuts(lines, a);
    OffsetCuts(lines, b);
    OffsetMonotone(lines, a, b);
  }

  /** On line boundaries the byte splice is the line splice; it never fails there. */
  lemma SpliceOnLines(lines: seq<string>, a: nat, b: nat, fragment: seq<string>)
    requires WellFormed(lines) && WellFormed(fragment) && a <= b <= |lines|
    ensures Splice(Join(lines), Offset(lines, a), Offset(lines, b), Join(fragment)) ==
      Ok(Join(SpliceLines(lines, a, b, fragment)))
    ensures WellFormed(SpliceLines(lines, a, b, fragment))
  {
    CutText(lines, a, b);
    assert ClosesAt(Join(lines[..a]), HeadingOffsets(Join(lines))) == Closes(lines[..a]) by { PrefixCloses(lines, a); }
    assert (0 in HeadingOffsets(Join(fragment))) == Opens(fragment)
        && ClosesAt(Join(fragment), HeadingOffsets(Join(fragment))) == Closes(fragment) by { FragmentEdges(fragment); }
    assert (Offset(lines, b) in HeadingOffsets(Join(lines))) == Opens(lines[b..]) by { HeadingAtOffset(lines, b); }
    hide Join, WellFormed, IsOutline, HeadingOffsets, LastLineStart, Assemble, AssembleText, Opens, Closes, Offset;
    AssembledText(lines[..a], fragment, lines[b..]);
  }
}
