/** What seams leave alone: the non-blank lines of a text, and with them its headings. */
module SectionShape {
  import opened TextLines
  import opened Headings
  import opened Outlines
  import opened Splices

  /** The contents of the lines that hold anything, in order. */
  function NonBlank(lines: seq<string>): seq<string> {
    if lines == [] then []
    else NonBlank(lines[..|lines| - 1]) + Kept(lines[|lines| - 1])
  }

  function Kept(line: string): seq<string> {
    if Content(line) == "" then [] else [Content(line)]
  }

  lemma {:induction false} NonBlankAppend(a: seq<string>, b: seq<string>)
    ensures NonBlank(a + b) == NonBlank(a) + NonBlank(b)
    decreases |b|
  {
    hide Kept;
    if b == [] {
      assert a + b == a;
    } else {
      var n := |b| - 1;
      NonBlankAppend(a, b[..n]);
      assert (a + b)[..|a + b| - 1] == a + b[..n] && (a + b)[|a + b| - 1] == b[n];
      assert NonBlank(a) + (NonBlank(b[..n]) + Kept(b[n])) == NonBlank(a) + NonBlank(b[..n]) + Kept(b[n]);
    }
  }

  lemma TerminatedKeeps(lines: seq<string>)
    requires WellFormed(lines)
    ensures NonBlank(Terminated(lines)) == NonBlank(lines) && Heads(Terminated(lines)) == Heads(lines)
  {
    if lines != [] && !Ended(lines[|lines| - 1]) {
      var n := |lines| - 1;
      assert IsLine(lines[n]);
      assert Terminated(lines)[..n] == lines[..n];
    }
  }

  lemma SeamKeeps(lines: seq<string>, blank: bool)
    requires WellFormed(lines)
    ensures NonBlank(Seam(lines, blank)) == NonBlank(lines) && Heads(Seam(lines, blank)) == Heads(lines)
    ensures WellFormed(Seam(lines, blank))
  {
    TerminatedKeeps(lines);
    SeamText(lines, blank);
    var t := Terminated(lines);
    if Seam(lines, blank) != t {
      EmptyLineIsNoHeading();
      hide IsHeading, HeadingOf;
      assert (t + ["\n"])[..|t + ["\n"]| - 1] == t;
      assert NonBlank(t + ["\n"]) == NonBlank(t) + Kept("\n") && Kept("\n") == [];
      assert Heads(t + ["\n"]) == Heads(t) + [];
    }
  }

  /** However the seams fall, a splice keeps all non-blank lines and all headings of its three parts, in order. */
  lemma AssembleKeeps(prefix: seq<string>, fragment: seq<string>, tail: seq<string>)
    requires WellFormed(prefix) && WellFormed(fragment) && WellFormed(tail)
    ensures NonBlank(Assemble(prefix, fragment, tail)) == NonBlank(prefix) + NonBlank(fragment) + NonBlank(tail)
    ensures Heads(Assemble(prefix, fragment, tail)) == Heads(prefix) + Heads(fragment) + Heads(tail)
    ensures WellFormed(Assemble(prefix, fragment, tail))
  {
    hide NonBlank, Heads, WellFormed, Seam, Terminated, Opens, Closes;
    var front := if fragment != [] then Seam(prefix, Closes(prefix) || Opens(fragment)) + fragment else prefix;
    var left := if fragment != [] then Closes(fragment) else Closes(prefix);
    FrontKeeps(prefix, fragment, Closes(prefix) || Opens(fragment));
    NothingKept();
    assert NonBlank(front) == NonBlank(prefix) + NonBlank(fragment) &&
           Heads(front) == Heads(prefix) + Heads(fragment) && WellFormed(front);
    FrontKeeps(front, tail, left || Opens(tail));
    TerminatedKeeps(if tail != [] then Seam(front, left || Opens(tail)) + tail else front);
    AssembledText(prefix, fragment, tail);
  }

  lemma NothingKept()
    ensures NonBlank([]) == [] && Heads([]) == [] && forall s: seq<string> :: s + [] == s
  {
  }

  lemma FrontKeeps(prefix: seq<string>, fragment: seq<string>, blank: bool)
    requires WellFormed(prefix) && WellFormed(fragment)
    ensures NonBlank(Seam(prefix, blank) + fragment) == NonBlank(prefix) + NonBlank(fragment)
    ensures Heads(Seam(prefix, blank) + fragment) == Heads(prefix) + Heads(fragment)
    ensures WellFormed(Seam(prefix, blank) + fragment)
  {
    hide NonBlank, Heads, WellFormed, Seam;
    SeamKeeps(prefix, blank);
    FrontText(prefix, fragment, blank);
    NonBlankAppend(Seam(prefix, blank), fragment);
    HeadsAppend(Seam(prefix, blank), fragment);
  }

  // ---- Cuts ----

  /** `y` starts with a heading, or is nothing. */
  predicate StartsSection(y: seq<string>) {
    y != [] ==> IsHeading(y[0])
  }

  lemma ContentOfContent(line: string)
    requires IsLine(line)
    ensures Content(Content(line)) == Content(line) && HeadingOf(Content(line)) == HeadingOf(line)
  {
    var c := Content(line);
    assert c != "" ==> c[|c| - 1] != '\n';
  }

  lemma {:induction false} HeadsOfNonBlank(lines: seq<string>)
    requires WellFormed(lines)
    ensures Heads(NonBlank(lines)) == Heads(lines)
  {
    if lines != [] {
      var n := |lines| - 1;
      assert WellFormed(lines[..n]) && IsLine(lines[n]);
      HeadsOfNonBlank(lines[..n]);
      ContentOfContent(lines[n]);
      EmptyLineIsNoHeading();
      HeadsAppend(NonBlank(lines[..n]), Kept(lines[n]));
      assert HeadingOf("") == HeadingOf("\n");
      assert Kept(lines[n]) != [] ==>
        Kept(lines[n])[..0] == [] &&
        Heads(Kept(lines[n])) == Heads([]) + if IsHeading(lines[n]) then [HeadingOf(lines[n]).value] else [];
    }
  }

  lemma NonBlankStart(y: seq<string>)
    requires WellFormed(y) && StartsSection(y)
    ensures StartsSection(NonBlank(y)) && (y == [] <==> NonBlank(y) == [])
  {
    hide *;
    if y == [] {
      NothingKept();
    } else {
      FirstIsHeading(y);
      HeadingIsKept(y[0]);
      NonBlankAppend([y[0]], y[1..]);
      OneInFront(y);
      StartsWithHeading(Content(y[0]), NonBlank(y[1..]));
    }
  }

  lemma FirstIsHeading(y: seq<string>)
    requires y != [] && WellFormed(y) && StartsSection(y)
    ensures IsLine(y[0]) && IsHeading(y[0])
  {
  }

  lemma OneInFront(y: seq<string>)
    requires y != []
    ensures y == [y[0]] + y[1..]
  {
  }

  /** A heading is never a blank line. */
  lemma HeadingIsKept(line: string)
    requires IsLine(line) && IsHeading(line)
    ensures NonBlank([line]) == [Content(line)] && IsHeading(Content(line))
  {
    hide HeadingOf, Content;
    ContentOfContent(line);
    EmptyLineIsNoHeading();
    assert [line][..0] == [] && NonBlank([line]) == NonBlank([]) + Kept(line);
  }

  lemma StartsWithHeading(line: string, rest: seq<string>)
    requires IsHeading(line)
    ensures StartsSection([line] + rest)
  {
  }

  lemma LaterCutHasMore(x: seq<string>, y: seq<string>, x': seq<string>, y': seq<string>)
    requires x + y == x' + y' && StartsSection(y) && |x| < |x'|
    ensures |Heads(x)| < |Heads(x')|
  {
    var all, more := x + y, y[..|x'| - |x|];
    assert all[..|x'|] == x' && x' == x + more && all[|x|..] == y;
    HeadingFirst(x, more);
  }

  /** A sequence of lines can be cut before its k-th heading in one way only. */
  lemma UniqueCut(x: seq<string>, y: seq<string>, x': seq<string>, y': seq<string>)
    requires x + y == x' + y' && |Heads(x)| == |Heads(x')| && StartsSection(y) && StartsSection(y')
    ensures x == x' && y == y'
  {
    hide Heads, IsHeading;
    var all := x + y;
    assert all[..|x|] == x && all[|x|..] == y && all[..|x'|] == x' && all[|x'|..] == y';
    if |x| < |x'| {
      LaterCutHasMore(x, y, x', y');
    } else if |x'| < |x| {
      LaterCutHasMore(x', y', x, y);
    }
  }

  /** Texts with the same non-blank lines agree on what stands before the k-th heading. */
  lemma SameCut(x: seq<string>, y: seq<string>, x': seq<string>, y': seq<string>)
    requires WellFormed(x) && WellFormed(y) && WellFormed(x') && WellFormed(y')
    requires NonBlank(x) + NonBlank(y) == NonBlank(x') + NonBlank(y')
    requires |Heads(x)| == |Heads(x')| && StartsSection(y) && StartsSection(y')
    ensures NonBlank(x) == NonBlank(x') && NonBlank(y) == NonBlank(y')
  {
    hide NonBlank, Heads, IsHeading, WellFormed;
    HeadsOfNonBlank(x);
    HeadsOfNonBlank(x');
    NonBlankStart(y);
    NonBlankStart(y');
    UniqueCut(NonBlank(x), NonBlank(y), NonBlank(x'), NonBlank(y'));
  }
}
