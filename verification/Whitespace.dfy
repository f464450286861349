/** White space and trimming. Only ASCII white space occurs. */
module Whitespace {

  predicate IsWhite(c: char) {
    c == ' ' || '\t' <= c <= '\r'
  }

  predicate IsBlank(text: string) {
    forall i :: 0 <= i < |text| ==> IsWhite(text[i])
  }

  function TrimStart(text: string): string {
    if text != "" && IsWhite(text[0]) then TrimStart(text[1..]) else text
  }

  function TrimEnd(text: string): string {
    if text != "" && IsWhite(text[|text| - 1]) then TrimEnd(text[..|text| - 1]) else text
  }

  function Trim(text: string): string {
    TrimEnd(TrimStart(text))
  }

  /** Trimming at the front drops blanks up to the first solid character. */
  lemma {:induction false} TrimStartParts(text: string)
    ensures var r := TrimStart(text);
      |r| <= |text| && r == text[|text| - |r|..] && IsBlank(text[..|text| - |r|]) && (r != "" ==> !IsWhite(r[0]))
  {
    if text != "" && IsWhite(text[0]) {
      TrimStartParts(text[1..]);
      var r := TrimStart(text[1..]);
      assert text[..|text| - |r|] == [text[0]] + text[1..][..|text[1..]| - |r|];
    }
  }

  lemma {:induction false} TrimEndParts(text: string)
    ensures var r := TrimEnd(text);
      |r| <= |text| && r == text[..|r|] && IsBlank(text[|r|..]) && (r != "" ==> !IsWhite(r[|r| - 1]))
  {
    if text != "" && IsWhite(text[|text| - 1]) {
      TrimEndParts(text[..|text| - 1]);
      var r := TrimEnd(text[..|text| - 1]);
      assert text[|r|..] == text[..|text| - 1][|r|..] + [text[|text| - 1]];
    }
  }

  lemma {:induction false} TrimStartIs(text: string, n: nat)
    requires n < |text| && IsBlank(text[..n]) && !IsWhite(text[n])
    ensures TrimStart(text) == text[n..]
    decreases n
  {
    if n > 0 {
      assert text[..n][0] == text[0];
      var tail := text[1..][..n - 1];
      forall i | 0 <= i < |tail| ensures IsWhite(tail[i]) { assert tail[i] == text[..n][i + 1]; }
      TrimStartIs(text[1..], n - 1);
      assert text[1..][n - 1..] == text[n..];
    } else {
      assert text[0..] == text;
    }
  }

  lemma {:induction false} TrimEndIs(text: string, n: nat)
    requires 0 < n <= |text| && IsBlank(text[n..]) && !IsWhite(text[n - 1])
    ensures TrimEnd(text) == text[..n]
    decreases |text|
  {
    if n < |text| {
      var front := text[..|text| - 1];
      assert text[n..][|text| - 1 - n] == text[|text| - 1];
      assert forall i :: 0 <= i < |front| - n ==> front[n..][i] == text[n..][i];
      TrimEndIs(front, n);
      assert front[..n] == text[..n];
    } else {
      assert text[..n] == text;
    }
  }
}
