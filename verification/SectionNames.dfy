/** What a section's path and slug are, told from the headings and their characters. */
module SectionNames {
  import opened Basics
  import opened Decimals
  import opened Headings
  import opened Outlines

  // ---- Paths ----

  /** `p` can hold sections of `h`: an outline heading, of a lower level unless `h` is quoted. */
  predicate Holds(p: Heading, h: Heading) {
    p.depth == 0 && (h.depth == 0 ==> p.level < h.level)
  }

  /** The nearest heading above that can hold it. */
  ghost predicate IsParent(heads: seq<Heading>, k: nat, p: nat) {
    p < k < |heads| && Holds(heads[p], heads[k]) && forall j :: p < j < k ==> !Holds(heads[j], heads[k])
  }

  /** The headings above `n` with this slug whose path goes on from `parent`. */
  function Twins(heads: seq<Heading>, trails: seq<Trail>, n: nat, parent: Trail, slug: string): nat
    requires n <= |heads| == |trails|
  {
    if n == 0 then 0
    else Twins(heads, trails, n - 1, parent, slug) +
         if heads[n - 1].slug == slug && trails[n - 1] != [] && trails[n - 1][..|trails[n - 1]| - 1] == parent
         then 1 else 0
  }

  /** The path of the nearest heading above `n` that can hold `h`; empty without one. */
  function Above(heads: seq<Heading>, trails: seq<Trail>, n: nat, h: Heading): Trail
    requires n <= |heads| == |trails|
  {
    if n == 0 then [] else if Holds(heads[n - 1], h) then trails[n - 1] else Above(heads, trails, n - 1, h)
  }

  lemma {:induction false} AboveIs(heads: seq<Heading>, trails: seq<Trail>, n: nat, h: Heading, p: nat)
    requires p < n <= |heads| == |trails| && Holds(heads[p], h) && forall j :: p < j < n ==> !Holds(heads[j], h)
    ensures Above(heads, trails, n, h) == trails[p]
  {
    if p < n - 1 { AboveIs(heads, trails, n - 1, h, p); }
  }

  lemma {:induction false} NothingAbove(heads: seq<Heading>, trails: seq<Trail>, n: nat, h: Heading)
    requires n <= |heads| == |trails| && forall j :: 0 <= j < n ==> !Holds(heads[j], h)
    ensures Above(heads, trails, n, h) == []
  {
    if n > 0 { NothingAbove(heads, trails, n - 1, h); }
  }

  /** What the walk knows in front of heading `n`. */
  ghost predicate Walked(heads: seq<Heading>, trails: seq<Trail>, n: nat, st: Naming)
    requires n <= |heads| == |trails|
  {
    && (forall h :: Segments(Base(st.stack, h)) == Above(heads, trails, n, h))
    && (forall parent, slug :: CountOf(st.counts, Key(parent, slug)) == Twins(heads, trails, n, parent, slug))
  }

  lemma BaseNext(st: Naming, g: Heading, h: Heading)
    ensures Segments(Base(Named(st, g).stack, h)) == if Holds(g, h) then TrailOf(st, g) else Segments(Base(st.stack, h))
  {
    hide Segments, SegmentOf, KeyOf;
    if g.depth == 0 {
      var base := Popped(st.stack, g.level);
      var pushed := base + [(g.level, SegmentOf(st, g))];
      assert pushed[..|pushed| - 1] == base;
      SegmentsEnd(st, g);
      if h.depth == 0 && g.level >= h.level { PoppedTwice(st.stack, g.level, h.level); }
    }
  }

  lemma SegmentsEnd(st: Naming, g: Heading)
    requires g.depth == 0
    ensures Segments(Popped(st.stack, g.level) + [(g.level, SegmentOf(st, g))]) == TrailOf(st, g)
  {
    hide SegmentOf;
    var pushed := Popped(st.stack, g.level) + [(g.level, SegmentOf(st, g))];
    assert pushed[..|pushed| - 1] == Popped(st.stack, g.level);
  }

  lemma CountsNext(st: Naming, g: Heading, key: Key)
    ensures CountOf(Named(st, g).counts, key) == CountOf(st.counts, key) + if key == KeyOf(st, g) then 1 else 0
    ensures TrailOf(st, g) != [] && TrailOf(st, g)[..|TrailOf(st, g)| - 1] == KeyOf(st, g).parent
    ensures KeyOf(st, g).slug == g.slug
  {
    hide Segments, SegmentOf, Base;
  }

  lemma WalkedNext(heads: seq<Heading>, trails: seq<Trail>, n: nat, st: Naming)
    requires n < |heads| == |trails| && Walked(heads, trails, n, st) && trails[n] == TrailOf(st, heads[n])
    ensures Walked(heads, trails, n + 1, Named(st, heads[n]))
  {
    hide Segments, Base, Named, TrailOf, KeyOf, CountOf, Holds;
    var g, next := heads[n], Named(st, heads[n]);
    forall h ensures Segments(Base(next.stack, h)) == Above(heads, trails, n + 1, h) {
      BaseNext(st, g, h);
    }
    forall parent, slug
      ensures CountOf(next.counts, Key(parent, slug)) == Twins(heads, trails, n + 1, parent, slug)
    {
      CountsNext(st, g, Key(parent, slug));
    }
  }

  lemma WalkStarts(heads: seq<Heading>, trails: seq<Trail>)
    requires |heads| == |trails|
    ensures Walked(heads, trails, 0, FRESH) && Run(FRESH, heads[..0]) == FRESH
  {
  }

  lemma {:induction false} WalkedAt(heads: seq<Heading>, n: nat)
    requires n <= |heads|
    ensures var (trails, st) := (Trails(FRESH, heads), Run(FRESH, heads[..n]));
      Walked(heads, trails, n, st) && (n < |heads| ==> trails[n] == TrailOf(st, heads[n]))
    decreases n
  {
    hide *;
    var trails, st := Trails(FRESH, heads), Run(FRESH, heads[..n]);
    if n == 0 {
      WalkStarts(heads, trails);
    } else {
      WalkedAt(heads, n - 1);
      WalkedNext(heads, trails, n - 1, Run(FRESH, heads[..n - 1]));
      RunNext(heads, n - 1);
    }
    if n < |heads| { TrailAt(heads, n); }
  }

  lemma RunNext(heads: seq<Heading>, n: nat)
    requires n < |heads|
    ensures Run(FRESH, heads[..n + 1]) == Named(Run(FRESH, heads[..n]), heads[n])
  {
    hide Named;
    assert heads[..n + 1] == heads[..n] + [heads[n]];
    NamingAppend(FRESH, heads[..n], [heads[n]]);
  }

  lemma TrailAt(heads: seq<Heading>, n: nat)
    requires n < |heads|
    ensures Trails(FRESH, heads)[n] == TrailOf(Run(FRESH, heads[..n]), heads[n])
  {
    hide Trails, Run, TrailOf;
    assert heads == heads[..n] + heads[n..];
    NamingAppend(FRESH, heads[..n], heads[n..]);
    NextTrail(Run(FRESH, heads[..n]), heads[n..]);
  }

  /**
    The path of a heading is the path of the nearest one above that can hold it, or nothing without one, and a
    last segment: its slug, numbered from 2 on when headings above with the same slug stand under that path.
  */
  lemma PathIs(lines: seq<string>, k: nat, p: Option<nat>)
    requires k < |Heads(lines)|
    requires match p
             case Some(i) => IsParent(Heads(lines), k, i)
             case None => forall j :: 0 <= j < k ==> !Holds(Heads(lines)[j], Heads(lines)[k])
    ensures var (heads, trails) := (Heads(lines), Trails(FRESH, Heads(lines)));
      var parent := if p.Some? then trails[p.value] else [];
      var n := Twins(heads, trails, k, parent, heads[k].slug);
      && |Outline(lines)| > k + 1 && Outline(lines)[k + 1].trail == trails[k]
      && trails[k] == parent + [if n == 0 then heads[k].slug else heads[k].slug + "-" + Decimal(n + 1)]
  {
    hide *;
    var heads, trails := Heads(lines), Trails(FRESH, Heads(lines));
    OutlineHas(lines, k);
    WalkedAt(heads, k);
    match p {
      case Some(i) => ParentIsAbove(heads, trails, k, i);
      case None => NothingAbove(heads, trails, k, heads[k]);
    }
    Spelled(heads, trails, k, Run(FRESH, heads[..k]), heads[k]);
  }

  lemma OutlineHas(lines: seq<string>, k: nat)
    requires k < |Heads(lines)|
    ensures |Outline(lines)| > k + 1 && Outline(lines)[k + 1].trail == Trails(FRESH, Heads(lines))[k]
  {
    hide Heads, Trails, Marks;
  }

  lemma ParentIsAbove(heads: seq<Heading>, trails: seq<Trail>, k: nat, p: nat)
    requires IsParent(heads, k, p) && |heads| == |trails| && k < |heads|
    ensures p < |trails| && Above(heads, trails, k, heads[k]) == trails[p]
  {
    hide Above, Holds;
    AboveIs(heads, trails, k, heads[k], p);
  }

  lemma Spelled(heads: seq<Heading>, trails: seq<Trail>, k: nat, st: Naming, h: Heading)
    requires k <= |heads| == |trails| && Walked(heads, trails, k, st)
    ensures var parent := Above(heads, trails, k, h);
      var n := Twins(heads, trails, k, parent, h.slug);
      TrailOf(st, h) == parent + [if n == 0 then h.slug else h.slug + "-" + Decimal(n + 1)]
  {
    hide Segments, Base, Above, Twins, CountOf;
  }

  // ---- Slugs ----

  predicate Letter(c: char) {
    'a' <= c <= 'z' || 'A' <= c <= 'Z' || '0' <= c <= '9'
  }

  predicate AllLetters(text: string) {
    text != "" && forall i :: 0 <= i < |text| ==> Letter(text[i])
  }

  predicate NoLetters(text: string) {
    forall i :: 0 <= i < |text| ==> !Letter(text[i])
  }

  function Lowered(text: string): string {
    seq(|text|, i requires 0 <= i < |text| =>
      if 'A' <= text[i] <= 'Z' then 'a' + (text[i] - 'A') else text[i])
  }

  lemma LetterIff(c: char)
    ensures SlugLetter(Lower(c)) <==> Letter(c)
    ensures SlugLetter(Lower(c)) ==> Lower(c) != '-'
  {
  }

  /** A word behind a text is appended in lower case. */
  lemma {:induction false} WordAppended(text: string, word: string)
    requires forall i :: 0 <= i < |word| ==> Letter(word[i])
    ensures Words(text + word) == Words(text) + Lowered(word)
    decreases |word|
  {
    hide Words, Lowered;
    LoweredEnds(word);
    if word == "" {
      assert text + word == text && Words(text) + [] == Words(text);
    } else {
      var front, c := word[..|word| - 1], word[|word| - 1];
      WordAppended(text, front);
      assert text + word == text + front + [c];
      LetterAppended(text + front, c);
      assert Words(text) + (Lowered(front) + [Lower(c)]) == Words(text) + Lowered(front) + [Lower(c)];
    }
  }

  lemma LoweredEnds(word: string)
    ensures Lowered("") == ""
    ensures word != "" ==> Lowered(word) == Lowered(word[..|word| - 1]) + [Lower(word[|word| - 1])]
  {
  }

  lemma LetterAppended(text: string, c: char)
    requires Letter(c)
    ensures Words(text + [c]) == Words(text) + [Lower(c)]
  {
    LetterIff(c);
    assert (text + [c])[..|text + [c]| - 1] == text;
  }

  /** Anything else behind a text is one hyphen at most, and none at the start. */
  lemma {:induction false} GapAppended(text: string, gap: string)
    requires NoLetters(gap)
    ensures var words := Words(text);
      Words(text + gap) == if gap == "" || words == "" || words[|words| - 1] == '-' then words else words + "-"
    decreases |gap|
  {
    if gap == "" {
      assert text + gap == text;
    } else {
      var front, c := gap[..|gap| - 1], gap[|gap| - 1];
      GapAppended(text, front);
      LetterIff(c);
      assert (text + gap)[..|text + gap| - 1] == text + front;
    }
  }

  lemma {:induction false} EndsOnLetter(text: string)
    requires text != "" && Letter(text[|text| - 1])
    ensures Words(text) != "" && Words(text)[|Words(text)| - 1] != '-'
  {
    LetterIff(text[|text| - 1]);
  }

  lemma LoweredWord(word: string)
    requires AllLetters(word)
    ensures |Lowered(word)| == |word| && Lowered(word) != "" && forall i :: 0 <= i < |word| ==> Lowered(word)[i] != '-'
  {
  }

  /** One word, with anything but letters and digits around it: the word in lower case. */
  lemma SlugOfWord(before: string, word: string, behind: string)
    requires NoLetters(before) && AllLetters(word) && NoLetters(behind)
    ensures Slugify(before + word + behind) == Lowered(word)
  {
    assert "" + before == before && "" + Lowered(word) == Lowered(word);
    GapAppended("", before);
    WordAppended(before, word);
    LoweredWord(word);
    GapAppended(before + word, behind);
    hide Words, Lowered;
    assert Words(before + word) == Lowered(word);
    if behind != "" { assert (Lowered(word) + "-")[..|Lowered(word) + "-"| - 1] == Lowered(word); }
  }

  /** One more word at the end, set off: the slug so far, a hyphen, and the word in lower case. */
  lemma SlugOfOneMore(text: string, gap: string, word: string, behind: string)
    requires text != "" && Letter(text[|text| - 1]) && gap != "" && NoLetters(gap)
    requires AllLetters(word) && NoLetters(behind)
    ensures Slugify(text + gap + word + behind) == Slugify(text) + "-" + Lowered(word)
  {
    GapAppended(text, gap);
    WordAppended(text + gap, word);
    GapAppended(text + gap + word, behind);
    EndsOnLetter(text);
    LoweredWord(word);
    hide Words, Lowered;
    var all := Words(text) + "-" + Lowered(word);
    assert Words(text + gap + word) == all && all[|all| - 1] != '-';
    if behind != "" { assert (all + "-")[..|all + "-"| - 1] == all; }
  }

  /** No word at all. */
  lemma SlugOfNothing(text: string)
    requires NoLetters(text)
    ensures Slugify(text) == "section"
  {
    assert "" + text == text;
    GapAppended("", text);
  }

  // ---- Heading lines ----

  /** Behind `x` spaces, at most three, `level` hashes and a space, a tab or the end. */
  predicate HashesBehind(text: string, level: nat, x: nat) {
    && x <= 3 && x + level <= |text|
    && (forall i :: 0 <= i < x ==> text[i] == ' ') && (forall i :: x <= i < x + level ==> text[i] == '#')
    && (x + level == |text| || text[x + level] == ' ' || text[x + level] == '\t')
  }

  /** One to six hashes make a heading. */
  ghost predicate OpensSection(line: string, level: nat) {
    var text := if line != "" && line[|line| - 1] == '\n' then line[..|line| - 1] else line;
    && 1 <= level <= 6
    && exists x: nat :: HashesBehind(text, level, x)
  }

  lemma {:induction false} SpacesAre(text: string)
    ensures var n := Spaces(text);
      n <= |text| && (n < |text| ==> text[n] != ' ') && forall i :: 0 <= i < n ==> text[i] == ' '
  {
    if text != "" && text[0] == ' ' {
      SpacesAre(text[1..]);
      var n := Spaces(text[1..]);
      assert forall i :: 0 < i < n + 1 ==> text[i] == text[1..][i - 1];
    }
  }

  lemma {:induction false} HashesAre(text: string)
    ensures var n := Hashes(text);
      n <= |text| && (n < |text| ==> text[n] != '#') && forall i :: 0 <= i < n ==> text[i] == '#'
  {
    if text != "" && text[0] == '#' {
      HashesAre(text[1..]);
      var n := Hashes(text[1..]);
      assert forall i :: 0 < i < n + 1 ==> text[i] == text[1..][i - 1];
    }
  }

  lemma {:induction false} DepthGrows(text: string, depth: nat)
    ensures Behind(text, depth).Some? ==> Behind(text, depth).value.depth >= depth
    decreases |text|
  {
    hide Atx;
    AtxKeepsDepth(text, depth);
    var indent := Spaces(text);
    if indent <= 3 && indent < |text| {
      AtxKeepsDepth(text[indent..], depth);
      if text[indent] == '>' {
        var inner := text[indent + 1..];
        DepthGrows(if inner != "" && inner[0] == ' ' then inner[1..] else inner, depth + 1);
      }
    }
  }

  lemma AtxKeepsDepth(text: string, depth: nat)
    ensures Atx(text, depth).Some? ==> Atx(text, depth).value.depth == depth
  {
  }

  lemma AtxIff(text: string, level: nat)
    ensures Atx(text, 0).Some? && Atx(text, 0).value.level == level <==>
      1 <= level <= 6 && level <= |text| && (forall i :: 0 <= i < level ==> text[i] == '#') &&
      (level == |text| || text[level] == ' ' || text[level] == '\t')
  {
    HashesAre(text);
    hide Slugify, Title, Hashes;
  }

  /** A line opens a section of the outline exactly when it is an ATX heading of that level. */
  lemma OutlineLineIff(line: string, level: nat)
    ensures IsOutline(line) && HeadingOf(line).value.level == level <==> OpensSection(line, level)
  {
    var text := Content(line);
    SpacesAre(text);
    var x := Spaces(text);
    hide Atx, Spaces, Content;
    if x <= |text| { AtxIff(text[x..], level); AtxKeepsDepth(text[x..], 0); }
    if x < |text| && text[x] == '>' {
      var inner := text[x + 1..];
      DepthGrows(if inner != "" && inner[0] == ' ' then inner[1..] else inner, 1);
    }
    TextOf(line, level, text, x);
  }

  lemma TextOf(line: string, level: nat, text: string, x: nat)
    requires text == Content(line) && x <= |text| && (x < |text| ==> text[x] != ' ')
    requires forall i :: 0 <= i < x ==> text[i] == ' '
    ensures OpensSection(line, level) <==>
      x <= 3 && 1 <= level <= 6 && level <= |text[x..]| && (forall i :: 0 <= i < level ==> text[x..][i] == '#') &&
      (level == |text[x..]| || text[x..][level] == ' ' || text[x..][level] == '\t')
  {
    var tail := text[x..];
    assert forall i :: 0 <= i < |tail| ==> tail[i] == text[x + i];
    assert forall i :: x <= i < |text| ==> text[i] == tail[i - x];
    if x <= 3 && 1 <= level <= 6 && level <= |tail| && (forall i :: 0 <= i < level ==> tail[i] == '#') &&
       (level == |tail| || tail[level] == ' ' || tail[level] == '\t') {
      assert level < |tail| ==> text[x + level] == tail[level];
      assert HashesBehind(text, level, x);
      assert OpensSection(line, level);
    }
    if OpensSection(line, level) {
      assert 1 <= level;
      var y: nat :| HashesBehind(text, level, y);
      HashesStart(text, level, y);
      assert y == x;
    }
  }

  lemma HashesStart(text: string, level: nat, x: nat)
    requires level > 0 && HashesBehind(text, level, x)
    ensures x < |text| && text[x] == '#' && forall i :: 0 <= i < x ==> text[i] == ' '
  {
  }
}
