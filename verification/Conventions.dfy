/** Slugs, canonical identifiers and the repository path of a memory file, as text. */
module Conventions {
  import opened Basics

  const MAX_SLUG_SEGMENTS: nat := 8
  const MAX_SLUG_LENGTH: nat := 256
  const MEMORIES_DIR: string := "memories"
  const MEMORY_EXTENSION: string := ".md"

  function SplitAll(s: string, sep: char): (parts: seq<string>)
    ensures |parts| >= 1
  {
    if s == "" then [""]
    else
      var rest := SplitAll(s[1..], sep);
      if s[0] == sep then [""] + rest else [[s[0]] + rest[0]] + rest[1..]
  }

  predicate SlugChar(c: char) {
    'a' <= c <= 'z' || '0' <= c <= '9' || c == '-'
  }

  predicate ValidSlugSegment(segment: string) {
    && segment != ""
    && segment[0] != '-' && segment[|segment| - 1] != '-'
    && (forall i :: 0 <= i < |segment| ==> SlugChar(segment[i]))
    && (forall i :: 0 <= i < |segment| - 1 ==> !(segment[i] == '-' && segment[i + 1] == '-'))
  }

  predicate ValidMemorySlug(slug: string) {
    && slug != "" && |slug| <= MAX_SLUG_LENGTH
    && slug[0] != '/' && slug[|slug| - 1] != '/'
    && |SplitAll(slug, '/')| <= MAX_SLUG_SEGMENTS
    && forall i :: 0 <= i < |SplitAll(slug, '/')| ==> ValidSlugSegment(SplitAll(slug, '/')[i])
  }

  // ---- Repository paths as text ----

  const UUID_LIMIT: nat := 0x1_0000_0000_0000_0000_0000_0000_0000_0000

  function HexDigit(n: nat): char
    requires n < 16
  {
    "0123456789abcdef"[n]
  }

  /** The last `width` hexadecimal digits of a number. */
  function Hex(n: nat, width: nat): (s: string)
    ensures |s| == width && forall i :: 0 <= i < width ==> s[i] != '/' && s[i] != '-'
    decreases width
  {
    if width == 0 then "" else Hex(n / 16, width - 1) + [HexDigit(n % 16)]
  }

  function Power(base: nat, exponent: nat): nat {
    if exponent == 0 then 1 else base * Power(base, exponent - 1)
  }

  lemma {:induction false} HexInjective(m: nat, n: nat, width: nat)
    requires m < Power(16, width) && n < Power(16, width) && Hex(m, width) == Hex(n, width)
    ensures m == n
  {
    if width > 0 {
      var a, b := Hex(m, width), Hex(n, width);
      assert a[width - 1] == b[width - 1] && m % 16 == n % 16;
      assert a[..width - 1] == Hex(m / 16, width - 1) && b[..width - 1] == Hex(n / 16, width - 1);
      HexInjective(m / 16, n / 16, width - 1);
    }
  }

  function Hyphenated(h: string): (s: string)
    requires |h| == 32
    ensures |s| == 36
  {
    h[..8] + "-" + h[8..12] + "-" + h[12..16] + "-" + h[16..20] + "-" + h[20..]
  }

  function Digits(s: string): string
    requires |s| == 36
  {
    s[..8] + s[9..13] + s[14..18] + s[19..23] + s[24..]
  }

  lemma DigitsBack(h: string)
    requires |h| == 32
    ensures Digits(Hyphenated(h)) == h
  {
    var s := Hyphenated(h);
    assert forall i :: 0 <= i < 8 ==> s[i] == h[i];
    assert forall i :: 9 <= i < 13 ==> s[i] == h[i - 1];
    assert forall i :: 14 <= i < 18 ==> s[i] == h[i - 2];
    assert forall i :: 19 <= i < 23 ==> s[i] == h[i - 3];
    assert forall i :: 24 <= i < 36 ==> s[i] == h[i - 4];
  }

  /** The canonical text of an identifier: 32 digits in groups of 8, 4, 4, 4 and 12. */
  function UuidText(id: Uuid): (s: string)
    ensures |s| == 36
  {
    Hyphenated(Hex(id, 32))
  }

  lemma HyphenatedHasNoSlash(h: string)
    requires |h| == 32 && forall i :: 0 <= i < 32 ==> h[i] != '/'
    ensures forall i :: 0 <= i < 36 ==> Hyphenated(h)[i] != '/'
  {
    var s := Hyphenated(h);
    assert forall i :: 0 <= i < 8 ==> s[i] == h[i];
    assert forall i :: 9 <= i < 13 ==> s[i] == h[i - 1];
    assert forall i :: 14 <= i < 18 ==> s[i] == h[i - 2];
    assert forall i :: 19 <= i < 23 ==> s[i] == h[i - 3];
    assert forall i :: 24 <= i < 36 ==> s[i] == h[i - 4];
    assert s[8] == '-' && s[13] == '-' && s[18] == '-' && s[23] == '-';
  }

  lemma LimitIsPower()
    ensures Power(16, 32) == UUID_LIMIT
  {
    assert Power(16, 4) == 0x1_0000;
    PowerSum(16, 4, 4);
    PowerSum(16, 8, 8);
    PowerSum(16, 16, 16);
  }

  lemma PowerStep(base: nat, n: nat)
    ensures Power(base, n + 1) == base * Power(base, n)
  {
  }

  lemma {:induction false} PowerSum(base: nat, m: nat, n: nat)
    ensures Power(base, m + n) == Power(base, m) * Power(base, n)
  {
    if m > 0 {
      PowerSum(base, m - 1, n);
      hide Power;
      var x, y := Power(base, m - 1), Power(base, n);
      PowerStep(base, m - 1);
      PowerStep(base, m - 1 + n);
    }
  }

  lemma UuidTextInjective(m: Uuid, n: Uuid)
    requires m < UUID_LIMIT && n < UUID_LIMIT && UuidText(m) == UuidText(n)
    ensures m == n
  {
    LimitIsPower();
    DigitsBack(Hex(m, 32));
    DigitsBack(Hex(n, 32));
    hide Hex, Hyphenated, Digits, Power;
    HexInjective(m, n, 32);
  }

  function MemoryPathText(slug: string, id: Uuid): string {
    MEMORIES_DIR + "/" + slug + "/" + UuidText(id) + MEMORY_EXTENSION
  }

  /** Split at the last separator, if there is one. */
  function SplitLast(text: string, sep: char): Option<(string, string)> {
    if text == "" then None
    else if text[|text| - 1] == sep then Some((text[..|text| - 1], ""))
    else
      match SplitLast(text[..|text| - 1], sep)
      case None => None
      case Some(parts) => Some((parts.0, parts.1 + [text[|text| - 1]]))
  }

  lemma {:induction false} SplitLastAt(front: string, sep: char, tail: string)
    requires forall i :: 0 <= i < |tail| ==> tail[i] != sep
    ensures SplitLast(front + [sep] + tail, sep) == Some((front, tail))
    decreases |tail|
  {
    var text := front + [sep] + tail;
    if tail == "" {
      assert text == front + [sep];
    } else {
      var rest := tail[..|tail| - 1];
      assert text[..|text| - 1] == front + [sep] + rest && text[|text| - 1] == tail[|tail| - 1];
      SplitLastAt(front, sep, rest);
      assert rest + [tail[|tail| - 1]] == tail;
    }
  }

  function StripPrefix(text: string, prefix: string): Option<string> {
    if |prefix| <= |text| && text[..|prefix|] == prefix then Some(text[|prefix|..]) else None
  }

  /** The slug and file name of a path below the memories directory. */
  function SlugAndFile(path: string): Option<(string, string)> {
    match StripPrefix(path, MEMORIES_DIR)
    case None => None
    case Some(behind) =>
      match StripPrefix(behind, "/")
      case None => None
      case Some(rest) => SplitLast(rest, '/')
  }

  lemma PrefixBack(prefix: string, rest: string)
    ensures StripPrefix(prefix + rest, prefix) == Some(rest)
  {
    assert (prefix + rest)[..|prefix|] == prefix && (prefix + rest)[|prefix|..] == rest;
  }

  lemma FileHasNoSlash(id: Uuid)
    ensures forall i :: 0 <= i < |UuidText(id) + MEMORY_EXTENSION| ==> (UuidText(id) + MEMORY_EXTENSION)[i] != '/'
  {
    HyphenatedHasNoSlash(Hex(id, 32));
    hide Hyphenated, Hex;
  }

  lemma PathParts(slug: string, id: Uuid)
    ensures MemoryPathText(slug, id) == MEMORIES_DIR + ("/" + (slug + ['/'] + (UuidText(id) + MEMORY_EXTENSION)))
  {
    hide UuidText;
  }

  lemma SlugAndFileIs(path: string, behind: string, rest: string)
    requires StripPrefix(path, MEMORIES_DIR) == Some(behind) && StripPrefix(behind, "/") == Some(rest)
    ensures SlugAndFile(path) == SplitLast(rest, '/')
  {
    hide SplitLast, StripPrefix;
  }

  /** A memory's path gives back its slug, nested or not, and its canonical file name. */
  lemma PathRoundTrip(slug: string, id: Uuid)
    ensures SlugAndFile(MemoryPathText(slug, id)) == Some((slug, UuidText(id) + MEMORY_EXTENSION))
  {
    hide *;
    var file := UuidText(id) + MEMORY_EXTENSION;
    var rest := slug + ['/'] + file;
    PathParts(slug, id);
    PrefixBack(MEMORIES_DIR, "/" + rest);
    PrefixBack("/", rest);
    SlugAndFileIs(MemoryPathText(slug, id), "/" + rest, rest);
    FileHasNoSlash(id);
    SplitLastAt(slug, '/', file);
  }

  /** No two memories share a path, so a path can stand for slug and id in a commit or a batch of reads. */
  lemma MemoryPathInjective(slug: string, id: Uuid, otherSlug: string, otherId: Uuid)
    requires id < UUID_LIMIT && otherId < UUID_LIMIT && MemoryPathText(slug, id) == MemoryPathText(otherSlug, otherId)
    ensures slug == otherSlug && id == otherId
  {
    PathRoundTrip(slug, id);
    PathRoundTrip(otherSlug, otherId);
    assert (UuidText(id) + MEMORY_EXTENSION)[..36] == UuidText(id) &&
           (UuidText(otherId) + MEMORY_EXTENSION)[..36] == UuidText(otherId);
    UuidTextInjective(id, otherId);
  }

  // ---- Valid slugs, character by character ----

  predicate Joint(c: char) {
    c == '-' || c == '/'
  }

  /** Lower-case letters, digits and single hyphens or slashes between them. */
  ghost predicate Spelled(s: string) {
    s != "" && !Joint(s[0]) && !Joint(s[|s| - 1]) && SlugText(s) && JointsApart(s)
  }

  predicate SlugText(s: string) {
    forall i :: 0 <= i < |s| ==> Joint(s[i]) || 'a' <= s[i] <= 'z' || '0' <= s[i] <= '9'
  }

  ghost predicate JointsApart(s: string) {
    forall i, j :: 0 <= i < j < |s| && Joint(s[i]) && Joint(s[j]) ==> j != i + 1
  }

  function Slashes(s: string): nat {
    if s == "" then 0 else (if s[0] == '/' then 1 else 0) + Slashes(s[1..])
  }

  predicate AllSegments(s: string) {
    forall i :: 0 <= i < |SplitAll(s, '/')| ==> ValidSlugSegment(SplitAll(s, '/')[i])
  }

  lemma SegmentStep(c: char, segment: string)
    requires segment != ""
    ensures ValidSlugSegment([c] + segment) <==>
      c != '-' && SlugChar(c) && if segment[0] == '-' then |segment| > 1 && ValidSlugSegment(segment[1..])
                                 else ValidSlugSegment(segment)
  {
    var s := [c] + segment;
    assert s[|s| - 1] == segment[|segment| - 1];
    assert forall i :: 0 <= i < |segment| ==> s[i + 1] == segment[i];
    if segment[0] == '-' && |segment| > 1 {
      var rest := segment[1..];
      assert forall i :: 0 <= i < |rest| ==> rest[i] == s[i + 2];
      assert forall i :: 2 <= i < |s| ==> s[i] == rest[i - 2];
    }
  }

  predicate Plain(c: char) {
    'a' <= c <= 'z' || '0' <= c <= '9'
  }

  lemma SpelledStep(c: char, r: string)
    ensures Spelled([c] + r) <==> Plain(c) && (r == "" || if Joint(r[0]) then Spelled(r[1..]) else Spelled(r))
  {
    hide SlugText, JointsApart;
    TextStep(c, r);
    NoText();
    if r != "" {
      assert ([c] + r)[|r|] == r[|r| - 1];
      assert r == [r[0]] + r[1..];
      TextStep(r[0], r[1..]);
    }
  }

  lemma TextStep(c: char, r: string)
    ensures SlugText([c] + r) <==> (Joint(c) || Plain(c)) && SlugText(r)
    ensures JointsApart([c] + r) <==> (r == "" || !(Joint(c) && Joint(r[0]))) && JointsApart(r)
  {
    hide SlugText, JointsApart;
    CharsStep(c, r);
    JointsStep(c, r);
  }

  lemma CharsStep(c: char, r: string)
    ensures SlugText([c] + r) <==> (Joint(c) || Plain(c)) && SlugText(r)
  {
    var s := [c] + r;
    assert s[0] == c;
    hide Joint;
    if SlugText(s) {
      forall i | 0 <= i < |r| ensures Joint(r[i]) || 'a' <= r[i] <= 'z' || '0' <= r[i] <= '9' {
        assert s[i + 1] == r[i];
      }
    }
    if (Joint(c) || Plain(c)) && SlugText(r) {
      forall i | 0 <= i < |s| ensures Joint(s[i]) || 'a' <= s[i] <= 'z' || '0' <= s[i] <= '9' {
        if i > 0 { assert s[i] == r[i - 1]; }
      }
    }
  }

  lemma JointsStep(c: char, r: string)
    ensures JointsApart([c] + r) <==> (r == "" || !(Joint(c) && Joint(r[0]))) && JointsApart(r)
  {
    var s := [c] + r;
    hide Joint;
    if JointsApart(s) {
      forall i, j | 0 <= i < j < |r| && Joint(r[i]) && Joint(r[j]) ensures j != i + 1 {
        assert s[i + 1] == r[i] && s[j + 1] == r[j];
      }
      if r != "" { assert s[0] == c && s[1] == r[0]; }
    }
    if JointsApart(r) {
      forall i, j | 0 < i < j < |s| && Joint(s[i]) && Joint(s[j]) ensures j != i + 1 {
        assert s[i] == r[i - 1] && s[j] == r[j - 1];
      }
      assert r != "" ==> s[0] == c && s[1] == r[0];
    }
  }

  lemma NoText()
    ensures SlugText("") && JointsApart("")
  {
  }

  lemma OneSegment(c: char)
    ensures ValidSlugSegment([c]) <==> Plain(c)
  {
  }

  lemma SegmentsCons(first: string, rest: seq<string>)
    ensures (forall i :: 0 <= i < |[first] + rest| ==> ValidSlugSegment(([first] + rest)[i])) <==>
      ValidSlugSegment(first) && forall i :: 0 <= i < |rest| ==> ValidSlugSegment(rest[i])
  {
    hide ValidSlugSegment;
    var all := [first] + rest;
    assert forall i :: 0 <= i < |rest| ==> all[i + 1] == rest[i];
    assert forall i :: 1 <= i < |all| ==> all[i] == rest[i - 1];
    assert all[0] == first;
  }

  lemma AllSegmentsStep(c: char, r: string)
    ensures AllSegments([c] + r) <==>
      Plain(c) && (r == "" || if Joint(r[0]) then AllSegments(r[1..]) else AllSegments(r))
  {
    var s, parts := [c] + r, SplitAll(r, '/');
    assert s[1..] == r && parts == [parts[0]] + parts[1..];
    SplitFirst(r);
    assert SplitAll(s, '/') == if c == '/' then [""] + parts else [[c] + parts[0]] + parts[1..];
    hide ValidSlugSegment;
    EmptyIsNoSegment();
    OneSegment(c);
    if c == '/' {
      SegmentsCons("", parts);
      assert !AllSegments(s);
    } else {
      SegmentsCons([c] + parts[0], parts[1..]);
      SegmentsCons(parts[0], parts[1..]);
      if parts[0] != "" { SegmentStep(c, parts[0]); }
      if r != "" && Joint(r[0]) {
        var behind := SplitAll(r[1..], '/');
        assert behind == [behind[0]] + behind[1..];
        SegmentsCons(behind[0], behind[1..]);
        assert r[0] == '-' ==> parts[0][1..] == behind[0] && parts[1..] == behind[1..];
        assert r[0] == '/' ==> parts[0] == "" && parts[1..] == behind && [c] + parts[0] == [c];
      } else if r == "" {
        assert [c] + parts[0] == [c];
      }
    }
  }

  lemma EmptyIsNoSegment()
    ensures !ValidSlugSegment("")
  {
  }

  lemma SplitFirst(s: string)
    ensures s == "" ==> SplitAll(s, '/') == [""]
    ensures s != "" && s[0] != '/' ==> SplitAll(s, '/')[0] != "" && SplitAll(s, '/')[0][0] == s[0]
  {
    if s != "" {
      var rest := SplitAll(s[1..], '/');
      assert s[0] != '/' ==> SplitAll(s, '/') == [[s[0]] + rest[0]] + rest[1..];
    }
  }

  lemma {:induction false} SegmentsIff(s: string)
    ensures AllSegments(s) <==> Spelled(s)
    decreases |s|
  {
    if s == "" {
      SplitFirst(s);
    } else {
      var c, r := s[0], s[1..];
      assert s == [c] + r;
      hide AllSegments, Spelled, Plain, Joint;
      AllSegmentsStep(c, r);
      SpelledStep(c, r);
      if r != "" {
        SegmentsIff(r);
        SegmentsIff(r[1..]);
      }
    }
  }

  lemma {:induction false} SegmentCount(s: string)
    ensures |SplitAll(s, '/')| == Slashes(s) + 1
  {
    if s != "" { SegmentCount(s[1..]); }
  }

  /**
    A slug is valid exactly when it has at most 256 characters and seven slashes, and is spelled in lower-case
    letters and digits with single hyphens or slashes between them.
  */
  lemma ValidSlugIff(s: string)
    ensures ValidMemorySlug(s) <==> |s| <= 256 && Slashes(s) <= 7 && Spelled(s)
  {
    hide ValidSlugSegment, SplitAll;
    SegmentsIff(s);
    SegmentCount(s);
  }
}
