/**
  The section and line operations on a memory body.

  Every operation parses the body, resolves paths to line ranges, turns those into byte offsets and hands
  one span and one fragment to the splice. A batch stops at its first error.
*/
module SectionOps {
  import opened Basics
  import opened Whitespace
  import opened TextLines
  import opened Outlines
  import opened Splices

  datatype EditError =
    | SectionNotFound(path: Trail)
    | MoveWouldLoop(target: Trail, anchor: Trail)
    | LevelOutOfRange(level: nat)
    | InvalidLineRange(start: nat, end: nat, lineCount: nat)
    | LinePastEof(line: nat, lineCount: nat)
    | BadSplice(error: SpliceError)
    | PreambleNotUpsertable
    | UpsertPathUnreachable(requested: Trail, produced: Trail)
    | UpsertSectionNotSelfContained(requested: Trail)

  datatype EditOp =
    | UpsertSection(path: Trail, level: nat, heading: string, text: string)
    | DeleteSection(path: Trail)
    | InsertSection(anchor: Trail, level: nat, heading: string, text: string, before: bool)
    | MoveSection(target: Trail, anchor: Trail, before: bool)
    | ReplaceSectionBody(path: Trail, text: string)
    | InsertAtLine(line: U32, content: string)
    | ReplaceLines(start: U32, end: U32, content: string)
    | DeleteLines(start: U32, end: U32)

  type Edited = Result<string, EditError>

  // ---- Ranges ----

  /** Byte offset of a line; anything past the last line is the end of the text. */
  function ByteOffset(lines: seq<string>, line: nat): nat {
    Offset(lines, if line < |lines| then line else |lines|)
  }

  function SpliceAt(body: string, startLine: nat, endLine: nat, fragment: string): Edited {
    match Splice(body, ByteOffset(Lines(body), startLine), ByteOffset(Lines(body), endLine), fragment)
    case Ok(text) => Ok(text)
    case Err(e) => Err(BadSplice(e))
  }

  /** Index of the first section with this path, or the number of sections. */
  function Find(sections: seq<Section>, path: Trail): (idx: nat)
    ensures idx <= |sections| && (idx < |sections| ==> sections[idx].trail == path)
    ensures forall i :: 0 <= i < idx ==> sections[i].trail != path
  {
    if sections == [] || sections[0].trail == path then 0 else 1 + Find(sections[1..], path)
  }

  /** The next outline section at `level` or shallower. */
  function NextClosing(sections: seq<Section>, level: nat, from: nat): (end: nat)
    requires from <= |sections|
    ensures from <= end <= |sections|
    ensures end < |sections| ==> sections[end].depth == 0 && sections[end].level <= level
    ensures forall i :: from <= i < end ==> sections[i].depth > 0 || sections[i].level > level
    decreases |sections| - from
  {
    if from == |sections| || (sections[from].depth == 0 && sections[from].level <= level) then from
    else NextClosing(sections, level, from + 1)
  }

  /** The preamble and quoted headings own no subtree. */
  function SubtreeEnd(sections: seq<Section>, idx: nat): (end: nat)
    requires idx < |sections|
    ensures idx < end <= |sections|
  {
    if sections[idx].level == 0 || sections[idx].depth > 0 then idx + 1
    else NextClosing(sections, sections[idx].level, idx + 1)
  }

  function LineOf(lines: seq<string>, sections: seq<Section>, idx: nat): nat {
    if idx < |sections| then sections[idx].lineStart else |lines|
  }

  function RangeStart(sections: seq<Section>, idx: nat): nat
    requires idx < |sections|
  {
    sections[idx].lineStart
  }

  function RangeEnd(lines: seq<string>, sections: seq<Section>, idx: nat): nat
    requires idx < |sections|
  {
    LineOf(lines, sections, SubtreeEnd(sections, idx))
  }

  /** The first outline section of the subtree deeper than its root, or the end of the subtree. */
  function FirstChild(sections: seq<Section>, level: nat, from: nat, limit: nat): (child: nat)
    requires from <= limit <= |sections|
    ensures from <= child <= limit
    ensures child < limit ==> sections[child].depth == 0 && sections[child].level > level
    ensures forall i :: from <= i < child ==> sections[i].depth > 0 || sections[i].level <= level
    decreases limit - from
  {
    if from == limit || (sections[from].depth == 0 && sections[from].level > level) then from
    else FirstChild(sections, level, from + 1, limit)
  }

  // ---- Text helpers ----

  function TrimBreaks(text: string): string {
    if text != "" && text[0] == '\n' then TrimBreaks(text[1..])
    else if text != "" && text[|text| - 1] == '\n' then TrimBreaks(text[..|text| - 1])
    else text
  }

  function Marker(level: nat): (s: string)
    ensures |s| == level && forall i :: 0 <= i < level ==> s[i] == '#'
  {
    if level == 0 then "" else Marker(level - 1) + "#"
  }

  function Rendered(level: nat, heading: string, text: string): string {
    Marker(level) + " " + Trim(heading) + (if TrimBreaks(text) != "" then "\n\n" + TrimBreaks(text) else "")
  }

  function DropOneTrailingBlankLine(text: string): string {
    if text == "" || text[|text| - 1] != '\n' then text
    else
      var head := text[..|text| - 1];
      if head == "" || head[|head| - 1] == '\n' then head else text
  }

  // ---- Section operations ----

  function Upsert(body: string, path: Trail, level: nat, heading: string, text: string): Edited {
    if !(1 <= level <= 6) then Err(LevelOutOfRange(level))
    else if path == PREAMBLE then Err(PreambleNotUpsertable)
    else
      var rendered, lines := Rendered(level, heading, text), Lines(body);
      var sections := Outline(lines);
      var idx := Find(sections, path);
      match if idx < |sections| then SpliceAt(body, RangeStart(sections, idx), RangeEnd(lines, sections, idx), rendered)
            else SpliceAt(body, |lines|, |lines|, rendered)
      case Err(e) => Err(e)
      case Ok(spliced) => CheckUpserted(spliced, path, idx, |Lines(rendered)|)
  }

  /** The written section must come back under its path and contain every rendered line. */
  function CheckUpserted(spliced: string, path: Trail, idx: nat, renderedLines: nat): Edited {
    var sections := Outline(Lines(spliced));
    if idx >= |sections| then Err(UpsertSectionNotSelfContained(path))
    else if sections[idx].trail != path then Err(UpsertPathUnreachable(path, sections[idx].trail))
    else if RangeEnd(Lines(spliced), sections, idx) < RangeStart(sections,
      idx) + renderedLines then Err(UpsertSectionNotSelfContained(path))
    else Ok(spliced)
  }

  function Delete(body: string, path: Trail): Edited {
    var lines := Lines(body);
    var sections := Outline(lines);
    var idx := Find(sections, path);
    if idx == |sections| then Err(SectionNotFound(path))
    else SpliceAt(body, RangeStart(sections, idx), RangeEnd(lines, sections, idx), "")
  }

  function InsertRelative(body: string, anchor: Trail, level: nat, heading: string, text: string,
          before: bool): Edited {
    if !(1 <= level <= 6) then Err(LevelOutOfRange(level))
    else
      var lines := Lines(body);
      var sections := Outline(lines);
      var idx := Find(sections, anchor);
      if idx == |sections| then Err(SectionNotFound(anchor))
      else
        var point := if before then RangeStart(sections, idx) else RangeEnd(lines, sections, idx);
        SpliceAt(body, point, point, Rendered(level, heading, text))
  }

  function Move(body: string, target: Trail, anchor: Trail, before: bool): Edited {
    if target == anchor then Err(MoveWouldLoop(target, anchor))
    else
      var lines := Lines(body);
      var sections := Outline(lines);
      var from, near := Find(sections, target), Find(sections, anchor);
      if from == |sections| then Err(SectionNotFound(target))
      else if near == |sections| then Err(SectionNotFound(anchor))
      else if from < near < SubtreeEnd(sections, from) then Err(MoveWouldLoop(target, anchor))
      else
        var a, b := RangeStart(sections, from), RangeEnd(lines, sections, from);
        var start, end := ByteOffset(lines, a), ByteOffset(lines, b);
        if start > end || end > |body| then Err(BadSplice(InvertedRange(start, end)))
        else
          match SpliceAt(body, a, b, "")
          case Err(e) => Err(e)
          case Ok(without) =>
            MoveInto(if end == |body| then DropOneTrailingBlankLine(without) else without, body[start..end], anchor,
              before)
  }

  /** Parse again without the target and insert it at the anchor. */
  function MoveInto(body: string, extracted: string, anchor: Trail, before: bool): Edited {
    var lines := Lines(body);
    var sections := Outline(lines);
    var idx := Find(sections, anchor);
    if idx == |sections| then Err(SectionNotFound(anchor))
    else
      var point := if before then RangeStart(sections, idx) else RangeEnd(lines, sections, idx);
      SpliceAt(body, point, point, extracted)
  }

  function ReplaceBody(body: string, path: Trail, text: string): Edited {
    var lines := Lines(body);
    var sections := Outline(lines);
    var idx := Find(sections, path);
    if idx == |sections| then Err(SectionNotFound(path))
    else SpliceAt(body, sections[idx].headingEnd, OwnBodyEnd(lines, sections, idx), TrimBreaks(text))
  }

  function OwnBodyEnd(lines: seq<string>, sections: seq<Section>, idx: nat): nat
    requires idx < |sections|
  {
    LineOf(lines, sections, FirstChild(sections, sections[idx].level, idx + 1, SubtreeEnd(sections, idx)))
  }

  // ---- Line operations ----

  /** Line counts are 32 bits wide. */
  function LineCount(lines: seq<string>): nat {
    |lines| % U32_LIMIT
  }

  function InsertLines(body: string, line: U32, content: string): Edited {
    var lines := Lines(body);
    if line > LineCount(lines) then Err(LinePastEof(line, LineCount(lines)))
    else SpliceAt(body, line, line, content)
  }

  function ReplaceRange(body: string, start: U32, end: U32, content: string): Edited {
    var lines := Lines(body);
    if end < start || end > LineCount(lines) then Err(InvalidLineRange(start, end, LineCount(lines)))
    else SpliceAt(body, start, end, content)
  }

  // ---- Batches ----

  function ApplyOne(body: string, op: EditOp): Edited {
    match op
    case UpsertSection(path, level, heading, text) => Upsert(body, path, level, heading, text)
    case DeleteSection(path) => Delete(body, path)
    case InsertSection(anchor, level, heading, text, before) => InsertRelative(body, anchor, level, heading, text,
      before)
    case MoveSection(target, anchor, before) => Move(body, target, anchor, before)
    case ReplaceSectionBody(path, text) => ReplaceBody(body, path, text)
    case InsertAtLine(line, content) => InsertLines(body, line, content)
    case ReplaceLines(start, end, content) => ReplaceRange(body, start, end, content)
    case DeleteLines(start, end) => ReplaceRange(body, start, end, "")
  }

  /** The bodies a batch passes through: each is what its operation makes of the one before. */
  ghost predicate Trace(bodies: seq<string>, ops: seq<EditOp>, n: nat) {
    && n <= |ops| && |bodies| == n + 1
    && forall i :: 0 <= i < n ==> ApplyOne(bodies[i], ops[i]) == Ok(bodies[i + 1])
  }

  /** All operations in order, or the error of the first one that fails. */
  method ApplyOps(body: string, ops: seq<EditOp>) returns (out: Edited, ghost bodies: seq<string>)
    ensures out.Ok? ==> Trace(bodies, ops, |ops|) && bodies[0] == body && bodies[|ops|] == out.value
    ensures out.Err? ==> 0 < |bodies| <= |ops| && bodies[0] == body && Trace(bodies, ops, |bodies| - 1)
    ensures out.Err? ==> ApplyOne(bodies[|bodies| - 1], ops[|bodies| - 1]) == Err(out.error)
  {
    hide ApplyOne;
    var current := body;
    bodies := [body];
    for i := 0 to |ops|
      invariant Trace(bodies, ops, i) && bodies[0] == body && bodies[i] == current
    {
      var next := ApplyOne(current, ops[i]);
      if next.Err? { return Err(next.error), bodies; }
      current := next.value;
      bodies := bodies + [current];
    }
    return Ok(current), bodies;
  }
}
