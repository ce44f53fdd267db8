/**
 The editor collaborator's vocabulary: positions, ranges, the lines a lookup
 reports, the edits staged in an edit batch, and the companion files written
 to disk. Edits are only described here; applying them is the editor's job.
 */
module Editor {

  /** A zero-based (line, character) position in a document. */
  datatype Position = Position(line: nat, character: nat)

  /** The text between two positions. */
  datatype Range = Range(start: Position, end: Position)

  /**
   A document line as a lookup reports it: its number, its text (without the
   line break), its extent without the line break, and its extent including it.
   */
  datatype Line = Line(lineNumber: nat, text: string, range: Range, rangeIncludingLineBreak: Range)

  /** One staged operation of an edit batch. */
  datatype Edit =
    | Insert(at: Position, text: string)
    | Replace(range: Range, text: string)

  /** A companion file to create, named relative to the edited document's directory. */
  datatype FileWrite = FileWrite(name: string, contents: string)

  /** `p` comes strictly before `q` in the document. */
  predicate Precedes(p: Position, q: Position) {
    p.line < q.line || (p.line == q.line && p.character < q.character)
  }

  /** The text an edit covers: the empty range at an insertion point, or the replaced range. */
  function Span(e: Edit): Range {
    match e
    case Insert(at, _) => Range(at, at)
    case Replace(range, _) => range
  }

  /** The spans of `x` and `y` share more than an end point. */
  predicate Overlap(x: Edit, y: Edit) {
    Precedes(Span(x).start, Span(y).end) && Precedes(Span(y).start, Span(x).end)
  }

  /** No two edits of one batch overlap, as the editor demands of an edit batch. */
  predicate NonOverlapping(edits: seq<Edit>) {
    forall i, j :: 0 <= i < j < |edits| ==> !Overlap(edits[i], edits[j])
  }

  /** The edit `e` is addressed at line `l`: at its start, just after its line break, or over its text. */
  predicate Targets(e: Edit, l: Line) {
    match e
    case Insert(at, _) => at == l.range.start || at == l.rangeIncludingLineBreak.end
    case Replace(range, _) => range == l.range
  }
}
