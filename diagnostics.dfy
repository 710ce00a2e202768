/** The diagnostic emitter: `outputPos` and `makeError`, which turn a finding
    (node, message, severity) into the record the lint query returns. */
module Diagnostics {
  import opened Syntax

  /** A line/character pair, as the file's position converter produces it. */
  datatype LineCol = LineCol(line: nat, ch: nat)

  /** An output position: a raw offset, or a converted line/character pair. */
  datatype Position = Offset(offset: nat) | At(lineCol: LineCol)

  /** How the caller wants positions: `lineCharPositions` of the query, and the
      file's converter `asLineChar`, which is not part of this model. */
  datatype PositionFormat = PositionFormat(lineCharPositions: bool, asLineChar: nat -> LineCol)

  /** One entry of the response's `messages`. */
  datatype Message = Message(message: string, from: Position, to: Position, severity: string)

  /** The arguments of one `addMessage(node, msg, severity)` call. */
  datatype Finding = Finding(at: Node, text: string, severity: string)

  /** `outputPos`: an offset is passed through unless line/character positions were asked for. */
  function OutputPos(format: PositionFormat, pos: nat): (r: Position)
    ensures !format.lineCharPositions ==> r == Offset(pos)
    ensures format.lineCharPositions ==> r == At(format.asLineChar(pos))
  {
    if format.lineCharPositions then At(format.asLineChar(pos)) else Offset(pos)
  }

  /** `makeError`: the record for a finding, spanning the token `getPosition` selects. */
  function MakeError(format: PositionFormat, f: Finding): (m: Message)
    ensures m.message == f.text && m.severity == f.severity
    ensures m.from == OutputPos(format, GetPosition(f.at).span.start)
    ensures m.to == OutputPos(format, GetPosition(f.at).span.end)
  {
    var pos := GetPosition(f.at);
    Message(f.text, OutputPos(format, pos.span.start), OutputPos(format, pos.span.end), f.severity)
  }

  /** The records of several findings, in order. */
  function MakeErrors(format: PositionFormat, fs: seq<Finding>): (ms: seq<Message>)
    ensures |ms| == |fs|
    ensures forall i :: 0 <= i < |fs| ==> ms[i] == MakeError(format, fs[i])
  {
    if fs == [] then [] else [MakeError(format, fs[0])] + MakeErrors(format, fs[1..])
  }

  /** One more finding adds its record at the end. */
  lemma MakeErrorsSnoc(format: PositionFormat, fs: seq<Finding>, f: Finding)
    ensures MakeErrors(format, fs + [f]) == MakeErrors(format, fs) + [MakeError(format, f)]
  {
    var l, r := MakeErrors(format, fs + [f]), MakeErrors(format, fs) + [MakeError(format, f)];
    assert |l| == |r|;
    forall i | 0 <= i < |l| ensures l[i] == r[i] {
      assert (fs + [f])[i] == if i < |fs| then fs[i] else f;
    }
  }

  /** With offsets, a diagnostic about a call spans exactly the name token of its
      callee: `getName` and `getPosition` select the same token. */
  lemma CallDiagnosticSpansCalleeName(format: PositionFormat, call: Node, text: string, severity: string)
    requires call.Call? && !format.lineCharPositions
    ensures var m := MakeError(format, Finding(call, text, severity));
      m.from == Offset(GetPosition(call.callee).span.start) &&
      m.to == Offset(GetPosition(call.callee).span.end) &&
      GetName(call) == NameOf(GetPosition(call.callee))
  {
    NameIsOfPositionedToken(call.callee);
  }
}
