/**
 * `operate`: one line of a document patched by one registered operation.
 * The text is split on line feeds, the line at index `lineNumber` (counted
 * from 0) is replaced by what the operation makes of it, and the lines are
 * joined again. Two operations are registered: `removeClassFromNode` and
 * `addClassToNode`. An index outside the lines hands `undefined` to the
 * operation, which throws; the model answers `None` there.
 */
module Operate {
  import opened JsString
  import opened Types
  import RCF = RemoveClassFromNode
  import ACT = AddClassToNode

  /** The `operations` table: an operation key with its parameters. */
  datatype Operation = RemoveClassFromNode(className: string) | AddClassToNode(className: string)

  /** The registered function applied to one line. */
  function Apply(op: Operation, line: string): string {
    match op
    case RemoveClassFromNode(c) => RCF.RemoveClassFromNodeOf(line, c)
    case AddClassToNode(c) => ACT.AddClassToNodeOf(line, c)
  }

  /** The text `operate` returns, or `None` where it throws. */
  function OperateOf(graphText: string, lineNumber: int, op: Operation): Option<string> {
    var lines := Split(graphText, '\n');
    if 0 <= lineNumber < |lines| then Some(Join(lines[lineNumber := Apply(op, lines[lineNumber])], "\n"))
    else None
  }

  /** `operate`, with the lines in an array updated in place. */
  method Operate(graphText: string, lineNumber: int, op: Operation) returns (r: Option<string>)
    ensures r == OperateOf(graphText, lineNumber, op)
  {
    var parts := Split(graphText, '\n');
    if !(0 <= lineNumber < |parts|) {
      return None;
    }
    var lines := new string[|parts|](i => if 0 <= i < |parts| then parts[i] else "");
    assert lines[..] == parts;
    var line := lines[lineNumber];
    var newLine;
    match op {
      case RemoveClassFromNode(c) =>
        newLine := RCF.RemoveClassFromNode(line, c);
      case AddClassToNode(c) =>
        newLine := ACT.AddClassToNode(line, c);
    }
    lines[lineNumber] := newLine;
    assert lines[..] == parts[lineNumber := newLine];
    r := Some(Join(lines[..], "\n"));
  }

  // ---------------------------------------------------------------------------
  // Properties

  /** `operate` fails exactly when the index is outside the lines. */
  lemma OperateFails(graphText: string, lineNumber: int, op: Operation)
    ensures OperateOf(graphText, lineNumber, op).None? <==> !(0 <= lineNumber < |Split(graphText, '\n')|)
  {
  }

  /**
   * When the new line holds no line feed, splitting the result gives the
   * old lines with only the one at `lineNumber` replaced: the line count is
   * kept and every other line is unchanged.
   */
  lemma OperateLines(graphText: string, lineNumber: int, op: Operation)
    requires 0 <= lineNumber < |Split(graphText, '\n')|
    requires '\n' !in Apply(op, Split(graphText, '\n')[lineNumber])
    ensures var lines := Split(graphText, '\n');
            var result := OperateOf(graphText, lineNumber, op);
            result.Some?
            && Split(result.value, '\n') == lines[lineNumber := Apply(op, lines[lineNumber])]
            && |Split(result.value, '\n')| == |lines|
            && forall k :: 0 <= k < |lines| && k != lineNumber ==> Split(result.value, '\n')[k] == lines[k]
  {
    var lines := Split(graphText, '\n');
    var updated := lines[lineNumber := Apply(op, lines[lineNumber])];
    forall k | 0 <= k < |updated|
      ensures '\n' !in updated[k]
    {
      if k != lineNumber {
        assert updated[k] == lines[k];
      }
    }
    assert "\n" == ['\n'];
    SplitJoin(updated, '\n');
  }

  /** `removeClassFromNode` never adds a line feed, so with it the line structure is always kept. */
  lemma RemoveClassKeepsLines(graphText: string, lineNumber: int, className: string)
    requires 0 <= lineNumber < |Split(graphText, '\n')|
    ensures var lines := Split(graphText, '\n');
            var result := OperateOf(graphText, lineNumber, RemoveClassFromNode(className));
            result.Some?
            && Split(result.value, '\n') == lines[lineNumber := RCF.RemoveClassFromNodeOf(lines[lineNumber], className)]
  {
    var line := Split(graphText, '\n')[lineNumber];
    RCF.RemoveClassChars(line, className);
    OperateLines(graphText, lineNumber, RemoveClassFromNode(className));
  }
}
