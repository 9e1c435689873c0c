/**
 * `removeClassFromNode`: the single-class form of `removeClassesFromNode`.
 * The first match of the class pattern in the node part is deleted; the
 * indent and the edge part are kept, trailing whitespace is dropped.
 */
module RemoveClassFromNode {
  import opened JsString
  import opened LineParts
  import opened ClassPattern
  import RCN = RemoveClassesFromNode

  /** The line `removeClassFromNode` returns. */
  function RemoveClassFromNodeOf(line: string, className: string): string {
    var (indent, edge, nodeText) := EdgeCut(line);
    indent + edge + TrimEnd(RemoveFirstMatch(nodeText, className))
  }

  /** `removeClassFromNode`. */
  method RemoveClassFromNode(input: string, className: string) returns (r: string)
    ensures r == RemoveClassFromNodeOf(input, className)
  {
    var indent, edge, line := SplitEdgeCut(input);
    line := RemoveFirstMatch(line, className);
    line := TrimEnd(line);
    r := indent + edge + line;
  }

  // ---------------------------------------------------------------------------
  // Properties

  /** Removing one class is removing the list holding just that class. */
  lemma RemoveClassIsRemoveClasses(line: string, className: string)
    ensures RemoveClassFromNodeOf(line, className) == RCN.RemoveClassesFromNodeOf(line, [className])
  {
    var nodeText := EdgeCut(line).2;
    assert [className][..0] == [];
    assert RemoveAll(nodeText, [className]) == RemoveFirstMatch(RemoveAll(nodeText, []), className);
  }

  /** The indent and the edge part come back verbatim, and what follows them ends without whitespace. */
  lemma RemoveClassKeepsEdge(line: string, className: string)
    ensures var (indent, edge, _) := EdgeCut(line);
            RCN.HeadThenTrimmed(RemoveClassFromNodeOf(line, className), indent + edge, line)
  {
    RemoveClassIsRemoveClasses(line, className);
    RCN.RemoveClassesKeepsEdge(line, [className]);
  }

  /** A class whose pattern matches nowhere leaves a line without trailing whitespace unchanged. */
  lemma RemoveClassAbsent(line: string, className: string)
    requires FirstMatch(line, className) == -1
    requires line == "" || !IsSpace(line[|line| - 1])
    ensures RemoveClassFromNodeOf(line, className) == line
  {
    RemoveClassIsRemoveClasses(line, className);
    RCN.RemoveClassesAbsent(line, [className]);
  }

  /** The result holds only characters of the line. */
  lemma RemoveClassChars(line: string, className: string)
    ensures forall c :: c in RemoveClassFromNodeOf(line, className) ==> c in line
  {
    RemoveClassIsRemoveClasses(line, className);
    RCN.RemoveClassesChars(line, [className]);
  }
}
