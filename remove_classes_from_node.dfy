/**
 * `removeClassesFromNode`: the listed classes deleted from the node part of
 * a line, the part after the edge break. Each name deletes the first match
 * of its pattern; the indent and the edge part are kept, trailing
 * whitespace is dropped. The container opening is not split off.
 */
module RemoveClassesFromNode {
  import opened JsString
  import opened LineParts
  import opened ClassPattern

  /** The line `removeClassesFromNode` returns. */
  function RemoveClassesFromNodeOf(line: string, classNames: seq<string>): string {
    var (indent, edge, nodeText) := EdgeCut(line);
    indent + edge + TrimEnd(RemoveAll(nodeText, classNames))
  }

  /** `removeClassesFromNode`. */
  method RemoveClassesFromNode(input: string, classNames: seq<string>) returns (r: string)
    ensures r == RemoveClassesFromNodeOf(input, classNames)
  {
    var indent, edge, line := SplitEdgeCut(input);
    line := RemoveClassNames(line, classNames);
    line := TrimEnd(line);
    r := indent + edge + line;
  }

  // ---------------------------------------------------------------------------
  // Properties

  /** `indent + edge + t` starts with the line's own `indent + edge`, and `t` has no trailing whitespace. */
  predicate HeadThenTrimmed(r: string, head: string, line: string) {
    StartsWith(r, head) && StartsWith(line, head)
    && (|r| == |head| || !IsSpace(r[|r| - 1]))
  }

  lemma TrimEndAfter(indent: string, edge: string, t: string, rest: string, line: string)
    requires indent + edge + rest == line
    ensures HeadThenTrimmed(indent + edge + TrimEnd(t), indent + edge, line)
  {
    var h := indent + edge;
    var u := TrimEnd(t);
    assert (h + u)[..|h|] == h;
    assert (h + rest)[..|h|] == h;
    if |u| > 0 {
      assert (h + u)[|h + u| - 1] == u[|u| - 1];
    }
  }

  /**
   * The indent and the edge part come back verbatim, and what follows them
   * ends without whitespace.
   */
  lemma RemoveClassesKeepsEdge(line: string, classNames: seq<string>)
    ensures var (indent, edge, _) := EdgeCut(line);
            HeadThenTrimmed(RemoveClassesFromNodeOf(line, classNames), indent + edge, line)
  {
    var (indent, edge, nodeText) := EdgeCut(line);
    TrimEndAfter(indent, edge, RemoveAll(nodeText, classNames), nodeText, line);
  }

  lemma TrimEndFixed(s: string)
    requires s == "" || !IsSpace(s[|s| - 1])
    ensures TrimEnd(s) == s
  {
  }

  /**
   * When no name matches anywhere in the line and the line does not end
   * with whitespace, the line comes back unchanged.
   */
  lemma RemoveClassesAbsent(line: string, classNames: seq<string>)
    requires forall k :: 0 <= k < |classNames| ==> FirstMatch(line, classNames[k]) == -1
    requires line == "" || !IsSpace(line[|line| - 1])
    ensures RemoveClassesFromNodeOf(line, classNames) == line
  {
    var (indent, edge, nodeText) := EdgeCut(line);
    assert line == indent + edge + nodeText + "";
    forall k | 0 <= k < |classNames|
      ensures FirstMatch(nodeText, classNames[k]) == -1
    {
      AbsentInside(indent + edge, nodeText, "", classNames[k]);
    }
    RemoveAllAbsent(nodeText, classNames);
    if nodeText != "" {
      assert nodeText[|nodeText| - 1] == line[|line| - 1];
      TrimEndFixed(nodeText);
    }
  }

  /** The result holds only characters of the line: in particular it adds no line break. */
  lemma RemoveClassesChars(line: string, classNames: seq<string>)
    ensures forall c :: c in RemoveClassesFromNodeOf(line, classNames) ==> c in line
  {
    var (indent, edge, nodeText) := EdgeCut(line);
    RemoveAllChars(nodeText, classNames);
    Pieces(indent, edge, nodeText, TrimEnd(RemoveAll(nodeText, classNames)), RemoveAll(nodeText, classNames), line);
  }

  /** Characters of `indent + edge + u`, where `u` is a prefix of `t` whose characters come from `x`. */
  lemma Pieces(indent: string, edge: string, x: string, u: string, t: string, line: string)
    requires indent + edge + x == line
    requires |u| <= |t| && u == t[..|u|] && forall c :: c in t ==> c in x
    ensures forall c :: c in indent + edge + u ==> c in line
  {
    forall c | c in indent + edge + u
      ensures c in line
    {
      if c in u {
        var j :| 0 <= j < |u| && u[j] == c;
        assert t[j] == c;
      }
    }
  }
}
