/**
 * `removeClassesFromEdge`: the listed classes deleted from the edge part of
 * a line, the text before the edge break. Each name deletes the first match
 * of its pattern; the edge part then loses its leading whitespace, and when
 * nothing of it is left, the colon that ended it goes too, with the spaces
 * after it. The indent, the node part and a trailing ` {` are kept.
 */
module RemoveClassesFromEdge {
  import opened JsString
  import opened LineParts
  import opened ClassPattern

  /** The edge part with the classes removed and its leading whitespace dropped. */
  function NewEdge(edge: string, classNames: seq<string>): string {
    TrimStart(RemoveAll(edge, classNames))
  }

  /** The node part; when the new edge is empty and it starts with `:`, the colon and the whitespace after it are removed. */
  function NodeSide(newEdge: string, rest: string): string {
    if newEdge == "" && StartsWith(rest, ":") then TrimStart(rest[1..]) else rest
  }

  /** The line `removeClassesFromEdge` returns. */
  function RemoveClassesFromEdgeOf(line: string, classNames: seq<string>): string {
    var (indent, edge, rest, container) := EdgeLine(line);
    var newEdge := NewEdge(edge, classNames);
    indent + newEdge + NodeSide(newEdge, rest) + container
  }

  /** `removeClassesFromEdge`. */
  method RemoveClassesFromEdge(input: string, classNames: seq<string>) returns (r: string)
    ensures r == RemoveClassesFromEdgeOf(input, classNames)
  {
    var indent, edge, line, containerStart := SplitEdgeLine(input);
    edge := RemoveClassNames(edge, classNames);
    edge := TrimStart(edge);
    if edge == "" && StartsWith(line, ":") {
      line := TrimStart(line[1..]);
    }
    r := indent + edge + line + containerStart;
  }

  // ---------------------------------------------------------------------------
  // Properties

  lemma Reassemble(i: string, e: string, rest: string, c: string, line: string, x: string)
    requires i + e + rest + c == line
    ensures |i| + |e| <= |line| && i + x + rest + c == i + x + line[|i| + |e|..]
  {
    assert line[|i| + |e|..] == rest + c;
    ConcatAssoc(i + x, rest, c);
  }

  /**
   * While something of the edge part is left, only the edge part changes:
   * the result is the indent, the new edge part, which does not start with
   * whitespace, and the line from the edge break on.
   */
  lemma RemoveClassesKeepsNodeSide(line: string, classNames: seq<string>)
    requires NewEdge(EdgeLine(line).1, classNames) != ""
    ensures var (indent, edge, _, _) := EdgeLine(line);
            var newEdge := NewEdge(edge, classNames);
            |indent| + |edge| <= |line| && !IsSpace(newEdge[0])
            && RemoveClassesFromEdgeOf(line, classNames) == indent + newEdge + line[|indent| + |edge|..]
  {
    var (indent, edge, rest, container) := EdgeLine(line);
    Reassemble(indent, edge, rest, container, line, NewEdge(edge, classNames));
  }

  /** `r` is the indent, the line past the colon after the edge part without its leading whitespace, and the container opening. */
  predicate ColonDropped(r: string, line: string, indent: string, edge: string, container: string) {
    |indent| + |edge| + 1 <= |line| - |container|
    && r == indent + TrimStart(line[|indent| + |edge| + 1..|line| - |container|]) + container
  }

  /**
   * When the edge part is emptied and the node part starts with `:`, the
   * colon and the whitespace after it are dropped: the indent comes right
   * before the node text.
   */
  lemma RemoveClassesEmptiesEdge(line: string, classNames: seq<string>)
    requires NewEdge(EdgeLine(line).1, classNames) == "" && StartsWith(EdgeLine(line).2, ":")
    ensures ColonDropped(RemoveClassesFromEdgeOf(line, classNames), line, EdgeLine(line).0, EdgeLine(line).1, EdgeLine(line).3)
  {
    var p := EdgeLine(line);
    var newEdge := NewEdge(p.1, classNames);
    assert p.0 + newEdge == p.0;
    assert RemoveClassesFromEdgeOf(line, classNames) == p.0 + NodeSide("", p.2) + p.3;
    Emptied(p.0, p.1, p.2, p.3, line, RemoveClassesFromEdgeOf(line, classNames));
  }

  lemma Emptied(i: string, e: string, rest: string, c: string, line: string, r: string)
    requires i + e + rest + c == line && StartsWith(rest, ":")
    requires r == i + NodeSide("", rest) + c
    ensures ColonDropped(r, line, i, e, c)
  {
    assert line[|i| + |e| + 1..|line| - |c|] == rest[1..];
  }

  lemma TrimStartFixed(s: string)
    requires s == "" || !IsSpace(s[0])
    ensures TrimStart(s) == s
  {
  }

  /** A line without whitespace at the front after its indent: the edge part starts with a non-space. */
  lemma EdgeStart(line: string)
    ensures var (indent, edge, rest, _) := EdgeLine(line);
            (edge == "" || !IsSpace(edge[0])) && (edge == "" && rest != "" ==> rest[0] == TrimStart(line)[0])
  {
    var (indent, edge, rest, container) := EdgeLine(line);
    var t := TrimStart(line);
    assert indent + t == line;
    assert indent + (edge + rest + container) == line by {
      ConcatAssoc(indent, edge, rest);
      ConcatAssoc(indent, edge + rest, container);
    }
    assert t == edge + rest + container;
    if edge != "" {
      assert t[0] == edge[0];
    } else if rest != "" {
      assert t[0] == rest[0];
    }
  }

  /**
   * When no name matches anywhere in the line and the line after its
   * indent does not start with a colon, the line comes back unchanged.
   */
  lemma RemoveClassesAbsent(line: string, classNames: seq<string>)
    requires forall k :: 0 <= k < |classNames| ==> FirstMatch(line, classNames[k]) == -1
    requires !StartsWith(TrimStart(line), ":")
    ensures RemoveClassesFromEdgeOf(line, classNames) == line
  {
    var (indent, edge, rest, container) := EdgeLine(line);
    assert line == indent + edge + (rest + container) by {
      ConcatAssoc(indent + edge, rest, container);
    }
    forall k | 0 <= k < |classNames|
      ensures FirstMatch(edge, classNames[k]) == -1
    {
      AbsentInside(indent, edge, rest + container, classNames[k]);
    }
    RemoveAllAbsent(edge, classNames);
    EdgeStart(line);
    TrimStartFixed(edge);
    if edge == "" && rest != "" {
      assert rest[0] != ':';
    }
  }

  lemma TrimStartChars(s: string)
    ensures forall c :: c in TrimStart(s) ==> c in s
  {
    forall c | c in TrimStart(s)
      ensures c in s
    {
      var j :| 0 <= j < |TrimStart(s)| && TrimStart(s)[j] == c;
      assert s[LeadingSpaces(s) + j] == c;
    }
  }

  lemma NodeSideChars(newEdge: string, rest: string)
    ensures forall c :: c in NodeSide(newEdge, rest) ==> c in rest
  {
    if newEdge == "" && StartsWith(rest, ":") {
      TrimStartChars(rest[1..]);
      forall c | c in rest[1..]
        ensures c in rest
      {
        var j :| 0 <= j < |rest[1..]| && rest[1..][j] == c;
        assert rest[1 + j] == c;
      }
    }
  }

  /** The result holds only characters of the line: in particular it adds no line break. */
  lemma RemoveClassesChars(line: string, classNames: seq<string>)
    ensures forall c :: c in RemoveClassesFromEdgeOf(line, classNames) ==> c in line
  {
    var (indent, edge, rest, container) := EdgeLine(line);
    RemoveAllChars(edge, classNames);
    var newEdge := NewEdge(edge, classNames);
    TrimStartChars(RemoveAll(edge, classNames));
    NodeSideChars(newEdge, rest);
    Swapped(indent, edge, rest, container, line, newEdge, NodeSide(newEdge, rest));
  }

  /** Replacing two pieces of a line by texts made of their characters. */
  lemma Swapped(i: string, e: string, rest: string, c: string, line: string, e': string, rest': string)
    requires i + e + rest + c == line
    requires (forall x :: x in e' ==> x in e) && (forall x :: x in rest' ==> x in rest)
    ensures forall x :: x in i + e' + rest' + c ==> x in line
  {
  }
}
