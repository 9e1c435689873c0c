/**
 * `toMermaid`: a graph written as a Mermaid flowchart. The first line is
 * `flowchart`; then one line per node that has an id, then one line per
 * edge, each indented by a tab.
 */
module ToMermaid {
  import opened JsString
  import opened Types

  // ---------------------------------------------------------------------------
  // getSafe

  /** `s.replace(/\s+/g, "_")`: every maximal run of whitespace becomes one `_`. */
  function GetSafe(s: string): string
    decreases |s|
  {
    if |s| == 0 then ""
    else if IsSpace(s[0]) then "_" + GetSafe(s[LeadingSpaces(s)..])
    else [s[0]] + GetSafe(s[1..])
  }

  /**
   * A safe name holds no whitespace, is empty exactly when the name is,
   * is never longer than it, and is the name itself when it has no whitespace.
   */
  lemma {:induction false} GetSafeSpec(s: string)
    ensures forall i :: 0 <= i < |GetSafe(s)| ==> !IsSpace(GetSafe(s)[i])
    ensures |GetSafe(s)| == 0 <==> |s| == 0
    ensures |GetSafe(s)| <= |s|
    ensures (forall i :: 0 <= i < |s| ==> !IsSpace(s[i])) ==> GetSafe(s) == s
    decreases |s|
  {
    if |s| > 0 {
      var r := GetSafe(s);
      if IsSpace(s[0]) {
        var t := s[LeadingSpaces(s)..];
        GetSafeSpec(t);
        assert r == "_" + GetSafe(t);
        assert forall i :: 1 <= i < |r| ==> r[i] == GetSafe(t)[i - 1];
      } else {
        var t := s[1..];
        GetSafeSpec(t);
        assert r == [s[0]] + GetSafe(t);
        assert forall i :: 1 <= i < |r| ==> r[i] == GetSafe(t)[i - 1];
        if forall i :: 0 <= i < |s| ==> !IsSpace(s[i]) {
          assert forall i :: 0 <= i < |t| ==> t[i] == s[i + 1];
          assert s == [s[0]] + t;
        }
      }
    }
  }

  /** Making a safe name safe again changes nothing. */
  lemma GetSafeIdempotent(s: string)
    ensures GetSafe(GetSafe(s)) == GetSafe(s)
  {
    GetSafeSpec(s);
    GetSafeSpec(GetSafe(s));
  }

  // ---------------------------------------------------------------------------
  // getSafeLabel

  /** `s.replace(/c/g, rep)` for a one-character pattern. */
  function ReplaceAll(s: string, c: char, rep: string): string {
    if |s| == 0 then "" else (if s[0] == c then rep else [s[0]]) + ReplaceAll(s[1..], c, rep)
  }

  lemma {:induction false} ReplaceAllConcat(a: string, b: string, c: char, rep: string)
    ensures ReplaceAll(a + b, c, rep) == ReplaceAll(a, c, rep) + ReplaceAll(b, c, rep)
    decreases |a|
  {
    if |a| > 0 {
      assert (a + b)[0] == a[0];
      assert (a + b)[1..] == a[1..] + b;
      ReplaceAllConcat(a[1..], b, c, rep);
      var h := if a[0] == c then rep else [a[0]];
      ConcatAssoc(h, ReplaceAll(a[1..], c, rep), ReplaceAll(b, c, rep));
    } else {
      assert a + b == b;
    }
  }

  lemma {:induction false} ReplaceAllAbsent(s: string, c: char, rep: string)
    requires c !in s
    ensures ReplaceAll(s, c, rep) == s
    decreases |s|
  {
    if |s| > 0 {
      ReplaceAllAbsent(s[1..], c, rep);
      assert s == [s[0]] + s[1..];
    }
  }

  lemma ReplaceAllOne(x: char, c: char, rep: string)
    ensures ReplaceAll([x], c, rep) == if x == c then rep else [x]
  {
    assert [x][1..] == "";
  }

  /** Replacement passes applied in order, each replacing every occurrence of its character. */
  function Passes(s: string, ps: seq<(char, string)>): string
    decreases |ps|
  {
    if |ps| == 0 then s else Passes(ReplaceAll(s, ps[0].0, ps[0].1), ps[1..])
  }

  /** The five passes of `getSafeLabel`, `&` first. */
  const HtmlPasses: seq<(char, string)> :=
    [('&', "&amp;"), ('<', "&lt;"), ('>', "&gt;"), ('"', "&quot;"), ('\'', "&#039;")]

  /** `getSafeLabel`. */
  function GetSafeLabel(s: string): string {
    Passes(s, HtmlPasses)
  }

  /** The HTML entity each character of a label stands for. */
  function EscapeHtmlChar(c: char): (r: string)
    ensures |r| >= 1
  {
    if c == '&' then "&amp;"
    else if c == '<' then "&lt;"
    else if c == '>' then "&gt;"
    else if c == '"' then "&quot;"
    else if c == '\'' then "&#039;"
    else [c]
  }

  /** The label escaped character by character. */
  function EscapeHtml(s: string): string {
    if |s| == 0 then "" else EscapeHtmlChar(s[0]) + EscapeHtml(s[1..])
  }

  /** No pass writes a character that a later pass replaces. */
  predicate Ordered(ps: seq<(char, string)>) {
    forall i, j :: 0 <= i < j < |ps| ==> ps[j].0 !in ps[i].1
  }

  /** What one character becomes: the text of the first pass that replaces it. */
  function FirstRep(x: char, ps: seq<(char, string)>): string {
    if |ps| == 0 then [x] else if x == ps[0].0 then ps[0].1 else FirstRep(x, ps[1..])
  }

  lemma {:induction false} PassesConcat(a: string, b: string, ps: seq<(char, string)>)
    ensures Passes(a + b, ps) == Passes(a, ps) + Passes(b, ps)
    decreases |ps|
  {
    if |ps| > 0 {
      ReplaceAllConcat(a, b, ps[0].0, ps[0].1);
      PassesConcat(ReplaceAll(a, ps[0].0, ps[0].1), ReplaceAll(b, ps[0].0, ps[0].1), ps[1..]);
    }
  }

  lemma {:induction false} PassesAbsent(t: string, ps: seq<(char, string)>)
    requires forall i :: 0 <= i < |ps| ==> ps[i].0 !in t
    ensures Passes(t, ps) == t
    decreases |ps|
  {
    if |ps| > 0 {
      ReplaceAllAbsent(t, ps[0].0, ps[0].1);
      PassesAbsent(t, ps[1..]);
    }
  }

  lemma {:induction false} PassesOne(x: char, ps: seq<(char, string)>)
    requires Ordered(ps)
    ensures Passes([x], ps) == FirstRep(x, ps)
    decreases |ps|
  {
    if |ps| > 0 {
      ReplaceAllOne(x, ps[0].0, ps[0].1);
      var tail := ps[1..];
      assert forall i :: 0 <= i < |tail| ==> tail[i] == ps[i + 1];
      if x == ps[0].0 {
        PassesAbsent(ps[0].1, tail);
      } else {
        PassesOne(x, tail);
      }
    }
  }

  lemma HtmlPassesOrdered()
    ensures Ordered(HtmlPasses)
  {
  }

  lemma HtmlFirstRep(x: char)
    ensures FirstRep(x, HtmlPasses) == EscapeHtmlChar(x)
  {
    var p1 := HtmlPasses[1..];
    var p2 := p1[1..];
    var p3 := p2[1..];
    var p4 := p3[1..];
    assert p1 == [('<', "&lt;"), ('>', "&gt;"), ('"', "&quot;"), ('\'', "&#039;")];
    assert p2 == [('>', "&gt;"), ('"', "&quot;"), ('\'', "&#039;")];
    assert p3 == [('"', "&quot;"), ('\'', "&#039;")];
    assert p4 == [('\'', "&#039;")];
    assert p4[1..] == [];
    assert FirstRep(x, p4) == if x == '\'' then "&#039;" else [x];
    assert FirstRep(x, p3) == if x == '"' then "&quot;" else FirstRep(x, p4);
    assert FirstRep(x, p2) == if x == '>' then "&gt;" else FirstRep(x, p3);
    assert FirstRep(x, p1) == if x == '<' then "&lt;" else FirstRep(x, p2);
  }

  /**
   * `&` is replaced first, so no entity a later pass writes is escaped
   * again: the chain escapes each character exactly once.
   */
  lemma {:induction false} GetSafeLabelEach(s: string)
    ensures GetSafeLabel(s) == EscapeHtml(s)
    decreases |s|
  {
    if |s| > 0 {
      assert s == [s[0]] + s[1..];
      PassesConcat([s[0]], s[1..], HtmlPasses);
      HtmlPassesOrdered();
      PassesOne(s[0], HtmlPasses);
      HtmlFirstRep(s[0]);
      GetSafeLabelEach(s[1..]);
    }
  }

  /** The entity at the start of `s`, as its length and the character it stands for. */
  function EntityAt(s: string): Option<(nat, char)> {
    if StartsWith(s, "&amp;") then Some((5, '&'))
    else if StartsWith(s, "&lt;") then Some((4, '<'))
    else if StartsWith(s, "&gt;") then Some((4, '>'))
    else if StartsWith(s, "&quot;") then Some((6, '"'))
    else if StartsWith(s, "&#039;") then Some((6, '\''))
    else None
  }

  /** Reads the five entities back; any other text is kept. */
  function UnescapeHtml(s: string): string {
    if |s| == 0 then ""
    else if s[0] != '&' then [s[0]] + UnescapeHtml(s[1..])
    else match EntityAt(s)
      case Some((n, c)) => if n <= |s| then [c] + UnescapeHtml(s[n..]) else ""
      case None => [s[0]] + UnescapeHtml(s[1..])
  }

  lemma UnescapePlain(x: char, rest: string)
    requires x != '&'
    ensures UnescapeHtml([x] + rest) == [x] + UnescapeHtml(rest)
  {
    var t := [x] + rest;
    assert t[0] == x && t[1..] == rest;
  }

  lemma EntityOf(x: char, rest: string)
    requires x in "&<>\"'"
    ensures EntityAt(EscapeHtmlChar(x) + rest) == Some((|EscapeHtmlChar(x)|, x))
  {
    var e := EscapeHtmlChar(x);
    var t := e + rest;
    assert t[..|e|] == e;
    if x == '<' {
      assert t[1] == 'l';
    } else if x == '>' {
      assert t[1] == 'g';
    } else if x == '"' {
      assert t[1] == 'q';
    } else if x == '\'' {
      assert t[1] == '#';
    }
  }

  lemma UnescapeEntity(x: char, rest: string)
    ensures UnescapeHtml(EscapeHtmlChar(x) + rest) == [x] + UnescapeHtml(rest)
  {
    if x in "&<>\"'" {
      var e := EscapeHtmlChar(x);
      EntityOf(x, rest);
      var t := e + rest;
      assert t[0] == '&';
      assert t[|e|..] == rest;
    } else {
      UnescapePlain(x, rest);
    }
  }

  /** Every label is read back from its escaped form. */
  lemma {:induction false} EscapeHtmlRoundTrip(s: string)
    ensures UnescapeHtml(EscapeHtml(s)) == s
    decreases |s|
  {
    if |s| > 0 {
      UnescapeEntity(s[0], EscapeHtml(s[1..]));
      EscapeHtmlRoundTrip(s[1..]);
      assert s == [s[0]] + s[1..];
    }
  }

  lemma {:induction false} EscapeHtmlSafe(s: string)
    ensures forall i :: 0 <= i < |EscapeHtml(s)| ==> EscapeHtml(s)[i] !in "<>\"'"
    decreases |s|
  {
    if |s| > 0 {
      EscapeHtmlSafe(s[1..]);
      var h, r := EscapeHtmlChar(s[0]), EscapeHtml(s[1..]);
      assert EscapeHtml(s) == h + r;
      assert forall i :: |h| <= i < |h| + |r| ==> (h + r)[i] == r[i - |h|];
    }
  }

  lemma {:induction false} EscapeHtmlLength(s: string)
    ensures |EscapeHtml(s)| >= |s|
    decreases |s|
  {
    if |s| > 0 {
      EscapeHtmlLength(s[1..]);
    }
  }

  lemma {:induction false} EscapeHtmlNewline(s: string)
    ensures '\n' in EscapeHtml(s) <==> '\n' in s
    decreases |s|
  {
    if |s| > 0 {
      EscapeHtmlNewline(s[1..]);
      var h, r := EscapeHtmlChar(s[0]), EscapeHtml(s[1..]);
      assert EscapeHtml(s) == h + r;
      assert '\n' in h <==> s[0] == '\n';
      assert '\n' in s <==> s[0] == '\n' || '\n' in s[1..] by {
        assert s == [s[0]] + s[1..];
      }
    }
  }

  /** An escaped string holds none of `< > " '`, is no shorter, and holds a newline exactly when the input does. */
  lemma EscapeHtmlShape(s: string)
    ensures forall i :: 0 <= i < |EscapeHtml(s)| ==> EscapeHtml(s)[i] !in "<>\"'"
    ensures |EscapeHtml(s)| >= |s|
    ensures '\n' in EscapeHtml(s) <==> '\n' in s
  {
    EscapeHtmlSafe(s);
    EscapeHtmlLength(s);
    EscapeHtmlNewline(s);
  }

  /**
   * An escaped label holds none of `< > " '`, is empty exactly when the
   * label is, holds a newline exactly when the label does, and reads back
   * as the label.
   */
  lemma GetSafeLabelSpec(s: string)
    ensures forall i :: 0 <= i < |GetSafeLabel(s)| ==> GetSafeLabel(s)[i] !in "<>\"'"
    ensures GetSafeLabel(s) == "" <==> s == ""
    ensures '\n' in GetSafeLabel(s) <==> '\n' in s
    ensures UnescapeHtml(GetSafeLabel(s)) == s
  {
    GetSafeLabelEach(s);
    EscapeHtmlShape(s);
    EscapeHtmlRoundTrip(s);
  }

  // ---------------------------------------------------------------------------
  // Lines

  /**
   * `\t` + safe id + `["` + escaped label, or a space when it is empty, + `"]`.
   * The label is escaped by `EscapeHtml`, which `GetSafeLabelEach` shows
   * equal to the five passes of `getSafeLabel`.
   */
  function NodeLine(d: Data): string {
    var safeLabel := EscapeHtml(GetText(d, "label"));
    "\t" + GetSafe(GetText(d, "id")) + "[\"" + (if safeLabel != "" then safeLabel else " ") + "\"]"
  }

  /** `\t` + source + ` -` + (`- "label" -` when there is a label) + `-> ` + target. */
  function EdgeLine(e: Edge): string {
    var safeLabel := EscapeHtml(GetText(e.data, "label"));
    "\t" + GetSafe(e.source) + " -" + (if safeLabel != "" then "- \"" + safeLabel + "\" -" else "") + "-> " + GetSafe(e.target)
  }

  /** The lines of the nodes that have an id, in order; `if (!id) continue` skips the others. */
  function NodeLines(nodes: seq<Node>): seq<string> {
    if |nodes| == 0 then []
    else
      var n := nodes[|nodes| - 1];
      NodeLines(nodes[..|nodes| - 1]) + (if GetText(n.data, "id") != "" then [NodeLine(n.data)] else [])
  }

  /** The line of each edge, in order. */
  function EdgeLines(edges: seq<Edge>): seq<string> {
    if |edges| == 0 then [] else EdgeLines(edges[..|edges| - 1]) + [EdgeLine(edges[|edges| - 1])]
  }

  function MermaidLines(g: Graph): seq<string> {
    ["flowchart"] + NodeLines(g.nodes) + EdgeLines(g.edges)
  }

  function MermaidOf(g: Graph): string
    requires IsFeatureGraph(g)
  {
    Join(MermaidLines(g), "\n")
  }

  /** The node loop of `toMermaid`: one line per node, skipping nodes without an id. */
  method NodeLinesOf(nodes: seq<Node>) returns (lines: seq<string>)
    ensures lines == NodeLines(nodes)
  {
    lines := [];
    for i := 0 to |nodes|
      invariant lines == NodeLines(nodes[..i])
    {
      var node := nodes[i];
      assert nodes[..i + 1][..i] == nodes[..i];
      var id := GetText(node.data, "id");
      if id == "" {
        continue;
      }
      lines := lines + [NodeLine(node.data)];
    }
    assert nodes[..|nodes|] == nodes;
  }

  /** The edge loop of `toMermaid`: one line per edge. */
  method EdgeLinesOf(edges: seq<Edge>) returns (lines: seq<string>)
    ensures lines == EdgeLines(edges)
  {
    lines := [];
    for j := 0 to |edges|
      invariant lines == EdgeLines(edges[..j])
    {
      assert edges[..j + 1][..j] == edges[..j];
      lines := lines + [EdgeLine(edges[j])];
    }
    assert edges[..|edges|] == edges;
  }

  /** `toMermaid`. */
  method ToMermaidText(g: Graph) returns (text: string)
    requires IsFeatureGraph(g)
    ensures text == MermaidOf(g)
  {
    var nodeLines := NodeLinesOf(g.nodes);
    var edgeLines := EdgeLinesOf(g.edges);
    text := Join(["flowchart"] + nodeLines + edgeLines, "\n");
  }

  // ---------------------------------------------------------------------------
  // Properties

  /** The number of nodes that have an id. */
  function IdCount(nodes: seq<Node>): (n: nat)
    ensures n <= |nodes|
  {
    if |nodes| == 0 then 0
    else IdCount(nodes[..|nodes| - 1]) + (if GetText(nodes[|nodes| - 1].data, "id") != "" then 1 else 0)
  }

  /**
   * There is one node line per node with an id: each node line is the line
   * of such a node, and each such node has its line.
   */
  lemma {:induction false} NodeLinesSpec(nodes: seq<Node>)
    ensures |NodeLines(nodes)| == IdCount(nodes)
    ensures forall l :: l in NodeLines(nodes) ==>
              exists i :: 0 <= i < |nodes| && GetText(nodes[i].data, "id") != "" && l == NodeLine(nodes[i].data)
    ensures forall i :: 0 <= i < |nodes| && GetText(nodes[i].data, "id") != "" ==>
              IdCount(nodes[..i]) < |NodeLines(nodes)| && NodeLines(nodes)[IdCount(nodes[..i])] == NodeLine(nodes[i].data)
    decreases |nodes|
  {
    if |nodes| > 0 {
      var init := nodes[..|nodes| - 1];
      NodeLinesSpec(init);
      assert forall i :: 0 <= i < |init| ==> init[i] == nodes[i];
      forall i | 0 <= i < |nodes| && GetText(nodes[i].data, "id") != ""
        ensures IdCount(nodes[..i]) < |NodeLines(nodes)| && NodeLines(nodes)[IdCount(nodes[..i])] == NodeLine(nodes[i].data)
      {
        if i < |init| {
          assert nodes[..i] == init[..i];
        } else {
          assert nodes[..i] == init;
        }
      }
    }
  }

  lemma {:induction false} EdgeLinesSpec(edges: seq<Edge>)
    ensures |EdgeLines(edges)| == |edges|
    ensures forall k :: 0 <= k < |edges| ==> EdgeLines(edges)[k] == EdgeLine(edges[k])
    decreases |edges|
  {
    if |edges| > 0 {
      var init := edges[..|edges| - 1];
      EdgeLinesSpec(init);
      assert forall i :: 0 <= i < |init| ==> init[i] == edges[i];
    }
  }

  /**
   * `flowchart` comes first, then the node lines, then one line per edge in
   * edge order: there are 1 + (nodes with an id) + (edges) lines.
   */
  lemma MermaidLinesSpec(g: Graph)
    ensures |MermaidLines(g)| == 1 + IdCount(g.nodes) + |g.edges|
    ensures MermaidLines(g)[0] == "flowchart"
    ensures forall k :: 0 <= k < |g.edges| ==> MermaidLines(g)[1 + IdCount(g.nodes) + k] == EdgeLine(g.edges[k])
    ensures forall i :: 0 <= i < |g.nodes| && GetText(g.nodes[i].data, "id") != "" ==>
              1 + IdCount(g.nodes[..i]) < |MermaidLines(g)| &&
              MermaidLines(g)[1 + IdCount(g.nodes[..i])] == NodeLine(g.nodes[i].data)
  {
    NodeLinesSpec(g.nodes);
    EdgeLinesSpec(g.edges);
  }

  /** An edge without a label is drawn `s --> t`, one with a label `s -- "label" --> t`. */
  lemma EdgeLineForms(e: Edge)
    ensures var l := EscapeHtml(GetText(e.data, "label"));
            EdgeLine(e) == if GetText(e.data, "label") == ""
                           then "\t" + GetSafe(e.source) + " --> " + GetSafe(e.target)
                           else "\t" + GetSafe(e.source) + " -- \"" + l + "\" --> " + GetSafe(e.target)
  {
    EscapeHtmlShape(GetText(e.data, "label"));
  }

  /** A node with an empty label is drawn with a single space as its label. */
  lemma EmptyLabelNode(d: Data)
    requires GetText(d, "label") == ""
    ensures NodeLine(d) == "\t" + GetSafe(GetText(d, "id")) + "[\" \"]"
  {
    EscapeHtmlShape("");
  }

  lemma {:induction false} NodeLinesPlain(nodes: seq<Node>)
    requires forall i :: 0 <= i < |nodes| ==> '\n' !in GetText(nodes[i].data, "label")
    ensures Plain(NodeLines(nodes))
    decreases |nodes|
  {
    if |nodes| > 0 {
      var init := nodes[..|nodes| - 1];
      NodeLinesPlain(init);
      NodeLinePlain(nodes[|nodes| - 1].data);
    }
  }

  /** No line holds a newline. */
  predicate Plain(lines: seq<string>) {
    forall k :: 0 <= k < |lines| ==> '\n' !in lines[k]
  }

  lemma PlainConcat(a: seq<string>, b: seq<string>)
    requires Plain(a) && Plain(b)
    ensures Plain(a + b)
  {
    assert forall k :: |a| <= k < |a + b| ==> (a + b)[k] == b[k - |a|];
  }

  lemma NodeLinePlain(d: Data)
    requires '\n' !in GetText(d, "label")
    ensures '\n' !in NodeLine(d)
  {
    EscapeHtmlShape(GetText(d, "label"));
    GetSafeSpec(GetText(d, "id"));
  }

  lemma EdgeLinePlain(e: Edge)
    requires '\n' !in GetText(e.data, "label")
    ensures '\n' !in EdgeLine(e)
  {
    EscapeHtmlShape(GetText(e.data, "label"));
    GetSafeSpec(e.source);
    GetSafeSpec(e.target);
  }

  lemma {:induction false} EdgeLinesPlain(edges: seq<Edge>)
    requires forall i :: 0 <= i < |edges| ==> '\n' !in GetText(edges[i].data, "label")
    ensures Plain(EdgeLines(edges))
    decreases |edges|
  {
    if |edges| > 0 {
      var init := edges[..|edges| - 1];
      EdgeLinesPlain(init);
      EdgeLinePlain(edges[|edges| - 1]);
    }
  }

  /** When no label holds a newline, splitting the text on newlines gives the lines back. */
  lemma MermaidSplit(g: Graph)
    requires IsFeatureGraph(g)
    requires forall i :: 0 <= i < |g.nodes| ==> '\n' !in GetText(g.nodes[i].data, "label")
    requires forall i :: 0 <= i < |g.edges| ==> '\n' !in GetText(g.edges[i].data, "label")
    ensures Split(MermaidOf(g), '\n') == MermaidLines(g)
  {
    NodeLinesPlain(g.nodes);
    EdgeLinesPlain(g.edges);
    var a, b := NodeLines(g.nodes), EdgeLines(g.edges);
    PlainConcat(["flowchart"], a);
    PlainConcat(["flowchart"] + a, b);
    SplitJoin(MermaidLines(g), '\n');
  }
}
