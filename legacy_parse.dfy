/**
 * `parse` of the parser package (parser/src/parse.ts), the predecessor of
 * the graph-selector parser. Each line gives at most one node; indentation
 * makes the nearest shallower node or pointer line its parent. A string
 * parent yields an immediate edge; pointers `(#id)`, `(.class)` and
 * `(label)` yield pending edges that are resolved against all nodes once
 * every line is read.
 *
 * The ancestor slots are the graph-selector parser's (`Parse.Ancestor`,
 * `Parse.ParentBelow`); unlike there, every write cuts the slots back to
 * the indent written.
 */
module LegacyParse {
  import opened JsString
  import opened Types
  import GIS = GetIndentSize
  import P = Parse
  import LF = LegacyFeatures
  import LP = LegacyPointers

  // ---------------------------------------------------------------------------
  // Ancestors

  /** `ancestors[i] = a; ancestors = ancestors.slice(0, i + 1)`: the slot is written and every deeper slot dropped. */
  function WriteSlot(ancestors: P.Scope, i: nat, a: P.Ancestor): (r: P.Scope)
    ensures |r| == i + 1 && r[i] == a
    ensures forall j :: 0 <= j < i ==> r[j] == P.SlotAt(ancestors, j)
  {
    P.SetSlot(ancestors, i, a)[..i + 1]
  }

  /**
   * `findParent`: read the slots from just below the indent downwards until
   * one is truthy. Unlike the graph-selector loop it keeps the last slot read
   * even when that one is unset, which is falsy all the same.
   */
  method FindParent(indentSize: nat, ancestors: P.Scope) returns (parent: P.Ancestor)
    ensures P.IsSet(parent) <==> P.IsSet(P.ParentBelow(ancestors, indentSize))
    ensures P.IsSet(parent) ==> parent == P.ParentBelow(ancestors, indentSize)
  {
    parent := P.NoAncestor;
    var i: int := indentSize - 1;
    while !P.IsSet(parent) && i >= 0
      invariant -1 <= i < indentSize
      invariant !P.IsSet(parent) ==> P.ParentBelow(ancestors, i + 1) == P.ParentBelow(ancestors, indentSize)
      invariant P.IsSet(parent) ==> parent == P.ParentBelow(ancestors, indentSize)
      decreases i + 1
    {
      parent := P.SlotAt(ancestors, i);
      i := i - 1;
    }
  }

  // ---------------------------------------------------------------------------
  // Edge label

  /** `/.+:.+/` matches: some colon has a character other than a line terminator on each side. */
  predicate HasEdgeLabel(line: string) {
    exists j :: 1 <= j < |line| - 1 && line[j] == ':' && !IsLineTerminator(line[j - 1]) && !IsLineTerminator(line[j + 1])
  }

  /** Splitting at the colons of a line that has one gives the text before the first colon and the text up to the next. */
  lemma ColonSplits(line: string)
    requires HasEdgeLabel(line)
    ensures var p := Find(line, ':');
            var parts := Split(line, ':');
            p < |line| && |parts| >= 2
            && parts[0] == line[..p] && parts[1] == line[p + 1..][..Find(line[p + 1..], ':')]
  {
    var j :| 1 <= j < |line| - 1 && line[j] == ':' && !IsLineTerminator(line[j - 1]) && !IsLineTerminator(line[j + 1]);
    var p := Find(line, ':');
    assert p <= j;
    var rest := line[p + 1..];
    SplitAtFirst(line, ':');
    SplitHead(rest, ':');
    Parts(Split(line, ':'), line[..p], Split(rest, ':'));
  }

  lemma Parts(parts: seq<string>, head: string, tail: seq<string>)
    requires parts == [head] + tail && |tail| >= 1
    ensures |parts| >= 2 && parts[0] == head && parts[1] == tail[0]
  {
  }

  /** Where the separator occurs, the first part is the text before it and the rest is the split of the text after it. */
  lemma SplitAtFirst(s: string, c: char)
    requires Find(s, c) < |s|
    ensures Split(s, c) == [s[..Find(s, c)]] + Split(s[Find(s, c) + 1..], c)
  {
  }

  /** The first part is the text before the first separator, or all of it. */
  lemma SplitHead(s: string, c: char)
    ensures Split(s, c)[0] == s[..Find(s, c)]
  {
    if Find(s, c) == |s| {
      assert s[..|s|] == s;
    }
  }

  /** The edge label and the text that goes on: `line.split(":")` at lines that match `.+:.+`. */
  function EdgeLabelSplit(line: string): (string, string) {
    if HasEdgeLabel(line) then
      ColonSplits(line);
      var parts := Split(line, ':');
      (Trim(parts[0]), parts[1])
    else ("", line)
  }

  /**
   * On a line matching `.+:.+` the edge label is the trimmed text before the
   * first colon and the line goes on with the text up to the second colon,
   * or to the end; anything after a second colon is dropped. Other lines
   * have no edge label and are kept whole.
   */
  lemma EdgeLabelParts(line: string)
    ensures var r := EdgeLabelSplit(line);
            var p := Find(line, ':');
            (HasEdgeLabel(line) ==> p < |line| && r.0 == Trim(line[..p])
                                    && r.1 == line[p + 1..][..Find(line[p + 1..], ':')] && ':' !in r.1)
            && (!HasEdgeLabel(line) ==> r == ("", line))
  {
    if HasEdgeLabel(line) {
      ColonSplits(line);
    }
  }

  // ---------------------------------------------------------------------------
  // One line read

  /** What a line that is not a pointer line says, before it is joined to the graph. */
  datatype LineInfo = LineInfo(indentSize: nat, edgeLabel: string, userId: string, classes: string,
                               data: Data, pointers: seq<Pointer>, nodeLabel: string)

  /**
   * The edge label split off, the rest trimmed, the leading features taken
   * out, the attribute text read into data, the pointers taken out: the
   * label is what is left.
   */
  function AnalyzeLine(line: string): LineInfo {
    var (edgeLabel, rest) := EdgeLabelSplit(line);
    var (id, classes, attributes, featureLine) := LF.ExtractOf(Trim(rest));
    var (pointers, text) := LP.PointersOf(featureLine);
    LineInfo(GIS.GetIndentSize(line), edgeLabel, id, classes,
             if attributes != "" then LF.DataOf(attributes) else [], pointers, text)
  }

  /** The statements of the line loop that read a line, with its loops. */
  method ReadLine(input: string) returns (info: LineInfo)
    ensures info == AnalyzeLine(input)
  {
    var indentSize := GIS.GetIndentSize(input);
    var edgeLabel := "";
    var line := input;
    if HasEdgeLabel(line) {
      ColonSplits(line);
      var parts := Split(line, ':');
      edgeLabel := Trim(parts[0]);
      line := parts[1];
    }
    line := Trim(line);
    var id, classes, attributes, rest := LF.ExtractFeatures(line);
    var data: Data := [];
    if attributes != "" {
      data := LF.ReadAttributes(attributes);
    }
    var pointers, text := LP.MatchAndRemovePointers(rest);
    info := LineInfo(indentSize, edgeLabel, id, classes, data, pointers, text);
  }

  /** A line of plain words, without `#`, `.`, `[`, `(` or `:`: its trimmed text is the label and nothing else is found. */
  lemma PlainLineInfo(line: string)
    requires forall i :: 0 <= i < |line| ==> line[i] !in "#.[(:"
    ensures AnalyzeLine(line) == LineInfo(GIS.GetIndentSize(line), "", "", "", [], [], Trim(line))
  {
    assert forall j :: 0 <= j < |line| ==> line[j] != ':';
    assert EdgeLabelSplit(line) == ("", line);
    TrimmedPlain(line, Trim(line));
    PlainFound(Trim(line));
  }

  /** The trimmed line is a slice of the line, so it holds none of the characters the line lacks. */
  lemma TrimmedPlain(line: string, t: string)
    requires forall i :: 0 <= i < |line| ==> line[i] !in "#.[(:"
    requires t == Trim(line)
    ensures forall k :: 0 <= k < |t| ==> t[k] !in "#.[(:"
  {
    TrimIsCore(line);
    var i, j :| 0 <= i <= j <= |line| && t == line[i..j] && AllSpace(line[..i]) && AllSpace(line[j..]);
    forall k | 0 <= k < |t|
      ensures t[k] !in "#.[(:"
    {
      assert t[k] == line[i + k];
    }
  }

  lemma PlainFound(t: string)
    requires forall k :: 0 <= k < |t| ==> t[k] !in "#.[(:"
    ensures LF.ExtractOf(t) == ("", "", "", t) && LP.PointersOf(t) == ([], t)
  {
    assert LF.Plain(t);
    LF.PlainLine(t);
    LP.NoParenthesis(t);
  }

  // ---------------------------------------------------------------------------
  // Generated node ids

  /** `label + inc`. */
  function LabelId(text: string, inc: nat): string {
    text + NatToString(inc)
  }

  /** Distinct counters give distinct ids, so no more of them can be taken than `ids` holds. */
  lemma LabelIdsFit(text: string, ids: seq<string>, n: nat)
    requires forall m :: 1 <= m <= n ==> LabelId(text, m) in ids
    ensures n <= |ids|
  {
    var c := seq(n, i requires 0 <= i < n => LabelId(text, i + 1));
    forall i, j | 0 <= i < j < |c|
      ensures c[i] != c[j]
    {
      if c[i] == c[j] {
        PrefixedNatInjective(text, i + 1, j + 1);
      }
    }
    P.DistinctFit(c, ids);
  }

  /** The counter the `while (nodeIds.includes(label + inc)) ++inc` loop stops at: the least one from `inc` on that is free. */
  function FreshFrom(text: string, ids: seq<string>, inc: nat): (r: nat)
    requires 1 <= inc
    requires forall m :: 1 <= m < inc ==> LabelId(text, m) in ids
    ensures inc <= r && LabelId(text, r) !in ids
    ensures forall m :: 1 <= m < r ==> LabelId(text, m) in ids
    decreases |ids| + 1 - inc
  {
    if LabelId(text, inc) !in ids then inc
    else
      LabelIdsFit(text, ids, inc);
      FreshFrom(text, ids, inc + 1)
  }

  /** The id a node without a user-supplied id receives. */
  function FreshId(text: string, ids: seq<string>): string {
    LabelId(text, FreshFrom(text, ids, 1))
  }

  /** The generated id is not taken yet, and no smaller counter would have given a free one. */
  lemma FreshIdLeast(text: string, ids: seq<string>, m: nat)
    requires 1 <= m && LabelId(text, m) !in ids
    ensures FreshId(text, ids) !in ids && FreshFrom(text, ids, 1) <= m
  {
  }

  /** The counting loop of `parse`. */
  method NextNodeId(text: string, nodeIds: seq<string>) returns (id: string)
    ensures id == FreshId(text, nodeIds)
  {
    var inc := 1;
    while LabelId(text, inc) in nodeIds
      invariant 1 <= inc
      invariant forall m :: 1 <= m < inc ==> LabelId(text, m) in nodeIds
      invariant FreshFrom(text, nodeIds, inc) == FreshFrom(text, nodeIds, 1)
      decreases |nodeIds| + 1 - inc
    {
      LabelIdsFit(text, nodeIds, inc);
      inc := inc + 1;
    }
    id := LabelId(text, inc);
  }

  // ---------------------------------------------------------------------------
  // The line loop

  /** `{ lineNumber, label, id, classes, ...data }`. */
  datatype LegacyNode = LegacyNode(lineNumber: nat, nodeLabel: string, id: string, classes: string, data: Data)

  /** `{ id, lineNumber, source, target, label }`. */
  datatype LegacyEdge = LegacyEdge(id: string, lineNumber: nat, source: string, target: string, edgeLabel: string)

  /** An entry of `unresolvedEdges`: a source and a target, each a node id or a pointer. */
  type Pending = (P.Endpoint, P.Endpoint)

  /** The locals the line loop updates. `edgeIds` is left out: nothing is ever added to it. */
  datatype State = State(nodes: seq<LegacyNode>, edges: seq<LegacyEdge>, nodeIds: seq<string>,
                         ancestors: P.Scope, unresolved: seq<Pending>)

  const Start: State := State([], [], [], [], [])

  /** `indentSize === 0 && line[0] === "("`. */
  predicate IsPointerLine(line: string) {
    GIS.GetIndentSize(line) == 0 && |line| > 0 && line[0] == '('
  }

  /** The user-supplied id, or the generated one. */
  function NodeIdFor(info: LineInfo, nodeIds: seq<string>): string {
    if info.userId != "" then info.userId else FreshId(info.nodeLabel, nodeIds)
  }

  /** One pending edge from `source` to each pointer, in order. */
  function Targets(source: P.Endpoint, pointers: seq<Pointer>): (r: seq<Pending>)
    ensures |r| == |pointers|
    ensures forall k :: 0 <= k < |r| ==> r[k] == (source, P.Ptr(pointers[k]))
    decreases |pointers|
  {
    if |pointers| == 0 then []
    else Targets(source, pointers[..|pointers| - 1]) + [(source, P.Ptr(pointers[|pointers| - 1]))]
  }

  /** What one source pointer of a pointer-line parent contributes: the line's node, then the line's pointers. */
  function SourceLinks(source: Pointer, hasNode: bool, id: string, pointers: seq<Pointer>): seq<Pending> {
    (if hasNode then [(P.Ptr(source), P.Ref(id))] else []) + Targets(P.Ptr(source), pointers)
  }

  /** The loop over the pointers of a pointer-line parent. */
  function FromPointers(sources: seq<Pointer>, hasNode: bool, id: string, pointers: seq<Pointer>): seq<Pending>
    decreases |sources|
  {
    if |sources| == 0 then []
    else FromPointers(sources[..|sources| - 1], hasNode, id, pointers)
         + SourceLinks(sources[|sources| - 1], hasNode, id, pointers)
  }

  /** The edge a string parent gets to the line's node; `edgeIds` stays empty, so the counter is always 1. */
  function ImmediateEdges(parent: P.Ancestor, hasNode: bool, id: string, lineNumber: nat, edgeLabel: string): seq<LegacyEdge> {
    if parent.NodeId? && parent.id != "" && hasNode
    then [LegacyEdge(parent.id + "-" + id + "-1", lineNumber, parent.id, id, edgeLabel)]
    else []
  }

  /** The pending edges a line adds under its parent. */
  function PendingLinks(parent: P.Ancestor, hasNode: bool, id: string, pointers: seq<Pointer>): seq<Pending> {
    match parent
    case NoAncestor => []
    case NodeId(a) => if a != "" then Targets(P.Ref(a), pointers) else []
    case Pointers(sources) => FromPointers(sources, hasNode, id, pointers)
  }

  /** A line that is not a pointer line joined to the state. */
  function AddLine(s: State, info: LineInfo, lineNumber: nat): State {
    var id := NodeIdFor(info, s.nodeIds);
    var parent := P.ParentBelow(s.ancestors, info.indentSize);
    var hasNode := info.nodeLabel != "";
    State(if hasNode then s.nodes + [LegacyNode(lineNumber, info.nodeLabel, id, info.classes, info.data)] else s.nodes,
          s.edges + ImmediateEdges(parent, hasNode, id, lineNumber, info.edgeLabel),
          if info.userId != "" then s.nodeIds else s.nodeIds + [id],
          WriteSlot(s.ancestors, info.indentSize, P.NodeId(id)),
          s.unresolved + PendingLinks(parent, hasNode, id, info.pointers))
  }

  /** One turn of the line loop; `lineNumber` is the 1-based number of the line. */
  function StepLine(s: State, line: string, lineNumber: nat): State {
    if IsPointerLine(line) then s.(ancestors := WriteSlot(s.ancestors, 0, P.Pointers(LP.PointersOf(line).0)))
    else AddLine(s, AnalyzeLine(line), lineNumber)
  }

  /** The state after the loop has read `lines`. */
  function ScanLines(lines: seq<string>): State
    decreases |lines|
  {
    if |lines| == 0 then Start
    else StepLine(ScanLines(lines[..|lines| - 1]), lines[|lines| - 1], |lines|)
  }

  // ---------------------------------------------------------------------------
  // Resolution

  /** A property of the node object: the data spread last overrides the field of the same name. */
  function Property(n: LegacyNode, key: string, field: string): string {
    match Get(n.data, key)
    case Some(Str(v)) => v
    case _ => field
  }

  function NodeKey(n: LegacyNode): string { Property(n, "id", n.id) }

  function NodeLabel(n: LegacyNode): string { Property(n, "label", n.nodeLabel) }

  function NodeClasses(n: LegacyNode): string { Property(n, "classes", n.classes) }

  /** `getNodesFromPointerArray` for a pointer, `n.id === source` for a string. */
  predicate Selects(e: P.Endpoint, n: LegacyNode) {
    match e
    case Ref(id) => NodeKey(n) == id
    case Ptr(p) =>
      match p.kind
      case IdPointer => NodeKey(n) == p.value
      case ClassPointer => p.value in Split(NodeClasses(n), '.')
      case LabelPointer => NodeLabel(n) == p.value
  }

  /** The nodes an end selects, in their order. */
  function Select(nodes: seq<LegacyNode>, e: P.Endpoint): (r: seq<LegacyNode>)
    ensures |r| <= |nodes|
    ensures forall n :: n in r <==> n in nodes && Selects(e, n)
    decreases |nodes|
  {
    if |nodes| == 0 then []
    else
      var rest := Select(nodes[..|nodes| - 1], e);
      var n := nodes[|nodes| - 1];
      assert nodes == nodes[..|nodes| - 1] + [n];
      if Selects(e, n) then rest + [n] else rest
  }

  /** `target[0]`: the first character of a node id, or the pointer's kind. An empty id gives `undefined`, here "". */
  function EndLabel(e: P.Endpoint): string {
    match e
    case Ref(id) => if id == "" then "" else id[..1]
    case Ptr(p) =>
      match p.kind
      case IdPointer => "id"
      case ClassPointer => "class"
      case LabelPointer => "label"
  }

  function EdgeBetween(source: LegacyNode, target: LegacyNode, lineNumber: nat, text: string): LegacyEdge {
    LegacyEdge(NodeKey(source) + "-" + NodeKey(target), lineNumber, NodeKey(source), NodeKey(target), text)
  }

  /** The inner loop: one edge from `source` to each target. */
  function Row(source: LegacyNode, targets: seq<LegacyNode>, lineNumber: nat, text: string): (r: seq<LegacyEdge>)
    ensures |r| == |targets|
    ensures forall k :: 0 <= k < |r| ==> r[k] == EdgeBetween(source, targets[k], lineNumber, text)
    decreases |targets|
  {
    if |targets| == 0 then []
    else Row(source, targets[..|targets| - 1], lineNumber, text)
         + [EdgeBetween(source, targets[|targets| - 1], lineNumber, text)]
  }

  /** The two nested loops: the rows of the sources one after the other. */
  function Cross(sources: seq<LegacyNode>, targets: seq<LegacyNode>, lineNumber: nat, text: string): seq<LegacyEdge>
    decreases |sources|
  {
    if |sources| == 0 then []
    else Cross(sources[..|sources| - 1], targets, lineNumber, text) + Row(sources[|sources| - 1], targets, lineNumber, text)
  }

  /** The edges a pending edge resolves to; none when either end selects no node. */
  function ResolvePending(u: Pending, nodes: seq<LegacyNode>, lineNumber: nat): seq<LegacyEdge> {
    var sources := Select(nodes, u.0);
    var targets := Select(nodes, u.1);
    if |sources| == 0 || |targets| == 0 then [] else Cross(sources, targets, lineNumber, EndLabel(u.1))
  }

  /** The resolution loop over `unresolvedEdges`. */
  function ResolveAll(pending: seq<Pending>, nodes: seq<LegacyNode>, lineNumber: nat): seq<LegacyEdge>
    decreases |pending|
  {
    if |pending| == 0 then []
    else ResolveAll(pending[..|pending| - 1], nodes, lineNumber) + ResolvePending(pending[|pending| - 1], nodes, lineNumber)
  }

  /** `{ nodes, edges }`. */
  datatype LegacyGraph = LegacyGraph(nodes: seq<LegacyNode>, edges: seq<LegacyEdge>)

  /** What `parse(text)` returns; resolved edges carry the final line count as their line number. */
  function ParseOf(text: string): LegacyGraph {
    var lines := Split(text, '\n');
    var s := ScanLines(lines);
    LegacyGraph(s.nodes, s.edges + ResolveAll(s.unresolved, s.nodes, |lines|))
  }

  // ---------------------------------------------------------------------------
  // The loops as methods

  /** `for (const [pointerType, pointerId] of pointers) unresolvedEdges.push([source, [pointerType, pointerId]])`. */
  method PushTargets(pending: seq<Pending>, source: P.Endpoint, pointers: seq<Pointer>) returns (r: seq<Pending>)
    ensures r == pending + Targets(source, pointers)
  {
    r := pending;
    for k := 0 to |pointers|
      invariant r == pending + Targets(source, pointers[..k])
    {
      assert pointers[..k + 1][..k] == pointers[..k];
      r := r + [(source, P.Ptr(pointers[k]))];
    }
    assert pointers[..|pointers|] == pointers;
  }

  /** The loop over the source pointers of a pointer-line parent. */
  method PushFromPointers(pending: seq<Pending>, sources: seq<Pointer>, hasNode: bool, id: string, pointers: seq<Pointer>)
    returns (r: seq<Pending>)
    ensures r == pending + FromPointers(sources, hasNode, id, pointers)
  {
    r := pending;
    for k := 0 to |sources|
      invariant r == pending + FromPointers(sources[..k], hasNode, id, pointers)
    {
      assert sources[..k + 1][..k] == sources[..k];
      if hasNode {
        r := r + [(P.Ptr(sources[k]), P.Ref(id))];
      }
      r := PushTargets(r, P.Ptr(sources[k]), pointers);
    }
    assert sources[..|sources|] == sources;
  }

  /** The innermost loop of the resolution. */
  method PushRow(edges: seq<LegacyEdge>, source: LegacyNode, targets: seq<LegacyNode>, lineNumber: nat, text: string)
    returns (r: seq<LegacyEdge>)
    ensures r == edges + Row(source, targets, lineNumber, text)
  {
    r := edges;
    for k := 0 to |targets|
      invariant r == edges + Row(source, targets[..k], lineNumber, text)
    {
      assert targets[..k + 1][..k] == targets[..k];
      r := r + [EdgeBetween(source, targets[k], lineNumber, text)];
    }
    assert targets[..|targets|] == targets;
  }

  /** The loop over the source nodes of one pending edge. */
  method PushCross(edges: seq<LegacyEdge>, sources: seq<LegacyNode>, targets: seq<LegacyNode>, lineNumber: nat, text: string)
    returns (r: seq<LegacyEdge>)
    ensures r == edges + Cross(sources, targets, lineNumber, text)
  {
    r := edges;
    for k := 0 to |sources|
      invariant r == edges + Cross(sources[..k], targets, lineNumber, text)
    {
      CrossStep(edges, sources, k, targets, lineNumber, text);
      r := PushRow(r, sources[k], targets, lineNumber, text);
    }
    assert sources[..|sources|] == sources;
  }

  lemma CrossStep(edges: seq<LegacyEdge>, sources: seq<LegacyNode>, k: nat, targets: seq<LegacyNode>, lineNumber: nat, text: string)
    requires k < |sources|
    ensures edges + Cross(sources[..k + 1], targets, lineNumber, text)
            == edges + Cross(sources[..k], targets, lineNumber, text) + Row(sources[k], targets, lineNumber, text)
  {
    assert sources[..k + 1][..k] == sources[..k];
  }

  /** The resolution loop. */
  method Resolve(edges: seq<LegacyEdge>, pending: seq<Pending>, nodes: seq<LegacyNode>, lineNumber: nat)
    returns (r: seq<LegacyEdge>)
    ensures r == edges + ResolveAll(pending, nodes, lineNumber)
  {
    r := edges;
    for k := 0 to |pending|
      invariant r == edges + ResolveAll(pending[..k], nodes, lineNumber)
    {
      ResolveStep(edges, pending, k, nodes, lineNumber);
      var sourceNodes := Select(nodes, pending[k].0);
      var targetNodes := Select(nodes, pending[k].1);
      if |sourceNodes| == 0 || |targetNodes| == 0 {
        continue;
      }
      r := PushCross(r, sourceNodes, targetNodes, lineNumber, EndLabel(pending[k].1));
    }
    assert pending[..|pending|] == pending;
  }

  lemma ResolveStep(edges: seq<LegacyEdge>, pending: seq<Pending>, k: nat, nodes: seq<LegacyNode>, lineNumber: nat)
    requires k < |pending|
    ensures edges + ResolveAll(pending[..k + 1], nodes, lineNumber)
            == edges + ResolveAll(pending[..k], nodes, lineNumber) + ResolvePending(pending[k], nodes, lineNumber)
  {
    assert pending[..k + 1][..k] == pending[..k];
  }

  /** The statements of the line loop after the line is read. */
  method JoinLine(s: State, info: LineInfo, parent: P.Ancestor, lineNumber: nat) returns (r: State)
    requires P.IsSet(parent) <==> P.IsSet(P.ParentBelow(s.ancestors, info.indentSize))
    requires P.IsSet(parent) ==> parent == P.ParentBelow(s.ancestors, info.indentSize)
    ensures r == AddLine(s, info, lineNumber)
  {
    var nodes, edges, nodeIds, unresolved := s.nodes, s.edges, s.nodeIds, s.unresolved;
    var id := info.userId;
    if id == "" {
      id := NextNodeId(info.nodeLabel, nodeIds);
      nodeIds := nodeIds + [id];
    }
    var lineHasNode := info.nodeLabel != "";
    if lineHasNode {
      nodes := nodes + [LegacyNode(lineNumber, info.nodeLabel, id, info.classes, info.data)];
    }
    if P.IsSet(parent) {
      if parent.NodeId? {
        if lineHasNode {
          edges := edges + [LegacyEdge(parent.id + "-" + id + "-1", lineNumber, parent.id, id, info.edgeLabel)];
        }
        unresolved := PushTargets(unresolved, P.Ref(parent.id), info.pointers);
      } else {
        unresolved := PushFromPointers(unresolved, parent.pointers, lineHasNode, id, info.pointers);
      }
    }
    r := State(nodes, edges, nodeIds, WriteSlot(s.ancestors, info.indentSize, P.NodeId(id)), unresolved);
  }

  /** `parse`. */
  method Parse(text: string) returns (graph: LegacyGraph)
    ensures graph == ParseOf(text)
  {
    var lines := Split(text, '\n');
    var s := Start;
    var lineNumber := 0;
    for i := 0 to |lines|
      invariant lineNumber == i
      invariant s == ScanLines(lines[..i])
    {
      assert lines[..i + 1][..i] == lines[..i];
      lineNumber := lineNumber + 1;
      var line := lines[i];
      var indentSize := GIS.GetIndentSize(line);
      if indentSize == 0 && |line| > 0 && line[0] == '(' {
        var pointers, _ := LP.MatchAndRemovePointers(line);
        s := s.(ancestors := WriteSlot(s.ancestors, indentSize, P.Pointers(pointers)));
      } else {
        var parent := FindParent(indentSize, s.ancestors);
        var info := ReadLine(line);
        s := JoinLine(s, info, parent, lineNumber);
      }
    }
    assert lines[..|lines|] == lines;
    var edges := Resolve(s.edges, s.unresolved, s.nodes, lineNumber);
    graph := LegacyGraph(s.nodes, edges);
  }

  // ---------------------------------------------------------------------------
  // Properties of one line

  /** A pointer line changes nothing but the ancestors, which it resets to the one slot holding its pointers. */
  lemma StepPointerLine(s: State, line: string, lineNumber: nat)
    requires IsPointerLine(line)
    ensures var r := StepLine(s, line, lineNumber);
            r.ancestors == [P.Pointers(LP.PointersOf(line).0)]
            && r.nodes == s.nodes && r.edges == s.edges && r.nodeIds == s.nodeIds && r.unresolved == s.unresolved
  {
    var a := WriteSlot(s.ancestors, 0, P.Pointers(LP.PointersOf(line).0));
    assert a == [a[0]];
  }

  /**
   * Any other line writes its node's id at its indent and drops the deeper
   * slots, even when it has no node; it adds a node exactly when its label
   * is not empty, and registers a fresh id exactly when it has none of its
   * own.
   */
  lemma AddLineState(s: State, info: LineInfo, lineNumber: nat)
    ensures var id := NodeIdFor(info, s.nodeIds);
            var r := AddLine(s, info, lineNumber);
            |r.ancestors| == info.indentSize + 1 && r.ancestors[info.indentSize] == P.NodeId(id)
            && (forall j :: 0 <= j < info.indentSize ==> r.ancestors[j] == P.SlotAt(s.ancestors, j))
            && (info.nodeLabel != "" ==> r.nodes == s.nodes + [LegacyNode(lineNumber, info.nodeLabel, id, info.classes, info.data)])
            && (info.nodeLabel == "" ==> r.nodes == s.nodes)
            && (info.userId == "" ==> r.nodeIds == s.nodeIds + [id] && id !in s.nodeIds)
            && (info.userId != "" ==> r.nodeIds == s.nodeIds && id == info.userId)
  {
  }

  /**
   * The line's node gets an edge from its parent exactly when the parent is
   * a node id and the line has a node; that edge's id ends in "-1" and it
   * carries the edge label.
   */
  lemma AddLineEdge(s: State, info: LineInfo, lineNumber: nat)
    ensures var parent := P.ParentBelow(s.ancestors, info.indentSize);
            var id := NodeIdFor(info, s.nodeIds);
            var linked := parent.NodeId? && P.IsSet(parent) && info.nodeLabel != "";
            var r := AddLine(s, info, lineNumber);
            (linked ==> r.edges == s.edges + [LegacyEdge(parent.id + "-" + id + "-1", lineNumber, parent.id, id, info.edgeLabel)])
            && (!linked ==> r.edges == s.edges)
  {
  }

  /** Without a truthy parent a line leaves no pending edge, whatever pointers it holds. */
  lemma AddLineOrphan(s: State, info: LineInfo, lineNumber: nat)
    requires !P.IsSet(P.ParentBelow(s.ancestors, info.indentSize))
    ensures AddLine(s, info, lineNumber).unresolved == s.unresolved
            && AddLine(s, info, lineNumber).edges == s.edges
  {
  }

  /** A whitespace-only line is no pointer line and has an empty label. */
  lemma BlankLine(line: string)
    requires AllSpace(line)
    ensures !IsPointerLine(line) && AnalyzeLine(line).nodeLabel == "" && AnalyzeLine(line).pointers == []
  {
    forall i | 0 <= i < |line|
      ensures line[i] !in "#.[(:"
    {
      assert IsSpace(line[i]);
    }
    PlainLineInfo(line);
    TrimIsCore(line);
    if |line| > 0 {
      assert IsSpace(line[0]);
    }
  }

  // ---------------------------------------------------------------------------
  // Properties of the line loop

  /** An immediate edge: `source-target-1`, on a line already read. */
  predicate Immediate(e: LegacyEdge, count: nat) {
    e.id == e.source + "-" + e.target + "-1" && 1 <= e.lineNumber <= count
  }

  predicate AllImmediate(edges: seq<LegacyEdge>, count: nat) {
    forall k :: 0 <= k < |edges| ==> Immediate(edges[k], count)
  }

  lemma StepEdges(s: State, line: string, n: nat)
    requires 1 <= n && AllImmediate(s.edges, n - 1)
    ensures AllImmediate(StepLine(s, line, n).edges, n)
  {
    if !IsPointerLine(line) {
      AddLineEdge(s, AnalyzeLine(line), n);
    }
  }

  /** `edgeIds` never grows, so every edge made while reading the lines has an id ending in "-1". */
  lemma {:induction false} ScanEdges(lines: seq<string>)
    ensures AllImmediate(ScanLines(lines).edges, |lines|)
    decreases |lines|
  {
    if |lines| > 0 {
      var prefix := lines[..|lines| - 1];
      ScanEdges(prefix);
      StepEdges(ScanLines(prefix), lines[|lines| - 1], |lines|);
    }
  }

  /** Nodes in the order of their lines, each with a non-empty label and the number of a line read. */
  predicate NodesInOrder(nodes: seq<LegacyNode>, count: nat) {
    (forall k :: 0 <= k < |nodes| ==> nodes[k].nodeLabel != "" && 1 <= nodes[k].lineNumber <= count)
    && (forall i, j :: 0 <= i < j < |nodes| ==> nodes[i].lineNumber < nodes[j].lineNumber)
  }

  lemma StepNodes(s: State, line: string, n: nat)
    requires 1 <= n && NodesInOrder(s.nodes, n - 1)
    ensures NodesInOrder(StepLine(s, line, n).nodes, n)
  {
    if !IsPointerLine(line) {
      AddNodes(s, AnalyzeLine(line), n);
    }
  }

  lemma AddNodes(s: State, info: LineInfo, n: nat)
    requires 1 <= n && NodesInOrder(s.nodes, n - 1)
    ensures NodesInOrder(AddLine(s, info, n).nodes, n)
  {
    if info.nodeLabel != "" {
      var node := LegacyNode(n, info.nodeLabel, NodeIdFor(info, s.nodeIds), info.classes, info.data);
      Snoc(s.nodes, node, n);
    }
  }

  lemma Snoc(nodes: seq<LegacyNode>, node: LegacyNode, n: nat)
    requires 1 <= n && NodesInOrder(nodes, n - 1) && node.nodeLabel != "" && node.lineNumber == n
    ensures NodesInOrder(nodes + [node], n)
  {
    var r := nodes + [node];
    forall i, j | 0 <= i < j < |r|
      ensures r[i].lineNumber < r[j].lineNumber
    {
      if j < |nodes| {
        assert r[i] == nodes[i] && r[j] == nodes[j];
      } else {
        assert r[i] == nodes[i];
      }
    }
  }

  /** A node only for a line with a non-empty label, at most one per line, in line order. */
  lemma {:induction false} ScanNodes(lines: seq<string>)
    ensures NodesInOrder(ScanLines(lines).nodes, |lines|)
    decreases |lines|
  {
    if |lines| > 0 {
      var prefix := lines[..|lines| - 1];
      ScanNodes(prefix);
      StepNodes(ScanLines(prefix), lines[|lines| - 1], |lines|);
    }
  }

  lemma StepNodeIds(s: State, line: string, n: nat)
    requires P.Distinct(s.nodeIds)
    ensures P.Distinct(StepLine(s, line, n).nodeIds)
  {
    if !IsPointerLine(line) {
      AddNodeIds(s, AnalyzeLine(line), n);
    }
  }

  lemma AddNodeIds(s: State, info: LineInfo, n: nat)
    requires P.Distinct(s.nodeIds)
    ensures P.Distinct(AddLine(s, info, n).nodeIds)
  {
    if info.userId == "" {
      var id := FreshId(info.nodeLabel, s.nodeIds);
      DistinctSnoc(s.nodeIds, id);
    }
  }

  lemma DistinctSnoc(ids: seq<string>, id: string)
    requires P.Distinct(ids) && id !in ids
    ensures P.Distinct(ids + [id])
  {
    var r := ids + [id];
    forall i, j | 0 <= i < j < |r|
      ensures r[i] != r[j]
    {
      assert r[i] == ids[i];
    }
  }

  /** The generated ids are all different: each is chosen outside those registered before. */
  lemma {:induction false} ScanNodeIds(lines: seq<string>)
    ensures P.Distinct(ScanLines(lines).nodeIds)
    decreases |lines|
  {
    if |lines| > 0 {
      var prefix := lines[..|lines| - 1];
      ScanNodeIds(prefix);
      StepNodeIds(ScanLines(prefix), lines[|lines| - 1], |lines|);
    }
  }

  /** After a line the ancestors reach exactly to its indent, a pointer line counting as indent 0. */
  lemma ScanAncestors(lines: seq<string>)
    requires |lines| > 0
    ensures var last := lines[|lines| - 1];
            |ScanLines(lines).ancestors| == if IsPointerLine(last) then 1 else GIS.GetIndentSize(last) + 1
  {
    var last := lines[|lines| - 1];
    if !IsPointerLine(last) {
      AddLineState(ScanLines(lines[..|lines| - 1]), AnalyzeLine(last), |lines|);
    }
  }

  lemma StepBlank(s: State, line: string, n: nat)
    requires AllSpace(line) && s.nodes == [] && s.edges == [] && s.unresolved == []
    ensures var r := StepLine(s, line, n); r.nodes == [] && r.edges == [] && r.unresolved == []
  {
    BlankLine(line);
    var info := AnalyzeLine(line);
    var parent := P.ParentBelow(s.ancestors, info.indentSize);
    assert PendingLinks(parent, false, NodeIdFor(info, s.nodeIds), []) == [] by {
      if parent.Pointers? {
        BlankSources(parent.pointers, NodeIdFor(info, s.nodeIds));
      }
    }
  }

  lemma {:induction false} BlankSources(sources: seq<Pointer>, id: string)
    ensures FromPointers(sources, false, id, []) == []
    decreases |sources|
  {
    if |sources| > 0 {
      BlankSources(sources[..|sources| - 1], id);
    }
  }

  lemma {:induction false} ScanBlank(lines: seq<string>)
    requires forall k :: 0 <= k < |lines| ==> AllSpace(lines[k])
    ensures ScanLines(lines).nodes == [] && ScanLines(lines).edges == [] && ScanLines(lines).unresolved == []
    decreases |lines|
  {
    if |lines| > 0 {
      var prefix := lines[..|lines| - 1];
      ScanBlank(prefix);
      StepBlank(ScanLines(prefix), lines[|lines| - 1], |lines|);
    }
  }

  /** A text of whitespace-only lines has no node and no edge, though each of its lines registers an id. */
  lemma ParseBlank(text: string)
    requires forall k :: 0 <= k < |Split(text, '\n')| ==> AllSpace(Split(text, '\n')[k])
    ensures ParseOf(text) == LegacyGraph([], [])
  {
    ScanBlank(Split(text, '\n'));
  }

  // ---------------------------------------------------------------------------
  // Properties of the resolution

  lemma {:induction false} CrossLength(sources: seq<LegacyNode>, targets: seq<LegacyNode>, lineNumber: nat, text: string)
    ensures |Cross(sources, targets, lineNumber, text)| == |sources| * |targets|
    decreases |sources|
  {
    if |sources| > 0 {
      CrossLength(sources[..|sources| - 1], targets, lineNumber, text);
      assert (|sources| - 1) * |targets| + |targets| == |sources| * |targets|;
    }
  }

  /** The nested loops give an edge exactly for each pair of a source and a target. */
  lemma {:induction false} CrossMembers(sources: seq<LegacyNode>, targets: seq<LegacyNode>, lineNumber: nat, text: string)
    ensures forall e :: e in Cross(sources, targets, lineNumber, text) <==>
              exists i, j :: 0 <= i < |sources| && 0 <= j < |targets| && e == EdgeBetween(sources[i], targets[j], lineNumber, text)
    decreases |sources|
  {
    var n := |sources|;
    if n > 0 {
      var front := sources[..n - 1];
      CrossMembers(front, targets, lineNumber, text);
      var row := Row(sources[n - 1], targets, lineNumber, text);
      assert Cross(sources, targets, lineNumber, text) == Cross(front, targets, lineNumber, text) + row;
      forall e | e in Cross(sources, targets, lineNumber, text)
        ensures exists i, j :: 0 <= i < n && 0 <= j < |targets| && e == EdgeBetween(sources[i], targets[j], lineNumber, text)
      {
        if e in row {
          var j :| 0 <= j < |row| && row[j] == e;
          assert e == EdgeBetween(sources[n - 1], targets[j], lineNumber, text);
        } else {
          var i, j :| 0 <= i < n - 1 && 0 <= j < |targets| && e == EdgeBetween(front[i], targets[j], lineNumber, text);
          assert front[i] == sources[i];
        }
      }
      forall i, j | 0 <= i < n && 0 <= j < |targets|
        ensures EdgeBetween(sources[i], targets[j], lineNumber, text) in Cross(sources, targets, lineNumber, text)
      {
        if i == n - 1 {
          assert row[j] == EdgeBetween(sources[i], targets[j], lineNumber, text);
        } else {
          assert front[i] == sources[i];
        }
      }
    }
  }

  /**
   * A pending edge resolves to one edge per pair of a selected source and a
   * selected target, with id `s-t`, the given line number and the target's
   * `[0]` as label; none when either end selects no node.
   */
  lemma ResolvePendingSpec(u: Pending, nodes: seq<LegacyNode>, lineNumber: nat)
    ensures var sources := Select(nodes, u.0);
            var targets := Select(nodes, u.1);
            var r := ResolvePending(u, nodes, lineNumber);
            |r| == |sources| * |targets|
            && (r == [] <==> sources == [] || targets == [])
            && forall e :: e in r <==>
                 exists i, j :: 0 <= i < |sources| && 0 <= j < |targets| && e == EdgeBetween(sources[i], targets[j], lineNumber, EndLabel(u.1))
  {
    var sources := Select(nodes, u.0);
    var targets := Select(nodes, u.1);
    CrossLength(sources, targets, lineNumber, EndLabel(u.1));
    CrossMembers(sources, targets, lineNumber, EndLabel(u.1));
    if |sources| > 0 && |targets| > 0 {
      assert |sources| * |targets| > 0;
    }
  }

  /** A resolved edge: `s-t`, with the final line count. */
  predicate Resolved(e: LegacyEdge, lineNumber: nat) {
    e.id == e.source + "-" + e.target && e.lineNumber == lineNumber
  }

  lemma {:induction false} CrossShape(sources: seq<LegacyNode>, targets: seq<LegacyNode>, lineNumber: nat, text: string)
    ensures forall k :: 0 <= k < |Cross(sources, targets, lineNumber, text)| ==> Resolved(Cross(sources, targets, lineNumber, text)[k], lineNumber)
    decreases |sources|
  {
    if |sources| > 0 {
      CrossShape(sources[..|sources| - 1], targets, lineNumber, text);
    }
  }

  /** Every edge of the resolution is `s-t` and carries the final line count. */
  lemma {:induction false} ResolveAllShape(pending: seq<Pending>, nodes: seq<LegacyNode>, lineNumber: nat)
    ensures forall k :: 0 <= k < |ResolveAll(pending, nodes, lineNumber)| ==> Resolved(ResolveAll(pending, nodes, lineNumber)[k], lineNumber)
    decreases |pending|
  {
    if |pending| > 0 {
      var u := pending[|pending| - 1];
      ResolveAllShape(pending[..|pending| - 1], nodes, lineNumber);
      CrossShape(Select(nodes, u.0), Select(nodes, u.1), lineNumber, EndLabel(u.1));
    }
  }

  // ---------------------------------------------------------------------------
  // Two documents worked through

  lemma TwoLines(a: string, b: string)
    requires '\n' !in a && '\n' !in b
    ensures Split(a + "\n" + b, '\n') == [a, b]
  {
    assert [a, b][1..] == [b];
    assert Join([a, b], "\n") == a + "\n" + b;
    assert "\n" == ['\n'];
    SplitJoin([a, b], '\n');
  }

  lemma ScanSnoc(lines: seq<string>, line: string)
    ensures ScanLines(lines + [line]) == StepLine(ScanLines(lines), line, |lines| + 1)
  {
    assert (lines + [line])[..|lines|] == lines;
  }

  lemma StepPlain(s: State, line: string, n: nat, info: LineInfo)
    requires !IsPointerLine(line) && AnalyzeLine(line) == info
    ensures StepLine(s, line, n) == AddLine(s, info, n)
  {
  }

  lemma LineA()
    ensures !IsPointerLine("a") && AnalyzeLine("a") == LineInfo(0, "", "", "", [], [], "a")
  {
    PlainLineInfo("a");
    assert GIS.GetIndentSize("a") == 0;
    assert Trim("a") == "a";
  }

  lemma LineB()
    ensures !IsPointerLine("  b") && AnalyzeLine("  b") == LineInfo(2, "", "", "", [], [], "b")
  {
    PlainLineInfo("  b");
    IndentTwo();
  }

  lemma IndentTwo()
    ensures GIS.GetIndentSize("  b") == 2 && Trim("  b") == "b"
  {
    assert LeadingSpaces("b") == 0;
    assert LeadingSpaces(" b") == 1;
    assert LeadingSpaces("  b") == 2;
    assert TrimStart("  b") == "b";
  }

  lemma FirstId(word: string, ids: seq<string>)
    requires word + "1" !in ids
    ensures FreshId(word, ids) == word + "1"
  {
    assert NatToString(1) == "1";
  }

  const NodeA := LegacyNode(1, "a", "a1", "", [])

  const AfterFirst := State([NodeA], [], ["a1"], [P.NodeId("a1")], [])

  lemma AddA()
    ensures AddLine(Start, LineInfo(0, "", "", "", [], [], "a"), 1) == AfterFirst
  {
    FirstId("a", []);
    assert "a" + "1" == "a1";
    var w := WriteSlot([], 0, P.NodeId("a1"));
    assert w == [w[0]];
    assert ImmediateEdges(P.NoAncestor, true, "a1", 1, "") == [];
  }

  lemma AfterA()
    ensures ScanLines(["a"]) == AfterFirst
  {
    ScanSnoc([], "a");
    assert [] + ["a"] == ["a"];
    LineA();
    StepPlain(Start, "a", 1, LineInfo(0, "", "", "", [], [], "a"));
    AddA();
  }

  lemma ParseOfScan(text: string, lines: seq<string>, s: State)
    requires Split(text, '\n') == lines && ScanLines(lines) == s
    ensures ParseOf(text) == LegacyGraph(s.nodes, s.edges + ResolveAll(s.unresolved, s.nodes, |lines|))
  {
  }

  const NodeB := LegacyNode(2, "b", "b1", "", [])

  lemma AddB()
    ensures AddLine(AfterFirst, LineInfo(2, "", "", "", [], [], "b"), 2)
            == State([NodeA, NodeB], [LegacyEdge("a1-b1-1", 2, "a1", "b1", "")], ["a1", "b1"],
                     WriteSlot([P.NodeId("a1")], 2, P.NodeId("b1")), [])
  {
    assert ("b" + "1")[0] != "a1"[0];
    FirstId("b", ["a1"]);
    assert "b" + "1" == "b1";
    assert "a1" + "-" + "b1" + "-1" == "a1-b1-1";
    assert P.ParentBelow([P.NodeId("a1")], 2) == P.NodeId("a1");
  }

  const AfterSecond := State([NodeA, NodeB], [LegacyEdge("a1-b1-1", 2, "a1", "b1", "")], ["a1", "b1"],
                             WriteSlot([P.NodeId("a1")], 2, P.NodeId("b1")), [])

  lemma ScanAB()
    ensures ScanLines(["a", "  b"]) == AfterSecond
  {
    AfterA();
    ScanSnoc(["a"], "  b");
    assert ["a"] + ["  b"] == ["a", "  b"];
    LineB();
    StepPlain(AfterFirst, "  b", 2, LineInfo(2, "", "", "", [], [], "b"));
    AddB();
  }

  /** `a` then an indented `b`: two nodes and the edge `a1-b1-1` from the first to the second. */
  lemma IndentedEdge()
    ensures ParseOf("a\n  b") == LegacyGraph([NodeA, NodeB], [LegacyEdge("a1-b1-1", 2, "a1", "b1", "")])
  {
    TwoLines("a", "  b");
    assert "a" + "\n" + "  b" == "a\n  b";
    ScanAB();
    ParseOfScan("a\n  b", ["a", "  b"], AfterSecond);
    assert ResolveAll([], AfterSecond.nodes, 2) == [];
  }

  lemma AddSecondA()
    ensures var r := AddLine(AfterFirst, LineInfo(0, "", "", "", [], [], "a"), 2);
            |r.nodes| == 2 && r.nodes[0].id == "a1" && r.nodes[1].id == "a2"
  {
    assert NatToString(2) == "2";
    assert FreshFrom("a", ["a1"], 1) == 2 by {
      assert NatToString(1) == "1";
      assert LabelId("a", 1) == "a1";
      assert LabelId("a", 2) == "a2";
      assert "a2"[1] != "a1"[1];
    }
  }

  /** Two lines with the same label: the ids count up, `a1` then `a2`. */
  lemma RepeatedLabel()
    ensures var g := ParseOf("a\na");
            |g.nodes| == 2 && g.nodes[0].id == "a1" && g.nodes[1].id == "a2"
  {
    var lines := ["a", "a"];
    TwoLines("a", "a");
    assert "a" + "\n" + "a" == "a\na";
    AfterA();
    ScanSnoc(["a"], "a");
    assert ["a"] + ["a"] == lines;
    LineA();
    StepPlain(AfterFirst, "a", 2, LineInfo(0, "", "", "", [], [], "a"));
    AddSecondA();
    ParseOfScan("a\na", lines, ScanLines(lines));
  }
}
