/**
 * `parse` (graph-selector/src/parse.ts): the line scan that turns the text
 * into nodes, immediate edges and pending pointer edges, followed by the
 * resolution of the pending edges against the nodes and edges found.
 *
 * The scan keeps, besides the nodes and edges, the ids registered so far, a
 * stack of ancestor scopes (one per open container; a scope maps an indent
 * to the id or pointers last written at that indent), the ids of the open
 * containers and the queue of pending edges.
 */
module Parse {
  import opened JsString
  import opened Types
  import opened ParseErrors
  import opened ParseLine
  import FD = FeatureData

  // ---------------------------------------------------------------------------
  // Ancestor scopes

  /** What an ancestor slot holds: nothing, the id of a node, or the pointers of a pointer line. */
  datatype Ancestor = NoAncestor | NodeId(id: string) | Pointers(pointers: seq<Pointer>)

  /** JavaScript truthiness of a slot: an id when non-empty, a pointer array always. */
  predicate IsSet(a: Ancestor) {
    match a
    case NoAncestor => false
    case NodeId(id) => id != ""
    case Pointers(_) => true
  }

  /** One level of indentation bookkeeping; missing or never-written indents read as `NoAncestor`. */
  type Scope = seq<Ancestor>

  function SlotAt(scope: Scope, i: nat): Ancestor {
    if i < |scope| then scope[i] else NoAncestor
  }

  /** `ancestors[i] = a` on a JavaScript array: writing past the end leaves holes. */
  function SetSlot(scope: Scope, i: nat, a: Ancestor): (r: Scope)
    ensures |r| == if i < |scope| then |scope| else i + 1
    ensures SlotAt(r, i) == a
  {
    if i < |scope| then scope[i := a] else scope + seq(i - |scope|, _ => NoAncestor) + [a]
  }

  lemma SetSlotOthers(scope: Scope, i: nat, a: Ancestor, j: nat)
    requires j != i
    ensures SlotAt(SetSlot(scope, i, a), j) == SlotAt(scope, j)
  {
  }

  /** The closest set slot strictly below indent `i`, or `NoAncestor`. */
  function ParentBelow(scope: Scope, i: nat): Ancestor
    decreases i
  {
    if i == 0 then NoAncestor
    else if IsSet(SlotAt(scope, i - 1)) then SlotAt(scope, i - 1)
    else ParentBelow(scope, i - 1)
  }

  /** `findParent`: walk down from the indent just below the line's own. */
  method FindParent(indentSize: nat, ancestors: Scope) returns (parent: Ancestor)
    ensures parent == ParentBelow(ancestors, indentSize)
  {
    parent := NoAncestor;
    var i: int := indentSize - 1;
    while !IsSet(parent) && i >= 0
      invariant -1 <= i < indentSize
      invariant !IsSet(parent) ==> parent == NoAncestor
                                   && ParentBelow(ancestors, i + 1) == ParentBelow(ancestors, indentSize)
      invariant IsSet(parent) ==> parent == ParentBelow(ancestors, indentSize)
      decreases i + 1
    {
      var ancestor := SlotAt(ancestors, i);
      if IsSet(ancestor) {
        parent := ancestor;
      }
      i := i - 1;
    }
  }

  /** The parent is the closest set slot below the indent: every slot between them is unset. */
  lemma {:induction false} ParentBelowSpec(scope: Scope, i: nat)
    ensures var p := ParentBelow(scope, i);
            p == NoAncestor || IsSet(p)
    ensures ParentBelow(scope, i) == NoAncestor <==> forall j :: 0 <= j < i ==> !IsSet(SlotAt(scope, j))
    ensures ParentBelow(scope, i) != NoAncestor ==>
              exists j :: 0 <= j < i && SlotAt(scope, j) == ParentBelow(scope, i)
                          && forall k :: j < k < i ==> !IsSet(SlotAt(scope, k))
    decreases i
  {
    if i > 0 && !IsSet(SlotAt(scope, i - 1)) {
      ParentBelowSpec(scope, i - 1);
      var p := ParentBelow(scope, i);
      if p != NoAncestor {
        var j :| 0 <= j < i - 1 && SlotAt(scope, j) == p && forall k :: j < k < i - 1 ==> !IsSet(SlotAt(scope, k));
        assert forall k :: j < k < i ==> !IsSet(SlotAt(scope, k));
      }
    } else if i > 0 {
      assert SlotAt(scope, i - 1) == ParentBelow(scope, i);
    }
  }

  // ---------------------------------------------------------------------------
  // Scan state

  /** An end of a pending edge: a node id, or a pointer still to be resolved. */
  datatype Endpoint = Ref(id: string) | Ptr(pointer: Pointer)

  /** A pending edge, with the edge label's feature data it was written with. */
  datatype Unresolved = Unresolved(source: Endpoint, target: Endpoint, lineNumber: nat,
                                   edgeLabel: string, id: string, classes: string, otherData: Data)

  /**
   * The locals of the scan. `orphan` models the slot `-1` that the source
   * writes when a pointer line comes while the stack is empty: it is read
   * back as the current scope whenever the stack is empty again.
   */
  datatype ScanState = ScanState(nodes: seq<Node>, edges: seq<Edge>, nodeIds: seq<string>,
                                 edgeIds: seq<Descriptor>, stack: seq<Scope>, orphan: Option<Scope>,
                                 unresolved: seq<Unresolved>, containers: seq<string>)

  const Init := ScanState([], [], [], [], [[]], None, [], [])

  function DropLast<T>(xs: seq<T>): (r: seq<T>)
    ensures |xs| > 0 ==> r == xs[..|xs| - 1]
    ensures |xs| == 0 ==> r == []
  {
    if |xs| == 0 then [] else xs[..|xs| - 1]
  }

  /** Where `ancestors` points for a line: the top of the stack, the orphan slot, or a fresh scope that is dropped. */
  datatype ScopeRef = OnStack(index: nat) | Orphan | Detached

  function CurrentRef(s: ScanState): ScopeRef {
    if |s.stack| > 0 then OnStack(|s.stack| - 1) else if s.orphan.Some? then Orphan else Detached
  }

  function ScopeOf(s: ScanState, ref: ScopeRef): Scope {
    match ref
    case OnStack(k) => if k < |s.stack| then s.stack[k] else []
    case Orphan => if s.orphan.Some? then s.orphan.value else []
    case Detached => []
  }

  /** `ancestors[i] = a` through the reference taken at the start of the line. */
  function WriteSlot(s: ScanState, ref: ScopeRef, i: nat, a: Ancestor): ScanState {
    match ref
    case OnStack(k) => if k < |s.stack| then s.(stack := s.stack[k := SetSlot(s.stack[k], i, a)]) else s
    case Orphan => if s.orphan.Some? then s.(orphan := Some(SetSlot(s.orphan.value, i, a))) else s
    case Detached => s
  }

  /** `allAncestors[allAncestors.length - 1] = scope`. */
  function ReplaceTop(s: ScanState, scope: Scope): ScanState {
    if |s.stack| > 0 then s.(stack := s.stack[|s.stack| - 1 := scope]) else s.(orphan := Some(scope))
  }

  // ---------------------------------------------------------------------------
  // One content line

  /** The data of a declared node: label, id and classes, then the line's data, then the container flags. */
  function NodeData(v: LineView, containers: seq<string>): Data
    requires v.Content?
  {
    var d0 := Assign([("label", Str(v.nodeLabel)), ("id", Str(v.id)), ("classes", Str(v.classes))], v.data);
    var d1 := if v.opens then Set(d0, "isParent", Bool(true)) else d0;
    var parent := if |containers| > 0 then containers[|containers| - 1] else "";
    if parent != "" then Set(d1, "parent", Str(parent)) else d1
  }

  /** The stack after a line that opens and/or closes a container. */
  function Scopes(stack: seq<Scope>, opens: bool, closes: bool): seq<Scope> {
    var pushed := if opens then stack + [[]] else stack;
    if closes then DropLast(pushed) else pushed
  }

  /** Register the line's id, add its node and update the container bookkeeping. */
  function Register(s: ScanState, v: LineView, lineNumber: nat): ScanState
    requires v.Content?
  {
    var containers := if v.closes then DropLast(s.containers) else s.containers;
    s.(nodeIds := s.nodeIds + [v.id],
       nodes := if v.declares then s.nodes + [Node(NodeData(v, containers), lineNumber)] else s.nodes,
       containers := if v.opens then containers + [v.id] else containers,
       stack := Scopes(s.stack, v.opens, v.closes))
  }

  /** The pending edge written on line `lineNumber` with edge features `edge`. */
  function Pending(source: Endpoint, target: Endpoint, lineNumber: nat, edge: FD.Features): Unresolved {
    Unresolved(source, target, lineNumber, edge.line, edge.id, edge.classes, edge.data)
  }

  /** One pending edge from `source` to each pointer, in order. */
  function ToPointers(source: Endpoint, targets: seq<Pointer>, lineNumber: nat, edge: FD.Features): (r: seq<Unresolved>)
    ensures |r| == |targets|
  {
    if |targets| == 0 then []
    else ToPointers(source, targets[..|targets| - 1], lineNumber, edge)
         + [Pending(source, Ptr(targets[|targets| - 1]), lineNumber, edge)]
  }

  /** The pending edges of one source pointer: to the line's node, then to each of its pointers. */
  function FromSource(sp: Pointer, declares: bool, id: string, targets: seq<Pointer>, lineNumber: nat,
                      edge: FD.Features): seq<Unresolved> {
    (if declares then [Pending(Ptr(sp), Ref(id), lineNumber, edge)] else [])
    + ToPointers(Ptr(sp), targets, lineNumber, edge)
  }

  function FromPointers(sources: seq<Pointer>, declares: bool, id: string, targets: seq<Pointer>,
                        lineNumber: nat, edge: FD.Features): seq<Unresolved> {
    if |sources| == 0 then []
    else FromPointers(sources[..|sources| - 1], declares, id, targets, lineNumber, edge)
         + FromSource(sources[|sources| - 1], declares, id, targets, lineNumber, edge)
  }

  /** The data of an edge written under its parent: id, label and classes, then the edge's data. */
  function EdgeData(edgeId: string, edge: FD.Features): Data {
    Assign([("id", Str(edgeId)), ("label", Str(edge.line)), ("classes", Str(edge.classes))], edge.data)
  }

  /** The id of the edge from a parent `a` to the node of the line: the edge label's own, or `a-id-1`. */
  function ImmediateEdgeId(a: string, id: string, edge: FD.Features): string {
    if edge.id != "" then edge.id else a + "-" + id + "-1"
  }

  /** The edge from the parent node `a` to the node of the line, unless its id is taken. */
  function ImmediateEdge(s: ScanState, a: string, v: LineView, edge: FD.Features, lineNumber: nat): Result<ScanState, ParseError>
    requires v.Content?
  {
    if !v.declares then Success(s)
    else
      var edgeId := ImmediateEdgeId(a, v.id, edge);
      if Str(edgeId) in s.edgeIds then
        Failure(NewParseError(LinePrefix(lineNumber) + "Duplicate edge id \"" + edgeId + "\"",
                              lineNumber, lineNumber, v.indent + 1, v.indent + 1 + |edgeId| + 1, DUPLICATE_EDGE_ID))
      else
        Success(s.(edgeIds := s.edgeIds + [Str(edgeId)],
                   edges := s.edges + [Edge(a, v.id, EdgeData(edgeId, edge), lineNumber)]))
  }

  /** The edges from a parent node `a`: the immediate edge, then one pending edge per pointer. */
  function NodeEdges(s: ScanState, a: string, v: LineView, lineNumber: nat, edge: FD.Features): Result<ScanState, ParseError>
    requires v.Content?
  {
    match ImmediateEdge(s, a, v, edge, lineNumber)
    case Failure(e) => Failure(e)
    case Success(t) => Success(t.(unresolved := t.unresolved + ToPointers(Ref(a), v.pointers, lineNumber, edge)))
  }

  /** The edges from a set parent slot, given the edge label's feature data. */
  function EdgesWith(s: ScanState, ancestor: Ancestor, v: LineView, lineNumber: nat, edge: FD.Features): Result<ScanState, ParseError>
    requires v.Content?
  {
    match ancestor
    case NodeId(a) => NodeEdges(s, a, v, lineNumber, edge)
    case Pointers(sources) =>
      Success(s.(unresolved := s.unresolved + FromPointers(sources, v.declares, v.id, v.pointers, lineNumber, edge)))
    case NoAncestor => Success(s)
  }

  /** The edges (immediate or pending) from the line's parent to what the line names. */
  function EdgesOf(s: ScanState, ancestor: Ancestor, v: LineView, lineNumber: nat): Result<ScanState, ParseError>
    requires v.Content?
  {
    if !IsSet(ancestor) then Success(s) else EdgesWith(s, ancestor, v, lineNumber, FD.FeatureDataOf(v.edgeLabel))
  }

  /** What the line leaves at its indent: its node id, or its pointers when it declares no node. */
  function Slot(v: LineView): Ancestor
    requires v.Content?
  {
    if v.declares then NodeId(v.id) else Pointers(v.pointers)
  }

  function DuplicateNodeError(v: LineView, lineNumber: nat): ParseError
    requires v.Content?
  {
    NewParseError(LinePrefix(lineNumber) + "Duplicate node id \"" + v.id + "\"",
                  lineNumber, lineNumber, v.indent + 1, v.width + 1, DUPLICATE_NODE_ID)
  }

  /** A content line: the parent is looked up in the scope the line starts with. */
  function ContentStep(s: ScanState, v: LineView, lineNumber: nat): Result<ScanState, ParseError>
    requires v.Content?
  {
    var ref := CurrentRef(s);
    var ancestor := ParentBelow(ScopeOf(s, ref), v.indent);
    if v.declares && v.id in s.nodeIds then Failure(DuplicateNodeError(v, lineNumber))
    else
      match EdgesOf(Register(s, v, lineNumber), ancestor, v, lineNumber)
      case Failure(e) => Failure(e)
      case Success(t) => Success(WriteSlot(t, ref, v.indent, Slot(v)))
  }

  /** One line of the scan. */
  function Step(s: ScanState, v: LineView, lineNumber: nat): Result<ScanState, ParseError> {
    match v
    case Blank => Success(s)
    case SourcePointers(closes, pointers) =>
      var t := if closes then s.(containers := DropLast(s.containers)) else s;
      Success(ReplaceTop(t, [Pointers(pointers)]))
    case Content(_, _, _, _, _, _, _, _, _, _, _) => ContentStep(s, v, lineNumber)
  }

  /** `f` applied to each line with its line number, counted from 1. */
  function MapLines<B>(f: (string, nat) -> B, lines: seq<string>): (r: seq<B>)
    ensures |r| == |lines|
  {
    if |lines| == 0 then [] else MapLines(f, lines[..|lines| - 1]) + [f(lines[|lines| - 1], |lines|)]
  }

  lemma {:induction false} MapLinesAt<B>(f: (string, nat) -> B, lines: seq<string>, k: nat)
    requires k < |lines|
    ensures MapLines(f, lines)[k] == f(lines[k], k + 1)
    decreases |lines|
  {
    var init := lines[..|lines| - 1];
    if k < |init| {
      MapLinesAt(f, init, k);
      assert init[k] == lines[k];
    }
  }

  /** The views of all lines; line `i + 1` is `lines[i]`. */
  function ViewsOf(lines: seq<string>): (views: seq<Result<LineView, ParseError>>)
    ensures |views| == |lines|
  {
    MapLines(AnalyzeLine, lines)
  }

  lemma ViewAt(lines: seq<string>, k: nat)
    requires k < |lines|
    ensures ViewsOf(lines)[k] == AnalyzeLine(lines[k], k + 1)
  {
    MapLinesAt(AnalyzeLine, lines, k);
  }

  /** The scan from line `k + 1` on: the first failure, or the state after the last line. */
  function ScanFrom(views: seq<Result<LineView, ParseError>>, k: nat, s: ScanState): Result<ScanState, ParseError>
    requires k <= |views|
    decreases |views| - k
  {
    if k == |views| then Success(s)
    else
      match views[k]
      case Failure(e) => Failure(e)
      case Success(v) =>
        match Step(s, v, k + 1)
        case Failure(e) => Failure(e)
        case Success(t) => ScanFrom(views, k + 1, t)
  }

  // ---------------------------------------------------------------------------
  // The scan, statement by statement

  /** `for (const target of targets) unresolvedEdges.push(...)` from one source. */
  method AddTargets(pending: seq<Unresolved>, source: Endpoint, targets: seq<Pointer>, lineNumber: nat,
                    edge: FD.Features) returns (r: seq<Unresolved>)
    ensures r == pending + ToPointers(source, targets, lineNumber, edge)
  {
    r := pending;
    var i := 0;
    while i < |targets|
      invariant i <= |targets|
      invariant r == pending + ToPointers(source, targets[..i], lineNumber, edge)
    {
      assert targets[..i + 1][..i] == targets[..i];
      ConcatAssoc(pending, ToPointers(source, targets[..i], lineNumber, edge),
                  [Pending(source, Ptr(targets[i]), lineNumber, edge)]);
      r := r + [Pending(source, Ptr(targets[i]), lineNumber, edge)];
      i := i + 1;
    }
    assert targets[..i] == targets;
  }

  /** The nested loops over the parent's pointers and the line's own. */
  method AddFromPointers(pending: seq<Unresolved>, sources: seq<Pointer>, declares: bool, id: string,
                         targets: seq<Pointer>, lineNumber: nat, edge: FD.Features) returns (r: seq<Unresolved>)
    ensures r == pending + FromPointers(sources, declares, id, targets, lineNumber, edge)
  {
    r := pending;
    var i := 0;
    while i < |sources|
      invariant i <= |sources|
      invariant r == pending + FromPointers(sources[..i], declares, id, targets, lineNumber, edge)
    {
      ghost var before := r;
      var own: seq<Unresolved> := [];
      if declares {
        own := [Pending(Ptr(sources[i]), Ref(id), lineNumber, edge)];
      }
      r := AddTargets(r + own, Ptr(sources[i]), targets, lineNumber, edge);
      ConcatAssoc(before, own, ToPointers(Ptr(sources[i]), targets, lineNumber, edge));
      ConcatAssoc(pending, FromPointers(sources[..i], declares, id, targets, lineNumber, edge),
                  FromSource(sources[i], declares, id, targets, lineNumber, edge));
      assert sources[..i + 1][..i] == sources[..i];
      i := i + 1;
    }
    assert sources[..i] == sources;
  }

  /** The immediate edge from the parent node `a`, then its pending edges. */
  method AddNodeEdges(s: ScanState, a: string, v: LineView, lineNumber: nat, edge: FD.Features)
    returns (r: Result<ScanState, ParseError>)
    requires v.Content?
    ensures r == NodeEdges(s, a, v, lineNumber, edge)
  {
    var t := s;
    if v.declares {
      var edgeId := edge.id;
      if edgeId == "" {
        edgeId := a + "-" + v.id + "-1";
      }
      if Str(edgeId) in t.edgeIds {
        return Failure(NewParseError(LinePrefix(lineNumber) + "Duplicate edge id \"" + edgeId + "\"",
                                     lineNumber, lineNumber, v.indent + 1, v.indent + 1 + |edgeId| + 1,
                                     DUPLICATE_EDGE_ID));
      }
      t := t.(edgeIds := t.edgeIds + [Str(edgeId)],
              edges := t.edges + [Edge(a, v.id, EdgeData(edgeId, edge), lineNumber)]);
    }
    var pending := AddTargets(t.unresolved, Ref(a), v.pointers, lineNumber, edge);
    r := Success(t.(unresolved := pending));
  }

  /** `if (ancestor) { ... }`: the immediate edge and the pending edges of a content line. */
  method AddEdges(s: ScanState, ancestor: Ancestor, v: LineView, lineNumber: nat) returns (r: Result<ScanState, ParseError>)
    requires v.Content?
    ensures r == EdgesOf(s, ancestor, v, lineNumber)
  {
    if !IsSet(ancestor) {
      return Success(s);
    }
    var edge := FD.GetFeatureData(v.edgeLabel);
    match ancestor {
      case NodeId(a) =>
        r := AddNodeEdges(s, a, v, lineNumber, edge);
      case Pointers(sources) =>
        var pending := AddFromPointers(s.unresolved, sources, v.declares, v.id, v.pointers, lineNumber, edge);
        r := Success(s.(unresolved := pending));
      case NoAncestor =>
        r := Success(s);
    }
  }

  /** Register the id, push the node and open or close the container. */
  method RegisterNode(s: ScanState, v: LineView, lineNumber: nat) returns (t: ScanState)
    requires v.Content?
    ensures t == Register(s, v, lineNumber)
  {
    var containers := s.containers;
    if v.closes {
      containers := DropLast(containers);
    }
    var nodes := s.nodes;
    if v.declares {
      var data := Assign([("label", Str(v.nodeLabel)), ("id", Str(v.id)), ("classes", Str(v.classes))], v.data);
      if v.opens {
        data := Set(data, "isParent", Bool(true));
      }
      var parent := if |containers| > 0 then containers[|containers| - 1] else "";
      if parent != "" {
        data := Set(data, "parent", Str(parent));
      }
      nodes := nodes + [Node(data, lineNumber)];
    }
    var stack := s.stack;
    if v.opens {
      containers := containers + [v.id];
      stack := stack + [[]];
    }
    if v.closes {
      stack := DropLast(stack);
    }
    t := s.(nodeIds := s.nodeIds + [v.id], nodes := nodes, containers := containers, stack := stack);
  }

  /** The body of the line loop for a content line. */
  method ContentLine(s: ScanState, v: LineView, lineNumber: nat) returns (r: Result<ScanState, ParseError>)
    requires v.Content?
    ensures r == ContentStep(s, v, lineNumber)
  {
    var ref := CurrentRef(s);
    var ancestor := FindParent(v.indent, ScopeOf(s, ref));
    if v.declares && v.id in s.nodeIds {
      return Failure(DuplicateNodeError(v, lineNumber));
    }
    var t := RegisterNode(s, v, lineNumber);
    var e := AddEdges(t, ancestor, v, lineNumber);
    if e.Failure? {
      return Failure(e.error);
    }
    r := Success(WriteSlot(e.value, ref, v.indent, Slot(v)));
  }

  /** The body of the line loop, once the line has been read. */
  method ScanLine(s: ScanState, v: LineView, lineNumber: nat) returns (r: Result<ScanState, ParseError>)
    ensures r == Step(s, v, lineNumber)
  {
    match v {
      case Blank =>
        r := Success(s);
      case SourcePointers(closes, pointers) =>
        var t := s;
        if closes {
          t := t.(containers := DropLast(t.containers));
        }
        r := Success(ReplaceTop(t, [Pointers(pointers)]));
      case Content(_, _, _, _, _, _, _, _, _, _, _) =>
        r := ContentLine(s, v, lineNumber);
    }
  }

  /** The line loop of `parse`. */
  method Scan(lines: seq<string>) returns (r: Result<ScanState, ParseError>)
    ensures r == ScanFrom(ViewsOf(lines), 0, Init)
  {
    ghost var views := ViewsOf(lines);
    ghost var target := ScanFrom(views, 0, Init);
    var s := Init;
    var lineNumber: nat := 0;
    while lineNumber < |lines|
      invariant lineNumber <= |lines|
      invariant ScanFrom(views, lineNumber, s) == target
    {
      var read := ReadView(lines, lineNumber);
      if read.Failure? {
        ScanFails(views, lineNumber, s, read.error);
        return Failure(read.error);
      }
      var next := ScanLine(s, read.value, lineNumber + 1);
      if next.Failure? {
        ScanFails(views, lineNumber, s, next.error);
        return Failure(next.error);
      }
      ScanStep(views, lineNumber, s, read.value, next.value);
      s := next.value;
      lineNumber := lineNumber + 1;
    }
    return Success(s);
  }

  /** Line `k + 1`, read. */
  method ReadView(lines: seq<string>, k: nat) returns (r: Result<LineView, ParseError>)
    requires k < |lines|
    ensures r == ViewsOf(lines)[k]
  {
    r := ReadLine(lines[k], k + 1);
    ViewAt(lines, k);
  }

  /** A line read and scanned without error moves the scan on to the next line. */
  lemma ScanStep(views: seq<Result<LineView, ParseError>>, k: nat, s: ScanState, v: LineView, t: ScanState)
    requires k < |views| && views[k] == Success(v) && Step(s, v, k + 1) == Success(t)
    ensures ScanFrom(views, k, s) == ScanFrom(views, k + 1, t)
  {
  }

  /** A line that cannot be read, or whose step fails, ends the scan with that error. */
  lemma ScanFails(views: seq<Result<LineView, ParseError>>, k: nat, s: ScanState, e: ParseError)
    requires k < |views|
    requires views[k] == Failure(e) || (views[k].Success? && Step(s, views[k].value, k + 1) == Failure(e))
    ensures ScanFrom(views, k, s) == Failure(e)
  {
  }

  // ---------------------------------------------------------------------------
  // Resolving pending edges

  /** Whether a node or edge with data `d` is what a pending end names. */
  predicate Matches(d: Data, e: Endpoint) {
    match e
    case Ref(id) => Get(d, "id") == Some(Str(id))
    case Ptr(Pointer(IdPointer, value)) => Get(d, "id") == Some(Str(value))
    case Ptr(Pointer(ClassPointer, value)) =>
      var c := Get(d, "classes");
      c.Some? && c.value.Str? && value in Split(c.value.s, '.')
    case Ptr(Pointer(LabelPointer, value)) => Get(d, "label") == Some(Str(value))
  }

  /** `entities.filter(...)`. */
  function Select(entities: seq<Data>, e: Endpoint): (r: seq<Data>)
    ensures |r| <= |entities|
  {
    if |entities| == 0 then []
    else (if Matches(entities[0], e) then [entities[0]] else []) + Select(entities[1..], e)
  }

  function DataOfNodes(nodes: seq<Node>): (r: seq<Data>)
    ensures |r| == |nodes|
  {
    seq(|nodes|, i requires 0 <= i < |nodes| => nodes[i].data)
  }

  function DataOfEdges(edges: seq<Edge>): (r: seq<Data>)
    ensures |r| == |edges|
  {
    seq(|edges|, i requires 0 <= i < |edges| => edges[i].data)
  }

  /** An id end matches nodes only; a pointer end matches nodes, then the edges made so far. */
  function Candidates(e: Endpoint, nodes: seq<Node>, edges: seq<Edge>): seq<Data> {
    if e.Ref? then Select(DataOfNodes(nodes), e) else Select(DataOfNodes(nodes) + DataOfEdges(edges), e)
  }

  /** The edges made so far and the edge ids taken. */
  datatype Resolved = Resolved(edges: seq<Edge>, edgeIds: seq<Descriptor>)

  /** `${entity.data.id}`. */
  function IdText(d: Data): string {
    match Get(d, "id")
    case Some(x) => DescriptorText(x)
    case None => "undefined"
  }

  /** `{ ...rest, ...otherData, label }`: id and classes, then the edge's data, then its label. */
  function PendingData(u: Unresolved): Data {
    Set(Assign([("id", Str(u.id)), ("classes", Str(u.classes))], u.otherData), "label", Str(u.edgeLabel))
  }

  predicate HasTruthyId(d: Data) {
    Get(d, "id").Some? && Truthy(Get(d, "id").value)
  }

  /** `${source}-${target}-${inc}`. */
  function Candidate(source: string, target: string, inc: nat): string {
    source + "-" + target + "-" + NatToString(inc)
  }

  /** The first counter from `inc` on whose candidate id is not taken. */
  function FreshFrom(source: string, target: string, ids: seq<Descriptor>, inc: nat): (r: nat)
    requires 1 <= inc
    requires forall m :: 1 <= m < inc ==> Str(Candidate(source, target, m)) in ids
    ensures inc <= r && Str(Candidate(source, target, r)) !in ids
    decreases |ids| + 1 - inc
  {
    if Str(Candidate(source, target, inc)) !in ids then inc
    else
      CandidatesFit(source, target, ids, inc);
      FreshFrom(source, target, ids, inc + 1)
  }

  /** The id a resolved edge without its own id receives. */
  function FreshEdgeId(source: string, target: string, ids: seq<Descriptor>): string {
    Candidate(source, target, FreshFrom(source, target, ids, 1))
  }

  /** The data of a resolved edge, with a generated id when it has none. */
  function PairData(u: Unresolved, source: string, target: string, ids: seq<Descriptor>): (d: Data)
    ensures HasTruthyId(d)
  {
    var d := PendingData(u);
    if HasTruthyId(d) then d else Set(d, "id", Str(FreshEdgeId(source, target, ids)))
  }

  /** `lines[lineNumber - 1]`, or "" when there is no such line. */
  function LineAt(lines: seq<string>, lineNumber: nat): string {
    if 1 <= lineNumber <= |lines| then lines[lineNumber - 1] else ""
  }

  /** One (source, target) pair of a pending edge. */
  function ResolvePair(lines: seq<string>, u: Unresolved, sd: Data, td: Data, acc: Resolved): Result<Resolved, ParseError> {
    var source := IdText(sd);
    var target := IdText(td);
    var data := PairData(u, source, target, acc.edgeIds);
    var id := Get(data, "id").value;
    if id in acc.edgeIds then
      var line := LineAt(lines, u.lineNumber);
      if line == "" then Success(acc)
      else Failure(NewParseError(LinePrefix(u.lineNumber) + "Duplicate edge id \"" + DescriptorText(id) + "\"",
                                 u.lineNumber, u.lineNumber, 0, |line| + 1, DUPLICATE_EDGE_ID))
    else Success(Resolved(acc.edges + [Edge(source, target, data, u.lineNumber)], acc.edgeIds + [id]))
  }

  /** The inner loop: one source against the targets from `j` on. */
  function ResolveTargets(lines: seq<string>, u: Unresolved, sd: Data, targets: seq<Data>, j: nat, acc: Resolved)
    : Result<Resolved, ParseError>
    requires j <= |targets|
    decreases |targets| - j
  {
    if j == |targets| then Success(acc)
    else
      match ResolvePair(lines, u, sd, targets[j], acc)
      case Failure(e) => Failure(e)
      case Success(next) => ResolveTargets(lines, u, sd, targets, j + 1, next)
  }

  /** The outer loop: the sources from `i` on. */
  function ResolveSources(lines: seq<string>, u: Unresolved, sources: seq<Data>, targets: seq<Data>, i: nat,
                          acc: Resolved): Result<Resolved, ParseError>
    requires i <= |sources|
    decreases |sources| - i
  {
    if i == |sources| then Success(acc)
    else
      match ResolveTargets(lines, u, sources[i], targets, 0, acc)
      case Failure(e) => Failure(e)
      case Success(next) => ResolveSources(lines, u, sources, targets, i + 1, next)
  }

  /** The pending edges from `k` on, each matched against the nodes and the edges made before it. */
  function ResolveFrom(lines: seq<string>, pending: seq<Unresolved>, k: nat, nodes: seq<Node>, acc: Resolved)
    : Result<Resolved, ParseError>
    requires k <= |pending|
    decreases |pending| - k
  {
    if k == |pending| then Success(acc)
    else
      var u := pending[k];
      var sources := Candidates(u.source, nodes, acc.edges);
      var targets := Candidates(u.target, nodes, acc.edges);
      if |sources| == 0 || |targets| == 0 then ResolveFrom(lines, pending, k + 1, nodes, acc)
      else
        match ResolveSources(lines, u, sources, targets, 0, acc)
        case Failure(e) => Failure(e)
        case Success(next) => ResolveFrom(lines, pending, k + 1, nodes, next)
  }

  /** What `parse` returns for `text`. */
  function ParseOf(text: string): Result<Graph, ParseError> {
    ParseLines(Lines(text))
  }

  /** The scan of the lines followed by the resolution of the pending edges. */
  function ParseLines(lines: seq<string>): Result<Graph, ParseError> {
    match ScanFrom(ViewsOf(lines), 0, Init)
    case Failure(e) => Failure(e)
    case Success(s) =>
      match ResolveFrom(lines, s.unresolved, 0, s.nodes, Resolved(s.edges, s.edgeIds))
      case Failure(e) => Failure(e)
      case Success(acc) => Success(Graph(s.nodes, acc.edges))
  }

  // ---------------------------------------------------------------------------
  // Fresh edge ids

  predicate Distinct<T(==)>(xs: seq<T>) {
    forall i, j :: 0 <= i < j < |xs| ==> xs[i] != xs[j]
  }

  /** Distinct values all found in `ids` are no more than `ids` has entries. */
  lemma {:induction false} DistinctFit<T>(c: seq<T>, ids: seq<T>)
    requires Distinct(c)
    requires forall i :: 0 <= i < |c| ==> c[i] in ids
    ensures |c| <= |ids|
    decreases |c|
  {
    if |c| > 0 {
      var x := c[|c| - 1];
      var j :| 0 <= j < |ids| && ids[j] == x;
      var rest := ids[..j] + ids[j + 1..];
      forall i | 0 <= i < |c| - 1
        ensures c[i] in rest
      {
        var k :| 0 <= k < |ids| && ids[k] == c[i];
        assert k != j;
        if k < j {
          assert rest[k] == c[i];
        } else {
          assert rest[k - 1] == c[i];
        }
      }
      DistinctFit(c[..|c| - 1], rest);
    }
  }

  /** When the candidates for counters `1..n` are all taken, `ids` has at least `n` entries. */
  lemma CandidatesFit(source: string, target: string, ids: seq<Descriptor>, n: nat)
    requires forall m :: 1 <= m <= n ==> Str(Candidate(source, target, m)) in ids
    ensures n <= |ids|
  {
    var c := seq(n, i requires 0 <= i < n => Str(Candidate(source, target, i + 1)));
    forall i, j | 0 <= i < j < |c|
      ensures c[i] != c[j]
    {
      if c[i] == c[j] {
        PrefixedNatInjective(source + "-" + target + "-", i + 1, j + 1);
      }
    }
    DistinctFit(c, ids);
  }

  /** The while loop that counts up from 1 until the candidate id is free. */
  method NextEdgeId(source: string, target: string, edgeIds: seq<Descriptor>) returns (edgeId: string)
    ensures edgeId == FreshEdgeId(source, target, edgeIds)
  {
    var inc := 1;
    edgeId := Candidate(source, target, inc);
    while Str(edgeId) in edgeIds
      invariant 1 <= inc && edgeId == Candidate(source, target, inc)
      invariant forall m :: 1 <= m < inc ==> Str(Candidate(source, target, m)) in edgeIds
      invariant FreshFrom(source, target, edgeIds, inc) == FreshFrom(source, target, edgeIds, 1)
      decreases |edgeIds| + 1 - inc
    {
      CandidatesFit(source, target, edgeIds, inc);
      inc := inc + 1;
      edgeId := Candidate(source, target, inc);
    }
  }

  // ---------------------------------------------------------------------------
  // The resolution loops

  /** The body of the inner resolution loop. */
  method ResolveEdge(lines: seq<string>, u: Unresolved, sd: Data, td: Data, acc: Resolved)
    returns (r: Result<Resolved, ParseError>)
    ensures r == ResolvePair(lines, u, sd, td, acc)
  {
    var source := IdText(sd);
    var target := IdText(td);
    var data := PendingData(u);
    if !HasTruthyId(data) {
      var edgeId := NextEdgeId(source, target, acc.edgeIds);
      data := Set(data, "id", Str(edgeId));
    }
    var id := Get(data, "id").value;
    if id in acc.edgeIds {
      var line := LineAt(lines, u.lineNumber);
      if line == "" {
        return Success(acc);
      }
      return Failure(NewParseError(LinePrefix(u.lineNumber) + "Duplicate edge id \"" + DescriptorText(id) + "\"",
                                   u.lineNumber, u.lineNumber, 0, |line| + 1, DUPLICATE_EDGE_ID));
    }
    r := Success(Resolved(acc.edges + [Edge(source, target, data, u.lineNumber)], acc.edgeIds + [id]));
  }

  /** The two nested loops over the matched sources and targets of one pending edge. */
  method ResolveEntry(lines: seq<string>, u: Unresolved, sources: seq<Data>, targets: seq<Data>, acc: Resolved)
    returns (r: Result<Resolved, ParseError>)
    ensures r == ResolveSources(lines, u, sources, targets, 0, acc)
  {
    var cur := acc;
    var i := 0;
    while i < |sources|
      invariant i <= |sources|
      invariant ResolveSources(lines, u, sources, targets, i, cur) == ResolveSources(lines, u, sources, targets, 0, acc)
    {
      ghost var outer := cur;
      var j := 0;
      while j < |targets|
        invariant j <= |targets|
        invariant ResolveTargets(lines, u, sources[i], targets, j, cur)
                  == ResolveTargets(lines, u, sources[i], targets, 0, outer)
      {
        var next := ResolveEdge(lines, u, sources[i], targets[j], cur);
        if next.Failure? {
          return Failure(next.error);
        }
        cur := next.value;
        j := j + 1;
      }
      i := i + 1;
    }
    r := Success(cur);
  }

  /** The resolution loop of `parse`. */
  method Resolve(lines: seq<string>, pending: seq<Unresolved>, nodes: seq<Node>, acc: Resolved)
    returns (r: Result<Resolved, ParseError>)
    ensures r == ResolveFrom(lines, pending, 0, nodes, acc)
  {
    var cur := acc;
    var k := 0;
    while k < |pending|
      invariant k <= |pending|
      invariant ResolveFrom(lines, pending, k, nodes, cur) == ResolveFrom(lines, pending, 0, nodes, acc)
    {
      var u := pending[k];
      var sources := Candidates(u.source, nodes, cur.edges);
      var targets := Candidates(u.target, nodes, cur.edges);
      if |sources| > 0 && |targets| > 0 {
        var next := ResolveEntry(lines, u, sources, targets, cur);
        if next.Failure? {
          return Failure(next.error);
        }
        cur := next.value;
      }
      k := k + 1;
    }
    r := Success(cur);
  }

  /** `parse`: the line scan, then the resolution of the pending edges. */
  method Parse(text: string) returns (r: Result<Graph, ParseError>)
    ensures r == ParseOf(text)
  {
    var lines := Lines(text);
    var scanned := Scan(lines);
    if scanned.Failure? {
      return Failure(scanned.error);
    }
    var s := scanned.value;
    var resolved := Resolve(lines, s.unresolved, s.nodes, Resolved(s.edges, s.edgeIds));
    if resolved.Failure? {
      return Failure(resolved.error);
    }
    r := Success(Graph(s.nodes, resolved.value.edges));
  }
}
