/**
 * What the scan and the resolution of `parse` guarantee: registered node ids
 * never repeat, nodes are listed in line order, every edge made during the
 * scan joins registered ids, edge ids never repeat, and every failure names
 * one line and carries one of the six codes.
 */
module ParseFacts {
  import opened JsString
  import opened Types
  import opened ParseErrors
  import opened ParseLine
  import opened Parse
  import FD = FeatureData

  // ---------------------------------------------------------------------------
  // The views of the lines

  predicate ViewOk(r: Result<LineView, ParseError>, lineNumber: nat) {
    match r
    case Success(v) => WellFormedView(v)
    case Failure(e) => IsLineError(e, lineNumber)
  }

  predicate ViewsOk(views: seq<Result<LineView, ParseError>>) {
    forall k :: 0 <= k < |views| ==> ViewOk(views[k], k + 1)
  }

  lemma ViewOkAt(original: string, lineNumber: nat, r: Result<LineView, ParseError>)
    requires r == AnalyzeLine(original, lineNumber)
    ensures ViewOk(r, lineNumber)
  {
    AnalyzeLineSpec(original, lineNumber);
  }

  lemma ViewOkOf(lines: seq<string>, k: nat)
    requires k < |lines|
    ensures ViewOk(ViewsOf(lines)[k], k + 1)
  {
    ViewAt(lines, k);
    ViewOkAt(lines[k], k + 1, ViewsOf(lines)[k]);
  }

  lemma ViewsOfOk(lines: seq<string>)
    ensures ViewsOk(ViewsOf(lines))
  {
    forall k | 0 <= k < |lines|
      ensures ViewOk(ViewsOf(lines)[k], k + 1)
    {
      ViewOkOf(lines, k);
    }
  }

  // ---------------------------------------------------------------------------
  // The scan invariant

  /** A non-empty registered id occurs once; "" is registered by every line that declares nothing. */
  predicate RegisteredDistinct(ids: seq<string>) {
    forall i, j :: 0 <= i < j < |ids| && ids[i] != "" ==> ids[i] != ids[j]
  }

  /** Nodes come from lines `1..k`, in strictly increasing line order. */
  predicate LinesUpTo(nodes: seq<Node>, k: nat) {
    (forall i :: 0 <= i < |nodes| ==> 1 <= nodes[i].lineNumber <= k)
    && (forall i, j :: 0 <= i < j < |nodes| ==> nodes[i].lineNumber < nodes[j].lineNumber)
  }

  predicate SlotsRegistered(scope: Scope, ids: seq<string>) {
    forall i :: 0 <= i < |scope| && scope[i].NodeId? ==> scope[i].id in ids
  }

  predicate ScopesRegistered(s: ScanState) {
    (forall k :: 0 <= k < |s.stack| ==> SlotsRegistered(s.stack[k], s.nodeIds))
    && (s.orphan.Some? ==> SlotsRegistered(s.orphan.value, s.nodeIds))
  }

  predicate EdgesRegistered(edges: seq<Edge>, ids: seq<string>) {
    forall i :: 0 <= i < |edges| ==> edges[i].source in ids && edges[i].target in ids
  }

  predicate ContainersRegistered(s: ScanState) {
    forall i :: 0 <= i < |s.containers| ==> s.containers[i] in s.nodeIds
  }

  /** What holds after the first `k` lines. */
  predicate ScanInv(s: ScanState, k: nat) {
    RegisteredDistinct(s.nodeIds) && LinesUpTo(s.nodes, k) && ScopesRegistered(s)
    && EdgesRegistered(s.edges, s.nodeIds) && ContainersRegistered(s) && Distinct(s.edgeIds)
  }

  lemma DistinctSnoc<T>(xs: seq<T>, x: T)
    requires Distinct(xs) && x !in xs
    ensures Distinct(xs + [x])
  {
    var ys := xs + [x];
    forall i, j | 0 <= i < j < |ys|
      ensures ys[i] != ys[j]
    {
      if j == |xs| {
        assert ys[i] == xs[i];
      } else {
        assert ys[i] == xs[i] && ys[j] == xs[j];
      }
    }
  }

  /** The parent of a line is a slot of its scope, so a node-id parent is registered. */
  lemma {:induction false} ParentRegistered(scope: Scope, i: nat, ids: seq<string>)
    requires SlotsRegistered(scope, ids)
    ensures ParentBelow(scope, i).NodeId? ==> ParentBelow(scope, i).id in ids
    decreases i
  {
    if i > 0 && !IsSet(SlotAt(scope, i - 1)) {
      ParentRegistered(scope, i - 1, ids);
    }
  }

  lemma SetSlotRegistered(scope: Scope, i: nat, a: Ancestor, ids: seq<string>)
    requires SlotsRegistered(scope, ids)
    requires a.NodeId? ==> a.id in ids
    ensures SlotsRegistered(SetSlot(scope, i, a), ids)
  {
    var r := SetSlot(scope, i, a);
    forall j | 0 <= j < |r| && r[j].NodeId?
      ensures r[j].id in ids
    {
      assert SlotAt(r, j) == r[j];
      if j != i {
        SetSlotOthers(scope, i, a, j);
      }
    }
  }

  lemma ScopeOfRegistered(s: ScanState, ref: ScopeRef)
    requires ScopesRegistered(s)
    ensures SlotsRegistered(ScopeOf(s, ref), s.nodeIds)
  {
  }

  /** Writing a registered slot keeps the scopes registered and changes nothing else. */
  lemma WriteSlotInv(s: ScanState, ref: ScopeRef, i: nat, a: Ancestor)
    requires ScopesRegistered(s)
    requires a.NodeId? ==> a.id in s.nodeIds
    ensures var t := WriteSlot(s, ref, i, a);
            ScopesRegistered(t) && |t.stack| == |s.stack|
            && t.(stack := s.stack, orphan := s.orphan) == s
  {
    match ref
    case OnStack(k) =>
      if k < |s.stack| {
        SetSlotRegistered(s.stack[k], i, a, s.nodeIds);
        var t := WriteSlot(s, ref, i, a);
        forall m | 0 <= m < |t.stack|
          ensures SlotsRegistered(t.stack[m], t.nodeIds)
        {
          if m != k {
            assert t.stack[m] == s.stack[m];
          }
        }
      }
    case Orphan =>
      if s.orphan.Some? {
        SetSlotRegistered(s.orphan.value, i, a, s.nodeIds);
      }
    case Detached =>
  }

  /** Registering a line keeps the invariant, now counting line `lineNumber`. */
  lemma RegisterInv(s: ScanState, v: LineView, lineNumber: nat)
    requires v.Content? && WellFormedView(v) && 1 <= lineNumber
    requires ScanInv(s, lineNumber - 1)
    requires !(v.declares && v.id in s.nodeIds)
    ensures var t := Register(s, v, lineNumber);
            ScanInv(t, lineNumber) && t.nodeIds == s.nodeIds + [v.id]
            && t.edges == s.edges && t.edgeIds == s.edgeIds && t.orphan == s.orphan
            && t.unresolved == s.unresolved
  {
    var t := Register(s, v, lineNumber);
    var ids := t.nodeIds;
    assert ids == s.nodeIds + [v.id];
    forall i, j | 0 <= i < j < |ids| && ids[i] != ""
      ensures ids[i] != ids[j]
    {
      if j == |s.nodeIds| {
        assert ids[i] == s.nodeIds[i];
      } else {
        assert ids[i] == s.nodeIds[i] && ids[j] == s.nodeIds[j];
      }
    }
    forall k | 0 <= k < |t.stack|
      ensures SlotsRegistered(t.stack[k], ids)
    {
      var pushed := if v.opens then s.stack + [[]] else s.stack;
      assert t.stack[k] == pushed[k];
      if k < |s.stack| {
        assert pushed[k] == s.stack[k];
      } else {
        assert pushed[k] == [];
      }
    }
    var popped := if v.closes then DropLast(s.containers) else s.containers;
    forall i | 0 <= i < |t.containers|
      ensures t.containers[i] in ids
    {
      if i < |popped| {
        assert t.containers[i] == popped[i] == s.containers[i];
      }
    }
  }

  /** The edges a line adds join registered ids and take fresh edge ids. */
  lemma EdgesWithInv(t: ScanState, ancestor: Ancestor, v: LineView, lineNumber: nat, edge: FD.Features)
    requires v.Content? && ScanInv(t, lineNumber)
    requires ancestor.NodeId? ==> ancestor.id in t.nodeIds
    requires v.declares ==> v.id in t.nodeIds
    ensures var r := EdgesWith(t, ancestor, v, lineNumber, edge);
            r.Success? ==> ScanInv(r.value, lineNumber)
                           && r.value.(edges := t.edges, edgeIds := t.edgeIds, unresolved := t.unresolved) == t
  {
    if ancestor.NodeId? && v.declares {
      var edgeId := ImmediateEdgeId(ancestor.id, v.id, edge);
      if Str(edgeId) !in t.edgeIds {
        DistinctSnoc(t.edgeIds, Str(edgeId));
      }
    }
  }

  /** A successful line keeps the invariant. */
  lemma ContentInv(s: ScanState, v: LineView, lineNumber: nat)
    requires v.Content? && WellFormedView(v) && 1 <= lineNumber
    requires ScanInv(s, lineNumber - 1)
    ensures ContentStep(s, v, lineNumber).Success? ==> ScanInv(ContentStep(s, v, lineNumber).value, lineNumber)
  {
    var ref := CurrentRef(s);
    var ancestor := ParentBelow(ScopeOf(s, ref), v.indent);
    if !(v.declares && v.id in s.nodeIds) {
      RegisterInv(s, v, lineNumber);
      var t := Register(s, v, lineNumber);
      ScopeOfRegistered(s, ref);
      ParentRegistered(ScopeOf(s, ref), v.indent, s.nodeIds);
      if IsSet(ancestor) {
        EdgesWithInv(t, ancestor, v, lineNumber, FD.FeatureDataOf(v.edgeLabel));
      }
      var r := EdgesOf(t, ancestor, v, lineNumber);
      if r.Success? {
        WriteSlotInv(r.value, ref, v.indent, Slot(v));
      }
    }
  }

  lemma PointerLineInv(s: ScanState, closes: bool, pointers: seq<Pointer>, lineNumber: nat)
    requires 1 <= lineNumber && ScanInv(s, lineNumber - 1)
    ensures ScanInv(Step(s, SourcePointers(closes, pointers), lineNumber).value, lineNumber)
  {
    var t := if closes then s.(containers := DropLast(s.containers)) else s;
    var u := ReplaceTop(t, [Pointers(pointers)]);
    forall k | 0 <= k < |u.stack|
      ensures SlotsRegistered(u.stack[k], u.nodeIds)
    {
      if k != |s.stack| - 1 {
        assert u.stack[k] == s.stack[k];
      }
    }
    forall i | 0 <= i < |u.containers|
      ensures u.containers[i] in u.nodeIds
    {
      assert u.containers[i] == s.containers[i];
    }
  }

  /** What a failing line reports: its own line and one of the two codes the scan raises. */
  predicate IsScanError(e: ParseError, lineNumber: nat) {
    e.name == "ParseError" && e.startLineNumber == lineNumber && e.endLineNumber == lineNumber
    && (e.code == DUPLICATE_NODE_ID || e.code == DUPLICATE_EDGE_ID)
  }

  lemma EdgesFailure(t: ScanState, ancestor: Ancestor, v: LineView, lineNumber: nat, edge: FD.Features)
    requires v.Content?
    ensures EdgesWith(t, ancestor, v, lineNumber, edge).Failure? ==>
              IsScanError(EdgesWith(t, ancestor, v, lineNumber, edge).error, lineNumber)
              && EdgesWith(t, ancestor, v, lineNumber, edge).error.code == DUPLICATE_EDGE_ID
  {
  }

  lemma ContentFailure(s: ScanState, v: LineView, lineNumber: nat)
    requires v.Content?
    ensures ContentStep(s, v, lineNumber).Failure? ==> IsScanError(ContentStep(s, v, lineNumber).error, lineNumber)
  {
    if !(v.declares && v.id in s.nodeIds) {
      var ancestor := ParentBelow(ScopeOf(s, CurrentRef(s)), v.indent);
      if IsSet(ancestor) {
        EdgesFailure(Register(s, v, lineNumber), ancestor, v, lineNumber, FD.FeatureDataOf(v.edgeLabel));
      }
    }
  }

  lemma StepInv(s: ScanState, v: LineView, lineNumber: nat)
    requires 1 <= lineNumber && WellFormedView(v) && ScanInv(s, lineNumber - 1)
    ensures Step(s, v, lineNumber).Success? ==> ScanInv(Step(s, v, lineNumber).value, lineNumber)
    ensures Step(s, v, lineNumber).Failure? ==> IsScanError(Step(s, v, lineNumber).error, lineNumber)
  {
    match v
    case Blank =>
    case SourcePointers(closes, pointers) =>
      PointerLineInv(s, closes, pointers, lineNumber);
    case Content(_, _, _, _, _, _, _, _, _, _, _) =>
      ContentInv(s, v, lineNumber);
      ContentFailure(s, v, lineNumber);
  }

  /**
   * The scan from line `k + 1` on keeps the invariant up to the last line,
   * or fails on a line after `k` that it names as start and end line.
   */
  lemma {:induction false} ScanSpec(views: seq<Result<LineView, ParseError>>, k: nat, s: ScanState)
    requires k <= |views| && ViewsOk(views) && ScanInv(s, k)
    ensures var r := ScanFrom(views, k, s);
            (r.Success? ==> ScanInv(r.value, |views|))
            && (r.Failure? ==> r.error.name == "ParseError" && IsParseCode(r.error.code)
                               && k < r.error.startLineNumber == r.error.endLineNumber <= |views|)
    decreases |views| - k
  {
    if k < |views| {
      assert ViewOk(views[k], k + 1);
      match views[k]
      case Failure(e) =>
      case Success(v) =>
        StepInv(s, v, k + 1);
        match Step(s, v, k + 1)
        case Failure(e) =>
        case Success(t) =>
          ScanSpec(views, k + 1, t);
    }
  }

  // ---------------------------------------------------------------------------
  // What one line does

  /** Re-declaring a registered id fails on that line with DUPLICATE_NODE_ID, and only that does. */
  lemma DuplicateNodeId(s: ScanState, v: LineView, lineNumber: nat)
    requires v.Content?
    ensures var r := Step(s, v, lineNumber);
            (v.declares && v.id in s.nodeIds ==>
               r.Failure? && r.error.code == DUPLICATE_NODE_ID
               && r.error.startLineNumber == lineNumber && r.error.endLineNumber == lineNumber)
            && (r.Failure? && r.error.code == DUPLICATE_NODE_ID ==> v.declares && v.id in s.nodeIds)
  {
    if !(v.declares && v.id in s.nodeIds) {
      var ancestor := ParentBelow(ScopeOf(s, CurrentRef(s)), v.indent);
      if IsSet(ancestor) {
        EdgesFailure(Register(s, v, lineNumber), ancestor, v, lineNumber, FD.FeatureDataOf(v.edgeLabel));
      }
    }
  }

  /**
   * The node data of a declaring line: its own `[id=…]`, `[label=…]`
   * attributes win over the id and label of the line; a container line is
   * marked `isParent`; inside a container the node names it as `parent`.
   */
  lemma NodeDataSpec(v: LineView, containers: seq<string>)
    requires v.Content? && DistinctKeys(v.data)
    ensures var d := NodeData(v, containers);
            Get(d, "id") == (if HasKey(v.data, "id") then Get(v.data, "id") else Some(Str(v.id)))
            && Get(d, "label") == (if HasKey(v.data, "label") then Get(v.data, "label") else Some(Str(v.nodeLabel)))
            && Get(d, "classes") == (if HasKey(v.data, "classes") then Get(v.data, "classes") else Some(Str(v.classes)))
            && (v.opens ==> Get(d, "isParent") == Some(Bool(true)))
            && (|containers| > 0 && containers[|containers| - 1] != "" ==>
                  Get(d, "parent") == Some(Str(containers[|containers| - 1])))
  {
    var base: Data := [("label", Str(v.nodeLabel)), ("id", Str(v.id)), ("classes", Str(v.classes))];
    var d0 := Assign(base, v.data);
    LiteralOverridden(base, v.data, "label", Str(v.nodeLabel), "id", Str(v.id), "classes", Str(v.classes));
    var d1 := if v.opens then Set(d0, "isParent", Bool(true)) else d0;
    if v.opens {
      SetKeepsThree(d0, "isParent", Bool(true), "id", "label", "classes");
    }
    var parent := if |containers| > 0 then containers[|containers| - 1] else "";
    if parent != "" {
      SetKeepsThree(d1, "parent", Str(parent), "id", "label", "classes");
      GetSet(d1, "parent", Str(parent), "isParent");
    }
  }

  /** `{k1: v1, k2: v2, k3: v3, ...src}`: a key of `src` wins, the literal gives the rest. */
  lemma LiteralOverridden(base: Data, src: Data, k1: string, v1: Descriptor, k2: string, v2: Descriptor,
                          k3: string, v3: Descriptor)
    requires k1 != k2 && k1 != k3 && k2 != k3
    requires base == [(k1, v1), (k2, v2), (k3, v3)] && DistinctKeys(src)
    ensures var d := Assign(base, src);
            Get(d, k1) == (if HasKey(src, k1) then Get(src, k1) else Some(v1))
            && Get(d, k2) == (if HasKey(src, k2) then Get(src, k2) else Some(v2))
            && Get(d, k3) == (if HasKey(src, k3) then Get(src, k3) else Some(v3))
  {
    GetTriple(k1, v1, k2, v2, k3, v3);
    GetAssign(base, src, k1);
    GetAssign(base, src, k2);
    GetAssign(base, src, k3);
  }

  lemma SetKeepsThree(d: Data, k: string, v: Descriptor, a: string, b: string, c: string)
    requires k != a && k != b && k != c
    ensures var r := Set(d, k, v);
            Get(r, a) == Get(d, a) && Get(r, b) == Get(d, b) && Get(r, c) == Get(d, c)
  {
    GetSet(d, k, v, a);
    GetSet(d, k, v, b);
    GetSet(d, k, v, c);
  }

  /** The data of an immediate edge: the edge label's attributes win over its id, label and classes. */
  lemma EdgeDataSpec(edgeId: string, edge: FD.Features)
    requires DistinctKeys(edge.data)
    ensures var d := EdgeData(edgeId, edge);
            Get(d, "id") == (if HasKey(edge.data, "id") then Get(edge.data, "id") else Some(Str(edgeId)))
            && Get(d, "label") == (if HasKey(edge.data, "label") then Get(edge.data, "label") else Some(Str(edge.line)))
            && Get(d, "classes") == (if HasKey(edge.data, "classes") then Get(edge.data, "classes") else Some(Str(edge.classes)))
  {
    LiteralOverridden([("id", Str(edgeId)), ("label", Str(edge.line)), ("classes", Str(edge.classes))], edge.data,
                      "id", Str(edgeId), "label", Str(edge.line), "classes", Str(edge.classes));
  }

  /** A declaring line adds exactly one node, recording the line; other lines add none. */
  lemma NodeOfLine(s: ScanState, v: LineView, lineNumber: nat)
    requires v.Content? && ContentStep(s, v, lineNumber).Success?
    ensures var t := ContentStep(s, v, lineNumber).value;
            var containers := if v.closes then DropLast(s.containers) else s.containers;
            (v.declares ==> t.nodes == s.nodes + [Node(NodeData(v, containers), lineNumber)])
            && (!v.declares ==> t.nodes == s.nodes)
            && t.nodeIds == s.nodeIds + [v.id]
  {
    var ref := CurrentRef(s);
    var ancestor := ParentBelow(ScopeOf(s, ref), v.indent);
    var t := Register(s, v, lineNumber);
    if IsSet(ancestor) {
      EdgesBookkeeping(t, ancestor, v, lineNumber, FD.FeatureDataOf(v.edgeLabel));
    }
    WriteSlotKeeps(EdgesOf(t, ancestor, v, lineNumber).value, ref, v.indent, Slot(v));
  }

  /** Adding edges changes only the edges, the edge ids and the pending queue. */
  lemma EdgesBookkeeping(t: ScanState, ancestor: Ancestor, v: LineView, lineNumber: nat, edge: FD.Features)
    requires v.Content?
    ensures var r := EdgesWith(t, ancestor, v, lineNumber, edge);
            r.Success? ==> r.value.(edges := t.edges, edgeIds := t.edgeIds, unresolved := t.unresolved) == t
  {
  }

  lemma WriteSlotKeeps(s: ScanState, ref: ScopeRef, i: nat, a: Ancestor)
    ensures var t := WriteSlot(s, ref, i, a);
            t.(stack := s.stack, orphan := s.orphan) == s && |t.stack| == |s.stack|
  {
  }

  /**
   * A line that opens a container pushes its id as the container parent
   * and, unless it also closes one, a fresh empty scope on top of the stack.
   */
  lemma ContainerLine(s: ScanState, v: LineView, lineNumber: nat)
    requires v.Content? && v.opens && ContentStep(s, v, lineNumber).Success?
    ensures var t := ContentStep(s, v, lineNumber).value;
            t.containers == (if v.closes then DropLast(s.containers) else s.containers) + [v.id]
            && (!v.closes ==> |t.stack| == |s.stack| + 1 && t.stack[|s.stack|] == [])
  {
    var ref := CurrentRef(s);
    var ancestor := ParentBelow(ScopeOf(s, ref), v.indent);
    var t := Register(s, v, lineNumber);
    if IsSet(ancestor) {
      EdgesBookkeeping(t, ancestor, v, lineNumber, FD.FeatureDataOf(v.edgeLabel));
    }
    var u := EdgesOf(t, ancestor, v, lineNumber).value;
    WriteSlotKeeps(u, ref, v.indent, Slot(v));
    if !v.closes {
      assert u.stack == s.stack + [[]];
      var w := WriteSlot(u, ref, v.indent, Slot(v));
      match ref
      case OnStack(k) =>
        assert k == |s.stack| - 1;
        if k < |u.stack| {
          assert w.stack[|s.stack|] == u.stack[|s.stack|];
        }
      case Orphan =>
      case Detached =>
    }
  }

  /**
   * The edges of a content line, by what its parent slot holds: none for
   * no parent; for a parent node, an immediate edge to the declared node and
   * a pending edge to each pointer; for parent pointers, pending edges only.
   */
  lemma EdgesOfLine(s: ScanState, v: LineView, lineNumber: nat)
    requires v.Content? && ContentStep(s, v, lineNumber).Success?
    ensures var t := ContentStep(s, v, lineNumber).value;
            var parent := ParentBelow(ScopeOf(s, CurrentRef(s)), v.indent);
            var edge := FD.FeatureDataOf(v.edgeLabel);
            (!IsSet(parent) ==> t.edges == s.edges && t.unresolved == s.unresolved)
            && (IsSet(parent) && parent.NodeId? ==>
                  t.edges == s.edges + (if v.declares then [Edge(parent.id, v.id, EdgeData(ImmediateEdgeId(parent.id, v.id, edge), edge), lineNumber)] else [])
                  && t.unresolved == s.unresolved + ToPointers(Ref(parent.id), v.pointers, lineNumber, edge))
            && (parent.Pointers? ==>
                  t.edges == s.edges
                  && t.unresolved == s.unresolved + FromPointers(parent.pointers, v.declares, v.id, v.pointers, lineNumber, edge))
  {
    var ref := CurrentRef(s);
    var t := Register(s, v, lineNumber);
    var parent := ParentBelow(ScopeOf(s, ref), v.indent);
    WriteSlotKeeps(EdgesOf(t, parent, v, lineNumber).value, ref, v.indent, Slot(v));
  }

  /** An immediate edge whose id is taken fails the line with DUPLICATE_EDGE_ID. */
  lemma DuplicateImmediateEdge(s: ScanState, v: LineView, lineNumber: nat)
    requires v.Content? && v.declares && v.id !in s.nodeIds
    requires var parent := ParentBelow(ScopeOf(s, CurrentRef(s)), v.indent);
             IsSet(parent) && parent.NodeId?
             && Str(ImmediateEdgeId(parent.id, v.id, FD.FeatureDataOf(v.edgeLabel))) in s.edgeIds
    ensures var r := ContentStep(s, v, lineNumber);
            r.Failure? && r.error.code == DUPLICATE_EDGE_ID
            && r.error.startLineNumber == lineNumber && r.error.endLineNumber == lineNumber
  {
  }

  /** After a zero-indent pointer line, every deeper line has those pointers as its parent. */
  lemma PointerLineScope(s: ScanState, closes: bool, pointers: seq<Pointer>, lineNumber: nat, indent: nat)
    requires 1 <= indent
    ensures var t := Step(s, SourcePointers(closes, pointers), lineNumber).value;
            ScopeOf(t, CurrentRef(t)) == [Pointers(pointers)]
            && ParentBelow(ScopeOf(t, CurrentRef(t)), indent) == Pointers(pointers)
  {
    var t := Step(s, SourcePointers(closes, pointers), lineNumber).value;
    ParentBelowSpec([Pointers(pointers)], indent);
    assert IsSet(SlotAt([Pointers(pointers)], 0));
  }

  /** The pending edges from one source are one per target pointer, in order. */
  lemma {:induction false} ToPointersSpec(source: Endpoint, targets: seq<Pointer>, lineNumber: nat, edge: FD.Features)
    ensures forall j :: 0 <= j < |targets| ==>
              ToPointers(source, targets, lineNumber, edge)[j] == Pending(source, Ptr(targets[j]), lineNumber, edge)
    decreases |targets|
  {
    if |targets| > 0 {
      var init := targets[..|targets| - 1];
      ToPointersSpec(source, init, lineNumber, edge);
    }
  }

  /**
   * Under a pointer parent, each source pointer queues one pending edge for
   * the declared node, when there is one, and one per pointer of the line.
   */
  lemma {:induction false} FromPointersCount(sources: seq<Pointer>, declares: bool, id: string, targets: seq<Pointer>,
                                             lineNumber: nat, edge: FD.Features)
    ensures |FromPointers(sources, declares, id, targets, lineNumber, edge)|
            == |sources| * ((if declares then 1 else 0) + |targets|)
    decreases |sources|
  {
    if |sources| > 0 {
      var n := |sources|;
      var k := (if declares then 1 else 0) + |targets|;
      FromPointersCount(sources[..n - 1], declares, id, targets, lineNumber, edge);
      assert |FromSource(sources[n - 1], declares, id, targets, lineNumber, edge)| == k;
      assert (n - 1) * k + k == n * k;
    }
  }

  /** Under a pointer parent, each (source pointer, target pointer) pair has its pending edge. */
  lemma {:induction false} FromPointersPairs(sources: seq<Pointer>, declares: bool, id: string, targets: seq<Pointer>,
                                             lineNumber: nat, edge: FD.Features)
    ensures var r := FromPointers(sources, declares, id, targets, lineNumber, edge);
            forall i, j :: 0 <= i < |sources| && 0 <= j < |targets| ==>
              Pending(Ptr(sources[i]), Ptr(targets[j]), lineNumber, edge) in r
    decreases |sources|
  {
    if |sources| > 0 {
      var n := |sources|;
      var init := sources[..n - 1];
      var r := FromPointers(sources, declares, id, targets, lineNumber, edge);
      var a := FromPointers(init, declares, id, targets, lineNumber, edge);
      var own: seq<Unresolved> := if declares then [Pending(Ptr(sources[n - 1]), Ref(id), lineNumber, edge)] else [];
      var b := own + ToPointers(Ptr(sources[n - 1]), targets, lineNumber, edge);
      FromPointersPairs(init, declares, id, targets, lineNumber, edge);
      ToPointersSpec(Ptr(sources[n - 1]), targets, lineNumber, edge);
      assert r == a + b;
      forall i, j | 0 <= i < n && 0 <= j < |targets|
        ensures Pending(Ptr(sources[i]), Ptr(targets[j]), lineNumber, edge) in r
      {
        if i < n - 1 {
          assert init[i] == sources[i];
          assert Pending(Ptr(sources[i]), Ptr(targets[j]), lineNumber, edge) in a;
        } else {
          assert b[|own| + j] == Pending(Ptr(sources[i]), Ptr(targets[j]), lineNumber, edge);
        }
      }
    }
  }

  /** Under a pointer parent, a declared node gets a pending edge from each source pointer. */
  lemma {:induction false} FromPointersToNode(sources: seq<Pointer>, id: string, targets: seq<Pointer>,
                                              lineNumber: nat, edge: FD.Features)
    ensures var r := FromPointers(sources, true, id, targets, lineNumber, edge);
            forall i :: 0 <= i < |sources| ==> Pending(Ptr(sources[i]), Ref(id), lineNumber, edge) in r
    decreases |sources|
  {
    if |sources| > 0 {
      var n := |sources|;
      var init := sources[..n - 1];
      var r := FromPointers(sources, true, id, targets, lineNumber, edge);
      var a := FromPointers(init, true, id, targets, lineNumber, edge);
      var b := FromSource(sources[n - 1], true, id, targets, lineNumber, edge);
      FromPointersToNode(init, id, targets, lineNumber, edge);
      assert r == a + b;
      forall i | 0 <= i < n
        ensures Pending(Ptr(sources[i]), Ref(id), lineNumber, edge) in r
      {
        if i < n - 1 {
          assert init[i] == sources[i];
          assert Pending(Ptr(sources[i]), Ref(id), lineNumber, edge) in a;
        } else {
          assert b[0] == Pending(Ptr(sources[i]), Ref(id), lineNumber, edge);
        }
      }
    }
  }

  // ---------------------------------------------------------------------------
  // Resolution

  /** `filter` keeps exactly the matching entries. */
  lemma {:induction false} SelectSpec(entities: seq<Data>, e: Endpoint)
    ensures forall d :: d in Select(entities, e) <==> d in entities && Matches(d, e)
    decreases |entities|
  {
    if |entities| > 0 {
      SelectSpec(entities[1..], e);
      assert entities == [entities[0]] + entities[1..];
    }
  }

  lemma {:induction false} FreshFromMinimal(source: string, target: string, ids: seq<Descriptor>, inc: nat)
    requires 1 <= inc
    requires forall m :: 1 <= m < inc ==> Str(Candidate(source, target, m)) in ids
    ensures forall m :: 1 <= m < FreshFrom(source, target, ids, inc) ==> Str(Candidate(source, target, m)) in ids
    decreases |ids| + 1 - inc
  {
    if Str(Candidate(source, target, inc)) in ids {
      CandidatesFit(source, target, ids, inc);
      FreshFromMinimal(source, target, ids, inc + 1);
    }
  }

  /** A generated edge id is `<source>-<target>-<n>` for the least `n >= 1` whose id is not taken. */
  lemma FreshEdgeIdSpec(source: string, target: string, ids: seq<Descriptor>)
    ensures Str(FreshEdgeId(source, target, ids)) !in ids
    ensures exists n: nat :: 1 <= n && FreshEdgeId(source, target, ids) == Candidate(source, target, n)
                             && forall m :: 1 <= m < n ==> Str(Candidate(source, target, m)) in ids
  {
    var n := FreshFrom(source, target, ids, 1);
    FreshFromMinimal(source, target, ids, 1);
    assert FreshEdgeId(source, target, ids) == Candidate(source, target, n);
  }

  /** The data of a resolved edge: the edge label's attributes win over its id and classes, and the `label` key is set last, so its value wins. */
  lemma PendingDataSpec(u: Unresolved)
    requires DistinctKeys(u.otherData)
    ensures Get(PendingData(u), "label") == Some(Str(u.edgeLabel))
    ensures Get(PendingData(u), "id") == (if HasKey(u.otherData, "id") then Get(u.otherData, "id") else Some(Str(u.id)))
  {
    var base: Data := [("id", Str(u.id)), ("classes", Str(u.classes))];
    KeyIndexIs(base, "id", 0);
    GetAssign(base, u.otherData, "id");
    GetSet(Assign(base, u.otherData), "label", Str(u.edgeLabel), "id");
  }

  /** A pair whose edge needs a generated id always becomes an edge. */
  lemma GeneratedIdNeverClashes(lines: seq<string>, u: Unresolved, sd: Data, td: Data, acc: Resolved)
    requires !HasTruthyId(PendingData(u))
    ensures var r := ResolvePair(lines, u, sd, td, acc);
            r.Success? && r.value.edges == acc.edges + [Edge(IdText(sd), IdText(td), PairData(u, IdText(sd), IdText(td), acc.edgeIds), u.lineNumber)]
  {
    FreshEdgeIdSpec(IdText(sd), IdText(td), acc.edgeIds);
  }

  /** A failure of the resolution: a taken edge id on an existing line. */
  predicate IsResolveError(e: ParseError, lines: seq<string>) {
    e.name == "ParseError" && e.code == DUPLICATE_EDGE_ID
    && e.startLineNumber == e.endLineNumber && 1 <= e.startLineNumber <= |lines|
  }

  /** `next` adds edges to `acc`, one new edge id per new edge. */
  predicate Extends(acc: Resolved, next: Resolved) {
    |acc.edges| <= |next.edges| && |acc.edgeIds| <= |next.edgeIds|
    && |next.edges| - |acc.edges| == |next.edgeIds| - |acc.edgeIds|
    && next.edges[..|acc.edges|] == acc.edges && next.edgeIds[..|acc.edgeIds|] == acc.edgeIds
  }

  lemma ExtendsTrans(a: Resolved, b: Resolved, c: Resolved)
    requires Extends(a, b) && Extends(b, c)
    ensures Extends(a, c)
  {
    assert c.edges[..|a.edges|] == c.edges[..|b.edges|][..|a.edges|];
    assert c.edgeIds[..|a.edgeIds|] == c.edgeIds[..|b.edgeIds|][..|a.edgeIds|];
  }

  /**
   * One pair adds one edge under an id not yet taken, or is dropped because
   * its id is taken and its line is empty, or fails on its own line.
   */
  lemma ResolvePairSpec(lines: seq<string>, u: Unresolved, sd: Data, td: Data, acc: Resolved)
    requires Distinct(acc.edgeIds)
    ensures var r := ResolvePair(lines, u, sd, td, acc);
            var d := PairData(u, IdText(sd), IdText(td), acc.edgeIds);
            (r.Failure? ==> IsResolveError(r.error, lines) && r.error.startLineNumber == u.lineNumber
                            && Get(d, "id").value in acc.edgeIds)
            && (r.Success? ==> Distinct(r.value.edgeIds) && Extends(acc, r.value))
            && (r.Success? && r.value != acc ==>
                  r.value.edges == acc.edges + [Edge(IdText(sd), IdText(td), d, u.lineNumber)]
                  && r.value.edgeIds == acc.edgeIds + [Get(d, "id").value] && Get(d, "id").value !in acc.edgeIds)
            && (r == Success(acc) ==> Get(d, "id").value in acc.edgeIds && LineAt(lines, u.lineNumber) == "")
  {
    var d := PairData(u, IdText(sd), IdText(td), acc.edgeIds);
    var id := Get(d, "id").value;
    if id !in acc.edgeIds {
      DistinctSnoc(acc.edgeIds, id);
      var next := Resolved(acc.edges + [Edge(IdText(sd), IdText(td), d, u.lineNumber)], acc.edgeIds + [id]);
      assert next.edges[..|acc.edges|] == acc.edges;
      assert next.edgeIds[..|acc.edgeIds|] == acc.edgeIds;
      assert next != acc by { assert |next.edges| != |acc.edges|; }
    } else {
      assert acc.edges[..|acc.edges|] == acc.edges;
      assert acc.edgeIds[..|acc.edgeIds|] == acc.edgeIds;
    }
  }

  lemma {:induction false} ResolveTargetsSpec(lines: seq<string>, u: Unresolved, sd: Data, targets: seq<Data>, j: nat,
                                              acc: Resolved)
    requires j <= |targets| && Distinct(acc.edgeIds)
    ensures var r := ResolveTargets(lines, u, sd, targets, j, acc);
            (r.Failure? ==> IsResolveError(r.error, lines))
            && (r.Success? ==> Distinct(r.value.edgeIds) && Extends(acc, r.value))
    decreases |targets| - j
  {
    if j == |targets| {
      assert acc.edges[..|acc.edges|] == acc.edges;
      assert acc.edgeIds[..|acc.edgeIds|] == acc.edgeIds;
    } else {
      ResolvePairSpec(lines, u, sd, targets[j], acc);
      match ResolvePair(lines, u, sd, targets[j], acc)
      case Failure(e) =>
      case Success(next) =>
        ResolveTargetsSpec(lines, u, sd, targets, j + 1, next);
        var r := ResolveTargets(lines, u, sd, targets, j + 1, next);
        if r.Success? {
          ExtendsTrans(acc, next, r.value);
        }
    }
  }

  lemma {:induction false} ResolveSourcesSpec(lines: seq<string>, u: Unresolved, sources: seq<Data>, targets: seq<Data>,
                                              i: nat, acc: Resolved)
    requires i <= |sources| && Distinct(acc.edgeIds)
    ensures var r := ResolveSources(lines, u, sources, targets, i, acc);
            (r.Failure? ==> IsResolveError(r.error, lines))
            && (r.Success? ==> Distinct(r.value.edgeIds) && Extends(acc, r.value))
    decreases |sources| - i
  {
    if i == |sources| {
      assert acc.edges[..|acc.edges|] == acc.edges;
      assert acc.edgeIds[..|acc.edgeIds|] == acc.edgeIds;
    } else {
      ResolveTargetsSpec(lines, u, sources[i], targets, 0, acc);
      match ResolveTargets(lines, u, sources[i], targets, 0, acc)
      case Failure(e) =>
      case Success(next) =>
        ResolveSourcesSpec(lines, u, sources, targets, i + 1, next);
        var r := ResolveSources(lines, u, sources, targets, i + 1, next);
        if r.Success? {
          ExtendsTrans(acc, next, r.value);
        }
    }
  }

  /**
   * The resolution keeps the edge ids distinct, keeps the edges it started
   * with and adds one edge id per edge; it fails only on a taken id, naming
   * an existing line.
   */
  lemma {:induction false} ResolveFromSpec(lines: seq<string>, pending: seq<Unresolved>, k: nat, nodes: seq<Node>,
                                           acc: Resolved)
    requires k <= |pending| && Distinct(acc.edgeIds)
    ensures var r := ResolveFrom(lines, pending, k, nodes, acc);
            (r.Failure? ==> IsResolveError(r.error, lines))
            && (r.Success? ==> Distinct(r.value.edgeIds) && Extends(acc, r.value))
    decreases |pending| - k
  {
    if k == |pending| {
      assert acc.edges[..|acc.edges|] == acc.edges;
      assert acc.edgeIds[..|acc.edgeIds|] == acc.edgeIds;
    } else {
      var u := pending[k];
      var sources := Candidates(u.source, nodes, acc.edges);
      var targets := Candidates(u.target, nodes, acc.edges);
      if |sources| == 0 || |targets| == 0 {
        assert ResolveFrom(lines, pending, k, nodes, acc) == ResolveFrom(lines, pending, k + 1, nodes, acc);
        ResolveFromSpec(lines, pending, k + 1, nodes, acc);
      } else {
        ResolveSourcesSpec(lines, u, sources, targets, 0, acc);
        match ResolveSources(lines, u, sources, targets, 0, acc)
        case Failure(e) =>
        case Success(next) =>
          assert ResolveFrom(lines, pending, k, nodes, acc) == ResolveFrom(lines, pending, k + 1, nodes, next);
          ResolveFromSpec(lines, pending, k + 1, nodes, next);
          var r := ResolveFrom(lines, pending, k + 1, nodes, next);
          if r.Success? {
            ExtendsTrans(acc, next, r.value);
          }
      }
    }
  }

  // ---------------------------------------------------------------------------
  // The whole parse

  /**
   * `parse` fails with a `ParseError` naming one existing line as start and
   * end line and carrying one of the six codes. When it succeeds, its nodes
   * are those of a scan that keeps `ScanInv`: they come in line order, the
   * id registry holds no non-empty id twice, and the immediate edges join
   * registered ids. The edges of the result start with those immediate
   * edges. The `id` in a node's data is its registered id only when the
   * line's attributes do not set `id` (`NodeDataSpec`).
   */
  lemma ParseLinesSpec(lines: seq<string>)
    ensures var r := ParseLines(lines);
            (r.Failure? ==> r.error.name == "ParseError" && IsParseCode(r.error.code)
                            && 1 <= r.error.startLineNumber == r.error.endLineNumber <= |lines|)
            && (r.Success? ==>
                  LinesUpTo(r.value.nodes, |lines|)
                  && exists s :: ScanFrom(ViewsOf(lines), 0, Init) == Success(s) && ScanInv(s, |lines|)
                                 && r.value.nodes == s.nodes
                                 && |s.edges| <= |r.value.edges| && r.value.edges[..|s.edges|] == s.edges)
  {
    var views := ViewsOf(lines);
    ViewsOfOk(lines);
    ScanSpec(views, 0, Init);
    match ScanFrom(views, 0, Init)
    case Failure(e) =>
    case Success(s) =>
      ResolveFromSpec(lines, s.unresolved, 0, s.nodes, Resolved(s.edges, s.edgeIds));
  }

  /** `parse` on a text: the properties above over the text's lines. */
  lemma ParseSpec(text: string)
    ensures var r := ParseOf(text);
            var lines := Lines(text);
            (r.Failure? ==> r.error.name == "ParseError" && IsParseCode(r.error.code)
                            && 1 <= r.error.startLineNumber == r.error.endLineNumber <= |lines|)
            && (r.Success? ==>
                  LinesUpTo(r.value.nodes, |lines|)
                  && exists s :: ScanFrom(ViewsOf(lines), 0, Init) == Success(s) && ScanInv(s, |lines|)
                                 && r.value.nodes == s.nodes
                                 && |s.edges| <= |r.value.edges| && r.value.edges[..|s.edges|] == s.edges)
  {
    ParseLinesSpec(Lines(text));
  }
}
