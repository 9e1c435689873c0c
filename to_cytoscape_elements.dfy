/**
 * `toCytoscapeElements`: a parsed graph as the element list the Cytoscape
 * renderer takes. Every node, then every edge, becomes one element whose
 * `classes` are the dotted class list with its dots turned into spaces and
 * whose data is the rest of the feature's data; an edge's data starts with
 * its `source` and `target`.
 */
module ToCytoscape {
  import opened JsString
  import opened Types

  /** `ElementDefinition`: the space-separated classes and the data object. */
  datatype Element = Element(classes: string, data: Data)

  /**
   * `const { classes = "" } = data` followed by a call of `split` on it:
   * the classes are absent or a string (a number or a boolean has no
   * `split`, so the call would throw).
   */
  predicate UsableClasses(d: Data) {
    Get(d, "classes").None? || Get(d, "classes").value.Str?
  }

  predicate UsableGraph(g: Graph) {
    (forall i :: 0 <= i < |g.nodes| ==> UsableClasses(g.nodes[i].data))
    && (forall i :: 0 <= i < |g.edges| ==> UsableClasses(g.edges[i].data))
  }

  /** The `classes` string, `""` when the key is absent. */
  function ClassesOf(d: Data): string {
    match Get(d, "classes")
    case Some(Str(s)) => s
    case _ => ""
  }

  /** `_classes.split(".").join(" ")`. */
  function ClassNames(c: string): string {
    Join(Split(c, '.'), " ")
  }

  /** The character-by-character reading: every dot becomes a space. */
  function DotsToSpaces(s: string): (r: string)
    ensures |r| == |s|
  {
    seq(|s|, i requires 0 <= i < |s| => if s[i] == '.' then ' ' else s[i])
  }

  /** Splitting on dots and joining with spaces replaces each dot by a space and changes nothing else. */
  lemma {:induction false} ClassNamesSpec(c: string)
    ensures ClassNames(c) == DotsToSpaces(c)
    decreases |c|
  {
    var i := Find(c, '.');
    if i == |c| {
      assert forall k :: 0 <= k < |c| ==> c[k] != '.';
    } else {
      var head, tail := c[..i], c[i + 1..];
      ClassNamesSpec(tail);
      var parts := Split(tail, '.');
      assert Split(c, '.') == [head] + parts;
      assert ([head] + parts)[1..] == parts;
      assert ClassNames(c) == head + " " + DotsToSpaces(tail);
      var r := head + " " + DotsToSpaces(tail);
      forall k | 0 <= k < |c|
        ensures r[k] == DotsToSpaces(c)[k]
      {
        if k > i {
          assert r[k] == DotsToSpaces(tail)[k - i - 1];
          assert tail[k - i - 1] == c[k];
        }
      }
    }
  }

  /** The element classes hold no dot and are as long as the class list. */
  lemma ClassNamesShape(c: string)
    ensures |ClassNames(c)| == |c|
    ensures '.' !in ClassNames(c)
  {
    ClassNamesSpec(c);
  }

  // ---------------------------------------------------------------------------
  // Elements

  /** `{ classes, data: { ...rest } }` for a node. */
  function NodeElement(n: Node): Element {
    Element(ClassNames(ClassesOf(n.data)), Without(n.data, {"classes"}))
  }

  /** The start of an edge's data: `{ source, target }`. */
  function Ends(e: Edge): Data {
    [("source", Str(e.source)), ("target", Str(e.target))]
  }

  /** `{ classes, data: { source, target, ...rest } }` for an edge. */
  function EdgeElement(e: Edge): Element {
    Element(ClassNames(ClassesOf(e.data)), Assign(Ends(e), Without(e.data, {"classes"})))
  }

  function NodeElements(nodes: seq<Node>): seq<Element> {
    MapSeq(nodes, NodeElement)
  }

  function EdgeElements(edges: seq<Edge>): seq<Element> {
    MapSeq(edges, EdgeElement)
  }

  /** The elements of a graph: none when there is no graph, else the nodes' then the edges'. */
  function Elements(parsed: Option<Graph>): seq<Element>
    requires parsed.Some? ==> UsableGraph(parsed.value)
  {
    match parsed
    case None => []
    case Some(g) => NodeElements(g.nodes) + EdgeElements(g.edges)
  }

  /** One more step of a mapping loop appends the image of the next input. */
  lemma SnocStep<A, B>(xs: seq<A>, i: nat, f: A -> B)
    requires i < |xs|
    ensures MapSeq(xs[..i + 1], f) == MapSeq(xs[..i], f) + [f(xs[i])]
  {
    assert xs[..i + 1][..i] == xs[..i];
  }

  /** `toCytoscapeElements`. */
  method ToCytoscapeElements(parsed: Option<Graph>) returns (elements: seq<Element>)
    requires parsed.Some? ==> UsableGraph(parsed.value)
    ensures elements == Elements(parsed)
  {
    elements := [];
    if parsed.None? {
      return;
    }
    var g := parsed.value;
    for i := 0 to |g.nodes|
      invariant elements == NodeElements(g.nodes[..i])
    {
      SnocStep(g.nodes, i, NodeElement);
      var n := g.nodes[i];
      elements := elements + [Element(ClassNames(ClassesOf(n.data)), Without(n.data, {"classes"}))];
    }
    assert g.nodes[..|g.nodes|] == g.nodes;
    ghost var nodeElements := elements;
    for j := 0 to |g.edges|
      invariant elements == nodeElements + EdgeElements(g.edges[..j])
    {
      SnocStep(g.edges, j, EdgeElement);
      var e := g.edges[j];
      var rest := Without(e.data, {"classes"});
      elements := elements + [Element(ClassNames(ClassesOf(e.data)), Assign([("source", Str(e.source)), ("target", Str(e.target))], rest))];
    }
    assert g.edges[..|g.edges|] == g.edges;
  }

  // ---------------------------------------------------------------------------
  // Properties

  /** The front of a concatenation of two mapped sequences holds the images of the first. */
  lemma MapConcatFront<A, C>(es: seq<C>, xs: seq<A>, f: A -> C, back: seq<C>)
    requires es == MapSeq(xs, f) + back
    ensures forall k :: 0 <= k < |xs| ==> es[k] == f(xs[k])
  {
    forall k | 0 <= k < |xs|
      ensures es[k] == f(xs[k])
    {
      MapSeqAt(xs, f, k);
    }
  }

  /** The back of a concatenation of two mapped sequences holds the images of the second. */
  lemma MapConcatBack<B, C>(es: seq<C>, front: seq<C>, ys: seq<B>, g: B -> C)
    requires es == front + MapSeq(ys, g)
    ensures forall k :: 0 <= k < |ys| ==> es[|front| + k] == g(ys[k])
  {
    forall k | 0 <= k < |ys|
      ensures es[|front| + k] == g(ys[k])
    {
      MapSeqAt(ys, g, k);
    }
  }

  /** Two mapped sequences one after the other: the images of the first, then those of the second. */
  lemma MapConcatSpec<A, B, C>(es: seq<C>, xs: seq<A>, f: A -> C, ys: seq<B>, g: B -> C)
    requires es == MapSeq(xs, f) + MapSeq(ys, g)
    ensures |es| == |xs| + |ys|
    ensures forall k :: 0 <= k < |xs| ==> es[k] == f(xs[k])
    ensures forall k :: 0 <= k < |ys| ==> es[|xs| + k] == g(ys[k])
  {
    MapConcatFront(es, xs, f, MapSeq(ys, g));
    MapConcatBack(es, MapSeq(xs, f), ys, g);
  }

  /**
   * No graph gives no elements; a graph gives one element per node, in node
   * order, followed by one element per edge, in edge order.
   */
  lemma ElementsSpec(parsed: Option<Graph>)
    requires parsed.Some? ==> UsableGraph(parsed.value)
    ensures parsed.None? ==> Elements(parsed) == []
    ensures parsed.Some? ==>
              var g := parsed.value;
              |Elements(parsed)| == |g.nodes| + |g.edges|
              && (forall k :: 0 <= k < |g.nodes| ==> Elements(parsed)[k] == NodeElement(g.nodes[k]))
              && (forall k :: 0 <= k < |g.edges| ==> Elements(parsed)[|g.nodes| + k] == EdgeElement(g.edges[k]))
  {
    if parsed.Some? {
      var g := parsed.value;
      MapConcatSpec(Elements(parsed), g.nodes, NodeElement, g.edges, EdgeElement);
    }
  }

  /**
   * A node element's classes are its class list with spaces for dots, and
   * its data holds every entry of the node's data except `classes`.
   */
  lemma NodeElementSpec(n: Node, k: string)
    requires UsableClasses(n.data)
    ensures NodeElement(n).classes == DotsToSpaces(ClassesOf(n.data))
    ensures Get(NodeElement(n).data, k) == if k == "classes" then None else Get(n.data, k)
  {
    ClassNamesSpec(ClassesOf(n.data));
    GetWithout(n.data, {"classes"}, k);
  }

  /**
   * An edge element's data holds the edge's `source` and `target`, unless
   * the edge's own data has an entry of that name, which wins; every other
   * key but `classes` holds the edge's own value.
   */
  lemma EdgeElementSpec(e: Edge, k: string)
    requires UsableClasses(e.data)
    requires DistinctKeys(e.data)
    ensures EdgeElement(e).classes == DotsToSpaces(ClassesOf(e.data))
    ensures Get(EdgeElement(e).data, k) ==
              if k == "classes" then None
              else if HasKey(e.data, k) then Get(e.data, k)
              else if k == "source" then Some(Str(e.source))
              else if k == "target" then Some(Str(e.target))
              else None
  {
    ClassNamesSpec(ClassesOf(e.data));
    var rest := Without(e.data, {"classes"});
    WithoutDistinct(e.data, {"classes"});
    GetAssign(Ends(e), rest, k);
    GetWithout(e.data, {"classes"}, k);
    GetHas(rest, k);
    GetHas(e.data, k);
    GetEnds(e, k);
  }

  lemma GetEnds(e: Edge, k: string)
    ensures Get(Ends(e), k) ==
              if k == "source" then Some(Str(e.source))
              else if k == "target" then Some(Str(e.target))
              else None
  {
    var d := Ends(e);
    assert d[1..] == [("target", Str(e.target))];
    assert d[1..][1..] == [];
    if k != "source" {
      assert KeyIndex(d, k) == 1 + KeyIndex(d[1..], k);
      if k != "target" {
        assert KeyIndex(d[1..], k) == 1 + KeyIndex(d[1..][1..], k);
      }
    }
  }

  /** A key is present exactly when looking it up finds a value. */
  lemma GetHas(d: Data, k: string)
    ensures HasKey(d, k) <==> Get(d, k).Some?
  {
    KeyIndexFirst(d, k);
  }

  /** Element data keeps distinct keys. */
  lemma ElementDataDistinct(n: Node, e: Edge)
    requires DistinctKeys(n.data) && DistinctKeys(e.data)
    ensures DistinctKeys(NodeElement(n).data)
    ensures DistinctKeys(EdgeElement(e).data)
  {
    WithoutDistinct(n.data, {"classes"});
    AssignDistinct(Ends(e), Without(e.data, {"classes"}));
  }
}
