/**
 * The value types of the graph-selector library: descriptors, the data
 * object of a node or an edge, nodes, edges, graphs and pointers.
 *
 * A JavaScript object used as a dictionary is a sequence of (key, value)
 * entries with distinct keys, in insertion order: assigning to an existing
 * key overwrites its value in place, assigning to a new key appends it.
 */
module Types {
  import opened JsString
  import JsNumber

  datatype Option<T> = None | Some(value: T)

  datatype Result<T, E> = Success(value: T) | Failure(error: E)

  /** `string | number | boolean`; a number keeps the literal text it was read from. */
  datatype Descriptor = Str(s: string) | Num(literal: string) | Bool(b: bool)

  /** JavaScript truthiness of a descriptor. */
  predicate Truthy(d: Descriptor) {
    match d
    case Str(s) => s != ""
    case Num(l) => !(JsNumber.IsNumeric(l) && JsNumber.IsZero(l))
    case Bool(b) => b
  }

  /** A data object: entries in insertion order. */
  type Data = seq<(string, Descriptor)>

  function Keys(d: Data): (r: seq<string>)
    ensures |r| == |d|
    ensures forall i :: 0 <= i < |d| ==> r[i] == d[i].0
  {
    if |d| == 0 then [] else [d[0].0] + Keys(d[1..])
  }

  predicate DistinctKeys(d: Data) {
    forall i, j :: 0 <= i < j < |d| ==> d[i].0 != d[j].0
  }

  predicate HasKey(d: Data, k: string) {
    exists i :: 0 <= i < |d| && d[i].0 == k
  }

  /** Position of the first entry with key `k`, or `|d|` when there is none. */
  function KeyIndex(d: Data, k: string): (r: nat)
    ensures r <= |d|
    ensures r < |d| ==> d[r].0 == k
  {
    if |d| == 0 then 0
    else if d[0].0 == k then 0
    else 1 + KeyIndex(d[1..], k)
  }

  /** No entry before the index has the key, and the index is `|d|` exactly when no entry has it. */
  lemma {:induction false} KeyIndexFirst(d: Data, k: string)
    ensures forall i :: 0 <= i < KeyIndex(d, k) ==> d[i].0 != k
    ensures KeyIndex(d, k) == |d| <==> !HasKey(d, k)
  {
    if |d| > 0 && d[0].0 != k {
      KeyIndexFirst(d[1..], k);
      assert forall i :: 0 <= i < |d| - 1 ==> d[1..][i] == d[i + 1];
      if HasKey(d, k) {
        var i :| 0 <= i < |d| && d[i].0 == k;
        assert d[1..][i - 1].0 == k;
      }
    }
  }

  lemma {:induction false} KeyIndexIs(d: Data, k: string, i: nat)
    requires i <= |d| && (i < |d| ==> d[i].0 == k)
    requires forall j :: 0 <= j < i ==> d[j].0 != k
    ensures KeyIndex(d, k) == i
  {
    if i > 0 {
      assert forall j :: 0 <= j < i - 1 ==> d[1..][j] == d[j + 1];
      KeyIndexIs(d[1..], k, i - 1);
    }
  }

  /** `d[k]`. */
  function Get(d: Data, k: string): Option<Descriptor> {
    var i := KeyIndex(d, k);
    if i < |d| then Some(d[i].1) else None
  }

  /** `d[k]` is undefined exactly when no entry has the key; with distinct keys it is the value of that entry. */
  lemma GetSpec(d: Data, k: string, v: Descriptor)
    ensures Get(d, k).None? <==> !HasKey(d, k)
    ensures Get(d, k) == Some(v) ==> (k, v) in d
    ensures DistinctKeys(d) && (k, v) in d ==> Get(d, k) == Some(v)
  {
    KeyIndexFirst(d, k);
    if DistinctKeys(d) && (k, v) in d {
      var j :| 0 <= j < |d| && d[j] == (k, v);
      KeyIndexIs(d, k, j);
    }
  }

  /** Reading an object literal with three distinct keys. */
  lemma GetTriple(k1: string, v1: Descriptor, k2: string, v2: Descriptor, k3: string, v3: Descriptor)
    requires k1 != k2 && k1 != k3 && k2 != k3
    ensures var d: Data := [(k1, v1), (k2, v2), (k3, v3)];
            Get(d, k1) == Some(v1) && Get(d, k2) == Some(v2) && Get(d, k3) == Some(v3)
  {
    var d: Data := [(k1, v1), (k2, v2), (k3, v3)];
    KeyIndexIs(d, k1, 0);
    KeyIndexIs(d, k2, 1);
    KeyIndexIs(d, k3, 2);
  }

  /** The value at key `k` when it is a string, "" otherwise (a `FeatureData` field). */
  function GetText(d: Data, k: string): string {
    match Get(d, k)
    case Some(Str(s)) => s
    case _ => ""
  }

  /** `d[k] = v`: overwrite the entry in place, or append a new one. */
  function Set(d: Data, k: string, v: Descriptor): (r: Data)
    ensures Get(r, k) == Some(v)
  {
    var i := KeyIndex(d, k);
    var r := if i < |d| then d[i := (k, v)] else d + [(k, v)];
    KeyIndexFirst(d, k);
    KeyIndexIs(r, k, i);
    r
  }

  /** Assigning one key leaves every other key as it was. */
  lemma GetSet(d: Data, k: string, v: Descriptor, k': string)
    requires k' != k
    ensures Get(Set(d, k, v), k') == Get(d, k')
  {
    var i := KeyIndex(d, k);
    var r := Set(d, k, v);
    assert forall j :: 0 <= j < |d| && j != i ==> r[j] == d[j];
    var i' := KeyIndex(d, k');
    KeyIndexFirst(d, k');
    if i' < |d| {
      KeyIndexIs(r, k', i');
    } else {
      KeyIndexIs(r, k', |r|);
    }
  }

  /** Assigning an existing key keeps the key order; assigning a new key appends the entry. */
  lemma SetKeys(d: Data, k: string, v: Descriptor)
    ensures HasKey(d, k) ==> Keys(Set(d, k, v)) == Keys(d)
    ensures !HasKey(d, k) ==> Set(d, k, v) == d + [(k, v)]
  {
    KeyIndexFirst(d, k);
  }

  /** Assignment keeps the keys distinct. */
  lemma SetDistinct(d: Data, k: string, v: Descriptor)
    requires DistinctKeys(d)
    ensures DistinctKeys(Set(d, k, v))
  {
    KeyIndexFirst(d, k);
  }

  /** `delete d[k]`. */
  function Remove(d: Data, k: string): (r: Data)
    requires DistinctKeys(d)
    ensures Get(r, k).None?
  {
    var i := KeyIndex(d, k);
    if i == |d| then d
    else
      var r := d[..i] + d[i + 1..];
      KeyIndexFirst(d, k);
      assert forall j :: 0 <= j < i ==> r[j] == d[j];
      assert forall j :: i <= j < |r| ==> r[j] == d[j + 1];
      KeyIndexIs(r, k, |r|);
      r
  }

  /** Deleting a key keeps every other key, keeps the keys distinct and adds no entry. */
  lemma RemoveSpec(d: Data, k: string, k': string)
    requires DistinctKeys(d)
    ensures k' != k ==> Get(Remove(d, k), k') == Get(d, k')
    ensures DistinctKeys(Remove(d, k))
    ensures forall i :: 0 <= i < |Remove(d, k)| ==> Remove(d, k)[i] in d
    ensures !HasKey(d, k) ==> Remove(d, k) == d
  {
    var i := KeyIndex(d, k);
    var r := Remove(d, k);
    KeyIndexFirst(d, k);
    KeyIndexFirst(d, k');
    if i < |d| {
      assert forall j :: 0 <= j < i ==> r[j] == d[j];
      assert forall j :: i <= j < |r| ==> r[j] == d[j + 1];
      var i' := KeyIndex(d, k');
      if k' != k {
        if i' < i {
          KeyIndexIs(r, k', i');
        } else if i' < |d| {
          KeyIndexIs(r, k', i' - 1);
        } else {
          KeyIndexIs(r, k', |r|);
        }
      }
    }
  }

  /** `const {k1, k2, ...rest} = d`: the entries whose key is not one of `keys`, in order. */
  function Without(d: Data, keys: set<string>): (r: Data)
    ensures |r| <= |d|
  {
    if |d| == 0 then [] else (if d[0].0 in keys then [] else [d[0]]) + Without(d[1..], keys)
  }

  /** The rest object has no entry for the removed keys and the original value for every other key. */
  lemma {:induction false} GetWithout(d: Data, keys: set<string>, k: string)
    ensures Get(Without(d, keys), k) == if k in keys then None else Get(d, k)
    decreases |d|
  {
    if |d| > 0 {
      GetWithout(d[1..], keys, k);
      var w := Without(d[1..], keys);
      assert d == [d[0]] + d[1..];
      GetCons(d[0], d[1..], k);
      if d[0].0 !in keys {
        GetCons(d[0], w, k);
      } else {
        assert Without(d, keys) == w;
      }
    }
  }

  /** Reading an object whose first entry is `x`. */
  lemma GetCons(x: (string, Descriptor), w: Data, k: string)
    ensures Get([x] + w, k) == if x.0 == k then Some(x.1) else Get(w, k)
  {
    assert ([x] + w)[1..] == w;
  }

  lemma {:induction false} WithoutDistinct(d: Data, keys: set<string>)
    requires DistinctKeys(d)
    ensures DistinctKeys(Without(d, keys))
    ensures forall i :: 0 <= i < |Without(d, keys)| ==> Without(d, keys)[i] in d
    decreases |d|
  {
    if |d| > 0 {
      assert forall i :: 0 <= i < |d| - 1 ==> d[1..][i] == d[i + 1];
      WithoutDistinct(d[1..], keys);
    }
  }

  /** `{...d, ...src}`: the entries of `src` assigned onto `d` in order. */
  function Assign(d: Data, src: Data): Data
    decreases |src|
  {
    if |src| == 0 then d
    else Assign(Set(d, src[0].0, src[0].1), src[1..])
  }

  lemma {:induction false} AssignDistinct(d: Data, src: Data)
    requires DistinctKeys(d)
    ensures DistinctKeys(Assign(d, src))
    decreases |src|
  {
    if |src| > 0 {
      SetDistinct(d, src[0].0, src[0].1);
      AssignDistinct(Set(d, src[0].0, src[0].1), src[1..]);
    }
  }

  /** After `{...d, ...src}` a key holds its value from `src` if `src` has it, else its value from `d`. */
  lemma {:induction false} GetAssign(d: Data, src: Data, k: string)
    requires DistinctKeys(src)
    ensures Get(Assign(d, src), k) == if HasKey(src, k) then Get(src, k) else Get(d, k)
    decreases |src|
  {
    if |src| > 0 {
      var d' := Set(d, src[0].0, src[0].1);
      if k != src[0].0 { GetSet(d, src[0].0, src[0].1, k); }
      assert forall i :: 0 <= i < |src| - 1 ==> src[1..][i] == src[i + 1];
      assert DistinctKeys(src[1..]);
      GetAssign(d', src[1..], k);
      KeyIndexFirst(src, k);
      KeyIndexFirst(src[1..], k);
      if k == src[0].0 {
        assert !HasKey(src[1..], k);
      } else {
        assert HasKey(src, k) <==> HasKey(src[1..], k);
        assert KeyIndex(src, k) == 1 + KeyIndex(src[1..], k);
      }
    }
  }

  /** The kind of a pointer: `"id" | "class" | "label"`. */
  datatype PointerType = IdPointer | ClassPointer | LabelPointer

  /** `[PointerType, string]`: a reference to features by id, class or label. */
  datatype Pointer = Pointer(kind: PointerType, value: string)

  /** A node: its data and the 1-indexed line it was declared on. */
  datatype Node = Node(data: Data, lineNumber: nat)

  /** An edge between two feature ids, with its data and the line it came from. */
  datatype Edge = Edge(source: string, target: string, data: Data, lineNumber: nat)

  datatype Graph = Graph(nodes: seq<Node>, edges: seq<Edge>)

  /** The text a descriptor prints as in a template literal. */
  function DescriptorText(d: Descriptor): string {
    match d
    case Str(s) => s
    case Num(l) => l
    case Bool(b) => if b then "true" else "false"
  }

  /** `FeatureData`: `id`, `classes` and `label` are present and hold strings. */
  predicate IsFeatureData(d: Data) {
    Get(d, "id").Some? && Get(d, "id").value.Str? &&
    Get(d, "classes").Some? && Get(d, "classes").value.Str? &&
    Get(d, "label").Some? && Get(d, "label").value.Str?
  }

  /** The values the `Graph` type promises: every node and edge carries `FeatureData`. */
  predicate IsFeatureGraph(g: Graph) {
    (forall i :: 0 <= i < |g.nodes| ==> IsFeatureData(g.nodes[i].data))
    && (forall i :: 0 <= i < |g.edges| ==> IsFeatureData(g.edges[i].data))
  }
}
