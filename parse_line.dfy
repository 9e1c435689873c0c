/**
 * The text side of `parse` (parse.ts): how the whole input is escaped and
 * cut into lines, and what one line says on its own, before any state of
 * the scan is consulted: blank, a source-pointer line, or a line with an
 * edge label, a node part and pointers; and which of the four line-level
 * errors it raises.
 */
module ParseLine {
  import opened JsString
  import opened Types
  import opened ParseErrors
  import opened RegExps
  import GI = GetIndentSize
  import FD = FeatureData
  import P = MatchAndRemovePointers

  // ---------------------------------------------------------------------------
  // Preprocessing

  /** `text.replace(/(https?:)\/\//g, "$1\\/\\/")`: the slashes of every `http://` and `https://` get a backslash each. */
  function EscapeUrls(s: string): string
    decreases |s|
  {
    if |s| == 0 then ""
    else if StartsWith(s, "http://") then "http:\\/\\/" + EscapeUrls(s[7..])
    else if StartsWith(s, "https://") then "https:\\/\\/" + EscapeUrls(s[8..])
    else [s[0]] + EscapeUrls(s[1..])
  }

  /** `line.replace(/\\n/g, "\n")`: a backslash followed by `n` becomes a line feed. */
  function UnescapeNewlines(s: string): string
    decreases |s|
  {
    if |s| == 0 then ""
    else if |s| >= 2 && s[0] == '\\' && s[1] == 'n' then "\n" + UnescapeNewlines(s[2..])
    else [s[0]] + UnescapeNewlines(s[1..])
  }

  /** The lines the scan walks over: escape the URLs, split on line feeds, unescape `\n` in each line. */
  function Lines(text: string): (lines: seq<string>)
    ensures |lines| == |Split(EscapeUrls(text), '\n')|
  {
    var parts := Split(EscapeUrls(text), '\n');
    seq(|parts|, i requires 0 <= i < |parts| => UnescapeNewlines(parts[i]))
  }

  /** The characters of the first unescaping pass: colons, parentheses, braces and brackets. */
  const BracketEscapes: set<char> := {':', '\U{FF1A}', '(', ')', '\U{FF08}', '\U{FF09}', '{', '}', '[', ']'}

  /** The characters of the second unescaping pass. */
  const MarkEscapes: set<char> := {'#', '.', '/'}

  /** `s.replace(/\\([...])/g, "$1")`: drop the backslash in front of every character of `cs`. */
  function Unescape(s: string, cs: set<char>): string
    decreases |s|
  {
    if |s| == 0 then ""
    else if |s| >= 2 && s[0] == '\\' && s[1] in cs then [s[1]] + Unescape(s[2..], cs)
    else [s[0]] + Unescape(s[1..], cs)
  }

  /** The two unescaping passes a node label goes through. */
  function UnescapeLabel(s: string): string {
    Unescape(Unescape(s, BracketEscapes), MarkEscapes)
  }

  lemma UnescapePlain(c: char, rest: string, cs: set<char>)
    requires c != '\\'
    ensures Unescape([c] + rest, cs) == [c] + Unescape(rest, cs)
  {
    assert ([c] + rest)[1..] == rest;
  }

  lemma {:induction false} UnescapePlainPrefix(p: string, rest: string, cs: set<char>)
    requires '\\' !in p
    ensures Unescape(p + rest, cs) == p + Unescape(rest, cs)
    decreases |p|
  {
    if |p| > 0 {
      assert p[0] in p;
      assert forall c :: c in p[1..] ==> c in p;
      assert p + rest == [p[0]] + (p[1..] + rest);
      UnescapePlain(p[0], p[1..] + rest, cs);
      UnescapePlainPrefix(p[1..], rest, cs);
      ConcatAssoc([p[0]], p[1..], Unescape(rest, cs));
      assert p == [p[0]] + p[1..];
    } else {
      assert p + rest == rest;
      assert p + Unescape(rest, cs) == Unescape(rest, cs);
    }
  }

  /** An escaped slash survives the first pass, which does not list `/`. */
  lemma SlashKept(rest: string)
    ensures Unescape("\\/" + rest, BracketEscapes) == "\\/" + Unescape(rest, BracketEscapes)
  {
    var s := "\\/" + rest;
    assert s[1..] == "/" + rest;
    UnescapePlain('/', rest, BracketEscapes);
  }

  /** The second pass turns an escaped slash back into a slash. */
  lemma SlashRestored(rest: string)
    ensures Unescape("\\/" + rest, MarkEscapes) == "/" + Unescape(rest, MarkEscapes)
  {
    var s := "\\/" + rest;
    assert s[2..] == rest;
  }

  /** One escaped URL scheme followed by an already round-tripping text round-trips. */
  lemma SchemeStep(scheme: string, r: string, tail: string)
    requires '\\' !in scheme
    requires Unescape(r, BracketEscapes) == r && Unescape(r, MarkEscapes) == tail
    ensures Unescape(scheme + "\\/\\/" + r, BracketEscapes) == scheme + "\\/\\/" + r
    ensures Unescape(scheme + "\\/\\/" + r, MarkEscapes) == scheme + "//" + tail
  {
    var t2 := "\\/" + ("\\/" + r);
    assert scheme + "\\/\\/" + r == scheme + t2;
    SchemeBracket(scheme, r, t2);
    SchemeMark(scheme, r, tail, t2);
  }

  lemma SchemeBracket(scheme: string, r: string, t2: string)
    requires '\\' !in scheme && t2 == "\\/" + ("\\/" + r)
    requires Unescape(r, BracketEscapes) == r
    ensures Unescape(scheme + t2, BracketEscapes) == scheme + t2
  {
    UnescapePlainPrefix(scheme, t2, BracketEscapes);
    SlashKept("\\/" + r);
    SlashKept(r);
  }

  lemma SchemeMark(scheme: string, r: string, tail: string, t2: string)
    requires '\\' !in scheme && t2 == "\\/" + ("\\/" + r)
    requires Unescape(r, MarkEscapes) == tail
    ensures Unescape(scheme + t2, MarkEscapes) == scheme + "//" + tail
  {
    UnescapePlainPrefix(scheme, t2, MarkEscapes);
    SlashRestored("\\/" + r);
    SlashRestored(r);
    assert scheme + ("/" + ("/" + tail)) == scheme + "//" + tail;
  }

  lemma HttpText(t: string)
    requires StartsWith(t, "http://")
    ensures EscapeUrls(t) == "http:" + "\\/\\/" + EscapeUrls(t[7..])
    ensures t == "http:" + "//" + t[7..]
  {
  }

  lemma HttpsText(t: string)
    requires StartsWith(t, "https://") && !StartsWith(t, "http://")
    ensures EscapeUrls(t) == "https:" + "\\/\\/" + EscapeUrls(t[8..])
    ensures t == "https:" + "//" + t[8..]
  {
  }

  lemma SuffixNoBackslash(t: string, n: nat)
    requires '\\' !in t && n <= |t|
    ensures '\\' !in t[n..]
  {
    assert forall c :: c in t[n..] ==> c in t;
  }

  /**
   * A text without backslashes comes out of the URL escaping and the label
   * unescaping exactly as it went in: URLs in node labels keep their `//`.
   */
  lemma {:induction false} UrlsRoundTrip(t: string)
    requires '\\' !in t
    ensures Unescape(EscapeUrls(t), BracketEscapes) == EscapeUrls(t)
    ensures UnescapeLabel(EscapeUrls(t)) == t
    decreases |t|
  {
    if |t| > 0 {
      if StartsWith(t, "http://") {
        SuffixNoBackslash(t, 7);
        UrlsRoundTrip(t[7..]);
        HttpText(t);
        SchemeStep("http:", EscapeUrls(t[7..]), t[7..]);
      } else if StartsWith(t, "https://") {
        SuffixNoBackslash(t, 8);
        UrlsRoundTrip(t[8..]);
        HttpsText(t);
        SchemeStep("https:", EscapeUrls(t[8..]), t[8..]);
      } else {
        assert t[0] in t;
        SuffixNoBackslash(t, 1);
        UrlsRoundTrip(t[1..]);
        UnescapePlain(t[0], EscapeUrls(t[1..]), BracketEscapes);
        UnescapePlain(t[0], EscapeUrls(t[1..]), MarkEscapes);
        assert t == [t[0]] + t[1..];
      }
    }
  }

  // ---------------------------------------------------------------------------
  // One line on its own

  /** `/^\s*\}/`: the first non-whitespace character closes a container. */
  predicate ClosesContainer(line: string) {
    var i := LeadingSpaces(line);
    i < |line| && line[i] == '}'
  }

  /**
   * What a line says once its `{` and `}` marks and its indentation are known:
   * a blank line, a zero-indent line of source pointers, or a line with an
   * optional edge label, a node part (label, id, classes, data) and pointers.
   * `width` is the length of the line as read, used for error columns.
   */
  datatype LineView =
    | Blank
    | SourcePointers(closes: bool, pointers: seq<Pointer>)
    | Content(opens: bool, closes: bool, indent: nat, width: nat, edgeLabel: string,
              classes: string, data: Data, pointers: seq<Pointer>, nodeLabel: string,
              declares: bool, id: string)

  /** The node part of a content line: its feature data, its pointers, its label and whether it declares a node. */
  datatype NodePart = NodePart(features: FD.Features, pointers: seq<Pointer>, nodeLabel: string,
                               declares: bool, id: string)

  /** The id `n<line>` of a node that names none. */
  function GeneratedId(lineNumber: nat): string {
    "n" + NatToString(lineNumber)
  }

  /** Cut a line at its edge break: the edge label (up to the character before the colon) and the trimmed rest. */
  function SplitEdge(line: string): (string, string) {
    var b := GetEdgeBreakIndex(line);
    if b > -1 then (line[..b + 1], Trim(Trim(line[b + 2..]))) else ("", Trim(line))
  }

  /**
   * Read the feature run of a trimmed line, take the pointers out of the text
   * before it and unescape what remains into the label. The line declares a
   * node when it has an id, a label, classes or data; a line that declares
   * nothing but opens a container declares a ghost node `n<line>`.
   */
  function NodePartOf(lineNumber: nat, opens: bool, rest: string): NodePart {
    var fi := GetFeaturesIndex(rest);
    var f := FD.FeatureDataOf(rest[fi..]);
    var pr := P.PointersOf(rest[..fi]);
    var nodeLabel := UnescapeLabel(pr.1);
    var declared := f.id != "" || nodeLabel != "" || f.classes != "" || |f.data| > 0;
    NodePart(f, pr.0, nodeLabel, declared || opens, if !declared && opens then GeneratedId(lineNumber) else f.id)
  }

  function LinePrefix(lineNumber: nat): string {
    "Line " + NatToString(lineNumber) + ": "
  }

  /** The three pointer checks in source order; a declared node without an id then gets `n<line>`. */
  function CheckPointers(width: nat, lineNumber: nat, opens: bool, closes: bool, indent: nat,
                         edgeLabel: string, n: NodePart): Result<LineView, ParseError> {
    if |n.pointers| > 1 then
      Failure(NewParseError(LinePrefix(lineNumber) + "Can't create multiple pointers on same line",
                            lineNumber, lineNumber, 0, width + 1, MULTIPLE_POINTERS_ON_SAME_LINE))
    else if |n.pointers| > 0 && opens then
      Failure(NewParseError(LinePrefix(lineNumber) + "Can't create pointer and container on same line",
                            lineNumber, lineNumber, width, width + 1, POINTER_AND_CONTAINER_ON_SAME_LINE))
    else if n.declares && |n.pointers| > 0 then
      Failure(NewParseError(LinePrefix(lineNumber) + "Can't create node and pointer on same line",
                            lineNumber, lineNumber, indent + 1, width + 1, NODE_AND_POINTER_ON_SAME_LINE))
    else
      Success(Content(opens, closes, indent, width, edgeLabel, n.features.classes, n.features.data,
                      n.pointers, n.nodeLabel, n.declares,
                      if n.declares && n.id == "" then GeneratedId(lineNumber) else n.id))
  }

  /** A content line: the edge-label check, then the pointer checks on its node part. */
  function Describe(width: nat, lineNumber: nat, opens: bool, closes: bool, indent: nat, line: string): Result<LineView, ParseError> {
    var (edgeLabel, rest) := SplitEdge(line);
    if indent == 0 && edgeLabel != "" then
      Failure(NewParseError(LinePrefix(lineNumber) + "Edge label without parent",
                            lineNumber, lineNumber, 0, |edgeLabel| + 1, EDGE_LABEL_WITHOUT_PARENT))
    else
      CheckPointers(width, lineNumber, opens, closes, indent, edgeLabel, NodePartOf(lineNumber, opens, rest))
  }

  /** What the body of the scan loop makes of line number `lineNumber` before it looks at the scan's state. */
  function AnalyzeLine(original: string, lineNumber: nat): Result<LineView, ParseError> {
    if Trim(original) == "" then Success(Blank)
    else
      var opens := original[|original| - 1] == '{';
      var l1 := if opens then original[..|original| - 1] else original;
      var closes := ClosesContainer(l1);
      var l2 := if closes then ReplaceFirst(l1, "}", "") else l1;
      var indent := GI.GetIndentSize(l2);
      if indent == 0 && |l2| > 0 && l2[0] == '(' then Success(SourcePointers(closes, P.PointersOf(l2).0))
      else Describe(|original|, lineNumber, opens, closes, indent, l2)
  }

  /** The body of the scan loop (parse.ts) up to the point where the scan's state is consulted. */
  method ReadLine(originalLine: string, lineNumber: nat) returns (r: Result<LineView, ParseError>)
    ensures r == AnalyzeLine(originalLine, lineNumber)
  {
    if Trim(originalLine) == "" {
      return Success(Blank);
    }
    var line := originalLine;
    var isContainerStart, isContainerEnd := false, false;
    if line[|line| - 1] == '{' {
      line := line[..|line| - 1];
      isContainerStart := true;
    }
    if ClosesContainer(line) {
      line := ReplaceFirst(line, "}", "");
      isContainerEnd := true;
    }
    var indentSize := GI.GetIndentSize(line);
    if indentSize == 0 && |line| > 0 && line[0] == '(' {
      var pointers, _ := P.MatchAndRemovePointers(line);
      return Success(SourcePointers(isContainerEnd, pointers));
    }
    r := ReadContent(|originalLine|, lineNumber, isContainerStart, isContainerEnd, indentSize, line);
  }

  /** The edge label, its check, the node part and the pointer checks of a content line. */
  method ReadContent(width: nat, lineNumber: nat, isContainerStart: bool, isContainerEnd: bool,
                     indentSize: nat, line: string) returns (r: Result<LineView, ParseError>)
    ensures r == Describe(width, lineNumber, isContainerStart, isContainerEnd, indentSize, line)
  {
    var rest := line;
    var edgeLabel := "";
    var edgeBreakIndex := GetEdgeBreakIndex(line);
    if edgeBreakIndex > -1 {
      edgeLabel := line[..edgeBreakIndex + 1];
      rest := Trim(line[edgeBreakIndex + 2..]);
    }
    if indentSize == 0 && edgeLabel != "" {
      return Failure(NewParseError(LinePrefix(lineNumber) + "Edge label without parent",
                                   lineNumber, lineNumber, 0, |edgeLabel| + 1, EDGE_LABEL_WITHOUT_PARENT));
    }
    r := CheckNodeLine(width, lineNumber, isContainerStart, isContainerEnd, indentSize, edgeLabel, Trim(rest));
  }

  /** The node part of a content line and the three pointer checks. */
  method CheckNodeLine(width: nat, lineNumber: nat, isContainerStart: bool, isContainerEnd: bool,
                       indentSize: nat, edgeLabel: string, line: string) returns (r: Result<LineView, ParseError>)
    ensures r == CheckPointers(width, lineNumber, isContainerStart, isContainerEnd, indentSize, edgeLabel,
                               NodePartOf(lineNumber, isContainerStart, line))
  {
    var n := ReadNodePart(lineNumber, isContainerStart, line);
    if |n.pointers| > 1 {
      return Failure(NewParseError(LinePrefix(lineNumber) + "Can't create multiple pointers on same line",
                                   lineNumber, lineNumber, 0, width + 1, MULTIPLE_POINTERS_ON_SAME_LINE));
    }
    if |n.pointers| > 0 && isContainerStart {
      return Failure(NewParseError(LinePrefix(lineNumber) + "Can't create pointer and container on same line",
                                   lineNumber, lineNumber, width, width + 1, POINTER_AND_CONTAINER_ON_SAME_LINE));
    }
    if n.declares && |n.pointers| > 0 {
      return Failure(NewParseError(LinePrefix(lineNumber) + "Can't create node and pointer on same line",
                                   lineNumber, lineNumber, indentSize + 1, width + 1, NODE_AND_POINTER_ON_SAME_LINE));
    }
    var id := n.id;
    if n.declares && id == "" {
      id := GeneratedId(lineNumber);
    }
    r := Success(Content(isContainerStart, isContainerEnd, indentSize, width, edgeLabel,
                         n.features.classes, n.features.data, n.pointers, n.nodeLabel, n.declares, id));
  }

  /** The feature run, the pointers and the label of a trimmed line, and whether it declares a node. */
  method ReadNodePart(lineNumber: nat, isContainerStart: bool, line: string) returns (n: NodePart)
    ensures n == NodePartOf(lineNumber, isContainerStart, line)
  {
    var featuresIndex := GetFeaturesIndex(line);
    var features := FD.GetFeatureData(line[featuresIndex..]);
    var id := features.id;
    var pointers, lineWithPointersRemoved := P.MatchAndRemovePointers(line[..featuresIndex]);
    var nodeLabel := UnescapeLabel(lineWithPointersRemoved);
    var lineDeclaresNode := id != "" || nodeLabel != "" || features.classes != "" || |features.data| > 0;
    if !lineDeclaresNode && isContainerStart {
      lineDeclaresNode := true;
      id := GeneratedId(lineNumber);
    }
    n := NodePart(features, pointers, nodeLabel, lineDeclaresNode, id);
  }

  // ---------------------------------------------------------------------------
  // Properties of one line

  /** What every line the checks let through satisfies. */
  predicate WellFormedView(v: LineView) {
    match v
    case Blank => true
    case SourcePointers(_, _) => true
    case Content(opens, _, _, _, _, _, _, pointers, _, declares, id) =>
      (declares <==> id != "")
      && (opens ==> declares)
      && |pointers| <= 1
      && (|pointers| == 1 ==> !declares)
  }

  /** The four codes a line raises on its own. */
  predicate IsLineCode(code: string) {
    code == EDGE_LABEL_WITHOUT_PARENT || code == MULTIPLE_POINTERS_ON_SAME_LINE
    || code == POINTER_AND_CONTAINER_ON_SAME_LINE || code == NODE_AND_POINTER_ON_SAME_LINE
  }

  /** A failure of line `lineNumber` raised by the line on its own. */
  predicate IsLineError(e: ParseError, lineNumber: nat) {
    e.name == "ParseError" && e.startLineNumber == lineNumber && e.endLineNumber == lineNumber
    && IsLineCode(e.code)
  }

  lemma NodePartIds(lineNumber: nat, opens: bool, rest: string)
    ensures var n := NodePartOf(lineNumber, opens, rest);
            (n.id != "" ==> n.declares) && (opens ==> n.declares)
  {
    assert |NatToString(lineNumber)| >= 1;
  }

  lemma CheckPointersSpec(width: nat, lineNumber: nat, opens: bool, closes: bool, indent: nat,
                          edgeLabel: string, n: NodePart)
    requires (n.id != "" ==> n.declares) && (opens ==> n.declares)
    ensures var r := CheckPointers(width, lineNumber, opens, closes, indent, edgeLabel, n);
            (r.Success? ==> r.value.Content? && WellFormedView(r.value))
            && (r.Failure? ==> IsLineError(r.error, lineNumber))
  {
    assert |NatToString(lineNumber)| >= 1;
  }

  lemma DescribeSpec(width: nat, lineNumber: nat, opens: bool, closes: bool, indent: nat, line: string)
    ensures var r := Describe(width, lineNumber, opens, closes, indent, line);
            (r.Success? ==> r.value.Content? && WellFormedView(r.value))
            && (r.Failure? ==> IsLineError(r.error, lineNumber))
  {
    var (edgeLabel, rest) := SplitEdge(line);
    if indent == 0 && edgeLabel != "" {
      assert |NatToString(lineNumber)| >= 1;
    } else {
      NodePartIds(lineNumber, opens, rest);
      CheckPointersSpec(width, lineNumber, opens, closes, indent, edgeLabel, NodePartOf(lineNumber, opens, rest));
    }
  }

  /** A line is blank, producing nothing, exactly when it is all whitespace. */
  lemma BlankLine(original: string, lineNumber: nat)
    ensures AnalyzeLine(original, lineNumber) == Success(Blank) <==> AllSpace(original)
  {
    TrimIsCore(original);
    if Trim(original) != "" {
      var opens := original[|original| - 1] == '{';
      var l1 := if opens then original[..|original| - 1] else original;
      var closes := ClosesContainer(l1);
      var l2 := if closes then ReplaceFirst(l1, "}", "") else l1;
      DescribeSpec(|original|, lineNumber, opens, closes, GI.GetIndentSize(l2), l2);
    }
  }

  /**
   * A line that passes the checks is well formed: it declares a node exactly
   * when it has an id, a container line declares one, and it has at most one
   * pointer, and none if it declares a node; a line that fails names itself
   * as start and end line and carries one of the four line-level codes.
   */
  lemma AnalyzeLineSpec(original: string, lineNumber: nat)
    ensures AnalyzeLine(original, lineNumber).Success? ==> WellFormedView(AnalyzeLine(original, lineNumber).value)
    ensures AnalyzeLine(original, lineNumber).Failure? ==> IsLineError(AnalyzeLine(original, lineNumber).error, lineNumber)
  {
    if Trim(original) != "" {
      TrimShorter(original);
      var opens := original[|original| - 1] == '{';
      var l1 := if opens then original[..|original| - 1] else original;
      var closes := ClosesContainer(l1);
      var l2 := if closes then ReplaceFirst(l1, "}", "") else l1;
      var indent := GI.GetIndentSize(l2);
      if !(indent == 0 && |l2| > 0 && l2[0] == '(') {
        DescribeSpec(|original|, lineNumber, opens, closes, indent, l2);
      }
    }
  }

  /**
   * The pointer rules, in their order: a line passes them exactly when it has
   * no pointer, or one pointer on a line that neither declares a node nor
   * opens a container; and the first rule broken decides the code.
   */
  lemma CheckPointersOrder(width: nat, lineNumber: nat, opens: bool, closes: bool, indent: nat,
                           edgeLabel: string, n: NodePart)
    ensures var r := CheckPointers(width, lineNumber, opens, closes, indent, edgeLabel, n);
            && (r.Success? <==> |n.pointers| == 0 || (|n.pointers| == 1 && !n.declares && !opens))
            && (|n.pointers| > 1 ==> r.error.code == MULTIPLE_POINTERS_ON_SAME_LINE)
            && (|n.pointers| == 1 && opens ==> r.error.code == POINTER_AND_CONTAINER_ON_SAME_LINE)
            && (|n.pointers| == 1 && !opens && n.declares ==> r.error.code == NODE_AND_POINTER_ON_SAME_LINE)
  {
  }

  /** An edge label on a line without indentation is refused before any pointer rule, with its own width as end column. */
  lemma EdgeLabelFirst(width: nat, lineNumber: nat, opens: bool, closes: bool, line: string)
    requires SplitEdge(line).0 != ""
    ensures var r := Describe(width, lineNumber, opens, closes, 0, line);
            r.Failure? && r.error.code == EDGE_LABEL_WITHOUT_PARENT
            && r.error.startColumn == 0 && r.error.endColumn == |SplitEdge(line).0| + 1
  {
  }

  /** Two lines never generate the same id. */
  lemma GeneratedIdsDiffer(a: nat, b: nat)
    requires a != b
    ensures GeneratedId(a) != GeneratedId(b)
  {
    if GeneratedId(a) == GeneratedId(b) {
      PrefixedNatInjective("n", a, b);
    }
  }

  /** A line that is only `{` opens a container around a ghost node `n<line>` with an empty label. */
  lemma GhostContainer(lineNumber: nat)
    ensures AnalyzeLine("{", lineNumber)
            == Success(Content(true, false, 0, 1, "", "", [], [], "", true, GeneratedId(lineNumber)))
  {
    var l1 := "{"[..0];
    assert l1 == "";
    assert !ClosesContainer(l1);
    assert GI.GetIndentSize(l1) == 0;
    assert GetEdgeBreakIndex(l1) == -1;
    assert Trim(l1) == "";
    assert GetFeaturesIndex("") == 0;
    FD.PlainText("");
    P.NoParenthesis("");
    assert |NatToString(lineNumber)| >= 1;
  }
}
