/**
 * `matchAndRemovePointers` of the standalone parser package: finds every
 * pointer on a line, left to right, and removes each match from the line.
 *
 * The pattern is
 * `(?<replace>\((?<pointer>((?<id>#[\w-]+)|(?<class>.[\w]+)|(?<label>[\w\s]+)))\))`
 * with the global flag. The `class` alternative starts with an unescaped
 * `.`, so it takes ANY character (other than a line terminator) followed by
 * word characters: `(ab)` is read as the class pointer `b`.
 */
module LegacyPointers {
  import opened JsString
  import opened Types
  import FeatureData
  import MRP = MatchAndRemovePointers

  /** `[\w\s]`. */
  predicate IsLabelChar(c: char) { IsWordChar(c) || IsSpace(c) }

  /** Length of the longest prefix of `[\w\s]` characters. */
  function LabelRun(s: string): (r: nat)
    ensures r <= |s|
    ensures r == |s| || !IsLabelChar(s[r])
  {
    if |s| == 0 || !IsLabelChar(s[0]) then 0 else 1 + LabelRun(s[1..])
  }

  /** `\w+` greedily, as the graph-selector pointer pattern counts it. */
  function WordRun(s: string): (r: nat)
    ensures r <= |s|
    ensures r == |s| || !IsWordChar(s[r])
  {
    MRP.WordRun(s)
  }

  /** The `id` alternative `#[\w-]+` and the closing `)`, from `q`: the index after `)` and the pointer. */
  function IdPayload(s: string, q: nat): (r: Option<(nat, Pointer)>)
    requires q <= |s|
    ensures r.Some? ==> q < r.value.0 <= |s| && r.value.1.kind == IdPointer && |r.value.1.value| > 0
  {
    if q < |s| && s[q] == '#' then
      var n := FeatureData.IdCharRun(s[q + 1..]);
      if n > 0 && q + 1 + n < |s| && s[q + 1 + n] == ')' then Some((q + 2 + n, Pointer(IdPointer, s[q + 1..q + 1 + n])))
      else None
    else None
  }

  /** The `class` alternative `.[\w]+` and the closing `)`: any one character, then word characters. */
  function ClassPayload(s: string, q: nat): (r: Option<(nat, Pointer)>)
    requires q <= |s|
    ensures r.Some? ==> q < r.value.0 <= |s| && r.value.1.kind == ClassPointer && |r.value.1.value| > 0
  {
    if q < |s| && !IsLineTerminator(s[q]) then
      var n := WordRun(s[q + 1..]);
      if n > 0 && q + 1 + n < |s| && s[q + 1 + n] == ')' then Some((q + 2 + n, Pointer(ClassPointer, s[q + 1..q + 1 + n])))
      else None
    else None
  }

  /** The `label` alternative `[\w\s]+` and the closing `)`. */
  function LabelPayload(s: string, q: nat): (r: Option<(nat, Pointer)>)
    requires q <= |s|
    ensures r.Some? ==> q < r.value.0 <= |s| && r.value.1.kind == LabelPointer && |r.value.1.value| > 0
  {
    var n := LabelRun(s[q..]);
    if n > 0 && q + n < |s| && s[q + n] == ')' then Some((q + n + 1, Pointer(LabelPointer, s[q..q + n]))) else None
  }

  /**
   * The `pointer` group and the closing `)` from `q`: the first alternative
   * that matches. A greedy run is never shortened into a match, because the
   * character after a shorter run is a run character and not `)`.
   */
  function Payload(s: string, q: nat): (r: Option<(nat, Pointer)>)
    requires q <= |s|
    ensures r.Some? ==> q < r.value.0 <= |s| && |r.value.1.value| > 0
  {
    var id := IdPayload(s, q);
    var cls := ClassPayload(s, q);
    if id.Some? then id else if cls.Some? then cls else LabelPayload(s, q)
  }

  /** One match: the removed text is `s[start..end]`. */
  datatype PointerMatch = PointerMatch(start: nat, end: nat, pointer: Pointer)

  /** The pattern tried at position `p`: an opening `(`, then the payload. */
  function MatchAt(s: string, p: nat): (r: Option<PointerMatch>)
    requires p < |s|
    ensures r.Some? ==> r.value.start == p && p < r.value.end <= |s| && r.value.pointer.value != ""
  {
    if s[p] == '(' then
      match Payload(s, p + 1)
      case Some((e, ptr)) => Some(PointerMatch(p, e, ptr))
      case None => None
    else None
  }

  /** What `pointerRe.exec(line)` finds when `lastIndex` is `from`. */
  function NextMatch(s: string, from: nat): (r: Option<PointerMatch>)
    requires from <= |s|
    ensures r.Some? ==> from <= r.value.start < r.value.end <= |s| && r.value.pointer.value != ""
    decreases |s| - from
  {
    if from == |s| then None
    else
      var m := MatchAt(s, from);
      if m.Some? then m else NextMatch(s, from + 1)
  }

  /**
   * The loop from `lastIndex == from` on: each match appends its pointer and
   * removes the first occurrence of its text from the residual line, which
   * is then trimmed. The matches are searched in the original line.
   */
  function Scan(line: string, from: nat, pointers: seq<Pointer>, residual: string): (seq<Pointer>, string)
    requires from <= |line|
    decreases |line| - from
  {
    var next := NextMatch(line, from);
    if next.None? then (pointers, residual)
    else
      var m := next.value;
      Scan(line, m.end, pointers + [m.pointer], Trim(ReplaceFirst(residual, line[m.start..m.end], "")))
  }

  /** The pointers and the residual line `matchAndRemovePointers(line)` returns. */
  function PointersOf(line: string): (seq<Pointer>, string) {
    Scan(line, 0, [], line)
  }

  /** `matchAndRemovePointers` (parse.ts of the parser package). */
  method MatchAndRemovePointers(line: string) returns (pointers: seq<Pointer>, residual: string)
    ensures (pointers, residual) == PointersOf(line)
  {
    pointers := [];
    residual := line;
    var lastIndex := 0;
    while true
      invariant lastIndex <= |line|
      invariant Scan(line, lastIndex, pointers, residual) == PointersOf(line)
      decreases |line| - lastIndex
    {
      var next := NextMatch(line, lastIndex);
      if next.None? {
        break;
      }
      var m := next.value;
      pointers := pointers + [m.pointer];
      residual := Trim(ReplaceFirst(residual, line[m.start..m.end], ""));
      lastIndex := m.end;
    }
  }

  // ---------------------------------------------------------------------------
  // Properties

  /** Every pointer has a non-empty value, and the residual is never longer than the line it started from. */
  lemma {:induction false} ScanBounds(line: string, from: nat, pointers: seq<Pointer>, residual: string)
    requires from <= |line|
    requires forall i :: 0 <= i < |pointers| ==> pointers[i].value != ""
    ensures forall i :: 0 <= i < |Scan(line, from, pointers, residual).0| ==> Scan(line, from, pointers, residual).0[i].value != ""
    ensures |Scan(line, from, pointers, residual).1| <= |residual|
    decreases |line| - from
  {
    var next := NextMatch(line, from);
    if next.Some? {
      var m := next.value;
      var r := ReplaceFirst(residual, line[m.start..m.end], "");
      assert |r| <= |residual|;
      ScanBounds(line, m.end, pointers + [m.pointer], Trim(r));
    }
  }

  lemma {:induction false} NoMatchFrom(line: string, from: nat)
    requires from <= |line|
    requires forall i :: 0 <= i < |line| ==> line[i] != '('
    ensures NextMatch(line, from) == None
    decreases |line| - from
  {
    if from < |line| {
      NoMatchFrom(line, from + 1);
    }
  }

  /** A line without `(` keeps its text and yields no pointers. */
  lemma NoParenthesis(line: string)
    requires forall i :: 0 <= i < |line| ==> line[i] != '('
    ensures PointersOf(line) == ([], line)
  {
    NoMatchFrom(line, 0);
  }

  /** A line that is exactly one parenthesised pointer. */
  lemma WholeLine(line: string, p: Pointer)
    requires |line| > 0 && line[0] == '(' && Payload(line, 1) == Some((|line|, p))
    ensures PointersOf(line) == ([p], "")
  {
    assert MatchAt(line, 0) == Some(PointerMatch(0, |line|, p));
    assert NextMatch(line, 0) == Some(PointerMatch(0, |line|, p));
    assert line[0..|line|] == line;
    ReplacePrefix(line, line);
    assert ReplaceFirst(line, line, "") == "";
    assert Trim("") == "";
    assert NextMatch(line, |line|) == None;
    assert [] + [p] == [p];
    assert Scan(line, |line|, [p], "") == ([p], "");
    assert Scan(line, 0, [], line) == Scan(line, |line|, [p], "");
  }

  lemma {:induction false} IdRunOf(x: string)
    requires forall i :: 0 <= i < |x| ==> FeatureData.IsIdChar(x[i])
    ensures FeatureData.IdCharRun(x + ")") == |x|
  {
    if |x| > 0 {
      assert (x + ")")[1..] == x[1..] + ")";
      IdRunOf(x[1..]);
    }
  }

  lemma {:induction false} WordRunOf(x: string)
    requires forall i :: 0 <= i < |x| ==> IsWordChar(x[i])
    ensures WordRun(x + ")") == |x|
  {
    if |x| > 0 {
      assert (x + ")")[1..] == x[1..] + ")";
      WordRunOf(x[1..]);
    }
  }

  lemma {:induction false} LabelRunOf(x: string)
    requires forall i :: 0 <= i < |x| ==> IsLabelChar(x[i])
    ensures LabelRun(x + ")") == |x|
  {
    if |x| > 0 {
      assert (x + ")")[1..] == x[1..] + ")";
      LabelRunOf(x[1..]);
    }
  }

  /** `(#x)` gives the id pointer `x` and an empty residual: the id alternative is tried first. */
  lemma IdPointerLine(x: string)
    requires |x| > 0 && forall i :: 0 <= i < |x| ==> FeatureData.IsIdChar(x[i])
    ensures PointersOf("(#" + x + ")") == ([Pointer(IdPointer, x)], "")
  {
    var line := "(#" + x + ")";
    assert line[2..] == x + ")";
    IdRunOf(x);
    assert line[2..2 + |x|] == x;
    assert IdPayload(line, 1) == Some((|line|, Pointer(IdPointer, x)));
    WholeLine(line, Pointer(IdPointer, x));
  }

  /**
   * `(cx)`, where `c` is any character but `#` or a line terminator and `x`
   * is a run of word characters, gives the class pointer `x`: the first
   * character is dropped whether or not it is a dot.
   */
  lemma ClassPointerLine(c: char, x: string)
    requires c != '#' && !IsLineTerminator(c)
    requires |x| > 0 && forall i :: 0 <= i < |x| ==> IsWordChar(x[i])
    ensures PointersOf("(" + [c] + x + ")") == ([Pointer(ClassPointer, x)], "")
  {
    var line := "(" + [c] + x + ")";
    assert line[2..] == x + ")";
    WordRunOf(x);
    assert line[2..2 + |x|] == x;
    assert IdPayload(line, 1) == None;
    assert ClassPayload(line, 1) == Some((|line|, Pointer(ClassPointer, x)));
    WholeLine(line, Pointer(ClassPointer, x));
  }

  /** The class alternative fails on `x)` exactly when `x` is not one character followed by word characters. */
  predicate NotClassShaped(x: string) {
    |x| < 2 || IsLineTerminator(x[0]) || exists i :: 1 <= i < |x| && !IsWordChar(x[i])
  }

  /**
   * `(x)` with `x` made of word and space characters gives the label pointer
   * `x` verbatim when the class alternative does not take it: a one-letter
   * label, or one holding a space after its first character.
   */
  lemma LabelPointerLine(x: string)
    requires |x| > 0 && forall i :: 0 <= i < |x| ==> IsLabelChar(x[i])
    requires NotClassShaped(x)
    ensures PointersOf("(" + x + ")") == ([Pointer(LabelPointer, x)], "")
  {
    var line := "(" + x + ")";
    assert line[1..] == x + ")";
    LabelRunOf(x);
    assert line[1..1 + |x|] == x;
    assert IdPayload(line, 1) == None;
    if !IsLineTerminator(line[1]) && |x| >= 2 {
      var i :| 1 <= i < |x| && !IsWordChar(x[i]);
      var n := WordRun(line[2..]);
      WordRunPrefix(line[2..]);
      assert line[2..][i - 1] == x[i];
      assert n <= i - 1;
      assert line[2 + n] == x[1 + n];
      assert IsLabelChar(x[1 + n]);
    }
    assert ClassPayload(line, 1) == None;
    assert LabelPayload(line, 1) == Some((|line|, Pointer(LabelPointer, x)));
    WholeLine(line, Pointer(LabelPointer, x));
  }

  lemma {:induction false} WordRunPrefix(s: string)
    ensures forall i :: 0 <= i < WordRun(s) ==> IsWordChar(s[i])
  {
    if |s| > 0 && IsWordChar(s[0]) {
      WordRunPrefix(s[1..]);
      assert forall i :: 1 <= i < WordRun(s) ==> s[i] == s[1..][i - 1];
    }
  }

  /** As written, the one-word label pointer `(ab)` is read as the class pointer `b`. */
  lemma WordTakenAsClass()
    ensures PointersOf("(ab)") == ([Pointer(ClassPointer, "b")], "")
  {
    assert "(" + ['a'] + "b" + ")" == "(ab)";
    ClassPointerLine('a', "b");
  }

  // ---------------------------------------------------------------------------
  // The class alternative as evidently meant

  /** `\.[\w]+`: the class alternative with its dot escaped, as the graph-selector pattern has it. */
  function IntendedClassPayload(s: string, q: nat): (r: Option<(nat, Pointer)>)
    requires q <= |s|
    ensures r.Some? ==> q < |s| && s[q] == '.' && q < r.value.0 <= |s| && r.value.1.kind == ClassPointer
  {
    if q < |s| && s[q] == '.' then
      var n := WordRun(s[q + 1..]);
      if n > 0 && q + 1 + n < |s| && s[q + 1 + n] == ')' then Some((q + 2 + n, Pointer(ClassPointer, s[q + 1..q + 1 + n])))
      else None
    else None
  }

  /** The `pointer` group with the intended class alternative. */
  function IntendedPayload(s: string, q: nat): (r: Option<(nat, Pointer)>)
    requires q <= |s|
  {
    var id := IdPayload(s, q);
    var cls := IntendedClassPayload(s, q);
    if id.Some? then id else if cls.Some? then cls else LabelPayload(s, q)
  }

  /** With the dot escaped, only a payload starting with `.` can be a class pointer. */
  lemma IntendedClassAfterDot(s: string, q: nat)
    requires q <= |s|
    ensures IntendedPayload(s, q).Some? && IntendedPayload(s, q).value.1.kind == ClassPointer ==> q < |s| && s[q] == '.'
  {
  }

  /** With the dot escaped, a parenthesised word is the label pointer of that word, whatever its length. */
  lemma IntendedWordLabel(x: string)
    requires |x| > 0 && forall i :: 0 <= i < |x| ==> IsWordChar(x[i])
    ensures IntendedPayload("(" + x + ")", 1) == Some((|x| + 2, Pointer(LabelPointer, x)))
  {
    var line := "(" + x + ")";
    assert line[1..] == x + ")";
    assert line[1] == x[0];
    LabelRunOf(x);
    assert line[1..1 + |x|] == x;
  }

  /** A dotted class pointer `(.x)` is read the same with the dot escaped and as written. */
  lemma IntendedClassKept(x: string)
    requires |x| > 0 && forall i :: 0 <= i < |x| ==> IsWordChar(x[i])
    ensures IntendedPayload("(." + x + ")", 1) == Some((|x| + 3, Pointer(ClassPointer, x)))
    ensures Payload("(." + x + ")", 1) == IntendedPayload("(." + x + ")", 1)
  {
    var line := "(." + x + ")";
    assert line[2..] == x + ")";
    WordRunOf(x);
    assert line[2..2 + |x|] == x;
  }
}
