/**
 * `matchAndRemovePointers`: finds every pointer `(#id)`, `(.class)` or
 * `(label)` on a line, left to right, and removes each match from the line.
 *
 * The pattern is
 * `(?<replace>(^|[^\\])[(（](?<pointer>(#[\w-]+)|(\.[a-zA-Z][\w]*)|([^)）]+))[)）])`
 * with the global flag: a match starts at the beginning of the line or at
 * the one character before the opening parenthesis, which must not be a
 * backslash; that character is part of the text that is removed.
 */
module MatchAndRemovePointers {
  import opened JsString
  import opened Types
  import FeatureData

  /** `[(（]`. */
  predicate IsOpen(c: char) { c == '(' || c == '\U{FF08}' }

  /** `[)）]`. */
  predicate IsClose(c: char) { c == ')' || c == '\U{FF09}' }

  /** Length of the longest prefix of `\w` characters. */
  function WordRun(s: string): (r: nat)
    ensures r <= |s|
    ensures r == |s| || !IsWordChar(s[r])
  {
    if |s| == 0 || !IsWordChar(s[0]) then 0 else 1 + WordRun(s[1..])
  }

  /** Length of the longest prefix of `[^)）]` characters. */
  function NonCloseRun(s: string): (r: nat)
    ensures r <= |s|
    ensures r == |s| || IsClose(s[r])
  {
    if |s| == 0 || IsClose(s[0]) then 0 else 1 + NonCloseRun(s[1..])
  }

  /** The `id` alternative `#[\w-]+` followed by a closing parenthesis, from `q`. */
  function IdPayload(s: string, q: nat): (r: Option<(nat, Pointer)>)
    requires q <= |s|
    ensures r.Some? ==> q < r.value.0 <= |s| && IsClose(s[r.value.0 - 1])
    ensures r.Some? ==> r.value.1.kind == IdPointer && |r.value.1.value| > 0
  {
    if q < |s| && s[q] == '#' then
      var n := FeatureData.IdCharRun(s[q + 1..]);
      if n > 0 && q + 1 + n < |s| && IsClose(s[q + 1 + n]) then Some((q + 2 + n, Pointer(IdPointer, s[q + 1..q + 1 + n])))
      else None
    else None
  }

  /** The `class` alternative `\.[a-zA-Z][\w]*` followed by a closing parenthesis, from `q`. */
  function ClassPayload(s: string, q: nat): (r: Option<(nat, Pointer)>)
    requires q <= |s|
    ensures r.Some? ==> q < r.value.0 <= |s| && IsClose(s[r.value.0 - 1])
    ensures r.Some? ==> r.value.1.kind == ClassPointer && |r.value.1.value| > 0
  {
    if q + 1 < |s| && s[q] == '.' && IsLetter(s[q + 1]) then
      var n := WordRun(s[q + 2..]);
      if q + 2 + n < |s| && IsClose(s[q + 2 + n]) then Some((q + 3 + n, Pointer(ClassPointer, s[q + 1..q + 2 + n])))
      else None
    else None
  }

  /** The `label` alternative `[^)）]+` followed by a closing parenthesis, from `q`. */
  function LabelPayload(s: string, q: nat): (r: Option<(nat, Pointer)>)
    requires q <= |s|
    ensures r.Some? ==> q < r.value.0 <= |s| && IsClose(s[r.value.0 - 1])
    ensures r.Some? ==> r.value.1.kind == LabelPointer && |r.value.1.value| > 0
  {
    var n := NonCloseRun(s[q..]);
    if n > 0 && q + n < |s| then Some((q + n + 1, Pointer(LabelPointer, s[q..q + n]))) else None
  }

  /**
   * The `pointer` group and the closing parenthesis from `q`: the first of
   * the three alternatives that matches, with the index after the parenthesis.
   * A greedy run can never be shortened into a match, because the character
   * after a shorter run is not a closing parenthesis.
   */
  function Payload(s: string, q: nat): (r: Option<(nat, Pointer)>)
    requires q <= |s|
    ensures r.Some? ==> q < r.value.0 <= |s| && IsClose(s[r.value.0 - 1]) && |r.value.1.value| > 0
  {
    var id := IdPayload(s, q);
    var cls := ClassPayload(s, q);
    if id.Some? then id else if cls.Some? then cls else LabelPayload(s, q)
  }

  /** One match of the pattern: the removed text is `s[start..end]`. */
  datatype PointerMatch = PointerMatch(start: nat, end: nat, pointer: Pointer)

  /** The pattern tried at position `p`: first `^`, then one character that is not a backslash. */
  function MatchAt(s: string, p: nat): (r: Option<PointerMatch>)
    requires p < |s|
    ensures r.Some? ==> r.value.start == p && p < r.value.end <= |s| && r.value.pointer.value != ""
  {
    var atStart := if IsOpen(s[0]) then Payload(s, 1) else None;
    var afterChar := if p + 1 < |s| && IsOpen(s[p + 1]) then Payload(s, p + 2) else None;
    if p == 0 && atStart.Some? then Some(PointerMatch(0, atStart.value.0, atStart.value.1))
    else if s[p] != '\\' && afterChar.Some? then Some(PointerMatch(p, afterChar.value.0, afterChar.value.1))
    else None
  }

  /** What `pointerRe.exec(line)` finds when `lastIndex` is `from`. */
  function NextMatch(s: string, from: nat): (r: Option<PointerMatch>)
    requires from <= |s|
    ensures r.Some? ==> from <= r.value.start < r.value.end <= |s| && r.value.pointer.value != ""
    decreases |s| - from
  {
    if from == |s| then None
    else
      var m := MatchAt(s, from);
      if m.Some? then m else NextMatch(s, from + 1)
  }

  /**
   * The loop of `matchAndRemovePointers` from `lastIndex == from` on: each
   * match appends its pointer and removes the first occurrence of its text
   * from the residual line, which is then trimmed.
   */
  function Scan(line: string, from: nat, pointers: seq<Pointer>, residual: string): (seq<Pointer>, string)
    requires from <= |line|
    decreases |line| - from
  {
    var next := NextMatch(line, from);
    if next.None? then (pointers, residual)
    else
      var m := next.value;
      Scan(line, m.end, pointers + [m.pointer], Trim(ReplaceFirst(residual, line[m.start..m.end], "")))
  }

  /** The pointers and the residual line `matchAndRemovePointers(line)` returns. */
  function PointersOf(line: string): (seq<Pointer>, string) {
    Scan(line, 0, [], line)
  }

  /** `matchAndRemovePointers` (matchAndRemovePointers.ts). */
  method MatchAndRemovePointers(line: string) returns (pointers: seq<Pointer>, residual: string)
    ensures (pointers, residual) == PointersOf(line)
  {
    pointers := [];
    residual := line;
    var lastIndex := 0;
    while true
      invariant lastIndex <= |line|
      invariant Scan(line, lastIndex, pointers, residual) == PointersOf(line)
      decreases |line| - lastIndex
    {
      var next := NextMatch(line, lastIndex);
      if next.None? {
        break;
      }
      var m := next.value;
      pointers := pointers + [m.pointer];
      residual := Trim(ReplaceFirst(residual, line[m.start..m.end], ""));
      lastIndex := m.end;
    }
  }

  // ---------------------------------------------------------------------------
  // The matches, in order

  /** Every match `exec` finds from `from` on. */
  function Matches(s: string, from: nat): (r: seq<PointerMatch>)
    requires from <= |s|
    ensures forall i :: 0 <= i < |r| ==> from <= r[i].start < r[i].end <= |s|
    decreases |s| - from
  {
    var next := NextMatch(s, from);
    if next.None? then [] else [next.value] + Matches(s, next.value.end)
  }

  /** The matches do not overlap and come out left to right. */
  lemma {:induction false} MatchesInOrder(s: string, from: nat)
    requires from <= |s|
    ensures forall i :: 0 <= i < |Matches(s, from)| - 1 ==> Matches(s, from)[i].end <= Matches(s, from)[i + 1].start
    decreases |s| - from
  {
    var next := NextMatch(s, from);
    if next.Some? {
      var rest := Matches(s, next.value.end);
      MatchesInOrder(s, next.value.end);
      assert Matches(s, from) == [next.value] + rest;
      assert forall i :: 0 <= i < |rest| - 1 ==> rest[i].end <= rest[i + 1].start;
    }
  }

  /** The pointer of each match, in order. */
  function PointersIn(ms: seq<PointerMatch>): (r: seq<Pointer>)
    ensures |r| == |ms|
  {
    if |ms| == 0 then [] else [ms[0].pointer] + PointersIn(ms[1..])
  }

  lemma PointersInCons(m: PointerMatch, rest: seq<PointerMatch>)
    ensures PointersIn([m] + rest) == [m.pointer] + PointersIn(rest)
  {
    assert ([m] + rest)[1..] == rest;
  }

  /** The pointers come out in the order of their matches, one per match. */
  lemma {:induction false} ScanPointers(line: string, from: nat, pointers: seq<Pointer>, residual: string)
    requires from <= |line|
    ensures Scan(line, from, pointers, residual).0 == pointers + PointersIn(Matches(line, from))
    decreases |line| - from
  {
    var next := NextMatch(line, from);
    if next.Some? {
      var m := next.value;
      var rest := Matches(line, m.end);
      var residual' := Trim(ReplaceFirst(residual, line[m.start..m.end], ""));
      ScanPointers(line, m.end, pointers + [m.pointer], residual');
      assert Scan(line, from, pointers, residual) == Scan(line, m.end, pointers + [m.pointer], residual');
      assert Matches(line, from) == [m] + rest;
      PointersInCons(m, rest);
      ConcatAssoc(pointers, [m.pointer], PointersIn(rest));
    }
  }

  /** Every pointer has a non-empty value, and the residual is never longer than the line. */
  lemma {:induction false} ScanBounds(line: string, from: nat, pointers: seq<Pointer>, residual: string)
    requires from <= |line|
    requires forall i :: 0 <= i < |pointers| ==> pointers[i].value != ""
    ensures forall i :: 0 <= i < |Scan(line, from, pointers, residual).0| ==> Scan(line, from, pointers, residual).0[i].value != ""
    ensures |Scan(line, from, pointers, residual).1| <= |residual|
    decreases |line| - from
  {
    var next := NextMatch(line, from);
    if next.Some? {
      var m := next.value;
      var r := ReplaceFirst(residual, line[m.start..m.end], "");
      assert |r| <= |residual|;
      ScanBounds(line, m.end, pointers + [m.pointer], Trim(r));
    }
  }

  // ---------------------------------------------------------------------------
  // Properties of whole lines

  /** A line with no opening parenthesis keeps its text and yields no pointers. */
  lemma NoParenthesis(line: string)
    requires forall i :: 0 <= i < |line| ==> !IsOpen(line[i])
    ensures PointersOf(line) == ([], line)
  {
    Unescaped(line);
  }

  /** An opening parenthesis preceded by a backslash is never matched: such a line is returned as it is. */
  lemma Unescaped(line: string)
    requires forall i :: 0 <= i < |line| && IsOpen(line[i]) ==> i > 0 && line[i - 1] == '\\'
    ensures PointersOf(line) == ([], line)
  {
    NoMatchFrom(line, 0);
  }

  lemma {:induction false} NoMatchFrom(line: string, from: nat)
    requires from <= |line|
    requires forall i :: 0 <= i < |line| && IsOpen(line[i]) ==> i > 0 && line[i - 1] == '\\'
    ensures NextMatch(line, from) == None
    decreases |line| - from
  {
    if from < |line| {
      assert MatchAt(line, from) == None;
      NoMatchFrom(line, from + 1);
    }
  }

  /** The escaped form `\(x\)` of the tests is left alone when `x` holds no opening parenthesis. */
  lemma EscapedParentheses(x: string)
    requires forall i :: 0 <= i < |x| ==> !IsOpen(x[i])
    ensures PointersOf("\\(" + x + "\\)") == ([], "\\(" + x + "\\)")
  {
    var line := "\\(" + x + "\\)";
    assert forall i :: 2 <= i < 2 + |x| ==> line[i] == x[i - 2];
    Unescaped(line);
  }

  /** A line that is exactly one parenthesised pointer. */
  lemma WholeLine(line: string, p: Pointer)
    requires |line| > 0 && IsOpen(line[0]) && Payload(line, 1) == Some((|line|, p))
    ensures PointersOf(line) == ([p], "")
  {
    assert MatchAt(line, 0) == Some(PointerMatch(0, |line|, p));
    OneMatch(line, p);
  }

  /** A line that is one character, then exactly one parenthesised pointer. */
  lemma WholeLineAfterChar(line: string, p: Pointer)
    requires |line| > 1 && !IsOpen(line[0]) && line[0] != '\\' && IsOpen(line[1])
    requires Payload(line, 2) == Some((|line|, p))
    ensures PointersOf(line) == ([p], "")
  {
    assert MatchAt(line, 0) == Some(PointerMatch(0, |line|, p));
    OneMatch(line, p);
  }

  /** A first match that spans the whole line leaves its pointer and an empty residual. */
  lemma OneMatch(line: string, p: Pointer)
    requires |line| > 0 && MatchAt(line, 0) == Some(PointerMatch(0, |line|, p))
    ensures PointersOf(line) == ([p], "")
  {
    assert NextMatch(line, 0) == Some(PointerMatch(0, |line|, p));
    assert line[0..|line|] == line;
    ReplacePrefix(line, line);
    assert ReplaceFirst(line, line, "") == "";
    assert Trim("") == "";
    assert NextMatch(line, |line|) == None;
    assert [] + [p] == [p];
    assert Scan(line, |line|, [p], "") == ([p], "");
    assert Scan(line, 0, [], line) == Scan(line, |line|, [p], "");
  }

  /**
   * The one character before the opening parenthesis belongs to the match
   * and is removed with it: `a(#x)` leaves an empty residual, not `a`.
   */
  lemma CharBeforePointerRemoved(a: char, o: char, x: string, c: char)
    requires a != '\\' && !IsOpen(a) && IsOpen(o) && IsClose(c)
    requires |x| > 0 && forall i :: 0 <= i < |x| ==> FeatureData.IsIdChar(x[i])
    ensures PointersOf([a, o, '#'] + x + [c]) == ([Pointer(IdPointer, x)], "")
  {
    var line := [a, o, '#'] + x + [c];
    assert line[3..] == x + [c];
    IdRunOf(x, [c]);
    assert line[3..3 + |x|] == x;
    assert IdPayload(line, 2) == Some((|line|, Pointer(IdPointer, x)));
    WholeLineAfterChar(line, Pointer(IdPointer, x));
  }

  lemma {:induction false} IdRunOf(x: string, rest: string)
    requires forall i :: 0 <= i < |x| ==> FeatureData.IsIdChar(x[i])
    requires |rest| > 0 && IsClose(rest[0])
    ensures FeatureData.IdCharRun(x + rest) == |x|
  {
    if |x| > 0 {
      assert (x + rest)[1..] == x[1..] + rest;
      IdRunOf(x[1..], rest);
    }
  }

  lemma {:induction false} WordRunOf(x: string, rest: string)
    requires forall i :: 0 <= i < |x| ==> IsWordChar(x[i])
    requires |rest| > 0 && IsClose(rest[0])
    ensures WordRun(x + rest) == |x|
  {
    if |x| > 0 {
      assert (x + rest)[1..] == x[1..] + rest;
      WordRunOf(x[1..], rest);
    }
  }

  lemma {:induction false} NonCloseRunOf(x: string, rest: string)
    requires forall i :: 0 <= i < |x| ==> !IsClose(x[i])
    requires |rest| > 0 && IsClose(rest[0])
    ensures NonCloseRun(x + rest) == |x|
  {
    if |x| > 0 {
      assert (x + rest)[1..] == x[1..] + rest;
      NonCloseRunOf(x[1..], rest);
    }
  }

  /** `(#x)` gives the id pointer `x` and an empty residual; the full-width parentheses work alike. */
  lemma IdPointerLine(o: char, x: string, c: char)
    requires IsOpen(o) && IsClose(c)
    requires |x| > 0 && forall i :: 0 <= i < |x| ==> FeatureData.IsIdChar(x[i])
    ensures PointersOf([o, '#'] + x + [c]) == ([Pointer(IdPointer, x)], "")
  {
    var line := [o, '#'] + x + [c];
    assert line[2..] == x + [c];
    IdRunOf(x, [c]);
    assert line[2..2 + |x|] == x;
    assert IdPayload(line, 1) == Some((|line|, Pointer(IdPointer, x)));
    WholeLine(line, Pointer(IdPointer, x));
  }

  /** `(.x)` with a letter after the dot gives the class pointer `x`. */
  lemma ClassPointerLine(o: char, x: string, c: char)
    requires IsOpen(o) && IsClose(c)
    requires |x| > 0 && IsLetter(x[0]) && forall i :: 0 <= i < |x| ==> IsWordChar(x[i])
    ensures PointersOf([o, '.'] + x + [c]) == ([Pointer(ClassPointer, x)], "")
  {
    var line := [o, '.'] + x + [c];
    assert line[3..] == x[1..] + [c];
    WordRunOf(x[1..], [c]);
    assert line[2..2 + |x|] == x;
    assert IdPayload(line, 1) == None;
    assert ClassPayload(line, 1) == Some((|line|, Pointer(ClassPointer, x)));
    WholeLine(line, Pointer(ClassPointer, x));
  }

  /**
   * `(x)` where `x` is neither an id nor a class run gives the label pointer
   * `x` verbatim: two-letter labels, spaces and other characters included.
   */
  lemma LabelPointerLine(o: char, x: string, c: char)
    requires IsOpen(o) && IsClose(c)
    requires |x| > 0 && x[0] != '#' && x[0] != '.' && forall i :: 0 <= i < |x| ==> !IsClose(x[i])
    ensures PointersOf([o] + x + [c]) == ([Pointer(LabelPointer, x)], "")
  {
    var line := [o] + x + [c];
    assert line[1..] == x + [c];
    NonCloseRunOf(x, [c]);
    assert line[1..1 + |x|] == x;
    assert LabelPayload(line, 1) == Some((|line|, Pointer(LabelPointer, x)));
    WholeLine(line, Pointer(LabelPointer, x));
  }
}
