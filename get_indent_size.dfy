/** `getIndentSize`: how many whitespace characters a line starts with. */
module GetIndentSize {
  import opened JsString

  /** The length of what `/^\s*` matches: the maximal leading-whitespace prefix. */
  function GetIndentSize(line: string): (r: nat)
    ensures r <= |line|
    ensures forall i :: 0 <= i < r ==> IsSpace(line[i])
    ensures r < |line| ==> !IsSpace(line[r])
    ensures r == |line| <==> AllSpace(line)
  {
    var r := LeadingSpaces(line);
    assert forall i :: 0 <= i < r ==> line[i] == line[..r][i];
    r
  }
}
