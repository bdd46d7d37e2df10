/** String operations the portfolio code performs with Python built-ins:
    `startswith`, `split(',')[0]`, slicing `[:n]` and `replace(" ", "_")`. */
module Text {

  /** Python's `s.startswith(prefix)`. */
  predicate StartsWith(s: string, prefix: string) {
    |prefix| <= |s| && s[..|prefix|] == prefix
  }

  /** Python's `s.split(',')[0]`: the text before the first comma, or all of `s`
      when it holds no comma. Nothing is trimmed. The three postconditions
      determine the result: it is the only comma-free prefix that stops at a
      comma or at the end. */
  function BeforeFirstComma(s: string): (r: string)
    ensures r <= s
    ensures ',' !in r
    ensures r == s || s[|r|] == ','
  {
    if |s| == 0 || s[0] == ',' then ""
    else [s[0]] + BeforeFirstComma(s[1..])
  }

  /** Python's `s[:n]` for `n >= 0`. */
  function Truncate(s: string, n: nat): (r: string)
    ensures r <= s
    ensures |r| <= n
    ensures |s| <= n ==> r == s
    ensures n < |s| ==> |r| == n
  {
    if |s| <= n then s else s[..n]
  }

  /** Python's `s.replace(" ", "_")`. */
  function SpacesToUnderscores(s: string): (r: string)
    ensures |r| == |s|
    ensures forall i :: 0 <= i < |s| ==> r[i] == (if s[i] == ' ' then '_' else s[i])
    ensures ' ' !in r
  {
    if |s| == 0 then ""
    else [if s[0] == ' ' then '_' else s[0]] + SpacesToUnderscores(s[1..])
  }
}
