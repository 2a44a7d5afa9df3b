/** Character classes of Python's `re` module on `str` patterns, as far as the
    bot's own patterns use them. */
module Text {

  /** The case fold `re.IGNORECASE` applies when a pattern letter is ASCII:
      ASCII upper case maps to lower case, and the four non-ASCII letters
      Python equates with ASCII ones (dotted and dotless I, long s, Kelvin
      sign) map to their ASCII partner. Other characters are left alone. */
  function Fold(c: char): (r: char)
    ensures 'A' <= c <= 'Z' ==> r as int == c as int + 32
    ensures r != c ==> 'a' <= r <= 'z'
    ensures !('a' <= r <= 'z') ==> r == c
    ensures 'a' <= r <= 'z' ==>
      || c == r
      || c as int == r as int - 32
      || (r == 'i' && (c == '\U{130}' || c == '\U{131}'))
      || (r == 's' && c == '\U{17f}')
      || (r == 'k' && c == '\U{212a}')
  {
    if 'A' <= c <= 'Z' then (c as int + 32) as char
    else if c == '\U{130}' || c == '\U{131}' then 'i'
    else if c == '\U{17f}' then 's'
    else if c == '\U{212a}' then 'k'
    else c
  }

  /** `s` matches the literal `lit` (written in lower case) under `re.IGNORECASE`. */
  predicate FoldEq(s: string, lit: string) {
    |s| == |lit| && forall i :: 0 <= i < |s| ==> Fold(s[i]) == lit[i]
  }

  /** `s` starts with `lit` under `re.IGNORECASE`. */
  predicate FoldPrefix(s: string, lit: string) {
    |lit| <= |s| && FoldEq(s[..|lit|], lit)
  }

  /** `s` ends with `lit` under `re.IGNORECASE`. */
  predicate FoldSuffix(s: string, lit: string) {
    |lit| <= |s| && FoldEq(s[|s| - |lit|..], lit)
  }

  /** Python's `\s` on `str` patterns: the characters `str.isspace` accepts. */
  predicate IsSpace(c: char) {
    || '\t' <= c <= '\r'
    || '\U{1c}' <= c <= ' '
    || c == '\U{85}' || c == '\U{a0}' || c == '\U{1680}'
    || '\U{2000}' <= c <= '\U{200a}'
    || c == '\U{2028}' || c == '\U{2029}' || c == '\U{202f}'
    || c == '\U{205f}' || c == '\U{3000}'
  }

  /** Length of the longest run of `\s` characters of `s` starting at `from`. */
  function SpaceRun(s: string, from: nat): (n: nat)
    requires from <= |s|
    ensures from + n <= |s|
    ensures forall i :: from <= i < from + n ==> IsSpace(s[i])
    ensures from + n == |s| || !IsSpace(s[from + n])
    decreases |s| - from
  {
    if from == |s| || !IsSpace(s[from]) then 0 else 1 + SpaceRun(s, from + 1)
  }

  /** Index of the first newline of `s` at or after `from`, or `|s|`: where a
      greedy `.` run starting at `from` stops. */
  function LineEnd(s: string, from: nat): (e: nat)
    requires from <= |s|
    ensures from <= e <= |s|
    ensures forall i :: from <= i < e ==> s[i] != '\n'
    ensures e == |s| || s[e] == '\n'
    decreases |s| - from
  {
    if from == |s| || s[from] == '\n' then from else LineEnd(s, from + 1)
  }
}
