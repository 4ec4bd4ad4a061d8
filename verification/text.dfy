/**
 * String trimming as JavaScript's `String.prototype.trim` does it: every
 * leading and trailing code point that ECMAScript classifies as WhiteSpace or
 * LineTerminator is stripped. The handlers apply it to the contents of the
 * session file before using them as a user id.
 */
module Text {

  /** ECMAScript WhiteSpace (TAB, VT, FF, SP, NBSP, ZWNBSP, category Zs) and LineTerminator (LF, CR, LS, PS). */
  predicate IsSpace(c: char) {
    var n := c as int;
    n == 0x09 || n == 0x0A || n == 0x0B || n == 0x0C || n == 0x0D || n == 0x20 || n == 0xA0
    || n == 0x1680 || (0x2000 <= n <= 0x200A) || n == 0x2028 || n == 0x2029 || n == 0x202F
    || n == 0x205F || n == 0x3000 || n == 0xFEFF
  }

  /** Neither end of `s` is white space. */
  predicate Trimmed(s: string) {
    s == [] || (!IsSpace(s[0]) && !IsSpace(s[|s| - 1]))
  }

  /** The first index at or after `i` that is not white space (or `|s|`). */
  function SkipForward(s: string, i: nat): (j: nat)
    requires i <= |s|
    ensures i <= j <= |s|
    ensures forall k :: i <= k < j ==> IsSpace(s[k])
    ensures j < |s| ==> !IsSpace(s[j])
    decreases |s| - i
  {
    if i < |s| && IsSpace(s[i]) then SkipForward(s, i + 1) else i
  }

  /** The end of `s[lo..j]` once the white space at its back is dropped. */
  function SkipBackward(s: string, lo: nat, j: nat): (e: nat)
    requires lo <= j <= |s|
    ensures lo <= e <= j
    ensures forall k :: e <= k < j ==> IsSpace(s[k])
    ensures e > lo ==> !IsSpace(s[e - 1])
    decreases j
  {
    if j > lo && IsSpace(s[j - 1]) then SkipBackward(s, lo, j - 1) else j
  }

  /** `data.trim()`: `s` without its leading and trailing white space. */
  function Trim(s: string): (r: string)
    ensures Trimmed(r)
    ensures |r| <= |s|
  {
    var a := SkipForward(s, 0);
    s[a..SkipBackward(s, a, |s|)]
  }

  /**
   * Trim removes white space at the two ends and nothing else: it is the
   * slice `s[a..e]`, everything before `a` and from `e` on being white space.
   */
  lemma TrimSplitsOffSpace(s: string)
    ensures exists a, e :: 0 <= a <= e <= |s| && Trim(s) == s[a..e]
              && (forall k :: 0 <= k < a ==> IsSpace(s[k]))
              && (forall k :: e <= k < |s| ==> IsSpace(s[k]))
  {
    var a := SkipForward(s, 0);
    var e := SkipBackward(s, a, |s|);
    assert Trim(s) == s[a..e];
  }

  /** A string without white space at its ends is its own trim. */
  lemma TrimOfTrimmed(s: string)
    requires Trimmed(s)
    ensures Trim(s) == s
  {
  }

  /** Trimming twice is trimming once. */
  lemma TrimIdempotent(s: string)
    ensures Trim(Trim(s)) == Trim(s)
  {
  }
}
