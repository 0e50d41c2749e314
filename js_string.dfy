/**
 * The pieces of ECMAScript string semantics the sanitizer relies on: the character set
 * that `\s` matches and `String.prototype.trim` removes, line terminators (where `^`
 * matches under the `m` flag), `\d`, maximal runs of a character class, and `trim`.
 */
module JsString {
  import opened Sequences

  /**
   * ECMAScript WhiteSpace or LineTerminator: tab, line feed, vertical tab, form feed,
   * carriage return, space, no-break space, the Unicode space separators (U+1680,
   * U+2000..U+200A, U+202F, U+205F, U+3000), U+2028, U+2029 and the byte-order mark.
   * This is both the class `\s` and the set `trim` removes.
   */
  predicate IsSpace(c: char) {
    var n := c as int;
    n == 0x09 || n == 0x0A || n == 0x0B || n == 0x0C || n == 0x0D || n == 0x20 || n == 0xA0
    || n == 0x1680 || (0x2000 <= n <= 0x200A) || n == 0x2028 || n == 0x2029
    || n == 0x202F || n == 0x205F || n == 0x3000 || n == 0xFEFF
  }

  /** ECMAScript LineTerminator: after one of these, `^` matches under the `m` flag. */
  predicate IsLineTerminator(c: char) {
    c == '\n' || c == '\r' || c as int == 0x2028 || c as int == 0x2029
  }

  /** `\d` (ASCII digits only). */
  predicate IsDigit(c: char) {
    '0' <= c <= '9'
  }

  /** `\s` includes every line terminator, so a whitespace run can cross into the next line. */
  lemma LineTerminatorIsSpace(c: char)
    ensures IsLineTerminator(c) ==> IsSpace(c)
  {
  }

  /**
   * No whitespace character is a digit or one of the marker characters, so in every
   * pattern a greedy `\s` run stops exactly where the marker begins.
   */
  lemma SpaceIsNoMarker(c: char)
    requires IsSpace(c)
    ensures !IsDigit(c)
    ensures c != '#' && c != '>' && c != '-' && c != '*' && c != '+' && c != '.' && c != '`' && c != '_'
  {
  }

  /** The single-character classes the regular expressions are built from. */
  datatype CharClass =
    | Space          // \s
    | Digit          // \d
    | Exactly(c: char)
    | AnyBut(c: char) // [^c]

  predicate InClass(c: char, cc: CharClass) {
    match cc
    case Space => IsSpace(c)
    case Digit => IsDigit(c)
    case Exactly(d) => c == d
    case AnyBut(d) => c != d
  }

  /** `s[i..j]` is a run of `cc` characters. */
  predicate RunOf(s: string, i: nat, j: nat, cc: CharClass) {
    i <= j <= |s| && forall k :: i <= k < j ==> InClass(s[k], cc)
  }

  /** The end of the longest run of `cc` characters starting at `i`: what a greedy `cc*` consumes. */
  function Span(s: string, i: nat, cc: CharClass): (j: nat)
    requires i <= |s|
    ensures i <= j <= |s|
    decreases |s| - i
  {
    if i == |s| || !InClass(s[i], cc) then i else Span(s, i + 1, cc)
  }

  /** `Span` stops at the first character outside the class: the run is maximal. */
  lemma {:induction false} SpanMaximal(s: string, i: nat, cc: CharClass)
    requires i <= |s|
    ensures forall k :: i <= k < Span(s, i, cc) ==> InClass(s[k], cc)
    ensures Span(s, i, cc) < |s| ==> !InClass(s[Span(s, i, cc)], cc)
    decreases |s| - i
  {
    if i < |s| && InClass(s[i], cc) {
      SpanMaximal(s, i + 1, cc);
    }
  }

  /** The start of the longest run of whitespace that ends at `j` and does not reach below `lo`. */
  function SpaceRunBefore(s: string, lo: nat, j: nat): (b: nat)
    requires lo <= j <= |s|
    ensures lo <= b <= j
    decreases j
  {
    if j == lo || !IsSpace(s[j - 1]) then j else SpaceRunBefore(s, lo, j - 1)
  }

  /** `SpaceRunBefore` stops at the first non-whitespace character going backwards. */
  lemma {:induction false} SpaceRunBeforeMaximal(s: string, lo: nat, j: nat)
    requires lo <= j <= |s|
    ensures forall k :: SpaceRunBefore(s, lo, j) <= k < j ==> IsSpace(s[k])
    ensures SpaceRunBefore(s, lo, j) > lo ==> !IsSpace(s[SpaceRunBefore(s, lo, j) - 1])
    decreases j
  {
    if j > lo && IsSpace(s[j - 1]) {
      SpaceRunBeforeMaximal(s, lo, j - 1);
    }
  }

  /** `s.trim()`. */
  function Trim(s: string): (r: string)
    ensures |r| <= |s|
  {
    var a := Span(s, 0, Space);
    s[a..SpaceRunBefore(s, a, |s|)]
  }

  /** The run is determined by its defining properties. */
  lemma SpanIs(s: string, i: nat, cc: CharClass, j: nat)
    requires i <= j <= |s|
    requires forall k :: i <= k < j ==> InClass(s[k], cc)
    requires j < |s| ==> !InClass(s[j], cc)
    ensures Span(s, i, cc) == j
  {
    SpanMaximal(s, i, cc);
  }

  /** A run over the whole of `x`, when what follows `x` is outside the class. */
  lemma SpanOver(pre: string, x: string, y: string, cc: CharClass)
    requires forall k :: 0 <= k < |x| ==> InClass(x[k], cc)
    requires y == [] || !InClass(y[0], cc)
    ensures Span(pre + x + y, |pre|, cc) == |pre| + |x|
  {
    var s := pre + x + y;
    forall k | |pre| <= k < |pre| + |x| ensures InClass(s[k], cc) {
      assert s[k] == x[k - |pre|];
    }
    if y != [] {
      assert s[|pre| + |x|] == y[0];
    }
    SpanIs(s, |pre|, cc, |pre| + |x|);
  }

  lemma SpaceRunBeforeIs(s: string, lo: nat, j: nat, b: nat)
    requires lo <= b <= j <= |s|
    requires forall k :: b <= k < j ==> IsSpace(s[k])
    requires b > lo ==> !IsSpace(s[b - 1])
    ensures SpaceRunBefore(s, lo, j) == b
    decreases j
  {
    if b < j {
      SpaceRunBeforeIs(s, lo, j - 1, b);
    }
  }

  /** The trimmed text neither starts nor ends with whitespace. */
  lemma TrimmedEnds(s: string)
    ensures var r := Trim(s); r == [] || (!IsSpace(r[0]) && !IsSpace(r[|r| - 1]))
  {
    SpanMaximal(s, 0, Space);
    var a := Span(s, 0, Space);
    SpaceRunBeforeMaximal(s, a, |s|);
  }

  /** Trimming what was padded with whitespace gives back the unpadded text. */
  lemma TrimOfPadded(pre: string, x: string, post: string)
    requires forall k :: 0 <= k < |pre| ==> IsSpace(pre[k])
    requires forall k :: 0 <= k < |post| ==> IsSpace(post[k])
    requires x == [] || (!IsSpace(x[0]) && !IsSpace(x[|x| - 1]))
    ensures Trim(pre + x + post) == x
  {
    var s := pre + x + post;
    if x == [] {
      SpanIs(s, 0, Space, |s|);
    } else {
      SpanIs(s, 0, Space, |pre|);
      SpaceRunBeforeIs(s, |pre|, |s|, |pre| + |x|);
      assert s[|pre|..|pre| + |x|] == x;
    }
  }

  /** Trimming only deletes, and only whitespace. */
  lemma TrimDeletesOnlySpaces(s: string)
    ensures IsSubsequence(Trim(s), s)
    ensures Erase(Trim(s), IsSpace) == Erase(s, IsSpace)
  {
    var a := Span(s, 0, Space);
    var b := SpaceRunBefore(s, a, |s|);
    assert Trim(s) == s[a..b];
    SliceIsSubsequence(s, a, b);
    SpanMaximal(s, 0, Space);
    SpaceRunBeforeMaximal(s, a, |s|);
    EraseOutside(s, a, b, IsSpace);
  }
}
