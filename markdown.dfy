/**
 * `stripMarkdown` of the chat route: eleven global regular-expression replacements
 * applied in a fixed order, then `trim()`.
 *
 * Each regular expression is a `Pattern`; `MatchAt` says what the JavaScript engine
 * matches at the start of the text still to be scanned (with its backtracking worked out
 * by hand: the character classes next to each other in every pattern are disjoint, so
 * each greedy repetition must take its longest run). `Scan` is the `g` flag: try at the
 * current position, and after a match resume at its end, so that matches never overlap.
 * None of the patterns looks behind the current position except through `^`, so the
 * scan carries the rest of the text and one flag saying whether `^` matches there.
 */
module MarkdownSanitizer {
  import opened Wrappers
  import opened Sequences
  import opened JsString

  datatype Pattern =
    | FencedBlock                          // /```[\s\S]*?```/g, replaced by the inside, fences removed, trimmed
    | Delimited(delim: char, double: bool) // the delimiter once or twice, ([^delim]+), the same again; replaced by the group
    | HeadingMarker                        // /^\s{0,3}#{1,6}\s+/gm, deleted
    | QuoteMarker                          // /^\s{0,3}>\s?/gm, deleted
    | BulletMarker                         // /^\s*[-*+]\s+/gm, deleted
    | NumberMarker                         // /^\s*\d+\.\s+/gm, deleted
    | BlankLines                           // /\n{3,}/g, replaced by "\n\n"

  /** A match of the first `len` characters, and the text that replaces them. */
  datatype Match = Match(len: nat, replacement: string)

  /** Three backticks start at `k`. */
  predicate FenceAt(s: string, k: nat) {
    k + 3 <= |s| && s[k] == '`' && s[k + 1] == '`' && s[k + 2] == '`'
  }

  /** The first fence at or after `k`, or `|s|` when there is none: where the lazy `[\s\S]*?` stops. */
  function NextFence(s: string, k: nat): (j: nat)
    requires k <= |s|
    ensures k <= j <= |s|
    ensures j < |s| ==> FenceAt(s, j)
    decreases |s| - k
  {
    if k == |s| || FenceAt(s, k) then k else NextFence(s, k + 1)
  }

  /** No fence starts between `k` and the one `NextFence` finds: the lazy match is the shortest. */
  lemma {:induction false} NextFenceFirst(s: string, k: nat)
    requires k <= |s|
    ensures forall m :: k <= m < NextFence(s, k) ==> !FenceAt(s, m)
    decreases |s| - k
  {
    if k < |s| && !FenceAt(s, k) {
      NextFenceFirst(s, k + 1);
    }
  }

  /** The fence `NextFence` finds is determined by its defining properties. */
  lemma {:induction false} NextFenceIs(s: string, k: nat, j: nat)
    requires k <= j <= |s|
    requires j < |s| ==> FenceAt(s, j)
    requires forall m :: k <= m < j ==> !FenceAt(s, m)
    ensures NextFence(s, k) == j
    decreases j - k
  {
    if k < j {
      NextFenceIs(s, k + 1, j);
    }
  }

  /** The replacer's `m.replace(/```/g, "")`: every fence, scanned left to right, deleted. */
  function RemoveFenceMarks(m: string): (r: string)
    ensures |r| <= |m|
  {
    if m == [] then []
    else if FenceAt(m, 0) then RemoveFenceMarks(m[3..])
    else [m[0]] + RemoveFenceMarks(m[1..])
  }

  function Width(double: bool): nat {
    if double then 2 else 1
  }

  /** The delimiter text: `d` once, or twice when `double`. */
  function Marker(d: char, double: bool): (r: string)
    ensures |r| == Width(double) && forall k :: 0 <= k < |r| ==> r[k] == d
  {
    if double then [d, d] else [d]
  }

  /** The delimiter text starts at `k`. */
  predicate MarkerAt(s: string, k: nat, d: char, double: bool) {
    k + Width(double) <= |s| && s[k] == d && (double ==> s[k + 1] == d)
  }

  /** What `p` matches at the start of `s`, where `lineStart` says whether `^` matches there. */
  function MatchAt(p: Pattern, s: string, lineStart: bool): (r: Option<Match>)
    ensures r.Some? ==> 0 < r.value.len <= |s| && |r.value.replacement| <= r.value.len
    ensures !lineStart && !Unanchored(p) ==> r.None?
  {
    match p
    case FencedBlock => FenceMatch(s)
    case Delimited(d, double) => DelimitedMatch(d, double, s)
    case HeadingMarker => if lineStart then HeadingMatch(s) else None
    case QuoteMarker => if lineStart then QuoteMatch(s) else None
    case BulletMarker => if lineStart then BulletMatch(s) else None
    case NumberMarker => if lineStart then NumberMatch(s) else None
    case BlankLines => BlankLinesMatch(s)
  }

  /** /```[\s\S]*?```/: from an opening fence to the first fence after it. */
  function FenceMatch(s: string): (r: Option<Match>)
    ensures r.Some? ==> 0 < r.value.len <= |s| && |r.value.replacement| <= r.value.len
    ensures r.None? <==> !FenceAt(s, 0) || forall m :: 3 <= m < |s| ==> !FenceAt(s, m)
    ensures r.Some? ==> 6 <= r.value.len && FenceAt(s, 0) && FenceAt(s, r.value.len - 3)
    ensures r.Some? ==> forall m :: 3 <= m < r.value.len - 3 ==> !FenceAt(s, m)
    ensures r.Some? ==> r.value.replacement == FenceReplacement(s[..r.value.len])
  {
    if !FenceAt(s, 0) then None
    else
      NextFenceFirst(s, 3);
      var j := NextFence(s, 3);
      if j == |s| then None
      else Some(Match(j + 3, FenceReplacement(s[..j + 3])))
  }

  /** The replacer `(m) => m.replace(/```/g, "").trim()`. */
  function FenceReplacement(block: string): (r: string)
    ensures |r| <= |block| && IsSubsequence(r, block)
    ensures Erase(r, DeletedBy(FencedBlock)) == Erase(block, DeletedBy(FencedBlock))
    ensures r == [] || (!IsSpace(r[0]) && !IsSpace(r[|r| - 1]))
  {
    var x := RemoveFenceMarks(block);
    RemoveFenceMarksErases(block, DeletedBy(FencedBlock));
    TrimErases(x, DeletedBy(FencedBlock));
    SubsequenceTrans(Trim(x), x, block);
    TrimmedEnds(x);
    Trim(x)
  }

  /**
   * The delimiter, ([^d]+), the delimiter, replaced by the group: /`([^`]+)`/ is
   * `Delimited('`', false)`, bold with asterisks is `Delimited('*', true)`, and so on.
   */
  function DelimitedMatch(d: char, double: bool, s: string): (r: Option<Match>)
    ensures r.Some? ==> 0 < r.value.len <= |s| && |r.value.replacement| <= r.value.len
    ensures r.Some? ==> var w := Width(double);
      MarkerAt(s, 0, d, double) && 2 * w < r.value.len && MarkerAt(s, r.value.len - w, d, double)
      && r.value.replacement == s[w..r.value.len - w]
    ensures r.Some? ==> forall k :: 0 <= k < |r.value.replacement| ==> r.value.replacement[k] != d
  {
    var w := Width(double);
    if !MarkerAt(s, 0, d, double) then None
    else
      SpanMaximal(s, w, AnyBut(d));
      var j := Span(s, w, AnyBut(d));
      if j == w || !MarkerAt(s, j, d, double) then None
      else Some(Match(j + w, s[w..j]))
  }

  /**
   * `s[..n]` is `\s{0,3}#{1,6}\s+` read greedily: `a` whitespace characters, the `#` run
   * up to `b`, and whitespace up to `n`, which the next character does not continue.
   */
  predicate HeadingShape(s: string, n: nat, a: nat, b: nat) {
    a <= 3 && 1 <= b - a <= 6 && b < n
    && RunOf(s, 0, a, Space) && RunOf(s, a, b, Exactly('#')) && RunOf(s, b, n, Space)
    && (n == |s| || !IsSpace(s[n]))
  }

  /** `s[..n]` is `\s{0,3}>\s?` read greedily, with `>` at `a`. */
  predicate QuoteShape(s: string, n: nat, a: nat) {
    a <= 3 && a < |s| && RunOf(s, 0, a, Space) && s[a] == '>'
    && a + 1 <= n <= a + 2 && RunOf(s, a + 1, n, Space)
    && (n == a + 1 ==> n == |s| || !IsSpace(s[n]))
  }

  /** `s[..n]` is `\s*[-*+]\s+` read greedily, with the marker at `a`. */
  predicate BulletShape(s: string, n: nat, a: nat) {
    a < |s| && RunOf(s, 0, a, Space) && (s[a] == '-' || s[a] == '*' || s[a] == '+')
    && a + 1 < n && RunOf(s, a + 1, n, Space)
    && (n == |s| || !IsSpace(s[n]))
  }

  /** `s[..n]` is `\s*\d+\.\s+` read greedily: whitespace to `a`, digits to `b`, `.` at `b`. */
  predicate NumberShape(s: string, n: nat, a: nat, b: nat) {
    a < b < |s| && RunOf(s, 0, a, Space) && RunOf(s, a, b, Digit) && s[b] == '.'
    && b + 1 < n && RunOf(s, b + 1, n, Space)
    && (n == |s| || !IsSpace(s[n]))
  }

  /** \s{0,3}#{1,6}\s+ after the `^`, deleted. */
  function HeadingMatch(s: string): (r: Option<Match>)
    ensures r.Some? ==> 0 < r.value.len <= |s| && r.value.replacement == []
    ensures r.Some? <==> exists n: nat, a: nat, b: nat :: HeadingShape(s, n, a, b)
    ensures forall n: nat, a: nat, b: nat :: HeadingShape(s, n, a, b) ==> r == Some(Match(n, ""))
  {
    var a := Span(s, 0, Space);
    var b := Span(s, a, Exactly('#'));
    SpanMaximal(s, 0, Space);
    SpanMaximal(s, a, Exactly('#'));
    SpanMaximal(s, b, Space);
    HeadingShapeForced(s);
    var e := Span(s, b, Space);
    if a <= 3 && 1 <= b - a <= 6 && b < e then
      assert HeadingShape(s, e, a, b);
      Some(Match(e, ""))
    else None
  }

  /** The greedy reading is the only one: a heading shape is the one `Span` finds. */
  lemma HeadingShapeForced(s: string)
    ensures forall n: nat, a: nat, b: nat :: HeadingShape(s, n, a, b) ==>
      a == Span(s, 0, Space) && b == Span(s, a, Exactly('#')) && n == Span(s, b, Space)
  {
    forall n: nat, a: nat, b: nat | HeadingShape(s, n, a, b)
      ensures a == Span(s, 0, Space) && b == Span(s, a, Exactly('#')) && n == Span(s, b, Space)
    {
      SpanIs(s, 0, Space, a);
      SpaceIsNoMarker(s[b]);
      SpanIs(s, a, Exactly('#'), b);
      SpanIs(s, b, Space, n);
    }
  }

  /** \s{0,3}>\s? after the `^`, deleted. */
  function QuoteMatch(s: string): (r: Option<Match>)
    ensures r.Some? ==> 0 < r.value.len <= |s| && r.value.replacement == []
    ensures r.Some? <==> exists n: nat, a: nat :: QuoteShape(s, n, a)
    ensures forall n: nat, a: nat :: QuoteShape(s, n, a) ==> r == Some(Match(n, ""))
  {
    var a := Span(s, 0, Space);
    SpanMaximal(s, 0, Space);
    QuoteShapeForced(s);
    if a <= 3 && a < |s| && s[a] == '>' then
      var n := if a + 1 < |s| && IsSpace(s[a + 1]) then a + 2 else a + 1;
      assert QuoteShape(s, n, a);
      Some(Match(n, ""))
    else None
  }

  lemma QuoteShapeForced(s: string)
    ensures forall n: nat, a: nat :: QuoteShape(s, n, a) ==>
      a == Span(s, 0, Space) && n == (if a + 1 < |s| && IsSpace(s[a + 1]) then a + 2 else a + 1)
  {
    forall n: nat, a: nat | QuoteShape(s, n, a)
      ensures a == Span(s, 0, Space)
    {
      SpanIs(s, 0, Space, a);
    }
  }

  /** \s*[-*+]\s+ after the `^`, deleted. */
  function BulletMatch(s: string): (r: Option<Match>)
    ensures r.Some? ==> 0 < r.value.len <= |s| && r.value.replacement == []
    ensures r.Some? <==> exists n: nat, a: nat :: BulletShape(s, n, a)
    ensures forall n: nat, a: nat :: BulletShape(s, n, a) ==> r == Some(Match(n, ""))
  {
    var a := Span(s, 0, Space);
    SpanMaximal(s, 0, Space);
    BulletShapeForced(s);
    if a < |s| && (s[a] == '-' || s[a] == '*' || s[a] == '+') then
      SpanMaximal(s, a + 1, Space);
      var e := Span(s, a + 1, Space);
      if a + 1 < e then
        assert BulletShape(s, e, a);
        Some(Match(e, ""))
      else None
    else None
  }

  lemma BulletShapeForced(s: string)
    ensures forall n: nat, a: nat :: BulletShape(s, n, a) ==>
      a == Span(s, 0, Space) && n == Span(s, a + 1, Space)
  {
    forall n: nat, a: nat | BulletShape(s, n, a)
      ensures a == Span(s, 0, Space) && n == Span(s, a + 1, Space)
    {
      SpanIs(s, 0, Space, a);
      SpanIs(s, a + 1, Space, n);
    }
  }

  /** \s*\d+\.\s+ after the `^`, deleted. */
  function NumberMatch(s: string): (r: Option<Match>)
    ensures r.Some? ==> 0 < r.value.len <= |s| && r.value.replacement == []
    ensures r.Some? <==> exists n: nat, a: nat, b: nat :: NumberShape(s, n, a, b)
    ensures forall n: nat, a: nat, b: nat :: NumberShape(s, n, a, b) ==> r == Some(Match(n, ""))
  {
    var a := Span(s, 0, Space);
    var b := Span(s, a, Digit);
    SpanMaximal(s, 0, Space);
    SpanMaximal(s, a, Digit);
    NumberShapeForced(s);
    if a < b < |s| && s[b] == '.' then
      SpanMaximal(s, b + 1, Space);
      var e := Span(s, b + 1, Space);
      if b + 1 < e then
        assert NumberShape(s, e, a, b);
        Some(Match(e, ""))
      else None
    else None
  }

  lemma NumberShapeForced(s: string)
    ensures forall n: nat, a: nat, b: nat :: NumberShape(s, n, a, b) ==>
      a == Span(s, 0, Space) && b == Span(s, a, Digit) && n == Span(s, b + 1, Space)
  {
    forall n: nat, a: nat, b: nat | NumberShape(s, n, a, b)
      ensures a == Span(s, 0, Space) && b == Span(s, a, Digit) && n == Span(s, b + 1, Space)
    {
      SpanIs(s, 0, Space, a);
      SpanIs(s, a, Digit, b);
      SpanIs(s, b + 1, Space, n);
    }
  }

  /** \n{3,}, replaced by two line feeds. */
  function BlankLinesMatch(s: string): (r: Option<Match>)
    ensures r.Some? ==> 0 < r.value.len <= |s| && |r.value.replacement| <= r.value.len
    ensures r.Some? <==> 3 <= |s| && s[0] == '\n' && s[1] == '\n' && s[2] == '\n'
    ensures r.Some? ==>
      (r.value.replacement == "\n\n" && (forall k :: 0 <= k < r.value.len ==> s[k] == '\n')
       && (r.value.len == |s| || s[r.value.len] != '\n'))
  {
    SpanMaximal(s, 0, Exactly('\n'));
    var e := Span(s, 0, Exactly('\n'));
    if 3 <= e then Some(Match(e, "\n\n")) else None
  }

  /**
   * What `replace(p, …)` produces from the text still to be scanned, `s`; `lineStart`
   * says whether `^` matches at its start (a line terminator precedes it, or nothing does).
   */
  function Scan(p: Pattern, s: string, lineStart: bool): (r: string)
    ensures |r| <= |s|
    decreases |s|
  {
    if s == [] then []
    else
      match MatchAt(p, s, lineStart)
      case Some(m) => m.replacement + Scan(p, s[m.len..], IsLineTerminator(s[m.len - 1]))
      case None => [s[0]] + Scan(p, s[1..], IsLineTerminator(s[0]))
  }

  /** `s.replace(p, …)`: `^` matches at the start of the text. */
  function Replace(p: Pattern, s: string): (r: string)
    ensures |r| <= |s| && IsSubsequence(r, s)
    ensures Erase(r, DeletedBy(p)) == Erase(s, DeletedBy(p))
  {
    ScanDeletesOnly(p, s, true);
    Scan(p, s, true)
  }

  /** The ten passes that delete markup, in the order the chain applies them. */
  const RemovalPasses: seq<Pattern> := [
    FencedBlock,
    Delimited('`', false),
    Delimited('*', true),
    Delimited('*', false),
    Delimited('_', true),
    Delimited('_', false),
    HeadingMarker,
    QuoteMarker,
    BulletMarker,
    NumberMarker
  ]

  function ApplyPasses(ps: seq<Pattern>, s: string): (r: string)
    ensures |r| <= |s| && IsSubsequence(r, s)
    decreases |ps|
  {
    if ps == [] then SubsequenceRefl(s); s
    else
      var t := Replace(ps[0], s);
      SubsequenceTrans(ApplyPasses(ps[1..], t), t, s);
      ApplyPasses(ps[1..], t)
  }

  /** `stripMarkdown(text)`: the removal passes, then the blank-line collapse, then `trim()`. */
  function StripMarkdown(text: string): (r: string)
    ensures |r| <= |text|
  {
    Trim(Replace(BlankLines, ApplyPasses(RemovalPasses, text)))
  }

  // ---------------------------------------------------------------------------
  // What each pass may delete

  /** The characters a match of `p` may delete. */
  predicate Deletes(p: Pattern, c: char) {
    match p
    case FencedBlock => c == '`' || IsSpace(c)
    case Delimited(d, _) => c == d
    case HeadingMarker => IsSpace(c) || c == '#'
    case QuoteMarker => IsSpace(c) || c == '>'
    case BulletMarker => IsSpace(c) || c == '-' || c == '*' || c == '+'
    case NumberMarker => IsSpace(c) || IsDigit(c) || c == '.'
    case BlankLines => c == '\n'
  }

  function DeletedBy(p: Pattern): char -> bool {
    c => Deletes(p, c)
  }

  /** Whitespace and every character some pass of the pipeline deletes. */
  predicate IsMarkup(c: char) {
    IsSpace(c) || IsDigit(c) || c == '`' || c == '*' || c == '_' || c == '#' || c == '>'
    || c == '-' || c == '+' || c == '.'
  }

  /** The text with all markup characters and whitespace erased. */
  function VisibleText(s: string): string {
    Erase(s, IsMarkup)
  }

  /** `s` has no three line feeds in a row. */
  predicate NoTripleNewline(s: string) {
    forall k :: 0 <= k && k + 2 < |s| ==> !(s[k] == '\n' && s[k + 1] == '\n' && s[k + 2] == '\n')
  }

  lemma TrimErases(x: string, drop: char -> bool)
    requires forall c :: IsSpace(c) ==> drop(c)
    ensures IsSubsequence(Trim(x), x)
    ensures Erase(Trim(x), drop) == Erase(x, drop)
  {
    TrimDeletesOnlySpaces(x);
    EraseAbsorb(Trim(x), IsSpace, drop);
    EraseAbsorb(x, IsSpace, drop);
  }

  /** Removing the fences deletes backticks and nothing else. */
  lemma {:induction false} RemoveFenceMarksErases(m: string, drop: char -> bool)
    requires drop('`')
    ensures IsSubsequence(RemoveFenceMarks(m), m)
    ensures Erase(RemoveFenceMarks(m), drop) == Erase(m, drop)
    decreases |m|
  {
    if m == [] {
    } else if FenceAt(m, 0) {
      RemoveFenceMarksErases(m[3..], drop);
      SubsequencePrepend(RemoveFenceMarks(m), m[..3], m[3..]);
      assert m == m[..3] + m[3..];
      EraseConcat(m[..3], m[3..], drop);
      EraseAll(m[..3], drop);
    } else {
      RemoveFenceMarksErases(m[1..], drop);
      SubsequenceRefl(m[..1]);
      SubsequenceConcat(m[..1], m[..1], RemoveFenceMarks(m[1..]), m[1..]);
      assert m == m[..1] + m[1..];
      EraseConcat(m[..1], RemoveFenceMarks(m[1..]), drop);
      EraseConcat(m[..1], m[1..], drop);
    }
  }

  /** The replacement is obtained from the matched text by deleting characters `p` may delete. */
  predicate OnlyDeletes(p: Pattern, s: string, m: Match)
    requires m.len <= |s|
  {
    IsSubsequence(m.replacement, s[..m.len])
    && Erase(m.replacement, DeletedBy(p)) == Erase(s[..m.len], DeletedBy(p))
  }

  /** A match whose whole text is deletable and whose replacement is empty. */
  lemma DeletedSegment(p: Pattern, s: string, e: nat)
    requires e <= |s|
    requires forall k :: 0 <= k < e ==> Deletes(p, s[k])
    ensures OnlyDeletes(p, s, Match(e, ""))
  {
    var seg := s[..e];
    forall k | 0 <= k < |seg| ensures DeletedBy(p)(seg[k]) { assert seg[k] == s[k]; }
    EraseAll(seg, DeletedBy(p));
  }

  lemma FenceMatchDeletesOnly(s: string)
    requires FenceMatch(s).Some?
    ensures OnlyDeletes(FencedBlock, s, FenceMatch(s).value)
  {
    var m := FenceMatch(s).value;
    var seg := s[..m.len];
    var drop := DeletedBy(FencedBlock);
    var x := RemoveFenceMarks(seg);
    assert m.replacement == Trim(x);
    RemoveFenceMarksErases(seg, drop);
    TrimErases(x, drop);
    SubsequenceTrans(Trim(x), x, seg);
  }

  lemma DelimitedMatchDeletesOnly(d: char, double: bool, s: string)
    requires DelimitedMatch(d, double, s).Some?
    ensures OnlyDeletes(Delimited(d, double), s, DelimitedMatch(d, double, s).value)
  {
    var m := DelimitedMatch(d, double, s).value;
    var drop := DeletedBy(Delimited(d, double));
    var w := Width(double);
    var j := m.len - w;
    var seg := s[..m.len];
    var pre, mid, post := s[..w], s[w..j], s[j..j + w];
    assert seg == pre + mid + post;
    assert m.replacement == mid;
    SliceIsSubsequence(seg, w, j);
    assert seg[w..j] == mid;
    forall k | 0 <= k < |pre| ensures drop(pre[k]) { assert pre[k] == s[k]; }
    forall k | 0 <= k < |post| ensures drop(post[k]) { assert post[k] == s[j + k]; }
    SpanMaximal(s, w, AnyBut(d));
    forall k | 0 <= k < |mid| ensures !drop(mid[k]) { assert mid[k] == s[w + k]; }
    ErasePadded(pre, mid, post, drop);
    EraseNone(mid, drop);
  }

  lemma BlankLinesMatchDeletesOnly(s: string)
    requires BlankLinesMatch(s).Some?
    ensures OnlyDeletes(BlankLines, s, BlankLinesMatch(s).value)
  {
    var m := BlankLinesMatch(s).value;
    var seg := s[..m.len];
    var drop := DeletedBy(BlankLines);
    SpanMaximal(s, 0, Exactly('\n'));
    forall k | 0 <= k < |seg| ensures drop(seg[k]) { assert seg[k] == s[k]; }
    EraseAll(seg, drop);
    EraseAll(m.replacement, drop);
    SliceIsSubsequence(seg, 0, 2);
    assert seg[0..2] == "\n\n";
  }

  lemma HeadingMatchDeletesOnly(s: string)
    requires HeadingMatch(s).Some?
    ensures OnlyDeletes(HeadingMarker, s, HeadingMatch(s).value)
  {
    var a := Span(s, 0, Space);
    var b := Span(s, a, Exactly('#'));
    SpanMaximal(s, 0, Space);
    SpanMaximal(s, a, Exactly('#'));
    SpanMaximal(s, b, Space);
    DeletedSegment(HeadingMarker, s, Span(s, b, Space));
  }

  lemma QuoteMatchDeletesOnly(s: string)
    requires QuoteMatch(s).Some?
    ensures OnlyDeletes(QuoteMarker, s, QuoteMatch(s).value)
  {
    SpanMaximal(s, 0, Space);
    DeletedSegment(QuoteMarker, s, QuoteMatch(s).value.len);
  }

  lemma BulletMatchDeletesOnly(s: string)
    requires BulletMatch(s).Some?
    ensures OnlyDeletes(BulletMarker, s, BulletMatch(s).value)
  {
    var a := Span(s, 0, Space);
    SpanMaximal(s, 0, Space);
    SpanMaximal(s, a + 1, Space);
    DeletedSegment(BulletMarker, s, Span(s, a + 1, Space));
  }

  lemma NumberMatchDeletesOnly(s: string)
    requires NumberMatch(s).Some?
    ensures OnlyDeletes(NumberMarker, s, NumberMatch(s).value)
  {
    var a := Span(s, 0, Space);
    var b := Span(s, a, Digit);
    SpanMaximal(s, 0, Space);
    SpanMaximal(s, a, Digit);
    SpanMaximal(s, b + 1, Space);
    DeletedSegment(NumberMarker, s, Span(s, b + 1, Space));
  }

  /** A single match only deletes characters, and only characters its pattern may delete. */
  lemma MatchDeletesOnly(p: Pattern, s: string, lineStart: bool)
    requires MatchAt(p, s, lineStart).Some?
    ensures OnlyDeletes(p, s, MatchAt(p, s, lineStart).value)
  {
    match p
    case FencedBlock => FenceMatchDeletesOnly(s);
    case Delimited(d, double) => DelimitedMatchDeletesOnly(d, double, s);
    case HeadingMarker => HeadingMatchDeletesOnly(s);
    case QuoteMarker => QuoteMatchDeletesOnly(s);
    case BulletMarker => BulletMatchDeletesOnly(s);
    case NumberMarker => NumberMatchDeletesOnly(s);
    case BlankLines => BlankLinesMatchDeletesOnly(s);
  }

  /** Deleting only deletable characters is preserved by concatenation. */
  lemma ConcatDeletesOnly(drop: char -> bool, x: string, xs: string, y: string, ys: string)
    requires IsSubsequence(x, xs) && Erase(x, drop) == Erase(xs, drop)
    requires IsSubsequence(y, ys) && Erase(y, drop) == Erase(ys, drop)
    ensures IsSubsequence(x + y, xs + ys) && Erase(x + y, drop) == Erase(xs + ys, drop)
  {
    SubsequenceConcat(x, xs, y, ys);
    EraseConcat(x, y, drop);
    EraseConcat(xs, ys, drop);
  }

  /** One step of the scan: the first `n` characters become `x`, the rest becomes `tail`. */
  lemma StepDeletesOnly(drop: char -> bool, s: string, n: nat, x: string, tail: string, whole: string)
    requires 0 < n <= |s| && whole == x + tail
    requires IsSubsequence(x, s[..n]) && Erase(x, drop) == Erase(s[..n], drop)
    requires IsSubsequence(tail, s[n..]) && Erase(tail, drop) == Erase(s[n..], drop)
    ensures IsSubsequence(whole, s) && Erase(whole, drop) == Erase(s, drop)
  {
    assert s == s[..n] + s[n..];
    ConcatDeletesOnly(drop, x, s[..n], tail, s[n..]);
  }

  /** A whole pass only deletes characters, and only characters its pattern may delete. */
  lemma {:induction false} ScanDeletesOnly(p: Pattern, s: string, lineStart: bool)
    ensures IsSubsequence(Scan(p, s, lineStart), s)
    ensures Erase(Scan(p, s, lineStart), DeletedBy(p)) == Erase(s, DeletedBy(p))
    decreases |s|
  {
    if s != [] {
      match MatchAt(p, s, lineStart)
      case Some(m) =>
        var next := IsLineTerminator(s[m.len - 1]);
        MatchDeletesOnly(p, s, lineStart);
        ScanAfterMatch(p, s, lineStart, m.len, m.replacement);
        ScanDeletesOnly(p, s[m.len..], next);
        StepDeletesOnly(DeletedBy(p), s, m.len, m.replacement, Scan(p, s[m.len..], next), Scan(p, s, lineStart));
      case None =>
        var next := IsLineTerminator(s[0]);
        ScanCopiesFirst(p, s, lineStart);
        ScanDeletesOnly(p, s[1..], next);
        SubsequenceRefl([s[0]]);
        assert s[..1] == [s[0]];
        StepDeletesOnly(DeletedBy(p), s, 1, [s[0]], Scan(p, s[1..], next), Scan(p, s, lineStart));
    }
  }

  /** Every character pattern `p` may delete is markup. */
  predicate DeletesOnlyMarkup(p: Pattern) {
    forall c :: Deletes(p, c) ==> IsMarkup(c)
  }

  /** A pass that deletes only markup leaves the visible text unchanged. */
  lemma PassKeepsVisibleText(p: Pattern, s: string)
    requires DeletesOnlyMarkup(p)
    ensures IsSubsequence(Replace(p, s), s)
    ensures VisibleText(Replace(p, s)) == VisibleText(s)
  {
    ScanDeletesOnly(p, s, true);
    assert forall c :: DeletedBy(p)(c) ==> IsMarkup(c);
    EraseAbsorb(Replace(p, s), DeletedBy(p), IsMarkup);
    EraseAbsorb(s, DeletedBy(p), IsMarkup);
  }

  lemma {:induction false} ApplyPassesKeepsVisibleText(ps: seq<Pattern>, s: string)
    requires forall k :: 0 <= k < |ps| ==> DeletesOnlyMarkup(ps[k])
    ensures IsSubsequence(ApplyPasses(ps, s), s)
    ensures VisibleText(ApplyPasses(ps, s)) == VisibleText(s)
    decreases |ps|
  {
    if ps == [] {
      SubsequenceRefl(s);
    } else {
      var s1 := Replace(ps[0], s);
      PassKeepsVisibleText(ps[0], s);
      ApplyPassesKeepsVisibleText(ps[1..], s1);
      SubsequenceTrans(ApplyPasses(ps[1..], s1), s1, s);
    }
  }

  // ---------------------------------------------------------------------------
  // The blank-line collapse

  /** Text that starts with no line feed, or with a single one, does not come out starting with two. */
  lemma CollapseFront(s: string, lineStart: bool)
    ensures (s == [] || s[0] != '\n') ==>
      var r := Scan(BlankLines, s, lineStart); r == [] || r[0] != '\n'
    ensures |s| >= 1 && s[0] == '\n' && (|s| == 1 || s[1] != '\n') ==>
      var r := Scan(BlankLines, s, lineStart); !(|r| >= 2 && r[0] == '\n' && r[1] == '\n')
  {
    if |s| >= 1 && s[0] == '\n' && (|s| == 1 || s[1] != '\n') {
      SpanIs(s, 0, Exactly('\n'), 1);
      CollapseFront(s[1..], true);
    }
  }

  lemma NoTriplePrepend(c: char, t: string)
    requires NoTripleNewline(t)
    requires c == '\n' ==> !(|t| >= 2 && t[0] == '\n' && t[1] == '\n')
    ensures NoTripleNewline([c] + t)
  {
    var r := [c] + t;
    forall k | 0 <= k && k + 2 < |r| ensures !(r[k] == '\n' && r[k + 1] == '\n' && r[k + 2] == '\n') {
      if k > 0 {
        assert r[k] == t[k - 1] && r[k + 1] == t[k] && r[k + 2] == t[k + 1];
      }
    }
  }

  lemma TwoLineFeeds(t: string)
    ensures "\n\n" + t == ['\n'] + (['\n'] + t)
  {
  }

  /** After the collapse pass no three line feeds are adjacent. */
  lemma {:induction false} CollapseNoTriple(s: string, lineStart: bool)
    ensures NoTripleNewline(Scan(BlankLines, s, lineStart))
    decreases |s|
  {
    if s != [] {
      match MatchAt(BlankLines, s, lineStart)
      case Some(m) =>
        var rest := s[m.len..];
        var t := Scan(BlankLines, rest, true);
        SpanMaximal(s, 0, Exactly('\n'));
        CollapseNoTriple(rest, true);
        CollapseFront(rest, true);
        NoTriplePrepend('\n', t);
        NoTriplePrepend('\n', ['\n'] + t);
        ScanAfterMatch(BlankLines, s, lineStart, m.len, m.replacement);
        TwoLineFeeds(t);
      case None =>
        var rest := s[1..];
        CollapseNoTriple(rest, IsLineTerminator(s[0]));
        if s[0] == '\n' {
          var e := Span(s, 0, Exactly('\n'));
          SpanMaximal(s, 0, Exactly('\n'));
          assert e < 3;
          if |s| > 1 && s[1] == '\n' {
            assert Span(rest, 0, Exactly('\n')) == e - 1 by {
              SpanIs(rest, 0, Exactly('\n'), e - 1);
            }
            assert |rest| == 1 || rest[1] != '\n';
          }
          CollapseFront(rest, true);
        }
        NoTriplePrepend(s[0], Scan(BlankLines, rest, IsLineTerminator(s[0])));
    }
  }

  lemma NoTripleSlice(s: string, lo: nat, hi: nat)
    requires lo <= hi <= |s| && NoTripleNewline(s)
    ensures NoTripleNewline(s[lo..hi])
  {
    var r := s[lo..hi];
    forall k | 0 <= k && k + 2 < |r| ensures !(r[k] == '\n' && r[k + 1] == '\n' && r[k + 2] == '\n') {
      assert r[k] == s[lo + k] && r[k + 1] == s[lo + k + 1] && r[k + 2] == s[lo + k + 2];
    }
  }

  // ---------------------------------------------------------------------------
  // The sanitizer as a whole

  lemma RemovalPassesDeleteOnlyMarkup()
    ensures forall k :: 0 <= k < |RemovalPasses| ==> DeletesOnlyMarkup(RemovalPasses[k])
  {
    forall k | 0 <= k < |RemovalPasses| ensures DeletesOnlyMarkup(RemovalPasses[k]) {
      var p := RemovalPasses[k];
      forall c | Deletes(p, c) ensures IsMarkup(c) { }
    }
  }

  /**
   * `stripMarkdown` only deletes characters; the characters it deletes are all markup
   * or whitespace, so every other character survives, in order; the result has no three
   * line feeds in a row and no whitespace at either end.
   */
  lemma StripMarkdownSpec(text: string)
    ensures IsSubsequence(StripMarkdown(text), text)
    ensures VisibleText(StripMarkdown(text)) == VisibleText(text)
    ensures NoTripleNewline(StripMarkdown(text))
    ensures var r := StripMarkdown(text); r == [] || (!IsSpace(r[0]) && !IsSpace(r[|r| - 1]))
  {
    var s2 := Replace(BlankLines, ApplyPasses(RemovalPasses, text));
    BeforeTrimKeepsVisibleText(text);
    TrimErases(s2, IsMarkup);
    SubsequenceTrans(Trim(s2), s2, text);
    TrimKeepsNoTriple(s2);
    TrimmedEnds(s2);
  }

  /** Up to `trim()`, the sanitizer deletes only markup and leaves no three line feeds in a row. */
  lemma BeforeTrimKeepsVisibleText(text: string)
    ensures var s2 := Replace(BlankLines, ApplyPasses(RemovalPasses, text));
      IsSubsequence(s2, text) && VisibleText(s2) == VisibleText(text) && NoTripleNewline(s2)
  {
    RemovalPassesDeleteOnlyMarkup();
    var s1 := ApplyPasses(RemovalPasses, text);
    ApplyPassesKeepsVisibleText(RemovalPasses, text);
    PassKeepsVisibleText(BlankLines, s1);
    SubsequenceTrans(Replace(BlankLines, s1), s1, text);
    CollapseNoTriple(s1, true);
  }

  /** Trimming a text without three line feeds in a row cannot create them. */
  lemma TrimKeepsNoTriple(s: string)
    requires NoTripleNewline(s)
    ensures NoTripleNewline(Trim(s))
  {
    var a := Span(s, 0, Space);
    NoTripleSlice(s, a, SpaceRunBefore(s, a, |s|));
  }

  // ---------------------------------------------------------------------------
  // What the passes do to a well-formed construct

  /** The passes without `^` do not depend on what precedes the scanned text. */
  predicate Unanchored(p: Pattern) {
    p.FencedBlock? || p.Delimited? || p.BlankLines?
  }

  lemma UnanchoredScan(p: Pattern, s: string, a: bool, b: bool)
    requires Unanchored(p)
    ensures Scan(p, s, a) == Scan(p, s, b)
  {
    if s != [] {
      assert MatchAt(p, s, a) == MatchAt(p, s, b);
    }
  }

  /** A match of the first `n` characters puts its replacement in front of the scan of the rest. */
  lemma ScanAfterMatch(p: Pattern, s: string, lineStart: bool, n: nat, x: string)
    requires s != [] && MatchAt(p, s, lineStart) == Some(Match(n, x))
    ensures Scan(p, s, lineStart) == x + Scan(p, s[n..], IsLineTerminator(s[n - 1]))
  {
  }

  function Repeat(c: char, n: nat): (r: string)
    ensures |r| == n && forall k :: 0 <= k < n ==> r[k] == c
  {
    seq(n, _ => c)
  }

  lemma FenceAtShift(s: string, k: nat, q: nat)
    requires k <= q && k <= |s|
    ensures FenceAt(s, q) <==> FenceAt(s[k..], q - k)
  {
    if q + 3 <= |s| {
      assert s[q] == s[k..][q - k] && s[q + 1] == s[k..][q - k + 1] && s[q + 2] == s[k..][q - k + 2];
    }
  }

  /** Inside a fenced block, the first fence after the opening one is the closing one. */
  lemma {:induction false} RemoveFenceMarksBeforeClosing(x: string)
    requires forall k :: 0 <= k < |x| ==> !FenceAt(x + "```", k)
    ensures RemoveFenceMarks(x + "```") == x
    decreases |x|
  {
    if x == [] {
      assert x + "```" == "```";
      assert FenceAt("```", 0);
      assert "```"[3..] == [];
    } else {
      var y := x + "```";
      assert !FenceAt(y, 0);
      assert y[1..] == x[1..] + "```";
      forall k | 0 <= k < |x[1..]| ensures !FenceAt(x[1..] + "```", k) {
        assert !FenceAt(y, k + 1);
        FenceAtShift(y, 1, k + 1);
      }
      RemoveFenceMarksBeforeClosing(x[1..]);
      assert [x[0]] + x[1..] == x;
    }
  }

  /** An opening fence, `x` with no fence in it before the closing one, and that closing fence. */
  lemma FenceMatchesBlock(x: string, rest: string)
    requires forall k :: 0 <= k < |x| ==> !FenceAt(x + "```", k)
    ensures FenceMatch("```" + x + "```" + rest) == Some(Match(|x| + 6, Trim(x)))
  {
    var t := "```" + x + "```" + rest;
    var n := |x| + 6;
    assert FenceAt(t, 0);
    forall q | 3 <= q < 3 + |x| ensures !FenceAt(t, q) {
      if FenceAt(t, q) {
        assert t[q] == (x + "```")[q - 3] && t[q + 1] == (x + "```")[q - 2] && t[q + 2] == (x + "```")[q - 1];
        assert FenceAt(x + "```", q - 3);
      }
    }
    assert FenceAt(t, 3 + |x|);
    NextFenceIs(t, 3, 3 + |x|);
    var seg := t[..n];
    assert seg == "```" + (x + "```");
    assert FenceAt(seg, 0) && seg[3..] == x + "```";
    RemoveFenceMarksBeforeClosing(x);
    assert RemoveFenceMarks(seg) == x;
  }

  /**
   * A fenced block ending at the first fence after its opening one is replaced by its
   * trimmed inside (an info string such as `js` stays), and the scan continues after it.
   */
  lemma FencedBlockUnwrapped(x: string, rest: string)
    requires forall k :: 0 <= k < |x| ==> !FenceAt(x + "```", k)
    ensures Replace(FencedBlock, "```" + x + "```" + rest) == Trim(x) + Replace(FencedBlock, rest)
  {
    var t := "```" + x + "```" + rest;
    var n := |x| + 6;
    FenceMatchesBlock(x, rest);
    ScanAfterMatch(FencedBlock, t, true, n, Trim(x));
    assert t[n..] == rest;
    UnanchoredScan(FencedBlock, rest, IsLineTerminator(t[n - 1]), true);
  }

  lemma DelimitedMatchesWrapped(d: char, double: bool, x: string, rest: string)
    requires x != [] && forall k :: 0 <= k < |x| ==> x[k] != d
    ensures var t := Marker(d, double) + x + Marker(d, double) + rest;
      DelimitedMatch(d, double, t) == Some(Match(2 * Width(double) + |x|, x))
  {
    var fence := Marker(d, double);
    var t := fence + x + fence + rest;
    var w := Width(double);
    var j := w + |x|;
    assert MarkerAt(t, 0, d, double) by {
      assert t[0] == fence[0];
      if double { assert t[1] == fence[1]; }
    }
    assert MarkerAt(t, j, d, double) by {
      assert t[j] == fence[0];
      if double { assert t[j + 1] == fence[1]; }
    }
    assert Span(t, w, AnyBut(d)) == j by {
      forall q | w <= q < j ensures InClass(t[q], AnyBut(d)) { assert t[q] == x[q - w]; }
      SpanIs(t, w, AnyBut(d), j);
    }
    assert t[w..j] == x;
  }

  /**
   * The delimiter, `x` non-empty and free of the delimiter, the delimiter again: replaced
   * by `x`, and the scan continues after the closing delimiter.
   */
  lemma DelimitedUnwrapped(d: char, double: bool, x: string, rest: string)
    requires x != [] && forall k :: 0 <= k < |x| ==> x[k] != d
    ensures Replace(Delimited(d, double), Marker(d, double) + x + Marker(d, double) + rest)
         == x + Replace(Delimited(d, double), rest)
  {
    var p := Delimited(d, double);
    var t := Marker(d, double) + x + Marker(d, double) + rest;
    var n := 2 * Width(double) + |x|;
    DelimitedMatchesWrapped(d, double, x, rest);
    ScanAfterMatch(p, t, true, n, x);
    assert t[n..] == rest;
    UnanchoredScan(p, rest, IsLineTerminator(t[n - 1]), true);
  }

  /** A run of three or more line feeds becomes exactly two. */
  lemma BlankRunCollapsed(n: nat, rest: string)
    requires 3 <= n && (rest == [] || rest[0] != '\n')
    ensures Replace(BlankLines, Repeat('\n', n) + rest) == "\n\n" + Replace(BlankLines, rest)
  {
    var t := Repeat('\n', n) + rest;
    forall q | 0 <= q < n ensures InClass(t[q], Exactly('\n')) { }
    SpanIs(t, 0, Exactly('\n'), n);
    ScanAfterMatch(BlankLines, t, true, n, "\n\n");
    assert t[n..] == rest;
  }

  /** Bold runs before italic, so `**x**` loses both pairs of asterisks. */
  lemma BoldBeforeItalic(x: string)
    requires x != [] && forall k :: 0 <= k < |x| ==> x[k] != '*'
    ensures Replace(Delimited('*', false), Replace(Delimited('*', true), "**" + x + "**")) == x
  {
    DelimitedUnwrapped('*', true, x, []);
    assert Marker('*', true) + x + Marker('*', true) + [] == "**" + x + "**";
    assert Replace(Delimited('*', true), []) == [];
    assert x + [] == x;
    PassWithoutMarkersIsIdentity(Delimited('*', false), x);
  }

  // ---------------------------------------------------------------------------
  // Text a pass has nothing to act on

  /** The characters without which `p` cannot match. */
  predicate Triggers(p: Pattern, c: char) {
    match p
    case FencedBlock => c == '`'
    case Delimited(d, _) => c == d
    case HeadingMarker => c == '#'
    case QuoteMarker => c == '>'
    case BulletMarker => c == '-' || c == '*' || c == '+'
    case NumberMarker => IsDigit(c)
    case BlankLines => c == '\n'
  }

  lemma NoTriggerNoMatch(p: Pattern, s: string, lineStart: bool)
    requires forall c :: c in s ==> !Triggers(p, c)
    ensures MatchAt(p, s, lineStart).None?
  {
    if s != [] {
      assert s[0] in s;
      var a := Span(s, 0, Space);
      if a < |s| {
        assert s[a] in s;
      }
    }
  }

  /** A pass leaves text alone that holds none of the characters it needs to match. */
  lemma {:induction false} ScanWithoutTriggers(p: Pattern, s: string, lineStart: bool)
    requires forall c :: c in s ==> !Triggers(p, c)
    ensures Scan(p, s, lineStart) == s
    decreases |s|
  {
    if s != [] {
      NoTriggerNoMatch(p, s, lineStart);
      ScanWithoutTriggers(p, s[1..], IsLineTerminator(s[0]));
      assert [s[0]] + s[1..] == s;
    }
  }

  lemma PassWithoutMarkersIsIdentity(p: Pattern, s: string)
    requires forall c :: c in s ==> !Triggers(p, c)
    ensures Replace(p, s) == s
  {
    ScanWithoutTriggers(p, s, true);
  }

  /** The passes with `^` act only at the start of a line: within a line they change nothing. */
  lemma {:induction false} AnchoredWithinLine(p: Pattern, s: string)
    requires !Unanchored(p)
    requires forall k :: 0 <= k < |s| ==> !IsLineTerminator(s[k])
    ensures Scan(p, s, false) == s
    decreases |s|
  {
    if s != [] {
      AnchoredWithinLine(p, s[1..]);
      assert [s[0]] + s[1..] == s;
    }
  }

  lemma {:induction false} ApplyPassesConcat(ps: seq<Pattern>, qs: seq<Pattern>, s: string)
    ensures ApplyPasses(ps + qs, s) == ApplyPasses(qs, ApplyPasses(ps, s))
    decreases |ps|
  {
    if ps == [] {
      assert ps + qs == qs;
    } else {
      assert (ps + qs)[1..] == ps[1..] + qs;
      ApplyPassesConcat(ps[1..], qs, Replace(ps[0], s));
    }
  }

  lemma {:induction false} ApplyPassesWithoutTriggers(ps: seq<Pattern>, s: string)
    requires forall k, c :: 0 <= k < |ps| && c in s ==> !Triggers(ps[k], c)
    ensures ApplyPasses(ps, s) == s
    decreases |ps|
  {
    if ps != [] {
      PassWithoutMarkersIsIdentity(ps[0], s);
      ApplyPassesWithoutTriggers(ps[1..], s);
    }
  }

  /** The removal passes are those before the bullet pass, the bullet pass, and the number pass. */
  lemma RemovalPassesAroundBullet(s: string)
    ensures ApplyPasses(RemovalPasses, s)
         == Replace(NumberMarker, Replace(BulletMarker, ApplyPasses(RemovalPasses[..8], s)))
  {
    var before := RemovalPasses[..8];
    assert RemovalPasses == before + [BulletMarker] + [NumberMarker];
    ApplyPassesConcat(before + [BulletMarker], [NumberMarker], s);
    ApplyPassesConcat(before, [BulletMarker], s);
  }

  /** One line of dashes, spaces and characters that are not markup: only the bullet pass acts on it. */
  predicate DashedLine(s: string) {
    forall c :: c in s ==> c == '-' || c == ' ' || !IsMarkup(c)
  }

  /** Text that holds no markup and no whitespace at all. */
  predicate Word(x: string) {
    forall k :: 0 <= k < |x| ==> !IsMarkup(x[k])
  }

  lemma DashedLineTriggersOnlyBullets(s: string, p: Pattern)
    requires DashedLine(s) && !p.BulletMarker? && (p.Delimited? ==> p.delim in "`*_")
    ensures forall c :: c in s ==> !Triggers(p, c)
  {
    forall c | c in s ensures !Triggers(p, c) {
      assert c == '-' || c == ' ' || !IsMarkup(c);
    }
  }

  lemma DashedLineKept(s: string)
    requires DashedLine(s)
    ensures DashedLine(Replace(BulletMarker, s))
  {
    var b := Replace(BulletMarker, s);
    ScanDeletesOnly(BulletMarker, s, true);
    forall c | c in b ensures c == '-' || c == ' ' || !IsMarkup(c) {
      SubsequenceMember(b, s, c);
    }
  }

  lemma PassesBeforeBullet()
    ensures forall k :: 0 <= k < 8 ==>
      !RemovalPasses[k].BulletMarker? && (RemovalPasses[k].Delimited? ==> RemovalPasses[k].delim in "`*_")
  {
  }

  /** Only the bullet pass acts on a dashed line. */
  lemma BulletIsTheOnlyPass(s: string)
    requires DashedLine(s)
    ensures StripMarkdown(s) == Trim(Replace(BulletMarker, s))
  {
    RemovalPassesAroundBullet(s);
    var before := RemovalPasses[..8];
    PassesBeforeBullet();
    forall k | 0 <= k < |before| ensures forall c :: c in s ==> !Triggers(before[k], c) {
      DashedLineTriggersOnlyBullets(s, before[k]);
    }
    ApplyPassesWithoutTriggers(before, s);
    var b := Replace(BulletMarker, s);
    DashedLineKept(s);
    DashedLineTriggersOnlyBullets(b, NumberMarker);
    PassWithoutMarkersIsIdentity(NumberMarker, b);
    DashedLineTriggersOnlyBullets(b, BlankLines);
    PassWithoutMarkersIsIdentity(BlankLines, b);
  }

  /** Whitespace only (possibly line feeds: `\s` matches them). */
  predicate AllSpace(s: string) {
    forall k :: 0 <= k < |s| ==> IsSpace(s[k])
  }

  predicate NoLeadingSpace(s: string) {
    s == [] || !IsSpace(s[0])
  }

  lemma HeadingMatchOf(lead: string, h: nat, gap: string, rest: string)
    requires AllSpace(lead) && |lead| <= 3 && 1 <= h <= 6
    requires AllSpace(gap) && gap != [] && NoLeadingSpace(rest)
    ensures HeadingMatch(lead + Repeat('#', h) + gap + rest) == Some(Match(|lead| + h + |gap|, ""))
  {
    var hs := Repeat('#', h);
    var s := lead + hs + gap + rest;
    assert s == [] + lead + (hs + gap + rest);
    SpanOver([], lead, hs + gap + rest, Space);
    assert s == lead + hs + (gap + rest);
    SpanOver(lead, hs, gap + rest, Exactly('#'));
    SpanOver(lead + hs, gap, rest, Space);
  }

  /**
   * At the start of a line, up to three whitespace characters, one to six `#` and the
   * whitespace after them are deleted; the scan goes on with the heading's text.
   */
  lemma HeadingMarkerRemoved(lead: string, h: nat, gap: string, rest: string)
    requires AllSpace(lead) && |lead| <= 3 && 1 <= h <= 6
    requires AllSpace(gap) && gap != [] && NoLeadingSpace(rest)
    ensures Replace(HeadingMarker, lead + Repeat('#', h) + gap + rest)
         == Scan(HeadingMarker, rest, IsLineTerminator(gap[|gap| - 1]))
  {
    var s := lead + Repeat('#', h) + gap + rest;
    var n := |lead| + h + |gap|;
    HeadingMatchOf(lead, h, gap, rest);
    ScanAfterMatch(HeadingMarker, s, true, n, "");
    assert s[n..] == rest && s[n - 1] == gap[|gap| - 1];
  }

  /** Seven or more `#`, or `#` not followed by whitespace, is not a heading marker. */
  lemma NotAHeading(lead: string, h: nat, rest: string)
    requires AllSpace(lead) && |lead| <= 3 && 1 <= h
    requires rest == [] || rest[0] != '#'
    requires 6 < h || NoLeadingSpace(rest)
    ensures MatchAt(HeadingMarker, lead + Repeat('#', h) + rest, true).None?
  {
    var hs := Repeat('#', h);
    var s := lead + hs + rest;
    assert s == [] + lead + (hs + rest);
    SpanOver([], lead, hs + rest, Space);
    SpanOver(lead, hs, rest, Exactly('#'));
    if h <= 6 {
      if rest != [] {
        assert s[|lead| + h] == rest[0];
      }
      SpanIs(s, |lead| + h, Space, |lead| + h);
    }
  }

  lemma QuoteMatchOf(lead: string, rest: string)
    requires AllSpace(lead) && |lead| <= 3
    ensures QuoteMatch(lead + ">" + rest)
         == Some(Match(if rest != [] && IsSpace(rest[0]) then |lead| + 2 else |lead| + 1, ""))
  {
    var s := lead + ">" + rest;
    assert s == [] + lead + (">" + rest);
    SpanOver([], lead, ">" + rest, Space);
    assert s[|lead|] == '>';
    if rest != [] {
      assert s[|lead| + 1] == rest[0];
    }
  }

  /**
   * At the start of a line, up to three whitespace characters, `>` and one optional
   * whitespace character are deleted.
   */
  lemma QuoteMarkerRemoved(lead: string, rest: string)
    requires AllSpace(lead) && |lead| <= 3
    ensures Replace(QuoteMarker, lead + ">" + rest)
         == if rest != [] && IsSpace(rest[0]) then Scan(QuoteMarker, rest[1..], IsLineTerminator(rest[0]))
            else Scan(QuoteMarker, rest, false)
  {
    var s := lead + ">" + rest;
    var spaced := rest != [] && IsSpace(rest[0]);
    var n := if spaced then |lead| + 2 else |lead| + 1;
    QuoteMatchOf(lead, rest);
    ScanAfterMatch(QuoteMarker, s, true, n, "");
    if spaced {
      assert s[n..] == rest[1..] && s[n - 1] == rest[0];
    } else {
      assert s[n..] == rest && s[n - 1] == '>';
    }
  }

  lemma BulletMatchOf(lead: string, m: char, gap: string, rest: string)
    requires AllSpace(lead) && (m == '-' || m == '*' || m == '+')
    requires AllSpace(gap) && gap != [] && NoLeadingSpace(rest)
    ensures BulletMatch(lead + [m] + gap + rest) == Some(Match(|lead| + 1 + |gap|, ""))
  {
    var s := lead + [m] + gap + rest;
    assert s == [] + lead + ([m] + gap + rest);
    SpanOver([], lead, [m] + gap + rest, Space);
    assert s[|lead|] == m;
    SpanOver(lead + [m], gap, rest, Space);
  }

  /** At the start of a line, whitespace, one of `-*+` and the whitespace after it are deleted. */
  lemma BulletMarkerRemoved(lead: string, m: char, gap: string, rest: string)
    requires AllSpace(lead) && (m == '-' || m == '*' || m == '+')
    requires AllSpace(gap) && gap != [] && NoLeadingSpace(rest)
    ensures Replace(BulletMarker, lead + [m] + gap + rest)
         == Scan(BulletMarker, rest, IsLineTerminator(gap[|gap| - 1]))
  {
    var s := lead + [m] + gap + rest;
    var n := |lead| + 1 + |gap|;
    BulletMatchOf(lead, m, gap, rest);
    ScanAfterMatch(BulletMarker, s, true, n, "");
    assert s[n..] == rest && s[n - 1] == gap[|gap| - 1];
  }

  lemma NumberMatchOf(lead: string, digits: string, gap: string, rest: string)
    requires AllSpace(lead) && digits != [] && forall k :: 0 <= k < |digits| ==> IsDigit(digits[k])
    requires AllSpace(gap) && gap != [] && NoLeadingSpace(rest)
    ensures NumberMatch(lead + digits + "." + gap + rest) == Some(Match(|lead| + |digits| + 1 + |gap|, ""))
  {
    var s := lead + digits + "." + gap + rest;
    var b := |lead| + |digits|;
    assert s == [] + lead + (digits + "." + gap + rest);
    assert IsDigit(digits[0]);
    SpanOver([], lead, digits + "." + gap + rest, Space);
    assert s == lead + digits + ("." + gap + rest);
    SpanOver(lead, digits, "." + gap + rest, Digit);
    assert s[b] == '.';
    SpanOver(lead + digits + ".", gap, rest, Space);
  }

  /** At the start of a line, whitespace, digits, `.` and the whitespace after them are deleted. */
  lemma NumberMarkerRemoved(lead: string, digits: string, gap: string, rest: string)
    requires AllSpace(lead) && digits != [] && forall k :: 0 <= k < |digits| ==> IsDigit(digits[k])
    requires AllSpace(gap) && gap != [] && NoLeadingSpace(rest)
    ensures Replace(NumberMarker, lead + digits + "." + gap + rest)
         == Scan(NumberMarker, rest, IsLineTerminator(gap[|gap| - 1]))
  {
    var s := lead + digits + "." + gap + rest;
    var n := |lead| + |digits| + 1 + |gap|;
    NumberMatchOf(lead, digits, gap, rest);
    ScanAfterMatch(NumberMarker, s, true, n, "");
    assert s[n..] == rest && s[n - 1] == gap[|gap| - 1];
  }

  /** A single line that a line-start pattern does not fit at its start passes through unchanged. */
  lemma UnmarkedLineKept(p: Pattern, s: string)
    requires !Unanchored(p) && s != [] && MatchAt(p, s, true).None?
    requires forall k :: 0 <= k < |s| ==> !IsLineTerminator(s[k])
    ensures Replace(p, s) == s
  {
    ScanCopiesFirst(p, s, true);
    AnchoredWithinLine(p, s[1..]);
    assert [s[0]] + s[1..] == s;
  }

  /** A line opening with a decimal such as `3.14` is no numbered item: no whitespace follows the `.`. */
  lemma DecimalLineKept(digits: string, rest: string)
    requires digits != [] && forall k :: 0 <= k < |digits| ==> IsDigit(digits[k])
    requires NoLeadingSpace(rest)
    requires forall k :: 0 <= k < |rest| ==> !IsLineTerminator(rest[k])
    ensures Replace(NumberMarker, digits + "." + rest) == digits + "." + rest
  {
    var s := digits + "." + rest;
    var b := |digits|;
    assert s == [] + [] + s && s[0] == digits[0];
    SpanOver([], [], s, Space);
    assert s == [] + digits + ("." + rest);
    SpanOver([], digits, "." + rest, Digit);
    assert s == digits + "." + [] + rest;
    SpanOver(digits + ".", [], rest, Space);
    assert NumberMatch(s).None?;
    forall k | 0 <= k < |s| ensures !IsLineTerminator(s[k]) {
      if k > b {
        assert s[k] == rest[k - b - 1];
      } else if k < b {
        assert s[k] == digits[k];
      }
    }
    UnmarkedLineKept(NumberMarker, s);
  }

  /** A line opening with a sign such as `-5` is no bullet item: no whitespace follows the marker. */
  lemma SignedLineKept(m: char, rest: string)
    requires m == '-' || m == '*' || m == '+'
    requires NoLeadingSpace(rest)
    requires forall k :: 0 <= k < |rest| ==> !IsLineTerminator(rest[k])
    ensures Replace(BulletMarker, [m] + rest) == [m] + rest
  {
    var s := [m] + rest;
    assert s == [] + [] + s;
    SpanOver([], [], s, Space);
    assert s == [m] + [] + rest;
    SpanOver([m], [], rest, Space);
    assert BulletMatch(s).None?;
    forall k | 0 <= k < |s| ensures !IsLineTerminator(s[k]) {
      if k > 0 {
        assert s[k] == rest[k - 1];
      }
    }
    UnmarkedLineKept(BulletMarker, s);
  }

  /** Four or more leading whitespace characters: the line is text to be kept, not a heading or a quote. */
  lemma IndentedLineKept(p: Pattern, lead: string, rest: string)
    requires p == HeadingMarker || p == QuoteMarker
    requires AllSpace(lead) && 4 <= |lead|
    requires forall k :: 0 <= k < |lead| ==> !IsLineTerminator(lead[k])
    requires forall k :: 0 <= k < |rest| ==> !IsLineTerminator(rest[k])
    ensures Replace(p, lead + rest) == lead + rest
  {
    var s := lead + rest;
    SpanMaximal(s, 0, Space);
    assert MatchAt(p, s, true).None?;
    forall k | 0 <= k < |s| ensures !IsLineTerminator(s[k]) {
      if k < |lead| {
        assert s[k] == lead[k];
      } else {
        assert s[k] == rest[k - |lead|];
      }
    }
    UnmarkedLineKept(p, s);
  }

  /** The lines the four line-start passes must leave alone: a decimal, a signed number, indented text. */
  lemma LineStartExamples()
    ensures Replace(NumberMarker, "3.14 is pi") == "3.14 is pi"
    ensures Replace(BulletMarker, "-5 degrees") == "-5 degrees"
    ensures Replace(HeadingMarker, "    # x") == "    # x"
    ensures Replace(QuoteMarker, "    > x") == "    > x"
  {
    DecimalExample();
    SignedExample();
    IndentedExamples();
  }

  lemma DecimalExample()
    ensures Replace(NumberMarker, "3.14 is pi") == "3.14 is pi"
  {
    assert "3" + "." + "14 is pi" == "3.14 is pi";
    DecimalLineKept("3", "14 is pi");
  }

  lemma SignedExample()
    ensures Replace(BulletMarker, "-5 degrees") == "-5 degrees"
  {
    assert ['-'] + "5 degrees" == "-5 degrees";
    SignedLineKept('-', "5 degrees");
  }

  lemma IndentedExamples()
    ensures Replace(HeadingMarker, "    # x") == "    # x"
    ensures Replace(QuoteMarker, "    > x") == "    > x"
  {
    assert "    " + "# x" == "    # x" && "    " + "> x" == "    > x";
    IndentedLineKept(HeadingMarker, "    ", "# x");
    IndentedLineKept(QuoteMarker, "    ", "> x");
  }

  /** The bullet pass removes the first marker of a line only. */
  lemma BulletRemovesOneMarker(x: string)
    requires forall k :: 0 <= k < |x| ==> !IsLineTerminator(x[k])
    requires x != [] && !IsSpace(x[0])
    ensures Replace(BulletMarker, "- " + x) == x
  {
    assert "- " + x == [] + ['-'] + " " + x;
    BulletMarkerRemoved([], '-', " ", x);
    AnchoredWithinLine(BulletMarker, x);
  }

  /** Stripping a bulleted line: the marker goes, nothing else does. */
  lemma StripBulletedLine(x: string)
    requires BulletedContent(x)
    ensures StripMarkdown("- " + x) == x
  {
    assert DashedLine("- " + x) by {
      forall c | c in "- " + x ensures c == '-' || c == ' ' || !IsMarkup(c) {
        if c !in x { assert c in "- "; }
      }
    }
    BulletIsTheOnlyPass("- " + x);
    BulletRemovesOneMarker(x);
    TrimOfPadded([], x, []);
    assert [] + x + [] == x;
  }

  /** A bulleted line's content, with a non-empty word at the end of it. */
  predicate BulletedContent(x: string) {
    DashedLine(x) && x != [] && !IsSpace(x[0]) && !IsSpace(x[|x| - 1])
    && forall k :: 0 <= k < |x| ==> !IsLineTerminator(x[k])
  }

  lemma WordIsBulletedContent(x: string)
    requires x != [] && Word(x)
    ensures BulletedContent(x) && BulletedContent("- " + x)
  {
    assert x[0] in x && x[|x| - 1] in x;
    assert DashedLine(x) by {
      forall c | c in x ensures !IsMarkup(c) { var k :| 0 <= k < |x| && x[k] == c; }
    }
    var once := "- " + x;
    assert once[|once| - 1] == x[|x| - 1];
    forall k | 0 <= k < |once| ensures !IsLineTerminator(once[k]) {
      if k >= 2 { assert once[k] == x[k - 2]; }
    }
    forall c | c in once ensures c == '-' || c == ' ' || !IsMarkup(c) {
      if c !in x { assert c in "- "; }
    }
  }

  /**
   * Stripping is not idempotent: the bullet pass removes one marker per line, so a
   * line with two bullet markers keeps its second one, which a second application removes.
   */
  lemma StripMarkdownNotIdempotent(x: string)
    requires x != [] && Word(x)
    ensures StripMarkdown("- - " + x) == "- " + x
    ensures StripMarkdown("- " + x) == x
    ensures StripMarkdown(StripMarkdown("- - " + x)) != StripMarkdown("- - " + x)
  {
    WordIsBulletedContent(x);
    assert "- - " + x == "- " + ("- " + x);
    StripBulletedLine("- " + x);
    StripBulletedLine(x);
  }

  // ---------------------------------------------------------------------------
  // Bold text and inline code together

  /** An unanchored pattern cannot match at a character that is not one of its triggers. */
  lemma FirstCharNoMatch(p: Pattern, s: string, lineStart: bool)
    requires Unanchored(p) && s != [] && !Triggers(p, s[0])
    ensures MatchAt(p, s, lineStart).None?
  {
    match p
    case FencedBlock =>
    case Delimited(d, double) =>
    case BlankLines =>
      if 1 <= |s| {
        SpanIs(s, 0, Exactly('\n'), 0);
      }
  }

  /** Where nothing matches, the first character is copied and the scan moves one step on. */
  lemma ScanCopiesFirst(p: Pattern, s: string, lineStart: bool)
    requires s != [] && MatchAt(p, s, lineStart).None?
    ensures Scan(p, s, lineStart) == [s[0]] + Scan(p, s[1..], IsLineTerminator(s[0]))
  {
  }

  /** An unanchored pass copies a prefix holding none of its triggers and scans on after it. */
  lemma {:induction false} ScanKeepsPrefix(p: Pattern, pre: string, rest: string, lineStart: bool)
    requires Unanchored(p) && forall c :: c in pre ==> !Triggers(p, c)
    ensures Scan(p, pre + rest, lineStart) == pre + Scan(p, rest, true)
    decreases |pre|
  {
    var t := pre + rest;
    if pre == [] {
      assert t == rest;
      UnanchoredScan(p, rest, lineStart, true);
    } else {
      assert t[0] == pre[0] && pre[0] in pre;
      FirstCharNoMatch(p, t, lineStart);
      ScanCopiesFirst(p, t, lineStart);
      assert t[1..] == pre[1..] + rest;
      assert forall c :: c in pre[1..] ==> c in pre;
      ScanKeepsPrefix(p, pre[1..], rest, IsLineTerminator(t[0]));
      var tail := Scan(p, rest, true);
      assert Scan(p, t, lineStart) == [pre[0]] + (pre[1..] + tail);
      HeadThenTail(pre, tail);
    }
  }

  /** Inline code is not a fenced block: the fence pass keeps it. */
  lemma InlineCodeIsNoFence(b: string)
    requires b != [] && Word(b)
    ensures Scan(FencedBlock, "`" + b + "`", true) == "`" + b + "`"
  {
    var u := "`" + b + "`";
    assert u[1] == b[0];
    assert !FenceAt(u, 0);
    assert u[1..] == b + "`";
    ScanKeepsPrefix(FencedBlock, b, "`", false);
    assert Scan(FencedBlock, "`", true) == "`";
  }

  /** The fence pass keeps bold text followed by inline code. */
  lemma FencePassOfBoldAndCode(a: string, b: string)
    requires b != [] && Word(a) && Word(b)
    ensures Replace(FencedBlock, "**" + a + "** and " + ("`" + b + "`")) == "**" + a + "** and " + ("`" + b + "`")
  {
    var pre := "**" + a + "** and ";
    assert forall c :: c in a ==> !IsMarkup(c);
    ScanKeepsPrefix(FencedBlock, pre, "`" + b + "`", true);
    InlineCodeIsNoFence(b);
  }

  /** The inline-code pass unwraps the code after the bold text. */
  lemma CodePassOfBoldAndCode(a: string, b: string)
    requires b != [] && Word(a) && Word(b)
    ensures Replace(Delimited('`', false), "**" + a + "** and " + ("`" + b + "`")) == "**" + a + "** and " + b
  {
    var pre := "**" + a + "** and ";
    var code := "`" + b + "`";
    assert forall c :: c in a ==> !IsMarkup(c);
    ScanKeepsPrefix(Delimited('`', false), pre, code, true);
    DelimitedUnwrapped('`', false, b, []);
    assert Marker('`', false) + b + Marker('`', false) + [] == code;
    assert Replace(Delimited('`', false), []) == [];
  }

  /** The bold pass unwraps the bold text. */
  lemma BoldPassOfBoldAndCode(a: string, b: string)
    requires a != [] && Word(a) && Word(b)
    ensures Replace(Delimited('*', true), "**" + a + "** and " + b) == a + " and " + b
  {
    BoldPrefix(a, b);
    DelimitedUnwrapped('*', true, a, " and " + b);
    WordsJoinedBySpaces(a, b);
    forall c | c in " and " + b ensures !Triggers(Delimited('*', true), c) {
      assert c == ' ' || !IsMarkup(c);
    }
    PassWithoutMarkersIsIdentity(Delimited('*', true), " and " + b);
    assert a + (" and " + b) == a + " and " + b;
  }

  /**
   * Bold text, plain words and inline code: `"**" + a + "** and `" + b + "`"` comes out
   * as `a + " and " + b`, with both kinds of markup removed.
   */
  lemma BoldAndCode(a: string, b: string)
    requires a != [] && b != [] && Word(a) && Word(b)
    ensures StripMarkdown("**" + a + "** and `" + b + "`") == a + " and " + b
  {
    var plain := a + " and " + b;
    BoldAndCodeText(a, b);
    BoldAndCodeBeforeTrim(a, b);
    TrimOfPadded([], plain, []);
    assert [] + plain + [] == plain;
  }

  /** The removal passes and the collapse turn the example into its plain words. */
  lemma BoldAndCodeBeforeTrim(a: string, b: string)
    requires a != [] && b != [] && Word(a) && Word(b)
    ensures Replace(BlankLines, ApplyPasses(RemovalPasses, "**" + a + "** and " + ("`" + b + "`")))
         == a + " and " + b
  {
    var t := "**" + a + "** and " + ("`" + b + "`");
    var plain := a + " and " + b;
    FencePassOfBoldAndCode(a, b);
    CodePassOfBoldAndCode(a, b);
    BoldPassOfBoldAndCode(a, b);
    FirstPassesOfBoldAndCode(t, "**" + a + "** and " + b, plain);
    WordsJoinedBySpaces(a, b);
    LaterPassesKeep(plain);
  }

  lemma BoldAndCodeText(a: string, b: string)
    ensures "**" + a + "** and `" + b + "`" == "**" + a + "** and " + ("`" + b + "`")
  {
  }

  /** `"**" + a + "** and " + b` is `a` in bold followed by `" and " + b`. */
  lemma BoldPrefix(a: string, b: string)
    ensures "**" + a + "** and " + b == Marker('*', true) + a + Marker('*', true) + (" and " + b)
  {
  }

  /** Two words joined by `" and "` hold only spaces and characters that are not markup. */
  lemma WordsJoinedBySpaces(a: string, b: string)
    requires Word(a) && Word(b)
    ensures forall c :: c in " and " + b ==> c == ' ' || !IsMarkup(c)
    ensures forall c :: c in a + " and " + b ==> c == ' ' || !IsMarkup(c)
  {
    forall c | c in " and " + b ensures c == ' ' || !IsMarkup(c) {
      if c in b {
      } else {
        assert c in " and ";
      }
    }
    forall c | c in a + " and " + b ensures c == ' ' || !IsMarkup(c) {
      if c in a {
      } else if c in b {
      } else {
        assert c in " and ";
      }
    }
  }

  lemma FirstPassesOfBoldAndCode(t: string, s2: string, plain: string)
    requires Replace(FencedBlock, t) == t
    requires Replace(Delimited('`', false), t) == s2
    requires Replace(Delimited('*', true), s2) == plain
    ensures ApplyPasses(RemovalPasses, t) == ApplyPasses(RemovalPasses[3..], plain)
  {
    var ps := RemovalPasses;
    assert ps[1..][1..][1..] == ps[3..];
    assert ApplyPasses(ps, t) == ApplyPasses(ps[1..], t);
    assert ApplyPasses(ps[1..], t) == ApplyPasses(ps[1..][1..], s2);
  }

  /** The passes after bold, the collapse and `trim()` leave words joined by single spaces alone. */
  lemma LaterPassesKeep(plain: string)
    requires forall c :: c in plain ==> c == ' ' || !IsMarkup(c)
    ensures Replace(BlankLines, ApplyPasses(RemovalPasses[3..], plain)) == plain
  {
    var ps := RemovalPasses[3..];
    forall k, c | 0 <= k < |ps| && c in plain ensures !Triggers(ps[k], c) {
      assert c == ' ' || !IsMarkup(c);
    }
    ApplyPassesWithoutTriggers(ps, plain);
    PassWithoutMarkersIsIdentity(BlankLines, plain);
  }

  /** The literal case: `"**bold** and `code`"` becomes `"bold and code"`. */
  lemma BoldAndCodeExample()
    ensures StripMarkdown("**bold** and `code`") == "bold and code"
  {
    assert Word("bold") && Word("code");
    BoldAndCode("bold", "code");
    ExampleSplits();
  }

  lemma ExampleSplits()
    ensures "**" + "bold" + "** and `" + "code" + "`" == "**bold** and `code`"
    ensures "bold" + " and " + "code" == "bold and code"
  {
  }
}
