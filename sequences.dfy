/**
 * Subsequences and erasure: the vocabulary for "a pass only deletes characters" and
 * "a pass deletes only characters of a given kind".
 */
module Sequences {

  /** `a` is obtained from `b` by deleting zero or more elements. */
  predicate IsSubsequence<T(==)>(a: seq<T>, b: seq<T>)
    decreases |b|
  {
    a == [] || (b != [] && ((a[0] == b[0] && IsSubsequence(a[1..], b[1..])) || IsSubsequence(a, b[1..])))
  }

  /** The elements of `s` that `drop` does not select, in order. */
  function Erase<T>(s: seq<T>, drop: T -> bool): (r: seq<T>)
    ensures |r| <= |s|
  {
    if s == [] then [] else (if drop(s[0]) then [] else [s[0]]) + Erase(s[1..], drop)
  }

  lemma {:induction false} SubsequenceLength<T>(a: seq<T>, b: seq<T>)
    requires IsSubsequence(a, b)
    ensures |a| <= |b|
    decreases |b|
  {
    if a != [] {
      if a[0] == b[0] && IsSubsequence(a[1..], b[1..]) {
        SubsequenceLength(a[1..], b[1..]);
      } else {
        SubsequenceLength(a, b[1..]);
      }
    }
  }

  /** Every element of a subsequence is an element of the sequence it was taken from. */
  lemma {:induction false} SubsequenceMember<T>(a: seq<T>, b: seq<T>, x: T)
    requires IsSubsequence(a, b) && x in a
    ensures x in b
    decreases |b|
  {
    if a[0] == b[0] && IsSubsequence(a[1..], b[1..]) {
      if x != a[0] {
        assert x in a[1..];
        SubsequenceMember(a[1..], b[1..], x);
      }
    } else {
      SubsequenceMember(a, b[1..], x);
    }
  }

  lemma {:induction false} SubsequenceRefl<T>(a: seq<T>)
    ensures IsSubsequence(a, a)
    decreases |a|
  {
    if a != [] {
      SubsequenceRefl(a[1..]);
    }
  }

  lemma {:induction false} SubsequencePrepend<T>(a: seq<T>, c: seq<T>, b: seq<T>)
    requires IsSubsequence(a, b)
    ensures IsSubsequence(a, c + b)
    decreases |c|
  {
    if c != [] {
      SubsequencePrepend(a, c[1..], b);
      assert (c + b)[1..] == c[1..] + b;
    } else {
      assert c + b == b;
    }
  }

  lemma {:induction false} SubsequenceConcat<T>(a1: seq<T>, b1: seq<T>, a2: seq<T>, b2: seq<T>)
    requires IsSubsequence(a1, b1) && IsSubsequence(a2, b2)
    ensures IsSubsequence(a1 + a2, b1 + b2)
    decreases |b1|
  {
    if b1 == [] {
      assert a1 + a2 == a2 && b1 + b2 == b2;
    } else if a1 == [] {
      SubsequencePrepend(a2, b1, b2);
      assert a1 + a2 == a2;
    } else if a1[0] == b1[0] && IsSubsequence(a1[1..], b1[1..]) {
      SubsequenceConcat(a1[1..], b1[1..], a2, b2);
      assert (a1 + a2)[1..] == a1[1..] + a2;
      assert (b1 + b2)[1..] == b1[1..] + b2;
    } else {
      SubsequenceConcat(a1, b1[1..], a2, b2);
      assert (b1 + b2)[1..] == b1[1..] + b2;
    }
  }

  lemma {:induction false} SubsequenceTrans<T>(a: seq<T>, b: seq<T>, c: seq<T>)
    requires IsSubsequence(a, b) && IsSubsequence(b, c)
    ensures IsSubsequence(a, c)
    decreases |c|
  {
    if a != [] {
      if IsSubsequence(b, c[1..]) {
        SubsequenceTrans(a, b, c[1..]);
      } else if a[0] == b[0] && IsSubsequence(a[1..], b[1..]) {
        SubsequenceTrans(a[1..], b[1..], c[1..]);
      } else {
        SubsequenceTrans(a, b[1..], c[1..]);
      }
    }
  }

  lemma SubsequenceAppend<T>(a: seq<T>, b: seq<T>, c: seq<T>)
    requires IsSubsequence(a, b)
    ensures IsSubsequence(a, b + c)
  {
    var empty: seq<T> := [];
    SubsequenceConcat(a, b, empty, c);
    assert a + empty == a;
  }

  lemma HeadThenTail<T>(x: seq<T>, y: seq<T>)
    requires x != []
    ensures [x[0]] + (x[1..] + y) == x + y
  {
    assert [x[0]] + x[1..] == x;
  }

  lemma SplitInThree<T>(s: seq<T>, lo: nat, hi: nat)
    requires lo <= hi <= |s|
    ensures s == s[..lo] + (s[lo..hi] + s[hi..])
  {
  }

  /** A contiguous slice is a subsequence. */
  lemma SliceIsSubsequence<T>(s: seq<T>, lo: nat, hi: nat)
    requires lo <= hi <= |s|
    ensures IsSubsequence(s[lo..hi], s)
  {
    var m := s[lo..hi];
    SubsequenceRefl(m);
    SubsequenceAppend(m, m, s[hi..]);
    SubsequencePrepend(m, s[..lo], m + s[hi..]);
    SplitInThree(s, lo, hi);
  }

  lemma {:induction false} EraseConcat<T>(x: seq<T>, y: seq<T>, drop: T -> bool)
    ensures Erase(x + y, drop) == Erase(x, drop) + Erase(y, drop)
    decreases |x|
  {
    if x != [] {
      EraseConcat(x[1..], y, drop);
      assert (x + y)[1..] == x[1..] + y;
    } else {
      assert x + y == y;
    }
  }

  lemma {:induction false} EraseAll<T>(x: seq<T>, drop: T -> bool)
    requires forall k :: 0 <= k < |x| ==> drop(x[k])
    ensures Erase(x, drop) == []
    decreases |x|
  {
    if x != [] {
      EraseAll(x[1..], drop);
    }
  }

  lemma {:induction false} EraseNone<T>(x: seq<T>, drop: T -> bool)
    requires forall k :: 0 <= k < |x| ==> !drop(x[k])
    ensures Erase(x, drop) == x
    decreases |x|
  {
    if x != [] {
      EraseNone(x[1..], drop);
    }
  }

  /** Erasing a class from text padded with that class erases the padding too. */
  lemma ErasePadded<T>(pre: seq<T>, mid: seq<T>, post: seq<T>, drop: T -> bool)
    requires forall k :: 0 <= k < |pre| ==> drop(pre[k])
    requires forall k :: 0 <= k < |post| ==> drop(post[k])
    ensures Erase(pre + mid + post, drop) == Erase(mid, drop)
  {
    EraseConcat(pre + mid, post, drop);
    EraseConcat(pre, mid, drop);
    EraseAll(pre, drop);
    EraseAll(post, drop);
  }

  lemma {:induction false} EraseSkipsPrefix<T>(s: seq<T>, a: nat, drop: T -> bool)
    requires a <= |s| && forall k :: 0 <= k < a ==> drop(s[k])
    ensures Erase(s[a..], drop) == Erase(s, drop)
    decreases a
  {
    if a > 0 {
      EraseSkipsPrefix(s[1..], a - 1, drop);
      assert s[1..][a - 1..] == s[a..];
    }
  }

  lemma EraseSkipsSuffix<T>(s: seq<T>, b: nat, drop: T -> bool)
    requires b <= |s| && forall k :: b <= k < |s| ==> drop(s[k])
    ensures Erase(s[..b], drop) == Erase(s, drop)
  {
    var post := s[b..];
    forall k | 0 <= k < |post| ensures drop(post[k]) { assert post[k] == s[b + k]; }
    EraseAll(post, drop);
    EraseConcat(s[..b], post, drop);
    assert s[..b] + post == s;
  }

  /** Erasing a class from a slice that only members of the class surround. */
  lemma EraseOutside<T>(s: seq<T>, a: nat, b: nat, drop: T -> bool)
    requires a <= b <= |s|
    requires forall k :: 0 <= k < a ==> drop(s[k])
    requires forall k :: b <= k < |s| ==> drop(s[k])
    ensures Erase(s[a..b], drop) == Erase(s, drop)
  {
    EraseSkipsSuffix(s, b, drop);
    EraseSkipsPrefix(s[..b], a, drop);
    assert s[..b][a..] == s[a..b];
  }

  /** Erasing a smaller class first does not change what erasing a larger class leaves. */
  lemma {:induction false} EraseAbsorb<T>(x: seq<T>, small: T -> bool, large: T -> bool)
    requires forall c :: small(c) ==> large(c)
    ensures Erase(Erase(x, small), large) == Erase(x, large)
    decreases |x|
  {
    if x != [] {
      EraseAbsorb(x[1..], small, large);
      var head := if small(x[0]) then [] else [x[0]];
      EraseConcat(head, Erase(x[1..], small), large);
    }
  }
}
