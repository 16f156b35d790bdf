/**
 * The JavaScript string operations the URL normaliser relies on, for string
 * (not regular-expression) arguments: `includes`, `indexOf` of one character,
 * `split` on one character and `replace` of a one-character pattern.
 */
module Strings {

  /** `p` occurs in `s` starting at index `i`. */
  ghost predicate OccursAt(s: string, p: string, i: int)
  {
    0 <= i && i + |p| <= |s| && s[i..i + |p|] == p
  }

  /** `s.includes(p)`: true exactly when `p` occurs somewhere in `s`. */
  function Includes(s: string, p: string): (b: bool)
    ensures b <==> exists i :: OccursAt(s, p, i)
    decreases |s|
  {
    if |s| < |p| then false
    else if s[..|p|] == p then (assert OccursAt(s, p, 0); true)
    else
      var b := Includes(s[1..], p);
      assert forall i :: OccursAt(s, p, i) ==> i > 0 && OccursAt(s[1..], p, i - 1);
      assert forall i :: OccursAt(s[1..], p, i) ==> OccursAt(s, p, i + 1);
      b
  }

  /** `s.indexOf(c)`, except that "not found" is `|s|` instead of -1. */
  function IndexOf(s: string, c: char): (k: nat)
    ensures k <= |s|
    ensures c !in s[..k]
    ensures k < |s| ==> s[k] == c
  {
    if s == [] then 0
    else if s[0] == c then 0
    else 1 + IndexOf(s[1..], c)
  }

  /** The inverse of `Split`: the parts with `sep` between each two neighbours. */
  function Join(parts: seq<string>, sep: char): string
    requires |parts| >= 1
  {
    if |parts| == 1 then parts[0] else parts[0] + [sep] + Join(parts[1..], sep)
  }

  /** `s.split(sep)` for a one-character separator: never empty, no part holds `sep`, and joining gives `s` back. */
  function Split(s: string, sep: char): (parts: seq<string>)
    ensures |parts| >= 1
    ensures forall i :: 0 <= i < |parts| ==> sep !in parts[i]
    ensures Join(parts, sep) == s
    decreases |s|
  {
    var k := IndexOf(s, sep);
    if k == |s| then
      assert s[..k] == s;
      [s]
    else
      var rest := Split(s[k + 1..], sep);
      var parts := [s[..k]] + rest;
      assert parts[1..] == rest;
      assert s == s[..k] + [sep] + s[k + 1..];
      parts
  }

  /** Splitting a join of separator-free parts gives the parts back. */
  lemma {:induction false} SplitJoin(parts: seq<string>, sep: char)
    requires |parts| >= 1
    requires forall i :: 0 <= i < |parts| ==> sep !in parts[i]
    ensures Split(Join(parts, sep), sep) == parts
    decreases |parts|
  {
    var s := Join(parts, sep);
    if |parts| == 1 {
      IndexOfAbsent(s, sep);
    } else {
      var head, rest := parts[0], parts[1..];
      var tail := Join(rest, sep);
      assert s == head + ([sep] + tail);
      IndexOfAfter(head, sep, [sep] + tail);
      assert s[|head| + 1..] == tail;
      assert s[..|head|] == head;
      SplitJoin(rest, sep);
      assert Split(s, sep) == [head] + Split(tail, sep);
      assert parts == [head] + rest;
    }
  }

  lemma {:induction false} IndexOfAbsent(s: string, c: char)
    requires c !in s
    ensures IndexOf(s, c) == |s|
  {
  }

  lemma {:induction false} IndexOfAfter(a: string, c: char, b: string)
    requires c !in a && b != [] && b[0] == c
    ensures IndexOf(a + b, c) == |a|
    decreases |a|
  {
    if a != [] {
      assert (a + b)[1..] == a[1..] + b;
      IndexOfAfter(a[1..], c, b);
    }
  }

  /** Joining at least two parts: everything before the last part, a separator, the last part. */
  lemma {:induction false} JoinLast(parts: seq<string>, sep: char)
    requires |parts| >= 2
    ensures Join(parts, sep) == Join(parts[..|parts| - 1], sep) + [sep] + parts[|parts| - 1]
    decreases |parts|
  {
    if |parts| > 2 {
      JoinLast(parts[1..], sep);
      assert parts[1..][..|parts| - 2] == parts[..|parts| - 1][1..];
    }
  }

  /** `s.replace(c, "")` for a one-character string pattern: only the first `c` is removed. */
  function RemoveFirst(s: string, c: char): (r: string)
    ensures c !in s ==> r == s
    ensures c in s ==> |r| == |s| - 1 && r == s[..IndexOf(s, c)] + s[IndexOf(s, c) + 1..]
  {
    if s == [] then []
    else if s[0] == c then s[1..]
    else
      var r := [s[0]] + RemoveFirst(s[1..], c);
      assert s == [s[0]] + s[1..];
      r
  }

  /**
   * An occurrence of `p` in `a + b` lies inside `a` or inside `b` when none can
   * start near the end of `a` (the first character of `p` is not there).
   */
  lemma {:induction false} IncludedAcrossHead(a: string, b: string, p: string)
    requires |p| > 0
    requires forall i :: 0 <= i < |a| && |a| < i + |p| ==> a[i] != p[0]
    ensures Includes(a + b, p) ==> Includes(a, p) || Includes(b, p)
  {
    if Includes(a + b, p) {
      var i :| OccursAt(a + b, p, i);
      if i + |p| <= |a| {
        assert a[i..i + |p|] == (a + b)[i..i + |p|];
        assert OccursAt(a, p, i);
      } else if i >= |a| {
        assert b[i - |a|..i - |a| + |p|] == (a + b)[i..i + |p|];
        assert OccursAt(b, p, i - |a|);
      } else {
        Straddling(a, b, p, i);
      }
    }
  }

  /** An occurrence of `p` in `a + b` lies inside `a` or inside `b` when `b` starts with a character `p` lacks. */
  lemma {:induction false} IncludedAcrossSeparator(a: string, b: string, p: string)
    requires b != [] && b[0] !in p
    ensures Includes(a + b, p) ==> Includes(a, p) || Includes(b, p)
  {
    if Includes(a + b, p) {
      var i :| OccursAt(a + b, p, i);
      if i + |p| <= |a| {
        assert a[i..i + |p|] == (a + b)[i..i + |p|];
        assert OccursAt(a, p, i);
      } else if i >= |a| {
        assert b[i - |a|..i - |a| + |p|] == (a + b)[i..i + |p|];
        assert OccursAt(b, p, i - |a|);
      } else {
        Straddling(a, b, p, i);
      }
    }
  }

  /** An occurrence that straddles the boundary of `a + b` starts in `a` and continues into `b`. */
  lemma Straddling(a: string, b: string, p: string, i: int)
    requires OccursAt(a + b, p, i) && i < |a| < i + |p|
    ensures p[0] == a[i] && p[|a| - i] == b[0]
  {
    assert p == (a + b)[i..i + |p|];
  }

  /** A character of a slice is the character at the matching index of the whole. */
  lemma SliceChar(s: string, i: int, t: string, k: int)
    requires 0 <= i && i + |t| <= |s| && s[i..i + |t|] == t && 0 <= k < |t|
    ensures s[i + k] == t[k]
  {
    assert t[k] == s[i..i + |t|][k];
  }

  /** A character at or after index `i` belongs to the suffix from `i`. */
  lemma SuffixChar(s: string, i: int, k: int)
    requires 0 <= i <= k < |s|
    ensures s[k] in s[i..]
  {
    assert s[i..][k - i] == s[k];
  }

  lemma ConcatAssociates(a: string, b: string, c: string, d: string)
    ensures a + b + c + d == a + (b + (c + d))
  {
  }

  /** A string placed between two others is included in the result. */
  lemma IncludesMiddle(a: string, p: string, b: string)
    ensures Includes(a + p + b, p)
  {
    assert (a + p + b)[|a|..|a| + |p|] == p;
    assert OccursAt(a + p + b, p, |a|);
  }

  /** A string lacking the first character of a non-empty pattern does not include it. */
  lemma NotIncludedWithoutFirstChar(s: string, p: string)
    requires |p| > 0 && p[0] !in s
    ensures !Includes(s, p)
  {
    forall i | OccursAt(s, p, i) ensures false {
      SliceChar(s, i, p, 0);
    }
  }

  /** A string lacking some character of a pattern does not include it. */
  lemma NotIncludedWithoutChar(s: string, p: string, k: int)
    requires 0 <= k < |p| && p[k] !in s
    ensures !Includes(s, p)
  {
    forall i | OccursAt(s, p, i) ensures false {
      SliceChar(s, i, p, k);
    }
  }

  lemma ConcatRegroups(x: string, a: string, b: string, c: string, d: string)
    requires x == a + b
    ensures x + c + d == a + b + (c + d)
    ensures x + c + d == a + (b + (c + d))
  {
  }
}
