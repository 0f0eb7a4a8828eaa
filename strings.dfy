/** The string operations the scan relies on: `String.endsWith`, `String.replace`,
    mapping the file separator to '.', and the natural order `String.compareTo`. */
module Strings {

  /** `File.separator`, on a Unix-like platform. */
  const Separator: char := '/'

  predicate StartsWith(s: string, prefix: string) {
    |prefix| <= |s| && s[..|prefix|] == prefix
  }

  predicate EndsWith(s: string, suffix: string) {
    |suffix| <= |s| && s[|s| - |suffix|..] == suffix
  }

  /** `t` occurs in `s` starting at index `i`. */
  predicate OccursAt(s: string, t: string, i: int) {
    0 <= i && i + |t| <= |s| && s[i..i + |t|] == t
  }

  predicate Contains(s: string, t: string) {
    exists i :: 0 <= i <= |s| && OccursAt(s, t, i)
  }

  /** `s.replace(target, replacement)`: every occurrence of `target`, scanning from left to
      right and never overlapping one already replaced, is replaced. */
  function ReplaceAll(s: string, target: string, replacement: string): (r: string)
    requires target != []
    ensures !Contains(s, target) ==> r == s
    decreases |s|
  {
    if |s| < |target| then
      s
    else if s[..|target|] == target then
      assert OccursAt(s, target, 0);
      replacement + ReplaceAll(s[|target|..], target, replacement)
    else
      assert !Contains(s, target) ==> !Contains(s[1..], target) by {
        forall i | OccursAt(s[1..], target, i) ensures OccursAt(s, target, i + 1) {
          assert s[i + 1..i + 1 + |target|] == s[1..][i..i + |target|];
        }
      }
      [s[0]] + ReplaceAll(s[1..], target, replacement)
  }

  /** Replacing with text no longer than the target never lengthens the string. */
  lemma {:induction false} ReplaceAllNoLonger(s: string, target: string, replacement: string)
    requires target != [] && |replacement| <= |target|
    ensures |ReplaceAll(s, target, replacement)| <= |s|
    decreases |s|
  {
    if |s| >= |target| {
      if s[..|target|] == target {
        ReplaceAllNoLonger(s[|target|..], target, replacement);
      } else {
        ReplaceAllNoLonger(s[1..], target, replacement);
      }
    }
  }

  /** A leading occurrence is the first one replaced. */
  lemma ReplaceAllLeading(t: string, s: string, replacement: string)
    requires t != []
    ensures ReplaceAll(t + s, t, replacement) == replacement + ReplaceAll(s, t, replacement)
  {
    assert (t + s)[..|t|] == t;
    assert (t + s)[|t|..] == s;
  }

  /** If `t` is not inside `a` and the last character of `t` is not in `b`, appending `b`
      to `a` cannot create an occurrence of `t`. */
  lemma {:induction false} NotContainsAppend(a: string, b: string, t: string)
    requires t != [] && t[|t| - 1] !in b
    requires !Contains(a, t)
    ensures !Contains(a + b, t)
  {
    forall i | 0 <= i <= |a + b| ensures !OccursAt(a + b, t, i) {
      if i + |t| <= |a| {
        assert (a + b)[i..i + |t|] == a[i..i + |t|];
        assert !OccursAt(a, t, i);
      } else if i + |t| <= |a + b| {
        var k := i + |t| - 1;
        assert (a + b)[k] == b[k - |a|];
        assert (a + b)[i..i + |t|][|t| - 1] == (a + b)[k];
      }
    }
  }

  /** Removing every `t` from `a + t` leaves `a` when `a` holds no `t` and `t` cannot overlap
      itself by starting on its own first character. */
  lemma {:induction false} ReplaceAllStripsSuffix(a: string, t: string)
    requires t != [] && t[0] !in t[1..]
    requires !Contains(a, t)
    ensures ReplaceAll(a + t, t, []) == a
    decreases |a|
  {
    if a == [] {
      assert a + t == t + [];
      ReplaceAllLeading(t, [], []);
    } else {
      var s := a + t;
      NoOccurrenceBeforeSuffix(a, t);
      ContainsShift(a, t);
      ReplaceAllStripsSuffix(a[1..], t);
      assert s[1..] == a[1..] + t;
      ReplaceAllCopies(s, t, []);
      assert [a[0]] + a[1..] == a;
    }
  }

  /** A string that does not start with the target keeps its first character. */
  lemma ReplaceAllCopies(s: string, t: string, replacement: string)
    requires t != [] && |t| <= |s| && s[..|t|] != t
    ensures ReplaceAll(s, t, replacement) == [s[0]] + ReplaceAll(s[1..], t, replacement)
  {
  }

  /** A non-empty `a` without `t` does not start `a + t` with `t`. */
  lemma NoOccurrenceBeforeSuffix(a: string, t: string)
    requires t != [] && t[0] !in t[1..]
    requires a != [] && !Contains(a, t)
    ensures (a + t)[..|t|] != t
  {
    var s := a + t;
    if |a| >= |t| {
      assert s[..|t|] == a[..|t|];
      assert !OccursAt(a, t, 0);
    } else {
      assert t[|a|] == t[1..][|a| - 1];
      assert s[..|t|][|a|] == t[0] != t[|a|];
    }
  }

  /** An occurrence in a suffix of `a` is an occurrence in `a`. */
  lemma ContainsShift(a: string, t: string)
    requires a != []
    ensures Contains(a[1..], t) ==> Contains(a, t)
  {
    forall i | OccursAt(a[1..], t, i) ensures OccursAt(a, t, i + 1) {
      assert a[i + 1..i + 1 + |t|] == a[1..][i..i + |t|];
    }
  }

  /** Leading characters none of which can start `t` are copied unchanged. */
  lemma {:induction false} ReplaceAllSkip(p: string, s: string, t: string, replacement: string)
    requires t != [] && t[0] !in p
    ensures ReplaceAll(p + s, t, replacement) == p + ReplaceAll(s, t, replacement)
    decreases |p|
  {
    if p != [] {
      var ps := p + s;
      if |t| <= |ps| {
        assert ps[..|t|][0] != t[0];
        ReplaceAllCopies(ps, t, replacement);
      } else {
        MissingTail(ps, t);
      }
      assert ps[1..] == p[1..] + s;
      ReplaceAllSkip(p[1..], s, t, replacement);
      assert [p[0]] + p[1..] == p;
    } else {
      assert p + s == s;
    }
  }

  /** A string shorter than `t` does not contain it. */
  lemma MissingTail(s: string, t: string)
    requires |s| < |t|
    ensures !Contains(s, t)
  {
  }

  /** `s` cannot contain `t` when one of the characters of `t` is missing from `s`. */
  lemma MissingCharacter(s: string, t: string, c: char)
    requires c in t && c !in s
    ensures !Contains(s, t)
  {
    var k :| 0 <= k < |t| && t[k] == c;
    forall i | 0 <= i <= |s| ensures !OccursAt(s, t, i) {
      if i + |t| <= |s| {
        assert s[i..i + |t|][k] == s[i + k];
      }
    }
  }

  /** `s.replaceAll(File.separator, ".")`, the separator having no special meaning as a
      regular expression. */
  function DotSeparators(s: string): (r: string)
    ensures |r| == |s|
    ensures forall i :: 0 <= i < |s| ==> r[i] == if s[i] == Separator then '.' else s[i]
    ensures Separator !in r
  {
    if s == [] then []
    else [if s[0] == Separator then '.' else s[0]] + DotSeparators(s[1..])
  }

  /** The order of `String.compareTo`: lexicographic by character, a proper prefix first. */
  predicate Less(a: string, b: string)
    ensures Less(a, b) ==> a != b
  {
    if a == [] then b != []
    else if b == [] then false
    else a[0] < b[0] || (a[0] == b[0] && Less(a[1..], b[1..]))
  }

  lemma {:induction false} LessIrreflexive(a: string)
    ensures !Less(a, a)
  {
    if a != [] {
      LessIrreflexive(a[1..]);
    }
  }

  lemma {:induction false} LessTransitive(a: string, b: string, c: string)
    requires Less(a, b) && Less(b, c)
    ensures Less(a, c)
  {
    if a != [] && b != [] && c != [] && a[0] == b[0] == c[0] {
      LessTransitive(a[1..], b[1..], c[1..]);
    }
  }

  lemma {:induction false} LessTotal(a: string, b: string)
    ensures a == b || Less(a, b) || Less(b, a)
  {
    if a != [] && b != [] && a[0] == b[0] {
      LessTotal(a[1..], b[1..]);
      if a[1..] == b[1..] {
        assert a == [a[0]] + a[1..] && b == [b[0]] + b[1..];
      }
    }
  }

  lemma LessAsymmetric(a: string, b: string)
    requires Less(a, b)
    ensures !Less(b, a)
  {
    if Less(b, a) {
      LessTransitive(a, b, a);
      LessIrreflexive(a);
    }
  }

  /** Ascending without repetition: the order of a sorted list made from a set. */
  predicate StrictlySorted(s: seq<string>) {
    forall i, j :: 0 <= i < j < |s| ==> Less(s[i], s[j])
  }

  /** Inserts a new element at its place in a strictly sorted list. */
  function Insert(s: seq<string>, x: string): (r: seq<string>)
    requires StrictlySorted(s) && x !in s
    ensures StrictlySorted(r)
    ensures multiset(r) == multiset(s) + multiset{x}
    decreases |s|
  {
    if s == [] then
      [x]
    else if Less(x, s[0]) then
      assert forall j :: 0 <= j < |s| ==> Less(x, s[j]) by {
        forall j | 0 <= j < |s| ensures Less(x, s[j]) {
          if j > 0 { LessTransitive(x, s[0], s[j]); }
        }
      }
      [x] + s
    else
      var rest := Insert(s[1..], x);
      assert Less(s[0], x) by { LessTotal(s[0], x); }
      assert forall k :: 0 <= k < |rest| ==> Less(s[0], rest[k]) by {
        forall k | 0 <= k < |rest| ensures Less(s[0], rest[k]) {
          assert rest[k] in multiset(rest);
        }
      }
      assert s == [s[0]] + s[1..];
      [s[0]] + rest
  }

  /** A strictly sorted list is determined by its elements: two orderings of one set of names
      into ascending order coincide. */
  lemma {:induction false} SortedUnique(a: seq<string>, b: seq<string>)
    requires StrictlySorted(a) && StrictlySorted(b)
    requires multiset(a) == multiset(b)
    ensures a == b
    decreases |a|
  {
    assert |a| == |multiset(a)| == |multiset(b)| == |b|;
    if a != [] {
      SortedHeads(a, b);
      assert a == [a[0]] + a[1..] && b == [b[0]] + b[1..];
      assert multiset(a[1..]) == multiset(a) - multiset{a[0]};
      assert multiset(b[1..]) == multiset(b) - multiset{b[0]};
      SortedUnique(a[1..], b[1..]);
    }
  }

  /** Two strictly sorted lists with the same elements start with the same, least, element. */
  lemma SortedHeads(a: seq<string>, b: seq<string>)
    requires StrictlySorted(a) && StrictlySorted(b)
    requires multiset(a) == multiset(b) && a != [] && b != []
    ensures a[0] == b[0]
  {
    assert a[0] in multiset(b) && b[0] in multiset(a);
    var i :| 0 <= i < |b| && b[i] == a[0];
    var j :| 0 <= j < |a| && a[j] == b[0];
    if i != 0 && j != 0 {
      LessAsymmetric(a[0], b[0]);
    }
  }
}
