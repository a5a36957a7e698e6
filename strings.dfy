/** The few functions of Go's `strings` and `sort` packages that the core
    relies on, over byte strings (one `char` per byte). */
module Strings {
  import opened Wrappers

  /** `t` occurs in `s` at position `p`. */
  predicate StartsAt(s: string, p: nat, t: string) {
    p + |t| <= |s| && s[p..p + |t|] == t
  }

  /** `strings.HasPrefix`, written in the source as
      `len(t) <= len(s) && s[:len(t)] == t`. */
  predicate HasPrefix(s: string, t: string) {
    StartsAt(s, 0, t)
  }

  /** The leftmost occurrence of `t` in `s` at or after `from`. */
  function IndexFrom(s: string, t: string, from: nat): (r: Option<nat>)
    decreases |s| - from
    ensures r.Some? ==> from <= r.value && StartsAt(s, r.value, t)
  {
    if from + |t| > |s| then None
    else if StartsAt(s, from, t) then Some(from)
    else IndexFrom(s, t, from + 1)
  }

  /** The occurrence `IndexFrom` finds is the leftmost one, and it misses none. */
  lemma {:induction false} IndexFromSpec(s: string, t: string, from: nat)
    ensures var r := IndexFrom(s, t, from);
      && (r.Some? ==> forall q :: from <= q < r.value ==> !StartsAt(s, q, t))
      && (r.None? ==> forall q :: from <= q ==> !StartsAt(s, q, t))
    decreases |s| - from
  {
    if from + |t| <= |s| && !StartsAt(s, from, t) {
      IndexFromSpec(s, t, from + 1);
    }
  }

  /** The occurrence at `p`, with none between `from` and `p`, is the one found. */
  lemma {:induction false} IndexFromIs(s: string, t: string, from: nat, p: nat)
    requires from <= p && StartsAt(s, p, t)
    requires forall q :: from <= q < p ==> !StartsAt(s, q, t)
    ensures IndexFrom(s, t, from) == Some(p)
    decreases p - from
  {
    if from < p {
      IndexFromIs(s, t, from + 1, p);
    }
  }

  /** `strings.Index`: the leftmost occurrence of `t` in `s`. */
  function Index(s: string, t: string): Option<nat> {
    IndexFrom(s, t, 0)
  }

  /** `strings.Replace(s, pat, rep, 1)`: the leftmost occurrence of `pat`
      is replaced by `rep`; without an occurrence `s` is returned as is. */
  function ReplaceFirst(s: string, pat: string, rep: string): string {
    match Index(s, pat)
    case None => s
    case Some(p) => s[..p] + rep + s[p + |pat|..]
  }

  /** If `pat` occurs at `p` and nowhere before, the replacement happens at `p`. */
  lemma ReplaceFirstAt(s: string, pat: string, rep: string, p: nat)
    requires StartsAt(s, p, pat)
    requires forall q: nat :: q < p ==> !StartsAt(s, q, pat)
    ensures ReplaceFirst(s, pat, rep) == s[..p] + rep + s[p + |pat|..]
  {
    IndexFromIs(s, pat, 0, p);
  }

  /** Without an occurrence of `pat`, the string is returned unchanged. */
  lemma ReplaceFirstAbsent(s: string, pat: string, rep: string)
    requires forall q: nat :: !StartsAt(s, q, pat)
    ensures ReplaceFirst(s, pat, rep) == s
  {
    IndexFromSpec(s, pat, 0);
  }

  /** `strings.Join(parts, sep)`. */
  function Join(parts: seq<string>, sep: string): string
    decreases |parts|
  {
    if |parts| == 0 then ""
    else if |parts| == 1 then parts[0]
    else parts[0] + sep + Join(parts[1..], sep)
  }

  /** Go's byte-wise lexicographic order on strings (`a <= b`). */
  predicate LessEq(a: string, b: string)
    decreases |a|
  {
    |a| == 0 || (|b| > 0 && (a[0] < b[0] || (a[0] == b[0] && LessEq(a[1..], b[1..]))))
  }

  lemma {:induction false} LessEqTotal(a: string, b: string)
    ensures LessEq(a, b) || LessEq(b, a)
    decreases |a|
  {
    if |a| > 0 && |b| > 0 && a[0] == b[0] {
      LessEqTotal(a[1..], b[1..]);
    }
  }

  lemma {:induction false} LessEqReflexive(a: string)
    ensures LessEq(a, a)
    decreases |a|
  {
    if |a| > 0 { LessEqReflexive(a[1..]); }
  }

  lemma {:induction false} LessEqAntisymmetric(a: string, b: string)
    requires LessEq(a, b) && LessEq(b, a)
    ensures a == b
    decreases |a|
  {
    if |a| > 0 {
      LessEqAntisymmetric(a[1..], b[1..]);
      assert a == [a[0]] + a[1..];
      assert b == [b[0]] + b[1..];
    }
  }

  lemma {:induction false} LessEqTransitive(a: string, b: string, c: string)
    requires LessEq(a, b) && LessEq(b, c)
    ensures LessEq(a, c)
    decreases |a|
  {
    if |a| > 0 && a[0] == b[0] && b[0] == c[0] {
      LessEqTransitive(a[1..], b[1..], c[1..]);
    }
  }

  /** A shared prefix does not change the order. */
  lemma {:induction false} LessEqCommonPrefix(p: string, a: string, b: string)
    requires LessEq(a, b)
    ensures LessEq(p + a, p + b)
    decreases |p|
  {
    if |p| == 0 {
      assert p + a == a && p + b == b;
    } else {
      assert (p + a)[0] == p[0] == (p + b)[0];
      assert (p + a)[1..] == p[1..] + a && (p + b)[1..] == p[1..] + b;
      LessEqCommonPrefix(p[1..], a, b);
    }
  }

  predicate Sorted(xs: seq<string>) {
    forall i, j :: 0 <= i < j < |xs| ==> LessEq(xs[i], xs[j])
  }

  /** `y` is at most every element of `ys`. */
  predicate Below(y: string, ys: seq<string>) {
    forall i :: 0 <= i < |ys| ==> LessEq(y, ys[i])
  }

  lemma BelowPermutation(y: string, a: seq<string>, b: seq<string>)
    requires Below(y, a) && multiset(a) == multiset(b)
    ensures Below(y, b)
  {
    forall i | 0 <= i < |b| ensures LessEq(y, b[i]) {
      assert b[i] in multiset(a);
      var j :| 0 <= j < |a| && a[j] == b[i];
    }
  }

  lemma SortedCons(y: string, ys: seq<string>)
    requires Sorted(ys) && Below(y, ys)
    ensures Sorted([y] + ys)
  {
    var r := [y] + ys;
    forall i, j | 0 <= i < j < |r| ensures LessEq(r[i], r[j]) {
      if i > 0 {
        assert r[i] == ys[i - 1] && r[j] == ys[j - 1];
      } else {
        assert r[j] == ys[j - 1];
      }
    }
  }

  /** Insertion into a sorted sequence. */
  function Insert(x: string, xs: seq<string>): (r: seq<string>)
    requires Sorted(xs)
    ensures Sorted(r) && multiset(r) == multiset(xs) + multiset{x}
    decreases |xs|
  {
    if |xs| == 0 then [x]
    else if LessEq(x, xs[0]) then
      assert Below(x, xs) by {
        forall j | 0 <= j < |xs| ensures LessEq(x, xs[j]) {
          if j > 0 { LessEqTransitive(x, xs[0], xs[j]); }
        }
      }
      SortedCons(x, xs);
      [x] + xs
    else
      var rest := Insert(x, xs[1..]);
      assert xs == [xs[0]] + xs[1..];
      assert Below(xs[0], xs[1..] + [x]) by {
        LessEqTotal(x, xs[0]);
        forall i | 0 <= i < |xs[1..] + [x]| ensures LessEq(xs[0], (xs[1..] + [x])[i]) {
          if i < |xs| - 1 { assert (xs[1..] + [x])[i] == xs[i + 1]; }
        }
      }
      BelowPermutation(xs[0], xs[1..] + [x], rest);
      SortedCons(xs[0], rest);
      [xs[0]] + rest
  }

  /** `sort.Strings`, as an insertion sort: the result is sorted and is a
      permutation of the input. */
  function Sort(xs: seq<string>): (r: seq<string>)
    ensures Sorted(r) && multiset(r) == multiset(xs)
    decreases |xs|
  {
    if |xs| == 0 then []
    else
      assert xs == [xs[0]] + xs[1..];
      Insert(xs[0], Sort(xs[1..]))
  }

  /** The head of a sorted sequence is at most each of its elements. */
  lemma SortedHeadBelow(a: seq<string>, y: string)
    requires Sorted(a) && y in multiset(a)
    ensures LessEq(a[0], y)
  {
    var j :| 0 <= j < |a| && a[j] == y;
    if j == 0 { LessEqReflexive(y); }
  }

  /** Removing the head removes one copy of it from the multiset. */
  lemma TailMultiset(a: seq<string>)
    requires |a| > 0
    ensures multiset(a[1..]) == multiset(a) - multiset{a[0]}
  {
    assert a == [a[0]] + a[1..];
  }

  lemma SortedTail(a: seq<string>)
    requires Sorted(a) && |a| > 0
    ensures Sorted(a[1..])
  {
    forall i, j | 0 <= i < j < |a| - 1 ensures LessEq(a[1..][i], a[1..][j]) {
      assert a[1..][i] == a[i + 1] && a[1..][j] == a[j + 1];
    }
  }

  /** Two sorted permutations of each other start alike and go on with
      sorted permutations of each other. */
  lemma SortedSameHead(a: seq<string>, b: seq<string>)
    requires Sorted(a) && Sorted(b) && multiset(a) == multiset(b) && |a| > 0
    ensures |b| > 0 && a[0] == b[0]
    ensures Sorted(a[1..]) && Sorted(b[1..]) && multiset(a[1..]) == multiset(b[1..])
  {
    assert a[0] in multiset(b);
    assert |b| > 0;
    assert b[0] in multiset(a);
    SortedHeadBelow(a, b[0]);
    SortedHeadBelow(b, a[0]);
    LessEqAntisymmetric(a[0], b[0]);
    TailMultiset(a);
    TailMultiset(b);
    SortedTail(a);
    SortedTail(b);
  }

  /** A sorted sequence is determined by its multiset of elements. */
  lemma {:induction false} SortedUnique(a: seq<string>, b: seq<string>)
    requires Sorted(a) && Sorted(b) && multiset(a) == multiset(b)
    ensures a == b
    decreases |a|
  {
    if |a| == 0 {
      assert |multiset(b)| == 0;
    } else {
      SortedSameHead(a, b);
      SortedUnique(a[1..], b[1..]);
      assert a == [a[0]] + a[1..];
      assert b == [b[0]] + b[1..];
    }
  }
}
