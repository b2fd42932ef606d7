/**
 Generic facts about sequences used by every chart pipeline: order-preserving
 filtering, sub-sequences, duplicate-free sequences and first-seen de-duplication.
 All recursion peels the LAST element, so inductions follow a left-to-right scan.
 */
module Seqs {

  function Last<T>(s: seq<T>): T
    requires |s| > 0
  {
    s[|s| - 1]
  }

  function DropLast<T>(s: seq<T>): seq<T>
    requires |s| > 0
  {
    s[..|s| - 1]
  }

  function Elems<T>(s: seq<T>): set<T>
  {
    set x | x in s
  }

  /** `Array.prototype.filter`: the elements satisfying `p`, in their original order. */
  function Filter<T>(xs: seq<T>, p: T -> bool): (r: seq<T>)
    ensures |r| <= |xs|
    ensures forall i :: 0 <= i < |r| ==> p(r[i]) && r[i] in xs
    ensures forall i :: 0 <= i < |xs| && p(xs[i]) ==> xs[i] in r
  {
    if |xs| == 0 then []
    else Filter(DropLast(xs), p) + (if p(Last(xs)) then [Last(xs)] else [])
  }

  /** An element of `xs` survives the filter exactly when it satisfies `p`. */
  lemma {:induction false} FilterMember<T>(xs: seq<T>, p: T -> bool, x: T)
    requires x in xs
    ensures x in Filter(xs, p) <==> p(x)
  {
    var r := Filter(xs, p);
    if p(x) {
      var i :| 0 <= i < |xs| && xs[i] == x;
    } else {
      assert forall i :: 0 <= i < |r| ==> r[i] != x;
    }
  }

  /** Every element satisfies `p` or fails it: the two filters split the sequence. */
  lemma {:induction false} FilterComplement<T>(xs: seq<T>, p: T -> bool, q: T -> bool)
    requires forall x :: q(x) == !p(x)
    ensures |Filter(xs, p)| + |Filter(xs, q)| == |xs|
  {
    if |xs| > 0 {
      FilterComplement(DropLast(xs), p, q);
    }
  }

  /** Filtering distributes over appending one element. */
  lemma {:induction false} FilterSnoc<T>(s: seq<T>, x: T, p: T -> bool)
    ensures Filter(s + [x], p) == Filter(s, p) + (if p(x) then [x] else [])
  {
    assert DropLast(s + [x]) == s;
  }

  /** The filter keeps every copy of an element that passes and no copy of one that fails. */
  lemma {:induction false} FilterMultiset<T>(xs: seq<T>, p: T -> bool)
    ensures forall x :: multiset(Filter(xs, p))[x] == if p(x) then multiset(xs)[x] else 0
  {
    if |xs| > 0 {
      var d, y := DropLast(xs), Last(xs);
      FilterMultiset(d, p);
      assert xs == d + [y];
      assert multiset(xs) == multiset(d) + multiset{y};
      assert multiset(Filter(xs, p)) == multiset(Filter(d, p)) + (if p(y) then multiset{y} else multiset{});
    }
  }

  /** Filtering distributes over concatenation. */
  lemma {:induction false} FilterAppend<T>(a: seq<T>, b: seq<T>, p: T -> bool)
    ensures Filter(a + b, p) == Filter(a, p) + Filter(b, p)
  {
    if |b| == 0 {
      assert a + b == a;
    } else {
      FilterAppend(a, DropLast(b), p);
      assert a + b == (a + DropLast(b)) + [Last(b)];
      FilterSnoc(a + DropLast(b), Last(b), p);
    }
  }

  /** Predicates that agree on the elements select the same elements. */
  lemma {:induction false} FilterCongruent<T>(xs: seq<T>, p: T -> bool, q: T -> bool)
    requires forall i :: 0 <= i < |xs| ==> p(xs[i]) == q(xs[i])
    ensures Filter(xs, p) == Filter(xs, q)
  {
    if |xs| > 0 {
      FilterCongruent(DropLast(xs), p, q);
    }
  }

  /** `a` can be obtained from `b` by deleting elements (order preserved). */
  predicate IsSubseq<T(==)>(a: seq<T>, b: seq<T>)
  {
    if |a| == 0 then true
    else if |b| == 0 then false
    else if Last(a) == Last(b) then IsSubseq(DropLast(a), DropLast(b))
    else IsSubseq(a, DropLast(b))
  }

  predicate NoDup<T(==)>(s: seq<T>)
  {
    forall i, j :: 0 <= i < j < |s| ==> s[i] != s[j]
  }

  /** Index of the first occurrence of `x` in `s`. */
  function FirstIndex<T(==)>(s: seq<T>, x: T): (r: nat)
    requires x in s
    ensures r < |s| && s[r] == x
    ensures forall k :: 0 <= k < r ==> s[k] != x
  {
    if s[0] == x then 0 else 1 + FirstIndex(s[1..], x)
  }

  /** The distinct elements of `s`, each placed where it first occurs. */
  function FirstSeen<T(==)>(s: seq<T>): (r: seq<T>)
    ensures NoDup(r)
    ensures forall i :: 0 <= i < |r| ==> r[i] in s
    ensures forall i :: 0 <= i < |s| ==> s[i] in r
    ensures |r| <= |s|
  {
    if |s| == 0 then []
    else
      var p := FirstSeen(DropLast(s));
      if Last(s) in p then p else p + [Last(s)]
  }

  /** Filtering keeps a sequence whose every element passes. */
  lemma {:induction false} FilterAllPass<T>(xs: seq<T>, p: T -> bool)
    requires forall i :: 0 <= i < |xs| ==> p(xs[i])
    ensures Filter(xs, p) == xs
  {
    if |xs| > 0 {
      FilterAllPass(DropLast(xs), p);
      assert DropLast(xs) + [Last(xs)] == xs;
    }
  }

  /** Filtering twice with the same predicate is filtering once. */
  lemma {:induction false} FilterIdempotent<T>(xs: seq<T>, p: T -> bool)
    ensures Filter(Filter(xs, p), p) == Filter(xs, p)
  {
    FilterAllPass(Filter(xs, p), p);
  }

  /** The filter leaves a sequence unchanged exactly when every element passes. */
  lemma {:induction false} FilterUnchangedIff<T>(xs: seq<T>, p: T -> bool)
    ensures Filter(xs, p) == xs <==> forall i :: 0 <= i < |xs| ==> p(xs[i])
  {
    if forall i :: 0 <= i < |xs| ==> p(xs[i]) {
      FilterAllPass(xs, p);
    }
  }

  lemma {:induction false} FilterIsSubseq<T>(xs: seq<T>, p: T -> bool)
    ensures IsSubseq(Filter(xs, p), xs)
  {
    if |xs| > 0 {
      FilterIsSubseq(DropLast(xs), p);
      if p(Last(xs)) {
        assert DropLast(Filter(xs, p)) == Filter(DropLast(xs), p);
      } else {
        assert Filter(xs, p) == Filter(DropLast(xs), p);
        SubseqExtend(Filter(DropLast(xs), p), DropLast(xs), Last(xs));
        assert DropLast(xs) + [Last(xs)] == xs;
      }
    }
  }

  /** Appending to the larger sequence keeps a sub-sequence a sub-sequence. */
  lemma {:induction false} SubseqExtend<T>(a: seq<T>, b: seq<T>, x: T)
    requires IsSubseq(a, b)
    ensures IsSubseq(a, b + [x])
    decreases |b| + 1, 0
  {
    if |a| > 0 {
      assert DropLast(b + [x]) == b;
      if Last(a) == x {
        SubseqDropLast(a, b);
      }
    }
  }

  lemma {:induction false} SubseqDropLast<T>(a: seq<T>, b: seq<T>)
    requires |a| > 0 && IsSubseq(a, b)
    ensures IsSubseq(DropLast(a), b)
    decreases |b|, 1
  {
    if Last(a) == Last(b) {
      SubseqExtend(DropLast(a), DropLast(b), Last(b));
      assert DropLast(b) + [Last(b)] == b;
    } else {
      SubseqDropLast(a, DropLast(b));
      SubseqExtend(DropLast(a), DropLast(b), Last(b));
      assert DropLast(b) + [Last(b)] == b;
    }
  }

  /** Every element of a sub-sequence occurs in the larger sequence. */
  lemma {:induction false} SubseqElems<T>(a: seq<T>, b: seq<T>)
    requires IsSubseq(a, b)
    ensures forall x :: x in a ==> x in b
  {
    if |a| > 0 {
      if Last(a) == Last(b) {
        SubseqElems(DropLast(a), DropLast(b));
        assert a == DropLast(a) + [Last(a)];
      } else {
        SubseqElems(a, DropLast(b));
      }
    }
  }

  /** A sub-sequence of a duplicate-free sequence is duplicate-free. */
  lemma {:induction false} SubseqNoDup<T>(a: seq<T>, b: seq<T>)
    requires IsSubseq(a, b) && NoDup(b)
    ensures NoDup(a)
  {
    if |a| > 0 && |b| > 0 {
      assert NoDup(DropLast(b));
      if Last(a) == Last(b) {
        SubseqNoDup(DropLast(a), DropLast(b));
        SubseqElems(DropLast(a), DropLast(b));
        assert forall i :: 0 <= i < |DropLast(b)| ==> DropLast(b)[i] != Last(b);
        assert forall i :: 0 <= i < |a| - 1 ==> a[i] == DropLast(a)[i] && a[i] in DropLast(b);
      } else {
        SubseqNoDup(a, DropLast(b));
      }
    }
  }

  /** Filtering a duplicate-free sequence leaves it duplicate-free. */
  lemma {:induction false} FilterNoDup<T>(xs: seq<T>, p: T -> bool)
    requires NoDup(xs)
    ensures NoDup(Filter(xs, p))
  {
    FilterIsSubseq(xs, p);
    SubseqNoDup(Filter(xs, p), xs);
  }

  /** A duplicate-free sequence has as many distinct elements as entries. */
  lemma {:induction false} NoDupCard<T>(s: seq<T>)
    requires NoDup(s)
    ensures |Elems(s)| == |s|
  {
    if |s| > 0 {
      NoDupCard(DropLast(s));
      assert Elems(s) == Elems(DropLast(s)) + {Last(s)};
      assert Last(s) !in Elems(DropLast(s));
    }
  }

  /** A sequence has at least as many entries as distinct elements. */
  lemma {:induction false} CardElems<T>(s: seq<T>)
    ensures |Elems(s)| <= |s|
  {
    if |s| > 0 {
      CardElems(DropLast(s));
      assert Elems(s) == Elems(DropLast(s)) + {Last(s)};
    }
  }

  /** De-duplicating a duplicate-free sequence changes nothing. */
  lemma {:induction false} FirstSeenOfNoDup<T>(s: seq<T>)
    requires NoDup(s)
    ensures FirstSeen(s) == s
  {
    if |s| > 0 {
      FirstSeenOfNoDup(DropLast(s));
      assert s == DropLast(s) + [Last(s)];
    }
  }

  /** The entries of `FirstSeen(s)` are ordered by where they first occur in `s`. */
  lemma {:induction false} FirstSeenOrder<T>(s: seq<T>)
    ensures forall i, j :: 0 <= i < j < |FirstSeen(s)| ==>
      FirstIndex(s, FirstSeen(s)[i]) < FirstIndex(s, FirstSeen(s)[j])
  {
    if |s| > 0 {
      var d, x := DropLast(s), Last(s);
      assert s == d + [x];
      FirstSeenOrder(d);
      var p, r := FirstSeen(d), FirstSeen(s);
      forall i, j | 0 <= i < j < |r|
        ensures FirstIndex(s, r[i]) < FirstIndex(s, r[j])
      {
        FirstIndexSnoc(d, x, p[i]);
        if j < |p| {
          FirstIndexSnoc(d, x, p[j]);
        } else {
          FirstIndexNew(d, x);
        }
      }
    }
  }

  /**
   `FirstSeen(s)` holds exactly the elements of `s`, each once, ordered by where
   they first occur in `s`.
   */
  lemma {:induction false} FirstSeenSpec<T>(s: seq<T>)
    ensures forall x :: x in FirstSeen(s) <==> x in s
    ensures NoDup(FirstSeen(s))
    ensures forall i, j :: 0 <= i < j < |FirstSeen(s)| ==>
      FirstIndex(s, FirstSeen(s)[i]) < FirstIndex(s, FirstSeen(s)[j])
  {
    var r := FirstSeen(s);
    forall x | x in s
      ensures x in r
    {
      var i :| 0 <= i < |s| && s[i] == x;
    }
    FirstSeenOrder(s);
  }

  /** Appending does not move the first occurrence of an element already present. */
  lemma {:induction false} FirstIndexSnoc<T>(d: seq<T>, x: T, e: T)
    requires e in d
    ensures FirstIndex(d + [x], e) == FirstIndex(d, e) < |d|
  {
    var b := FirstIndex(d, e);
    assert (d + [x])[b] == e;
    assert forall k :: 0 <= k < b ==> (d + [x])[k] != e;
  }

  /** An appended element that was absent first occurs at the end. */
  lemma {:induction false} FirstIndexNew<T>(d: seq<T>, x: T)
    requires x !in d
    ensures FirstIndex(d + [x], x) == |d|
  {
    assert (d + [x])[|d|] == x;
    assert forall k :: 0 <= k < |d| ==> (d + [x])[k] != x;
  }

  /** A duplicate-free sequence whose elements all occur in `b` is no longer than `b`. */
  lemma {:induction false} CoveredLength<T>(a: seq<T>, b: seq<T>)
    requires NoDup(a)
    requires forall x :: x in a ==> x in b
    ensures |a| <= |b|
  {
    NoDupCard(a);
    CardElems(b);
    SubsetCard(Elems(a), Elems(b));
  }

  lemma {:induction false} SubsetCard<T>(a: set<T>, b: set<T>)
    requires a <= b
    ensures |a| <= |b|
  {
    assert b == a + (b - a);
  }

  /** The key of every element, in order. */
  function Project<T, K>(xs: seq<T>, f: T -> K): (ks: seq<K>)
    ensures |ks| == |xs|
    ensures forall i :: 0 <= i < |xs| ==> ks[i] == f(xs[i])
  {
    if |xs| == 0 then [] else Project(DropLast(xs), f) + [f(Last(xs))]
  }

  lemma {:induction false} ProjectSnoc<T, K>(xs: seq<T>, x: T, f: T -> K)
    ensures Project(xs + [x], f) == Project(xs, f) + [f(x)]
  {
    assert DropLast(xs + [x]) == xs;
  }

  /** Mapping through a function that is injective on the elements commutes with de-duplication. */
  lemma {:induction false} FirstSeenProject<A, B>(s: seq<A>, f: A -> B)
    requires forall i, j :: 0 <= i < |s| && 0 <= j < |s| && f(s[i]) == f(s[j]) ==> s[i] == s[j]
    ensures Project(FirstSeen(s), f) == FirstSeen(Project(s, f))
  {
    if |s| > 0 {
      var d, x := DropLast(s), Last(s);
      FirstSeenProject(d, f);
      assert DropLast(Project(s, f)) == Project(d, f);
      var p := FirstSeen(d);
      forall j | 0 <= j < |p| && f(p[j]) == f(x)
        ensures p[j] == x
      {
        var m := FirstIndex(d, p[j]);
        assert s[m] == p[j] && s[|s| - 1] == x;
      }
      ProjectMember(p, x, f);
      if x !in p {
        ProjectSnoc(p, x, f);
      }
    }
  }

  /** When only `x` itself maps to `f(x)`, `x` occurs exactly when its image does. */
  lemma {:induction false} ProjectMember<A, B>(p: seq<A>, x: A, f: A -> B)
    requires forall j :: 0 <= j < |p| && f(p[j]) == f(x) ==> p[j] == x
    ensures x in p <==> f(x) in Project(p, f)
  {
    if x in p {
      var j :| 0 <= j < |p| && p[j] == x;
      assert Project(p, f)[j] == f(x);
    }
  }

  /** Filtering commutes with projecting when the filter reads only the projected field. */
  lemma {:induction false} FilterProject<T, K>(xs: seq<T>, p: T -> bool, f: T -> K, q: K -> bool)
    requires forall i :: 0 <= i < |xs| ==> p(xs[i]) == q(f(xs[i]))
    ensures Project(Filter(xs, p), f) == Filter(Project(xs, f), q)
  {
    if |xs| > 0 {
      var d, x := DropLast(xs), Last(xs);
      assert xs == d + [x];
      FilterProject(d, p, f, q);
      calc {
        Project(Filter(xs, p), f);
        { FilterSnoc(d, x, p); }
        Project(Filter(d, p) + (if p(x) then [x] else []), f);
        { if p(x) { ProjectSnoc(Filter(d, p), x, f); } }
        Project(Filter(d, p), f) + (if q(f(x)) then [f(x)] else []);
        Filter(Project(d, f), q) + (if q(f(x)) then [f(x)] else []);
        { FilterSnoc(Project(d, f), f(x), q); }
        Filter(Project(d, f) + [f(x)], q);
        { ProjectSnoc(d, x, f); }
        Filter(Project(xs, f), q);
      }
    }
  }
}
