/**
 The grouping primitive behind `d3.rollups(values, reduce, key)`: elements are
 scanned left to right; an element joins the group of its key when that key has
 been seen, otherwise it opens a new group at the end. Groups therefore come out
 in first-seen order of their keys and keep their members in input order.
 */
module Rollups {
  import opened Seqs

  datatype Group<K, T> = Group(key: K, items: seq<T>)

  function Keys<K, T>(gs: seq<Group<K, T>>): (ks: seq<K>)
    ensures |ks| == |gs| && forall i :: 0 <= i < |gs| ==> ks[i] == gs[i].key
  {
    seq(|gs|, i requires 0 <= i < |gs| => gs[i].key)
  }

  /** The elements of `xs` whose key is `k`, in input order. */
  function Select<T, K(==)>(xs: seq<T>, key: T -> K, k: K): (r: seq<T>)
    ensures |r| <= |xs|
    ensures forall i :: 0 <= i < |r| ==> key(r[i]) == k
  {
    if |xs| == 0 then []
    else Select(DropLast(xs), key, k) + (if key(Last(xs)) == k then [Last(xs)] else [])
  }

  /** One step of the scan: file `x` under key `k`. */
  function Add<K(==), T>(gs: seq<Group<K, T>>, k: K, x: T): (r: seq<Group<K, T>>)
    ensures Keys(r) == if k in Keys(gs) then Keys(gs) else Keys(gs) + [k]
    ensures k in Keys(gs) ==> |r| == |gs|
    ensures k !in Keys(gs) ==> |r| == |gs| + 1 && r[|gs|] == Group(k, [x])
    ensures forall i :: 0 <= i < |gs| ==> r[i].key == gs[i].key
    ensures forall i :: 0 <= i < |gs| && gs[i].key != k ==> r[i] == gs[i]
    ensures NoDup(Keys(gs)) ==>
              forall i :: 0 <= i < |gs| && gs[i].key == k ==> r[i].items == gs[i].items + [x]
  {
    if k in Keys(gs) then
      var i := FirstIndex(Keys(gs), k);
      var r := gs[i := Group(k, gs[i].items + [x])];
      assert Keys(r) == Keys(gs);
      r
    else
      var r := gs + [Group(k, [x])];
      assert Keys(r) == Keys(gs) + [k];
      r
  }

  /** `d3.rollups` before the reduce step (`d3.groups`). */
  function Rollup<T, K(==)>(xs: seq<T>, key: T -> K): (gs: seq<Group<K, T>>)
    ensures NoDup(Keys(gs))
    ensures |gs| <= |xs|
  {
    if |xs| == 0 then []
    else
      Add(Rollup(DropLast(xs), key), key(Last(xs)), Last(xs))
  }

  /** Total of a measure over the member lists of all groups. */
  function SumOver<K, T>(gs: seq<Group<K, T>>, m: seq<T> -> nat): nat
  {
    if |gs| == 0 then 0 else SumOver(DropLast(gs), m) + m(Last(gs).items)
  }

  /** A measure that adds up element by element (a count or a sum of a field). */
  ghost predicate Additive<T(!new)>(m: seq<T> -> nat)
  {
    && m([]) == 0
    && forall s: seq<T>, x: T {:trigger m(s + [x])} :: m(s + [x]) == m(s) + m([x])
  }

  lemma {:induction false} SumOverUpdate<K, T>(gs: seq<Group<K, T>>, i: nat, g: Group<K, T>, m: seq<T> -> nat)
    requires i < |gs|
    ensures SumOver(gs[i := g], m) == SumOver(gs, m) - m(gs[i].items) + m(g.items)
  {
    if i < |gs| - 1 {
      SumOverUpdate(DropLast(gs), i, g, m);
      assert DropLast(gs[i := g]) == DropLast(gs)[i := g];
    } else {
      assert DropLast(gs[i := g]) == DropLast(gs);
    }
  }

  lemma {:induction false} SumOverAppend<K, T>(gs: seq<Group<K, T>>, g: Group<K, T>, m: seq<T> -> nat)
    ensures SumOver(gs + [g], m) == SumOver(gs, m) + m(g.items)
  {
    assert DropLast(gs + [g]) == gs;
  }

  /**
   The rollup is a partition: every group holds exactly the elements carrying its
   key, in input order, and the keys are the distinct keys of the input in
   first-seen order.
   */
  lemma {:induction false} RollupGroups<T, K>(xs: seq<T>, key: T -> K)
    ensures Keys(Rollup(xs, key)) == FirstSeen(Project(xs, key))
    ensures forall i :: 0 <= i < |Rollup(xs, key)| ==>
              Rollup(xs, key)[i].items == Select(xs, key, Rollup(xs, key)[i].key)
  {
    RollupKeys(xs, key);
    RollupItems(xs, key);
  }

  /** The group keys are the element keys, each once, in first-seen order. */
  lemma {:induction false} RollupKeys<T, K>(xs: seq<T>, key: T -> K)
    ensures Keys(Rollup(xs, key)) == FirstSeen(Project(xs, key))
  {
    if |xs| > 0 {
      RollupKeys(DropLast(xs), key);
      assert DropLast(Project(xs, key)) == Project(DropLast(xs), key);
    }
  }

  /** Each group holds exactly the elements of its key, in input order. */
  lemma {:induction false} RollupItems<T, K>(xs: seq<T>, key: T -> K)
    ensures forall i :: 0 <= i < |Rollup(xs, key)| ==>
              Rollup(xs, key)[i].items == Select(xs, key, Rollup(xs, key)[i].key)
  {
    if |xs| > 0 {
      var d, x := DropLast(xs), Last(xs);
      RollupItems(d, key);
      var gs, r := Rollup(d, key), Rollup(xs, key);
      forall i | 0 <= i < |r|
        ensures r[i].items == Select(xs, key, r[i].key)
      {
        if i == |gs| {
          NewKeyUnseen(d, key, key(x));
        }
      }
    }
  }

  /** A key that opens a new group has not occurred before. */
  lemma {:induction false} NewKeyUnseen<T, K>(d: seq<T>, key: T -> K, k: K)
    requires k !in Keys(Rollup(d, key))
    ensures Select(d, key, k) == []
  {
    RollupKeys(d, key);
    assert forall j :: 0 <= j < |d| ==> key(d[j]) == Project(d, key)[j];
    SelectNone(d, key, k);
  }

  /** No element carries key `k`, so none is selected. */
  lemma {:induction false} SelectNone<T, K>(xs: seq<T>, key: T -> K, k: K)
    requires forall j :: 0 <= j < |xs| ==> key(xs[j]) != k
    ensures Select(xs, key, k) == []
  {
    if |xs| > 0 {
      SelectNone(DropLast(xs), key, k);
    }
  }

  /** Every group is non-empty: a key is only created by an element carrying it. */
  lemma {:induction false} RollupGroupsNonEmpty<T, K>(xs: seq<T>, key: T -> K)
    ensures forall i :: 0 <= i < |Rollup(xs, key)| ==> |Rollup(xs, key)[i].items| >= 1
  {
    if |xs| > 0 {
      RollupGroupsNonEmpty(DropLast(xs), key);
    }
  }

  /** An additive measure of the whole input is the sum of the measures of the groups. */
  lemma {:induction false} RollupConserves<T(!new), K>(xs: seq<T>, key: T -> K, m: seq<T> -> nat)
    requires Additive(m)
    ensures SumOver(Rollup(xs, key), m) == m(xs)
  {
    if |xs| > 0 {
      var d, x := DropLast(xs), Last(xs);
      assert SumOver(Rollup(xs, key), m) == SumOver(Rollup(d, key), m) + m([x]) by {
        assert Rollup(xs, key) == Add(Rollup(d, key), key(x), x);
        AddConserves(Rollup(d, key), key(x), x, m);
      }
      assert m(xs) == m(d) + m([x]) by {
        assert d + [x] == xs;
      }
      RollupConserves(d, key, m);
    }
  }

  /** Filing one element adds its measure to the total. */
  lemma {:induction false} AddConserves<K, T(!new)>(gs: seq<Group<K, T>>, k: K, x: T, m: seq<T> -> nat)
    requires Additive(m)
    ensures SumOver(Add(gs, k, x), m) == SumOver(gs, m) + m([x])
  {
    if k in Keys(gs) {
      var i := FirstIndex(Keys(gs), k);
      SumOverUpdate(gs, i, Group(k, gs[i].items + [x]), m);
    } else {
      SumOverAppend(gs, Group(k, [x]), m);
    }
  }
}
