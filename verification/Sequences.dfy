/** Expanding every item of a sequence into a sequence, as nested append loops do. */
module Sequences {

  function FlatMap<A, B>(s: seq<A>, f: A -> seq<B>): seq<B> {
    if s == [] then [] else f(s[0]) + FlatMap(s[1..], f)
  }

  lemma {:induction false} FlatMapConcat<A, B>(s: seq<A>, t: seq<A>, f: A -> seq<B>)
    ensures FlatMap(s + t, f) == FlatMap(s, f) + FlatMap(t, f)
  {
    if s == [] {
      assert s + t == t;
    } else {
      assert (s + t)[1..] == s[1..] + t;
      FlatMapConcat(s[1..], t, f);
    }
  }

  lemma FlatMapStep<A, B>(s: seq<A>, i: nat, f: A -> seq<B>)
    requires i < |s|
    ensures FlatMap(s[..i + 1], f) == FlatMap(s[..i], f) + f(s[i])
  {
    assert s[..i + 1] == s[..i] + [s[i]];
    FlatMapConcat(s[..i], [s[i]], f);
    assert FlatMap([s[i]], f) == f(s[i]) + FlatMap([], f);
  }

  /** One turn of an append loop, which starts from what is already there. */
  lemma AppendStep<A, B>(before: seq<B>, s: seq<A>, i: nat, f: A -> seq<B>)
    requires i < |s|
    ensures before + FlatMap(s[..i + 1], f) == (before + FlatMap(s[..i], f)) + f(s[i])
    ensures f(s[i]) == [] ==> before + FlatMap(s[..i + 1], f) == before + FlatMap(s[..i], f)
  {
    FlatMapStep(s, i, f);
  }

  lemma {:induction false} FlatMapContains<A, B>(s: seq<A>, f: A -> seq<B>, y: B)
    ensures y in FlatMap(s, f) <==> exists x :: x in s && y in f(x)
  {
    if s != [] {
      FlatMapContains(s[1..], f, y);
      assert s == [s[0]] + s[1..];
    }
  }

  lemma {:induction false} FlatMapCons<A, B>(x: A, s: seq<A>, f: A -> seq<B>)
    ensures FlatMap([x] + s, f) == f(x) + FlatMap(s, f)
  {
    assert ([x] + s)[1..] == s;
  }

  lemma {:induction false} FlatMapTakeOut<A, B>(left: seq<A>, x: A, right: seq<A>, f: A -> seq<B>)
    ensures multiset(FlatMap(left + ([x] + right), f)) == multiset(f(x)) + multiset(FlatMap(left + right, f))
  {
    FlatMapConcat(left, [x] + right, f);
    FlatMapCons(x, right, f);
    FlatMapConcat(left, right, f);
  }

  lemma TakeOut<A>(t: seq<A>, k: nat)
    requires k < |t|
    ensures t == t[..k] + ([t[k]] + t[k + 1..])
    ensures multiset(t[..k] + t[k + 1..]) == multiset(t) - multiset{t[k]}
  {
    assert t == t[..k] + ([t[k]] + t[k + 1..]);
  }

  /** Reordering the items reorders the expansion. */
  lemma {:induction false} FlatMapPermutes<A, B>(s: seq<A>, t: seq<A>, f: A -> seq<B>)
    requires multiset(s) == multiset(t)
    ensures multiset(FlatMap(s, f)) == multiset(FlatMap(t, f))
  {
    if s == [] {
      assert |multiset(t)| == 0;
    } else {
      assert s[0] in multiset(t);
      var k :| 0 <= k < |t| && t[k] == s[0];
      TakeOut(s, 0);
      assert s[..0] + s[1..] == s[1..];
      TakeOut(t, k);
      FlatMapPermutes(s[1..], t[..k] + t[k + 1..], f);
      FlatMapTakeOut(t[..k], t[k], t[k + 1..], f);
    }
  }

  function Filter<A>(s: seq<A>, keep: A -> bool): seq<A> {
    if s == [] then [] else (if keep(s[0]) then [s[0]] else []) + Filter(s[1..], keep)
  }

  lemma {:induction false} FilterAppend<A>(s: seq<A>, x: A, keep: A -> bool)
    ensures Filter(s + [x], keep) == Filter(s, keep) + (if keep(x) then [x] else [])
  {
    if s == [] {
      assert s + [x] == [x] && [x][1..] == [];
    } else {
      FilterAppend(s[1..], x, keep);
      assert (s + [x])[1..] == s[1..] + [x] && (s + [x])[0] == s[0];
      var head, last := if keep(s[0]) then [s[0]] else [], if keep(x) then [x] else [];
      assert Filter(s + [x], keep) == head + Filter(s[1..] + [x], keep);
      assert head + (Filter(s[1..], keep) + last) == (head + Filter(s[1..], keep)) + last;
    }
  }

  ghost predicate Distinct<A>(s: seq<A>) {
    forall i, j | 0 <= i < j < |s| :: s[i] != s[j]
  }

  lemma {:induction false} FilterContains<A>(s: seq<A>, keep: A -> bool, x: A)
    ensures x in Filter(s, keep) <==> x in s && keep(x)
  {
    if s != [] {
      FilterContains(s[1..], keep, x);
      assert x in s <==> x == s[0] || x in s[1..];
    }
  }

  lemma {:induction false} FilterDistinct<A>(s: seq<A>, keep: A -> bool)
    requires Distinct(s)
    ensures Distinct(Filter(s, keep))
  {
    if s != [] {
      FilterDistinct(s[1..], keep);
      FilterContains(s[1..], keep, s[0]);
      assert s[0] !in s[1..];
    }
  }

  /** Items that expand to nothing can be left out. */
  lemma {:induction false} FlatMapFilter<A, B>(s: seq<A>, f: A -> seq<B>, keep: A -> bool)
    requires forall x | x in s && !keep(x) :: f(x) == []
    ensures FlatMap(Filter(s, keep), f) == FlatMap(s, f)
  {
    if s != [] {
      FlatMapFilter(s[1..], f, keep);
      if keep(s[0]) {
        FlatMapCons(s[0], Filter(s[1..], keep), f);
      } else {
        assert Filter(s, keep) == Filter(s[1..], keep);
      }
    }
  }

  /** Without repetitions, the elements determine the multiset. */
  lemma DistinctMultiset<A>(s: seq<A>, t: seq<A>)
    requires Distinct(s) && Distinct(t)
    requires forall x :: x in s <==> x in t
    ensures multiset(s) == multiset(t)
  {
    forall x ensures multiset(s)[x] == multiset(t)[x] {
      DistinctCount(s, x);
      DistinctCount(t, x);
    }
  }

  lemma DistinctCount<A>(s: seq<A>, x: A)
    requires Distinct(s)
    ensures multiset(s)[x] == if x in s then 1 else 0
  {
    if s != [] {
      DistinctCount(s[1..], x);
      assert s == [s[0]] + s[1..];
      assert s[0] !in s[1..];
    }
  }

  /** A loop over the items, as a fold from the left. */
  function Fold<S, A>(step: (S, A) -> S, start: S, items: seq<A>): S
    decreases |items|
  {
    if items == [] then start else Fold(step, step(start, items[0]), items[1..])
  }

  lemma {:induction false} FoldConcat<S, A>(step: (S, A) -> S, start: S, a: seq<A>, b: seq<A>)
    ensures Fold(step, start, a + b) == Fold(step, Fold(step, start, a), b)
    decreases |a|
  {
    if a == [] {
      assert a + b == b;
    } else {
      assert (a + b)[1..] == a[1..] + b;
      FoldConcat(step, step(start, a[0]), a[1..], b);
    }
  }

  lemma FoldOne<S, A>(step: (S, A) -> S, start: S, item: A)
    ensures Fold(step, start, [item]) == step(start, item)
  {
    assert [item][1..] == [];
  }

  /** A state no step leaves. */
  lemma {:induction false} FoldStuck<S, A>(step: (S, A) -> S, start: S, items: seq<A>)
    requires forall item | item in items :: step(start, item) == start
    ensures Fold(step, start, items) == start
    decreases |items|
  {
    if items != [] {
      FoldStuck(step, start, items[1..]);
    }
  }

  /** What every good step keeps, a run of good steps keeps. */
  lemma {:induction false} FoldInvariant<S(!new), A(!new)>(
    step: (S, A) -> S, holds: S -> bool, good: A -> bool, start: S, items: seq<A>)
    requires forall s, item | holds(s) && good(item) :: holds(step(s, item))
    requires holds(start) && forall item | item in items :: good(item)
    ensures holds(Fold(step, start, items))
    decreases |items|
  {
    if items != [] {
      FoldInvariant(step, holds, good, step(start, items[0]), items[1..]);
    }
  }

  function Iterate<S>(f: S -> S, s: S, n: nat): S
    decreases n
  {
    if n == 0 then s else Iterate(f, f(s), n - 1)
  }

  lemma {:induction false} IterateKeeps<S(!new)>(f: S -> S, holds: S -> bool, s: S, n: nat)
    requires forall t | holds(t) :: holds(f(t))
    requires holds(s)
    ensures holds(Iterate(f, s, n))
    decreases n
  {
    if n > 0 {
      IterateKeeps(f, holds, f(s), n - 1);
    }
  }

  /** What is not there yet comes closer with each step, so it comes. */
  lemma IterateReaches<S(!new)>(f: S -> S, holds: S -> bool, there: S -> bool, distance: S -> nat, s: S)
    returns (n: nat)
    requires forall t | holds(t) :: holds(f(t)) && (there(t) || distance(f(t)) < distance(t))
    requires holds(s)
    ensures n <= distance(s) && there(Iterate(f, s, n))
    decreases distance(s)
  {
    if there(s) {
      n := 0;
    } else {
      var m := IterateReaches(f, holds, there, distance, f(s));
      n := m + 1;
    }
  }
}
