/** Folds over sequences that the logs and queues of several models share. */
module Sequences {

  function FlatMap<A, B>(f: A -> seq<B>, s: seq<A>): seq<B> {
    if s == [] then [] else f(s[0]) + FlatMap(f, s[1..])
  }

  lemma {:induction false} FlatMapConcat<A, B>(f: A -> seq<B>, s: seq<A>, t: seq<A>)
    ensures FlatMap(f, s + t) == FlatMap(f, s) + FlatMap(f, t)
  {
    if s == [] {
      assert s + t == t;
    } else {
      assert (s + t)[1..] == s[1..] + t;
      FlatMapConcat(f, s[1..], t);
    }
  }

  lemma FlatMapStep<A, B>(f: A -> seq<B>, x: A, s: seq<A>)
    ensures FlatMap(f, [x] + s) == f(x) + FlatMap(f, s)
  {
    assert ([x] + s)[1..] == s;
  }

  lemma FlatMapAppend<A, B>(f: A -> seq<B>, s: seq<A>, x: A)
    ensures FlatMap(f, s + [x]) == FlatMap(f, s) + f(x)
  {
    FlatMapConcat(f, s, [x]);
    assert FlatMap(f, [x]) == f(x) + FlatMap(f, []);
  }

  lemma FlatMapNothing<A, B>(f: A -> seq<B>, s: seq<A>, x: A)
    requires f(x) == []
    ensures FlatMap(f, s + [x]) == FlatMap(f, s)
  {
    FlatMapAppend(f, s, x);
    assert FlatMap(f, s) + [] == FlatMap(f, s);
  }

  lemma {:induction false} FlatMapAgree<A, T>(f: A -> seq<T>, g: A -> seq<T>, s: seq<A>)
    requires forall i :: 0 <= i < |s| ==> f(s[i]) == g(s[i])
    ensures FlatMap(f, s) == FlatMap(g, s)
  {
    if s != [] {
      FlatMapAgree(f, g, s[1..]);
    }
  }

  function Filter<A>(keep: A -> bool, s: seq<A>): seq<A> {
    if s == [] then [] else (if keep(s[0]) then [s[0]] else []) + Filter(keep, s[1..])
  }

  lemma Regroup<A>(a: seq<A>, b: seq<A>, c: seq<A>)
    ensures (a + b) + c == a + (b + c)
  {
  }

  lemma {:induction false} FilterConcat<A>(keep: A -> bool, s: seq<A>, t: seq<A>)
    ensures Filter(keep, s + t) == Filter(keep, s) + Filter(keep, t)
  {
    if s == [] {
      assert s + t == t;
    } else {
      assert (s + t)[1..] == s[1..] + t;
      FilterConcat(keep, s[1..], t);
      Regroup(if keep(s[0]) then [s[0]] else [], Filter(keep, s[1..]), Filter(keep, t));
    }
  }

  lemma {:induction false} FilterMember<A>(keep: A -> bool, s: seq<A>, x: A)
    ensures x in Filter(keep, s) <==> x in s && keep(x)
  {
    if s != [] {
      FilterMember(keep, s[1..], x);
    }
  }

  function SumBy<A>(f: A -> nat, s: seq<A>): nat {
    if s == [] then 0 else f(s[0]) + SumBy(f, s[1..])
  }

  lemma {:induction false} SumByConcat<A>(f: A -> nat, s: seq<A>, t: seq<A>)
    ensures SumBy(f, s + t) == SumBy(f, s) + SumBy(f, t)
  {
    if s == [] {
      assert s + t == t;
    } else {
      assert (s + t)[1..] == s[1..] + t;
      SumByConcat(f, s[1..], t);
    }
  }

  lemma SumByAppend<A>(f: A -> nat, s: seq<A>, x: A)
    ensures SumBy(f, s + [x]) == SumBy(f, s) + f(x)
  {
    SumByConcat(f, s, [x]);
  }

  lemma SumByRemove<A>(f: A -> nat, s: seq<A>, i: nat)
    requires i < |s|
    ensures SumBy(f, s[..i] + s[i + 1..]) + f(s[i]) == SumBy(f, s)
  {
    assert s == s[..i] + ([s[i]] + s[i + 1..]);
    SumByConcat(f, s[..i], [s[i]] + s[i + 1..]);
    SumByConcat(f, s[..i], s[i + 1..]);
  }

  /** The parts of a sequence of sequences are joined as they are. */
  function Itself<A>(part: seq<A>): seq<A> { part }

  lemma SliceOfSlice<T>(s: seq<T>, first: nat, more: nat)
    requires first + more <= |s|
    ensures s[..first] + s[first..][..more] == s[..first + more]
    ensures s[first..][more..] == s[first + more..]
  {
  }

  // Moving the boundary of a log one element to the right.
  lemma Advance<A>(s: seq<A>, i: nat)
    requires i < |s|
    ensures s[..i + 1] == s[..i] + [s[i]]
    ensures s[i..] == [s[i]] + s[i + 1..]
  {
  }
}
