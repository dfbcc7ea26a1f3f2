/** Sequence helpers shared by the steps of a run. */
module Seqs {

  /** No element occurs twice. */
  predicate Distinct<T(==,!new)>(s: seq<T>) {
    forall x :: x in s ==> multiset(s)[x] <= 1
  }

  /** Dropping the head of a repetition-free sequence leaves one, without it. */
  lemma DistinctTail<T(!new)>(s: seq<T>)
    requires |s| > 0 && Distinct(s)
    ensures Distinct(s[1..]) && s[0] !in s[1..]
  {
    assert s == [s[0]] + s[1..];
    assert multiset(s) == multiset{s[0]} + multiset(s[1..]);
    forall x | x in s[1..]
      ensures multiset(s[1..])[x] <= 1
    {
      assert x in s;
    }
    assert multiset(s)[s[0]] <= 1;
  }

  /** `a` is `b` with some elements deleted: what is left keeps its relative
      order. */
  predicate Subsequence<T(==)>(a: seq<T>, b: seq<T>)
    decreases |b|
  {
    if |a| == 0 then true
    else if |b| == 0 then false
    else if a[0] == b[0] then Subsequence(a[1..], b[1..])
    else Subsequence(a, b[1..])
  }

  lemma {:induction false} SubsequenceOfItself<T>(s: seq<T>)
    ensures Subsequence(s, s)
  {
    if |s| > 0 {
      SubsequenceOfItself(s[1..]);
    }
  }

  /** The elements of `s` that do not occur in `xs`, in their original order
      (the list comprehensions `[x for x in s if x not in xs]`). */
  function Without<T(==,!new)>(s: seq<T>, xs: seq<T>): (r: seq<T>)
    ensures forall x :: multiset(r)[x] == if x in xs then 0 else multiset(s)[x]
    ensures forall x :: x in r <==> x in s && x !in xs
    ensures |r| <= |s|
  {
    if |s| == 0 then []
    else
      assert s == [s[0]] + s[1..];
      if s[0] in xs then Without(s[1..], xs) else [s[0]] + Without(s[1..], xs)
  }

  /** `members` followed by the elements of `extra` it lacks: a union that
      keeps the existing order and adds nothing twice. */
  function Extend<T(==,!new)>(members: seq<T>, extra: seq<T>): (ids: seq<T>)
    ensures |members| <= |ids| && ids[..|members|] == members
    ensures forall x :: x in ids[|members|..] <==> x in extra && x !in members
    ensures forall x :: x in ids <==> x in members || x in extra
    ensures |extra| > 0 ==> |ids| > 0
    ensures Distinct(members) && Distinct(extra) ==> Distinct(ids)
  {
    var added := Without(extra, members);
    var ids := members + added;
    assert ids[..|members|] == members && ids[|members|..] == added;
    assert |extra| > 0 ==> |ids| > 0 by {
      if |extra| > 0 && |members| == 0 {
        assert extra[0] in added;
      }
    }
    assert Distinct(members) && Distinct(extra) ==> Distinct(ids) by {
      if Distinct(members) && Distinct(extra) {
        forall x | x in ids
          ensures multiset(ids)[x] <= 1
        {
          assert multiset(ids) == multiset(members) + multiset(added);
          if x in members {
            assert multiset(added)[x] == 0;
          } else {
            assert x in extra;
          }
        }
      }
    }
    ids
  }
}
