/** Python comprehensions over lists, and how they act on multisets. */
module Lists {

  /** `[x for x in xs if p(x)]` */
  function Filter<T>(p: T -> bool, xs: seq<T>): seq<T> {
    if xs == [] then []
    else (if p(xs[0]) then [xs[0]] else []) + Filter(p, xs[1..])
  }

  /** `[f(x) for x in xs]` */
  function Each<T, U>(f: T -> U, xs: seq<T>): (r: seq<U>)
    ensures |r| == |xs|
    ensures forall i :: 0 <= i < |xs| ==> r[i] == f(xs[i])
  {
    seq(|xs|, i requires 0 <= i < |xs| => f(xs[i]))
  }

  ghost predicate Distinct<T(!new)>(xs: seq<T>) {
    forall i, j :: 0 <= i < j < |xs| ==> xs[i] != xs[j]
  }

  lemma {:induction false} FilterAppend<T>(p: T -> bool, xs: seq<T>, ys: seq<T>)
    ensures Filter(p, xs + ys) == Filter(p, xs) + Filter(p, ys)
  {
    if xs == [] {
      assert xs + ys == ys;
    } else {
      assert (xs + ys)[1..] == xs[1..] + ys && (xs + ys)[0] == xs[0];
      FilterAppend(p, xs[1..], ys);
      var head := if p(xs[0]) then [xs[0]] else [];
      assert Filter(p, xs) == head + Filter(p, xs[1..]);
      assert Filter(p, xs + ys) == head + Filter(p, xs[1..] + ys);
      hide Filter;
      assert head + Filter(p, xs[1..]) + Filter(p, ys) == head + (Filter(p, xs[1..]) + Filter(p, ys));
    }
  }

  lemma {:induction false} FilterMembers<T>(p: T -> bool, xs: seq<T>)
    ensures forall x :: x in Filter(p, xs) <==> x in xs && p(x)
  {
    if xs != [] {
      FilterMembers(p, xs[1..]);
      assert forall x :: x in xs <==> x == xs[0] || x in xs[1..];
    }
  }

  lemma {:induction false} FilterAgree<T>(p: T -> bool, q: T -> bool, xs: seq<T>)
    requires forall x :: x in xs ==> p(x) == q(x)
    ensures Filter(p, xs) == Filter(q, xs)
  {
    if xs != [] {
      assert xs[0] in xs;
      FilterAgree(p, q, xs[1..]);
    }
  }

  /** Two filters in a row are one. */
  lemma {:induction false} FilterTwice<T>(p: T -> bool, q: T -> bool, xs: seq<T>)
    requires forall x :: x in xs && p(x) ==> q(x)
    ensures Filter(p, Filter(q, xs)) == Filter(p, xs)
  {
    if xs != [] {
      assert xs[0] in xs;
      FilterTwice(p, q, xs[1..]);
      FilterAppend(p, if q(xs[0]) then [xs[0]] else [], Filter(q, xs[1..]));
    }
  }

  lemma {:induction false} FilterCount<T>(p: T -> bool, xs: seq<T>, x: T)
    ensures multiset(Filter(p, xs))[x] == if p(x) then multiset(xs)[x] else 0
  {
    if xs != [] {
      assert xs == [xs[0]] + xs[1..];
      FilterCount(p, xs[1..], x);
    }
  }

  /** Filtering respects permutations. */
  lemma {:induction false} FilterPermuted<T>(p: T -> bool, xs: seq<T>, ys: seq<T>)
    requires multiset(xs) == multiset(ys)
    ensures multiset(Filter(p, xs)) == multiset(Filter(p, ys))
    decreases |xs|
  {
    PermutedMembers(xs, ys);
    if xs != [] {
      var j := IndexOf(ys, xs[0]);
      var rest := ys[..j] + ys[j+1..];
      Behead(xs);
      RemoveAt(ys, j);
      FilterPermuted(p, xs[1..], rest);
      FilterRemoveAt(p, ys, j);
    }
  }

  lemma FilterRemoveAt<T>(p: T -> bool, xs: seq<T>, i: nat)
    requires i < |xs|
    ensures multiset(Filter(p, xs)) ==
            multiset(if p(xs[i]) then [xs[i]] else []) + multiset(Filter(p, xs[..i] + xs[i+1..]))
  {
    var front, back := xs[..i], xs[i+1..];
    assert xs == front + ([xs[i]] + back);
    FilterOne(p, xs[i]);
    hide Filter;
    FilterMiddle(p, front, xs[i], back);
  }

  lemma FilterOne<T>(p: T -> bool, x: T)
    ensures Filter(p, [x]) == if p(x) then [x] else []
  {
  }

  lemma FilterMiddle<T>(p: T -> bool, front: seq<T>, x: T, back: seq<T>)
    ensures multiset(Filter(p, front + ([x] + back))) == multiset(Filter(p, [x])) + multiset(Filter(p, front + back))
  {
    hide Filter;
    FilterAppend(p, front, [x] + back);
    FilterAppend(p, [x], back);
    FilterAppend(p, front, back);
    MiddleFirst(Filter(p, front), Filter(p, [x]), Filter(p, back));
  }

  lemma MiddleFirst<T>(a: seq<T>, b: seq<T>, c: seq<T>)
    ensures multiset(a + (b + c)) == multiset(b) + multiset(a + c)
  {
  }

  lemma PermutedMembers<T>(xs: seq<T>, ys: seq<T>)
    requires multiset(xs) == multiset(ys)
    ensures |xs| == |ys|
    ensures forall x :: x in xs <==> x in ys
  {
    assert |multiset(xs)| == |multiset(ys)|;
    forall x ensures x in xs <==> x in ys {
      assert x in xs <==> x in multiset(xs);
      assert x in ys <==> x in multiset(ys);
    }
  }

  lemma RemoveAt<T>(xs: seq<T>, i: nat)
    requires i < |xs|
    ensures multiset(xs[..i] + xs[i+1..]) == multiset(xs) - multiset{xs[i]}
    ensures multiset(xs) == multiset{xs[i]} + multiset(xs[..i] + xs[i+1..])
  {
    assert xs == xs[..i] + [xs[i]] + xs[i+1..];
  }

  lemma Behead<T>(xs: seq<T>)
    requires xs != []
    ensures multiset(xs[1..]) == multiset(xs) - multiset{xs[0]}
    ensures multiset(xs) == multiset{xs[0]} + multiset(xs[1..])
  {
    assert xs == [xs[0]] + xs[1..];
  }

  lemma IndexOf<T>(xs: seq<T>, x: T) returns (i: nat)
    requires x in xs
    ensures i < |xs| && xs[i] == x
  {
    i :| i < |xs| && xs[i] == x;
  }

  /** A list with an element moved to the front is a permutation of it. */
  lemma MoveToFront<T>(xs: seq<T>, i: nat) returns (ys: seq<T>)
    requires i < |xs|
    ensures ys == [xs[i]] + xs[..i] + xs[i+1..]
    ensures multiset(ys) == multiset(xs)
  {
    ys := [xs[i]] + xs[..i] + xs[i+1..];
    RemoveAt(xs, i);
    assert ys == [xs[i]] + (xs[..i] + xs[i+1..]);
  }

  lemma {:induction false} EachPermuted<T, U>(f: T -> U, xs: seq<T>, ys: seq<T>)
    requires multiset(xs) == multiset(ys)
    ensures multiset(Each(f, xs)) == multiset(Each(f, ys))
    decreases |xs|
  {
    PermutedMembers(xs, ys);
    if xs != [] {
      var j := IndexOf(ys, xs[0]);
      var rest := ys[..j] + ys[j+1..];
      Behead(xs);
      RemoveAt(ys, j);
      EachPermuted(f, xs[1..], rest);
      EachRemoveAt(f, xs, 0);
      EachRemoveAt(f, ys, j);
    } else {
      assert Each(f, xs) == Each(f, ys);
    }
  }

  lemma EachRemoveAt<T, U>(f: T -> U, xs: seq<T>, i: nat)
    requires i < |xs|
    ensures multiset(Each(f, xs)) == multiset{f(xs[i])} + multiset(Each(f, xs[..i] + xs[i+1..]))
    ensures i == 0 ==> xs[..i] + xs[i+1..] == xs[1..]
  {
    RemoveAt(Each(f, xs), i);
    assert Each(f, xs[..i] + xs[i+1..]) == Each(f, xs)[..i] + Each(f, xs)[i+1..];
  }

  lemma MatchHead<T, U>(f: T -> U, xs: seq<T>, ys: seq<T>) returns (j: nat)
    requires multiset(Each(f, xs)) == multiset(Each(f, ys)) && xs != []
    ensures j < |ys| && f(ys[j]) == f(xs[0])
    ensures multiset(Each(f, xs[1..])) == multiset(Each(f, ys[..j] + ys[j+1..]))
  {
    var us, vs := Each(f, xs), Each(f, ys);
    SharedMember(us, vs);
    j := IndexOf(vs, us[0]);
    EachRemoveAt(f, xs, 0);
    EachRemoveAt(f, ys, j);
    Cancel(f(xs[0]), multiset(Each(f, xs[1..])), multiset(Each(f, ys[..j] + ys[j+1..])));
  }

  lemma SharedMember<T>(xs: seq<T>, ys: seq<T>)
    requires multiset(xs) == multiset(ys) && xs != []
    ensures xs[0] in ys
  {
    assert xs[0] in multiset(xs);
  }

  lemma Cancel<T>(x: T, a: multiset<T>, b: multiset<T>)
    requires multiset{x} + a == multiset{x} + b
    ensures a == b
  {
    assert a == (multiset{x} + a) - multiset{x};
    assert b == (multiset{x} + b) - multiset{x};
  }

  /** If `f` is injective on the elements at hand, equal images mean equal multisets. */
  lemma {:induction false} EachReflectsPermutation<T, U>(f: T -> U, xs: seq<T>, ys: seq<T>)
    requires multiset(Each(f, xs)) == multiset(Each(f, ys))
    requires forall x, y :: x in xs && y in ys && f(x) == f(y) ==> x == y
    ensures multiset(xs) == multiset(ys)
    decreases |xs|
  {
    PermutedMembers(Each(f, xs), Each(f, ys));
    if xs != [] {
      var j := MatchHead(f, xs, ys);
      assert ys[j] in ys && xs[0] in xs;
      EachReflectsPermutation(f, xs[1..], ys[..j] + ys[j+1..]);
      Behead(xs);
      RemoveAt(ys, j);
    } else {
      assert ys == [];
    }
  }

  /** Lists without repetition and with the same elements are permutations of each other. */
  lemma DistinctSameMembers<T(!new)>(xs: seq<T>, ys: seq<T>)
    requires Distinct(xs) && Distinct(ys)
    requires forall x :: x in xs <==> x in ys
    ensures multiset(xs) == multiset(ys)
  {
    forall x ensures multiset(xs)[x] == multiset(ys)[x] {
      DistinctCount(xs, x);
      DistinctCount(ys, x);
    }
  }

  lemma {:induction false} DistinctCount<T(!new)>(xs: seq<T>, x: T)
    requires Distinct(xs)
    ensures multiset(xs)[x] == if x in xs then 1 else 0
  {
    if xs != [] {
      assert xs == [xs[0]] + xs[1..];
      DistinctCount(xs[1..], x);
    }
  }

  lemma TwiceCounted<T>(xs: seq<T>, i: nat, j: nat)
    requires i < j < |xs| && xs[i] == xs[j]
    ensures multiset(xs)[xs[i]] >= 2
  {
    RemoveAt(xs, j);
    var rest := xs[..j] + xs[j+1..];
    assert rest[i] == xs[i];
    assert rest[i] in multiset(rest);
  }
}
