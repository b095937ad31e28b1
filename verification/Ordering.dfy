/** Python's ordering of strings and tuples, `sorted` on lists and on sets. */
module Ordering {
  import opened Lists

  /** `a <= b` on strings: lexicographic by code point. */
  predicate TextLe(a: string, b: string) {
    a == "" || (b != "" && (a[0] < b[0] || (a[0] == b[0] && TextLe(a[1..], b[1..]))))
  }

  /** `a <= b` on tuples of strings: the first difference decides, a proper prefix comes first. */
  predicate KeyLe(a: seq<string>, b: seq<string>) {
    a == [] || (b != [] && if a[0] == b[0] then KeyLe(a[1..], b[1..]) else TextLe(a[0], b[0]))
  }

  /**
   * `a < b` on strings, without recursion: `a` is a proper prefix of `b`, or at the first place where
   * they differ `a` has the character with the lower code point.
   */
  ghost predicate Before(a: string, b: string) {
    a < b || exists i :: DifferFirst(a, b, i) && a[i] as int < b[i] as int
  }

  /** `i` is the first place at which both lists have an entry and these differ. */
  ghost predicate DifferFirst<T>(a: seq<T>, b: seq<T>, i: int) {
    0 <= i < |a| && i < |b| && a[..i] == b[..i] && a[i] != b[i]
  }

  /** `a < b` on tuples of strings: a proper prefix, or the first difference decides. */
  ghost predicate KeyBefore(a: seq<string>, b: seq<string>) {
    a < b || exists i :: DifferFirst(a, b, i) && Before(a[i], b[i])
  }

  /** A common first entry moves the first difference by one. */
  lemma DifferFirstTail<T>(a: seq<T>, b: seq<T>, i: int)
    requires a != [] && b != [] && a[0] == b[0]
    ensures DifferFirst(a, b, i) <==> i > 0 && DifferFirst(a[1..], b[1..], i - 1)
  {
    if 0 < i < |a| && i < |b| {
      assert a[..i] == [a[0]] + a[1..][..i - 1] && b[..i] == [b[0]] + b[1..][..i - 1];
      assert a[..i][1..] == a[1..][..i - 1] && b[..i][1..] == b[1..][..i - 1];
    }
  }

  lemma DifferFirstHead<T>(a: seq<T>, b: seq<T>, i: int)
    requires a != [] && b != [] && a[0] != b[0]
    ensures DifferFirst(a, b, i) <==> i == 0
  {
    if 0 < i < |a| && i < |b| {
      assert a[..i][0] != b[..i][0];
    }
  }

  lemma PrefixTail<T>(a: seq<T>, b: seq<T>)
    requires a != [] && b != [] && a[0] == b[0]
    ensures a[1..] < b[1..] <==> a < b
    ensures a[1..] == b[1..] <==> a == b
  {
    assert a == [a[0]] + a[1..] && b == [b[0]] + b[1..];
    if a[1..] < b[1..] {
      assert b[..|a|] == [b[0]] + b[1..][..|a| - 1] == a;
    }
    if a < b {
      assert b[1..][..|a| - 1] == b[..|a|][1..] == a[1..];
    }
  }

  lemma BeforeStep(a: string, b: string)
    requires a != "" && b != ""
    ensures Before(a, b) <==> a[0] as int < b[0] as int || (a[0] == b[0] && Before(a[1..], b[1..]))
  {
    if a[0] == b[0] {
      PrefixTail(a, b);
      forall i ensures DifferFirst(a, b, i) <==> i > 0 && DifferFirst(a[1..], b[1..], i - 1) {
        DifferFirstTail(a, b, i);
      }
      if i :| DifferFirst(a[1..], b[1..], i) && a[1..][i] as int < b[1..][i] as int {
        assert DifferFirst(a, b, i + 1) && a[i + 1] == a[1..][i] && b[i + 1] == b[1..][i];
      }
    } else {
      forall i ensures DifferFirst(a, b, i) <==> i == 0 { DifferFirstHead(a, b, i); }
    }
  }

  lemma KeyBeforeStep(a: seq<string>, b: seq<string>)
    requires a != [] && b != []
    ensures KeyBefore(a, b) <==> if a[0] == b[0] then KeyBefore(a[1..], b[1..]) else Before(a[0], b[0])
  {
    hide Before;
    if a[0] == b[0] {
      PrefixTail(a, b);
      forall i ensures DifferFirst(a, b, i) <==> i > 0 && DifferFirst(a[1..], b[1..], i - 1) {
        DifferFirstTail(a, b, i);
      }
      if i :| DifferFirst(a[1..], b[1..], i) && Before(a[1..][i], b[1..][i]) {
        assert DifferFirst(a, b, i + 1) && a[i + 1] == a[1..][i] && b[i + 1] == b[1..][i];
      }
    } else {
      forall i ensures DifferFirst(a, b, i) <==> i == 0 { DifferFirstHead(a, b, i); }
    }
  }

  /** The recursive comparison of strings is the order by code point. */
  lemma {:induction false} TextLeExact(a: string, b: string)
    ensures TextLe(a, b) <==> a == b || Before(a, b)
  {
    if a != "" && b != "" {
      BeforeStep(a, b);
      TextLeExact(a[1..], b[1..]);
      PrefixTailIf(a, b);
      hide Before;
    }
  }

  /** The recursive comparison of tuples is lexicographic over that order. */
  lemma {:induction false} KeyLeExact(a: seq<string>, b: seq<string>)
    ensures KeyLe(a, b) <==> a == b || KeyBefore(a, b)
  {
    if a != [] && b != [] {
      KeyBeforeStep(a, b);
      TextLeExact(a[0], b[0]);
      KeyLeExact(a[1..], b[1..]);
      PrefixTailIf(a, b);
      hide Before, TextLe, KeyBefore;
    }
  }

  /** One step of the comparison of tuples. */
  lemma KeyLeCons(x: string, y: string, xs: seq<string>, ys: seq<string>)
    ensures KeyLe([x] + xs, [y] + ys) <==> Before(x, y) || (x == y && KeyLe(xs, ys))
  {
    TextLeExact(x, y);
    BeforeIsStrict(x);
    hide Before, TextLe;
    assert ([x] + xs)[1..] == xs && ([y] + ys)[1..] == ys;
  }

  lemma BeforeIsStrict(x: string)
    ensures !Before(x, x)
  {
  }

  lemma PrefixTailIf<T>(a: seq<T>, b: seq<T>)
    requires a != [] && b != []
    ensures a == b <==> a[0] == b[0] && a[1..] == b[1..]
  {
    assert a == [a[0]] + a[1..] && b == [b[0]] + b[1..];
  }

  lemma {:induction false} TextTotal(a: string, b: string)
    ensures TextLe(a, b) || TextLe(b, a)
    ensures TextLe(a, b) && TextLe(b, a) ==> a == b
    ensures TextLe(a, a)
  {
    if a != "" && b != "" {
      TextTotal(a[1..], b[1..]);
      assert a == [a[0]] + a[1..] && b == [b[0]] + b[1..];
    }
    if a != "" {
      TextTotal(a[1..], a[1..]);
    }
  }

  lemma {:induction false} TextTransitive(a: string, b: string, c: string)
    requires TextLe(a, b) && TextLe(b, c)
    ensures TextLe(a, c)
  {
    if a != "" && a[0] == b[0] == c[0] {
      TextTransitive(a[1..], b[1..], c[1..]);
    }
  }

  lemma {:induction false} KeyTotal(a: seq<string>, b: seq<string>)
    ensures KeyLe(a, b) || KeyLe(b, a)
    ensures KeyLe(a, b) && KeyLe(b, a) ==> a == b
    ensures KeyLe(a, a)
  {
    if a != [] && b != [] {
      TextTotal(a[0], b[0]);
      KeyTotal(a[1..], b[1..]);
      assert a == [a[0]] + a[1..] && b == [b[0]] + b[1..];
    }
    if a != [] {
      KeyTotal(a[1..], a[1..]);
    }
  }

  lemma {:induction false} KeyTransitive(a: seq<string>, b: seq<string>, c: seq<string>)
    requires KeyLe(a, b) && KeyLe(b, c)
    ensures KeyLe(a, c)
  {
    if a != [] {
      if a[0] == b[0] == c[0] {
        KeyTransitive(a[1..], b[1..], c[1..]);
      } else if a[0] != b[0] && b[0] != c[0] {
        TextTransitive(a[0], b[0], c[0]);
        TextTotal(a[0], b[0]);
      }
    }
  }

  /** `sorted(xs, key=key)`: Python's sort is stable, so this is insertion sort that keeps ties in order. */
  function SortBy<T>(key: T -> seq<string>, xs: seq<T>): seq<T> {
    if xs == [] then [] else Insert(key, xs[0], SortBy(key, xs[1..]))
  }

  function Insert<T>(key: T -> seq<string>, x: T, ys: seq<T>): seq<T> {
    if ys == [] then [x]
    else if KeyLe(key(x), key(ys[0])) then [x] + ys
    else [ys[0]] + Insert(key, x, ys[1..])
  }

  ghost predicate SortedBy<T>(key: T -> seq<string>, xs: seq<T>) {
    forall i, j :: 0 <= i < j < |xs| ==> KeyLe(key(xs[i]), key(xs[j]))
  }

  function HasKey<T>(key: T -> seq<string>, k: seq<string>): T -> bool {
    x => key(x) == k
  }

  lemma {:induction false} InsertSorts<T>(key: T -> seq<string>, x: T, ys: seq<T>)
    requires SortedBy(key, ys)
    ensures SortedBy(key, Insert(key, x, ys))
    ensures multiset(Insert(key, x, ys)) == multiset([x]) + multiset(ys)
  {
    if ys != [] {
      if KeyLe(key(x), key(ys[0])) {
        forall j | 0 <= j < |ys| ensures KeyLe(key(x), key(ys[j])) {
          if j > 0 { KeyTransitive(key(x), key(ys[0]), key(ys[j])); }
        }
      } else {
        assert ys == [ys[0]] + ys[1..];
        InsertSorts(key, x, ys[1..]);
        KeyTotal(key(x), key(ys[0]));
        var zs := Insert(key, x, ys[1..]);
        forall j | 0 <= j < |zs| ensures KeyLe(key(ys[0]), key(zs[j])) {
          assert zs[j] in multiset(zs);
          assert zs[j] == x || zs[j] in ys[1..];
        }
      }
    }
  }

  lemma NothingToSort<T>(key: T -> seq<string>)
    ensures SortedBy(key, [])
  {
  }

  /** `sorted` returns a sorted permutation of its input. */
  lemma {:induction false} SortSorts<T>(key: T -> seq<string>, xs: seq<T>)
    ensures SortedBy(key, SortBy(key, xs))
    ensures multiset(SortBy(key, xs)) == multiset(xs)
  {
    hide Insert, SortedBy, KeyLe;
    if xs == [] {
      NothingToSort(key);
    } else {
      SortSorts(key, xs[1..]);
      InsertSorts(key, xs[0], SortBy(key, xs[1..]));
      assert xs == [xs[0]] + xs[1..];
    }
  }

  lemma {:induction false} InsertStable<T>(key: T -> seq<string>, x: T, ys: seq<T>, k: seq<string>)
    ensures Filter(HasKey(key, k), Insert(key, x, ys)) == Filter(HasKey(key, k), [x] + ys)
  {
    if ys != [] && !KeyLe(key(x), key(ys[0])) {
      InsertStable(key, x, ys[1..], k);
      KeyTotal(key(x), key(ys[0]));
      var p := HasKey(key, k);
      assert ys == [ys[0]] + ys[1..];
      assert [x] + ys == [x] + [ys[0]] + ys[1..];
      FilterAppend(p, [x] + [ys[0]], ys[1..]);
      FilterAppend(p, [x], [ys[0]]);
      FilterAppend(p, [x], ys[1..]);
    }
  }

  /** Stability: entries with the same key keep the order they had in the input. */
  lemma {:induction false} SortStable<T>(key: T -> seq<string>, xs: seq<T>, k: seq<string>)
    ensures Filter(HasKey(key, k), SortBy(key, xs)) == Filter(HasKey(key, k), xs)
  {
    if xs != [] {
      SortStable(key, xs[1..], k);
      InsertStable(key, xs[0], SortBy(key, xs[1..]), k);
      FilterAppend(HasKey(key, k), [xs[0]], SortBy(key, xs[1..]));
    }
  }

  /** No two different entries of the list have the same sort key. */
  ghost predicate NoTies<T(!new)>(key: T -> seq<string>, xs: seq<T>) {
    forall x, y :: x in xs && y in xs && key(x) == key(y) ==> x == y
  }

  /** Without ties there is only one sorted permutation. */
  lemma {:induction false} SortedUnique<T(!new)>(key: T -> seq<string>, xs: seq<T>, ys: seq<T>)
    requires SortedBy(key, xs) && SortedBy(key, ys)
    requires multiset(xs) == multiset(ys) && NoTies(key, xs)
    ensures xs == ys
    decreases |xs|
  {
    PermutedMembers(xs, ys);
    if xs != [] {
      assert xs[0] in ys && ys[0] in xs;
      assert xs[0] == ys[0] by {
        var i := IndexOf(ys, xs[0]);
        var j := IndexOf(xs, ys[0]);
        KeyTotal(key(xs[0]), key(ys[0]));
      }
      Behead(xs);
      Behead(ys);
      SortedUnique(key, xs[1..], ys[1..]);
    }
  }

  /**
   * `sorted(xs, key=key)` is the same for every permutation of `xs` exactly when no two different
   * entries tie.
   */
  lemma SortOrderIndependent<T(!new)>(key: T -> seq<string>, xs: seq<T>)
    ensures NoTies(key, xs) <==>
            forall ys: seq<T> :: multiset(ys) == multiset(xs) ==> SortBy(key, ys) == SortBy(key, xs)
  {
    if NoTies(key, xs) {
      forall ys: seq<T> | multiset(ys) == multiset(xs) ensures SortBy(key, ys) == SortBy(key, xs) {
        SortSorts(key, xs);
        SortSorts(key, ys);
        PermutedMembers(SortBy(key, xs), xs);
        SortedUnique(key, SortBy(key, xs), SortBy(key, ys));
      }
    } else {
      var x, y :| x in xs && y in xs && key(x) == key(y) && x != y;
      var ys := FrontedBy(key, xs, x);
      var zs := FrontedBy(key, xs, y);
      assert SortBy(key, ys) != SortBy(key, zs) by {
        SortStable(key, ys, key(x));
        SortStable(key, zs, key(x));
      }
    }
  }

  /** A permutation of `xs` in which `x` is the first entry of its key. */
  lemma FrontedBy<T>(key: T -> seq<string>, xs: seq<T>, x: T) returns (ys: seq<T>)
    requires x in xs
    ensures multiset(ys) == multiset(xs)
    ensures Filter(HasKey(key, key(x)), ys) != [] && Filter(HasKey(key, key(x)), ys)[0] == x
  {
    var i :| 0 <= i < |xs| && xs[i] == x;
    ys := MoveToFront(xs, i);
    assert ys[0] == x;
  }

  /** `sorted(s)` of a set of strings. */
  function SortedSet(s: set<string>): seq<string> {
    if s == {} then []
    else
      var k := Least(s);
      [k] + SortedSet(s - {k})
  }

  function Least(s: set<string>): string
    requires s != {}
  {
    LeastExists(s);
    assert forall a, b :: TextLe(a, b) && TextLe(b, a) ==> a == b by {
      forall a, b | TextLe(a, b) && TextLe(b, a) ensures a == b { TextTotal(a, b); }
    }
    var k :| k in s && forall y :: y in s ==> TextLe(k, y);
    k
  }

  /** The listing of a set has exactly its elements. */
  lemma {:induction false} SortedSetMembers(s: set<string>)
    ensures forall k :: k in SortedSet(s) <==> k in s
  {
    if s != {} {
      SortedSetMembers(s - {Least(s)});
    }
  }

  lemma LeastExists(s: set<string>)
    requires s != {}
    ensures exists k :: k in s && forall y :: y in s ==> TextLe(k, y)
  {
    var x :| x in s;
    TextTotal(x, x);
    if s == {x} {
      assert x in s && forall y :: y in s ==> TextLe(x, y);
    } else {
      LeastExists(s - {x});
      var k :| k in s - {x} && forall y :: y in s - {x} ==> TextLe(k, y);
      TextTotal(x, k);
      if TextLe(x, k) {
        forall y | y in s ensures TextLe(x, y) {
          if y != x { TextTransitive(x, k, y); }
        }
        assert x in s && forall y :: y in s ==> TextLe(x, y);
      } else {
        assert k in s && forall y :: y in s ==> TextLe(k, y);
      }
    }
  }

  /** The listing is strictly increasing by code point. */
  lemma {:induction false} SortedSetIncreasing(s: set<string>)
    ensures forall i, j :: 0 <= i < j < |SortedSet(s)| ==> Before(SortedSet(s)[i], SortedSet(s)[j])
  {
    if s != {} {
      var k := Least(s);
      var rest := SortedSet(s - {k});
      SortedSetIncreasing(s - {k});
      SortedSetMembers(s - {k});
      assert SortedSet(s) == [k] + rest;
      forall j | 0 <= j < |rest| ensures Before(k, rest[j]) {
        assert rest[j] in rest;
        TextLeExact(k, rest[j]);
      }
      hide Least, TextLe, SortedSet, Before;
    }
  }

  lemma SortedSetInjective(s: set<string>, t: set<string>)
    requires SortedSet(s) == SortedSet(t)
    ensures s == t
  {
    SortedSetMembers(s);
    SortedSetMembers(t);
  }

  lemma BeforeTransitive(a: string, b: string, c: string)
    requires Before(a, b) && Before(b, c)
    ensures Before(a, c)
  {
    TextLeExact(a, b);
    TextLeExact(b, c);
    TextLeExact(a, c);
    hide Before, TextLe;
    TextTransitive(a, b, c);
    if a == c {
      TextTotal(a, b);
      BeforeIsStrict(a);
    }
  }

  /** A strictly increasing list with the elements of a set is its listing. */
  lemma ListingIs(s: set<string>, keys: seq<string>)
    requires forall k :: k in keys <==> k in s
    requires forall i, j :: 0 <= i < j < |keys| ==> Before(keys[i], keys[j])
    ensures SortedSet(s) == keys
  {
    var listed := SortedSet(s);
    SortedSetMembers(s);
    SortedSetIncreasing(s);
    hide Before, SortedSet;
    IncreasingUnique(listed, keys);
  }

  lemma {:induction false} IncreasingUnique(xs: seq<string>, ys: seq<string>)
    requires forall k :: k in xs <==> k in ys
    requires forall i, j :: 0 <= i < j < |xs| ==> Before(xs[i], xs[j])
    requires forall i, j :: 0 <= i < j < |ys| ==> Before(ys[i], ys[j])
    ensures xs == ys
  {
    hide Before;
    if xs != [] {
      assert xs[0] in ys;
    }
    if ys != [] {
      assert ys[0] in xs;
    }
    if xs != [] && ys != [] {
      assert xs[0] == ys[0] by {
        var i :| 0 <= i < |ys| && ys[i] == xs[0] by { assert xs[0] in ys; }
        var j :| 0 <= j < |xs| && xs[j] == ys[0] by { assert ys[0] in xs; }
        if i > 0 && j > 0 {
          BeforeTransitive(xs[0], ys[0], xs[0]);
          BeforeIsStrict(xs[0]);
        }
      }
      NotAgain(xs);
      NotAgain(ys);
      assert forall k :: k in xs <==> k == xs[0] || k in xs[1..];
      assert forall k :: k in ys <==> k == ys[0] || k in ys[1..];
      IncreasingUnique(xs[1..], ys[1..]);
    }
  }

  lemma NotAgain(xs: seq<string>)
    requires xs != [] && forall i, j :: 0 <= i < j < |xs| ==> Before(xs[i], xs[j])
    ensures xs[0] !in xs[1..]
  {
    BeforeIsStrict(xs[0]);
    hide Before;
  }
}
