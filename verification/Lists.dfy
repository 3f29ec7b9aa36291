/** Filtering, and stable sorting by a key. */
module Lists {
  function Filter<T(!new)>(xs: seq<T>, p: T -> bool): (r: seq<T>)
    ensures forall x :: x in r <==> x in xs && p(x)
  {
    if xs == [] then []
    else
      assert xs == [xs[0]] + xs[1..];
      if p(xs[0]) then [xs[0]] + Filter(xs[1..], p) else Filter(xs[1..], p)
  }

  lemma {:induction false} FilterConcat<T(!new)>(xs: seq<T>, ys: seq<T>, p: T -> bool)
    ensures Filter(xs + ys, p) == Filter(xs, p) + Filter(ys, p)
  {
    if xs == [] {
      assert xs + ys == ys;
    } else {
      assert (xs + ys)[1..] == xs[1..] + ys;
      FilterConcat(xs[1..], ys, p);
    }
  }

  lemma {:induction false} FilterNone<T(!new)>(xs: seq<T>, p: T -> bool)
    requires forall x | x in xs :: !p(x)
    ensures Filter(xs, p) == []
  {
    if xs != [] {
      FilterNone(xs[1..], p);
    }
  }

  lemma {:induction false} FilterAgrees<T(!new)>(xs: seq<T>, p: T -> bool, q: T -> bool)
    requires forall x | x in xs :: p(x) <==> q(x)
    ensures Filter(xs, p) == Filter(xs, q)
  {
    if xs != [] {
      FilterAgrees(xs[1..], p, q);
    }
  }

  lemma FilterOne<T(!new)>(x: T, p: T -> bool)
    ensures Filter([x], p) == if p(x) then [x] else []
  {
    assert [x][1..] == [];
  }

  lemma {:induction false} FilterCount<T(!new)>(xs: seq<T>, p: T -> bool, x: T)
    ensures multiset(Filter(xs, p))[x] == if p(x) then multiset(xs)[x] else 0
  {
    if xs != [] {
      assert xs == [xs[0]] + xs[1..];
      FilterCount(xs[1..], p, x);
    }
  }

  /** Whatever `p`, a list is what passes it and what does not. */
  lemma {:induction false} FilterSplits<T(!new)>(xs: seq<T>, p: T -> bool, q: T -> bool)
    requires forall x | x in xs :: q(x) <==> !p(x)
    ensures multiset(Filter(xs, p)) + multiset(Filter(xs, q)) == multiset(xs)
    ensures |Filter(xs, p)| + |Filter(xs, q)| == |xs|
  {
    if xs != [] {
      var x, rest := xs[0], xs[1..];
      assert xs == [x] + rest;
      FilterSplits(rest, p, q);
      assert multiset(xs) == multiset{x} + multiset(rest);
      assert multiset([x] + Filter(rest, p)) == multiset{x} + multiset(Filter(rest, p));
      assert multiset([x] + Filter(rest, q)) == multiset{x} + multiset(Filter(rest, q));
    }
  }

  // ----- sorting by a key

  ghost predicate TotalOrder<K(!new)>(le: (K, K) -> bool) {
    && (forall a, b :: le(a, b) || le(b, a))
    && (forall a, b :: le(a, b) && le(b, a) ==> a == b)
    && (forall a, b, c :: le(a, b) && le(b, c) ==> le(a, c))
  }

  /** Puts `x` before the first element whose key is not below its own. */
  function Insert<T(!new), K>(x: T, xs: seq<T>, key: T -> K, le: (K, K) -> bool): (r: seq<T>)
    ensures multiset(r) == multiset{x} + multiset(xs)
  {
    if xs == [] || le(key(x), key(xs[0])) then [x] + xs
    else
      assert xs == [xs[0]] + xs[1..];
      [xs[0]] + Insert(x, xs[1..], key, le)
  }

  /** The stable sort that the language's own `sort` is. */
  function Sort<T(!new), K>(xs: seq<T>, key: T -> K, le: (K, K) -> bool): (r: seq<T>)
    ensures multiset(r) == multiset(xs)
  {
    if xs == [] then []
    else
      assert xs == [xs[0]] + xs[1..];
      Insert(xs[0], Sort(xs[1..], key, le), key, le)
  }

  predicate Sorted<T(!new), K>(xs: seq<T>, key: T -> K, le: (K, K) -> bool) {
    forall i, j :: 0 <= i < j < |xs| ==> le(key(xs[i]), key(xs[j]))
  }

  lemma {:induction false} InsertSorted<T(!new), K(!new)>(x: T, xs: seq<T>, key: T -> K, le: (K, K) -> bool)
    requires TotalOrder(le) && Sorted(xs, key, le)
    ensures Sorted(Insert(x, xs, key, le), key, le)
  {
    if xs != [] && !le(key(x), key(xs[0])) {
      var rest := Insert(x, xs[1..], key, le);
      InsertSorted(x, xs[1..], key, le);
      forall j | 0 <= j < |rest| ensures le(key(xs[0]), key(rest[j])) {
        assert rest[j] in multiset(rest);
        assert rest[j] == x || rest[j] in xs[1..];
      }
    }
  }

  lemma {:induction false} SortSorts<T(!new), K(!new)>(xs: seq<T>, key: T -> K, le: (K, K) -> bool)
    requires TotalOrder(le)
    ensures Sorted(Sort(xs, key, le), key, le)
  {
    if xs != [] {
      SortSorts(xs[1..], key, le);
      InsertSorted(xs[0], Sort(xs[1..], key, le), key, le);
    }
  }

  /** The elements with key `k`, in order. */
  function WithKey<T(!new), K(==)>(xs: seq<T>, key: T -> K, k: K): seq<T> {
    if xs == [] then []
    else if key(xs[0]) == k then [xs[0]] + WithKey(xs[1..], key, k)
    else WithKey(xs[1..], key, k)
  }

  lemma {:induction false} WithKeyConcat<T(!new), K>(xs: seq<T>, ys: seq<T>, key: T -> K, k: K)
    ensures WithKey(xs + ys, key, k) == WithKey(xs, key, k) + WithKey(ys, key, k)
  {
    if xs == [] {
      assert xs + ys == ys;
    } else {
      assert (xs + ys)[1..] == xs[1..] + ys;
      WithKeyConcat(xs[1..], ys, key, k);
    }
  }

  lemma {:induction false} WithKeyMember<T(!new), K>(xs: seq<T>, key: T -> K, k: K)
    ensures forall x :: x in WithKey(xs, key, k) <==> x in xs && key(x) == k
  {
    if xs != [] {
      assert xs == [xs[0]] + xs[1..];
      WithKeyMember(xs[1..], key, k);
    }
  }

  lemma {:induction false} InsertStable<T(!new), K(!new)>(x: T, xs: seq<T>, key: T -> K, le: (K, K) -> bool, k: K)
    requires TotalOrder(le)
    ensures WithKey(Insert(x, xs, key, le), key, k) == WithKey([x] + xs, key, k)
  {
    assert ([x] + xs)[1..] == xs;
    if xs != [] && !le(key(x), key(xs[0])) {
      InsertStable(x, xs[1..], key, le, k);
      assert ([x] + xs[1..])[1..] == xs[1..];
    }
  }

  /** Sorting keeps the order of elements with the same key. */
  lemma {:induction false} SortStable<T(!new), K(!new)>(xs: seq<T>, key: T -> K, le: (K, K) -> bool, k: K)
    requires TotalOrder(le)
    ensures WithKey(Sort(xs, key, le), key, k) == WithKey(xs, key, k)
  {
    if xs != [] {
      var rest := Sort(xs[1..], key, le);
      SortStable(xs[1..], key, le, k);
      InsertStable(xs[0], rest, key, le, k);
      assert ([xs[0]] + rest)[1..] == rest;
    }
  }

  lemma WithKeyFirst<T(!new), K(!new)>(xs: seq<T>, key: T -> K)
    requires xs != []
    ensures WithKey(xs, key, key(xs[0])) != []
  {
  }

  lemma {:induction false} SortedDetermined<T(!new), K(!new)>(a: seq<T>, b: seq<T>, key: T -> K, le: (K, K) -> bool)
    requires TotalOrder(le) && Sorted(a, key, le) && Sorted(b, key, le)
    requires SameOrderPerKey(a, b, key)
    ensures a == b
  {
    if a == [] {
      if b != [] {
        WithKeyFirst(b, key);
      }
    } else {
      var k := key(a[0]);
      assert WithKey(a, key, k)[0] == a[0];
      WithKeyMember(b, key, k);
      assert a[0] in b;
      var k' := key(b[0]);
      assert WithKey(b, key, k')[0] == b[0];
      WithKeyMember(a, key, k');
      assert b[0] in a;
      assert le(k, k') && le(k', k);
      forall j ensures WithKey(a[1..], key, j) == WithKey(b[1..], key, j) {
        assert WithKey(a, key, j) == WithKey(b, key, j);
        if j == k {
          assert WithKey(a, key, j)[1..] == WithKey(b, key, j)[1..];
        }
      }
      SortedDetermined(a[1..], b[1..], key, le);
    }
  }

  /** For every key, the elements with that key come in the same order in both lists. */
  ghost predicate SameOrderPerKey<T(!new), K(!new)>(xs: seq<T>, ys: seq<T>, key: T -> K) {
    forall k :: WithKey(xs, key, k) == WithKey(ys, key, k)
  }

  lemma SameOrderSortsSame<T(!new), K(!new)>(xs: seq<T>, ys: seq<T>, key: T -> K, le: (K, K) -> bool)
    requires TotalOrder(le) && SameOrderPerKey(xs, ys, key)
    ensures Sort(xs, key, le) == Sort(ys, key, le)
  {
    SortSorts(xs, key, le);
    SortSorts(ys, key, le);
    forall k ensures WithKey(Sort(xs, key, le), key, k) == WithKey(Sort(ys, key, le), key, k) {
      SortStable(xs, key, le, k);
      SortStable(ys, key, le, k);
    }
    SortedDetermined(Sort(xs, key, le), Sort(ys, key, le), key, le);
  }

  /**
   Two lists sort to the same list exactly when, for every key, the elements with that key
   come in the same order in both.
   */
  lemma SortAgreesIff<T(!new), K(!new)>(xs: seq<T>, ys: seq<T>, key: T -> K, le: (K, K) -> bool)
    requires TotalOrder(le)
    ensures Sort(xs, key, le) == Sort(ys, key, le) <==> SameOrderPerKey(xs, ys, key)
  {
    if Sort(xs, key, le) == Sort(ys, key, le) {
      forall k ensures WithKey(xs, key, k) == WithKey(ys, key, k) {
        SortStable(xs, key, le, k);
        SortStable(ys, key, le, k);
      }
    }
    if SameOrderPerKey(xs, ys, key) {
      SameOrderSortsSame(xs, ys, key, le);
    }
  }

  /** Elements with the same key are the same element. */
  ghost predicate KeysIdentify<T(!new), K>(xs: seq<T>, key: T -> K) {
    forall x, y :: x in xs && y in xs && key(x) == key(y) ==> x == y
  }

  lemma {:induction false} WithKeyConstant<T(!new), K>(xs: seq<T>, ys: seq<T>, key: T -> K, k: K)
    requires KeysIdentify(xs, key) && multiset(xs) == multiset(ys)
    ensures WithKey(xs, key, k) == WithKey(ys, key, k)
  {
    var a, b := WithKey(xs, key, k), WithKey(ys, key, k);
    WithKeyMember(xs, key, k);
    WithKeyMember(ys, key, k);
    SameMembers(xs, ys);
    forall z: T ensures multiset(a)[z] == multiset(b)[z] {
      WithKeyCount(xs, key, k, z);
      WithKeyCount(ys, key, k, z);
    }
    assert multiset(a) == multiset(b) && |multiset(a)| == |a| && |multiset(b)| == |b|;
    forall i | 0 <= i < |a| ensures a[i] == b[i] {
      assert a[i] in a && b[i] in b;
    }
  }

  lemma SameMembers<T(!new)>(xs: seq<T>, ys: seq<T>)
    requires multiset(xs) == multiset(ys)
    ensures forall x :: x in xs <==> x in ys
  {
    assert forall x :: x in xs <==> x in multiset(xs);
    assert forall x :: x in ys <==> x in multiset(ys);
  }

  lemma WithoutOne<T>(x: T, rest: seq<T>, p: seq<T>, r: seq<T>)
    requires multiset([x] + rest) == multiset(p + [x] + r)
    ensures multiset(rest) == multiset(p + r)
  {
    assert multiset([x] + rest) == multiset([x]) + multiset(rest);
    assert multiset(p + [x] + r) == multiset(p) + multiset([x]) + multiset(r);
    assert multiset(p + r) == multiset(p) + multiset(r);
    assert multiset(rest) == multiset([x] + rest) - multiset([x]);
    assert multiset(p + r) == multiset(p + [x] + r) - multiset([x]);
  }

  lemma {:induction false} WithKeyCount<T(!new), K>(xs: seq<T>, key: T -> K, k: K, z: T)
    ensures multiset(WithKey(xs, key, k))[z] == if key(z) == k then multiset(xs)[z] else 0
  {
    if xs != [] {
      assert xs == [xs[0]] + xs[1..];
      WithKeyCount(xs[1..], key, k, z);
    }
  }

  /** The list with the elements at `i` and `j` exchanged. */
  function Exchange<T(!new)>(xs: seq<T>, i: nat, j: nat): seq<T>
    requires i < j < |xs|
  {
    xs[..i] + ([xs[j]] + (xs[i + 1..j] + ([xs[i]] + xs[j + 1..])))
  }

  lemma AroundTwo<T(!new)>(xs: seq<T>, i: nat, j: nat)
    requires i < j < |xs|
    ensures xs == xs[..i] + ([xs[i]] + (xs[i + 1..j] + ([xs[j]] + xs[j + 1..])))
  {
    var rest := xs[i + 1..];
    SplitAround(xs, i);
    SplitAround(rest, j - i - 1);
    RestAround(xs, i, j);
    assert rest == xs[i + 1..j] + ([xs[j]] + xs[j + 1..]);
  }

  lemma ExchangeParts<T(!new)>(xs: seq<T>, i: nat, j: nat)
    requires i < j < |xs|
    ensures xs == xs[..i] + ([xs[i]] + (xs[i + 1..j] + ([xs[j]] + xs[j + 1..])))
    ensures multiset(Exchange(xs, i, j)) == multiset(xs)
  {
    var p, x, q, y, r := xs[..i], xs[i], xs[i + 1..j], xs[j], xs[j + 1..];
    AroundTwo(xs, i, j);
    assert xs == p + ([x] + (q + ([y] + r)));
    assert Exchange(xs, i, j) == p + ([y] + (q + ([x] + r)));
    PartsExchanged(p, x, q, y, r);
  }

  lemma SplitAround<T(!new)>(xs: seq<T>, i: nat)
    requires i < |xs|
    ensures xs == xs[..i] + ([xs[i]] + xs[i + 1..])
  {
  }

  lemma RestAround<T(!new)>(xs: seq<T>, i: nat, j: nat)
    requires i < j < |xs|
    ensures var rest := xs[i + 1..];
      rest[..j - i - 1] == xs[i + 1..j] && rest[j - i..] == xs[j + 1..] && rest[j - i - 1] == xs[j]
  {
  }

  lemma PartsExchanged<T(!new)>(p: seq<T>, x: T, q: seq<T>, y: T, r: seq<T>)
    ensures multiset(p + ([x] + (q + ([y] + r)))) == multiset(p + ([y] + (q + ([x] + r))))
  {
  }

  lemma WithKeyAfter<T(!new), K(!new)>(p: seq<T>, x: T, rest: seq<T>, key: T -> K)
    ensures var s := WithKey(p + ([x] + rest), key, key(x));
      |WithKey(p, key, key(x))| < |s| && s[|WithKey(p, key, key(x))|] == x
  {
    WithKeyConcat(p, [x] + rest, key, key(x));
  }

  lemma ExchangeShows<T(!new), K(!new)>(xs: seq<T>, i: nat, j: nat, key: T -> K, le: (K, K) -> bool)
    requires TotalOrder(le) && i < j < |xs| && key(xs[i]) == key(xs[j]) && xs[i] != xs[j]
    ensures multiset(Exchange(xs, i, j)) == multiset(xs)
    ensures Sort(Exchange(xs, i, j), key, le) != Sort(xs, key, le)
  {
    var p, q, r := xs[..i], xs[i + 1..j], xs[j + 1..];
    ExchangeParts(xs, i, j);
    WithKeyAfter(p, xs[i], q + ([xs[j]] + r), key);
    WithKeyAfter(p, xs[j], q + ([xs[i]] + r), key);
    var k := key(xs[i]);
    assert WithKey(Exchange(xs, i, j), key, k) != WithKey(xs, key, k);
    SortAgreesIff(Exchange(xs, i, j), xs, key, le);
  }

  /** Sorting forgets the order of the input exactly when equal keys mean equal elements. */
  lemma SortForgetsOrderIff<T(!new), K(!new)>(xs: seq<T>, key: T -> K, le: (K, K) -> bool)
    requires TotalOrder(le)
    ensures (forall ys :: multiset(ys) == multiset(xs) ==> Sort(ys, key, le) == Sort(xs, key, le))
      <==> KeysIdentify(xs, key)
  {
    if KeysIdentify(xs, key) {
      forall ys | multiset(ys) == multiset(xs) ensures Sort(ys, key, le) == Sort(xs, key, le) {
        forall k ensures WithKey(ys, key, k) == WithKey(xs, key, k) {
          WithKeyConstant(xs, ys, key, k);
        }
        SortAgreesIff(ys, xs, key, le);
      }
    } else {
      var x, y :| x in xs && y in xs && key(x) == key(y) && x != y;
      var i :| 0 <= i < |xs| && xs[i] == x;
      var j :| 0 <= j < |xs| && xs[j] == y;
      ExchangeShows(xs, if i < j then i else j, if i < j then j else i, key, le);
    }
  }
}
