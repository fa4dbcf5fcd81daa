/** The order of timestamps and the stable sort by it. */
module StableSort {
  import opened Sequences

  /** Lexicographic order of strings, by code point. */
  predicate Lex(a: string, b: string) {
    a == "" || (b != "" && (a[0] < b[0] || (a[0] == b[0] && Lex(a[1..], b[1..]))))
  }

  /** Equal up to position `k`, where `a` ends or has the smaller character. */
  predicate FirstDiffersAt(a: string, b: string, k: nat) {
    && k <= |a| && k <= |b| && a[..k] == b[..k]
    && (k == |a| || (k < |b| && a[k] < b[k]))
  }

  lemma {:induction false} LexIff(a: string, b: string)
    ensures Lex(a, b) <==> exists k: nat :: FirstDiffersAt(a, b, k)
  {
    if a == "" {
      assert FirstDiffersAt(a, b, 0);
    } else if b != "" && a[0] == b[0] {
      LexIff(a[1..], b[1..]);
      if k: nat :| FirstDiffersAt(a[1..], b[1..], k) {
        assert a[..k + 1] == [a[0]] + a[1..][..k] && b[..k + 1] == [b[0]] + b[1..][..k];
        assert FirstDiffersAt(a, b, k + 1);
      }
      if k: nat :| FirstDiffersAt(a, b, k) {
        DiffersLater(a, b, k);
      }
    } else if b != "" {
      if a[0] < b[0] {
        assert FirstDiffersAt(a, b, 0);
      }
      if k: nat :| FirstDiffersAt(a, b, k) {
        assert k > 0 ==> a[..k][0] == b[..k][0];
      }
    }
  }

  lemma DiffersLater(a: string, b: string, k: nat)
    requires a != "" && b != "" && a[0] == b[0] && FirstDiffersAt(a, b, k)
    ensures k > 0 && FirstDiffersAt(a[1..], b[1..], k - 1)
  {
    assert a[1..][..k - 1] == a[..k][1..] && b[1..][..k - 1] == b[..k][1..];
  }

  lemma {:induction false} LexIsTotal(a: string, b: string)
    ensures Lex(a, b) || Lex(b, a)
    ensures Lex(a, b) && Lex(b, a) ==> a == b
  {
    if a != "" && b != "" {
      LexIsTotal(a[1..], b[1..]);
      assert [a[0]] + a[1..] == a && [b[0]] + b[1..] == b;
    }
  }

  lemma {:induction false} LexIsTransitive(a: string, b: string, c: string)
    requires Lex(a, b) && Lex(b, c)
    ensures Lex(a, c)
  {
    if a != "" && a[0] == b[0] && b[0] == c[0] {
      LexIsTransitive(a[1..], b[1..], c[1..]);
    }
  }

  /** Timestamps in order, with the missing one after all others. */
  predicate Before(a: string, b: string) {
    b == "" || (a != "" && Lex(a, b))
  }

  lemma BeforeIff(a: string, b: string)
    ensures Before(a, b) <==> b == "" || (a != "" && exists k: nat :: FirstDiffersAt(a, b, k))
  {
    LexIff(a, b);
  }

  lemma BeforeIsTotal(a: string, b: string)
    ensures Before(a, b) || Before(b, a)
    ensures Before(a, b) && Before(b, a) ==> a == b
  {
    LexIsTotal(a, b);
  }

  lemma BeforeIsTransitive(a: string, b: string, c: string)
    requires Before(a, b) && Before(b, c)
    ensures Before(a, c)
  {
    if b != "" && c != "" {
      LexIsTransitive(a, b, c);
    }
  }

  /** Behind every element that may stay before `x`. */
  function Insert<T>(xs: seq<T>, x: T, key: T -> string): seq<T> {
    if xs == [] then [x]
    else
      var n := |xs| - 1;
      if Before(key(xs[n]), key(x)) then xs + [x] else Insert(xs[..n], x, key) + [xs[n]]
  }

  function Sort<T>(xs: seq<T>, key: T -> string): seq<T> {
    if xs == [] then [] else Insert(Sort(xs[..|xs| - 1], key), xs[|xs| - 1], key)
  }

  /** Every element's key is before `k`. */
  ghost predicate AllBefore<T>(xs: seq<T>, k: string, key: T -> string) {
    xs != [] ==> Before(key(xs[|xs| - 1]), k) && AllBefore(xs[..|xs| - 1], k, key)
  }

  ghost predicate Sorted<T>(xs: seq<T>, key: T -> string) {
    xs != [] ==> AllBefore(xs[..|xs| - 1], key(xs[|xs| - 1]), key) && Sorted(xs[..|xs| - 1], key)
  }

  lemma {:induction false} AllBeforeAt<T>(xs: seq<T>, k: string, key: T -> string, i: nat)
    requires AllBefore(xs, k, key) && i < |xs|
    ensures Before(key(xs[i]), k)
  {
    if i < |xs| - 1 {
      AllBeforeAt(xs[..|xs| - 1], k, key, i);
    }
  }

  /** In a sorted list any two elements are in order. */
  lemma {:induction false} SortedAt<T>(xs: seq<T>, key: T -> string, i: nat, j: nat)
    requires Sorted(xs, key) && i < j < |xs|
    ensures Before(key(xs[i]), key(xs[j]))
  {
    var init := xs[..|xs| - 1];
    if j < |init| {
      SortedAt(init, key, i, j);
    } else {
      AllBeforeAt(init, key(xs[j]), key, i);
    }
  }

  lemma {:induction false} AllBeforeWeaken<T>(xs: seq<T>, k: string, l: string, key: T -> string)
    requires AllBefore(xs, k, key) && Before(k, l)
    ensures AllBefore(xs, l, key)
  {
    if xs != [] {
      AllBeforeWeaken(xs[..|xs| - 1], k, l, key);
      BeforeIsTransitive(key(xs[|xs| - 1]), k, l);
    }
  }

  lemma {:induction false} AllBeforeAppend<T>(xs: seq<T>, x: T, k: string, key: T -> string)
    requires AllBefore(xs, k, key) && Before(key(x), k)
    ensures AllBefore(xs + [x], k, key)
  {
    assert (xs + [x])[..|xs|] == xs;
  }

  lemma {:induction false} SortedAppend<T>(xs: seq<T>, x: T, key: T -> string)
    requires Sorted(xs, key) && AllBefore(xs, key(x), key)
    ensures Sorted(xs + [x], key)
  {
    assert (xs + [x])[..|xs|] == xs;
  }

  lemma {:induction false} InsertStaysBefore<T>(xs: seq<T>, x: T, k: string, key: T -> string)
    requires AllBefore(xs, k, key) && Before(key(x), k)
    ensures AllBefore(Insert(xs, x, key), k, key)
  {
    if xs == [] {
      assert [x][..0] == [];
    } else {
      var n := |xs| - 1;
      if Before(key(xs[n]), key(x)) {
        AllBeforeAppend(xs, x, k, key);
      } else {
        InsertStaysBefore(xs[..n], x, k, key);
        AllBeforeAppend(Insert(xs[..n], x, key), xs[n], k, key);
      }
    }
  }

  lemma {:induction false} InsertSorts<T>(xs: seq<T>, x: T, key: T -> string)
    requires Sorted(xs, key)
    ensures Sorted(Insert(xs, x, key), key)
  {
    if xs == [] {
      assert [x][..0] == [];
    } else {
      var n := |xs| - 1;
      if Before(key(xs[n]), key(x)) {
        AllBeforeWeaken(xs[..n], key(xs[n]), key(x), key);
        SortedAppend(xs, x, key);
      } else {
        BeforeIsTotal(key(xs[n]), key(x));
        InsertSorts(xs[..n], x, key);
        InsertStaysBefore(xs[..n], x, key(xs[n]), key);
        SortedAppend(Insert(xs[..n], x, key), xs[n], key);
      }
    }
  }

  function When<T>(b: bool, x: T): seq<T> {
    if b then [x] else []
  }

  /** The elements with key `k`, in order. */
  function WithKey<T>(xs: seq<T>, k: string, key: T -> string): seq<T> {
    if xs == [] then [] else WithKey(xs[..|xs| - 1], k, key) + When(key(xs[|xs| - 1]) == k, xs[|xs| - 1])
  }

  lemma {:induction false} WithKeyAppend<T>(xs: seq<T>, x: T, k: string, key: T -> string)
    ensures WithKey(xs + [x], k, key) == WithKey(xs, k, key) + When(key(x) == k, x)
  {
    assert (xs + [x])[..|xs|] == xs;
  }

  lemma Swap<T>(a: seq<T>, x: T, y: T, p: bool, q: bool)
    requires !(p && q)
    ensures (a + When(p, x)) + When(q, y) == (a + When(q, y)) + When(p, x)
  {
  }

  lemma {:induction false} InsertIsStable<T>(xs: seq<T>, x: T, k: string, key: T -> string)
    ensures WithKey(Insert(xs, x, key), k, key) == WithKey(xs, k, key) + When(key(x) == k, x)
  {
    if xs == [] {
      WithKeyAppend([], x, k, key);
      assert [] + [x] == [x];
    } else {
      var n := |xs| - 1;
      if Before(key(xs[n]), key(x)) {
        WithKeyAppend(xs, x, k, key);
      } else {
        InsertIsStable(xs[..n], x, k, key);
        WithKeyAppend(Insert(xs[..n], x, key), xs[n], k, key);
        BeforeIsTotal(key(x), key(x));
        Swap(WithKey(xs[..n], k, key), x, xs[n], key(x) == k, key(xs[n]) == k);
      }
    }
  }

  lemma {:induction false} InsertKeepsElements<T>(xs: seq<T>, x: T, key: T -> string)
    ensures multiset(Insert(xs, x, key)) == multiset(xs) + multiset{x}
  {
    if xs != [] {
      var n := |xs| - 1;
      if !Before(key(xs[n]), key(x)) {
        InsertKeepsElements(xs[..n], x, key);
        assert xs == xs[..n] + [xs[n]];
      }
    }
  }

  /** The sort is a permutation. */
  lemma {:induction false} SortPermutes<T>(xs: seq<T>, key: T -> string)
    ensures multiset(Sort(xs, key)) == multiset(xs) && |Sort(xs, key)| == |xs|
  {
    if xs != [] {
      var init, last := xs[..|xs| - 1], xs[|xs| - 1];
      SortPermutes(init, key);
      InsertKeepsElements(Sort(init, key), last, key);
      assert xs == init + [last];
    }
    assert |multiset(Sort(xs, key))| == |multiset(xs)|;
  }

  /** Its result is in order. */
  lemma {:induction false} SortSorts<T>(xs: seq<T>, key: T -> string)
    ensures Sorted(Sort(xs, key), key)
  {
    if xs != [] {
      SortSorts(xs[..|xs| - 1], key);
      InsertSorts(Sort(xs[..|xs| - 1], key), xs[|xs| - 1], key);
    }
  }

  /** Elements with one key keep their order. */
  lemma {:induction false} SortIsStable<T>(xs: seq<T>, k: string, key: T -> string)
    ensures WithKey(Sort(xs, key), k, key) == WithKey(xs, k, key)
  {
    if xs != [] {
      SortIsStable(xs[..|xs| - 1], k, key);
      InsertIsStable(Sort(xs[..|xs| - 1], key), xs[|xs| - 1], k, key);
    }
  }

  // ---------------------------------------------------------------- any stable sort is this one

  ghost predicate SameClasses<T>(xs: seq<T>, ys: seq<T>, key: T -> string) {
    forall k {:trigger WithKey(xs, k, key)} :: WithKey(xs, k, key) == WithKey(ys, k, key)
  }

  lemma {:induction false} ClassMember<T>(xs: seq<T>, k: string, key: T -> string) returns (i: nat)
    requires WithKey(xs, k, key) != []
    ensures i < |xs| && key(xs[i]) == k
  {
    if key(xs[|xs| - 1]) == k {
      i := |xs| - 1;
    } else {
      i := ClassMember(xs[..|xs| - 1], k, key);
    }
  }

  /** The last element of a sorted list has the greatest key. */
  lemma LastIsGreatest<T>(xs: seq<T>, k: string, key: T -> string)
    requires Sorted(xs, key) && WithKey(xs, k, key) != []
    ensures xs != [] && Before(k, key(xs[|xs| - 1]))
  {
    var i := ClassMember(xs, k, key);
    if i < |xs| - 1 {
      SortedAt(xs, key, i, |xs| - 1);
    } else {
      BeforeIsTotal(k, k);
    }
  }

  lemma LastWithKey<T>(xs: seq<T>, key: T -> string)
    requires xs != []
    ensures var mine := WithKey(xs, key(xs[|xs| - 1]), key);
            mine != [] && mine[|mine| - 1] == xs[|xs| - 1]
  {
  }

  /** The last element of `xs` is no greater than that of a sorted list with its classes. */
  lemma {:induction false} LastIsBefore<T>(xs: seq<T>, ys: seq<T>, key: T -> string)
    requires Sorted(ys, key) && SameClasses(xs, ys, key) && xs != []
    ensures ys != [] && Before(key(xs[|xs| - 1]), key(ys[|ys| - 1]))
  {
    var k := key(xs[|xs| - 1]);
    LastWithKey(xs, key);
    assert WithKey(xs, k, key) == WithKey(ys, k, key);
    LastIsGreatest(ys, k, key);
  }

  lemma {:induction false} SameLast<T>(xs: seq<T>, ys: seq<T>, key: T -> string)
    requires Sorted(xs, key) && Sorted(ys, key) && SameClasses(xs, ys, key) && xs != []
    ensures ys != [] && xs[|xs| - 1] == ys[|ys| - 1]
  {
    LastIsBefore(xs, ys, key);
    assert SameClasses(ys, xs, key);
    LastIsBefore(ys, xs, key);
    var k := key(xs[|xs| - 1]);
    BeforeIsTotal(k, key(ys[|ys| - 1]));
    assert WithKey(xs, k, key) == WithKey(ys, k, key);
    LastWithKey(xs, key);
    LastWithKey(ys, key);
  }

  lemma CancelSuffix<T>(a: seq<T>, b: seq<T>, t: seq<T>)
    requires a + t == b + t
    ensures a == b
  {
    assert |a| == |b|;
    assert (a + t)[..|a|] == a && (b + t)[..|b|] == b;
  }

  /** A list in order with the same elements per key in the same order is the only such list. */
  lemma {:induction false} StableSortIsUnique<T>(xs: seq<T>, ys: seq<T>, key: T -> string)
    requires Sorted(xs, key) && Sorted(ys, key) && SameClasses(xs, ys, key)
    ensures xs == ys
  {
    if xs != [] {
      SameLast(xs, ys, key);
      var x, y := xs[..|xs| - 1], ys[..|ys| - 1];
      forall k ensures WithKey(x, k, key) == WithKey(y, k, key) {
        assert WithKey(xs, k, key) == WithKey(ys, k, key);
        CancelSuffix(WithKey(x, k, key), WithKey(y, k, key), When(key(xs[|x|]) == k, xs[|x|]));
      }
      StableSortIsUnique(x, y, key);
      assert xs == x + [xs[|xs| - 1]] && ys == y + [ys[|ys| - 1]];
    } else if ys != [] {
      SameLast(ys, xs, key);
    }
  }

  /** The result of any stable sort is `Sort`'s. */
  lemma AnyStableSort<T>(xs: seq<T>, result: seq<T>, key: T -> string)
    requires Sorted(result, key) && SameClasses(xs, result, key)
    ensures result == Sort(xs, key)
  {
    forall k ensures WithKey(result, k, key) == WithKey(Sort(xs, key), k, key) {
      SortIsStable(xs, k, key);
      assert WithKey(xs, k, key) == WithKey(result, k, key);
    }
    SortSorts(xs, key);
    StableSortIsUnique(result, Sort(xs, key), key);
  }
}
