/** Small vocabulary shared by every component: optional values, results that carry the
    source's exceptions, and a sort whose outcome is determined by its order alone. */
module Basics {

  datatype Option<+T> = None | Some(value: T) {
    function GetOr(default: T): T {
      match this
      case Some(v) => v
      case None => default
    }
  }

  datatype Result<+T, +E> = Ok(value: T) | Err(error: E)

  ghost predicate TotalOrder<T(!new)>(le: (T, T) -> bool) {
    && (forall a, b :: le(a, b) || le(b, a))
    && (forall a, b, c :: le(a, b) && le(b, c) ==> le(a, c))
  }

  ghost predicate Antisymmetric<T(!new)>(le: (T, T) -> bool) {
    forall a, b :: le(a, b) && le(b, a) ==> a == b
  }

  ghost predicate Sorted<T>(s: seq<T>, le: (T, T) -> bool) {
    forall i, j | 0 <= i < j < |s| :: le(s[i], s[j])
  }

  ghost predicate NoDuplicates<T>(s: seq<T>) {
    forall i, j | 0 <= i < j < |s| :: s[i] != s[j]
  }

  function Insert<T>(x: T, s: seq<T>, le: (T, T) -> bool): (r: seq<T>)
    ensures multiset(r) == multiset(s) + multiset{x}
  {
    if s == [] then [x]
    else if le(x, s[0]) then [x] + s
    else
      assert s == [s[0]] + s[1..];
      [s[0]] + Insert(x, s[1..], le)
  }

  /** The language's `sorted`: the result is pinned down by SortIsSorted and SortedUnique. */
  function SortBy<T>(s: seq<T>, le: (T, T) -> bool): (r: seq<T>)
    ensures multiset(r) == multiset(s)
    ensures |r| == |s|
  {
    if s == [] then []
    else
      assert s == [s[0]] + s[1..];
      var r := Insert(s[0], SortBy(s[1..], le), le);
      assert |multiset(r)| == |r| && |multiset(s)| == |s|;
      r
  }

  lemma {:induction false} InsertSorted<T(!new)>(x: T, s: seq<T>, le: (T, T) -> bool)
    requires TotalOrder(le) && Sorted(s, le)
    ensures Sorted(Insert(x, s, le), le)
  {
    if s == [] {
    } else if le(x, s[0]) {
    } else {
      InsertSorted(x, s[1..], le);
      var t := Insert(x, s[1..], le);
      forall j | 0 <= j < |t| ensures le(s[0], t[j]) {
        assert t[j] in multiset(t);
        assert t[j] in multiset(s[1..]) + multiset{x};
        assert t[j] == x || t[j] in s[1..];
      }
    }
  }

  lemma {:induction false} SortIsSorted<T(!new)>(s: seq<T>, le: (T, T) -> bool)
    requires TotalOrder(le)
    ensures Sorted(SortBy(s, le), le)
  {
    if s != [] {
      SortIsSorted(s[1..], le);
      InsertSorted(s[0], SortBy(s[1..], le), le);
    }
  }

  /** The sequence without one of its elements. */
  function Drop<T>(s: seq<T>, k: nat): (r: seq<T>)
    requires k < |s|
    ensures |r| == |s| - 1 && forall i | 0 <= i < |r| :: r[i] == if i < k then s[i] else s[i + 1]
  {
    s[..k] + s[k + 1..]
  }

  lemma DropCount<T>(s: seq<T>, k: nat)
    requires k < |s|
    ensures multiset(s) == multiset(Drop(s, k)) + multiset{s[k]}
  {
    assert s == s[..k] + [s[k]] + s[k + 1..];
  }

  lemma DropFirst<T>(s: seq<T>)
    requires s != []
    ensures Drop(s, 0) == s[1..]
  {
  }

  lemma CancelOne<T>(a: multiset<T>, b: multiset<T>, x: T)
    requires a + multiset{x} == b + multiset{x}
    ensures a == b
  {
    assert a == (a + multiset{x}) - multiset{x} && b == (b + multiset{x}) - multiset{x};
  }

  lemma DropSame<T>(s: seq<T>, t: seq<T>, j: nat, k: nat)
    requires multiset(s) == multiset(t) && j < |s| && k < |t| && s[j] == t[k]
    ensures multiset(Drop(s, j)) == multiset(Drop(t, k))
  {
    hide Drop;
    DropCount(s, j);
    DropCount(t, k);
    CancelOne(multiset(Drop(s, j)), multiset(Drop(t, k)), s[j]);
  }

  /** The first element of one arrangement, found in another and taken out of both. */
  lemma RemoveSame<T>(s: seq<T>, t: seq<T>) returns (k: nat)
    requires multiset(s) == multiset(t) && s != []
    ensures k < |t| && t[k] == s[0] && multiset(s[1..]) == multiset(Drop(t, k))
  {
    hide Drop;
    SameElements(s, t);
    assert s[0] in s;
    k :| 0 <= k < |t| && t[k] == s[0];
    DropSame(s, t, 0, k);
    DropFirst(s);
  }

  function Map<S, T>(s: seq<S>, f: S -> T): (r: seq<T>)
    ensures |r| == |s| && forall i | 0 <= i < |s| :: r[i] == f(s[i])
  {
    seq(|s|, i requires 0 <= i < |s| => f(s[i]))
  }

  lemma MapDrop<S, T>(s: seq<S>, k: nat, f: S -> T)
    requires k < |s|
    ensures Drop(Map(s, f), k) == Map(Drop(s, k), f)
  {
    var u, v := Drop(Map(s, f), k), Map(Drop(s, k), f);
    assert forall i | 0 <= i < |s| - 1 :: u[i] == v[i];
  }

  lemma {:induction false} MapPermute<S, T>(s: seq<S>, t: seq<S>, f: S -> T)
    requires multiset(s) == multiset(t)
    ensures multiset(Map(s, f)) == multiset(Map(t, f))
    decreases |s|
  {
    hide Map, Drop;
    assert |s| == |multiset(s)| && |t| == |multiset(t)|;
    if s == [] {
      assert s == t;
    } else {
      var k := RemoveSame(s, t);
      MapPermute(s[1..], Drop(t, k), f);
      DropFirst(s);
      MapDrop(s, 0, f);
      MapDrop(t, k, f);
      DropCount(Map(s, f), 0);
      DropCount(Map(t, f), k);
    }
  }

  lemma SameElements<T>(s: seq<T>, t: seq<T>)
    requires multiset(s) == multiset(t)
    ensures forall x :: x in s <==> x in t
  {
    forall x ensures x in s <==> x in t {
      assert x in s <==> x in multiset(s);
      assert x in t <==> x in multiset(t);
    }
  }

  /** No two different elements of the sequence are equal in the order. */
  ghost predicate Strict<T(!new)>(s: seq<T>, le: (T, T) -> bool) {
    forall x, y | x in s && y in s && le(x, y) && le(y, x) :: x == y
  }

  lemma FirstSame<T(!new)>(s: seq<T>, t: seq<T>, le: (T, T) -> bool)
    requires TotalOrder(le) && Strict(s, le) && Sorted(s, le) && Sorted(t, le)
    requires multiset(s) == multiset(t) && s != [] && t != []
    ensures s[0] == t[0]
  {
    SameElements(s, t);
    assert s[0] in t && t[0] in s;
    LeastFirst(s, t[0], le);
    LeastFirst(t, s[0], le);
  }

  lemma TailKeeps<T(!new)>(s: seq<T>, le: (T, T) -> bool)
    requires s != []
    ensures Sorted(s, le) ==> Sorted(s[1..], le)
    ensures Strict(s, le) ==> Strict(s[1..], le)
  {
    if Strict(s, le) {
      assert forall x | x in s[1..] :: x in s;
    }
  }

  /** Two sorted arrangements of the same elements are the same sequence. */
  lemma {:induction false} SortedUnique<T(!new)>(s: seq<T>, t: seq<T>, le: (T, T) -> bool)
    requires TotalOrder(le) && Strict(s, le)
    requires Sorted(s, le) && Sorted(t, le)
    requires multiset(s) == multiset(t)
    ensures s == t
  {
    hide TotalOrder, Strict, Sorted, Drop;
    assert |s| == |multiset(s)| && |t| == |multiset(t)|;
    if s == [] {
      assert t == [];
    } else {
      FirstSame(s, t, le);
      DropSame(s, t, 0, 0);
      DropFirst(s);
      DropFirst(t);
      TailKeeps(s, le);
      TailKeeps(t, le);
      SortedUnique(s[1..], t[1..], le);
      assert s == [s[0]] + s[1..] && t == [t[0]] + t[1..];
    }
  }

  lemma LeastFirst<T(!new)>(s: seq<T>, x: T, le: (T, T) -> bool)
    requires TotalOrder(le) && Sorted(s, le) && x in s
    ensures le(s[0], x)
  {
    var k :| 0 <= k < |s| && s[k] == x;
    assert le(x, x);
  }

  /** Sorting forgets the order in which the elements were listed. */
  lemma SortOrderIndependent<T(!new)>(s: seq<T>, t: seq<T>, le: (T, T) -> bool)
    requires TotalOrder(le) && Strict(s, le)
    requires multiset(s) == multiset(t)
    ensures SortBy(s, le) == SortBy(t, le)
  {
    SortIsSorted(s, le);
    SortIsSorted(t, le);
    SameElements(s, SortBy(s, le));
    SortedUnique(SortBy(s, le), SortBy(t, le), le);
  }

  /** Strings compare character by character, a prefix before its extensions. */
  predicate TextLe(a: string, b: string) {
    a == [] || (b != [] && (a[0] < b[0] || (a[0] == b[0] && TextLe(a[1..], b[1..]))))
  }

  /** The order is decided by the first character that differs. */
  lemma {:induction false} TextByFirstDifference(a: string, b: string)
    ensures TextLe(a, b) <==>
      a <= b || exists k :: 0 <= k < |a| && k < |b| && a[..k] == b[..k] && a[k] < b[k]
  {
    if a != [] && b != [] {
      if a[0] == b[0] {
        var c, d := a[1..], b[1..];
        TextByFirstDifference(c, d);
        assert a == [a[0]] + c && b == [b[0]] + d;
        assert a <= b <==> c <= d;
        if k :| 0 <= k < |c| && k < |d| && c[..k] == d[..k] && c[k] < d[k] {
          assert a[..k + 1] == [a[0]] + c[..k] && b[..k + 1] == [b[0]] + d[..k];
          assert a[k + 1] < b[k + 1];
        }
        if k :| 0 <= k < |a| && k < |b| && a[..k] == b[..k] && a[k] < b[k] {
          assert k > 0;
          assert c[..k - 1] == a[..k][1..] && d[..k - 1] == b[..k][1..];
          assert c[k - 1] < d[k - 1];
        }
      } else {
        assert a[..0] == b[..0];
        if k :| 0 <= k < |a| && k < |b| && a[..k] == b[..k] && a[k] < b[k] {
          assert k > 0 ==> a[..k][0] == b[..k][0];
        }
      }
    }
  }

  lemma {:induction false} TextTotal(a: string, b: string)
    ensures TextLe(a, b) || TextLe(b, a)
    ensures TextLe(a, b) && TextLe(b, a) ==> a == b
  {
    if a != [] && b != [] && a[0] == b[0] {
      TextTotal(a[1..], b[1..]);
      assert a == [a[0]] + a[1..] && b == [b[0]] + b[1..];
    }
  }

  lemma {:induction false} TextTransitive(a: string, b: string, c: string)
    requires TextLe(a, b) && TextLe(b, c)
    ensures TextLe(a, c)
  {
    if a != [] && a[0] == b[0] == c[0] { TextTransitive(a[1..], b[1..], c[1..]); }
  }

  lemma NoDuplicatesCount<T>(s: seq<T>)
    ensures NoDuplicates(s) <==> (forall x :: multiset(s)[x] <= 1)
  {
    if NoDuplicates(s) {
      forall x ensures multiset(s)[x] <= 1 {
        CountInDistinct(s, x);
      }
    } else {
      var i, j :| 0 <= i < j < |s| && s[i] == s[j];
      assert s == s[..i] + [s[i]] + s[i + 1..j] + [s[j]] + s[j + 1..];
      assert multiset(s)[s[i]] >= 2;
    }
  }

  lemma {:induction false} CountInDistinct<T>(s: seq<T>, x: T)
    requires NoDuplicates(s)
    ensures multiset(s)[x] <= 1
  {
    if s != [] {
      CountInDistinct(s[1..], x);
      assert s == [s[0]] + s[1..];
      if x == s[0] {
        assert x !in s[1..];
        assert multiset(s[1..])[x] == 0;
      }
    }
  }

  lemma SortNoDuplicates<T>(s: seq<T>, le: (T, T) -> bool)
    requires NoDuplicates(s)
    ensures NoDuplicates(SortBy(s, le))
  {
    NoDuplicatesCount(s);
    NoDuplicatesCount(SortBy(s, le));
  }

  lemma AppendMembers<T>(s: seq<T>, x: T)
    ensures forall y :: y in s + [x] <==> y in s || y == x
    ensures s <= s + [x]
  {
  }

  lemma AppendDistinct<T>(s: seq<T>, x: T)
    requires NoDuplicates(s) && x !in s
    ensures NoDuplicates(s + [x])
  {
  }

  lemma MapGrows<K, V>(m: map<K, V>, k: K, v: V)
    requires k !in m
    ensures |m[k := v]| == |m| + 1
  {
    var keys := m[k := v].Keys;
    assert keys == m.Keys + {k};
    assert |m[k := v]| == |keys|;
  }

  // ----- sequences whose elements have different keys -----

  ghost predicate DistinctBy<T, K>(s: seq<T>, key: T -> K) {
    forall i, j | 0 <= i < j < |s| :: key(s[i]) != key(s[j])
  }

  lemma SameKeySamePlace<T, K>(s: seq<T>, key: T -> K, i: nat, j: nat)
    requires DistinctBy(s, key) && i < |s| && j < |s|
    ensures key(s[i]) == key(s[j]) ==> i == j
  {
  }

  lemma SameKeySameElement<T, K>(s: seq<T>, key: T -> K, x: T, y: T)
    requires DistinctBy(s, key) && x in s && y in s
    ensures key(x) == key(y) ==> x == y
  {
    var i :| 0 <= i < |s| && s[i] == x;
    var j :| 0 <= j < |s| && s[j] == y;
    SameKeySamePlace(s, key, i, j);
  }

  lemma DistinctByPermute<T, K>(s: seq<T>, t: seq<T>, key: T -> K)
    requires multiset(s) == multiset(t) && DistinctBy(s, key)
    ensures DistinctBy(t, key)
  {
    SameElements(s, t);
    NoDuplicatesCount(s);
    NoDuplicatesCount(t);
    forall i, j | 0 <= i < j < |t| ensures key(t[i]) != key(t[j]) {
      assert t[i] in s && t[j] in s && t[i] != t[j];
      SameKeySameElement(s, key, t[i], t[j]);
    }
  }

  function KeysOf<T(==), K(==)>(s: seq<T>, key: T -> K): set<K> { set x | x in s :: key(x) }

  lemma DistinctAppend<T, K>(s: seq<T>, key: T -> K, x: T)
    ensures KeysOf(s + [x], key) == KeysOf(s, key) + {key(x)}
    ensures DistinctBy(s + [x], key) <==> DistinctBy(s, key) && key(x) !in KeysOf(s, key)
  {
    var t := s + [x];
    AppendMembers(s, x);
    forall k ensures k in KeysOf(t, key) <==> k in KeysOf(s, key) + {key(x)} {
      if k in KeysOf(s, key) { var y :| y in s && key(y) == k; assert y in t; }
      if k == key(x) { assert x in t; }
    }
    if DistinctBy(t, key) {
      forall i, j | 0 <= i < j < |s| ensures key(s[i]) != key(s[j]) { assert t[i] == s[i] && t[j] == s[j]; }
      forall y | y in s ensures key(y) != key(x) { SameKeyLast(s, key, x, y); }
    } else {
      var i, j :| 0 <= i < j < |t| && key(t[i]) == key(t[j]);
      assert t[i] == s[i] && s[i] in s;
      if j < |s| { assert t[j] == s[j]; }
    }
  }

  lemma SameKeyLast<T, K>(s: seq<T>, key: T -> K, x: T, y: T)
    requires DistinctBy(s + [x], key) && y in s
    ensures key(y) != key(x)
  {
    var k :| 0 <= k < |s| && s[k] == y;
    assert (s + [x])[k] == y && (s + [x])[|s|] == x;
  }

  /** Comparing the number of elements with the number of keys tells whether a key is repeated. */
  lemma {:induction false} UniqueKeys<T, K>(s: seq<T>, key: T -> K)
    ensures |KeysOf(s, key)| <= |s|
    ensures |KeysOf(s, key)| == |s| <==> DistinctBy(s, key)
  {
    if s != [] {
      var rest, last := s[..|s| - 1], s[|s| - 1];
      assert s == rest + [last];
      UniqueKeys(rest, key);
      DistinctAppend(rest, key, last);
      hide DistinctBy, KeysOf;
      var keys, k := KeysOf(rest, key), key(last);
      if k in keys { assert keys + {k} == keys; } else { assert |keys + {k}| == |keys| + 1; }
    }
  }

  // ----- numbers as text -----

  function Digit(n: nat): char
    requires n < 10
  {
    "0123456789"[n]
  }

  /** `str(n)` for a natural number. */
  function Decimal(n: nat): string {
    if n < 10 then [Digit(n)] else Decimal(n / 10) + [Digit(n % 10)]
  }

  predicate AllDigits(s: string) { forall c | c in s :: '0' <= c <= '9' }

  lemma {:induction false} DecimalDigits(n: nat)
    ensures Decimal(n) != [] && AllDigits(Decimal(n))
  {
    if n >= 10 { DecimalDigits(n / 10); }
  }

  lemma {:induction false} DecimalInjective(n: nat, m: nat)
    requires Decimal(n) == Decimal(m)
    ensures n == m
  {
    DecimalLength(n);
    DecimalLength(m);
    DecimalDigits(n);
    DecimalDigits(m);
    var s, t := Decimal(n), Decimal(m);
    assert s[|s| - 1] == t[|t| - 1];
    if |s| > 1 {
      assert s[..|s| - 1] == Decimal(n / 10) && t[..|t| - 1] == Decimal(m / 10);
      DecimalInjective(n / 10, m / 10);
    }
  }

  lemma DecimalLength(n: nat)
    ensures |Decimal(n)| == 1 <==> n < 10
  {
    if n >= 10 { DecimalDigits(n / 10); }
  }
}
