/** From detector output to observations (analytics/lineage/tracker.py, `snapshot_observations`): the
    communities of a snapshot are put in order of their members, then of their labels, and numbered.
    When the labels make a difference, and when they do not. */
module LineageLabels {
  import opened Basics
  import opened LineageModel

  datatype Community = Community(tag: nat, members: set<Member>, confidence: real, metadata: Metadata)

  function Strip(c: Community): Observation { Observation(c.members, c.confidence, c.metadata) }

  // ----- the member key -----

  lemma {:induction false} HasLeast(m: set<Member>)
    requires m != {}
    ensures exists x :: Least(m, x)
    decreases |m|
  {
    var x :| x in m;
    if m != {x} {
      var rest := m - {x};
      assert m == rest + {x};
      HasLeast(rest);
      var y :| Least(rest, y);
      assert Least(m, if x <= y then x else y);
    } else {
      assert Least(m, x);
    }
  }

  ghost predicate Least(m: set<Member>, x: Member) { x in m && forall y | y in m :: x <= y }

  /** `_member_key`: the members in order. */
  ghost function MemberKey(m: set<Member>): (s: seq<Member>)
    ensures forall x :: x in s <==> x in m
  {
    if m == {} then []
    else
      HasLeast(m);
      var x :| Least(m, x);
      [x] + MemberKey(m - {x})
  }

  lemma KeyInjective(a: set<Member>, b: set<Member>)
    requires MemberKey(a) == MemberKey(b)
    ensures a == b
  {
    forall x ensures x in a <==> x in b { assert x in MemberKey(a) <==> x in MemberKey(b); }
  }

  predicate LexLe(a: seq<nat>, b: seq<nat>) {
    a == [] || (b != [] && (a[0] < b[0] || (a[0] == b[0] && LexLe(a[1..], b[1..]))))
  }

  lemma {:induction false} LexTotal(a: seq<nat>, b: seq<nat>)
    ensures LexLe(a, b) || LexLe(b, a)
    ensures LexLe(a, b) && LexLe(b, a) ==> a == b
  {
    if a != [] && b != [] && a[0] == b[0] {
      LexTotal(a[1..], b[1..]);
      assert a == [a[0]] + a[1..] && b == [b[0]] + b[1..];
    }
  }

  lemma {:induction false} LexTransitive(a: seq<nat>, b: seq<nat>, c: seq<nat>)
    requires LexLe(a, b) && LexLe(b, c)
    ensures LexLe(a, c)
  {
    if a != [] && a[0] == b[0] == c[0] { LexTransitive(a[1..], b[1..], c[1..]); }
  }

  // ----- the two orders -----

  /** By member key, then by label. */
  ghost predicate Canonical(a: Community, b: Community) {
    if a.members != b.members then LexLe(MemberKey(a.members), MemberKey(b.members)) else a.tag <= b.tag
  }

  ghost predicate ByMembers(a: Observation, b: Observation) { LexLe(MemberKey(a.members), MemberKey(b.members)) }

  lemma KeysOrdered(a: set<Member>, b: set<Member>)
    ensures LexLe(MemberKey(a), MemberKey(b)) || LexLe(MemberKey(b), MemberKey(a))
    ensures LexLe(MemberKey(a), MemberKey(b)) && LexLe(MemberKey(b), MemberKey(a)) ==> a == b
  {
    LexTotal(MemberKey(a), MemberKey(b));
    if MemberKey(a) == MemberKey(b) { KeyInjective(a, b); }
  }

  lemma OrdersAreTotal()
    ensures TotalOrder(Canonical) && TotalOrder(ByMembers)
  {
    hide MemberKey, LexLe;
    forall a: Community, b: Community ensures Canonical(a, b) || Canonical(b, a) { KeysOrdered(a.members, b.members); }
    forall a: Community, b: Community, c: Community | Canonical(a, b) && Canonical(b, c)
      ensures Canonical(a, c)
    {
      CanonicalTransitive(a, b, c);
    }
    forall a: Observation, b: Observation
      ensures ByMembers(a, b) || ByMembers(b, a)
    {
      KeysOrdered(a.members, b.members);
    }
    forall a: Observation, b: Observation, c: Observation | ByMembers(a, b) && ByMembers(b, c) ensures ByMembers(a, c) {
      LexTransitive(MemberKey(a.members), MemberKey(b.members), MemberKey(c.members));
    }
  }

  lemma CanonicalTransitive(a: Community, b: Community, c: Community)
    requires Canonical(a, b) && Canonical(b, c)
    ensures Canonical(a, c)
  {
    hide MemberKey, LexLe;
    if a.members != b.members && b.members != c.members {
      LexTransitive(MemberKey(a.members), MemberKey(b.members), MemberKey(c.members));
      KeysOrdered(a.members, b.members);
    }
  }

  // ----- observations -----

  function StripAll(s: seq<Community>): seq<Observation> { Map(s, Strip) }

  /** One snapshot's part of `snapshot_observations`; positions give the identifiers. */
  ghost function Observe(s: seq<Community>): seq<Observation> { StripAll(SortBy(s, Canonical)) }

  function TagOf(c: Community): nat { c.tag }

  ghost predicate Relabels(s: seq<Community>, t: seq<Community>) {
    |t| == |s| && DistinctBy(t, TagOf) && forall i | 0 <= i < |s| :: Strip(t[i]) == Strip(s[i])
  }

  /** Communities with the same members are otherwise alike. */
  ghost predicate MembersTell(s: seq<Community>) {
    forall i, j | 0 <= i < j < |s| && s[i].members == s[j].members :: Strip(s[i]) == Strip(s[j])
  }

  lemma StripSorted(s: seq<Community>)
    requires Sorted(s, Canonical)
    ensures Sorted(StripAll(s), ByMembers)
  {
    hide MemberKey, LexLe;
    var r := StripAll(s);
    forall i, j | 0 <= i < j < |r| ensures ByMembers(r[i], r[j]) {
      assert Canonical(s[i], s[j]);
      KeysOrdered(s[i].members, s[j].members);
      KeysOrdered(s[i].members, s[i].members);
    }
  }

  lemma AlikeIsStrict(s: seq<Community>)
    requires MembersTell(s)
    ensures Strict(StripAll(s), ByMembers)
  {
    hide MemberKey, LexLe;
    var r := StripAll(s);
    forall x, y | x in r && y in r && ByMembers(x, y) && ByMembers(y, x) ensures x == y {
      KeysOrdered(x.members, y.members);
      var i :| 0 <= i < |r| && r[i] == x;
      var j :| 0 <= j < |r| && r[j] == y;
      SameContent(s, i, j);
    }
  }

  lemma SameContent(s: seq<Community>, i: nat, j: nat)
    requires MembersTell(s) && i < |s| && j < |s| && s[i].members == s[j].members
    ensures Strip(s[i]) == Strip(s[j])
  {
    if i < j { assert Strip(s[i]) == Strip(s[j]); }
    if j < i { assert Strip(s[j]) == Strip(s[i]); }
  }

  lemma RelabellingIsInvisible(s: seq<Community>, t: seq<Community>)
    requires MembersTell(s) && Relabels(s, t)
    ensures Observe(t) == Observe(s)
  {
    hide SortBy, Canonical, ByMembers, MembersTell, DistinctBy;
    OrdersAreTotal();
    var u, v := SortBy(s, Canonical), SortBy(t, Canonical);
    SortIsSorted(s, Canonical);
    SortIsSorted(t, Canonical);
    StripSorted(u);
    StripSorted(v);
    MapPermute(s, u, Strip);
    MapPermute(t, v, Strip);
    assert StripAll(t) == StripAll(s);
    AlikeIsStrict(s);
    SameElements(StripAll(s), StripAll(u));
    SortedUnique(StripAll(u), StripAll(v), ByMembers);
  }

  // ----- labels that decide -----

  /** The community with its content exchanged, its label kept. */
  function Exchange(c: Community, a: Community, b: Community): Community {
    if c == a then b.(tag := a.tag)
    else if c == b then a.(tag := b.tag)
    else c
  }

  function ExchangeAll(s: seq<Community>, a: Community, b: Community): seq<Community> {
    Map(s, (c: Community) => Exchange(c, a, b))
  }

  /** The labels of two communities exchanged. */
  function Swap(s: seq<Community>, i: nat, j: nat): (t: seq<Community>)
    requires i < j < |s|
    ensures |t| == |s| && t[i] == s[i].(tag := s[j].tag) && t[j] == s[j].(tag := s[i].tag)
    ensures forall k | 0 <= k < |s| && k != i && k != j :: t[k] == s[k]
  {
    s[i := s[i].(tag := s[j].tag)][j := s[j].(tag := s[i].tag)]
  }

  lemma SwapRelabels(s: seq<Community>, i: nat, j: nat)
    requires i < j < |s| && DistinctBy(s, TagOf)
    ensures Relabels(s, Swap(s, i, j))
  {
  }

  lemma TwoExchanged(u: seq<Community>, v: seq<Community>, i: nat, j: nat)
    requires i < j < |u| == |v| && u[i] == v[j] && u[j] == v[i]
        && forall k | 0 <= k < |u| && k != i && k != j :: u[k] == v[k]
    ensures multiset(u) == multiset(v)
  {
    assert u == v[i := v[j]][j := v[i]];
  }

  /** Exchanging contents in place is exchanging labels, up to order. */
  lemma ExchangeIsSwap(s: seq<Community>, i: nat, j: nat)
    requires i < j < |s| && DistinctBy(s, TagOf) && s[i].members == s[j].members
    ensures multiset(ExchangeAll(s, s[i], s[j])) == multiset(Swap(s, i, j))
  {
    hide Map, Swap;
    forall k | 0 <= k < |s| && k != i && k != j ensures s[k] != s[i] && s[k] != s[j] {
      SameKeySamePlace(s, TagOf, k, i);
      SameKeySamePlace(s, TagOf, k, j);
    }
    SameKeySamePlace(s, TagOf, i, j);
    TwoExchanged(ExchangeAll(s, s[i], s[j]), Swap(s, i, j), i, j);
  }

  lemma ExchangeSorted(s: seq<Community>, a: Community, b: Community)
    requires Sorted(s, Canonical) && a.members == b.members
    ensures Sorted(ExchangeAll(s, a, b), Canonical)
  {
    hide Canonical, Exchange, Map;
    var r := ExchangeAll(s, a, b);
    forall i, j | 0 <= i < j < |r| ensures Canonical(r[i], r[j]) { ExchangeKeepsOrder(s[i], s[j], a, b); }
  }

  lemma ExchangeKeepsOrder(x: Community, y: Community, a: Community, b: Community)
    requires Canonical(x, y) && a.members == b.members
    ensures Canonical(Exchange(x, a, b), Exchange(y, a, b))
  {
    hide MemberKey, LexLe;
  }

  lemma DistinctIsStrict(s: seq<Community>)
    requires DistinctBy(s, TagOf)
    ensures Strict(s, Canonical)
  {
    hide MemberKey, LexLe;
    forall x, y | x in s && y in s && Canonical(x, y) && Canonical(y, x) ensures x == y {
      KeysOrdered(x.members, y.members);
      SameKeySameElement(s, TagOf, x, y);
    }
  }

  lemma ExchangedContent(a: Community, b: Community)
    ensures Strip(Exchange(a, a, b)) == Strip(b)
  {
  }

  /** Exchanging the labels of two communities with equal members and different content
      changes what is observed. */
  lemma LabelsDecide(s: seq<Community>, i: nat, j: nat)
    requires DistinctBy(s, TagOf) && i < j < |s| && s[i].members == s[j].members && Strip(s[i]) != Strip(s[j])
    ensures Observe(Swap(s, i, j)) != Observe(s)
  {
    hide SortBy, Canonical, Swap, Exchange, Map;
    var t, a, b := Swap(s, i, j), s[i], s[j];
    var u := SortBy(s, Canonical);
    var w := ExchangeAll(u, a, b);
    OrdersAreTotal();
    SortIsSorted(s, Canonical);
    SortIsSorted(t, Canonical);
    ExchangeSorted(u, a, b);
    SwapRelabels(s, i, j);
    ExchangeIsSwap(s, i, j);
    MapPermute(u, s, (c: Community) => Exchange(c, a, b));
    DistinctIsStrict(t);
    SameElements(t, SortBy(t, Canonical));
    SortedUnique(SortBy(t, Canonical), w, Canonical);
    SameElements(s, u);
    assert a in u;
    var p :| 0 <= p < |u| && u[p] == a;
    ExchangedContent(a, b);
    assert Observe(s)[p] == Strip(a) && Observe(t)[p] == Strip(b);
  }

  /** Labels never matter exactly when communities with the same members are otherwise alike. */
  lemma LabelsMatterExactly(s: seq<Community>)
    requires DistinctBy(s, TagOf)
    ensures (forall t | Relabels(s, t) :: Observe(t) == Observe(s)) <==> MembersTell(s)
  {
    hide Observe, Relabels, Swap;
    if MembersTell(s) {
      forall t | Relabels(s, t) ensures Observe(t) == Observe(s) { RelabellingIsInvisible(s, t); }
    } else {
      var i, j :| 0 <= i < j < |s| && s[i].members == s[j].members && Strip(s[i]) != Strip(s[j]);
      LabelsDecide(s, i, j);
      SwapRelabels(s, i, j);
    }
  }
}
