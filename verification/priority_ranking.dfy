/** Ranking of assessments (analytics/prioritization/baseline.py, `rank_assessments`): competition ranks
    in one pass over the sorted assessments. An assessment is ordered exactly when it has an index. */
module PriorityRanking {
  import opened Basics

  datatype Entry = Entry(item: string, index: Option<real>)

  datatype Ranked = Ranked(rank: Option<nat>, tieSize: nat, entry: Entry)

  datatype RankError = DuplicateItem

  /** Ordered before abstained, higher index first, then by item. */
  predicate Above(a: Entry, b: Entry) {
    if a.index.Some? != b.index.Some? then a.index.Some?
    else if a.index != b.index then a.index.value > b.index.value
    else TextLe(a.item, b.item)
  }

  function ItemOf(e: Entry): string { e.item }

  /** How many entries have an index above the given one, and how many have the very same. */
  function Larger(s: seq<Entry>, x: real): nat {
    if s == [] then 0 else Larger(s[1..], x) + if s[0].index.Some? && s[0].index.value > x then 1 else 0
  }

  function Ties(s: seq<Entry>, index: Option<real>): nat {
    if s == [] then 0 else Ties(s[1..], index) + if s[0].index == index then 1 else 0
  }

  lemma AboveIsOrder(s: seq<Entry>)
    requires DistinctBy(s, ItemOf)
    ensures TotalOrder(Above) && Strict(s, Above)
  {
    forall a, b ensures Above(a, b) || Above(b, a) { TextTotal(a.item, b.item); }
    forall a, b, c | Above(a, b) && Above(b, c) ensures Above(a, c) {
      if TextLe(a.item, b.item) && TextLe(b.item, c.item) { TextTransitive(a.item, b.item, c.item); }
    }
    forall x, y | x in s && y in s && Above(x, y) && Above(y, x) ensures x == y {
      TextTotal(x.item, y.item);
      SameKeySameElement(s, ItemOf, x, y);
    }
  }

  // ----- counting does not depend on the order -----

  lemma {:induction false} CountsAppend(s: seq<Entry>, t: seq<Entry>, x: real, index: Option<real>)
    ensures Larger(s + t, x) == Larger(s, x) + Larger(t, x) && Ties(s + t, index) == Ties(s, index) + Ties(t, index)
  {
    if s == [] {
      assert s + t == t;
    } else {
      assert (s + t)[1..] == s[1..] + t;
      CountsAppend(s[1..], t, x, index);
    }
  }

  lemma CountsRemove(t: seq<Entry>, k: nat, x: real, index: Option<real>)
    requires k < |t|
    ensures Larger(t, x) == Larger(Drop(t, k), x) + if t[k].index.Some? && t[k].index.value > x then 1 else 0
    ensures Ties(t, index) == Ties(Drop(t, k), index) + if t[k].index == index then 1 else 0
  {
    hide Larger, Ties;
    assert t == t[..k] + ([t[k]] + t[k + 1..]);
    CountsAppend(t[..k], t[k + 1..], x, index);
    CountsAppend(t[..k], [t[k]] + t[k + 1..], x, index);
    CountOne(t[k], t[k + 1..], x, index);
  }

  lemma {:induction false} CountsPermute(s: seq<Entry>, t: seq<Entry>, x: real, index: Option<real>)
    requires multiset(s) == multiset(t)
    ensures Larger(s, x) == Larger(t, x) && Ties(s, index) == Ties(t, index)
    decreases |s|
  {
    assert |s| == |multiset(s)| && |t| == |multiset(t)|;
    if s != [] {
      hide Larger, Ties;
      var k := RemoveSame(s, t);
      CountsPermute(s[1..], Drop(t, k), x, index);
      CountsRemove(t, k, x, index);
      assert s == [s[0]] + s[1..];
      CountOne(s[0], s[1..], x, index);
    }
  }

  lemma CountOne(e: Entry, s: seq<Entry>, x: real, index: Option<real>)
    ensures Larger([e] + s, x) == Larger(s, x) + if e.index.Some? && e.index.value > x then 1 else 0
    ensures Ties([e] + s, index) == Ties(s, index) + if e.index == index then 1 else 0
  {
    assert ([e] + s)[1..] == s;
  }

  /** If exactly the first `n` entries are above the index, there are `n`. */
  lemma {:induction false} LargerIs(s: seq<Entry>, n: nat, x: real)
    requires n <= |s| && (forall k | 0 <= k < n :: s[k].index.Some? && s[k].index.value > x)
    requires forall k | n <= k < |s| :: s[k].index.Some? ==> s[k].index.value <= x
    ensures Larger(s, x) == n
  {
    if s != [] {
      var t := s[1..];
      forall k | 0 <= k < |t| ensures t[k] == s[k + 1] {}
      LargerIs(t, if n > 0 then n - 1 else 0, x);
    }
  }

  lemma HigherBefore(s: seq<Entry>, i: nat, k: nat)
    requires Sorted(s, Above) && k < i < |s| && s[i].index.Some? && s[i - 1].index != s[i].index
    ensures s[k].index.Some? && s[k].index.value > s[i].index.value
  {
    hide TextLe;
    assert Above(s[i - 1], s[i]);
    if k < i - 1 { assert Above(s[k], s[i - 1]); }
  }

  lemma NotHigherAfter(s: seq<Entry>, i: nat, k: nat)
    requires Sorted(s, Above) && i <= k < |s| && s[i].index.Some?
    ensures s[k].index.Some? ==> s[k].index.value <= s[i].index.value
  {
    hide TextLe;
    if k > i { assert Above(s[i], s[k]); }
  }

  /** In sorted order, what is above the first entry of a group of equal indexes is everything before it. */
  lemma LargerBefore(s: seq<Entry>, i: nat)
    requires Sorted(s, Above) && i < |s| && s[i].index.Some?
    requires i == 0 || s[i - 1].index != s[i].index
    ensures Larger(s, s[i].index.value) == i
  {
    hide Above, Sorted, Larger;
    forall k | 0 <= k < i ensures s[k].index.Some? && s[k].index.value > s[i].index.value { HigherBefore(s, i, k); }
    forall k | i <= k < |s|
      ensures s[k].index.Some? ==> s[k].index.value <= s[i].index.value
    {
      NotHigherAfter(s, i, k);
    }
    LargerIs(s, i, s[i].index.value);
  }

  lemma OrderedFirst(s: seq<Entry>, i: nat, j: nat)
    requires Sorted(s, Above) && i <= j < |s| && s[j].index.Some?
    ensures s[i].index.Some?
  {
    if i < j { assert Above(s[i], s[j]); }
  }

  /** What a ranked entry says, against all the entries. */
  predicate RankedTrue(values: seq<Entry>, r: Ranked) {
    && r.tieSize == Ties(values, r.entry.index)
    && r.rank == if r.entry.index.Some? then Some(1 + Larger(values, r.entry.index.value)) else None
  }

  ghost predicate SameCounts(s: seq<Entry>, t: seq<Entry>) {
    && (forall x: real :: Larger(s, x) == Larger(t, x))
    && (forall index: Option<real> :: Ties(s, index) == Ties(t, index))
  }

  lemma CountsSame(s: seq<Entry>, t: seq<Entry>)
    requires multiset(s) == multiset(t)
    ensures SameCounts(s, t)
  {
    forall x: real ensures Larger(s, x) == Larger(t, x) { CountsPermute(s, t, x, None); }
    forall index: Option<real> ensures Ties(s, index) == Ties(t, index) { CountsPermute(s, t, 0.0, index); }
  }

  /** Where the pass stands after `i` entries. */
  ghost predicate Position(ordered: seq<Entry>, i: nat, position: nat, currentRank: nat)
    requires i <= |ordered|
  {
    && (i == 0 ==> position == 0)
    && (i > 0 && ordered[i - 1].index.Some? ==>
       position == i && currentRank == 1 + Larger(ordered, ordered[i - 1].index.value))
  }

  lemma FirstPosition(ordered: seq<Entry>)
    ensures Position(ordered, 0, 0, 0)
  {
  }

  lemma PositionNext(ordered: seq<Entry>, i: nat, position: nat, currentRank: nat)
    requires i < |ordered| && Sorted(ordered, Above) && Position(ordered, i, position, currentRank)
    ensures Position(ordered, i + 1,
                     if ordered[i].index.Some? then position + 1 else position,
                     if ordered[i].index.Some? && (i == 0 || ordered[i].index != ordered[i - 1].index)
                       then position + 1 else currentRank)
  {
    hide Larger, Above, Sorted;
    if ordered[i].index.Some? {
      if i > 0 { OrderedFirst(ordered, i - 1, i); }
      if i == 0 || ordered[i].index != ordered[i - 1].index { LargerBefore(ordered, i); }
    }
  }

  lemma RankIs(ordered: seq<Entry>, values: seq<Entry>, i: nat, position: nat, currentRank: nat, tieSize: nat)
    requires i < |ordered| && SameCounts(ordered, values) && Position(ordered, i + 1, position, currentRank)
    requires tieSize == Ties(ordered, ordered[i].index)
    ensures RankedTrue(values, Ranked(if ordered[i].index.Some? then Some(currentRank) else None, tieSize, ordered[i]))
  {
    hide Larger, Ties;
  }

  /** `tie_counts` */
  method CountTies(ordered: seq<Entry>) returns (ties: map<Option<real>, nat>)
    ensures forall e | e in ordered :: e.index in ties && ties[e.index] == Ties(ordered, e.index)
  {
    ties := map[];
    for i := 0 to |ordered|
      invariant forall key :: key in ties <==> exists e :: e in ordered[..i] && e.index == key
      invariant forall key | key in ties :: ties[key] == Ties(ordered[..i], key)
    {
      var key := ordered[i].index;
      assert ordered[..i + 1] == ordered[..i] + [ordered[i]];
      forall k ensures Ties(ordered[..i + 1], k) == Ties(ordered[..i], k) + if key == k then 1 else 0 {
        CountsAppend(ordered[..i], [ordered[i]], 0.0, k);
      }
      if key !in ties { NoTies(ordered[..i], key); }
      ties := ties[key := (if key in ties then ties[key] else 0) + 1];
    }
    assert ordered[..|ordered|] == ordered;
  }

  lemma {:induction false} NoTies(s: seq<Entry>, key: Option<real>)
    requires forall e | e in s :: e.index != key
    ensures Ties(s, key) == 0
  {
    if s != [] {
      assert s[0] in s && forall e | e in s[1..] :: e in s;
      NoTies(s[1..], key);
    }
  }

  /** Every entry once: the ordered ones first, by falling index, equal ones by item. */
  ghost predicate Placed(values: seq<Entry>, r: seq<Ranked>) {
    && |r| == |values| && (forall e | e in values :: exists i :: 0 <= i < |r| && r[i].entry == e)
    && (forall i | 0 <= i < |r| :: r[i].entry in values)
    && (forall i, j | 0 <= i < j < |r| :: PlacedBefore(r[i].entry, r[j].entry))
  }

  predicate PlacedBefore(a: Entry, b: Entry) {
    && (b.index.Some? ==> a.index.Some? && b.index.value <= a.index.value)
    && (a.index == b.index ==> TextLe(a.item, b.item))
  }

  lemma PlacedInOrder(values: seq<Entry>, ordered: seq<Entry>, r: seq<Ranked>)
    requires Sorted(ordered, Above) && multiset(ordered) == multiset(values) && |r| == |ordered|
    requires forall i | 0 <= i < |r| :: r[i].entry == ordered[i]
    ensures Placed(values, r)
  {
    hide TextLe;
    SameElements(values, ordered);
    assert |ordered| == |multiset(ordered)| && |values| == |multiset(values)|;
    forall e | e in values ensures exists i :: 0 <= i < |r| && r[i].entry == e {
      var i :| 0 <= i < |ordered| && ordered[i] == e;
      assert r[i].entry == e;
    }
    forall i | 0 <= i < |r| ensures r[i].entry in values { assert ordered[i] in ordered; }
    forall i, j | 0 <= i < j < |r| ensures PlacedBefore(r[i].entry, r[j].entry) {
      assert Above(ordered[i], ordered[j]);
    }
  }

  /** `rank_assessments`: the entries in order, each ordered one ranked one plus the number of
      entries with a larger index, ties sharing a rank, the others unranked. */
  method RankAssessments(values: seq<Entry>) returns (result: Result<seq<Ranked>, RankError>)
    ensures result.Ok? <==> DistinctBy(values, ItemOf)
    ensures result.Ok? ==>
      var r := result.value;
      && |r| == |values|
         && (forall i | 0 <= i < |r| :: r[i].entry == SortBy(values, Above)[i] && RankedTrue(values, r[i]))
      && Sorted(SortBy(values, Above), Above) && Placed(values, r)
  {
    hide TextLe, SortBy, Above, Placed, Position, RankedTrue, SameCounts, Larger, Ties, Sorted;
    UniqueKeys(values, ItemOf);
    if |KeysOf(values, ItemOf)| != |values| { return Err(DuplicateItem); }
    var ordered := SortBy(values, Above);
    AboveIsOrder(values);
    SortIsSorted(values, Above);
    assert SameCounts(ordered, values) by { CountsSame(ordered, values); }
    var ties := CountTies(ordered);
    var r: seq<Ranked> := [];
    var currentRank: nat, position: nat := 0, 0;
    FirstPosition(ordered);
    for i := 0 to |ordered|
      invariant |r| == i && forall j | 0 <= j < i :: r[j].entry == ordered[j] && RankedTrue(values, r[j])
      invariant Position(ordered, i, position, currentRank)
    {
      var value := ordered[i];
      assert value in ordered;
      PositionNext(ordered, i, position, currentRank);
      var rank: Option<nat> := None;
      if value.index.Some? {
        position := position + 1;
        if i == 0 || value.index != ordered[i - 1].index { currentRank := position; }
        rank := Some(currentRank);
      }
      RankIs(ordered, values, i, position, currentRank, ties[value.index]);
      r := r + [Ranked(rank, ties[value.index], value)];
    }
    PlacedInOrder(values, ordered, r);
    return Ok(r);
  }

  // ----- what the ranks mean -----

  /** Ranks do not depend on the order of the assessments. */
  lemma RankingIgnoresOrder(values: seq<Entry>, other: seq<Entry>, r: Ranked)
    requires multiset(values) == multiset(other) && DistinctBy(values, ItemOf)
    ensures SortBy(values, Above) == SortBy(other, Above) && (RankedTrue(values, r) <==> RankedTrue(other, r))
  {
    hide SortBy, Above;
    AboveIsOrder(values);
    SortOrderIndependent(values, other, Above);
    if r.entry.index.Some? {
      CountsPermute(values, other, r.entry.index.value, r.entry.index);
    } else {
      CountsPermute(values, other, 0.0, None);
    }
  }

  /** Equal indexes share a rank, a larger index has a smaller one, and the gap to the next rank
      is at least the size of the tie. */
  lemma RanksCompete(values: seq<Entry>, a: Ranked, b: Ranked)
    requires RankedTrue(values, a) && RankedTrue(values, b) && a.entry in values && b.entry in values
    requires a.entry.index.Some? && b.entry.index.Some?
    ensures a.rank == b.rank <==> a.entry.index == b.entry.index
    ensures a.entry.index.value > b.entry.index.value ==> a.rank.value + a.tieSize <= b.rank.value
  {
    LargerAndTies(values, a.entry.index.value, b.entry.index.value);
    LargerAndTies(values, b.entry.index.value, a.entry.index.value);
    SomeTie(values, a.entry);
    SomeTie(values, b.entry);
  }

  lemma {:induction false} LargerAndTies(s: seq<Entry>, x: real, y: real)
    ensures x > y ==> Larger(s, x) + Ties(s, Some(x)) <= Larger(s, y)
  {
    if s != [] { LargerAndTies(s[1..], x, y); }
  }

  lemma {:induction false} SomeTie(s: seq<Entry>, e: Entry)
    requires e in s
    ensures Ties(s, e.index) >= 1
  {
    if e != s[0] { SomeTie(s[1..], e); }
  }
}
