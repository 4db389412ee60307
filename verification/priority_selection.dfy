/** Evidence records and the selection of their latest known versions
    (analytics/prioritization/baseline.py, `_select_known_revisions`; analytics/prioritization/model.py). */
module PrioritySelection {
  import opened Basics

  type Instant = int

  /** One version of a record; the dependency id in the program is "record@vN". */
  datatype Dep = Dep(record: string, version: nat)

  datatype Record = Record(
    dep: Dep,
    observedAt: Instant,
    recordedAt: Instant,
    quality: Option<real>,
    corroboration: Option<real>,
    change: Option<real>,
    coverage: Option<real>,
    corroborates: set<Dep>)

  datatype SelectionError = DuplicateDependency

  // ----- dependency ids as text -----

  function Text(d: Dep): string { d.record + "@v" + Decimal(d.version) }

  /** Read from the end: digits, then a 'v'. */
  lemma TextFromTheEnd(d: Dep)
    ensures var s, n := Text(d), |Decimal(d.version)|;
      && |s| == |d.record| + 2 + n && s[|s| - n..] == Decimal(d.version) && s[..|s| - n - 2] == d.record
      && s[|s| - n - 1] == 'v' && AllDigits(s[|s| - n..])
  {
    DecimalDigits(d.version);
  }

  lemma MarkerIsNoDigit(s: string, n: nat, m: nat)
    requires n <= |s| && m < |s| && s[|s| - m - 1] == 'v'
    ensures n > m ==> !AllDigits(s[|s| - n..])
  {
    if n > m {
      var t := s[|s| - n..];
      assert t[n - m - 1] == 'v' && t[n - m - 1] in t;
    }
  }

  /** The text identifies the version of the record, whatever characters record ids contain. */
  lemma TextInjective(a: Dep, b: Dep)
    requires Text(a) == Text(b)
    ensures a == b
  {
    TextFromTheEnd(a);
    TextFromTheEnd(b);
    var n, m := |Decimal(a.version)|, |Decimal(b.version)|;
    MarkerIsNoDigit(Text(a), n, m);
    MarkerIsNoDigit(Text(a), m, n);
    DecimalInjective(a.version, b.version);
  }

  predicate DepLe(a: Dep, b: Dep) { TextLe(Text(a), Text(b)) }

  predicate ByDep(a: Record, b: Record) { DepLe(a.dep, b.dep) }

  lemma DepOrder()
    ensures TotalOrder(DepLe) && Antisymmetric(DepLe) && TotalOrder(ByDep)
  {
    forall a, b ensures DepLe(a, b) || DepLe(b, a) { TextTotal(Text(a), Text(b)); }
    forall a, b, c | DepLe(a, b) && DepLe(b, c) ensures DepLe(a, c) { TextTransitive(Text(a), Text(b), Text(c)); }
    forall a, b | DepLe(a, b) && DepLe(b, a) ensures a == b { TextTotal(Text(a), Text(b)); TextInjective(a, b); }
    forall a: Record, b: Record
      ensures ByDep(a, b) || ByDep(b, a)
    {
      assert DepLe(a.dep, b.dep) || DepLe(b.dep, a.dep);
    }
    forall a: Record, b: Record, c: Record | ByDep(a, b) && ByDep(b, c)
      ensures ByDep(a, c)
    {
      assert DepLe(a.dep, c.dep);
    }
  }

  // ----- what is selected -----

  predicate Visible(r: Record, asOf: Instant) { r.observedAt <= asOf && r.recordedAt <= asOf }

  /** The highest visible version of its record. */
  predicate Highest(evidence: seq<Record>, asOf: Instant, r: Record) {
    && r in evidence && Visible(r, asOf)
    && forall x | x in evidence && Visible(x, asOf) && x.dep.record == r.dep.record :: x.dep.version <= r.dep.version
  }

  function DepOf(r: Record): Dep { r.dep }

  /** The selected records and the excluded dependencies, in order. */
  ghost predicate SelectionExact(evidence: seq<Record>, asOf: Instant, selected: seq<Record>, excluded: seq<Dep>) {
    && Sorted(selected, ByDep) && NoDuplicates(selected) && (forall r :: r in selected <==> Highest(evidence, asOf, r))
    && Sorted(excluded, DepLe) && NoDuplicates(excluded)
    && forall d :: d in excluded <==> exists r :: r in evidence && r.dep == d && !Highest(evidence, asOf, r)
  }

  /** The one-pass loop over a prefix: the best version so far, and the rest. */
  ghost predicate Progress(prefix: seq<Record>, asOf: Instant, best: map<string, Record>, order: seq<string>,
        excluded: seq<Dep>, seen: set<Dep>) {
    && seen == (set r | r in prefix :: r.dep)
    && (forall k :: k in order <==> k in best) && NoDuplicates(order)
    && (forall k | k in best :: best[k].dep.record == k && Highest(prefix, asOf, best[k]))
    && (forall r | Highest(prefix, asOf, r) :: r.dep.record in best && best[r.dep.record] == r)
    && NoDuplicates(excluded)
    && (forall d :: d in excluded <==> exists r :: r in prefix && r.dep == d && !Highest(prefix, asOf, r))
  }

  lemma HighestNext(prefix: seq<Record>, asOf: Instant, r: Record, x: Record)
    ensures Highest(prefix + [r], asOf, x) <==>
      (|| (Highest(prefix, asOf, x)
        && (Visible(r, asOf) && r.dep.record == x.dep.record ==> r.dep.version <= x.dep.version))
       || (x == r && Visible(r, asOf)
          && forall y | y in prefix && Visible(y, asOf) && y.dep.record == r.dep.record ::
             y.dep.version <= r.dep.version))
  {
    var more := prefix + [r];
    assert forall y :: y in more <==> y in prefix || y == r;
  }

  lemma HighestOnce(prefix: seq<Record>, asOf: Instant, x: Record, y: Record)
    requires DistinctBy(prefix, DepOf) && Highest(prefix, asOf, x) && Highest(prefix, asOf, y)
        && x.dep.record == y.dep.record
    ensures x == y
  {
    SameKeySameElement(prefix, DepOf, x, y);
  }

  /** The next record is not selected: it is invisible, or the version already held is higher. */
  lemma ProgressRejects(prefix: seq<Record>, asOf: Instant, best: map<string, Record>, order: seq<string>,
        excluded: seq<Dep>, seen: set<Dep>, r: Record)
    requires Progress(prefix, asOf, best, order, excluded, seen) && r.dep !in seen
    requires !Visible(r, asOf) || (r.dep.record in best && r.dep.version <= best[r.dep.record].dep.version)
    ensures Progress(prefix + [r], asOf, best, order, excluded + [r.dep], seen + {r.dep})
  {
    forall x ensures Highest(prefix + [r], asOf, x) <==> Highest(prefix, asOf, x) {
      HighestNext(prefix, asOf, r, x);
      NotAgain(prefix, asOf, best, seen, r, x);
    }
    ExcludedKnown(prefix, asOf, excluded, seen, r);
    AppendMembers(excluded, r.dep);
    AppendDistinct(excluded, r.dep);
    AppendMembers(prefix, r);
    assert r !in prefix by { NewRecord(prefix, seen, r); }
    hide Highest, Visible;
  }

  lemma NewRecord(prefix: seq<Record>, seen: set<Dep>, r: Record)
    requires seen == (set x | x in prefix :: x.dep) && r.dep !in seen
    ensures r !in prefix && forall x | x in prefix :: x.dep != r.dep
  {
  }

  lemma NotAgain(prefix: seq<Record>, asOf: Instant, best: map<string, Record>, seen: set<Dep>, r: Record, x: Record)
    requires seen == (set x | x in prefix :: x.dep) && r.dep !in seen
    requires !Visible(r, asOf) || (r.dep.record in best && r.dep.version <= best[r.dep.record].dep.version)
    requires forall k | k in best :: best[k].dep.record == k && Highest(prefix, asOf, best[k])
    ensures Highest(prefix, asOf, x) && Visible(r, asOf) && r.dep.record == x.dep.record ==>
        r.dep.version <= x.dep.version
    ensures x == r && Visible(r, asOf) ==>
        exists y :: y in prefix && Visible(y, asOf) && y.dep.record == r.dep.record && y.dep.version > r.dep.version
  {
    if Visible(r, asOf) {
      var y := best[r.dep.record];
      assert Highest(prefix, asOf, y);
      assert y.dep in seen;
    }
  }

  lemma ExcludedKnown(prefix: seq<Record>, asOf: Instant, excluded: seq<Dep>, seen: set<Dep>, r: Record)
    requires seen == (set x | x in prefix :: x.dep) && r.dep !in seen
    requires forall d :: d in excluded <==> exists x :: x in prefix && x.dep == d && !Highest(prefix, asOf, x)
    ensures r.dep !in excluded
  {
  }

  /** The next record is selected: it is visible, and the first or the highest of its record. */
  lemma ProgressAccepts(prefix: seq<Record>, asOf: Instant, best: map<string, Record>, order: seq<string>,
        excluded: seq<Dep>, seen: set<Dep>, r: Record)
    requires Progress(prefix, asOf, best, order, excluded, seen) && r.dep !in seen && DistinctBy(prefix, DepOf)
    requires Visible(r, asOf) && (r.dep.record in best ==> r.dep.version > best[r.dep.record].dep.version)
    ensures var k := r.dep.record;
      Progress(prefix + [r], asOf, best[k := r], if k in best then order else order + [k],
               if k in best then excluded + [best[k].dep] else excluded, seen + {r.dep})
  {
    hide Highest, DistinctBy, Visible;
    var k := r.dep.record;
    forall x ensures Highest(prefix + [r], asOf, x) <==> (x == r || (Highest(prefix, asOf, x) && x.dep.record != k)) {
      HighestNext(prefix, asOf, r, x);
      AcceptedIsHighest(prefix, asOf, best, r, x);
    }
    AppendMembers(prefix, r);
    NewRecord(prefix, seen, r);
    if k in best {
      OldIsNotExcluded(prefix, asOf, best[k], excluded);
      AppendMembers(excluded, best[k].dep);
      AppendDistinct(excluded, best[k].dep);
      HighestMember(prefix, asOf, best[k]);
      forall x | Highest(prefix, asOf, x) && x.dep.record == k ensures x == best[k] {}
    } else {
      AppendMembers(order, k);
      AppendDistinct(order, k);
    }
  }

  lemma HighestMember(prefix: seq<Record>, asOf: Instant, x: Record)
    requires Highest(prefix, asOf, x)
    ensures x in prefix
  {
  }

  lemma AcceptedIsHighest(prefix: seq<Record>, asOf: Instant, best: map<string, Record>, r: Record, x: Record)
    requires forall k | k in best :: best[k].dep.record == k && Highest(prefix, asOf, best[k])
    requires forall x | Highest(prefix, asOf, x) :: x.dep.record in best && best[x.dep.record] == x
    requires Visible(r, asOf) && (r.dep.record in best ==> r.dep.version > best[r.dep.record].dep.version)
    ensures Highest(prefix, asOf, x) && r.dep.record == x.dep.record ==> r.dep.version > x.dep.version
    ensures forall y | y in prefix && Visible(y, asOf) && y.dep.record == r.dep.record :: y.dep.version <= r.dep.version
  {
    forall y | y in prefix && Visible(y, asOf) && y.dep.record == r.dep.record ensures y.dep.version <= r.dep.version {
      SomeHighest(prefix, asOf, y);
      var z :| Highest(prefix, asOf, z) && z.dep.record == y.dep.record;
      assert y.dep.version <= z.dep.version;
    }
  }

  /** A record with a visible version has a highest one. */
  lemma {:induction false} SomeHighest(prefix: seq<Record>, asOf: Instant, y: Record)
    requires y in prefix && Visible(y, asOf)
    ensures exists z :: Highest(prefix, asOf, z) && z.dep.record == y.dep.record
    decreases MaxVersion(prefix) - y.dep.version
  {
    if !Highest(prefix, asOf, y) {
      var x :| x in prefix && Visible(x, asOf) && x.dep.record == y.dep.record && x.dep.version > y.dep.version;
      VersionBound(prefix, x);
      SomeHighest(prefix, asOf, x);
    }
  }

  function MaxVersion(s: seq<Record>): nat {
    if s == [] then 0
    else
      var rest := MaxVersion(s[1..]);
      if s[0].dep.version > rest then s[0].dep.version else rest
  }

  lemma {:induction false} VersionBound(s: seq<Record>, x: Record)
    requires x in s
    ensures x.dep.version <= MaxVersion(s)
  {
    if x != s[0] { VersionBound(s[1..], x); }
  }

  lemma OldIsNotExcluded(prefix: seq<Record>, asOf: Instant, before: Record, excluded: seq<Dep>)
    requires DistinctBy(prefix, DepOf) && Highest(prefix, asOf, before)
    requires forall d :: d in excluded <==> exists x :: x in prefix && x.dep == d && !Highest(prefix, asOf, x)
    ensures before.dep !in excluded
  {
    forall x | x in prefix ensures x.dep == before.dep ==> x == before { SameKeySameElement(prefix, DepOf, x, before); }
  }

  // ----- _select_known_revisions -----

  lemma NoProgress(asOf: Instant)
    ensures Progress([], asOf, map[], [], [], {}) && DistinctBy([], DepOf)
  {
  }

  lemma StillDistinct(prefix: seq<Record>, seen: set<Dep>, r: Record)
    requires DistinctBy(prefix, DepOf) && seen == (set x | x in prefix :: x.dep)
    ensures r.dep !in seen ==> DistinctBy(prefix + [r], DepOf)
    ensures r.dep in seen ==> !DistinctBy(prefix + [r], DepOf)
  {
    DistinctAppend(prefix, DepOf, r);
    assert KeysOf(prefix, DepOf) == seen;
  }

  lemma PrefixDistinct(s: seq<Record>, i: nat)
    requires i <= |s| && !DistinctBy(s[..i], DepOf)
    ensures !DistinctBy(s, DepOf)
  {
    var m, n :| 0 <= m < n < i && s[..i][m].dep == s[..i][n].dep;
    assert s[m].dep == s[n].dep;
  }

  function Values(best: map<string, Record>, order: seq<string>): (r: seq<Record>)
    requires forall k | k in order :: k in best
    ensures |r| == |order| && forall i | 0 <= i < |order| :: order[i] in best && r[i] == best[order[i]]
  {
    if order == [] then [] else assert order[0] in order; [best[order[0]]] + Values(best, order[1..])
  }

  lemma ValuesExact(prefix: seq<Record>, asOf: Instant, best: map<string, Record>, order: seq<string>,
        excluded: seq<Dep>, seen: set<Dep>)
    requires Progress(prefix, asOf, best, order, excluded, seen)
    ensures forall k | k in order :: k in best
    ensures NoDuplicates(Values(best, order)) && forall r :: r in Values(best, order) <==> Highest(prefix, asOf, r)
  {
    hide Highest;
    var values := Values(best, order);
    forall i, j | 0 <= i < j < |values| ensures values[i] != values[j] {
      assert order[i] in order && order[j] in order && values[i].dep.record == order[i]
        && values[j].dep.record == order[j];
    }
    forall r ensures r in values <==> Highest(prefix, asOf, r) {
      if r in values {
        var i :| 0 <= i < |values| && values[i] == r;
        assert order[i] in order;
      }
      if Highest(prefix, asOf, r) {
        assert r.dep.record in order;
        var i :| 0 <= i < |order| && order[i] == r.dep.record;
        assert values[i] == r;
      }
    }
  }

  /** One pass over the evidence keeps exactly the highest visible version of each record and
      excludes exactly the others; a repeated dependency is an error. */
  method SelectKnownRevisions(evidence: seq<Record>,
        asOf: Instant)
    returns (result: Result<(seq<Record>, seq<Dep>), SelectionError>)
    ensures result.Ok? <==> DistinctBy(evidence, DepOf)
    ensures result.Ok? ==> SelectionExact(evidence, asOf, result.value.0, result.value.1)
  {
    hide Progress, Highest, SortBy, TextLe, Text;
    var best: map<string, Record>, order: seq<string>, excluded: seq<Dep>, seen: set<Dep> := map[], [], [], {};
    NoProgress(asOf);
    for i := 0 to |evidence|
      invariant Progress(evidence[..i], asOf, best, order, excluded, seen) && DistinctBy(evidence[..i], DepOf)
    {
      var r := evidence[i];
      assert evidence[..i + 1] == evidence[..i] + [r];
      ghost var prefix := evidence[..i];
      assert seen == (set x | x in prefix :: x.dep) by { SeenOf(prefix, asOf, best, order, excluded, seen); }
      StillDistinct(prefix, seen, r);
      if r.dep in seen {
        PrefixDistinct(evidence, i + 1);
        return Err(DuplicateDependency);
      }
      if !Visible(r, asOf) || (r.dep.record in best && r.dep.version <= best[r.dep.record].dep.version) {
        ProgressRejects(prefix, asOf, best, order, excluded, seen, r);
        excluded := excluded + [r.dep];
      } else {
        ProgressAccepts(prefix, asOf, best, order, excluded, seen, r);
        if r.dep.record in best {
          excluded := excluded + [best[r.dep.record].dep];
        } else {
          order := order + [r.dep.record];
        }
        best := best[r.dep.record := r];
      }
      seen := seen + {r.dep};
    }
    assert evidence[..|evidence|] == evidence;
    ValuesExact(evidence, asOf, best, order, excluded, seen);
    var values := Values(best, order);
    SortedSelection(evidence, asOf, values, best, order, excluded, seen);
    return Ok((SortBy(values, ByDep), SortBy(excluded, DepLe)));
  }

  lemma SeenOf(prefix: seq<Record>, asOf: Instant, best: map<string, Record>, order: seq<string>, excluded: seq<Dep>,
        seen: set<Dep>)
    requires Progress(prefix, asOf, best, order, excluded, seen)
    ensures seen == (set x | x in prefix :: x.dep)
  {
  }

  lemma SortedSelection(prefix: seq<Record>, asOf: Instant, values: seq<Record>, best: map<string, Record>,
        order: seq<string>, excluded: seq<Dep>, seen: set<Dep>)
    requires Progress(prefix, asOf, best, order, excluded, seen)
    requires NoDuplicates(values) && forall r :: r in values <==> Highest(prefix, asOf, r)
    ensures SelectionExact(prefix, asOf, SortBy(values, ByDep), SortBy(excluded, DepLe))
  {
    hide Highest, SortBy, ByDep, DepLe;
    DepOrder();
    SortIsSorted(values, ByDep);
    SortIsSorted(excluded, DepLe);
    SameElements(values, SortBy(values, ByDep));
    SameElements(excluded, SortBy(excluded, DepLe));
    SortNoDuplicates(values, ByDep);
    SortNoDuplicates(excluded, DepLe);
  }

  // ----- what the selection is -----

  lemma DistinctCounts<T>(s: seq<T>, t: seq<T>)
    requires NoDuplicates(s) && NoDuplicates(t) && forall x :: x in s <==> x in t
    ensures multiset(s) == multiset(t)
  {
    NoDuplicatesCount(s);
    NoDuplicatesCount(t);
    forall x ensures multiset(s)[x] == multiset(t)[x] {
      assert x in s <==> x in multiset(s);
      assert x in t <==> x in multiset(t);
    }
  }

  /** There is only one such selection: it does not depend on the order of the evidence. */
  lemma SelectionIsUnique(evidence: seq<Record>, other: seq<Record>, asOf: Instant, selected: seq<Record>,
        excluded: seq<Dep>, selected': seq<Record>, excluded': seq<Dep>)
    requires DistinctBy(evidence, DepOf) && multiset(evidence) == multiset(other)
    requires SelectionExact(evidence, asOf, selected, excluded) && SelectionExact(other, asOf, selected', excluded')
    ensures selected == selected' && excluded == excluded'
  {
    hide DepLe;
    SameElements(evidence, other);
    forall r ensures Highest(evidence, asOf, r) <==> Highest(other, asOf, r) {}
    forall r | Highest(evidence, asOf, r) ensures r in evidence {}
    hide Highest;
    DistinctCounts(selected, selected');
    DistinctCounts(excluded, excluded');
    DepOrder();
    forall x, y | x in selected && y in selected && ByDep(x, y) && ByDep(y, x) ensures x == y {
      SameKeySameElement(evidence, DepOf, x, y);
    }
    SortedUnique(selected, selected', ByDep);
    SortedUnique(excluded, excluded', DepLe);
  }

  /** Selected and excluded partition the dependencies of the evidence. */
  lemma SelectionPartitions(evidence: seq<Record>, asOf: Instant, selected: seq<Record>, excluded: seq<Dep>)
    requires DistinctBy(evidence, DepOf) && SelectionExact(evidence, asOf, selected, excluded)
    ensures forall d ::
        (exists r :: r in evidence && r.dep == d) <==> (d in excluded || exists r :: r in selected && r.dep == d)
    ensures forall d | d in excluded :: !(exists r :: r in selected && r.dep == d)
    ensures forall r | r in evidence && r.observedAt <= asOf && r.recordedAt <= asOf ::
        exists x :: x in selected && x.dep.record == r.dep.record && r.dep.version <= x.dep.version
    ensures forall x, y | x in selected && y in selected && x.dep.record == y.dep.record :: x == y
  {
    forall r | Highest(evidence, asOf, r) ensures r in evidence {}
    forall x, y | x in selected && y in selected
      ensures x.dep == y.dep ==> x == y
    {
      SameKeySameElement(evidence, DepOf, x, y);
    }
    forall x, y | x in selected && y in selected && x.dep.record == y.dep.record
      ensures x == y
    {
      HighestOnce(evidence, asOf, x, y);
    }
    forall r | r in evidence && r.observedAt <= asOf && r.recordedAt <= asOf
      ensures exists x :: x in selected && x.dep.record == r.dep.record && r.dep.version <= x.dep.version
    {
      SomeHighest(evidence, asOf, r);
    }
    forall d | d in excluded ensures !(exists r :: r in selected && r.dep == d) {
      var x :| x in evidence && x.dep == d && !Highest(evidence, asOf, x);
      forall r | r in selected ensures r.dep != d { SameKeySameElement(evidence, DepOf, r, x); }
    }
    hide Visible;
  }

  /** No hindsight: what was observed or recorded after the instant never changes the selection. */
  lemma NoHindsight(evidence: seq<Record>, other: seq<Record>, asOf: Instant, selected: seq<Record>,
        excluded: seq<Dep>, selected': seq<Record>, excluded': seq<Dep>)
    requires DistinctBy(evidence, DepOf)
    requires forall r: Record :: r.observedAt <= asOf && r.recordedAt <= asOf ==> (r in evidence <==> r in other)
    requires SelectionExact(evidence, asOf, selected, excluded) && SelectionExact(other, asOf, selected', excluded')
    ensures selected == selected'
  {
    hide DepLe;
    forall r ensures Highest(evidence, asOf, r) <==> Highest(other, asOf, r) {}
    forall r | Highest(evidence, asOf, r) ensures r in evidence {}
    hide Highest;
    DistinctCounts(selected, selected');
    DepOrder();
    forall x, y | x in selected && y in selected && ByDep(x, y) && ByDep(y, x) ensures x == y {
      SameKeySameElement(evidence, DepOf, x, y);
    }
    SortedUnique(selected, selected', ByDep);
  }
}
