/** `build_lineage` (analytics/lineage/tracker.py): one pass over the snapshots, six loops
    per snapshot, updating the builder's maps, sets and events. */
module LineageTracker {
  import opened LineageModel
  import opened LineageBuilder

  // ----- where the pass stands -----

  /** All earlier snapshots have their lineages, and nothing later has. */
  ghost predicate Through(inp: Input, b: Builder, k: nat) {
    && (forall o | Known(inp, o) && o.snap < k :: o in b.lin)
    && (forall o | o in b.lin :: o.snap <= k)
  }

  ghost predicate DeathsThrough(inp: Input, g: Ledger, k: nat, j: nat) {
    forall o :: o in g.died <==>
      Known(inp, o) && Children(inp, o) == [] && (o.snap + 1 < k || (o.snap + 1 == k && o.rank < j))
  }

  ghost predicate SplitsThrough(inp: Input, g: Ledger, k: nat, j: nat) {
    forall o :: o in g.splits <==>
      Known(inp, o) && Splits(inp, o) && (o.snap + 1 < k || (o.snap + 1 == k && o.rank < j))
  }

  ghost predicate MergesThrough(inp: Input, g: Ledger, k: nat, j: nat) {
    forall o :: o in g.merges <==>
      Known(inp, o) && Merges(inp, o) && (o.snap < k || (o.snap == k && o.rank < j))
  }

  /** What has a lineage in the current snapshot has accepted parents. */
  ghost predicate OnlyChildren(inp: Input, b: Builder, k: nat) {
    forall c | c in b.lin && c.snap == k :: Parents(inp, c) != []
  }

  /** The invariant, the position, and what happened since the snapshot was begun. */
  ghost predicate Standing(inp: Input, b0: Builder, b: Builder, g: Ledger, k: nat) {
    Invariant(inp, b, g) && Through(inp, b, k) && BuilderGrows(b0, b)
  }

  // ----- links between adjacent snapshots -----

  function Lookup(m: map<ObsId, seq<ObsId>>, o: ObsId): seq<ObsId> {
    if o in m then m[o] else []
  }

  datatype Candidate = Candidate(parent: ObsId, child: ObsId, gap: nat, score: real, accepted: bool)

  function AdjacentCandidate(inp: Input, p: ObsId, c: ObsId): Candidate
    requires Known(inp, p) && Known(inp, c)
  {
    Candidate(p, c, 0, Score(inp.config, Members(inp, p), Members(inp, c)), Accepted(inp, p, c))
  }

  ghost predicate AdjacentTrue(inp: Input, candidates: seq<Candidate>) {
    forall x | x in candidates ::
      Known(inp, x.parent) && Known(inp, x.child) && x.child.snap == x.parent.snap + 1
        && x == AdjacentCandidate(inp, x.parent, x.child)
  }

  ghost predicate LinksOk(inp: Input, byParent: map<ObsId, seq<ObsId>>, byChild: map<ObsId, seq<ObsId>>) {
    && (forall p | Known(inp, p) :: Lookup(byParent, p) == Children(inp, p))
    && (forall c | Known(inp, c) :: Lookup(byChild, c) == Parents(inp, c))
  }

  /** Links and candidates of the pairs before position (k, j, i) of the triple loop. */
  predicate Earlier(p: ObsId, c: ObsId, k: nat, j: nat, i: nat) {
    c.snap < k || (c.snap == k && (p.rank < j || (p.rank == j && c.rank < i)))
  }

  ghost predicate AllAdjacent(inp: Input, candidates: seq<Candidate>, k: nat, j: nat, i: nat) {
    forall p, c | Known(inp, p) && Known(inp, c) && c.snap == p.snap + 1 && Earlier(p, c, k, j, i) ::
      AdjacentCandidate(inp, p, c) in candidates
  }

  /** The children of `p` among the pairs already scored. */
  ghost predicate ParentsSide(inp: Input, byParent: map<ObsId, seq<ObsId>>, k: nat, j: nat, i: nat) {
    forall p | Known(inp, p) ::
      if p.snap + 1 < k || (p.snap + 1 == k && p.rank < j) then Lookup(byParent, p) == Children(inp, p)
      else if p.snap + 1 == k && p.rank == j && k < |inp.snaps| && i <= |inp.snaps[k]|
      then Lookup(byParent, p) + ChildrenFrom(inp, p, i) == Children(inp, p)
      else Lookup(byParent, p) == []
  }

  ghost predicate ChildrenSide(inp: Input, byChild: map<ObsId, seq<ObsId>>, k: nat, j: nat, i: nat) {
    forall c | Known(inp, c) :: ChildSide(inp, byChild, k, j, i, c)
  }

  ghost predicate ChildSide(inp: Input, byChild: map<ObsId, seq<ObsId>>, k: nat, j: nat, i: nat, c: ObsId) {
      if c.snap < k then Lookup(byChild, c) == Parents(inp, c)
      else if c.snap == k && 0 < k <= |inp.snaps| then
        var done := if c.rank < i then j + 1 else j;
        done <= |inp.snaps[k - 1]| ==> Lookup(byChild, c) + ParentsFrom(inp, c, done) == Parents(inp, c)
      else Lookup(byChild, c) == []
  }

  lemma ParentsStep(inp: Input, m: map<ObsId, seq<ObsId>>, k: nat, j: nat, i: nat)
    requires 0 < k < |inp.snaps| && j < |inp.snaps[k - 1]| && i < |inp.snaps[k]|
    requires ParentsSide(inp, m, k, j, i)
    ensures var p, c := ObsId(k - 1, j), ObsId(k, i);
            ParentsSide(inp, if Accepted(inp, p, c) then m[p := Lookup(m, p) + [c]] else m, k, j, i + 1)
  {
    var p, c := ObsId(k - 1, j), ObsId(k, i);
    hide Accepted, Children;
    assert Known(inp, p) && Lookup(m, p) + ChildrenFrom(inp, p, i) == Children(inp, p);
    if Accepted(inp, p, c) {
      assert Lookup(m, p) + ([c] + ChildrenFrom(inp, p, i + 1)) == (Lookup(m, p) + [c]) + ChildrenFrom(inp, p, i + 1);
    } else {
      assert [] + ChildrenFrom(inp, p, i + 1) == ChildrenFrom(inp, p, i);
    }
  }

  lemma ParentsRow(inp: Input, m: map<ObsId, seq<ObsId>>, k: nat, j: nat)
    requires 0 < k < |inp.snaps| && j < |inp.snaps[k - 1]| && ParentsSide(inp, m, k, j, |inp.snaps[k]|)
    ensures ParentsSide(inp, m, k, j + 1, 0)
  {
    forall p | Known(inp, p) && p.snap + 1 == k && p.rank == j ensures Lookup(m, p) == Children(inp, p) {
      assert Lookup(m, p) + [] == Lookup(m, p);
    }
    forall p | Known(inp, p) && p.snap + 1 == k ensures [] + ChildrenFrom(inp, p, 0) == Children(inp, p) {}
    hide Children, ChildrenFrom;
  }

  lemma ParentsTable(inp: Input, m: map<ObsId, seq<ObsId>>, k: nat)
    requires 0 < k < |inp.snaps| && ParentsSide(inp, m, k, |inp.snaps[k - 1]|, 0)
    ensures ParentsSide(inp, m, k + 1, 0, 0)
  {
    forall p | Known(inp, p) && p.snap == k && k + 1 < |inp.snaps|
      ensures [] + ChildrenFrom(inp, p, 0) == Children(inp, p)
    {
    }
    hide Children, ChildrenFrom;
  }

  lemma ChildrenStep(inp: Input, m: map<ObsId, seq<ObsId>>, k: nat, j: nat, i: nat)
    requires 0 < k < |inp.snaps| && j < |inp.snaps[k - 1]| && i < |inp.snaps[k]|
    requires ChildrenSide(inp, m, k, j, i)
    ensures var p, c := ObsId(k - 1, j), ObsId(k, i);
            ChildrenSide(inp, if Accepted(inp, p, c) then m[c := Lookup(m, c) + [p]] else m, k, j, i + 1)
  {
    var p, c := ObsId(k - 1, j), ObsId(k, i);
    var m' := if Accepted(inp, p, c) then m[c := Lookup(m, c) + [p]] else m;
    hide Accepted, Parents;
    forall x | Known(inp, x) ensures ChildSide(inp, m', k, j, i + 1, x) {
      assert ChildSide(inp, m, k, j, i, x);
      if x == c {
        ChildStep(inp, m, k, j, i);
      } else {
        assert Lookup(m', x) == Lookup(m, x);
      }
    }
  }

  lemma ChildStep(inp: Input, m: map<ObsId, seq<ObsId>>, k: nat, j: nat, i: nat)
    requires 0 < k < |inp.snaps| && j < |inp.snaps[k - 1]| && i < |inp.snaps[k]|
    requires ChildSide(inp, m, k, j, i, ObsId(k, i))
    ensures var p, c := ObsId(k - 1, j), ObsId(k, i);
            ChildSide(inp, if Accepted(inp, p, c) then m[c := Lookup(m, c) + [p]] else m, k, j, i + 1, c)
  {
    var p, c := ObsId(k - 1, j), ObsId(k, i);
    hide Accepted, Parents;
    assert Lookup(m, c) + ParentsFrom(inp, c, j) == Parents(inp, c);
    if Accepted(inp, p, c) {
      assert Lookup(m, c) + ([p] + ParentsFrom(inp, c, j + 1)) == (Lookup(m, c) + [p]) + ParentsFrom(inp, c, j + 1);
    } else {
      assert [] + ParentsFrom(inp, c, j + 1) == ParentsFrom(inp, c, j);
    }
  }

  lemma ChildrenRow(inp: Input, m: map<ObsId, seq<ObsId>>, k: nat, j: nat)
    requires 0 < k < |inp.snaps| && j < |inp.snaps[k - 1]| && ChildrenSide(inp, m, k, j, |inp.snaps[k]|)
    ensures ChildrenSide(inp, m, k, j + 1, 0)
  {
    hide Parents, ParentsFrom;
  }

  lemma ChildrenTable(inp: Input, m: map<ObsId, seq<ObsId>>, k: nat)
    requires 0 < k < |inp.snaps| && ChildrenSide(inp, m, k, |inp.snaps[k - 1]|, 0)
    ensures ChildrenSide(inp, m, k + 1, 0, 0)
  {
    forall c | Known(inp, c) && c.snap == k ensures Lookup(m, c) == Parents(inp, c) {
      assert ChildSide(inp, m, k, |inp.snaps[k - 1]|, 0, c);
      assert Lookup(m, c) + ParentsFrom(inp, c, |inp.snaps[k - 1]|) == Parents(inp, c);
      assert Lookup(m, c) + [] == Lookup(m, c);
    }
    forall c | Known(inp, c) && c.snap == k + 1 ensures [] + ParentsFrom(inp, c, 0) == Parents(inp, c) {}
    hide Parents, ParentsFrom;
  }

  lemma AllLinked(inp: Input, byParent: map<ObsId, seq<ObsId>>, byChild: map<ObsId, seq<ObsId>>, k: nat)
    requires |inp.snaps| <= k && (k > 1 || k == 1) && ParentsSide(inp, byParent, k, 0, 0)
        && ChildrenSide(inp, byChild, k, 0, 0)
    ensures LinksOk(inp, byParent, byChild)
  {
  }

  /** Scores every pair of adjacent observations; the accepted ones become links, kept by
      parent and by child. */
  method AdjacentLinks(inp: Input)
    returns (byParent: map<ObsId, seq<ObsId>>, byChild: map<ObsId, seq<ObsId>>, candidates: seq<Candidate>)
    ensures LinksOk(inp, byParent, byChild)
    ensures AdjacentTrue(inp, candidates) && AllAdjacent(inp, candidates, |inp.snaps|, 0, 0)
  {
    byParent, byChild, candidates := map[], map[], [];
    FirstTables(inp);
    var k := 1;
    while k < |inp.snaps|
      invariant 1 <= k && (k <= |inp.snaps| || k == 1)
      invariant ParentsSide(inp, byParent, k, 0, 0) && ChildrenSide(inp, byChild, k, 0, 0)
      invariant AdjacentTrue(inp, candidates) && AllAdjacent(inp, candidates, k, 0, 0)
    {
      byParent, byChild, candidates := LinkSnapshot(inp, k, byParent, byChild, candidates);
      k := k + 1;
    }
    AllLinked(inp, byParent, byChild, k);
    AdjacentToTheEnd(inp, candidates, k);
  }

  lemma AdjacentToTheEnd(inp: Input, candidates: seq<Candidate>, k: nat)
    requires |inp.snaps| <= k && AllAdjacent(inp, candidates, k, 0, 0)
    ensures AllAdjacent(inp, candidates, |inp.snaps|, 0, 0)
  {
    hide AdjacentCandidate;
  }

  lemma FirstTables(inp: Input)
    ensures ParentsSide(inp, map[], 1, 0, 0) && ChildrenSide(inp, map[], 1, 0, 0)
  {
    forall p | Known(inp, p) && p.snap == 0 && 1 < |inp.snaps|
      ensures [] + ChildrenFrom(inp, p, 0) == Children(inp, p)
    {
    }
    forall c | Known(inp, c) && c.snap == 1 ensures [] + ParentsFrom(inp, c, 0) == Parents(inp, c) {}
    forall c | Known(inp, c) && c.snap == 0 ensures Parents(inp, c) == [] {}
    hide Children, ChildrenFrom, Parents, ParentsFrom;
  }

  method LinkSnapshot(inp: Input, k: nat, byParent0: map<ObsId, seq<ObsId>>, byChild0: map<ObsId, seq<ObsId>>,
        candidates0: seq<Candidate>)
    returns (byParent: map<ObsId, seq<ObsId>>, byChild: map<ObsId, seq<ObsId>>, candidates: seq<Candidate>)
    requires 0 < k < |inp.snaps|
    requires ParentsSide(inp, byParent0, k, 0, 0) && ChildrenSide(inp, byChild0, k, 0, 0)
    requires AdjacentTrue(inp, candidates0) && AllAdjacent(inp, candidates0, k, 0, 0)
    ensures ParentsSide(inp, byParent, k + 1, 0, 0) && ChildrenSide(inp, byChild, k + 1, 0, 0)
    ensures AdjacentTrue(inp, candidates) && AllAdjacent(inp, candidates, k + 1, 0, 0)
  {
    hide ParentsSide, ChildrenSide, AdjacentTrue, AllAdjacent;
    byParent, byChild, candidates := byParent0, byChild0, candidates0;
    for j := 0 to |inp.snaps[k - 1]|
      invariant ParentsSide(inp, byParent, k, j, 0) && ChildrenSide(inp, byChild, k, j, 0)
      invariant AdjacentTrue(inp, candidates) && AllAdjacent(inp, candidates, k, j, 0)
    {
      byParent, byChild, candidates := LinkParent(inp, k, j, byParent, byChild, candidates);
    }
    ParentsTable(inp, byParent, k);
    ChildrenTable(inp, byChild, k);
    AdjacentNext(inp, candidates, k);
  }

  lemma AdjacentNext(inp: Input, candidates: seq<Candidate>, k: nat)
    requires 0 < k < |inp.snaps| && AllAdjacent(inp, candidates, k, |inp.snaps[k - 1]|, 0)
    ensures AllAdjacent(inp, candidates, k + 1, 0, 0)
  {
    hide AdjacentCandidate;
  }

  method LinkParent(inp: Input, k: nat, j: nat, byParent0: map<ObsId, seq<ObsId>>, byChild0: map<ObsId, seq<ObsId>>,
        candidates0: seq<Candidate>)
    returns (byParent: map<ObsId, seq<ObsId>>, byChild: map<ObsId, seq<ObsId>>, candidates: seq<Candidate>)
    requires 0 < k < |inp.snaps| && j < |inp.snaps[k - 1]|
    requires ParentsSide(inp, byParent0, k, j, 0) && ChildrenSide(inp, byChild0, k, j, 0)
    requires AdjacentTrue(inp, candidates0) && AllAdjacent(inp, candidates0, k, j, 0)
    ensures ParentsSide(inp, byParent, k, j + 1, 0) && ChildrenSide(inp, byChild, k, j + 1, 0)
    ensures AdjacentTrue(inp, candidates) && AllAdjacent(inp, candidates, k, j + 1, 0)
  {
    hide ParentsSide, ChildrenSide, AdjacentTrue, AllAdjacent;
    byParent, byChild, candidates := byParent0, byChild0, candidates0;
    var p := ObsId(k - 1, j);
    for i := 0 to |inp.snaps[k]|
      invariant ParentsSide(inp, byParent, k, j, i) && ChildrenSide(inp, byChild, k, j, i)
      invariant AdjacentTrue(inp, candidates) && AllAdjacent(inp, candidates, k, j, i)
    {
      var c := ObsId(k, i);
      ParentsStep(inp, byParent, k, j, i);
      ChildrenStep(inp, byChild, k, j, i);
      AdjacentStep(inp, candidates, k, j, i);
      var candidate := AdjacentCandidate(inp, p, c);
      candidates := candidates + [candidate];
      if candidate.accepted {
        byParent := byParent[p := Lookup(byParent, p) + [c]];
        byChild := byChild[c := Lookup(byChild, c) + [p]];
      }
    }
    ParentsRow(inp, byParent, k, j);
    ChildrenRow(inp, byChild, k, j);
    AdjacentRow(inp, candidates, k, j);
  }

  lemma AdjacentStep(inp: Input, candidates: seq<Candidate>, k: nat, j: nat, i: nat)
    requires 0 < k < |inp.snaps| && j < |inp.snaps[k - 1]| && i < |inp.snaps[k]|
    requires AdjacentTrue(inp, candidates) && AllAdjacent(inp, candidates, k, j, i)
    ensures var more := candidates + [AdjacentCandidate(inp, ObsId(k - 1, j), ObsId(k, i))];
            AdjacentTrue(inp, more) && AllAdjacent(inp, more, k, j, i + 1)
  {
    var more := candidates + [AdjacentCandidate(inp, ObsId(k - 1, j), ObsId(k, i))];
    assert more[|candidates|] in more;
    forall x | x in candidates
      ensures x in more
    {
      var n :| 0 <= n < |candidates| && candidates[n] == x;
      assert more[n] == x;
    }
    forall p, c | Known(inp, p) && Known(inp, c) && c.snap == p.snap + 1 && Earlier(p, c, k, j, i + 1)
      ensures AdjacentCandidate(inp, p, c) in more
    {
      if !Earlier(p, c, k, j, i) { assert p == ObsId(k - 1, j) && c == ObsId(k, i); }
    }
  }

  lemma AdjacentRow(inp: Input, candidates: seq<Candidate>, k: nat, j: nat)
    requires 0 < k < |inp.snaps| && j < |inp.snaps[k - 1]| && AllAdjacent(inp, candidates, k, j, |inp.snaps[k]|)
    ensures AllAdjacent(inp, candidates, k, j + 1, 0)
  {
    hide AdjacentCandidate;
  }

  // ----- first loop: deaths -----

  /** Nothing that comes after an observation of the previous snapshot is known yet. */
  lemma NothingAfter(inp: Input, b: Builder, p: ObsId)
    requires forall o | o in b.lin :: o.snap <= p.snap
    ensures forall c | c in b.lin :: !Successive(inp, p, c)
  {
    hide Continues, Resurges;
    forall c | c in b.lin ensures !Successive(inp, p, c) {
      if Successive(inp, p, c) { Advances(inp, p, c); }
    }
  }

  lemma Advances(inp: Input, p: ObsId, c: ObsId)
    requires Successive(inp, p, c)
    ensures p.snap < c.snap
  {
    SuccessiveAdvances(inp, p, c);
  }

  /** The builder after the first `j` observations of the snapshot before `k` were asked whether they died. */
  function AfterDeaths(inp: Input, b: Builder, k: nat, j: nat): Builder
    requires k > 0
  {
    if j == 0 then b
    else
      var r, p := AfterDeaths(inp, b, k, j - 1), ObsId(k - 1, j - 1);
      if Children(inp, p) == [] && p in r.lin then Die(r, p) else r
  }

  method Deaths(inp: Input, k: nat, byParent: map<ObsId, seq<ObsId>>, b0: Builder, ghost g0: Ledger)
    returns (b: Builder, ghost g: Ledger)
    requires 0 < k < |inp.snaps| && forall p | Known(inp, p) :: Lookup(byParent, p) == Children(inp, p)
    requires Standing(inp, b0, b0, g0, k) && (forall o | o in b0.lin :: o.snap < k) && DeathsThrough(inp, g0, k, 0)
    ensures b == AfterDeaths(inp, b0, k, |inp.snaps[k - 1]|)
    ensures Standing(inp, b0, b, g, k) && b.lin == b0.lin
    ensures DeathsThrough(inp, g, k + 1, 0) && g.splits == g0.splits && g.merges == g0.merges
  {
    hide Invariant, BuilderGrows, Children, DeathsThrough, Lookup;
    b, g := b0, g0;
    for j := 0 to |inp.snaps[k - 1]|
      invariant b == AfterDeaths(inp, b0, k, j)
      invariant Standing(inp, b0, b, g, k) && b.lin == b0.lin
      invariant DeathsThrough(inp, g, k, j) && g.splits == g0.splits && g.merges == g0.merges
    {
      var p := ObsId(k - 1, j);
      if Lookup(byParent, p) == [] {
        NothingAfter(inp, b, p);
        NotYetDied(inp, g, k, j);
        DieKeeps(inp, b, g, p);
        DieGrows(b, p);
        BuilderGrowsTransitive(b0, b, Die(b, p));
        b, g := Die(b, p), g.(died := g.died + {p});
        DiedOne(inp, g, k, j);
      } else {
        DiedNone(inp, g, k, j);
      }
    }
    DeathsNext(inp, g, k);
  }

  lemma DieGrows(b: Builder, p: ObsId)
    requires p in b.lin
    ensures BuilderGrows(b, Die(b, p)) && Die(b, p).lin == b.lin
  {
  }

  lemma NotYetDied(inp: Input, g: Ledger, k: nat, j: nat)
    requires DeathsThrough(inp, g, k, j) && k > 0
    ensures ObsId(k - 1, j) !in g.died
  {
    hide Children;
  }

  lemma DiedOne(inp: Input, g: Ledger, k: nat, j: nat)
    requires 0 < k && Known(inp, ObsId(k - 1, j)) && Children(inp, ObsId(k - 1, j)) == [] && ObsId(k - 1, j) in g.died
    requires DeathsThrough(inp, g.(died := g.died - {ObsId(k - 1, j)}), k, j)
    ensures DeathsThrough(inp, g, k, j + 1)
  {
    hide Children;
  }

  lemma DiedNone(inp: Input, g: Ledger, k: nat, j: nat)
    requires 0 < k && Children(inp, ObsId(k - 1, j)) != [] && DeathsThrough(inp, g, k, j)
    ensures DeathsThrough(inp, g, k, j + 1)
  {
    hide Children;
  }

  lemma DeathsNext(inp: Input, g: Ledger, k: nat)
    requires 0 < k < |inp.snaps| && DeathsThrough(inp, g, k, |inp.snaps[k - 1]|)
    ensures DeathsThrough(inp, g, k + 1, 0)
  {
    hide Children;
  }

  // ----- second loop: continuations -----

  /** Of the first `j` observations, exactly those that continue a parent have a lineage. */
  ghost predicate ContinuedThrough(inp: Input, b: Builder, k: nat, j: nat) {
    forall c | Known(inp, c) && c.snap == k :: c in b.lin <==> c.rank < j && !Starts(inp, c)
  }

  /** The builder after the first `j` observations of snapshot `k` were asked whether they continue one. */
  function AfterContinuations(inp: Input, b: Builder, k: nat, j: nat): Builder {
    if j == 0 then b
    else
      var r, c := AfterContinuations(inp, b, k, j - 1), ObsId(k, j - 1);
      if |Parents(inp, c)| == 1 then AfterContinuation(inp, r, Parents(inp, c)[0], c) else r
  }

  function AfterContinuation(inp: Input, b: Builder, p: ObsId, c: ObsId): Builder {
    if |Children(inp, p)| == 1 && p in b.lin && b.lin[p] in b.ident
    then GoOn(b, b.lin[p], c, ContinuationOf(b.lin, p, c))
    else b
  }

  method Continuations(inp: Input, k: nat, byParent: map<ObsId, seq<ObsId>>, byChild: map<ObsId, seq<ObsId>>,
        b0: Builder, ghost g: Ledger)
    returns (b: Builder)
    requires 0 < k < |inp.snaps| && LinksOk(inp, byParent, byChild)
    requires Standing(inp, b0, b0, g, k) && forall o | o in b0.lin :: o.snap < k
    ensures b == AfterContinuations(inp, b0, k, |inp.snaps[k]|)
    ensures Standing(inp, b0, b, g, k) && ContinuedThrough(inp, b, k, |inp.snaps[k]|)
  {
    hide Invariant, BuilderGrows, Children, Parents, Starts, LinksOk, Lookup, Successive;
    hide AfterContinuations, AfterContinuation;
    ContinuationSteps(inp, b0, b0, k, 0);
    b := b0;
    for j := 0 to |inp.snaps[k]|
      invariant b == AfterContinuations(inp, b0, k, j)
      invariant Standing(inp, b0, b, g, k) && ContinuedThrough(inp, b, k, j)
    {
      var c := ObsId(k, j);
      LinksAt(inp, byParent, byChild, c);
      ContinuationSteps(inp, b0, b, k, j);
      ghost var continued := false;
      if |Lookup(byChild, c)| == 1 {
        var p := Lookup(byChild, c)[0];
        OnlyParent(inp, p, c);
        LinksAt(inp, byParent, byChild, p);
        if |Lookup(byParent, p)| == 1 {
          continued := true;
          NothingElse(inp, b, p, c);
          var l, e := b.lin[p], ContinuationOf(b.lin, p, c);
          assert MayGoOn(inp, b, l, p, c, e) by { Continued(inp, b, g, p, c); }
          GoOnKeeps(inp, b, g, l, p, c, e);
          GoOnGrows(b, l, c, e);
          GoOnShape(b, l, c, e);
          BuilderGrowsTransitive(b0, b, GoOn(b, l, c, e));
          b := GoOn(b, l, c, e);
        }
      }
      assert continued <==> !Starts(inp, c) by { StartsUnless(inp, c, continued); }
    }
  }

  lemma ContinuationSteps(inp: Input, b0: Builder, b: Builder, k: nat, j: nat)
    ensures AfterContinuations(inp, b0, k, 0) == b0
    ensures var c := ObsId(k, j);
      b == AfterContinuations(inp, b0, k, j) ==>
        if |Parents(inp, c)| != 1 then AfterContinuations(inp, b0, k, j + 1) == b
        else var p := Parents(inp, c)[0];
          if |Children(inp, p)| != 1 then AfterContinuations(inp, b0, k, j + 1) == b
          else p in b.lin && b.lin[p] in b.ident
               ==> AfterContinuations(inp, b0, k, j + 1) == GoOn(b, b.lin[p], c, ContinuationOf(b.lin, p, c))
  {
    hide Parents, Children, GoOn, ContinuationOf;
  }

  lemma LinksAt(inp: Input, byParent: map<ObsId, seq<ObsId>>, byChild: map<ObsId, seq<ObsId>>, o: ObsId)
    requires LinksOk(inp, byParent, byChild) && Known(inp, o)
    ensures Lookup(byParent, o) == Children(inp, o) && Lookup(byChild, o) == Parents(inp, o)
  {
    hide Children, Parents, Lookup;
  }

  lemma OnlyParent(inp: Input, p: ObsId, c: ObsId)
    requires |Parents(inp, c)| == 1 && Parents(inp, c)[0] == p
    ensures Known(inp, p) && Known(inp, c) && p.snap + 1 == c.snap && c in Children(inp, p)
    ensures |Children(inp, p)| == 1 <==> Continues(inp, p, c)
  {
    ParentsExact(inp, c);
    ChildrenExact(inp, p);
    assert p in Parents(inp, c);
    assert c in Children(inp, p);
    hide Children, Parents, Accepted;
  }

  lemma StartsUnless(inp: Input, c: ObsId, continued: bool)
    requires continued <==> |Parents(inp, c)| == 1 && |Children(inp, Parents(inp, c)[0])| == 1
    ensures continued <==> !Starts(inp, c)
  {
    if |Parents(inp, c)| == 1 { OnlyParent(inp, Parents(inp, c)[0], c); }
    hide Children, Parents;
  }

  /** The only successor of a continued observation is the one continuing it. */
  lemma NothingElse(inp: Input, b: Builder, p: ObsId, c: ObsId)
    requires Continues(inp, p, c) && c !in b.lin
    ensures forall x | x in b.lin :: !Successive(inp, p, x)
  {
    hide Children, Parents;
  }

  lemma Continued(inp: Input, b: Builder, g: Ledger, p: ObsId, c: ObsId)
    requires Invariant(inp, b, g) && p in b.lin && Known(inp, c) && c !in b.lin && Continues(inp, p, c)
    requires forall x | x in b.lin :: x.snap <= c.snap
    requires forall x | x in b.lin :: !Successive(inp, p, x)
    ensures b.lin[p] in b.ident && MayGoOn(inp, b, b.lin[p], p, c, ContinuationOf(b.lin, p, c))
  {
    hide Successive, Continues, Identities, Known;
    Parts(inp, b, g);
    IsLast(inp, b, p);
  }

  // ----- third loop: splits -----

  /** After the splits of the first `j` parents: their children have lineages too. */
  ghost predicate SplitInto(inp: Input, b: Builder, k: nat, j: nat) {
    && (forall c | Known(inp, c) && c.snap == k && !Starts(inp, c) :: c in b.lin)
    && (forall p, c | Known(inp, p) && p.snap + 1 == k && p.rank < j && Splits(inp, p) && c in Children(inp, p) ::
       c in b.lin)
  }

  /** The builder after the first `i` of these children have got a lineage, if they had none. */
  function AfterForks(b: Builder, children: seq<ObsId>, i: nat): Builder
    requires i <= |children|
  {
    if i == 0 then b
    else
      var r := AfterForks(b, children, i - 1);
      if children[i - 1] in r.lin then r else NewLineage(r, children[i - 1])
  }

  /** The builder after the first `j` observations of the snapshot before `k` were asked whether they split. */
  function AfterSplits(inp: Input, b: Builder, k: nat, j: nat): Builder
    requires k > 0
  {
    if j == 0 then b
    else
      var r, p := AfterSplits(inp, b, k, j - 1), ObsId(k - 1, j - 1);
      if |Children(inp, p)| > 1 then AfterSplit(inp, r, p) else r
  }

  function AfterSplit(inp: Input, b: Builder, p: ObsId): Builder {
    var r := AfterForks(b, Children(inp, p), |Children(inp, p)|);
    if p in r.lin && forall c | c in Children(inp, p) :: c in r.lin then RegisterSplit(inp, r, p) else r
  }

  method SplitPhase(inp: Input, k: nat, byParent: map<ObsId, seq<ObsId>>, b0: Builder, ghost g0: Ledger)
    returns (b: Builder, ghost g: Ledger)
    requires 0 < k < |inp.snaps| && forall p | Known(inp, p) :: Lookup(byParent, p) == Children(inp, p)
    requires Standing(inp, b0, b0, g0, k) && SplitInto(inp, b0, k, 0) && OnlyChildren(inp, b0, k)
        && SplitsThrough(inp, g0, k, 0)
    ensures b == AfterSplits(inp, b0, k, |inp.snaps[k - 1]|)
    ensures Standing(inp, b0, b, g, k) && SplitInto(inp, b, k, |inp.snaps[k - 1]|) && OnlyChildren(inp, b, k)
    ensures SplitsThrough(inp, g, k + 1, 0) && g.died == g0.died && g.merges == g0.merges
  {
    hide Invariant, BuilderGrows, Children, Parents, Starts, SplitsThrough, Lookup, SplitInto, OnlyChildren, Successive;
    hide AfterSplits, AfterForks, RegisterSplit;
    SplitSteps(inp, b0, b0, k, 0, b0);
    b, g := b0, g0;
    for j := 0 to |inp.snaps[k - 1]|
      invariant b == AfterSplits(inp, b0, k, j)
      invariant Standing(inp, b0, b, g, k) && SplitInto(inp, b, k, j) && OnlyChildren(inp, b, k)
      invariant SplitsThrough(inp, g, k, j) && g.died == g0.died && g.merges == g0.merges
    {
      var p := ObsId(k - 1, j);
      var children := Lookup(byParent, p);
      if |children| > 1 {
        BuilderGrowsReflexive(b);
        var forked := Fork(inp, k, p, children, b, g);
        ForkedInto(inp, b, forked, k, j);
        NotYetSplit(inp, g, k, j);
        SplitKeeps(inp, forked, g, p);
        RegisterSplitShape(inp, forked, p);
        BuilderGrowsTransitive(b0, b, forked);
        BuilderGrowsTransitive(b0, forked, RegisterSplit(inp, forked, p));
        SplitIntoSame(inp, forked, RegisterSplit(inp, forked, p), k, j + 1);
        SplitSteps(inp, b0, b, k, j, forked);
        b, g := RegisterSplit(inp, forked, p), g.(splits := g.splits + {p});
        SplitOne(inp, g, k, j);
      } else {
        SplitSteps(inp, b0, b, k, j, b);
        SplitNone(inp, b, g, k, j);
      }
    }
    SplitsNext(inp, g, k);
  }

  lemma SplitSteps(inp: Input, b0: Builder, b: Builder, k: nat, j: nat, forked: Builder)
    requires k > 0
    ensures AfterSplits(inp, b0, k, 0) == b0
    ensures var p := ObsId(k - 1, j);
      b == AfterSplits(inp, b0, k, j) ==>
        if |Children(inp, p)| <= 1 then AfterSplits(inp, b0, k, j + 1) == b
        else forked == AfterForks(b, Children(inp, p), |Children(inp, p)|)
             && p in forked.lin && (forall c | c in Children(inp, p) :: c in forked.lin)
             ==> AfterSplits(inp, b0, k, j + 1) == RegisterSplit(inp, forked, p)
  {
    hide Children, AfterForks;
  }

  /** The inner loop: children without a lineage get a new one. */
  method Fork(inp: Input, k: nat, p: ObsId, children: seq<ObsId>, b0: Builder, ghost g: Ledger) returns (b: Builder)
    requires 0 < k < |inp.snaps| && Known(inp, p) && p.snap + 1 == k && children == Children(inp, p) && |children| > 1
    requires Standing(inp, b0, b0, g, k) && OnlyChildren(inp, b0, k)
    ensures b == AfterForks(b0, children, |children|)
    ensures Standing(inp, b0, b, g, k) && OnlyChildren(inp, b, k)
    ensures forall c | c in children :: c in b.lin
  {
    hide Invariant, BuilderGrows, Children, Parents, Starts, OnlyChildren, AfterForks;
    b := b0;
    ForkSteps(b0, b0, children, 0);
    for i := 0 to |children|
      invariant b == AfterForks(b0, children, i)
      invariant Standing(inp, b0, b, g, k) && OnlyChildren(inp, b, k)
      invariant forall c | c in children[..i] :: c in b.lin
    {
      var c := children[i];
      ForkSteps(b0, b, children, i);
      assert c in children;
      SplitChild(inp, p, c);
      if c !in b.lin {
        ForkKeeps(inp, b, g, c);
        ForkGrows(inp, b, g, c);
        BuilderGrowsTransitive(b0, b, NewLineage(b, c));
        OnlyChildrenMore(inp, b, NewLineage(b, c), c, k);
        b := NewLineage(b, c);
      }
      assert children[..i + 1] == children[..i] + [c];
    }
    assert children[..|children|] == children;
  }

  lemma ForkSteps(b0: Builder, b: Builder, children: seq<ObsId>, i: nat)
    ensures AfterForks(b0, children, 0) == b0
    ensures i < |children| && b == AfterForks(b0, children, i) ==>
      AfterForks(b0, children, i + 1) == if children[i] in b.lin then b else NewLineage(b, children[i])
  {
    hide NewLineage;
  }

  lemma SplitChild(inp: Input, p: ObsId, c: ObsId)
    requires Splits(inp, p) && c in Children(inp, p)
    ensures Known(inp, c) && c.snap == p.snap + 1 && Parents(inp, c) != [] && Starts(inp, c)
  {
    ChildrenExact(inp, p);
    ParentsExact(inp, c);
    assert p in Parents(inp, c);
    forall q ensures !Continues(inp, q, c) {
      FatesExclude(inp, p);
      OnlyContinued(inp, p, q, c);
    }
  }

  lemma OnlyContinued(inp: Input, p: ObsId, q: ObsId, c: ObsId)
    requires p in Parents(inp, c)
    ensures Continues(inp, q, c) ==> p == q
  {
  }

  lemma ForkGrows(inp: Input, b: Builder, g: Ledger, c: ObsId)
    requires Invariant(inp, b, g) && c !in b.lin
    ensures BuilderGrows(b, NewLineage(b, c)) && NewLineage(b, c).lin == b.lin[c := b.next]
  {
    hide BuilderGrows, Identities;
    Parts(inp, b, g);
    NumberedOf(inp, b);
    NewLineageGrows(b, c);
  }

  lemma OnlyChildrenMore(inp: Input, b: Builder, b': Builder, c: ObsId, k: nat)
    requires OnlyChildren(inp, b, k) && b'.lin.Keys == b.lin.Keys + {c} && Parents(inp, c) != []
    ensures OnlyChildren(inp, b', k)
  {
    hide Parents;
    assert forall x | x in b'.lin :: x in b.lin || x == c;
  }

  lemma ForkedInto(inp: Input, b: Builder, b': Builder, k: nat, j: nat)
    requires SplitInto(inp, b, k, j) && BuilderGrows(b, b') && 0 < k
    requires forall c | c in Children(inp, ObsId(k - 1, j)) :: c in b'.lin
    ensures SplitInto(inp, b', k, j + 1)
  {
    hide Children, Starts, Splits;
  }

  lemma SplitIntoSame(inp: Input, b: Builder, b': Builder, k: nat, j: nat)
    requires SplitInto(inp, b, k, j) && b'.lin == b.lin
    ensures SplitInto(inp, b', k, j)
    ensures OnlyChildren(inp, b, k) ==> OnlyChildren(inp, b', k)
  {
    hide Children, Starts, Splits, Parents;
  }

  lemma RegisterSplitShape(inp: Input, b: Builder, p: ObsId)
    requires p in b.lin && forall c | c in Children(inp, p) :: c in b.lin
    ensures BuilderGrows(b, RegisterSplit(inp, b, p)) && RegisterSplit(inp, b, p).lin == b.lin
  {
    hide Children;
  }

  lemma NotYetSplit(inp: Input, g: Ledger, k: nat, j: nat)
    requires SplitsThrough(inp, g, k, j) && k > 0
    ensures ObsId(k - 1, j) !in g.splits
  {
    hide Splits;
  }

  lemma SplitOne(inp: Input, g: Ledger, k: nat, j: nat)
    requires 0 < k && Known(inp, ObsId(k - 1, j)) && Splits(inp, ObsId(k - 1, j)) && ObsId(k - 1, j) in g.splits
    requires SplitsThrough(inp, g.(splits := g.splits - {ObsId(k - 1, j)}), k, j)
    ensures SplitsThrough(inp, g, k, j + 1)
  {
    hide Splits;
  }

  lemma SplitNone(inp: Input, b: Builder, g: Ledger, k: nat, j: nat)
    requires 0 < k && !Splits(inp, ObsId(k - 1, j)) && SplitsThrough(inp, g, k, j) && SplitInto(inp, b, k, j)
    ensures SplitsThrough(inp, g, k, j + 1) && SplitInto(inp, b, k, j + 1)
  {
    hide Splits, Children, Starts;
  }

  lemma SplitsNext(inp: Input, g: Ledger, k: nat)
    requires 0 < k < |inp.snaps| && SplitsThrough(inp, g, k, |inp.snaps[k - 1]|)
    ensures SplitsThrough(inp, g, k + 1, 0)
  {
    forall o | Known(inp, o) && Splits(inp, o) ensures o.snap + 1 < |inp.snaps| {}
    hide Splits;
  }

  // ----- fourth loop: merges -----

  ghost predicate MergedInto(inp: Input, b: Builder, k: nat, j: nat) {
    forall c | Known(inp, c) && c.snap == k && c.rank < j && Merges(inp, c) :: c in b.lin
  }

  /** The builder after the first `j` observations of snapshot `k` were asked whether they merge. */
  function AfterMerges(inp: Input, b: Builder, k: nat, j: nat): Builder {
    if j == 0 then b
    else
      var r, c := AfterMerges(inp, b, k, j - 1), ObsId(k, j - 1);
      if |Parents(inp, c)| > 1 then AfterMerge(inp, r, c) else r
  }

  function AfterMerge(inp: Input, b: Builder, c: ObsId): Builder {
    var r := if c in b.lin then b else NewLineage(b, c);
    if c in r.lin && forall p | p in Parents(inp, c) :: p in r.lin then RegisterMerge(inp, r, c) else r
  }

  method MergePhase(inp: Input, k: nat, byChild: map<ObsId, seq<ObsId>>, b0: Builder, ghost g0: Ledger)
    returns (b: Builder, ghost g: Ledger)
    requires 0 < k < |inp.snaps| && forall c | Known(inp, c) :: Lookup(byChild, c) == Parents(inp, c)
    requires Standing(inp, b0, b0, g0, k) && OnlyChildren(inp, b0, k) && MergesThrough(inp, g0, k, 0)
    ensures b == AfterMerges(inp, b0, k, |inp.snaps[k]|)
    ensures Standing(inp, b0, b, g, k) && OnlyChildren(inp, b, k) && MergedInto(inp, b, k, |inp.snaps[k]|)
    ensures MergesThrough(inp, g, k + 1, 0) && g.died == g0.died && g.splits == g0.splits
  {
    hide Invariant, BuilderGrows, Children, Parents, Starts, MergesThrough, Lookup, MergedInto, OnlyChildren;
    hide AfterMerges, RegisterMerge;
    MergeSteps(inp, b0, b0, k, 0, b0);
    b, g := b0, g0;
    MergedNone(inp, b, k);
    for j := 0 to |inp.snaps[k]|
      invariant b == AfterMerges(inp, b0, k, j)
      invariant Standing(inp, b0, b, g, k) && MergedInto(inp, b, k, j) && OnlyChildren(inp, b, k)
      invariant MergesThrough(inp, g, k, j) && g.died == g0.died && g.splits == g0.splits
    {
      var c := ObsId(k, j);
      if |Lookup(byChild, c)| > 1 {
        MergeChild(inp, c);
        ghost var before := b;
        if c !in b.lin {
          ForkKeeps(inp, b, g, c);
          ForkGrows(inp, b, g, c);
          BuilderGrowsTransitive(b0, b, NewLineage(b, c));
          OnlyChildrenMore(inp, b, NewLineage(b, c), c, k);
          b := NewLineage(b, c);
        }
        assert forall x | x in before.lin :: x in b.lin;
        MergedOneMore(inp, before, b, k, j);
        NotYetMerged(inp, g, k, j);
        MergeKeeps(inp, b, g, c);
        RegisterMergeShape(inp, b, c);
        BuilderGrowsTransitive(b0, b, RegisterMerge(inp, b, c));
        MergedSame(inp, b, RegisterMerge(inp, b, c), k, j + 1);
        MergeSteps(inp, b0, before, k, j, b);
        b, g := RegisterMerge(inp, b, c), g.(merges := g.merges + {c});
        MergeOne(inp, g, k, j);
      } else {
        MergeSteps(inp, b0, b, k, j, b);
        MergeNone(inp, b, g, k, j);
      }
    }
    MergesNext(inp, g, k);
  }

  lemma MergeSteps(inp: Input, b0: Builder, b: Builder, k: nat, j: nat, grown: Builder)
    ensures AfterMerges(inp, b0, k, 0) == b0
    ensures var c := ObsId(k, j);
      b == AfterMerges(inp, b0, k, j) ==>
        if |Parents(inp, c)| <= 1 then AfterMerges(inp, b0, k, j + 1) == b
        else grown == (if c in b.lin then b else NewLineage(b, c))
             && c in grown.lin && (forall p | p in Parents(inp, c) :: p in grown.lin)
             ==> AfterMerges(inp, b0, k, j + 1) == RegisterMerge(inp, grown, c)
  {
    hide Parents, NewLineage;
  }

  lemma MergedNone(inp: Input, b: Builder, k: nat)
    ensures MergedInto(inp, b, k, 0)
  {
  }

  lemma MergeChild(inp: Input, c: ObsId)
    requires Merges(inp, c)
    ensures Starts(inp, c) && Parents(inp, c) != []
    ensures forall p | p in Parents(inp, c) :: Known(inp, p) && p.snap + 1 == c.snap
  {
    ParentsExact(inp, c);
  }

  lemma MergedOneMore(inp: Input, b: Builder, b': Builder, k: nat, j: nat)
    requires MergedInto(inp, b, k, j) && (forall x | x in b.lin :: x in b'.lin) && ObsId(k, j) in b'.lin
    ensures MergedInto(inp, b', k, j + 1)
  {
    hide Merges;
  }

  lemma MergedSame(inp: Input, b: Builder, b': Builder, k: nat, j: nat)
    requires MergedInto(inp, b, k, j) && OnlyChildren(inp, b, k) && b'.lin == b.lin
    ensures MergedInto(inp, b', k, j) && OnlyChildren(inp, b', k)
  {
    hide Merges, Parents;
  }

  lemma RegisterMergeShape(inp: Input, b: Builder, c: ObsId)
    requires c in b.lin && forall p | p in Parents(inp, c) :: p in b.lin
    ensures BuilderGrows(b, RegisterMerge(inp, b, c)) && RegisterMerge(inp, b, c).lin == b.lin
  {
    hide Parents;
  }

  lemma NotYetMerged(inp: Input, g: Ledger, k: nat, j: nat)
    requires MergesThrough(inp, g, k, j)
    ensures ObsId(k, j) !in g.merges
  {
    hide Merges;
  }

  lemma MergeOne(inp: Input, g: Ledger, k: nat, j: nat)
    requires Known(inp, ObsId(k, j)) && Merges(inp, ObsId(k, j)) && ObsId(k, j) in g.merges
    requires MergesThrough(inp, g.(merges := g.merges - {ObsId(k, j)}), k, j)
    ensures MergesThrough(inp, g, k, j + 1)
  {
    hide Merges;
  }

  lemma MergeNone(inp: Input, b: Builder, g: Ledger, k: nat, j: nat)
    requires !Merges(inp, ObsId(k, j)) && MergesThrough(inp, g, k, j) && MergedInto(inp, b, k, j)
    ensures MergesThrough(inp, g, k, j + 1) && MergedInto(inp, b, k, j + 1)
  {
    hide Merges;
  }

  lemma MergesNext(inp: Input, g: Ledger, k: nat)
    requires k < |inp.snaps| && MergesThrough(inp, g, k, |inp.snaps[k]|)
    ensures MergesThrough(inp, g, k + 1, 0)
  {
    hide Merges;
  }
}
