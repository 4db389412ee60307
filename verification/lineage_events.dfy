/** What the events, candidates and identities of the result say, in terms of the input and of the observations'
    lineages alone (analytics/lineage/tracker.py, `build_lineage` and `_score`). */
module LineageEvents {
  import opened Basics
  import opened LineageModel
  import opened LineageBuilder
  import opened LineageTracker
  import opened LineageBuild
  import opened LineageOutcome

  // ----- who and when -----

  /** Every observation of the list has the lineage in the same place. */
  ghost predicate Told(lin: map<ObsId, nat>, s: seq<ObsId>, lineages: seq<nat>) {
    |lineages| == |s| && forall i | 0 <= i < |s| :: s[i] in lin && lin[s[i]] == lineages[i]
  }

  ghost predicate InRankOrder(s: seq<ObsId>) {
    forall i, j | 0 <= i < j < |s| :: s[i].rank < s[j].rank
  }

  /** A child that continues its parent has its lineage. */
  lemma ContinuesLineage(inp: Input, b: Builder, p: ObsId, c: ObsId)
    requires Identities(inp, b) && p in b.lin && c in b.lin && Continues(inp, p, c)
    ensures b.lin[c] == b.lin[p]
  {
    hide Known, Identities, Continues;
    var i := OwnIdentity(inp, b, c);
    var s := b.ident[b.lin[c]];
    NotHead(inp, b, b.lin[c], p);
    IdentityChain(inp, b, b.lin[c]);
    ChainStep(inp, s, i);
    PredecessorIs(inp, s[i - 1], p, c);
    assert LinOf(b, b.lin[c], i - 1) by { Owned(inp, b, b.lin[c], i - 1); }
  }

  ghost predicate LinOf(b: Builder, l: nat, i: nat) {
    l in b.ident && i < |b.ident[l]| && b.ident[l][i] in b.lin && b.lin[b.ident[l][i]] == l
  }

  lemma Owned(inp: Input, b: Builder, l: nat, i: nat)
    requires Identities(inp, b) && l in b.ident && i < |b.ident[l]|
    ensures LinOf(b, l, i)
  {
    hide ChainsOk, NumbersAdvance, ObservationsOwned;
  }

  lemma NotHead(inp: Input, b: Builder, l: nat, p: ObsId)
    requires Identities(inp, b) && l in b.ident
    ensures b.ident[l] != [] && !Continues(inp, p, b.ident[l][0])
  {
    hide NumbersAdvance, ObservationsOwned, IdentitiesOwn, Chain, Continues;
    assert Starts(inp, b.ident[l][0]);
  }

  lemma PredecessorIs(inp: Input, q: ObsId, p: ObsId, c: ObsId)
    requires Successive(inp, q, c) && Continues(inp, p, c)
    ensures q == p
  {
    hide Children, Parents;
    if Continues(inp, q, c) {
      assert Parents(inp, c)[0] == q && Parents(inp, c)[0] == p;
    }
  }

  /** The lineages that an event names are those of its observations, and it happens in the snapshot of its children,
      or right after its parent if nothing follows; a resurgence within the gap, anything else without one. */
  lemma EventsTellLineages(inp: Input, b: Builder, g: Ledger, e: Event)
    requires Built(inp, b, g) && e in b.events
    ensures Told(b.lin, e.parents, e.parentLineages) && Told(b.lin, e.children, e.childLineages)
    ensures forall c | c in e.children :: c.snap == e.snap
    ensures forall p | p in e.parents ::
      if e.kind == Resurgence then p.snap + 2 <= e.snap <= p.snap + 1 + inp.config.maximumGap else e.snap == p.snap + 1
    ensures InRankOrder(e.parents) && InRankOrder(e.children)
    ensures e.kind in {Continuation, Resurgence} ==> e.parentLineages == e.childLineages
  {
    hide Built, Told, InRankOrder, Identities, DormantOk, TerminatedOk, EventsComplete, Balanced, DeathsBalanced;
    hide LedgerOk, NoDuplicates, DeathsThrough, SplitsThrough, MergesThrough, Parents, Children, Heads, Resurges;
    hide Follows, Continues;
    BuiltParts(inp, b, g);
    assert Explained(inp, b, g, e);
    hide EventsTrue;
    TellsOne(b.lin);
    match e.kind
    case Birth =>
    case Death =>
    case Continuation =>
      ContinuesLinks(inp, e.parents[0], e.children[0]);
      AcceptedKnown(inp, e.parents[0], e.children[0]);
      ContinuesLineage(inp, b, e.parents[0], e.children[0]);
    case Resurgence =>
      ResurgenceGap(inp, e.parents[0], e.children[0]);
      FollowsLineage(inp, b, e.parents[0], e.children[0]);
    case Split =>
      TellsAll(b.lin, e.children);
      ChildrenInOrder(inp, e.parents[0]);
    case Merge =>
      TellsAll(b.lin, e.parents);
      ParentsInOrder(inp, e.children[0]);
  }

  lemma TellsOne(lin: map<ObsId, nat>)
    ensures Told(lin, [], []) && forall o | o in lin :: Told(lin, [o], [lin[o]])
    ensures InRankOrder([]) && forall o :: InRankOrder([o])
  {
  }

  lemma TellsAll(lin: map<ObsId, nat>, s: seq<ObsId>)
    requires forall o | o in s :: o in lin
    ensures Told(lin, s, Lineages(lin, s))
  {
    forall i | 0 <= i < |s| ensures s[i] in lin { assert s[i] in s; }
  }

  lemma ResurgenceGap(inp: Input, p: ObsId, c: ObsId)
    requires Resurges(inp, p, c)
    ensures p.snap + 2 <= c.snap <= p.snap + 1 + inp.config.maximumGap
  {
    hide Children, Parents, Material;
  }

  lemma FollowsLineage(inp: Input, b: Builder, p: ObsId, c: ObsId)
    requires Identities(inp, b) && Follows(b, p, c)
    ensures p in b.lin && c in b.lin && b.lin[p] == b.lin[c]
  {
    hide Identities;
    var l: nat, i: int :| FollowsAt(b.ident, l, i, p, c);
    Owned(inp, b, l, i);
    Owned(inp, b, l, i - 1);
  }

  lemma {:induction false} ChildrenFromInOrder(inp: Input, p: ObsId, j: nat)
    requires p.snap + 1 < |inp.snaps| && j <= |inp.snaps[p.snap + 1]|
    ensures InRankOrder(ChildrenFrom(inp, p, j))
    ensures forall c | c in ChildrenFrom(inp, p, j) :: c.rank >= j && c.snap == p.snap + 1
    decreases |inp.snaps[p.snap + 1]| - j
  {
    hide Accepted;
    if j < |inp.snaps[p.snap + 1]| {
      ChildrenFromInOrder(inp, p, j + 1);
      var rest := ChildrenFrom(inp, p, j + 1);
      forall i | 0 <= i < |rest| ensures rest[i].rank > j { assert rest[i] in rest; }
    }
  }

  lemma {:induction false} ParentsFromInOrder(inp: Input, c: ObsId, j: nat)
    requires 0 < c.snap <= |inp.snaps| && j <= |inp.snaps[c.snap - 1]|
    ensures InRankOrder(ParentsFrom(inp, c, j))
    ensures forall p | p in ParentsFrom(inp, c, j) :: p.rank >= j && p.snap + 1 == c.snap
    decreases |inp.snaps[c.snap - 1]| - j
  {
    hide Accepted;
    if j < |inp.snaps[c.snap - 1]| {
      ParentsFromInOrder(inp, c, j + 1);
      var rest := ParentsFrom(inp, c, j + 1);
      forall i | 0 <= i < |rest| ensures rest[i].rank > j { assert rest[i] in rest; }
    }
  }

  lemma ChildrenInOrder(inp: Input, p: ObsId)
    ensures InRankOrder(Children(inp, p)) && forall c | c in Children(inp, p) :: c.snap == p.snap + 1
  {
    if p.snap + 1 < |inp.snaps| { ChildrenFromInOrder(inp, p, 0); }
  }

  lemma ParentsInOrder(inp: Input, c: ObsId)
    ensures InRankOrder(Parents(inp, c)) && forall p | p in Parents(inp, c) :: p.snap + 1 == c.snap
  {
    if 0 < c.snap <= |inp.snaps| { ParentsFromInOrder(inp, c, 0); }
  }

  // ----- candidates -----

  /** A candidate gives both similarities of its communities, a score between them, and the reasons of its link;
      it is flagged iff there is one. */
  lemma CandidatesTell(inp: Input, b: Builder, candidates: seq<Candidate>, n: ScoredLink)
    requires inp.config.Valid() && CandidatesExact(inp, b, candidates) && n in Detailed(inp, candidates)
    ensures var x := n.candidate;
      && x in candidates && LinkKnown(inp, x.parent, x.child) && x.gap == x.child.snap - x.parent.snap - 1
      && var left, right := Members(inp, x.parent), Members(inp, x.child);
         && n.jaccard == Jaccard(left, right) && n.overlap == Overlap(left, right)
         && (left != {} && right != {} ==>
               && n.jaccard * |left + right| as real == |left * right| as real
               && n.jaccard <= x.score <= n.overlap)
         && n.reasons == LinkReasons(inp, x.parent, x.child) && (n.low <==> n.reasons != [])
  {
    hide LinkReasons, Jaccard, Overlap, Score;
    DetailedCandidate(inp, candidates, n);
    var x := n.candidate;
    assert CandidateTrue(inp, x);
    var left, right := Members(inp, x.parent), Members(inp, x.child);
    if left != {} && right != {} {
      SimilaritiesAreRatios(left, right);
      ScoreIsMean(inp.config, left, right);
    }
  }

  // ----- the order of reasons -----

  /** The order in which a link gives its reasons, and in which a resurgence adds its own. */
  function Place(reason: Reason): nat {
    match reason
    case UncertainInput => 0
    case NearThreshold => 1
    case ObservationGap => 2
    case CompetingMatch => 3
  }

  /** Alphabetical: the order of the reasons of a split or a merge. */
  function Letter(reason: Reason): nat {
    match reason
    case CompetingMatch => 0
    case NearThreshold => 1
    case ObservationGap => 2
    case UncertainInput => 3
  }

  ghost predicate Placed(s: seq<Reason>, place: Reason -> nat) {
    forall i, j | 0 <= i < j < |s| :: place(s[i]) < place(s[j])
  }

  lemma ReasonsInOrder(inp: Input, e: Event, tied: set<ObsId>)
    requires EventKnown(inp, e)
    ensures Placed(NoteOf(inp, e, tied).reasons, if e.kind == Split || e.kind == Merge then Letter else Place)
    ensures forall p, c | LinkKnown(inp, p, c) :: Placed(LinkReasons(inp, p, c), Place)
  {
    hide LinkScore, MinScore, Near, Uncertain, Given, AnyLow, LinkReasons, AllReasons;
    forall p, c | LinkKnown(inp, p, c) ensures Placed(LinkReasons(inp, p, c) + [CompetingMatch], Place) {
      LinkOrdered(inp, p, c);
    }
    forall p, c | LinkKnown(inp, p, c) ensures Placed(LinkReasons(inp, p, c), Place) {
      PlacedPart(LinkReasons(inp, p, c), CompetingMatch, Place);
    }
    match e.kind
    case Birth =>
    case Death =>
    case Continuation => assert LinkKnown(inp, e.parents[0], e.children[0]);
    case Resurgence =>
      assert LinkKnown(inp, e.parents[0], e.children[0]);
      assert LinkReasons(inp, e.parents[0], e.children[0]) + [] == LinkReasons(inp, e.parents[0], e.children[0]);
    case _ => BranchOrdered(inp, LinksOf(e));
  }

  lemma PlacedPart(s: seq<Reason>, last: Reason, place: Reason -> nat)
    requires Placed(s + [last], place)
    ensures Placed(s, place)
  {
    forall i, j | 0 <= i < j < |s| ensures place(s[i]) < place(s[j]) {
      assert (s + [last])[i] == s[i] && (s + [last])[j] == s[j];
    }
  }

  lemma LinkOrdered(inp: Input, p: ObsId, c: ObsId)
    requires LinkKnown(inp, p, c)
    ensures Placed(LinkReasons(inp, p, c) + [CompetingMatch], Place)
  {
    hide Near, Uncertain;
  }

  lemma BranchOrdered(inp: Input, links: seq<Link>)
    requires LinksKnown(inp, links)
    ensures Placed(AllReasons(inp, links), Letter)
  {
    hide Given;
  }

  // ----- identities -----

  /** Exactly the observations of a lineage, in the order of their snapshots. */
  ghost predicate Lists(b: Builder, l: nat, s: seq<ObsId>) {
    && s != [] && (forall o :: o in s <==> o in b.lin && b.lin[o] == l)
    && forall j, k | 0 <= j < k < |s| :: s[j].snap < s[k].snap
  }

  /** The identities of the result, by number, each with its observations. */
  lemma IdentitiesInOrder(inp: Input, b: Builder, g: Ledger)
    requires Built(inp, b, g)
    ensures b.next >= 1
    ensures var s := IdentitiesOf(b, b.next - 1);
      |s| == b.next - 1 && forall i | 0 <= i < |s| :: s[i].lineage == i + 1 && Lists(b, i + 1, s[i].observations)
  {
    hide Built, Identities, Lists;
    assert Identities(inp, b) by { BuiltParts(inp, b, g); }
    NumbersAre(inp, b);
    IdentitiesListed(b, b.next - 1);
    var s := IdentitiesOf(b, b.next - 1);
    hide IdentitiesOf;
    forall i | 0 <= i < |s| ensures Lists(b, i + 1, s[i].observations) { IdentityLists(inp, b, i + 1); }
  }

  lemma NumbersAre(inp: Input, b: Builder)
    requires Identities(inp, b)
    ensures b.next >= 1 && forall l | 1 <= l < b.next :: l in b.ident
  {
    hide IdentitiesOwn, ObservationsOwned, ChainsOk, NumbersAdvance;
  }

  lemma IdentityLists(inp: Input, b: Builder, l: nat)
    requires Identities(inp, b) && l in b.ident
    ensures Lists(b, l, b.ident[l])
  {
    IdentityHolds(inp, b, l);
    IdentityChain(inp, b, l);
    hide Identities, Chain;
    var s := b.ident[l];
    forall j, k | 0 <= j < k < |s| ensures s[j].snap < s[k].snap { ChainIncreases(inp, s, j, k); }
  }

  lemma IdentityHolds(inp: Input, b: Builder, l: nat)
    requires Identities(inp, b) && l in b.ident
    ensures b.ident[l] != [] && forall o :: o in b.ident[l] <==> o in b.lin && b.lin[o] == l
  {
    hide ChainsOk, NumbersAdvance;
    forall o | o in b.ident[l] ensures o in b.lin && b.lin[o] == l {
      var i :| 0 <= i < |b.ident[l]| && b.ident[l][i] == o;
    }
  }

  lemma {:induction false} IdentitiesListed(b: Builder, n: nat)
    requires forall l | 1 <= l <= n :: l in b.ident
    ensures |IdentitiesOf(b, n)| == n
    ensures forall i | 0 <= i < n :: IdentitiesOf(b, n)[i] == Identity(i + 1, b.ident[i + 1])
  {
    if n > 0 { IdentitiesListed(b, n - 1); }
  }
}
