/** `build_lineage` (analytics/lineage/tracker.py) from its input to its result, and what the
    result means: identities, events, candidates and the graph of branchings. */
module LineageBuild {
  import opened Basics
  import opened LineageModel
  import opened LineageMatching
  import opened LineageBuilder
  import opened LineageTracker
  import opened LineageResurgence
  import opened LineageResult

  /** What the pass leaves behind. */
  ghost predicate Built(inp: Input, b: Builder, g: Ledger) {
    Done(inp, b, g, |inp.snaps|)
  }

  lemma BuiltParts(inp: Input, b: Builder, g: Ledger)
    requires Built(inp, b, g)
    ensures Identities(inp, b) && LedgerOk(inp, b, g) && DormantOk(b, g) && TerminatedOk(inp, b, g)
    ensures EventsTrue(inp, b, g) && EventsComplete(inp, b, g) && NoDuplicates(b.events) && Balanced(b)
        && DeathsBalanced(b)
    ensures forall o :: o in b.lin <==> Known(inp, o)
    ensures DeathsThrough(inp, g, |inp.snaps|, 0) && SplitsThrough(inp, g, |inp.snaps|, 0)
        && MergesThrough(inp, g, |inp.snaps|, 0)
  {
    hide Invariant, Identities, DeathsThrough, SplitsThrough, MergesThrough;
    Parts(inp, b, g);
  }

  // ----- identities -----

  ghost predicate Owns(b: Builder, l: nat, i: nat, o: ObsId) {
    l in b.ident && i < |b.ident[l]| && b.ident[l][i] == o
  }

  /** The identities partition the observations: every observation has exactly one place. */
  lemma IdentitiesPartition(inp: Input, b: Builder, g: Ledger)
    requires Built(inp, b, g)
    ensures forall o :: o in b.lin <==> Known(inp, o)
    ensures forall o | Known(inp, o) :: exists i :: Owns(b, b.lin[o], i, o)
    ensures forall o, l, i, m, j | Owns(b, l, i, o) && Owns(b, m, j, o) ::
        l == m && i == j && Known(inp, o) && l == b.lin[o]
  {
    hide Done, Identities, Known, LedgerOk, DormantOk, TerminatedOk, EventsTrue, EventsComplete, Balanced;
    hide DeathsBalanced;
    BuiltParts(inp, b, g);
    forall o | Known(inp, o) ensures exists i :: Owns(b, b.lin[o], i, o) {
      var i := OwnIdentity(inp, b, o);
      assert Owns(b, b.lin[o], i, o);
    }
    forall o, l, i, m, j | Owns(b, l, i, o) && Owns(b, m, j, o)
      ensures l == m && i == j && Known(inp, o) && l == b.lin[o]
    {
      SamePlace(inp, b, l, i, m, j);
      PlaceKnown(inp, b, l, i);
    }
  }

  lemma PlaceKnown(inp: Input, b: Builder, l: nat, i: nat)
    requires Identities(inp, b) && l in b.ident && i < |b.ident[l]|
    ensures b.ident[l][i] in b.lin && b.lin[b.ident[l][i]] == l
  {
    hide Known, ChainsOk, NumbersAdvance;
  }

  /** Observations of one snapshot never share an identity; along an identity snapshots
      increase, in steps of one by continuation or over a bounded gap by resurgence. */
  lemma IdentitiesAdvance(inp: Input, b: Builder, g: Ledger)
    requires Built(inp, b, g)
    ensures forall o, q | Known(inp, o) && Known(inp, q) && o != q && o.snap == q.snap ::
        o in b.lin && q in b.lin && b.lin[o] != b.lin[q]
    ensures forall l, i, j | l in b.ident && 0 <= i < j < |b.ident[l]| :: b.ident[l][i].snap < b.ident[l][j].snap
    ensures forall p, c | Follows(b, p, c) ::
      || (c.snap == p.snap + 1 && Continues(inp, p, c))
      || (1 <= c.snap - p.snap - 1 <= inp.config.maximumGap && Resurges(inp, p, c))
  {
    hide Done, Identities, Known, Continues, LedgerOk, DormantOk, TerminatedOk, EventsTrue, EventsComplete, Balanced;
    hide DeathsBalanced, Follows, Material, Parents, Children;
    BuiltParts(inp, b, g);
    forall l, i, j | l in b.ident && 0 <= i < j < |b.ident[l]| ensures b.ident[l][i].snap < b.ident[l][j].snap {
      IdentityChain(inp, b, l);
      ChainIncreases(inp, b.ident[l], i, j);
    }
    forall o, q | Known(inp, o) && Known(inp, q) && o != q && o.snap == q.snap ensures b.lin[o] != b.lin[q] {
      var i := OwnIdentity(inp, b, o);
      var j := OwnIdentity(inp, b, q);
      SameSnapshot(inp, b, b.lin[o], i, b.lin[q], j);
    }
    forall p, c | Follows(b, p, c)
      ensures (c.snap == p.snap + 1 && Continues(inp, p, c))
           || (1 <= c.snap - p.snap - 1 <= inp.config.maximumGap && Resurges(inp, p, c))
    {
      FollowsKnown(inp, b, p, c);
      SuccessiveAdvances(inp, p, c);
    }
  }

  lemma SameSnapshot(inp: Input, b: Builder, l: nat, i: nat, m: nat, j: nat)
    requires Identities(inp, b) && l in b.ident && m in b.ident && i < |b.ident[l]| && j < |b.ident[m]|
    ensures l == m && b.ident[l][i].snap == b.ident[m][j].snap ==> i == j
  {
    if l == m {
      IdentityChain(inp, b, l);
      if i < j { ChainIncreases(inp, b.ident[l], i, j); }
      if j < i { ChainIncreases(inp, b.ident[l], j, i); }
    }
  }

  lemma IdentityChain(inp: Input, b: Builder, l: nat)
    requires Identities(inp, b) && l in b.ident
    ensures Chain(inp, b.ident[l]) && b.ident[l] != []
  {
    hide Chain, Known, Starts;
  }

  // ----- events and links -----

  /** Some event names `p` as a parent of `c`. */
  ghost predicate Paired(b: Builder, p: ObsId, c: ObsId) {
    exists e :: e in b.events && p in e.parents && c in e.children
  }

  ghost predicate PairedAs(b: Builder, kinds: set<EventKind>, p: ObsId, c: ObsId) {
    exists e :: e in b.events && e.kind in kinds && p in e.parents && c in e.children
  }

  /** Between adjacent snapshots, a pair occurs in a continuation, split or merge exactly when
      its link was accepted; across a gap, in a resurgence exactly when it goes on that way. */
  lemma EventsAreLinks(inp: Input, b: Builder, g: Ledger, p: ObsId, c: ObsId)
    requires Built(inp, b, g)
    ensures PairedAs(b, {Continuation, Split, Merge}, p, c) <==> Accepted(inp, p, c)
    ensures PairedAs(b, {Resurgence}, p, c) <==> Follows(b, p, c) && Resurges(inp, p, c)
    ensures Paired(b, p, c) <==> Accepted(inp, p, c) || (Follows(b, p, c) && Resurges(inp, p, c))
  {
    hide Done, Accepted, Follows, Resurges, Built;
    forall e | e in b.events && p in e.parents && c in e.children
      ensures e.kind in {Continuation, Split, Merge, Resurgence}
      ensures e.kind in {Continuation, Split, Merge} ==> Accepted(inp, p, c)
      ensures e.kind == Resurgence ==> Follows(b, p, c) && Resurges(inp, p, c)
    {
      PairTrue(inp, b, g, e, p, c);
    }
    if Accepted(inp, p, c) {
      var e := LinkRecorded(inp, b, g, p, c);
    }
    if Follows(b, p, c) && Resurges(inp, p, c) {
      ResurgenceRecorded(inp, b, g, p, c);
    }
  }

  lemma PairTrue(inp: Input, b: Builder, g: Ledger, e: Event, p: ObsId, c: ObsId)
    requires Built(inp, b, g) && e in b.events && p in e.parents && c in e.children
    ensures e.kind in {Continuation, Split, Merge, Resurgence}
    ensures e.kind in {Continuation, Split, Merge} ==> Accepted(inp, p, c)
    ensures e.kind == Resurgence ==> Follows(b, p, c) && Resurges(inp, p, c)
  {
    hide Built, Identities, LedgerOk, DormantOk, TerminatedOk, EventsComplete, Balanced, DeathsBalanced;
    BuiltParts(inp, b, g);
    assert Explained(inp, b, g, e);
    hide Children, Parents, Resurges, Follows, Heads, EventsTrue, Continues, Splits, Accepted;
    match e.kind
    case Birth =>
    case Death =>
    case Continuation => ContinuesLinks(inp, p, c);
    case Split => ChildrenExact(inp, p);
    case Merge => ParentsExact(inp, c);
    case Resurgence =>
  }

  lemma LinkRecorded(inp: Input, b: Builder, g: Ledger, p: ObsId, c: ObsId) returns (e: Event)
    requires Built(inp, b, g) && Accepted(inp, p, c)
    ensures e in b.events && e.kind in {Continuation, Split, Merge} && p in e.parents && c in e.children
  {
    hide Built, Identities, LedgerOk, DormantOk, TerminatedOk, EventsTrue, Balanced, DeathsBalanced, Known;
    BuiltParts(inp, b, g);
    AcceptedKnown(inp, p, c);
    ChildrenExact(inp, p);
    ParentsExact(inp, c);
    FatesExclude(inp, p);
    hide Accepted, Parents, Children;
    assert c in Children(inp, p) && p in Parents(inp, c);
    if Splits(inp, p) {
      SplitDone(inp, b, g, p);
      e := SplitOf(inp, b.lin, p);
    } else if Merges(inp, c) {
      MergeDone(inp, b, g, c);
      e := MergeOf(inp, b.lin, c);
    } else {
      OnlyLink(inp, p, c);
      e := ContinuationOf(b.lin, p, c);
      ContinuationDone(inp, b, g, p, c);
    }
  }

  lemma OnlyLink(inp: Input, p: ObsId, c: ObsId)
    requires c in Children(inp, p) && p in Parents(inp, c) && !Splits(inp, p) && !Merges(inp, c)
    ensures Continues(inp, p, c)
  {
  }

  lemma AcceptedKnown(inp: Input, p: ObsId, c: ObsId)
    requires Accepted(inp, p, c)
    ensures Known(inp, p) && Known(inp, c) && c.snap == p.snap + 1
  {
  }

  lemma SplitDone(inp: Input, b: Builder, g: Ledger, p: ObsId)
    requires Built(inp, b, g) && Known(inp, p) && Splits(inp, p)
    ensures p in g.splits && p in b.lin
        && (forall c | c in Children(inp, p) :: c in b.lin) && SplitOf(inp, b.lin, p) in b.events
  {
    hide Built, Identities, LedgerOk, DormantOk, TerminatedOk, EventsTrue, Balanced, DeathsBalanced;
    BuiltParts(inp, b, g);
    ChildrenExact(inp, p);
    assert Children(inp, p)[0] in Children(inp, p);
    AcceptedKnown(inp, p, Children(inp, p)[0]);
    forall c | c in Children(inp, p) ensures c in b.lin { AcceptedKnown(inp, p, c); }
    hide Children, Parents, Accepted;
  }

  lemma MergeDone(inp: Input, b: Builder, g: Ledger, c: ObsId)
    requires Built(inp, b, g) && Known(inp, c) && Merges(inp, c)
    ensures c in g.merges && c in b.lin
        && (forall p | p in Parents(inp, c) :: p in b.lin) && MergeOf(inp, b.lin, c) in b.events
  {
    hide Built, Identities, LedgerOk, DormantOk, TerminatedOk, EventsTrue, Balanced, DeathsBalanced;
    BuiltParts(inp, b, g);
    ParentsExact(inp, c);
    forall p | p in Parents(inp, c) ensures p in b.lin { AcceptedKnown(inp, p, c); }
    hide Children, Parents, Accepted;
  }

  lemma ContinuationDone(inp: Input, b: Builder, g: Ledger, p: ObsId, c: ObsId)
    requires Built(inp, b, g) && p in b.lin && c in b.lin && Continues(inp, p, c)
    ensures ContinuationOf(b.lin, p, c) in b.events
  {
    hide Built, Identities, LedgerOk, DormantOk, TerminatedOk, EventsTrue, Balanced, DeathsBalanced, Continues;
    BuiltParts(inp, b, g);
    hide BirthsDone, DeathsDone, SplitsDone, MergesDone, ResurgencesDone, DeathsThrough, SplitsThrough, MergesThrough;
  }

  lemma ResurgenceRecorded(inp: Input, b: Builder, g: Ledger, p: ObsId, c: ObsId)
    requires Built(inp, b, g) && Follows(b, p, c) && Resurges(inp, p, c)
    ensures p in b.lin && ResurgenceOf(b.lin, p, c) in b.events
  {
    hide Built, Identities, LedgerOk, DormantOk, TerminatedOk, EventsTrue, Balanced, DeathsBalanced, Resurges, Follows;
    BuiltParts(inp, b, g);
    FollowsKnown(inp, b, p, c);
    hide BirthsDone, DeathsDone, SplitsDone, MergesDone, ContinuationsDone, DeathsThrough, SplitsThrough, MergesThrough;
  }

  // ----- one fate for every observation before the last snapshot -----

  ghost predicate ParentIn(b: Builder, kinds: set<EventKind>, p: ObsId) {
    exists e :: e in b.events && e.kind in kinds && p in e.parents
  }

  function One(happens: bool): nat { if happens then 1 else 0 }

  /** Death, continuation, or branching: exactly one of the three, and none in the last snapshot. */
  lemma OneFate(inp: Input, b: Builder, g: Ledger, p: ObsId)
    requires Built(inp, b, g) && Known(inp, p)
    ensures ParentIn(b, {Death}, p) <==> p.snap + 1 < |inp.snaps| && Children(inp, p) == []
    ensures ParentIn(b, {Continuation}, p) <==> exists c :: Continues(inp, p, c)
    ensures ParentIn(b, {Split, Merge}, p) <==> Branches(inp, p)
    ensures One(ParentIn(b, {Death}, p)) + One(ParentIn(b, {Continuation}, p)) + One(ParentIn(b, {Split, Merge}, p))
         == One(p.snap + 1 < |inp.snaps|)
  {
    hide Built, Children, Continues, Branches;
    FateDeath(inp, b, g, p);
    FateContinuation(inp, b, g, p);
    FateBranch(inp, b, g, p);
    FatesExclude(inp, p);
    NoFateAtTheEnd(inp, p);
  }

  lemma NoFateAtTheEnd(inp: Input, p: ObsId)
    ensures p.snap + 1 >= |inp.snaps| ==> Children(inp, p) == []
  {
  }

  lemma FateDeath(inp: Input, b: Builder, g: Ledger, p: ObsId)
    requires Built(inp, b, g) && Known(inp, p)
    ensures ParentIn(b, {Death}, p) <==> p.snap + 1 < |inp.snaps| && Children(inp, p) == []
  {
    hide *;
    BuiltParts(inp, b, g);
    DiedThrough(inp, g, p);
    DeathKnown(inp, b, g, p);
  }

  lemma DiedThrough(inp: Input, g: Ledger, p: ObsId)
    requires DeathsThrough(inp, g, |inp.snaps|, 0) && Known(inp, p)
    ensures p in g.died <==> p.snap + 1 < |inp.snaps| && Children(inp, p) == []
  {
    hide Children, Known;
  }

  lemma DeathKnown(inp: Input, b: Builder, g: Ledger, p: ObsId)
    requires EventsTrue(inp, b, g) && EventsComplete(inp, b, g) && p in b.lin
    ensures ParentIn(b, {Death}, p) <==> p in g.died
  {
    hide BirthsDone, ContinuationsDone, SplitsDone, MergesDone, ResurgencesDone, Children, Parents;
    if p in g.died { assert DeathOf(b.lin, p) in b.events && p in DeathOf(b.lin, p).parents; }
    hide DeathsDone;
    forall e | e in b.events && e.kind in {Death} && p in e.parents ensures p in g.died {
      assert Explained(inp, b, g, e);
    }
  }

  lemma FateContinuation(inp: Input, b: Builder, g: Ledger, p: ObsId)
    requires Built(inp, b, g) && Known(inp, p)
    ensures ParentIn(b, {Continuation}, p) <==> exists c :: Continues(inp, p, c)
  {
    hide Built, Identities, LedgerOk, DormantOk, TerminatedOk, Balanced, DeathsBalanced, EventsComplete, Continues;
    hide EventsTrue;
    BuiltParts(inp, b, g);
    hide SplitsThrough, MergesThrough, DeathsThrough;
    if c :| Continues(inp, p, c) {
      ContinuesLinks(inp, p, c);
      AcceptedKnown(inp, p, c);
      ContinuationDone(inp, b, g, p, c);
      assert ContinuationOf(b.lin, p, c).kind in {Continuation} && p in ContinuationOf(b.lin, p, c).parents;
    }
    forall e | e in b.events && e.kind in {Continuation} && p in e.parents ensures exists c :: Continues(inp, p, c) {
      ContinuationTrue(inp, b, g, e, p);
    }
  }

  lemma ContinuationTrue(inp: Input, b: Builder, g: Ledger, e: Event, p: ObsId)
    requires EventsTrue(inp, b, g) && e in b.events && e.kind == Continuation && p in e.parents
    ensures exists c :: Continues(inp, p, c)
  {
    hide Continues;
    assert Explained(inp, b, g, e);
    assert Continues(inp, p, e.children[0]);
  }

  lemma FateBranch(inp: Input, b: Builder, g: Ledger, p: ObsId)
    requires Built(inp, b, g) && Known(inp, p)
    ensures ParentIn(b, {Split, Merge}, p) <==> Branches(inp, p)
  {
    hide Built, Branches;
    if Branches(inp, p) {
      BranchRecorded(inp, b, g, p);
    }
    forall e | e in b.events && e.kind in {Split, Merge} && p in e.parents ensures Branches(inp, p) {
      BranchTrue(inp, b, g, e, p);
    }
  }

  lemma BranchRecorded(inp: Input, b: Builder, g: Ledger, p: ObsId)
    requires Built(inp, b, g) && Known(inp, p) && Branches(inp, p)
    ensures ParentIn(b, {Split, Merge}, p)
  {
    hide Built;
    if Splits(inp, p) {
      SplitDone(inp, b, g, p);
      assert p in SplitOf(inp, b.lin, p).parents;
    } else {
      var c := Children(inp, p)[0];
      ChildrenExact(inp, p);
      ParentsExact(inp, c);
      assert c in Children(inp, p);
      AcceptedKnown(inp, p, c);
      MergeDone(inp, b, g, c);
      assert p in MergeOf(inp, b.lin, c).parents;
    }
  }

  /** The lineage numbers an event lists are those of the observations it lists. */
  ghost predicate Lists(lin: map<ObsId, nat>, s: seq<ObsId>, lineages: seq<nat>) {
    |lineages| == |s| && forall i | 0 <= i < |s| :: s[i] in lin && lineages[i] == lin[s[i]]
  }

  lemma Listed(lin: map<ObsId, nat>, s: seq<ObsId>, lineages: seq<nat>, o: ObsId)
    requires Lists(lin, s, lineages) && o in s
    ensures o in lin
  {
  }

  lemma ListsAll(lin: map<ObsId, nat>, s: seq<ObsId>)
    requires forall o | o in s :: o in lin
    ensures Lists(lin, s, Lineages(lin, s))
  {
  }

  lemma BranchTrue(inp: Input, b: Builder, g: Ledger, e: Event, p: ObsId)
    requires Built(inp, b, g) && e in b.events && e.kind in {Split, Merge} && p in e.parents
    ensures Branches(inp, p)
    ensures forall c | c in e.children :: p in Parents(inp, c) && (Splits(inp, p) || Merges(inp, c))
  {
    hide Built, Identities, DormantOk, TerminatedOk, EventsComplete, Balanced, DeathsBalanced, Parents, Children;
    BuiltParts(inp, b, g);
    hide SplitsThrough, MergesThrough, DeathsThrough;
    assert Explained(inp, b, g, e);
    hide EventsTrue;
    if e.kind == Split {
      SplitChildren(inp, p);
    } else {
      MergeParentBranches(inp, p, e.children[0]);
    }
  }

  lemma SplitChildren(inp: Input, p: ObsId)
    ensures forall c | c in Children(inp, p) :: p in Parents(inp, c)
  {
    ChildrenExact(inp, p);
    forall c | c in Children(inp, p) ensures p in Parents(inp, c) { ParentsExact(inp, c); }
  }

  // ----- branching ends identities, and branches forward only -----

  /** The lineage of a split or merge parent ends there: that parent is its last observation,
      it is marked as terminated, and it is not dormant. */
  lemma BranchingEndsIdentities(inp: Input, b: Builder, g: Ledger, p: ObsId)
    requires Built(inp, b, g) && Known(inp, p) && ParentIn(b, {Split, Merge}, p)
    ensures p in b.lin && b.lin[p] in b.ident && b.ident[b.lin[p]] != [] && Last(b.ident[b.lin[p]]) == p
    ensures b.lin[p] in b.terminated && b.lin[p] !in b.dormant
  {
    hide Built, ParentIn, Identities, Branches, TerminatedOk, DormantOk, Branched, DeathsThrough, SplitsThrough;
    hide MergesThrough, EventsTrue, EventsComplete;
    BuiltParts(inp, b, g);
    FateBranch(inp, b, g, p);
    forall c ensures !Successive(inp, p, c) { BranchGoesNowhere(inp, p, c); }
    IsLast(inp, b, p);
    BranchIsRegistered(inp, b, g, p);
    FatesExclude(inp, p);
    hide Successive, Children;
    EndedLineage(inp, b, g, b.lin[p]);
  }

  lemma BranchIsRegistered(inp: Input, b: Builder, g: Ledger, p: ObsId)
    requires Built(inp, b, g) && Known(inp, p) && Branches(inp, p)
    ensures Branched(inp, g, p)
  {
    hide Built;
    if Splits(inp, p) {
      SplitDone(inp, b, g, p);
    } else {
      var c := Children(inp, p)[0];
      ChildrenExact(inp, p);
      ParentsExact(inp, c);
      assert c in Children(inp, p);
      AcceptedKnown(inp, p, c);
      MergeDone(inp, b, g, c);
      assert c in g.merges && p in Parents(inp, c);
    }
  }

  lemma EndedLineage(inp: Input, b: Builder, g: Ledger, l: nat)
    requires TerminatedOk(inp, b, g) && DormantOk(b, g) && LedgerOk(inp, b, g) && l in b.ident && b.ident[l] != []
    requires Branched(inp, g, Last(b.ident[l])) && Children(inp, Last(b.ident[l])) != []
    ensures l in b.terminated && l !in b.dormant
  {
    hide Branched, Children, Parents;
  }

  /** The lineage graph: an edge from each parent to each child of a split or merge. */
  ghost predicate Edge(b: Builder, l: nat, m: nat) {
    exists e :: e in b.events && e.kind in {Split, Merge} && l in e.parentLineages && m in e.childLineages
  }

  /** A child of a split or merge starts its lineage, whose number exceeds its parents'. */
  lemma BranchesAreFresh(inp: Input, b: Builder, g: Ledger, e: Event, p: ObsId, c: ObsId)
    requires Built(inp, b, g) && e in b.events && e.kind in {Split, Merge} && p in e.parents && c in e.children
    ensures p in b.lin && c in b.lin && b.lin[c] in b.ident && b.ident[b.lin[c]] != []
    ensures b.ident[b.lin[c]][0] == c && b.lin[p] < b.lin[c]
  {
    hide Built, Identities, Parents, Children, EventsTrue, EventsComplete, DeathsThrough, SplitsThrough, MergesThrough;
    BuiltParts(inp, b, g);
    BranchTrue(inp, b, g, e, p);
    BranchShape(inp, b, g, e);
    Listed(b.lin, e.parents, e.parentLineages, p);
    Listed(b.lin, e.children, e.childLineages, c);
    hide Lists;
    BranchChildStarts(inp, p, c);
    var i := OwnIdentity(inp, b, c);
    var s := b.ident[b.lin[c]];
    IdentityChain(inp, b, b.lin[c]);
    if i > 0 {
      ChainStep(inp, s, i);
      NotSuccessive(inp, s[i - 1], c);
    }
    NumbersOf(inp, b, p, b.lin[c]);
  }

  lemma BranchChildStarts(inp: Input, p: ObsId, c: ObsId)
    requires p in Parents(inp, c) && (Splits(inp, p) || Merges(inp, c))
    ensures Starts(inp, c) && Parents(inp, c) != [] && c.snap == p.snap + 1
  {
    ParentsExact(inp, c);
    AcceptedKnown(inp, p, c);
    forall q ensures !Continues(inp, q, c) {
      FatesExclude(inp, p);
      OnlyContinued(inp, p, q, c);
    }
  }

  lemma NotSuccessive(inp: Input, q: ObsId, c: ObsId)
    requires Starts(inp, c) && Parents(inp, c) != []
    ensures !Successive(inp, q, c)
  {
    hide Parents, Children, Material;
  }

  lemma NumbersOf(inp: Input, b: Builder, p: ObsId, l: nat)
    requires Identities(inp, b) && p in b.lin && l in b.ident && b.ident[l] != [] && p.snap < b.ident[l][0].snap
    ensures b.lin[p] < l
  {
    hide Known, ChainsOk, IdentitiesOwn, ObservationsOwned;
  }

  lemma EdgesAscend(inp: Input, b: Builder, g: Ledger, l: nat, m: nat)
    requires Built(inp, b, g) && Edge(b, l, m)
    ensures l < m
  {
    hide Built;
    var e :| e in b.events && e.kind in {Split, Merge} && l in e.parentLineages && m in e.childLineages;
    BranchShape(inp, b, g, e);
    var i :| 0 <= i < |e.parentLineages| && e.parentLineages[i] == l;
    var j :| 0 <= j < |e.childLineages| && e.childLineages[j] == m;
    var p, c := e.parents[i], e.children[j];
    BranchesAreFresh(inp, b, g, e, p, c);
  }

  lemma BranchShape(inp: Input, b: Builder, g: Ledger, e: Event)
    requires Built(inp, b, g) && e in b.events && e.kind in {Split, Merge}
    ensures Lists(b.lin, e.parents, e.parentLineages) && Lists(b.lin, e.children, e.childLineages)
  {
    hide Built, Identities, DormantOk, TerminatedOk, EventsComplete, Balanced, DeathsBalanced, Parents, Children;
    BuiltParts(inp, b, g);
    hide SplitsThrough, MergesThrough, DeathsThrough, Lists;
    assert Explained(inp, b, g, e);
    hide EventsTrue;
    if e.kind == Split {
      ListsAll(b.lin, Children(inp, e.parents[0]));
      ListsAll(b.lin, [e.parents[0]]);
    } else {
      ListsAll(b.lin, Parents(inp, e.children[0]));
      ListsAll(b.lin, [e.children[0]]);
    }
    OneListed(b.lin);
  }

  lemma OneListed(lin: map<ObsId, nat>)
    ensures forall o | o in lin :: Lists(lin, [o], [lin[o]])
  {
  }

  /** The lineage graph has no cycles: along any path the lineage numbers increase. */
  lemma {:induction false} LineageGraphIsAcyclic(inp: Input, b: Builder, g: Ledger, path: seq<nat>)
    requires Built(inp, b, g) && |path| >= 2 && forall i | 0 <= i < |path| - 1 :: Edge(b, path[i], path[i + 1])
    ensures path[0] < path[|path| - 1]
  {
    hide Built, Edge;
    assert Edge(b, path[0], path[0 + 1]);
    EdgesAscend(inp, b, g, path[0], path[1]);
    if |path| > 2 {
      forall i | 0 <= i < |path[1..]| - 1
        ensures Edge(b, path[1..][i], path[1..][i + 1])
      {
        assert Edge(b, path[i + 1], path[i + 1 + 1]);
      }
      LineageGraphIsAcyclic(inp, b, g, path[1..]);
    }
  }

  // ----- accounting -----

  /** Observations, identities, continuations and resurgences balance; a lineage has died once
      more than it resurged exactly while it is dormant; nothing is recorded twice; births are
      exactly the identities that start without an accepted parent. */
  lemma Accounting(inp: Input, b: Builder, g: Ledger)
    requires Built(inp, b, g)
    ensures |b.lin| == |b.ident| + Count(b.events, Continuation) + Count(b.events, Resurgence)
    ensures forall l: nat ::
        CountFor(b.events, Death, l) - CountFor(b.events, Resurgence, l) == if l in b.dormant then 1 else 0
    ensures NoDuplicates(b.events)
    ensures forall c | Known(inp, c) ::
      (exists e :: e in b.events && e.kind == Birth && e.children == [c]) <==> Heads(b, c) && Parents(inp, c) == []
  {
    hide Built, Identities, LedgerOk, DormantOk, TerminatedOk, Parents, Children, DeathsThrough, SplitsThrough;
    hide MergesThrough;
    BuiltParts(inp, b, g);
    hide DeathsDone, ContinuationsDone, SplitsDone, MergesDone, ResurgencesDone, Heads, Known, Follows;
    forall c | Known(inp, c)
      ensures (exists e :: e in b.events && e.kind == Birth && e.children == [c]) <==>
          Heads(b, c) && Parents(inp, c) == []
    {
      if Heads(b, c) && Parents(inp, c) == [] {
        var e := BirthOf(b.lin, c);
        assert e in b.events && e.kind == Birth && e.children == [c];
      }
      forall e | e in b.events && e.kind == Birth && e.children == [c] ensures Heads(b, c) && Parents(inp, c) == [] {
        assert Explained(inp, b, g, e);
      }
    }
  }

  // ----- the final pass over the candidates -----

  function ResurgencePairs(events: seq<Event>): set<(ObsId, ObsId)> {
    set e | e in events && e.kind == Resurgence && e.parents != [] && e.children != [] :: (e.parents[0], e.children[0])
  }

  function Decided(pairs: set<(ObsId, ObsId)>, x: Candidate): Candidate {
    x.(accepted := if x.gap == 0 then x.accepted else (x.parent, x.child) in pairs)
  }

  /** Candidates are accepted exactly when an event pairs them, and no paired observations lack one. */
  /** A candidate is an earlier and a later observation with the gap and the score between them. */
  predicate CandidateTrue(inp: Input, x: Candidate) {
    && Known(inp, x.parent) && Known(inp, x.child) && x.parent.snap < x.child.snap
    && x.gap == x.child.snap - x.parent.snap - 1
    && x.score == Score(inp.config, Members(inp, x.parent), Members(inp, x.child))
  }

  ghost predicate CandidatesExact(inp: Input, b: Builder, candidates: seq<Candidate>) {
    && (forall x | x in candidates :: CandidateTrue(inp, x))
    && (forall x | x in candidates :: x.accepted <==> Paired(b, x.parent, x.child))
    && (forall p, c | Paired(b, p, c) :: exists x :: x in candidates && x.parent == p && x.child == c)
    && (forall p, c | Known(inp, p) && Known(inp, c) && c.snap == p.snap + 1 ::
       AdjacentCandidate(inp, p, c) in candidates)
  }

  lemma GapDecided(inp: Input, b: Builder, g: Ledger, x: Candidate)
    requires Built(inp, b, g) && GapTrue(inp, x)
    ensures Decided(ResurgencePairs(b.events), x).accepted <==> Paired(b, x.parent, x.child)
  {
    hide Built, Material, Score;
    var p, c := x.parent, x.child;
    EventsAreLinks(inp, b, g, p, c);
    NotAdjacent(inp, p, c);
    hide Accepted, Follows, Resurges;
    forall e | e in b.events && e.kind == Resurgence
      ensures |e.parents| == 1 && |e.children| == 1
    {
      ResurgenceShape(inp, b, g, e);
    }
    if (p, c) in ResurgencePairs(b.events) {
      var e :| e in b.events && e.kind == Resurgence && e.parents != [] && e.children != []
        && (e.parents[0], e.children[0]) == (p, c);
      assert p in e.parents && c in e.children;
    }
    if Paired(b, p, c) {
      var e :| e in b.events && e.kind in {Resurgence} && p in e.parents && c in e.children;
      assert e.parents == [p] && e.children == [c];
    }
  }

  lemma NotAdjacent(inp: Input, p: ObsId, c: ObsId)
    requires c.snap > p.snap + 1
    ensures !Accepted(inp, p, c)
  {
  }

  lemma ResurgenceShape(inp: Input, b: Builder, g: Ledger, e: Event)
    requires Built(inp, b, g) && e in b.events && e.kind == Resurgence
    ensures |e.parents| == 1 && |e.children| == 1
  {
    hide Built, Identities, LedgerOk, DormantOk, TerminatedOk, EventsComplete, Balanced, DeathsBalanced;
    BuiltParts(inp, b, g);
    assert Explained(inp, b, g, e);
  }

  lemma AdjacentDecided(inp: Input, b: Builder, g: Ledger, x: Candidate, pairs: set<(ObsId, ObsId)>)
    requires Built(inp, b, g) && Known(inp, x.parent) && Known(inp, x.child) && x.child.snap == x.parent.snap + 1
    requires x == AdjacentCandidate(inp, x.parent, x.child)
    ensures Decided(pairs, x) == x && (x.accepted <==> Paired(b, x.parent, x.child))
  {
    hide Built, Paired, Score, Follows, Accepted, Material, Parents, Children;
    EventsAreLinks(inp, b, g, x.parent, x.child);
  }

  /** `accepted_pairs` and the rewriting of the candidates. */
  method FinalPass(inp: Input, b: Builder, adjacent: seq<Candidate>, gaps: seq<Candidate>,
        ghost g: Ledger)
    returns (candidates: seq<Candidate>)
    requires Built(inp, b, g)
    requires AdjacentTrue(inp, adjacent) && AllAdjacent(inp, adjacent, |inp.snaps|, 0, 0)
    requires GapsTrue(inp, gaps) && GapsCovered(inp, b, gaps, |inp.snaps|)
    ensures CandidatesExact(inp, b, candidates)
  {
    hide *;
    var all := adjacent + gaps;
    var pairs := ResurgencePairs(b.events);
    candidates := [];
    for i := 0 to |all|
      invariant |candidates| == i && forall j | 0 <= j < i :: candidates[j] == Decided(pairs, all[j])
    {
      candidates := candidates + [Decided(pairs, all[i])];
    }
    DecidedExact(inp, b, g, adjacent, gaps, candidates);
  }

  lemma CandidatesTrue(inp: Input, adjacent: seq<Candidate>, gaps: seq<Candidate>, candidates: seq<Candidate>,
        pairs: set<(ObsId, ObsId)>)
    requires |candidates| == |adjacent + gaps|
    requires forall j | 0 <= j < |candidates| :: candidates[j] == Decided(pairs, (adjacent + gaps)[j])
    requires AdjacentTrue(inp, adjacent) && GapsTrue(inp, gaps)
    ensures forall x | x in candidates :: CandidateTrue(inp, x)
  {
    hide Score, Accepted, Material;
    var all := adjacent + gaps;
    forall x | x in candidates ensures CandidateTrue(inp, x) {
      var j :| 0 <= j < |candidates| && candidates[j] == x;
      if j < |adjacent| { assert all[j] in adjacent; } else { assert all[j] in gaps; }
    }
  }

  lemma DecidedExact(inp: Input, b: Builder, g: Ledger, adjacent: seq<Candidate>, gaps: seq<Candidate>,
        candidates: seq<Candidate>)
    requires Built(inp, b, g) && |candidates| == |adjacent + gaps|
    requires forall j | 0 <= j < |candidates| ::
        candidates[j] == Decided(ResurgencePairs(b.events), (adjacent + gaps)[j])
    requires AdjacentTrue(inp, adjacent) && AllAdjacent(inp, adjacent, |inp.snaps|, 0, 0)
    requires GapsTrue(inp, gaps) && GapsCovered(inp, b, gaps, |inp.snaps|)
    ensures CandidatesExact(inp, b, candidates)
  {
    hide Built, Paired, AdjacentCandidate, ResurgencePairs, GapTrue, AllAdjacent, GapsCovered, Known;
    var all, pairs := adjacent + gaps, ResurgencePairs(b.events);
    forall x | x in adjacent ensures Decided(pairs, x) == x && (x.accepted <==> Paired(b, x.parent, x.child)) {
      AdjacentDecided(inp, b, g, x, pairs);
    }
    forall x | x in gaps ensures Decided(pairs, x).accepted <==> Paired(b, x.parent, x.child) {
      GapDecided(inp, b, g, x);
    }
    CandidatesTrue(inp, adjacent, gaps, candidates, pairs);
    hide AdjacentTrue, GapsTrue, CandidateTrue;
    forall x | x in candidates ensures x.accepted <==> Paired(b, x.parent, x.child) {
      var j :| 0 <= j < |candidates| && candidates[j] == x;
      if j < |adjacent| { assert all[j] in adjacent; } else { assert all[j] in gaps; }
    }
    forall x | x in adjacent ensures x in candidates {
      var j :| 0 <= j < |adjacent| && adjacent[j] == x;
      assert all[j] == x && candidates[j] == x;
    }
    AllAdjacentFound(inp, adjacent);
    forall p, c | Paired(b, p, c) ensures exists x :: x in candidates && x.parent == p && x.child == c {
      PairScored(inp, b, g, adjacent, gaps, p, c);
      var x :| (x in adjacent || x in gaps) && x.parent == p && x.child == c;
      if x in adjacent { assert x in candidates; } else {
        var j :| 0 <= j < |gaps| && gaps[j] == x;
        assert all[|adjacent| + j] == x;
        assert candidates[|adjacent| + j] in candidates;
      }
    }
  }

  lemma AllAdjacentFound(inp: Input, adjacent: seq<Candidate>)
    requires AllAdjacent(inp, adjacent, |inp.snaps|, 0, 0)
    ensures forall p, c | Known(inp, p) && Known(inp, c) && c.snap == p.snap + 1 ::
        AdjacentCandidate(inp, p, c) in adjacent
  {
    hide AdjacentCandidate;
    forall p, c | Known(inp, p) && Known(inp, c) && c.snap == p.snap + 1
      ensures AdjacentCandidate(inp, p, c) in adjacent
    {
      assert Earlier(p, c, |inp.snaps|, 0, 0);
    }
  }

  lemma PairScored(inp: Input, b: Builder, g: Ledger, adjacent: seq<Candidate>, gaps: seq<Candidate>, p: ObsId,
        c: ObsId)
    requires Built(inp, b, g) && Paired(b, p, c)
    requires AllAdjacent(inp, adjacent, |inp.snaps|, 0, 0) && GapsCovered(inp, b, gaps, |inp.snaps|)
    ensures exists x :: (x in adjacent || x in gaps) && x.parent == p && x.child == c
  {
    hide Built, Paired, Score, AllAdjacent, Follows;
    EventsAreLinks(inp, b, g, p, c);
    if Accepted(inp, p, c) {
      AllAdjacentFound(inp, adjacent);
      assert AdjacentCandidate(inp, p, c) in adjacent;
    } else {
      assert Known(inp, c);
      assert GapListed(inp, p, c, gaps);
      assert GapCandidate(inp, p, c) in gaps;
    }
  }

  // ----- build_lineage -----

  lemma EmptyOrNot<T>(s: seq<T>)
    ensures s == [] || exists x :: x in s
  {
    if s != [] { assert s[0] in s; }
  }

  lemma NothingMatched(inp: Input, b: Builder)
    ensures MatchedAt(inp, b, 0)
  {
    hide Resurges, Score;
    var s: seq<Choice<nat, ObsId>> := [];
    forall x ensures !TakenAt(inp, b, 0, x) {
      if TakenAt(inp, b, 0, x) {
        var p :| Follows(b, p, x.child) && Scored(inp, b, 0, p, x);
        ScoredKnown(inp, b, 0, p, x);
      }
    }
    forall x ensures !OptionAt(inp, b, 0, x) {}
    hide TakenAt, OptionAt;
    forall rival | Rival(inp, b, 0, rival) ensures rival == [] { EmptyOrNot(rival); }
    assert MatchedBy(inp, b, 0, s);
  }

  lemma EmptyDone(inp: Input)
    ensures Done(inp, Start(), Ledger({}, {}, {}), 0)
    ensures Standing(inp, Start(), Start(), Ledger({}, {}, {}), 0) && BornThrough(inp, Start(), 0, 0)
  {
    hide Invariant, Children;
    StartInvariant(inp);
    forall c: ObsId | c.snap == 0 ensures Parents(inp, c) == [] {}
    hide Parents;
  }

  lemma FirstDone(inp: Input, b: Builder, g: Ledger)
    requires Standing(inp, Start(), b, g, 0) && g == Ledger({}, {}, {})
        && forall c | Known(inp, c) && c.snap == 0 :: c in b.lin
    ensures Done(inp, b, g, 1)
  {
    hide *;
    StandingParts(inp, Start(), b, g, 0);
    Parts(inp, b, g);
    forall o | o in b.lin ensures Known(inp, o) { KnownOf(inp, b, o); }
    NothingThrough(inp);
    FirstKnown(inp, b);
    FirstAssembled(inp, b, g);
  }

  lemma NothingThrough(inp: Input)
    ensures var g := Ledger({}, {}, {});
        DeathsThrough(inp, g, 1, 0) && SplitsThrough(inp, g, 1, 0) && MergesThrough(inp, g, 1, 0)
  {
    hide Children, Known;
    forall c: ObsId | c.snap == 0 ensures Parents(inp, c) == [] {}
    hide Parents;
  }

  lemma FirstKnown(inp: Input, b: Builder)
    requires Through(inp, b, 0)
        && (forall o | o in b.lin :: Known(inp, o)) && forall c | Known(inp, c) && c.snap == 0 :: c in b.lin
    ensures forall o :: o in b.lin <==> Known(inp, o) && o.snap < 1
  {
    hide Known;
  }

  lemma FirstAssembled(inp: Input, b: Builder, g: Ledger)
    requires Invariant(inp, b, g) && (forall o :: o in b.lin <==> Known(inp, o) && o.snap < 1)
    requires DeathsThrough(inp, g, 1, 0) && SplitsThrough(inp, g, 1, 0) && MergesThrough(inp, g, 1, 0)
    ensures Done(inp, b, g, 1)
  {
    hide Invariant, Known, DeathsThrough, SplitsThrough, MergesThrough;
  }

  lemma FirstCovered(inp: Input, b: Builder)
    ensures GapsTrue(inp, []) && GapsCovered(inp, b, [], 1) && GapsCovered(inp, b, [], 0)
  {
    hide Follows, Material, Parents, Children;
  }

  /** The builder after the first `k` snapshots. */
  function AfterSnapshots(inp: Input, k: nat): Builder
    requires k <= |inp.snaps|
  {
    if k == 0 then Start()
    else if k == 1 then AfterBirths(Start(), 0, |inp.snaps[0]|)
    else AfterSnapshot(inp, AfterSnapshots(inp, k - 1), k - 1)
  }

  /** The lineage of an input, as a function of it. */
  function LineageOf(inp: Input): Builder { AfterSnapshots(inp, |inp.snaps|) }

  /** The children whose resurgence is marked as competing, in the first `k` snapshots. */
  function TiesThrough(inp: Input, k: nat): set<ObsId>
    requires k <= |inp.snaps|
  {
    if k <= 1 then {}
    else TiesThrough(inp, k - 1) + TiesAt(inp, AfterLinks(inp, AfterSnapshots(inp, k - 1), k - 1), k - 1)
  }

  function TiesOf(inp: Input): set<ObsId> { TiesThrough(inp, |inp.snaps|) }

  lemma SnapshotsAre(inp: Input, k: nat)
    requires k <= |inp.snaps|
    ensures AfterSnapshots(inp, 0) == Start()
    ensures |inp.snaps| > 0 ==> AfterSnapshots(inp, 1) == AfterBirths(Start(), 0, |inp.snaps[0]|)
    ensures 0 < k < |inp.snaps| ==> AfterSnapshots(inp, k + 1) == AfterSnapshot(inp, AfterSnapshots(inp, k), k)
    ensures AfterSnapshots(inp, |inp.snaps|) == LineageOf(inp) && TiesThrough(inp, |inp.snaps|) == TiesOf(inp)
    ensures k <= 1 ==> TiesThrough(inp, k) == {}
    ensures 0 < k < |inp.snaps| ==>
      TiesThrough(inp, k + 1) == TiesThrough(inp, k) + TiesAt(inp, AfterLinks(inp, AfterSnapshots(inp, k), k), k)
  {
    hide AfterSnapshot, AfterBirths, TiesAt, AfterLinks;
  }

  /** The whole pass. */
  method BuildLineage(inp: Input) returns (b: Builder, candidates: seq<Candidate>, tied: set<ObsId>, ghost g: Ledger)
    requires inp.config.Valid()
    ensures b == LineageOf(inp) && tied == TiesOf(inp)
    ensures Built(inp, b, g) && CandidatesExact(inp, b, candidates)
    ensures forall k: nat | k < |inp.snaps| :: MatchedAt(inp, b, k)
  {
    hide *;
    var byParent, byChild, adjacent := AdjacentLinks(inp);
    b, tied, g := Start(), {}, Ledger({}, {}, {});
    var gaps := [];
    SnapshotsAre(inp, 0);
    EmptyDone(inp);
    FirstCovered(inp, b);
    NoneMatched(inp, b);
    var k: nat := 0;
    if |inp.snaps| > 0 {
      b := Births(inp, 0, b, g);
      FirstDone(inp, b, g);
      FirstCovered(inp, b);
      FirstMatched(inp, b);
      SnapshotsAre(inp, 1);
      k := 1;
    }
    while k < |inp.snaps|
      invariant k <= |inp.snaps| && (|inp.snaps| > 0 ==> k > 0) && b == AfterSnapshots(inp, k)
          && tied == TiesThrough(inp, k)
      invariant Done(inp, b, g, k) && AllMatched(inp, b, k) && GapsTrue(inp, gaps) && GapsCovered(inp, b, gaps, k)
    {
      SnapshotsAre(inp, k);
      b, gaps, tied, g := Snapshot(inp, k, byParent, byChild, b, gaps, tied, g);
      k := k + 1;
    }
    BuiltIs(inp, b, g);
    candidates := FinalPass(inp, b, adjacent, gaps, g);
    MatchedAll(inp, b);
  }

  lemma BuiltIs(inp: Input, b: Builder, g: Ledger)
    requires Done(inp, b, g, |inp.snaps|)
    ensures Built(inp, b, g)
  {
    hide Done;
  }

  lemma NoneMatched(inp: Input, b: Builder)
    ensures AllMatched(inp, b, 0)
  {
    hide MatchedAt;
  }

  lemma FirstMatched(inp: Input, b: Builder)
    ensures AllMatched(inp, b, 1)
  {
    hide MatchedAt;
    NothingMatched(inp, b);
  }

  lemma MatchedAll(inp: Input, b: Builder)
    requires AllMatched(inp, b, |inp.snaps|)
    ensures forall k: nat | k < |inp.snaps| :: MatchedAt(inp, b, k)
  {
    hide MatchedAt;
  }
}
