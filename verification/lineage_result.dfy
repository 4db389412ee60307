/** `build_lineage` as a whole (analytics/lineage/tracker.py): the pass over the snapshots, what
    it leaves behind, and that each snapshot's resurgences are a stable matching. */
module LineageResult {
  import opened Basics
  import opened LineageModel
  import opened LineageMatching
  import opened LineageBuilder
  import opened LineageTracker
  import opened LineageResurgence

  /** All snapshots before `k` are settled, and nothing else. */
  ghost predicate Done(inp: Input, b: Builder, g: Ledger, k: nat) {
    && Invariant(inp, b, g)
    && (forall o :: o in b.lin <==> Known(inp, o) && o.snap < k)
    && DeathsThrough(inp, g, k, 0) && SplitsThrough(inp, g, k, 0) && MergesThrough(inp, g, k, 0)
  }

  // ----- the resurgences of one snapshot, as a matching -----

  /** Before snapshot `k`, `p` was the last observation of its identity. */
  ghost predicate WasLast(b: Builder, p: ObsId, k: nat) {
    p in b.lin && p.snap < k && forall c | Follows(b, p, c) :: c.snap >= k
  }

  ghost predicate Scored(inp: Input, b: Builder, k: nat, p: ObsId, x: Choice<nat, ObsId>) {
    && p in b.lin && b.lin[p] == x.lineage && x.child.snap == k && Resurges(inp, p, x.child)
    && x.score == Score(inp.config, Members(inp, p), Members(inp, x.child))
  }

  /** A lineage that could resurge in snapshot `k`, and as which observation. */
  ghost predicate OptionAt(inp: Input, b: Builder, k: nat, x: Choice<nat, ObsId>) {
    exists p :: WasLast(b, p, k) && Scored(inp, b, k, p, x)
  }

  /** A lineage that did resurge in snapshot `k`. */
  ghost predicate TakenAt(inp: Input, b: Builder, k: nat, x: Choice<nat, ObsId>) {
    exists p :: Follows(b, p, x.child) && Scored(inp, b, k, p, x)
  }

  ghost predicate AllTaken(inp: Input, b: Builder, k: nat, s: seq<Choice<nat, ObsId>>) {
    IsMatching(s) && forall x :: x in s <==> TakenAt(inp, b, k, x)
  }

  ghost predicate Stable(inp: Input, b: Builder, k: nat, s: seq<Choice<nat, ObsId>>) {
    forall x | OptionAt(inp, b, k, x) :: x in s || Blocked(s, x)
  }

  ghost predicate Rival(inp: Input, b: Builder, k: nat, s: seq<Choice<nat, ObsId>>) {
    IsMatching(s) && forall x | x in s :: OptionAt(inp, b, k, x)
  }

  ghost predicate HalfOptimal(inp: Input, b: Builder, k: nat, s: seq<Choice<nat, ObsId>>) {
    forall rival | Rival(inp, b, k, rival) :: Total(rival) <= 2.0 * Total(s)
  }

  ghost predicate MatchedBy(inp: Input, b: Builder, k: nat, s: seq<Choice<nat, ObsId>>) {
    AllTaken(inp, b, k, s) && Stable(inp, b, k, s) && HalfOptimal(inp, b, k, s)
  }

  /** The resurgences of snapshot `k` form a matching, every option that was not taken is
      blocked by one of at least its score, and no matching has more than twice the total. */
  ghost predicate MatchedAt(inp: Input, b: Builder, k: nat) {
    exists s :: MatchedBy(inp, b, k, s)
  }

  // ----- later snapshots do not disturb it -----

  lemma FollowsBack(inp: Input, b: Builder, b': Builder, p: ObsId, c: ObsId)
    requires Identities(inp, b) && Identities(inp, b') && BuilderGrows(b, b') && Follows(b', p, c) && c in b.lin
    ensures Follows(b, p, c)
  {
    hide Successive, Starts, Known, NumbersAdvance, Chain;
    var m: nat, i: int :| FollowsAt(b'.ident, m, i, p, c);
    var j := OwnIdentity(inp, b, c);
    var l := b.lin[c];
    assert b'.ident[l][j] == c;
    SamePlace(inp, b', m, i, l, j);
    assert FollowsAt(b.ident, l, j, p, c);
  }

  lemma WasLastBack(inp: Input, b: Builder, b': Builder, p: ObsId, k: nat)
    requires BuilderGrows(b, b') && (forall o | Known(inp, o) && o.snap < k :: o in b.lin) && Known(inp, p)
    requires WasLast(b', p, k)
    ensures WasLast(b, p, k)
  {
    forall c | Follows(b, p, c) ensures c.snap >= k { FollowsGrows(b, b', p, c); }
  }

  lemma ScoredBack(inp: Input, b: Builder, b': Builder, k: nat, p: ObsId, x: Choice<nat, ObsId>)
    requires BuilderGrows(b, b') && p in b.lin
    ensures Scored(inp, b', k, p, x) <==> Scored(inp, b, k, p, x)
  {
    hide Resurges, Score;
  }

  lemma ScoredKnown(inp: Input, b: Builder, k: nat, p: ObsId, x: Choice<nat, ObsId>)
    requires Scored(inp, b, k, p, x)
    ensures Known(inp, p) && p.snap < k && Known(inp, x.child) && x.child.snap == k
  {
  }

  lemma OptionBack(inp: Input, b: Builder, b': Builder, k: nat, x: Choice<nat, ObsId>)
    requires BuilderGrows(b, b') && (forall o | Known(inp, o) && o.snap < k :: o in b.lin)
    ensures OptionAt(inp, b', k, x) ==> OptionAt(inp, b, k, x)
  {
    hide WasLast, Scored, Known, BuilderGrows;
    if OptionAt(inp, b', k, x) {
      var p :| WasLast(b', p, k) && Scored(inp, b', k, p, x);
      ScoredKnown(inp, b', k, p, x);
      WasLastBack(inp, b, b', p, k);
      ScoredBack(inp, b, b', k, p, x);
    }
  }

  lemma TakenBack(inp: Input, b: Builder, b': Builder, k: nat, x: Choice<nat, ObsId>)
    requires Identities(inp, b) && Identities(inp, b') && BuilderGrows(b, b')
    requires forall o | Known(inp, o) && o.snap <= k :: o in b.lin
    ensures TakenAt(inp, b', k, x) <==> TakenAt(inp, b, k, x)
  {
    hide Scored, Known, Identities, BuilderGrows, Follows;
    if TakenAt(inp, b', k, x) {
      var p :| Follows(b', p, x.child) && Scored(inp, b', k, p, x);
      ScoredKnown(inp, b', k, p, x);
      FollowsBack(inp, b, b', p, x.child);
      ScoredBack(inp, b, b', k, p, x);
    }
    if TakenAt(inp, b, k, x) {
      var p :| Follows(b, p, x.child) && Scored(inp, b, k, p, x);
      ScoredKnown(inp, b, k, p, x);
      FollowsGrows(b, b', p, x.child);
      ScoredBack(inp, b, b', k, p, x);
    }
  }

  lemma MatchedGrows(inp: Input, b: Builder, b': Builder, k: nat)
    requires Identities(inp, b) && Identities(inp, b') && BuilderGrows(b, b') && MatchedAt(inp, b, k)
    requires forall o | Known(inp, o) && o.snap <= k :: o in b.lin
    ensures MatchedAt(inp, b', k)
  {
    hide OptionAt, TakenAt, Known, Identities, BuilderGrows, IsMatching, Blocked, Total;
    forall x ensures OptionAt(inp, b', k, x) ==> OptionAt(inp, b, k, x) { OptionBack(inp, b, b', k, x); }
    forall x ensures TakenAt(inp, b', k, x) <==> TakenAt(inp, b, k, x) { TakenBack(inp, b, b', k, x); }
    var s :| MatchedBy(inp, b, k, s);
    forall rival | Rival(inp, b', k, rival) ensures Rival(inp, b, k, rival) {}
    assert MatchedBy(inp, b', k, s);
  }

  // ----- the greedy choice makes the snapshot matched -----

  lemma OptionIsOffered(inp: Input, b: Builder, g: Ledger, b': Builder, k: nat, x: Choice<nat, ObsId>,
        offers: seq<Offer>)
    requires k < |inp.snaps| && Settled(inp, b, g, k) && BuilderGrows(b, b')
    requires OffersAll(inp, b, k, offers, |inp.snaps[k]|, 0) && OptionAt(inp, b', k, x)
    ensures x in Choices(offers)
  {
    hide Choices, Settled, OffersAll, BuilderGrows, Offered, Score, Material;
    SettledKnows(inp, b, g, k);
    OptionBack(inp, b, b', k, x);
    var p :| WasLast(b, p, k) && Scored(inp, b, k, p, x);
    hide Resurges;
    DormantOption(inp, b, g, k, p, x);
    ListedOption(inp, b, k, x, offers);
    ChoiceListed(offers, OfferOf(inp, x.lineage, b.dormant[x.lineage], x.child));
  }

  lemma SettledKnows(inp: Input, b: Builder, g: Ledger, k: nat)
    requires Settled(inp, b, g, k)
    ensures forall o | Known(inp, o) && o.snap < k :: o in b.lin
    ensures forall o | o in b.lin :: o.snap <= k
    ensures Invariant(inp, b, g) && ChildrenDone(inp, b, k) && DeathsThrough(inp, g, k + 1, 0)
  {
    hide Invariant, ChildrenDone, DeathsThrough, Known;
  }

  lemma ListedOption(inp: Input, b: Builder, k: nat, x: Choice<nat, ObsId>, offers: seq<Offer>)
    requires k < |inp.snaps| && OffersAll(inp, b, k, offers, |inp.snaps[k]|, 0)
    requires x.child.snap == k && Offered(inp, b, x.lineage, x.child)
    ensures OfferOf(inp, x.lineage, b.dormant[x.lineage], x.child) in offers
  {
    hide Material, OfferOf;
  }

  lemma ChoiceListed(offers: seq<Offer>, o: Offer)
    requires o in offers
    ensures o.choice in Choices(offers)
  {
    var i :| 0 <= i < |offers| && offers[i] == o;
    assert Choices(offers)[i] == o.choice;
  }

  lemma ListedChoice(offers: seq<Offer>, x: Choice<nat, ObsId>) returns (o: Offer)
    requires x in Choices(offers)
    ensures o in offers && o.choice == x
  {
    var i :| 0 <= i < |Choices(offers)| && Choices(offers)[i] == x;
    o := offers[i];
  }

  /** A last observation that could resurge has died, so its lineage is dormant. */
  lemma DormantOption(inp: Input, b: Builder, g: Ledger, k: nat, p: ObsId, x: Choice<nat, ObsId>)
    requires Settled(inp, b, g, k) && WasLast(b, p, k) && Scored(inp, b, k, p, x)
    ensures x.lineage in b.dormant && b.dormant[x.lineage] == p
    ensures Offered(inp, b, x.lineage, x.child)
    ensures x == OfferOf(inp, x.lineage, p, x.child).choice
  {
    hide *;
    ScoredFacts(inp, b, k, p, x);
    SettledKnows(inp, b, g, k);
    HasDied(inp, g, k, p);
    NoParentsNoLineage(inp, b, k, x.child);
    LastIsLast(inp, b, g, k, p);
    Parts(inp, b, g);
    DormantOf(b, g, x.lineage);
    DormantFacts(inp, b, g, k, x.lineage);
    AssembleOffer(inp, b, k, p, x);
  }

  lemma ScoredFacts(inp: Input, b: Builder, k: nat, p: ObsId, x: Choice<nat, ObsId>)
    requires Scored(inp, b, k, p, x)
    ensures p in b.lin && b.lin[p] == x.lineage && Known(inp, p) && p.snap < k && Known(inp, x.child)
        && x.child.snap == k
    ensures Children(inp, p) == [] && Parents(inp, x.child) == []
  {
    hide Material, Score, Parents, Children;
  }

  lemma AssembleOffer(inp: Input, b: Builder, k: nat, p: ObsId, x: Choice<nat, ObsId>)
    requires Scored(inp, b, k, p, x) && x.lineage in b.dormant && b.dormant[x.lineage] == p
    requires x.lineage !in b.terminated && x.child !in b.lin
    ensures Known(inp, p) && Known(inp, x.child) && Offered(inp, b, x.lineage, x.child)
    ensures x == OfferOf(inp, x.lineage, p, x.child).choice
  {
    hide Material, Score, Parents, Children;
  }

  lemma DormantOf(b: Builder, g: Ledger, l: nat)
    requires DormantOk(b, g) && l in b.ident
    ensures b.ident[l] != [] && (Last(b.ident[l]) in g.died ==> l in b.dormant && b.dormant[l] == Last(b.ident[l]))
  {
  }

  lemma HasDied(inp: Input, g: Ledger, k: nat, p: ObsId)
    requires DeathsThrough(inp, g, k + 1, 0) && Known(inp, p) && p.snap < k && Children(inp, p) == []
    ensures p in g.died
  {
    hide Children, Known;
  }

  lemma NoParentsNoLineage(inp: Input, b: Builder, k: nat, c: ObsId)
    requires ChildrenDone(inp, b, k) && Known(inp, c) && c.snap == k && Parents(inp, c) == []
    ensures c !in b.lin
  {
    hide Parents, Known;
  }

  lemma LastIsLast(inp: Input, b: Builder, g: Ledger, k: nat, p: ObsId)
    requires Settled(inp, b, g, k) && WasLast(b, p, k) && Known(inp, p) && Children(inp, p) == []
    ensures b.lin[p] in b.ident && b.ident[b.lin[p]] != [] && Last(b.ident[b.lin[p]]) == p
  {
    hide *;
    SettledKnows(inp, b, g, k);
    Parts(inp, b, g);
    LastKnown(b, p, k);
    var i := OwnIdentity(inp, b, p);
    var s := b.ident[b.lin[p]];
    LastPlace(s, i);
    if i < |s| - 1 {
      NextFollows(b, b.lin[p], i);
      NotBefore(b, p, k, s[i + 1]);
      FollowsKnown(inp, b, p, s[i + 1]);
      ResurgedChild(inp, p, s[i + 1]);
      NoParentsNoLineage(inp, b, k, s[i + 1]);
      assert false;
    }
  }

  lemma LastKnown(b: Builder, p: ObsId, k: nat)
    requires WasLast(b, p, k)
    ensures p in b.lin && p.snap < k
  {
  }

  lemma ResurgedChild(inp: Input, p: ObsId, c: ObsId)
    requires Successive(inp, p, c) && Children(inp, p) == []
    ensures Known(inp, c) && Parents(inp, c) == []
  {
    hide Children, Parents, Material;
  }

  lemma LastPlace(s: seq<ObsId>, i: nat)
    requires i < |s|
    ensures i == |s| - 1 ==> Last(s) == s[i]
  {
  }

  lemma NextFollows(b: Builder, l: nat, i: nat)
    requires l in b.ident && i + 1 < |b.ident[l]|
    ensures Follows(b, b.ident[l][i], b.ident[l][i + 1])
  {
    assert FollowsAt(b.ident, l, i + 1, b.ident[l][i], b.ident[l][i + 1]);
  }

  lemma NotBefore(b: Builder, p: ObsId, k: nat, c: ObsId)
    requires WasLast(b, p, k) && Follows(b, p, c)
    ensures c.snap >= k
  {
    hide Follows;
  }

  lemma SortedChoices(offers: seq<Offer>)
    requires Sorted(offers, Before)
    ensures Sorted(Choices(offers), ByScore)
  {
  }

  lemma OfferScores(inp: Input, b: Builder, k: nat, offers: seq<Offer>)
    requires inp.config.Valid() && OffersTrue(inp, b, k, offers)
    ensures forall x | x in Choices(offers) :: x.score >= 0.0
  {
    hide Choices, Score, Offered;
    forall x | x in Choices(offers) ensures x.score >= 0.0 {
      var o := ListedChoice(offers, x);
      assert OfferTrue(inp, b, k, o);
      OfferedKnown(inp, b, x.lineage, x.child);
      var p, c := b.dormant[x.lineage], x.child;
      ScoreIsUnit(inp.config, Members(inp, p), Members(inp, c));
    }
  }

  lemma OfferedKnown(inp: Input, b: Builder, l: nat, c: ObsId)
    requires Offered(inp, b, l, c)
    ensures l in b.dormant && Known(inp, b.dormant[l]) && Known(inp, c)
  {
    hide Material;
  }

  /** What the greedy loop chose is what follows, by resurgence, in the new snapshot. */
  lemma ChosenAreTaken(inp: Input, b: Builder, g: Ledger, b1: Builder, b': Builder, k: nat, offers: seq<Offer>,
        chosen: seq<Choice<nat, ObsId>>, lineages: set<nat>, children: set<ObsId>, x: Choice<nat, ObsId>)
    requires Settled(inp, b, g, k) && OffersTrue(inp, b, k, offers) && Assigned(b, b1, chosen, lineages, children)
    requires BuilderGrows(b, b1) && BuilderGrows(b1, b') && Identities(inp, b1) && x in chosen && x in Choices(offers)
    ensures TakenAt(inp, b', k, x)
  {
    hide Settled, OffersTrue, Choices, Identities, BuilderGrows, DeathsThrough, Invariant, ChildrenDone, Resurges;
    hide Score, Material, Offered;
    SettledKnows(inp, b, g, k);
    var o := ListedChoice(offers, x);
    assert OfferTrue(inp, b, k, o) by { OfferTrueOf(inp, b, k, offers, o); }
    var l, c := x.lineage, x.child;
    OfferedKnown(inp, b, l, c);
    OfferResurges(inp, b, g, k, l, c);
    DormantFacts(inp, b, g, k, l);
    var p := b.dormant[l];
    assert WentOn(b, b1, l, c);
    assert FollowsAt(b1.ident, l, |b.ident[l]|, p, c);
    FollowsGrows(b1, b', p, c);
    GrownLineage(b, b', p, b1);
    hide Follows;
    assert Scored(inp, b', k, p, x);
  }

  lemma OfferTrueOf(inp: Input, b: Builder, k: nat, offers: seq<Offer>, o: Offer)
    requires OffersTrue(inp, b, k, offers) && o in offers
    ensures OfferTrue(inp, b, k, o)
  {
    hide OfferTrue;
  }

  lemma GrownLineage(b: Builder, b': Builder, p: ObsId, b1: Builder)
    requires BuilderGrows(b, b1) && BuilderGrows(b1, b') && p in b.lin
    ensures p in b'.lin && b'.lin[p] == b.lin[p]
  {
  }

  lemma TakenIsChosen(inp: Input, b: Builder, g: Ledger, b1: Builder, b': Builder, k: nat, offers: seq<Offer>,
        chosen: seq<Choice<nat, ObsId>>, lineages: set<nat>, children: set<ObsId>, p: ObsId, x: Choice<nat, ObsId>)
    requires Settled(inp, b, g, k) && Assigned(b, b1, chosen, lineages, children) && OffersTrue(inp, b, k, offers)
    requires forall y | y in chosen :: y in Choices(offers)
    requires BuilderGrows(b, b1) && BuilderGrows(b1, b') && Identities(inp, b1) && OnlyBirths(b1, b')
    requires Follows(b', p, x.child) && Scored(inp, b', k, p, x)
    ensures x in chosen && x.lineage in b.dormant && b.dormant[x.lineage] == p
  {
    hide Settled, OffersTrue, Choices, Identities, BuilderGrows, DeathsThrough, Invariant, ChildrenDone, Score;
    hide Material, Offered, LineageUsed;
    SettledKnows(inp, b, g, k);
    assert Follows(b1, p, x.child);
    FollowsKnown(inp, b1, p, x.child);
    NoParentsNoLineage(inp, b, k, x.child);
    assert ChildUsed(chosen, x.child);
    var y :| y in chosen && y.child == x.child;
    hide Resurges;
    assert WentOn(b, b1, y.lineage, y.child);
    var o := ListedChoice(offers, y);
    assert OfferTrue(inp, b, k, o) by { OfferTrueOf(inp, b, k, offers, o); }
    OfferedKnown(inp, b, y.lineage, y.child);
    DormantFacts(inp, b, g, k, y.lineage);
    var m: nat, i: int :| FollowsAt(b1.ident, m, i, p, x.child);
    SamePlace(inp, b1, m, i, y.lineage, |b.ident[y.lineage]|);
    assert p == b.dormant[y.lineage];
    GrownLineage(b, b', p, b1);
  }

  lemma TakenAreChosen(inp: Input, b: Builder, g: Ledger, b1: Builder, b': Builder, k: nat, offers: seq<Offer>,
        chosen: seq<Choice<nat, ObsId>>, lineages: set<nat>, children: set<ObsId>, x: Choice<nat, ObsId>)
    requires Settled(inp, b, g, k) && Assigned(b, b1, chosen, lineages, children) && OffersTrue(inp, b, k, offers)
    requires forall y | y in chosen :: y in Choices(offers)
    requires BuilderGrows(b, b1) && BuilderGrows(b1, b') && Identities(inp, b1) && OnlyBirths(b1, b')
    requires TakenAt(inp, b', k, x)
    ensures x in chosen
  {
    hide Follows, Scored, Settled, Assigned, OffersTrue, Choices, BuilderGrows, Identities, OnlyBirths;
    var p :| Follows(b', p, x.child) && Scored(inp, b', k, p, x);
    TakenIsChosen(inp, b, g, b1, b', k, offers, chosen, lineages, children, p, x);
  }

  /** The offers were listed for `b`, the greedy loop led to `b1`, the births to `b'`. */
  lemma SnapshotMatched(inp: Input, b: Builder, g: Ledger, b1: Builder, b': Builder, k: nat, offers: seq<Offer>,
        chosen: seq<Choice<nat, ObsId>>, lineages: set<nat>, children: set<ObsId>)
    requires inp.config.Valid() && k < |inp.snaps| && Settled(inp, b, g, k)
    requires OffersTrue(inp, b, k, offers) && OffersAll(inp, b, k, offers, |inp.snaps[k]|, 0) && Sorted(offers, Before)
    requires Assigned(b, b1, chosen, lineages, children) && chosen == Greedy(Choices(offers), {}, {})
    requires BuilderGrows(b, b1) && BuilderGrows(b1, b') && Identities(inp, b1) && OnlyBirths(b1, b')
    ensures MatchedBy(inp, b', k, chosen)
  {
    hide *;
    var options := Choices(offers);
    GreedyIsMatching(options, {}, {});
    SortedChoices(offers);
    OfferScores(inp, b, k, offers);
    BuilderGrowsTransitive(b, b1, b');
    forall x | x in chosen ensures TakenAt(inp, b', k, x) {
      ChosenAreTaken(inp, b, g, b1, b', k, offers, chosen, lineages, children, x);
    }
    forall x | TakenAt(inp, b', k, x) ensures x in chosen {
      TakenAreChosen(inp, b, g, b1, b', k, offers, chosen, lineages, children, x);
    }
    forall x | OptionAt(inp, b', k, x) ensures x in options && (x in chosen || Blocked(chosen, x)) {
      OptionIsOffered(inp, b, g, b', k, x, offers);
      GreedyIsStable(options, {}, {}, x);
    }
    forall rival | Rival(inp, b', k, rival) ensures Total(rival) <= 2.0 * Total(chosen) {
      RivalOptions(inp, b', k, rival, options);
      GreedyIsHalfOptimal(options, {}, {}, rival);
    }
    AssembleMatching(inp, b', k, chosen);
  }

  lemma RivalOptions(inp: Input, b: Builder, k: nat, rival: seq<Choice<nat, ObsId>>, options: seq<Choice<nat, ObsId>>)
    requires Rival(inp, b, k, rival) && forall x | OptionAt(inp, b, k, x) :: x in options
    ensures IsMatching(rival) && Avoids(rival, {}, {}) && forall x | x in rival :: x in options
  {
    hide OptionAt, IsMatching;
  }

  lemma AssembleMatching(inp: Input, b: Builder, k: nat, s: seq<Choice<nat, ObsId>>)
    requires IsMatching(s)
        && (forall x | x in s :: TakenAt(inp, b, k, x)) && (forall x | TakenAt(inp, b, k, x) :: x in s)
    requires forall x | OptionAt(inp, b, k, x) :: x in s || Blocked(s, x)
    requires forall rival | Rival(inp, b, k, rival) :: Total(rival) <= 2.0 * Total(s)
    ensures MatchedBy(inp, b, k, s)
  {
    hide IsMatching, TakenAt, OptionAt, Blocked, Rival, Total;
  }

  // ----- one snapshot -----

  /** Each pair that went on by resurgence before snapshot `k` was scored as a candidate. */
  ghost predicate GapsCovered(inp: Input, b: Builder, candidates: seq<Candidate>, k: nat) {
    forall p, c | Follows(b, p, c) && c.snap < k && Resurges(inp, p, c) :: GapListed(inp, p, c, candidates)
  }

  ghost predicate GapsCoveredAt(inp: Input, b: Builder, candidates: seq<Candidate>, k: nat) {
    forall p, c | Follows(b, p, c) && c.snap == k && Resurges(inp, p, c) :: GapListed(inp, p, c, candidates)
  }

  ghost predicate GapListed(inp: Input, p: ObsId, c: ObsId, candidates: seq<Candidate>) {
    Known(inp, p) && Known(inp, c) && p.snap < c.snap && GapCandidate(inp, p, c) in candidates
  }

  /** The builder after the four loops over the links into snapshot `k`. */
  function AfterLinks(inp: Input, b: Builder, k: nat): Builder
    requires 0 < k < |inp.snaps|
  {
    var died := AfterDeaths(inp, b, k, |inp.snaps[k - 1]|);
    var continued := AfterContinuations(inp, died, k, |inp.snaps[k]|);
    var forked := AfterSplits(inp, continued, k, |inp.snaps[k - 1]|);
    AfterMerges(inp, forked, k, |inp.snaps[k]|)
  }

  /** The builder after the resurgences and births of snapshot `k`. */
  function AfterRemainder(inp: Input, b: Builder, k: nat): Builder
    requires k < |inp.snaps|
  {
    AfterBirths(AfterResurgences(b, Greedy(OptionsAt(inp, b, k), {}, {})), k, |inp.snaps[k]|)
  }

  /** The resurgence options of snapshot `k`, best first. */
  function OptionsAt(inp: Input, b: Builder, k: nat): seq<Choice<nat, ObsId>>
    requires k < |inp.snaps|
  {
    Choices(SortBy(OffersUpTo(inp, b, k, |inp.snaps[k]|), Before))
  }

  /** The children of snapshot `k` whose resurgence is marked as competing with another one. */
  function TiesAt(inp: Input, b: Builder, k: nat): set<ObsId>
    requires k < |inp.snaps|
  {
    Ties(OptionsAt(inp, b, k), OptionsAt(inp, b, k), {}, {}, inp.config.lowConfidenceMargin)
  }

  function AfterSnapshot(inp: Input, b: Builder, k: nat): Builder
    requires 0 < k < |inp.snaps|
  {
    AfterRemainder(inp, AfterLinks(inp, b, k), k)
  }

  lemma OptionsSorted(inp: Input, b: Builder, k: nat)
    requires k < |inp.snaps|
    ensures Sorted(OptionsAt(inp, b, k), ByScore)
  {
    hide OffersUpTo, SortBy, Before;
    BeforeIsOrder();
    SortIsSorted(OffersUpTo(inp, b, k, |inp.snaps[k]|), Before);
    SortedChoices(SortBy(OffersUpTo(inp, b, k, |inp.snaps[k]|), Before));
  }

  /** The higher score comes first; then the higher Jaccard, the higher overlap, the lower lineage, the
      earlier child. */
  predicate Outranks(a: Offer, b: Offer) {
    var x, y := a.choice, b.choice;
    && x.score >= y.score
    && (x.score == y.score ==> a.jaccard >= b.jaccard)
    && (x.score == y.score && a.jaccard == b.jaccard ==> a.overlap >= b.overlap)
    && (x.score == y.score && a.jaccard == b.jaccard && a.overlap == b.overlap ==> x.lineage <= y.lineage)
    && (x.score == y.score && a.jaccard == b.jaccard && a.overlap == b.overlap && x.lineage == y.lineage ==>
          x.child.snap < y.child.snap || (x.child.snap == y.child.snap && x.child.rank <= y.child.rank))
  }

  /** An option that does not come about lost its lineage or its child to one that outranks it. */
  lemma RankDecides(inp: Input, b: Builder, k: nat, o: Offer)
    requires k < |inp.snaps| && o in OffersUpTo(inp, b, k, |inp.snaps[k]|)
    ensures var chosen := Greedy(OptionsAt(inp, b, k), {}, {});
      o.choice in chosen
      || exists e :: e in OffersUpTo(inp, b, k, |inp.snaps[k]|) && e.choice in chosen
                     && Conflict(e.choice, o.choice) && Outranks(e, o)
  {
    hide OffersUpTo, SortBy, Before, Greedy, Outranks;
    var listed := OffersUpTo(inp, b, k, |inp.snaps[k]|);
    var offers := SortBy(listed, Before);
    BeforeIsOrder();
    SortIsSorted(listed, Before);
    SameElements(listed, offers);
    var i :| 0 <= i < |offers| && offers[i] == o;
    GreedyTakesTheFirst(Choices(offers), {}, {}, i);
    var chosen := Greedy(Choices(offers), {}, {});
    if o.choice !in chosen {
      var j :| 0 <= j < i && Choices(offers)[j] in chosen && Conflict(Choices(offers)[j], Choices(offers)[i]);
      BeforeOutranks(offers[j], o);
      assert offers[j] in listed;
    }
  }

  lemma BeforeOutranks(a: Offer, b: Offer)
    requires Before(a, b)
    ensures Outranks(a, b)
  {
  }

  /** A chosen resurgence is marked as competing exactly when another lineage that no earlier choice had
      taken was an option for the same child, with a score less than the margin below. */
  lemma CompetingExactly(inp: Input, b: Builder, k: nat, i: nat)
    requires k < |inp.snaps| && i < |Greedy(OptionsAt(inp, b, k), {}, {})|
    ensures var options, chosen := OptionsAt(inp, b, k), Greedy(OptionsAt(inp, b, k), {}, {});
      var x := chosen[i];
      x.child in TiesAt(inp, b, k) <==>
        exists y ::
          y in options && y.child == x.child && y.lineage != x.lineage && y.lineage !in LineagesOf(chosen[..i])
                    && 0.0 <= x.score - y.score < inp.config.lowConfidenceMargin
  {
    hide OptionsAt, Ties, Greedy, ByScore;
    OptionsSorted(inp, b, k);
    var options := OptionsAt(inp, b, k);
    assert [] + options == options;
    TiesExact([], options, {}, {}, inp.config.lowConfidenceMargin, i);
    var chosen := Greedy(options, {}, {});
    assert {} + LineagesOf(chosen[..i]) == LineagesOf(chosen[..i]);
  }

  lemma LinksAre(inp: Input, b: Builder, k: nat, died: Builder, continued: Builder, forked: Builder, merged: Builder)
    requires 0 < k < |inp.snaps| && died == AfterDeaths(inp, b, k, |inp.snaps[k - 1]|)
    requires continued == AfterContinuations(inp, died, k, |inp.snaps[k]|)
    requires forked == AfterSplits(inp, continued, k, |inp.snaps[k - 1]|)
        && merged == AfterMerges(inp, forked, k, |inp.snaps[k]|)
    ensures merged == AfterLinks(inp, b, k)
  {
  }

  lemma RemainderIs(inp: Input, b: Builder, k: nat, offers: seq<Offer>, resurged: Builder, born: Builder,
        tied: set<ObsId>)
    requires k < |inp.snaps| && offers == SortBy(OffersUpTo(inp, b, k, |inp.snaps[k]|), Before)
    requires resurged == AfterResurgences(b, Greedy(Choices(offers), {}, {}))
        && born == AfterBirths(resurged, k, |inp.snaps[k]|)
    requires tied == Ties(Choices(offers), Choices(offers), {}, {}, inp.config.lowConfidenceMargin)
    ensures born == AfterRemainder(inp, b, k) && tied == TiesAt(inp, b, k)
  {
    hide Ties, Greedy;
  }

  lemma SnapshotIs(inp: Input, b: Builder, k: nat, linked: Builder, born: Builder)
    requires 0 < k < |inp.snaps| && linked == AfterLinks(inp, b, k) && born == AfterRemainder(inp, linked, k)
    ensures born == AfterSnapshot(inp, b, k)
  {
  }

  /** The loops over the links: deaths, continuations, splits, merges. */
  method LinkLoops(inp: Input, k: nat, byParent: map<ObsId, seq<ObsId>>, byChild: map<ObsId, seq<ObsId>>, b0: Builder,
        ghost g0: Ledger)
    returns (b: Builder, ghost g: Ledger)
    requires 0 < k < |inp.snaps| && LinksOk(inp, byParent, byChild) && Done(inp, b0, g0, k)
    ensures b == AfterLinks(inp, b0, k)
    ensures Settled(inp, b, g, k) && BuilderGrows(b0, b)
    ensures SplitsThrough(inp, g, k + 1, 0) && MergesThrough(inp, g, k + 1, 0)
  {
    hide *;
    DoneStands(inp, b0, g0, k);
    LinksSides(inp, byParent, byChild);
    b, g := Deaths(inp, k, byParent, b0, g0);
    ghost var g1 := g;
    LedgerSides(inp, g0, g1, k, 0);
    StandingParts(inp, b0, b, g, k);
    ghost var b1 := b;
    b := Continuations(inp, k, byParent, byChild, b, g);
    StandingParts(inp, b1, b, g, k);
    ContinuedOnly(inp, b, g, k);
    ghost var b2 := b;
    b, g := SplitPhase(inp, k, byParent, b, g);
    StandingParts(inp, b2, b, g, k);
    ghost var b3, g2 := b, g;
    LedgerSides(inp, g1, g2, k + 1, 0);
    LedgerSides(inp, g1, g2, k, 0);
    b, g := MergePhase(inp, k, byChild, b, g);
    LedgerSides(inp, g2, g, k + 1, 0);
    StandingParts(inp, b3, b, g, k);
    SplitIntoGrows(inp, b3, b, k, |inp.snaps[k - 1]|);
    ChildrenAreDone(inp, b, k);
    BuilderGrowsTransitive(b0, b1, b2);
    BuilderGrowsTransitive(b0, b2, b3);
    BuilderGrowsTransitive(b0, b3, b);
    AssembleSettled(inp, b, g, k);
    LinksAre(inp, b0, k, b1, b2, b3, b);
  }

  lemma LedgerSides(inp: Input, g: Ledger, h: Ledger, k: nat, j: nat)
    ensures h.died == g.died ==> DeathsThrough(inp, h, k, j) == DeathsThrough(inp, g, k, j)
    ensures h.splits == g.splits ==> SplitsThrough(inp, h, k, j) == SplitsThrough(inp, g, k, j)
    ensures h.merges == g.merges ==> MergesThrough(inp, h, k, j) == MergesThrough(inp, g, k, j)
  {
    hide Known, Children, Splits, Merges;
  }

  lemma DoneStands(inp: Input, b: Builder, g: Ledger, k: nat)
    requires Done(inp, b, g, k)
    ensures Standing(inp, b, b, g, k) && DeathsThrough(inp, g, k, 0) && SplitsThrough(inp, g, k, 0)
        && MergesThrough(inp, g, k, 0)
    ensures (forall o | o in b.lin :: o.snap < k) && forall o | Known(inp, o) && o.snap < k :: o in b.lin
  {
    hide Invariant, DeathsThrough, SplitsThrough, MergesThrough, Known;
  }

  lemma LinksSides(inp: Input, byParent: map<ObsId, seq<ObsId>>, byChild: map<ObsId, seq<ObsId>>)
    requires LinksOk(inp, byParent, byChild)
    ensures forall p | Known(inp, p) :: Lookup(byParent, p) == Children(inp, p)
    ensures forall c | Known(inp, c) :: Lookup(byChild, c) == Parents(inp, c)
  {
    hide Known, Children, Parents, Lookup;
  }

  /** A loop's result is the starting point of the next one. */
  lemma StandingParts(inp: Input, b0: Builder, b: Builder, g: Ledger, k: nat)
    requires Standing(inp, b0, b, g, k)
    ensures Standing(inp, b, b, g, k) && BuilderGrows(b0, b) && Invariant(inp, b, g) && Through(inp, b, k)
  {
    hide Invariant, BuilderGrows, Through;
    BuilderGrowsReflexive(b);
  }

  /** So far only continued observations of the snapshot have lineages. */
  lemma ContinuedOnly(inp: Input, b: Builder, g: Ledger, k: nat)
    requires k < |inp.snaps| && Invariant(inp, b, g) && ContinuedThrough(inp, b, k, |inp.snaps[k]|)
    ensures SplitInto(inp, b, k, 0) && OnlyChildren(inp, b, k)
  {
    hide *;
    Parts(inp, b, g);
    forall c | c in b.lin ensures Known(inp, c) { KnownOf(inp, b, c); }
    ContinuedParents(inp, b, k);
  }

  lemma ContinuedParents(inp: Input, b: Builder, k: nat)
    requires k < |inp.snaps| && ContinuedThrough(inp, b, k, |inp.snaps[k]|) && forall c | c in b.lin :: Known(inp, c)
    ensures SplitInto(inp, b, k, 0) && OnlyChildren(inp, b, k)
  {
    hide Children, Parents, Splits, Starts;
    forall c | c in b.lin && c.snap == k ensures Parents(inp, c) != [] { StartsIfParentless(inp, c); }
  }

  lemma KnownOf(inp: Input, b: Builder, c: ObsId)
    requires Identities(inp, b) && c in b.lin
    ensures Known(inp, c)
  {
  }

  lemma StartsIfParentless(inp: Input, c: ObsId)
    ensures Parents(inp, c) == [] ==> Starts(inp, c)
  {
  }

  lemma AssembleSettled(inp: Input, b: Builder, g: Ledger, k: nat)
    requires Standing(inp, b, b, g, k) && ChildrenDone(inp, b, k) && DeathsThrough(inp, g, k + 1, 0)
    ensures Settled(inp, b, g, k)
  {
    hide Standing, ChildrenDone, DeathsThrough;
  }

  lemma SnapshotCovered(inp: Input, b: Builder, g: Ledger, b1: Builder, b': Builder, k: nat, offers: seq<Offer>,
        gaps: seq<Candidate>, chosen: seq<Choice<nat, ObsId>>, lineages: set<nat>, children: set<ObsId>)
    requires k < |inp.snaps| && Settled(inp, b, g, k) && OffersTrue(inp, b, k, offers)
        && GapsOffered(inp, b, offers, gaps)
    requires Assigned(b, b1, chosen, lineages, children) && chosen == Greedy(Choices(offers), {}, {})
    requires BuilderGrows(b, b1) && BuilderGrows(b1, b') && Identities(inp, b') && Identities(inp, b1)
        && OnlyBirths(b1, b')
    ensures GapsCoveredAt(inp, b', gaps, k)
  {
    hide Settled, OffersTrue, GapsOffered, Assigned, Greedy, Choices, BuilderGrows, Identities, OnlyBirths, Follows;
    hide Score, Material, Offered, GapCandidate;
    GreedyIsMatching(Choices(offers), {}, {});
    forall p, c | Follows(b', p, c) && c.snap == k && Resurges(inp, p, c) ensures GapListed(inp, p, c, gaps) {
      FollowsKnown(inp, b', p, c);
      var x := Choice(b'.lin[p], c, Score(inp.config, Members(inp, p), Members(inp, c)));
      assert Scored(inp, b', k, p, x);
      TakenIsChosen(inp, b, g, b1, b', k, offers, chosen, lineages, children, p, x);
      var o := ListedChoice(offers, x);
      GapOf(inp, b, offers, gaps, o);
    }
  }

  lemma GapOf(inp: Input, b: Builder, offers: seq<Offer>, gaps: seq<Candidate>, o: Offer)
    requires GapsOffered(inp, b, offers, gaps) && o in offers
    ensures o.choice.lineage in b.dormant && GapListed(inp, b.dormant[o.choice.lineage], o.choice.child, gaps)
  {
    hide Material, GapCandidate;
    assert GapOffered(inp, b, o.choice.lineage, o.choice.child, gaps);
  }

  /** Resurgences, best first, and then births. */
  method Remainder(inp: Input, k: nat, b0: Builder, ghost g: Ledger) returns (b: Builder, gaps: seq<Candidate>,
        tied: set<ObsId>)
    requires inp.config.Valid() && 0 < k < |inp.snaps| && Settled(inp, b0, g, k)
    ensures b == AfterRemainder(inp, b0, k) && tied == TiesAt(inp, b0, k)
    ensures Standing(inp, b0, b, g, k) && MatchedAt(inp, b, k)
    ensures forall c | Known(inp, c) && c.snap == k :: c in b.lin
    ensures GapsTrue(inp, gaps) && GapsCoveredAt(inp, b, gaps, k)
  {
    hide *;
    SettledKnows(inp, b0, g, k);
    DormantKnown(inp, b0, g, k);
    var listed;
    listed, gaps := ListOffers(inp, k, b0);
    var offers := SortBy(listed, Before);
    SortOffers(inp, b0, k, listed, gaps);
    ghost var chosen;
    b, tied, chosen := Resurge(inp, k, offers, b0, g);
    ghost var lineages, children :| Assigned(b0, b, chosen, lineages, children);
    StandingParts(inp, b0, b, g, k);
    ghost var b1 := b;
    AssignedChildren(inp, b0, b1, k, chosen, lineages, children);
    b := Births(inp, k, b, g);
    StandingParts(inp, b1, b, g, k);
    Parts(inp, b1, g);
    Parts(inp, b, g);
    SnapshotMatched(inp, b0, g, b1, b, k, offers, chosen, lineages, children);
    MatchedByIs(inp, b, k, chosen);
    SnapshotCovered(inp, b0, g, b1, b, k, offers, gaps, chosen, lineages, children);
    BuilderGrowsTransitive(b0, b1, b);
    StandingFrom(inp, b0, b1, b, g, k);
    RemainderIs(inp, b0, k, offers, b1, b, tied);
  }

  lemma DormantKnown(inp: Input, b: Builder, g: Ledger, k: nat)
    requires Invariant(inp, b, g) && DeathsThrough(inp, g, k + 1, 0)
    ensures forall l | l in b.dormant :: 1 <= l < b.next && Known(inp, b.dormant[l])
  {
    hide Invariant, DeathsThrough, Known;
    forall l | l in b.dormant ensures 1 <= l < b.next && Known(inp, b.dormant[l]) { DormantFacts(inp, b, g, k, l); }
  }

  lemma SortOffers(inp: Input, b: Builder, k: nat, listed: seq<Offer>, gaps: seq<Candidate>)
    requires k < |inp.snaps| && OffersTrue(inp, b, k, listed) && OffersAll(inp, b, k, listed, |inp.snaps[k]|, 0)
        && GapsOffered(inp, b, listed, gaps)
    ensures var offers := SortBy(listed, Before);
            && Sorted(offers, Before) && OffersTrue(inp, b, k, offers)
               && OffersAll(inp, b, k, offers, |inp.snaps[k]|, 0)
            && GapsOffered(inp, b, offers, gaps)
  {
    hide SortBy, Before, OfferTrue, Offered, OfferOf, GapOffered;
    BeforeIsOrder();
    SortIsSorted(listed, Before);
    SameElements(listed, SortBy(listed, Before));
  }

  lemma AssignedChildren(inp: Input, b: Builder, b1: Builder, k: nat, chosen: seq<Choice<nat, ObsId>>,
        lineages: set<nat>, children: set<ObsId>)
    requires ChildrenDone(inp, b, k) && Assigned(b, b1, chosen, lineages, children)
    ensures BornThrough(inp, b1, k, 0)
  {
    hide Parents, Known, LineageUsed, ChildUsed, WentOn;
  }

  lemma MatchedByIs(inp: Input, b: Builder, k: nat, s: seq<Choice<nat, ObsId>>)
    requires MatchedBy(inp, b, k, s)
    ensures MatchedAt(inp, b, k)
  {
  }

  lemma StandingFrom(inp: Input, b0: Builder, b1: Builder, b: Builder, g: Ledger, k: nat)
    requires Standing(inp, b1, b, g, k) && BuilderGrows(b0, b)
    ensures Standing(inp, b0, b, g, k)
  {
    hide Invariant, Through, BuilderGrows;
  }

  /** Matched and covered, for all snapshots before `k`. */
  ghost predicate AllMatched(inp: Input, b: Builder, k: nat) {
    forall i: nat | i < k :: MatchedAt(inp, b, i)
  }

  method Snapshot(inp: Input, k: nat, byParent: map<ObsId, seq<ObsId>>, byChild: map<ObsId, seq<ObsId>>, b0: Builder,
        candidates0: seq<Candidate>, tied0: set<ObsId>, ghost g0: Ledger)
    returns (b: Builder, candidates: seq<Candidate>, tied: set<ObsId>, ghost g: Ledger)
    requires inp.config.Valid() && 0 < k < |inp.snaps| && LinksOk(inp, byParent, byChild)
    requires Done(inp, b0, g0, k) && AllMatched(inp, b0, k) && GapsTrue(inp, candidates0)
        && GapsCovered(inp, b0, candidates0, k)
    ensures b == AfterSnapshot(inp, b0, k) && tied == tied0 + TiesAt(inp, AfterLinks(inp, b0, k), k)
    ensures Done(inp, b, g, k + 1) && AllMatched(inp, b, k + 1)
    ensures GapsTrue(inp, candidates) && GapsCovered(inp, b, candidates, k + 1)
  {
    hide *;
    b, g := LinkLoops(inp, k, byParent, byChild, b0, g0);
    ghost var b1 := b;
    SettledKnows(inp, b1, g, k);
    var gaps;
    b, gaps, tied := Remainder(inp, k, b, g);
    tied := tied0 + tied;
    StandingParts(inp, b1, b, g, k);
    BuilderGrowsTransitive(b0, b1, b);
    candidates := candidates0 + gaps;
    AssembleDone(inp, b, g, k);
    DoneIdentities(inp, b0, g0, k);
    DoneIdentities(inp, b, g, k + 1);
    AllMatchedGrows(inp, b0, b, k);
    CoveredGrows(inp, b0, b, candidates0, gaps, k);
    SnapshotIs(inp, b0, k, b1, b);
  }

  lemma AssembleDone(inp: Input, b: Builder, g: Ledger, k: nat)
    requires Invariant(inp, b, g) && Through(inp, b, k) && forall c | Known(inp, c) && c.snap == k :: c in b.lin
    requires DeathsThrough(inp, g, k + 1, 0) && SplitsThrough(inp, g, k + 1, 0) && MergesThrough(inp, g, k + 1, 0)
    ensures Done(inp, b, g, k + 1)
  {
    hide DeathsThrough, SplitsThrough, MergesThrough, Known, Invariant;
    SettledThrough(inp, b, g, k);
    hide Through;
  }

  lemma SettledThrough(inp: Input, b: Builder, g: Ledger, k: nat)
    requires Invariant(inp, b, g) && Through(inp, b, k) && forall c | Known(inp, c) && c.snap == k :: c in b.lin
    ensures forall o :: o in b.lin <==> Known(inp, o) && o.snap < k + 1
  {
    hide Invariant, Known, Identities, EventsTrue, EventsComplete, LedgerOk, DormantOk, TerminatedOk, Balanced;
    hide DeathsBalanced;
    hide NoDuplicates;
    Parts(inp, b, g);
    forall o | o in b.lin ensures Known(inp, o) { KnownOf(inp, b, o); }
  }

  lemma DoneIdentities(inp: Input, b: Builder, g: Ledger, k: nat)
    requires Done(inp, b, g, k)
    ensures Identities(inp, b) && forall o :: o in b.lin <==> Known(inp, o) && o.snap < k
  {
    hide Identities, DeathsThrough, SplitsThrough, MergesThrough, Known, Invariant;
    Parts(inp, b, g);
  }

  lemma AllMatchedGrows(inp: Input, b0: Builder, b: Builder, k: nat)
    requires Identities(inp, b0) && Identities(inp, b) && BuilderGrows(b0, b) && AllMatched(inp, b0, k)
        && MatchedAt(inp, b, k)
    requires forall o :: o in b0.lin <==> Known(inp, o) && o.snap < k
    ensures AllMatched(inp, b, k + 1)
  {
    hide Identities, BuilderGrows, MatchedAt, Known;
    forall i: nat | i < k + 1 ensures MatchedAt(inp, b, i) {
      if i < k { MatchedGrows(inp, b0, b, i); }
    }
  }

  lemma CoveredGrows(inp: Input, b0: Builder, b: Builder, candidates: seq<Candidate>, gaps: seq<Candidate>, k: nat)
    requires Identities(inp, b0) && Identities(inp, b) && BuilderGrows(b0, b)
    requires forall o :: o in b0.lin <==> Known(inp, o) && o.snap < k
    requires GapsTrue(inp, candidates) && GapsCovered(inp, b0, candidates, k)
    requires GapsTrue(inp, gaps) && GapsCoveredAt(inp, b, gaps, k)
    ensures GapsTrue(inp, candidates + gaps) && GapsCovered(inp, b, candidates + gaps, k + 1)
  {
    hide Identities, BuilderGrows, Follows, GapTrue, Resurges, GapCandidate;
    var all := candidates + gaps;
    assert forall x :: x in all <==> x in candidates || x in gaps;
    forall p, c | Follows(b, p, c) && c.snap < k + 1 && Resurges(inp, p, c) ensures GapListed(inp, p, c, all) {
      if c.snap < k {
        FollowsKnown(inp, b, p, c);
        KnownOf(inp, b, c);
        FollowsBack(inp, b0, b, p, c);
        assert GapListed(inp, p, c, candidates);
      } else {
        assert GapListed(inp, p, c, gaps);
      }
    }
  }
}
