/** The last two loops of `build_lineage` (analytics/lineage/tracker.py): dormant lineages
    resurge as parentless observations, best match first; what is left over is born. */
module LineageResurgence {
  import opened Basics
  import opened LineageModel
  import opened LineageMatching
  import opened LineageBuilder
  import opened LineageTracker

  /** In the current snapshot exactly the observations with accepted parents have a lineage. */
  ghost predicate ChildrenDone(inp: Input, b: Builder, k: nat) {
    forall c | Known(inp, c) && c.snap == k :: c in b.lin <==> Parents(inp, c) != []
  }

  lemma ChildrenAreDone(inp: Input, b: Builder, k: nat)
    requires 0 < k < |inp.snaps| && OnlyChildren(inp, b, k)
    requires SplitInto(inp, b, k, |inp.snaps[k - 1]|) && MergedInto(inp, b, k, |inp.snaps[k]|)
    ensures ChildrenDone(inp, b, k)
  {
    hide Parents, Children, Splits, Merges;
    forall c | Known(inp, c) && c.snap == k && Parents(inp, c) != [] ensures c in b.lin {
      ChildKinds(inp, c);
      var p := Parents(inp, c)[0];
      assert p in Parents(inp, c);
      if Continues(inp, p, c) { assert !Starts(inp, c); }
    }
  }

  lemma SplitIntoGrows(inp: Input, b: Builder, b': Builder, k: nat, j: nat)
    requires SplitInto(inp, b, k, j) && BuilderGrows(b, b')
    ensures SplitInto(inp, b', k, j)
  {
    hide Children, Starts, Splits;
  }

  // ----- the options -----

  /** A resurgence option with its sort key. */
  datatype Offer = Offer(choice: Choice<nat, ObsId>, jaccard: real, overlap: real)

  predicate IdBefore(a: ObsId, b: ObsId) { a.snap < b.snap || (a.snap == b.snap && a.rank <= b.rank) }

  /** Higher score, then higher Jaccard, then higher overlap, then lineage, then child. */
  predicate Before(a: Offer, b: Offer) {
    if a.choice.score != b.choice.score then a.choice.score > b.choice.score
    else if a.jaccard != b.jaccard then a.jaccard > b.jaccard
    else if a.overlap != b.overlap then a.overlap > b.overlap
    else if a.choice.lineage != b.choice.lineage then a.choice.lineage < b.choice.lineage
    else IdBefore(a.choice.child, b.choice.child)
  }

  lemma BeforeIsOrder()
    ensures TotalOrder(Before) && Antisymmetric(Before)
  {
  }

  /** The order in which the dormant lineages are listed does not matter. */
  lemma ListingOrderIrrelevant(s: seq<Offer>, t: seq<Offer>)
    requires multiset(s) == multiset(t)
    ensures SortBy(s, Before) == SortBy(t, Before)
  {
    BeforeIsOrder();
    SortOrderIndependent(s, t, Before);
  }

  function Choices(offers: seq<Offer>): (r: seq<Choice<nat, ObsId>>)
    ensures |r| == |offers| && forall i | 0 <= i < |r| :: r[i] == offers[i].choice
  {
    if offers == [] then [] else [offers[0].choice] + Choices(offers[1..])
  }

  function OfferOf(inp: Input, l: nat, p: ObsId, c: ObsId): Offer
    requires Known(inp, p) && Known(inp, c)
  {
    Offer(Choice(l, c, Score(inp.config, Members(inp, p), Members(inp, c))),
          Jaccard(Members(inp, p), Members(inp, c)), Overlap(Members(inp, p), Members(inp, c)))
  }

  function GapCandidate(inp: Input, p: ObsId, c: ObsId): Candidate
    requires Known(inp, p) && Known(inp, c) && p.snap < c.snap
  {
    Candidate(p, c, c.snap - p.snap - 1, Score(inp.config, Members(inp, p), Members(inp, c)),
              Material(inp.config, Members(inp, p), Members(inp, c), true))
  }

  /** What the inner loop checks before it scores lineage `l` against child `c`. */
  predicate Considered(inp: Input, b: Builder, l: nat, c: ObsId) {
    && l in b.dormant && l !in b.terminated && Known(inp, b.dormant[l])
    && Known(inp, c) && c !in b.lin
    && 1 <= c.snap - b.dormant[l].snap - 1 <= inp.config.maximumGap
  }

  predicate Offered(inp: Input, b: Builder, l: nat, c: ObsId) {
    Considered(inp, b, l, c) && Material(inp.config, Members(inp, b.dormant[l]), Members(inp, c), true)
  }

  ghost predicate OfferTrue(inp: Input, b: Builder, k: nat, o: Offer) {
    && o.choice.child.snap == k && Offered(inp, b, o.choice.lineage, o.choice.child)
    && o == OfferOf(inp, o.choice.lineage, b.dormant[o.choice.lineage], o.choice.child)
  }

  ghost predicate OffersTrue(inp: Input, b: Builder, k: nat, offers: seq<Offer>) {
    forall o | o in offers :: OfferTrue(inp, b, k, o)
  }

  /** Every option for the children before position `j`, and for child `j` the lineages before `m`. */
  ghost predicate OffersAll(inp: Input, b: Builder, k: nat, offers: seq<Offer>, j: nat, m: nat) {
    forall l: nat, c: ObsId | c.snap == k && Offered(inp, b, l, c) && (c.rank < j || (c.rank == j && l < m)) ::
      OfferOf(inp, l, b.dormant[l], c) in offers
  }

  ghost predicate GapTrue(inp: Input, x: Candidate) {
    && Known(inp, x.parent) && Known(inp, x.child) && x.parent.snap < x.child.snap
    && 1 <= x.gap <= inp.config.maximumGap && x == GapCandidate(inp, x.parent, x.child)
  }

  ghost predicate GapsTrue(inp: Input, candidates: seq<Candidate>) {
    forall x | x in candidates :: GapTrue(inp, x)
  }

  ghost predicate GapsOffered(inp: Input, b: Builder, offers: seq<Offer>, candidates: seq<Candidate>) {
    forall o | o in offers :: GapOffered(inp, b, o.choice.lineage, o.choice.child, candidates)
  }

  ghost predicate GapOffered(inp: Input, b: Builder, l: nat, c: ObsId, candidates: seq<Candidate>) {
    Offered(inp, b, l, c) && GapCandidate(inp, b.dormant[l], c) in candidates
  }

  /** The options of one child with the lineages before `l`, in order. */
  function OffersFor(inp: Input, b: Builder, c: ObsId, l: nat): seq<Offer> {
    if l == 0 then []
    else
      OffersFor(inp, b, c, l - 1) + if Offered(inp, b, l - 1, c) then [OfferOf(inp, l - 1, b.dormant[l - 1], c)] else []
  }

  /** The options of the first `j` children of snapshot `k`. */
  function OffersUpTo(inp: Input, b: Builder, k: nat, j: nat): seq<Offer> {
    if j == 0 then []
    else
      OffersUpTo(inp, b, k, j - 1) + if ObsId(k, j - 1) in b.lin then [] else OffersFor(inp, b, ObsId(k, j - 1), b.next)
  }

  method ListOffers(inp: Input, k: nat, b: Builder) returns (offers: seq<Offer>, candidates: seq<Candidate>)
    requires k < |inp.snaps| && forall l | l in b.dormant :: 1 <= l < b.next && Known(inp, b.dormant[l])
    ensures offers == OffersUpTo(inp, b, k, |inp.snaps[k]|)
    ensures OffersTrue(inp, b, k, offers) && OffersAll(inp, b, k, offers, |inp.snaps[k]|, 0)
    ensures GapsTrue(inp, candidates) && GapsOffered(inp, b, offers, candidates)
  {
    hide OffersTrue, OffersAll, GapsTrue, GapsOffered;
    offers, candidates := [], [];
    NoOffers(inp, b, k);
    for j := 0 to |inp.snaps[k]|
      invariant offers == OffersUpTo(inp, b, k, j)
      invariant OffersTrue(inp, b, k, offers) && OffersAll(inp, b, k, offers, j, 0)
      invariant GapsTrue(inp, candidates) && GapsOffered(inp, b, offers, candidates)
    {
      var child := ObsId(k, j);
      if child !in b.lin {
        offers, candidates := ListChild(inp, k, j, b, offers, candidates);
      } else {
        NoneForChild(inp, k, j, b, offers);
      }
    }
  }

  method ListChild(inp: Input, k: nat, j: nat, b: Builder, offers0: seq<Offer>, candidates0: seq<Candidate>)
    returns (offers: seq<Offer>, candidates: seq<Candidate>)
    requires k < |inp.snaps| && j < |inp.snaps[k]| && ObsId(k, j) !in b.lin
    requires forall l | l in b.dormant :: 1 <= l < b.next && Known(inp, b.dormant[l])
    requires OffersTrue(inp, b, k, offers0) && OffersAll(inp, b, k, offers0, j, 0)
    requires GapsTrue(inp, candidates0) && GapsOffered(inp, b, offers0, candidates0)
    ensures offers == offers0 + OffersFor(inp, b, ObsId(k, j), b.next)
    ensures OffersTrue(inp, b, k, offers) && OffersAll(inp, b, k, offers, j + 1, 0)
    ensures GapsTrue(inp, candidates) && GapsOffered(inp, b, offers, candidates)
  {
    hide OffersTrue, OffersAll, GapsTrue, GapsOffered, Material;
    offers, candidates := offers0, candidates0;
    var child := ObsId(k, j);
    for l := 0 to b.next
      invariant offers == offers0 + OffersFor(inp, b, child, l)
      invariant OffersTrue(inp, b, k, offers) && OffersAll(inp, b, k, offers, j, l)
      invariant GapsTrue(inp, candidates) && GapsOffered(inp, b, offers, candidates)
    {
      NextOffer(inp, k, j, b, l, offers, candidates);
      if l in b.dormant && l !in b.terminated {
        var gap := k - b.dormant[l].snap - 1;
        if 1 <= gap <= inp.config.maximumGap {
          var candidate := GapCandidate(inp, b.dormant[l], child);
          candidates := candidates + [candidate];
          if candidate.accepted {
            offers := offers + [OfferOf(inp, l, b.dormant[l], child)];
          }
        }
      }
    }
    AllForChild(inp, k, j, b, offers);
  }

  lemma NoOffers(inp: Input, b: Builder, k: nat)
    ensures OffersTrue(inp, b, k, []) && OffersAll(inp, b, k, [], 0, 0)
    ensures GapsTrue(inp, []) && GapsOffered(inp, b, [], [])
  {
    hide Offered;
  }

  lemma NoneForChild(inp: Input, k: nat, j: nat, b: Builder, offers: seq<Offer>)
    requires ObsId(k, j) in b.lin && OffersAll(inp, b, k, offers, j, 0)
    ensures OffersAll(inp, b, k, offers, j + 1, 0)
  {
    hide Material, OfferOf;
  }

  lemma AllForChild(inp: Input, k: nat, j: nat, b: Builder, offers: seq<Offer>)
    requires OffersAll(inp, b, k, offers, j, b.next) && forall l | l in b.dormant :: 1 <= l < b.next
    ensures OffersAll(inp, b, k, offers, j + 1, 0)
  {
    hide Material, OfferOf;
  }

  /** One round of the inner loop keeps the lists of options and candidates right. */
  lemma NextOffer(inp: Input, k: nat, j: nat, b: Builder, l: nat, offers: seq<Offer>, candidates: seq<Candidate>)
    requires k < |inp.snaps| && j < |inp.snaps[k]| && ObsId(k, j) !in b.lin
    requires forall l | l in b.dormant :: Known(inp, b.dormant[l])
    requires OffersTrue(inp, b, k, offers) && OffersAll(inp, b, k, offers, j, l)
    requires GapsTrue(inp, candidates) && GapsOffered(inp, b, offers, candidates)
    ensures !Offered(inp, b, l, ObsId(k, j)) ==> OffersAll(inp, b, k, offers, j, l + 1)
    ensures Offered(inp, b, l, ObsId(k, j)) ==>
      var more := offers + [OfferOf(inp, l, b.dormant[l], ObsId(k, j))];
      && OffersTrue(inp, b, k, more) && OffersAll(inp, b, k, more, j, l + 1)
      && GapsOffered(inp, b, more, candidates + [GapCandidate(inp, b.dormant[l], ObsId(k, j))])
    ensures Considered(inp, b, l, ObsId(k, j)) ==>
      var more := candidates + [GapCandidate(inp, b.dormant[l], ObsId(k, j))];
      GapsTrue(inp, more) && GapsOffered(inp, b, offers, more)
  {
    hide Material, Score, Jaccard, Overlap;
    if Offered(inp, b, l, ObsId(k, j)) {
      var o := OfferOf(inp, l, b.dormant[l], ObsId(k, j));
      assert OfferTrue(inp, b, k, o);
      AppendMembers(offers, o);
    }
    hide Offered, OfferOf;
    if Considered(inp, b, l, ObsId(k, j)) {
      var x := GapCandidate(inp, b.dormant[l], ObsId(k, j));
      assert GapTrue(inp, x);
      AppendMembers(candidates, x);
    }
  }

  // ----- what is known about dormant lineages -----

  lemma DormantFacts(inp: Input, b: Builder, g: Ledger, k: nat, l: nat)
    requires Invariant(inp, b, g) && DeathsThrough(inp, g, k + 1, 0) && l in b.dormant
    ensures l in b.ident && b.ident[l] != [] && Last(b.ident[l]) == b.dormant[l] && 1 <= l < b.next
        && l !in b.terminated
    ensures b.dormant[l] in g.died && b.dormant[l] in b.lin && b.lin[b.dormant[l]] == l
    ensures Known(inp, b.dormant[l]) && b.dormant[l].snap < k && Children(inp, b.dormant[l]) == []
  {
    hide Children, Parents, EventsTrue, EventsComplete, Balanced, DeathsBalanced, NoDuplicates, Branched, ChainsOk;
    hide NumbersAdvance;
    var p := Last(b.ident[l]);
    assert b.ident[l][|b.ident[l]| - 1] in b.lin;
    BranchedBranches(inp, b, g, p);
    FatesExclude(inp, p);
  }

  lemma OfferResurges(inp: Input, b: Builder, g: Ledger, k: nat, l: nat, c: ObsId)
    requires Invariant(inp, b, g) && DeathsThrough(inp, g, k + 1, 0) && ChildrenDone(inp, b, k)
    requires c.snap == k && Offered(inp, b, l, c)
    ensures Resurges(inp, b.dormant[l], c)
  {
    hide Invariant, DeathsThrough, Parents, Children, Material;
    DormantFacts(inp, b, g, k, l);
  }

  // ----- the greedy loop -----

  ghost predicate LineageUsed(chosen: seq<Choice<nat, ObsId>>, l: nat) {
    exists x :: x in chosen && x.lineage == l
  }

  ghost predicate ChildUsed(chosen: seq<Choice<nat, ObsId>>, c: ObsId) {
    exists x :: x in chosen && x.child == c
  }

  /** Lineage and child of a chosen option: the one goes on with the other. */
  ghost predicate WentOn(b0: Builder, b: Builder, l: nat, c: ObsId) {
    && l in b0.ident && l in b.ident && b.ident[l] == b0.ident[l] + [c]
    && c in b.lin && b.lin[c] == l
  }

  /** The builder after the choices made so far, against the one before the loop. */
  ghost predicate Assigned(b0: Builder, b: Builder, chosen: seq<Choice<nat, ObsId>>, lineages: set<nat>,
        children: set<ObsId>) {
    && (forall c :: c in b.lin <==> c in b0.lin || c in children)
    && b.dormant == b0.dormant - lineages && b.terminated == b0.terminated
    && (forall l | l in b0.ident && l !in lineages :: l in b.ident && b.ident[l] == b0.ident[l])
    && (forall x | x in chosen :: WentOn(b0, b, x.lineage, x.child))
    && (forall l :: l in lineages <==> LineageUsed(chosen, l))
    && (forall c :: c in children <==> ChildUsed(chosen, c))
  }

  lemma NothingAssigned(b: Builder)
    ensures Assigned(b, b, [], {}, {})
  {
  }

  lemma ChosenMembers(chosen: seq<Choice<nat, ObsId>>, y: Choice<nat, ObsId>)
    ensures forall x :: x in chosen + [y] <==> x in chosen || x == y
    ensures forall l :: LineageUsed(chosen + [y], l) <==> LineageUsed(chosen, l) || l == y.lineage
    ensures forall c :: ChildUsed(chosen + [y], c) <==> ChildUsed(chosen, c) || c == y.child
  {
    var more := chosen + [y];
    assert more[|chosen|] == y;
    forall x ensures x in more <==> x in chosen || x == y {}
    forall l ensures LineageUsed(more, l) <==> LineageUsed(chosen, l) || l == y.lineage {
      if LineageUsed(chosen, l) { var x :| x in chosen && x.lineage == l; assert x in more; }
      if l == y.lineage { assert y in more; }
    }
    forall c ensures ChildUsed(more, c) <==> ChildUsed(chosen, c) || c == y.child {
      if ChildUsed(chosen, c) { var x :| x in chosen && x.child == c; assert x in more; }
      if c == y.child { assert y in more; }
    }
  }

  lemma AssignOne(b0: Builder, b: Builder, chosen: seq<Choice<nat, ObsId>>, lineages: set<nat>, children: set<ObsId>,
        x: Choice<nat, ObsId>, e: Event)
    requires Assigned(b0, b, chosen, lineages, children)
    requires x.lineage in b0.ident && x.lineage !in lineages && x.child !in b.lin && x.lineage in b.ident
    ensures Assigned(b0, GoOn(b, x.lineage, x.child, e), chosen + [x], lineages + {x.lineage}, children + {x.child})
  {
    hide LineageUsed, ChildUsed;
    var b' := GoOn(b, x.lineage, x.child, e);
    GoOnShape(b, x.lineage, x.child, e);
    ChosenMembers(chosen, x);
    forall y | y in chosen + [x] ensures WentOn(b0, b', y.lineage, y.child) {
      if y in chosen { UsedOf(chosen, y); }
    }
  }

  lemma UsedOf(chosen: seq<Choice<nat, ObsId>>, y: Choice<nat, ObsId>)
    requires y in chosen
    ensures LineageUsed(chosen, y.lineage) && ChildUsed(chosen, y.child)
  {
  }

  /** The builder after these resurgences of lineages that were dormant in `b`. */
  function AfterResurgences(b: Builder, chosen: seq<Choice<nat, ObsId>>): Builder
    decreases |chosen|
  {
    if chosen == [] then b
    else AfterResurgence(b, AfterResurgences(b, chosen[..|chosen| - 1]), chosen[|chosen| - 1])
  }

  function AfterResurgence(b: Builder, r: Builder, x: Choice<nat, ObsId>): Builder {
    if x.lineage in b.dormant && b.dormant[x.lineage] in r.lin && x.lineage in r.ident
    then GoOn(r, x.lineage, x.child, ResurgenceOf(r.lin, b.dormant[x.lineage], x.child))
    else r
  }

  lemma NoResurgences(b: Builder)
    ensures AfterResurgences(b, []) == b
  {
  }

  lemma ResurgenceSteps(b0: Builder, b: Builder, chosen: seq<Choice<nat, ObsId>>, x: Choice<nat, ObsId>)
    ensures b == AfterResurgences(b0, chosen) ==> AfterResurgences(b0, chosen + [x]) == AfterResurgence(b0, b, x)
  {
    hide AfterResurgence;
    assert (chosen + [x])[..|chosen|] == chosen;
  }

  /** Before the loop: the snapshot's children are settled and the deaths are known. */
  ghost predicate Settled(inp: Input, b: Builder, g: Ledger, k: nat) {
    Standing(inp, b, b, g, k) && ChildrenDone(inp, b, k) && DeathsThrough(inp, g, k + 1, 0)
  }

  method Resurge(inp: Input, k: nat, offers: seq<Offer>, b0: Builder, ghost g: Ledger)
    returns (b: Builder, tied: set<ObsId>, ghost chosen: seq<Choice<nat, ObsId>>)
    requires k < |inp.snaps| && Settled(inp, b0, g, k) && OffersTrue(inp, b0, k, offers)
    ensures Standing(inp, b0, b, g, k) && chosen == Greedy(Choices(offers), {}, {})
    ensures b == AfterResurgences(b0, chosen)
    ensures tied == Ties(Choices(offers), Choices(offers), {}, {}, inp.config.lowConfidenceMargin)
    ensures exists lineages, children :: Assigned(b0, b, chosen, lineages, children)
  {
    hide Standing, Settled, OffersTrue, Assigned, Greedy, Choices, Offered, OfferOf, AfterResurgences, Ties, Tied;
    b, tied, chosen := b0, {}, [];
    SettledStands(inp, b0, g, k);
    NothingAssigned(b0);
    NoResurgences(b0);
    var lineages: set<nat>, children: set<ObsId> := {}, {};
    var all, margin := Choices(offers), inp.config.lowConfidenceMargin;
    assert all[0..] == all && [] + Greedy(all, {}, {}) == Greedy(all, {}, {})
      && {} + Ties(all, all, {}, {}, margin) == Ties(all, all, {}, {}, margin);
    for i := 0 to |offers|
      invariant Standing(inp, b0, b, g, k) && Assigned(b0, b, chosen, lineages, children)
      invariant b == AfterResurgences(b0, chosen)
      invariant chosen + Greedy(all[i..], lineages, children) == Greedy(all, {}, {})
      invariant tied + Ties(all[i..], all, lineages, children, margin) == Ties(all, all, {}, {}, margin)
    {
      var x := offers[i].choice;
      assert all[i..][0] == x && all[i..][1..] == all[i + 1..];
      GreedyStep(all[i..], lineages, children);
      TiesStep(all[i..], all, lineages, children, margin);
      if x.lineage !in lineages && x.child !in children {
        assert OfferTrue(inp, b0, k, offers[i]) by { OfferAt(inp, b0, k, offers, i); }
        ResurgeOne(inp, b0, b, g, k, chosen, lineages, children, x);
        var p := b0.dormant[x.lineage];
        var e := ResurgenceOf(b.lin, p, x.child);
        assert chosen + ([x] + Greedy(all[i + 1..], lineages + {x.lineage}, children + {x.child}))
            == (chosen + [x]) + Greedy(all[i + 1..], lineages + {x.lineage}, children + {x.child});
        ResurgenceSteps(b0, b, chosen, x);
        b := GoOn(b, x.lineage, x.child, e);
        if Tied(all, x, lineages, margin) { tied := tied + {x.child}; }
        chosen := chosen + [x];
        lineages, children := lineages + {x.lineage}, children + {x.child};
      }
    }
    GreedyStep(all[|offers|..], lineages, children);
    TiesStep(all[|offers|..], all, lineages, children, margin);
    assert chosen + [] == chosen;
  }

  lemma SettledStands(inp: Input, b: Builder, g: Ledger, k: nat)
    requires Settled(inp, b, g, k)
    ensures Standing(inp, b, b, g, k)
  {
    hide Standing;
  }

  lemma OfferAt(inp: Input, b: Builder, k: nat, offers: seq<Offer>, i: nat)
    requires OffersTrue(inp, b, k, offers) && i < |offers|
    ensures OfferTrue(inp, b, k, offers[i])
  {
    hide OfferTrue;
  }

  lemma GreedyStep(options: seq<Choice<nat, ObsId>>, lineages: set<nat>, children: set<ObsId>)
    ensures options == [] ==> Greedy(options, lineages, children) == []
    ensures options != [] ==>
      Greedy(options, lineages, children) ==
        if options[0].lineage in lineages || options[0].child in children then Greedy(options[1..], lineages, children)
        else [options[0]] + Greedy(options[1..], lineages + {options[0].lineage}, children + {options[0].child})
  {
  }

  lemma TiesStep(options: seq<Choice<nat, ObsId>>, all: seq<Choice<nat, ObsId>>, lineages: set<nat>,
        children: set<ObsId>, margin: real)
    ensures options == [] ==> Ties(options, all, lineages, children, margin) == {}
    ensures options != [] ==>
      var x := options[0];
      Ties(options, all, lineages, children, margin) ==
        if x.lineage in lineages || x.child in children then Ties(options[1..], all, lineages, children, margin)
        else (if Tied(all, x, lineages, margin) then {x.child} else {})
             + Ties(options[1..], all, lineages + {x.lineage}, children + {x.child}, margin)
  {
    hide Tied;
  }

  lemma ResurgeOne(inp: Input, b0: Builder, b: Builder, g: Ledger, k: nat, chosen: seq<Choice<nat, ObsId>>,
        lineages: set<nat>, children: set<ObsId>, x: Choice<nat, ObsId>)
    requires Settled(inp, b0, g, k) && Standing(inp, b0, b, g, k) && Assigned(b0, b, chosen, lineages, children)
    requires x.child.snap == k && Offered(inp, b0, x.lineage, x.child) && x.lineage !in lineages && x.child !in children
    ensures x.lineage in b0.dormant && b0.dormant[x.lineage] in b.lin && x.lineage in b.ident
    ensures var b' := GoOn(b, x.lineage, x.child, ResurgenceOf(b.lin, b0.dormant[x.lineage], x.child));
            Standing(inp, b0, b', g, k) && Assigned(b0, b', chosen + [x], lineages + {x.lineage}, children + {x.child})
  {
    hide Invariant, DeathsThrough, ChildrenDone, Material, Resurges, LineageUsed, ChildUsed, BuilderGrows, Through;
    OfferResurges(inp, b0, g, k, x.lineage, x.child);
    DormantFacts(inp, b0, g, k, x.lineage);
    assert x.lineage in b.dormant;
    DormantFacts(inp, b, g, k, x.lineage);
    var p := b0.dormant[x.lineage];
    assert b.dormant[x.lineage] == p;
    var e := ResurgenceOf(b.lin, p, x.child);
    var b' := GoOn(b, x.lineage, x.child, e);
    ThroughBounds(inp, b, k);
    assert MayGoOn(inp, b, x.lineage, p, x.child, e);
    GoOnKeeps(inp, b, g, x.lineage, p, x.child, e);
    GoOnGrows(b, x.lineage, x.child, e);
    BuilderGrowsTransitive(b0, b, b');
    GoOnShape(b, x.lineage, x.child, e);
    assert Through(inp, b', k) by { ThroughMore(inp, b, b', k, x.child); }
    hide Assigned, MayGoOn, Offered;
    assert x.lineage in b0.ident;
    AssignOne(b0, b, chosen, lineages, children, x, e);
  }

  lemma ThroughBounds(inp: Input, b: Builder, k: nat)
    requires Through(inp, b, k)
    ensures forall o | o in b.lin :: o.snap <= k
  {
    hide Known;
  }

  lemma ThroughMore(inp: Input, b: Builder, b': Builder, k: nat, c: ObsId)
    requires Through(inp, b, k) && c.snap == k && forall o :: o in b'.lin <==> o in b.lin || o == c
    ensures Through(inp, b', k)
  {
    hide Known;
  }

  // ----- births -----

  /** Births start identities of their own: no observation gets a new successor. */
  ghost predicate OnlyBirths(b0: Builder, b: Builder) {
    forall p, c | Follows(b, p, c) :: Follows(b0, p, c)
  }

  ghost predicate BornThrough(inp: Input, b: Builder, k: nat, j: nat) {
    forall c | Known(inp, c) && c.snap == k && (Parents(inp, c) != [] || c.rank < j) :: c in b.lin
  }

  /** The builder after the first `j` observations of snapshot `k` were born, if they had no lineage. */
  function AfterBirths(b: Builder, k: nat, j: nat): Builder {
    if j == 0 then b
    else
      var r := AfterBirths(b, k, j - 1);
      if ObsId(k, j - 1) in r.lin then r else Bear(r, ObsId(k, j - 1))
  }

  /** Births of the observations of snapshot `k` that have no lineage yet. */
  method Births(inp: Input, k: nat, b0: Builder, ghost g: Ledger) returns (b: Builder)
    requires k < |inp.snaps| && Standing(inp, b0, b0, g, k) && BornThrough(inp, b0, k, 0)
    ensures b == AfterBirths(b0, k, |inp.snaps[k]|)
    ensures Standing(inp, b0, b, g, k) && OnlyBirths(b0, b)
    ensures forall c | Known(inp, c) && c.snap == k :: c in b.lin
  {
    hide Invariant, BuilderGrows, Through, Parents, Bear, OnlyBirths, BornThrough, Known;
    b := b0;
    BirthsNone(b);
    for j := 0 to |inp.snaps[k]|
      invariant b == AfterBirths(b0, k, j)
      invariant Standing(inp, b0, b, g, k) && OnlyBirths(b0, b) && BornThrough(inp, b, k, j)
    {
      var c := ObsId(k, j);
      if c !in b.lin {
        BirthOne(inp, b0, b, g, k, j);
        b := Bear(b, c);
      } else {
        BornAlready(inp, b, k, j);
      }
    }
    AllBorn(inp, b, k);
  }

  lemma BirthsNone(b: Builder)
    ensures OnlyBirths(b, b)
  {
  }

  lemma BornAlready(inp: Input, b: Builder, k: nat, j: nat)
    requires BornThrough(inp, b, k, j) && ObsId(k, j) in b.lin
    ensures BornThrough(inp, b, k, j + 1)
  {
    hide Parents, Known;
  }

  lemma AllBorn(inp: Input, b: Builder, k: nat)
    requires k < |inp.snaps| && BornThrough(inp, b, k, |inp.snaps[k]|)
    ensures forall c | Known(inp, c) && c.snap == k :: c in b.lin
  {
    hide Parents;
  }

  lemma BirthOne(inp: Input, b0: Builder, b: Builder, g: Ledger, k: nat, j: nat)
    requires k < |inp.snaps| && j < |inp.snaps[k]| && Standing(inp, b0, b, g, k) && OnlyBirths(b0, b)
        && BornThrough(inp, b, k, j)
    requires ObsId(k, j) !in b.lin
    ensures var b' := Bear(b, ObsId(k, j));
            Standing(inp, b0, b', g, k) && OnlyBirths(b0, b') && BornThrough(inp, b', k, j + 1)
  {
    hide Invariant, BuilderGrows, Through, Parents, Bear, OnlyBirths, BornThrough;
    var c := ObsId(k, j);
    var b' := Bear(b, c);
    assert Parents(inp, c) == [] by { BornUnless(inp, b, k, j); }
    ThroughBounds(inp, b, k);
    BearKeeps(inp, b, g, c);
    BearGrows(inp, b, g, c);
    BuilderGrowsTransitive(b0, b, b');
    ThroughMore(inp, b, b', k, c);
    BirthFollows(b0, b, b');
    BornMore(inp, b, b', k, j);
  }

  lemma BornUnless(inp: Input, b: Builder, k: nat, j: nat)
    requires BornThrough(inp, b, k, j) && Known(inp, ObsId(k, j)) && ObsId(k, j) !in b.lin
    ensures Parents(inp, ObsId(k, j)) == []
  {
    hide Parents, Known;
  }

  lemma BearGrows(inp: Input, b: Builder, g: Ledger, c: ObsId)
    requires Invariant(inp, b, g) && c !in b.lin
    ensures BuilderGrows(b, Bear(b, c)) && forall o :: o in Bear(b, c).lin <==> o in b.lin || o == c
    ensures OnlyBirths(b, Bear(b, c))
  {
    hide Identities, EventsTrue, EventsComplete, LedgerOk, DormantOk, TerminatedOk, Balanced, DeathsBalanced;
    hide NoDuplicates;
    NumberedOf(inp, b);
    var n := NewLineage(b, c);
    NewLineageGrows(b, c);
    AppendMembers(b.events, BirthOf(n.lin, c));
    forall p, x | Follows(Bear(b, c), p, x) ensures Follows(b, p, x) {
      assert Follows(n, p, x);
      NewFollows(b, c, p, x);
    }
  }

  lemma BirthFollows(b0: Builder, b: Builder, b': Builder)
    requires OnlyBirths(b0, b) && OnlyBirths(b, b')
    ensures OnlyBirths(b0, b')
  {
    hide Follows;
  }

  lemma BornMore(inp: Input, b: Builder, b': Builder, k: nat, j: nat)
    requires BornThrough(inp, b, k, j) && forall o :: o in b'.lin <==> o in b.lin || o == ObsId(k, j)
    ensures BornThrough(inp, b', k, j + 1)
  {
    hide Parents, Known;
  }
}
