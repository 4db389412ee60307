/** What the lineage depends on: only which member sets are observed in which snapshot. Confidence,
    metadata and the detector's labels make no difference to identities and events
    (analytics/lineage/tracker.py, `snapshot_observations` followed by `build_lineage`). */
module LineageShape {
  import opened Basics
  import opened LineageModel
  import opened LineageMatching
  import opened LineageBuilder
  import opened LineageTracker
  import opened LineageResurgence
  import opened LineageResult
  import opened LineageBuild
  import opened LineageLabels
  import opened LineageOutcome

  ghost predicate SameMembers(s: seq<Observation>, t: seq<Observation>) {
    |t| == |s| && forall i | 0 <= i < |s| :: t[i].members == s[i].members
  }

  /** The same member sets in the same places. */
  ghost predicate SameShape(inp: Input, alt: Input) {
    && alt.config == inp.config && |alt.snaps| == |inp.snaps|
    && forall k | 0 <= k < |inp.snaps| :: SameMembers(inp.snaps[k], alt.snaps[k])
  }

  // ----- links -----

  lemma SameKnown(inp: Input, alt: Input, o: ObsId)
    requires SameShape(inp, alt)
    ensures Known(alt, o) <==> Known(inp, o)
    ensures Known(inp, o) ==> Members(alt, o) == Members(inp, o)
  {
    if o.snap < |inp.snaps| { assert SameMembers(inp.snaps[o.snap], alt.snaps[o.snap]); }
  }

  lemma SameAccepted(inp: Input, alt: Input, p: ObsId, c: ObsId)
    requires SameShape(inp, alt)
    ensures Accepted(alt, p, c) <==> Accepted(inp, p, c)
  {
    hide Known, Material;
    SameKnown(inp, alt, p);
    SameKnown(inp, alt, c);
  }

  lemma {:induction false} SameChildrenFrom(inp: Input, alt: Input, p: ObsId, j: nat)
    requires SameShape(inp, alt) && p.snap + 1 < |inp.snaps| && j <= |inp.snaps[p.snap + 1]|
    ensures |alt.snaps[p.snap + 1]| == |inp.snaps[p.snap + 1]| && ChildrenFrom(alt, p, j) == ChildrenFrom(inp, p, j)
    decreases |inp.snaps[p.snap + 1]| - j
  {
    hide Accepted;
    assert SameMembers(inp.snaps[p.snap + 1], alt.snaps[p.snap + 1]);
    if j < |inp.snaps[p.snap + 1]| {
      SameAccepted(inp, alt, p, ObsId(p.snap + 1, j));
      SameChildrenFrom(inp, alt, p, j + 1);
    }
  }

  lemma {:induction false} SameParentsFrom(inp: Input, alt: Input, c: ObsId, j: nat)
    requires SameShape(inp, alt) && 0 < c.snap <= |inp.snaps| && j <= |inp.snaps[c.snap - 1]|
    ensures |alt.snaps[c.snap - 1]| == |inp.snaps[c.snap - 1]| && ParentsFrom(alt, c, j) == ParentsFrom(inp, c, j)
    decreases |inp.snaps[c.snap - 1]| - j
  {
    hide Accepted;
    assert SameMembers(inp.snaps[c.snap - 1], alt.snaps[c.snap - 1]);
    if j < |inp.snaps[c.snap - 1]| {
      SameAccepted(inp, alt, ObsId(c.snap - 1, j), c);
      SameParentsFrom(inp, alt, c, j + 1);
    }
  }

  lemma SameLinks(inp: Input, alt: Input, o: ObsId)
    requires SameShape(inp, alt)
    ensures Children(alt, o) == Children(inp, o) && Parents(alt, o) == Parents(inp, o)
  {
    if o.snap + 1 < |inp.snaps| { SameChildrenFrom(inp, alt, o, 0); }
    if 0 < o.snap <= |inp.snaps| { SameParentsFrom(inp, alt, o, 0); }
  }

  // ----- the loops -----

  lemma {:induction false} SameDeaths(inp: Input, alt: Input, b: Builder, k: nat, j: nat)
    requires SameShape(inp, alt) && k > 0
    ensures AfterDeaths(alt, b, k, j) == AfterDeaths(inp, b, k, j)
  {
    hide SameShape, Children, Parents, Die;
    if j > 0 {
      SameDeaths(inp, alt, b, k, j - 1);
      SameLinks(inp, alt, ObsId(k - 1, j - 1));
    }
  }

  lemma {:induction false} SameContinuations(inp: Input, alt: Input, b: Builder, k: nat, j: nat)
    requires SameShape(inp, alt)
    ensures AfterContinuations(alt, b, k, j) == AfterContinuations(inp, b, k, j)
  {
    hide SameShape, Children, Parents, GoOn;
    if j > 0 {
      SameContinuations(inp, alt, b, k, j - 1);
      var c := ObsId(k, j - 1);
      SameLinks(inp, alt, c);
      if |Parents(inp, c)| == 1 { SameLinks(inp, alt, Parents(inp, c)[0]); }
    }
  }

  lemma {:induction false} SameSplits(inp: Input, alt: Input, b: Builder, k: nat, j: nat)
    requires SameShape(inp, alt) && k > 0
    ensures AfterSplits(alt, b, k, j) == AfterSplits(inp, b, k, j)
  {
    hide SameShape, Children, Parents, AfterForks, AfterSplit;
    if j > 0 {
      SameSplits(inp, alt, b, k, j - 1);
      var r, p := AfterSplits(inp, b, k, j - 1), ObsId(k - 1, j - 1);
      SameLinks(inp, alt, p);
      SameSplit(inp, alt, r, p);
    }
  }

  lemma SameSplit(inp: Input, alt: Input, b: Builder, p: ObsId)
    requires SameShape(inp, alt)
    ensures AfterSplit(alt, b, p) == AfterSplit(inp, b, p)
  {
    hide SameShape, Children, Parents, AfterForks;
    SameLinks(inp, alt, p);
  }

  lemma {:induction false} SameMerges(inp: Input, alt: Input, b: Builder, k: nat, j: nat)
    requires SameShape(inp, alt)
    ensures AfterMerges(alt, b, k, j) == AfterMerges(inp, b, k, j)
  {
    hide SameShape, Children, Parents, AfterMerge;
    if j > 0 {
      SameMerges(inp, alt, b, k, j - 1);
      var r, c := AfterMerges(inp, b, k, j - 1), ObsId(k, j - 1);
      SameLinks(inp, alt, c);
      SameMerge(inp, alt, r, c);
    }
  }

  lemma SameMerge(inp: Input, alt: Input, b: Builder, c: ObsId)
    requires SameShape(inp, alt)
    ensures AfterMerge(alt, b, c) == AfterMerge(inp, b, c)
  {
    hide SameShape, Children, Parents, NewLineage;
    SameLinks(inp, alt, c);
  }

  lemma SameOffer(inp: Input, alt: Input, b: Builder, c: ObsId, l: nat)
    requires SameShape(inp, alt)
    ensures Offered(alt, b, l, c) <==> Offered(inp, b, l, c)
    ensures Offered(inp, b, l, c) ==> OfferOf(alt, l, b.dormant[l], c) == OfferOf(inp, l, b.dormant[l], c)
  {
    hide Known, Material, Score, Jaccard, Overlap;
    assert alt.config == inp.config;
    SameKnown(inp, alt, c);
    if l in b.dormant { SameKnown(inp, alt, b.dormant[l]); }
  }

  lemma {:induction false} SameOffersFor(inp: Input, alt: Input, b: Builder, c: ObsId, l: nat)
    requires SameShape(inp, alt)
    ensures OffersFor(alt, b, c, l) == OffersFor(inp, b, c, l)
  {
    hide SameShape, Offered, OfferOf;
    if l > 0 {
      SameOffersFor(inp, alt, b, c, l - 1);
      SameOffer(inp, alt, b, c, l - 1);
    }
  }

  lemma {:induction false} SameOffers(inp: Input, alt: Input, b: Builder, k: nat, j: nat)
    requires SameShape(inp, alt)
    ensures OffersUpTo(alt, b, k, j) == OffersUpTo(inp, b, k, j)
  {
    hide SameShape, OffersFor;
    if j > 0 {
      SameOffers(inp, alt, b, k, j - 1);
      SameOffersFor(inp, alt, b, ObsId(k, j - 1), b.next);
    }
  }

  lemma SameSizes(inp: Input, alt: Input, k: nat)
    requires SameShape(inp, alt) && k < |inp.snaps|
    ensures |alt.snaps| == |inp.snaps| && |alt.snaps[k]| == |inp.snaps[k]|
  {
    assert SameMembers(inp.snaps[k], alt.snaps[k]);
  }

  lemma SameSnapshot(inp: Input, alt: Input, b: Builder, k: nat)
    requires SameShape(inp, alt) && 0 < k < |inp.snaps| == |alt.snaps|
    ensures AfterSnapshot(alt, b, k) == AfterSnapshot(inp, b, k)
  {
    hide SameShape, AfterLinks, AfterResurgences, AfterBirths, OffersUpTo, SortBy, Choices, Greedy;
    SameSizes(inp, alt, k);
    SameLinked(inp, alt, b, k);
    SameOffers(inp, alt, AfterLinks(inp, b, k), k, |inp.snaps[k]|);
  }

  lemma SameTies(inp: Input, alt: Input, b: Builder, k: nat)
    requires SameShape(inp, alt) && k < |inp.snaps| == |alt.snaps|
    ensures TiesAt(alt, b, k) == TiesAt(inp, b, k)
  {
    hide SortBy, Choices, OffersUpTo, Ties;
    SameSizes(inp, alt, k);
    SameOffers(inp, alt, b, k, |inp.snaps[k]|);
    assert alt.config == inp.config;
    hide SameShape;
  }

  lemma SameLinked(inp: Input, alt: Input, b: Builder, k: nat)
    requires SameShape(inp, alt) && 0 < k < |inp.snaps| == |alt.snaps|
    ensures AfterLinks(alt, b, k) == AfterLinks(inp, b, k)
  {
    hide SameShape, AfterDeaths, AfterContinuations, AfterSplits, AfterMerges;
    SameSizes(inp, alt, k);
    SameSizes(inp, alt, k - 1);
    var parents, children := |inp.snaps[k - 1]|, |inp.snaps[k]|;
    SameDeaths(inp, alt, b, k, parents);
    var died := AfterDeaths(inp, b, k, parents);
    SameContinuations(inp, alt, died, k, children);
    var continued := AfterContinuations(inp, died, k, children);
    SameSplits(inp, alt, continued, k, parents);
    SameMerges(inp, alt, AfterSplits(inp, continued, k, parents), k, children);
  }

  lemma {:induction false} SameTiesThrough(inp: Input, alt: Input, k: nat)
    requires SameShape(inp, alt) && k <= |inp.snaps| == |alt.snaps|
    ensures TiesThrough(alt, k) == TiesThrough(inp, k)
  {
    hide SameShape, AfterSnapshots, AfterLinks, TiesAt;
    if k > 1 {
      SameTiesThrough(inp, alt, k - 1);
      SameSnapshots(inp, alt, k - 1);
      var b := AfterSnapshots(inp, k - 1);
      SameLinked(inp, alt, b, k - 1);
      SameTies(inp, alt, AfterLinks(inp, b, k - 1), k - 1);
    }
  }

  lemma {:induction false} SameSnapshots(inp: Input, alt: Input, k: nat)
    requires SameShape(inp, alt) && k <= |inp.snaps| == |alt.snaps|
    ensures AfterSnapshots(alt, k) == AfterSnapshots(inp, k)
  {
    hide SameShape, AfterSnapshot, AfterBirths;
    if k > 0 { SameSizes(inp, alt, 0); }
    if k > 1 {
      SameSnapshots(inp, alt, k - 1);
      SameSnapshot(inp, alt, AfterSnapshots(inp, k - 1), k - 1);
    }
  }

  /** The lineage is a function of the member sets alone: confidence and metadata never change an
      identity or an event, nor which resurgences compete. */
  lemma MembersDetermineTheLineage(inp: Input, alt: Input)
    requires SameShape(inp, alt)
    ensures LineageOf(alt) == LineageOf(inp) && TiesOf(alt) == TiesOf(inp)
  {
    SameSnapshots(inp, alt, |inp.snaps|);
    SameTiesThrough(inp, alt, |inp.snaps|);
  }

  // ----- scores and reasons -----

  ghost predicate SameButUncertain(s: seq<Reason>, t: seq<Reason>) {
    forall reason | reason != UncertainInput :: reason in s <==> reason in t
  }

  lemma SameLink(inp: Input, alt: Input, p: ObsId, c: ObsId)
    requires SameShape(inp, alt)
    ensures LinkKnown(alt, p, c) <==> LinkKnown(inp, p, c)
    ensures LinkKnown(inp, p, c) ==> LinkScore(alt, p, c) == LinkScore(inp, p, c)
    ensures LinkKnown(inp, p, c) ==> SameButUncertain(LinkReasons(alt, p, c), LinkReasons(inp, p, c))
  {
    hide Score, Material, Distance, Known, Members, Uncertain;
    assert alt.config == inp.config;
    SameKnown(inp, alt, p);
    SameKnown(inp, alt, c);
  }

  lemma {:induction false} SameMinScore(inp: Input, alt: Input, links: seq<Link>)
    requires SameShape(inp, alt) && links != [] && LinksKnown(inp, links) && LinksKnown(alt, links)
    ensures MinScore(alt, links) == MinScore(inp, links)
  {
    hide SameShape, LinkScore, LinkReasons, LinkKnown;
    assert links[0] in links && forall l | l in links[1..] :: l in links;
    SameLink(inp, alt, links[0].parent, links[0].child);
    if |links| > 1 { SameMinScore(inp, alt, links[1..]); }
  }

  lemma SameGiven(inp: Input, alt: Input, links: seq<Link>, reason: Reason)
    requires SameShape(inp, alt) && LinksKnown(inp, links) && LinksKnown(alt, links) && reason != UncertainInput
    ensures Given(alt, links, reason) <==> Given(inp, links, reason)
  {
    hide SameShape, LinkScore, LinkReasons, LinkKnown;
    forall l | l in links
      ensures reason in LinkReasons(alt, l.parent, l.child) <==> reason in LinkReasons(inp, l.parent, l.child)
    {
      SameLink(inp, alt, l.parent, l.child);
    }
  }

  lemma SameLinksKnown(inp: Input, alt: Input, e: Event)
    requires SameShape(inp, alt)
    ensures EventKnown(alt, e) <==> EventKnown(inp, e)
  {
    hide Known;
    forall o ensures Known(alt, o) <==> Known(inp, o) { SameKnown(inp, alt, o); }
  }

  /** Confidence decides only whether an event gives uncertain input as a reason. */
  lemma NotesDifferInUncertaintyOnly(inp: Input, alt: Input, e: Event, tied: set<ObsId>)
    requires SameShape(inp, alt)
    ensures var m, n := Annotate(inp, e, tied), Annotate(alt, e, tied);
      n.event == m.event && n.score == m.score && SameButUncertain(n.reasons, m.reasons)
  {
    hide SameShape, LinkScore, LinkReasons, LinkKnown, Uncertain, MinScore, AllReasons, AnyLow, EventKnown;
    SameLinksKnown(inp, alt, e);
    if EventKnown(inp, e) {
      if e.kind == Split || e.kind == Merge {
        SameBranch(inp, alt, e);
      } else if e.kind == Continuation || e.kind == Resurgence {
        OneLink(inp, e);
        SameLink(inp, alt, e.parents[0], e.children[0]);
      } else {
        OneObservation(inp, e);
        OneObservation(alt, e);
      }
    }
  }

  lemma OneLink(inp: Input, e: Event)
    requires EventKnown(inp, e) && (e.kind == Continuation || e.kind == Resurgence)
    ensures e.parents != [] && e.children != [] && LinkKnown(inp, e.parents[0], e.children[0])
  {
    hide LinkKnown;
    assert e.parents[0] in e.parents && e.children[0] in e.children;
  }

  lemma OneObservation(inp: Input, e: Event)
    requires EventKnown(inp, e) && (e.kind == Birth || e.kind == Death)
    ensures if e.kind == Birth then e.children != [] && Known(inp, e.children[0])
        else e.parents != [] && Known(inp, e.parents[0])
  {
    hide Known;
    if e.kind == Birth { assert e.children[0] in e.children; } else { assert e.parents[0] in e.parents; }
  }

  lemma SameBranch(inp: Input, alt: Input, e: Event)
    requires SameShape(inp, alt) && EventKnown(inp, e) && EventKnown(alt, e) && (e.kind == Split || e.kind == Merge)
    ensures LinksOf(e) != [] && LinksKnown(inp, LinksOf(e)) && LinksKnown(alt, LinksOf(e))
    ensures MinScore(alt, LinksOf(e)) == MinScore(inp, LinksOf(e))
    ensures SameButUncertain(AllReasons(alt, LinksOf(e)), AllReasons(inp, LinksOf(e)))
  {
    hide SameShape, LinkScore, LinkReasons, LinkKnown, Known, MinScore, Given, AllReasons, LinksOf;
    var links := LinksOf(e);
    LinksAll(e);
    assert LinksKnown(inp, links) && LinksKnown(alt, links);
    SameMinScore(inp, alt, links);
    forall reason | reason != UncertainInput
      ensures reason in AllReasons(alt, links) <==> reason in AllReasons(inp, links)
    {
      SameGiven(inp, alt, links, reason);
      GivenListed(inp, links, reason);
      GivenListed(alt, links, reason);
    }
  }

  // ----- from the detector's output -----

  function MembersOf(o: Observation): set<Member> { o.members }

  ghost predicate KeyLe(a: set<Member>, b: set<Member>) { LexLe(MemberKey(a), MemberKey(b)) }

  lemma KeyOrder(s: seq<set<Member>>)
    ensures TotalOrder(KeyLe) && Strict(s, KeyLe)
  {
    hide MemberKey, LexLe;
    forall a, b ensures (KeyLe(a, b) || KeyLe(b, a)) && (KeyLe(a, b) && KeyLe(b, a) ==> a == b) { KeysOrdered(a, b); }
    forall a, b, c | KeyLe(a, b) && KeyLe(b, c)
      ensures KeyLe(a, c)
    {
      LexTransitive(MemberKey(a), MemberKey(b), MemberKey(c));
    }
  }

  /** The member sets of a snapshot, in the order of the observations. */
  ghost function MembersInOrder(s: seq<Community>): seq<set<Member>> { Map(Observe(s), MembersOf) }

  lemma InKeyOrder(s: seq<Community>)
    ensures Sorted(MembersInOrder(s), KeyLe) && multiset(MembersInOrder(s)) == multiset(Map(StripAll(s), MembersOf))
  {
    hide SortBy, Canonical, LexLe, MemberKey, Map;
    OrdersAreTotal();
    SortIsSorted(s, Canonical);
    StripSorted(SortBy(s, Canonical));
    MapPermute(SortBy(s, Canonical), s, Strip);
    MapPermute(Observe(s), StripAll(s), MembersOf);
    MappedSorted(Observe(s));
  }

  lemma MappedSorted(s: seq<Observation>)
    requires Sorted(s, ByMembers)
    ensures Sorted(Map(s, MembersOf), KeyLe)
  {
    hide LexLe, MemberKey;
    var r := Map(s, MembersOf);
    forall i, j | 0 <= i < j < |r| ensures KeyLe(r[i], r[j]) { assert ByMembers(s[i], s[j]); }
  }

  /** Relabelling may exchange observations, but only ones with the same members. */
  lemma PlacesIgnoreLabels(s: seq<Community>, t: seq<Community>)
    requires Relabels(s, t)
    ensures SameMembers(Observe(s), Observe(t))
  {
    hide Observe, KeyLe, Map;
    InKeyOrder(s);
    InKeyOrder(t);
    assert StripAll(t) == StripAll(s) by { SameStripped(s, t); }
    KeyOrder(MembersInOrder(s));
    SortedUnique(MembersInOrder(s), MembersInOrder(t), KeyLe);
    Places(Observe(s), Observe(t));
  }

  lemma SameStripped(s: seq<Community>, t: seq<Community>)
    requires Relabels(s, t)
    ensures StripAll(t) == StripAll(s)
  {
  }

  lemma Places(s: seq<Observation>, t: seq<Observation>)
    requires Map(s, MembersOf) == Map(t, MembersOf)
    ensures SameMembers(s, t)
  {
    assert |Map(s, MembersOf)| == |s| && |Map(t, MembersOf)| == |t|;
    forall i | 0 <= i < |s| ensures t[i].members == s[i].members {
      assert Map(s, MembersOf)[i] == s[i].members && Map(t, MembersOf)[i] == t[i].members;
    }
  }

  /** What `build_lineage` is given: the observations of every snapshot. */
  ghost function InputOf(snapshots: seq<seq<Community>>, config: Config): Input {
    Input(Map(snapshots, Observe), config)
  }

  ghost predicate AllRelabelled(ss: seq<seq<Community>>, ts: seq<seq<Community>>) {
    |ts| == |ss| && forall k | 0 <= k < |ss| :: Relabels(ss[k], ts[k])
  }

  lemma RelabelledShape(ss: seq<seq<Community>>, ts: seq<seq<Community>>, config: Config)
    requires AllRelabelled(ss, ts)
    ensures SameShape(InputOf(ss, config), InputOf(ts, config))
  {
    hide Observe, Relabels;
    forall k | 0 <= k < |ss| ensures SameMembers(Observe(ss[k]), Observe(ts[k])) { PlacesIgnoreLabels(ss[k], ts[k]); }
  }

  /** Whatever labels the detector gives to its communities, identities and events are the same, with the
      same scores and the same reasons, uncertain input apart. */
  lemma LineageIgnoresLabels(ss: seq<seq<Community>>, ts: seq<seq<Community>>, config: Config)
    requires AllRelabelled(ss, ts)
    ensures var inp, alt := InputOf(ss, config), InputOf(ts, config);
      && LineageOf(alt) == LineageOf(inp) && TiesOf(alt) == TiesOf(inp)
      && forall e, tied ::
           var m, n := Annotate(inp, e, tied), Annotate(alt, e, tied);
           n.event == m.event && n.score == m.score && SameButUncertain(n.reasons, m.reasons)
  {
    hide LineageOf, TiesOf, InputOf, SameShape, Annotate, SameButUncertain;
    var inp, alt := InputOf(ss, config), InputOf(ts, config);
    RelabelledShape(ss, ts, config);
    MembersDetermineTheLineage(inp, alt);
    forall e, tied
      ensures var m, n := Annotate(inp, e, tied), Annotate(alt, e, tied);
        n.event == m.event && n.score == m.score && SameButUncertain(n.reasons, m.reasons)
    {
      NotesDifferInUncertaintyOnly(inp, alt, e, tied);
    }
  }

  /** Labels never change anything that the pass is given exactly when in every snapshot communities
      with the same members are otherwise alike. */
  lemma InputIgnoresLabelsExactly(ss: seq<seq<Community>>, config: Config)
    requires forall k | 0 <= k < |ss| :: DistinctBy(ss[k], TagOf)
    ensures (forall ts | AllRelabelled(ss, ts) :: InputOf(ts, config) == InputOf(ss, config))
            <==> forall k | 0 <= k < |ss| :: MembersTell(ss[k])
  {
    hide Observe, Relabels, MembersTell, DistinctBy;
    if forall k | 0 <= k < |ss| :: MembersTell(ss[k]) {
      forall ts | AllRelabelled(ss, ts) ensures InputOf(ts, config) == InputOf(ss, config) {
        forall k | 0 <= k < |ss| ensures Observe(ts[k]) == Observe(ss[k]) { RelabellingIsInvisible(ss[k], ts[k]); }
        assert Map(ts, Observe) == Map(ss, Observe);
      }
    } else {
      var k :| 0 <= k < |ss| && !MembersTell(ss[k]);
      LabelsMatterExactly(ss[k]);
      var t :| Relabels(ss[k], t) && Observe(t) != Observe(ss[k]);
      var ts := ss[k := t];
      forall i | 0 <= i < |ss| ensures Relabels(ss[i], ts[i]) { if i != k { KeepsLabels(ss[i]); } }
      assert InputOf(ts, config).snaps[k] != InputOf(ss, config).snaps[k];
    }
  }

  lemma KeepsLabels(s: seq<Community>)
    requires DistinctBy(s, TagOf)
    ensures Relabels(s, s)
  {
  }
}
