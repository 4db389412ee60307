/** The result of `build_lineage` (analytics/lineage/tracker.py): every link and event with its score,
    its confidence flag and the reasons for it, in their final order. */
module LineageOutcome {
  import opened Basics
  import opened LineageModel
  import opened LineageBuilder
  import opened LineageTracker
  import opened LineageBuild

  /** In alphabetical order of the reason texts. */
  datatype Reason = CompetingMatch | NearThreshold | ObservationGap | UncertainInput

  datatype Noted = Noted(event: Event, score: Option<real>, low: bool, reasons: seq<Reason>)

  datatype ScoredLink = ScoredLink(candidate: Candidate, jaccard: real, overlap: real, low: bool, reasons: seq<Reason>)

  datatype Identity = Identity(lineage: nat, observations: seq<ObsId>)

  datatype Outcome = Outcome(
    candidates: seq<ScoredLink>,
    events: seq<Noted>,
    identities: seq<Identity>,
    lineages: map<ObsId, nat>)

  // ----- one link -----

  predicate Uncertain(inp: Input, o: ObsId)
    requires Known(inp, o)
  {
    inp.snaps[o.snap][o.rank].confidence < inp.config.inputConfidenceThreshold
  }

  /** By how much the better of the two similarities exceeds its threshold. */
  function Distance(c: Config, left: set<Member>, right: set<Member>, resurgence: bool): real {
    var jaccard := Jaccard(left, right) - if resurgence then c.resurgenceJaccard else c.minimumJaccard;
    var overlap := Overlap(left, right) - if resurgence then c.resurgenceOverlap else c.minimumOverlap;
    if jaccard >= overlap then jaccard else overlap
  }

  predicate LinkKnown(inp: Input, p: ObsId, c: ObsId) { Known(inp, p) && Known(inp, c) && p.snap < c.snap }

  function LinkScore(inp: Input, p: ObsId, c: ObsId): real
    requires LinkKnown(inp, p, c)
  {
    Score(inp.config, Members(inp, p), Members(inp, c))
  }

  predicate Near(inp: Input, p: ObsId, c: ObsId)
    requires LinkKnown(inp, p, c)
  {
    var gapped := c.snap > p.snap + 1;
    && Material(inp.config, Members(inp, p), Members(inp, c), gapped)
    && Distance(inp.config, Members(inp, p), Members(inp, c), gapped) < inp.config.lowConfidenceMargin
  }

  /** The reasons that `_score` gives; a link across a gap is one for a resurgence. */
  function LinkReasons(inp: Input, p: ObsId, c: ObsId): seq<Reason>
    requires LinkKnown(inp, p, c)
  {
    (if Uncertain(inp, p) || Uncertain(inp, c) then [UncertainInput] else [])
    + (if Near(inp, p, c) then [NearThreshold] else [])
    + (if c.snap > p.snap + 1 then [ObservationGap] else [])
  }

  /** Near its threshold is a material link with neither similarity the margin above its threshold. */
  lemma NearExactly(inp: Input, p: ObsId, c: ObsId)
    requires LinkKnown(inp, p, c)
    ensures var gapped, g := c.snap > p.snap + 1, inp.config;
      var jaccard := Jaccard(Members(inp, p), Members(inp, c));
      var overlap := Overlap(Members(inp, p), Members(inp, c));
      var j := if gapped then g.resurgenceJaccard else g.minimumJaccard;
      var o := if gapped then g.resurgenceOverlap else g.minimumOverlap;
      NearThreshold in LinkReasons(inp, p, c) <==>
        (jaccard >= j || overlap >= o) && jaccard < j + g.lowConfidenceMargin && overlap < o + g.lowConfidenceMargin
  {
    hide Jaccard, Overlap;
  }

  /** The other reasons: a confidence below the threshold on either side, and a missed snapshot between. */
  lemma ReasonsExactly(inp: Input, p: ObsId, c: ObsId)
    requires LinkKnown(inp, p, c)
    ensures UncertainInput in LinkReasons(inp, p, c) <==>
      || inp.snaps[p.snap][p.rank].confidence < inp.config.inputConfidenceThreshold
      || inp.snaps[c.snap][c.rank].confidence < inp.config.inputConfidenceThreshold
    ensures ObservationGap in LinkReasons(inp, p, c) <==> c.snap >= p.snap + 2
    ensures CompetingMatch !in LinkReasons(inp, p, c) && NoDuplicates(LinkReasons(inp, p, c))
  {
    hide Near;
  }

  // ----- one event -----

  /** The shape of the events that the pass emits. */
  predicate EventKnown(inp: Input, e: Event) {
    && (match e.kind
        case Birth => |e.children| == 1 && e.parents == []
        case Death => |e.parents| == 1 && e.children == []
        case Continuation => |e.parents| == 1 && |e.children| == 1
        case Resurgence => |e.parents| == 1 && |e.children| == 1
        case Split => |e.parents| == 1 && |e.children| > 1
        case Merge => |e.parents| > 1 && |e.children| == 1)
    && (forall p | p in e.parents :: Known(inp, p))
    && (forall c | c in e.children :: Known(inp, c))
    && (forall p, c | p in e.parents && c in e.children :: LinkKnown(inp, p, c))
  }

  datatype Link = Link(parent: ObsId, child: ObsId)

  function LinksFrom(p: ObsId, children: seq<ObsId>): (r: seq<Link>)
    ensures |r| == |children| && forall i | 0 <= i < |r| :: r[i] == Link(p, children[i])
  {
    if children == [] then [] else [Link(p, children[0])] + LinksFrom(p, children[1..])
  }

  function LinksInto(parents: seq<ObsId>, c: ObsId): (r: seq<Link>)
    ensures |r| == |parents| && forall i | 0 <= i < |r| :: r[i] == Link(parents[i], c)
  {
    if parents == [] then [] else [Link(parents[0], c)] + LinksInto(parents[1..], c)
  }

  /** The links that an event stands for: none for births and deaths. */
  function LinksOf(e: Event): (r: seq<Link>)
    ensures forall l | l in r :: l.parent in e.parents && l.child in e.children
  {
    if |e.parents| == 1 then LinksFrom(e.parents[0], e.children)
    else if |e.children| == 1 then LinksInto(e.parents, e.children[0])
    else []
  }

  predicate LinksKnown(inp: Input, links: seq<Link>) { forall l | l in links :: LinkKnown(inp, l.parent, l.child) }

  function MinScore(inp: Input, links: seq<Link>): real
    requires links != [] && LinksKnown(inp, links)
  {
    assert links[0] in links && forall l | l in links[1..] :: l in links;
    var first := LinkScore(inp, links[0].parent, links[0].child);
    if |links| == 1 then first
    else
      var rest := MinScore(inp, links[1..]);
      if first <= rest then first else rest
  }

  predicate AnyLow(inp: Input, links: seq<Link>)
    requires LinksKnown(inp, links)
  {
    exists l | l in links :: LinkReasons(inp, l.parent, l.child) != []
  }

  predicate Given(inp: Input, links: seq<Link>, reason: Reason)
    requires LinksKnown(inp, links)
  {
    exists l | l in links :: reason in LinkReasons(inp, l.parent, l.child)
  }

  /** The reasons of all links, each once, in alphabetical order. */
  function AllReasons(inp: Input, links: seq<Link>): seq<Reason>
    requires LinksKnown(inp, links)
  {
    (if Given(inp, links, CompetingMatch) then [CompetingMatch] else [])
    + (if Given(inp, links, NearThreshold) then [NearThreshold] else [])
    + (if Given(inp, links, ObservationGap) then [ObservationGap] else [])
    + (if Given(inp, links, UncertainInput) then [UncertainInput] else [])
  }

  /** Score, flag and reasons of an event, given the children whose resurgence competed with another. */
  function NoteOf(inp: Input, e: Event, tied: set<ObsId>): Noted
    requires EventKnown(inp, e)
  {
    match e.kind
    case Birth => NoteOne(inp, e, e.children[0])
    case Death => NoteOne(inp, e, e.parents[0])
    case Continuation =>
      var reasons := LinkReasons(inp, e.parents[0], e.children[0]);
      Noted(e, Some(LinkScore(inp, e.parents[0], e.children[0])), reasons != [], reasons)
    case Resurgence =>
      var reasons, competes := LinkReasons(inp, e.parents[0], e.children[0]), e.children[0] in tied;
      Noted(e, Some(LinkScore(inp, e.parents[0], e.children[0])), reasons != [] || competes,
            reasons + if competes then [CompetingMatch] else [])
    case _ =>
      var links := LinksOf(e);
      Noted(e, Some(MinScore(inp, links)), AnyLow(inp, links), AllReasons(inp, links))
  }

  function NoteOne(inp: Input, e: Event, o: ObsId): Noted
    requires Known(inp, o)
  {
    Noted(e, None, Uncertain(inp, o), if Uncertain(inp, o) then [UncertainInput] else [])
  }

  lemma {:induction false} MinScoreIsLeast(inp: Input, links: seq<Link>)
    requires links != [] && LinksKnown(inp, links)
    ensures exists l :: l in links && LinkScore(inp, l.parent, l.child) == MinScore(inp, links)
    ensures forall l | l in links :: MinScore(inp, links) <= LinkScore(inp, l.parent, l.child)
  {
    hide LinkScore, LinkKnown;
    assert links == [links[0]] + links[1..];
    if |links| > 1 {
      MinScoreIsLeast(inp, links[1..]);
      var l :| l in links[1..] && LinkScore(inp, l.parent, l.child) == MinScore(inp, links[1..]);
      assert l in links && links[0] in links;
    } else {
      assert links[0] in links;
    }
  }

  /** An event is flagged exactly when it gives a reason. A resurgence always is. */
  lemma FlaggedExactly(inp: Input, e: Event, tied: set<ObsId>)
    requires EventKnown(inp, e) && (e.kind == Resurgence ==> e.children[0].snap > e.parents[0].snap + 1)
    ensures var n := NoteOf(inp, e, tied);
      && n.event == e && (n.low <==> n.reasons != [])
      && (e.kind == Resurgence ==> n.low && ObservationGap in n.reasons)
      && (e.kind == Resurgence ==> (CompetingMatch in n.reasons <==> e.children[0] in tied))
  {
    hide LinkScore, MinScore, Near;
    if e.kind == Split || e.kind == Merge {
      hide LinkReasons;
      AnyLowExactly(inp, LinksOf(e));
    }
  }

  /** An event gives the reasons of its links, a birth or death that of its one observation, and a resurgence
      also that it competes. */
  lemma EventReasonsExactly(inp: Input, e: Event, tied: set<ObsId>, reason: Reason)
    requires EventKnown(inp, e)
    ensures reason in NoteOf(inp, e, tied).reasons <==>
      || (exists p, c :: p in e.parents && c in e.children && reason in LinkReasons(inp, p, c))
      || (reason == CompetingMatch && e.kind == Resurgence && e.children[0] in tied)
      || (reason == UncertainInput && (e.kind == Birth || e.kind == Death)
          && exists o :: o in e.parents + e.children
                         && inp.snaps[o.snap][o.rank].confidence < inp.config.inputConfidenceThreshold)
  {
    hide LinkScore, MinScore, LinkReasons, Known;
    LinksAreKnown(inp, e);
    if e.kind == Split || e.kind == Merge {
      BranchReasons(inp, e, reason);
    } else if e.kind == Birth {
      assert e.parents + e.children == [e.children[0]];
    } else if e.kind == Death {
      assert e.parents + e.children == [e.parents[0]];
    } else {
      assert e.parents[0] in e.parents && e.children[0] in e.children;
      assert forall p, c | p in e.parents && c in e.children :: p == e.parents[0] && c == e.children[0];
    }
  }

  lemma BranchReasons(inp: Input, e: Event, reason: Reason)
    requires EventKnown(inp, e) && (e.kind == Split || e.kind == Merge) && LinksKnown(inp, LinksOf(e))
    ensures forall p, c | p in e.parents && c in e.children :: LinkKnown(inp, p, c)
    ensures reason in AllReasons(inp, LinksOf(e)) <==>
      exists p, c :: p in e.parents && c in e.children && reason in LinkReasons(inp, p, c)
  {
    hide LinkReasons, LinkKnown, AllReasons, Known;
    LinksAll(e);
    GivenListed(inp, LinksOf(e), reason);
    if p, c :| p in e.parents && c in e.children && reason in LinkReasons(inp, p, c) {
      assert Link(p, c) in LinksOf(e);
    }
  }

  lemma AnyLowExactly(inp: Input, links: seq<Link>)
    requires LinksKnown(inp, links)
    ensures AnyLow(inp, links) <==> AllReasons(inp, links) != []
  {
    hide LinkReasons;
    if l :| l in links && LinkReasons(inp, l.parent, l.child) != [] {
      var reason := LinkReasons(inp, l.parent, l.child)[0];
      assert reason in LinkReasons(inp, l.parent, l.child);
      assert Given(inp, links, reason);
      GivenListed(inp, links, reason);
    }
    if AllReasons(inp, links) != [] {
      var reason := AllReasons(inp, links)[0];
      GivenListed(inp, links, reason);
    }
  }

  lemma GivenListed(inp: Input, links: seq<Link>, reason: Reason)
    requires LinksKnown(inp, links)
    ensures reason in AllReasons(inp, links) <==> Given(inp, links, reason)
  {
    hide Given;
  }

  /** Births and deaths have no score; every other event has the least score of its links. */
  lemma ScoredExactly(inp: Input, e: Event, tied: set<ObsId>)
    requires inp.config.Valid() && EventKnown(inp, e)
    ensures var n := NoteOf(inp, e, tied);
      if e.kind == Birth || e.kind == Death then n.score == None
      else
        && n.score.Some? && 0.0 <= n.score.value <= 1.0
        && (exists p, c :: p in e.parents && c in e.children && LinkScore(inp, p, c) == n.score.value)
        && (forall p, c | p in e.parents && c in e.children :: n.score.value <= LinkScore(inp, p, c))
  {
    hide LinkReasons, AllReasons, AnyLow, MinScore;
    if e.kind != Birth && e.kind != Death {
      var links, n := LinksOf(e), NoteOf(inp, e, tied);
      LinksAll(e);
      if e.kind == Split || e.kind == Merge {
        MinScoreIsLeast(inp, links);
        var l :| l in links && LinkScore(inp, l.parent, l.child) == n.score.value;
        assert l.parent in e.parents && l.child in e.children;
        ScoreIsUnit(inp.config, Members(inp, l.parent), Members(inp, l.child));
        forall p, c | p in e.parents && c in e.children
          ensures n.score.value <= LinkScore(inp, p, c)
        {
          assert Link(p, c) in links;
        }
      } else {
        assert e.parents[0] in e.parents && e.children[0] in e.children;
        ScoreIsUnit(inp.config, Members(inp, e.parents[0]), Members(inp, e.children[0]));
      }
    }
  }

  /** The scores of events are means of similarities: with all weight on one similarity the score is the
      least of that one among the links, and a community that continues unchanged scores 1. */
  lemma ScoresAreMeans(inp: Input, e: Event, tied: set<ObsId>)
    requires inp.config.Valid() && EventKnown(inp, e) && e.kind != Birth && e.kind != Death
    requires forall o | o in e.parents + e.children :: Members(inp, o) != {}
    ensures var n, w := NoteOf(inp, e, tied).score, inp.config.jaccardWeight;
      && n.Some?
      && (exists p, c :: p in e.parents && c in e.children
            && Jaccard(Members(inp, p), Members(inp, c)) <= n.value <= Overlap(Members(inp, p), Members(inp, c)))
      && (forall p, c | p in e.parents && c in e.children :: n.value <= Overlap(Members(inp, p), Members(inp, c)))
      && (w == 1.0 ==>
            forall p, c | p in e.parents && c in e.children :: n.value <= Jaccard(Members(inp, p), Members(inp, c)))
      && (w == 0.0 ==>
            exists p, c :: p in e.parents && c in e.children && n.value == Overlap(Members(inp, p), Members(inp, c)))
      && ((forall p, c | p in e.parents && c in e.children :: Members(inp, p) == Members(inp, c)) ==> n.value == 1.0)
  {
    hide NoteOf, EventKnown, Jaccard, Overlap, Score, Known;
    ScoredExactly(inp, e, tied);
    LinksAreKnown(inp, e);
    forall p, c | p in e.parents && c in e.children
      ensures Members(inp, p) != {} && Members(inp, c) != {}
    {
      assert p in e.parents + e.children && c in e.parents + e.children;
    }
    forall p, c | p in e.parents && c in e.children
      ensures LinkScore(inp, p, c) == Score(inp.config, Members(inp, p), Members(inp, c))
      ensures Jaccard(Members(inp, p), Members(inp, c)) <= LinkScore(inp, p, c)
      ensures LinkScore(inp, p, c) <= Overlap(Members(inp, p), Members(inp, c))
      ensures inp.config.jaccardWeight == 1.0 ==> LinkScore(inp, p, c) == Jaccard(Members(inp, p), Members(inp, c))
      ensures inp.config.jaccardWeight == 0.0 ==> LinkScore(inp, p, c) == Overlap(Members(inp, p), Members(inp, c))
      ensures Members(inp, p) == Members(inp, c) ==> LinkScore(inp, p, c) == 1.0
    {
      ScoreIsMean(inp.config, Members(inp, p), Members(inp, c));
    }
    hide LinkScore, Members;
  }

  lemma LinksAreKnown(inp: Input, e: Event)
    requires EventKnown(inp, e)
    ensures forall p, c | p in e.parents && c in e.children :: LinkKnown(inp, p, c)
    ensures forall o | o in e.parents + e.children :: Known(inp, o)
  {
    hide Known;
  }

  lemma LinksAll(e: Event)
    requires |e.parents| == 1 || |e.children| == 1
    ensures forall p, c | p in e.parents && c in e.children :: Link(p, c) in LinksOf(e)
    ensures e.parents != [] && e.children != [] ==> LinksOf(e) != []
  {
    var links := LinksOf(e);
    forall p, c | p in e.parents && c in e.children ensures Link(p, c) in links {
      if |e.parents| == 1 {
        var i :| 0 <= i < |e.children| && e.children[i] == c;
        assert links[i] == Link(p, c);
      } else {
        var i :| 0 <= i < |e.parents| && e.parents[i] == p;
        assert links[i] == Link(p, c);
      }
    }
  }

  // ----- the final order -----

  function KindRank(kind: EventKind): nat {
    match kind
    case Death => 0
    case Birth => 1
    case Resurgence => 2
    case Continuation => 3
    case Split => 4
    case Merge => 5
  }

  predicate IdLess(a: ObsId, b: ObsId) { a.snap < b.snap || (a.snap == b.snap && a.rank < b.rank) }

  predicate IdsLe(s: seq<ObsId>, t: seq<ObsId>) {
    s == [] || (t != [] && (IdLess(s[0], t[0]) || (s[0] == t[0] && IdsLe(s[1..], t[1..]))))
  }

  /** `_event_sort_key` */
  predicate EventLe(a: Noted, b: Noted) {
    var e, f := a.event, b.event;
    if e.snap != f.snap then e.snap < f.snap
    else if e.kind != f.kind then KindRank(e.kind) < KindRank(f.kind)
    else if e.parents != f.parents then IdsLe(e.parents, f.parents)
    else IdsLe(e.children, f.children)
  }

  /** `_candidate_sort_key` */
  predicate LinkLe(a: ScoredLink, b: ScoredLink) {
    var x, y := a.candidate, b.candidate;
    if x.parent != y.parent then IdLess(x.parent, y.parent)
    else if x.child != y.child then IdLess(x.child, y.child)
    else x.gap <= y.gap
  }

  lemma {:induction false} IdsTotal(s: seq<ObsId>, t: seq<ObsId>)
    ensures IdsLe(s, t) || IdsLe(t, s)
    ensures IdsLe(s, t) && IdsLe(t, s) ==> s == t
  {
    if s != [] && t != [] && s[0] == t[0] {
      IdsTotal(s[1..], t[1..]);
      assert s == [s[0]] + s[1..] && t == [t[0]] + t[1..];
    }
  }

  lemma {:induction false} IdsTransitive(s: seq<ObsId>, t: seq<ObsId>, u: seq<ObsId>)
    requires IdsLe(s, t) && IdsLe(t, u)
    ensures IdsLe(s, u)
  {
    if s != [] && s[0] == t[0] == u[0] { IdsTransitive(s[1..], t[1..], u[1..]); }
  }

  lemma EventOrder()
    ensures TotalOrder(EventLe)
  {
    hide IdsLe;
    forall a, b ensures EventLe(a, b) || EventLe(b, a) {
      IdsTotal(a.event.parents, b.event.parents);
      IdsTotal(a.event.children, b.event.children);
    }
    forall a, b, c | EventLe(a, b) && EventLe(b, c) ensures EventLe(a, c) { EventTransitive(a, b, c); }
  }

  lemma EventTransitive(a: Noted, b: Noted, c: Noted)
    requires EventLe(a, b) && EventLe(b, c)
    ensures EventLe(a, c)
  {
    hide IdsLe;
    var e, f, g := a.event, b.event, c.event;
    IdsTotal(e.parents, f.parents);
    if e.snap == f.snap == g.snap && e.kind == f.kind == g.kind {
      if e.parents == f.parents == g.parents {
        IdsTransitive(e.children, f.children, g.children);
      } else if e.parents != f.parents && f.parents != g.parents {
        IdsTransitive(e.parents, f.parents, g.parents);
      }
    }
  }

  lemma LinkOrder()
    ensures TotalOrder(LinkLe)
  {
  }

  // ----- the result -----

  function Annotate(inp: Input, e: Event, tied: set<ObsId>): Noted {
    if EventKnown(inp, e) then NoteOf(inp, e, tied) else Noted(e, None, false, [])
  }

  function Annotated(inp: Input, events: seq<Event>, tied: set<ObsId>): (r: seq<Noted>)
    ensures |r| == |events| && forall i | 0 <= i < |r| :: r[i] == Annotate(inp, events[i], tied)
  {
    Map(events, e => Annotate(inp, e, tied))
  }

  /** The events of the result, as a function of the input. */
  function EventsOf(inp: Input): seq<Noted> { SortBy(Annotated(inp, LineageOf(inp).events, TiesOf(inp)), EventLe) }

  function IdentitiesOf(b: Builder, l: nat): seq<Identity> {
    if l == 0 then []
    else IdentitiesOf(b, l - 1) + if l in b.ident then [Identity(l, b.ident[l])] else []
  }

  function Detail(inp: Input, x: Candidate): ScoredLink {
    if LinkKnown(inp, x.parent, x.child) then
      var left, right, reasons := Members(inp, x.parent), Members(inp, x.child), LinkReasons(inp, x.parent, x.child);
      ScoredLink(x, Jaccard(left, right), Overlap(left, right), reasons != [], reasons)
    else ScoredLink(x, 0.0, 0.0, false, [])
  }

  function Detailed(inp: Input, candidates: seq<Candidate>): (r: seq<ScoredLink>)
    ensures |r| == |candidates| && forall i | 0 <= i < |r| :: r[i] == Detail(inp, candidates[i])
  {
    Map(candidates, x => Detail(inp, x))
  }

  lemma EventShapes(inp: Input, b: Builder, g: Ledger, e: Event)
    requires Built(inp, b, g) && e in b.events
    ensures EventKnown(inp, e) && (e.kind == Resurgence ==> e.children[0].snap > e.parents[0].snap + 1)
  {
    hide Identities, DormantOk, TerminatedOk, EventsComplete, Balanced, DeathsBalanced, Built, Children, Parents;
    hide Material;
    BuiltParts(inp, b, g);
    hide DeathsThrough, SplitsThrough, MergesThrough, NoDuplicates, Follows, Heads;
    assert Explained(inp, b, g, e);
    match e.kind
    case Birth =>
    case Death =>
    case Continuation => ContinuesLinks(inp, e.parents[0], e.children[0]);
    case Resurgence =>
    case Split => ChildrenExact(inp, e.parents[0]);
    case Merge => ParentsExact(inp, e.children[0]);
  }

  /** Two events with the same sort key are the same event. */
  lemma KeysTell(inp: Input, b: Builder, g: Ledger, e: Event, f: Event)
    requires EventsTrue(inp, b, g) && e in b.events && f in b.events
    requires e.kind == f.kind && e.parents == f.parents && e.children == f.children
    ensures e == f
  {
    hide Children, Parents, Resurges, Follows, Continues, Heads;
    assert Explained(inp, b, g, e) && Explained(inp, b, g, f);
  }

  lemma EventsStrict(inp: Input, b: Builder, g: Ledger, tied: set<ObsId>)
    requires Built(inp, b, g)
    ensures Strict(Annotated(inp, b.events, tied), EventLe)
  {
    hide Built, EventsTrue, IdsLe, NoteOf, EventKnown;
    assert EventsTrue(inp, b, g) by { BuiltParts(inp, b, g); }
    var s := Annotated(inp, b.events, tied);
    forall x, y | x in s && y in s && EventLe(x, y) && EventLe(y, x) ensures x == y {
      AnnotatedEvent(inp, b.events, tied, x);
      AnnotatedEvent(inp, b.events, tied, y);
      IdsTotal(x.event.parents, y.event.parents);
      IdsTotal(x.event.children, y.event.children);
      KeysTell(inp, b, g, x.event, y.event);
    }
  }

  lemma AnnotatedEvent(inp: Input, events: seq<Event>, tied: set<ObsId>, n: Noted)
    requires n in Annotated(inp, events, tied)
    ensures n.event in events && n == Annotate(inp, n.event, tied)
  {
    var i :| 0 <= i < |events| && Annotated(inp, events, tied)[i] == n;
    assert Annotate(inp, events[i], tied).event == events[i];
  }

  /** The final order of the events does not depend on the order in which they were emitted. */
  lemma EventOrderDetermined(inp: Input, b: Builder, g: Ledger, other: seq<Event>, tied: set<ObsId>)
    requires Built(inp, b, g) && multiset(other) == multiset(b.events)
    ensures SortBy(Annotated(inp, other, tied), EventLe) == SortBy(Annotated(inp, b.events, tied), EventLe)
  {
    hide Built, SortBy, EventLe, Annotate;
    EventOrder();
    EventsStrict(inp, b, g, tied);
    var f := (e: Event) => Annotate(inp, e, tied);
    MapPermute(b.events, other, f);
    assert Map(b.events, f) == Annotated(inp, b.events, tied) && Map(other, f) == Annotated(inp, other, tied);
    SortOrderIndependent(Annotated(inp, b.events, tied), Annotated(inp, other, tied), EventLe);
  }

  lemma AnnotatedIs(inp: Input, e: Event, tied: set<ObsId>)
    requires EventKnown(inp, e)
    ensures Annotate(inp, e, tied) == NoteOf(inp, e, tied)
  {
    hide NoteOf, EventKnown;
  }

  lemma ResultEvents(inp: Input, events: seq<Event>, tied: set<ObsId>, noted: seq<Noted>)
    requires |noted| == |events| && forall i | 0 <= i < |events| :: noted[i] == Annotate(inp, events[i], tied)
    requires events == LineageOf(inp).events && tied == TiesOf(inp)
    ensures SortBy(noted, EventLe) == EventsOf(inp)
  {
    hide SortBy, LineageOf, TiesOf, Annotate;
    assert noted == Annotated(inp, events, tied);
  }

  lemma FirstLineage(inp: Input, b: Builder, g: Ledger)
    requires Built(inp, b, g)
    ensures b.next >= 1 && IdentitiesOf(b, 0) == []
  {
    hide Built;
    BuiltParts(inp, b, g);
  }

  lemma NextIdentity(b: Builder, l: nat)
    requires l > 0
    ensures IdentitiesOf(b, l) == IdentitiesOf(b, l - 1) + if l in b.ident then [Identity(l, b.ident[l])] else []
  {
  }

  /** `build_lineage` with everything that it returns. */
  method BuildResult(inp: Input) returns (r: Outcome, ghost candidates: seq<Candidate>, ghost g: Ledger)
    requires inp.config.Valid()
    ensures Built(inp, LineageOf(inp), g) && CandidatesExact(inp, LineageOf(inp), candidates)
    ensures r.events == EventsOf(inp) && r.lineages == LineageOf(inp).lin
    ensures LineageOf(inp).next >= 1 && r.identities == IdentitiesOf(LineageOf(inp), LineageOf(inp).next - 1)
    ensures r.candidates == SortBy(Detailed(inp, candidates), LinkLe)
  {
    hide *;
    var b, marked, tied;
    b, marked, tied, g := BuildLineage(inp);
    candidates := marked;
    FirstLineage(inp, b, g);
    var noted: seq<Noted> := [];
    for i := 0 to |b.events|
      invariant |noted| == i && forall j | 0 <= j < i :: noted[j] == Annotate(inp, b.events[j], tied)
    {
      EventShapes(inp, b, g, b.events[i]);
      AnnotatedIs(inp, b.events[i], tied);
      noted := noted + [NoteOf(inp, b.events[i], tied)];
    }
    ResultEvents(inp, b.events, tied, noted);
    var links: seq<ScoredLink> := [];
    for i := 0 to |marked|
      invariant |links| == i && forall j | 0 <= j < i :: links[j] == Detail(inp, marked[j])
    {
      links := links + [Detail(inp, marked[i])];
    }
    assert links == Detailed(inp, marked);
    var identities: seq<Identity> := [];
    for l := 1 to b.next
      invariant identities == IdentitiesOf(b, l - 1)
    {
      NextIdentity(b, l);
      if l in b.ident { identities := identities + [Identity(l, b.ident[l])]; }
    }
    r := Outcome(SortBy(links, LinkLe), SortBy(noted, EventLe), identities, b.lin);
  }

  /** A community that is there again in the next snapshot with the same members is always linked to itself,
      and if it is linked to nothing else its identity continues, with score 1. */
  lemma UnchangedContinues(inp: Input, b: Builder, g: Ledger, p: ObsId, c: ObsId, tied: set<ObsId>)
    requires inp.config.Valid() && Built(inp, b, g)
    requires Known(inp, p) && Known(inp, c) && c.snap == p.snap + 1
    requires Members(inp, p) == Members(inp, c) != {}
    ensures c in Children(inp, p) && p in Parents(inp, c)
    ensures exists e :: e in b.events && e.kind in {Continuation, Split, Merge} && p in e.parents && c in e.children
    ensures |Children(inp, p)| == 1 && |Parents(inp, c)| == 1 ==>
      exists e :: e in b.events && e.kind == Continuation && e.parents == [p] && e.children == [c]
                  && e.parentLineages == e.childLineages
                  && Annotate(inp, e, tied).score == Some(1.0)
  {
    hide Built, Score, Annotate, Children, Parents, Known, Explained;
    AcceptedExactly(inp, p, c);
    ChildrenExact(inp, p);
    ParentsExact(inp, c);
    EventsAreLinks(inp, b, g, p, c);
    if |Children(inp, p)| == 1 && |Parents(inp, c)| == 1 {
      var e := ContinuationEvent(inp, b, g, p, c);
      EventShapes(inp, b, g, e);
      ContinuationScore(inp, e, tied);
    }
  }

  lemma ContinuationEvent(inp: Input, b: Builder, g: Ledger, p: ObsId, c: ObsId) returns (e: Event)
    requires Built(inp, b, g) && Known(inp, p) && Known(inp, c)
    requires |Children(inp, p)| == 1 && |Parents(inp, c)| == 1 && c in Children(inp, p) && p in Parents(inp, c)
    ensures e in b.events && e.kind == Continuation && e.parents == [p] && e.children == [c]
    ensures e.parentLineages == e.childLineages
  {
    hide Built, Children, Parents, Known;
    IdentitiesPartition(inp, b, g);
    assert Children(inp, p) == [c] && Parents(inp, c) == [p];
    ContinuationDone(inp, b, g, p, c);
    e := ContinuationOf(b.lin, p, c);
  }

  lemma ContinuationScore(inp: Input, e: Event, tied: set<ObsId>)
    requires inp.config.Valid() && EventKnown(inp, e) && e.kind == Continuation
    requires Members(inp, e.parents[0]) == Members(inp, e.children[0]) != {}
    ensures Annotate(inp, e, tied).score == Some(1.0)
  {
    hide Score, LinkReasons;
    ScoreIsMean(inp.config, Members(inp, e.parents[0]), Members(inp, e.children[0]));
  }

  /** The events of the result are in order: by snapshot; then deaths, births, resurgences, continuations,
      splits and merges; then by their first parent or, without parents, by their child. */
  lemma EventsInOrder(inp: Input, i: nat, j: nat)
    requires i < j < |EventsOf(inp)|
    ensures var a, b := EventsOf(inp)[i].event, EventsOf(inp)[j].event;
      && a.snap <= b.snap
      && (a.snap == b.snap ==>
            && (b.kind == Death ==> a.kind == Death)
            && (b.kind == Birth ==> a.kind in {Death, Birth})
            && (b.kind == Resurgence ==> a.kind in {Death, Birth, Resurgence})
            && (b.kind == Continuation ==> a.kind in {Death, Birth, Resurgence, Continuation})
            && (b.kind == Split ==> a.kind != Merge)
            && (a.kind == b.kind && a.parents != [] && b.parents != [] ==>
                  a.parents[0].snap < b.parents[0].snap
                  || (a.parents[0].snap == b.parents[0].snap && a.parents[0].rank <= b.parents[0].rank))
            && (a.kind == b.kind && a.parents == b.parents && a.children != [] && b.children != [] ==>
                  a.children[0].snap < b.children[0].snap
                  || (a.children[0].snap == b.children[0].snap && a.children[0].rank <= b.children[0].rank)))
  {
    hide LineageOf, TiesOf, Annotated, SortBy;
    EventOrder();
    SortIsSorted(Annotated(inp, LineageOf(inp).events, TiesOf(inp)), EventLe);
    assert EventLe(EventsOf(inp)[i], EventsOf(inp)[j]);
  }

  lemma CandidateKeysTell(inp: Input, b: Builder, candidates: seq<Candidate>, x: Candidate, y: Candidate)
    requires CandidatesExact(inp, b, candidates) && x in candidates && y in candidates
    requires x.parent == y.parent && x.child == y.child
    ensures x == y
  {
    hide Score, Paired, Members, Known;
    assert CandidateTrue(inp, x) && CandidateTrue(inp, y);
  }

  /** The final order of the candidates does not depend on the order in which they were scored. */
  lemma CandidateOrderDetermined(inp: Input, b: Builder, candidates: seq<Candidate>, other: seq<Candidate>)
    requires CandidatesExact(inp, b, candidates) && multiset(other) == multiset(candidates)
    ensures SortBy(Detailed(inp, other), LinkLe) == SortBy(Detailed(inp, candidates), LinkLe)
  {
    hide CandidatesExact, SortBy, Detail;
    LinkOrder();
    var s, f := Detailed(inp, candidates), (x: Candidate) => Detail(inp, x);
    forall x, y | x in s && y in s && LinkLe(x, y) && LinkLe(y, x) ensures x == y {
      DetailedCandidate(inp, candidates, x);
      DetailedCandidate(inp, candidates, y);
      CandidateKeysTell(inp, b, candidates, x.candidate, y.candidate);
    }
    MapPermute(candidates, other, f);
    assert Map(candidates, f) == s && Map(other, f) == Detailed(inp, other);
    SortOrderIndependent(s, Detailed(inp, other), LinkLe);
  }

  /** The candidates of the result are in order of parent, then of child, then of gap. */
  lemma CandidatesInOrder(inp: Input, candidates: seq<Candidate>, i: nat, j: nat)
    requires i < j < |candidates|
    ensures var s := SortBy(Detailed(inp, candidates), LinkLe); |s| == |candidates|
    ensures var s := SortBy(Detailed(inp, candidates), LinkLe);
      var a, b := s[i].candidate, s[j].candidate;
      && (a.parent.snap < b.parent.snap || (a.parent.snap == b.parent.snap && a.parent.rank <= b.parent.rank))
      && (a.parent == b.parent ==>
            a.child.snap < b.child.snap || (a.child.snap == b.child.snap && a.child.rank <= b.child.rank))
      && (a.parent == b.parent && a.child == b.child ==> a.gap <= b.gap)
  {
    hide SortBy, Detailed;
    LinkOrder();
    SortIsSorted(Detailed(inp, candidates), LinkLe);
    assert LinkLe(SortBy(Detailed(inp, candidates), LinkLe)[i], SortBy(Detailed(inp, candidates), LinkLe)[j]);
  }

  lemma DetailedCandidate(inp: Input, candidates: seq<Candidate>, n: ScoredLink)
    requires n in Detailed(inp, candidates)
    ensures n.candidate in candidates && n == Detail(inp, n.candidate)
  {
    var i :| 0 <= i < |candidates| && Detailed(inp, candidates)[i] == n;
    assert Detail(inp, candidates[i]).candidate == candidates[i];
  }
}
