/** The state that the lineage builder updates while it walks over the snapshots, the
    invariant that ties its maps, sets and events together, and the elementary updates. */
module LineageBuilder {
  import opened Basics
  import opened LineageModel

  datatype EventKind = Birth | Continuation | Death | Split | Merge | Resurgence

  datatype Event = Event(
    kind: EventKind,
    snap: nat,
    parents: seq<ObsId>,
    children: seq<ObsId>,
    parentLineages: seq<nat>,
    childLineages: seq<nat>)

  /** observation_lineages, identity_observations, next_lineage_number, dormant_lineages,
      terminated_by_branch and events. */
  datatype Builder = Builder(
    lin: map<ObsId, nat>,
    ident: map<nat, seq<ObsId>>,
    next: nat,
    dormant: map<nat, ObsId>,
    terminated: set<nat>,
    events: seq<Event>)

  function Start(): Builder { Builder(map[], map[], 1, map[], {}, []) }

  function Last(s: seq<ObsId>): ObsId
    requires s != []
  {
    s[|s| - 1]
  }

  // ----- elementary updates -----

  /** `new_lineage` */
  function NewLineage(b: Builder, o: ObsId): Builder {
    b.(lin := b.lin[o := b.next], ident := b.ident[b.next := [o]], next := b.next + 1)
  }

  /** An identity goes on with one more observation. */
  function Extend(b: Builder, l: nat, o: ObsId): Builder
    requires l in b.ident
  {
    b.(lin := b.lin[o := l], ident := b.ident[l := b.ident[l] + [o]], dormant := b.dormant - {l})
  }

  function Emit(b: Builder, e: Event): Builder { b.(events := b.events + [e]) }

  // ----- the identities -----

  ghost predicate Numbered(b: Builder) {
    b.next >= 1 && forall l :: l in b.ident <==> 1 <= l < b.next
  }

  ghost predicate IdentitiesOwn(b: Builder) {
    forall l | l in b.ident ::
      b.ident[l] != [] && forall i | 0 <= i < |b.ident[l]| :: b.ident[l][i] in b.lin && b.lin[b.ident[l][i]] == l
  }

  ghost predicate ObservationsOwned(inp: Input, b: Builder) {
    forall o | o in b.lin :: Known(inp, o) && b.lin[o] in b.ident && o in b.ident[b.lin[o]]
  }

  ghost predicate Chain(inp: Input, s: seq<ObsId>) {
    forall i | 0 < i < |s| :: Successive(inp, s[i - 1], s[i])
  }

  /** An observation that continues another never starts an identity. */
  ghost predicate Starts(inp: Input, c: ObsId) {
    forall p :: !Continues(inp, p, c)
  }

  ghost predicate ChainsOk(inp: Input, b: Builder) {
    forall l | l in b.ident :: Chain(inp, b.ident[l]) && b.ident[l] != [] && Starts(inp, b.ident[l][0])
  }

  /** Lineages are numbered in the order of the snapshots in which they start. */
  ghost predicate NumbersAdvance(b: Builder) {
    forall l, o | l in b.ident && b.ident[l] != [] && o in b.lin && o.snap < b.ident[l][0].snap :: b.lin[o] < l
  }

  ghost predicate Identities(inp: Input, b: Builder) {
    && Numbered(b)
    && IdentitiesOwn(b)
    && ObservationsOwned(inp, b)
    && ChainsOk(inp, b)
    && NumbersAdvance(b)
  }

  // ----- dormant and terminated lineages -----

  /** What has been registered so far: which observations died, split, and merged. */
  datatype Ledger = Ledger(died: set<ObsId>, splits: set<ObsId>, merges: set<ObsId>)

  ghost predicate LedgerOk(inp: Input, b: Builder, g: Ledger) {
    && (forall o | o in g.died :: o in b.lin && Children(inp, o) == [])
    && (forall o | o in g.splits :: o in b.lin && Splits(inp, o) && forall c | c in Children(inp, o) :: c in b.lin)
    && (forall c | c in g.merges :: c in b.lin && Merges(inp, c) && forall p | p in Parents(inp, c) :: p in b.lin)
  }

  ghost predicate Branched(inp: Input, g: Ledger, p: ObsId) {
    p in g.splits || exists c :: c in g.merges && p in Parents(inp, c)
  }

  /** A lineage is dormant exactly while its last observation has died. */
  ghost predicate DormantOk(b: Builder, g: Ledger) {
    && (forall l | l in b.dormant :: l in b.ident)
    && forall l | l in b.ident ::
         b.ident[l] != [] && (l in b.dormant <==> Last(b.ident[l]) in g.died)
         && (l in b.dormant ==> b.dormant[l] == Last(b.ident[l]))
  }

  /** A lineage is terminated exactly when its last observation has split or merged. */
  ghost predicate TerminatedOk(inp: Input, b: Builder, g: Ledger) {
    && (forall l | l in b.terminated :: l in b.ident)
    && forall l | l in b.ident :: b.ident[l] != [] && (l in b.terminated <==> Branched(inp, g, Last(b.ident[l])))
  }

  // ----- events -----

  function Lineages(lin: map<ObsId, nat>, s: seq<ObsId>): (r: seq<nat>)
    requires forall o | o in s :: o in lin
    ensures |r| == |s| && forall i | 0 <= i < |s| :: r[i] == lin[s[i]]
  {
    if s == [] then [] else assert s[0] in s; [lin[s[0]]] + Lineages(lin, s[1..])
  }

  function BirthOf(lin: map<ObsId, nat>, c: ObsId): Event
    requires c in lin
  {
    Event(Birth, c.snap, [], [c], [], [lin[c]])
  }

  function DeathOf(lin: map<ObsId, nat>, p: ObsId): Event
    requires p in lin
  {
    Event(Death, p.snap + 1, [p], [], [lin[p]], [])
  }

  function ContinuationOf(lin: map<ObsId, nat>, p: ObsId, c: ObsId): Event
    requires p in lin
  {
    Event(Continuation, c.snap, [p], [c], [lin[p]], [lin[p]])
  }

  function SplitOf(inp: Input, lin: map<ObsId, nat>, p: ObsId): Event
    requires p in lin && forall c | c in Children(inp, p) :: c in lin
  {
    Event(Split, p.snap + 1, [p], Children(inp, p), [lin[p]], Lineages(lin, Children(inp, p)))
  }

  function MergeOf(inp: Input, lin: map<ObsId, nat>, c: ObsId): Event
    requires c in lin && forall p | p in Parents(inp, c) :: p in lin
  {
    Event(Merge, c.snap, Parents(inp, c), [c], Lineages(lin, Parents(inp, c)), [lin[c]])
  }

  function ResurgenceOf(lin: map<ObsId, nat>, p: ObsId, c: ObsId): Event
    requires p in lin
  {
    Event(Resurgence, c.snap, [p], [c], [lin[p]], [lin[p]])
  }

  /** `c` is the next observation of `p`'s identity. */
  ghost predicate Follows(b: Builder, p: ObsId, c: ObsId) {
    exists l: nat, i: int :: FollowsAt(b.ident, l, i, p, c)
  }

  ghost predicate FollowsAt(ident: map<nat, seq<ObsId>>, l: nat, i: int, p: ObsId, c: ObsId) {
    l in ident && 0 < i < |ident[l]| && ident[l][i - 1] == p && ident[l][i] == c
  }

  ghost predicate Heads(b: Builder, c: ObsId) {
    exists l :: l in b.ident && b.ident[l] != [] && b.ident[l][0] == c
  }

  /** Every event says something true. */
  ghost predicate Explained(inp: Input, b: Builder, g: Ledger, e: Event) {
    match e.kind
    case Birth =>
      |e.children| == 1 && var c := e.children[0];
      c in b.lin && Parents(inp, c) == [] && Heads(b, c) && e == BirthOf(b.lin, c)
    case Death =>
      |e.parents| == 1 && e.parents[0] in g.died && e.parents[0] in b.lin && e == DeathOf(b.lin, e.parents[0])
    case Continuation =>
      |e.parents| == 1 && |e.children| == 1 && var p, c := e.parents[0], e.children[0];
      p in b.lin && c in b.lin && Continues(inp, p, c) && e == ContinuationOf(b.lin, p, c)
    case Split =>
      |e.parents| == 1 && var p := e.parents[0];
      p in g.splits && p in b.lin && (forall c | c in Children(inp, p) :: c in b.lin) && e == SplitOf(inp, b.lin, p)
    case Merge =>
      |e.children| == 1 && var c := e.children[0];
      c in g.merges && c in b.lin && (forall p | p in Parents(inp, c) :: p in b.lin) && e == MergeOf(inp, b.lin, c)
    case Resurgence =>
      |e.parents| == 1 && |e.children| == 1 && var p, c := e.parents[0], e.children[0];
      p in b.lin && c in b.lin && Resurges(inp, p, c) && Follows(b, p, c) && e == ResurgenceOf(b.lin, p, c)
  }

  ghost predicate EventsTrue(inp: Input, b: Builder, g: Ledger) {
    forall e | e in b.events :: Explained(inp, b, g, e)
  }

  ghost predicate BirthsDone(inp: Input, b: Builder) {
    forall c | c in b.lin && Parents(inp, c) == [] && Heads(b, c) :: BirthOf(b.lin, c) in b.events
  }

  ghost predicate DeathsDone(b: Builder, g: Ledger) {
    forall p | p in g.died && p in b.lin :: DeathOf(b.lin, p) in b.events
  }

  ghost predicate ContinuationsDone(inp: Input, b: Builder) {
    forall p, c | p in b.lin && c in b.lin && Continues(inp, p, c) :: ContinuationOf(b.lin, p, c) in b.events
  }

  ghost predicate SplitsDone(inp: Input, b: Builder, g: Ledger) {
    forall p | p in g.splits && p in b.lin && (forall c | c in Children(inp, p) :: c in b.lin) ::
      SplitOf(inp, b.lin, p) in b.events
  }

  ghost predicate MergesDone(inp: Input, b: Builder, g: Ledger) {
    forall c | c in g.merges && c in b.lin && (forall p | p in Parents(inp, c) :: p in b.lin) ::
      MergeOf(inp, b.lin, c) in b.events
  }

  ghost predicate ResurgencesDone(inp: Input, b: Builder) {
    forall p, c | p in b.lin && c in b.lin && Resurges(inp, p, c) && Follows(b, p, c) ::
      ResurgenceOf(b.lin, p, c) in b.events
  }

  /** Everything that happened has its event. */
  ghost predicate EventsComplete(inp: Input, b: Builder, g: Ledger) {
    && BirthsDone(inp, b) && DeathsDone(b, g) && ContinuationsDone(inp, b)
    && SplitsDone(inp, b, g) && MergesDone(inp, b, g) && ResurgencesDone(inp, b)
  }

  // ----- counting -----

  function Count(events: seq<Event>, kind: EventKind): nat {
    if events == [] then 0 else (if events[0].kind == kind then 1 else 0) + Count(events[1..], kind)
  }

  /** How many events of a kind concern one lineage as a parent. */
  function CountFor(events: seq<Event>, kind: EventKind, l: nat): nat {
    if events == [] then 0
    else (if events[0].kind == kind && events[0].parentLineages == [l] then 1 else 0) + CountFor(events[1..], kind, l)
  }

  lemma {:induction false} CountAppend(events: seq<Event>, e: Event, kind: EventKind)
    ensures Count(events + [e], kind) == Count(events, kind) + if e.kind == kind then 1 else 0
  {
    if events != [] {
      assert (events + [e])[1..] == events[1..] + [e];
      CountAppend(events[1..], e, kind);
    }
  }

  lemma {:induction false} CountForAppend(events: seq<Event>, e: Event, kind: EventKind, l: nat)
    ensures CountFor(events + [e], kind, l)
        == CountFor(events, kind, l) + if e.kind == kind && e.parentLineages == [l] then 1 else 0
  {
    if events != [] {
      assert (events + [e])[1..] == events[1..] + [e];
      CountForAppend(events[1..], e, kind, l);
    }
  }

  /** observations = identities + continuations + resurgences */
  ghost predicate Balanced(b: Builder) {
    |b.lin| == |b.ident| + Count(b.events, Continuation) + Count(b.events, Resurgence)
  }

  /** deaths - resurgences of a lineage is 1 while it is dormant and 0 otherwise */
  ghost predicate DeathsBalanced(b: Builder) {
    forall l: nat :: CountFor(b.events, Death, l) == CountFor(b.events, Resurgence, l) + if l in b.dormant then 1 else 0
  }

  ghost predicate Invariant(inp: Input, b: Builder, g: Ledger) {
    && Identities(inp, b)
    && LedgerOk(inp, b, g)
    && DormantOk(b, g)
    && TerminatedOk(inp, b, g)
    && EventsTrue(inp, b, g)
    && EventsComplete(inp, b, g)
    && NoDuplicates(b.events)
    && Balanced(b)
    && DeathsBalanced(b)
  }

  // ----- facts about identities -----

  lemma ChainStep(inp: Input, s: seq<ObsId>, i: nat)
    requires Chain(inp, s) && 0 < i < |s|
    ensures Successive(inp, s[i - 1], s[i]) && s[i - 1].snap < s[i].snap
  {
    SuccessiveAdvances(inp, s[i - 1], s[i]);
  }

  /** Snapshots strictly increase along an identity. */
  lemma {:induction false} ChainIncreases(inp: Input, s: seq<ObsId>, i: nat, j: nat)
    requires Chain(inp, s) && i < j < |s|
    ensures s[i].snap < s[j].snap
  {
    ChainStep(inp, s, j);
    if i < j - 1 { ChainIncreases(inp, s, i, j - 1); }
  }

  lemma OwnIdentity(inp: Input, b: Builder, o: ObsId) returns (i: nat)
    requires Identities(inp, b) && o in b.lin
    ensures b.lin[o] in b.ident && i < |b.ident[b.lin[o]]| && b.ident[b.lin[o]][i] == o
  {
    i :| 0 <= i < |b.ident[b.lin[o]]| && b.ident[b.lin[o]][i] == o;
  }

  /** Two places that hold the same observation are the same place. */
  lemma SamePlace(inp: Input, b: Builder, l: nat, i: nat, m: nat, j: nat)
    requires Identities(inp, b) && l in b.ident && m in b.ident && i < |b.ident[l]| && j < |b.ident[m]|
    requires b.ident[l][i] == b.ident[m][j]
    ensures l == m && i == j
  {
    assert b.lin[b.ident[l][i]] == l && b.lin[b.ident[m][j]] == m;
    if i < j { ChainIncreases(inp, b.ident[l], i, j); }
    if j < i { ChainIncreases(inp, b.ident[l], j, i); }
  }

  lemma Successor(inp: Input, b: Builder, p: ObsId) returns (c: ObsId)
    requires Identities(inp, b) && p in b.lin
    requires b.lin[p] in b.ident && b.ident[b.lin[p]] != [] && Last(b.ident[b.lin[p]]) != p
    ensures c in b.lin && Successive(inp, p, c)
  {
    var i := OwnIdentity(inp, b, p);
    var s := b.ident[b.lin[p]];
    ChainStep(inp, s, i + 1);
    c := s[i + 1];
  }

  /** An observation of which nothing successive is known yet is the last of its identity. */
  lemma IsLast(inp: Input, b: Builder, p: ObsId)
    requires Identities(inp, b) && p in b.lin
    requires forall c | c in b.lin :: !Successive(inp, p, c)
    ensures b.lin[p] in b.ident && b.ident[b.lin[p]] != [] && Last(b.ident[b.lin[p]]) == p
  {
    var i := OwnIdentity(inp, b, p);
    hide Successive, Starts, Known;
    if Last(b.ident[b.lin[p]]) != p {
      var c := Successor(inp, b, p);
      assert false;
    }
  }

  // ----- a new lineage keeps the identities -----

  lemma NewLineageIdentities(inp: Input, b: Builder, o: ObsId)
    requires Identities(inp, b) && Known(inp, o) && o !in b.lin && Starts(inp, o)
    requires forall x | x in b.lin :: x.snap <= o.snap
    ensures Identities(inp, NewLineage(b, o))
  {
    hide Starts, Known, Chain, IdentitiesOwn, ObservationsOwned, NumbersAdvance;
    assert Chain(inp, [o]) by { ChainOfOne(inp, o); }
    NewOwned(inp, b, o);
    NewNumbers(inp, b, o);
  }

  lemma NewNumbers(inp: Input, b: Builder, o: ObsId)
    requires NumbersAdvance(b) && Numbered(b) && IdentitiesOwn(b) && ObservationsOwned(inp, b) && o !in b.lin
    requires forall x | x in b.lin :: x.snap <= o.snap
    ensures NumbersAdvance(NewLineage(b, o))
  {
    hide Known;
    var b' := NewLineage(b, o);
    forall l, x | l in b'.ident && b'.ident[l] != [] && x in b'.lin && x.snap < b'.ident[l][0].snap
      ensures b'.lin[x] < l
    {
      if l == b.next {
        assert x in b.lin && b.lin[x] in b.ident;
      } else {
        assert b.ident[l][0] in b.lin;
      }
    }
  }

  lemma ChainOfOne(inp: Input, o: ObsId)
    ensures Chain(inp, [o])
  {
  }

  lemma NewOwned(inp: Input, b: Builder, o: ObsId)
    requires Numbered(b) && IdentitiesOwn(b) && ObservationsOwned(inp, b) && Known(inp, o) && o !in b.lin
    ensures IdentitiesOwn(NewLineage(b, o)) && ObservationsOwned(inp, NewLineage(b, o))
  {
    hide Known;
    var b' := NewLineage(b, o);
    forall x | x in b'.lin ensures Known(inp, x) && b'.lin[x] in b'.ident && x in b'.ident[b'.lin[x]] {
      if x != o { assert b.lin[x] in b.ident; }
    }
  }

  lemma ExtendIdentities(inp: Input, b: Builder, l: nat, o: ObsId)
    requires Identities(inp, b) && Known(inp, o) && o !in b.lin && l in b.ident && b.ident[l] != []
    requires Successive(inp, Last(b.ident[l]), o)
    requires forall x | x in b.lin :: x.snap <= o.snap
    ensures Identities(inp, Extend(b, l, o))
  {
    hide Starts, Known, Successive, Chain, IdentitiesOwn, ObservationsOwned, NumbersAdvance;
    ExtendOwned(inp, b, l, o);
    ExtendNumbers(inp, b, l, o);
    assert Chain(inp, b.ident[l] + [o]) by { ChainGrows(inp, b.ident[l], o); }
  }

  lemma ExtendOwned(inp: Input, b: Builder, l: nat, o: ObsId)
    requires Numbered(b) && IdentitiesOwn(b) && ObservationsOwned(inp, b) && Known(inp, o) && o !in b.lin
        && l in b.ident
    ensures IdentitiesOwn(Extend(b, l, o)) && ObservationsOwned(inp, Extend(b, l, o))
  {
    hide Known;
    var b' := Extend(b, l, o);
    forall m, i | m in b'.ident && 0 <= i < |b'.ident[m]|
      ensures b'.ident[m][i] in b'.lin && b'.lin[b'.ident[m][i]] == m
    {
      if m != l || i < |b.ident[l]| { assert b'.ident[m][i] == b.ident[m][i]; }
    }
    forall x | x in b'.lin ensures Known(inp, x) && b'.lin[x] in b'.ident && x in b'.ident[b'.lin[x]] {
      if x == o { assert b'.ident[l][|b.ident[l]|] == o; }
    }
  }

  lemma ExtendNumbers(inp: Input, b: Builder, l: nat, o: ObsId)
    requires NumbersAdvance(b) && IdentitiesOwn(b) && l in b.ident && b.ident[l] != []
    requires forall x | x in b.lin :: x.snap <= o.snap
    ensures NumbersAdvance(Extend(b, l, o))
  {
    var b' := Extend(b, l, o);
    forall m, x | m in b'.ident && b'.ident[m] != [] && x in b'.lin && x.snap < b'.ident[m][0].snap
      ensures b'.lin[x] < m
    {
      assert b'.ident[m][0] == b.ident[m][0] && b.ident[m][0] in b.lin;
    }
  }

  lemma ChainGrows(inp: Input, s: seq<ObsId>, o: ObsId)
    requires Chain(inp, s) && s != [] && Successive(inp, Last(s), o)
    ensures Chain(inp, s + [o])
  {
    hide Successive;
    var t := s + [o];
    forall i | 0 < i < |t| ensures Successive(inp, t[i - 1], t[i]) {
      if i < |s| { assert Successive(inp, s[i - 1], s[i]); }
    }
  }

  // ----- growth: what was true and recorded stays so -----

  ghost predicate BuilderGrows(b: Builder, c: Builder) {
    && (forall o | o in b.lin :: o in c.lin && c.lin[o] == b.lin[o])
    && (forall l | l in b.ident :: l in c.ident && b.ident[l] <= c.ident[l])
    && b.events <= c.events
  }

  ghost predicate LedgerGrows(g: Ledger, h: Ledger) {
    g.died <= h.died && g.splits <= h.splits && g.merges <= h.merges
  }

  lemma FollowsGrows(b: Builder, b': Builder, p: ObsId, c: ObsId)
    requires BuilderGrows(b, b') && Follows(b, p, c)
    ensures Follows(b', p, c)
  {
    var l: nat, i: int :| FollowsAt(b.ident, l, i, p, c);
    assert FollowsAt(b'.ident, l, i, p, c);
  }

  lemma HeadsGrow(b: Builder, b': Builder, c: ObsId)
    requires BuilderGrows(b, b') && Heads(b, c)
    ensures Heads(b', c)
  {
    var l :| l in b.ident && b.ident[l] != [] && b.ident[l][0] == c;
    assert b'.ident[l][0] == c;
  }

  lemma LineagesGrow(lin: map<ObsId, nat>, lin': map<ObsId, nat>, s: seq<ObsId>)
    requires forall o | o in s :: o in lin
    requires forall o | o in lin :: o in lin' && lin'[o] == lin[o]
    ensures Lineages(lin', s) == Lineages(lin, s)
  {
  }

  lemma ExplainedGrows(inp: Input, b: Builder, g: Ledger, b': Builder, g': Ledger, e: Event)
    requires Explained(inp, b, g, e) && BuilderGrows(b, b') && LedgerGrows(g, g')
    ensures Explained(inp, b', g', e)
  {
    hide Follows, Heads, Children, Parents, Continues, Resurges, Splits;
    match e.kind
    case Birth => HeadsGrow(b, b', e.children[0]);
    case Death =>
    case Continuation =>
    case Split => LineagesGrow(b.lin, b'.lin, Children(inp, e.parents[0]));
    case Merge => LineagesGrow(b.lin, b'.lin, Parents(inp, e.children[0]));
    case Resurgence => FollowsGrows(b, b', e.parents[0], e.children[0]);
  }

  lemma EventsTrueGrow(inp: Input, b: Builder, g: Ledger, b': Builder, g': Ledger)
    requires EventsTrue(inp, b, g) && BuilderGrows(b, b') && LedgerGrows(g, g')
    requires forall e | e in b'.events :: e in b.events || Explained(inp, b', g', e)
    ensures EventsTrue(inp, b', g')
  {
    hide Explained, BuilderGrows, LedgerGrows;
    forall e | e in b'.events ensures Explained(inp, b', g', e) {
      if e in b.events { ExplainedGrows(inp, b, g, b', g', e); }
    }
  }

  lemma Prefix(a: seq<Event>, b: seq<Event>, e: Event)
    requires a <= b && e in a
    ensures e in b
  {
    var i :| 0 <= i < |a| && a[i] == e;
    assert b[i] == e;
  }

  /** Deaths, splits and merges that were recorded stay recorded, in the same words. */
  lemma RecordsGrow(inp: Input, b: Builder, g: Ledger, b': Builder)
    requires BuilderGrows(b, b') && LedgerOk(inp, b, g)
    requires DeathsDone(b, g) && SplitsDone(inp, b, g) && MergesDone(inp, b, g)
    ensures DeathsDone(b', g) && SplitsDone(inp, b', g) && MergesDone(inp, b', g) && LedgerOk(inp, b', g)
  {
    hide Children, Parents, Splits, Merges;
    forall p | p in g.died && p in b'.lin ensures DeathOf(b'.lin, p) in b'.events {
      Prefix(b.events, b'.events, DeathOf(b.lin, p));
    }
    forall p | p in g.splits && p in b'.lin && (forall c | c in Children(inp, p) :: c in b'.lin)
      ensures SplitOf(inp, b'.lin, p) in b'.events
    {
      Prefix(b.events, b'.events, SplitOf(inp, b.lin, p));
      LineagesGrow(b.lin, b'.lin, Children(inp, p));
    }
    forall c | c in g.merges && c in b'.lin && (forall p | p in Parents(inp, c) :: p in b'.lin)
      ensures MergeOf(inp, b'.lin, c) in b'.events
    {
      Prefix(b.events, b'.events, MergeOf(inp, b.lin, c));
      LineagesGrow(b.lin, b'.lin, Parents(inp, c));
    }
  }

  // ----- deaths -----

  function Die(b: Builder, p: ObsId): Builder
    requires p in b.lin
  {
    Emit(b.(dormant := b.dormant[b.lin[p] := p]), DeathOf(b.lin, p))
  }

  /** The parts of the invariant, put together. */
  lemma Assemble(inp: Input, b: Builder, g: Ledger)
    requires Identities(inp, b) && LedgerOk(inp, b, g) && DormantOk(b, g) && TerminatedOk(inp, b, g)
    requires EventsTrue(inp, b, g) && EventsComplete(inp, b, g) && NoDuplicates(b.events) && Balanced(b)
        && DeathsBalanced(b)
    ensures Invariant(inp, b, g)
  {
    hide Identities, LedgerOk, DormantOk, TerminatedOk, EventsTrue, EventsComplete, NoDuplicates, Balanced;
    hide DeathsBalanced;
  }

  lemma Parts(inp: Input, b: Builder, g: Ledger)
    requires Invariant(inp, b, g)
    ensures Identities(inp, b) && LedgerOk(inp, b, g) && DormantOk(b, g) && TerminatedOk(inp, b, g)
    ensures EventsTrue(inp, b, g) && EventsComplete(inp, b, g) && NoDuplicates(b.events) && Balanced(b)
        && DeathsBalanced(b)
  {
    hide Identities, LedgerOk, DormantOk, TerminatedOk, EventsTrue, EventsComplete, NoDuplicates, Balanced;
    hide DeathsBalanced;
  }

  /** A childless observation dies; its lineage becomes dormant. */
  lemma DieKeeps(inp: Input, b: Builder, g: Ledger, p: ObsId)
    requires Invariant(inp, b, g) && p in b.lin && Children(inp, p) == [] && p !in g.died
    requires forall c | c in b.lin :: !Successive(inp, p, c)
    ensures Invariant(inp, Die(b, p), g.(died := g.died + {p}))
  {
    hide *;
    var b', g' := Die(b, p), g.(died := g.died + {p});
    Parts(inp, b, g);
    IsLast(inp, b, p);
    DieShape(b, p);
    SameIdentities(inp, b, b');
    SameBranches(inp, b, g, b', g');
    DieEvents(inp, b, g, p);
    DieRecords(inp, b, g, p);
    DieDormant(inp, b, g, p);
    DieCounts(inp, b, g, p);
    Assemble(inp, b', g');
  }

  lemma DieShape(b: Builder, p: ObsId)
    requires p in b.lin
    ensures var b' := Die(b, p);
            b'.lin == b.lin && b'.ident == b.ident && b'.next == b.next && b'.terminated == b.terminated
            && b'.events == b.events + [DeathOf(b.lin, p)]
  {
  }

  lemma DieEvents(inp: Input, b: Builder, g: Ledger, p: ObsId)
    requires EventsTrue(inp, b, g) && NoDuplicates(b.events) && p in b.lin && p !in g.died
    ensures EventsTrue(inp, Die(b, p), g.(died := g.died + {p})) && NoDuplicates(Die(b, p).events)
  {
    hide Children, Parents, Continues, Resurges, Follows, Heads;
    var b', g', e := Die(b, p), g.(died := g.died + {p}), DeathOf(b.lin, p);
    AppendMembers(b.events, e);
    KnownDeath(inp, b, g, p);
    AppendDistinct(b.events, e);
    assert Explained(inp, b', g', e);
    hide Explained;
    EventsTrueGrow(inp, b, g, b', g');
  }

  lemma KnownDeath(inp: Input, b: Builder, g: Ledger, p: ObsId)
    requires EventsTrue(inp, b, g) && p in b.lin
    ensures DeathOf(b.lin, p) in b.events ==> p in g.died
  {
    if DeathOf(b.lin, p) in b.events {
      assert Explained(inp, b, g, DeathOf(b.lin, p));
    }
  }

  lemma SameIdentities(inp: Input, b: Builder, b': Builder)
    requires Identities(inp, b) && b'.lin == b.lin && b'.ident == b.ident && b'.next == b.next
    ensures Identities(inp, b')
  {
    hide Starts, Known, Chain;
  }

  lemma SameBranches(inp: Input, b: Builder, g: Ledger, b': Builder, g': Ledger)
    requires TerminatedOk(inp, b, g) && b'.ident == b.ident && b'.terminated == b.terminated
    requires g'.splits == g.splits && g'.merges == g.merges
    ensures TerminatedOk(inp, b', g')
  {
    hide Parents;
    forall o ensures Branched(inp, g', o) == Branched(inp, g, o) {}
    hide Branched;
  }

  lemma DieRecords(inp: Input, b: Builder, g: Ledger, p: ObsId)
    requires p in b.lin && EventsComplete(inp, b, g) && LedgerOk(inp, b, g) && Children(inp, p) == []
    ensures var g' := g.(died := g.died + {p});
            EventsComplete(inp, Die(b, p), g') && LedgerOk(inp, Die(b, p), g')
  {
    hide Children, Parents, Splits, Merges, Continues, Resurges;
    var b' := Die(b, p);
    AppendMembers(b.events, DeathOf(b.lin, p));
    RecordsGrow(inp, b, g, b');
    forall c ensures Heads(b', c) == Heads(b, c) {}
    forall x, c ensures Follows(b', x, c) == Follows(b, x, c) {}
    hide Heads, Follows, BuilderGrows;
  }

  lemma DieDormant(inp: Input, b: Builder, g: Ledger, p: ObsId)
    requires DormantOk(b, g) && Identities(inp, b) && p in b.lin
    requires b.lin[p] in b.ident && b.ident[b.lin[p]] != [] && Last(b.ident[b.lin[p]]) == p
    ensures DormantOk(Die(b, p), g.(died := g.died + {p}))
  {
    hide ChainsOk, NumbersAdvance, Known;
    forall l | l in b.ident && b.ident[l] != [] && Last(b.ident[l]) == p ensures l == b.lin[p] {
      assert b.lin[b.ident[l][|b.ident[l]| - 1]] == l;
    }
  }

  lemma DieCounts(inp: Input, b: Builder, g: Ledger, p: ObsId)
    requires DeathsBalanced(b) && Balanced(b) && DormantOk(b, g) && p in b.lin && p !in g.died
    requires b.lin[p] in b.ident && b.ident[b.lin[p]] != [] && Last(b.ident[b.lin[p]]) == p
    ensures DeathsBalanced(Die(b, p)) && Balanced(Die(b, p))
  {
    CountAppend(b.events, DeathOf(b.lin, p), Continuation);
    CountAppend(b.events, DeathOf(b.lin, p), Resurgence);
    forall l: nat
      ensures CountFor(Die(b, p).events, Death, l)
          == CountFor(Die(b, p).events, Resurgence, l) + if l in Die(b, p).dormant then 1 else 0
    {
      CountForAppend(b.events, DeathOf(b.lin, p), Death, l);
      CountForAppend(b.events, DeathOf(b.lin, p), Resurgence, l);
    }
  }

  // ----- an identity goes on: continuation or resurgence -----

  function GoOn(b: Builder, l: nat, o: ObsId, e: Event): Builder
    requires l in b.ident
  {
    Emit(Extend(b, l, o), e)
  }

  /** `o` may go on with lineage `l`, whose last observation is `p`, as event `e` says. */
  ghost predicate MayGoOn(inp: Input, b: Builder, l: nat, p: ObsId, o: ObsId, e: Event) {
    && l in b.ident && b.ident[l] != [] && Last(b.ident[l]) == p
    && p in b.lin && b.lin[p] == l && Known(inp, o) && o !in b.lin
    && (forall x | x in b.lin :: x.snap <= o.snap)
    && (|| (Continues(inp, p, o) && e == ContinuationOf(b.lin, p, o))
        || (Resurges(inp, p, o) && e == ResurgenceOf(b.lin, p, o)))
  }

  lemma GoOnKeeps(inp: Input, b: Builder, g: Ledger, l: nat, p: ObsId, o: ObsId, e: Event)
    requires Invariant(inp, b, g) && MayGoOn(inp, b, l, p, o, e)
    requires Resurges(inp, p, o) ==> p in g.died
    ensures l in b.ident && Invariant(inp, GoOn(b, l, o, e), g)
  {
    hide *;
    MayGoOnFacts(inp, b, l, p, o, e);
    Parts(inp, b, g);
    NotRecorded(inp, b, g, o);
    ExtendIdentities(inp, b, l, o);
    GoOnShape(b, l, o, e);
    SameIdentities(inp, Extend(b, l, o), GoOn(b, l, o, e));
    GoOnEvents(inp, b, g, l, p, o, e);
    GoOnRecords(inp, b, g, l, p, o, e);
    GoOnDormant(inp, b, g, l, p, o, e);
    GoOnCounts(inp, b, g, l, p, o, e);
    Assemble(inp, GoOn(b, l, o, e), g);
  }

  lemma MayGoOnFacts(inp: Input, b: Builder, l: nat, p: ObsId, o: ObsId, e: Event)
    requires MayGoOn(inp, b, l, p, o, e)
    ensures l in b.ident && b.ident[l] != [] && Last(b.ident[l]) == p && p in b.lin && b.lin[p] == l
    ensures Known(inp, o) && o !in b.lin && (forall x | x in b.lin :: x.snap <= o.snap)
    ensures Successive(inp, p, o)
  {
    hide Known, Continues, Resurges;
  }

  lemma GoOnShape(b: Builder, l: nat, o: ObsId, e: Event)
    requires l in b.ident
    ensures var b' := GoOn(b, l, o, e);
            && b'.lin == b.lin[o := l] && b'.ident == b.ident[l := b.ident[l] + [o]] && b'.next == b.next
            && b'.lin == Extend(b, l, o).lin && b'.ident == Extend(b, l, o).ident && b'.next == Extend(b, l, o).next
            && b'.terminated == b.terminated && b'.dormant == b.dormant - {l} && b'.events == b.events + [e]
  {
  }

  /** Nothing was registered about an observation that has no lineage yet. */
  lemma NotRecorded(inp: Input, b: Builder, g: Ledger, o: ObsId)
    requires LedgerOk(inp, b, g) && o !in b.lin
    ensures o !in g.died && !Branched(inp, g, o)
  {
  }

  lemma KnownChild(inp: Input, b: Builder, g: Ledger, e: Event, o: ObsId)
    requires EventsTrue(inp, b, g) && e in b.events && e.kind in {Birth, Continuation, Resurgence} && e.children == [o]
    ensures o in b.lin
  {
    hide Children, Parents, Continues, Resurges, Follows, Heads;
    assert Explained(inp, b, g, e);
  }

  lemma GoOnEvents(inp: Input, b: Builder, g: Ledger, l: nat, p: ObsId, o: ObsId, e: Event)
    requires EventsTrue(inp, b, g) && NoDuplicates(b.events) && MayGoOn(inp, b, l, p, o, e)
    ensures l in b.ident && EventsTrue(inp, GoOn(b, l, o, e), g) && NoDuplicates(GoOn(b, l, o, e).events)
  {
    hide Children, Parents, Continues, Resurges, Known, EventsTrue, NoDuplicates;
    var b' := GoOn(b, l, o, e);
    AppendMembers(b.events, e);
    if e in b.events { KnownChild(inp, b, g, e, o); }
    AppendDistinct(b.events, e);
    assert FollowsAt(b'.ident, l, |b.ident[l]|, p, o);
    assert Follows(b', p, o);
    hide Follows, Heads;
    assert Explained(inp, b', g, e);
    hide Explained;
    EventsTrueGrow(inp, b, g, b', g);
  }

  /** Which pairs follow each other once `o` was appended to lineage `l`. */
  lemma FollowsAfter(b: Builder, l: nat, o: ObsId, e: Event, x: ObsId, c: ObsId)
    requires l in b.ident && b.ident[l] != []
    requires Follows(GoOn(b, l, o, e), x, c)
    ensures Follows(b, x, c) || (x == Last(b.ident[l]) && c == o)
  {
    GoOnShape(b, l, o, e);
    var ident' := b.ident[l := b.ident[l] + [o]];
    var m: nat, i: int :| FollowsAt(ident', m, i, x, c);
    if m != l || i < |b.ident[l]| {
      assert FollowsAt(b.ident, m, i, x, c);
    }
  }

  lemma HeadsAfter(b: Builder, l: nat, o: ObsId, e: Event, c: ObsId)
    requires l in b.ident && b.ident[l] != []
    ensures Heads(GoOn(b, l, o, e), c) ==> Heads(b, c)
  {
    var b' := GoOn(b, l, o, e);
    if Heads(b', c) {
      var m :| m in b'.ident && b'.ident[m] != [] && b'.ident[m][0] == c;
      assert b.ident[m][0] == c;
    }
  }

  lemma GoOnRecords(inp: Input, b: Builder, g: Ledger, l: nat, p: ObsId, o: ObsId, e: Event)
    requires Identities(inp, b) && EventsComplete(inp, b, g) && LedgerOk(inp, b, g) && MayGoOn(inp, b, l, p, o, e)
    ensures l in b.ident && EventsComplete(inp, GoOn(b, l, o, e), g) && LedgerOk(inp, GoOn(b, l, o, e), g)
  {
    hide Identities, LedgerOk, DeathsDone, SplitsDone, MergesDone, Known, Children, Parents;
    var b' := GoOn(b, l, o, e);
    AppendMembers(b.events, e);
    GoOnGrows(b, l, o, e);
    RecordsGrow(inp, b, g, b');
    GoOnBirths(inp, b, l, p, o, e);
    GoOnContinuations(inp, b, g, l, p, o, e);
    GoOnResurgences(inp, b, g, l, p, o, e);
  }

  lemma GoOnGrows(b: Builder, l: nat, o: ObsId, e: Event)
    requires l in b.ident && o !in b.lin
    ensures BuilderGrows(b, GoOn(b, l, o, e))
  {
    AppendMembers(b.events, e);
  }

  lemma GoOnBirths(inp: Input, b: Builder, l: nat, p: ObsId, o: ObsId, e: Event)
    requires BirthsDone(inp, b) && Identities(inp, b) && MayGoOn(inp, b, l, p, o, e)
    ensures l in b.ident && BirthsDone(inp, GoOn(b, l, o, e))
  {
    hide Parents, Children, Continues, Resurges, Known;
    var b' := GoOn(b, l, o, e);
    AppendMembers(b.events, e);
    forall c | c in b'.lin && Parents(inp, c) == [] && Heads(b', c) ensures BirthOf(b'.lin, c) in b'.events {
      HeadsAfter(b, l, o, e, c);
      HeadKnown(inp, b, c);
      assert BirthOf(b.lin, c) in b.events;
    }
  }

  lemma HeadKnown(inp: Input, b: Builder, c: ObsId)
    requires Identities(inp, b) && Heads(b, c)
    ensures c in b.lin && b.lin[c] in b.ident && b.ident[b.lin[c]] != [] && b.ident[b.lin[c]][0] == c && Starts(inp, c)
  {
    hide Starts, Chain;
    var l :| l in b.ident && b.ident[l] != [] && b.ident[l][0] == c;
    assert b.ident[l][0] in b.lin && b.lin[b.ident[l][0]] == l;
  }

  lemma GoOnContinuations(inp: Input, b: Builder, g: Ledger, l: nat, p: ObsId, o: ObsId, e: Event)
    requires ContinuationsDone(inp, b) && MayGoOn(inp, b, l, p, o, e)
    ensures l in b.ident && ContinuationsDone(inp, GoOn(b, l, o, e))
  {
    hide Parents, Children, Known;
    var b' := GoOn(b, l, o, e);
    AppendMembers(b.events, e);
    forall x, c | x in b'.lin && c in b'.lin && Continues(inp, x, c) ensures ContinuationOf(b'.lin, x, c) in b'.events {
      ContinuesForward(inp, x, c);
      if x in b.lin && c in b.lin {
        assert ContinuationOf(b.lin, x, c) in b.events;
      } else {
        assert c == o;
        assert Parents(inp, o) == [x];
        assert Continues(inp, p, o) ==> x == p;
      }
    }
  }

  lemma ContinuesForward(inp: Input, x: ObsId, c: ObsId)
    requires Continues(inp, x, c)
    ensures x.snap < c.snap
  {
    ContinuesLinks(inp, x, c);
  }

  lemma GoOnResurgences(inp: Input, b: Builder, g: Ledger, l: nat, p: ObsId, o: ObsId, e: Event)
    requires Identities(inp, b) && ResurgencesDone(inp, b) && MayGoOn(inp, b, l, p, o, e)
    ensures l in b.ident && ResurgencesDone(inp, GoOn(b, l, o, e))
  {
    hide Parents, Children, Known;
    var b' := GoOn(b, l, o, e);
    AppendMembers(b.events, e);
    forall x, c | x in b'.lin && c in b'.lin && Resurges(inp, x, c) && Follows(b', x, c)
      ensures ResurgenceOf(b'.lin, x, c) in b'.events
    {
      FollowsAfter(b, l, o, e, x, c);
      if Follows(b, x, c) {
        FollowsKnown(inp, b, x, c);
        assert ResurgenceOf(b.lin, x, c) in b.events;
      } else {
        assert x == p && c == o;
        assert !Continues(inp, p, o);
      }
    }
  }

  lemma FollowsKnown(inp: Input, b: Builder, x: ObsId, c: ObsId)
    requires Identities(inp, b) && Follows(b, x, c)
    ensures x in b.lin && c in b.lin && b.lin[x] == b.lin[c] && Successive(inp, x, c)
  {
    hide Successive, Starts;
    var l: nat, i: int :| FollowsAt(b.ident, l, i, x, c);
    assert Chain(inp, b.ident[l]);
    assert b.lin[b.ident[l][i - 1]] == l && b.lin[b.ident[l][i]] == l;
  }

  lemma GoOnDormant(inp: Input, b: Builder, g: Ledger, l: nat, p: ObsId, o: ObsId, e: Event)
    requires DormantOk(b, g) && TerminatedOk(inp, b, g) && l in b.ident && b.ident[l] != [] && Last(b.ident[l]) == p
    requires o !in g.died && !Branched(inp, g, o) && Successive(inp, p, o) && LedgerOk(inp, b, g)
    ensures DormantOk(GoOn(b, l, o, e), g) && TerminatedOk(inp, GoOn(b, l, o, e), g)
  {
    assert !Branched(inp, g, p) by {
      SuccessiveAdvances(inp, p, o);
      BranchedBranches(inp, b, g, p);
    }
    hide Branched, Successive, LedgerOk;
    var b' := GoOn(b, l, o, e);
    assert Last(b'.ident[l]) == o;
    forall m | m in b.ident && m != l ensures b'.ident[m] == b.ident[m] {}
  }

  lemma BranchedBranches(inp: Input, b: Builder, g: Ledger, p: ObsId)
    requires LedgerOk(inp, b, g)
    ensures Branched(inp, g, p) ==> Branches(inp, p)
  {
    if Branched(inp, g, p) && p !in g.splits {
      var c :| c in g.merges && p in Parents(inp, c);
      MergeParentBranches(inp, p, c);
    }
  }

  lemma MergeParentBranches(inp: Input, p: ObsId, c: ObsId)
    requires Merges(inp, c) && p in Parents(inp, c)
    ensures Branches(inp, p)
  {
    ParentsExact(inp, c);
    ChildrenExact(inp, p);
    assert c in Children(inp, p);
  }

  lemma GoOnCounts(inp: Input, b: Builder, g: Ledger, l: nat, p: ObsId, o: ObsId, e: Event)
    requires Balanced(b) && DeathsBalanced(b) && DormantOk(b, g) && MayGoOn(inp, b, l, p, o, e)
    requires LedgerOk(inp, b, g) && (Resurges(inp, p, o) ==> p in g.died)
    ensures l in b.ident && Balanced(GoOn(b, l, o, e)) && DeathsBalanced(GoOn(b, l, o, e))
  {
    var b' := GoOn(b, l, o, e);
    assert l in b.dormant <==> e.kind == Resurgence by {
      if Continues(inp, p, o) { assert p !in g.died; }
    }
    assert MayGoOnKind(e, l);
    assert l in b.ident && o !in b.lin;
    hide DormantOk, LedgerOk, MayGoOn, DeathsBalanced;
    GoOnSizes(b, l, o, e);
    hide Balanced;
    GoOnDeaths(b, l, o, e);
  }

  lemma GoOnSizes(b: Builder, l: nat, o: ObsId, e: Event)
    requires Balanced(b) && l in b.ident && o !in b.lin && MayGoOnKind(e, l)
    ensures Balanced(GoOn(b, l, o, e))
  {
    var b' := GoOn(b, l, o, e);
    assert b'.lin.Keys == b.lin.Keys + {o};
    assert b'.ident.Keys == b.ident.Keys;
    assert |b'.lin.Keys| == |b.lin.Keys| + 1;
    CountAppend(b.events, e, Continuation);
    CountAppend(b.events, e, Resurgence);
  }

  lemma GoOnDeaths(b: Builder, l: nat, o: ObsId, e: Event)
    requires DeathsBalanced(b) && l in b.ident && MayGoOnKind(e, l) && (l in b.dormant <==> e.kind == Resurgence)
    ensures DeathsBalanced(GoOn(b, l, o, e))
  {
    var b' := GoOn(b, l, o, e);
    forall m: nat
      ensures CountFor(b'.events, Death, m) == CountFor(b'.events, Resurgence, m) + if m in b'.dormant then 1 else 0
    {
      CountForAppend(b.events, e, Death, m);
      CountForAppend(b.events, e, Resurgence, m);
    }
  }

  predicate MayGoOnKind(e: Event, l: nat) {
    e.kind in {Continuation, Resurgence} && e.parentLineages == [l]
  }

  // ----- a new lineage: a child of a branch, or a birth -----

  lemma NewLineageGrows(b: Builder, o: ObsId)
    requires Numbered(b) && o !in b.lin
    ensures BuilderGrows(b, NewLineage(b, o))
  {
  }

  lemma NewFollows(b: Builder, o: ObsId, x: ObsId, c: ObsId)
    requires Numbered(b)
    ensures Follows(NewLineage(b, o), x, c) ==> Follows(b, x, c)
  {
    var b' := NewLineage(b, o);
    if Follows(b', x, c) {
      var l: nat, i: int :| FollowsAt(b'.ident, l, i, x, c);
      assert FollowsAt(b.ident, l, i, x, c);
    }
  }

  lemma NewHeads(b: Builder, o: ObsId, c: ObsId)
    requires Numbered(b)
    ensures Heads(NewLineage(b, o), c) <==> Heads(b, c) || c == o
  {
    var b' := NewLineage(b, o);
    if Heads(b', c) {
      var l :| l in b'.ident && b'.ident[l] != [] && b'.ident[l][0] == c;
      if l != b.next { assert b.ident[l] == b'.ident[l]; }
    }
    if Heads(b, c) {
      var l :| l in b.ident && b.ident[l] != [] && b.ident[l][0] == c;
      assert b'.ident[l] == b.ident[l];
    }
    assert b'.ident[b.next][0] == o;
  }

  /** Everything is recorded after `o` got a new lineage, but for the birth of `o` itself. */
  lemma NewRecords(inp: Input, b: Builder, g: Ledger, o: ObsId)
    requires Identities(inp, b) && EventsComplete(inp, b, g) && LedgerOk(inp, b, g)
    requires Known(inp, o) && o !in b.lin && Starts(inp, o) && forall x | x in b.lin :: x.snap <= o.snap
    ensures var b' := NewLineage(b, o);
            && LedgerOk(inp, b', g) && DeathsDone(b', g) && SplitsDone(inp, b', g) && MergesDone(inp, b', g)
            && ContinuationsDone(inp, b') && ResurgencesDone(inp, b')
            && (forall c | c in b'.lin && Parents(inp, c) == [] && Heads(b', c) && c != o ::
               BirthOf(b'.lin, c) in b'.events)
  {
    hide LedgerOk, DeathsDone, SplitsDone, MergesDone, Known, Children, Parents, IdentitiesOwn, ChainsOk;
    hide NumbersAdvance, ObservationsOwned, Resurges;
    var b' := NewLineage(b, o);
    NewLineageGrows(b, o);
    RecordsGrow(inp, b, g, b');
    forall x, c | x in b'.lin && c in b'.lin && Continues(inp, x, c) ensures ContinuationOf(b'.lin, x, c) in b'.events {
      ContinuesForward(inp, x, c);
      assert c != o;
      assert x in b.lin && c in b.lin;
    }
    forall x, c | x in b'.lin && c in b'.lin && Resurges(inp, x, c) && Follows(b', x, c)
      ensures ResurgenceOf(b'.lin, x, c) in b'.events
    {
      NewFollows(b, o, x, c);
      FollowsKnown(inp, b, x, c);
      assert ResurgenceOf(b.lin, x, c) in b.events;
    }
    forall c | c in b'.lin && Parents(inp, c) == [] && Heads(b', c) && c != o ensures BirthOf(b'.lin, c) in b'.events {
      NewHeads(b, o, c);
      assert BirthOf(b.lin, c) in b.events;
    }
  }

  lemma NewDormant(inp: Input, b: Builder, g: Ledger, o: ObsId)
    requires Numbered(b) && DormantOk(b, g) && TerminatedOk(inp, b, g) && o !in g.died && !Branched(inp, g, o)
    ensures DormantOk(NewLineage(b, o), g) && TerminatedOk(inp, NewLineage(b, o), g)
  {
    hide Branched;
    var b' := NewLineage(b, o);
    assert Last(b'.ident[b.next]) == o;
    forall m | m in b.ident ensures m != b.next && b'.ident[m] == b.ident[m] {}
  }

  lemma NewCounts(b: Builder, o: ObsId)
    requires Numbered(b) && Balanced(b) && DeathsBalanced(b) && o !in b.lin
    ensures Balanced(NewLineage(b, o)) && DeathsBalanced(NewLineage(b, o))
  {
    hide Count, CountFor, Balanced, DeathsBalanced;
    assert b.next !in b.ident;
    MapGrows(b.lin, o, b.next);
    MapGrows(b.ident, b.next, [o]);
    SameEventsBalanced(b, NewLineage(b, o));
  }

  lemma SameEventsBalanced(b: Builder, b': Builder)
    requires b'.events == b.events && b'.dormant == b.dormant && |b'.lin| == |b.lin| + 1 && |b'.ident| == |b.ident| + 1
    ensures Balanced(b) ==> Balanced(b')
    ensures DeathsBalanced(b) ==> DeathsBalanced(b')
  {
    hide Count, CountFor;
  }

  lemma NumberedOf(inp: Input, b: Builder)
    requires Identities(inp, b)
    ensures Numbered(b)
  {
    hide Numbered, IdentitiesOwn, ObservationsOwned, ChainsOk, NumbersAdvance;
  }

  /** A child of a split or merge starts a lineage of its own; it is not a birth. */
  lemma ForkKeeps(inp: Input, b: Builder, g: Ledger, o: ObsId)
    requires Invariant(inp, b, g) && Known(inp, o) && o !in b.lin && Starts(inp, o) && Parents(inp, o) != []
    requires forall x | x in b.lin :: x.snap <= o.snap
    ensures Invariant(inp, NewLineage(b, o), g)
  {
    hide *;
    Parts(inp, b, g);
    NumberedOf(inp, b);
    NotRecorded(inp, b, g, o);
    var b' := NewLineage(b, o);
    NewLineageIdentities(inp, b, o);
    NewRecords(inp, b, g, o);
    assert b'.events == b.events by { NewEvents(b, o); }
    assert EventsComplete(inp, b', g) by { CompleteButBirths(inp, b', g, o); }
    assert EventsTrue(inp, b', g) by { NewTrue(inp, b, g, o); }
    NewDormant(inp, b, g, o);
    NewCounts(b, o);
    Assemble(inp, b', g);
  }

  lemma NewEvents(b: Builder, o: ObsId)
    ensures NewLineage(b, o).events == b.events
  {
  }

  lemma CompleteButBirths(inp: Input, b: Builder, g: Ledger, o: ObsId)
    requires DeathsDone(b, g) && SplitsDone(inp, b, g) && MergesDone(inp, b, g) && ContinuationsDone(inp, b)
        && ResurgencesDone(inp, b)
    requires forall c | c in b.lin && Parents(inp, c) == [] && Heads(b, c) && c != o :: BirthOf(b.lin, c) in b.events
    requires o in b.lin && Parents(inp, o) == [] ==> BirthOf(b.lin, o) in b.events
    ensures EventsComplete(inp, b, g)
  {
    hide DeathsDone, SplitsDone, MergesDone, ContinuationsDone, ResurgencesDone, Parents, Heads;
  }

  lemma NewTrue(inp: Input, b: Builder, g: Ledger, o: ObsId)
    requires Numbered(b) && EventsTrue(inp, b, g) && o !in b.lin
    ensures EventsTrue(inp, NewLineage(b, o), g)
  {
    hide EventsTrue, Explained;
    NewLineageGrows(b, o);
    hide BuilderGrows;
    EventsTrueGrow(inp, b, g, NewLineage(b, o), g);
  }

  function Bear(b: Builder, o: ObsId): Builder {
    var n := NewLineage(b, o);
    Emit(n, BirthOf(n.lin, o))
  }

  /** A parentless observation that nothing resurges as is born. */
  lemma BearKeeps(inp: Input, b: Builder, g: Ledger, o: ObsId)
    requires Invariant(inp, b, g) && Known(inp, o) && o !in b.lin && Parents(inp, o) == []
    requires forall x | x in b.lin :: x.snap <= o.snap
    ensures Invariant(inp, Bear(b, o), g)
  {
    hide *;
    assert Starts(inp, o) by { ParentlessStarts(inp, o); }
    Parts(inp, b, g);
    NumberedOf(inp, b);
    NotRecorded(inp, b, g, o);
    var n, b' := NewLineage(b, o), Bear(b, o);
    NewLineageIdentities(inp, b, o);
    BearShape(b, o);
    BearIsEmit(b, n, o);
    SameIdentities(inp, n, b');
    NewRecords(inp, b, g, o);
    NewTrue(inp, b, g, o);
    NewDormant(inp, b, g, o);
    NewCounts(b, o);
    BearEmits(inp, b, n, g, o);
    Assemble(inp, b', g);
  }

  lemma ParentlessStarts(inp: Input, o: ObsId)
    requires Parents(inp, o) == []
    ensures Starts(inp, o)
  {
    hide Parents, Children;
  }

  lemma BearShape(b: Builder, o: ObsId)
    ensures var n := NewLineage(b, o);
            && Bear(b, o).lin == n.lin && Bear(b, o).ident == n.ident && Bear(b, o).next == n.next
  {
  }

  lemma BearEmits(inp: Input, b: Builder, n: Builder, g: Ledger, o: ObsId)
    requires Numbered(b) && n == NewLineage(b, o) && o !in b.lin && o in n.lin && Parents(inp, o) == []
    requires EventsTrue(inp, b, g) && EventsTrue(inp, n, g) && NoDuplicates(b.events)
    requires LedgerOk(inp, n, g) && DeathsDone(n, g) && SplitsDone(inp, n, g) && MergesDone(inp, n, g)
    requires ContinuationsDone(inp, n) && ResurgencesDone(inp, n)
    requires forall c | c in n.lin && Parents(inp, c) == [] && Heads(n, c) && c != o :: BirthOf(n.lin, c) in n.events
    requires DormantOk(n, g) && TerminatedOk(inp, n, g) && Balanced(n) && DeathsBalanced(n)
    ensures var b' := Bear(b, o);
            && LedgerOk(inp, b', g) && DormantOk(b', g) && TerminatedOk(inp, b', g)
            && EventsTrue(inp, b', g) && EventsComplete(inp, b', g) && NoDuplicates(b'.events) && Balanced(b')
               && DeathsBalanced(b')
  {
    hide *;
    var b', e := Bear(b, o), BirthOf(n.lin, o);
    BearIsEmit(b, n, o);
    AppendMembers(n.events, e);
    NewBirth(inp, b, n, g, o);
    AppendDistinct(n.events, e);
    SameLedger(inp, n, b', g);
    SameDormant(n, b', g, g);
    SameBranches(inp, n, g, b', g);
    BearExplained(inp, b, g, o);
    assert BuilderGrows(n, b') by { EmitGrows(n, e); }
    assert LedgerGrows(g, g) by { LedgerSame(g); }
    EventsTrueGrow(inp, n, g, b', g);
    RecordsGrow(inp, n, g, b');
    EmitKeepsLinks(inp, n, e);
    BearBirths(inp, n, o);
    assert EventsComplete(inp, b', g) by { CompleteAll(inp, b', g); }
    EmitCounts(n, e);
  }

  lemma BearIsEmit(b: Builder, n: Builder, o: ObsId)
    requires n == NewLineage(b, o)
    ensures o in n.lin && Bear(b, o) == Emit(n, BirthOf(n.lin, o)) && n.events == b.events
    ensures var b', e := Bear(b, o), BirthOf(n.lin, o);
            && b'.lin == n.lin && b'.ident == n.ident && b'.dormant == n.dormant && b'.terminated == n.terminated
            && b'.events == n.events + [e] && e.kind in {Birth, Split, Merge}
  {
  }

  lemma NewBirth(inp: Input, b: Builder, n: Builder, g: Ledger, o: ObsId)
    requires EventsTrue(inp, b, g) && n == NewLineage(b, o) && o !in b.lin
    ensures o in n.lin && BirthOf(n.lin, o) !in b.events
  {
    hide EventsTrue;
    if BirthOf(n.lin, o) in b.events { KnownChild(inp, b, g, BirthOf(n.lin, o), o); }
  }

  lemma EmitGrows(b: Builder, e: Event)
    ensures BuilderGrows(b, Emit(b, e))
  {
  }

  lemma LedgerSame(g: Ledger)
    ensures LedgerGrows(g, g)
  {
  }

  lemma EmitKeepsLinks(inp: Input, b: Builder, e: Event)
    requires ContinuationsDone(inp, b) && ResurgencesDone(inp, b)
    ensures ContinuationsDone(inp, Emit(b, e)) && ResurgencesDone(inp, Emit(b, e))
  {
    hide Parents, Children, Continues, Resurges;
    AppendMembers(b.events, e);
  }

  lemma BearBirths(inp: Input, n: Builder, o: ObsId)
    requires o in n.lin
    requires forall c | c in n.lin && Parents(inp, c) == [] && Heads(n, c) && c != o :: BirthOf(n.lin, c) in n.events
    ensures BirthsDone(inp, Emit(n, BirthOf(n.lin, o)))
  {
    hide Parents;
    AppendMembers(n.events, BirthOf(n.lin, o));
  }

  lemma CompleteAll(inp: Input, b: Builder, g: Ledger)
    requires BirthsDone(inp, b) && DeathsDone(b, g) && ContinuationsDone(inp, b)
    requires SplitsDone(inp, b, g) && MergesDone(inp, b, g) && ResurgencesDone(inp, b)
    ensures EventsComplete(inp, b, g)
  {
    hide BirthsDone, DeathsDone, ContinuationsDone, SplitsDone, MergesDone, ResurgencesDone;
  }

  /** Births, splits and merges leave the counts alone. */
  lemma EmitCounts(b: Builder, e: Event)
    requires Balanced(b) && DeathsBalanced(b) && e.kind in {Birth, Split, Merge}
    ensures Balanced(Emit(b, e)) && DeathsBalanced(Emit(b, e))
  {
    CountAppend(b.events, e, Continuation);
    CountAppend(b.events, e, Resurgence);
    forall l: nat
      ensures CountFor(b.events + [e], Death, l)
          == CountFor(b.events + [e], Resurgence, l) + if l in b.dormant then 1 else 0
    {
      CountForAppend(b.events, e, Death, l);
      CountForAppend(b.events, e, Resurgence, l);
    }
  }

  lemma BearExplained(inp: Input, b: Builder, g: Ledger, o: ObsId)
    requires Numbered(b) && Parents(inp, o) == []
    ensures Explained(inp, Bear(b, o), g, BirthOf(NewLineage(b, o).lin, o))
  {
    hide Parents, Children;
    assert Bear(b, o).ident[b.next][0] == o;
  }

  // ----- splits and merges -----

  function RegisterSplit(inp: Input, b: Builder, p: ObsId): Builder
    requires p in b.lin && forall c | c in Children(inp, p) :: c in b.lin
  {
    Emit(b.(terminated := b.terminated + {b.lin[p]}), SplitOf(inp, b.lin, p))
  }

  function RegisterMerge(inp: Input, b: Builder, c: ObsId): Builder
    requires c in b.lin && forall p | p in Parents(inp, c) :: p in b.lin
  {
    Emit(b.(terminated := b.terminated + set p | p in Parents(inp, c) :: b.lin[p]), MergeOf(inp, b.lin, c))
  }

  /** A split or merge event that ends the lineages of `parents`. */
  ghost predicate Registers(b: Builder, b': Builder, parents: set<ObsId>, e: Event) {
    && b'.lin == b.lin && b'.ident == b.ident && b'.next == b.next && b'.dormant == b.dormant
    && (forall p | p in parents :: p in b.lin)
    && b'.terminated == b.terminated + (set p | p in parents && p in b.lin :: b.lin[p])
    && b'.events == b.events + [e] && e.kind in {Split, Merge}
  }

  lemma RegisterKeeps(inp: Input, b: Builder, g: Ledger, b': Builder, g': Ledger, parents: set<ObsId>, e: Event)
    requires Invariant(inp, b, g) && Registers(b, b', parents, e)
    requires LedgerGrows(g, g') && g'.died == g.died && LedgerOk(inp, b, g')
    requires forall p :: Branched(inp, g', p) <==> Branched(inp, g, p) || p in parents
    requires forall p, c | p in parents && c in b.lin :: !Successive(inp, p, c)
    requires e !in b.events && Explained(inp, b', g', e)
    requires SplitsDone(inp, b', g') && MergesDone(inp, b', g')
    ensures Invariant(inp, b', g')
  {
    hide *;
    RegistersFacts(b, b', parents, e);
    Parts(inp, b, g);
    SameIdentities(inp, b, b');
    assert LedgerOk(inp, b', g') by { SameLedger(inp, b, b', g'); }
    assert DormantOk(b', g') by { SameDormant(b, b', g, g'); }
    RegisterTerminated(inp, b, g, b', g', parents, e);
    AppendMembers(b.events, e);
    AppendDistinct(b.events, e);
    RegisterTrue(inp, b, g, b', g', parents, e);
    RegisterComplete(inp, b, g, b', g', parents, e);
    RegisterCounts(b, b', parents, e);
    Assemble(inp, b', g');
  }

  lemma RegistersFacts(b: Builder, b': Builder, parents: set<ObsId>, e: Event)
    requires Registers(b, b', parents, e)
    ensures b'.lin == b.lin && b'.ident == b.ident && b'.next == b.next && b'.dormant == b.dormant
        && b'.events == b.events + [e]
  {
  }

  lemma SameLedger(inp: Input, b: Builder, b': Builder, g: Ledger)
    requires LedgerOk(inp, b, g) && b'.lin == b.lin
    ensures LedgerOk(inp, b', g)
  {
    hide Children, Parents, Splits, Merges;
  }

  lemma SameDormant(b: Builder, b': Builder, g: Ledger, g': Ledger)
    requires DormantOk(b, g) && b'.ident == b.ident && b'.dormant == b.dormant && g'.died == g.died
    ensures DormantOk(b', g')
  {
  }

  lemma RegisterTerminated(inp: Input, b: Builder, g: Ledger, b': Builder, g': Ledger, parents: set<ObsId>, e: Event)
    requires Identities(inp, b) && TerminatedOk(inp, b, g) && Registers(b, b', parents, e)
    requires forall p :: Branched(inp, g', p) <==> Branched(inp, g, p) || p in parents
    requires forall p, c | p in parents && c in b.lin :: !Successive(inp, p, c)
    ensures TerminatedOk(inp, b', g')
  {
    hide Branched, Successive, Starts, Known, Chain;
    forall p | p in parents
      ensures p in b.lin && b.lin[p] in b.ident && b.ident[b.lin[p]] != [] && Last(b.ident[b.lin[p]]) == p
    {
      IsLast(inp, b, p);
    }
    forall l | l in b.ident ensures b.ident[l] != [] && b.lin[Last(b.ident[l])] == l {
      assert b.lin[b.ident[l][|b.ident[l]| - 1]] == l;
    }
    hide ChainsOk, ObservationsOwned, NumbersAdvance;
  }

  lemma RegisterTrue(inp: Input, b: Builder, g: Ledger, b': Builder, g': Ledger, parents: set<ObsId>, e: Event)
    requires EventsTrue(inp, b, g) && Registers(b, b', parents, e) && LedgerGrows(g, g') && Explained(inp, b', g', e)
    ensures EventsTrue(inp, b', g')
  {
    hide Explained, EventsTrue, LedgerGrows;
    AppendMembers(b.events, e);
    EventsTrueGrow(inp, b, g, b', g');
  }

  lemma RegisterComplete(inp: Input, b: Builder, g: Ledger, b': Builder, g': Ledger, parents: set<ObsId>, e: Event)
    requires EventsComplete(inp, b, g) && Registers(b, b', parents, e) && g'.died == g.died
    requires SplitsDone(inp, b', g') && MergesDone(inp, b', g')
    ensures EventsComplete(inp, b', g')
  {
    hide SplitsDone, MergesDone, Parents, Children, Continues, Resurges;
    AppendMembers(b.events, e);
    forall c ensures Heads(b', c) == Heads(b, c) {}
    forall x, c ensures Follows(b', x, c) == Follows(b, x, c) {}
    hide Heads, Follows;
  }

  lemma RegisterCounts(b: Builder, b': Builder, parents: set<ObsId>, e: Event)
    requires Balanced(b) && DeathsBalanced(b) && Registers(b, b', parents, e)
    ensures Balanced(b') && DeathsBalanced(b')
  {
    EmitCounts(b, e);
    var c := Emit(b, e);
    assert c.events == b'.events && c.dormant == b'.dormant && c.lin == b'.lin && c.ident == b'.ident;
  }

  lemma BranchGoesNowhere(inp: Input, p: ObsId, c: ObsId)
    requires Branches(inp, p)
    ensures !Successive(inp, p, c)
  {
    FatesExclude(inp, p);
  }

  /** Once its children have their lineages, a split is registered. */
  lemma SplitKeeps(inp: Input, b: Builder, g: Ledger, p: ObsId)
    requires Invariant(inp, b, g) && p in b.lin && Splits(inp, p) && p !in g.splits
    requires forall c | c in Children(inp, p) :: c in b.lin
    ensures Invariant(inp, RegisterSplit(inp, b, p), g.(splits := g.splits + {p}))
  {
    hide Identities, DormantOk, TerminatedOk, EventsComplete, Balanced, DeathsBalanced, Children, Parents, NoDuplicates;
    var b', g', e := RegisterSplit(inp, b, p), g.(splits := g.splits + {p}), SplitOf(inp, b.lin, p);
    Parts(inp, b, g);
    assert Registers(b, b', {p}, e);
    KnownSplit(inp, b, g, p);
    forall q, c | q in {p} && c in b.lin ensures !Successive(inp, q, c) { BranchGoesNowhere(inp, p, c); }
    assert Explained(inp, b', g', e);
    assert SplitsDone(inp, b', g') && MergesDone(inp, b', g') by { SplitRecorded(inp, b, g, p); }
    hide Explained, Invariant, Registers, RegisterSplit, EventsTrue, Splits, Merges, Successive;
    RegisterKeeps(inp, b, g, b', g', {p}, e);
  }

  lemma KnownSplit(inp: Input, b: Builder, g: Ledger, p: ObsId)
    requires EventsTrue(inp, b, g) && p in b.lin && forall c | c in Children(inp, p) :: c in b.lin
    ensures SplitOf(inp, b.lin, p) in b.events ==> p in g.splits
  {
    if SplitOf(inp, b.lin, p) in b.events { assert Explained(inp, b, g, SplitOf(inp, b.lin, p)); }
  }

  lemma KnownMerge(inp: Input, b: Builder, g: Ledger, c: ObsId)
    requires EventsTrue(inp, b, g) && c in b.lin && forall p | p in Parents(inp, c) :: p in b.lin
    ensures MergeOf(inp, b.lin, c) in b.events ==> c in g.merges
  {
    if MergeOf(inp, b.lin, c) in b.events { assert Explained(inp, b, g, MergeOf(inp, b.lin, c)); }
  }

  lemma SplitRecorded(inp: Input, b: Builder, g: Ledger, p: ObsId)
    requires EventsComplete(inp, b, g) && p in b.lin && forall c | c in Children(inp, p) :: c in b.lin
    ensures var b', g' := RegisterSplit(inp, b, p), g.(splits := g.splits + {p});
            SplitsDone(inp, b', g') && MergesDone(inp, b', g')
  {
    hide BirthsDone, DeathsDone, ContinuationsDone, ResurgencesDone, Children, Parents;
    AppendMembers(b.events, SplitOf(inp, b.lin, p));
  }

  /** Once the child has its lineage, a merge is registered. */
  lemma MergeKeeps(inp: Input, b: Builder, g: Ledger, c: ObsId)
    requires Invariant(inp, b, g) && c in b.lin && Merges(inp, c) && c !in g.merges
    requires forall p | p in Parents(inp, c) :: p in b.lin
    ensures Invariant(inp, RegisterMerge(inp, b, c), g.(merges := g.merges + {c}))
  {
    hide Identities, DormantOk, TerminatedOk, EventsComplete, Balanced, DeathsBalanced, Children, Parents, NoDuplicates;
    var b', g', e := RegisterMerge(inp, b, c), g.(merges := g.merges + {c}), MergeOf(inp, b.lin, c);
    var parents := set p | p in Parents(inp, c);
    Parts(inp, b, g);
    assert Registers(b, b', parents, e) by {
      assert (set p | p in Parents(inp, c) :: b.lin[p]) == (set p | p in parents && p in b.lin :: b.lin[p]);
    }
    KnownMerge(inp, b, g, c);
    forall p, x | p in parents && x in b.lin ensures !Successive(inp, p, x) {
      MergeParentBranches(inp, p, c);
      BranchGoesNowhere(inp, p, x);
    }
    assert Explained(inp, b', g', e);
    assert SplitsDone(inp, b', g') && MergesDone(inp, b', g') by { MergeRecorded(inp, b, g, c); }
    forall p ensures Branched(inp, g', p) <==> Branched(inp, g, p) || p in parents {
      if p in parents { assert c in g'.merges && p in Parents(inp, c); }
    }
    hide Explained, Invariant, Registers, RegisterMerge, EventsTrue, Splits, Merges, Successive, Branched;
    RegisterKeeps(inp, b, g, b', g', parents, e);
  }

  lemma MergeRecorded(inp: Input, b: Builder, g: Ledger, c: ObsId)
    requires EventsComplete(inp, b, g) && c in b.lin && forall p | p in Parents(inp, c) :: p in b.lin
    ensures var b', g' := RegisterMerge(inp, b, c), g.(merges := g.merges + {c});
            SplitsDone(inp, b', g') && MergesDone(inp, b', g')
  {
    hide BirthsDone, DeathsDone, ContinuationsDone, ResurgencesDone, Children, Parents;
    AppendMembers(b.events, MergeOf(inp, b.lin, c));
  }

  lemma StartInvariant(inp: Input)
    ensures Invariant(inp, Start(), Ledger({}, {}, {}))
  {
  }

  lemma BuilderGrowsReflexive(b: Builder)
    ensures BuilderGrows(b, b)
  {
  }

  lemma BuilderGrowsTransitive(a: Builder, b: Builder, c: Builder)
    requires BuilderGrows(a, b) && BuilderGrows(b, c)
    ensures BuilderGrows(a, c)
  {
  }
}
