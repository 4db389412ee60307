/** Correction propagation (apps/api/jobs/repository.py, record_correction): a breadth-first
    walk over the reverse-dependency graph, and the proof that it marks exactly the
    publications that depend on the corrected item, each at its shortest distance. */
module Correction {
  import opened Basics
  import opened JobTypes

  datatype Context = Context(caseId: string, correctionId: string, now: Time)

  datatype Entry = Entry(changed: DependencyRef, depth: nat)

  /** The loop's variables: the deque, the seen set, the publications being rewritten,
      the impacts recorded so far and the id counter. */
  datatype Walk = Walk(
    queue: seq<Entry>,
    seen: set<Id>,
    publications: map<Id, Publication>,
    impacts: seq<Impact>,
    nextId: Id)

  function Dependents(pubs: map<Id, Publication>, caseId: string, ref: DependencyRef): set<Id> {
    set id | id in pubs && pubs[id].caseId == caseId && ref in pubs[id].dependencies
  }

  /** The elements of a set of ids, in increasing order. */
  function SortedIds(s: set<Id>): (r: seq<Id>)
    ensures multiset(r) == multiset(s)
    decreases s
  {
    if s == {} then []
    else
      var m := Smallest(s);
      assert multiset(s) == multiset(s - {m}) + multiset{m};
      [m] + SortedIds(s - {m})
  }

  ghost predicate IsSmallest(s: set<Id>, m: Id) {
    m in s && forall x | x in s :: m <= x
  }

  function Smallest(s: set<Id>): (m: Id)
    requires s != {}
    ensures m in s && forall x | x in s :: m <= x
  {
    SmallestExists(s);
    var m :| m in s && forall x | x in s :: m <= x;
    m
  }

  lemma {:induction false} SmallestExists(s: set<Id>)
    requires s != {}
    ensures exists m :: IsSmallest(s, m)
  {
    var a :| a in s;
    var rest := s - {a};
    if rest == {} {
      forall x | x in s ensures a <= x { assert x !in rest; }
      assert IsSmallest(s, a);
    } else {
      SmallestExists(rest);
      var m :| IsSmallest(rest, m);
      var best := if a <= m then a else m;
      forall x | x in s ensures best <= x {
        if x != a { assert x in rest; }
      }
      assert IsSmallest(s, best);
    }
  }

  lemma SortedIdsMembers(s: set<Id>)
    ensures forall x :: x in SortedIds(s) <==> x in s
  {
    forall x ensures x in SortedIds(s) <==> x in s {
      assert x in SortedIds(s) <==> x in multiset(SortedIds(s));
    }
  }

  function CorrectionReason(correctionId: string): string { "correction:" + correctionId }

  /** An existing stale instant or reason is kept. */
  function MarkStale(p: Publication, ctx: Context): Publication {
    p.(state := Stale,
       staleAt := Some(p.staleAt.GetOr(ctx.now)),
       staleReason := Some(p.staleReason.GetOr(CorrectionReason(ctx.correctionId))))
  }

  function MarkAllStale(pubs: map<Id, Publication>, ids: set<Id>, ctx: Context): map<Id, Publication> {
    map id | id in pubs :: if id in ids then MarkStale(pubs[id], ctx) else pubs[id]
  }

  /** One iteration of the inner loop. */
  function VisitOne(w: Walk, id: Id, e: Entry, ctx: Context): (w': Walk)
    requires id in w.publications
    ensures w'.publications.Keys == w.publications.Keys
    ensures w'.seen == w.seen + {id}
    ensures |w'.queue| - |w.queue| == |w'.impacts| - |w.impacts| == |w'.seen| - |w.seen|
    ensures w.nextId <= w'.nextId
  {
    if id in w.seen then w
    else
      var p := w.publications[id];
      Walk(
        w.queue + [Entry(PublicationRef(p), e.depth + 1)],
        w.seen + {id},
        w.publications[id := MarkStale(p, ctx)],
        w.impacts + [Impact(w.nextId, ctx.caseId, ctx.correctionId, e.changed, id, e.depth, ctx.now)],
        w.nextId + 1)
  }

  function VisitAll(w: Walk, ids: seq<Id>, e: Entry, ctx: Context): (w': Walk)
    requires forall id | id in ids :: id in w.publications
    ensures w'.publications.Keys == w.publications.Keys
    ensures w.seen <= w'.seen && (forall id | id in ids :: id in w'.seen)
    ensures forall id | id in w'.seen :: id in w.seen || id in ids
    ensures |w'.queue| - |w.queue| == |w'.impacts| - |w.impacts| == |w'.seen| - |w.seen|
    ensures w.nextId <= w'.nextId
    decreases |ids|
  {
    if ids == [] then w
    else VisitAll(VisitOne(w, ids[0], e, ctx), ids[1..], e, ctx)
  }

  /** One iteration of the outer loop, over the graph `pubs` indexed before the walk. */
  function Pop(w: Walk, pubs: map<Id, Publication>, ctx: Context): (w': Walk)
    requires w.queue != []
    requires w.publications.Keys == pubs.Keys
    ensures w'.publications.Keys == pubs.Keys
    ensures w.seen <= pubs.Keys ==> w'.seen <= pubs.Keys
    ensures |w'.queue| - |w'.seen| == |w.queue| - |w.seen| - 1
    ensures w.nextId <= w'.nextId
  {
    var e := w.queue[0];
    SortedIdsMembers(Dependents(pubs, ctx.caseId, e.changed));
    VisitAll(w.(queue := w.queue[1..]), SortedIds(Dependents(pubs, ctx.caseId, e.changed)), e, ctx)
  }

  lemma SubsetSize(a: set<Id>, b: set<Id>)
    requires a <= b
    ensures |a| <= |b|
  {
    assert b == a + (b - a);
    assert |b| == |a| + |b - a|;
  }

  /** The whole walk. It ends on cyclic dependencies because every publication enters the
      queue at most once. */
  function Drain(w: Walk, pubs: map<Id, Publication>, ctx: Context): (w': Walk)
    requires w.publications.Keys == pubs.Keys && w.seen <= pubs.Keys
    ensures w'.queue == [] && w'.publications.Keys == pubs.Keys && w.nextId <= w'.nextId
    decreases |w.queue| + |pubs.Keys| - |w.seen|
  {
    SubsetSize(w.seen, pubs.Keys);
    if w.queue == [] then w
    else
      var next := Pop(w, pubs, ctx);
      SubsetSize(next.seen, pubs.Keys);
      Drain(next, pubs, ctx)
  }

  function Start(pubs: map<Id, Publication>, dep: DependencyRef, nextId: Id): Walk {
    Walk([Entry(dep, 0)], {}, pubs, [], nextId)
  }

  function Propagate(pubs: map<Id, Publication>, dep: DependencyRef, ctx: Context, nextId: Id): Walk {
    Drain(Start(pubs, dep, nextId), pubs, ctx)
  }

  // ----- the reference definition: dependency paths -----

  /** A chain of same-case publications, the first depending on `dep` and each other one
      depending on the exact generation of the one before it. */
  ghost predicate IsPath(pubs: map<Id, Publication>, caseId: string, dep: DependencyRef, path: seq<Id>) {
    && |path| > 0
    && path[0] in Dependents(pubs, caseId, dep)
    && (forall i | 0 <= i < |path| :: path[i] in pubs)
    && forall i | 0 < i < |path| :: path[i] in Dependents(pubs, caseId, PublicationRef(pubs[path[i - 1]]))
  }

  ghost predicate PathTo(pubs: map<Id, Publication>, caseId: string, dep: DependencyRef, path: seq<Id>, id: Id) {
    IsPath(pubs, caseId, dep, path) && path[|path| - 1] == id
  }

  ghost predicate Affected(pubs: map<Id, Publication>, caseId: string, dep: DependencyRef, id: Id) {
    exists path :: PathTo(pubs, caseId, dep, path, id)
  }

  /** `depth` is the number of publications strictly between the corrected item and `id`
      on a shortest chain. */
  ghost predicate ShortestDepth(pubs: map<Id, Publication>, caseId: string, dep: DependencyRef, id: Id, depth: nat) {
    && (exists path :: PathTo(pubs, caseId, dep, path, id) && |path| == depth + 1)
    && forall path | PathTo(pubs, caseId, dep, path, id) :: depth + 1 <= |path|
  }

  // ----- the loop invariant -----

  predicate AllIn(pubs: map<Id, Publication>, impacts: seq<Impact>) {
    forall k | 0 <= k < |impacts| :: impacts[k].publicationId in pubs
  }

  ghost predicate Recorded(impacts: seq<Impact>, id: Id) {
    exists k | 0 <= k < |impacts| :: impacts[k].publicationId == id
  }

  /** Every entry that was ever queued: the correction itself, then one per impact. */
  function AllEntries(pubs: map<Id, Publication>, dep: DependencyRef, impacts: seq<Impact>): (r: seq<Entry>)
    requires AllIn(pubs, impacts)
    ensures |r| == |impacts| + 1
  {
    [Entry(dep, 0)] +
    seq(|impacts|, k requires 0 <= k < |impacts| =>
          Entry(PublicationRef(pubs[impacts[k].publicationId]), impacts[k].depth + 1))
  }

  ghost predicate ImpactedWithin(impacts: seq<Impact>, id: Id, depth: nat) {
    exists k | 0 <= k < |impacts| :: impacts[k].publicationId == id && impacts[k].depth <= depth
  }

  ghost predicate ImpactsKnown(pubs: map<Id, Publication>, w: Walk) {
    && AllIn(pubs, w.impacts)
    && (forall k | 0 <= k < |w.impacts| :: w.impacts[k].publicationId in w.seen)
    && (forall id | id in w.seen :: Recorded(w.impacts, id))
    && (forall i, j | 0 <= i < j < |w.impacts| :: w.impacts[i].publicationId != w.impacts[j].publicationId)
  }

  /** Impact `k` was produced by an entry that was already taken from the queue. */
  ghost predicate Justified(pubs: map<Id, Publication>, caseId: string, entries: seq<Entry>, n: nat,
        impacts: seq<Impact>, k: nat)
    requires n <= |entries| && k < |impacts|
  {
    && impacts[k].publicationId in Dependents(pubs, caseId, impacts[k].dependency)
    && exists j | 0 <= j < n && j <= k :: entries[j] == Entry(impacts[k].dependency, impacts[k].depth)
  }

  ghost predicate AllJustified(pubs: map<Id, Publication>, caseId: string, entries: seq<Entry>, n: nat,
        impacts: seq<Impact>)
    requires n <= |entries|
  {
    forall k | 0 <= k < |impacts| :: Justified(pubs, caseId, entries, n, impacts, k)
  }

  /** Depths never decrease along the queue, and never lead the `n`-th entry by more than one. */
  ghost predicate Layered(entries: seq<Entry>, n: nat)
    requires n <= |entries|
  {
    && (forall i, j | 0 <= i < j < |entries| :: entries[i].depth <= entries[j].depth)
    && (n > 0 ==> forall j | 0 <= j < |entries| :: entries[j].depth <= entries[n - 1].depth + 1)
  }

  /** The invariant while the `n`-th entry is being processed (or, for n = 0, before). */
  ghost predicate Core(pubs: map<Id, Publication>, dep: DependencyRef, ctx: Context, w: Walk, n: nat) {
    && w.publications == MarkAllStale(pubs, w.seen, ctx)
    && w.seen <= pubs.Keys
    && ImpactsKnown(pubs, w)
    && (n == 0 ==> w.impacts == [])
    && n <= |w.impacts| + 1
    && w.queue == AllEntries(pubs, dep, w.impacts)[n..]
    && Layered(AllEntries(pubs, dep, w.impacts), n)
    && AllJustified(pubs, ctx.caseId, AllEntries(pubs, dep, w.impacts), n, w.impacts)
  }

  lemma LayeredAppend(entries: seq<Entry>, n: nat, x: Entry)
    requires 0 < n <= |entries| && Layered(entries, n) && x.depth == entries[n - 1].depth + 1
    ensures Layered(entries + [x], n)
  {
  }

  lemma LayeredAdvance(entries: seq<Entry>, n: nat)
    requires n < |entries| && Layered(entries, n)
    requires n == 0 ==> |entries| == 1
    ensures Layered(entries, n + 1)
  {
  }

  /** Every dependent of the first `n` entries has been reached, no deeper than its entry. */
  ghost predicate Covered(pubs: map<Id, Publication>, dep: DependencyRef, ctx: Context, impacts: seq<Impact>, n: nat)
    requires AllIn(pubs, impacts)
    requires n <= |impacts| + 1
  {
    forall j, id | 0 <= j < n && id in Dependents(pubs, ctx.caseId, AllEntries(pubs, dep, impacts)[j].changed) ::
      ImpactedWithin(impacts, id, AllEntries(pubs, dep, impacts)[j].depth)
  }

  /** Recording one more publication: the bookkeeping between impacts and the seen set. */
  lemma RecordKnown(pubs: map<Id, Publication>, w: Walk, id: Id, e: Entry, ctx: Context)
    requires ImpactsKnown(pubs, w) && id !in w.seen
    requires id in pubs && id in w.publications
    ensures ImpactsKnown(pubs, VisitOne(w, id, e, ctx))
  {
    var w' := VisitOne(w, id, e, ctx);
    var last := w'.impacts[|w.impacts|];
    assert w'.impacts == w.impacts + [last] && last.publicationId == id;
    forall id' | id' in w'.seen ensures Recorded(w'.impacts, id') {
      if id' != id {
        var k :| 0 <= k < |w.impacts| && w.impacts[k].publicationId == id';
        assert w'.impacts[k] == w.impacts[k];
      }
    }
  }

  lemma RecordEntries(pubs: map<Id, Publication>, dep: DependencyRef, impacts: seq<Impact>, i: Impact)
    requires AllIn(pubs, impacts) && i.publicationId in pubs
    ensures AllIn(pubs, impacts + [i])
    ensures AllEntries(pubs, dep, impacts + [i])
         == AllEntries(pubs, dep, impacts) + [Entry(PublicationRef(pubs[i.publicationId]), i.depth + 1)]
  {
  }

  lemma JustifiedMonotone(caseId: string, pubs: map<Id, Publication>, entries: seq<Entry>, more: seq<Entry>, n: nat,
        m: nat, impacts: seq<Impact>, grown: seq<Impact>, k: nat)
    requires entries <= more && n <= |entries| && n <= m <= |more| && impacts <= grown && k < |impacts|
    requires Justified(pubs, caseId, entries, n, impacts, k)
    ensures Justified(pubs, caseId, more, m, grown, k)
  {
    var j :| 0 <= j < n && j <= k && entries[j] == Entry(impacts[k].dependency, impacts[k].depth);
    assert grown[k] == impacts[k];
    assert more[j] == Entry(grown[k].dependency, grown[k].depth);
  }

  lemma MarkOneMore(pubs: map<Id, Publication>, ids: set<Id>, id: Id, ctx: Context)
    requires id in pubs && id !in ids
    ensures MarkAllStale(pubs, ids, ctx)[id] == pubs[id]
    ensures MarkAllStale(pubs, ids, ctx)[id := MarkStale(pubs[id], ctx)] == MarkAllStale(pubs, ids + {id}, ctx)
  {
  }

  lemma DependentsKnown(pubs: map<Id, Publication>, caseId: string, ref: DependencyRef)
    ensures Dependents(pubs, caseId, ref) <= pubs.Keys
  {
  }

  lemma RecordJustified(pubs: map<Id, Publication>, caseId: string, entries: seq<Entry>, n: nat, impacts: seq<Impact>,
        e: Entry, i: Impact)
    requires 0 < n <= |entries| <= |impacts| + 1 && entries[n - 1] == e
    requires AllJustified(pubs, caseId, entries, n, impacts)
    requires i.publicationId in Dependents(pubs, caseId, e.changed) && i.dependency == e.changed && i.depth == e.depth
    ensures forall x: Entry :: AllJustified(pubs, caseId, entries + [x], n, impacts + [i])
  {
    forall x: Entry, k | 0 <= k < |impacts + [i]|
      ensures Justified(pubs, caseId, entries + [x], n, impacts + [i], k)
    {
      if k < |impacts| {
        JustifiedMonotone(caseId, pubs, entries, entries + [x], n, n, impacts, impacts + [i], k);
      } else {
        assert (entries + [x])[n - 1] == Entry(i.dependency, i.depth);
      }
    }
  }

  lemma RecordKeeps(pubs: map<Id, Publication>, dep: DependencyRef, ctx: Context, w: Walk, n: nat, id: Id, e: Entry)
    requires Core(pubs, dep, ctx, w, n) && n > 0
    requires e == AllEntries(pubs, dep, w.impacts)[n - 1]
    requires id in Dependents(pubs, ctx.caseId, e.changed) && id !in w.seen
    ensures Core(pubs, dep, ctx, VisitOne(w, id, e, ctx), n)
  {
    hide Layered, AllJustified, Dependents, PublicationRef, MarkStale, Recorded, Decimal;
    DependentsKnown(pubs, ctx.caseId, e.changed);
    assert id in pubs.Keys;
    MarkOneMore(pubs, w.seen, id, ctx);
    var i := Impact(w.nextId, ctx.caseId, ctx.correctionId, e.changed, id, e.depth, ctx.now);
    var x := Entry(PublicationRef(pubs[id]), e.depth + 1);
    var entries := AllEntries(pubs, dep, w.impacts);
    RecordKnown(pubs, w, id, e, ctx);
    RecordEntries(pubs, dep, w.impacts, i);
    LayeredAppend(entries, n, x);
    RecordJustified(pubs, ctx.caseId, entries, n, w.impacts, e, i);
    assert entries[n..] + [x] == (entries + [x])[n..];
  }

  lemma VisitOneKeeps(pubs: map<Id, Publication>, dep: DependencyRef, ctx: Context, w: Walk, n: nat, id: Id, e: Entry)
    requires Core(pubs, dep, ctx, w, n) && n > 0
    requires e == AllEntries(pubs, dep, w.impacts)[n - 1]
    requires id in Dependents(pubs, ctx.caseId, e.changed)
    ensures var w' := VisitOne(w, id, e, ctx);
            && Core(pubs, dep, ctx, w', n)
            && w.impacts <= w'.impacts
            && AllEntries(pubs, dep, w'.impacts)[n - 1] == e
            && ImpactedWithin(w'.impacts, id, e.depth)
  {
    if id in w.seen {
      assert Recorded(w.impacts, id);
      var k :| 0 <= k < |w.impacts| && w.impacts[k].publicationId == id;
      assert AllEntries(pubs, dep, w.impacts)[k + 1].depth == w.impacts[k].depth + 1;
    } else {
      RecordKeeps(pubs, dep, ctx, w, n, id, e);
      var w' := VisitOne(w, id, e, ctx);
      EntriesPrefix(pubs, dep, w.impacts, w'.impacts);
      assert w'.impacts[|w.impacts|].publicationId == id && w'.impacts[|w.impacts|].depth == e.depth;
    }
  }

  lemma ImpactedMonotone(a: seq<Impact>, b: seq<Impact>, id: Id, depth: nat)
    requires a <= b && ImpactedWithin(a, id, depth)
    ensures ImpactedWithin(b, id, depth)
  {
    var k :| 0 <= k < |a| && a[k].publicationId == id && a[k].depth <= depth;
    assert b[k] == a[k];
  }

  lemma {:induction false} VisitAllKeeps(pubs: map<Id, Publication>, dep: DependencyRef, ctx: Context, w: Walk, n: nat,
        ids: seq<Id>, e: Entry)
    requires Core(pubs, dep, ctx, w, n) && n > 0
    requires e == AllEntries(pubs, dep, w.impacts)[n - 1]
    requires forall id | id in ids :: id in Dependents(pubs, ctx.caseId, e.changed)
    requires forall id | id in ids :: id in w.publications
    ensures var w' := VisitAll(w, ids, e, ctx);
            && Core(pubs, dep, ctx, w', n)
            && w.impacts <= w'.impacts
            && AllEntries(pubs, dep, w'.impacts)[n - 1] == e
            && forall id | id in ids :: ImpactedWithin(w'.impacts, id, e.depth)
    decreases |ids|
  {
    if ids != [] {
      assert ids[0] in ids;
      var w1 := VisitOne(w, ids[0], e, ctx);
      VisitOneKeeps(pubs, dep, ctx, w, n, ids[0], e);
      VisitAllKeeps(pubs, dep, ctx, w1, n, ids[1..], e);
      var w' := VisitAll(w1, ids[1..], e, ctx);
      ImpactedMonotone(w1.impacts, w'.impacts, ids[0], e.depth);
      forall id | id in ids ensures ImpactedWithin(w'.impacts, id, e.depth) {
        assert id == ids[0] || id in ids[1..];
      }
    }
  }

  lemma EntriesPrefix(pubs: map<Id, Publication>, dep: DependencyRef, a: seq<Impact>, b: seq<Impact>)
    requires a <= b && AllIn(pubs, b)
    ensures AllIn(pubs, a)
    ensures AllEntries(pubs, dep, a) <= AllEntries(pubs, dep, b)
  {
    forall k | 0 <= k < |a| ensures a[k] == b[k] {}
  }

  /** Taking the next entry from the queue, before its dependents are visited. */
  lemma TakeKeeps(pubs: map<Id, Publication>, dep: DependencyRef, ctx: Context, w: Walk, n: nat)
    requires Core(pubs, dep, ctx, w, n) && w.queue != []
    ensures w.queue[0] == AllEntries(pubs, dep, w.impacts)[n]
    ensures Core(pubs, dep, ctx, w.(queue := w.queue[1..]), n + 1)
  {
    var entries, m := AllEntries(pubs, dep, w.impacts), n + 1;
    LayeredAdvance(entries, n);
    forall k | 0 <= k < |w.impacts| ensures Justified(pubs, ctx.caseId, entries, m, w.impacts, k) {
      JustifiedMonotone(ctx.caseId, pubs, entries, entries, n, m, w.impacts, w.impacts, k);
    }
    assert entries[n..][1..] == entries[m..];
  }

  lemma CoveredExtends(pubs: map<Id, Publication>, dep: DependencyRef, ctx: Context, a: seq<Impact>, b: seq<Impact>,
        n: nat, e: Entry)
    requires a <= b && AllIn(pubs, a) && AllIn(pubs, b) && n <= |a|
    requires Covered(pubs, dep, ctx, a, n)
    requires AllEntries(pubs, dep, a)[n] == e
    requires forall id | id in Dependents(pubs, ctx.caseId, e.changed) :: ImpactedWithin(b, id, e.depth)
    ensures Covered(pubs, dep, ctx, b, n + 1)
  {
    EntriesPrefix(pubs, dep, a, b);
    forall j, id | 0 <= j < n + 1 && id in Dependents(pubs, ctx.caseId, AllEntries(pubs, dep, b)[j].changed)
      ensures ImpactedWithin(b, id, AllEntries(pubs, dep, b)[j].depth)
    {
      assert AllEntries(pubs, dep, b)[j] == AllEntries(pubs, dep, a)[j];
      if j < n {
        ImpactedMonotone(a, b, id, AllEntries(pubs, dep, a)[j].depth);
      }
    }
  }

  /** The first `n` entries have been processed completely. */
  ghost predicate Walked(pubs: map<Id, Publication>, dep: DependencyRef, ctx: Context, w: Walk, n: nat) {
    Core(pubs, dep, ctx, w, n) && Covered(pubs, dep, ctx, w.impacts, n)
  }

  ghost predicate Drained(pubs: map<Id, Publication>, dep: DependencyRef, ctx: Context, w: Walk) {
    Walked(pubs, dep, ctx, w, |w.impacts| + 1)
  }

  lemma PopKeeps(pubs: map<Id, Publication>, dep: DependencyRef, ctx: Context, w: Walk, n: nat)
    requires Walked(pubs, dep, ctx, w, n) && w.queue != []
    ensures Walked(pubs, dep, ctx, Pop(w, pubs, ctx), n + 1)
  {
    hide Layered, AllJustified, ImpactedWithin;

    TakeKeeps(pubs, dep, ctx, w, n);
    var e := w.queue[0];
    var ds := Dependents(pubs, ctx.caseId, e.changed);
    SortedIdsMembers(ds);
    VisitAllKeeps(pubs, dep, ctx, w.(queue := w.queue[1..]), n + 1, SortedIds(ds), e);
    CoveredExtends(pubs, dep, ctx, w.impacts, Pop(w, pubs, ctx).impacts, n, e);
  }

  lemma {:induction false} DrainKeeps(pubs: map<Id, Publication>, dep: DependencyRef, ctx: Context, w: Walk, n: nat)
    requires w.publications.Keys == pubs.Keys && w.seen <= pubs.Keys
    requires Walked(pubs, dep, ctx, w, n)
    ensures Drained(pubs, dep, ctx, Drain(w, pubs, ctx))
    decreases |w.queue| + |pubs.Keys| - |w.seen|
  {
    hide Walked, Pop;
    SubsetSize(w.seen, pubs.Keys);
    if w.queue == [] {
      AllPopped(pubs, dep, ctx, w, n);
    } else {
      PopKeeps(pubs, dep, ctx, w, n);
      var next := Pop(w, pubs, ctx);
      SubsetSize(next.seen, pubs.Keys);
      DrainKeeps(pubs, dep, ctx, next, n + 1);
    }
  }

  lemma AllPopped(pubs: map<Id, Publication>, dep: DependencyRef, ctx: Context, w: Walk, n: nat)
    requires Walked(pubs, dep, ctx, w, n) && w.queue == []
    ensures n == |w.impacts| + 1
  {
    hide Layered, AllJustified, Covered, MarkAllStale;
  }

  // ----- exactness -----

  lemma PathOne(pubs: map<Id, Publication>, caseId: string, dep: DependencyRef, id: Id)
    requires id in pubs && id in Dependents(pubs, caseId, dep)
    ensures PathTo(pubs, caseId, dep, [id], id)
  {
    hide Dependents, PublicationRef;
  }

  lemma PathLonger(pubs: map<Id, Publication>, caseId: string, dep: DependencyRef, path: seq<Id>, p: Id, id: Id)
    requires PathTo(pubs, caseId, dep, path, p) && p in pubs && id in pubs
    requires id in Dependents(pubs, caseId, PublicationRef(pubs[p]))
    ensures PathTo(pubs, caseId, dep, path + [id], id)
  {
    hide Dependents, PublicationRef;
  }

  /** The entry that produced an impact: the correction itself, or that of an earlier impact. */
  lemma ProducedBy(pubs: map<Id, Publication>, dep: DependencyRef, ctx: Context, w: Walk, n: nat,
        k: nat)
    returns (j: nat)
    requires Core(pubs, dep, ctx, w, n) && k < |w.impacts|
    ensures w.impacts[k].publicationId in pubs
    ensures w.impacts[k].publicationId in Dependents(pubs, ctx.caseId, w.impacts[k].dependency)
    ensures j <= k
    ensures j == 0 ==> w.impacts[k].dependency == dep && w.impacts[k].depth == 0
    ensures j > 0 ==> w.impacts[j - 1].publicationId in pubs && w.impacts[k].depth == w.impacts[j - 1].depth + 1
    ensures j > 0 ==> w.impacts[k].dependency == PublicationRef(pubs[w.impacts[j - 1].publicationId])
  {
    hide Dependents, PublicationRef, Layered, MarkAllStale;
    var entries := AllEntries(pubs, dep, w.impacts);
    assert Justified(pubs, ctx.caseId, entries, n, w.impacts, k);
    j :| 0 <= j < n && j <= k && entries[j] == Entry(w.impacts[k].dependency, w.impacts[k].depth);
  }

  /** Every impact has a dependency path of exactly its depth. */
  lemma {:induction false} ImpactHasPath(pubs: map<Id, Publication>, dep: DependencyRef, ctx: Context, w: Walk, n: nat,
        k: nat)
    returns (path: seq<Id>)
    requires Core(pubs, dep, ctx, w, n) && k < |w.impacts|
    ensures PathTo(pubs, ctx.caseId, dep, path, w.impacts[k].publicationId)
    ensures |path| == w.impacts[k].depth + 1
  {
    hide *;
    var j := ProducedBy(pubs, dep, ctx, w, n, k);
    var id := w.impacts[k].publicationId;
    if j == 0 {
      PathOne(pubs, ctx.caseId, dep, id);
      path := [id];
    } else {
      var prefix := ImpactHasPath(pubs, dep, ctx, w, n, j - 1);
      PathLonger(pubs, ctx.caseId, dep, prefix, w.impacts[j - 1].publicationId, id);
      path := prefix + [id];
    }
  }

  /** Every dependency path ends in an impact that is no deeper than the path. */
  lemma {:induction false} PathIsImpacted(pubs: map<Id, Publication>, dep: DependencyRef, ctx: Context, w: Walk,
        path: seq<Id>)
    requires Drained(pubs, dep, ctx, w)
    requires IsPath(pubs, ctx.caseId, dep, path)
    ensures ImpactedWithin(w.impacts, path[|path| - 1], |path| - 1)
  {
    var entries := AllEntries(pubs, dep, w.impacts);
    var last := path[|path| - 1];
    if |path| == 1 {
      assert entries[0].changed == dep;
    } else {
      var prefix := path[..|path| - 1];
      PathIsImpacted(pubs, dep, ctx, w, prefix);
      var k :| 0 <= k < |w.impacts| && w.impacts[k].publicationId == prefix[|prefix| - 1]
               && w.impacts[k].depth <= |prefix| - 1;
      assert entries[k + 1] == Entry(PublicationRef(pubs[prefix[|prefix| - 1]]), w.impacts[k].depth + 1);
      assert last in Dependents(pubs, ctx.caseId, entries[k + 1].changed);
      assert ImpactedWithin(w.impacts, last, entries[k + 1].depth);
      var m :| 0 <= m < |w.impacts| && w.impacts[m].publicationId == last && w.impacts[m].depth <= entries[k + 1].depth;
    }
  }

  ghost predicate ExactImpact(pubs: map<Id, Publication>, caseId: string, dep: DependencyRef, i: Impact) {
    && ShortestDepth(pubs, caseId, dep, i.publicationId, i.depth)
    && i.publicationId in pubs && i.dependency in pubs[i.publicationId].dependencies
  }

  lemma ImpactIsExact(pubs: map<Id, Publication>, dep: DependencyRef, ctx: Context, w: Walk, k: nat)
    requires Drained(pubs, dep, ctx, w)
    requires k < |w.impacts|
    ensures ExactImpact(pubs, ctx.caseId, dep, w.impacts[k])
    ensures Affected(pubs, ctx.caseId, dep, w.impacts[k].publicationId)
  {
    hide Core, Covered, PublicationRef, IsPath, ImpactedWithin, Layered, AllJustified;
    DrainedCore(pubs, dep, ctx, w);
    var path := ImpactHasPath(pubs, dep, ctx, w, |w.impacts| + 1, k);
    forall q | PathTo(pubs, ctx.caseId, dep, q, w.impacts[k].publicationId)
      ensures w.impacts[k].depth + 1 <= |q|
    {
      PathImpact(pubs, dep, ctx, w, q, k);
    }
    var j := ProducedBy(pubs, dep, ctx, w, |w.impacts| + 1, k);
  }

  lemma DrainedCore(pubs: map<Id, Publication>, dep: DependencyRef, ctx: Context, w: Walk)
    requires Drained(pubs, dep, ctx, w)
    ensures Core(pubs, dep, ctx, w, |w.impacts| + 1) && ImpactsKnown(pubs, w)
  {
    hide Covered, Layered, AllJustified, MarkAllStale;
  }

  /** The impact at the end of a path is no deeper than the path. */
  lemma PathImpact(pubs: map<Id, Publication>, dep: DependencyRef, ctx: Context, w: Walk, q: seq<Id>, k: nat)
    requires Drained(pubs, dep, ctx, w) && k < |w.impacts|
        && PathTo(pubs, ctx.caseId, dep, q, w.impacts[k].publicationId)
    ensures w.impacts[k].depth + 1 <= |q|
  {
    hide Drained, Core, IsPath;
    assert |q| > 0 by { PathNonEmpty(pubs, ctx.caseId, dep, q); }
    PathIsImpacted(pubs, dep, ctx, w, q);
    DrainedCore(pubs, dep, ctx, w);
  }

  lemma PathNonEmpty(pubs: map<Id, Publication>, caseId: string, dep: DependencyRef, q: seq<Id>)
    requires IsPath(pubs, caseId, dep, q)
    ensures |q| > 0
  {
  }

  lemma SeenIsAffected(pubs: map<Id, Publication>, dep: DependencyRef, ctx: Context, w: Walk, id: Id)
    requires Drained(pubs, dep, ctx, w)
    ensures id in w.seen <==> Affected(pubs, ctx.caseId, dep, id)
    ensures id in w.seen <==> Recorded(w.impacts, id)
  {
    if Affected(pubs, ctx.caseId, dep, id) {
      var q :| PathTo(pubs, ctx.caseId, dep, q, id);
      PathIsImpacted(pubs, dep, ctx, w, q);
    }
    if id in w.seen {
      assert Recorded(w.impacts, id);
      var k :| 0 <= k < |w.impacts| && w.impacts[k].publicationId == id;
      ImpactIsExact(pubs, dep, ctx, w, k);
    }
  }

  lemma PropagateKeeps(pubs: map<Id, Publication>, dep: DependencyRef, ctx: Context, nextId: Id)
    ensures Drained(pubs, dep, ctx, Propagate(pubs, dep, ctx, nextId))
  {
    var s := Start(pubs, dep, nextId);
    assert s.publications == MarkAllStale(pubs, {}, ctx);
    assert Core(pubs, dep, ctx, s, 0);
    DrainKeeps(pubs, dep, ctx, s, 0);
  }

  /** Propagation is exact, whatever cycles the dependencies form: one impact for each
      affected publication and for no other, at its shortest distance, and naming a changed
      item the publication really depends on; exactly those publications become stale,
      keeping any earlier stale instant and reason; nothing else changes. */
  lemma PropagationIsExact(pubs: map<Id, Publication>, dep: DependencyRef, ctx: Context, nextId: Id)
    ensures var w := Propagate(pubs, dep, ctx, nextId);
            && (forall i, j | 0 <= i < j < |w.impacts| :: w.impacts[i].publicationId != w.impacts[j].publicationId)
            && (forall id :: Recorded(w.impacts, id) <==> Affected(pubs, ctx.caseId, dep, id))
            && (forall k | 0 <= k < |w.impacts| :: ExactImpact(pubs, ctx.caseId, dep, w.impacts[k]))
            && w.publications.Keys == pubs.Keys
            && (forall id | id in pubs ::
                  w.publications[id]
                    == if Affected(pubs, ctx.caseId, dep, id) then MarkStale(pubs[id], ctx) else pubs[id])
  {
    hide Propagate, Layered, AllJustified, Covered, MarkStale, ShortestDepth, Affected, Dependents, Recorded;
    var w := Propagate(pubs, dep, ctx, nextId);
    PropagateKeeps(pubs, dep, ctx, nextId);
    forall id {
      SeenIsAffected(pubs, dep, ctx, w, id);
    }
    forall k: nat | k < |w.impacts| {
      ImpactIsExact(pubs, dep, ctx, w, k);
    }
  }
}
