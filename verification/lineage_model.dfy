/** Observations, similarity scores and links between adjacent snapshots
    (analytics/lineage/model.py and the scoring part of analytics/lineage/tracker.py).
    Scores are real numbers: floating-point rounding is not modelled. */
module LineageModel {
  import opened Basics

  type Member = nat

  /** The identifier of an observation: its snapshot and its position in the snapshot's
      canonical order ("s0001:c0002" in the program, which counts positions from one). */
  datatype ObsId = ObsId(snap: nat, rank: nat)

  /** Carried along with a community and never read. */
  type Metadata = map<string, string>

  datatype Observation = Observation(members: set<Member>, confidence: real, metadata: Metadata)

  datatype Config = Config(
    minimumJaccard: real,
    minimumOverlap: real,
    resurgenceJaccard: real,
    resurgenceOverlap: real,
    maximumGap: int,
    lowConfidenceMargin: real,
    inputConfidenceThreshold: real,
    jaccardWeight: real)
  {
    predicate Valid() {
      && 0.0 <= minimumJaccard <= 1.0 && 0.0 <= minimumOverlap <= 1.0
      && 0.0 <= resurgenceJaccard <= 1.0 && 0.0 <= resurgenceOverlap <= 1.0
      && 0.0 <= lowConfidenceMargin <= 1.0 && 0.0 <= inputConfidenceThreshold <= 1.0
      && 0.0 <= jaccardWeight <= 1.0 && maximumGap >= 1
    }
  }

  datatype Input = Input(snaps: seq<seq<Observation>>, config: Config)

  predicate Known(inp: Input, o: ObsId) {
    o.snap < |inp.snaps| && o.rank < |inp.snaps[o.snap]|
  }

  function Members(inp: Input, o: ObsId): set<Member>
    requires Known(inp, o)
  {
    inp.snaps[o.snap][o.rank].members
  }

  // ----- similarity -----

  function Jaccard(left: set<Member>, right: set<Member>): real {
    if left + right == {} then 1.0 else |left * right| as real / |left + right| as real
  }

  function Overlap(left: set<Member>, right: set<Member>): real {
    var smaller := if |left| <= |right| then |left| else |right|;
    if smaller == 0 && left == right then 1.0
    else if smaller == 0 then 0.0
    else |left * right| as real / smaller as real
  }

  function Score(c: Config, left: set<Member>, right: set<Member>): real {
    c.jaccardWeight * Jaccard(left, right) + (1.0 - c.jaccardWeight) * Overlap(left, right)
  }

  predicate Material(c: Config, left: set<Member>, right: set<Member>, resurgence: bool) {
    || Jaccard(left, right) >= (if resurgence then c.resurgenceJaccard else c.minimumJaccard)
    || Overlap(left, right) >= (if resurgence then c.resurgenceOverlap else c.minimumOverlap)
  }

  lemma SizeLe<T>(a: set<T>, b: set<T>)
    requires a <= b
    ensures |a| <= |b|
    ensures |a| == |b| ==> a == b
  {
    assert b == a + (b - a);
  }

  lemma QuotientBounds(n: nat, d: nat)
    requires n <= d && d > 0
    ensures 0.0 <= n as real / d as real <= 1.0
    ensures n as real / d as real == 1.0 <==> n == d
  {
  }

  lemma QuotientAntitone(n: nat, d: nat, e: nat)
    requires 0 < d <= e
    ensures n as real / e as real <= n as real / d as real
  {
  }

  /** Both scores lie between 0 and 1, are symmetric, and Jaccard never exceeds overlap;
      Jaccard is 1 for equal communities only, overlap 1 only when one contains the other. */
  lemma ScoresAreSimilarities(left: set<Member>, right: set<Member>)
    ensures 0.0 <= Jaccard(left, right) <= 1.0 && 0.0 <= Overlap(left, right) <= 1.0
    ensures Jaccard(left, right) == Jaccard(right, left) && Overlap(left, right) == Overlap(right, left)
    ensures left != {} && right != {} ==> Jaccard(left, right) <= Overlap(left, right)
    ensures Jaccard(left, right) == 1.0 <==> left == right
    ensures left != {} && right != {} ==> (Overlap(left, right) == 1.0 <==> left <= right || right <= left)
  {
    assert left * right == right * left && left + right == right + left;
    SizeLe(left * right, left);
    SizeLe(left * right, right);
    SizeLe(left, left + right);
    SizeLe(right, left + right);
    SizeLe(left * right, left + right);
    if left + right != {} {
      QuotientBounds(|left * right|, |left + right|);
      if left * right == left + right {
        assert left <= right && right <= left;
      }
      if left != {} && right != {} {
        var smaller := if |left| <= |right| then |left| else |right|;
        QuotientBounds(|left * right|, smaller);
        QuotientAntitone(|left * right|, smaller, |left + right|);
        if left <= right { assert left * right == left; }
        if right <= left { assert left * right == right; SizeLe(right, left); }
      }
    }
    if left <= right { SizeLe(left, right); }
  }

  lemma ScoreIsUnit(c: Config, left: set<Member>, right: set<Member>)
    requires c.Valid()
    ensures 0.0 <= Score(c, left, right) <= 1.0
  {
    hide Jaccard, Overlap;
    ScoresAreSimilarities(left, right);
    Weighted(c.jaccardWeight, Jaccard(left, right), Overlap(left, right));
  }

  lemma Weighted(w: real, a: real, b: real)
    requires 0.0 <= w <= 1.0 && 0.0 <= a <= 1.0 && 0.0 <= b <= 1.0
    ensures 0.0 <= w * a + (1.0 - w) * b <= 1.0
  {
    assert 0.0 <= w * a <= w * 1.0;
    assert 0.0 <= (1.0 - w) * b <= (1.0 - w) * 1.0;
  }

  /** Both similarities are the size of the intersection, over the size of the union and of the smaller side. */
  lemma SimilaritiesAreRatios(left: set<Member>, right: set<Member>)
    requires left != {} && right != {}
    ensures Jaccard(left, right) * (|left| + |right| - |left * right|) as real == |left * right| as real
    ensures |left| <= |right| ==> Overlap(left, right) * |left| as real == |left * right| as real
    ensures |right| <= |left| ==> Overlap(left, right) * |right| as real == |left * right| as real
  {
    assert |left + right| == |left| + |right| - |left * right|;
    SizeLe(left, left + right);
    SizeLe({}, left);
    SizeLe({}, right);
    Quotient(|left * right|, |left + right|);
    Quotient(|left * right|, |left|);
    Quotient(|left * right|, |right|);
  }

  lemma Quotient(n: nat, d: nat)
    requires d > 0
    ensures (n as real / d as real) * d as real == n as real
  {
  }

  /** The score is the weighted mean of the two similarities: it lies between them, is one of them at either
      end of the weight, and is linear between; equal communities score 1, and only they if the weight is positive. */
  lemma ScoreIsMean(c: Config, left: set<Member>, right: set<Member>)
    requires c.Valid() && left != {} && right != {}
    ensures Jaccard(left, right) <= Score(c, left, right) <= Overlap(left, right)
    ensures c.jaccardWeight == 1.0 ==> Score(c, left, right) == Jaccard(left, right)
    ensures c.jaccardWeight == 0.0 ==> Score(c, left, right) == Overlap(left, right)
    ensures left == right ==> Score(c, left, right) == 1.0
    ensures c.jaccardWeight > 0.0 && Score(c, left, right) == 1.0 ==> left == right
  {
    hide Jaccard, Overlap, Score;
    ScoresAreSimilarities(left, right);
    ScoreParts(c, left, right);
    Between(c.jaccardWeight, Jaccard(left, right), Overlap(left, right), Score(c, left, right));
  }

  lemma ScoreParts(c: Config, left: set<Member>, right: set<Member>)
    ensures Score(c, left, right)
        == c.jaccardWeight * Jaccard(left, right) + (1.0 - c.jaccardWeight) * Overlap(left, right)
  {
    hide Jaccard, Overlap;
  }

  lemma Between(w: real, j: real, o: real, mean: real)
    requires 0.0 <= w <= 1.0 && j <= o <= 1.0 && mean == w * j + (1.0 - w) * o
    ensures j <= mean <= o
    ensures w == 1.0 ==> mean == j
    ensures w == 0.0 ==> mean == o
    ensures w > 0.0 && j < 1.0 ==> mean < 1.0
    ensures j == o == 1.0 ==> mean == 1.0
  {
    var gap := o - j;
    assert mean == o - w * gap && mean == j + (1.0 - w) * gap;
    Products(w, gap);
  }

  lemma Products(w: real, gap: real)
    requires 0.0 <= w <= 1.0 && gap >= 0.0
    ensures w * gap >= 0.0 && (1.0 - w) * gap >= 0.0
    ensures w > 0.0 && gap > 0.0 ==> w * gap > 0.0
  {
  }

  /** Halfway between two weights the score is halfway between the scores. */
  lemma ScoreIsLinear(c: Config, light: Config, heavy: Config, left: set<Member>, right: set<Member>)
    requires c.jaccardWeight == (light.jaccardWeight + heavy.jaccardWeight) / 2.0
    ensures Score(c, left, right) == (Score(light, left, right) + Score(heavy, left, right)) / 2.0
  {
    hide Jaccard, Overlap;
    var j, o := Jaccard(left, right), Overlap(left, right);
    var v, w := light.jaccardWeight, heavy.jaccardWeight;
    assert (v + w) / 2.0 * j == (v * j + w * j) / 2.0
      && (1.0 - (v + w) / 2.0) * o == ((1.0 - v) * o + (1.0 - w) * o) / 2.0;
  }

  // ----- links -----

  /** The link between two adjacent observations is accepted. */
  predicate Accepted(inp: Input, p: ObsId, c: ObsId) {
    && Known(inp, p) && Known(inp, c) && c.snap == p.snap + 1
    && Material(inp.config, Members(inp, p), Members(inp, c), false)
  }

  /** A link needs one of the two similarities to reach its threshold; a community that stays as it is has one. */
  lemma AcceptedExactly(inp: Input, p: ObsId, c: ObsId)
    requires inp.config.Valid() && Known(inp, p) && Known(inp, c) && c.snap == p.snap + 1
    ensures Accepted(inp, p, c) <==>
      || Jaccard(Members(inp, p), Members(inp, c)) >= inp.config.minimumJaccard
      || Overlap(Members(inp, p), Members(inp, c)) >= inp.config.minimumOverlap
    ensures Members(inp, p) == Members(inp, c) ==> Accepted(inp, p, c)
  {
    ScoresAreSimilarities(Members(inp, p), Members(inp, c));
    hide Jaccard, Overlap;
  }

  function ChildrenFrom(inp: Input, p: ObsId, j: nat): seq<ObsId>
    requires p.snap + 1 < |inp.snaps| && j <= |inp.snaps[p.snap + 1]|
    decreases |inp.snaps[p.snap + 1]| - j
  {
    if j == |inp.snaps[p.snap + 1]| then []
    else (if Accepted(inp, p, ObsId(p.snap + 1, j)) then [ObsId(p.snap + 1, j)] else []) + ChildrenFrom(inp, p, j + 1)
  }

  /** The accepted children of an observation, in order. */
  function Children(inp: Input, p: ObsId): seq<ObsId> {
    if p.snap + 1 < |inp.snaps| then ChildrenFrom(inp, p, 0) else []
  }

  function ParentsFrom(inp: Input, c: ObsId, j: nat): seq<ObsId>
    requires 0 < c.snap <= |inp.snaps| && j <= |inp.snaps[c.snap - 1]|
    decreases |inp.snaps[c.snap - 1]| - j
  {
    if j == |inp.snaps[c.snap - 1]| then []
    else (if Accepted(inp, ObsId(c.snap - 1, j), c) then [ObsId(c.snap - 1, j)] else []) + ParentsFrom(inp, c, j + 1)
  }

  /** The accepted parents of an observation, in order. */
  function Parents(inp: Input, c: ObsId): seq<ObsId> {
    if 0 < c.snap <= |inp.snaps| then ParentsFrom(inp, c, 0) else []
  }

  lemma {:induction false} ChildrenFromExact(inp: Input, p: ObsId, j: nat)
    requires p.snap + 1 < |inp.snaps| && j <= |inp.snaps[p.snap + 1]|
    ensures forall c :: c in ChildrenFrom(inp, p, j) <==> Accepted(inp, p, c) && c.rank >= j
    ensures NoDuplicates(ChildrenFrom(inp, p, j))
    decreases |inp.snaps[p.snap + 1]| - j
  {
    if j < |inp.snaps[p.snap + 1]| {
      ChildrenFromExact(inp, p, j + 1);
      var rest := ChildrenFrom(inp, p, j + 1);
      forall i | 0 <= i < |rest| ensures rest[i].rank > j { assert rest[i] in rest; }
    }
  }

  lemma {:induction false} ParentsFromExact(inp: Input, c: ObsId, j: nat)
    requires 0 < c.snap <= |inp.snaps| && j <= |inp.snaps[c.snap - 1]|
    ensures forall p :: p in ParentsFrom(inp, c, j) <==> Accepted(inp, p, c) && p.rank >= j
    ensures NoDuplicates(ParentsFrom(inp, c, j))
    decreases |inp.snaps[c.snap - 1]| - j
  {
    if j < |inp.snaps[c.snap - 1]| {
      ParentsFromExact(inp, c, j + 1);
      var rest := ParentsFrom(inp, c, j + 1);
      forall i | 0 <= i < |rest| ensures rest[i].rank > j { assert rest[i] in rest; }
    }
  }

  lemma ChildrenExact(inp: Input, p: ObsId)
    ensures forall c :: c in Children(inp, p) <==> Accepted(inp, p, c)
    ensures NoDuplicates(Children(inp, p))
  {
    if p.snap + 1 < |inp.snaps| { ChildrenFromExact(inp, p, 0); }
  }

  lemma ParentsExact(inp: Input, c: ObsId)
    ensures forall p :: p in Parents(inp, c) <==> Accepted(inp, p, c)
    ensures NoDuplicates(Parents(inp, c))
  {
    if 0 < c.snap <= |inp.snaps| { ParentsFromExact(inp, c, 0); }
  }

  // ----- the three fates of an observation that has a next snapshot -----

  predicate Continues(inp: Input, p: ObsId, c: ObsId) {
    Children(inp, p) == [c] && Parents(inp, c) == [p]
  }

  predicate Splits(inp: Input, p: ObsId) { |Children(inp, p)| > 1 }

  predicate Merges(inp: Input, c: ObsId) { |Parents(inp, c)| > 1 }

  /** The observation is a split parent or one of the parents of a merge. */
  predicate Branches(inp: Input, p: ObsId) {
    Splits(inp, p) || (Children(inp, p) != [] && Merges(inp, Children(inp, p)[0]))
  }

  lemma ContinuesLinks(inp: Input, p: ObsId, c: ObsId)
    requires Continues(inp, p, c)
    ensures Accepted(inp, p, c)
  {
    ChildrenExact(inp, p);
    assert c in Children(inp, p);
  }

  /** No children, one continuation, or branching: always exactly one of the three. */
  lemma FatesExclude(inp: Input, p: ObsId)
    ensures Children(inp, p) == [] ==> !Branches(inp, p) && forall c :: !Continues(inp, p, c)
    ensures Branches(inp, p) ==> forall c :: !Continues(inp, p, c)
    ensures Children(inp, p) != [] && !Branches(inp, p) ==> Continues(inp, p, Children(inp, p)[0])
  {
    if Children(inp, p) != [] && !Branches(inp, p) {
      var c := Children(inp, p)[0];
      ChildrenExact(inp, p);
      ParentsExact(inp, c);
      assert c in Children(inp, p);
      assert p in Parents(inp, c);
    }
  }

  /** A child with parents continues one of them, or shares a split, or is a merge. */
  lemma ChildKinds(inp: Input, c: ObsId)
    requires Parents(inp, c) != []
    ensures Continues(inp, Parents(inp, c)[0], c) || Splits(inp, Parents(inp, c)[0]) || Merges(inp, c)
    ensures Merges(inp, c) ==> forall p :: !Continues(inp, p, c)
    ensures forall p | p in Parents(inp, c) :: Accepted(inp, p, c) && c in Children(inp, p)
  {
    ParentsExact(inp, c);
    forall p | p in Parents(inp, c) ensures Accepted(inp, p, c) && c in Children(inp, p) { ChildrenExact(inp, p); }
    var p := Parents(inp, c)[0];
    assert p in Parents(inp, c);
    if !Splits(inp, p) && !Merges(inp, c) {
      assert |Children(inp, p)| == 1 && Children(inp, p)[0] == c;
    }
  }

  /** A dormant observation may resurge as a parentless child after a gap of missing snapshots. */
  predicate Resurges(inp: Input, p: ObsId, c: ObsId) {
    && Known(inp, p) && Known(inp, c) && p.snap < c.snap
    && Children(inp, p) == [] && Parents(inp, c) == []
    && 1 <= c.snap - p.snap - 1 <= inp.config.maximumGap
    && Material(inp.config, Members(inp, p), Members(inp, c), true)
  }

  lemma ResurgesExactly(inp: Input, p: ObsId, c: ObsId)
    requires Known(inp, p) && Known(inp, c)
    ensures Resurges(inp, p, c) <==>
      && Children(inp, p) == [] && Parents(inp, c) == []
      && p.snap + 2 <= c.snap <= p.snap + 1 + inp.config.maximumGap
      && (|| Jaccard(Members(inp, p), Members(inp, c)) >= inp.config.resurgenceJaccard
          || Overlap(Members(inp, p), Members(inp, c)) >= inp.config.resurgenceOverlap)
  {
    hide Jaccard, Overlap, Children, Parents;
  }

  /** The two ways in which an identity goes on. */
  predicate Successive(inp: Input, p: ObsId, c: ObsId) {
    Continues(inp, p, c) || Resurges(inp, p, c)
  }

  lemma SuccessiveAdvances(inp: Input, p: ObsId, c: ObsId)
    requires Successive(inp, p, c)
    ensures Known(inp, p) && Known(inp, c) && p.snap < c.snap
    ensures !Branches(inp, p)
    ensures Children(inp, p) != [] ==> Children(inp, p) == [c]
    ensures Continues(inp, p, c) <==> c.snap == p.snap + 1
  {
    if Continues(inp, p, c) { ContinuesLinks(inp, p, c); }
    FatesExclude(inp, p);
  }
}
