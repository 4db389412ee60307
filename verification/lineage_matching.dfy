/** Greedy assignment of dormant lineages to unassigned children, best score first
    (analytics/lineage/tracker.py, the resurgence options of build_lineage). */
module LineageMatching {
  import opened Basics

  /** A possible resurgence: which lineage, which child, how well they match. */
  datatype Choice<L, C> = Choice(lineage: L, child: C, score: real)

  predicate Conflict<L(==), C(==)>(a: Choice<L, C>, b: Choice<L, C>) {
    a.lineage == b.lineage || a.child == b.child
  }

  /** The loop over the sorted options, with the lineages and children used so far. */
  function Greedy<L, C>(options: seq<Choice<L, C>>, lineages: set<L>, children: set<C>): seq<Choice<L, C>>
    decreases |options|
  {
    if options == [] then []
    else if options[0].lineage in lineages || options[0].child in children then Greedy(options[1..], lineages, children)
    else [options[0]] + Greedy(options[1..], lineages + {options[0].lineage}, children + {options[0].child})
  }

  predicate ByScore<L, C>(a: Choice<L, C>, b: Choice<L, C>) { a.score >= b.score }

  /** No lineage and no child is used twice. */
  ghost predicate IsMatching<L, C>(s: seq<Choice<L, C>>) {
    forall i, j | 0 <= i < j < |s| :: !Conflict(s[i], s[j])
  }

  ghost predicate Avoids<L, C>(s: seq<Choice<L, C>>, lineages: set<L>, children: set<C>) {
    forall c | c in s :: c.lineage !in lineages && c.child !in children
  }

  lemma {:induction false} GreedyIsMatching<L, C>(options: seq<Choice<L, C>>, lineages: set<L>, children: set<C>)
    ensures IsMatching(Greedy(options, lineages, children))
        && Avoids(Greedy(options, lineages, children), lineages, children)
    ensures forall c | c in Greedy(options, lineages, children) :: c in options
    decreases |options|
  {
    if options != [] {
      var o := options[0];
      if o.lineage in lineages || o.child in children {
        GreedyIsMatching(options[1..], lineages, children);
      } else {
        GreedyIsMatching(options[1..], lineages + {o.lineage}, children + {o.child});
      }
    }
  }

  ghost predicate Blocked<L, C>(chosen: seq<Choice<L, C>>, o: Choice<L, C>) {
    exists c :: c in chosen && Conflict(c, o) && c.score >= o.score
  }

  /** Stability: an option that was not taken shares its lineage or its child with a taken
      option of at least its score. (So no option can be added: the matching is maximal.) */
  lemma {:induction false} GreedyIsStable<L, C>(options: seq<Choice<L, C>>, lineages: set<L>, children: set<C>,
        o: Choice<L, C>)
    requires Sorted(options, ByScore) && o in options && o.lineage !in lineages && o.child !in children
    ensures o in Greedy(options, lineages, children) || Blocked(Greedy(options, lineages, children), o)
    decreases |options|
  {
    var first := options[0];
    if first.lineage in lineages || first.child in children {
      GreedyIsStable(options[1..], lineages, children, o);
    } else {
      var rest := Greedy(options[1..], lineages + {first.lineage}, children + {first.child});
      assert Greedy(options, lineages, children) == [first] + rest;
      var k :| 0 <= k < |options| && options[k] == o;
      if Conflict(first, o) {
        assert first in [first] + rest && first.score >= o.score;
      } else {
        GreedyIsStable(options[1..], lineages + {first.lineage}, children + {first.child}, o);
        if Blocked(rest, o) {
          var c :| c in rest && Conflict(c, o) && c.score >= o.score;
          assert c in [first] + rest;
        }
      }
    }
  }

  /** An option that was not taken lost its lineage or its child to one that was listed before it. */
  lemma {:induction false} GreedyTakesTheFirst<L, C>(options: seq<Choice<L, C>>, lineages: set<L>, children: set<C>,
        i: nat)
    requires i < |options| && options[i].lineage !in lineages && options[i].child !in children
    ensures var chosen := Greedy(options, lineages, children);
      options[i] in chosen || exists j :: 0 <= j < i && options[j] in chosen && Conflict(options[j], options[i])
    decreases |options|
  {
    var first, rest := options[0], options[1..];
    if first.lineage in lineages || first.child in children {
      assert i > 0 && rest[i - 1] == options[i];
      GreedyTakesTheFirst(rest, lineages, children, i - 1);
      LaterPlace(options, Greedy(rest, lineages, children), i);
    } else {
      var more := Greedy(rest, lineages + {first.lineage}, children + {first.child});
      assert Greedy(options, lineages, children) == [first] + more && first in [first] + more;
      if i > 0 && !Conflict(first, options[i]) {
        assert rest[i - 1] == options[i];
        GreedyTakesTheFirst(rest, lineages + {first.lineage}, children + {first.child}, i - 1);
        LaterPlace(options, more, i);
        assert forall x | x in more :: x in [first] + more;
      }
    }
  }

  lemma LaterPlace<L, C>(options: seq<Choice<L, C>>, chosen: seq<Choice<L, C>>, i: nat)
    requires 0 < i < |options|
    requires options[i] in chosen
          || exists j :: 0 <= j < i - 1 && options[1..][j] in chosen && Conflict(options[1..][j], options[i])
    ensures options[i] in chosen || exists j :: 0 <= j < i && options[j] in chosen && Conflict(options[j], options[i])
  {
    if options[i] !in chosen {
      var j :| 0 <= j < i - 1 && options[1..][j] in chosen && Conflict(options[1..][j], options[i]);
      assert options[j + 1] == options[1..][j];
    }
  }

  // ----- ties -----

  /** The other lineages that could still take the child of `x`, in the order of the options. */
  function Competing<L(==), C(==)>(all: seq<Choice<L, C>>, x: Choice<L, C>, lineages: set<L>): seq<Choice<L, C>> {
    if all == [] then []
    else
      (if Competes(all[0], x, lineages) then [all[0]] else []) + Competing(all[1..], x, lineages)
  }

  predicate Competes<L(==), C(==)>(y: Choice<L, C>, x: Choice<L, C>, lineages: set<L>) {
    y.child == x.child && y.lineage != x.lineage && y.lineage !in lineages
  }

  /** The best competitor, if there is one, comes within the margin. */
  predicate Tied<L(==), C(==)>(all: seq<Choice<L, C>>, x: Choice<L, C>, lineages: set<L>, margin: real) {
    var competing := Competing(all, x, lineages);
    competing != [] && x.score - competing[0].score < margin
  }

  /** The children that the loop over `options` finds tied, with the lineages and children used so far. */
  function Ties<L(==), C(==)>(options: seq<Choice<L, C>>, all: seq<Choice<L, C>>, lineages: set<L>, children: set<C>,
        margin: real): set<C>
    decreases |options|
  {
    if options == [] then {}
    else
      var x := options[0];
      if x.lineage in lineages || x.child in children then Ties(options[1..], all, lineages, children, margin)
      else
        (if Tied(all, x, lineages, margin) then {x.child} else {})
        + Ties(options[1..], all, lineages + {x.lineage}, children + {x.child}, margin)
  }

  lemma {:induction false} CompetingExact<L, C>(all: seq<Choice<L, C>>, x: Choice<L, C>, lineages: set<L>,
        y: Choice<L, C>)
    requires Sorted(all, ByScore)
    ensures y in Competing(all, x, lineages) <==> y in all && Competes(y, x, lineages)
    ensures y in Competing(all, x, lineages) ==> y.score <= Competing(all, x, lineages)[0].score
  {
    if all != [] {
      var rest := all[1..];
      assert all == [all[0]] + rest;
      CompetingExact(rest, x, lineages, y);
      if y in rest {
        var k :| 0 <= k < |rest| && rest[k] == y;
        assert ByScore(all[0], all[k + 1]);
      }
    }
  }

  /** Every option that was passed over before has its lineage or its child used. */
  ghost predicate PassedOver<L, C>(done: seq<Choice<L, C>>, lineages: set<L>, children: set<C>) {
    forall y | y in done :: y.lineage in lineages || y.child in children
  }

  /** When an option is chosen it is tied exactly when a free competitor scores less than the margin
      below it; no free competitor scores above it. */
  lemma TiedExactly<L, C>(done: seq<Choice<L, C>>, options: seq<Choice<L, C>>, lineages: set<L>, children: set<C>,
        margin: real)
    requires Sorted(done + options, ByScore) && PassedOver(done, lineages, children)
    requires options != [] && options[0].lineage !in lineages && options[0].child !in children
    ensures var x, all := options[0], done + options;
      && (Tied(all, x, lineages, margin) <==>
         exists y :: y in all && Competes(y, x, lineages) && x.score - y.score < margin)
      && (forall y | y in all && Competes(y, x, lineages) :: y.score <= x.score)
  {
    var x, all := options[0], done + options;
    var competing := Competing(all, x, lineages);
    if competing != [] { CompetingExact(all, x, lineages, competing[0]); }
    forall y | y in all && Competes(y, x, lineages)
      ensures competing != [] && y.score <= competing[0].score
    {
      CompetingExact(all, x, lineages, y);
    }
    forall y | y in all && Competes(y, x, lineages) ensures y.score <= x.score {
      assert y !in done;
      var k :| 0 <= k < |all| && all[k] == y;
      assert k >= |done| && all[|done|] == x;
      if k > |done| { assert ByScore(all[|done|], all[k]); }
    }
  }

  ghost function LineagesOf<L, C>(s: seq<Choice<L, C>>): set<L> { set x | x in s :: x.lineage }

  /** Whether the child of the `i`-th choice is among the tied ones, told from the options alone. */
  ghost predicate TieTold<L, C>(all: seq<Choice<L, C>>, chosen: seq<Choice<L, C>>, lineages: set<L>, tied: set<C>,
        margin: real, i: nat)
    requires i < |chosen|
  {
    var x, used := chosen[i], lineages + LineagesOf(chosen[..i]);
    x.child in tied <==> exists y :: y in all && Competes(y, x, used) && 0.0 <= x.score - y.score < margin
  }

  /** The tied children are those of the chosen options that were tied at their turn. */
  lemma {:induction false} TiesExact<L, C>(done: seq<Choice<L, C>>, options: seq<Choice<L, C>>, lineages: set<L>,
        children: set<C>, margin: real, i: nat)
    requires Sorted(done + options, ByScore) && PassedOver(done, lineages, children)
    requires i < |Greedy(options, lineages, children)|
    ensures TieTold(done + options, Greedy(options, lineages, children), lineages,
                    Ties(options, done + options, lineages, children, margin), margin, i)
    decreases |options|
  {
    hide TieTold, Tied, Sorted, PassedOver;
    var all, x, rest := done + options, options[0], options[1..];
    assert all == (done + [x]) + rest;
    if x.lineage in lineages || x.child in children {
      PassedMore(done, x, lineages, children, lineages, children);
      TiesExact(done + [x], rest, lineages, children, margin, i);
    } else {
      var more, later := lineages + {x.lineage}, children + {x.child};
      if i == 0 {
        FirstTie(done, options, lineages, children, margin);
      } else {
        PassedMore(done, x, lineages, children, more, later);
        TiesExact(done + [x], rest, more, later, margin, i - 1);
        LaterTie(all, rest, x, lineages, children, margin, i);
      }
    }
  }

  lemma PassedMore<L, C>(done: seq<Choice<L, C>>, x: Choice<L, C>, lineages: set<L>, children: set<C>,
        lineages': set<L>, children': set<C>)
    requires PassedOver(done, lineages, children) && lineages <= lineages' && children <= children'
    requires x.lineage in lineages' || x.child in children'
    ensures PassedOver(done + [x], lineages', children')
  {
    AppendMembers(done, x);
  }

  lemma FirstTie<L, C>(done: seq<Choice<L, C>>, options: seq<Choice<L, C>>, lineages: set<L>, children: set<C>,
        margin: real)
    requires Sorted(done + options, ByScore) && PassedOver(done, lineages, children)
    requires options != [] && options[0].lineage !in lineages && options[0].child !in children
    ensures Greedy(options, lineages, children) != []
    ensures TieTold(done + options, Greedy(options, lineages, children), lineages,
                    Ties(options, done + options, lineages, children, margin), margin, 0)
  {
    var all, x := done + options, options[0];
    TiesAvoid(options[1..], all, lineages + {x.lineage}, children + {x.child}, margin);
    TiedExactly(done, options, lineages, children, margin);
    hide Tied, Sorted, PassedOver;
    var chosen := Greedy(options, lineages, children);
    assert chosen[0] == x;
    assert lineages + LineagesOf(chosen[..0]) == lineages;
  }

  lemma LaterTie<L, C>(all: seq<Choice<L, C>>, rest: seq<Choice<L, C>>, x: Choice<L, C>, lineages: set<L>,
        children: set<C>, margin: real, i: nat)
    requires 0 < i <= |Greedy(rest, lineages + {x.lineage}, children + {x.child})|
    requires var more, later := lineages + {x.lineage}, children + {x.child};
      TieTold(all, Greedy(rest, more, later), more, Ties(rest, all, more, later, margin), margin, i - 1)
    ensures var more, later := lineages + {x.lineage}, children + {x.child};
      TieTold(all, [x] + Greedy(rest, more, later), lineages,
              (if Tied(all, x, lineages, margin) then {x.child} else {}) + Ties(rest, all, more, later, margin),
                margin, i)
  {
    var more, later := lineages + {x.lineage}, children + {x.child};
    GreedyIsMatching(rest, more, later);
    hide Tied, Ties, Greedy, Competes;
    var t := Greedy(rest, more, later);
    var chosen := [x] + t;
    assert chosen[i] == t[i - 1] && t[i - 1] in t && t[i - 1].child != x.child;
    assert chosen[..i] == [x] + t[..i - 1];
    assert lineages + LineagesOf(chosen[..i]) == more + LineagesOf(t[..i - 1]);
  }

  lemma {:induction false} TiesAvoid<L, C>(options: seq<Choice<L, C>>, all: seq<Choice<L, C>>, lineages: set<L>,
        children: set<C>, margin: real)
    ensures Ties(options, all, lineages, children, margin) !! children
    decreases |options|
  {
    if options != [] {
      var x := options[0];
      if x.lineage in lineages || x.child in children {
        TiesAvoid(options[1..], all, lineages, children, margin);
      } else {
        TiesAvoid(options[1..], all, lineages + {x.lineage}, children + {x.child}, margin);
      }
    }
  }

  // ----- at least half of the best total -----

  function Total<L, C>(s: seq<Choice<L, C>>): real {
    if s == [] then 0.0 else s[0].score + Total(s[1..])
  }

  /** The part of `s` that conflicts with nothing in `used`, in order. */
  function Without<L(==), C(==)>(s: seq<Choice<L, C>>, lineages: set<L>, children: set<C>): seq<Choice<L, C>> {
    if s == [] then []
    else if s[0].lineage in lineages || s[0].child in children then Without(s[1..], lineages, children)
    else [s[0]] + Without(s[1..], lineages, children)
  }

  ghost predicate AtMost<L, C>(s: seq<Choice<L, C>>, top: real) {
    forall c | c in s :: 0.0 <= c.score <= top
  }

  lemma {:induction false} WithoutKeeps<L, C>(s: seq<Choice<L, C>>, lineages: set<L>, children: set<C>, c: Choice<L, C>)
    ensures c in Without(s, lineages, children) <==> c in s && c.lineage !in lineages && c.child !in children
  {
    if s != [] {
      WithoutKeeps(s[1..], lineages, children, c);
    }
  }

  lemma {:induction false} WithoutMatching<L, C>(s: seq<Choice<L, C>>, lineages: set<L>, children: set<C>)
    requires IsMatching(s)
    ensures IsMatching(Without(s, lineages, children))
  {
    if s != [] {
      var t, w := s[1..], Without(s[1..], lineages, children);
      WithoutMatching(t, lineages, children);
      forall i | 0 <= i < |w| ensures !Conflict(s[0], w[i]) {
        WithoutKeeps(t, lineages, children, w[i]);
        var k :| 0 <= k < |t| && t[k] == w[i];
        assert s[k + 1] == w[i] && !Conflict(s[0], s[k + 1]);
      }
    }
  }

  /** Dropping one lineage from a matching loses at most one choice. */
  lemma {:induction false} DropLineage<L, C>(s: seq<Choice<L, C>>, l: L, top: real)
    requires IsMatching(s) && AtMost(s, top) && 0.0 <= top
    ensures Total(s) <= Total(Without(s, {l}, {})) + top
    ensures l !in (set c | c in s :: c.lineage) ==> Total(s) == Total(Without(s, {l}, {}))
  {
    if s != [] {
      assert s[0] in s;
      assert forall c | c in s[1..] :: c in s;
      DropLineage(s[1..], l, top);
      if s[0].lineage == l {
        forall c | c in s[1..] ensures c.lineage != l {
          var k :| 0 <= k < |s[1..]| && s[1..][k] == c;
          assert s[k + 1] == c && !Conflict(s[0], s[k + 1]);
        }
      }
    }
  }

  lemma {:induction false} DropChild<L, C>(s: seq<Choice<L, C>>, child: C, top: real)
    requires IsMatching(s) && AtMost(s, top) && 0.0 <= top
    ensures Total(s) <= Total(Without(s, {}, {child})) + top
    ensures child !in (set c | c in s :: c.child) ==> Total(s) == Total(Without(s, {}, {child}))
  {
    if s != [] {
      assert s[0] in s;
      assert forall c | c in s[1..] :: c in s;
      DropChild(s[1..], child, top);
      if s[0].child == child {
        forall c | c in s[1..] ensures c.child != child {
          var k :| 0 <= k < |s[1..]| && s[1..][k] == c;
          assert s[k + 1] == c && !Conflict(s[0], s[k + 1]);
        }
      }
    }
  }

  /** The chosen total is at least half the total of any matching among the options. */
  lemma {:induction false} GreedyIsHalfOptimal<L, C>(options: seq<Choice<L, C>>, lineages: set<L>, children: set<C>,
        rival: seq<Choice<L, C>>)
    requires Sorted(options, ByScore) && forall c | c in options :: c.score >= 0.0
    requires IsMatching(rival) && Avoids(rival, lineages, children) && forall c | c in rival :: c in options
    ensures Total(rival) <= 2.0 * Total(Greedy(options, lineages, children))
    decreases |options|
  {
    if rival == [] {
      GreedyIsMatching(options, lineages, children);
      TotalNonNegative(Greedy(options, lineages, children));
    } else {
      assert rival[0] in options;
      var first, rest := options[0], options[1..];
      forall c | c in rest ensures c in options {}
      if first.lineage in lineages || first.child in children {
        forall c | c in rival ensures c in rest { assert c != first; }
        GreedyIsHalfOptimal(rest, lineages, children, rival);
      } else {
        var noLineage := Without(rival, {first.lineage}, {});
        var smaller := Without(noLineage, {}, {first.child});
        WithoutMatching(rival, {first.lineage}, {});
        WithoutMatching(noLineage, {}, {first.child});
        assert AtMost(rival, first.score) by { BestFirst(options, rival); }
        DropLineage(rival, first.lineage, first.score);
        assert AtMost(noLineage, first.score) by {
          forall c | c in noLineage
            ensures 0.0 <= c.score <= first.score
          {
            WithoutKeeps(rival, {first.lineage}, {}, c);
          }
        }
        DropChild(noLineage, first.child, first.score);
        forall c | c in smaller
          ensures c in rest && c.lineage !in lineages + {first.lineage} && c.child !in children + {first.child}
        {
          WithoutKeeps(noLineage, {}, {first.child}, c);
          WithoutKeeps(rival, {first.lineage}, {}, c);
          assert c in rival && c != first;
        }
        GreedyIsHalfOptimal(rest, lineages + {first.lineage}, children + {first.child}, smaller);
      }
    }
  }

  lemma {:induction false} TotalNonNegative<L, C>(s: seq<Choice<L, C>>)
    requires forall c | c in s :: c.score >= 0.0
    ensures Total(s) >= 0.0
  {
    if s != [] {
      assert s[0] in s && forall c | c in s[1..] :: c in s;
      TotalNonNegative(s[1..]);
    }
  }

  lemma BestFirst<L, C>(options: seq<Choice<L, C>>, rival: seq<Choice<L, C>>)
    requires options != [] && Sorted(options, ByScore) && forall c | c in options :: c.score >= 0.0
    requires forall c | c in rival :: c in options
    ensures AtMost(rival, options[0].score)
  {
    forall c | c in rival ensures 0.0 <= c.score <= options[0].score {
      var k :| 0 <= k < |options| && options[k] == c;
    }
  }
}
