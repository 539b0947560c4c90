/** connectParticles in js/main.js: every unordered pair of particles is
    visited once, in the order of its two nested loops, and a line is drawn
    between the two when they are closer than 150, with opacity
    1 - distance / 150. Math.hypot is not modelled: the distance of a pair is
    hypot(dx, dy) for a function hypot given by the caller. */
module ParticleLinks {
  import opened ParticleMotion

  /** Pairs at this distance or more get no line. */
  const LinkDistance: real := 150.0

  /** A line drawn from particle i to particle j. */
  datatype Line = Line(i: nat, j: nat, opacity: real)

  /** The opacity of a line between particles at distance d. */
  function Opacity(d: real): (o: real)
    ensures 0.0 <= d < LinkDistance ==> 0.0 < o <= 1.0
    ensures o == 1.0 <==> d == 0.0
  {
    1.0 - d / LinkDistance
  }

  /** Opacity at distance 0, at half the link distance and at the link distance. */
  lemma OpacityExamples()
    ensures Opacity(0.0) == 1.0 && Opacity(75.0) == 0.5 && Opacity(LinkDistance) == 0.0
  {
  }

  /** (a, b) comes strictly before (c, d) in the loops' visiting order. */
  predicate Before(p: (nat, nat), q: (nat, nat)) {
    p.0 < q.0 || (p.0 == q.0 && p.1 < q.1)
  }

  /** Visited in strictly increasing order, hence each pair at most once. */
  predicate Increasing(ps: seq<(nat, nat)>) {
    forall a, b :: 0 <= a < b < |ps| ==> Before(ps[a], ps[b])
  }

  /** The pairs of row i that the inner loop has visited once it reaches j:
      (i, i + 1), (i, i + 2), ..., (i, j - 1). */
  function RowPairs(i: nat, j: nat): seq<(nat, nat)>
    decreases j
  {
    if j <= i + 1 then [] else RowPairs(i, j - 1) + [(i, j - 1)]
  }

  /** The pairs of the first i rows over n particles, in visiting order. */
  function PairsBefore(i: nat, n: nat): seq<(nat, nat)>
    decreases i
  {
    if i == 0 then [] else PairsBefore(i - 1, n) + RowPairs(i - 1, n)
  }

  /** Every pair connectParticles visits over n particles, in visiting order. */
  function Pairs(n: nat): seq<(nat, nat)> {
    PairsBefore(n, n)
  }

  /** Row i up to j is (i, i + 1), ..., (i, j - 1). */
  lemma {:induction false} RowPairsSpec(i: nat, j: nat)
    ensures |RowPairs(i, j)| == if j <= i + 1 then 0 else j - i - 1
    ensures forall k :: 0 <= k < |RowPairs(i, j)| ==> RowPairs(i, j)[k] == (i, i + 1 + k)
    decreases j
  {
    if j > i + 1 {
      RowPairsSpec(i, j - 1);
    }
  }

  /** The first i rows hold only pairs a < b < n with a < i. */
  lemma {:induction false} PairsBeforeRange(i: nat, n: nat)
    ensures forall k :: 0 <= k < |PairsBefore(i, n)| ==>
      PairsBefore(i, n)[k].0 < i && PairsBefore(i, n)[k].0 < PairsBefore(i, n)[k].1 < n
    decreases i
  {
    if i > 0 {
      PairsBeforeRange(i - 1, n);
      RowPairsSpec(i - 1, n);
      var done: seq<(nat, nat)>, row: seq<(nat, nat)> := PairsBefore(i - 1, n), RowPairs(i - 1, n);
      forall k | 0 <= k < |done + row|
        ensures (done + row)[k].0 < i && (done + row)[k].0 < (done + row)[k].1 < n
      {
        if k >= |done| {
          assert (done + row)[k] == row[k - |done|];
        }
      }
    }
  }

  /** The first i rows hold every pair a < b < n with a < i. */
  lemma {:induction false} PairsBeforeHoldsAll(i: nat, n: nat, a: nat, b: nat)
    requires a < i && a < b < n
    ensures (a, b) in PairsBefore(i, n)
    decreases i
  {
    var done, row := PairsBefore(i - 1, n), RowPairs(i - 1, n);
    if a == i - 1 {
      RowPairsSpec(i - 1, n);
      assert (done + row)[|done| + b - i] == row[b - i] == (a, b);
    } else {
      PairsBeforeHoldsAll(i - 1, n, a, b);
      var k :| 0 <= k < |done| && done[k] == (a, b);
      assert (done + row)[k] == (a, b);
    }
  }

  /** The visiting order is strictly increasing. */
  lemma {:induction false} PairsBeforeIncreasing(i: nat, n: nat)
    ensures Increasing(PairsBefore(i, n))
    decreases i
  {
    if i > 0 {
      PairsBeforeIncreasing(i - 1, n);
      PairsBeforeRange(i - 1, n);
      RowPairsSpec(i - 1, n);
      var done: seq<(nat, nat)>, row: seq<(nat, nat)> := PairsBefore(i - 1, n), RowPairs(i - 1, n);
      forall a, b | 0 <= a < b < |done + row|
        ensures Before((done + row)[a], (done + row)[b])
      {
        if b < |done| {
          assert (done + row)[a] == done[a] && (done + row)[b] == done[b];
        } else if a < |done| {
          assert (done + row)[a] == done[a] && (done + row)[b] == row[b - |done|];
        } else {
          assert (done + row)[a] == row[a - |done|] && (done + row)[b] == row[b - |done|];
        }
      }
    }
  }

  /** The first i rows over n particles hold i * (2n - i - 1) / 2 pairs. */
  lemma {:induction false} PairsBeforeCount(i: nat, n: nat)
    requires i <= n
    ensures 2 * |PairsBefore(i, n)| == i * (2 * n - i - 1)
    decreases i
  {
    if i > 0 {
      PairsBeforeCount(i - 1, n);
      RowPairsSpec(i - 1, n);
      var m, k := i - 1, 2 * n - i - 1;
      assert 2 * |PairsBefore(i, n)| == m * (k + 1) + 2 * (n - m - 1);
      assert m * (k + 1) == m * k + m;
      assert i * k == m * k + k;
    }
  }

  /** connectParticles visits every pair i < j < n exactly once: each is in
      Pairs(n), nothing else is, the order is strictly increasing, and there
      are n * (n - 1) / 2 of them (1770 for 60 particles). */
  lemma PairsSpec(n: nat)
    ensures forall a: nat, b: nat :: (a, b) in Pairs(n) <==> a < b < n
    ensures Increasing(Pairs(n))
    ensures 2 * |Pairs(n)| == n * (n - 1)
  {
    forall a: nat, b: nat | a < b < n ensures (a, b) in Pairs(n) {
      PairsBeforeHoldsAll(n, n, a, b);
    }
    PairsBeforeRange(n, n);
    PairsBeforeIncreasing(n, n);
    PairsBeforeCount(n, n);
  }

  lemma PoolPairCount()
    ensures |Pairs(ParticleCount)| == 1770
  {
    PairsSpec(ParticleCount);
  }

  /** Distance between particles a and b of a pool. */
  function Distance(ps: seq<PState>, a: nat, b: nat, hypot: (real, real) -> real): real
    requires a < |ps| && b < |ps|
  {
    hypot(ps[a].x - ps[b].x, ps[a].y - ps[b].y)
  }

  /** What connectParticles does for one pair: a line when closer than 150.
      The loops only visit pairs of the pool; any other pair draws nothing. */
  function LinkFor(ps: seq<PState>, a: nat, b: nat, hypot: (real, real) -> real): seq<Line> {
    if a < |ps| && b < |ps| && Distance(ps, a, b, hypot) < LinkDistance
    then [Line(a, b, Opacity(Distance(ps, a, b, hypot)))]
    else []
  }

  /** LinkFor on a fixed pool, as a function of the pair. */
  function LinkOf(ps: seq<PState>, hypot: (real, real) -> real): (nat, nat) -> seq<Line> {
    (a: nat, b: nat) => LinkFor(ps, a, b, hypot)
  }

  /** The lines drawn for the given pairs, in order, when pair (a, b) draws
      link(a, b). */
  function Select(link: (nat, nat) -> seq<Line>, pairs: seq<(nat, nat)>): seq<Line>
    decreases |pairs|
  {
    if pairs == [] then [] else link(pairs[0].0, pairs[0].1) + Select(link, pairs[1..])
  }

  /** The lines the inner loop of row i has drawn once it reaches j. */
  function RowSoFar(link: (nat, nat) -> seq<Line>, i: nat, j: nat): seq<Line>
    decreases j
  {
    if j <= i + 1 then [] else RowSoFar(link, i, j - 1) + link(i, j - 1)
  }

  /** The lines the outer loop has drawn once i rows over n particles are
      complete. */
  function RowsSoFar(link: (nat, nat) -> seq<Line>, i: nat, n: nat): seq<Line>
    decreases i
  {
    if i == 0 then [] else RowsSoFar(link, i - 1, n) + RowSoFar(link, i - 1, n)
  }

  /** The lines one connectParticles call draws: every row, in order. */
  function Links(ps: seq<PState>, hypot: (real, real) -> real): seq<Line> {
    RowsSoFar(LinkOf(ps, hypot), |ps|, |ps|)
  }

  /** Drawing for xs and then for ys draws what drawing for xs + ys draws. */
  lemma {:induction false} SelectAppend(link: (nat, nat) -> seq<Line>,
                                        xs: seq<(nat, nat)>, ys: seq<(nat, nat)>)
    ensures Select(link, xs + ys) == Select(link, xs) + Select(link, ys)
    decreases |xs|
  {
    if xs == [] {
      assert xs + ys == ys;
    } else {
      var zs, rest := xs + ys, xs[1..];
      assert zs[0] == xs[0] && zs[1..] == rest + ys;
      SelectAppend(link, rest, ys);
      var head := link(xs[0].0, xs[0].1);
      calc {
        Select(link, zs);
        head + Select(link, rest + ys);
        head + (Select(link, rest) + Select(link, ys));
        (head + Select(link, rest)) + Select(link, ys);
      }
    }
  }

  /** Part way through row i, the inner loop has drawn the lines of the pairs
      it has visited. */
  lemma {:induction false} RowSoFarSelects(link: (nat, nat) -> seq<Line>, i: nat, j: nat)
    ensures RowSoFar(link, i, j) == Select(link, RowPairs(i, j))
    decreases j
  {
    if j > i + 1 {
      RowSoFarSelects(link, i, j - 1);
      SelectAppend(link, RowPairs(i, j - 1), [(i, j - 1)]);
      assert [(i, j - 1)][1..] == [];
    }
  }

  /** After i rows, the outer loop has drawn the lines of the pairs visited. */
  lemma {:induction false} RowsSoFarSelects(link: (nat, nat) -> seq<Line>, i: nat, n: nat)
    ensures RowsSoFar(link, i, n) == Select(link, PairsBefore(i, n))
    decreases i
  {
    if i > 0 {
      RowsSoFarSelects(link, i - 1, n);
      SelectAppend(link, PairsBefore(i - 1, n), RowPairs(i - 1, n));
      RowSoFarSelects(link, i - 1, n);
    }
  }

  /** connectParticles draws the lines of the pairs it visits, in visiting
      order. */
  lemma LinksVisitPairs(ps: seq<PState>, hypot: (real, real) -> real)
    ensures Links(ps, hypot) == Select(LinkOf(ps, hypot), Pairs(|ps|))
  {
    RowsSoFarSelects(LinkOf(ps, hypot), |ps|, |ps|);
  }

  /** A line is drawn for a listed pair exactly when it is closer than 150,
      and then with opacity 1 - d / 150. */
  lemma {:induction false} SelectMembers(ps: seq<PState>, pairs: seq<(nat, nat)>,
                                         hypot: (real, real) -> real, l: Line)
    ensures l in Select(LinkOf(ps, hypot), pairs) <==>
      (l.i, l.j) in pairs && l.i < |ps| && l.j < |ps|
      && Distance(ps, l.i, l.j, hypot) < LinkDistance
      && l.opacity == Opacity(Distance(ps, l.i, l.j, hypot))
    decreases |pairs|
  {
    if pairs != [] {
      SelectMembers(ps, pairs[1..], hypot, l);
      assert (l.i, l.j) in pairs <==> (l.i, l.j) == pairs[0] || (l.i, l.j) in pairs[1..];
    }
  }

  /** Lines in strictly increasing pair order, hence no pair twice. */
  predicate LinesIncreasing(r: seq<Line>) {
    forall a, b :: 0 <= a < b < |r| ==> Before((r[a].i, r[a].j), (r[b].i, r[b].j))
  }

  /** The lines keep the visiting order of their pairs. */
  lemma {:induction false} SelectIncreasing(ps: seq<PState>, pairs: seq<(nat, nat)>,
                                            hypot: (real, real) -> real)
    requires Increasing(pairs)
    ensures LinesIncreasing(Select(LinkOf(ps, hypot), pairs))
    decreases |pairs|
  {
    if pairs != [] {
      var link := LinkOf(ps, hypot);
      var head, rest := link(pairs[0].0, pairs[0].1), pairs[1..];
      assert Increasing(rest);
      SelectIncreasing(ps, rest, hypot);
      var tail := Select(link, rest);
      forall b | 0 <= b < |tail| ensures Before(pairs[0], (tail[b].i, tail[b].j)) {
        assert tail[b] in tail;
        SelectMembers(ps, rest, hypot, tail[b]);
        var k :| 0 <= k < |rest| && rest[k] == (tail[b].i, tail[b].j);
        assert pairs[k + 1] == rest[k];
      }
      var r := head + tail;
      assert Select(link, pairs) == r;
      forall a, b | 0 <= a < b < |r| ensures Before((r[a].i, r[a].j), (r[b].i, r[b].j)) {
        if a < |head| {
          assert r[a] == head[0] && (head[0].i, head[0].j) == pairs[0];
          assert r[b] == tail[b - |head|];
        } else {
          assert r[a] == tail[a - |head|] && r[b] == tail[b - |head|];
        }
      }
    }
  }

  /** connectParticles links exactly the pairs i < j closer than 150, each
      with opacity 1 - d / 150, and each linked pair once, in visiting order.
      A pair at exactly 150 gets no line. */
  lemma LinksSpec(ps: seq<PState>, hypot: (real, real) -> real)
    ensures forall l :: l in Links(ps, hypot) ==>
      l.i < l.j < |ps| && Distance(ps, l.i, l.j, hypot) < LinkDistance
      && l.opacity == Opacity(Distance(ps, l.i, l.j, hypot))
    ensures forall a: nat, b: nat :: a < b < |ps| && Distance(ps, a, b, hypot) < LinkDistance ==>
      Line(a, b, Opacity(Distance(ps, a, b, hypot))) in Links(ps, hypot)
    ensures forall a: nat, b: nat :: a < b < |ps| && Distance(ps, a, b, hypot) >= LinkDistance ==>
      forall l :: l in Links(ps, hypot) ==> (l.i, l.j) != (a, b)
    ensures LinesIncreasing(Links(ps, hypot))
  {
    var n := |ps|;
    PairsSpec(n);
    LinksVisitPairs(ps, hypot);
    forall l | l in Links(ps, hypot)
      ensures l.i < l.j < n && Distance(ps, l.i, l.j, hypot) < LinkDistance
      ensures l.opacity == Opacity(Distance(ps, l.i, l.j, hypot))
    {
      SelectMembers(ps, Pairs(n), hypot, l);
    }
    forall a: nat, b: nat | a < b < n && Distance(ps, a, b, hypot) < LinkDistance
      ensures Line(a, b, Opacity(Distance(ps, a, b, hypot))) in Links(ps, hypot)
    {
      SelectMembers(ps, Pairs(n), hypot, Line(a, b, Opacity(Distance(ps, a, b, hypot))));
    }
    SelectIncreasing(ps, Pairs(n), hypot);
  }

  /** With a non-negative distance every drawn line has opacity in (0, 1]. */
  lemma LinksOpacityRange(ps: seq<PState>, hypot: (real, real) -> real)
    requires forall dx, dy :: hypot(dx, dy) >= 0.0
    ensures forall l :: l in Links(ps, hypot) ==> 0.0 < l.opacity <= 1.0
  {
    LinksSpec(ps, hypot);
  }
}
