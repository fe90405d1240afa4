/** Status transitions between two runs, counted: the computation that both
    delta tables share. A is what is being followed: an agent or a seller. */
module Transitions {
  import opened Order

  /** Every (subject, rung) -> status one run recorded. */
  type Statuses<A(==)> = map<(A, int), string>

  /** (rung, from, to). */
  type Move = (int, string, string)

  predicate MoveLess(a: Move, b: Move)
  {
    a.0 < b.0 || (a.0 == b.0 && PairLess((a.1, a.2), (b.1, b.2)))
  }

  lemma MoveOrder()
    ensures StrictOrder(MoveLess)
  {
    PairOrder();
  }

  datatype Flip = Flip(rung: int, from: string, to: string, count: nat)
  {
    function Move(): Move { (rung, from, to) }
  }

  /** The keys both runs recorded, with different statuses. */
  function Changed<A(==)>(before: Statuses<A>, after: Statuses<A>): set<(A, int)>
  {
    set k | k in after && k in before && before[k] != after[k]
  }

  function MoveOf<A(==)>(before: Statuses<A>, after: Statuses<A>, k: (A, int)): Move
    requires k in before && k in after
  {
    (k.1, before[k], after[k])
  }

  /** Those of the given keys that made exactly this move. */
  function Movers<A(==)>(before: Statuses<A>, after: Statuses<A>, keys: set<(A, int)>, m: Move): set<(A, int)>
  {
    set k | k in keys && k in before && k in after && MoveOf(before, after, k) == m
  }

  /** The counter holds, for exactly the moves made, how many made them. */
  ghost predicate CountsMoves<A>(counted: map<Move, nat>, before: Statuses<A>, after: Statuses<A>, keys: set<(A, int)>)
  {
    && (forall m :: m in counted <==> Movers(before, after, keys, m) != {})
    && (forall m :: m in counted ==> counted[m] == |Movers(before, after, keys, m)|)
  }

  lemma CountOneMore<A>(counted: map<Move, nat>, before: Statuses<A>, after: Statuses<A>, keys: set<(A, int)>, k: (A, int))
    requires CountsMoves(counted, before, after, keys) && k !in keys && k in before && k in after
    ensures var m := MoveOf(before, after, k);
      CountsMoves(counted[m := 1 + if m in counted then counted[m] else 0], before, after, keys + {k})
  {
    var m := MoveOf(before, after, k);
    assert Movers(before, after, keys + {k}, m) == Movers(before, after, keys, m) + {k};
    assert forall n :: n != m ==> Movers(before, after, keys + {k}, n) == Movers(before, after, keys, n);
  }

  /** One pass over the newer run's rows, in whatever order the map yields. */
  method CountTransitions<A(==, !new)>(before: Statuses<A>, after: Statuses<A>) returns (counted: map<Move, nat>)
    ensures CountsMoves(counted, before, after, Changed(before, after))
  {
    counted := map[];
    var rest := after.Keys;
    ghost var done: set<(A, int)> := {};
    while rest != {}
      invariant rest <= after.Keys && done == Changed(before, after) - rest
      invariant CountsMoves(counted, before, after, done)
      decreases rest
    {
      var k :| k in rest;
      rest := rest - {k};
      if k in before && before[k] != after[k] {
        CountOneMore(counted, before, after, done, k);
        var m := (k.1, before[k], after[k]);
        counted := counted[m := (if m in counted then counted[m] else 0) + 1];
        done := done + {k};
      }
    }
    assert done == Changed(before, after);
  }

  // ---- Sums over the counter -------------------------------------------------------

  /** The changed keys whose move is one of these. */
  function MadeOneOf<A(==)>(before: Statuses<A>, after: Statuses<A>, moves: set<Move>): set<(A, int)>
  {
    set k | k in Changed(before, after) && MoveOf(before, after, k) in moves
  }

  lemma MadeOneMore<A>(before: Statuses<A>, after: Statuses<A>, moves: set<Move>, m: Move)
    requires m !in moves
    ensures |MadeOneOf(before, after, moves + {m})|
         == |MadeOneOf(before, after, moves)| + |Movers(before, after, Changed(before, after), m)|
  {
    var x, y := MadeOneOf(before, after, moves), Movers(before, after, Changed(before, after), m);
    assert MadeOneOf(before, after, moves + {m}) == x + y;
    assert x !! y;
  }

  /** Adding up the counter over the moves that satisfy a predicate, in any
      order, counts the keys whose move satisfies it. */
  method SumWhere<A(==, !new)>(counted: map<Move, nat>, wanted: Move -> bool, ghost before: Statuses<A>, ghost after: Statuses<A>)
    returns (total: nat)
    requires CountsMoves(counted, before, after, Changed(before, after))
    ensures total == |Where(before, after, wanted)|
  {
    total := 0;
    var rest := counted.Keys;
    ghost var summed: set<Move> := {};
    while rest != {}
      invariant rest <= counted.Keys && summed <= counted.Keys
      invariant forall m :: m in summed <==> m in counted && m !in rest && wanted(m)
      invariant total == |MadeOneOf(before, after, summed)|
      decreases rest
    {
      var m :| m in rest;
      rest := rest - {m};
      if wanted(m) {
        MadeOneMore(before, after, summed, m);
        total, summed := total + counted[m], summed + {m};
      }
    }
    assert MadeOneOf(before, after, summed) == Where(before, after, wanted) by {
      forall k | k in Where(before, after, wanted) ensures k in MadeOneOf(before, after, summed) {
        assert k in Movers(before, after, Changed(before, after), MoveOf(before, after, k));
      }
    }
  }

  /** The changed keys whose move satisfies a predicate. */
  function Where<A(==)>(before: Statuses<A>, after: Statuses<A>, wanted: Move -> bool): set<(A, int)>
  {
    set k | k in Changed(before, after) && wanted(MoveOf(before, after, k))
  }

  function Reversed(m: Move): Move { (m.0, m.2, m.1) }

  /** A real move: nothing moves from a status to itself. */
  predicate Real(m: Move) { m.1 != m.2 }

  /** Counting one kind of move forwards is counting its mirror image backwards. */
  lemma WhereReversed<A>(before: Statuses<A>, after: Statuses<A>, p: Move -> bool, q: Move -> bool)
    requires forall m :: Real(m) ==> (p(m) <==> q(Reversed(m)))
    ensures Where(before, after, p) == Where(after, before, q)
  {
    forall k | k in Changed(before, after) ensures p(MoveOf(before, after, k)) <==> q(MoveOf(after, before, k)) {
      assert Real(MoveOf(before, after, k));
      assert MoveOf(after, before, k) == Reversed(MoveOf(before, after, k));
    }
  }

  /** A kind of move that splits in two is counted by counting both. */
  lemma WhereSplits<A>(before: Statuses<A>, after: Statuses<A>, whole: Move -> bool, p: Move -> bool, q: Move -> bool)
    requires forall m :: Real(m) ==> (whole(m) <==> p(m) || q(m))
    requires forall m :: Real(m) ==> !(p(m) && q(m))
    ensures |Where(before, after, whole)| == |Where(before, after, p)| + |Where(before, after, q)|
  {
    forall k | k in Changed(before, after) ensures Real(MoveOf(before, after, k)) {}
    assert Where(before, after, whole) == Where(before, after, p) + Where(before, after, q);
    assert Where(before, after, p) !! Where(before, after, q);
  }

  // ---- The table of flips -----------------------------------------------------------

  /** The table lists every move made, once, in ascending order, with its count. */
  ghost predicate IsFlipTable<A>(flips: seq<Flip>, before: Statuses<A>, after: Statuses<A>)
  {
    && (forall i, j :: 0 <= i < j < |flips| ==> MoveLess(flips[i].Move(), flips[j].Move()))
    && (forall i :: 0 <= i < |flips| ==> flips[i].count == |Movers(before, after, Changed(before, after), flips[i].Move())|)
    && (forall i :: 0 <= i < |flips| ==> flips[i].count > 0)
    && (forall k :: k in Changed(before, after) ==> exists i :: 0 <= i < |flips| && flips[i].Move() == MoveOf(before, after, k))
  }

  function MoveSeq(flips: seq<Flip>): (r: seq<Move>)
    ensures |r| == |flips| && forall i :: 0 <= i < |r| ==> r[i] == flips[i].Move()
  {
    seq(|flips|, i requires 0 <= i < |flips| => flips[i].Move())
  }

  /** Collect the counter and sort it. */
  method SortedFlips<A(==, !new)>(counted: map<Move, nat>, ghost before: Statuses<A>, ghost after: Statuses<A>) returns (flips: seq<Flip>)
    requires CountsMoves(counted, before, after, Changed(before, after))
    ensures IsFlipTable(flips, before, after)
  {
    MoveOrder();
    var moves := InOrder(counted.Keys, MoveLess);
    forall i | 0 <= i < |moves| ensures moves[i] in counted { assert moves[i] in moves; }
    flips := seq(|moves|, i requires 0 <= i < |moves| && moves[i] in counted =>
      Flip(moves[i].0, moves[i].1, moves[i].2, counted[moves[i]]));
    CollectedIsTable(flips, moves, counted, before, after);
  }

  lemma CollectedIsTable<A>(flips: seq<Flip>, moves: seq<Move>, counted: map<Move, nat>, before: Statuses<A>, after: Statuses<A>)
    requires CountsMoves(counted, before, after, Changed(before, after))
    requires Ascending(moves, MoveLess) && forall m :: m in moves <==> m in counted
    requires |flips| == |moves| && forall i :: 0 <= i < |flips| ==> moves[i] in counted && flips[i].Move() == moves[i] && flips[i].count == counted[moves[i]]
    ensures IsFlipTable(flips, before, after)
  {
    forall k | k in Changed(before, after) ensures exists i :: 0 <= i < |flips| && flips[i].Move() == MoveOf(before, after, k) {
      assert k in Movers(before, after, Changed(before, after), MoveOf(before, after, k));
      var i :| 0 <= i < |moves| && moves[i] == MoveOf(before, after, k);
      assert flips[i].Move() == moves[i];
    }
  }

  function TotalOf(flips: seq<Flip>): nat
  {
    if flips == [] then 0 else TotalOf(flips[..|flips| - 1]) + flips[|flips| - 1].count
  }

  function MovesIn(flips: seq<Flip>): set<Move>
  {
    set f | f in flips :: f.Move()
  }

  lemma {:induction false} TotalCounts<A>(flips: seq<Flip>, before: Statuses<A>, after: Statuses<A>)
    requires forall i, j :: 0 <= i < j < |flips| ==> MoveLess(flips[i].Move(), flips[j].Move())
    requires forall i :: 0 <= i < |flips| ==> flips[i].count == |Movers(before, after, Changed(before, after), flips[i].Move())|
    ensures TotalOf(flips) == |MadeOneOf(before, after, MovesIn(flips))|
  {
    if flips == [] {
      assert MadeOneOf(before, after, MovesIn(flips)) == {};
    } else {
      var init, last := flips[..|flips| - 1], flips[|flips| - 1];
      TotalCounts(init, before, after);
      MoveOrder();
      assert last.Move() !in MovesIn(init);
      MadeOneMore(before, after, MovesIn(init), last.Move());
      assert flips == init + [last];
      assert MovesIn(flips) == MovesIn(init) + {last.Move()};
    }
  }

  /** The table accounts for every changed status, each once, and for nothing
      else: no row moves from a status to itself. */
  lemma FlipsConserve<A>(flips: seq<Flip>, before: Statuses<A>, after: Statuses<A>)
    requires IsFlipTable(flips, before, after)
    ensures TotalOf(flips) == |Changed(before, after)|
    ensures forall f :: f in flips ==> f.from != f.to
  {
    TotalCounts(flips, before, after);
    assert MadeOneOf(before, after, MovesIn(flips)) == Changed(before, after) by {
      forall k | k in Changed(before, after) ensures MoveOf(before, after, k) in MovesIn(flips) {
        var i :| 0 <= i < |flips| && flips[i].Move() == MoveOf(before, after, k);
        assert flips[i] in flips;
      }
    }
    forall f | f in flips ensures f.from != f.to {
      assert Movers(before, after, Changed(before, after), f.Move()) != {};
      var k :| k in Movers(before, after, Changed(before, after), f.Move());
      assert k in Changed(before, after);
    }
  }

  /** The moves a table lists are exactly the moves made. */
  lemma ListedIffMade<A>(flips: seq<Flip>, before: Statuses<A>, after: Statuses<A>, m: Move)
    requires IsFlipTable(flips, before, after)
    ensures m in MoveSeq(flips) <==> Movers(before, after, Changed(before, after), m) != {}
  {
    if k :| k in Movers(before, after, Changed(before, after), m) {
      var i :| 0 <= i < |flips| && flips[i].Move() == MoveOf(before, after, k);
      assert MoveSeq(flips)[i] == m;
    }
    if m in MoveSeq(flips) {
      var i :| 0 <= i < |flips| && MoveSeq(flips)[i] == m;
      assert flips[i].count > 0;
    }
  }

  /** The inputs alone determine the table, whatever order maps iterate in. */
  lemma FlipTableUnique<A>(x: seq<Flip>, y: seq<Flip>, before: Statuses<A>, after: Statuses<A>)
    requires IsFlipTable(x, before, after) && IsFlipTable(y, before, after)
    ensures x == y
  {
    MoveOrder();
    forall m ensures m in MoveSeq(x) <==> m in MoveSeq(y) {
      ListedIffMade(x, before, after, m);
      ListedIffMade(y, before, after, m);
    }
    AscendingUnique(MoveSeq(x), MoveSeq(y), MoveLess);
    forall i | 0 <= i < |x| ensures x[i] == y[i] { assert MoveSeq(x)[i] == MoveSeq(y)[i]; }
  }

  /** Swapping the runs transposes the table. */
  lemma FlipsTransposed<A>(x: seq<Flip>, y: seq<Flip>, before: Statuses<A>, after: Statuses<A>)
    requires IsFlipTable(x, before, after) && IsFlipTable(y, after, before)
    ensures forall f :: f in x ==> Flip(f.rung, f.to, f.from, f.count) in y
  {
    forall f | f in x ensures Flip(f.rung, f.to, f.from, f.count) in y {
      var there := Movers(before, after, Changed(before, after), f.Move());
      var back := Movers(after, before, Changed(after, before), (f.rung, f.to, f.from));
      assert there == back;
      assert there != {};
      var k :| k in there;
      assert k in Changed(after, before) && MoveOf(after, before, k) == (f.rung, f.to, f.from);
      var j :| 0 <= j < |y| && y[j].Move() == MoveOf(after, before, k);
      assert y[j] == Flip(f.rung, f.to, f.from, f.count);
    }
  }

  // ---- Population ----------------------------------------------------------------------

  function Subjects<A(==)>(run: Statuses<A>): set<A>
  {
    set k | k in run :: k.0
  }

  /** After + disappeared == before + appeared. */
  lemma PopulationBalances<A>(before: set<A>, after: set<A>)
    ensures |after| + |before - after| == |before| + |after - before|
  {
    assert before == (before - after) + (before * after);
    assert after == (after - before) + (before * after);
  }
}
