/** What changed between two seller sweeps (crates/sellers/src/delta.rs). */
module SellersDelta {
  import opened Common
  import opened Transitions

  const NOT_CHURN := ["refused", "error", "unprobed"]

  /** A seller's identity: (payee, host). */
  type RungStatuses = Statuses<(string, string)>

  datatype SellerDelta = SellerDelta(
    sellersBefore: nat, sellersAfter: nat, appeared: nat, disappeared: nat,
    cameBack: nat, wentDark: nat, excludedRefused: nat, excludedError: nat, excludedUnprobed: nat, flips: seq<Flip>)

  predicate CameBack(m: Move)
  {
    m.0 == 2 && m.1 != "pass" && m.2 == "pass" && m.1 !in NOT_CHURN
  }

  predicate WentDark(m: Move)
  {
    m.0 == 2 && m.1 == "pass" && m.2 != "pass" && m.2 !in NOT_CHURN
  }

  /** The first of the excluded statuses that a rung-2 move touches. */
  function Exclusion(m: Move): (i: Option<nat>)
    ensures i.Some? ==> i.value < 3
  {
    if m.0 != 2 then None
    else if m.1 == NOT_CHURN[0] || m.2 == NOT_CHURN[0] then Some(0)
    else if m.1 == NOT_CHURN[1] || m.2 == NOT_CHURN[1] then Some(1)
    else if m.1 == NOT_CHURN[2] || m.2 == NOT_CHURN[2] then Some(2)
    else None
  }

  function IsKind(i: nat): Move -> bool { (m: Move) => Exclusion(m) == Some(i) }

  ghost function Excluded(before: RungStatuses, after: RungStatuses, i: nat): set<((string, string), int)>
  {
    Where(before, after, IsKind(i))
  }

  /** After the moves in `seen`, the three volumes so far. */
  ghost predicate ExcludedSoFar(excluded: seq<nat>, seen: set<Move>, before: RungStatuses, after: RungStatuses)
  {
    |excluded| == 3 && forall i :: 0 <= i < 3 ==> excluded[i] == |MadeOneOf(before, after, OfKind(seen, i))|
  }

  lemma ExcludeOneMore(excluded: seq<nat>, seen: set<Move>, before: RungStatuses, after: RungStatuses, m: Move)
    requires ExcludedSoFar(excluded, seen, before, after) && m !in seen
    ensures var n := |Movers(before, after, Changed(before, after), m)|;
      ExcludedSoFar(match Exclusion(m) case None => excluded case Some(i) => excluded[i := excluded[i] + n], seen + {m}, before, after)
  {
    forall i: nat ensures OfKind(seen + {m}, i) == if Exclusion(m) == Some(i) then OfKind(seen, i) + {m} else OfKind(seen, i) {}
    match Exclusion(m)
    case None =>
    case Some(i) => MadeOneMore(before, after, OfKind(seen, i), m);
  }

  lemma ExcludedAll(counted: map<Move, nat>, before: RungStatuses, after: RungStatuses, i: nat)
    requires CountsMoves(counted, before, after, Changed(before, after))
    ensures MadeOneOf(before, after, OfKind(counted.Keys, i)) == Excluded(before, after, i)
  {
    forall k | k in Excluded(before, after, i) ensures k in MadeOneOf(before, after, OfKind(counted.Keys, i)) {
      assert k in Movers(before, after, Changed(before, after), MoveOf(before, after, k));
    }
  }

  /** One pass over the counter, adding each excluded volume under one kind. */
  method ExcludedVolumes(counted: map<Move, nat>, ghost before: RungStatuses, ghost after: RungStatuses) returns (excluded: array<nat>)
    requires CountsMoves(counted, before, after, Changed(before, after))
    ensures fresh(excluded) && excluded.Length == 3
    ensures forall i :: 0 <= i < 3 ==> excluded[i] == |Excluded(before, after, i)|
  {
    excluded := new nat[3](_ => 0);
    var rest := counted.Keys;
    forall i: nat ensures MadeOneOf(before, after, OfKind({}, i)) == {} {}
    assert counted.Keys - rest == {};
    while rest != {}
      invariant rest <= counted.Keys && ExcludedSoFar(excluded[..], counted.Keys - rest, before, after)
      decreases rest
    {
      var m :| m in rest;
      ExcludeOneMore(excluded[..], counted.Keys - rest, before, after, m);
      assert counted.Keys - (rest - {m}) == (counted.Keys - rest) + {m};
      rest := rest - {m};
      var kind := Exclusion(m);
      if kind.Some? { excluded[kind.value] := excluded[kind.value] + counted[m]; }
    }
    assert counted.Keys - {} == counted.Keys;
    forall i | 0 <= i < 3 ensures excluded[i] == |Excluded(before, after, i)| { ExcludedAll(counted, before, after, i); }
  }

  ghost function OfKind(moves: set<Move>, i: nat): set<Move>
  {
    set m | m in moves && Exclusion(m) == Some(i)
  }

  ghost predicate IsDelta(d: SellerDelta, before: RungStatuses, after: RungStatuses)
  {
    && d.sellersBefore == |Subjects(before)| && d.sellersAfter == |Subjects(after)|
    && d.appeared == |Subjects(after) - Subjects(before)|
    && d.disappeared == |Subjects(before) - Subjects(after)|
    && d.cameBack == |Where(before, after, CameBack)|
    && d.wentDark == |Where(before, after, WentDark)|
    && d.excludedRefused == |Excluded(before, after, 0)|
    && d.excludedError == |Excluded(before, after, 1)|
    && d.excludedUnprobed == |Excluded(before, after, 2)|
    && IsFlipTable(d.flips, before, after)
  }

  method Compute(before: RungStatuses, after: RungStatuses) returns (d: SellerDelta)
    ensures IsDelta(d, before, after)
  {
    var sellersBefore := Subjects(before);
    var sellersAfter := Subjects(after);
    var counted := CountTransitions(before, after);
    var cameBack := SumWhere(counted, CameBack, before, after);
    var wentDark := SumWhere(counted, WentDark, before, after);
    var excluded := ExcludedVolumes(counted, before, after);
    var flips := SortedFlips(counted, before, after);
    d := SellerDelta(|sellersBefore|, |sellersAfter|, |sellersAfter - sellersBefore|, |sellersBefore - sellersAfter|,
                     cameBack, wentDark, excluded[0], excluded[1], excluded[2], flips);
  }

  lemma DeltaDetermined(d: SellerDelta, e: SellerDelta, before: RungStatuses, after: RungStatuses)
    requires IsDelta(d, before, after) && IsDelta(e, before, after)
    ensures d == e
  {
    FlipTableUnique(d.flips, e.flips, before, after);
  }

  /** A rung-2 move between two statuses that are neither a pass nor excluded. */
  predicate Sideways(m: Move)
  {
    m.0 == 2 && m.1 != "pass" && m.2 != "pass" && m.1 !in NOT_CHURN && m.2 !in NOT_CHURN
  }

  predicate OnRungTwo(m: Move) { m.0 == 2 }

  predicate AnyExcluded(m: Move) { Exclusion(m).Some? }

  predicate ErrorOrUnprobed(m: Move) { Exclusion(m) == Some(1) || Exclusion(m) == Some(2) }

  /** A rung-2 move that no exclusion touches. */
  predicate Plain(m: Move) { m.0 == 2 && Exclusion(m).None? }

  predicate Churn(m: Move) { CameBack(m) || WentDark(m) }

  /** Which of the six a move is counted as. */
  lemma ExactlyOnePlace(m: Move)
    requires Real(m)
    ensures Plain(m) <==> Churn(m) || Sideways(m)
    ensures !(CameBack(m) && WentDark(m)) && !(Churn(m) && Sideways(m))
  {
  }

  /** Every rung-2 transition is counted in exactly one place: it came back, it
      went dark, it is one of the three excluded kinds, or it is a move between
      other non-pass statuses. */
  lemma RungTwoAccounted(d: SellerDelta, before: RungStatuses, after: RungStatuses)
    requires IsDelta(d, before, after)
    ensures |Where(before, after, OnRungTwo)|
         == d.cameBack + d.wentDark + |Where(before, after, Sideways)|
          + d.excludedRefused + d.excludedError + d.excludedUnprobed
  {
    forall m | Real(m)
      ensures Plain(m) <==> Churn(m) || Sideways(m)
      ensures !(CameBack(m) && WentDark(m)) && !(Churn(m) && Sideways(m))
    {
      ExactlyOnePlace(m);
    }
    WhereSplits(before, after, OnRungTwo, Plain, AnyExcluded);
    WhereSplits(before, after, Plain, Churn, Sideways);
    WhereSplits(before, after, Churn, CameBack, WentDark);
    WhereSplits(before, after, AnyExcluded, IsKind(0), ErrorOrUnprobed);
    WhereSplits(before, after, ErrorOrUnprobed, IsKind(1), IsKind(2));
  }

  lemma DeltaConserves(d: SellerDelta, before: RungStatuses, after: RungStatuses)
    requires IsDelta(d, before, after)
    ensures TotalOf(d.flips) == |Changed(before, after)|
    ensures d.sellersAfter + d.disappeared == d.sellersBefore + d.appeared
  {
    FlipsConserve(d.flips, before, after);
    PopulationBalances(Subjects(before), Subjects(after));
  }

  /** Reversal: the series swap, the excluded volumes stay, the flips transpose. */
  lemma DeltaReverses(d: SellerDelta, e: SellerDelta, before: RungStatuses, after: RungStatuses)
    requires IsDelta(d, before, after) && IsDelta(e, after, before)
    ensures e.cameBack == d.wentDark && e.wentDark == d.cameBack
    ensures e.appeared == d.disappeared && e.disappeared == d.appeared
    ensures e.excludedRefused == d.excludedRefused && e.excludedError == d.excludedError && e.excludedUnprobed == d.excludedUnprobed
    ensures forall f :: f in d.flips <==> Flip(f.rung, f.to, f.from, f.count) in e.flips
  {
    forall m
      ensures CameBack(m) <==> WentDark(Reversed(m))
      ensures WentDark(m) <==> CameBack(Reversed(m))
      ensures Exclusion(m) == Exclusion(Reversed(m))
    {
      MoveReversed(m);
    }
    WhereReversed(before, after, CameBack, WentDark);
    WhereReversed(before, after, WentDark, CameBack);
    forall i: nat ensures Excluded(before, after, i) == Excluded(after, before, i) {
      WhereReversed(before, after, IsKind(i), IsKind(i));
    }
    FlipsTransposed(d.flips, e.flips, before, after);
    FlipsTransposed(e.flips, d.flips, after, before);
    forall f: Flip | Flip(f.rung, f.to, f.from, f.count) in e.flips ensures f in d.flips {
      assert Flip(f.rung, f.from, f.to, f.count) in d.flips;
    }
  }

  lemma MoveReversed(m: Move)
    ensures CameBack(m) <==> WentDark(Reversed(m))
    ensures WentDark(m) <==> CameBack(Reversed(m))
    ensures Exclusion(m) == Exclusion(Reversed(m))
  {
  }

  /** A seller whose rung 2 changed from or to this status. */
  ghost predicate Touches(before: RungStatuses, after: RungStatuses, k: ((string, string), int), status: string)
  {
    k in before && k in after && k.1 == 2 && before[k] != after[k] && (before[k] == status || after[k] == status)
  }

  ghost function Touched(before: RungStatuses, after: RungStatuses, status: string): set<((string, string), int)>
  {
    set k | k in before && Touches(before, after, k, status)
  }

  lemma ExcludedMean(before: RungStatuses, after: RungStatuses)
    ensures Excluded(before, after, 0) == Touched(before, after, "refused")
    ensures Excluded(before, after, 1) == Touched(before, after, "error") - Touched(before, after, "refused")
    ensures Excluded(before, after, 2) == Touched(before, after, "unprobed") - Touched(before, after, "refused") - Touched(before, after, "error")
  {
    forall k ensures k in Excluded(before, after, 0) <==> k in Touched(before, after, "refused") {}
    forall k ensures k in Excluded(before, after, 1) <==> k in Touched(before, after, "error") - Touched(before, after, "refused") {}
    forall k ensures k in Excluded(before, after, 2)
        <==> k in Touched(before, after, "unprobed") - Touched(before, after, "refused") - Touched(before, after, "error") {}
  }

  ghost function Began(before: RungStatuses, after: RungStatuses): set<((string, string), int)>
  {
    set k | k in before && k in after && k.1 == 2 && after[k] == "pass" && before[k] !in {"pass", "refused", "error", "unprobed"}
  }

  lemma BeganMeans(before: RungStatuses, after: RungStatuses)
    ensures Where(before, after, CameBack) == Began(before, after)
  {
  }

  lemma CeasedMeans(before: RungStatuses, after: RungStatuses)
    ensures Where(before, after, WentDark) == Began(after, before)
  {
  }

  /** What the row counts, read off the two sweeps: sellers that came back or went
      dark, and beside them those whose change is none of theirs, each under the first
      of our three reasons. */
  lemma RowMeans(d: SellerDelta, before: RungStatuses, after: RungStatuses)
    requires IsDelta(d, before, after)
    ensures d.cameBack == |Began(before, after)| && d.wentDark == |Began(after, before)|
    ensures d.excludedRefused == |Touched(before, after, "refused")|
    ensures d.excludedError == |Touched(before, after, "error") - Touched(before, after, "refused")|
    ensures d.excludedUnprobed == |Touched(before, after, "unprobed") - Touched(before, after, "refused") - Touched(before, after, "error")|
  {
    BeganMeans(before, after);
    CeasedMeans(before, after);
    ExcludedMean(before, after);
  }
}
