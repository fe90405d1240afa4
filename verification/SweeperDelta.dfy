/** What changed between two census runs on one chain
    (crates/sweeper/src/delta.rs). */
module SweeperDelta {
  import opened Common
  import opened Transitions

  const NOT_CHURN := ["refused", "error"]

  type RungStatuses = Statuses<nat>

  datatype DeltaCounts = DeltaCounts(
    agentsBefore: nat, agentsAfter: nat, newlyRegistered: nat, disappeared: nat,
    newlyResolving: nat, stoppedResolving: nat, flips: seq<Flip>)

  predicate StartedResolving(m: Move)
  {
    m.0 == 2 && m.1 != "pass" && m.2 == "pass" && m.1 !in NOT_CHURN
  }

  predicate StoppedResolving(m: Move)
  {
    m.0 == 2 && m.1 == "pass" && m.2 != "pass" && m.2 !in NOT_CHURN
  }

  /** The counts a delta stands for. */
  ghost predicate IsDelta(d: DeltaCounts, before: RungStatuses, after: RungStatuses)
  {
    && d.agentsBefore == |Subjects(before)| && d.agentsAfter == |Subjects(after)|
    && d.newlyRegistered == |Subjects(after) - Subjects(before)|
    && d.disappeared == |Subjects(before) - Subjects(after)|
    && d.newlyResolving == |Where(before, after, StartedResolving)|
    && d.stoppedResolving == |Where(before, after, StoppedResolving)|
    && IsFlipTable(d.flips, before, after)
  }

  method Compute(before: RungStatuses, after: RungStatuses) returns (d: DeltaCounts)
    ensures IsDelta(d, before, after)
  {
    var agentsAfter := Subjects(after);
    var agentsBefore := Subjects(before);
    var counted := CountTransitions(before, after);
    var newly := SumWhere(counted, StartedResolving, before, after);
    var stopped := SumWhere(counted, StoppedResolving, before, after);
    var flips := SortedFlips(counted, before, after);
    d := DeltaCounts(|agentsBefore|, |agentsAfter|, |agentsAfter - agentsBefore|, |agentsBefore - agentsAfter|,
                     newly, stopped, flips);
  }

  /** Two computations over the same runs publish the same row. */
  lemma DeltaDetermined(d: DeltaCounts, e: DeltaCounts, before: RungStatuses, after: RungStatuses)
    requires IsDelta(d, before, after) && IsDelta(e, before, after)
    ensures d == e
  {
    FlipTableUnique(d.flips, e.flips, before, after);
  }

  /** Conservation: the flips add up to the changed rows, the populations
      balance, and the headline series never exceed the table beneath them. */
  lemma DeltaConserves(d: DeltaCounts, before: RungStatuses, after: RungStatuses)
    requires IsDelta(d, before, after)
    ensures TotalOf(d.flips) == |Changed(before, after)|
    ensures d.agentsAfter + d.disappeared == d.agentsBefore + d.newlyRegistered
    ensures d.newlyResolving + d.stoppedResolving <= TotalOf(d.flips)
  {
    FlipsConserve(d.flips, before, after);
    PopulationBalances(Subjects(before), Subjects(after));
    var x, y := Where(before, after, StartedResolving), Where(before, after, StoppedResolving);
    assert x !! y && x + y <= Changed(before, after);
    SubsetSize(x + y, Changed(before, after));
  }

  /** Reversal: swapping the runs transposes the flips and swaps the series. */
  lemma DeltaReverses(d: DeltaCounts, e: DeltaCounts, before: RungStatuses, after: RungStatuses)
    requires IsDelta(d, before, after) && IsDelta(e, after, before)
    ensures e.newlyResolving == d.stoppedResolving && e.stoppedResolving == d.newlyResolving
    ensures e.newlyRegistered == d.disappeared && e.disappeared == d.newlyRegistered
    ensures forall f :: f in d.flips <==> Flip(f.rung, f.to, f.from, f.count) in e.flips
  {
    WhereReversed(before, after, StartedResolving, StoppedResolving);
    WhereReversed(before, after, StoppedResolving, StartedResolving);
    FlipsTransposed(d.flips, e.flips, before, after);
    FlipsTransposed(e.flips, d.flips, after, before);
    forall f: Flip | Flip(f.rung, f.to, f.from, f.count) in e.flips ensures f in d.flips {
      assert Flip(f.rung, f.from, f.to, f.count) in d.flips;
    }
  }

  /** No rate limit and no failure of ours is published as churn: when every
      rung-2 change touches an excluded status, both series are zero. */
  lemma NoFalseChurn(d: DeltaCounts, before: RungStatuses, after: RungStatuses)
    requires IsDelta(d, before, after)
    requires forall k :: k in before && k in after && k.1 == 2 && before[k] != after[k] ==>
      before[k] in NOT_CHURN || after[k] in NOT_CHURN
    ensures d.newlyResolving == 0 && d.stoppedResolving == 0
  {
    assert Where(before, after, StartedResolving) == {};
    assert Where(before, after, StoppedResolving) == {};
  }

  /** A rung-2 move between two statuses neither of which is excluded. */
  predicate OurMove(m: Move)
  {
    m.0 == 2 && m.1 != m.2 && m.1 !in NOT_CHURN && m.2 !in NOT_CHURN
  }

  /** Both pairs of runs make the same such moves of the same agents. */
  ghost predicate SameChurn(before: RungStatuses, after: RungStatuses, before': RungStatuses, after': RungStatuses)
  {
    Where(before, after, OurMove) == Where(before', after', OurMove) &&
    forall k :: k in Where(before, after, OurMove) ==> before[k] == before'[k] && after[k] == after'[k]
  }

  lemma SameWhere(before: RungStatuses, after: RungStatuses, before': RungStatuses, after': RungStatuses, p: Move -> bool)
    requires SameChurn(before, after, before', after') && forall m :: p(m) ==> OurMove(m)
    ensures Where(before, after, p) == Where(before', after', p)
  {
    forall k ensures k in Where(before, after, p) <==> k in Where(before', after', p) {
      assert k in Where(before, after, p) ==> k in Where(before, after, OurMove);
      assert k in Where(before', after', p) ==> k in Where(before', after', OurMove);
    }
  }

  lemma SeriesAreOurs()
    ensures forall m :: StartedResolving(m) || StoppedResolving(m) ==> OurMove(m)
  {
    assert "pass"[0] == 'p' && "refused"[0] == 'r' && "error"[0] == 'e';
  }

  /** The headline series depend on such moves alone: whatever refusals and errors
      of ours come, go or differ, the same other moves give the same series. */
  lemma ExclusionsIgnored(d: DeltaCounts, before: RungStatuses, after: RungStatuses,
                          e: DeltaCounts, before': RungStatuses, after': RungStatuses)
    requires IsDelta(d, before, after) && IsDelta(e, before', after') && SameChurn(before, after, before', after')
    ensures d.newlyResolving == e.newlyResolving && d.stoppedResolving == e.stoppedResolving
  {
    SeriesAreOurs();
    SameWhere(before, after, before', after', StartedResolving);
    SameWhere(before, after, before', after', StoppedResolving);
  }

  /** What the headline series count, read off the two runs: the agents whose rung 2
      began or ceased to pass, refusals and errors of ours aside. */
  lemma HeadlinesMean(d: DeltaCounts, before: RungStatuses, after: RungStatuses)
    requires IsDelta(d, before, after)
    ensures d.newlyResolving == |set k | k in before && k in after && k.1 == 2 && after[k] == "pass" && before[k] !in {"pass", "refused", "error"}|
    ensures d.stoppedResolving == |set k | k in before && k in after && k.1 == 2 && before[k] == "pass" && after[k] !in {"pass", "refused", "error"}|
  {
    assert Where(before, after, StartedResolving)
        == set k | k in before && k in after && k.1 == 2 && after[k] == "pass" && before[k] !in {"pass", "refused", "error"};
    assert Where(before, after, StoppedResolving)
        == set k | k in before && k in after && k.1 == 2 && before[k] == "pass" && after[k] !in {"pass", "refused", "error"};
  }
}
