/** Skip propagation over the dependency forest of rungs
    (crates/checks/src/ladder.rs). */
module Ladder {
  import opened Common
  import opened Refusal
  import Order

  datatype Evidence = Own(data: string) | SkippedBecause(rung: nat, status: Status)

  datatype CheckResult = CheckResult(rung: nat, name: string, status: Status, evidence: Evidence)

  /** The one rung each rung directly depends on. */
  function DependsOn(rung: nat): (p: Option<nat>)
    ensures p.Some? ==> p.value < rung
  {
    match rung
    case 2 => Some(1)
    case 3 => Some(2)
    case 4 => Some(3)
    case 5 => Some(4)
    case 6 => Some(4)
    case 7 => Some(1)
    case _ => None
  }

  // ---- The recursive reading ------------------------------------------------------------

  type Stop = (nat, Status)

  /** Results by rung number. */
  type Rungs = map<nat, CheckResult>

  ghost predicate DistinctRungs(rs: seq<CheckResult>)
  {
    forall i, j :: 0 <= i < j < |rs| ==> rs[i].rung != rs[j].rung
  }

  /** m holds exactly the results of rs, each under its own rung. */
  ghost predicate Holds(m: Rungs, rs: seq<CheckResult>)
  {
    && (forall c :: c in rs ==> c.rung in m && m[c.rung] == c)
    && (forall k :: k in m ==> m[k] in rs && m[k].rung == k)
  }

  ghost function MapOf(rs: seq<CheckResult>): Rungs
  {
    if rs == [] then map[] else MapOf(rs[..|rs| - 1])[rs[|rs| - 1].rung := rs[|rs| - 1]]
  }

  lemma {:induction false} MapOfHolds(rs: seq<CheckResult>)
    requires DistinctRungs(rs)
    ensures Holds(MapOf(rs), rs)
  {
    if rs != [] {
      var n := |rs| - 1;
      MapOfHolds(rs[..n]);
      Cut(rs, n);
      forall c | c in rs[..n] ensures c.rung != rs[n].rung { var i :| 0 <= i < n && rs[i] == c; }
    }
  }

  /** What stops anything that depends on this rung: its present parent's
      stopper, else itself if it did not pass. */
  ghost function StopperOf(m: Rungs, rung: nat): Option<Stop>
    decreases rung
  {
    if rung !in m then None
    else if Inherited(m, rung).Some? then Inherited(m, rung)
    else if m[rung].status != Pass then Some((rung, m[rung].status))
    else None
  }

  ghost function Inherited(m: Rungs, rung: nat): Option<Stop>
    decreases rung, 0
  {
    match DependsOn(rung) case Some(p) => StopperOf(m, p) case None => None
  }

  /** A result, given what its parent passes on. */
  function Relabelled(c: CheckResult, inherited: Option<Stop>): CheckResult
  {
    match inherited
    case Some((stop, status)) => c.(status := Skipped, evidence := SkippedBecause(stop, status))
    case None => c
  }

  /** The whole ladder: every rung relabelled by what it inherits. */
  ghost function Judged(m: Rungs): Rungs
  {
    map k | k in m :: Relabelled(m[k], Inherited(m, k))
  }

  ghost predicate AscendingRungs(rs: seq<CheckResult>)
  {
    forall i, j :: 0 <= i < j < |rs| ==> rs[i].rung < rs[j].rung
  }

  /** out lists the judged rungs in order. */
  ghost predicate IsLadder(m: Rungs, out: seq<CheckResult>)
  {
    AscendingRungs(out) && Holds(Judged(m), out)
  }

  // ---- The loop ------------------------------------------------------------------------------

  /** `sort_by_key`, which is stable. */
  function SortedByRung(rs: seq<CheckResult>): seq<CheckResult>
  {
    if rs == [] then [] else Placed(SortedByRung(rs[..|rs| - 1]), rs[|rs| - 1])
  }

  function Placed(sorted: seq<CheckResult>, c: CheckResult): seq<CheckResult>
  {
    if sorted == [] || sorted[|sorted| - 1].rung <= c.rung then sorted + [c]
    else Placed(sorted[..|sorted| - 1], c) + [sorted[|sorted| - 1]]
  }

  lemma {:induction false} PlacedMembers(sorted: seq<CheckResult>, c: CheckResult)
    ensures |Placed(sorted, c)| == |sorted| + 1
    ensures forall x :: x in Placed(sorted, c) <==> x in sorted || x == c
  {
    if sorted != [] && sorted[|sorted| - 1].rung > c.rung {
      PlacedMembers(sorted[..|sorted| - 1], c);
      Cut(sorted, |sorted| - 1);
    }
  }

  lemma {:induction false} PlacedAscends(sorted: seq<CheckResult>, c: CheckResult)
    requires AscendingRungs(sorted) && forall x :: x in sorted ==> x.rung != c.rung
    ensures AscendingRungs(Placed(sorted, c))
  {
    if sorted != [] {
      var n := |sorted| - 1;
      var init := sorted[..n];
      assert sorted[n] in sorted;
      if sorted[n].rung > c.rung {
        PlacedAscends(init, c);
        PlacedMembers(init, c);
        forall x | x in init ensures x.rung < sorted[n].rung { var i :| 0 <= i < |init| && init[i] == x; }
      }
    }
  }

  /** Sorting distinct rungs gives them in strictly ascending order. */
  lemma {:induction false} SortedAscends(rs: seq<CheckResult>)
    requires DistinctRungs(rs)
    ensures AscendingRungs(SortedByRung(rs)) && |SortedByRung(rs)| == |rs|
    ensures forall x :: x in SortedByRung(rs) <==> x in rs
  {
    if rs != [] {
      var n := |rs| - 1;
      SortedAscends(rs[..n]);
      forall x | x in rs[..n] ensures x.rung != rs[n].rung { var i :| 0 <= i < n && rs[i] == x; }
      PlacedAscends(SortedByRung(rs[..n]), rs[n]);
      PlacedMembers(SortedByRung(rs[..n]), rs[n]);
      Cut(rs, n);
    }
  }

  /** Apply skip propagation, in place, from the lowest rung up. */
  method RunLadder(rs: seq<CheckResult>) returns (rungs: seq<CheckResult>)
    ensures DistinctRungs(rs) ==> IsLadder(MapOf(rs), rungs)
  {
    rungs := SortedByRung(rs);
    ghost var m, sorted, distinct := MapOf(rs), rungs, DistinctRungs(rs);
    if distinct {
      SortedAscends(rs);
      MapOfHolds(rs);
    }
    var stopperByRung: map<nat, Stop> := map[];
    for i := 0 to |rungs|
      invariant |rungs| == |sorted| && forall j :: i <= j < |rungs| ==> rungs[j] == sorted[j]
      invariant distinct ==> LadderUpTo(m, sorted, rungs, stopperByRung, i)
    {
      ghost var before, known := rungs, stopperByRung;
      var r := rungs[i];
      var parent := DependsOn(r.rung);
      var inherited := if parent.Some? && parent.value in stopperByRung then Some(stopperByRung[parent.value]) else None;
      if inherited.Some? {
        rungs := rungs[i := Relabelled(r, inherited)];
        stopperByRung := stopperByRung[r.rung := inherited.value];
      } else if r.status != Pass {
        stopperByRung := stopperByRung[r.rung := (r.rung, r.status)];
      }
      if distinct {
        StepInherits(m, sorted, before, known, i);
        StepKeeps(m, sorted, before, known, i, rungs, stopperByRung);
      }
    }
    if distinct { LadderDone(m, sorted, rungs, stopperByRung); }
  }

  /** After i rungs: those are judged, and the map holds their stoppers. */
  ghost predicate LadderUpTo(m: Rungs, sorted: seq<CheckResult>, rungs: seq<CheckResult>, stoppers: map<nat, Stop>, i: nat)
  {
    && AscendingRungs(sorted) && Holds(m, sorted) && |rungs| == |sorted| && i <= |sorted|
    && (forall j :: 0 <= j < i ==> rungs[j] == Relabelled(sorted[j], Inherited(m, sorted[j].rung)))
    && (forall k :: k in stoppers ==> StopperOf(m, k) == Some(stoppers[k]))
    && (forall j :: 0 <= j < i && StopperOf(m, sorted[j].rung).Some? ==> sorted[j].rung in stoppers)
  }

  /** The parent's entry in the map is what the recursive reading inherits. */
  lemma StepInherits(m: Rungs, sorted: seq<CheckResult>, rungs: seq<CheckResult>, stoppers: map<nat, Stop>, i: nat)
    requires i < |sorted| && LadderUpTo(m, sorted, rungs, stoppers, i)
    ensures var r := sorted[i];
      && r.rung in m && m[r.rung] == r
      && Inherited(m, r.rung) == match DependsOn(r.rung)
           case Some(p) => if p in stoppers then Some(stoppers[p]) else None
           case None => None
  {
    var r := sorted[i];
    assert r in sorted;
    match DependsOn(r.rung)
    case None =>
    case Some(p) =>
      if StopperOf(m, p).Some? {
        assert m[p] in sorted;
        var j :| 0 <= j < |sorted| && sorted[j] == m[p];
        if i <= j { assert sorted[i].rung <= sorted[j].rung; }
      }
  }

  lemma StepKeeps(m: Rungs, sorted: seq<CheckResult>, rungs: seq<CheckResult>, stoppers: map<nat, Stop>, i: nat,
                  rungs': seq<CheckResult>, stoppers': map<nat, Stop>)
    requires i < |sorted| && LadderUpTo(m, sorted, rungs, stoppers, i) && rungs[i] == sorted[i]
    requires sorted[i].rung in m && m[sorted[i].rung] == sorted[i]
    requires var r := sorted[i];
      && rungs' == rungs[i := Relabelled(r, Inherited(m, r.rung))]
      && stoppers' == match StopperOf(m, r.rung) case Some(s) => stoppers[r.rung := s] case None => stoppers
    ensures LadderUpTo(m, sorted, rungs', stoppers', i + 1)
  {
  }

  lemma LadderDone(m: Rungs, sorted: seq<CheckResult>, rungs: seq<CheckResult>, stoppers: map<nat, Stop>)
    requires LadderUpTo(m, sorted, rungs, stoppers, |sorted|)
    ensures IsLadder(m, rungs)
  {
    forall i | 0 <= i < |rungs| ensures rungs[i].rung == sorted[i].rung && rungs[i].rung in m && rungs[i] == Judged(m)[rungs[i].rung] {
      assert sorted[i] in sorted;
    }
    forall k | k in m ensures Judged(m)[k] in rungs {
      assert m[k] in sorted;
      var i :| 0 <= i < |sorted| && sorted[i] == m[k];
      assert rungs[i] == Judged(m)[k];
    }
  }

  // ---- What a ladder guarantees --------------------------------------------------------------

  /** A named stopper is a present rung that really did not pass, with the
      status it had, and nothing further up its own track stops it. */
  lemma {:induction false} StopperIsRoot(m: Rungs, rung: nat)
    requires StopperOf(m, rung).Some?
    ensures var (stop, status) := StopperOf(m, rung).value;
      stop <= rung && stop in m && m[stop].status == status && status != Pass && Inherited(m, stop) == None
    decreases rung
  {
    if Inherited(m, rung).Some? { StopperIsRoot(m, DependsOn(rung).value); }
  }

  /** The order the results came in does not matter. */
  lemma OrderIrrelevant(a: seq<CheckResult>, b: seq<CheckResult>)
    requires DistinctRungs(a) && DistinctRungs(b) && forall c :: c in a <==> c in b
    ensures MapOf(a) == MapOf(b)
  {
    MapOfHolds(a);
    MapOfHolds(b);
    forall k ensures k in MapOf(a) <==> k in MapOf(b)
      ensures k in MapOf(a) ==> MapOf(a)[k] == MapOf(b)[k]
    {
      if k in MapOf(a) { assert MapOf(a)[k] in b; }
      if k in MapOf(b) { assert MapOf(b)[k] in a; }
    }
  }

  /** The results alone determine the ladder. */
  lemma LadderUnique(m: Rungs, x: seq<CheckResult>, y: seq<CheckResult>)
    requires IsLadder(m, x) && IsLadder(m, y)
    ensures x == y
  {
    SameHeld(Judged(m), x, y);
  }

  predicate Below(a: nat, b: nat) { a < b }

  function Numbers(x: seq<CheckResult>): (r: seq<nat>)
    ensures |r| == |x| && forall i :: 0 <= i < |x| ==> r[i] == x[i].rung
  {
    seq(|x|, i requires 0 <= i < |x| => x[i].rung)
  }

  lemma NumbersHeld(m: Rungs, x: seq<CheckResult>, k: nat)
    requires Holds(m, x)
    ensures k in Numbers(x) <==> k in m
  {
    if k in Numbers(x) { var i :| 0 <= i < |x| && Numbers(x)[i] == k; assert x[i] in x; }
    if k in m { var i :| 0 <= i < |x| && x[i] == m[k]; assert Numbers(x)[i] == k; }
  }

  lemma SameHeld(m: Rungs, x: seq<CheckResult>, y: seq<CheckResult>)
    requires AscendingRungs(x) && AscendingRungs(y) && Holds(m, x) && Holds(m, y)
    ensures x == y
  {
    forall k ensures k in Numbers(x) <==> k in Numbers(y) {
      NumbersHeld(m, x, k);
      NumbersHeld(m, y, k);
    }
    Order.AscendingUnique(Numbers(x), Numbers(y), Below);
    forall i | 0 <= i < |x| ensures x[i] == y[i] {
      assert x[i] in x && y[i] in y && Numbers(x)[i] == Numbers(y)[i];
    }
  }

  lemma {:induction false} SameStoppers(m: Rungs, rung: nat)
    ensures StopperOf(Judged(m), rung) == StopperOf(m, rung)
    decreases rung
  {
    if DependsOn(rung).Some? { SameStoppers(m, DependsOn(rung).value); }
  }

  /** Judging again changes nothing. */
  lemma LadderIdempotent(m: Rungs)
    ensures Judged(Judged(m)) == Judged(m)
  {
    forall k | k in m ensures Inherited(Judged(m), k) == Inherited(m, k) {
      if DependsOn(k).Some? { SameStoppers(m, DependsOn(k).value); }
    }
  }

  /** Running the ladder on its own output gives that output back. */
  lemma LadderTwice(rs: seq<CheckResult>, x: seq<CheckResult>, y: seq<CheckResult>)
    requires DistinctRungs(rs) && IsLadder(MapOf(rs), x)
    requires DistinctRungs(x) ==> IsLadder(MapOf(x), y)
    ensures DistinctRungs(x) && y == x
  {
    var m := MapOf(rs);
    MapOfHolds(x);
    assert MapOf(x) == Judged(m) by { SameMapHeld(MapOf(x), Judged(m), x); }
    LadderIdempotent(m);
    LadderUnique(m, x, y);
  }

  lemma SameMapHeld(m: Rungs, n: Rungs, x: seq<CheckResult>)
    requires Holds(m, x) && Holds(n, x)
    ensures m == n
  {
    forall k | k in m ensures k in n && m[k] == n[k] {
      var i :| 0 <= i < |x| && x[i] == m[k];
    }
    forall k | k in n ensures k in m {
      var i :| 0 <= i < |x| && x[i] == n[k];
    }
  }

  /** Nothing but a skip is ever introduced, exactly under a stopped parent, and
      it names the rung that stopped it and that rung's own status. */
  lemma OnlySkipsAdded(m: Rungs, k: nat)
    requires k in m
    ensures Judged(m).Keys == m.Keys
    ensures if Inherited(m, k).None? then Judged(m)[k] == m[k] else
      && Judged(m)[k].status == Skipped && Judged(m)[k].evidence.SkippedBecause?
      && var e := Judged(m)[k].evidence;
         e.rung < k && e.rung in m && m[e.rung].status == e.status && e.status != Pass && Inherited(m, e.rung) == None
  {
    if Inherited(m, k).Some? { StopperIsRoot(m, DependsOn(k).value); }
  }

  /** Reputation depends on existence alone: rung 7's result is settled by
      rungs 1 and 7, whatever the document track did. */
  lemma RungSevenIndependent(m: Rungs, n: Rungs)
    requires forall k :: k == 1 || k == 7 ==> (k in m <==> k in n) && (k in m ==> m[k] == n[k])
    ensures 7 in Judged(m) <==> 7 in Judged(n)
    ensures 7 in Judged(m) ==> Judged(m)[7] == Judged(n)[7]
  {
    assert StopperOf(m, 1) == StopperOf(n, 1);
  }

  // ---- The tracks, rung by rung --------------------------------------------------------------

  /** The rung right below k on its own track, for the rungs that have one. */
  predicate RightBelow(k: nat, n: nat)
  {
    (2 <= k <= 5 && n == k - 1) || (k == 6 && n == 4) || (k == 7 && n == 1)
  }

  /** Every rung from j up to n has a result. */
  ghost predicate AllPresent(m: Rungs, j: nat, n: nat)
  {
    forall i: nat :: j <= i <= n ==> i in m
  }

  /** Rung j did not pass, nothing is missing between it and n, and it is the
      lowest such rung. */
  ghost predicate Stops(m: Rungs, j: nat, n: nat)
  {
    && 1 <= j <= n && AllPresent(m, j, n) && m[j].status != Pass
    && forall i: nat :: 1 <= i < j && AllPresent(m, i, n) ==> m[i].status == Pass
  }

  /** From n down to the first missing rung, all passed. */
  ghost predicate AllPassed(m: Rungs, n: nat)
  {
    forall i: nat :: 1 <= i <= n && AllPresent(m, i, n) ==> m[i].status == Pass
  }

  lemma {:induction false} LowestStops(m: Rungs, n: nat)
    requires 1 <= n <= 5
    ensures StopperOf(m, n).Some? ==> Stops(m, StopperOf(m, n).value.0, n) && m[StopperOf(m, n).value.0].status == StopperOf(m, n).value.1
    ensures StopperOf(m, n).None? ==> AllPassed(m, n)
  {
    if n > 1 { LowestStops(m, n - 1); }
    forall i: nat | 1 <= i <= n && AllPresent(m, i, n) ensures n in m && (i < n ==> AllPresent(m, i, n - 1)) {
      assert n in m;
    }
    if n in m && n > 1 && StopperOf(m, n - 1).Some? {
      var j := StopperOf(m, n - 1).value.0;
      assert AllPresent(m, j, n);
    }
  }

  /** The whole propagation, in rung numbers alone. A rung is skipped exactly if a
      rung below it on its own track did not pass, with nothing missing in between,
      and names the lowest such rung; it keeps its own result otherwise. Rung 5 does
      not stop rung 6, and only rung 1 stops rung 7. */
  lemma TrackSkips(m: Rungs, k: nat, n: nat)
    requires k in m && RightBelow(k, n)
    ensures forall j: nat :: Stops(m, j, n) ==> Judged(m)[k] == m[k].(status := Skipped, evidence := SkippedBecause(j, m[j].status))
    ensures AllPassed(m, n) ==> Judged(m)[k] == m[k]
    ensures AllPassed(m, n) <==> !exists j: nat :: Stops(m, j, n)
  {
    LowestStops(m, n);
    assert Inherited(m, k) == StopperOf(m, n);
  }

  /** Rung 1 and rungs nobody knows are never skipped. */
  lemma TrackRoots(m: Rungs, k: nat)
    requires k in m && !(2 <= k <= 7)
    ensures Judged(m)[k] == m[k]
  {
  }

  /** The rungs that can decide rung k: its own and those below it on its track. */
  function TrackOf(k: nat): set<nat>
  {
    match k
    case 2 => {1, 2}
    case 3 => {1, 2, 3}
    case 4 => {1, 2, 3, 4}
    case 5 => {1, 2, 3, 4, 5}
    case 6 => {1, 2, 3, 4, 6}
    case 7 => {1, 7}
    case _ => {k}
  }

  /** No other rung's result matters to it. */
  lemma TrackDecides(m: Rungs, n: Rungs, k: nat)
    requires forall j :: j in TrackOf(k) ==> (j in m <==> j in n) && (j in m ==> m[j] == n[j])
    ensures k in Judged(m) <==> k in Judged(n)
    ensures k in Judged(m) ==> Judged(m)[k] == Judged(n)[k]
  {
    assert StopperOf(m, 1) == StopperOf(n, 1) || 1 !in TrackOf(k);
    assert StopperOf(m, 2) == StopperOf(n, 2) || 2 !in TrackOf(k);
    assert StopperOf(m, 3) == StopperOf(n, 3) || 3 !in TrackOf(k);
    assert StopperOf(m, 4) == StopperOf(n, 4) || 4 !in TrackOf(k);
  }
}
