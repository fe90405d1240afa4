/** When the politeness delay really spaces what a host sees
    (crates/probe/src/fetch.rs): slots are spaced in every run, dials only while
    nobody has to wait for the global permit. */
module Cadence {
  import opened Common
  import opened PoliteFetch

  /** Time does not pass a task's slot while a global permit is free: the task
      wakes at its slot and takes the permit. */
  ghost predicate Prompt(s: System, a: Action)
  {
    a.Tick? && s.globalFree > 0 ==>
      forall t :: t in s.tasks && s.tasks[t].phase.Claimed? ==> s.now + a.elapsed <= s.tasks[t].phase.slot
  }

  ghost predicate Allowed(s: System, a: Action, hosts: set<string>)
  {
    Enabled(s, a) && Prompt(s, a) && (a.Spawn? ==> a.host in hosts)
  }

  /** A run in which every step is prompt and every fetch goes to one of these hosts. */
  ghost predicate PromptRun(s: System, actions: seq<Action>, r: System, lim: Limits, hosts: set<string>)
    decreases |actions|
  {
    if actions == [] then r == s
    else Allowed(s, actions[0], hosts) && PromptRun(Apply(s, actions[0], lim), actions[1..], r, lim, hosts)
  }

  ghost predicate Reaches(s: System, r: System, lim: Limits, hosts: set<string>)
  {
    exists actions :: PromptRun(s, actions, r, lim, hosts)
  }

  function Idle(lim: Limits): System { IDLE.(globalFree := lim.globalCap) }

  /** Any two dials of one host are at least `delay` apart. */
  ghost predicate DialsSpaced(tasks: map<nat, Task>, delay: nat)
  {
    forall t, u :: t in tasks && u in tasks && t != u && tasks[t].host == tasks[u].host
                   && tasks[t].phase.Dialled() && tasks[u].phase.Dialled() ==>
      Apart(tasks[t].phase.at, tasks[u].phase.at, delay)
  }

  ghost predicate AlwaysSpaced(lim: Limits, hosts: set<string>)
  {
    forall r :: Reaches(Idle(lim), r, lim, hosts) ==> DialsSpaced(r.tasks, lim.delay)
  }

  // ---- Enough permits ----------------------------------------------------------------

  /** Nobody is late: a task that has its slot has not passed it, and who dialled
      did so at its slot. */
  ghost predicate OnTime(s: System, hosts: set<string>)
  {
    && (forall t :: t in s.tasks ==> s.tasks[t].host in hosts)
    && (forall t :: t in s.tasks && s.tasks[t].phase.Claimed? ==> s.tasks[t].phase.slot >= s.now)
    && (forall t :: t in s.tasks && s.tasks[t].phase.Dialled() ==> s.tasks[t].phase.at == s.tasks[t].phase.slot)
  }

  function HoldersOf(tasks: map<nat, Task>, hosts: set<string>): set<nat>
  {
    set t | t in tasks && tasks[t].host in hosts && tasks[t].phase.HoldsPermit()
  }

  lemma {:induction false} HoldersBound(s: System, hosts: set<string>, lim: Limits)
    requires Inv(s, lim)
    ensures |HoldersOf(s.tasks, hosts)| <= PER_HOST_CAP * |hosts|
    decreases hosts
  {
    if hosts == {} {
      assert HoldersOf(s.tasks, hosts) == {};
    } else {
      var h :| h in hosts;
      HoldersBound(s, hosts - {h}, lim);
      HostHolders(s, h, lim);
      HoldersSplit(s.tasks, hosts, h);
      UnionBound(HoldersOf(s.tasks, hosts), Holders(s.tasks, h), HoldersOf(s.tasks, hosts - {h}));
    }
  }

  lemma HoldersSplit(tasks: map<nat, Task>, hosts: set<string>, h: string)
    ensures HoldersOf(tasks, hosts) <= Holders(tasks, h) + HoldersOf(tasks, hosts - {h})
  {
  }

  /** With two permits a host, a task that has its slot finds one free. */
  lemma PermitLeft(s: System, hosts: set<string>, lim: Limits, t: nat)
    requires Inv(s, lim) && OnTime(s, hosts) && lim.globalCap >= PER_HOST_CAP * |hosts|
    requires t in s.tasks && s.tasks[t].phase.Claimed?
    ensures s.globalFree > 0
  {
    HoldersBound(s, hosts, lim);
    FlyingHold(s, hosts, t);
    SubsetSize(Flying(s.tasks) + {t}, HoldersOf(s.tasks, hosts));
  }

  lemma FlyingHold(s: System, hosts: set<string>, t: nat)
    requires OnTime(s, hosts) && t in s.tasks && s.tasks[t].phase.Claimed?
    ensures Flying(s.tasks) + {t} <= HoldersOf(s.tasks, hosts)
    ensures |Flying(s.tasks) + {t}| == |Flying(s.tasks)| + 1
  {
  }

  lemma MoveOnTime(s: System, t: nat, p: Phase, lane: Lane, globalFree: nat, hosts: set<string>)
    requires OnTime(s, hosts) && t in s.tasks
    requires (p.Claimed? ==> p.slot >= s.now) && (p.Dialled() ==> p.at == p.slot)
    ensures OnTime(Moved(s, t, p, lane, globalFree), hosts)
  {
  }

  lemma StepOnTime(s: System, a: Action, hosts: set<string>, lim: Limits)
    requires Inv(s, lim) && OnTime(s, hosts) && lim.globalCap >= PER_HOST_CAP * |hosts|
    requires Allowed(s, a, hosts)
    ensures OnTime(Apply(s, a, lim), hosts)
  {
    match a
    case Tick(d) => if t :| t in s.tasks && s.tasks[t].phase.Claimed? { PermitLeft(s, hosts, lim, t); }
    case Spawn(_, _) =>
    case _ =>
      StepIsLawful(s, a, lim);
      NextPhaseOnTime(s, a, hosts, lim);
      var s' := Apply(s, a, lim);
      MoveOnTime(s, a.task, s'.tasks[a.task].phase, s'.lanes[s.tasks[a.task].host], s'.globalFree, hosts);
  }

  /** A claimed slot is not past, and a task that has not passed its slot dials at it. */
  lemma NextPhaseOnTime(s: System, a: Action, hosts: set<string>, lim: Limits)
    requires OnTime(s, hosts) && Enabled(s, a) && !a.Tick? && !a.Spawn?
    ensures var p := Apply(s, a, lim).tasks[a.task].phase;
            (p.Claimed? ==> p.slot >= s.now) && (p.Dialled() ==> p.at == p.slot)
  {
  }

  lemma {:induction false} RunOnTime(s: System, actions: seq<Action>, r: System, hosts: set<string>, lim: Limits)
    requires Inv(s, lim) && OnTime(s, hosts) && lim.globalCap >= PER_HOST_CAP * |hosts|
    requires PromptRun(s, actions, r, lim, hosts)
    ensures Inv(r, lim) && OnTime(r, hosts)
    decreases |actions|
  {
    if actions != [] {
      StepKeepsInv(s, actions[0], lim);
      StepOnTime(s, actions[0], hosts, lim);
      RunOnTime(Apply(s, actions[0], lim), actions[1..], r, hosts, lim);
    }
  }

  lemma OnTimeSpaced(s: System, hosts: set<string>, lim: Limits)
    requires Inv(s, lim) && OnTime(s, hosts)
    ensures DialsSpaced(s.tasks, lim.delay)
  {
    forall t, u | t in s.tasks && u in s.tasks && t != u && s.tasks[t].host == s.tasks[u].host
                  && s.tasks[t].phase.Dialled() && s.tasks[u].phase.Dialled()
      ensures Apart(s.tasks[t].phase.at, s.tasks[u].phase.at, lim.delay)
    {
      var h := s.tasks[t].host;
      assert HostOk(s.tasks, h, s.lanes[h], lim);
      assert HasSlotOn(s.tasks, t, h) && HasSlotOn(s.tasks, u, h);
    }
  }

  // ---- Too few permits ---------------------------------------------------------------

  lemma {:induction false} RunsJoin(s: System, a: seq<Action>, m: System, b: seq<Action>, r: System, lim: Limits, hosts: set<string>)
    requires PromptRun(s, a, m, lim, hosts) && PromptRun(m, b, r, lim, hosts)
    ensures PromptRun(s, a + b, r, lim, hosts)
    decreases |a|
  {
    if a == [] {
      assert a + b == b;
    } else {
      assert (a + b)[1..] == a[1..] + b;
      RunsJoin(Apply(s, a[0], lim), a[1..], m, b, r, lim, hosts);
    }
  }

  lemma ReachesTwice(s: System, m: System, r: System, lim: Limits, hosts: set<string>)
    requires Reaches(s, m, lim, hosts) && Reaches(m, r, lim, hosts)
    ensures Reaches(s, r, lim, hosts)
  {
    var a :| PromptRun(s, a, m, lim, hosts);
    var b :| PromptRun(m, b, r, lim, hosts);
    RunsJoin(s, a, m, b, r, lim, hosts);
  }

  lemma ReachesSelf(s: System, lim: Limits, hosts: set<string>)
    ensures Reaches(s, s, lim, hosts)
  {
    assert PromptRun(s, [], s, lim, hosts);
  }

  lemma OneMore(s: System, m: System, a: Action, lim: Limits, hosts: set<string>)
    requires Reaches(s, m, lim, hosts) && Allowed(m, a, hosts)
    ensures Reaches(s, Apply(m, a, lim), lim, hosts)
  {
    assert [a][1..] == [];
    assert PromptRun(m, [a], Apply(m, a, lim), lim, hosts);
    ReachesTwice(s, m, Apply(m, a, lim), lim, hosts);
  }

  predicate Free(s: System, h: string) { h in s.lanes ==> s.lanes[h].freePermits > 0 }

  /** A new task that has taken its host permit and its slot. */
  function Admitted(s: System, t: nat, h: string, lim: Limits): System
    requires Free(s, h)
  {
    var lane := if h in s.lanes then s.lanes[h] else Lane(PER_HOST_CAP, s.now);
    var slot := Slot(lane.nextStart, s.now);
    System(s.now, s.tasks[t := Task(h, Claimed(slot))], s.lanes[h := Lane(lane.freePermits - 1, slot + lim.delay)], s.globalFree)
  }

  lemma Admits(s: System, t: nat, h: string, lim: Limits, hosts: set<string>)
    requires t !in s.tasks && Free(s, h) && h in hosts
    ensures Reaches(s, Admitted(s, t, h, lim), lim, hosts)
  {
    ReachesSelf(s, lim, hosts);
    OneMore(s, s, Spawn(t, h), lim, hosts);
    var s1 := Apply(s, Spawn(t, h), lim);
    OneMore(s, s1, TakePermit(t), lim, hosts);
    var s2 := Apply(s1, TakePermit(t), lim);
    OneMore(s, s2, ClaimSlot(t), lim, hosts);
    var s3 := Apply(s2, ClaimSlot(t), lim);
    assert s3.tasks == Admitted(s, t, h, lim).tasks;
    assert s3.lanes == Admitted(s, t, h, lim).lanes;
  }

  /** All tasks are in flight, and their numbers are below n. */
  ghost predicate Quiet(s: System, n: nat)
  {
    forall t :: t in s.tasks ==> t < n && s.tasks[t].phase.InFlight?
  }

  /** A first fetch to a new host, up to its dial. */
  lemma PutFirst(s: System, n: nat, h: string, lim: Limits, hosts: set<string>) returns (r: System)
    requires Quiet(s, n) && h !in s.lanes && h in hosts && s.globalFree > 0
    ensures Reaches(s, r, lim, hosts) && Quiet(r, n + 1)
    ensures r.now == s.now && r.globalFree == s.globalFree - 1 && r.lanes == s.lanes[h := Lane(PER_HOST_CAP - 1, s.now + lim.delay)]
    ensures r.tasks == s.tasks[n := Task(h, InFlight(s.now, s.now))]
  {
    Admits(s, n, h, lim, hosts);
    var m := Admitted(s, n, h, lim);
    OneMore(s, m, Dial(n), lim, hosts);
    r := Apply(m, Dial(n), lim);
    assert r.lanes == s.lanes[h := Lane(PER_HOST_CAP - 1, s.now + lim.delay)];
  }

  /** A second one, a delay later. */
  lemma PutSecond(s: System, n: nat, h: string, lim: Limits, hosts: set<string>) returns (r: System)
    requires Quiet(s, n) && h in s.lanes && s.lanes[h] == Lane(1, s.now + lim.delay) && h in hosts && s.globalFree > 0
    ensures Reaches(s, r, lim, hosts) && Quiet(r, n + 1)
    ensures r.globalFree == s.globalFree - 1 && r.lanes.Keys == s.lanes.Keys
  {
    Admits(s, n, h, lim, hosts);
    var m := Admitted(s, n, h, lim);
    OneMore(s, m, Tick(lim.delay), lim, hosts);
    var w := Apply(m, Tick(lim.delay), lim);
    OneMore(s, w, Dial(n), lim, hosts);
    r := Apply(w, Dial(n), lim);
  }

  /** Hosts that answer slowly take k global permits and keep them. */
  lemma {:induction false} Fill(s: System, n: nat, k: nat, others: set<string>, lim: Limits, hosts: set<string>) returns (r: System, m: nat)
    requires Quiet(s, n) && others <= hosts && others !! s.lanes.Keys
    requires k <= PER_HOST_CAP * |others| && k <= s.globalFree
    ensures Reaches(s, r, lim, hosts) && Quiet(r, m) && r.globalFree == s.globalFree - k
    ensures r.lanes.Keys <= s.lanes.Keys + others
    decreases others
  {
    if k == 0 {
      ReachesSelf(s, lim, hosts);
      return s, n;
    }
    var h :| h in others;
    var one := PutFirst(s, n, h, lim, hosts);
    var rest := others - {h};
    if k == 1 {
      return one, n + 1;
    }
    var two := PutSecond(one, n + 1, h, lim, hosts);
    ReachesTwice(s, one, two, lim, hosts);
    r, m := Fill(two, n + 2, k - 2, rest, lim, hosts);
    ReachesTwice(s, two, r, lim, hosts);
  }

  /** Two different tasks have dialled this host in the same instant. */
  ghost predicate SameInstant(tasks: map<nat, Task>, t: nat, u: nat)
  {
    && t in tasks && u in tasks && t != u && tasks[t].host == tasks[u].host
    && tasks[t].phase.Dialled() && tasks[u].phase.Dialled() && tasks[t].phase.at == tasks[u].phase.at
  }

  /** With one permit left, a second task on h waits past its slot, and a third
      follows it as soon as that permit is free: both dial at one instant. */
  lemma Collide(s: System, n: nat, h: string, lim: Limits, hosts: set<string>) returns (r: System, t: nat, u: nat)
    requires Quiet(s, n) && h !in s.lanes && h in hosts && s.globalFree == 1
    ensures Reaches(s, r, lim, hosts) && SameInstant(r.tasks, t, u)
    ensures r.tasks[t].phase.at == r.tasks[t].phase.slot + lim.delay
  {
    var one := PutFirst(s, n, h, lim, hosts);
    Admits(one, n + 1, h, lim, hosts);
    var waiting := Admitted(one, n + 1, h, lim);
    ReachesTwice(s, one, waiting, lim, hosts);
    OneMore(s, waiting, Tick(2 * lim.delay), lim, hosts);
    var late := Apply(waiting, Tick(2 * lim.delay), lim);
    OneMore(s, late, Finish(n, None), lim, hosts);
    var freed := Apply(late, Finish(n, None), lim);
    r := BothDial(freed, n, h, lim, hosts);
    t, u := n + 1, n + 2;
    ReachesTwice(s, freed, r, lim, hosts);
  }

  lemma BothDial(s: System, n: nat, h: string, lim: Limits, hosts: set<string>) returns (r: System)
    requires h in s.lanes && s.lanes[h] == Lane(1, s.now) && h in hosts && s.globalFree == 1
    requires n + 1 in s.tasks && n + 2 !in s.tasks && s.tasks[n + 1].host == h
    requires s.tasks[n + 1].phase.Claimed? && s.tasks[n + 1].phase.slot <= s.now
    ensures Reaches(s, r, lim, hosts)
    ensures n + 1 in r.tasks && n + 2 in r.tasks && r.tasks[n + 1].host == r.tasks[n + 2].host == h
    ensures r.tasks[n + 1].phase.Dialled() && r.tasks[n + 2].phase.Dialled()
    ensures r.tasks[n + 1].phase.at == r.tasks[n + 2].phase.at == s.now && r.tasks[n + 1].phase.slot == s.tasks[n + 1].phase.slot
  {
    Admits(s, n + 2, h, lim, hosts);
    var third := Admitted(s, n + 2, h, lim);
    OneMore(s, third, Dial(n + 1), lim, hosts);
    var sent := Apply(third, Dial(n + 1), lim);
    OneMore(s, sent, Finish(n + 1, None), lim, hosts);
    var done := Apply(sent, Finish(n + 1, None), lim);
    OneMore(s, done, Dial(n + 2), lim, hosts);
    r := Apply(done, Dial(n + 2), lim);
  }

  /** With fewer permits a prompt run has two tasks dial one host in the same
      instant, the first of them past its slot. */
  lemma SendsBunch(lim: Limits, hosts: set<string>) returns (r: System, t: nat, u: nat)
    requires 0 < lim.globalCap < PER_HOST_CAP * |hosts|
    ensures Reaches(Idle(lim), r, lim, hosts) && SameInstant(r.tasks, t, u)
    ensures r.tasks[t].phase.at == r.tasks[t].phase.slot + lim.delay
  {
    var h :| h in hosts;
    var idle := Idle(lim);
    var s, n := Fill(idle, 0, lim.globalCap - 1, hosts - {h}, lim, hosts);
    r, t, u := Collide(s, n, h, lim, hosts);
    ReachesTwice(idle, s, r, lim, hosts);
  }

  /** At most one request starts per delay on every host, whatever happens, if and
      only if the global limit covers two permits for every host. */
  lemma SpacedIff(lim: Limits, hosts: set<string>)
    requires lim.delay > 0 && lim.globalCap > 0
    ensures AlwaysSpaced(lim, hosts) <==> lim.globalCap >= PER_HOST_CAP * |hosts|
  {
    if lim.globalCap >= PER_HOST_CAP * |hosts| {
      forall r | Reaches(Idle(lim), r, lim, hosts) ensures DialsSpaced(r.tasks, lim.delay) {
        var actions :| PromptRun(Idle(lim), actions, r, lim, hosts);
        IdleInv(lim);
        RunOnTime(Idle(lim), actions, r, hosts, lim);
        OnTimeSpaced(r, hosts, lim);
      }
    } else {
      var r, t, u := SendsBunch(lim, hosts);
      assert !Apart(r.tasks[t].phase.at, r.tasks[u].phase.at, lim.delay);
      assert !DialsSpaced(r.tasks, lim.delay);
    }
  }
}
