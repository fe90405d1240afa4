/** The politeness protocol of the prober (crates/probe/src/fetch.rs): per-host
    permits, reserved start slots, Retry-After back-off and a global limit, as
    the interleaved steps of any number of fetch tasks. Times are milliseconds. */
module PoliteFetch {
  import opened Common

  const PER_HOST_CAP: nat := 2
  const MAX_HONOURED_RETRY_AFTER: nat := 120_000

  /** The start slot a claim made at `now` receives. */
  function Slot(nextStart: nat, now: nat): nat { Max(nextStart, now) }

  /** The earliest next start once an origin has asked for `secs` at `now`. */
  function BackedOff(nextStart: nat, now: nat, secs: nat): nat
  {
    Max(nextStart, now + Min(secs * 1000, MAX_HONOURED_RETRY_AFTER))
  }

  /** One host's cadence, shared by every task that talks to it. */
  class HostLane {
    var nextStart: nat

    constructor (now: nat)
      ensures nextStart == now
    {
      nextStart := now;
    }

    /** Reserve the next start and say how long to wait for it. */
    method ClaimNextStart(now: nat, delay: nat) returns (wait: nat)
      modifies this
      ensures now + wait == Slot(old(nextStart), now)
      ensures nextStart == Slot(old(nextStart), now) + delay
    {
      var startAt := Max(nextStart, now);
      nextStart := startAt + delay;
      wait := startAt - now;
    }

    /** Push the next start out, never shortening a wait already claimed. */
    method BackOff(now: nat, secs: nat)
      modifies this
      ensures nextStart == BackedOff(old(nextStart), now, secs)
    {
      var until := now + Min(secs * 1000, MAX_HONOURED_RETRY_AFTER);
      if until > nextStart { nextStart := until; }
    }
  }

  // ---- The protocol ----------------------------------------------------------

  /** Where a task stands in guarded_send: waiting for the host permit, holding
      it, holding a slot as well, sending (with the global permit, dialled at a
      certain time), finished. */
  datatype Phase = Queued | Permitted | Claimed(slot: nat) | InFlight(slot: nat, at: nat) | Done(slot: nat, at: nat)
  {
    predicate HoldsPermit() { Permitted? || Claimed? || InFlight? }
    predicate HasSlot() { Claimed? || InFlight? || Done? }
    predicate Dialled() { InFlight? || Done? }
    function StepsLeft(): nat
    {
      match this
      case Queued => 4
      case Permitted => 3
      case Claimed(_) => 2
      case InFlight(_, _) => 1
      case Done(_, _) => 0
    }
  }

  datatype Task = Task(host: string, phase: Phase)

  datatype Lane = Lane(freePermits: nat, nextStart: nat)

  datatype Limits = Limits(delay: nat, globalCap: nat)

  datatype System = System(now: nat, tasks: map<nat, Task>, lanes: map<string, Lane>, globalFree: nat)

  datatype Action =
    | Tick(elapsed: nat)
    | Spawn(task: nat, host: string)
    | TakePermit(task: nat)
    | ClaimSlot(task: nat)
    | Dial(task: nat)
    | Finish(task: nat, retryAfter: Option<nat>)

  predicate Present(s: System, t: nat)
  {
    t in s.tasks && s.tasks[t].host in s.lanes
  }

  /** May this step happen now? */
  predicate Enabled(s: System, a: Action)
  {
    match a
    case Tick(_) => true
    case Spawn(t, _) => t !in s.tasks
    case TakePermit(t) => Present(s, t) && s.tasks[t].phase.Queued? && s.lanes[s.tasks[t].host].freePermits > 0
    case ClaimSlot(t) => Present(s, t) && s.tasks[t].phase.Permitted?
    case Dial(t) => Present(s, t) && s.tasks[t].phase.Claimed? && s.tasks[t].phase.slot <= s.now && s.globalFree > 0
    case Finish(t, _) => Present(s, t) && s.tasks[t].phase.InFlight?
  }

  /** One task moves on: its phase, its host's lane and the global count. */
  function Moved(s: System, t: nat, p: Phase, lane: Lane, globalFree: nat): System
    requires t in s.tasks
  {
    System(s.now, s.tasks[t := s.tasks[t].(phase := p)], s.lanes[s.tasks[t].host := lane], globalFree)
  }

  /** A new fetch; the first one for a host creates the host's lane. */
  function Spawned(s: System, t: nat, h: string): System
  {
    s.(tasks := s.tasks[t := Task(h, Queued)],
       lanes := if h in s.lanes then s.lanes else s.lanes[h := Lane(PER_HOST_CAP, s.now)])
  }

  function Apply(s: System, a: Action, lim: Limits): System
    requires Enabled(s, a)
  {
    match a
    case Tick(d) => s.(now := s.now + d)
    case Spawn(t, h) => Spawned(s, t, h)
    case TakePermit(t) =>
      var lane := s.lanes[s.tasks[t].host];
      Moved(s, t, Permitted, lane.(freePermits := lane.freePermits - 1), s.globalFree)
    case ClaimSlot(t) =>
      var lane := s.lanes[s.tasks[t].host];
      var slot := Slot(lane.nextStart, s.now);
      Moved(s, t, Claimed(slot), lane.(nextStart := slot + lim.delay), s.globalFree)
    case Dial(t) =>
      Moved(s, t, InFlight(s.tasks[t].phase.slot, s.now), s.lanes[s.tasks[t].host], s.globalFree - 1)
    case Finish(t, retryAfter) =>
      var lane := s.lanes[s.tasks[t].host];
      var next := if retryAfter.Some? then BackedOff(lane.nextStart, s.now, retryAfter.value) else lane.nextStart;
      Moved(s, t, Done(s.tasks[t].phase.slot, s.tasks[t].phase.at), Lane(lane.freePermits + 1, next), s.globalFree + 1)
  }

  // ---- What every interleaving keeps --------------------------------------------

  function Holders(tasks: map<nat, Task>, h: string): set<nat>
  {
    set t | t in tasks && tasks[t].host == h && tasks[t].phase.HoldsPermit()
  }

  function Flying(tasks: map<nat, Task>): set<nat>
  {
    set t | t in tasks && tasks[t].phase.InFlight?
  }

  /** Task t has been given a slot on host h. */
  predicate HasSlotOn(tasks: map<nat, Task>, t: nat, h: string)
  {
    t in tasks && tasks[t].host == h && tasks[t].phase.HasSlot()
  }

  predicate Apart(a: nat, b: nat, delay: nat) { a + delay <= b || b + delay <= a }

  /** The slots of one host are at least `delay` apart, and the next one
      granted will be too. */
  ghost predicate Spaced(tasks: map<nat, Task>, h: string, nextStart: nat, delay: nat)
  {
    && (forall t :: HasSlotOn(tasks, t, h) ==> tasks[t].phase.slot + delay <= nextStart)
    && (forall t, u :: HasSlotOn(tasks, t, h) && HasSlotOn(tasks, u, h) && t != u ==>
          Apart(tasks[t].phase.slot, tasks[u].phase.slot, delay))
  }

  /** The permit count is the capacity less the holders, and slots are spaced. */
  ghost predicate HostOk(tasks: map<nat, Task>, h: string, lane: Lane, lim: Limits)
  {
    && lane.freePermits + |Holders(tasks, h)| == PER_HOST_CAP
    && Spaced(tasks, h, lane.nextStart, lim.delay)
  }

  ghost predicate HostsOk(tasks: map<nat, Task>, lanes: map<string, Lane>, lim: Limits)
  {
    forall h :: h in lanes ==> HostOk(tasks, h, lanes[h], lim)
  }

  /** Every task has a lane, and none has dialled before its slot. */
  ghost predicate TasksOk(s: System)
  {
    && (forall t :: t in s.tasks ==> s.tasks[t].host in s.lanes)
    && (forall t :: t in s.tasks && s.tasks[t].phase.Dialled() ==> s.tasks[t].phase.slot <= s.tasks[t].phase.at <= s.now)
  }

  ghost predicate Inv(s: System, lim: Limits)
  {
    && TasksOk(s)
    && HostsOk(s.tasks, s.lanes, lim)
    && s.globalFree + |Flying(s.tasks)| == lim.globalCap
  }

  /** How one task's phase change shows in the sets. */
  lemma SetsAfter(tasks: map<nat, Task>, t: nat, p: Phase, h: string)
    requires t in tasks
    ensures var tasks' := tasks[t := tasks[t].(phase := p)];
      && Holders(tasks', h) == (if tasks[t].host == h && p.HoldsPermit() then Holders(tasks, h) + {t} else Holders(tasks, h) - {t})
      && Flying(tasks') == (if p.InFlight? then Flying(tasks) + {t} else Flying(tasks) - {t})
  {
  }

  /** A task's move leaves every other host alone. */
  lemma OtherHostKeeps(tasks: map<nat, Task>, t: nat, p: Phase, h: string, lane: Lane, lim: Limits)
    requires t in tasks && tasks[t].host != h && HostOk(tasks, h, lane, lim)
    ensures HostOk(tasks[t := tasks[t].(phase := p)], h, lane, lim)
  {
    SetsAfter(tasks, t, p, h);
    var tasks' := tasks[t := tasks[t].(phase := p)];
    assert Holders(tasks', h) == Holders(tasks, h);
    assert forall u :: HasSlotOn(tasks', u, h) ==> HasSlotOn(tasks, u, h) && tasks'[u] == tasks[u];
  }

  /** What a move must respect to keep its own host in order: permits are
      accounted for, the cadence never moves back, a slot once given stays, and
      a new slot is the lane's next. */
  ghost predicate LawfulMove(s: System, t: nat, p: Phase, lane: Lane, lim: Limits)
    requires Present(s, t)
  {
    var q, before := s.tasks[t].phase, s.lanes[s.tasks[t].host];
    && lane.freePermits + (if p.HoldsPermit() then 1 else 0) == before.freePermits + (if q.HoldsPermit() then 1 else 0)
    && lane.nextStart >= before.nextStart
    && (q.HasSlot() ==> p.HasSlot() && p.slot == q.slot)
    && (!q.HasSlot() && p.HasSlot() ==> p.slot >= Max(before.nextStart, s.now) && p.slot + lim.delay <= lane.nextStart)
  }

  lemma PermitsKept(s: System, t: nat, p: Phase, lane: Lane, lim: Limits)
    requires Present(s, t) && LawfulMove(s, t, p, lane, lim)
    ensures var h := s.tasks[t].host;
      lane.freePermits + |Holders(s.tasks[t := s.tasks[t].(phase := p)], h)|
        == s.lanes[h].freePermits + |Holders(s.tasks, h)|
  {
    var h := s.tasks[t].host;
    SetsAfter(s.tasks, t, p, h);
    MemberToggled(Holders(s.tasks, h), t, p.HoldsPermit());
    assert t in Holders(s.tasks, h) <==> s.tasks[t].phase.HoldsPermit();
  }

  /** Putting t in a set, or taking it out, counts as it should. */
  lemma MemberToggled(members: set<nat>, t: nat, stays: bool)
    ensures |if stays then members + {t} else members - {t}| + (if t in members then 1 else 0)
         == |members| + (if stays then 1 else 0)
  {
    if t in members { assert members + {t} == members; } else { assert members - {t} == members; }
  }

  lemma SpacingKept(s: System, t: nat, p: Phase, lane: Lane, lim: Limits)
    requires Present(s, t) && LawfulMove(s, t, p, lane, lim)
    requires Spaced(s.tasks, s.tasks[t].host, s.lanes[s.tasks[t].host].nextStart, lim.delay)
    ensures Spaced(s.tasks[t := s.tasks[t].(phase := p)], s.tasks[t].host, lane.nextStart, lim.delay)
  {
    var h, tasks' := s.tasks[t].host, s.tasks[t := s.tasks[t].(phase := p)];
    forall u, v | HasSlotOn(tasks', u, h) && HasSlotOn(tasks', v, h) && u != v
      ensures Apart(tasks'[u].phase.slot, tasks'[v].phase.slot, lim.delay)
    {
      assert u != t ==> HasSlotOn(s.tasks, u, h);
      assert v != t ==> HasSlotOn(s.tasks, v, h);
      assert s.tasks[t].phase.HasSlot() ==> HasSlotOn(s.tasks, t, h);
    }
    forall u | HasSlotOn(tasks', u, h) ensures tasks'[u].phase.slot + lim.delay <= lane.nextStart {
      assert u != t || s.tasks[t].phase.HasSlot() ==> HasSlotOn(s.tasks, u, h);
    }
  }

  /** Any lawful move keeps every host in order. */
  lemma HostKeeps(s: System, t: nat, p: Phase, lane: Lane, lim: Limits, h: string)
    requires Present(s, t) && LawfulMove(s, t, p, lane, lim)
    requires h in s.lanes && HostOk(s.tasks, h, s.lanes[h], lim)
    ensures HostOk(s.tasks[t := s.tasks[t].(phase := p)], h, s.lanes[s.tasks[t].host := lane][h], lim)
  {
    if h == s.tasks[t].host {
      PermitsKept(s, t, p, lane, lim);
      SpacingKept(s, t, p, lane, lim);
    } else {
      OtherHostKeeps(s.tasks, t, p, h, s.lanes[h], lim);
    }
  }

  lemma HostsKeep(s: System, t: nat, p: Phase, lane: Lane, lim: Limits)
    requires Present(s, t) && LawfulMove(s, t, p, lane, lim) && HostsOk(s.tasks, s.lanes, lim)
    ensures HostsOk(s.tasks[t := s.tasks[t].(phase := p)], s.lanes[s.tasks[t].host := lane], lim)
  {
    forall h | h in s.lanes
      ensures HostOk(s.tasks[t := s.tasks[t].(phase := p)], h, s.lanes[s.tasks[t].host := lane][h], lim)
    {
      HostKeeps(s, t, p, lane, lim, h);
    }
  }

  lemma FlyingKept(s: System, t: nat, p: Phase)
    requires t in s.tasks
    ensures |Flying(s.tasks[t := s.tasks[t].(phase := p)])| + (if s.tasks[t].phase.InFlight? then 1 else 0)
         == |Flying(s.tasks)| + (if p.InFlight? then 1 else 0)
  {
    SetsAfter(s.tasks, t, p, s.tasks[t].host);
    MemberToggled(Flying(s.tasks), t, p.InFlight?);
    assert t in Flying(s.tasks) <==> s.tasks[t].phase.InFlight?;
  }

  /** Any lawful move keeps the invariant. */
  lemma MoveKeeps(s: System, t: nat, p: Phase, lane: Lane, globalFree: nat, lim: Limits)
    requires Inv(s, lim) && Present(s, t) && LawfulMove(s, t, p, lane, lim)
    requires globalFree + (if p.InFlight? then 1 else 0) == s.globalFree + (if s.tasks[t].phase.InFlight? then 1 else 0)
    requires p.Dialled() ==> p.slot <= p.at <= s.now
    ensures Inv(Moved(s, t, p, lane, globalFree), lim)
  {
    HostsKeep(s, t, p, lane, lim);
    FlyingKept(s, t, p);
  }

  /** Every step a task takes is a lawful move of that task. */
  lemma StepIsLawful(s: System, a: Action, lim: Limits)
    requires Enabled(s, a) && !a.Tick? && !a.Spawn?
    ensures Present(s, a.task)
    ensures var s', h := Apply(s, a, lim), s.tasks[a.task].host;
      && s' == Moved(s, a.task, s'.tasks[a.task].phase, s'.lanes[h], s'.globalFree)
      && LawfulMove(s, a.task, s'.tasks[a.task].phase, s'.lanes[h], lim)
      && s'.tasks[a.task].phase.StepsLeft() == s.tasks[a.task].phase.StepsLeft() - 1
  {
  }

  lemma SpawnHostKeeps(tasks: map<nat, Task>, t: nat, h: string, lane: Lane, lim: Limits, g: string)
    requires t !in tasks && HostOk(tasks, g, lane, lim)
    ensures HostOk(tasks[t := Task(h, Queued)], g, lane, lim)
  {
    var tasks' := tasks[t := Task(h, Queued)];
    assert Holders(tasks', g) == Holders(tasks, g);
    assert forall u :: HasSlotOn(tasks', u, g) ==> HasSlotOn(tasks, u, g) && tasks'[u] == tasks[u];
  }

  lemma FreshHostOk(tasks: map<nat, Task>, h: string, now: nat, lim: Limits)
    requires forall t :: t in tasks ==> tasks[t].host != h
    ensures HostOk(tasks, h, Lane(PER_HOST_CAP, now), lim)
  {
    assert Holders(tasks, h) == {};
  }

  lemma SpawnHostsKeep(s: System, t: nat, h: string, lim: Limits)
    requires t !in s.tasks && HostsOk(s.tasks, s.lanes, lim)
    requires forall u :: u in s.tasks ==> s.tasks[u].host in s.lanes
    ensures var s' := Spawned(s, t, h); HostsOk(s'.tasks, s'.lanes, lim)
  {
    if h !in s.lanes { FreshHostOk(s.tasks, h, s.now, lim); }
    var lanes' := Spawned(s, t, h).lanes;
    forall g | g in lanes' ensures HostOk(s.tasks[t := Task(h, Queued)], g, lanes'[g], lim) {
      SpawnHostKeeps(s.tasks, t, h, lanes'[g], lim, g);
    }
  }

  lemma SpawnTasksOk(s: System, t: nat, h: string)
    requires t !in s.tasks && TasksOk(s)
    ensures TasksOk(Spawned(s, t, h))
  {
  }

  lemma SpawnNotFlying(tasks: map<nat, Task>, t: nat, h: string)
    requires t !in tasks
    ensures Flying(tasks[t := Task(h, Queued)]) == Flying(tasks)
  {
  }

  lemma SpawnKeeps(s: System, t: nat, h: string, lim: Limits)
    requires Inv(s, lim) && t !in s.tasks
    ensures Inv(Spawned(s, t, h), lim)
  {
    SpawnTasksOk(s, t, h);
    SpawnNotFlying(s.tasks, t, h);
    SpawnHostsKeep(s, t, h, lim);
  }

  /** Every step of every task keeps the invariant. */
  lemma StepKeepsInv(s: System, a: Action, lim: Limits)
    requires Inv(s, lim) && Enabled(s, a)
    ensures Inv(Apply(s, a, lim), lim)
  {
    match a
    case Tick(_) =>
    case Spawn(t, h) => SpawnKeeps(s, t, h, lim);
    case _ =>
      StepIsLawful(s, a, lim);
      var s' := Apply(s, a, lim);
      MoveKeeps(s, a.task, s'.tasks[a.task].phase, s'.lanes[s.tasks[a.task].host], s'.globalFree, lim);
  }

  // ---- Runs -----------------------------------------------------------------------

  /** Some sequence of steps leads from s to r. */
  ghost predicate Run(s: System, actions: seq<Action>, r: System, lim: Limits)
    decreases |actions|
  {
    if actions == [] then r == s
    else Enabled(s, actions[0]) && Run(Apply(s, actions[0], lim), actions[1..], r, lim)
  }

  /** A prober before its first fetch. */
  const IDLE := System(0, map[], map[], 0)

  /** Safety of every run: at most PER_HOST_CAP tasks hold one host's permit,
      at most the global limit are sending, slots are spaced, and nobody dials
      before its slot. */
  lemma {:induction false} RunKeepsInv(s: System, actions: seq<Action>, r: System, lim: Limits)
    requires Inv(s, lim) && Run(s, actions, r, lim)
    ensures Inv(r, lim)
    ensures forall h :: h in r.lanes ==> |Holders(r.tasks, h)| <= PER_HOST_CAP
    ensures |Flying(r.tasks)| <= lim.globalCap
    decreases |actions|
  {
    if actions != [] {
      StepKeepsInv(s, actions[0], lim);
      RunKeepsInv(Apply(s, actions[0], lim), actions[1..], r, lim);
    }
  }

  lemma IdleInv(lim: Limits)
    ensures Inv(IDLE.(globalFree := lim.globalCap), lim)
  {
    assert Flying(map[]) == {};
  }

  /** The earliest slot a claim on host h can still receive. */
  function EarliestClaim(s: System, h: string): nat
  {
    if h in s.lanes then Slot(s.lanes[h].nextStart, s.now) else s.now
  }

  /** A task's slot is either the one it had in s, or at least `bound`. */
  ghost predicate SlotsSince(s: System, r: System, h: string, bound: nat)
  {
    forall t :: HasSlotOn(r.tasks, t, h) ==>
      || (HasSlotOn(s.tasks, t, h) && s.tasks[t].phase.slot == r.tasks[t].phase.slot)
      || r.tasks[t].phase.slot >= bound
  }

  lemma StepSlots(s: System, r: System, a: Action, lim: Limits, h: string, bound: nat)
    requires Enabled(r, a) && SlotsSince(s, r, h, bound) && EarliestClaim(r, h) >= bound
    ensures SlotsSince(s, Apply(r, a, lim), h, bound) && EarliestClaim(Apply(r, a, lim), h) >= bound
    ensures Apply(r, a, lim).now >= r.now
  {
    if !a.Tick? && !a.Spawn? { StepIsLawful(r, a, lim); }
    var r' := Apply(r, a, lim);
    forall t | HasSlotOn(r'.tasks, t, h)
      ensures (HasSlotOn(s.tasks, t, h) && s.tasks[t].phase.slot == r'.tasks[t].phase.slot) || r'.tasks[t].phase.slot >= bound
    {
      assert HasSlotOn(r.tasks, t, h) || (a.ClaimSlot? && t == a.task);
    }
  }

  /** Whatever happens after s, a slot granted from then on is at least the
      lane's next start in s. */
  lemma {:induction false} LaterSlots(s: System, m: System, actions: seq<Action>, r: System, lim: Limits, h: string, bound: nat)
    requires Run(m, actions, r, lim) && SlotsSince(s, m, h, bound) && EarliestClaim(m, h) >= bound
    ensures SlotsSince(s, r, h, bound) && EarliestClaim(r, h) >= bound && r.now >= m.now
    decreases |actions|
  {
    if actions != [] {
      StepSlots(s, m, actions[0], lim, h, bound);
      LaterSlots(s, Apply(m, actions[0], lim), actions[1..], r, lim, h, bound);
    }
  }

  /** Retry-After is honoured: once a response finishing at time t asked for
      `secs`, every slot claimed on that host afterwards is at least
      t + min(secs, 120 s). */
  lemma BackOffHonoured(s: System, task: nat, secs: nat, actions: seq<Action>, r: System, lim: Limits, t: nat)
    requires Enabled(s, Finish(task, Some(secs)))
    requires Run(Apply(s, Finish(task, Some(secs)), lim), actions, r, lim)
    requires HasSlotOn(r.tasks, t, s.tasks[task].host) && !HasSlotOn(s.tasks, t, s.tasks[task].host)
    ensures r.tasks[t].phase.slot >= s.now + Min(secs * 1000, MAX_HONOURED_RETRY_AFTER)
  {
    var h, m := s.tasks[task].host, Apply(s, Finish(task, Some(secs)), lim);
    LaterSlots(m, m, actions, r, lim, h, EarliestClaim(m, h));
    assert HasSlotOn(m.tasks, t, h) ==> HasSlotOn(s.tasks, t, h);
  }

  // ---- Rates ----------------------------------------------------------------------

  lemma QuotientGrows(x: nat, y: nat, d: nat)
    requires d > 0 && x + d <= y
    ensures x / d < y / d
  {
  }

  lemma CancelFactor(a: nat, c: nat, d: nat)
    requires a * d < c * d
    ensures a < c
  {
  }

  lemma QuotientMonotone(x: nat, y: nat, d: nat)
    requires d > 0 && x <= y
    ensures x / d <= y / d
  {
    var a, b := x / d, y / d;
    assert x == a * d + x % d && y == b * d + y % d;
    assert (b + 1) * d == b * d + d;
    CancelFactor(a, b + 1, d);
  }

  /** A set that maps one-to-one below n has at most n members. */
  lemma {:induction false} InjectionBound(members: set<nat>, f: map<nat, nat>, n: nat)
    requires forall t :: t in members ==> t in f && f[t] < n
    requires forall t, u :: t in members && u in members && t != u ==> f[t] != f[u]
    ensures |members| <= n
    decreases n
  {
    if n == 0 {
      assert members == {};
    } else if t :| t in members && f[t] == n - 1 {
      InjectionBound(members - {t}, f, n - 1);
    } else {
      InjectionBound(members, f, n - 1);
    }
  }

  /** The tasks of host h whose slot lies in from..from + length. */
  function SlotsWithin(tasks: map<nat, Task>, h: string, from: nat, length: nat): set<nat>
  {
    set t | t in tasks && HasSlotOn(tasks, t, h) && from <= tasks[t].phase.slot <= from + length
  }

  /** Which stretch of `delay` milliseconds, counted from `from`, a slot is in. */
  function Bucket(slot: nat, from: nat, delay: nat): nat
    requires delay > 0 && from <= slot
  {
    (slot - from) / delay
  }

  lemma BucketsDiffer(x: nat, y: nat, from: nat, delay: nat)
    requires delay > 0 && from <= x && from <= y && Apart(x, y, delay)
    ensures Bucket(x, from, delay) != Bucket(y, from, delay)
  {
    if x + delay <= y { QuotientGrows(x - from, y - from, delay); } else { QuotientGrows(y - from, x - from, delay); }
  }

  lemma BucketBelow(slot: nat, from: nat, delay: nat, length: nat)
    requires delay > 0 && from <= slot <= from + length
    ensures Bucket(slot, from, delay) < length / delay + 1
  {
    QuotientMonotone(slot - from, length, delay);
  }

  /** The cadence: any window of a given length holds at most
      length / delay + 1 of one host's slots. */
  lemma SlotRate(tasks: map<nat, Task>, h: string, nextStart: nat, delay: nat, from: nat, length: nat)
    requires Spaced(tasks, h, nextStart, delay) && delay > 0
    ensures |SlotsWithin(tasks, h, from, length)| <= length / delay + 1
  {
    var members := SlotsWithin(tasks, h, from, length);
    var bucket := map t | t in members :: Bucket(tasks[t].phase.slot, from, delay);
    forall t | t in members ensures bucket[t] < length / delay + 1 {
      BucketBelow(tasks[t].phase.slot, from, delay, length);
    }
    forall t, u | t in members && u in members && t != u ensures bucket[t] != bucket[u] {
      BucketsDiffer(tasks[t].phase.slot, tasks[u].phase.slot, from, delay);
    }
    InjectionBound(members, bucket, length / delay + 1);
  }

  /** The tasks of host h that dialled between s and r. */
  function DialledSince(s: System, r: System, h: string): set<nat>
  {
    set t | t in r.tasks && r.tasks[t].host == h && r.tasks[t].phase.Dialled()
      && !(HasSlotOn(s.tasks, t, h) && s.tasks[t].phase.Dialled())
  }

  lemma UnionBound(a: set<nat>, b: set<nat>, c: set<nat>)
    requires a <= b + c
    ensures |a| <= |b| + |c|
  {
    SubsetSize(a, b + c);
  }

  /** A host without a lane has no tasks. */
  lemma HostHolders(s: System, h: string, lim: Limits)
    requires Inv(s, lim)
    ensures |Holders(s.tasks, h)| <= PER_HOST_CAP
  {
    if h in s.lanes {
      assert HostOk(s.tasks, h, s.lanes[h], lim);
    } else {
      assert Holders(s.tasks, h) == {};
    }
  }

  lemma HostSlots(s: System, h: string, lim: Limits, from: nat, length: nat)
    requires Inv(s, lim) && lim.delay > 0
    ensures |SlotsWithin(s.tasks, h, from, length)| <= length / lim.delay + 1
  {
    if h in s.lanes {
      assert HostOk(s.tasks, h, s.lanes[h], lim);
      SlotRate(s.tasks, h, s.lanes[h].nextStart, lim.delay, from, length);
    } else {
      assert SlotsWithin(s.tasks, h, from, length) == {};
    }
  }

  /** Who dialled in a window has its slot there, or was waiting with one before. */
  lemma DialsAccounted(s: System, r: System, h: string, length: nat)
    requires TasksOk(r) && SlotsSince(s, r, h, s.now) && r.now <= s.now + length
    ensures DialledSince(s, r, h) <= SlotsWithin(r.tasks, h, s.now, length) + Holders(s.tasks, h)
  {
    forall t | t in DialledSince(s, r, h) && t !in SlotsWithin(r.tasks, h, s.now, length) ensures t in Holders(s.tasks, h) {
      assert HasSlotOn(r.tasks, t, h);
    }
  }

  /** What one host really sees: within any window it is dialled at most
      length / delay + 1 times, plus the tasks that were already waiting, slot
      in hand, for the global permit: at most PER_HOST_CAP of them. */
  lemma DialRate(s: System, actions: seq<Action>, r: System, lim: Limits, h: string, length: nat)
    requires Inv(s, lim) && Run(s, actions, r, lim) && lim.delay > 0
    requires r.now <= s.now + length
    ensures |DialledSince(s, r, h)| <= length / lim.delay + 1 + PER_HOST_CAP
  {
    RunKeepsInv(s, actions, r, lim);
    LaterSlots(s, s, actions, r, lim, h, s.now);
    var window := SlotsWithin(r.tasks, h, s.now, length);
    DialsAccounted(s, r, h, length);
    HostHolders(s, h, lim);
    HostSlots(r, h, lim, s.now, length);
    UnionBound(DialledSince(s, r, h), window, Holders(s.tasks, h));
  }

  /** Whoever dialled before a lane's next start already held its slot. */
  lemma EarlyDialsHadSlots(m: System, actions: seq<Action>, r: System, lim: Limits, h: string)
    requires Run(m, actions, r, lim) && TasksOk(r) && r.now < EarliestClaim(m, h)
    ensures DialledSince(m, r, h) <= Holders(m.tasks, h)
    ensures forall t :: t in DialledSince(m, r, h) ==> HasSlotOn(m.tasks, t, h)
  {
    LaterSlots(m, m, actions, r, lim, h, EarliestClaim(m, h));
    forall t | t in DialledSince(m, r, h) ensures t in Holders(m.tasks, h) && HasSlotOn(m.tasks, t, h) {
      assert HasSlotOn(r.tasks, t, h);
    }
  }

  lemma FinisherLeaves(s: System, task: nat, secs: nat, lim: Limits)
    requires Inv(s, lim) && Enabled(s, Finish(task, Some(secs)))
    ensures |Holders(Apply(s, Finish(task, Some(secs)), lim).tasks, s.tasks[task].host)| <= PER_HOST_CAP - 1
  {
    var h := s.tasks[task].host;
    SetsAfter(s.tasks, task, Done(s.tasks[task].phase.slot, s.tasks[task].phase.at), h);
    assert HostOk(s.tasks, h, s.lanes[h], lim) && task in Holders(s.tasks, h);
  }

  lemma FinisherTakesNone(s: System, task: nat, secs: nat, lim: Limits, t: nat, h: string)
    requires Enabled(s, Finish(task, Some(secs))) && HasSlotOn(Apply(s, Finish(task, Some(secs)), lim).tasks, t, h)
    ensures HasSlotOn(s.tasks, t, h)
  {
  }

  /** After a Retry-After, until the wait is over, the host is dialled only by
      tasks that already held a slot: at most PER_HOST_CAP - 1 of them. */
  lemma BackOffQuiet(s: System, task: nat, secs: nat, actions: seq<Action>, r: System, lim: Limits)
    requires Inv(s, lim) && Enabled(s, Finish(task, Some(secs)))
    requires Run(Apply(s, Finish(task, Some(secs)), lim), actions, r, lim)
    requires r.now < s.now + Min(secs * 1000, MAX_HONOURED_RETRY_AFTER)
    ensures |DialledSince(Apply(s, Finish(task, Some(secs)), lim), r, s.tasks[task].host)| <= PER_HOST_CAP - 1
    ensures forall t :: t in DialledSince(Apply(s, Finish(task, Some(secs)), lim), r, s.tasks[task].host) ==>
              HasSlotOn(s.tasks, t, s.tasks[task].host)
  {
    var h, m := s.tasks[task].host, Apply(s, Finish(task, Some(secs)), lim);
    StepKeepsInv(s, Finish(task, Some(secs)), lim);
    RunKeepsInv(m, actions, r, lim);
    EarlyDialsHadSlots(m, actions, r, lim, h);
    forall t | t in DialledSince(m, r, h) ensures HasSlotOn(s.tasks, t, h) { FinisherTakesNone(s, task, secs, lim, t, h); }
    FinisherLeaves(s, task, secs, lim);
    SubsetSize(DialledSince(m, r, h), Holders(m.tasks, h));
  }

  // ---- Progress ----------------------------------------------------------------------

  /** No deadlock: while a task is unfinished, some task can take its next step,
      after waiting a while at most. */
  lemma SomeoneCanMove(s: System, lim: Limits, t: nat) returns (wait: nat, a: Action)
    requires Inv(s, lim) && lim.globalCap > 0 && t in s.tasks && !s.tasks[t].phase.Done?
    ensures !a.Tick? && !a.Spawn? && Enabled(Apply(s, Tick(wait), lim), a)
  {
    if u :| u in s.tasks && s.tasks[u].phase.InFlight? {
      return 0, Finish(u, None);
    }
    assert Flying(s.tasks) == {};
    if u :| u in s.tasks && s.tasks[u].phase.Claimed? {
      return Max(0, s.tasks[u].phase.slot - s.now), Dial(u);
    }
    if u :| u in s.tasks && s.tasks[u].phase.Permitted? {
      return 0, ClaimSlot(u);
    }
    var h := s.tasks[t].host;
    assert Holders(s.tasks, h) == {};
    assert HostOk(s.tasks, h, s.lanes[h], lim);
    return 0, TakePermit(t);
  }

  function AtLeast(tasks: map<nat, Task>, k: nat): set<nat>
  {
    set t | t in tasks && tasks[t].phase.StepsLeft() >= k
  }

  /** The steps all tasks together still have to take. */
  function Work(tasks: map<nat, Task>): nat
  {
    |AtLeast(tasks, 1)| + |AtLeast(tasks, 2)| + |AtLeast(tasks, 3)| + |AtLeast(tasks, 4)|
  }

  lemma AtLeastAfter(tasks: map<nat, Task>, t: nat, p: Phase, k: nat)
    requires t in tasks && p.StepsLeft() == tasks[t].phase.StepsLeft() - 1
    ensures |AtLeast(tasks[t := tasks[t].(phase := p)], k)|
         == |AtLeast(tasks, k)| - if tasks[t].phase.StepsLeft() == k then 1 else 0
  {
    var after := AtLeast(tasks[t := tasks[t].(phase := p)], k);
    if tasks[t].phase.StepsLeft() == k {
      assert after == AtLeast(tasks, k) - {t};
    } else {
      assert after == AtLeast(tasks, k);
    }
  }

  lemma AtLeastSpawned(tasks: map<nat, Task>, t: nat, h: string, k: nat)
    requires t !in tasks && k <= 4
    ensures |AtLeast(tasks[t := Task(h, Queued)], k)| == |AtLeast(tasks, k)| + 1
  {
    assert AtLeast(tasks[t := Task(h, Queued)], k) == AtLeast(tasks, k) + {t};
  }

  /** Each step of a task is one unit of work; a spawn adds four. */
  lemma StepWork(s: System, a: Action, lim: Limits)
    requires Enabled(s, a)
    ensures Work(Apply(s, a, lim).tasks) == Work(s.tasks) + (if a.Tick? then 0 else if a.Spawn? then 4 else -1)
  {
    var s' := Apply(s, a, lim);
    match a
    case Tick(_) =>
    case Spawn(t, h) =>
      AtLeastSpawned(s.tasks, t, h, 1);
      AtLeastSpawned(s.tasks, t, h, 2);
      AtLeastSpawned(s.tasks, t, h, 3);
      AtLeastSpawned(s.tasks, t, h, 4);
    case _ =>
      StepIsLawful(s, a, lim);
      var p := s'.tasks[a.task].phase;
      AtLeastAfter(s.tasks, a.task, p, 1);
      AtLeastAfter(s.tasks, a.task, p, 2);
      AtLeastAfter(s.tasks, a.task, p, 3);
      AtLeastAfter(s.tasks, a.task, p, 4);
  }

  /** Waiting if need be, some unfinished task takes its next step. */
  lemma OneStepCloser(s: System, lim: Limits, t: nat) returns (wait: nat, a: Action)
    requires Inv(s, lim) && lim.globalCap > 0 && t in s.tasks && !s.tasks[t].phase.Done?
    ensures Enabled(Apply(s, Tick(wait), lim), a)
    ensures var r := Apply(Apply(s, Tick(wait), lim), a, lim);
      Inv(r, lim) && Work(r.tasks) < Work(s.tasks) && r.tasks.Keys == s.tasks.Keys
  {
    wait, a := SomeoneCanMove(s, lim, t);
    var waited := Apply(s, Tick(wait), lim);
    StepKeepsInv(s, Tick(wait), lim);
    StepKeepsInv(waited, a, lim);
    StepWork(waited, a, lim);
    SameTasks(waited, a, lim);
  }

  /** A step of a task neither adds nor drops one. */
  lemma SameTasks(s: System, a: Action, lim: Limits)
    requires Enabled(s, a) && !a.Tick? && !a.Spawn?
    ensures Apply(s, a, lim).tasks.Keys == s.tasks.Keys
  {
    StepIsLawful(s, a, lim);
  }

  /** Every fetch can be finished from any reachable state. */
  lemma {:induction false} EveryFetchCanFinish(s: System, lim: Limits) returns (actions: seq<Action>, r: System)
    requires Inv(s, lim) && lim.globalCap > 0
    ensures Run(s, actions, r, lim) && r.tasks.Keys == s.tasks.Keys
    ensures forall t :: t in r.tasks ==> r.tasks[t].phase.Done?
    decreases Work(s.tasks)
  {
    if t :| t in s.tasks && !s.tasks[t].phase.Done? {
      var wait, a := OneStepCloser(s, lim, t);
      var rest;
      rest, r := EveryFetchCanFinish(Apply(Apply(s, Tick(wait), lim), a, lim), lim);
      actions := [Tick(wait)] + ([a] + rest);
      assert actions[1..] == [a] + rest && ([a] + rest)[1..] == rest;
      assert Run(Apply(s, Tick(wait), lim), [a] + rest, r, lim);
    } else {
      actions, r := [], s;
    }
  }
}
