/** How long a task that holds a host permit can be made to wait for its slot
    (crates/probe/src/fetch.rs), whatever the origin asks for in Retry-After. */
module Waits {
  import opened Common
  import opened PoliteFetch
  import opened Fairness

  /** A delay after the slot of some task of this host. */
  ghost predicate DelayAfter(tasks: map<nat, Task>, h: string, time: nat, delay: nat)
  {
    exists u :: HasSlotOn(tasks, u, h) && time == tasks[u].phase.slot + delay
  }

  /** Where the cadence of a host can have got to: no further than an honoured wait
      from now, or a delay after a slot that is itself within these bounds. */
  ghost predicate Bounded(tasks: map<nat, Task>, h: string, nextStart: nat, now: nat, delay: nat)
  {
    && (nextStart <= now + MAX_HONOURED_RETRY_AFTER || DelayAfter(tasks, h, nextStart, delay))
    && (forall t :: HasSlotOn(tasks, t, h) ==>
          tasks[t].phase.slot <= now + MAX_HONOURED_RETRY_AFTER || DelayAfter(tasks, h, tasks[t].phase.slot, delay))
    && (delay == 0 ==> nextStart <= now + MAX_HONOURED_RETRY_AFTER)
  }

  ghost predicate AllBounded(s: System, lim: Limits)
  {
    forall h :: h in s.lanes ==> Bounded(s.tasks, h, s.lanes[h].nextStart, s.now, lim.delay)
  }

  /** Slots that were given stay, and new ones follow the cadence. */
  ghost predicate Extends(tasks: map<nat, Task>, tasks': map<nat, Task>, h: string)
  {
    forall t :: HasSlotOn(tasks, t, h) ==> HasSlotOn(tasks', t, h) && tasks'[t].phase.slot == tasks[t].phase.slot
  }

  lemma StillAfter(tasks: map<nat, Task>, tasks': map<nat, Task>, h: string, time: nat, delay: nat)
    requires Extends(tasks, tasks', h) && DelayAfter(tasks, h, time, delay)
    ensures DelayAfter(tasks', h, time, delay)
  {
    var u :| HasSlotOn(tasks, u, h) && time == tasks[u].phase.slot + delay;
    assert HasSlotOn(tasks', u, h);
  }

  /** Time passes, tasks move on, and the cadence may have been pushed out. */
  lemma BoundedStill(tasks: map<nat, Task>, tasks': map<nat, Task>, h: string, next: nat, next': nat, now: nat, now': nat, delay: nat)
    requires Bounded(tasks, h, next, now, delay) && Extends(tasks, tasks', h) && now <= now'
    requires forall t :: HasSlotOn(tasks', t, h) ==> HasSlotOn(tasks, t, h)
    requires next' == next || next' <= now' + MAX_HONOURED_RETRY_AFTER
    ensures Bounded(tasks', h, next', now', delay)
  {
    if next > now + MAX_HONOURED_RETRY_AFTER { StillAfter(tasks, tasks', h, next, delay); }
    forall t | HasSlotOn(tasks', t, h)
      ensures tasks'[t].phase.slot <= now' + MAX_HONOURED_RETRY_AFTER || DelayAfter(tasks', h, tasks'[t].phase.slot, delay)
    {
      assert HasSlotOn(tasks, t, h) && tasks'[t].phase.slot == tasks[t].phase.slot;
      if tasks[t].phase.slot > now + MAX_HONOURED_RETRY_AFTER { StillAfter(tasks, tasks', h, tasks[t].phase.slot, delay); }
    }
  }

  /** A task claims the next slot of its host. */
  lemma BoundedClaim(tasks: map<nat, Task>, t: nat, next: nat, now: nat, delay: nat)
    requires t in tasks && tasks[t].phase.Permitted? && Bounded(tasks, tasks[t].host, next, now, delay)
    ensures var slot := Slot(next, now);
      Bounded(tasks[t := tasks[t].(phase := Claimed(slot))], tasks[t].host, slot + delay, now, delay)
  {
    var h, slot := tasks[t].host, Slot(next, now);
    var tasks' := tasks[t := tasks[t].(phase := Claimed(slot))];
    assert HasSlotOn(tasks', t, h) && DelayAfter(tasks', h, slot + delay, delay);
    forall u | HasSlotOn(tasks', u, h)
      ensures tasks'[u].phase.slot <= now + MAX_HONOURED_RETRY_AFTER || DelayAfter(tasks', h, tasks'[u].phase.slot, delay)
    {
      var had := if u == t then slot else tasks[u].phase.slot;
      assert u != t ==> HasSlotOn(tasks, u, h);
      if had > now + MAX_HONOURED_RETRY_AFTER { StillAfter(tasks, tasks', h, had, delay); }
    }
  }

  /** Only a claim gives a slot, and only a claim moves the cadence further than an
      honoured wait from now. */
  lemma OtherSteps(s: System, a: Action, lim: Limits, h: string)
    requires Enabled(s, a) && h in s.lanes && !(a.ClaimSlot? && s.tasks[a.task].host == h)
    ensures var r := Apply(s, a, lim);
      && Extends(s.tasks, r.tasks, h) && (forall t :: HasSlotOn(r.tasks, t, h) ==> HasSlotOn(s.tasks, t, h))
      && h in r.lanes && s.now <= r.now
      && (r.lanes[h].nextStart == s.lanes[h].nextStart || r.lanes[h].nextStart <= r.now + MAX_HONOURED_RETRY_AFTER)
  {
  }

  lemma StepBounded(s: System, a: Action, lim: Limits, h: string)
    requires h in s.lanes && Bounded(s.tasks, h, s.lanes[h].nextStart, s.now, lim.delay) && Enabled(s, a)
    ensures var r := Apply(s, a, lim);
      h in r.lanes && Bounded(r.tasks, h, r.lanes[h].nextStart, r.now, lim.delay)
  {
    if a.ClaimSlot? && s.tasks[a.task].host == h {
      BoundedClaim(s.tasks, a.task, s.lanes[h].nextStart, s.now, lim.delay);
    } else {
      var r := Apply(s, a, lim);
      OtherSteps(s, a, lim, h);
      BoundedStill(s.tasks, r.tasks, h, s.lanes[h].nextStart, r.lanes[h].nextStart, s.now, r.now, lim.delay);
    }
  }

  lemma FirstLane(s: System, a: Action, lim: Limits, h: string)
    requires TasksOk(s) && Enabled(s, a) && h !in s.lanes && h in Apply(s, a, lim).lanes
    ensures var r := Apply(s, a, lim); Bounded(r.tasks, h, r.lanes[h].nextStart, r.now, lim.delay)
  {
    assert a.Spawn?;
    assert forall u :: !HasSlotOn(Apply(s, a, lim).tasks, u, h);
  }

  lemma {:induction false} RunBounded(s: System, actions: seq<Action>, r: System, lim: Limits)
    requires Inv(s, lim) && AllBounded(s, lim) && Run(s, actions, r, lim)
    ensures Inv(r, lim) && AllBounded(r, lim)
    decreases |actions|
  {
    if actions != [] {
      var m := Apply(s, actions[0], lim);
      StepKeepsInv(s, actions[0], lim);
      forall h | h in m.lanes ensures Bounded(m.tasks, h, m.lanes[h].nextStart, m.now, lim.delay) {
        if h in s.lanes { StepBounded(s, actions[0], lim, h); } else { FirstLane(s, actions[0], lim, h); }
      }
      RunBounded(m, actions[1..], r, lim);
    }
  }

  // ---- The longest wait ----------------------------------------------------------------

  /** A slot further off belongs to a task that holds a permit, and lies a delay
      after another slot. */
  lemma FarSlot(s: System, lim: Limits, h: string, t: nat) returns (u: nat)
    requires Inv(s, lim) && AllBounded(s, lim) && h in s.lanes
    requires HasSlotOn(s.tasks, t, h) && s.tasks[t].phase.slot > s.now + MAX_HONOURED_RETRY_AFTER
    ensures t in Holders(s.tasks, h) && HasSlotOn(s.tasks, u, h) && s.tasks[t].phase.slot == s.tasks[u].phase.slot + lim.delay
  {
    assert Bounded(s.tasks, h, s.lanes[h].nextStart, s.now, lim.delay);
    assert DelayAfter(s.tasks, h, s.tasks[t].phase.slot, lim.delay);
    u :| HasSlotOn(s.tasks, u, h) && s.tasks[t].phase.slot == s.tasks[u].phase.slot + lim.delay;
  }

  lemma WaitingHolds(s: System, h: string, t: nat)
    requires TasksOk(s) && HasSlotOn(s.tasks, t, h) && s.tasks[t].phase.slot > s.now
    ensures t in Holders(s.tasks, h)
  {
  }

  lemma ThirdIsOld(holders: set<nat>, t: nat, u: nat, v: nat)
    requires |holders| <= 2 && t in holders && u in holders && v in holders
    ensures t == u || u == v || t == v
  {
    SubsetSize({t, u, v}, holders);
  }

  lemma SlotNear(s: System, lim: Limits, h: string, t: nat)
    requires Inv(s, lim) && AllBounded(s, lim) && h in s.lanes && HasSlotOn(s.tasks, t, h)
    ensures s.tasks[t].phase.slot <= s.now + Max(MAX_HONOURED_RETRY_AFTER, lim.delay) + lim.delay
  {
    if lim.delay == 0 {
      assert HostOk(s.tasks, h, s.lanes[h], lim) && Bounded(s.tasks, h, s.lanes[h].nextStart, s.now, lim.delay);
    } else if s.tasks[t].phase.slot > s.now + MAX_HONOURED_RETRY_AFTER {
      var u := FarSlot(s, lim, h, t);
      if s.tasks[u].phase.slot > s.now + MAX_HONOURED_RETRY_AFTER {
        var v := FarSlot(s, lim, h, u);
        if s.tasks[v].phase.slot > s.now {
          HostHolders(s, h, lim);
          WaitingHolds(s, h, v);
          ThirdIsOld(Holders(s.tasks, h), t, u, v);
        }
      }
    }
  }

  lemma CadenceNear(s: System, lim: Limits, h: string)
    requires Inv(s, lim) && AllBounded(s, lim) && h in s.lanes
    ensures s.lanes[h].nextStart <= s.now + Max(MAX_HONOURED_RETRY_AFTER, lim.delay) + 2 * lim.delay
  {
    assert Bounded(s.tasks, h, s.lanes[h].nextStart, s.now, lim.delay);
    if s.lanes[h].nextStart > s.now + MAX_HONOURED_RETRY_AFTER {
      assert DelayAfter(s.tasks, h, s.lanes[h].nextStart, lim.delay);
      var t :| HasSlotOn(s.tasks, t, h) && s.lanes[h].nextStart == s.tasks[t].phase.slot + lim.delay;
      SlotNear(s, lim, h, t);
    }
  }

  /** In every run of a new prober, whatever origins ask for: no cadence gets further
      than two minutes and two delays ahead of the clock, and no task that holds a
      permit has to wait longer than two minutes and one delay for its slot. (The two
      minutes give way to the delay where that is longer.) */
  lemma WaitsBounded(actions: seq<Action>, r: System, lim: Limits)
    requires Run(IDLE.(globalFree := lim.globalCap), actions, r, lim)
    ensures forall h :: h in r.lanes ==> r.lanes[h].nextStart <= r.now + Max(120_000, lim.delay) + 2 * lim.delay
    ensures forall t :: t in r.tasks && r.tasks[t].phase.HasSlot() ==> r.tasks[t].phase.slot <= r.now + Max(120_000, lim.delay) + lim.delay
  {
    IdleInv(lim);
    RunBounded(IDLE.(globalFree := lim.globalCap), actions, r, lim);
    forall h | h in r.lanes ensures r.lanes[h].nextStart <= r.now + Max(120_000, lim.delay) + 2 * lim.delay { CadenceNear(r, lim, h); }
    forall t | t in r.tasks && r.tasks[t].phase.HasSlot() ensures r.tasks[t].phase.slot <= r.now + Max(120_000, lim.delay) + lim.delay {
      assert HasSlotOn(r.tasks, t, r.tasks[t].host);
      SlotNear(r, lim, r.tasks[t].host, t);
    }
  }

  // ---- It can be that long ---------------------------------------------------------------

  /** One task has been answered, with a Retry-After of two minutes or more. */
  function Answered(lim: Limits, h: string): System
  {
    System(0, map[0 := Task(h, Done(0, 0))], map[h := Lane(PER_HOST_CAP, Max(lim.delay, 120_000))], lim.globalCap)
  }

  lemma Answers(lim: Limits, h: string, secs: nat)
    requires lim.globalCap > 0 && secs >= 120
    ensures Leads(IDLE.(globalFree := lim.globalCap), Answered(lim, h), lim)
  {
    var s := IDLE.(globalFree := lim.globalCap);
    LeadsNowhere(s, lim);
    LeadsOn(s, s, Spawn(0, h), lim);
    var s1 := Apply(s, Spawn(0, h), lim);
    LeadsOn(s, s1, TakePermit(0), lim);
    var s2 := Apply(s1, TakePermit(0), lim);
    LeadsOn(s, s2, ClaimSlot(0), lim);
    var s3 := Apply(s2, ClaimSlot(0), lim);
    LeadsOn(s, s3, Dial(0), lim);
    var s4 := Apply(s3, Dial(0), lim);
    LeadsOn(s, s4, Finish(0, Some(secs)), lim);
    assert Apply(s4, Finish(0, Some(secs)), lim) == Answered(lim, h);
  }

  /** One more task has come and claimed the next slot. */
  lemma ClaimsNext(s: System, m: System, t: nat, h: string, lim: Limits) returns (r: System)
    requires Leads(s, m, lim) && t !in m.tasks && h in m.lanes && m.lanes[h].freePermits > 0 && m.lanes[h].nextStart >= m.now
    ensures Leads(s, r, lim) && r.now == m.now && r.tasks.Keys == m.tasks.Keys + {t} && h in r.lanes
    ensures r.lanes[h] == Lane(m.lanes[h].freePermits - 1, m.lanes[h].nextStart + lim.delay)
    ensures HasSlotOn(r.tasks, t, h) && r.tasks[t].phase.slot == m.lanes[h].nextStart
  {
    LeadsOn(s, m, Spawn(t, h), lim);
    var m1 := Apply(m, Spawn(t, h), lim);
    LeadsOn(s, m1, TakePermit(t), lim);
    var m2 := Apply(m1, TakePermit(t), lim);
    LeadsOn(s, m2, ClaimSlot(t), lim);
    r := Apply(m2, ClaimSlot(t), lim);
  }

  /** Both bounds are reached, however much longer the origin asked for. */
  lemma WaitsReached(lim: Limits, h: string, secs: nat) returns (r: System, t: nat)
    requires lim.globalCap > 0 && secs >= 120
    ensures Leads(IDLE.(globalFree := lim.globalCap), r, lim) && h in r.lanes && HasSlotOn(r.tasks, t, h)
    ensures r.lanes[h].nextStart == r.now + Max(120_000, lim.delay) + 2 * lim.delay
    ensures r.tasks[t].phase.slot == r.now + Max(120_000, lim.delay) + lim.delay
  {
    var s := IDLE.(globalFree := lim.globalCap);
    Answers(lim, h, secs);
    var one := ClaimsNext(s, Answered(lim, h), 1, h, lim);
    t := 2;
    r := ClaimsNext(s, one, t, h, lim);
  }
}
