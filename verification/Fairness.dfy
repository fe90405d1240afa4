/** Nobody waits for ever (crates/probe/src/fetch.rs): the semaphores of the
    prober hand their permits out in order of arrival. */
module Fairness {
  import opened Common
  import opened PoliteFetch

  /** The tasks that wait for a host permit, and those that wait for a global one,
      each in order of arrival. */
  datatype Queues = Queues(sys: System, waiting: map<string, seq<nat>>, line: seq<nat>)

  /** What happens next: time passes, a task begins, claims its slot, wakes at its
      slot, or ends its request. */
  datatype Event =
    | Wait(elapsed: nat)
    | Arrive(task: nat, host: string)
    | Claim(task: nat)
    | Wake(task: nat)
    | End(task: nat, retryAfter: Option<nat>)

  function WaitingOn(q: Queues, h: string): seq<nat>
  {
    if h in q.waiting then q.waiting[h] else []
  }

  /** May this happen now? */
  predicate Possible(q: Queues, e: Event)
  {
    match e
    case Wait(_) => true
    case Arrive(t, _) => t !in q.sys.tasks
    case Claim(t) => Enabled(q.sys, ClaimSlot(t))
    case Wake(t) => Present(q.sys, t) && q.sys.tasks[t].phase.Claimed? && q.sys.tasks[t].phase.slot <= q.sys.now && t !in q.line
    case End(t, _) => Enabled(q.sys, Finish(t, None))
  }

  /** A free host permit goes to the first in the host's queue. */
  function AdmitNext(q: Queues, h: string, lim: Limits): Queues
  {
    if WaitingOn(q, h) != [] && Enabled(q.sys, TakePermit(WaitingOn(q, h)[0])) then
      Queues(Apply(q.sys, TakePermit(WaitingOn(q, h)[0]), lim), q.waiting[h := WaitingOn(q, h)[1..]], q.line)
    else q
  }

  /** A free global permit goes to the first in line. */
  function DialNext(q: Queues, lim: Limits): Queues
  {
    if q.line != [] && Enabled(q.sys, Dial(q.line[0])) then
      Queues(Apply(q.sys, Dial(q.line[0]), lim), q.waiting, q.line[1..])
    else q
  }

  function Join(q: Queues, t: nat, h: string): Queues
  {
    q.(waiting := q.waiting[h := WaitingOn(q, h) + [t]])
  }

  /** Whoever finds no permit free queues up; a permit given back is handed on. */
  function Next(q: Queues, e: Event, lim: Limits): Queues
    requires Possible(q, e)
  {
    match e
    case Wait(d) => q.(sys := Apply(q.sys, Tick(d), lim))
    case Arrive(t, h) => AdmitNext(Join(q.(sys := Apply(q.sys, Spawn(t, h), lim)), t, h), h, lim)
    case Claim(t) => q.(sys := Apply(q.sys, ClaimSlot(t), lim))
    case Wake(t) => DialNext(q.(line := q.line + [t]), lim)
    case End(t, retryAfter) =>
      AdmitNext(DialNext(q.(sys := Apply(q.sys, Finish(t, retryAfter), lim)), lim), q.sys.tasks[t].host, lim)
  }

  // ---- Steps of the protocol -------------------------------------------------------------

  ghost predicate Leads(s: System, r: System, lim: Limits)
  {
    exists actions :: Run(s, actions, r, lim)
  }

  lemma LeadsNowhere(s: System, lim: Limits)
    ensures Leads(s, s, lim)
  {
    assert Run(s, [], s, lim);
  }

  lemma {:induction false} RunLonger(s: System, actions: seq<Action>, m: System, a: Action, lim: Limits)
    requires Run(s, actions, m, lim) && Enabled(m, a)
    ensures Run(s, actions + [a], Apply(m, a, lim), lim)
    decreases |actions|
  {
    if actions == [] {
      assert [a][1..] == [];
    } else {
      RunLonger(Apply(s, actions[0], lim), actions[1..], m, a, lim);
      assert (actions + [a])[1..] == actions[1..] + [a];
    }
  }

  lemma LeadsOn(s: System, m: System, a: Action, lim: Limits)
    requires Leads(s, m, lim) && Enabled(m, a)
    ensures Leads(s, Apply(m, a, lim), lim)
  {
    var actions :| Run(s, actions, m, lim);
    RunLonger(s, actions, m, a, lim);
  }

  lemma AdmitLeads(s: System, q: Queues, h: string, lim: Limits)
    requires Leads(s, q.sys, lim)
    ensures Leads(s, AdmitNext(q, h, lim).sys, lim)
  {
    if WaitingOn(q, h) != [] && Enabled(q.sys, TakePermit(WaitingOn(q, h)[0])) {
      LeadsOn(s, q.sys, TakePermit(WaitingOn(q, h)[0]), lim);
    }
  }

  lemma DialLeads(s: System, q: Queues, lim: Limits)
    requires Leads(s, q.sys, lim)
    ensures Leads(s, DialNext(q, lim).sys, lim)
  {
    if q.line != [] && Enabled(q.sys, Dial(q.line[0])) { LeadsOn(s, q.sys, Dial(q.line[0]), lim); }
  }

  /** Every event is some steps of the protocol, so what every run of the protocol
      keeps, these executions keep as well. */
  lemma EventIsRun(q: Queues, e: Event, lim: Limits)
    requires Possible(q, e)
    ensures Leads(q.sys, Next(q, e, lim).sys, lim)
  {
    LeadsNowhere(q.sys, lim);
    match e
    case Wait(d) => LeadsOn(q.sys, q.sys, Tick(d), lim);
    case Arrive(t, h) =>
      LeadsOn(q.sys, q.sys, Spawn(t, h), lim);
      AdmitLeads(q.sys, Join(q.(sys := Apply(q.sys, Spawn(t, h), lim)), t, h), h, lim);
    case Claim(t) => LeadsOn(q.sys, q.sys, ClaimSlot(t), lim);
    case Wake(t) => DialLeads(q.sys, q.(line := q.line + [t]), lim);
    case End(t, retryAfter) =>
      var m := q.(sys := Apply(q.sys, Finish(t, retryAfter), lim));
      LeadsOn(q.sys, q.sys, Finish(t, retryAfter), lim);
      DialLeads(q.sys, m, lim);
      AdmitLeads(q.sys, DialNext(m, lim), q.sys.tasks[t].host, lim);
  }

  // ---- Order ---------------------------------------------------------------------------

  ghost predicate Distinct(s: seq<nat>)
  {
    forall i, j :: 0 <= i < j < |s| ==> s[i] != s[j]
  }

  lemma RestDistinct(s: seq<nat>)
    requires s != [] && Distinct(s)
    ensures Distinct(s[1..]) && forall t :: t in s[1..] <==> t in s && t != s[0]
  {
    assert s == [s[0]] + s[1..];
    forall t | t in s && t != s[0] ensures t in s[1..] {
      var i :| 0 <= i < |s| && s[i] == t;
      assert s[1..][i - 1] == t;
    }
    forall t | t in s[1..] ensures t in s && t != s[0] {
      var i :| 0 <= i < |s[1..]| && s[1..][i] == t;
      assert s[i + 1] == t;
    }
  }

  predicate Waits(tasks: map<nat, Task>, t: nat, h: string)
  {
    t in tasks && tasks[t] == Task(h, Queued)
  }

  /** The queue of a host is its tasks without a permit, each once. */
  ghost predicate HostOrdered(tasks: map<nat, Task>, queue: seq<nat>, h: string)
  {
    (forall t :: t in queue <==> Waits(tasks, t, h)) && Distinct(queue)
  }

  predicate Awake(tasks: map<nat, Task>, t: nat, now: nat)
  {
    t in tasks && tasks[t].phase.Claimed? && tasks[t].phase.slot <= now
  }

  /** Who stands in line for a global permit has woken at its slot. */
  ghost predicate LineOrdered(tasks: map<nat, Task>, line: seq<nat>, now: nat)
  {
    (forall t :: t in line ==> Awake(tasks, t, now)) && Distinct(line)
  }

  ghost predicate Ordered(q: Queues)
  {
    LineOrdered(q.sys.tasks, q.line, q.sys.now) && forall h :: HostOrdered(q.sys.tasks, WaitingOn(q, h), h)
  }

  /** Nobody waits while a permit is free. */
  predicate HostBusy(q: Queues, h: string)
  {
    WaitingOn(q, h) != [] ==> h in q.sys.lanes && q.sys.lanes[h].freePermits == 0
  }

  predicate LineBusy(q: Queues) { q.line != [] ==> q.sys.globalFree == 0 }

  ghost predicate Good(q: Queues, lim: Limits)
  {
    Inv(q.sys, lim) && Ordered(q) && LineBusy(q) && forall h :: HostBusy(q, h)
  }

  lemma IdleGood(lim: Limits)
    ensures Good(Queues(IDLE.(globalFree := lim.globalCap), map[], []), lim)
  {
    IdleInv(lim);
    var q := Queues(IDLE.(globalFree := lim.globalCap), map[], []);
    assert forall h :: WaitingOn(q, h) == [];
  }

  // ---- Every event keeps it --------------------------------------------------------------

  function With(tasks: map<nat, Task>, t: nat, p: Phase): map<nat, Task>
    requires t in tasks
  {
    tasks[t := tasks[t].(phase := p)]
  }

  /** A task that is in no queue may move on. */
  lemma MoveOrdered(q: Queues, t: nat, p: Phase)
    requires Ordered(q) && t in q.sys.tasks && t !in q.line && !q.sys.tasks[t].phase.Queued? && !p.Queued?
    ensures LineOrdered(With(q.sys.tasks, t, p), q.line, q.sys.now)
    ensures forall h :: HostOrdered(With(q.sys.tasks, t, p), WaitingOn(q, h), h)
  {
    var tasks, tasks' := q.sys.tasks, With(q.sys.tasks, t, p);
    forall h ensures HostOrdered(tasks', WaitingOn(q, h), h) {
      assert HostOrdered(tasks, WaitingOn(q, h), h);
      assert forall u :: Waits(tasks', u, h) <==> Waits(tasks, u, h);
    }
    assert forall u :: u in q.line ==> Awake(tasks, u, q.sys.now) && u != t;
  }

  /** The first of a queue may get its permit. */
  lemma FirstAdmitted(q: Queues, h: string, p: Phase)
    requires Ordered(q) && WaitingOn(q, h) != [] && !p.Queued?
    ensures var t := WaitingOn(q, h)[0];
      && Waits(q.sys.tasks, t, h)
      && LineOrdered(With(q.sys.tasks, t, p), q.line, q.sys.now)
      && HostOrdered(With(q.sys.tasks, t, p), WaitingOn(q, h)[1..], h)
      && (forall g :: g != h ==> HostOrdered(With(q.sys.tasks, t, p), WaitingOn(q, g), g))
  {
    var tasks, queue := q.sys.tasks, WaitingOn(q, h);
    var t := queue[0];
    assert HostOrdered(tasks, queue, h) && t in queue;
    var tasks' := With(tasks, t, p);
    RestDistinct(queue);
    assert forall u :: Waits(tasks', u, h) <==> Waits(tasks, u, h) && u != t;
    forall g | g != h ensures HostOrdered(tasks', WaitingOn(q, g), g) {
      assert HostOrdered(tasks, WaitingOn(q, g), g);
      assert forall u :: Waits(tasks', u, g) <==> Waits(tasks, u, g);
    }
    assert forall u :: u in q.line ==> Awake(tasks, u, q.sys.now) && u != t;
  }

  lemma FirstAwake(q: Queues)
    requires Ordered(q) && q.line != []
    ensures Awake(q.sys.tasks, q.line[0], q.sys.now)
  {
    assert q.line[0] in q.line;
  }

  /** The first in line may dial. */
  lemma FirstDials(q: Queues, p: Phase)
    requires Ordered(q) && q.line != [] && q.line[0] in q.sys.tasks && !p.Queued?
    ensures LineOrdered(With(q.sys.tasks, q.line[0], p), q.line[1..], q.sys.now)
    ensures forall h :: HostOrdered(With(q.sys.tasks, q.line[0], p), WaitingOn(q, h), h)
  {
    assert q.line[0] in q.line;
    RestDistinct(q.line);
    var m := q.(line := q.line[1..]);
    assert forall h :: HostOrdered(q.sys.tasks, WaitingOn(q, h), h) ==> HostOrdered(m.sys.tasks, WaitingOn(m, h), h);
    assert forall h :: WaitingOn(m, h) == WaitingOn(q, h);
    MoveOrdered(m, q.line[0], p);
  }

  /** A new task joins the queue of its host. */
  lemma NewcomerJoins(q: Queues, t: nat, h: string)
    requires Ordered(q) && t !in q.sys.tasks
    ensures LineOrdered(q.sys.tasks[t := Task(h, Queued)], q.line, q.sys.now)
    ensures HostOrdered(q.sys.tasks[t := Task(h, Queued)], WaitingOn(q, h) + [t], h)
    ensures forall g :: g != h ==> HostOrdered(q.sys.tasks[t := Task(h, Queued)], WaitingOn(q, g), g)
  {
    var tasks, tasks' := q.sys.tasks, q.sys.tasks[t := Task(h, Queued)];
    forall g | g != h ensures HostOrdered(tasks', WaitingOn(q, g), g) {
      assert HostOrdered(tasks, WaitingOn(q, g), g);
      assert forall u :: Waits(tasks', u, g) <==> Waits(tasks, u, g);
    }
    assert HostOrdered(tasks, WaitingOn(q, h), h);
    assert forall u :: Waits(tasks', u, h) <==> Waits(tasks, u, h) || u == t;
    assert t !in WaitingOn(q, h);
    assert forall u :: u in q.line ==> Awake(tasks, u, q.sys.now) && u != t;
  }

  lemma AdmitEffect(s: System, t: nat, lim: Limits)
    requires Enabled(s, TakePermit(t))
    ensures var r, h := Apply(s, TakePermit(t), lim), s.tasks[t].host;
      && r.tasks == With(s.tasks, t, Permitted) && r.now == s.now && r.globalFree == s.globalFree && h in r.lanes
      && r.lanes == s.lanes[h := r.lanes[h]] && s.lanes[h].freePermits == r.lanes[h].freePermits + 1
  {
  }

  /** Handing on a host permit. */
  lemma AdmitKeeps(q: Queues, h: string, lim: Limits)
    requires Inv(q.sys, lim) && Ordered(q) && LineBusy(q)
    requires WaitingOn(q, h) != [] ==> h in q.sys.lanes && (q.sys.lanes[h].freePermits <= 1 || |WaitingOn(q, h)| == 1)
    requires forall g :: g != h ==> HostBusy(q, g)
    ensures Good(AdmitNext(q, h, lim), lim)
  {
    var queue := WaitingOn(q, h);
    if queue != [] && Enabled(q.sys, TakePermit(queue[0])) {
      var r := AdmitNext(q, h, lim);
      FirstAdmitted(q, h, Permitted);
      StepKeepsInv(q.sys, TakePermit(queue[0]), lim);
      AdmitEffect(q.sys, queue[0], lim);
      AdmittedQueues(q, r, h);
    } else {
      if queue != [] { FirstAdmitted(q, h, Permitted); }
      assert HostBusy(q, h);
    }
  }

  lemma AdmittedQueues(q: Queues, r: Queues, h: string)
    requires WaitingOn(q, h) != [] && r.waiting == q.waiting[h := WaitingOn(q, h)[1..]]
    requires HostOrdered(r.sys.tasks, WaitingOn(q, h)[1..], h)
    requires forall g :: g != h ==> HostOrdered(r.sys.tasks, WaitingOn(q, g), g)
    requires h in q.sys.lanes && h in r.sys.lanes && r.sys.lanes == q.sys.lanes[h := r.sys.lanes[h]]
    requires q.sys.lanes[h].freePermits <= 1 || |WaitingOn(q, h)| == 1
    requires q.sys.lanes[h].freePermits == r.sys.lanes[h].freePermits + 1
    requires forall g :: g != h ==> HostBusy(q, g)
    ensures forall g :: HostOrdered(r.sys.tasks, WaitingOn(r, g), g)
    ensures forall g :: HostBusy(r, g)
  {
    forall g ensures HostOrdered(r.sys.tasks, WaitingOn(r, g), g) && HostBusy(r, g) {
      if g != h { assert HostBusy(q, g) && WaitingOn(r, g) == WaitingOn(q, g); }
    }
  }

  lemma DialledQueues(q: Queues, r: Queues, p: Phase)
    requires q.line != [] && q.line[0] in q.sys.tasks && r.sys.tasks == With(q.sys.tasks, q.line[0], p)
    requires r.line == q.line[1..] && r.waiting == q.waiting && r.sys.now == q.sys.now
    requires LineOrdered(With(q.sys.tasks, q.line[0], p), q.line[1..], q.sys.now)
    requires forall h :: HostOrdered(With(q.sys.tasks, q.line[0], p), WaitingOn(q, h), h)
    ensures Ordered(r)
  {
    forall h ensures HostOrdered(r.sys.tasks, WaitingOn(r, h), h) {
      assert WaitingOn(r, h) == WaitingOn(q, h);
    }
  }

  lemma DialEffect(s: System, t: nat, lim: Limits)
    requires Enabled(s, Dial(t))
    ensures Apply(s, Dial(t), lim) == System(s.now, With(s.tasks, t, InFlight(s.tasks[t].phase.slot, s.now)), s.lanes, s.globalFree - 1)
  {
    assert s.lanes[s.tasks[t].host := s.lanes[s.tasks[t].host]] == s.lanes;
  }

  lemma FirstMayDial(q: Queues, lim: Limits)
    requires TasksOk(q.sys) && Ordered(q) && q.line != [] && q.sys.globalFree > 0
    ensures Enabled(q.sys, Dial(q.line[0])) && Ordered(DialNext(q, lim))
  {
    var t := q.line[0];
    FirstAwake(q);
    assert Present(q.sys, t);
    DialEffect(q.sys, t, lim);
    var p := InFlight(q.sys.tasks[t].phase.slot, q.sys.now);
    FirstDials(q, p);
    DialledQueues(q, DialNext(q, lim), p);
  }

  /** Handing on the global permit. */
  lemma DialKeeps(q: Queues, lim: Limits)
    requires Inv(q.sys, lim) && Ordered(q) && (q.line != [] ==> q.sys.globalFree <= 1 || |q.line| == 1)
    ensures var r := DialNext(q, lim);
      Inv(r.sys, lim) && Ordered(r) && LineBusy(r) && r.waiting == q.waiting && r.sys.lanes == q.sys.lanes
  {
    if q.line != [] && q.sys.globalFree > 0 {
      FirstMayDial(q, lim);
      StepKeepsInv(q.sys, Dial(q.line[0]), lim);
      DialEffect(q.sys, q.line[0], lim);
    }
  }

  lemma WaitKeeps(q: Queues, d: nat, lim: Limits)
    requires Good(q, lim)
    ensures Good(Next(q, Wait(d), lim), lim)
  {
    var r := Next(q, Wait(d), lim);
    StepKeepsInv(q.sys, Tick(d), lim);
    assert forall h :: WaitingOn(r, h) == WaitingOn(q, h);
    assert forall h :: HostOrdered(r.sys.tasks, WaitingOn(r, h), h) <==> HostOrdered(q.sys.tasks, WaitingOn(q, h), h);
    assert forall h :: HostBusy(r, h) <==> HostBusy(q, h);
  }

  lemma ArriveKeeps(q: Queues, t: nat, h: string, lim: Limits)
    requires Good(q, lim) && Possible(q, Arrive(t, h))
    ensures Good(Next(q, Arrive(t, h), lim), lim)
  {
    var joined := Join(q.(sys := Apply(q.sys, Spawn(t, h), lim)), t, h);
    StepKeepsInv(q.sys, Spawn(t, h), lim);
    NewcomerJoins(q, t, h);
    JoinedQueues(q, joined, t, h);
    assert HostBusy(q, h);
    AdmitKeeps(joined, h, lim);
  }

  lemma JoinedQueues(q: Queues, r: Queues, t: nat, h: string)
    requires r.sys.tasks == q.sys.tasks[t := Task(h, Queued)] && r.sys.now == q.sys.now && r.line == q.line
    requires r.waiting == q.waiting[h := WaitingOn(q, h) + [t]]
    requires LineOrdered(r.sys.tasks, q.line, q.sys.now) && HostOrdered(r.sys.tasks, WaitingOn(q, h) + [t], h)
    requires forall g :: g != h ==> HostOrdered(r.sys.tasks, WaitingOn(q, g), g)
    requires forall g :: g in q.sys.lanes ==> g in r.sys.lanes && r.sys.lanes[g] == q.sys.lanes[g]
    requires forall g :: HostBusy(q, g)
    ensures Ordered(r) && forall g :: g != h ==> HostBusy(r, g)
  {
    forall g ensures HostOrdered(r.sys.tasks, WaitingOn(r, g), g) && (g != h ==> HostBusy(r, g)) {
      assert HostBusy(q, g) && (g != h ==> WaitingOn(r, g) == WaitingOn(q, g));
    }
  }

  /** A task in no queue took a step, and no queue changed. */
  lemma SameQueues(q: Queues, r: Queues, t: nat, p: Phase)
    requires Ordered(q) && t in q.sys.tasks && t !in q.line && !q.sys.tasks[t].phase.Queued? && !p.Queued?
    requires r.sys.tasks == With(q.sys.tasks, t, p) && r.sys.now == q.sys.now && r.line == q.line && r.waiting == q.waiting
    ensures Ordered(r)
  {
    MoveOrdered(q, t, p);
    forall h ensures HostOrdered(r.sys.tasks, WaitingOn(r, h), h) {
      assert WaitingOn(r, h) == WaitingOn(q, h);
    }
  }

  lemma NotAwake(q: Queues, t: nat)
    requires Ordered(q) && t in q.sys.tasks && !q.sys.tasks[t].phase.Claimed?
    ensures t !in q.line
  {
    assert t in q.line ==> Awake(q.sys.tasks, t, q.sys.now);
  }

  /** No queue and no count of free host permits changed. */
  lemma SameBusy(q: Queues, r: Queues)
    requires r.waiting == q.waiting && forall h :: HostBusy(q, h)
    requires forall h :: h in q.sys.lanes ==> h in r.sys.lanes && r.sys.lanes[h].freePermits == q.sys.lanes[h].freePermits
    ensures forall h :: HostBusy(r, h)
  {
    forall h ensures HostBusy(r, h) {
      assert HostBusy(q, h) && WaitingOn(r, h) == WaitingOn(q, h);
    }
  }

  lemma ClaimEffect(s: System, t: nat, lim: Limits)
    requires Enabled(s, ClaimSlot(t))
    ensures var r := Apply(s, ClaimSlot(t), lim);
      && r.tasks == With(s.tasks, t, Claimed(r.tasks[t].phase.slot)) && r.now == s.now && r.globalFree == s.globalFree
      && (forall h :: h in s.lanes ==> h in r.lanes && r.lanes[h].freePermits == s.lanes[h].freePermits)
  {
  }

  lemma ClaimKeeps(q: Queues, t: nat, lim: Limits)
    requires Good(q, lim) && Possible(q, Claim(t))
    ensures Good(Next(q, Claim(t), lim), lim)
  {
    var r := Next(q, Claim(t), lim);
    StepKeepsInv(q.sys, ClaimSlot(t), lim);
    ClaimEffect(q.sys, t, lim);
    NotAwake(q, t);
    SameQueues(q, r, t, r.sys.tasks[t].phase);
    SameBusy(q, r);
  }

  lemma LineGrows(q: Queues, t: nat)
    requires Ordered(q) && Awake(q.sys.tasks, t, q.sys.now) && t !in q.line
    ensures Ordered(q.(line := q.line + [t]))
  {
    var m := q.(line := q.line + [t]);
    forall h ensures HostOrdered(m.sys.tasks, WaitingOn(m, h), h) {
      assert HostOrdered(q.sys.tasks, WaitingOn(q, h), h) && WaitingOn(m, h) == WaitingOn(q, h);
    }
  }

  lemma WakeKeeps(q: Queues, t: nat, lim: Limits)
    requires Good(q, lim) && Possible(q, Wake(t))
    ensures Good(Next(q, Wake(t), lim), lim)
  {
    LineGrows(q, t);
    DialKeeps(q.(line := q.line + [t]), lim);
    SameBusy(q, Next(q, Wake(t), lim));
  }

  lemma FinishEffect(s: System, t: nat, retryAfter: Option<nat>, lim: Limits)
    requires Enabled(s, Finish(t, retryAfter))
    ensures var r, h := Apply(s, Finish(t, retryAfter), lim), s.tasks[t].host;
      && r.tasks == With(s.tasks, t, Done(s.tasks[t].phase.slot, s.tasks[t].phase.at))
      && r.now == s.now && r.globalFree == s.globalFree + 1 && h in r.lanes
      && r.lanes == s.lanes[h := r.lanes[h]] && r.lanes[h].freePermits == s.lanes[h].freePermits + 1
  {
  }

  /** A host permit and a global permit are given back. */
  lemma EndedQueues(q: Queues, t: nat, retryAfter: Option<nat>, lim: Limits)
    requires Good(q, lim) && Possible(q, End(t, retryAfter))
    ensures var m := q.(sys := Apply(q.sys, Finish(t, retryAfter), lim));
      Inv(m.sys, lim) && Ordered(m) && (m.line != [] ==> m.sys.globalFree <= 1)
  {
    var m := q.(sys := Apply(q.sys, Finish(t, retryAfter), lim));
    StepKeepsInv(q.sys, Finish(t, retryAfter), lim);
    FinishEffect(q.sys, t, retryAfter, lim);
    NotAwake(q, t);
    SameQueues(q, m, t, m.sys.tasks[t].phase);
  }

  lemma BusyButOne(q: Queues, d: Queues, h: string)
    requires d.waiting == q.waiting && forall g :: HostBusy(q, g)
    requires h in q.sys.lanes && h in d.sys.lanes && d.sys.lanes[h].freePermits == q.sys.lanes[h].freePermits + 1
    requires d.sys.lanes == q.sys.lanes[h := d.sys.lanes[h]]
    ensures forall g :: g != h ==> HostBusy(d, g)
    ensures WaitingOn(d, h) != [] ==> d.sys.lanes[h].freePermits <= 1
  {
    forall g | g != h ensures HostBusy(d, g) {
      assert HostBusy(q, g) && WaitingOn(d, g) == WaitingOn(q, g);
    }
    assert HostBusy(q, h) && WaitingOn(d, h) == WaitingOn(q, h);
  }

  lemma EndKeeps(q: Queues, t: nat, retryAfter: Option<nat>, lim: Limits)
    requires Good(q, lim) && Possible(q, End(t, retryAfter))
    ensures Good(Next(q, End(t, retryAfter), lim), lim)
  {
    var h, m := q.sys.tasks[t].host, q.(sys := Apply(q.sys, Finish(t, retryAfter), lim));
    EndedQueues(q, t, retryAfter, lim);
    FinishEffect(q.sys, t, retryAfter, lim);
    DialKeeps(m, lim);
    BusyButOne(q, DialNext(m, lim), h);
    AdmitKeeps(DialNext(m, lim), h, lim);
  }

  /** Every event keeps the queues in order and hands on every free permit. */
  lemma NextKeeps(q: Queues, e: Event, lim: Limits)
    requires Good(q, lim) && Possible(q, e)
    ensures Good(Next(q, e, lim), lim)
  {
    match e
    case Wait(d) => WaitKeeps(q, d, lim);
    case Arrive(t, h) => ArriveKeeps(q, t, h, lim);
    case Claim(t) => ClaimKeeps(q, t, lim);
    case Wake(t) => WakeKeeps(q, t, lim);
    case End(t, retryAfter) => EndKeeps(q, t, retryAfter, lim);
  }

  // ---- What one event does to one task -----------------------------------------------------

  predicate Moves(e: Event, t: nat)
  {
    e == Claim(t) || e == Wake(t) || (e.End? && e.task == t)
  }

  lemma AdmitSpares(q: Queues, h: string, lim: Limits, t: nat)
    requires t in q.sys.tasks && !q.sys.tasks[t].phase.Queued?
    ensures var r := AdmitNext(q, h, lim);
      t in r.sys.tasks && r.sys.tasks[t] == q.sys.tasks[t] && r.line == q.line && r.sys.now == q.sys.now
  {
  }

  lemma DialSpares(q: Queues, lim: Limits, t: nat)
    requires t in q.sys.tasks && t !in q.line
    ensures var r := DialNext(q, lim);
      t in r.sys.tasks && r.sys.tasks[t] == q.sys.tasks[t] && t !in r.line && r.sys.now == q.sys.now
  {
  }

  /** A task in no queue stays as it is until it moves. */
  lemma Spared(q: Queues, e: Event, lim: Limits, t: nat)
    requires Possible(q, e) && t in q.sys.tasks && !q.sys.tasks[t].phase.Queued? && t !in q.line && !Moves(e, t)
    ensures var r := Next(q, e, lim);
      t in r.sys.tasks && r.sys.tasks[t] == q.sys.tasks[t] && t !in r.line && r.sys.now >= q.sys.now
  {
    match e
    case Wait(_) =>
    case Arrive(u, h) => AdmitSpares(Join(q.(sys := Apply(q.sys, Spawn(u, h), lim)), u, h), h, lim, t);
    case Claim(u) => ClaimEffect(q.sys, u, lim);
    case Wake(u) => DialSpares(q.(line := q.line + [u]), lim, t);
    case End(u, retryAfter) =>
      var m := q.(sys := Apply(q.sys, Finish(u, retryAfter), lim));
      FinishEffect(q.sys, u, retryAfter, lim);
      DialSpares(m, lim, t);
      AdmitSpares(DialNext(m, lim), q.sys.tasks[u].host, lim, t);
  }

  /** A woken task dials, or stands in line. */
  lemma Woken(q: Queues, t: nat, lim: Limits)
    requires LineBusy(q) && Possible(q, Wake(t))
    ensures var r := Next(q, Wake(t), lim);
      && t in r.sys.tasks && r.sys.tasks[t].host == q.sys.tasks[t].host
      && (r.sys.tasks[t].phase.InFlight? || (t in r.line && r.sys.tasks[t].phase.Claimed?))
  {
    var m := q.(line := q.line + [t]);
    assert t in m.line;
    if q.sys.globalFree > 0 {
      assert m.line == [t];
      DialEffect(q.sys, t, lim);
    }
  }

  lemma Ended(q: Queues, t: nat, retryAfter: Option<nat>, lim: Limits)
    requires t !in q.line && Possible(q, End(t, retryAfter))
    ensures var r := Next(q, End(t, retryAfter), lim);
      t in r.sys.tasks && r.sys.tasks[t].host == q.sys.tasks[t].host && r.sys.tasks[t].phase.Done?
  {
    var m := q.(sys := Apply(q.sys, Finish(t, retryAfter), lim));
    FinishEffect(q.sys, t, retryAfter, lim);
    DialSpares(m, lim, t);
    AdmitSpares(DialNext(m, lim), q.sys.tasks[t].host, lim, t);
  }

  /** The line as a request ends, and the queue of its host. */
  lemma LineAtEnd(q: Queues, u: nat, retryAfter: Option<nat>, lim: Limits)
    requires Good(q, lim) && Possible(q, End(u, retryAfter)) && q.line != []
    ensures var r, t := Next(q, End(u, retryAfter), lim), q.line[0];
      r.line == q.line[1..] && t in r.sys.tasks && r.sys.tasks[t].phase.InFlight?
  {
    var m := q.(sys := Apply(q.sys, Finish(u, retryAfter), lim));
    EndedQueues(q, u, retryAfter, lim);
    FinishEffect(q.sys, u, retryAfter, lim);
    FirstMayDial(m, lim);
    DialEffect(m.sys, m.line[0], lim);
    AdmitSpares(DialNext(m, lim), q.sys.tasks[u].host, lim, m.line[0]);
  }

  lemma QueueAtEnd(q: Queues, u: nat, retryAfter: Option<nat>, lim: Limits, h: string)
    requires Good(q, lim) && Possible(q, End(u, retryAfter)) && q.sys.tasks[u].host == h && WaitingOn(q, h) != []
    ensures var r, t := Next(q, End(u, retryAfter), lim), WaitingOn(q, h)[0];
      WaitingOn(r, h) == WaitingOn(q, h)[1..] && t in r.sys.tasks && r.sys.tasks[t] == Task(h, Permitted)
  {
    var m := q.(sys := Apply(q.sys, Finish(u, retryAfter), lim));
    EndedQueues(q, u, retryAfter, lim);
    FinishEffect(q.sys, u, retryAfter, lim);
    DialKeeps(m, lim);
    FirstIsAdmitted(DialNext(m, lim), h, lim);
  }

  lemma FirstIsAdmitted(q: Queues, h: string, lim: Limits)
    requires Ordered(q) && WaitingOn(q, h) != [] && h in q.sys.lanes && q.sys.lanes[h].freePermits > 0
    ensures var r, t := AdmitNext(q, h, lim), WaitingOn(q, h)[0];
      WaitingOn(r, h) == WaitingOn(q, h)[1..] && t in r.sys.tasks && r.sys.tasks[t] == Task(h, Permitted)
  {
    FirstAdmitted(q, h, Permitted);
  }

  /** A host at work admits nobody new. */
  lemma NewcomerBehind(q: Queues, u: nat, g: string, lim: Limits, h: string)
    requires HostBusy(q, h) && HostOrdered(q.sys.tasks, WaitingOn(q, h), h)
    requires WaitingOn(q, h) != [] && Possible(q, Arrive(u, g))
    ensures WaitingOn(q, h) <= WaitingOn(Next(q, Arrive(u, g), lim), h)
  {
    var joined := Join(q.(sys := Apply(q.sys, Spawn(u, g), lim)), u, g);
    assert WaitingOn(joined, h) == if g == h then WaitingOn(q, h) + [u] else WaitingOn(q, h);
    if g == h {
      assert WaitingOn(q, h)[0] in WaitingOn(q, h);
      assert AdmitNext(joined, h, lim) == joined;
    } else {
      assert WaitingOn(AdmitNext(joined, g, lim), h) == WaitingOn(joined, h);
    }
  }

  /** The line moves up by one with every request that ends, and not otherwise. */
  lemma LineMovesUp(q: Queues, e: Event, lim: Limits, t: nat, g: nat)
    requires Good(q, lim) && Possible(q, e) && g < |q.line| && q.line[g] == t
    ensures var r := Next(q, e, lim);
      if !e.End? then g < |r.line| && r.line[g] == t
      else if g > 0 then g - 1 < |r.line| && r.line[g - 1] == t
      else t in r.sys.tasks && r.sys.tasks[t].phase.InFlight?
  {
    if e.End? { LineAtEnd(q, e.task, e.retryAfter, lim); } else { LineOtherwise(q, e, lim); }
  }

  lemma LineOtherwise(q: Queues, e: Event, lim: Limits)
    requires LineBusy(q) && q.line != [] && Possible(q, e) && !e.End?
    ensures q.line <= Next(q, e, lim).line
  {
  }

  /** So does the queue of a host, with every request to it that ends. */
  lemma QueueMovesUp(q: Queues, e: Event, lim: Limits, h: string, t: nat, k: nat)
    requires Good(q, lim) && Possible(q, e) && k < |WaitingOn(q, h)| && WaitingOn(q, h)[k] == t
    ensures var r := Next(q, e, lim);
      if !e.End? || q.sys.tasks[e.task].host != h then k < |WaitingOn(r, h)| && WaitingOn(r, h)[k] == t
      else if k > 0 then k - 1 < |WaitingOn(r, h)| && WaitingOn(r, h)[k - 1] == t
      else t in r.sys.tasks && r.sys.tasks[t] == Task(h, Permitted)
  {
    assert HostBusy(q, h) && HostOrdered(q.sys.tasks, WaitingOn(q, h), h);
    match e
    case Arrive(u, g) => NewcomerBehind(q, u, g, lim, h);
    case End(u, retryAfter) =>
      if q.sys.tasks[u].host == h { QueueAtEnd(q, u, retryAfter, lim, h); } else { QueueElsewhere(q, u, retryAfter, lim, h); }
    case _ => QueueOtherwise(q, e, lim, h);
  }

  lemma QueueOtherwise(q: Queues, e: Event, lim: Limits, h: string)
    requires Possible(q, e) && !e.Arrive? && !e.End?
    ensures WaitingOn(Next(q, e, lim), h) == WaitingOn(q, h)
  {
  }

  lemma QueueElsewhere(q: Queues, u: nat, retryAfter: Option<nat>, lim: Limits, h: string)
    requires Possible(q, End(u, retryAfter)) && q.sys.tasks[u].host != h
    ensures WaitingOn(Next(q, End(u, retryAfter), lim), h) == WaitingOn(q, h)
  {
  }

  // ---- What one event does to all tasks ------------------------------------------------------

  /** Nothing but the task itself stands between it and its next step. */
  predicate Ready(q: Queues, t: nat)
  {
    t in q.sys.tasks &&
      match q.sys.tasks[t].phase
      case Permitted => true
      case Claimed(slot) => slot <= q.sys.now && t !in q.line
      case InFlight(_, _) => true
      case _ => false
  }

  predicate Flies(q: Queues, t: nat) { t in q.sys.tasks && q.sys.tasks[t].phase.InFlight? }

  predicate InLine(q: Queues, t: nat, g: nat) { g < |q.line| && q.line[g] == t }

  predicate InQueue(q: Queues, h: string, t: nat, k: nat) { k < |WaitingOn(q, h)| && WaitingOn(q, h)[k] == t }

  /** A task holds a permit of its host. */
  predicate Holds(q: Queues, t: nat, h: string)
  {
    t in q.sys.tasks && q.sys.tasks[t].host == h && q.sys.tasks[t].phase.HoldsPermit()
  }

  predicate Ends(q: Queues, e: Event, h: string) { e.End? && e.task in q.sys.tasks && q.sys.tasks[e.task].host == h }

  /** A task that does not move stays as it is, unless it is in a queue. */
  predicate Stays(q: Queues, r: Queues, e: Event, t: nat)
  {
    t in q.sys.tasks && !q.sys.tasks[t].phase.Queued? && t !in q.line && !Moves(e, t) ==>
      t in r.sys.tasks && r.sys.tasks[t] == q.sys.tasks[t] && t !in r.line
  }

  /** A task that moves is one phase further, or stands in line. */
  predicate Advances(q: Queues, r: Queues, e: Event, t: nat)
  {
    t in q.sys.tasks && Moves(e, t) ==>
      && t in r.sys.tasks && r.sys.tasks[t].host == q.sys.tasks[t].host
      && match q.sys.tasks[t].phase
         case Permitted => r.sys.tasks[t].phase.Claimed?
         case Claimed(slot) => slot <= q.sys.now && t !in q.line && (r.sys.tasks[t].phase.InFlight? || (t in r.line && r.sys.tasks[t].phase.Claimed?))
         case InFlight(_, _) => e.End? && r.sys.tasks[t].phase.Done?
         case _ => false
  }

  predicate HostStays(q: Queues, r: Queues, t: nat)
  {
    t in q.sys.tasks ==> t in r.sys.tasks && r.sys.tasks[t].host == q.sys.tasks[t].host
  }

  /** The line moves up by one with every request that ends, and not otherwise. */
  predicate LineServed(q: Queues, r: Queues, e: Event, t: nat, g: nat)
  {
    InLine(q, t, g) ==> if !e.End? then InLine(r, t, g) else if g > 0 then InLine(r, t, g - 1) else Flies(r, t)
  }

  /** So does the queue of a host, with every request to it that ends. */
  predicate QueueServed(q: Queues, r: Queues, e: Event, h: string, t: nat, k: nat)
  {
    InQueue(q, h, t, k) ==>
      if !Ends(q, e, h) then InQueue(r, h, t, k) else if k > 0 then InQueue(r, h, t, k - 1) else Holds(r, t, h)
  }

  ghost predicate SomeoneFlies(q: Queues) { exists u :: Flies(q, u) }

  ghost predicate SomeoneHolds(q: Queues, h: string) { exists u :: Holds(q, u, h) }

  /** Who has no permit yet has a place in the queue of its host. */
  ghost predicate HasPlace(q: Queues, t: nat)
  {
    t in q.sys.tasks && q.sys.tasks[t].phase.Queued? ==> exists k: nat :: InQueue(q, q.sys.tasks[t].host, t, k)
  }

  /** What an event means for every task. */
  ghost predicate Served(q: Queues, e: Event, r: Queues)
  {
    && r.sys.now >= q.sys.now
    && (forall t: nat :: t in q.line ==> Awake(q.sys.tasks, t, q.sys.now))
    && (q.line != [] ==> SomeoneFlies(q))
    && (forall h :: WaitingOn(q, h) != [] ==> SomeoneHolds(q, h))
    && (forall t: nat :: HasPlace(q, t))
    && (forall t: nat :: HostStays(q, r, t))
    && (forall t: nat :: Stays(q, r, e, t))
    && (forall t: nat :: Advances(q, r, e, t))
    && (forall t: nat, g: nat :: LineServed(q, r, e, t, g))
    && (forall h, t: nat, k: nat :: QueueServed(q, r, e, h, t, k))
  }

  lemma SomebodyFlies(q: Queues, lim: Limits)
    requires Inv(q.sys, lim) && LineBusy(q) && lim.globalCap > 0 && q.line != []
    ensures SomeoneFlies(q)
  {
    assert |Flying(q.sys.tasks)| == lim.globalCap;
    var u :| u in Flying(q.sys.tasks);
    assert Flies(q, u);
  }

  lemma SomebodyHolds(q: Queues, lim: Limits, h: string)
    requires Inv(q.sys, lim) && HostBusy(q, h) && WaitingOn(q, h) != []
    ensures SomeoneHolds(q, h)
  {
    assert HostOk(q.sys.tasks, h, q.sys.lanes[h], lim);
    var u :| u in Holders(q.sys.tasks, h);
    assert Holds(q, u, h);
  }

  lemma EveryoneHasPlace(q: Queues, t: nat)
    requires Ordered(q)
    ensures HasPlace(q, t)
  {
    if t in q.sys.tasks && q.sys.tasks[t].phase.Queued? {
      var h := q.sys.tasks[t].host;
      assert HostOrdered(q.sys.tasks, WaitingOn(q, h), h) && Waits(q.sys.tasks, t, h);
      var k :| 0 <= k < |WaitingOn(q, h)| && WaitingOn(q, h)[k] == t;
      assert InQueue(q, h, t, k);
    }
  }

  lemma AdmitHost(q: Queues, h: string, lim: Limits, t: nat)
    ensures HostStays(q, AdmitNext(q, h, lim), t)
  {
  }

  lemma DialHost(q: Queues, lim: Limits, t: nat)
    ensures HostStays(q, DialNext(q, lim), t)
  {
  }

  lemma HostsStay(q: Queues, e: Event, lim: Limits, t: nat)
    requires Possible(q, e)
    ensures HostStays(q, Next(q, e, lim), t)
  {
    match e
    case Wait(_) =>
    case Arrive(u, h) => AdmitHost(Join(q.(sys := Apply(q.sys, Spawn(u, h), lim)), u, h), h, lim, t);
    case Claim(u) => ClaimEffect(q.sys, u, lim);
    case Wake(u) => DialHost(q.(line := q.line + [u]), lim, t);
    case End(u, retryAfter) =>
      var m := q.(sys := Apply(q.sys, Finish(u, retryAfter), lim));
      FinishEffect(q.sys, u, retryAfter, lim);
      DialHost(m, lim, t);
      AdmitHost(DialNext(m, lim), q.sys.tasks[u].host, lim, t);
  }

  lemma TimeMovesOn(q: Queues, e: Event, lim: Limits)
    requires Possible(q, e)
    ensures Next(q, e, lim).sys.now >= q.sys.now
  {
  }

  lemma ClaimAdvances(q: Queues, t: nat, lim: Limits)
    requires Possible(q, Claim(t))
    ensures Advances(q, Next(q, Claim(t), lim), Claim(t), t)
  {
    ClaimEffect(q.sys, t, lim);
  }

  lemma WakeAdvances(q: Queues, t: nat, lim: Limits)
    requires LineBusy(q) && Possible(q, Wake(t))
    ensures Advances(q, Next(q, Wake(t), lim), Wake(t), t)
  {
    Woken(q, t, lim);
  }

  lemma EndAdvances(q: Queues, t: nat, retryAfter: Option<nat>, lim: Limits)
    requires Ordered(q) && Possible(q, End(t, retryAfter))
    ensures Advances(q, Next(q, End(t, retryAfter), lim), End(t, retryAfter), t)
  {
    NotAwake(q, t);
    Ended(q, t, retryAfter, lim);
  }

  lemma TaskAdvances(q: Queues, e: Event, lim: Limits, t: nat)
    requires Ordered(q) && LineBusy(q) && Possible(q, e)
    ensures Advances(q, Next(q, e, lim), e, t)
  {
    if Moves(e, t) {
      match e
      case Claim(_) => ClaimAdvances(q, t, lim);
      case Wake(_) => WakeAdvances(q, t, lim);
      case End(_, retryAfter) => EndAdvances(q, t, retryAfter, lim);
    }
  }

  lemma EverybodyServed(q: Queues, e: Event, lim: Limits)
    requires Good(q, lim) && Possible(q, e) && lim.globalCap > 0
    ensures Served(q, e, Next(q, e, lim))
  {
    var r := Next(q, e, lim);
    TimeMovesOn(q, e, lim);
    if q.line != [] { SomebodyFlies(q, lim); }
    forall h | WaitingOn(q, h) != [] ensures SomeoneHolds(q, h) {
      assert HostBusy(q, h);
      SomebodyHolds(q, lim, h);
    }
    forall t: nat ensures HasPlace(q, t) { EveryoneHasPlace(q, t); }
    forall t: nat ensures HostStays(q, r, t) { HostsStay(q, e, lim, t); }
    forall t: nat ensures Stays(q, r, e, t) { TaskStays(q, e, lim, t); }
    forall t: nat ensures Advances(q, r, e, t) { TaskAdvances(q, e, lim, t); }
    forall t: nat, g: nat ensures LineServed(q, r, e, t, g) { LineIsServed(q, e, lim, t, g); }
    forall h, t: nat, k: nat ensures QueueServed(q, r, e, h, t, k) { QueueIsServed(q, e, lim, h, t, k); }
  }

  lemma TaskStays(q: Queues, e: Event, lim: Limits, t: nat)
    requires Possible(q, e)
    ensures Stays(q, Next(q, e, lim), e, t)
  {
    if t in q.sys.tasks && !q.sys.tasks[t].phase.Queued? && t !in q.line && !Moves(e, t) { Spared(q, e, lim, t); }
  }

  lemma LineIsServed(q: Queues, e: Event, lim: Limits, t: nat, g: nat)
    requires Good(q, lim) && Possible(q, e)
    ensures LineServed(q, Next(q, e, lim), e, t, g)
  {
    if InLine(q, t, g) { LineMovesUp(q, e, lim, t, g); }
  }

  lemma QueueIsServed(q: Queues, e: Event, lim: Limits, h: string, t: nat, k: nat)
    requires Good(q, lim) && Possible(q, e)
    ensures QueueServed(q, Next(q, e, lim), e, h, t, k)
  {
    if InQueue(q, h, t, k) { QueueMovesUp(q, e, lim, h, t, k); }
  }

  // ---- Whole executions ---------------------------------------------------------------------

  /** An execution that never stops; fetches may keep arriving for ever. */
  ghost predicate Execution(qs: nat -> Queues, es: nat -> Event, lim: Limits)
  {
    Good(qs(0), lim) && forall n: nat :: Follows(qs(n), es(n), qs(n + 1), lim)
  }

  predicate Follows(q: Queues, e: Event, r: Queues, lim: Limits)
  {
    Possible(q, e) && r == Next(q, e, lim)
  }

  /** A task that is ready moves in the end: it is scheduled, and its request ends,
      if only by the timeout. */
  ghost predicate WeaklyFair(qs: nat -> Queues, es: nat -> Event)
  {
    forall n: nat, t: nat :: Ready(qs(n), t) ==> Later(es, n, t)
  }

  ghost predicate Later(es: nat -> Event, n: nat, t: nat)
  {
    exists m: nat :: n <= m && Moves(es(m), t)
  }

  ghost predicate TimePasses(qs: nat -> Queues)
  {
    forall time: nat :: Attained(qs, time)
  }

  ghost predicate Attained(qs: nat -> Queues, time: nat)
  {
    exists n: nat :: time <= qs(n).sys.now
  }

  ghost predicate Serving(qs: nat -> Queues, es: nat -> Event)
  {
    forall n: nat :: ServedAt(qs, es, n)
  }

  ghost predicate ServedAt(qs: nat -> Queues, es: nat -> Event, n: nat)
  {
    Served(qs(n), es(n), qs(n + 1))
  }

  lemma GoodFollows(q: Queues, e: Event, r: Queues, lim: Limits)
    requires Good(q, lim) && Follows(q, e, r, lim)
    ensures Good(r, lim)
  {
    NextKeeps(q, e, lim);
  }

  lemma GoodAfter(qs: nat -> Queues, es: nat -> Event, lim: Limits, n: nat)
    requires Execution(qs, es, lim) && Good(qs(n), lim)
    ensures Good(qs(n + 1), lim)
  {
    GoodFollows(qs(n), es(n), qs(n + 1), lim);
  }

  predicate Carries(good: Queues -> bool, qs: nat -> Queues, n: nat)
  {
    good(qs(n)) ==> good(qs(n + 1))
  }

  lemma {:induction false} Carried(good: Queues -> bool, qs: nat -> Queues, n: nat)
    requires good(qs(0)) && forall k: nat :: Carries(good, qs, k)
    ensures good(qs(n))
  {
    if n > 0 {
      Carried(good, qs, n - 1);
      assert Carries(good, qs, n - 1);
    }
  }

  lemma AlwaysGood(qs: nat -> Queues, es: nat -> Event, lim: Limits, n: nat)
    requires Execution(qs, es, lim)
    ensures Good(qs(n), lim)
  {
    ghost var good := (q: Queues) => Good(q, lim);
    forall k: nat ensures Carries(good, qs, k) {
      if good(qs(k)) { GoodAfter(qs, es, lim, k); }
    }
    Carried(good, qs, n);
  }

  lemma AlwaysServing(qs: nat -> Queues, es: nat -> Event, lim: Limits)
    requires Execution(qs, es, lim) && lim.globalCap > 0
    ensures Serving(qs, es)
  {
    forall n: nat ensures ServedAt(qs, es, n) {
      AlwaysGood(qs, es, lim, n);
      FollowServes(qs(n), es(n), qs(n + 1), lim);
    }
  }

  lemma FollowServes(q: Queues, e: Event, r: Queues, lim: Limits)
    requires Good(q, lim) && Follows(q, e, r, lim) && lim.globalCap > 0
    ensures Served(q, e, r)
  {
    EverybodyServed(q, e, lim);
  }

  // ---- A permit in turn ---------------------------------------------------------------------

  /** How many requests to a host end from event n to before event m. */
  function EndsBetween(qs: nat -> Queues, es: nat -> Event, h: string, n: nat, m: nat): nat
    requires n <= m
    decreases m - n
  {
    if n == m then 0 else EndsBetween(qs, es, h, n, m - 1) + if Ends(qs(m - 1), es(m - 1), h) then 1 else 0
  }

  /** The place of a waiting task counts the requests to its host that must end
      before its turn comes. */
  lemma {:induction false} PlaceCounts(qs: nat -> Queues, es: nat -> Event, h: string, t: nat, k: nat, n: nat, m: nat)
    requires Serving(qs, es) && InQueue(qs(n), h, t, k) && n <= m && EndsBetween(qs, es, h, n, m) <= k
    ensures InQueue(qs(m), h, t, k - EndsBetween(qs, es, h, n, m))
    decreases m - n
  {
    if n < m {
      PlaceCounts(qs, es, h, t, k, n, m - 1);
      QueueServedAt(qs, es, h, t, k - EndsBetween(qs, es, h, n, m - 1), m - 1);
    }
  }

  /** It keeps waiting while as many requests have ended as its place says, and gets
      its permit with the next one: nobody overtakes it, and nobody keeps it waiting
      longer. */
  lemma PermitInTurn(qs: nat -> Queues, es: nat -> Event, lim: Limits, h: string, t: nat, k: nat, n: nat, m: nat)
    requires Execution(qs, es, lim) && lim.globalCap > 0
    requires InQueue(qs(n), h, t, k) && n <= m && EndsBetween(qs, es, h, n, m) == k
    ensures InQueue(qs(m), h, t, 0)
    ensures if Ends(qs(m), es(m), h) then Holds(qs(m + 1), t, h) else InQueue(qs(m + 1), h, t, 0)
  {
    AlwaysServing(qs, es, lim);
    PlaceCounts(qs, es, h, t, k, n, m);
    QueueServedAt(qs, es, h, t, 0, m);
  }

  lemma QueueServedAt(qs: nat -> Queues, es: nat -> Event, h: string, t: nat, k: nat, n: nat)
    requires Serving(qs, es)
    ensures QueueServed(qs(n), qs(n + 1), es(n), h, t, k)
  {
    assert ServedAt(qs, es, n);
  }

  // ---- Every fetch ends ---------------------------------------------------------------------

  lemma ReadyStays(q: Queues, e: Event, r: Queues, t: nat)
    requires Served(q, e, r) && Ready(q, t) && !Moves(e, t)
    ensures Ready(r, t) && r.sys.tasks[t] == q.sys.tasks[t]
  {
    assert Stays(q, r, e, t);
  }

  /** A task that is ready takes its next step, some time. */
  lemma {:induction false} NextMove(qs: nat -> Queues, es: nat -> Event, t: nat, n: nat, last: nat) returns (m: nat)
    requires Serving(qs, es) && Ready(qs(n), t) && n <= last && Moves(es(last), t)
    ensures n <= m && Moves(es(m), t) && t in qs(m).sys.tasks && qs(m).sys.tasks[t] == qs(n).sys.tasks[t]
    decreases last - n
  {
    if Moves(es(n), t) { return n; }
    assert ServedAt(qs, es, n);
    ReadyStays(qs(n), es(n), qs(n + 1), t);
    m := NextMove(qs, es, t, n + 1, last);
  }

  lemma MovesOnce(qs: nat -> Queues, es: nat -> Event, t: nat, n: nat) returns (m: nat)
    requires Serving(qs, es) && WeaklyFair(qs, es) && Ready(qs(n), t)
    ensures n <= m && Moves(es(m), t) && t in qs(m).sys.tasks && qs(m).sys.tasks[t] == qs(n).sys.tasks[t]
    ensures Advances(qs(m), qs(m + 1), es(m), t)
  {
    assert Later(es, n, t);
    var last: nat :| n <= last && Moves(es(last), t);
    m := NextMove(qs, es, t, n, last);
    assert ServedAt(qs, es, m);
  }

  lemma {:induction false} SameHost(qs: nat -> Queues, es: nat -> Event, t: nat, n: nat, m: nat)
    requires Serving(qs, es) && t in qs(n).sys.tasks && n <= m
    ensures t in qs(m).sys.tasks && qs(m).sys.tasks[t].host == qs(n).sys.tasks[t].host
    decreases m - n
  {
    if n < m {
      SameHost(qs, es, t, n, m - 1);
      assert ServedAt(qs, es, m - 1);
      assert HostStays(qs(m - 1), qs(m - 1 + 1), t);
    }
  }

  predicate EndsFor(q: Queues, e: Event, t: nat) { Flies(q, t) && e.End? && e.task == t }

  /** A request in flight ends. */
  lemma FlightEnds(qs: nat -> Queues, es: nat -> Event, t: nat, n: nat) returns (m: nat)
    requires Serving(qs, es) && WeaklyFair(qs, es) && Flies(qs(n), t)
    ensures n <= m && EndsFor(qs(m), es(m), t)
  {
    m := MovesOnce(qs, es, t, n);
  }

  /** Who stands in line dials: whoever keeps the permits gives them back. */
  lemma {:induction false} LineDials(qs: nat -> Queues, es: nat -> Event, t: nat, g: nat, n: nat, last: nat) returns (m: nat)
    requires Serving(qs, es) && WeaklyFair(qs, es) && InLine(qs(n), t, g) && n <= last && es(last).End?
    ensures n <= m && Flies(qs(m), t)
    decreases g, last - n
  {
    assert ServedAt(qs, es, n);
    assert LineServed(qs(n), qs(n + 1), es(n), t, g);
    if !es(n).End? {
      m := LineDials(qs, es, t, g, n + 1, last);
    } else if g > 0 {
      var end := LineEnd(qs, es, n + 1);
      m := LineDials(qs, es, t, g - 1, n + 1, end);
    } else {
      m := n + 1;
    }
  }

  /** While somebody stands in line some request ends. */
  lemma LineEnd(qs: nat -> Queues, es: nat -> Event, n: nat) returns (m: nat)
    requires Serving(qs, es) && WeaklyFair(qs, es) && qs(n).line != []
    ensures n <= m && es(m).End?
  {
    assert ServedAt(qs, es, n);
    var u :| Flies(qs(n), u);
    m := FlightEnds(qs, es, u, n);
  }

  lemma StandsInLine(qs: nat -> Queues, es: nat -> Event, t: nat, n: nat) returns (m: nat)
    requires Serving(qs, es) && WeaklyFair(qs, es) && t in qs(n).line
    ensures n <= m && Flies(qs(m), t)
  {
    var g :| 0 <= g < |qs(n).line| && qs(n).line[g] == t;
    var end := LineEnd(qs, es, n);
    m := LineDials(qs, es, t, g, n, end);
  }

  predicate HasClaimed(q: Queues, t: nat, slot: nat) { t in q.sys.tasks && q.sys.tasks[t].phase == Claimed(slot) }

  /** Who has a slot dials, once the slot is there. */
  lemma {:induction false} SlotDials(qs: nat -> Queues, es: nat -> Event, t: nat, slot: nat, n: nat, last: nat) returns (m: nat)
    requires Serving(qs, es) && WeaklyFair(qs, es) && HasClaimed(qs(n), t, slot) && n <= last && slot <= qs(last).sys.now
    ensures n <= m && Flies(qs(m), t)
    decreases last - n
  {
    if t in qs(n).line {
      m := StandsInLine(qs, es, t, n);
    } else if slot <= qs(n).sys.now {
      m := MovesOnce(qs, es, t, n);
      m := m + 1;
      if t in qs(m).line { m := StandsInLine(qs, es, t, m); }
    } else {
      assert ServedAt(qs, es, n);
      assert Advances(qs(n), qs(n + 1), es(n), t) && Stays(qs(n), qs(n + 1), es(n), t);
      m := SlotDials(qs, es, t, slot, n + 1, last);
    }
  }

  lemma {:induction false} TimeOrder(qs: nat -> Queues, es: nat -> Event, n: nat, m: nat)
    requires Serving(qs, es) && n <= m
    ensures qs(n).sys.now <= qs(m).sys.now
    decreases m - n
  {
    if n < m {
      TimeOrder(qs, es, n, m - 1);
      assert ServedAt(qs, es, m - 1);
    }
  }

  lemma ClaimedDials(qs: nat -> Queues, es: nat -> Event, t: nat, slot: nat, n: nat) returns (m: nat)
    requires Serving(qs, es) && WeaklyFair(qs, es) && TimePasses(qs) && HasClaimed(qs(n), t, slot)
    ensures n <= m && Flies(qs(m), t)
  {
    assert Attained(qs, slot);
    var k: nat :| slot <= qs(k).sys.now;
    if k < n { TimeOrder(qs, es, k, n); }
    m := SlotDials(qs, es, t, slot, n, Max(k, n));
  }

  /** Whoever holds a permit of a host gives it back. */
  lemma HolderEnds(qs: nat -> Queues, es: nat -> Event, t: nat, h: string, n: nat) returns (m: nat)
    requires Serving(qs, es) && WeaklyFair(qs, es) && TimePasses(qs) && Holds(qs(n), t, h)
    ensures n <= m && EndsFor(qs(m), es(m), t) && Ends(qs(m), es(m), h)
  {
    m := n;
    if qs(m).sys.tasks[t].phase.Permitted? {
      m := MovesOnce(qs, es, t, m);
      m := m + 1;
    }
    if qs(m).sys.tasks[t].phase.Claimed? {
      m := ClaimedDials(qs, es, t, qs(m).sys.tasks[t].phase.slot, m);
    }
    m := FlightEnds(qs, es, t, m);
    SameHost(qs, es, t, n, m);
  }

  /** While somebody waits for a host some request to it ends. */
  lemma QueueEnd(qs: nat -> Queues, es: nat -> Event, h: string, n: nat) returns (m: nat)
    requires Serving(qs, es) && WeaklyFair(qs, es) && TimePasses(qs) && WaitingOn(qs(n), h) != []
    ensures n <= m && Ends(qs(m), es(m), h)
  {
    assert ServedAt(qs, es, n);
    assert SomeoneHolds(qs(n), h);
    var u :| Holds(qs(n), u, h);
    m := HolderEnds(qs, es, u, h, n);
  }

  /** Who waits for a permit of its host gets one. */
  lemma {:induction false} QueueAdmits(qs: nat -> Queues, es: nat -> Event, h: string, t: nat, k: nat, n: nat, last: nat) returns (m: nat)
    requires Serving(qs, es) && WeaklyFair(qs, es) && TimePasses(qs)
    requires InQueue(qs(n), h, t, k) && n <= last && Ends(qs(last), es(last), h)
    ensures n <= m && Holds(qs(m), t, h)
    decreases k, last - n
  {
    assert ServedAt(qs, es, n);
    assert QueueServed(qs(n), qs(n + 1), es(n), h, t, k);
    if !Ends(qs(n), es(n), h) {
      m := QueueAdmits(qs, es, h, t, k, n + 1, last);
    } else if k > 0 {
      var end := QueueEnd(qs, es, h, n + 1);
      m := QueueAdmits(qs, es, h, t, k - 1, n + 1, end);
    } else {
      m := n + 1;
    }
  }

  predicate Over(q: Queues, t: nat) { t in q.sys.tasks && q.sys.tasks[t].phase.Done? }

  lemma FetchEnds(qs: nat -> Queues, es: nat -> Event, t: nat, n: nat) returns (m: nat)
    requires Serving(qs, es) && WeaklyFair(qs, es) && TimePasses(qs) && t in qs(n).sys.tasks
    ensures n <= m && Over(qs(m), t)
  {
    m := n;
    var h := qs(n).sys.tasks[t].host;
    if qs(m).sys.tasks[t].phase.Queued? {
      assert ServedAt(qs, es, n);
      assert HasPlace(qs(n), t);
      var k: nat :| InQueue(qs(n), h, t, k);
      var end := QueueEnd(qs, es, h, n);
      m := QueueAdmits(qs, es, h, t, k, n, end);
    }
    if !Over(qs(m), t) {
      m := HolderEnds(qs, es, t, h, m);
      assert ServedAt(qs, es, m);
      assert Advances(qs(m), qs(m + 1), es(m), t);
      m := m + 1;
    }
  }

  /** No fetch waits for ever, however many others keep arriving: if ready tasks are
      scheduled, requests end and time passes, every fetch ends. */
  lemma EveryFetchEnds(qs: nat -> Queues, es: nat -> Event, lim: Limits, t: nat, n: nat)
    requires Execution(qs, es, lim) && WeaklyFair(qs, es) && TimePasses(qs) && lim.globalCap > 0
    requires t in qs(n).sys.tasks
    ensures exists m: nat :: n <= m && Over(qs(m), t)
  {
    AlwaysServing(qs, es, lim);
    var m := FetchEnds(qs, es, t, n);
  }
}
