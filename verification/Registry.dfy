/** Range scanning and boundary search over the agent registry
    (crates/chain/src/registry.rs). */
module Registry {
  import opened Common
  import opened Ledger

  // ---- The adaptive window ---------------------------------------------------

  const GROW_AFTER: nat := 16

  /** How many blocks the next query asks for. */
  class LogWindow {
    var current: nat
    var ceiling: nat
    var consecutiveOk: nat

    ghost predicate Valid()
      reads this
    {
      1 <= current <= ceiling && consecutiveOk < GROW_AFTER
    }

    /** No room to grow. The constructor and both methods keep this, so the
        window never widens again once it has narrowed. */
    ghost predicate AtCeiling()
      reads this
    {
      current == ceiling
    }

    constructor (start: nat)
      ensures Valid() && AtCeiling() && current == Max(start, 1)
    {
      current, ceiling, consecutiveOk := Max(start, 1), Max(start, 1), 0;
    }

    /** Halve the window; false when one block is already all it asks for. */
    method OnFailure() returns (narrowed: bool)
      requires Valid()
      modifies this
      ensures Valid() && (old(AtCeiling()) ==> AtCeiling())
      ensures narrowed <==> old(current) > 1
      ensures current == if narrowed then old(current) / 2 else old(current)
      ensures ceiling == if narrowed && old(AtCeiling()) then old(ceiling) / 2 else old(ceiling)
      ensures consecutiveOk == 0
    {
      consecutiveOk := 0;
      if current <= 1 { return false; }
      if current >= ceiling { ceiling := Max(ceiling / 2, 1); }
      current := Max(current / 2, 1);
      narrowed := true;
    }

    /** Below the ceiling, every sixteenth success in a row doubles the window;
        at the ceiling nothing changes. */
    method OnSuccess()
      requires Valid()
      modifies this
      ensures Valid() && ceiling == old(ceiling)
      ensures old(AtCeiling()) ==> AtCeiling() && current == old(current) && consecutiveOk == old(consecutiveOk)
      ensures !old(AtCeiling()) ==>
        if old(consecutiveOk) + 1 < 16 then current == old(current) && consecutiveOk == old(consecutiveOk) + 1
        else current == Min(2 * old(current), ceiling) && consecutiveOk == 0
    {
      if current >= ceiling { return; }
      consecutiveOk := consecutiveOk + 1;
      if consecutiveOk >= GROW_AFTER {
        current := Min(current * 2, ceiling);
        consecutiveOk := 0;
      }
    }
  }

  // ---- Registrations -----------------------------------------------------------

  /** A log as returned; None where it does not decode, or names no transaction. */
  datatype RegLog = RegLog(agentId: Option<nat>, txHash: Option<string>, block: Option<nat>)

  datatype Registration = Registration(txHash: string, block: nat)

  /** The registration a log stands for, if it is one that can be cited. */
  predicate Cites(log: RegLog, id: nat, r: Registration)
  {
    log == RegLog(Some(id), Some(r.txHash), Some(r.block)) && id <= U64_MAX
  }

  ghost predicate Registered(logs: set<RegLog>, id: nat, r: Registration)
  {
    exists l :: l in logs && Cites(l, id, r)
  }

  /** The map holds, for each id registered in these logs, a registration of
      the lowest block, and nothing for any other id. */
  ghost predicate Earliest(out: map<nat, Registration>, logs: set<RegLog>)
  {
    && (forall id :: id in out ==> Registered(logs, id, out[id]))
    && (forall l, id, r :: l in logs && Cites(l, id, r) ==> id in out && out[id].block <= r.block)
  }

  function Entry(log: RegLog): Option<(nat, Registration)>
  {
    if log.agentId.Some? && log.agentId.value <= U64_MAX && log.txHash.Some? && log.block.Some? then
      Some((log.agentId.value, Registration(log.txHash.value, log.block.value)))
    else None
  }

  /** Keep the earlier of two registrations of the same agent. */
  method Absorb(out: map<nat, Registration>, log: RegLog, ghost seen: set<RegLog>) returns (r: map<nat, Registration>)
    requires Earliest(out, seen)
    ensures Earliest(r, seen + {log})
  {
    var entry := Entry(log);
    match entry {
      case None =>
        r := out;
      case Some((id, reg)) =>
        assert Cites(log, id, reg);
        if id in out && out[id].block <= reg.block {
          r := out;
        } else {
          r := out[id := reg];
        }
        forall k | k in r ensures Registered(seen + {log}, k, r[k]) {
          if k != id || r == out { var l :| l in seen && Cites(l, k, r[k]); assert l in seen + {log}; }
        }
    }
    forall k | k in r ensures Registered(seen + {log}, k, r[k]) {
      if entry.None? { var l :| l in seen && Cites(l, k, r[k]); assert l in seen + {log}; }
    }
  }

  /** The logs a block range holds; a provider may return them in any order. */
  ghost function SetOf(logs: seq<RegLog>): set<RegLog>
  {
    set l | l in logs
  }

  ghost predicate HonestSet(blocks: nat -> seq<RegLog>, p: Provider<RegLog>)
  {
    forall n: nat, lo: nat, hi: nat :: p(n, lo, hi).Logs? ==> SetOf(p(n, lo, hi).logs) == SetOf(LogsIn(blocks, lo, hi))
  }

  function SaturatingAdd(a: nat, b: nat): nat { Min(a + b, U64_MAX) }

  method AbsorbAll(out: map<nat, Registration>, logs: seq<RegLog>, ghost seen: set<RegLog>) returns (r: map<nat, Registration>)
    requires Earliest(out, seen)
    ensures Earliest(r, seen + SetOf(logs))
  {
    r := out;
    assert seen + SetOf(logs[..0]) == seen;
    for i := 0 to |logs|
      invariant Earliest(r, seen + SetOf(logs[..i]))
    {
      r := Absorb(r, logs[i], seen + SetOf(logs[..i]));
      assert seen + SetOf(logs[..i]) + {logs[i]} == seen + SetOf(logs[..i + 1]);
    }
    assert logs[..|logs|] == logs;
  }

  /** One scan in flight: the windows so far end just below lo, and each
      narrowing has cost one failure. */
  ghost predicate Scanned(from: nat, to: nat, lo: nat, windows: seq<Span>, failures: nat, window: nat, start: nat)
  {
    && from <= lo && (if from <= to then lo <= to + 1 && TilesBelow(windows, from, lo) else lo == from && windows == [])
    && window * Pow2(failures) <= start
    && window >= 1
    && (forall i :: 0 <= i < |windows| ==> windows[i].hi - windows[i].lo < start)
  }

  lemma ScannedOn(from: nat, to: nat, lo: nat, windows: seq<Span>, failures: nat, window: nat, start: nat, hi: nat)
    requires Scanned(from, to, lo, windows, failures, window, start)
    requires lo <= hi <= to && hi - lo < window
    ensures Scanned(from, to, hi + 1, windows + [Span(lo, hi)], failures, window, start)
  {
    Pow2Positive(failures);
    AtLeastItself(window, Pow2(failures));
  }

  lemma AtLeastItself(x: nat, k: nat)
    requires k >= 1
    ensures x <= x * k
  {
    assert x * k == x + x * (k - 1);
  }

  lemma ScannedNarrower(from: nat, to: nat, lo: nat, windows: seq<Span>, failures: nat, window: nat, start: nat)
    requires Scanned(from, to, lo, windows, failures, window, start) && window > 1
    ensures Scanned(from, to, lo, windows, failures + 1, window / 2, start)
  {
    assert (window / 2) * Pow2(failures + 1) == (window / 2 * 2) * Pow2(failures);
    assert (window / 2 * 2) * Pow2(failures) <= window * Pow2(failures);
  }

  lemma ScannedFailures(from: nat, to: nat, lo: nat, windows: seq<Span>, failures: nat, window: nat, start: nat)
    requires Scanned(from, to, lo, windows, failures, window, start) && start >= 1
    ensures failures <= Log2(start)
  {
    Pow2Positive(failures);
    assert Pow2(failures) <= window * Pow2(failures);
    Log2Largest(start, failures);
  }

  /** A scan between two calls: where it goes on, its window, the windows answered,
      the failures and the logs so far; or the error that ended it. */
  datatype Scan = AtBlock(lo: nat, window: nat, windows: seq<Span>, failures: nat, seen: set<RegLog>) | Gone(error: string)

  function WindowEnd(lo: nat, window: nat, to: nat): nat
    requires window >= 1
  {
    Min(SaturatingAdd(lo, window - 1), to)
  }

  /** An answer moves the scan on, by a saturating step; a failure halves the
      window, and ends the scan at one block. */
  ghost function NextScan(s: Scan, reply: Reply<RegLog>, to: nat): (r: Scan)
    requires s.AtBlock? && s.window >= 1
    ensures r.AtBlock? ==> r.window >= 1
  {
    match reply
    case Logs(logs) =>
      var hi := WindowEnd(s.lo, s.window, to);
      AtBlock(SaturatingAdd(hi, 1), s.window, s.windows + [Span(s.lo, hi)], s.failures, s.seen + SetOf(logs))
    case Failed(e) => if s.window > 1 then AtBlock(s.lo, s.window / 2, s.windows, s.failures + 1, s.seen) else Gone(e)
  }

  /** Where the scan stands after n calls. */
  ghost function ScanAfter(p: Provider<RegLog>, from: nat, to: nat, start: nat, n: nat): (r: Scan)
    requires start >= 1
    ensures r.AtBlock? ==> r.window >= 1
  {
    if n == 0 then AtBlock(from, start, [], 0, {}) else
      var s := ScanAfter(p, from, to, start, n - 1);
      if s.Gone? || s.lo > to then s else NextScan(s, p(n - 1, s.lo, WindowEnd(s.lo, s.window, to)), to)
  }

  /** The windows tile what was scanned, and each failure narrowed the window. */
  ghost predicate InOrder(s: Scan, from: nat, to: nat, start: nat)
  {
    s.AtBlock? ==> Scanned(from, to, s.lo, s.windows, s.failures, s.window, start)
  }

  lemma NextInOrder(s: Scan, reply: Reply<RegLog>, from: nat, to: nat, start: nat)
    requires s.AtBlock? && s.window >= 1 && s.lo <= to < U64_MAX && InOrder(s, from, to, start)
    ensures InOrder(NextScan(s, reply, to), from, to, start)
  {
    match reply
    case Logs(_) =>
      ScannedOn(from, to, s.lo, s.windows, s.failures, s.window, start, WindowEnd(s.lo, s.window, to));
    case Failed(_) =>
      if s.window > 1 { ScannedNarrower(from, to, s.lo, s.windows, s.failures, s.window, start); }
  }

  lemma {:induction false} ScanInOrder(p: Provider<RegLog>, from: nat, to: nat, start: nat, n: nat)
    requires start >= 1 && to < U64_MAX
    ensures InOrder(ScanAfter(p, from, to, start, n), from, to, start)
  {
    if n == 0 {
      assert Pow2(0) == 1;
    } else {
      ScanInOrder(p, from, to, start, n - 1);
      var s := ScanAfter(p, from, to, start, n - 1);
      if s.AtBlock? && s.lo <= to { NextInOrder(s, p(n - 1, s.lo, WindowEnd(s.lo, s.window, to)), from, to, start); }
    }
  }

  /** What the loop knows: each call so far was answered or failed. */
  ghost predicate StandsAt(p: Provider<RegLog>, from: nat, to: nat, start: nat, n: nat, s: Scan)
  {
    start >= 1 && s == ScanAfter(p, from, to, start, n) && (s.AtBlock? ==> n == |s.windows| + s.failures)
  }

  /** One block of the range was asked for by itself, and refused. */
  ghost predicate BlockRefused(p: Provider<RegLog>, from: nat, to: nat, error: string)
  {
    exists n: nat, lo: nat :: p(n, lo, lo) == Failed(error) && from <= lo <= to
  }

  /** One more call. Only a refused single block ends the scan early. */
  lemma OneMore(p: Provider<RegLog>, from: nat, to: nat, start: nat, n: nat, s: Scan) returns (r: Scan)
    requires StandsAt(p, from, to, start, n, s) && s.AtBlock? && s.lo <= to < U64_MAX
    ensures r == NextScan(s, p(n, s.lo, WindowEnd(s.lo, s.window, to)), to)
    ensures StandsAt(p, from, to, start, n + 1, r)
    ensures r.Gone? ==> BlockRefused(p, from, to, r.error)
  {
    r := NextScan(s, p(n, s.lo, WindowEnd(s.lo, s.window, to)), to);
    ScanInOrder(p, from, to, start, n);
    assert r.Gone? ==> WindowEnd(s.lo, s.window, to) == s.lo;
  }

  /** What a scan has seen, with what is still ahead, is what the range holds. */
  ghost predicate Complete(s: Scan, blocks: nat -> seq<RegLog>, from: nat, to: nat)
  {
    s.AtBlock? ==> s.seen + SetOf(LogsIn(blocks, s.lo, to)) == SetOf(LogsIn(blocks, from, to))
  }

  lemma StaysComplete(s: Scan, logs: seq<RegLog>, blocks: nat -> seq<RegLog>, from: nat, to: nat, hi: nat)
    requires s.AtBlock? && Complete(s, blocks, from, to) && s.lo <= hi <= to && SetOf(logs) == SetOf(LogsIn(blocks, s.lo, hi))
    ensures s.seen + SetOf(logs) + SetOf(LogsIn(blocks, hi + 1, to)) == SetOf(LogsIn(blocks, from, to))
  {
    LogsInSplit(blocks, s.lo, hi, to);
  }

  lemma {:induction false} NothingMissed(p: Provider<RegLog>, from: nat, to: nat, start: nat, n: nat, blocks: nat -> seq<RegLog>)
    requires HonestSet(blocks, p) && start >= 1 && to < U64_MAX
    ensures Complete(ScanAfter(p, from, to, start, n), blocks, from, to)
  {
    if n > 0 {
      NothingMissed(p, from, to, start, n - 1, blocks);
      var s := ScanAfter(p, from, to, start, n - 1);
      if s.AtBlock? && s.lo <= to {
        var hi := WindowEnd(s.lo, s.window, to);
        var reply := p(n - 1, s.lo, hi);
        if reply.Logs? { StaysComplete(s, reply.logs, blocks, from, to, hi); }
      }
    }
  }

  /** A scan that ends past the last block has tiled the range and seen all of it. */
  lemma ScanDone(p: Provider<RegLog>, from: nat, to: nat, start: nat, n: nat, s: Scan, blocks: nat -> seq<RegLog>)
    requires HonestSet(blocks, p) && StandsAt(p, from, to, start, n, s) && s.AtBlock? && s.lo > to && to < U64_MAX
    ensures from <= to ==> Tiles(s.windows, from, to)
    ensures s.failures <= Log2(start)
    ensures s.seen == SetOf(LogsIn(blocks, from, to))
  {
    ScanInOrder(p, from, to, start, n);
    ScannedFailures(from, to, s.lo, s.windows, s.failures, s.window, start);
    NothingMissed(p, from, to, start, n, blocks);
    assert SetOf(LogsIn(blocks, s.lo, to)) == {};
  }

  /** The scan was left, and the result says how. */
  ghost predicate Told(r: Result<map<nat, Registration>, string>, s: Scan, to: nat)
  {
    match s
    case AtBlock(lo, _, _, _, _) => r.Ok? && lo > to
    case Gone(e) => r == Err(e)
  }

  /** One scan of from..to. Every successful window starts where the last one
      ended, so together they tile the range; failures only narrow the window. */
  method Registrations(p: Provider<RegLog>, from: nat, to: nat, startWindow: nat, ghost blocks: nat -> seq<RegLog>)
    returns (r: Result<map<nat, Registration>, string>, calls: nat, failures: nat, ghost windows: seq<Span>)
    requires HonestSet(blocks, p) && to < U64_MAX
    ensures r.Ok? ==> Earliest(r.value, SetOf(LogsIn(blocks, from, to)))
    ensures r.Ok? && from <= to ==> Tiles(windows, from, to) && calls == |windows| + failures
    ensures r.Ok? ==> failures <= Log2(Max(startWindow, 1))
    ensures r.Err? ==> BlockRefused(p, from, to, r.error)
    ensures Told(r, ScanAfter(p, from, to, Max(startWindow, 1), calls), to)
  {
    var out: map<nat, Registration> := map[];
    var window := new LogWindow(startWindow);
    var lo := from;
    calls, failures := 0, 0;
    ghost var start: nat := window.current;
    ghost var scan := AtBlock(lo, start, [], 0, {});
    while lo <= to
      invariant window.Valid() && window.AtCeiling() && fresh(window)
      invariant StandsAt(p, from, to, start, calls, scan)
      invariant scan.AtBlock? && scan.lo == lo && scan.window == window.current && scan.failures == failures
      invariant Earliest(out, scan.seen)
      decreases 1 + to - lo, window.current
    {
      var hi := WindowEnd(lo, window.current, to);
      var reply := p(calls, lo, hi);
      ghost var before := scan;
      scan := OneMore(p, from, to, start, calls, before);
      calls := calls + 1;
      if reply.Logs? {
        out := AbsorbAll(out, reply.logs, before.seen);
        window.OnSuccess();
        lo := SaturatingAdd(hi, 1);
      } else {
        var narrowed := window.OnFailure();
        failures := failures + 1;
        if !narrowed { return Err(reply.message), calls, failures, []; }
      }
    }
    ScanDone(p, from, to, start, calls, scan, blocks);
    r, windows := Ok(out), scan.windows;
  }

  // ---- Which scans end? -------------------------------------------------------------

  /** A provider that answers every query. */
  const ANSWERING: Provider<RegLog> := (n: nat, lo: nat, hi: nat) => Logs([])

  lemma {:induction false} AnsweringStays(from: nat, to: nat, start: nat, n: nat)
    requires start >= 1 && from <= to <= U64_MAX
    ensures ScanAfter(ANSWERING, from, to, start, n).AtBlock?
    ensures to < U64_MAX ==> ScanAfter(ANSWERING, from, to, start, n).lo >= Min(from + n, to + 1)
  {
    if n > 0 { AnsweringStays(from, to, start, n - 1); }
  }

  /** The loop is left with everything scanned. */
  ghost predicate Succeeds(p: Provider<RegLog>, from: nat, to: nat, start: nat)
    requires start >= 1
  {
    exists n: nat :: ScanAfter(p, from, to, start, n).AtBlock? && ScanAfter(p, from, to, start, n).lo > to
  }

  /** The loop is left one way or the other. */
  ghost predicate Finishes(p: Provider<RegLog>, from: nat, to: nat, start: nat)
    requires start >= 1
  {
    exists n: nat :: ScanAfter(p, from, to, start, n).Gone? || ScanAfter(p, from, to, start, n).lo > to
  }

  lemma {:induction false} NeverPastLast(p: Provider<RegLog>, from: nat, start: nat, n: nat)
    requires start >= 1 && from <= U64_MAX
    ensures ScanAfter(p, from, U64_MAX, start, n).AtBlock? ==> ScanAfter(p, from, U64_MAX, start, n).lo <= U64_MAX
  {
    if n > 0 { NeverPastLast(p, from, start, n - 1); }
  }

  lemma {:induction false} FinishesFrom(p: Provider<RegLog>, from: nat, to: nat, start: nat, n: nat)
    requires start >= 1 && to < U64_MAX
    ensures Finishes(p, from, to, start)
    decreases if ScanAfter(p, from, to, start, n).Gone? then 0 else Max(to + 1 - ScanAfter(p, from, to, start, n).lo, 0),
              if ScanAfter(p, from, to, start, n).Gone? then 0 else ScanAfter(p, from, to, start, n).window
  {
    var now := ScanAfter(p, from, to, start, n);
    if now.AtBlock? && now.lo <= to {
      var next := ScanAfter(p, from, to, start, n + 1);
      if next.AtBlock? && next.lo <= to { FinishesFrom(p, from, to, start, n + 1); }
    }
  }

  /** If the last block is the largest a u64 holds, the saturating step never
      leaves it: whatever the provider answers, the scan does not succeed. For
      any other last block every scan is left, whatever the provider does, and
      some succeeds. */
  lemma ScanEndsIff(from: nat, to: nat, start: nat)
    requires start >= 1 && from <= to <= U64_MAX
    ensures (exists p :: Succeeds(p, from, to, start)) <==> to < U64_MAX
    ensures (forall p :: Finishes(p, from, to, start)) <==> to < U64_MAX
  {
    if to < U64_MAX {
      AnsweringStays(from, to, start, to + 1 - from);
      assert Succeeds(ANSWERING, from, to, start);
      forall p ensures Finishes(p, from, to, start) { FinishesFrom(p, from, to, start, 0); }
    } else {
      forall p ensures !Succeeds(p, from, to, start) {
        forall n: nat { NeverPastLast(p, from, start, n); }
      }
      forall n: nat ensures ScanAfter(ANSWERING, from, to, start, n).AtBlock? && ScanAfter(ANSWERING, from, to, start, n).lo <= to {
        AnsweringStays(from, to, start, n);
        NeverPastLast(ANSWERING, from, start, n);
      }
      assert !Finishes(ANSWERING, from, to, start);
    }
  }

  // ---- The boundary search ---------------------------------------------------------

  /** Whether an id exists, as answered by the n-th call; None is any failure. */
  type Probe = (nat, nat) -> Option<bool>

  ghost predicate Truthful(exist: nat -> bool, p: Probe)
  {
    forall n: nat, id: nat :: p(n, id).Some? ==> p(n, id).value == exist(id)
  }

  /** Every one of these questions, in this order, got an answer. */
  ghost predicate AllAnswered(p: Probe, asked: seq<nat>)
  {
    forall i :: 0 <= i < |asked| ==> p(i, asked[i]).Some?
  }

  /** Double until an id does not exist, then bisect. */
  method FindBoundary(start: nat, p: Probe, ghost exist: nat -> bool)
    returns (r: Result<(nat, nat), string>, calls: nat, ghost asked: seq<nat>)
    requires Truthful(exist, p) && start <= U64_MAX && exist(start)
    ensures calls == |asked|
    ensures r.Ok? ==> var (lo, hi) := r.value; start <= lo && hi == lo + 1 <= U64_MAX && exist(lo) && !exist(hi)
    ensures r.Ok? && start == 0 ==> calls == if r.value.0 == 0 then 1 else 2 * Log2(r.value.0) + 2
    // An error is a failed call, or an id too large to double.
    ensures r.Ok? ==> AllAnswered(p, asked)
    ensures r.Err? ==> || (calls > 0 && p(calls - 1, asked[calls - 1]).None?)
                       || start == U64_MAX
                       || (calls > 0 && asked[calls - 1] > U64_MAX / 2 && exist(asked[calls - 1]))
  {
    calls, asked := 0, [];
    if start == U64_MAX { return Err("id overflowed u64 starting the search bracket"), 0, []; }
    var lo, hi := start, start + 1;
    ghost var k := 0;
    while true
      invariant start <= lo < hi <= U64_MAX && exist(lo) && calls == |asked| && AllAnswered(p, asked)
      invariant start == 0 ==> calls == k && hi == Pow2(k) && lo == if k == 0 then 0 else Pow2(k - 1)
      decreases U64_MAX - hi
    {
      var reply := p(calls, hi);
      calls, asked := calls + 1, asked + [hi];
      if reply.None? { return Err("existence check failed"), calls, asked; }
      if !reply.value { break; }
      lo := hi;
      if hi * 2 > U64_MAX { return Err("agent id search overflowed u64"), calls, asked; }
      hi := hi * 2;
      k := k + 1;
    }
    ghost var j: nat := if k == 0 then 0 else k - 1;
    while hi - lo > 1
      invariant start <= lo < hi <= U64_MAX && exist(lo) && !exist(hi) && calls == |asked| && AllAnswered(p, asked)
      invariant start == 0 ==> hi - lo == Pow2(j)
      invariant start == 0 && k == 0 ==> lo == 0 && j == 0 && calls == 1
      invariant start == 0 && k > 0 ==> j < k && calls == 2 * k - j && Pow2(k - 1) <= lo && hi <= Pow2(k)
      decreases hi - lo
    {
      var mid := lo + (hi - lo) / 2;
      var reply := p(calls, mid);
      calls, asked := calls + 1, asked + [mid];
      if reply.None? { return Err("existence check failed"), calls, asked; }
      if reply.value { lo := mid; } else { hi := mid; }
      j := if j > 0 then j - 1 else 0;
    }
    if start == 0 && k > 0 {
      if j > 0 { Pow2Positive(j - 1); }
      Log2Unique(lo, k - 1);
    }
    r := Ok((lo, hi));
  }

  /** The highest id, re-checked on both sides of the boundary. */
  method HighestAgentId(p: Probe, ghost exist: nat -> bool) returns (r: Result<Option<nat>, string>)
    requires Truthful(exist, p)
    ensures r == Ok(None) ==> !exist(0)
    ensures r.Ok? && r.value.Some? ==> exist(0) && exist(r.value.value) && !exist(r.value.value + 1) && r.value.value < U64_MAX
    ensures (forall n: nat, id: nat :: p(n, id).Some?) && (forall id: nat :: exist(id) ==> id <= U64_MAX / 2) ==> r.Ok?
  {
    var first := p(0, 0);
    if first.None? { return Err("existence check failed"); }
    if !first.value { return Ok(None); }
    var found, calls, _ := FindBoundary(0, (n: nat, id: nat) => p(n + 1, id), exist);
    if found.Err? { return Err(found.error); }
    var (lo, hi) := found.value;
    var low := p(calls + 1, lo);
    if low.None? || !low.value { return Err("boundary check failed"); }
    var high := p(calls + 2, hi);
    if high.None? || high.value { return Err("boundary check failed"); }
    r := Ok(Some(lo));
  }

  /** Ids run from 0 upwards without a hole. */
  ghost predicate Contiguous(exist: nat -> bool)
  {
    forall i: nat, j: nat :: i <= j <= U64_MAX && exist(j) ==> exist(i)
  }

  /** The ids 0..highest, which are the existing ids exactly when those are
      contiguous. */
  method EnumerateAgentIds(p: Probe, ghost exist: nat -> bool) returns (r: Result<seq<nat>, string>)
    requires Truthful(exist, p)
    ensures r.Ok? ==> forall i :: 0 <= i < |r.value| ==> r.value[i] == i
    ensures r.Ok? ==> (Contiguous(exist) <==> forall id: nat | id <= U64_MAX :: exist(id) <==> id in r.value)
    ensures r.Ok? ==> if exist(0) then r.value != [] && exist(|r.value| - 1) && !exist(|r.value|) else r.value == []
    ensures (forall n: nat, id: nat :: p(n, id).Some?) && (forall id: nat :: exist(id) ==> id <= U64_MAX / 2) ==> r.Ok?
  {
    var highest := HighestAgentId(p, exist);
    if highest.Err? { return Err(highest.error); }
    if highest.value.None? { return Ok([]); }
    var ids := seq(highest.value.value + 1, i => i);
    forall id: nat ensures id in ids <==> id <= highest.value.value {
      if id <= highest.value.value { assert ids[id] == id; }
    }
    r := Ok(ids);
  }

  // ---- Retrying a throttled call -----------------------------------------------------

  /** What one attempt comes to: an answer, throttling or a hang (both worth
      another try), or an error that retrying cannot help. */
  datatype Attempt<+T> = Answer(value: T) | Throttled | TimedOut | Rejected(message: string)

  /** Retry with doubling back-off; `slept` is the total wait in milliseconds. */
  method RetryThrottled<T>(maxRetries: nat, baseMs: nat, f: nat -> Attempt<T>)
    returns (r: Result<T, string>, attempts: nat, slept: nat)
    ensures 1 <= attempts <= maxRetries + 1
    ensures slept == baseMs * (Pow2(attempts - 1) - 1)
    // The first attempt that is not worth retrying, or the last one allowed, decides.
    ensures forall i :: 0 <= i < attempts - 1 ==> f(i).Throttled? || f(i).TimedOut?
    ensures match f(attempts - 1)
      case Answer(v) => r == Ok(v)
      case Rejected(m) => r == Err(m)
      case _ => r.Err? && attempts == maxRetries + 1
  {
    attempts, slept := 0, 0;
    while true
      invariant attempts <= maxRetries && slept == baseMs * (Pow2(attempts) - 1)
      invariant forall i :: 0 <= i < attempts ==> f(i).Throttled? || f(i).TimedOut?
      decreases maxRetries - attempts
    {
      var outcome := f(attempts);
      match outcome {
        case Answer(v) => return Ok(v), attempts + 1, slept;
        case Rejected(m) => return Err(m), attempts + 1, slept;
        case _ =>
          if attempts >= maxRetries {
            return Err(if outcome.Throttled? then "throttled" else "rpc call timed out"), attempts + 1, slept;
          }
          Doubling(baseMs, attempts);
          slept := slept + baseMs * Pow2(attempts);
          attempts := attempts + 1;
      }
    }
  }

  lemma Doubling(base: nat, n: nat)
    ensures base * (Pow2(n) - 1) + base * Pow2(n) == base * (Pow2(n + 1) - 1)
  {
  }
}
