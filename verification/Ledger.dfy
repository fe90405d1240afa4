/** A chain seen through `eth_getLogs`: what one query over a block range
    returns, and a provider that answers any call as it likes. */
module Ledger {
  /** Every log of the blocks lo..hi, in chain order; empty when lo > hi. */
  function LogsIn<L>(blocks: nat -> seq<L>, lo: nat, hi: nat): seq<L>
    decreases hi + 1 - lo
  {
    if lo > hi then [] else blocks(lo) + LogsIn(blocks, lo + 1, hi)
  }

  /** Two adjacent ranges return together what the one range would. */
  lemma {:induction false} LogsInSplit<L>(blocks: nat -> seq<L>, lo: nat, mid: nat, hi: nat)
    requires lo <= mid + 1 && mid <= hi
    ensures LogsIn(blocks, lo, mid) + LogsIn(blocks, mid + 1, hi) == LogsIn(blocks, lo, hi)
    decreases mid + 1 - lo
  {
    if lo <= mid {
      LogsInSplit(blocks, lo + 1, mid, hi);
      assert blocks(lo) + LogsIn(blocks, lo + 1, mid) + LogsIn(blocks, mid + 1, hi)
          == blocks(lo) + (LogsIn(blocks, lo + 1, mid) + LogsIn(blocks, mid + 1, hi));
    } else {
      assert LogsIn(blocks, lo, mid) == [];
    }
  }

  /** A log is in a range exactly when some block of the range carries it. */
  lemma {:induction false} LogsInMember<L>(blocks: nat -> seq<L>, lo: nat, hi: nat, l: L)
    ensures l in LogsIn(blocks, lo, hi) <==> exists b: nat :: lo <= b <= hi && l in blocks(b)
    decreases hi + 1 - lo
  {
    if lo <= hi { LogsInMember(blocks, lo + 1, hi, l); }
  }

  datatype Reply<+L> = Logs(logs: seq<L>) | Failed(message: string)

  /** What the provider answers on its n-th call, when asked for lo..hi. Since
      the call number is an argument, every history of answers is covered. */
  type Provider<!L> = (nat, nat, nat) -> Reply<L>

  /** The provider may fail whenever it likes, but what it does return is what
      the chain holds. */
  ghost predicate Honest<L(!new)>(blocks: nat -> seq<L>, p: Provider<L>)
  {
    forall n: nat, lo: nat, hi: nat :: p(n, lo, hi).Logs? ==> p(n, lo, hi).logs == LogsIn(blocks, lo, hi)
  }

  /** An inclusive range of blocks. */
  datatype Span = Span(lo: nat, hi: nat)

  /** The ranges cover from..to in ascending order, without gap or overlap. */
  ghost predicate Tiles(ranges: seq<Span>, from: nat, to: nat)
  {
    && |ranges| > 0
    && ranges[0].lo == from
    && ranges[|ranges| - 1].hi == to
    && (forall i :: 0 <= i < |ranges| ==> ranges[i].lo <= ranges[i].hi)
    && (forall i :: 0 < i < |ranges| ==> ranges[i].lo == ranges[i - 1].hi + 1)
  }

  /** As Tiles, for the part from..next-1 already accepted; nothing accepted
      yet when next == from. */
  ghost predicate TilesBelow(ranges: seq<Span>, from: nat, next: nat)
  {
    if |ranges| == 0 then next == from else next > 0 && Tiles(ranges, from, next - 1)
  }

  /** The work stack holds exactly next..to, the lowest part on top (last). */
  ghost predicate Pending(stack: seq<Span>, next: nat, to: nat)
  {
    && (forall i :: 0 <= i < |stack| ==> stack[i].lo <= stack[i].hi)
    && (forall i :: 0 < i < |stack| ==> stack[i - 1].lo == stack[i].hi + 1)
    && (if |stack| == 0 then next == to + 1
        else stack[0].hi == to && stack[|stack| - 1].lo == next)
  }

  /** A pending range never reaches past the end of the whole. */
  lemma {:induction false} PendingBelow(stack: seq<Span>, next: nat, to: nat, i: nat)
    requires Pending(stack, next, to) && i < |stack|
    ensures stack[i].hi <= to
  {
    if i > 0 { PendingBelow(stack, next, to, i - 1); }
  }

  function Top(stack: seq<Span>): Span
    requires |stack| > 0
  {
    stack[|stack| - 1]
  }

  function Popped(stack: seq<Span>): seq<Span>
    requires |stack| > 0
  {
    stack[..|stack| - 1]
  }

  /** The calls a stack can still cost: one per node of the halving tree. */
  function Work(stack: seq<Span>): nat
  {
    if stack == [] then 0
    else Work(Popped(stack)) + if Top(stack).lo <= Top(stack).hi then 2 * (Top(stack).hi - Top(stack).lo) + 1 else 1
  }

  /** A split scan of from..to in flight: what is accepted, what is still on
      the stack, and how many calls that has taken. An inverted range is asked
      for once and never split. */
  ghost predicate Scanning(from: nat, to: nat, stack: seq<Span>, next: nat, accepted: seq<Span>, calls: nat)
  {
    if from > to then next == from && (stack == [Span(from, to)] || stack == []) else
    && from <= next <= to + 1
    && Pending(stack, next, to)
    && TilesBelow(accepted, from, next)
    && calls == 2 * |accepted| + |stack| - 1
  }

  function NextAfter(from: nat, to: nat, s: Span): nat
  {
    if from <= to then s.hi + 1 else from
  }

  /** Accepting the top of the stack moves the scan past it, and its logs are
      the next ones of the whole. */
  lemma ScanAccept<L>(blocks: nat -> seq<L>, from: nat, to: nat, stack: seq<Span>, next: nat, accepted: seq<Span>, calls: nat)
    requires Scanning(from, to, stack, next, accepted, calls) && |stack| > 0
    ensures from <= to ==> from <= Top(stack).lo <= Top(stack).hi <= to
    ensures Scanning(from, to, Popped(stack), NextAfter(from, to, Top(stack)), accepted + [Top(stack)], calls + 1)
    ensures LogsIn(blocks, Top(stack).lo, Top(stack).hi) + LogsIn(blocks, NextAfter(from, to, Top(stack)), to)
         == LogsIn(blocks, next, to)
  {
    if from <= to {
      PendingBelow(stack, next, to, |stack| - 1);
      LogsInSplit(blocks, next, Top(stack).hi, to);
    }
  }

  /** Where a refused range is cut: the two halves differ by one block at most. */
  function Midpoint(lo: nat, hi: nat): (mid: nat)
    requires lo < hi
    ensures lo <= mid < hi && hi - mid <= mid - lo + 1 <= hi - mid + 1
  {
    lo + (hi - lo) / 2
  }

  /** Halving the top of the stack leaves the same blocks pending. */
  lemma ScanSplit(from: nat, to: nat, stack: seq<Span>, next: nat, accepted: seq<Span>, calls: nat, mid: nat)
    requires Scanning(from, to, stack, next, accepted, calls) && |stack| > 0
    requires Top(stack).lo <= mid < Top(stack).hi
    ensures var halved := Popped(stack) + [Span(mid + 1, Top(stack).hi)] + [Span(Top(stack).lo, mid)];
      Scanning(from, to, halved, next, accepted, calls + 1) && Work(halved) < Work(stack)
  {
    var upper := Popped(stack) + [Span(mid + 1, Top(stack).hi)];
    var halved := upper + [Span(Top(stack).lo, mid)];
    assert Popped(halved) == upper && Popped(upper) == Popped(stack);
  }
}
