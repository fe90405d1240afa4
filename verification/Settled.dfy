/** Whether anybody paid a seller (crates/sellers/src/settled.rs): transfers
    absorbed one at a time, against a closed form over all of them. */
module Settled {
  import opened Common
  import opened Text
  import opened Identity
  import Networks

  datatype Settlement = Settlement(from: string, block: nat, txHash: string, valueRaw: string)

  /** The two statuses this rung gives. */
  datatype SellerStatus = Pass | Fail

  datatype SettledVerdict = SettledVerdict(
    status: SellerStatus, reason: Option<string>, settlements: nat, distinctPayers: nat,
    firstBlock: Option<nat>, lastBlock: Option<nat>, excludedOurs: nat, excludedSelf: nat)

  function Normalize(a: string): string
  {
    match NormalizePayTo(a, Networks.Evm) case Ok(n) => n case Err(_) => ToLower(Trim(a))
  }

  /** However an address is written, with or without the right shape, its normal
      form is its trimmed text in lower case. */
  lemma NormalIsLower(a: string)
    ensures Normalize(a) == ToLower(Trim(a))
  {
    if NormalizePayTo(a, Networks.Evm).Ok? { AcceptedAddress(a, Networks.Evm); }
  }

  // ---- The closed form ---------------------------------------------------------------

  /** Whose transfer it is, by its normal sender. The census's own wallet is
      recognised first: a payee that is that wallet has no self-payments. */
  datatype Kind = Ours | FromPayee | Customer

  function SenderKind(payee: string, ours: string, from: string): Kind
  {
    if from == ours then Ours else if from == payee then FromPayee else Customer
  }

  /** Whose transfers are meant: the two wallets, and how addresses are normalised. */
  datatype Scope = Scope(payee: string, ours: string, normal: string -> string)
  {
    function KindOf(t: Settlement): Kind { SenderKind(payee, ours, normal(t.from)) }

    function Counts(kind: Kind): Settlement -> nat { (t: Settlement) => if KindOf(t) == kind then 1 else 0 }

    function Number(ts: seq<Settlement>, kind: Kind): nat { SumOf(ts, Counts(kind)) }

    function Payers(ts: seq<Settlement>): set<string>
    {
      set t | t in ts && KindOf(t).Customer? :: normal(t.from)
    }

    function Blocks(ts: seq<Settlement>): set<nat>
    {
      set t | t in ts && KindOf(t).Customer? :: t.block
    }
  }

  function ScopeOf(payTo: string, shopper: string): Scope
  {
    Scope(Normalize(payTo), Normalize(shopper), Normalize)
  }

  /** The least member of a set of blocks, or none if it is empty. */
  predicate IsFirst(first: Option<nat>, blocks: set<nat>)
  {
    match first
    case None => blocks == {}
    case Some(b) => b in blocks && forall c :: c in blocks ==> b <= c
  }

  predicate IsLast(last: Option<nat>, blocks: set<nat>)
  {
    match last
    case None => blocks == {}
    case Some(b) => b in blocks && forall c :: c in blocks ==> c <= b
  }

  /** The verdict on the transfers of a scope, independent of how they were scanned. */
  ghost predicate IsVerdict(v: SettledVerdict, scope: Scope, ts: seq<Settlement>)
  {
    && v.settlements == scope.Number(ts, Customer)
    && v.excludedOurs == scope.Number(ts, Ours)
    && v.excludedSelf == scope.Number(ts, FromPayee)
    && v.distinctPayers == |scope.Payers(ts)|
    && IsFirst(v.firstBlock, scope.Blocks(ts))
    && IsLast(v.lastBlock, scope.Blocks(ts))
    && (v.status.Pass? <==> v.settlements > 0)
    && v.reason == (if v.status.Pass? then None else Some("no_settlement_in_window"))
  }

  // ---- The running tally -------------------------------------------------------------

  datatype Totals = Totals(
    settlements: nat, payers: set<string>, firstBlock: Option<nat>, lastBlock: Option<nat>, ours: nat, self: nat)

  ghost predicate Totalled(totals: Totals, scope: Scope, ts: seq<Settlement>)
  {
    && totals.settlements == scope.Number(ts, Customer)
    && totals.ours == scope.Number(ts, Ours)
    && totals.self == scope.Number(ts, FromPayee)
    && totals.payers == scope.Payers(ts)
    && IsFirst(totals.firstBlock, scope.Blocks(ts))
    && IsLast(totals.lastBlock, scope.Blocks(ts))
  }

  function EarlierOf(a: Option<nat>, b: Option<nat>): Option<nat>
  {
    if a.None? then b else if b.None? then a else Some(Min(a.value, b.value))
  }

  function LaterOf(a: Option<nat>, b: Option<nat>): Option<nat>
  {
    if a.None? then b else if b.None? then a else Some(Max(a.value, b.value))
  }

  /** What one transfer adds to the totals. */
  function Added(totals: Totals, kind: Kind, from: string, block: nat): Totals
  {
    match kind
    case Ours => totals.(ours := totals.ours + 1)
    case FromPayee => totals.(self := totals.self + 1)
    case Customer =>
      Totals(totals.settlements + 1, totals.payers + {from}, EarlierOf(totals.firstBlock, Some(block)),
             LaterOf(totals.lastBlock, Some(block)), totals.ours, totals.self)
  }

  lemma NumberStep(scope: Scope, ts: seq<Settlement>, t: Settlement, kind: Kind)
    ensures scope.Number(ts + [t], kind) == scope.Number(ts, kind) + (if scope.KindOf(t) == kind then 1 else 0)
  {
    assert (ts + [t])[..|ts|] == ts;
  }

  lemma SetsStep(scope: Scope, ts: seq<Settlement>, t: Settlement)
    ensures scope.Payers(ts + [t]) == scope.Payers(ts) + (if scope.KindOf(t).Customer? then {scope.normal(t.from)} else {})
    ensures scope.Blocks(ts + [t]) == scope.Blocks(ts) + (if scope.KindOf(t).Customer? then {t.block} else {})
  {
    assert forall u :: u in ts + [t] <==> u in ts || u == t;
  }

  lemma FirstOfBoth(a: Option<nat>, b: Option<nat>, x: set<nat>, y: set<nat>)
    requires IsFirst(a, x) && IsFirst(b, y)
    ensures IsFirst(EarlierOf(a, b), x + y)
  {
  }

  lemma LastOfBoth(a: Option<nat>, b: Option<nat>, x: set<nat>, y: set<nat>)
    requires IsLast(a, x) && IsLast(b, y)
    ensures IsLast(LaterOf(a, b), x + y)
  {
  }

  lemma AddedTotals(totals: Totals, scope: Scope, ts: seq<Settlement>, t: Settlement)
    requires Totalled(totals, scope, ts)
    ensures Totalled(Added(totals, scope.KindOf(t), scope.normal(t.from), t.block), scope, ts + [t])
  {
    forall kind { NumberStep(scope, ts, t, kind); }
    SetsStep(scope, ts, t);
    if scope.KindOf(t).Customer? {
      FirstOfBoth(totals.firstBlock, Some(t.block), scope.Blocks(ts), {t.block});
      LastOfBoth(totals.lastBlock, Some(t.block), scope.Blocks(ts), {t.block});
    }
  }

  class Tally {
    const payee: string
    const ours: string
    var settlements: nat
    var payers: set<string>
    var firstBlock: Option<nat>
    var lastBlock: Option<nat>
    var excludedOurs: nat
    var excludedSelf: nat

    constructor (payTo: string, shopper: string)
      ensures payee == Normalize(payTo) && ours == Normalize(shopper)
      ensures Value() == Totals(0, {}, None, None, 0, 0)
    {
      payee, ours := Normalize(payTo), Normalize(shopper);
      settlements, payers, firstBlock, lastBlock, excludedOurs, excludedSelf := 0, {}, None, None, 0, 0;
    }

    function Value(): Totals
      reads this
    {
      Totals(settlements, payers, firstBlock, lastBlock, excludedOurs, excludedSelf)
    }

    /** Take one incoming transfer into account. */
    method Absorb(t: Settlement)
      modifies this
      ensures Value() == Added(old(Value()), SenderKind(payee, ours, Normalize(t.from)), Normalize(t.from), t.block)
    {
      var from := Normalize(t.from);
      if from == ours {
        excludedOurs := excludedOurs + 1;
        return;
      }
      if from == payee {
        excludedSelf := excludedSelf + 1;
        return;
      }
      settlements := settlements + 1;
      payers := payers + {from};
      firstBlock := Some(match firstBlock case None => t.block case Some(b) => Min(b, t.block));
      lastBlock := Some(match lastBlock case None => t.block case Some(b) => Max(b, t.block));
    }

    /** The verdict from everything absorbed so far. */
    method Finish() returns (v: SettledVerdict)
      ensures v.settlements == settlements && v.distinctPayers == |payers|
      ensures v.firstBlock == firstBlock && v.lastBlock == lastBlock
      ensures v.excludedOurs == excludedOurs && v.excludedSelf == excludedSelf
      ensures (v.status.Pass? <==> settlements > 0) && v.reason == (if v.status.Pass? then None else Some("no_settlement_in_window"))
    {
      var status, reason := Pass, None;
      if settlements == 0 {
        status, reason := Fail, Some("no_settlement_in_window");
      }
      v := SettledVerdict(status, reason, settlements, |payers|, firstBlock, lastBlock, excludedOurs, excludedSelf);
    }
  }

  /** A window of the scan, absorbed and dropped: the tally goes on telling the
      closed form of everything it has seen. */
  method AbsorbWindow(tally: Tally, window: seq<Settlement>, ghost before: seq<Settlement>)
    requires Totalled(tally.Value(), Scope(tally.payee, tally.ours, Normalize), before)
    modifies tally
    ensures Totalled(tally.Value(), Scope(tally.payee, tally.ours, Normalize), before + window)
  {
    ghost var scope := Scope(tally.payee, tally.ours, Normalize);
    assert before + window[..0] == before;
    for i := 0 to |window|
      invariant Totalled(tally.Value(), scope, before + window[..i])
    {
      assert before + window[..i + 1] == before + window[..i] + [window[i]];
      AddedTotals(tally.Value(), scope, before + window[..i], window[i]);
      tally.Absorb(window[i]);
    }
    assert window[..|window|] == window;
  }

  method Judge(payTo: string, transfers: seq<Settlement>, shopper: string) returns (v: SettledVerdict)
    ensures IsVerdict(v, ScopeOf(payTo, shopper), transfers)
  {
    var tally := new Tally(payTo, shopper);
    AbsorbWindow(tally, transfers, []);
    assert [] + transfers == transfers;
    v := tally.Finish();
  }

  // ---- What the verdict means --------------------------------------------------------

  /** Every transfer is counted exactly once, as a settlement or an exclusion. */
  lemma {:induction false} TransfersConserved(scope: Scope, ts: seq<Settlement>)
    ensures scope.Number(ts, Customer) + scope.Number(ts, Ours) + scope.Number(ts, FromPayee) == |ts|
  {
    if ts != [] { TransfersConserved(scope, ts[..|ts| - 1]); }
  }

  lemma {:induction false} CountedIffPresent(scope: Scope, ts: seq<Settlement>)
    ensures scope.Number(ts, Customer) > 0 <==> scope.Blocks(ts) != {}
    ensures |scope.Payers(ts)| <= scope.Number(ts, Customer)
    ensures scope.Payers(ts) == {} <==> scope.Blocks(ts) == {}
  {
    if ts != [] {
      var n := |ts| - 1;
      CountedIffPresent(scope, ts[..n]);
      assert ts == ts[..n] + [ts[n]];
      NumberStep(scope, ts[..n], ts[n], Customer);
      SetsStep(scope, ts[..n], ts[n]);
    }
  }

  /** Conservation, and what a pass says: somebody other than the census and the
      payee paid, and then there is a first and a last such block. */
  lemma VerdictConserves(v: SettledVerdict, scope: Scope, ts: seq<Settlement>)
    requires IsVerdict(v, scope, ts)
    ensures v.settlements + v.excludedOurs + v.excludedSelf == |ts|
    ensures v.distinctPayers <= v.settlements && (v.distinctPayers > 0 <==> v.settlements > 0)
    ensures v.status.Pass? <==> exists t :: t in ts && scope.normal(t.from) != scope.ours && scope.normal(t.from) != scope.payee
    ensures v.firstBlock.Some? <==> v.status.Pass?
    ensures v.lastBlock.Some? <==> v.status.Pass?
    ensures v.status.Pass? ==> v.firstBlock.value <= v.lastBlock.value
  {
    TransfersConserved(scope, ts);
    CountedIffPresent(scope, ts);
    if v.status.Pass? {
      var b :| b in scope.Blocks(ts);
      var t :| t in ts && scope.KindOf(t).Customer? && t.block == b;
    }
    if t :| t in ts && scope.KindOf(t).Customer? {
      assert t.block in scope.Blocks(ts);
    }
  }

  /** One verdict for one multiset of transfers, however they are ordered. */
  lemma OrderIrrelevant(v: SettledVerdict, w: SettledVerdict, scope: Scope, a: seq<Settlement>, b: seq<Settlement>)
    requires multiset(a) == multiset(b) && IsVerdict(v, scope, a) && IsVerdict(w, scope, b)
    ensures v == w
  {
    forall kind ensures scope.Number(a, kind) == scope.Number(b, kind) {
      SumIgnoresOrder(a, b, scope.Counts(kind));
    }
    forall t ensures t in a <==> t in b { assert t in a <==> t in multiset(a); }
    assert scope.Payers(a) == scope.Payers(b);
    assert scope.Blocks(a) == scope.Blocks(b);
  }

  lemma FirstUnique(a: Option<nat>, b: Option<nat>, blocks: set<nat>)
    requires IsFirst(a, blocks) && IsFirst(b, blocks)
    ensures a == b
  {
  }

  lemma LastUnique(a: Option<nat>, b: Option<nat>, blocks: set<nat>)
    requires IsLast(a, blocks) && IsLast(b, blocks)
    ensures a == b
  {
  }

  /** Two windows scanned apart add up: counts and payers join, and the first and
      last blocks are those of both. */
  lemma WindowsAddUp(v: SettledVerdict, w: SettledVerdict, whole: SettledVerdict, scope: Scope, a: seq<Settlement>, b: seq<Settlement>)
    requires IsVerdict(v, scope, a) && IsVerdict(w, scope, b) && IsVerdict(whole, scope, a + b)
    ensures whole.settlements == v.settlements + w.settlements
    ensures whole.excludedOurs == v.excludedOurs + w.excludedOurs && whole.excludedSelf == v.excludedSelf + w.excludedSelf
    ensures whole.distinctPayers == v.distinctPayers + w.distinctPayers - |scope.Payers(a) * scope.Payers(b)|
    ensures whole.firstBlock == EarlierOf(v.firstBlock, w.firstBlock)
    ensures whole.lastBlock == LaterOf(v.lastBlock, w.lastBlock)
  {
    forall kind ensures scope.Number(a + b, kind) == scope.Number(a, kind) + scope.Number(b, kind) {
      SumConcat(a, b, scope.Counts(kind));
    }
    assert forall t :: t in a + b <==> t in a || t in b;
    assert scope.Payers(a + b) == scope.Payers(a) + scope.Payers(b);
    var x, y := scope.Blocks(a), scope.Blocks(b);
    assert scope.Blocks(a + b) == x + y;
    FirstOfBoth(v.firstBlock, w.firstBlock, x, y);
    LastOfBoth(v.lastBlock, w.lastBlock, x, y);
    FirstUnique(whole.firstBlock, EarlierOf(v.firstBlock, w.firstBlock), x + y);
    LastUnique(whole.lastBlock, LaterOf(v.lastBlock, w.lastBlock), x + y);
  }

  /** The published wallet is recognised in whatever case the chain reports it,
      and so is the payee's own. */
  lemma CaseNeverReadmits(payTo: string, shopper: string, t: Settlement)
    ensures EqIgnoreCase(Trim(t.from), Trim(shopper)) <==> ScopeOf(payTo, shopper).KindOf(t) == Ours
    ensures EqIgnoreCase(Trim(t.from), Trim(payTo)) <==> ScopeOf(payTo, shopper).KindOf(t) == FromPayee ||
                                                         (ScopeOf(payTo, shopper).KindOf(t) == Ours && EqIgnoreCase(Trim(payTo), Trim(shopper)))
  {
    NormalIsLower(t.from);
    NormalIsLower(shopper);
    NormalIsLower(payTo);
  }
}
