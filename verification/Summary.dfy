/** Counting paid rows (crates/payments/src/summary.rs): nested loops over
    vectors, against sets and sums that do not know about order. */
module Summary {
  import opened Common
  import opened Decimal
  import Text
  import Units

  datatype PaidRow = PaidRow(
    agentId: nat, creditedAddress: string, counted: bool, fromContract: Option<bool>, eip3009: bool, valueRaw: string)
  {
    function Address(): string { Text.ToLower(creditedAddress) }
  }

  datatype Summary = Summary(
    addressesPaid: nat, agentsPaid: nat, agentsOnSharedAddresses: nat, agentsX402: nat, transfersCounted: nat,
    valueFromContract: string, valueFromEoa: string, valueSenderUnread: string,
    transfersFromContract: nat, transfersFromEoa: nat, transfersSenderUnread: nat)

  /** `s.parse::<u128>()`: an optional plus sign, then digits that fit. */
  function ParseU128(s: string): Option<nat>
  {
    var digits := if s != [] && s[0] == '+' then s[1..] else s;
    if digits != [] && AllDigits(digits) && Value(digits) <= U128_MAX then Some(Value(digits)) else None
  }

  function ValueOf(r: PaidRow): nat
  {
    match ParseU128(r.valueRaw) case Some(v) => v case None => 0
  }

  function SaturatingAdd(a: nat, b: nat): nat { Min(a + b, U128_MAX) }

  // ---- The specification -----------------------------------------------------------

  function PaidAddresses(rows: seq<PaidRow>): set<string>
  {
    set r | r in rows && r.counted :: r.Address()
  }

  function PaidAgents(rows: seq<PaidRow>): set<nat>
  {
    set r | r in rows && r.counted :: r.agentId
  }

  function X402Agents(rows: seq<PaidRow>): set<nat>
  {
    set r | r in rows && r.counted && r.eip3009 :: r.agentId
  }

  /** The agents whose rows, counted or not, credit this address. */
  function AgentsReaching(rows: seq<PaidRow>, address: string): set<nat>
  {
    set r | r in rows && r.Address() == address :: r.agentId
  }

  function SharedAddresses(rows: seq<PaidRow>): set<string>
  {
    set a | a in PaidAddresses(rows) && |AgentsReaching(rows, a)| > 1
  }

  /** The paid agents all of whose paid addresses are shared. */
  function AgentsOnShared(rows: seq<PaidRow>): set<nat>
  {
    set id | id in PaidAgents(rows) && forall r :: r in rows && r.counted && r.agentId == id ==> r.Address() in SharedAddresses(rows)
  }

  predicate InBucket(r: PaidRow, bucket: Option<bool>) { r.counted && r.fromContract == bucket }

  function Tick(bucket: Option<bool>): PaidRow -> nat
  {
    (r: PaidRow) => if InBucket(r, bucket) then 1 else 0
  }

  function Worth(bucket: Option<bool>): PaidRow -> nat
  {
    (r: PaidRow) => if InBucket(r, bucket) then ValueOf(r) else 0
  }

  function CountIn(rows: seq<PaidRow>, bucket: Option<bool>): nat { SumOf(rows, Tick(bucket)) }

  /** The exact, unbounded total of a bucket. */
  function TotalIn(rows: seq<PaidRow>, bucket: Option<bool>): nat { SumOf(rows, Worth(bucket)) }

  /** The printed total, with the fallback for what does not format. */
  function FormatTotal(v: nat, decimals: nat): string
  {
    match Units.FormatUnits(Print(v), decimals) case Some(s) => s case None => "0"
  }

  /** What a bucket prints: its total, capped at what 128 bits hold. */
  function BucketText(rows: seq<PaidRow>, bucket: Option<bool>, decimals: nat): string
  {
    FormatTotal(Min(TotalIn(rows, bucket), U128_MAX), decimals)
  }

  const COUNTED: PaidRow -> nat := (r: PaidRow) => if r.counted then 1 else 0

  ghost predicate IsSummary(s: Summary, rows: seq<PaidRow>, decimals: nat)
  {
    && s.addressesPaid == |PaidAddresses(rows)|
    && s.agentsPaid == |PaidAgents(rows)|
    && s.agentsOnSharedAddresses == |AgentsOnShared(rows)|
    && s.agentsX402 == |X402Agents(rows)|
    && s.transfersFromContract == CountIn(rows, Some(true))
    && s.transfersFromEoa == CountIn(rows, Some(false))
    && s.transfersSenderUnread == CountIn(rows, None)
    && s.transfersCounted == SumOf(rows, COUNTED)
    && s.valueFromContract == BucketText(rows, Some(true), decimals)
    && s.valueFromEoa == BucketText(rows, Some(false), decimals)
    && s.valueSenderUnread == BucketText(rows, None, decimals)
  }

  // ---- The loops ---------------------------------------------------------------------

  function Members<T>(v: seq<T>): set<T> { set x | x in v }

  ghost predicate Distinct<T>(v: seq<T>) { forall i, j :: 0 <= i < j < |v| ==> v[i] != v[j] }

  lemma {:induction false} DistinctSize<T>(v: seq<T>)
    requires Distinct(v)
    ensures |Members(v)| == |v|
  {
    if v != [] {
      var init, last := v[..|v| - 1], v[|v| - 1];
      DistinctSize(init);
      assert v == init + [last];
      assert Members(v) == Members(init) + {last};
    }
  }

  /** Push unless already there. */
  function PushNew<T(==)>(v: seq<T>, x: T): seq<T>
  {
    if x in v then v else v + [x]
  }

  /** A vector of distinct elements standing for a set. */
  ghost predicate Lists<T>(v: seq<T>, s: set<T>)
  {
    Distinct(v) && Members(v) == s
  }

  lemma ListSize<T>(v: seq<T>, s: set<T>)
    requires Lists(v, s)
    ensures |v| == |s|
  {
    DistinctSize(v);
  }

  lemma PushLists<T>(v: seq<T>, s: set<T>, x: T)
    requires Lists(v, s)
    ensures Lists(PushNew(v, x), s + {x})
  {
    assert Members(v + [x]) == Members(v) + {x};
    if x in v { assert x in Members(v); }
  }

  ghost predicate NamesAt(addresses: seq<string>, agents: seq<nat>, x402: seq<nat>, rows: seq<PaidRow>)
  {
    Lists(addresses, PaidAddresses(rows)) && Lists(agents, PaidAgents(rows)) && Lists(x402, X402Agents(rows))
  }

  lemma NamesGrow(addresses: seq<string>, agents: seq<nat>, x402: seq<nat>, rows: seq<PaidRow>, i: nat)
    requires i < |rows| && NamesAt(addresses, agents, x402, rows[..i])
    ensures var r := rows[i];
      if r.counted then
        NamesAt(PushNew(addresses, r.Address()), PushNew(agents, r.agentId),
                if r.eip3009 then PushNew(x402, r.agentId) else x402, rows[..i + 1])
      else NamesAt(addresses, agents, x402, rows[..i + 1])
  {
    var r := rows[i];
    SetsGrow(rows, i);
    PushLists(addresses, PaidAddresses(rows[..i]), r.Address());
    PushLists(agents, PaidAgents(rows[..i]), r.agentId);
    PushLists(x402, X402Agents(rows[..i]), r.agentId);
  }

  /** The first loop: distinct addresses and agents, and the three buckets. */
  method CountPaid(rows: seq<PaidRow>)
    returns (addresses: seq<string>, agents: seq<nat>, x402: seq<nat>,
             values: Buckets, counts: Buckets)
    ensures NamesAt(addresses, agents, x402, rows) && BucketsAt(values, counts, rows)
  {
    addresses, agents, x402 := [], [], [];
    values, counts := Buckets(0, 0, 0), Buckets(0, 0, 0);
    for i := 0 to |rows|
      invariant NamesAt(addresses, agents, x402, rows[..i]) && BucketsAt(values, counts, rows[..i])
    {
      var r := rows[i];
      NamesGrow(addresses, agents, x402, rows, i);
      BucketGrows(rows, i, Some(true));
      BucketGrows(rows, i, Some(false));
      BucketGrows(rows, i, None);
      if r.counted {
        addresses := PushNew(addresses, r.Address());
        agents := PushNew(agents, r.agentId);
        if r.eip3009 { x402 := PushNew(x402, r.agentId); }
        match r.fromContract {
          case Some(true) =>
            values, counts := values.(contract := SaturatingAdd(values.contract, ValueOf(r))), counts.(contract := counts.contract + 1);
          case Some(false) =>
            values, counts := values.(eoa := SaturatingAdd(values.eoa, ValueOf(r))), counts.(eoa := counts.eoa + 1);
          case None =>
            values, counts := values.(unread := SaturatingAdd(values.unread, ValueOf(r))), counts.(unread := counts.unread + 1);
        }
      }
    }
    assert rows[..|rows|] == rows;
  }

  /** One accumulator per kind of sender. */
  datatype Buckets = Buckets(contract: nat, eoa: nat, unread: nat)

  ghost predicate BucketsAt(values: Buckets, counts: Buckets, rows: seq<PaidRow>)
  {
    && counts == Buckets(CountIn(rows, Some(true)), CountIn(rows, Some(false)), CountIn(rows, None))
    && values == Buckets(Min(TotalIn(rows, Some(true)), U128_MAX), Min(TotalIn(rows, Some(false)), U128_MAX),
                         Min(TotalIn(rows, None), U128_MAX))
  }

  lemma BucketGrows(rows: seq<PaidRow>, i: nat, bucket: Option<bool>)
    requires i < |rows|
    ensures var here := InBucket(rows[i], bucket);
      && CountIn(rows[..i + 1], bucket) == CountIn(rows[..i], bucket) + (if here then 1 else 0)
      && Min(TotalIn(rows[..i + 1], bucket), U128_MAX)
         == if here then SaturatingAdd(Min(TotalIn(rows[..i], bucket), U128_MAX), ValueOf(rows[i])) else Min(TotalIn(rows[..i], bucket), U128_MAX)
  {
    SumOneMore(rows, i, Tick(bucket));
    SumOneMore(rows, i, Worth(bucket));
  }

  lemma SetsGrow(rows: seq<PaidRow>, i: nat)
    requires i < |rows|
    ensures PaidAddresses(rows[..i + 1]) == PaidAddresses(rows[..i]) + if rows[i].counted then {rows[i].Address()} else {}
    ensures PaidAgents(rows[..i + 1]) == PaidAgents(rows[..i]) + if rows[i].counted then {rows[i].agentId} else {}
    ensures X402Agents(rows[..i + 1]) == X402Agents(rows[..i]) + if rows[i].counted && rows[i].eip3009 then {rows[i].agentId} else {}
  {
    assert rows[..i + 1] == rows[..i] + [rows[i]];
  }

  /** The distinct agents whose rows credit an address. */
  method Holders(rows: seq<PaidRow>, address: string) returns (holders: seq<nat>)
    requires Text.ToLower(address) == address
    ensures Lists(holders, AgentsReaching(rows, address))
  {
    holders := [];
    for i := 0 to |rows|
      invariant Lists(holders, AgentsReaching(rows[..i], address))
    {
      assert rows[..i + 1] == rows[..i] + [rows[i]];
      PushLists(holders, AgentsReaching(rows[..i], address), rows[i].agentId);
      assert AgentsReaching(rows[..i + 1], address)
          == AgentsReaching(rows[..i], address) + if rows[i].Address() == address then {rows[i].agentId} else {};
      if Text.EqIgnoreCase(rows[i].creditedAddress, address) {
        holders := PushNew(holders, rows[i].agentId);
      }
    }
    assert rows[..|rows|] == rows;
  }

  /** Which paid addresses more than one agent in this run reaches. */
  method FindShared(rows: seq<PaidRow>, addresses: seq<string>) returns (shared: seq<string>)
    requires Members(addresses) == PaidAddresses(rows)
    ensures Members(shared) == SharedAddresses(rows)
  {
    shared := [];
    for i := 0 to |addresses|
      invariant forall a :: a in shared <==> a in addresses[..i] && |AgentsReaching(rows, a)| > 1
    {
      assert addresses[i] in Members(addresses);
      assert Text.ToLower(addresses[i]) == addresses[i] by {
        var r :| r in rows && r.counted && r.Address() == addresses[i];
        Text.ToLowerIdempotent(r.creditedAddress);
      }
      var holders := Holders(rows, addresses[i]);
      DistinctSize(holders);
      if |holders| > 1 { shared := shared + [addresses[i]]; }
    }
    assert addresses[..|addresses|] == addresses;
    assert forall a :: a in addresses <==> a in Members(addresses);
  }

  /** Does this agent have a paid row, and are all of its paid rows shared? */
  method OnlyShared(rows: seq<PaidRow>, shared: seq<string>, id: nat) returns (yes: bool)
    requires Members(shared) == SharedAddresses(rows) && id in PaidAgents(rows)
    ensures yes <==> id in AgentsOnShared(rows)
  {
    var any, allShared := false, true;
    for i := 0 to |rows|
      invariant any <==> exists r :: r in rows[..i] && r.counted && r.agentId == id
      invariant allShared <==> forall r :: r in rows[..i] && r.counted && r.agentId == id ==> r.Address() in shared
    {
      assert rows[..i + 1] == rows[..i] + [rows[i]];
      if rows[i].counted && rows[i].agentId == id {
        any := true;
        if rows[i].Address() !in shared { allShared := false; }
      }
    }
    assert rows[..|rows|] == rows;
    assert forall a :: a in shared <==> a in Members(shared);
    yes := any && allShared;
  }

  method CountOnShared(rows: seq<PaidRow>, agents: seq<nat>, shared: seq<string>) returns (n: nat)
    requires Lists(agents, PaidAgents(rows)) && Members(shared) == SharedAddresses(rows)
    ensures n == |AgentsOnShared(rows)|
  {
    n := 0;
    for i := 0 to |agents|
      invariant n == |Members(agents[..i]) * AgentsOnShared(rows)|
    {
      assert agents[i] in Members(agents);
      var yes := OnlyShared(rows, shared, agents[i]);
      MembersGrow(agents, i, AgentsOnShared(rows));
      if yes { n := n + 1; }
    }
    assert agents[..|agents|] == agents;
    assert Members(agents) * AgentsOnShared(rows) == AgentsOnShared(rows);
  }

  lemma MembersGrow(v: seq<nat>, i: nat, wanted: set<nat>)
    requires i < |v| && Distinct(v)
    ensures |Members(v[..i + 1]) * wanted| == |Members(v[..i]) * wanted| + if v[i] in wanted then 1 else 0
  {
    assert v[..i + 1] == v[..i] + [v[i]];
    var x := Members(v[..i]) * wanted;
    assert v[i] !in Members(v[..i]);
    assert Members(v[..i + 1]) * wanted == if v[i] in wanted then x + {v[i]} else x;
  }

  /** `filter(|r| r.counted)`. */
  function Counted(rows: seq<PaidRow>): (r: seq<PaidRow>)
    ensures |r| == SumOf(rows, COUNTED)
  {
    if rows == [] then []
    else Counted(rows[..|rows| - 1]) + (if rows[|rows| - 1].counted then [rows[|rows| - 1]] else [])
  }

  method Summarise(rows: seq<PaidRow>, decimals: nat) returns (s: Summary)
    ensures IsSummary(s, rows, decimals)
  {
    var counted := Counted(rows);
    var addresses, agents, x402, values, counts := CountPaid(rows);
    var shared := FindShared(rows, addresses);
    var onShared := CountOnShared(rows, agents, shared);
    ListSize(addresses, PaidAddresses(rows));
    ListSize(agents, PaidAgents(rows));
    ListSize(x402, X402Agents(rows));
    s := Summary(|addresses|, |agents|, onShared, |x402|, |counted|,
                 FormatTotal(values.contract, decimals), FormatTotal(values.eoa, decimals), FormatTotal(values.unread, decimals),
                 counts.contract, counts.eoa, counts.unread);
  }

  // ---- What a summary means ------------------------------------------------------------

  const FROM_KNOWN: PaidRow -> nat := (r: PaidRow) => if r.counted && r.fromContract.Some? then 1 else 0

  /** The published bucket counts add up to the published number of transfers. */
  lemma CountsAddUp(s: Summary, rows: seq<PaidRow>, decimals: nat)
    requires IsSummary(s, rows, decimals)
    ensures s.transfersFromContract + s.transfersFromEoa + s.transfersSenderUnread == s.transfersCounted
  {
    BucketsPartition(rows);
  }

  /** Every counted row is in exactly one bucket. */
  lemma BucketsPartition(rows: seq<PaidRow>)
    ensures CountIn(rows, Some(true)) + CountIn(rows, Some(false)) + CountIn(rows, None) == SumOf(rows, COUNTED)
  {
    forall r | r in rows ensures FROM_KNOWN(r) == Tick(Some(true))(r) + Tick(Some(false))(r) {
      match r.fromContract case None => case Some(c) => if c {} else {}
    }
    SumAdds(rows, FROM_KNOWN, Tick(Some(true)), Tick(Some(false)));
    SumAdds(rows, COUNTED, FROM_KNOWN, Tick(None));
  }

  lemma TrimDigits(s: string)
    requires AllDigits(s) && s != []
    ensures Text.Trim(s) == s
  {
    assert IsDigit(s[0]) && IsDigit(s[|s| - 1]);
  }

  /** The printed bucket reads back as the exact total, capped at 2^128 - 1. */
  lemma BucketReads(rows: seq<PaidRow>, bucket: Option<bool>, decimals: nat)
    ensures var s := BucketText(rows, bucket, decimals);
      Units.Canonical(s, decimals) && Units.ScaledValue(s, decimals) == Min(TotalIn(rows, bucket), U128_MAX)
  {
    var printed := Print(Min(TotalIn(rows, bucket), U128_MAX));
    TrimDigits(printed);
    Units.FormatExact(printed, decimals);
  }

  lemma SetsIgnoreOrder(a: seq<PaidRow>, b: seq<PaidRow>)
    requires forall r :: r in a <==> r in b
    ensures PaidAddresses(a) == PaidAddresses(b) && PaidAgents(a) == PaidAgents(b) && X402Agents(a) == X402Agents(b)
    ensures SharedAddresses(a) == SharedAddresses(b)
  {
    forall x ensures AgentsReaching(a, x) == AgentsReaching(b, x) {}
  }

  lemma SharedAgentsIgnoreOrder(a: seq<PaidRow>, b: seq<PaidRow>)
    requires forall r :: r in a <==> r in b
    ensures AgentsOnShared(a) == AgentsOnShared(b)
  {
    SetsIgnoreOrder(a, b);
  }

  /** Reordering the rows changes nothing in the summary. */
  lemma SummaryIgnoresOrder(a: seq<PaidRow>, b: seq<PaidRow>, s: Summary, t: Summary, decimals: nat)
    requires multiset(a) == multiset(b)
    requires IsSummary(s, a, decimals) && IsSummary(t, b, decimals)
    ensures s == t
  {
    forall bucket: Option<bool> ensures CountIn(a, bucket) == CountIn(b, bucket) && TotalIn(a, bucket) == TotalIn(b, bucket) {
      SumIgnoresOrder(a, b, Tick(bucket));
      SumIgnoresOrder(a, b, Worth(bucket));
    }
    SumIgnoresOrder(a, b, COUNTED);
    forall r ensures r in a <==> r in b { assert r in a <==> r in multiset(a); }
    SetsIgnoreOrder(a, b);
    SharedAgentsIgnoreOrder(a, b);
  }

  // ---- Reading amounts --------------------------------------------------------------------

  /** A value is read exactly if it is digits, after a plus sign at most, and fits 128
      bits. */
  lemma ParseIff(s: string, n: nat)
    ensures ParseU128(s) == Some(n) <==>
      && n <= 340_282_366_920_938_463_463_374_607_431_768_211_455
      && exists digits :: digits != [] && AllDigits(digits) && Value(digits) == n && (s == digits || s == ['+'] + digits)
  {
    var digits := if s != [] && s[0] == '+' then s[1..] else s;
    assert s == digits || s == ['+'] + digits;
    forall d | d != [] && AllDigits(d) && (s == d || s == ['+'] + d) ensures d == digits {
      assert d[0] != '+';
    }
  }

  /** Every printed number is read back, up to that limit. */
  lemma PrintedRead(n: nat)
    ensures ParseU128(Print(n)) == (if n <= 340_282_366_920_938_463_463_374_607_431_768_211_455 then Some(n) else None)
    ensures ParseU128(['+'] + Print(n)) == ParseU128(Print(n))
  {
    assert Print(n)[0] != '+';
    assert (['+'] + Print(n))[1..] == Print(n);
  }
}
