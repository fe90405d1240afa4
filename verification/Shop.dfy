/** What the census may buy (crates/sellers/src/shop.rs): face values rounded
    up, and the cheapest quote under the cap. */
module Shop {
  import opened Common
  import Decimal
  import Networks

  const CAP_CENTS: nat := 10

  datatype Requirement = Requirement(network: string, asset: string, amount: nat)

  datatype PricedAsset = PricedAsset(network: string, address: string, decimals: nat)

  datatype Unprobed = OverCap | Unpriced | OutOfScopeNetwork | NoQuote

  datatype Decision = Buy(index: nat, cents: nat) | Skip(reason: Unprobed)

  /** `assets.iter().find(..)`: the first entry for this network and address. */
  function FindAsset(assets: seq<PricedAsset>, network: string, address: string): (r: Option<PricedAsset>)
    ensures r.Some? ==> r.value in assets && Networks.Same(r.value.network, network) && r.value.address == address
    ensures r.None? ==> forall a :: a in assets ==> !(Networks.Same(a.network, network) && a.address == address)
  {
    if assets == [] then None
    else if Networks.Same(assets[0].network, network) && assets[0].address == address then Some(assets[0])
    else FindAsset(assets[1..], network, address)
  }

  function CheckedU128(x: nat): Option<nat> { if x <= U128_MAX then Some(x) else None }

  lemma Pow10Scales(decimals: nat)
    ensures Decimal.Pow10(decimals) == Decimal.Scaled(1, decimals) >= 1
  {
    Decimal.ScaledIsProduct(1, decimals);
    Decimal.ScaledMonotone(0, decimals);
  }

  /** `10u128.checked_pow(decimals)`. */
  function CheckedPow10(decimals: nat): (r: Option<nat>)
    ensures r.Some? ==> r.value >= 1
  {
    Pow10Scales(decimals);
    CheckedU128(Decimal.Pow10(decimals))
  }

  function DivCeil(x: nat, d: nat): nat
    requires d >= 1
  {
    if x % d == 0 then x / d else x / d + 1
  }

  function FaceValueCents(assets: seq<PricedAsset>, network: string, asset: string, amount: nat): Option<nat>
  {
    match FindAsset(assets, network, asset)
    case None => None
    case Some(entry) =>
      match CheckedPow10(entry.decimals)
      case None => None
      case Some(scale) =>
        match CheckedU128(amount * 100)
        case None => None
        case Some(hundredfold) =>
          var cents := DivCeil(hundredfold, scale);
          if cents <= U64_MAX then Some(cents) else None
  }

  predicate InScope(assets: seq<PricedAsset>, r: Requirement)
  {
    exists a :: a in assets && Networks.Same(a.network, r.network)
  }

  // ---- Rounding ----------------------------------------------------------------------

  /** The least number of cents whose worth in atomic units covers the amount. */
  lemma DivCeilLeast(x: nat, d: nat, c: nat)
    requires d >= 1
    ensures x <= c * d <==> DivCeil(x, d) <= c
  {
    var q := x / d;
    assert x == q * d + x % d;
    if c >= q + 1 {
      ProductMonotone(q + 1, c, d);
      assert (q + 1) * d == q * d + d;
    } else if c == q {
    } else {
      ProductMonotone(c + 1, q, d);
      assert (c + 1) * d == c * d + d;
    }
  }

  lemma ProductMonotone(a: nat, b: nat, d: nat)
    requires a <= b
    ensures a * d <= b * d
  {
    assert b * d == a * d + (b - a) * d;
  }

  /** A readable price is the least whole number of cents that is not below the
      face value; the price is unreadable exactly when the asset is not listed or
      a step leaves its machine integer. */
  lemma FaceValueIs(assets: seq<PricedAsset>, network: string, asset: string, amount: nat)
    ensures match FindAsset(assets, network, asset)
            case None => FaceValueCents(assets, network, asset, amount).None?
            case Some(entry) =>
              var scale := Decimal.Pow10(entry.decimals);
              match FaceValueCents(assets, network, asset, amount)
              case Some(cents) => amount * 100 <= cents * scale && (cents > 0 ==> (cents - 1) * scale < amount * 100)
              case None => scale > U128_MAX || amount * 100 > U128_MAX || U64_MAX * scale < amount * 100
  {
    match FindAsset(assets, network, asset)
    case None =>
    case Some(entry) =>
      Pow10Scales(entry.decimals);
      RoundedUp(amount * 100, Decimal.Pow10(entry.decimals));
  }

  lemma RoundedUp(x: nat, scale: nat)
    requires scale >= 1
    ensures x <= DivCeil(x, scale) * scale && (DivCeil(x, scale) > 0 ==> (DivCeil(x, scale) - 1) * scale < x)
    ensures DivCeil(x, scale) > U64_MAX ==> U64_MAX * scale < x
  {
    var cents := DivCeil(x, scale);
    DivCeilLeast(x, scale, cents);
    if cents > 0 { DivCeilLeast(x, scale, cents - 1); }
    DivCeilLeast(x, scale, U64_MAX);
  }

  // ---- The decision ------------------------------------------------------------------

  /** What one quote says to this census. */
  datatype Reading = OutOfScope | Unreadable | Priced(cents: nat)

  type Reader = Requirement -> Reading

  function ReadBy(assets: seq<PricedAsset>): Reader
  {
    (r: Requirement) =>
      if !InScope(assets, r) then OutOfScope
      else match FaceValueCents(assets, r.network, r.asset, r.amount) case Some(c) => Priced(c) case None => Unreadable
  }

  type Pricer = Requirement -> Option<nat>

  function PriceBy(assets: seq<PricedAsset>): Pricer
  {
    (r: Requirement) => FaceValueCents(assets, r.network, r.asset, r.amount)
  }

  /** Quotes in scope read as their price says. */
  ghost predicate Prices(price: Pricer, read: Reader)
  {
    forall r :: !read(r).OutOfScope? ==> read(r) == match price(r) case Some(c) => Priced(c) case None => Unreadable
  }

  lemma PricesBy(assets: seq<PricedAsset>)
    ensures Prices(PriceBy(assets), ReadBy(assets))
  {
  }

  predicate Buyable(r: Reading) { r.Priced? && r.cents <= CAP_CENTS }

  /** The most informative thing learned from quotes none of which is buyable. */
  ghost predicate BestReason(reason: Unprobed, quotes: seq<Requirement>, read: Reader)
  {
    match reason
    case NoQuote => quotes == []
    case OverCap => exists r :: r in quotes && read(r).Priced?
    case Unpriced => (exists r :: r in quotes && read(r).Unreadable?) && forall r :: r in quotes ==> !read(r).Priced?
    case OutOfScopeNetwork => quotes != [] && forall r :: r in quotes ==> read(r).OutOfScope?
  }

  /** The first of the cheapest quotes at or under the cap; or, if there is no
      such quote, the reason. */
  ghost predicate IsDecision(d: Decision, quotes: seq<Requirement>, read: Reader)
  {
    match d
    case Buy(index, cents) =>
      && index < |quotes| && read(quotes[index]) == Priced(cents) && cents <= CAP_CENTS
      && (forall j :: 0 <= j < |quotes| && read(quotes[j]).Priced? ==> cents <= read(quotes[j]).cents)
      && (forall j :: 0 <= j < index && read(quotes[j]).Priced? ==> cents < read(quotes[j]).cents)
    case Skip(reason) =>
      (forall r :: r in quotes ==> !Buyable(read(r))) && BestReason(reason, quotes, read)
  }

  /** What the loop knows after these quotes. */
  ghost predicate Surveyed(cheapest: Option<(nat, nat)>, sawOverCap: bool, sawUnpriced: bool,
                           quotes: seq<Requirement>, seen: seq<nat>, read: Reader)
  {
    && (forall j :: j in seen ==> j < |quotes|)
    && (match cheapest
        case None => forall j :: j in seen ==> !Buyable(read(quotes[j]))
        case Some((i, c)) => i in seen && read(quotes[i]) == Priced(c) && c <= CAP_CENTS && forall j :: j in seen && Buyable(read(quotes[j])) ==> c <= read(quotes[j]).cents && (j < i ==> c < read(quotes[j]).cents))
    && (sawOverCap <==> exists j :: j in seen && read(quotes[j]).Priced? && !Buyable(read(quotes[j])))
    && (sawUnpriced <==> exists j :: j in seen && read(quotes[j]).Unreadable?)
  }

  /** One more quote, further on. */
  lemma SurveyStep(cheapest: Option<(nat, nat)>, sawOverCap: bool, sawUnpriced: bool,
                   quotes: seq<Requirement>, seen: seq<nat>, read: Reader, i: nat)
    requires Surveyed(cheapest, sawOverCap, sawUnpriced, quotes, seen, read)
    requires i < |quotes| && !read(quotes[i]).OutOfScope? && forall j :: j in seen ==> j < i
    ensures var r := read(quotes[i]);
            Surveyed(if Buyable(r) && (cheapest.None? || r.cents < cheapest.value.1) then Some((i, r.cents)) else cheapest,
                     sawOverCap || (r.Priced? && !Buyable(r)), sawUnpriced || r.Unreadable?, quotes, seen + [i], read)
  {
    assert forall j :: j in seen + [i] <==> j in seen || j == i;
  }

  /** The survey of all quotes in scope settles the decision. */
  lemma SurveyDecides(cheapest: Option<(nat, nat)>, sawOverCap: bool, sawUnpriced: bool,
                      quotes: seq<Requirement>, seen: seq<nat>, read: Reader)
    requires Surveyed(cheapest, sawOverCap, sawUnpriced, quotes, seen, read) && seen != []
    requires forall j :: j in seen <==> 0 <= j < |quotes| && !read(quotes[j]).OutOfScope?
    ensures cheapest.Some? ==> IsDecision(Buy(cheapest.value.0, cheapest.value.1), quotes, read)
    ensures cheapest.None? && sawOverCap ==> IsDecision(Skip(OverCap), quotes, read)
    ensures cheapest.None? && !sawOverCap && sawUnpriced ==> IsDecision(Skip(Unpriced), quotes, read)
    ensures cheapest.Some? || sawOverCap || sawUnpriced
  {
    forall r | r in quotes ensures exists j :: 0 <= j < |quotes| && quotes[j] == r {}
    assert seen[0] in seen;
    forall j | 0 <= j < |quotes| && read(quotes[j]).Priced? ensures j in seen {}
    if cheapest.None? {
      forall r | r in quotes ensures !Buyable(read(r)) {
        var j :| 0 <= j < |quotes| && quotes[j] == r;
        assert Buyable(read(quotes[j])) ==> j in seen;
      }
      if sawOverCap {
        var j :| j in seen && read(quotes[j]).Priced?;
        assert quotes[j] in quotes;
      } else if sawUnpriced {
        var j :| j in seen && read(quotes[j]).Unreadable?;
        assert quotes[j] in quotes;
        forall r | r in quotes ensures !read(r).Priced? {
          var k :| 0 <= k < |quotes| && quotes[k] == r;
        }
      }
    }
  }

  method Decide(assets: seq<PricedAsset>, requirements: seq<Requirement>) returns (d: Decision)
    ensures IsDecision(d, requirements, ReadBy(assets))
  {
    if requirements == [] {
      return Skip(NoQuote);
    }
    var inScope := InScopeIndices(assets, requirements);
    if inScope == [] {
      NobodyInScope(assets, requirements);
      return Skip(OutOfScopeNetwork);
    }
    PricesBy(assets);
    var cheapest, sawOverCap, sawUnpriced := Survey(PriceBy(assets), requirements, inScope, ReadBy(assets));
    SurveyDecides(cheapest, sawOverCap, sawUnpriced, requirements, inScope, ReadBy(assets));
    if cheapest.Some? {
      d := Buy(cheapest.value.0, cheapest.value.1);
    } else if sawOverCap {
      d := Skip(OverCap);
    } else if sawUnpriced {
      d := Skip(Unpriced);
    } else {
      assert false;
    }
  }

  lemma NobodyInScope(assets: seq<PricedAsset>, quotes: seq<Requirement>)
    requires quotes != [] && forall i :: 0 <= i < |quotes| ==> ReadBy(assets)(quotes[i]).OutOfScope?
    ensures IsDecision(Skip(OutOfScopeNetwork), quotes, ReadBy(assets))
  {
  }

  ghost predicate ScopeOf(indices: seq<nat>, quotes: seq<Requirement>, n: nat, read: Reader)
  {
    && n <= |quotes|
    && (forall i :: i in indices <==> 0 <= i < n && !read(quotes[i]).OutOfScope?)
    && (forall j, k :: 0 <= j < k < |indices| ==> indices[j] < indices[k])
  }

  lemma ScopeStep(indices: seq<nat>, quotes: seq<Requirement>, n: nat, read: Reader)
    requires ScopeOf(indices, quotes, n, read) && n < |quotes|
    ensures ScopeOf(if read(quotes[n]).OutOfScope? then indices else indices + [n], quotes, n + 1, read)
  {
    var more := indices + [n];
    forall i ensures i in more <==> i in indices || i == n {}
    forall j, k | 0 <= j < k < |more| ensures more[j] < more[k] {
      assert indices[j] in indices && more[j] == indices[j];
    }
  }

  /** The indices of the quotes on a swept network, in order. */
  method InScopeIndices(assets: seq<PricedAsset>, requirements: seq<Requirement>) returns (indices: seq<nat>)
    ensures ScopeOf(indices, requirements, |requirements|, ReadBy(assets))
  {
    indices := [];
    ghost var read := ReadBy(assets);
    for i := 0 to |requirements|
      invariant ScopeOf(indices, requirements, i, read)
    {
      ScopeStep(indices, requirements, i, read);
      if InScope(assets, requirements[i]) { indices := indices + [i]; }
    }
  }

  /** The loop over them. */
  method Survey(price: Pricer, requirements: seq<Requirement>, inScope: seq<nat>, ghost read: Reader)
    returns (cheapest: Option<(nat, nat)>, sawOverCap: bool, sawUnpriced: bool)
    requires ScopeOf(inScope, requirements, |requirements|, read) && Prices(price, read)
    ensures Surveyed(cheapest, sawOverCap, sawUnpriced, requirements, inScope, read)
  {
    cheapest, sawOverCap, sawUnpriced := None, false, false;
    for n := 0 to |inScope|
      invariant Surveyed(cheapest, sawOverCap, sawUnpriced, requirements, inScope[..n], read)
    {
      var i := inScope[n];
      assert i in inScope;
      assert inScope[..n + 1] == inScope[..n] + [i];
      SurveyStep(cheapest, sawOverCap, sawUnpriced, requirements, inScope[..n], read, i);
      match price(requirements[i]) {
        case Some(cents) =>
          if cents <= CAP_CENTS {
            if cheapest.None? || cents < cheapest.value.1 { cheapest := Some((i, cents)); }
          } else {
            sawOverCap := true;
          }
        case None => sawUnpriced := true;
      }
    }
    assert inScope[..|inScope|] == inScope;
  }

  // ---- What a decision is worth ------------------------------------------------------

  /** The quotes leave one decision. */
  lemma DecisionUnique(d: Decision, e: Decision, quotes: seq<Requirement>, read: Reader)
    requires IsDecision(d, quotes, read) && IsDecision(e, quotes, read)
    ensures d == e
  {
    assert forall j :: 0 <= j < |quotes| ==> quotes[j] in quotes;
    if d.Skip? && e.Skip? && quotes != [] { assert quotes[0] in quotes; }
  }

  /** Listing the quotes in another order changes which index is bought, never
      the price, and never the reason for buying nothing. */
  lemma OrderOnlyMovesIndex(d: Decision, e: Decision, quotes: seq<Requirement>, shuffled: seq<Requirement>, read: Reader)
    requires multiset(quotes) == multiset(shuffled)
    requires IsDecision(d, quotes, read) && IsDecision(e, shuffled, read)
    ensures d.Buy? <==> e.Buy?
    ensures d.Buy? ==> d.cents == e.cents
    ensures d.Skip? ==> d == e
  {
    forall r ensures r in quotes <==> r in shuffled { assert r in quotes <==> r in multiset(quotes); }
    assert forall j :: 0 <= j < |quotes| ==> quotes[j] in shuffled;
    assert forall j :: 0 <= j < |shuffled| ==> shuffled[j] in quotes;
    if d.Buy? { assert quotes[d.index] in shuffled; }
    if e.Buy? { assert shuffled[e.index] in quotes; }
    if quotes == [] { assert |multiset(shuffled)| == 0; }
    if d.Skip? && e.Skip? && quotes != [] { assert quotes[0] in quotes && shuffled != []; }
  }

  /** The census never spends more than the cap: the bought amount, at the
      asset's own scale, is covered by the price, and the price by ten cents. */
  lemma NeverOverspends(assets: seq<PricedAsset>, quotes: seq<Requirement>, d: Decision)
    requires IsDecision(d, quotes, ReadBy(assets)) && d.Buy?
    ensures d.index < |quotes|
    ensures var q := quotes[d.index];
            var entry := FindAsset(assets, q.network, q.asset);
            entry.Some? && q.amount * 100 <= d.cents * Decimal.Pow10(entry.value.decimals) &&
            q.amount * 100 <= CAP_CENTS * Decimal.Pow10(entry.value.decimals)
  {
    var q := quotes[d.index];
    FaceValueIs(assets, q.network, q.asset, q.amount);
    var entry := FindAsset(assets, q.network, q.asset);
    ProductMonotone(d.cents, CAP_CENTS, Decimal.Pow10(entry.value.decimals));
  }

  // ---- The first sweep ---------------------------------------------------------------

  const USDC: string := "0x833589fcd6edb6e08f4c7c32d4f71b54bda02913"

  const SWEEP_ONE_ASSETS := [PricedAsset(Networks.BASE, USDC, 6)]

  /** For the one asset of the first sweep the inclusive cap is a hundred thousand
      atomic units, to the unit. */
  lemma SweepOneCap(r: Requirement)
    ensures Buyable(ReadBy(SWEEP_ONE_ASSETS)(r)) <==>
            Networks.Same("eip155" + ":" + "8453", r.network) && r.asset == "0x833589fcd6edb6e08f4c7c32d4f71b54bda02913" && r.amount <= 100_000
  {

    var entry := PricedAsset(Networks.BASE, USDC, 6);
    assert SWEEP_ONE_ASSETS[0] == entry;
    if Networks.Same(Networks.BASE, r.network) && r.asset == USDC {
      assert entry in SWEEP_ONE_ASSETS && InScope(SWEEP_ONE_ASSETS, r);
      assert FindAsset(SWEEP_ONE_ASSETS, r.network, r.asset) == Some(entry);
      FaceValueIs(SWEEP_ONE_ASSETS, r.network, r.asset, r.amount);
      MillionUnits();
    }
  }

  lemma MillionUnits()
    ensures Decimal.Pow10(6) == 1_000_000
  {
    assert Decimal.Pow10(3) == 1_000;
    assert Decimal.Pow10(6) == 10 * Decimal.Pow10(5);
    assert Decimal.Pow10(5) == 10 * Decimal.Pow10(4);
    assert Decimal.Pow10(4) == 10 * Decimal.Pow10(3);
  }
}
