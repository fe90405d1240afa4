/** The population (crates/sellers/src/catalog.rs): many catalogs' listings into
    one sorted set of sellers, with every loss counted. */
module Catalog {
  import opened Common
  import opened Order
  import opened Identity
  import Networks

  datatype Listing = Listing(
    catalog: string, payTo: string, resource: string, network: string,
    claimedAmount: Option<nat>, claimedAsset: Option<string>)

  datatype Seller = Seller(id: SellerId, catalogs: set<string>, resources: set<string>)

  datatype Rejected = Rejected(listing: Listing, reason: string)

  datatype Population = Population(sellers: seq<Seller>, rejected: seq<Rejected>)

  /** How listings get their identities. What follows holds for any such rule;
      assembly uses the one below. */
  type Namer = Listing -> Result<SellerId, IdentityError>

  /** The identity a listing claims, read under the rules of its own network. */
  function IdOf(parse: UrlParser): Namer
  {
    (l: Listing) => IdentityOf(l.payTo, l.resource, Networks.EncodingOfNetwork(l.network), parse)
  }

  // ---- The specification -------------------------------------------------------------

  function IdsOf(listings: seq<Listing>, name: Namer): set<SellerId>
  {
    set l | l in listings && name(l).Ok? :: name(l).value
  }

  function SellerOf(listings: seq<Listing>, id: SellerId, name: Namer): Seller
  {
    Seller(id,
           set l | l in listings && name(l) == Ok(id) :: l.catalog,
           set l | l in listings && name(l) == Ok(id) :: l.resource)
  }

  function RejectionOf(l: Listing, name: Namer): seq<Rejected>
  {
    match name(l) case Err(e) => [Rejected(l, e.Word())] case Ok(_) => []
  }

  function RejectedOf(listings: seq<Listing>, name: Namer): seq<Rejected>
  {
    if listings == [] then []
    else RejectedOf(listings[..|listings| - 1], name) + RejectionOf(listings[|listings| - 1], name)
  }

  function Ids(sellers: seq<Seller>): (ids: seq<SellerId>)
    ensures |ids| == |sellers|
  {
    seq(|sellers|, i requires 0 <= i < |sellers| => sellers[i].id)
  }

  /** The population of a set of listings: one seller per identity, in ascending
      order, carrying what its own listings said; and every refusal, in turn. */
  ghost predicate IsPopulation(listings: seq<Listing>, name: Namer, p: Population)
  {
    && Ascending(Ids(p.sellers), PairLess)
    && (forall id :: id in Ids(p.sellers) <==> id in IdsOf(listings, name))
    && (forall i :: 0 <= i < |p.sellers| ==> p.sellers[i] == SellerOf(listings, p.sellers[i].id, name))
    && p.rejected == RejectedOf(listings, name)
  }

  // ---- Assembly ----------------------------------------------------------------------

  lemma OneMoreId(before: seq<Listing>, l: Listing, name: Namer)
    ensures IdsOf(before + [l], name) == IdsOf(before, name) + (if name(l).Ok? then {name(l).value} else {})
  {
  }

  lemma OneMoreListing(before: seq<Listing>, l: Listing, id: SellerId, name: Namer)
    ensures SellerOf(before + [l], id, name) ==
            var s := SellerOf(before, id, name);
            if name(l) == Ok(id) then Seller(id, s.catalogs + {l.catalog}, s.resources + {l.resource}) else s
  {
    var s, r := SellerOf(before, id, name), SellerOf(before + [l], id, name);
    assert forall m :: m in before + [l] <==> m in before || m == l;
    if name(l) == Ok(id) {
      assert r.catalogs == s.catalogs + {l.catalog};
      assert r.resources == s.resources + {l.resource};
    } else {
      assert r.catalogs == s.catalogs && r.resources == s.resources;
    }
  }

  /** An identity no listing has named yet starts from nothing. */
  lemma UnseenSeller(before: seq<Listing>, id: SellerId, name: Namer)
    requires id !in IdsOf(before, name)
    ensures SellerOf(before, id, name) == Seller(id, {}, {})
  {
    forall l | l in before ensures name(l) != Ok(id) {}
  }

  ghost predicate Grouped(byId: map<SellerId, Seller>, listings: seq<Listing>, name: Namer)
  {
    byId.Keys == IdsOf(listings, name) && forall id :: id in byId ==> byId[id] == SellerOf(listings, id, name)
  }

  lemma GroupedStep(byId: map<SellerId, Seller>, before: seq<Listing>, l: Listing, name: Namer)
    requires Grouped(byId, before, name)
    ensures name(l).Err? ==> Grouped(byId, before + [l], name)
    ensures name(l).Ok? ==>
              var id := name(l).value;
              var entry := if id in byId then byId[id] else Seller(id, {}, {});
              Grouped(byId[id := Seller(id, entry.catalogs + {l.catalog}, entry.resources + {l.resource})], before + [l], name)
  {
    forall id ensures id !in IdsOf(before, name) ==> SellerOf(before, id, name) == Seller(id, {}, {}) {
      if id !in IdsOf(before, name) { UnseenSeller(before, id, name); }
    }
    OneMoreId(before, l, name);
    forall id: SellerId { OneMoreListing(before, l, id, name); }
  }

  method Assemble(listings: seq<Listing>, parse: UrlParser) returns (p: Population)
    ensures IsPopulation(listings, IdOf(parse), p)
  {
    p := AssembleBy(listings, IdOf(parse));
  }

  method AssembleBy(listings: seq<Listing>, name: Namer) returns (p: Population)
    ensures IsPopulation(listings, name, p)
  {
    var byId, rejected := Group(listings, name);
    PairOrder();
    var ids := InOrder(byId.Keys, PairLess);
    var sellers := Values(byId, ids);
    assert Ids(sellers) == ids;
    p := Population(sellers, rejected);
  }

  /** The loop over the listings. */
  method Group(listings: seq<Listing>, name: Namer) returns (byId: map<SellerId, Seller>, rejected: seq<Rejected>)
    ensures Grouped(byId, listings, name) && rejected == RejectedOf(listings, name)
  {
    byId, rejected := map[], [];
    for i := 0 to |listings|
      invariant Grouped(byId, listings[..i], name)
      invariant rejected == RejectedOf(listings[..i], name)
    {
      var l := listings[i];
      GroupedStep(byId, listings[..i], l, name);
      assert listings[..i + 1] == listings[..i] + [l];
      RejectedStep(listings[..i], l, name);
      match name(l) {
        case Ok(id) =>
          var entry := if id in byId then byId[id] else Seller(id, {}, {});
          byId := byId[id := Seller(id, entry.catalogs + {l.catalog}, entry.resources + {l.resource})];
        case Err(e) => rejected := rejected + [Rejected(l, e.Word())];
      }
    }
    assert listings[..|listings|] == listings;
  }

  lemma RejectedStep(before: seq<Listing>, l: Listing, name: Namer)
    ensures RejectedOf(before + [l], name) == RejectedOf(before, name) + RejectionOf(l, name)
  {
    assert (before + [l])[..|before|] == before;
  }

  /** `into_values`: the sellers in the order of their identities. */
  method Values(byId: map<SellerId, Seller>, ids: seq<SellerId>) returns (sellers: seq<Seller>)
    requires forall id :: id in ids ==> id in byId
    ensures |sellers| == |ids| && forall j :: 0 <= j < |ids| ==> sellers[j] == byId[ids[j]]
  {
    sellers := [];
    for i := 0 to |ids|
      invariant |sellers| == i && forall j :: 0 <= j < i ==> sellers[j] == byId[ids[j]]
    {
      assert ids[i] in ids;
      sellers := sellers + [byId[ids[i]]];
    }
  }

  // ---- Determinism -------------------------------------------------------------------

  lemma {:induction false} RejectedConcat(a: seq<Listing>, b: seq<Listing>, name: Namer)
    ensures RejectedOf(a + b, name) == RejectedOf(a, name) + RejectedOf(b, name)
    decreases |b|
  {
    if b == [] {
      assert a + b == a;
    } else {
      assert (a + b)[..|a + b| - 1] == a + b[..|b| - 1];
      RejectedConcat(a, b[..|b| - 1], name);
    }
  }

  lemma RejectedWithout(listings: seq<Listing>, i: nat, name: Namer)
    requires i < |listings|
    ensures multiset(RejectedOf(listings, name)) ==
            multiset(RejectedOf(Without(listings, i), name)) + multiset(RejectionOf(listings[i], name))
  {
    var a, b := listings[..i], listings[i + 1..];
    Around(listings, i);
    RejectedConcat(a + [listings[i]], b, name);
    RejectedConcat(a, b, name);
    RejectedStep(a, listings[i], name);
  }

  lemma {:induction false} RejectedIgnoresOrder(a: seq<Listing>, b: seq<Listing>, name: Namer)
    requires multiset(a) == multiset(b)
    ensures multiset(RejectedOf(a, name)) == multiset(RejectedOf(b, name))
    decreases |a|
  {
    if a == [] {
      assert |multiset(b)| == 0;
    } else {
      var n := |a| - 1;
      assert a[n] in multiset(b);
      var i :| 0 <= i < |b| && b[i] == a[n];
      WithoutMultiset(a, n);
      WithoutMultiset(b, i);
      RejectedWithout(a, n, name);
      RejectedWithout(b, i, name);
      RejectedIgnoresOrder(Without(a, n), Without(b, i), name);
    }
  }

  /** Two accounts of sellers with the same identities, in order, that both say
      what the listings said, are the same. */
  lemma SellersUnique(a: seq<Listing>, b: seq<Listing>, name: Namer, p: Population, q: Population)
    requires IsPopulation(a, name, p) && IsPopulation(b, name, q)
    requires forall l :: l in a <==> l in b
    ensures p.sellers == q.sellers
  {
    PairOrder();
    assert IdsOf(a, name) == IdsOf(b, name);
    AscendingUnique(Ids(p.sellers), Ids(q.sellers), PairLess);
    forall i | 0 <= i < |p.sellers| ensures p.sellers[i] == q.sellers[i] {
      assert p.sellers[i].id == Ids(p.sellers)[i] == Ids(q.sellers)[i] == q.sellers[i].id;
      assert SellerOf(a, p.sellers[i].id, name) == SellerOf(b, p.sellers[i].id, name);
    }
  }

  /** The same listings in any order give the identical sellers in the identical
      order, and the same refusals. */
  lemma OrderIrrelevant(a: seq<Listing>, b: seq<Listing>, name: Namer, p: Population, q: Population)
    requires multiset(a) == multiset(b) && IsPopulation(a, name, p) && IsPopulation(b, name, q)
    ensures p.sellers == q.sellers && multiset(p.rejected) == multiset(q.rejected)
  {
    forall l ensures l in a <==> l in b { assert l in a <==> l in multiset(a); }
    SellersUnique(a, b, name, p, q);
    RejectedIgnoresOrder(a, b, name);
  }

  lemma IdsDistinct(listings: seq<Listing>, name: Namer, p: Population)
    requires IsPopulation(listings, name, p)
    ensures forall i, j :: 0 <= i < j < |p.sellers| ==> p.sellers[i].id != p.sellers[j].id
  {
    PairOrder();
    forall i, j | 0 <= i < j < |p.sellers| ensures p.sellers[i].id != p.sellers[j].id {
      assert PairLess(Ids(p.sellers)[i], Ids(p.sellers)[j]);
    }
  }

  // ---- Losslessness ------------------------------------------------------------------

  function Refused(name: Namer): Listing -> nat
  {
    (l: Listing) => if name(l).Err? then 1 else 0
  }

  lemma {:induction false} RejectedCounts(listings: seq<Listing>, name: Namer)
    ensures |RejectedOf(listings, name)| == SumOf(listings, Refused(name))
  {
    if listings != [] { RejectedCounts(listings[..|listings| - 1], name); }
  }

  lemma {:induction false} RejectedHolds(listings: seq<Listing>, name: Namer, r: Rejected)
    ensures r in RejectedOf(listings, name) <==>
            r.listing in listings && name(r.listing).Err? && r.reason == name(r.listing).error.Word()
  {
    if listings != [] {
      var n := |listings| - 1;
      RejectedHolds(listings[..n], name, r);
      RejectionHolds(listings[n], name, r);
      assert listings == listings[..n] + [listings[n]];
      assert r.listing in listings <==> r.listing in listings[..n] || r.listing == listings[n];
    }
  }

  lemma RejectionHolds(l: Listing, name: Namer, r: Rejected)
    ensures r in RejectionOf(l, name) <==> r.listing == l && name(l).Err? && r.reason == name(l).error.Word()
  {
    if name(l).Err? { assert RejectionOf(l, name) == [Rejected(l, name(l).error.Word())]; }
  }

  /** Every listing either is refused, with its reason on the row, or lands its
      catalog and its resource in the one seller with its identity. */
  lemma NothingDropped(listings: seq<Listing>, name: Namer, p: Population, l: Listing)
    requires IsPopulation(listings, name, p) && l in listings
    ensures match name(l)
            case Err(e) => Rejected(l, e.Word()) in p.rejected
            case Ok(id) => exists i :: 0 <= i < |p.sellers| && p.sellers[i].id == id &&
                             l.catalog in p.sellers[i].catalogs && l.resource in p.sellers[i].resources &&
                             forall j :: 0 <= j < |p.sellers| && p.sellers[j].id == id ==> j == i
  {
    match name(l)
    case Err(e) => RejectedHolds(listings, name, Rejected(l, e.Word()));
    case Ok(id) =>
      var ids := Ids(p.sellers);
      assert id in ids;
      var i :| 0 <= i < |ids| && ids[i] == id;
      assert p.sellers[i] == SellerOf(listings, p.sellers[i].id, name);
      IdsDistinct(listings, name, p);
  }

  /** Nothing is in a seller that no listing supplied under its identity, and
      every refusal names a listing that was really refused for that reason. */
  lemma NothingInvented(listings: seq<Listing>, name: Namer, p: Population)
    requires IsPopulation(listings, name, p)
    ensures forall s, c :: s in p.sellers && c in s.catalogs ==>
              exists l :: l in listings && name(l) == Ok(s.id) && l.catalog == c
    ensures forall s, r :: s in p.sellers && r in s.resources ==>
              exists l :: l in listings && name(l) == Ok(s.id) && l.resource == r
    ensures forall r :: r in p.rejected ==> r.listing in listings && name(r.listing).Err? && r.reason == name(r.listing).error.Word()
  {
    forall r | r in p.rejected
      ensures r.listing in listings && name(r.listing).Err? && r.reason == name(r.listing).error.Word()
    {
      RejectedHolds(listings, name, r);
    }
  }

  // ---- Coverage ----------------------------------------------------------------------

  function Mentions(catalog: string): Seller -> nat
  {
    (s: Seller) => if catalog in s.catalogs then 1 else 0
  }

  lemma {:induction false} MentionedSometimes(sellers: seq<Seller>, catalog: string)
    ensures SumOf(sellers, Mentions(catalog)) > 0 <==> exists s :: s in sellers && catalog in s.catalogs
  {
    if sellers != [] {
      var n := |sellers| - 1;
      MentionedSometimes(sellers[..n], catalog);
      assert sellers == sellers[..n] + [sellers[n]];
    }
  }

  ghost predicate Covers(out: map<string, nat>, sellers: seq<Seller>)
  {
    forall c :: SumOf(sellers, Mentions(c)) == if c in out then out[c] else 0
  }

  /** How many sellers each catalog lists. */
  method Coverage(p: Population) returns (out: map<string, nat>)
    ensures forall c :: c in out <==> exists s :: s in p.sellers && c in s.catalogs
    ensures forall c :: c in out ==> out[c] == SumOf(p.sellers, Mentions(c))
  {
    out := map[];
    for i := 0 to |p.sellers|
      invariant Covers(out, p.sellers[..i]) && forall c :: c in out ==> out[c] > 0
    {
      out := Mention(p.sellers[..i], p.sellers[i], out);
      assert p.sellers[..i + 1] == p.sellers[..i] + [p.sellers[i]];
    }
    assert p.sellers[..|p.sellers|] == p.sellers;
    forall c { MentionedSometimes(p.sellers, c); }
  }

  /** The inner loop: one seller's catalogs, each counted once more. */
  method Mention(before: seq<Seller>, s: Seller, counted: map<string, nat>) returns (out: map<string, nat>)
    requires Covers(counted, before) && forall c :: c in counted ==> counted[c] > 0
    ensures Covers(out, before + [s]) && forall c :: c in out ==> out[c] > 0
  {
    out := counted;
    var rest := s.catalogs;
    while rest != {}
      invariant rest <= s.catalogs && forall c :: c in out ==> out[c] > 0
      invariant forall c :: (if c in out then out[c] else 0) ==
                            (if c in counted then counted[c] else 0) + (if c in s.catalogs - rest then 1 else 0)
    {
      var c :| c in rest;
      out := out[c := (if c in out then out[c] else 0) + 1];
      rest := rest - {c};
    }
    assert (before + [s])[..|before|] == before;
  }

  function IdsIn(sellers: seq<Seller>, catalog: string): set<SellerId>
  {
    set s | s in sellers && catalog in s.catalogs :: s.id
  }

  lemma {:induction false} DistinctCount(sellers: seq<Seller>, catalog: string)
    requires forall i, j :: 0 <= i < j < |sellers| ==> sellers[i].id != sellers[j].id
    ensures SumOf(sellers, Mentions(catalog)) == |IdsIn(sellers, catalog)|
  {
    if sellers != [] {
      var n := |sellers| - 1;
      var s := sellers[n];
      DistinctCount(sellers[..n], catalog);
      assert sellers == sellers[..n] + [s];
      if catalog in s.catalogs {
        assert IdsIn(sellers, catalog) == IdsIn(sellers[..n], catalog) + {s.id};
        assert forall i :: 0 <= i < n ==> sellers[..n][i].id != s.id;
      } else {
        assert IdsIn(sellers, catalog) == IdsIn(sellers[..n], catalog);
      }
    }
  }

  /** The listings of one catalog alone. */
  function Published(listings: seq<Listing>, catalog: string): (r: seq<Listing>)
    ensures forall l :: l in r <==> l in listings && l.catalog == catalog
  {
    if listings == [] then []
    else
      var last := listings[|listings| - 1];
      assert listings == listings[..|listings| - 1] + [last];
      Published(listings[..|listings| - 1], catalog) + (if last.catalog == catalog then [last] else [])
  }

  /** A catalog's coverage is the number of sellers its own listings would have
      assembled alone, whatever the other catalogs say. */
  lemma CoverageAlone(listings: seq<Listing>, name: Namer, p: Population, catalog: string)
    requires IsPopulation(listings, name, p)
    ensures SumOf(p.sellers, Mentions(catalog)) == |IdsOf(Published(listings, catalog), name)|
  {
    IdsDistinct(listings, name, p);
    DistinctCount(p.sellers, catalog);
    var own := Published(listings, catalog);
    forall id ensures id in IdsIn(p.sellers, catalog) <==> id in IdsOf(own, name) {
      if id in IdsIn(p.sellers, catalog) {
        var s :| s in p.sellers && catalog in s.catalogs && s.id == id;
        var l :| l in listings && name(l) == Ok(id) && l.catalog == catalog;
        assert l in own;
      }
      if id in IdsOf(own, name) {
        var l :| l in own && name(l) == Ok(id);
        NothingDropped(listings, name, p, l);
      }
    }
    assert IdsIn(p.sellers, catalog) == IdsOf(own, name);
  }

  /** `exclusive_to`. */
  function ExclusiveTo(sellers: seq<Seller>, catalog: string): (r: seq<Seller>)
    ensures forall s :: s in r <==> s in sellers && s.catalogs == {catalog}
  {
    if sellers == [] then []
    else
      var last := sellers[|sellers| - 1];
      assert sellers == sellers[..|sellers| - 1] + [last];
      ExclusiveTo(sellers[..|sellers| - 1], catalog) +
      (if |last.catalogs| == 1 && catalog in last.catalogs then OnlyMember(last.catalogs, catalog); [last]
       else [])
  }

  lemma OnlyMember(s: set<string>, x: string)
    requires |s| == 1 && x in s
    ensures s == {x}
  {
    assert |s - {x}| == 0;
    assert s == {x} + (s - {x});
  }

  /** The listings of all other catalogs. */
  function Others(listings: seq<Listing>, catalog: string): (r: seq<Listing>)
    ensures forall l :: l in r <==> l in listings && l.catalog != catalog
  {
    if listings == [] then []
    else
      var last := listings[|listings| - 1];
      assert listings == listings[..|listings| - 1] + [last];
      Others(listings[..|listings| - 1], catalog) + (if last.catalog != catalog then [last] else [])
  }

  /** The sellers exclusive to a catalog are exactly the ones a census without
      that catalog would miss. */
  lemma ExclusiveWouldBeMissed(listings: seq<Listing>, name: Namer, p: Population, q: Population, catalog: string, s: Seller)
    requires IsPopulation(listings, name, p) && IsPopulation(Others(listings, catalog), name, q) && s in p.sellers
    ensures s in ExclusiveTo(p.sellers, catalog) <==> s.id !in Ids(q.sellers)
  {
    var rest := Others(listings, catalog);
    assert s == SellerOf(listings, s.id, name);
    var k :| 0 <= k < |p.sellers| && p.sellers[k] == s;
    assert Ids(p.sellers)[k] == s.id;
    assert s.id in IdsOf(listings, name);
    var own :| own in listings && name(own) == Ok(s.id);
    assert own.catalog in s.catalogs;
    assert forall l :: l in rest && name(l) == Ok(s.id) ==> l.catalog in s.catalogs;
    if s.catalogs != {catalog} {
      var c :| c in s.catalogs && c != catalog;
      var l :| l in listings && name(l) == Ok(s.id) && l.catalog == c;
      assert l in rest;
    }
  }
}
