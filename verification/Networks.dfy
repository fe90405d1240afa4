/** One name per network (crates/sellers/src/network.rs): the canonical names
    that scope, pricing and address encodings rest on. */
module Networks {
  import opened Common
  import opened Text

  const EIP155 := "eip155"
  const SOLANA_NAMESPACE := "solana"
  const BASE := EIP155 + ":" + "8453"
  const BASE_SEPOLIA := EIP155 + ":" + "84532"
  const SOLANA := SOLANA_NAMESPACE + ":" + "5eykt4UsFv8P8NJdTREpY1vzqKqZKvdp"

  /** The networks that catalogs also call by a friendly name. */
  datatype Known = Base | BaseSepolia | Solana
  {
    function Id(): string
    {
      match this
      case Base => BASE
      case BaseSepolia => BASE_SEPOLIA
      case Solana => SOLANA
    }
  }

  /** How a network writes its payees' addresses. */
  datatype Encoding = Evm | Base58 | Opaque

  function Friendly(lowered: string): Option<Known>
  {
    match lowered
    case "base" => Some(Base)
    case "base-mainnet" => Some(Base)
    case "base-sepolia" => Some(BaseSepolia)
    case "basesepolia" => Some(BaseSepolia)
    case "solana" => Some(Solana)
    case "solana-mainnet" => Some(Solana)
    case _ => None
  }

  function Canonical(raw: string): string
  {
    var trimmed := Trim(raw);
    match Friendly(ToLower(trimmed))
    case Some(known) => known.Id()
    case None =>
      match SplitOnce(trimmed, ':')
      case Some((namespace, reference)) => ToLower(namespace) + ":" + reference
      case None => ToLower(trimmed)
  }

  predicate Same(a: string, b: string) { Canonical(a) == Canonical(b) }

  function EncodingOfNetwork(raw: string): Encoding
  {
    match SplitOnce(Canonical(raw), ':')
    case Some((namespace, _)) =>
      if namespace == EIP155 then Evm else if namespace == SOLANA_NAMESPACE then Base58 else Opaque
    case None => Opaque
  }

  // ---- What a name says --------------------------------------------------------------

  /** A name taken apart: a friendly name of a known chain, a namespace with a
      reference, or a bare word. */
  datatype Reading = Chain(known: Known) | Caip(namespace: string, reference: string) | Word(word: string)

  /** The reading the catalogs intend: case is only kept in the reference, and a
      friendly name stands for the id of its chain. */
  function Read(raw: string): Reading
  {
    var trimmed := Trim(raw);
    match Friendly(ToLower(trimmed))
    case Some(known) => Chain(known)
    case None =>
      match SplitOnce(trimmed, ':')
      case Some((namespace, reference)) => Caip(ToLower(namespace), reference)
      case None => Word(ToLower(trimmed))
  }

  /** Friendly names spelled out as the chain ids they stand for. */
  function Resolved(r: Reading): Reading
  {
    match r
    case Chain(Base) => Caip(EIP155, "8453")
    case Chain(BaseSepolia) => Caip(EIP155, "84532")
    case Chain(Solana) => Caip(SOLANA_NAMESPACE, "5eykt4UsFv8P8NJdTREpY1vzqKqZKvdp")
    case _ => r
  }

  function Spelled(r: Reading): string
    requires !r.Chain?
  {
    match r case Caip(n, ref) => n + ":" + ref case Word(w) => w
  }

  lemma FriendlyHasNoColon(lowered: string)
    requires ':' in lowered
    ensures Friendly(lowered) == None
  {
  }

  lemma KnownIds(known: Known)
    ensures known.Id() == Spelled(Resolved(Chain(known)))
  {
  }

  lemma CanonicalSpells(raw: string)
    ensures Canonical(raw) == Spelled(Resolved(Read(raw)))
  {
    if Read(raw).Chain? { KnownIds(Read(raw).known); }
  }

  ghost predicate WellRead(r: Reading)
  {
    match r
    case Chain(_) => false
    case Caip(n, _) => ':' !in n && n == ToLower(n)
    case Word(w) => ':' !in w && w == ToLower(w)
  }

  lemma LowerKeepsColon(s: string)
    ensures ':' in s <==> ':' in ToLower(s)
  {
    if ':' in s { var i :| 0 <= i < |s| && s[i] == ':'; assert ToLower(s)[i] == ':'; }
    if ':' in ToLower(s) { var i :| 0 <= i < |s| && ToLower(s)[i] == ':'; assert LowerChar(s[i]) == ':'; }
  }

  lemma NamespacesWellRead()
    ensures ':' !in EIP155 && EIP155 == ToLower(EIP155)
    ensures ':' !in SOLANA_NAMESPACE && SOLANA_NAMESPACE == ToLower(SOLANA_NAMESPACE)
  {
    LowerFixed(EIP155);
    LowerFixed(SOLANA_NAMESPACE);
  }

  lemma LowerFixed(s: string)
    requires forall i :: 0 <= i < |s| ==> !('A' <= s[i] <= 'Z')
    ensures ToLower(s) == s
  {
  }

  lemma ResolvedIsWellRead(raw: string)
    ensures WellRead(Resolved(Read(raw)))
  {
    var trimmed := Trim(raw);
    if Read(raw).Chain? {
      NamespacesWellRead();
    } else if Read(raw).Caip? {
      LowerKeepsColon(SplitOnce(trimmed, ':').value.0);
    } else if Read(raw).Word? {
      LowerKeepsColon(trimmed);
    }
  }

  lemma SpelledUnique(a: Reading, b: Reading)
    requires WellRead(a) && WellRead(b)
    ensures Spelled(a) == Spelled(b) <==> a == b
  {
    if a.Caip? { SplitOnceJoined(a.namespace, ':', a.reference); assert ':' in Spelled(a); }
    if b.Caip? { SplitOnceJoined(b.namespace, ':', b.reference); assert ':' in Spelled(b); }
  }

  /** Two names are the same network exactly when they read alike: equal ids up
      to the case of the namespace only, equal words up to case, and a friendly
      name like the id it stands for. */
  lemma SameIff(a: string, b: string)
    ensures Same(a, b) <==> Resolved(Read(a)) == Resolved(Read(b))
  {
    CanonicalSpells(a);
    CanonicalSpells(b);
    ResolvedIsWellRead(a);
    ResolvedIsWellRead(b);
    SpelledUnique(Resolved(Read(a)), Resolved(Read(b)));
  }

  // ---- Canonical names are fixed -----------------------------------------------------

  lemma LowerTight(s: string)
    requires Tight(s)
    ensures Tight(ToLower(s))
  {
    if s != [] {
      assert ToLower(s)[0] == LowerChar(s[0]) && ToLower(s)[|s| - 1] == LowerChar(s[|s| - 1]);
    }
  }

  lemma CaipTight(trimmed: string, namespace: string, reference: string)
    requires Tight(trimmed) && SplitOnce(trimmed, ':') == Some((namespace, reference))
    ensures Tight(ToLower(namespace) + ":" + reference)
  {
    var spelled := ToLower(namespace) + ":" + reference;
    assert trimmed == namespace + ":" + reference;
    assert spelled[0] == LowerChar(trimmed[0]);
    assert reference != [] ==> spelled[|spelled| - 1] == trimmed[|trimmed| - 1];
  }

  lemma KnownIdsStay(known: Known)
    ensures Tight(known.Id()) && ':' in known.Id()
  {
    match known
    case Base => assert BASE[0] == 'e' && BASE[|BASE| - 1] == '3' && BASE[6] == ':';
    case BaseSepolia => assert BASE_SEPOLIA[0] == 'e' && BASE_SEPOLIA[|BASE_SEPOLIA| - 1] == '2' && BASE_SEPOLIA[6] == ':';
    case Solana => assert SOLANA[0] == 's' && SOLANA[|SOLANA| - 1] == 'p' && SOLANA[6] == ':';
  }

  lemma CanonicalTight(raw: string)
    ensures Tight(Canonical(raw))
  {
    var trimmed := Trim(raw);
    TrimIsTight(raw);
    match Read(raw)
    case Chain(known) => KnownIdsStay(known);
    case Caip(_, reference) => CaipTight(trimmed, SplitOnce(trimmed, ':').value.0, reference);
    case Word(_) => LowerTight(trimmed);
  }

  /** A well-read name that is already spelled out reads as itself. */
  lemma ReadSpelled(r: Reading)
    requires WellRead(r) && Tight(Spelled(r))
    requires r.Word? ==> Friendly(r.word) == None
    ensures Read(Spelled(r)) == r
  {
    TrimTight(Spelled(r));
    match r
    case Caip(n, ref) =>
      SplitOnceJoined(n, ':', ref);
      assert Spelled(r)[|n|] == ':';
      LowerKeepsColon(Spelled(r));
      FriendlyHasNoColon(ToLower(Spelled(r)));
    case Word(w) =>
      assert SplitOnce(w, ':') == None;
  }

  /** Canonical names are their own canonical names. */
  lemma CanonicalIdempotent(raw: string)
    ensures Canonical(Canonical(raw)) == Canonical(raw)
  {
    CanonicalSpells(raw);
    ResolvedIsWellRead(raw);
    CanonicalTight(raw);
    if Read(raw).Word? { ToLowerIdempotent(Trim(raw)); }
    ReadSpelled(Resolved(Read(raw)));
    CanonicalSpells(Canonical(raw));
  }

  /** The encoding follows the namespace, in any case, however the network was
      named; a network without one gets no encoding guessed. */
  lemma EncodingIff(raw: string)
    ensures EncodingOfNetwork(raw) ==
            match Resolved(Read(raw))
            case Caip(n, _) => (if n == EIP155 then Evm else if n == SOLANA_NAMESPACE then Base58 else Opaque)
            case _ => Opaque
  {
    CanonicalSpells(raw);
    ResolvedIsWellRead(raw);
    match Resolved(Read(raw))
    case Caip(n, ref) => SplitOnceJoined(n, ':', ref);
    case Word(w) => assert SplitOnce(w, ':') == None;
  }

  // ---- The names themselves ------------------------------------------------------------

  predicate CallsBase(raw: string) { ToLower(Trim(raw)) == "base" || ToLower(Trim(raw)) == "base-mainnet" }

  predicate CallsSepolia(raw: string) { ToLower(Trim(raw)) == "base-sepolia" || ToLower(Trim(raw)) == "basesepolia" }

  predicate CallsSolana(raw: string) { ToLower(Trim(raw)) == "solana" || ToLower(Trim(raw)) == "solana-mainnet" }

  lemma CanonicalOf(raw: string, known: Known)
    requires Friendly(ToLower(Trim(raw))) == Some(known)
    ensures Canonical(raw) == known.Id()
  {
  }

  /** Which chain each friendly name stands for. */
  lemma FriendlyNames(raw: string)
    ensures CallsBase(raw) ==> Canonical(raw) == "eip155" + ":" + "8453"
    ensures CallsSepolia(raw) ==> Canonical(raw) == "eip155" + ":" + "84532"
    ensures CallsSolana(raw) ==> Canonical(raw) == "solana" + ":" + "5eykt4UsFv8P8NJdTREpY1vzqKqZKvdp"
  {
    if CallsBase(raw) { CanonicalOf(raw, Base); }
    if CallsSepolia(raw) { CanonicalOf(raw, BaseSepolia); }
    if CallsSolana(raw) { CanonicalOf(raw, Solana); }
  }

  /** Every other name stands for itself. */
  lemma OtherNames(raw: string)
    requires !CallsBase(raw) && !CallsSepolia(raw) && !CallsSolana(raw)
    ensures ':' !in Trim(raw) ==> Canonical(raw) == ToLower(Trim(raw))
    ensures forall namespace, reference :: Trim(raw) == namespace + ":" + reference && ':' !in namespace ==>
              Canonical(raw) == ToLower(namespace) + ":" + reference
  {
    assert Friendly(ToLower(Trim(raw))) == None;
    forall namespace, reference | Trim(raw) == namespace + ":" + reference && ':' !in namespace
      ensures Canonical(raw) == ToLower(namespace) + ":" + reference
    {
      SplitOnceJoined(namespace, ':', reference);
    }
  }

  /** How payees are written on the networks that have friendly names. */
  lemma FriendlyEncodings(raw: string)
    ensures CallsBase(raw) || CallsSepolia(raw) ==> EncodingOfNetwork(raw) == Evm
    ensures CallsSolana(raw) ==> EncodingOfNetwork(raw) == Base58
  {
    EncodingIff(raw);
  }

  /** Whatever is called the main network is never taken for the test network. */
  lemma MainIsNotTest(a: string, b: string)
    requires CallsBase(a) && CallsSepolia(b)
    ensures !Same(a, b)
  {
    FriendlyNames(a);
    FriendlyNames(b);
    assert |"eip155" + ":" + "8453"| == 11 && |"eip155" + ":" + "84532"| == 12;
  }
}
