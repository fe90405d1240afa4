/** Rung 6 (crates/checks/src/rung6_live.rs): does anything answer at the
    endpoints an agent declared? */
module Live {
  import opened Common
  import opened Refusal
  import Text
  import Resolvable

  // ---- Endpoints ----------------------------------------------------------------------

  datatype Kind = Https | Http | Caip10 | Email | Missing | Other
  {
    predicate IsProbeable() { Https? || Http? }
  }

  predicate PlainPart(p: string)
  {
    p != [] && '/' !in p && ' ' !in p && '@' !in p
  }

  predicate LooksLikeCaip10(s: string)
  {
    var parts := Text.Split(s, ':');
    |parts| == 3 && forall i :: 0 <= i < 3 ==> PlainPart(parts[i])
  }

  predicate LooksLikeEmail(s: string)
  {
    var at := Text.Split(s, '@');
    '/' !in s && ' ' !in s && |at| == 2 && at[0] != [] && '.' in at[1] && at[1][0] != '.'
  }

  function ClassifyEndpoint(raw: Option<string>): Kind
  {
    if raw.None? then Missing else
      var s := Text.Trim(raw.value);
      var lower := Text.ToLower(s);
      if s == [] then Other
      else if "https://" <= lower then Https
      else if "http://" <= lower then Http
      else if "mailto:" <= lower then Email
      else if LooksLikeCaip10(s) then Caip10
      else if LooksLikeEmail(s) then Email
      else Other
  }

  datatype Observation = Observation(httpStatus: Option<nat>, error: Option<string>)

  datatype Endpoint = Endpoint(declared: Option<string>, observed: Option<Observation>)
  {
    predicate Probeable() { ClassifyEndpoint(declared).IsProbeable() }
    predicate Probed() { Probeable() && observed.Some? }
  }

  // ---- One observation -------------------------------------------------------------------

  datatype Outcome = Alive(paymentGated: bool) | NotLive | RefusedUs | OurError

  function OutcomeOf(obs: Observation): Outcome
  {
    match obs.error
    case Some(e) => if CouldNotAsk(e) then RefusedUs else if SsrfBlocked(e) then NotLive else OurError
    case None =>
      match obs.httpStatus
      case Some(code) =>
        if Is2xx(code) then Alive(false)
        else if code == 402 then Alive(true)
        else if DeclinedUs(code) then RefusedUs
        else NotLive
      case None => OurError
  }

  /** The status one observation alone would give. */
  function StatusOf(o: Outcome): Status
  {
    match o case Alive(_) => Pass case NotLive => Fail case RefusedUs => Refused case OurError => Error
  }

  /** The two rungs never disagree about who is at fault, except that a bare
      402 is alive here and a refusal at rung 2. */
  lemma AgreesWithRungTwoIff(obs: Observation)
    ensures StatusOf(OutcomeOf(obs)) == Resolvable.Verdict("https", obs.error, obs.httpStatus)
      <==> !(obs.error.None? && obs.httpStatus == Some(402))
  {
    assert "https"[0] == 'h' && "empty"[0] == 'e' && "unsupported"[0] == 'u' && "data"[0] == 'd';
  }

  // ---- All of them ---------------------------------------------------------------------------

  datatype Counts = Counts(
    declared: nat, probeable: nat, probed: nat, live: nat, paymentGated: nat, answeredNotLive: nat, refused: nat, ourError: nat)

  datatype Result = Result(status: Status, counts: Counts)

  function Is(o: Outcome -> bool): Endpoint -> nat
  {
    (e: Endpoint) => if e.Probed() && o(OutcomeOf(e.observed.value)) then 1 else 0
  }

  const PROBEABLE: Endpoint -> nat := (e: Endpoint) => if e.Probeable() then 1 else 0
  const PROBED: Endpoint -> nat := (e: Endpoint) => if e.Probed() then 1 else 0
  const LIVE: Endpoint -> nat := Is((o: Outcome) => o.Alive?)
  const GATED: Endpoint -> nat := Is((o: Outcome) => o == Alive(true))
  const NOT_LIVE: Endpoint -> nat := Is((o: Outcome) => o.NotLive?)
  const REFUSED: Endpoint -> nat := Is((o: Outcome) => o.RefusedUs?)
  const OUR_ERROR: Endpoint -> nat := Is((o: Outcome) => o.OurError?)

  /** The counts as sums that do not know about order. */
  function CountsOf(es: seq<Endpoint>): Counts
  {
    Counts(|es|, SumOf(es, PROBEABLE), SumOf(es, PROBED), SumOf(es, LIVE), SumOf(es, GATED),
           SumOf(es, NOT_LIVE), SumOf(es, REFUSED), SumOf(es, OUR_ERROR))
  }

  function Aggregate(c: Counts): Status
  {
    if c.probeable == 0 then Unprobeable
    else if c.live > 0 then Pass
    else if c.answeredNotLive > 0 then Fail
    else if c.refused > 0 then Refused
    else Error
  }

  function ResultOf(es: seq<Endpoint>): Option<Result>
  {
    var c := CountsOf(es);
    if c.probeable > 0 && c.probed == 0 then None else Some(Result(Aggregate(c), c))
  }

  method Judge(es: seq<Endpoint>) returns (r: Option<Result>)
    ensures r == ResultOf(es)
  {
    var probeable, probed, live, gated, notLive, refused, ourError := 0, 0, 0, 0, 0, 0, 0;
    for i := 0 to |es|
      invariant Counts(i, probeable, probed, live, gated, notLive, refused, ourError) == CountsOf(es[..i])
    {
      var e := es[i];
      assert es[..i + 1][..i] == es[..i];
      if !e.Probeable() { continue; }
      probeable := probeable + 1;
      if e.observed.None? { continue; }
      probed := probed + 1;
      match OutcomeOf(e.observed.value) {
        case Alive(paid) =>
          live := live + 1;
          if paid { gated := gated + 1; }
        case NotLive => notLive := notLive + 1;
        case RefusedUs => refused := refused + 1;
        case OurError => ourError := ourError + 1;
      }
    }
    assert es[..|es|] == es;
    if probeable > 0 && probed == 0 { return None; }
    var status :=
      if probeable == 0 then Unprobeable
      else if live > 0 then Pass
      else if notLive > 0 then Fail
      else if refused > 0 then Refused
      else Error;
    r := Some(Result(status, Counts(|es|, probeable, probed, live, gated, notLive, refused, ourError)));
  }

  /** Conservation: every probed endpoint is in exactly one column. */
  lemma {:induction false} CountsConserve(es: seq<Endpoint>)
    ensures var c := CountsOf(es);
      && c.live + c.answeredNotLive + c.refused + c.ourError == c.probed
      && c.paymentGated <= c.live && c.probed <= c.probeable <= c.declared
  {
    if es != [] {
      CountsConserve(es[..|es| - 1]);
      var e := es[|es| - 1];
      if e.Probed() { match OutcomeOf(e.observed.value) case Alive(_) => case NotLive => case RefusedUs => case OurError => }
    }
  }

  /** No row exactly when something could have been asked and nothing was. */
  lemma AbsentIff(es: seq<Endpoint>)
    ensures ResultOf(es).None? <==> (exists e :: e in es && e.Probeable()) && forall e :: e in es ==> !e.Probed()
  {
    PositiveIff(es, PROBEABLE);
    PositiveIff(es, PROBED);
  }

  lemma {:induction false} PositiveIff(es: seq<Endpoint>, w: Endpoint -> nat)
    ensures SumOf(es, w) > 0 <==> exists e :: e in es && w(e) > 0
  {
    if es != [] {
      var init, last := es[..|es| - 1], es[|es| - 1];
      PositiveIff(init, w);
      assert es == init + [last];
      if e :| e in es && w(e) > 0 { assert e in init || e == last; }
    }
  }

  /** The order the services were declared in changes nothing. */
  lemma OrderIrrelevant(a: seq<Endpoint>, b: seq<Endpoint>)
    requires multiset(a) == multiset(b)
    ensures ResultOf(a) == ResultOf(b)
  {
    SumIgnoresOrder(a, b, PROBEABLE);
    SumIgnoresOrder(a, b, PROBED);
    SumIgnoresOrder(a, b, LIVE);
    SumIgnoresOrder(a, b, GATED);
    SumIgnoresOrder(a, b, NOT_LIVE);
    SumIgnoresOrder(a, b, REFUSED);
    SumIgnoresOrder(a, b, OUR_ERROR);
    assert |multiset(a)| == |a| && |multiset(b)| == |b|;
  }

  /** error < refused < fail < pass. */
  function Rank(s: Status): nat
  {
    match s case Pass => 4 case Fail => 3 case Refused => 2 case Error => 1 case _ => 0
  }

  /** This endpoint was probed and alone would give status s. */
  predicate Gives(e: Endpoint, s: Status)
  {
    e.Probed() && StatusOf(OutcomeOf(e.observed.value)) == s
  }

  ghost predicate SomeGives(es: seq<Endpoint>, s: Status)
  {
    exists e :: e in es && Gives(e, s)
  }

  lemma ColumnSeen(es: seq<Endpoint>, column: Endpoint -> nat, s: Status)
    requires forall e :: column(e) > 0 <==> Gives(e, s)
    ensures SumOf(es, column) > 0 <==> SomeGives(es, s)
  {
    PositiveIff(es, column);
  }

  lemma ColumnsSeen(es: seq<Endpoint>)
    ensures var c := CountsOf(es);
      && (c.live > 0 <==> SomeGives(es, Pass)) && (c.answeredNotLive > 0 <==> SomeGives(es, Fail))
      && (c.refused > 0 <==> SomeGives(es, Refused)) && (c.ourError > 0 <==> SomeGives(es, Error))
  {
    ColumnSeen(es, LIVE, Pass);
    ColumnSeen(es, NOT_LIVE, Fail);
    ColumnSeen(es, REFUSED, Refused);
    ColumnSeen(es, OUR_ERROR, Error);
  }

  lemma ProbedCounted(es: seq<Endpoint>)
    requires exists e :: e in es && e.Probed()
    ensures CountsOf(es).probed > 0 && CountsOf(es).probeable > 0
  {
    var e :| e in es && e.Probed();
    assert PROBED(e) > 0;
    PositiveIff(es, PROBED);
    CountsConserve(es);
  }

  /** The status is the highest that any single observation gives. */
  lemma StatusIsHighest(es: seq<Endpoint>)
    requires exists e :: e in es && e.Probed()
    ensures ResultOf(es).Some? && SomeGives(es, ResultOf(es).value.status)
    ensures forall e, s :: e in es && Gives(e, s) ==> Rank(s) <= Rank(ResultOf(es).value.status)
  {
    ProbedCounted(es);
    ColumnsSeen(es);
    CountsConserve(es);
    forall e, s | e in es && Gives(e, s) ensures Rank(s) <= Rank(ResultOf(es).value.status) {
      assert SomeGives(es, s);
    }
  }

  /** Keeping what was observed and adding to it never lowers the status. */
  lemma MoreSeenRaises(es: seq<Endpoint>, fs: seq<Endpoint>)
    requires exists e :: e in es && e.Probed()
    requires forall e :: e in es && e.Probed() ==> e in fs
    ensures ResultOf(es).Some? && ResultOf(fs).Some?
    ensures Rank(ResultOf(es).value.status) <= Rank(ResultOf(fs).value.status)
  {
    StatusIsHighest(es);
    StatusIsHighest(fs);
    var e :| e in es && Gives(e, ResultOf(es).value.status);
    assert e in fs;
  }

  /** More observations only ever move the status up: those of further endpoints, */
  lemma MoreOnlyRaises(es: seq<Endpoint>, more: seq<Endpoint>)
    requires exists e :: e in es && e.Probed()
    ensures ResultOf(es).Some? && ResultOf(es + more).Some?
    ensures Rank(ResultOf(es).value.status) <= Rank(ResultOf(es + more).value.status)
  {
    MoreSeenRaises(es, es + more);
  }

  /** and one that arrives for an endpoint already declared. */
  lemma ObservationOnlyRaises(es: seq<Endpoint>, i: nat, obs: Observation)
    requires i < |es| && es[i].observed.None? && exists e :: e in es && e.Probed()
    ensures var later := es[i := es[i].(observed := Some(obs))];
            ResultOf(es).Some? && ResultOf(later).Some? && Rank(ResultOf(es).value.status) <= Rank(ResultOf(later).value.status)
  {
    var later := es[i := es[i].(observed := Some(obs))];
    forall e | e in es && e.Probed() ensures e in later {
      var j :| 0 <= j < |es| && es[j] == e;
      assert later[j] == e;
    }
    MoreSeenRaises(es, later);
  }

  // ---- What counts ------------------------------------------------------------------------

  /** An endpoint is probed for exactly if, spaces and case aside, it begins like a web
      address. */
  lemma ProbeableIff(e: Endpoint)
    ensures e.Probeable() <==> e.declared.Some? && var lower := Text.ToLower(Text.Trim(e.declared.value)); "http://" <= lower || "https://" <= lower
  {
  }

  /** What one observation says, by status code: payment is asked for by an error-free
      402 alone. */
  lemma OutcomeIff(obs: Observation)
    ensures OutcomeOf(obs) == Alive(true) <==> obs == Observation(Some(402), None)
    ensures OutcomeOf(obs) == Alive(false) <==> obs.error == None && obs.httpStatus.Some? && 200 <= obs.httpStatus.value < 300
    ensures OutcomeOf(obs) == RefusedUs <==> if obs.error.Some? then CouldNotAsk(obs.error.value) else
              obs.httpStatus.Some? && obs.httpStatus.value in {401, 407, 429, 503}
    ensures OutcomeOf(obs) == OurError <==> if obs.error.Some? then !CouldNotAsk(obs.error.value) && !SsrfBlocked(obs.error.value) else
              obs.httpStatus == None
  {
  }

  // ---- What else a declared endpoint can be -------------------------------------------------

  predicate PlainName(p: string) { p != [] && forall i :: 0 <= i < |p| ==> p[i] !in {'/', ' ', '@', ':'} }

  /** An account on a chain: three plain names around two colons. */
  ghost predicate Account(s: string)
  {
    exists a, b, c :: s == a + [':'] + (b + [':'] + c) && PlainName(a) && PlainName(b) && PlainName(c)
  }

  /** A mailbox: a name and a domain with a dot in it, around the only @. */
  ghost predicate Mailbox(s: string)
  {
    exists name, domain :: s == name + ['@'] + domain && MailName(name) && Domain(domain)
  }

  predicate MailName(name: string) { name != [] && forall i :: 0 <= i < |name| ==> name[i] !in {'/', ' ', '@'} }

  predicate Domain(d: string)
  {
    (forall i :: 0 <= i < |d| ==> d[i] !in {'/', ' ', '@'}) && d != [] && d[0] != '.' && '.' in d
  }

  lemma SplitStep(s: string, c: char)
    ensures c !in s ==> Text.Split(s, c) == [s]
    ensures c in s ==> var (a, rest) := Text.SplitOnce(s, c).value;
      s == a + [c] + rest && c !in a && Text.Split(s, c) == [a] + Text.Split(rest, c)
  {
  }

  /** A text in one piece. */
  lemma NoMore(s: string, c: char)
    ensures |Text.Split(s, c)| >= 1 && (|Text.Split(s, c)| == 1 ==> c !in s)
    decreases |s|
  {
    if c in s { NoMore(Text.SplitOnce(s, c).value.1, c); }
  }

  lemma AccountParts(a: string, b: string, c: string)
    requires PlainName(a) && PlainName(b) && PlainName(c)
    ensures LooksLikeCaip10(a + [':'] + (b + [':'] + c))
  {
    Text.SplitFirst(a, ':', b + [':'] + c);
    Text.SplitFirst(b, ':', c);
    Text.SplitWhole(c, ':');
    PlainIff(a);
    PlainIff(b);
    PlainIff(c);
  }

  lemma AccountIff(s: string)
    ensures LooksLikeCaip10(s) <==> Account(s)
  {
    if a, b, c :| s == a + [':'] + (b + [':'] + c) && PlainName(a) && PlainName(b) && PlainName(c) { AccountParts(a, b, c); }
    if LooksLikeCaip10(s) { ThreeParts(s); }
  }

  lemma PlainIff(p: string)
    ensures PlainName(p) <==> PlainPart(p) && ':' !in p
  {
    if PlainPart(p) && ':' !in p {
      forall i | 0 <= i < |p| ensures p[i] !in {'/', ' ', '@', ':'} { assert p[i] in p; }
    }
  }

  lemma ThreeParts(s: string)
    requires LooksLikeCaip10(s)
    ensures Account(s)
  {
    SplitStep(s, ':');
    var (a, rest) := Text.SplitOnce(s, ':').value;
    SplitStep(rest, ':');
    var (b, c) := Text.SplitOnce(rest, ':').value;
    SplitStep(c, ':');
    NoMore(c, ':');
    assert Text.Split(s, ':') == [a, b, c];
    var parts := Text.Split(s, ':');
    assert parts[0] == a && parts[1] == b && parts[2] == c;
    PlainIff(a);
    PlainIff(b);
    PlainIff(c);
  }

  lemma MailboxIff(s: string)
    ensures LooksLikeEmail(s) <==> Mailbox(s)
  {
    if name, domain :| s == name + ['@'] + domain && MailName(name) && Domain(domain) {
      Text.SplitFirst(name, '@', domain);
      Text.SplitWhole(domain, '@');
    }
    if LooksLikeEmail(s) {
      SplitStep(s, '@');
      var (name, domain) := Text.SplitOnce(s, '@').value;
      SplitStep(domain, '@');
      assert Text.Split(s, '@') == [name, domain];
      NoMore(domain, '@');
      assert MailName(name) && Domain(domain);
    }
  }

  /** The kind published for a declared endpoint, read off its trimmed text. */
  lemma KindIff(raw: string)
    ensures var s, lower := Text.Trim(raw), Text.ToLower(Text.Trim(raw));
      ClassifyEndpoint(Some(raw)) ==
        if "https://" <= lower then Https else if "http://" <= lower then Http else if "mailto:" <= lower then Email
        else if Account(s) then Caip10 else if Mailbox(s) then Email else Other
  {
    AccountIff(Text.Trim(raw));
    MailboxIff(Text.Trim(raw));
    if Text.Trim(raw) == [] { assert |Text.ToLower(Text.Trim(raw))| == 0; }
  }
}
