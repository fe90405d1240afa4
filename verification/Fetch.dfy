/** One guarded fetch (crates/probe/src/fetch.rs): validated redirects, the
    robots gate, IPFS gateways in turn, and what is recorded of it all. */
module Fetch {
  import opened Common
  import opened Uris
  import Decimal
  import opened Refusal
  import Robots

  const MAX_REDIRECTS: nat := 3
  const MAX_ROBOTS_REDIRECTS: nat := 5
  const MAX_BODY_BYTES: nat := 0x10_0000

  datatype Response = Response(status: nat, location: Option<string>, body: Bytes, truncated: bool, retryAfter: Option<nat>)
  {
    predicate IsRedirect() { 300 <= status < 400 }
  }

  datatype Sent = Got(response: Response) | TimedOut | ConnectionFailed(message: string)

  /** The outside world, free to answer differently on every numbered step. */
  datatype Net = Net(
    rejects: (nat, Url) -> Option<string>, robots: (nat, Url) -> Robots.Decision,
    send: (nat, Url) -> Sent, join: (Url, string) -> Option<Url>)

  datatype Attempt = Attempt(gateway: string, httpStatus: Option<nat>, error: Option<string>)

  datatype Outcome = Outcome(
    scheme: string, requestUrl: Option<Url>, finalUrl: Option<Url>, httpStatus: Option<nat>, retryAfter: Option<nat>,
    body: Option<Bytes>, truncated: bool, error: Option<string>, viaGateway: Option<string>,
    inlineDecode: Option<Variant>, gatewayAttempts: seq<Attempt>)

  function Base(scheme: string): Outcome
  {
    Outcome(scheme, None, None, None, None, None, false, None, None, None, [])
  }

  /** The bucket rung 2 judges by. */
  function SchemeBucket(out: Outcome): string
  {
    if out.scheme == "" then "empty"
    else if out.requestUrl.Some? then out.scheme
    else if out.scheme == "data" && (out.body.Some? || out.error.Some?) then out.scheme
    else "unsupported"
  }

  // ---- Bodies ----------------------------------------------------------------------

  function Concatenated(chunks: seq<Bytes>): Bytes
  {
    if chunks == [] then [] else Concatenated(chunks[..|chunks| - 1]) + chunks[|chunks| - 1]
  }

  /** Reading a streamed body chunk by chunk keeps exactly its first
      MAX_BODY_BYTES, and says so when there was more. */
  method ReadBodyCapped(chunks: seq<Bytes>) returns (kept: Bytes, truncated: bool)
    ensures truncated <==> |Concatenated(chunks)| > MAX_BODY_BYTES
    ensures kept == if truncated then Concatenated(chunks)[..MAX_BODY_BYTES] else Concatenated(chunks)
  {
    kept, truncated := [], false;
    for i := 0 to |chunks|
      invariant kept == Concatenated(chunks[..i]) && |kept| <= MAX_BODY_BYTES && !truncated
    {
      assert chunks[..i + 1][..i] == chunks[..i];
      var remaining := MAX_BODY_BYTES - |kept|;
      if |chunks[i]| <= remaining {
        kept := kept + chunks[i];
      } else {
        PrefixConcatenated(chunks, i + 1);
        kept := kept + chunks[i][..remaining];
        truncated := true;
        return;
      }
    }
    assert chunks[..|chunks|] == chunks;
  }

  lemma {:induction false} PrefixConcatenated(chunks: seq<Bytes>, n: nat)
    requires n <= |chunks|
    ensures Concatenated(chunks[..n]) <= Concatenated(chunks)
    decreases |chunks| - n
  {
    if n < |chunks| {
      PrefixConcatenated(chunks, n + 1);
      assert chunks[..n + 1][..n] == chunks[..n];
    } else {
      assert chunks[..n] == chunks;
    }
  }

  function CapBytes(bytes: Bytes): (Bytes, bool)
  {
    if |bytes| > MAX_BODY_BYTES then (bytes[..MAX_BODY_BYTES], true) else (bytes, false)
  }

  // ---- One HTTP fetch -------------------------------------------------------------------

  /** How one guarded fetch ended. */
  datatype End =
    | Blocked(reason: string)
    | RobotsDisallowed
    | RobotsUnavailable(reason: string)
    | NoAnswer
    | NoConnection(message: string)
    | BadLocation
    | StillRedirecting(status: nat)
    | Answered(status: nat)

  function ErrorText(end: End): Option<string>
  {
    match end
    case Blocked(reason) => Some("ssrf_blocked: " + reason)
    case RobotsDisallowed => Some("robots_disallowed")
    case RobotsUnavailable(reason) => Some("robots_unavailable: " + reason)
    case NoAnswer => Some("timeout")
    case NoConnection(message) => Some("connection_failed: " + message)
    case BadLocation => Some("bad_redirect_location: ")
    case StillRedirecting(_) => Some("too_many_redirects")
    case Answered(_) => None
  }

  /** The URLs asked for, within the limit: each validated first, each after
      the first being where the one before it redirected to. */
  ghost predicate Chain(net: Net, first: nat, initial: Url, hops: seq<Url>, limit: nat)
  {
    && |hops| <= limit + 1
    && (hops != [] ==> hops[0] == initial)
    && (forall i :: 0 <= i < |hops| ==> net.rejects(first + i, hops[i]).None?)
    && (forall i :: 0 <= i < |hops| - 1 ==> RedirectsTo(net, first + i, hops[i], hops[i + 1]))
  }

  /** A status that sends us elsewhere. */
  predicate IsMove(status: nat) { 300 <= status <= 399 }

  /** As Chain, for a document: nothing is asked for without permission. */
  ghost predicate HopChain(net: Net, first: nat, initial: Url, hops: seq<Url>)
  {
    Chain(net, first, initial, hops, 3) && (hops != [] ==> net.robots(first, initial).Allowed?)
  }

  ghost predicate RedirectsTo(net: Net, n: nat, from: Url, next: Url)
  {
    var sent := net.send(n, from);
    && sent.Got? && IsMove(sent.response.status) && sent.response.location.Some?
    && net.join(from, sent.response.location.value) == Some(next)
  }

  /** The URL due after these hops. */
  ghost predicate NextIs(net: Net, first: nat, initial: Url, hops: seq<Url>, url: Url)
  {
    if hops == [] then url == initial else RedirectsTo(net, first + |hops| - 1, hops[|hops| - 1], url)
  }

  /** How the chain ended, in terms of what the world said at its last step. */
  ghost predicate Ended(net: Net, first: nat, initial: Url, hops: seq<Url>, end: End)
  {
    match end
    case Blocked(reason) =>
      |hops| <= 3 && exists url :: net.rejects(first + |hops|, url) == Some(reason) && NextIs(net, first, initial, hops, url)
    case RobotsDisallowed => hops == [] && net.rejects(first, initial).None? && net.robots(first, initial).Disallowed?
    case RobotsUnavailable(reason) =>
      hops == [] && net.rejects(first, initial).None? && net.robots(first, initial) == Robots.Unavailable(reason)
    case _ => hops != [] && LastSend(net, first + |hops| - 1, hops[|hops| - 1], |hops|, end)
  }

  ghost predicate LastSend(net: Net, n: nat, url: Url, count: nat, end: End)
  {
    var sent := net.send(n, url);
    match end
    case NoAnswer => sent.TimedOut?
    case NoConnection(message) => sent == ConnectionFailed(message)
    case BadLocation => sent.Got? && Unusable(net, url, sent.response, count, 3)
    case StillRedirecting(status) => sent.Got? && sent.response.status == status && IsMove(sent.response.status)
      && (count == 4 || sent.response.location.None?)
    case Answered(status) => sent.Got? && sent.response.status == status && !IsMove(sent.response.status)
    case _ => false
  }

  /** A redirect that is still within the limit, to a location that makes no URL. */
  ghost predicate Unusable(net: Net, url: Url, response: Response, count: nat, limit: nat)
  {
    IsMove(response.status) && count <= limit && response.location.Some? && net.join(url, response.location.value).None?
  }

  /** What is recorded of a fetch that ended this way. */
  ghost predicate Records(out: Outcome, net: Net, first: nat, initial: Url, gateway: Option<string>, hops: seq<Url>, end: End)
  {
    && out.scheme == (if gateway.Some? then "ipfs" else initial.scheme)
    && out.requestUrl == Some(initial) && out.viaGateway == gateway && out.inlineDecode == None && out.gatewayAttempts == []
    && out.error == ErrorText(end)
    && (if end.StillRedirecting? || end.Answered? then
          hops != [] && net.send(first + |hops| - 1, hops[|hops| - 1]).Got?
          && var r := net.send(first + |hops| - 1, hops[|hops| - 1]).response;
             out.finalUrl == Some(hops[|hops| - 1]) && out.httpStatus == Some(r.status) && out.body == Some(r.body)
             && out.retryAfter == r.retryAfter && out.truncated == r.truncated
        else
          out.finalUrl == None && out.httpStatus == None && out.body == None && out.retryAfter == None && !out.truncated)
  }

  /** Two chains agree as far as both go: what was asked is up to the world. */
  lemma {:induction false} ChainsAgree(net: Net, first: nat, initial: Url, a: seq<Url>, b: seq<Url>, limit: nat, i: nat)
    requires Chain(net, first, initial, a, limit) && Chain(net, first, initial, b, limit) && i < |a| && i < |b|
    ensures a[i] == b[i]
  {
    if i > 0 {
      ChainsAgree(net, first, initial, a, b, limit, i - 1);
      assert RedirectsTo(net, first + (i - 1), a[i - 1], a[i - 1 + 1]) && RedirectsTo(net, first + (i - 1), b[i - 1], b[i - 1 + 1]);
    }
  }

  /** Where one chain goes on, the URL it asks for next is due after the other. */
  lemma LongerGoesOn(net: Net, first: nat, initial: Url, a: seq<Url>, b: seq<Url>, limit: nat)
    requires Chain(net, first, initial, a, limit) && Chain(net, first, initial, b, limit) && |a| < |b|
    ensures NextIs(net, first, initial, a, b[|a|])
  {
    var n := |a|;
    if n > 0 {
      ChainsAgree(net, first, initial, a, b, limit, n - 1);
      assert RedirectsTo(net, first + (n - 1), b[n - 1], b[n - 1 + 1]);
    }
  }

  /** No chain goes on past an end. */
  lemma NothingAfterEnd(net: Net, first: nat, initial: Url, a: seq<Url>, end: End, b: seq<Url>)
    requires HopChain(net, first, initial, a) && Ended(net, first, initial, a, end) && HopChain(net, first, initial, b)
    ensures |b| <= |a|
  {
    if |a| < |b| { LongerGoesOn(net, first, initial, a, b, MAX_REDIRECTS); }
  }

  /** For each behaviour of the world there is one chain, one end and one record:
      the contract of a fetch leaves nothing open. */
  lemma FetchDetermined(net: Net, first: nat, initial: Url, gateway: Option<string>,
                        out: Outcome, a: seq<Url>, end: End, out': Outcome, b: seq<Url>, end': End)
    requires HopChain(net, first, initial, a) && Ended(net, first, initial, a, end) && Records(out, net, first, initial, gateway, a, end)
    requires HopChain(net, first, initial, b) && Ended(net, first, initial, b, end') && Records(out', net, first, initial, gateway, b, end')
    ensures a == b && end == end' && out == out'
  {
    NothingAfterEnd(net, first, initial, a, end, b);
    NothingAfterEnd(net, first, initial, b, end', a);
    forall i | 0 <= i < |a| ensures a[i] == b[i] { ChainsAgree(net, first, initial, a, b, MAX_REDIRECTS, i); }
    assert a == b;
    EndUnique(net, first, initial, a, end, end');
  }

  lemma EndUnique(net: Net, first: nat, initial: Url, hops: seq<Url>, end: End, end': End)
    requires HopChain(net, first, initial, hops) && Ended(net, first, initial, hops, end) && Ended(net, first, initial, hops, end')
    ensures end == end'
  {
  }

  /** The last answer was a redirect that names no location. */
  ghost predicate NoLocation(net: Net, first: nat, hops: seq<Url>)
  {
    hops != [] && var last := net.send(first + |hops| - 1, hops[|hops| - 1]);
    last.Got? && IsMove(last.response.status) && last.response.location.None?
  }

  /** A fetch with hops to spare is recorded as having had too many redirects
      exactly when its last answer was a redirect without a Location: the record
      keeps that answer, but as an error. */
  lemma TooManyEarlyIff(net: Net, first: nat, initial: Url, gateway: Option<string>, out: Outcome, hops: seq<Url>, end: End)
    requires HopChain(net, first, initial, hops) && Ended(net, first, initial, hops, end) && Records(out, net, first, initial, gateway, hops, end)
    requires |hops| <= 3
    ensures out.error == Some("too_many_redirects") <==> NoLocation(net, first, hops)
    ensures NoLocation(net, first, hops) ==> out.httpStatus == Some(net.send(first + |hops| - 1, hops[|hops| - 1]).response.status)
  {
    ErrorTextIs(end);
  }

  lemma ErrorTextIs(end: End)
    ensures ErrorText(end) == Some("too_many_redirects") <==> end.StillRedirecting?
  {
    if ErrorText(end).Some? {
      var e := ErrorText(end).value;
      match end
      case Blocked(_) => assert e[0] == 's';
      case RobotsDisallowed => assert e[0] == 'r';
      case RobotsUnavailable(_) => assert e[0] == 'r';
      case NoAnswer => assert e[1] == 'i';
      case NoConnection(_) => assert e[0] == 'c';
      case BadLocation => assert e[0] == 'b';
      case _ => assert e[1] == 'o';
    }
  }

  lemma OneHopMore(net: Net, first: nat, initial: Url, hops: seq<Url>, url: Url, limit: nat)
    requires Chain(net, first, initial, hops, limit) && |hops| <= limit && NextIs(net, first, initial, hops, url)
    requires net.rejects(first + |hops|, url).None?
    ensures Chain(net, first, initial, hops + [url], limit)
  {
  }

  function Started(initial: Url, gateway: Option<string>): Outcome
  {
    Base(if gateway.Some? then "ipfs" else initial.scheme).(requestUrl := Some(initial), viaGateway := gateway)
  }

  predicate Complete(out: Outcome, initial: Url)
  {
    out.requestUrl == Some(initial) && (out.error.None? ==> out.httpStatus.Some?) && (out.httpStatus.Some? <==> out.body.Some?)
  }

  lemma ErrorRecorded(net: Net, first: nat, initial: Url, gateway: Option<string>, hops: seq<Url>, end: End)
    requires !end.Answered? && !end.StillRedirecting?
    ensures Records(Started(initial, gateway).(error := ErrorText(end)), net, first, initial, gateway, hops, end)
    ensures Complete(Started(initial, gateway).(error := ErrorText(end)), initial)
  {
  }

  lemma AnswerRecorded(net: Net, first: nat, initial: Url, gateway: Option<string>, hops: seq<Url>, url: Url, r: Response, end: End)
    requires hops != [] && hops[|hops| - 1] == url && net.send(first + |hops| - 1, url) == Got(r)
    requires end == if r.IsRedirect() then StillRedirecting(r.status) else Answered(r.status)
    requires r.IsRedirect() ==> |hops| == MAX_REDIRECTS + 1 || r.location.None?
    ensures Ended(net, first, initial, hops, end)
    ensures Records(Started(initial, gateway).(finalUrl := Some(url), httpStatus := Some(r.status), retryAfter := r.retryAfter,
                      truncated := r.truncated, body := Some(r.body), error := ErrorText(end)), net, first, initial, gateway, hops, end)
  {
  }

  /** Validate, pass the robots gate, send, follow. Steps of the outside world
      are numbered from `first`. */
  method FetchHttp(net: Net, first: nat, initial: Url, gateway: Option<string>)
    returns (out: Outcome, ghost hops: seq<Url>, ghost end: End)
    ensures HopChain(net, first, initial, hops) && Ended(net, first, initial, hops, end)
    ensures Records(out, net, first, initial, gateway, hops, end)
    // Every record has a status and a body, or an error, and never a body alone.
    ensures Complete(out, initial)
  {
    out := Started(initial, gateway);
    var current, robotsChecked, hop := initial, false, 0;
    hops := [];
    while hop <= MAX_REDIRECTS
      invariant hop <= MAX_REDIRECTS && |hops| == hop && HopChain(net, first, initial, hops)
      invariant NextIs(net, first, initial, hops, current)
      invariant robotsChecked <==> hop > 0
      invariant out == Started(initial, gateway)
    {
      var rejection := net.rejects(first + hop, current);
      if rejection.Some? {
        end := Blocked(rejection.value);
        out := out.(error := Some("ssrf_blocked: " + rejection.value));
        ErrorRecorded(net, first, initial, gateway, hops, end);
        return;
      }
      if !robotsChecked {
        robotsChecked := true;
        match net.robots(first, current) {
          case Allowed =>
          case Disallowed =>
            end := RobotsDisallowed;
            out := out.(error := Some("robots_disallowed"));
            ErrorRecorded(net, first, initial, gateway, hops, end);
            return;
          case Unavailable(reason) =>
            end := RobotsUnavailable(reason);
            out := out.(error := Some("robots_unavailable: " + reason));
            ErrorRecorded(net, first, initial, gateway, hops, end);
            return;
        }
      }
      OneHopMore(net, first, initial, hops, current, MAX_REDIRECTS);
      hops := hops + [current];
      var sent := net.send(first + hop, current);
      match sent {
        case TimedOut =>
          end := NoAnswer;
          out := out.(error := Some("timeout"));
          ErrorRecorded(net, first, initial, gateway, hops, end);
          return;
        case ConnectionFailed(message) =>
          end := NoConnection(message);
          out := out.(error := Some("connection_failed: " + message));
          ErrorRecorded(net, first, initial, gateway, hops, end);
          return;
        case Got(resp) =>
          if resp.IsRedirect() && hop < MAX_REDIRECTS && resp.location.Some? {
            var next := net.join(current, resp.location.value);
            if next.None? {
              end := BadLocation;
              out := out.(error := Some("bad_redirect_location: "));
              ErrorRecorded(net, first, initial, gateway, hops, end);
              return;
            }
            current := next.value;
            hop := hop + 1;
            continue;
          }
          out := out.(finalUrl := Some(current), httpStatus := Some(resp.status), retryAfter := resp.retryAfter,
                      truncated := resp.truncated, body := Some(resp.body));
          end := Answered(resp.status);
          if resp.IsRedirect() {
            end := StillRedirecting(resp.status);
            out := out.(error := Some("too_many_redirects"));
          }
          AnswerRecorded(net, first, initial, gateway, hops, current, resp, end);
          return;
      }
    }
    // The source's unreachable!: the last hop always returns.
    assert false;
  }

  // ---- robots.txt itself ----------------------------------------------------------------------

  /** Where a host keeps its robots.txt. */
  function WellKnown(origin: Url): Url { Url(origin.scheme, origin.host, "/robots.txt", None) }

  function RobotsUrl(origin: Url): Url { origin.(path := "/robots.txt", query := None) }

  /** The last answer was a client error: there are no rules. */
  ghost predicate NoRulesThere(last: Sent) { last.Got? && 400 <= last.response.status < 500 }

  /** The last answer was a readable robots.txt. */
  ghost predicate RulesThere(last: Sent, decode: Bytes -> Option<string>)
  {
    last.Got? && Is2xx(last.response.status) && decode(last.response.body).Some?
  }

  /** The next URL is refused, so robots.txt is not asked for there. */
  ghost predicate BlockedNext(net: Net, first: nat, initial: Url, hops: seq<Url>, limit: nat, reason: string)
  {
    |hops| <= limit &&
    exists url, why :: net.rejects(first + |hops|, url) == Some(why) && NextIs(net, first, initial, hops, url) && reason == "ssrf_blocked: " + why
  }

  /** Why an answer settles nothing. */
  ghost predicate UnsettledBecause(net: Net, n: nat, url: Url, count: nat, decode: Bytes -> Option<string>, reason: string)
  {
    match net.send(n, url)
    case TimedOut => reason == "timeout fetching robots.txt"
    case ConnectionFailed(m) => reason == "connection failed fetching robots.txt: " + m
    case Got(r) =>
      if Unusable(net, url, r, count, 5) then reason == "robots.txt redirected to an unusable location"
      else if IsMove(r.status) then (count == 6 || r.location.None?) && reason == "robots.txt redirected more than 5 times"
      else if Is2xx(r.status) then decode(r.body).None? && reason == "robots.txt was not valid UTF-8"
      else !(400 <= r.status < 500) && reason == "robots.txt returned HTTP " + Decimal.Print(r.status)
  }

  /** What these requests establish: the last answer settles the rules, or
      nothing does and the reason is kept. */
  ghost predicate Establishes(net: Net, first: nat, initial: Url, hops: seq<Url>, token: string, decode: Bytes -> Option<string>, rules: Robots.Rules)
  {
    || (rules.RulesUnavailable? && BlockedNext(net, first, initial, hops, 5, rules.reason))
    || (hops != [] && Concludes(net, first + |hops| - 1, hops[|hops| - 1], |hops|, token, decode, rules))
  }

  ghost predicate Concludes(net: Net, n: nat, url: Url, count: nat, token: string, decode: Bytes -> Option<string>, rules: Robots.Rules)
  {
    match rules
    case RulesUnavailable(reason) => UnsettledBecause(net, n, url, count, decode, reason)
    case _ => SettledBy(net.send(n, url), token, decode, rules)
  }

  /** A client error leaves everything open; a readable robots.txt restricts to
      its own rules. */
  ghost predicate SettledBy(last: Sent, token: string, decode: Bytes -> Option<string>, rules: Robots.Rules)
  {
    match rules
    case Open => NoRulesThere(last)
    case Restricted(prefixes) => RulesThere(last, decode) && prefixes == RulesIn(decode(last.response.body).value, token)
    case RulesUnavailable(_) => false
  }

  function RulesIn(text: string, token: string): seq<string>
  {
    Robots.Collected(Robots.Classified(Robots.Lines(text)), token, false, false)
  }

  /** Permission comes only from a validated answer, at most the sixth: a 4xx
      leaves everything open, a readable 2xx restricts to its own rules, and
      anything else leaves permission unestablished, with the reason. */
  lemma PermissionIff(net: Net, first: nat, initial: Url, hops: seq<Url>, token: string, decode: Bytes -> Option<string>, rules: Robots.Rules)
    requires Chain(net, first, initial, hops, 5) && Establishes(net, first, initial, hops, token, decode, rules)
    ensures rules.Open? <==> hops != [] && NoRulesThere(net.send(first + |hops| - 1, hops[|hops| - 1]))
    ensures rules.Restricted? <==> hops != [] && RulesThere(net.send(first + |hops| - 1, hops[|hops| - 1]), decode)
  {
  }

  /** For each behaviour of the world the rules are determined. */
  lemma RulesDetermined(net: Net, first: nat, initial: Url, token: string, decode: Bytes -> Option<string>,
                        a: seq<Url>, rules: Robots.Rules, b: seq<Url>, rules': Robots.Rules)
    requires Chain(net, first, initial, a, 5) && Establishes(net, first, initial, a, token, decode, rules)
    requires Chain(net, first, initial, b, 5) && Establishes(net, first, initial, b, token, decode, rules')
    ensures a == b && rules == rules'
  {
    NothingAfterRules(net, first, initial, token, decode, a, rules, b);
    NothingAfterRules(net, first, initial, token, decode, b, rules', a);
    forall i | 0 <= i < |a| ensures a[i] == b[i] { ChainsAgree(net, first, initial, a, b, 5, i); }
    assert a == b;
    RulesUnique(net, first, initial, a, token, decode, rules, rules');
  }

  lemma NothingAfterRules(net: Net, first: nat, initial: Url, token: string, decode: Bytes -> Option<string>,
                          a: seq<Url>, rules: Robots.Rules, b: seq<Url>)
    requires Chain(net, first, initial, a, 5) && Establishes(net, first, initial, a, token, decode, rules)
    requires Chain(net, first, initial, b, 5)
    ensures |b| <= |a|
  {
    if |a| < |b| { LongerGoesOn(net, first, initial, a, b, 5); }
  }

  lemma RulesUnique(net: Net, first: nat, initial: Url, hops: seq<Url>, token: string, decode: Bytes -> Option<string>,
                    rules: Robots.Rules, rules': Robots.Rules)
    requires Establishes(net, first, initial, hops, token, decode, rules) && Establishes(net, first, initial, hops, token, decode, rules')
    ensures rules == rules'
  {
  }

  method FetchRobotsRules(net: Net, first: nat, origin: Url, token: string, decode: Bytes -> Option<string>)
    returns (rules: Robots.Rules, ghost hops: seq<Url>)
    ensures Chain(net, first, WellKnown(origin), hops, 5)
    ensures Establishes(net, first, WellKnown(origin), hops, token, decode, rules)
  {
    var current, hop := RobotsUrl(origin), 0;
    hops := [];
    while hop <= MAX_ROBOTS_REDIRECTS
      invariant hop <= MAX_ROBOTS_REDIRECTS && |hops| == hop && Chain(net, first, RobotsUrl(origin), hops, MAX_ROBOTS_REDIRECTS)
      invariant NextIs(net, first, RobotsUrl(origin), hops, current)
    {
      var rejection := net.rejects(first + hop, current);
      if rejection.Some? { return Robots.RulesUnavailable("ssrf_blocked: " + rejection.value), hops; }
      OneHopMore(net, first, RobotsUrl(origin), hops, current, MAX_ROBOTS_REDIRECTS);
      hops := hops + [current];
      match net.send(first + hop, current) {
        case TimedOut => return Robots.RulesUnavailable("timeout fetching robots.txt"), hops;
        case ConnectionFailed(m) => return Robots.RulesUnavailable("connection failed fetching robots.txt: " + m), hops;
        case Got(resp) =>
          if resp.IsRedirect() && hop < MAX_ROBOTS_REDIRECTS && resp.location.Some? {
            var next := net.join(current, resp.location.value);
            if next.None? { return Robots.RulesUnavailable("robots.txt redirected to an unusable location"), hops; }
            current := next.value;
            hop := hop + 1;
            continue;
          }
          rules := Conclude(net, first + hop, current, hop, resp, token, decode);
          return;
      }
    }
    assert false;
  }

  /** The final answer, judged. */
  method Conclude(ghost net: Net, ghost n: nat, ghost url: Url, hop: nat, resp: Response, token: string, decode: Bytes -> Option<string>)
    returns (rules: Robots.Rules)
    requires net.send(n, url) == Got(resp) && hop <= MAX_ROBOTS_REDIRECTS
    requires !(resp.IsRedirect() && hop < MAX_ROBOTS_REDIRECTS && resp.location.Some?)
    ensures Concludes(net, n, url, hop + 1, token, decode, rules)
  {
    if Is2xx(resp.status) {
      var text := decode(resp.body);
      if text.None? { return Robots.RulesUnavailable("robots.txt was not valid UTF-8"); }
      var prefixes := Robots.ParseDisallow(text.value, token);
      return Robots.Restricted(prefixes);
    }
    if 400 <= resp.status < 500 { return Robots.Open; }
    if resp.IsRedirect() { return Robots.RulesUnavailable("robots.txt redirected more than 5 times"); }
    return Robots.RulesUnavailable("robots.txt returned HTTP " + Decimal.Print(resp.status));
  }

  /** The gate end to end: where the robots.txt established for an origin has a
      group that names the token or `*` and rules the path out, no request for the
      document is sent. */
  lemma RuledOutNeverAsked(net: Net, robotsFirst: nat, asked: seq<Url>, rules: Robots.Rules, token: string, decode: Bytes -> Option<string>,
                           first: nat, initial: Url, hops: seq<Url>, end: End)
    requires Chain(net, robotsFirst, WellKnown(initial), asked, 5)
    requires Establishes(net, robotsFirst, WellKnown(initial), asked, token, decode, rules)
    requires asked != [] && RulesThere(net.send(robotsFirst + |asked| - 1, asked[|asked| - 1]), decode)
    requires var text := decode(net.send(robotsFirst + |asked| - 1, asked[|asked| - 1]).response.body).value;
             Robots.RuledOut(Robots.GroupsOf(Robots.Meaningful(Robots.Classified(Robots.Lines(text)))), token, initial.path)
    requires net.robots(first, initial) == Robots.ApplyRules(rules, initial.path)
    requires HopChain(net, first, initial, hops) && Ended(net, first, initial, hops, end)
    ensures hops == [] && (end.RobotsDisallowed? || end.Blocked?)
  {
    var text := decode(net.send(robotsFirst + |asked| - 1, asked[|asked| - 1]).response.body).value;
    PermissionIff(net, robotsFirst, WellKnown(initial), asked, token, decode, rules);
    assert rules == Robots.Restricted(RulesIn(text, token));
    Robots.DisallowedIff(text, token, initial.path);
  }

  /** What the document gate matches, and what `robots_permits` does. */
  function GatePath(url: Url): string { url.path }

  function AskedPath(url: Url): string
  {
    match url.query case Some(q) => url.path + ['?'] + q case None => url.path
  }

  /** The two questions get one answer exactly when the rules already block the
      path alone, or have no prefix that reaches into the query and matches it. */
  lemma GatesAgreeIff(rules: Robots.Rules, url: Url)
    ensures Robots.ApplyRules(rules, GatePath(url)) == Robots.ApplyRules(rules, AskedPath(url)) <==>
            rules.Restricted? ==>
              || Robots.Blocks(rules.prefixes, url.path)
              || !(exists p :: p in rules.prefixes && |p| > |url.path| && p <= AskedPath(url))
  {
    if rules.Restricted? {
      var path, asked := GatePath(url), AskedPath(url);
      assert path <= asked;
      forall p | p in rules.prefixes && |p| <= |path| ensures p <= path <==> p <= asked {
        assert asked[..|path|] == path;
        assert p <= asked ==> asked[..|p|] == path[..|p|];
      }
    }
  }

  /** Disallow: /a?x lets the document at /a?x=1 be fetched, and tells the other
      caller that it may not be asked for. */
  lemma GatesDiffer(url: Url)
    requires url.path == "/a" && url.query == Some("x=1")
    ensures Robots.ApplyRules(Robots.Restricted(["/a?x"]), GatePath(url)) == Robots.Allowed
    ensures Robots.ApplyRules(Robots.Restricted(["/a?x"]), AskedPath(url)) == Robots.Disallowed
  {
    assert "/a" + ['?'] + "x=1" == "/a?x=1";
    assert "/a?x" in ["/a?x"] && "/a?x" <= "/a?x=1";
  }

  // ---- IPFS: every gateway in turn ---------------------------------------------------------

  /** One gateway's fetch, as it ended; None when its URL does not parse. */
  datatype GatewayRun = GatewayRun(hops: seq<Url>, end: Option<End>)

  predicate Succeeded(run: GatewayRun) { run.end.Some? && run.end.value.Answered? && Is2xx(run.end.value.status) }

  ghost predicate GatewayRan(net: Net, lib: Lib, gateway: string, cid: string, first: nat, run: GatewayRun)
  {
    match lib.parseUrl(gateway + cid)
    case None => run == GatewayRun([], None)
    case Some(url) => run.end.Some? && HopChain(net, first, url, run.hops) && Ended(net, first, url, run.hops, run.end.value)
  }

  /** The row kept of one gateway's run. */
  function AttemptOf(gateway: string, run: GatewayRun): Attempt
  {
    match run.end
    case None => Attempt(gateway, None, Some("bad_gateway_url"))
    case Some(Answered(status)) => Attempt(gateway, Some(status), None)
    case Some(StillRedirecting(status)) => Attempt(gateway, Some(status), ErrorText(run.end.value))
    case Some(end) => Attempt(gateway, None, ErrorText(end))
  }

  /** Steps set aside for each gateway's own fetch. */
  function FirstStep(i: nat): nat { i * (MAX_REDIRECTS + 1) }

  /** How a chain of gateways went, and its record: all that were asked before
      the first to answer 2xx, and that one; or all of them. */
  ghost predicate IpfsRan(net: Net, lib: Lib, gateways: seq<string>, cid: string, out: Outcome, runs: seq<GatewayRun>)
  {
    && |runs| <= |gateways|
    && (forall i :: 0 <= i < |runs| ==> GatewayRan(net, lib, gateways[i], cid, FirstStep(i), runs[i]))
    && (forall i :: 0 <= i < |runs| - 1 ==> !Succeeded(runs[i]))
    && |out.gatewayAttempts| == |runs|
    && (forall i :: 0 <= i < |runs| ==> out.gatewayAttempts[i] == AttemptOf(gateways[i], runs[i]))
    && if runs != [] && Succeeded(runs[|runs| - 1]) then
         var i := |runs| - 1;
         && lib.parseUrl(gateways[i] + cid).Some?
         && Records(out.(gatewayAttempts := []), net, FirstStep(i), lib.parseUrl(gateways[i] + cid).value, Some(gateways[i]), runs[i].hops, runs[i].end.value)
       else
         && |runs| == |gateways| && FirstParsed(out.requestUrl, lib, gateways, cid)
         && out == Base("ipfs").(requestUrl := out.requestUrl, error := Some("ipfs_all_gateways_failed"), gatewayAttempts := out.gatewayAttempts)
  }

  /** The first gateway URL that parses, if any does. */
  ghost predicate FirstParsed(url: Option<Url>, lib: Lib, gateways: seq<string>, cid: string)
  {
    match url
    case None => forall i :: 0 <= i < |gateways| ==> lib.parseUrl(gateways[i] + cid).None?
    case Some(_) =>
      exists i :: 0 <= i < |gateways| && lib.parseUrl(gateways[i] + cid) == url &&
                  forall k :: 0 <= k < i ==> lib.parseUrl(gateways[k] + cid).None?
  }

  lemma FirstParsedIff(url: Option<Url>, lib: Lib, gateways: seq<string>, cid: string)
    requires FirstParsed(url, lib, gateways, cid)
    ensures url.Some? <==> exists i :: 0 <= i < |gateways| && lib.parseUrl(gateways[i] + cid).Some?
  {
  }

  lemma FirstParsedStep(url: Option<Url>, lib: Lib, gateways: seq<string>, cid: string, g: string)
    requires FirstParsed(url, lib, gateways, cid)
    ensures FirstParsed(if url.None? then lib.parseUrl(g + cid) else url, lib, gateways + [g], cid)
  {
    var more := gateways + [g];
    assert forall i :: 0 <= i < |gateways| ==> more[i] == gateways[i];
    if url.Some? {
      var i :| 0 <= i < |gateways| && lib.parseUrl(gateways[i] + cid) == url && forall k :: 0 <= k < i ==> lib.parseUrl(gateways[k] + cid).None?;
      assert lib.parseUrl(more[i] + cid) == url;
    } else {
      assert more[|gateways|] == g;
    }
  }

  /** The gateways asked so far, none of which answered 2xx. */
  ghost predicate AskedInVain(net: Net, lib: Lib, gateways: seq<string>, cid: string, attempts: seq<Attempt>, runs: seq<GatewayRun>)
  {
    && |runs| == |attempts| <= |gateways|
    && (forall k :: 0 <= k < |runs| ==> GatewayRan(net, lib, gateways[k], cid, FirstStep(k), runs[k]))
    && (forall k :: 0 <= k < |runs| ==> !Succeeded(runs[k]))
    && (forall k :: 0 <= k < |runs| ==> attempts[k] == AttemptOf(gateways[k], runs[k]))
  }

  lemma AskedOneMore(net: Net, lib: Lib, gateways: seq<string>, cid: string, attempts: seq<Attempt>, runs: seq<GatewayRun>, run: GatewayRun)
    requires AskedInVain(net, lib, gateways, cid, attempts, runs) && |runs| < |gateways| && !Succeeded(run)
    requires GatewayRan(net, lib, gateways[|runs|], cid, FirstStep(|runs|), run)
    ensures AskedInVain(net, lib, gateways, cid, attempts + [AttemptOf(gateways[|runs|], run)], runs + [run])
  {
  }

  /** The chain ends with the record of the gateway that answered. */
  lemma GatewayWon(net: Net, lib: Lib, gateways: seq<string>, cid: string, attempts: seq<Attempt>, runs: seq<GatewayRun>,
                   url: Url, hops: seq<Url>, end: End, out: Outcome)
    requires AskedInVain(net, lib, gateways, cid, attempts, runs) && |runs| < |gateways|
    requires lib.parseUrl(gateways[|runs|] + cid) == Some(url) && Succeeded(GatewayRun(hops, Some(end)))
    requires HopChain(net, FirstStep(|runs|), url, hops) && Ended(net, FirstStep(|runs|), url, hops, end)
    requires Records(out, net, FirstStep(|runs|), url, Some(gateways[|runs|]), hops, end)
    ensures var run := GatewayRun(hops, Some(end));
            IpfsRan(net, lib, gateways, cid, out.(gatewayAttempts := attempts + [AttemptOf(gateways[|runs|], run)]), runs + [run])
  {
    var i, run := |runs|, GatewayRun(hops, Some(end));
    var final := out.(gatewayAttempts := attempts + [AttemptOf(gateways[i], run)]);
    assert final.(gatewayAttempts := []) == out;
    assert (runs + [run])[i] == run;
    assert forall k :: 0 <= k < i ==> (runs + [run])[k] == runs[k];
  }

  method FetchIpfsChain(net: Net, lib: Lib, gateways: seq<string>, cid: string) returns (out: Outcome, ghost runs: seq<GatewayRun>)
    ensures IpfsRan(net, lib, gateways, cid, out, runs)
    ensures |out.gatewayAttempts| <= |gateways| && (out.error.None? ==> out.viaGateway.Some? && out.viaGateway.value in gateways)
  {
    var attempts: seq<Attempt> := [];
    var firstRequestUrl: Option<Url> := None;
    runs := [];
    for i := 0 to |gateways|
      invariant |runs| == i && AskedInVain(net, lib, gateways, cid, attempts, runs)
      invariant FirstParsed(firstRequestUrl, lib, gateways[..i], cid)
    {
      TakeMore(gateways, i);
      FirstParsedStep(firstRequestUrl, lib, gateways[..i], cid, gateways[i]);
      match lib.parseUrl(gateways[i] + cid) {
        case None =>
          AskedOneMore(net, lib, gateways, cid, attempts, runs, GatewayRun([], None));
          attempts := attempts + [Attempt(gateways[i], None, Some("bad_gateway_url"))];
          runs := runs + [GatewayRun([], None)];
          continue;
        case Some(url) =>
          if firstRequestUrl.None? { firstRequestUrl := Some(url); }
          var attempt;
          ghost var hops, end;
          attempt, hops, end := FetchHttp(net, FirstStep(i), url, Some(gateways[i]));
          var row := Attempt(gateways[i], attempt.httpStatus, attempt.error);
          RowRecorded(attempt, net, FirstStep(i), url, gateways[i], hops, end);
          if attempt.httpStatus.Some? && Is2xx(attempt.httpStatus.value) {
            GatewayWon(net, lib, gateways, cid, attempts, runs, url, hops, end, attempt);
            attempts := attempts + [row];
            runs := runs + [GatewayRun(hops, Some(end))];
            out := attempt.(gatewayAttempts := attempts);
            return;
          }
          AskedOneMore(net, lib, gateways, cid, attempts, runs, GatewayRun(hops, Some(end)));
          attempts := attempts + [row];
          runs := runs + [GatewayRun(hops, Some(end))];
      }
    }
    assert gateways[..|gateways|] == gateways;
    out := Base("ipfs").(requestUrl := firstRequestUrl, error := Some("ipfs_all_gateways_failed"), gatewayAttempts := attempts);
  }

  lemma RowRecorded(out: Outcome, net: Net, first: nat, url: Url, gateway: string, hops: seq<Url>, end: End)
    requires HopChain(net, first, url, hops) && Ended(net, first, url, hops, end) && Records(out, net, first, url, Some(gateway), hops, end)
    ensures Attempt(gateway, out.httpStatus, out.error) == AttemptOf(gateway, GatewayRun(hops, Some(end)))
    ensures Succeeded(GatewayRun(hops, Some(end))) <==> out.httpStatus.Some? && Is2xx(out.httpStatus.value)
  {
  }

  // ---- Any URI --------------------------------------------------------------------------------

  /** Which path a fetch took, and how it went. */
  datatype Trace =
    | NothingToFetch
    | Undecodable(algorithm: string)
    | InHand(decode: Variant)
    | OverHttp(url: Url, hops: seq<Url>, end: End)
    | OverIpfs(cid: string, runs: seq<GatewayRun>)
    | Unrecorded

  ghost predicate Traced(net: Net, lib: Lib, gateways: seq<string>, uri: string, out: Outcome, trace: Trace)
  {
    match trace
    case OverIpfs(cid, runs) => IpfsCidAndPath(uri) == Some(cid) && IpfsRan(net, lib, gateways, cid, out, runs)
    case OverHttp(url, hops, end) =>
      && IpfsCidAndPath(uri) == None && Resolve(lib, uri) == Target.Http(url)
      && HopChain(net, 0, url, hops) && Ended(net, 0, url, hops, end) && Records(out, net, 0, url, None, hops, end)
    case InHand(decode) =>
      && IpfsCidAndPath(uri) == None && Resolve(lib, uri).Inline? && decode == Resolve(lib, uri).decode
      && out.scheme == "data" && out.requestUrl == None && out.error == None && out.inlineDecode == Some(decode)
      && out.body == Some(CapBytes(Resolve(lib, uri).bytes).0) && out.truncated == CapBytes(Resolve(lib, uri).bytes).1
    case Undecodable(algorithm) =>
      && IpfsCidAndPath(uri) == None && Resolve(lib, uri) == UnsupportedCompression(algorithm)
      && out == Base("data").(error := Some("unsupported_compression: " + algorithm))
    case NothingToFetch =>
      && IpfsCidAndPath(uri) == None
      && (if Resolve(lib, uri).Empty? then out == Base("")
          else Resolve(lib, uri).Unsupported? && out == Base(Resolve(lib, uri).scheme))
    case Unrecorded => false
  }

  /** One fetch of any URI. It is meant never to fail; there is no outcome exactly
      where reading the metadata of a data URI panics. */
  method Fetch(net: Net, lib: Lib, gateways: seq<string>, uri: string) returns (out: Option<Outcome>, ghost trace: Trace)
    ensures out.None? <==> Breaks(lib, uri)
    ensures if out.None? then trace.Unrecorded? else Traced(net, lib, gateways, uri, out.value, trace)
  {
    BreaksIff(lib, uri);
    var cid := IpfsCidAndPath(uri);
    var record;
    if cid.Some? {
      ghost var runs;
      record, runs := FetchIpfsChain(net, lib, gateways, cid.value);
      trace := OverIpfs(cid.value, runs);
      return Some(record), trace;
    }
    match Resolve(lib, uri) {
      case Panicked => return None, Unrecorded;
      case Empty => record, trace := Base(""), NothingToFetch;
      case Unsupported(scheme) => record, trace := Base(scheme), NothingToFetch;
      case UnsupportedCompression(algorithm) =>
        record, trace := Base("data").(error := Some("unsupported_compression: " + algorithm)), Undecodable(algorithm);
      case Inline(bytes, decode) =>
        var (kept, truncated) := CapBytes(bytes);
        record := Base("data").(body := Some(kept), truncated := truncated, inlineDecode := Some(decode));
        trace := InHand(decode);
      case Http(url) =>
        ghost var hops, end;
        record, hops, end := FetchHttp(net, 0, url, None);
        trace := OverHttp(url, hops, end);
    }
    out := Some(record);
  }
}
