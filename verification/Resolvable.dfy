/** Rung 2 (crates/checks/src/rung2_resolvable.rs), and what its verdict means
    from the raw URI to the last byte of network behaviour. */
module Resolvable {
  import opened Common
  import opened Refusal
  import opened Uris
  import F = Fetch
  import Text

  /** The verdict over what the prober recorded. */
  function Verdict(scheme: string, error: Option<string>, httpStatus: Option<nat>): Status
  {
    if scheme == "empty" then Fail
    else if scheme == "unsupported" then Fail
    else if scheme == "data" then (if error.Some? then Error else Pass)
    else match error
      case Some(e) => if CouldNotAsk(e) then Refused else if SsrfBlocked(e) then Fail else Error
      case None =>
        match httpStatus
        case Some(code) => if Is2xx(code) then Pass else if DeclinedUs(code) then Refused else Fail
        case None => Error
  }

  function Judge(out: F.Outcome): Status { Verdict(F.SchemeBucket(out), out.error, out.httpStatus) }

  /** What the verdict is for each way a fetch over http(s) can end. */
  function VerdictOfEnd(end: F.End): Status
  {
    match end
    case Blocked(_) => Fail
    case RobotsDisallowed => Refused
    case RobotsUnavailable(_) => Refused
    case NoAnswer => Error
    case NoConnection(_) => Error
    case BadLocation => Error
    case StillRedirecting(_) => Error
    case Answered(code) => if 200 <= code < 300 then Pass else if code in {401, 402, 407, 429, 503} then Refused else Fail
  }

  /** The error texts the prober writes are read back as what they mean. */
  lemma ErrorTextRead(end: F.End)
    requires !end.Answered?
    ensures var e := F.ErrorText(end).value;
      && (CouldNotAsk(e) <==> end.RobotsDisallowed? || end.RobotsUnavailable?)
      && (SsrfBlocked(e) <==> end.Blocked?)
  {
    var e := F.ErrorText(end).value;
    match end
    case Blocked(reason) => assert e[0] == 's' && e[..14] == "ssrf_blocked: ";
    case RobotsDisallowed => assert e[0] == 'r';
    case RobotsUnavailable(reason) => assert e[..20] == "robots_unavailable: " && e[..18] == "robots_unavailable";
    case NoAnswer => assert e[0] == 't';
    case NoConnection(m) => assert e[0] == 'c';
    case BadLocation => assert e[0] == 'b';
    case StillRedirecting(_) => assert e[0] == 't';
  }

  lemma HttpVerdict(net: F.Net, lib: Lib, gateways: seq<string>, uri: string, out: F.Outcome, trace: F.Trace)
    requires F.Traced(net, lib, gateways, uri, out, trace) && trace.OverHttp?
    ensures Judge(out) == VerdictOfEnd(trace.end)
  {
    assert out.scheme == "http" || out.scheme == "https";
    assert "http" != "empty" && "http" != "unsupported" && "http" != "data";
    assert "https"[0] == 'h';
    if !trace.end.Answered? { ErrorTextRead(trace.end); }
  }

  /** A 302 without a Location, as the first answer: recorded as too many
      redirects, and judged an error of the census. */
  lemma RedirectWithoutLocation(net: F.Net, lib: Lib, gateways: seq<string>, uri: string, r: F.Response, out: F.Outcome, trace: F.Trace)
    requires F.Traced(net, lib, gateways, uri, out, trace) && trace.OverHttp?
    requires net.rejects(0, trace.url).None? && net.robots(0, trace.url).Allowed?
    requires net.send(0, trace.url) == F.Got(r) && r.status == 302 && r.location == None
    ensures trace.hops == [trace.url] && out.httpStatus == Some(302) && out.error == Some("too_many_redirects")
    ensures Judge(out) == Error
  {
    assert trace.hops != [] && trace.hops[0] == trace.url;
    assert |trace.hops| > 1 ==> F.RedirectsTo(net, 0 + 0, trace.hops[0], trace.hops[0 + 1]);
    assert trace.end == F.StillRedirecting(302);
    HttpVerdict(net, lib, gateways, uri, out, trace);
  }

  /** A 2xx as the first answer, where robots.txt lets us ask: a pass. */
  lemma AnsweredAtOnce(net: F.Net, lib: Lib, gateways: seq<string>, uri: string, r: F.Response, out: F.Outcome, trace: F.Trace)
    requires F.Traced(net, lib, gateways, uri, out, trace) && trace.OverHttp?
    requires net.rejects(0, trace.url).None? && net.robots(0, trace.url).Allowed?
    requires net.send(0, trace.url) == F.Got(r) && 200 <= r.status < 300
    ensures trace.hops == [trace.url] && out.httpStatus == Some(r.status) && out.error == None
    ensures Judge(out) == Pass
  {
    assert trace.hops != [] && trace.hops[0] == trace.url;
    assert |trace.hops| > 1 ==> F.RedirectsTo(net, 0 + 0, trace.hops[0], trace.hops[0 + 1]);
    assert trace.end == F.Answered(r.status);
    HttpVerdict(net, lib, gateways, uri, out, trace);
  }

  /** The verdict for an ipfs:// URI: a pass if a gateway answered 2xx; our own
      error otherwise, provided some gateway URL parses at all. With none the
      agent is blamed for our configuration. */
  lemma IpfsVerdict(net: F.Net, lib: Lib, gateways: seq<string>, uri: string, out: F.Outcome, trace: F.Trace)
    requires F.Traced(net, lib, gateways, uri, out, trace) && trace.OverIpfs?
    ensures var won := Won(trace.runs);
      && (Judge(out).Pass? <==> won)
      && (!won ==> (Judge(out).Error? <==> exists i :: 0 <= i < |gateways| && lib.parseUrl(gateways[i] + trace.cid).Some?))
      && (!won && !Judge(out).Error? ==> Judge(out).Fail?)
  {
    IpfsRecorded(net, lib, gateways, trace.cid, out, trace.runs);
    if Won(trace.runs) { GatewayAnswerPasses(out); } else { AllGatewaysFailed(out); }
  }

  /** The last gateway asked answered 2xx. */
  predicate Won(runs: seq<F.GatewayRun>) { runs != [] && F.Succeeded(runs[|runs| - 1]) }

  lemma IpfsRecorded(net: F.Net, lib: Lib, gateways: seq<string>, cid: string, out: F.Outcome, runs: seq<F.GatewayRun>)
    requires F.IpfsRan(net, lib, gateways, cid, out, runs)
    ensures out.scheme == "ipfs"
    ensures Won(runs) ==> out.requestUrl.Some? && out.error == None && out.httpStatus.Some? && Is2xx(out.httpStatus.value)
    ensures !Won(runs) ==> out.error == Some("ipfs_all_gateways_failed")
    ensures !Won(runs) ==> (out.requestUrl.Some? <==> exists i :: 0 <= i < |gateways| && lib.parseUrl(gateways[i] + cid).Some?)
  {
    if !Won(runs) { F.FirstParsedIff(out.requestUrl, lib, gateways, cid); }
  }

  lemma GatewayAnswerPasses(out: F.Outcome)
    requires out.scheme == "ipfs" && out.requestUrl.Some? && out.error == None
    requires out.httpStatus.Some? && Is2xx(out.httpStatus.value)
    ensures Judge(out) == Pass
  {
    assert "ipfs"[0] == 'i' && "empty"[0] == 'e' && "unsupported"[0] == 'u' && "data"[0] == 'd';
  }

  lemma AllGatewaysFailed(out: F.Outcome)
    requires out.scheme == "ipfs" && out.error == Some("ipfs_all_gateways_failed")
    ensures Judge(out) == if out.requestUrl.Some? then Error else Fail
  {
    assert "ipfs"[0] == 'i' && "empty"[0] == 'e' && "unsupported"[0] == 'u' && "data"[0] == 'd';
    assert out.error.value[0] == 'i' && "robots_disallowed"[0] == 'r' && "robots_unavailable"[0] == 'r' && "ssrf_blocked: "[0] == 's';
  }

  lemma LocalVerdict(net: F.Net, lib: Lib, gateways: seq<string>, uri: string, out: F.Outcome, trace: F.Trace)
    requires F.Traced(net, lib, gateways, uri, out, trace) && Lawful(lib)
    requires trace.InHand? || trace.Undecodable? || trace.NothingToFetch?
    ensures Judge(out) == if trace.InHand? then Pass else if trace.Undecodable? then Error else Fail
  {
    assert "data"[0] == 'd' && "empty"[0] == 'e' && "unsupported"[0] == 'u';
    if trace.NothingToFetch? { ResolvedScheme(lib, uri); }
  }

  /** An unsupported scheme is never recorded as no scheme at all. */
  lemma ResolvedScheme(lib: Lib, uri: string)
    requires Lawful(lib)
    ensures Resolve(lib, uri).Unsupported? ==> Resolve(lib, uri).scheme != ""
  {
  }

  /** A 2xx received after at most four requests, every one of them
      validated first, and the first permitted by robots.txt (redirect targets are
      validated but not asked about). */
  ghost predicate DocumentReceived(net: F.Net, first: nat, initial: Url, hops: seq<Url>, end: F.End)
  {
    && 1 <= |hops| <= 4 && hops[0] == initial
    && net.robots(first, initial).Allowed?
    && (forall i :: 0 <= i < |hops| ==> net.rejects(first + i, hops[i]).None?)
    && (forall i :: 0 <= i < |hops| - 1 ==> F.RedirectsTo(net, first + i, hops[i], hops[i + 1]))
    && var last := net.send(first + |hops| - 1, hops[|hops| - 1]);
       last.Got? && 200 <= last.response.status < 300 && end == F.Answered(last.response.status)
  }

  /** What a pass means, whatever the network did: the document was in hand, or
      was received over a validated chain from the URI or from a gateway. */
  ghost predicate PassIsEarned(net: F.Net, lib: Lib, gateways: seq<string>, uri: string, out: F.Outcome, trace: F.Trace)
  {
    match trace
    case InHand(decode) => Resolve(lib, uri).Inline? && out.body == Some(F.CapBytes(Resolve(lib, uri).bytes).0)
    case OverHttp(url, hops, end) => DocumentReceived(net, 0, url, hops, end)
    case OverIpfs(cid, runs) =>
      && 1 <= |runs| <= |gateways|
      && var i := |runs| - 1;
         lib.parseUrl(gateways[i] + cid).Some? && runs[i].end.Some?
         && DocumentReceived(net, F.FirstStep(i), lib.parseUrl(gateways[i] + cid).value, runs[i].hops, runs[i].end.value)
    case _ => false
  }

  /** Over either network path, a pass is earned. */
  lemma HttpEarned(net: F.Net, lib: Lib, gateways: seq<string>, uri: string, out: F.Outcome, trace: F.Trace)
    requires F.Traced(net, lib, gateways, uri, out, trace) && trace.OverHttp? && VerdictOfEnd(trace.end).Pass?
    ensures PassIsEarned(net, lib, gateways, uri, out, trace)
  {
  }

  lemma IpfsEarned(net: F.Net, lib: Lib, gateways: seq<string>, uri: string, out: F.Outcome, trace: F.Trace)
    requires F.Traced(net, lib, gateways, uri, out, trace) && trace.OverIpfs?
    requires trace.runs != [] && F.Succeeded(trace.runs[|trace.runs| - 1])
    ensures PassIsEarned(net, lib, gateways, uri, out, trace)
  {
    var i := |trace.runs| - 1;
    assert F.GatewayRan(net, lib, gateways[i], trace.cid, F.FirstStep(i), trace.runs[i]);
  }

  /** The document as it is kept: its first mebibyte. */
  predicate KeptAs(out: F.Outcome, document: Bytes)
  {
    out.body == Some(if |document| <= 1_048_576 then document else document[..1_048_576]) && (out.truncated <==> |document| > 1_048_576)
  }

  /** A path on ipfs is asked for there, and an address over HTTP. */
  ghost predicate AskedFor(lib: Lib, uri: string, trace: F.Trace)
  {
    && (forall cid :: NamesPath(uri, cid) <==> trace.OverIpfs? && trace.cid == cid)
    && (forall url :: Fetchable(lib, uri, url) <==> trace.OverHttp? && trace.url == url)
  }

  /** A document that the URI carries passes as it is; one in an encoding nobody here
      decodes is an error of the census. */
  ghost predicate TakenAsIs(lib: Lib, uri: string, status: Status, out: F.Outcome)
  {
    && (forall document :: Carries(lib, uri, document) ==> status == Pass && KeptAs(out, document))
    && (forall algorithm :: Undecoded(lib, uri, algorithm) ==> status == Error && out.error == Some("unsupported_compression: " + algorithm))
  }

  ghost predicate NothingThere(lib: Lib, uri: string)
  {
    && (forall cid :: !NamesPath(uri, cid)) && (forall url :: !Fetchable(lib, uri, url))
    && (forall document :: !Carries(lib, uri, document)) && (forall algorithm :: !Undecoded(lib, uri, algorithm))
  }

  /** What is published about a URI follows from its text and the answers received. */
  ghost predicate AsPublished(net: F.Net, lib: Lib, uri: string, status: Status, out: F.Outcome, trace: F.Trace)
  {
    && AskedFor(lib, uri, trace)
    && TakenAsIs(lib, uri, status, out)
    && (trace.OverHttp? ==> (status == Pass <==> DocumentReceived(net, 0, trace.url, trace.hops, trace.end)))
    && (NothingThere(lib, uri) ==> status == Fail)
  }

  lemma OverHttpPasses(net: F.Net, lib: Lib, gateways: seq<string>, uri: string, out: F.Outcome, trace: F.Trace)
    requires F.Traced(net, lib, gateways, uri, out, trace) && trace.OverHttp?
    ensures Judge(out) == Pass <==> DocumentReceived(net, 0, trace.url, trace.hops, trace.end)
  {
    HttpVerdict(net, lib, gateways, uri, out, trace);
    if Judge(out).Pass? { HttpEarned(net, lib, gateways, uri, out, trace); }
  }

  /** Where the text of the URI leads. */
  lemma TextLeads(net: F.Net, lib: Lib, gateways: seq<string>, uri: string, out: F.Outcome, trace: F.Trace,
                  cid: string, url: Url, document: Bytes, algorithm: string)
    requires F.Traced(net, lib, gateways, uri, out, trace)
    ensures NamesPath(uri, cid) <==> trace.OverIpfs? && trace.cid == cid
    ensures Fetchable(lib, uri, url) <==> trace.OverHttp? && trace.url == url
    ensures Carries(lib, uri, document) <==> trace.InHand? && Resolve(lib, uri).bytes == document
    ensures Undecoded(lib, uri, algorithm) <==> trace == F.Undecodable(algorithm)
  {
    IpfsNamesIff(uri, cid);
    if IpfsCidAndPath(uri) == None {
      ResolvedIff(lib, uri, url, document, algorithm);
    } else {
      forall meta, payload ensures !DataParts(uri, meta, payload) {
        if DataParts(uri, meta, payload) { DataResolved(lib, uri, meta, payload); }
      }
    }
  }

  lemma AskedForIs(net: F.Net, lib: Lib, gateways: seq<string>, uri: string, out: F.Outcome, trace: F.Trace)
    requires F.Traced(net, lib, gateways, uri, out, trace)
    ensures AskedFor(lib, uri, trace)
  {
    forall cid ensures NamesPath(uri, cid) <==> trace.OverIpfs? && trace.cid == cid {
      TextLeads(net, lib, gateways, uri, out, trace, cid, Url("", "", "", None), [], "");
    }
    forall url ensures Fetchable(lib, uri, url) <==> trace.OverHttp? && trace.url == url {
      TextLeads(net, lib, gateways, uri, out, trace, "", url, [], "");
    }
  }

  lemma TakenAsItIs(net: F.Net, lib: Lib, gateways: seq<string>, uri: string, out: F.Outcome, trace: F.Trace)
    requires F.Traced(net, lib, gateways, uri, out, trace) && Lawful(lib)
    ensures TakenAsIs(lib, uri, Judge(out), out)
  {
    forall document | Carries(lib, uri, document) ensures Judge(out) == Pass && KeptAs(out, document) {
      TextLeads(net, lib, gateways, uri, out, trace, "", Url("", "", "", None), document, "");
      LocalVerdict(net, lib, gateways, uri, out, trace);
    }
    forall algorithm | Undecoded(lib, uri, algorithm)
      ensures Judge(out) == Error && out.error == Some("unsupported_compression: " + algorithm)
    {
      TextLeads(net, lib, gateways, uri, out, trace, "", Url("", "", "", None), [], algorithm);
      LocalVerdict(net, lib, gateways, uri, out, trace);
    }
  }

  lemma NothingFails(net: F.Net, lib: Lib, gateways: seq<string>, uri: string, out: F.Outcome, trace: F.Trace)
    requires F.Traced(net, lib, gateways, uri, out, trace) && Lawful(lib) && NothingThere(lib, uri)
    ensures Judge(out) == Fail
  {
    var url := if trace.OverHttp? then trace.url else Url("", "", "", None);
    var document := if Resolve(lib, uri).Inline? then Resolve(lib, uri).bytes else [];
    TextLeads(net, lib, gateways, uri, out, trace, if trace.OverIpfs? then trace.cid else "", url, document,
              if trace.Undecodable? then trace.algorithm else "");
    LocalVerdict(net, lib, gateways, uri, out, trace);
  }

  lemma Published(net: F.Net, lib: Lib, gateways: seq<string>, uri: string, out: F.Outcome, trace: F.Trace)
    requires F.Traced(net, lib, gateways, uri, out, trace) && Lawful(lib)
    ensures AsPublished(net, lib, uri, Judge(out), out, trace)
  {
    AskedForIs(net, lib, gateways, uri, out, trace);
    TakenAsItIs(net, lib, gateways, uri, out, trace);
    if trace.OverHttp? { OverHttpPasses(net, lib, gateways, uri, out, trace); }
    if NothingThere(lib, uri) { NothingFails(net, lib, gateways, uri, out, trace); }
  }

  /** End to end, for any behaviour of the network and of the libraries: every URI
      gets its verdict, except exactly those that break the prober. */
  method CheckUri(net: F.Net, lib: Lib, gateways: seq<string>, uri: string)
    returns (status: Option<Status>, out: Option<F.Outcome>, ghost trace: F.Trace)
    requires Lawful(lib)
    ensures status.None? <==> Breaks(lib, uri)
    ensures if status.None? then out.None? && trace.Unrecorded?
            else out.Some? && F.Traced(net, lib, gateways, uri, out.value, trace) && status == Some(Judge(out.value))
    ensures status.Some? ==> AsPublished(net, lib, uri, status.value, out.value, trace)
    ensures status == Some(Pass) ==> PassIsEarned(net, lib, gateways, uri, out.value, trace)
    ensures trace.OverHttp? ==> status == Some(VerdictOfEnd(trace.end))
    ensures trace.OverIpfs? && status != Some(Pass) ==>
      status == Some(if exists i :: 0 <= i < |gateways| && lib.parseUrl(gateways[i] + trace.cid).Some? then Error else Fail)
    ensures trace.InHand? ==> status == Some(Pass)
    ensures trace.Undecodable? ==> status == Some(Error)
    ensures trace.NothingToFetch? ==> status == Some(Fail)
  {
    out, trace := F.Fetch(net, lib, gateways, uri);
    match out {
      case None => status := None;
      case Some(record) =>
        status := Some(Judge(record));
        CheckedVerdict(net, lib, gateways, uri, record, trace);
        Published(net, lib, gateways, uri, record, trace);
    }
  }

  lemma CheckedVerdict(net: F.Net, lib: Lib, gateways: seq<string>, uri: string, out: F.Outcome, trace: F.Trace)
    requires F.Traced(net, lib, gateways, uri, out, trace) && Lawful(lib)
    ensures Judge(out).Pass? ==> PassIsEarned(net, lib, gateways, uri, out, trace)
    ensures trace.OverHttp? ==> Judge(out) == VerdictOfEnd(trace.end)
    ensures trace.OverIpfs? && !Judge(out).Pass? ==>
      Judge(out) == if exists i :: 0 <= i < |gateways| && lib.parseUrl(gateways[i] + trace.cid).Some? then Error else Fail
    ensures trace.InHand? ==> Judge(out).Pass?
    ensures trace.Undecodable? ==> Judge(out).Error?
    ensures trace.NothingToFetch? ==> Judge(out).Fail?
  {
    match trace {
      case OverHttp(_, _, _) =>
        HttpVerdict(net, lib, gateways, uri, out, trace);
        if Judge(out).Pass? { HttpEarned(net, lib, gateways, uri, out, trace); }
      case OverIpfs(_, _) =>
        IpfsVerdict(net, lib, gateways, uri, out, trace);
        if Judge(out).Pass? { IpfsEarned(net, lib, gateways, uri, out, trace); }
      case Unrecorded =>
      case _ => LocalVerdict(net, lib, gateways, uri, out, trace);
    }
  }

  /** A blank URI is told apart from one with nothing to fetch at the other end. */
  lemma BlankTold(net: F.Net, lib: Lib, gateways: seq<string>, uri: string, out: F.Outcome, trace: F.Trace)
    requires F.Traced(net, lib, gateways, uri, out, trace) && trace.NothingToFetch? && Lawful(lib)
    ensures F.SchemeBucket(out) == if Resolve(lib, uri).Empty? then "empty" else "unsupported"
    ensures Resolve(lib, uri).Empty? <==> forall i :: 0 <= i < |uri| ==> Text.IsWhitespace(uri[i])
  {
    ResolvedScheme(lib, uri);
    Text.BlankIff(uri);
  }
}
