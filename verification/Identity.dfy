/** What counts as one seller (crates/sellers/src/identity.rs): a normalised
    payment address and host. */
module Identity {
  import opened Common
  import opened Text
  import opened Networks
  import Decimal

  datatype IdentityError = MalformedAddress | ZeroAddress | MalformedUrl | UnsupportedScheme
  {
    function Word(): string
    {
      match this
      case MalformedAddress => "malformed_address"
      case ZeroAddress => "zero_address"
      case MalformedUrl => "malformed_url"
      case UnsupportedScheme => "unsupported_scheme"
    }
  }

  /** What the URL parser answers: the port only when it is not the scheme's own. */
  datatype ParsedUrl = ParsedUrl(scheme: string, host: Option<string>, port: Option<nat>)

  type UrlParser = string -> Option<ParsedUrl>

  type SellerId = (string, string)

  const HEX_MARK: string := ['0', 'x']

  predicate IsHexDigit(c: char) { '0' <= c <= '9' || 'a' <= c <= 'f' || 'A' <= c <= 'F' }

  predicate IsAlphanumeric(c: char) { '0' <= c <= '9' || 'a' <= c <= 'z' || 'A' <= c <= 'Z' }

  predicate Only(c: char, s: string) { forall i :: 0 <= i < |s| ==> s[i] == c }

  /** 0x and forty hexadecimal digits. */
  predicate EvmShape(s: string)
  {
    HEX_MARK <= s && |s| == 42 && forall i :: 2 <= i < 42 ==> IsHexDigit(s[i])
  }

  function NormalizePayTo(payTo: string, encoding: Encoding): Result<string, IdentityError>
  {
    var raw := Trim(payTo);
    match encoding
    case Evm =>
      if !EvmShape(raw) then Err(MalformedAddress)
      else
        var lowered := ToLower(raw[2..]);
        if Only('0', lowered) then Err(ZeroAddress) else Ok(HEX_MARK + lowered)
    case Base58 =>
      if ByteLength(raw) < 32 || ByteLength(raw) > 44 || !(forall i :: 0 <= i < |raw| ==> IsAlphanumeric(raw[i])) then
        Err(MalformedAddress)
      else if Only('1', raw) then Err(ZeroAddress) else Ok(raw)
    case Opaque =>
      if raw == [] || ByteLength(raw) > 128 then Err(MalformedAddress) else Ok(raw)
  }

  function EncodingOf(payTo: string): Encoding
  {
    if EvmShape(payTo) then Evm else Opaque
  }

  function HostForm(host: string, port: Option<nat>): string
  {
    match port case Some(p) => host + [':'] + Decimal.Print(p) case None => host
  }

  function NormalizeHost(resource: string, parse: UrlParser): Result<string, IdentityError>
  {
    match parse(Trim(resource))
    case None => Err(MalformedUrl)
    case Some(url) =>
      if url.scheme != "http" && url.scheme != "https" then Err(UnsupportedScheme)
      else
        match url.host
        case None => Err(MalformedUrl)
        case Some(host) =>
          if host == [] then Err(MalformedUrl)
          else Ok(HostForm(host, url.port))
  }

  function IdentityOf(payTo: string, resource: string, encoding: Encoding, parse: UrlParser): Result<SellerId, IdentityError>
  {
    match NormalizePayTo(payTo, encoding)
    case Err(e) => Err(e)
    case Ok(address) =>
      match NormalizeHost(resource, parse)
      case Err(e) => Err(e)
      case Ok(host) => Ok((address, host))
  }

  // ---- Addresses ---------------------------------------------------------------------

  lemma MarkSplits(s: string)
    requires HEX_MARK <= s
    ensures s == HEX_MARK + s[2..] && s[0] == '0' && s[1] == 'x'
  {
    assert s[..2] == HEX_MARK;
  }

  lemma LoweredShape(raw: string)
    requires EvmShape(raw)
    ensures ToLower(raw) == HEX_MARK + ToLower(raw[2..]) && EvmShape(ToLower(raw)) && Tight(ToLower(raw))
  {
    var low := ToLower(raw);
    MarkSplits(raw);
    assert low[0] == '0' && low[1] == 'x';
    assert low[2..] == ToLower(raw[2..]);
    assert low[..2] == HEX_MARK;
    forall i | 2 <= i < 42 ensures IsHexDigit(low[i]) { LowerHex(raw[i]); }
  }

  lemma LowerHex(c: char)
    requires IsHexDigit(c)
    ensures IsHexDigit(LowerChar(c)) && !IsWhitespace(LowerChar(c))
  {
  }

  /** What acceptance means under each rule: the trimmed address in lower case,
      or untouched where case may carry meaning. */
  lemma AcceptedAddress(payTo: string, encoding: Encoding)
    requires NormalizePayTo(payTo, encoding).Ok?
    ensures NormalizePayTo(payTo, encoding).value == (if encoding.Evm? then ToLower(Trim(payTo)) else Trim(payTo))
    ensures Tight(NormalizePayTo(payTo, encoding).value)
    ensures encoding.Evm? ==> EvmShape(NormalizePayTo(payTo, encoding).value)
  {
    TrimIsTight(payTo);
    if encoding.Evm? { LoweredShape(Trim(payTo)); }
  }

  /** Normalising a normal address changes nothing. */
  lemma NormalizeIdempotent(payTo: string, encoding: Encoding)
    requires NormalizePayTo(payTo, encoding).Ok?
    ensures NormalizePayTo(NormalizePayTo(payTo, encoding).value, encoding) == NormalizePayTo(payTo, encoding)
  {
    var raw := Trim(payTo);
    AcceptedAddress(payTo, encoding);
    TrimTight(NormalizePayTo(payTo, encoding).value);
    if encoding.Evm? {
      LoweredShape(raw);
      assert ToLower(raw)[2..] == ToLower(raw[2..]);
      ToLowerIdempotent(raw[2..]);
    }
  }

  /** Two spellings are one payee exactly when they agree after trimming, up to
      case for hexadecimal addresses and letter by letter for all others. */
  lemma SamePayeeIff(a: string, b: string, encoding: Encoding)
    requires NormalizePayTo(a, encoding).Ok? && NormalizePayTo(b, encoding).Ok?
    ensures NormalizePayTo(a, encoding) == NormalizePayTo(b, encoding) <==>
            if encoding.Evm? then EqIgnoreCase(Trim(a), Trim(b)) else Trim(a) == Trim(b)
  {
    AcceptedAddress(a, encoding);
    AcceptedAddress(b, encoding);
  }

  /** A stored address tells which rule normalised it, hexadecimal or verbatim,
      unless a payee of another network wrote one in the hexadecimal shape. */
  lemma EncodingTold(payTo: string, encoding: Encoding)
    requires NormalizePayTo(payTo, encoding).Ok?
    ensures (EncodingOf(NormalizePayTo(payTo, encoding).value).Evm? <==> encoding.Evm?)
            <==> encoding.Evm? || !EvmShape(Trim(payTo))
  {
    AcceptedAddress(payTo, encoding);
  }

  /** Both verbatim rules accept such a payee. */
  lemma ShapedPayeeAccepted(payTo: string)
    requires EvmShape(payTo)
    ensures NormalizePayTo(payTo, Base58) == Ok(payTo) == NormalizePayTo(payTo, Opaque)
    ensures EncodingOf(payTo) == Evm
  {
    assert payTo[0] == HEX_MARK[0] && payTo[1] == HEX_MARK[1];
    assert IsHexDigit(payTo[41]);
    TrimTight(payTo);
    forall i | 0 <= i < |payTo| ensures IsAlphanumeric(payTo[i]) && payTo[i] as int < 0x80 {
      if i >= 2 { assert IsHexDigit(payTo[i]); }
    }
    ByteLengthAscii(payTo);
  }

  // ---- Hosts -------------------------------------------------------------------------

  lemma PrintInjective(a: nat, b: nat)
    ensures Decimal.Print(a) == Decimal.Print(b) <==> a == b
  {
    if Decimal.Print(a) == Decimal.Print(b) {
      assert Decimal.Value(Decimal.Print(a)) == a;
    }
  }

  /** The hosts a URL parser yields: a colon only inside the brackets of an IPv6
      address. */
  predicate HostShape(host: string)
  {
    host != [] && (':' !in host || host[|host| - 1] == ']')
  }

  function StripDigits(s: string): (r: string)
    ensures r <= s
  {
    if s != [] && Decimal.IsDigit(s[|s| - 1]) then StripDigits(s[..|s| - 1]) else s
  }

  lemma {:induction false} StripDigitsAfter(front: string, digits: string)
    requires front != [] && !Decimal.IsDigit(front[|front| - 1]) && Decimal.AllDigits(digits)
    ensures StripDigits(front + digits) == front
  {
    if digits == [] {
      assert front + digits == front;
    } else {
      var n := |digits| - 1;
      assert (front + digits)[..|front| + n] == front + digits[..n];
      StripDigitsAfter(front, digits[..n]);
    }
  }

  /** The form ends in a colon and digits exactly when there is a port. */
  lemma PortTold(host: string, port: Option<nat>)
    requires HostShape(host)
    ensures var front := StripDigits(HostForm(host, port));
            if port.Some? then front == host + [':'] else front == [] || front[|front| - 1] != ':'
  {
    if port.Some? {
      StripDigitsAfter(host + [':'], Decimal.Print(port.value));
    }
  }

  lemma HostFormUnique(h: string, p: Option<nat>, i: string, q: Option<nat>)
    requires HostShape(h) && HostShape(i)
    ensures HostForm(h, p) == HostForm(i, q) <==> h == i && p == q
  {
    PortTold(h, p);
    PortTold(i, q);
    if HostForm(h, p) == HostForm(i, q) && p.Some? && q.Some? {
      assert (h + [':'])[..|h|] == h && (i + [':'])[..|i|] == i;
      assert HostForm(h, p)[|h| + 1..] == Decimal.Print(p.value) && HostForm(i, q)[|i| + 1..] == Decimal.Print(q.value);
      PrintInjective(p.value, q.value);
    }
  }

  /** A non-default port is another service: accepted resources share a normal
      form exactly when the parser gives them the same host and port. */
  lemma SameHostIff(a: string, b: string, parse: UrlParser)
    requires NormalizeHost(a, parse).Ok? && NormalizeHost(b, parse).Ok?
    requires HostShape(parse(Trim(a)).value.host.value) && HostShape(parse(Trim(b)).value.host.value)
    ensures NormalizeHost(a, parse) == NormalizeHost(b, parse) <==>
            parse(Trim(a)).value.host == parse(Trim(b)).value.host && parse(Trim(a)).value.port == parse(Trim(b)).value.port
  {
    var u, v := parse(Trim(a)).value, parse(Trim(b)).value;
    HostFormUnique(u.host.value, u.port, v.host.value, v.port);
  }

  // ---- What is accepted ----------------------------------------------------------------

  predicate HexCode(c: char) { 48 <= c as int <= 57 || 65 <= c as int <= 70 || 97 <= c as int <= 102 }

  predicate AlnumCode(c: char) { 48 <= c as int <= 57 || 65 <= c as int <= 90 || 97 <= c as int <= 122 }

  ghost predicate HexAddress(s: string)
  {
    |s| == 42 && s[0] == '0' && s[1] == 'x' && forall i :: 2 <= i < 42 ==> HexCode(s[i])
  }

  lemma ShapeIff(s: string)
    ensures EvmShape(s) <==> HexAddress(s)
  {
    if HexAddress(s) { assert s[..2] == HEX_MARK; }
    if EvmShape(s) { MarkSplits(s); }
  }

  lemma ZerosIff(s: string)
    requires |s| == 42
    ensures Only('0', ToLower(s[2..])) <==> forall i :: 2 <= i < 42 ==> s[i] == '0'
  {
    var lowered := ToLower(s[2..]);
    assert forall i :: 2 <= i < 42 ==> lowered[i - 2] == LowerChar(s[i]);
    assert forall j :: 0 <= j < 40 ==> lowered[j] == LowerChar(s[j + 2]);
  }

  /** An EVM payee is accepted exactly if it is 0x and forty hexadecimal digits, not
      all of them zero; the zero address has a reason of its own. */
  lemma HexAccepted(payTo: string)
    ensures NormalizePayTo(payTo, Evm).Ok? <==> HexAddress(Trim(payTo)) && exists i :: 2 <= i < 42 && Trim(payTo)[i] != '0'
    ensures NormalizePayTo(payTo, Evm) == Err(ZeroAddress) <==> HexAddress(Trim(payTo)) && forall i :: 2 <= i < 42 ==> Trim(payTo)[i] == '0'
    ensures NormalizePayTo(payTo, Evm).Ok? || NormalizePayTo(payTo, Evm).error in {MalformedAddress, ZeroAddress}
  {
    ShapeIff(Trim(payTo));
    if EvmShape(Trim(payTo)) { ZerosIff(Trim(payTo)); }
  }

  /** A Solana payee exactly if it is 32 to 44 letters and digits, not all of them 1. */
  lemma Base58Accepted(payTo: string)
    ensures NormalizePayTo(payTo, Base58).Ok? <==> var s := Trim(payTo);
      32 <= |s| <= 44 && (forall i :: 0 <= i < |s| ==> AlnumCode(s[i])) && exists i :: 0 <= i < |s| && s[i] != '1'
    ensures NormalizePayTo(payTo, Base58) == Err(ZeroAddress) <==> var s := Trim(payTo);
      32 <= |s| <= 44 && forall i :: 0 <= i < |s| ==> s[i] == '1'
    ensures NormalizePayTo(payTo, Base58).Ok? || NormalizePayTo(payTo, Base58).error in {MalformedAddress, ZeroAddress}
  {
    var raw := Trim(payTo);
    if Ascii(raw) { ByteLengthAscii(raw); }
  }

  /** Any other payee exactly if it is named at all, in at most 128 bytes. */
  lemma OpaqueAccepted(payTo: string)
    ensures NormalizePayTo(payTo, Opaque).Ok? <==> 1 <= ByteLength(Trim(payTo)) <= 128
    ensures NormalizePayTo(payTo, Opaque).Ok? || NormalizePayTo(payTo, Opaque).error == MalformedAddress
  {
    ByteLengthAtLeast(Trim(payTo));
  }

  /** A resource has a host key exactly if it is a web address with a host. */
  lemma HostAccepted(resource: string, parse: UrlParser)
    ensures NormalizeHost(resource, parse).Ok? <==>
      parse(Trim(resource)).Some? && var url := parse(Trim(resource)).value;
        url.scheme in {"http", "https"} && url.host.Some? && url.host.value != ""
    ensures NormalizeHost(resource, parse) == Err(UnsupportedScheme) <==>
      parse(Trim(resource)).Some? && parse(Trim(resource)).value.scheme !in {"http", "https"}
    ensures NormalizeHost(resource, parse).Ok? || NormalizeHost(resource, parse).error in {MalformedUrl, UnsupportedScheme}
  {
  }

  /** The published word tells the reason. */
  lemma WordsTell(e: IdentityError)
    ensures e.Word() == "malformed_address" <==> e == MalformedAddress
    ensures e.Word() == "zero_address" <==> e == ZeroAddress
    ensures e.Word() == "malformed_url" <==> e == MalformedUrl
    ensures e.Word() == "unsupported_scheme" <==> e == UnsupportedScheme
  {
    assert "malformed_address"[10] == 'a' && "malformed_url"[10] == 'u' && "zero_address"[0] == 'z' && "unsupported_scheme"[0] == 'u';
  }
}
