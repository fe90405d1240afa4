/** From a raw tokenURI to a fetch plan (crates/probe/src/resolve.rs). Nothing
    here touches the network. */
module Uris {
  import opened Common
  import Text

  type Byte = x: nat | x < 256
  type Bytes = seq<Byte>

  datatype Url = Url(scheme: string, host: string, path: string, query: Option<string>)

  /** What a gzip decoder yields: its bytes, until the stream ends, intact or not. */
  datatype Inflation = Inflation(bytes: Bytes, intact: bool)

  /** The libraries this code calls: URL parsing, UTF-8, lower-casing, base64 and gzip. */
  datatype Lib = Lib(
    parseUrl: string -> Option<Url>, utf8: string -> Bytes, lower: string -> string,
    base64: string -> Option<Bytes>, base64NoPad: string -> Option<Bytes>, inflate: Bytes -> Inflation)

  /** A URL always has a scheme. */
  ghost predicate Lawful(lib: Lib)
  {
    forall s :: lib.parseUrl(s).Some? ==> lib.parseUrl(s).value.scheme != ""
  }

  datatype Variant = Compressed(algorithm: string) | Base64 | Plain | Base64ClaimedButRawJson | PlainJsonWithoutUriScheme

  datatype Target =
    | Empty
    | Unsupported(scheme: string)
    | UnsupportedCompression(algorithm: string)
    | Inline(bytes: Bytes, decode: Variant)
    | Http(url: Url)
    | Panicked

  predicate LooksLikeJson(s: string) { s != [] && (s[0] == '{' || s[0] == '[') }

  function Resolve(lib: Lib, uri: string): Target
  {
    var trimmed := Text.Trim(uri);
    if trimmed == [] then Empty
    else if "data:" <= trimmed then
      match DecodeDataUri(lib, trimmed[5..])
      case Decoded(bytes, decode) => Inline(bytes, decode)
      case Malformed => Unsupported("data")
      case CannotDecompress(algorithm) => UnsupportedCompression(algorithm)
      case Torn => Panicked
    else
      match lib.parseUrl(trimmed)
      case Some(url) => if url.scheme == "http" || url.scheme == "https" then Http(url) else Unsupported(url.scheme)
      case None =>
        if LooksLikeJson(trimmed) then Inline(lib.utf8(trimmed), PlainJsonWithoutUriScheme)
        else Unsupported(GuessScheme(trimmed))
  }

  predicate SchemeChar(c: char)
  {
    'a' <= c <= 'z' || 'A' <= c <= 'Z' || '0' <= c <= '9' || c == '+' || c == '-' || c == '.'
  }

  function GuessScheme(s: string): (r: string)
    ensures r != ""
  {
    match Text.SplitOnce(s, ':')
    case Some((scheme, _)) =>
      if scheme != [] && (forall i :: 0 <= i < |scheme| ==> SchemeChar(scheme[i])) then scheme else "unknown"
    case None => "unknown"
  }

  function TrimSlashes(s: string): string
  {
    if s != [] && s[0] == '/' then TrimSlashes(s[1..]) else s
  }

  /** The `<cid>[/path]` an ipfs:// URI names. */
  function IpfsCidAndPath(uri: string): Option<string>
  {
    var trimmed := Text.Trim(uri);
    if "ipfs://" <= trimmed && TrimSlashes(trimmed[7..]) != [] then Some(TrimSlashes(trimmed[7..])) else None
  }

  // ---- data: URIs -------------------------------------------------------------------

  /** Torn: the program panics, because it slices a string inside a character. */
  datatype DataUri = Decoded(bytes: Bytes, decode: Variant) | Malformed | CannotDecompress(algorithm: string) | Torn

  datatype Encoding = Undeclared | Declared(algorithm: string) | Straddled

  /** The search for the first `enc=` segment. It compares the first four bytes. */
  function FindEncoding(lib: Lib, segments: seq<string>): Encoding
  {
    if segments == [] then Undeclared else
      var seg := Text.Trim(segments[0]);
      if Text.ByteLength(seg) <= 4 then FindEncoding(lib, segments[1..]) else
        match Text.CutAt(seg, 4)
        case None => Straddled
        case Some(k) =>
          if Text.EqIgnoreCase(seg[..k], "enc=") then Declared(lib.lower(seg[k..]))
          else FindEncoding(lib, segments[1..])
  }

  const MAX_GUNZIP_READ_BYTES: nat := 0x80_0000

  /** The decoder's first eight MiB; what comes after is not looked at, not even
      to see whether the stream is intact. */
  function Gunzip(lib: Lib, wire: Bytes): Option<Bytes>
  {
    var inflated := lib.inflate(wire);
    if |inflated.bytes| >= MAX_GUNZIP_READ_BYTES then Some(inflated.bytes[..MAX_GUNZIP_READ_BYTES])
    else if inflated.intact then Some(inflated.bytes)
    else None
  }

  predicate ClaimsBase64(meta: string)
  {
    exists seg :: seg in Text.Split(meta, ';') && Text.EqIgnoreCase(seg, "base64")
  }

  /** Base64, padded or not. */
  function Raw(lib: Lib, payload: string): Option<Bytes>
  {
    if lib.base64(payload).Some? then lib.base64(payload) else lib.base64NoPad(payload)
  }

  function DecodeDataUri(lib: Lib, rest: string): DataUri
  {
    match Text.SplitOnce(rest, ',')
    case None => Malformed
    case Some((meta, payload)) =>
      if !ClaimsBase64(meta) then
        Decoded(Unescaped(lib.utf8(payload)), Plain)
      else if LooksLikeJson(Text.TrimStart(payload)) then
        Decoded(lib.utf8(payload), Base64ClaimedButRawJson)
      else
        var raw := Raw(lib, payload);
        if raw.None? then Malformed else
          match FindEncoding(lib, Text.Split(meta, ';'))
          case Straddled => Torn
          case Undeclared => Decoded(raw.value, Base64)
          case Declared(algorithm) =>
            if algorithm != "gzip" then CannotDecompress(algorithm)
            else if Gunzip(lib, raw.value).None? then Malformed
            else Decoded(Gunzip(lib, raw.value).value, Compressed(algorithm))
  }

  // ---- Percent-decoding ---------------------------------------------------------------

  const PERCENT: Byte := 0x25
  const PLUS: Byte := 0x2B

  function HexDigit(b: Byte): Option<Byte>
  {
    if 0x30 <= b <= 0x39 then Some(b - 0x30)
    else if 0x41 <= b <= 0x46 then Some(b - 0x37)
    else if 0x61 <= b <= 0x66 then Some(b - 0x57)
    else None
  }

  /** `u8::from_str_radix` on two characters. It accepts a leading plus sign. */
  function RadixPair(a: Byte, b: Byte): Option<Byte>
  {
    if HexDigit(b).None? then None
    else if a == PLUS then HexDigit(b)
    else if HexDigit(a).Some? then Some(16 * HexDigit(a).value + HexDigit(b).value)
    else None
  }

  /** What the decoder makes of a byte string. */
  function Unescaped(s: Bytes): Bytes
  {
    if s == [] then []
    else if s[0] == PERCENT && |s| >= 3 && RadixPair(s[1], s[2]).Some? then [RadixPair(s[1], s[2]).value] + Unescaped(s[3..])
    else [s[0]] + Unescaped(s[1..])
  }

  /** Sixteen digits, the last six in either case. */
  lemma HexDigitIff(b: Byte, v: Byte)
    ensures HexDigit(b) == Some(v) <==> (v <= 9 && b == 48 + v) || (10 <= v <= 15 && (b == 65 + v - 10 || b == 97 + v - 10))
  {
  }

  /** Is there an escape at i that the decoder consumes? */
  predicate EscapeAt(s: Bytes, i: nat)
  {
    i + 3 <= |s| && s[i] == PERCENT && RadixPair(s[i + 1], s[i + 2]).Some?
  }

  lemma UnescapedStep(s: Bytes, i: nat, out: Bytes)
    requires i < |s|
    ensures out + Unescaped(s[i..]) ==
      if EscapeAt(s, i) then out + [RadixPair(s[i + 1], s[i + 2]).value] + Unescaped(s[i + 3..])
      else out + [s[i]] + Unescaped(s[i + 1..])
  {
    var rest := s[i..];
    assert rest[1..] == s[i + 1..];
    if EscapeAt(s, i) { assert rest[3..] == s[i + 3..]; }
  }

  method PercentDecode(s: Bytes) returns (out: Bytes)
    ensures out == Unescaped(s)
  {
    out := [];
    var i := 0;
    while i < |s|
      invariant 0 <= i <= |s| && out + Unescaped(s[i..]) == Unescaped(s)
    {
      UnescapedStep(s, i, out);
      if EscapeAt(s, i) {
        out := out + [RadixPair(s[i + 1], s[i + 2]).value];
        i := i + 3;
      } else {
        out := out + [s[i]];
        i := i + 1;
      }
    }
  }

  /** s stands for the bytes: each is written literally or as a two-digit hex
      escape, and a percent sign only as an escape. */
  ghost predicate Stands(s: Bytes, bytes: Bytes)
    decreases |bytes|
  {
    if bytes == [] then s == [] else
      || (s != [] && s[0] == bytes[0] && s[0] != PERCENT && Stands(s[1..], bytes[1..]))
      || (|s| >= 3 && s[0] == PERCENT && HexDigit(s[1]).Some? && HexDigit(s[2]).Some?
          && bytes[0] == 16 * HexDigit(s[1]).value + HexDigit(s[2]).value && Stands(s[3..], bytes[1..]))
  }

  /** Round trip: whatever was properly percent-encoded is recovered. */
  lemma {:induction false} EncodingRecovered(s: Bytes, bytes: Bytes)
    requires Stands(s, bytes)
    ensures Unescaped(s) == bytes
    decreases |bytes|
  {
    if bytes != [] {
      if s[0] != PERCENT {
        EncodingRecovered(s[1..], bytes[1..]);
      } else {
        EncodingRecovered(s[3..], bytes[1..]);
      }
      assert bytes == [bytes[0]] + bytes[1..];
    }
  }

  /** The decoder as documented: anything but two hex digits passes through. */
  function Documented(s: Bytes): Bytes
  {
    if s == [] then []
    else if s[0] == PERCENT && |s| >= 3 && HexDigit(s[1]).Some? && HexDigit(s[2]).Some? then
      [16 * HexDigit(s[1]).value + HexDigit(s[2]).value] + Documented(s[3..])
    else [s[0]] + Documented(s[1..])
  }

  /** A percent sign, a plus sign and a hex digit. */
  predicate SignedAt(s: Bytes, i: nat)
  {
    i + 2 < |s| && s[i] == PERCENT && s[i + 1] == PLUS && HexDigit(s[i + 2]).Some?
  }

  /** The code does what its comment says exactly on inputs without a signed
      escape: `%+5` is decoded to the byte 5, not passed through. */
  lemma {:induction false} DocumentedIff(s: Bytes)
    ensures Unescaped(s) == Documented(s) <==> !exists i: nat :: SignedAt(s, i)
    decreases |s|
  {
    if s != [] {
      if SignedAt(s, 0) {
        assert Unescaped(s)[0] < 16 && Documented(s)[0] == PERCENT;
      } else if s[0] == PERCENT && |s| >= 3 && RadixPair(s[1], s[2]).Some? {
        DocumentedIff(s[3..]);
        SignedShift(s, 3);
        SameHead(Unescaped(s)[0], Unescaped(s[3..]), Documented(s[3..]));
      } else {
        DocumentedIff(s[1..]);
        SignedShift(s, 1);
        SameHead(s[0], Unescaped(s[1..]), Documented(s[1..]));
      }
    }
  }

  lemma SignedShift(s: Bytes, n: nat)
    requires n <= |s| && forall i: nat :: i < n ==> !SignedAt(s, i)
    ensures (exists i: nat :: SignedAt(s, i)) <==> exists i: nat :: SignedAt(s[n..], i)
  {
    if i: nat :| SignedAt(s, i) { assert SignedAt(s[n..], i - n); }
    if i: nat :| SignedAt(s[n..], i) { assert SignedAt(s, n + i); }
  }

  lemma SignedEscapeDecoded()
    ensures Unescaped([0x25, 0x2B, 0x35]) == [5] && Documented([0x25, 0x2B, 0x35]) == [0x25, 0x2B, 0x35]
  {
    assert Unescaped([]) == [];
    assert [PERCENT, PLUS, 0x35][1..] == [PLUS, 0x35];
    assert [PLUS, 0x35][1..] == [0x35];
    assert Documented([0x35]) == [0x35] + Documented([]);
  }

  // ---- What a URI stands for -----------------------------------------------------------

  function Slashes(n: nat): string { seq(n, _ => '/') }

  lemma SlashFirst(n: nat, cid: string)
    requires cid != []
    ensures (Slashes(n) + cid)[0] == if n == 0 then cid[0] else '/'
    ensures (Slashes(n) + cid)[1..] == if n == 0 then cid[1..] else Slashes(n - 1) + cid
  {
  }

  lemma {:induction false} SlashesTrimmed(n: nat, cid: string)
    requires cid != [] && cid[0] != '/'
    ensures TrimSlashes(Slashes(n) + cid) == cid
  {
    SlashFirst(n, cid);
    if n > 0 { SlashesTrimmed(n - 1, cid); } else { assert Slashes(0) + cid == cid; }
  }

  /** What is trimmed off is slashes, all of them. */
  lemma {:induction false} TrimmedAreSlashes(s: string) returns (n: nat)
    ensures s == Slashes(n) + TrimSlashes(s)
    ensures TrimSlashes(s) == [] || TrimSlashes(s)[0] != '/'
  {
    n := 0;
    if s != [] && s[0] == '/' {
      var m := TrimmedAreSlashes(s[1..]);
      n := m + 1;
      assert s == ['/'] + s[1..];
    }
  }

  ghost predicate NamesPath(uri: string, cid: string)
  {
    cid != [] && cid[0] != '/' && "ipfs://" <= Text.Trim(uri) && exists n: nat :: Text.Trim(uri)[7..] == Slashes(n) + cid
  }

  /** An ipfs URI names a content path exactly when, spaces aside, it is the
      scheme, any number of slashes, and that path. */
  lemma IpfsNamesIff(uri: string, cid: string)
    ensures IpfsCidAndPath(uri) == Some(cid) <==> NamesPath(uri, cid)
  {
    var t := Text.Trim(uri);
    if "ipfs://" <= t {
      var m := TrimmedAreSlashes(t[7..]);
      if cid != [] && cid[0] != '/' {
        if n: nat :| t[7..] == Slashes(n) + cid { SlashesTrimmed(n, cid); }
      }
    }
  }

  const DATA: string := "data:"

  lemma DataUriRead(lib: Lib, meta: string, payload: string)
    requires ',' !in meta && Text.Tight(DATA + (meta + [','] + payload))
    ensures Resolve(lib, DATA + (meta + [','] + payload)) ==
            match DecodeDataUri(lib, meta + [','] + payload)
            case Decoded(bytes, decode) => Inline(bytes, decode)
            case Malformed => Unsupported("data")
            case CannotDecompress(algorithm) => UnsupportedCompression(algorithm)
            case Torn => Panicked
    ensures Text.SplitOnce(meta + [','] + payload, ',') == Some((meta, payload))
  {
    var rest := meta + [','] + payload;
    var uri := DATA + rest;
    Text.TrimTight(uri);
    assert uri[..5] == DATA && uri[5..] == rest;
    Text.SplitOnceJoined(meta, ',', payload);
  }

  // ---- Metadata that the program does not survive ----------------------------------------

  predicate Declares(segment: string)
  {
    var seg := Text.Trim(segment);
    |seg| > 4 && Text.EqIgnoreCase(seg[..4], "enc=")
  }

  /** What the first segment that declares an encoding says. */
  function FirstDeclared(lib: Lib, segments: seq<string>): Option<string>
  {
    if segments == [] then None
    else if Declares(segments[0]) then Some(lib.lower(Text.Trim(segments[0])[4..]))
    else FirstDeclared(lib, segments[1..])
  }

  /** Longer than four bytes, and the fourth ends inside a character. */
  ghost predicate Straddles(segment: string)
  {
    var seg := Text.Trim(segment);
    Text.ByteLength(seg) > 4 && !Text.Boundary(seg, 4)
  }

  /** No segment straddles, except after one that declares an encoding. */
  ghost predicate Survives(segments: seq<string>)
  {
    forall i :: 0 <= i < |segments| && Straddles(segments[i]) ==> exists j :: 0 <= j < i && Declares(segments[j])
  }

  lemma EncAscii(mark: string)
    requires Text.EqIgnoreCase(mark, "enc=")
    ensures |mark| == 4 && Text.Ascii(mark)
  {
    Text.SameUpToCase(mark, "enc=");
  }

  lemma EncMark(s: string)
    requires |s| >= 4 && Text.EqIgnoreCase(s[..4], "enc=")
    ensures Text.CutAt(s, 4) == Some(4) && Text.ByteLength(s[..4]) == 4
  {
    EncAscii(s[..4]);
    Text.ByteLengthAscii(s[..4]);
    Text.CutAtAscii(s, 4);
  }

  /** One segment, read by bytes and by characters. */
  lemma SegmentRead(segment: string)
    ensures var seg := Text.Trim(segment);
      && (Straddles(segment) <==> Text.ByteLength(seg) > 4 && Text.CutAt(seg, 4).None?)
      && (Declares(segment) <==> Text.ByteLength(seg) > 4 && Text.CutAt(seg, 4).Some?
                                 && Text.EqIgnoreCase(seg[..Text.CutAt(seg, 4).value], "enc="))
      && (Declares(segment) ==> Text.CutAt(seg, 4) == Some(4))
  {
    var seg := Text.Trim(segment);
    Text.CutAtIff(seg, 4);
    Text.ByteLengthAtLeast(seg);
    if Declares(segment) { EncMark(seg); }
    if Text.ByteLength(seg) > 4 && Text.CutAt(seg, 4).Some? {
      var k := Text.CutAt(seg, 4).value;
      assert |Text.ToLower(seg[..k])| == k;
      assert k == |seg| ==> seg[..k] == seg;
    }
  }

  /** The search by bytes is the search by characters on the metadata it survives,
      and panics on all others. */
  lemma {:induction false} FindEncodingIs(lib: Lib, segments: seq<string>)
    ensures FindEncoding(lib, segments) ==
            if !Survives(segments) then Straddled
            else if FirstDeclared(lib, segments).Some? then Declared(FirstDeclared(lib, segments).value)
            else Undeclared
  {
    if segments != [] {
      SegmentRead(segments[0]);
      FindEncodingIs(lib, segments[1..]);
      SurvivesFirst(segments);
    }
  }

  lemma SurvivesRest(segments: seq<string>)
    requires segments != [] && Survives(segments) && !Declares(segments[0])
    ensures Survives(segments[1..])
  {
    var rest := segments[1..];
    forall i | 0 <= i < |rest| && Straddles(rest[i]) ensures exists j :: 0 <= j < i && Declares(rest[j]) {
      assert rest[i] == segments[i + 1];
      var j :| 0 <= j < i + 1 && Declares(segments[j]);
      assert rest[j - 1] == segments[j];
    }
  }

  lemma SurvivesMore(segments: seq<string>)
    requires segments != [] && Survives(segments[1..]) && !Straddles(segments[0])
    ensures Survives(segments)
  {
    var rest := segments[1..];
    forall i | 0 <= i < |segments| && Straddles(segments[i]) ensures exists j :: 0 <= j < i && Declares(segments[j]) {
      assert rest[i - 1] == segments[i];
      var j :| 0 <= j < i - 1 && Declares(rest[j]);
      assert segments[j + 1] == rest[j];
    }
  }

  lemma SurvivesFirst(segments: seq<string>)
    requires segments != []
    ensures Survives(segments) <==> !Straddles(segments[0]) && (Declares(segments[0]) || Survives(segments[1..]))
  {
    SegmentRead(segments[0]);
    if Survives(segments) && !Declares(segments[0]) { SurvivesRest(segments); }
    if Survives(segments[1..]) && !Straddles(segments[0]) { SurvivesMore(segments); }
  }

  /** The payload is read as base64, and the search for an encoding does not survive
      the metadata. */
  ghost predicate Tears(lib: Lib, meta: string, payload: string)
  {
    && ClaimsBase64(meta) && !LooksLikeJson(Text.TrimStart(payload)) && Raw(lib, payload).Some?
    && !Survives(Text.Split(meta, ';'))
  }

  lemma TearsIff(lib: Lib, meta: string, payload: string)
    requires ',' !in meta
    ensures DecodeDataUri(lib, meta + [','] + payload).Torn? <==> Tears(lib, meta, payload)
  {
    Text.SplitOnceJoined(meta, ',', payload);
    FindEncodingIs(lib, Text.Split(meta, ';'));
  }

  /** A data URI that breaks the program. */
  ghost predicate Breaks(lib: Lib, uri: string)
  {
    exists meta, payload ::
      Text.Trim(uri) == DATA + (meta + [','] + payload) && ',' !in meta && Tears(lib, meta, payload)
  }

  lemma TornBreaks(lib: Lib, uri: string)
    requires Resolve(lib, uri).Panicked?
    ensures Breaks(lib, uri)
  {
    var trimmed := Text.Trim(uri);
    var rest := trimmed[5..];
    var (meta, payload) := Text.SplitOnce(rest, ',').value;
    assert trimmed == DATA + rest && rest == meta + [','] + payload;
    TearsIff(lib, meta, payload);
  }

  lemma BreaksTorn(lib: Lib, uri: string, meta: string, payload: string)
    requires Text.Trim(uri) == DATA + (meta + [','] + payload) && ',' !in meta && Tears(lib, meta, payload)
    ensures Resolve(lib, uri).Panicked? && IpfsCidAndPath(uri) == None
  {
    DataResolved(lib, uri, meta, payload);
    TearsIff(lib, meta, payload);
  }

  /** Exactly these URIs have no outcome. */
  lemma BreaksIff(lib: Lib, uri: string)
    ensures Resolve(lib, uri).Panicked? <==> Breaks(lib, uri)
    ensures Breaks(lib, uri) ==> IpfsCidAndPath(uri) == None
  {
    if Resolve(lib, uri).Panicked? { TornBreaks(lib, uri); }
    if meta, payload :| Text.Trim(uri) == DATA + (meta + [','] + payload) && ',' !in meta && Tears(lib, meta, payload) {
      BreaksTorn(lib, uri, meta, payload);
    }
  }

  const TORN: string := "a\U{E9}\U{E9}"

  /** The first is one byte, the others are two each: no boundary after four. */
  lemma TornStraddles()
    ensures Straddles(TORN)
  {
    Text.TrimTight(TORN);
    SegmentRead(TORN);
    assert TORN[1..][1..] == "\U{E9}";
    assert Text.CutAt("\U{E9}", 1).None?;
    assert Text.CutAt(TORN[1..], 3).None?;
    Text.ByteLengthFirst(TORN);
    Text.ByteLengthFirst(TORN[1..]);
    Text.ByteLengthFirst("\U{E9}");
  }

  const TORN_META: string := "" + [';'] + ("base64" + [';'] + TORN)

  lemma TornSegments()
    ensures Text.Split(TORN_META, ';') == ["", "base64", TORN]
  {
    Text.SplitFirst("", ';', "base64" + [';'] + TORN);
    Text.SplitFirst("base64", ';', TORN);
    Text.SplitWhole(TORN, ';');
  }

  lemma OthersDeclareNothing()
    ensures !Declares("") && !Declares("base64")
  {
    Text.TrimTight("base64");
    assert Text.ToLower("base64"[..4])[0] == 'b';
  }

  lemma TornMetadata()
    ensures ClaimsBase64(TORN_META) && !Survives(Text.Split(TORN_META, ';'))
  {
    TornSegments();
    TornStraddles();
    OthersDeclareNothing();
    var segments := Text.Split(TORN_META, ';');
    assert segments[1] in segments && Straddles(segments[2]);
  }

  lemma TornUri(uri: string)
    requires uri == "data:;base64;a\U{E9}\U{E9},e30="
    ensures Text.Trim(uri) == DATA + (TORN_META + [','] + "e30=") && ',' !in TORN_META
  {
    Text.TrimTight(uri);
    assert TORN_META == ";base64;a\U{E9}\U{E9}";
  }

  /** A URI that breaks it: the last segment of the metadata is five bytes, the
      fourth and the fifth of which are one character. */
  lemma CharacterTorn(lib: Lib)
    requires Raw(lib, "e30=").Some?
    ensures Breaks(lib, "data:;base64;a\U{E9}\U{E9},e30=")
  {
    TornUri("data:;base64;a\U{E9}\U{E9},e30=");
    TornMetadata();
    assert !LooksLikeJson(Text.TrimStart("e30="));
  }

  /** Round trip: a document percent-encoded into a data URI is recovered. */
  lemma PlainRoundTrip(lib: Lib, meta: string, payload: string, document: Bytes)
    requires ',' !in meta && !ClaimsBase64(meta) && Text.Tight(DATA + (meta + [','] + payload))
    requires Stands(lib.utf8(payload), document)
    ensures Resolve(lib, DATA + (meta + [','] + payload)) == Inline(document, Plain)
  {
    DataUriRead(lib, meta, payload);
    EncodingRecovered(lib.utf8(payload), document);
  }

  predicate Base64Char(c: char)
  {
    'a' <= c <= 'z' || 'A' <= c <= 'Z' || '0' <= c <= '9' || c == '+' || c == '/' || c == '='
  }

  /** An encoder that the library's decoder, padded or not, undoes. */
  ghost predicate Encoder(lib: Lib, encode: Bytes -> string)
  {
    forall b ::
      && (forall i :: 0 <= i < |encode(b)| ==> Base64Char(encode(b)[i]))
      && (lib.base64(encode(b)) == Some(b) || (lib.base64(encode(b)) == None && lib.base64NoPad(encode(b)) == Some(b)))
  }

  ghost predicate Compressor(lib: Lib, compress: Bytes -> Bytes)
  {
    forall b :: lib.inflate(compress(b)) == Inflation(b, true)
  }

  /** Base64 text is neither trimmed nor taken for JSON. */
  lemma Base64Text(meta: string, payload: string)
    requires forall i :: 0 <= i < |payload| ==> Base64Char(payload[i])
    ensures Text.Tight(DATA + (meta + [','] + payload)) && !LooksLikeJson(Text.TrimStart(payload))
  {
    var uri := DATA + (meta + [','] + payload);
    assert uri[0] == 'd';
    assert uri[|uri| - 1] == if payload == [] then ',' else payload[|payload| - 1];
  }

  /** The part of a document that gunzip gives back. */
  function Readable(document: Bytes): (r: Bytes)
    ensures r <= document
    ensures r == document <==> |document| <= MAX_GUNZIP_READ_BYTES
  {
    document[..Min(|document|, MAX_GUNZIP_READ_BYTES)]
  }

  lemma GunzipUndoes(lib: Lib, compress: Bytes -> Bytes, document: Bytes)
    requires Compressor(lib, compress)
    ensures Gunzip(lib, compress(document)) == Some(Readable(document))
  {
    assert |document| == MAX_GUNZIP_READ_BYTES ==> document[..MAX_GUNZIP_READ_BYTES] == document;
    assert document[..|document|] == document;
  }

  /** Round trip, on the metadata the program survives and on no other: whatever
      document is encoded in base64 is recovered. Where the metadata say it was
      compressed with gzip as well, its first eight MiB are: the whole of it if and
      only if it is no longer than that. */
  lemma EncodedRoundTrip(lib: Lib, meta: string, encode: Bytes -> string, compress: Bytes -> Bytes, document: Bytes)
    requires ',' !in meta && ClaimsBase64(meta) && Encoder(lib, encode)
    ensures Resolve(lib, DATA + (meta + [','] + encode(document))).Panicked? <==> !Survives(Text.Split(meta, ';'))
    ensures Survives(Text.Split(meta, ';')) && FirstDeclared(lib, Text.Split(meta, ';')) == None ==>
              Resolve(lib, DATA + (meta + [','] + encode(document))) == Inline(document, Base64)
    ensures Survives(Text.Split(meta, ';')) && FirstDeclared(lib, Text.Split(meta, ';')) == Some("gzip") && Compressor(lib, compress) ==>
              var target := Resolve(lib, DATA + (meta + [','] + encode(compress(document))));
              && target == Inline(Readable(document), Compressed("gzip"))
              && (target.bytes == document <==> |document| <= MAX_GUNZIP_READ_BYTES)
  {
    FindEncodingIs(lib, Text.Split(meta, ';'));
    Base64Text(meta, encode(document));
    DataUriRead(lib, meta, encode(document));
    Base64Text(meta, encode(compress(document)));
    DataUriRead(lib, meta, encode(compress(document)));
    if Compressor(lib, compress) { GunzipUndoes(lib, compress, document); }
  }

  // ---- What each URI is, read off its text ---------------------------------------------------

  predicate Opens(s: string) { "{" <= s || "[" <= s }

  ghost predicate SaysBase64(meta: string)
  {
    exists segment :: segment in Text.Split(meta, ';') && Text.ToLower(segment) == "base64"
  }

  /** A data URI, taken apart at its first comma. */
  ghost predicate DataParts(uri: string, meta: string, payload: string)
  {
    Text.Trim(uri) == DATA + (meta + [','] + payload) && ',' !in meta
  }

  /** Neither a data URI nor one that names an ipfs path. */
  predicate Elsewhere(uri: string)
  {
    !("data:" <= Text.Trim(uri)) && IpfsCidAndPath(uri) == None
  }

  /** Something to ask for over HTTP. */
  ghost predicate Fetchable(lib: Lib, uri: string, url: Url)
  {
    Elsewhere(uri) && Text.Trim(uri) != [] && lib.parseUrl(Text.Trim(uri)) == Some(url) && url.scheme in {"http", "https"}
  }

  /** The first 8,388,608 bytes of what the gzip decoder yields; of a shorter stream
      only if it is intact. */
  predicate Unzips(lib: Lib, raw: Bytes, document: Bytes)
  {
    var yielded := lib.inflate(raw).bytes;
    if |yielded| < 8_388_608 then lib.inflate(raw).intact && document == yielded else document == yielded[..8_388_608]
  }

  /** What a data URI with these parts carries: text, JSON where base64 was claimed,
      or base64, gzipped or not. */
  ghost predicate PartsCarry(lib: Lib, meta: string, payload: string, document: Bytes)
  {
    var segments := Text.Split(meta, ';');
    if !SaysBase64(meta) then document == Unescaped(lib.utf8(payload))
    else if Opens(Text.TrimStart(payload)) then document == lib.utf8(payload)
    else Survives(segments) && exists raw :: Holds(lib, payload, raw) && RawCarries(lib, FirstDeclared(lib, segments), raw, document)
  }

  predicate RawCarries(lib: Lib, declared: Option<string>, raw: Bytes, document: Bytes)
  {
    match declared
    case None => document == raw
    case Some(algorithm) => algorithm == "gzip" && Unzips(lib, raw, document)
  }

  /** The payload in base64, padded or else not. */
  predicate Holds(lib: Lib, payload: string, raw: Bytes)
  {
    lib.base64(payload) == Some(raw) || (lib.base64(payload) == None && lib.base64NoPad(payload) == Some(raw))
  }

  /** The document is there, in an encoding this census does not decode. */
  ghost predicate PartsUndecoded(lib: Lib, meta: string, payload: string, algorithm: string)
  {
    && SaysBase64(meta) && !Opens(Text.TrimStart(payload)) && (exists raw :: Holds(lib, payload, raw))
    && Survives(Text.Split(meta, ';')) && FirstDeclared(lib, Text.Split(meta, ';')) == Some(algorithm) && algorithm != "gzip"
  }

  /** The URI carries its document: in a data URI, or as JSON without any scheme. */
  ghost predicate Carries(lib: Lib, uri: string, document: Bytes)
  {
    || (exists meta, payload :: DataParts(uri, meta, payload) && PartsCarry(lib, meta, payload, document))
    || (Elsewhere(uri) && lib.parseUrl(Text.Trim(uri)) == None && Opens(Text.Trim(uri)) && document == lib.utf8(Text.Trim(uri)))
  }

  ghost predicate Undecoded(lib: Lib, uri: string, algorithm: string)
  {
    exists meta, payload :: DataParts(uri, meta, payload) && PartsUndecoded(lib, meta, payload, algorithm)
  }

  lemma SaysBase64Iff(meta: string)
    ensures SaysBase64(meta) <==> ClaimsBase64(meta)
  {
    assert Text.ToLower("base64") == "base64";
  }

  lemma DataResolved(lib: Lib, uri: string, meta: string, payload: string)
    requires DataParts(uri, meta, payload)
    ensures Resolve(lib, uri) ==
            match DecodeDataUri(lib, meta + [','] + payload)
            case Decoded(bytes, decode) => Inline(bytes, decode)
            case Malformed => Unsupported("data")
            case CannotDecompress(algorithm) => UnsupportedCompression(algorithm)
            case Torn => Panicked
    ensures Text.SplitOnce(meta + [','] + payload, ',') == Some((meta, payload))
    ensures IpfsCidAndPath(uri) == None
  {
    var trimmed := Text.Trim(uri);
    assert trimmed[..5] == DATA && trimmed[5..] == meta + [','] + payload && trimmed[0] == 'd';
    Text.SplitOnceJoined(meta, ',', payload);
  }

  /** A data URI is taken apart in one way only. */
  lemma OnePart(uri: string, meta: string, payload: string, m: string, p: string)
    requires DataParts(uri, meta, payload) && DataParts(uri, m, p)
    ensures m == meta && p == payload
  {
    var trimmed := Text.Trim(uri);
    assert trimmed[5..] == meta + [','] + payload && trimmed[5..] == m + [','] + p;
    Text.SplitOnceJoined(meta, ',', payload);
    Text.SplitOnceJoined(m, ',', p);
  }

  lemma HoldsIff(lib: Lib, payload: string, raw: Bytes)
    ensures Holds(lib, payload, raw) <==> Raw(lib, payload) == Some(raw)
  {
  }

  lemma RawRead(lib: Lib, raw: Bytes, document: Bytes)
    ensures Gunzip(lib, raw) == Some(document) <==> Unzips(lib, raw, document)
  {
  }

  lemma PartsCarryIff(lib: Lib, uri: string, meta: string, payload: string, document: Bytes)
    requires DataParts(uri, meta, payload)
    ensures (Resolve(lib, uri).Inline? && Resolve(lib, uri).bytes == document) <==> PartsCarry(lib, meta, payload, document)
    ensures !Resolve(lib, uri).Http?
  {
    DataResolved(lib, uri, meta, payload);
    SaysBase64Iff(meta);
    OpensIff(Text.TrimStart(payload));
    FindEncodingIs(lib, Text.Split(meta, ';'));
    forall raw ensures Holds(lib, payload, raw) <==> Raw(lib, payload) == Some(raw) { HoldsIff(lib, payload, raw); }
    if Raw(lib, payload).Some? { RawRead(lib, Raw(lib, payload).value, document); }
  }

  lemma SomethingHeld(lib: Lib, payload: string)
    ensures (exists raw :: Holds(lib, payload, raw)) <==> Raw(lib, payload).Some?
  {
    if Raw(lib, payload).Some? { HoldsIff(lib, payload, Raw(lib, payload).value); }
  }

  lemma PartsUndecodedIff(lib: Lib, uri: string, meta: string, payload: string, algorithm: string)
    requires DataParts(uri, meta, payload)
    ensures Resolve(lib, uri) == UnsupportedCompression(algorithm) <==> PartsUndecoded(lib, meta, payload, algorithm)
  {
    DataResolved(lib, uri, meta, payload);
    SaysBase64Iff(meta);
    OpensIff(Text.TrimStart(payload));
    FindEncodingIs(lib, Text.Split(meta, ';'));
    SomethingHeld(lib, payload);
  }

  lemma WithoutParts(lib: Lib, uri: string)
    requires forall meta, payload :: !DataParts(uri, meta, payload)
    ensures "data:" <= Text.Trim(uri) ==> Resolve(lib, uri) == Unsupported("data")
  {
    var trimmed := Text.Trim(uri);
    if "data:" <= trimmed && Text.SplitOnce(trimmed[5..], ',').Some? {
      var (meta, payload) := Text.SplitOnce(trimmed[5..], ',').value;
      assert trimmed[5..] == meta + [','] + payload && trimmed == DATA + trimmed[5..];
      assert DataParts(uri, meta, payload);
    }
  }

  /** What a URI that names no ipfs path comes to, read off its text: which URIs are
      asked for over HTTP, which carry their document and what it is, and which are in
      an encoding nobody here decodes. */
  lemma ResolvedIff(lib: Lib, uri: string, url: Url, document: Bytes, algorithm: string)
    requires IpfsCidAndPath(uri) == None
    ensures Resolve(lib, uri) == Target.Http(url) <==> Fetchable(lib, uri, url)
    ensures (Resolve(lib, uri).Inline? && Resolve(lib, uri).bytes == document) <==> Carries(lib, uri, document)
    ensures Resolve(lib, uri) == UnsupportedCompression(algorithm) <==> Undecoded(lib, uri, algorithm)
  {
    if meta, payload :| DataParts(uri, meta, payload) {
      assert Text.Trim(uri)[..5] == DATA;
      PartsCarryIff(lib, uri, meta, payload, document);
      PartsUndecodedIff(lib, uri, meta, payload, algorithm);
      forall m, p | DataParts(uri, m, p) ensures m == meta && p == payload { OnePart(uri, meta, payload, m, p); }
    } else {
      WithoutParts(lib, uri);
      OpensIff(Text.Trim(uri));
    }
  }

  lemma OpensIff(s: string)
    ensures Opens(s) <==> LooksLikeJson(s)
  {
  }

  // ---- The label of what cannot be fetched -----------------------------------------------

  predicate SchemeLike(s: string)
  {
    s != [] && forall i :: 0 <= i < |s| ==>
      65 <= s[i] as int <= 90 || 97 <= s[i] as int <= 122 || 48 <= s[i] as int <= 57 || s[i] in {'+', '-', '.'}
  }

  /** Text that is no URL is filed under what stands before its first colon, if that
      could be a scheme. */
  lemma LabelIff(s: string)
    ensures forall scheme, rest :: s == scheme + [':'] + rest && SchemeLike(scheme) ==> GuessScheme(s) == scheme
    ensures (forall scheme, rest :: s == scheme + [':'] + rest ==> !SchemeLike(scheme)) ==> GuessScheme(s) == "unknown"
  {
    forall scheme, rest | s == scheme + [':'] + rest && SchemeLike(scheme) ensures GuessScheme(s) == scheme {
      assert ':' !in scheme;
      Text.SplitOnceJoined(scheme, ':', rest);
    }
    if Text.SplitOnce(s, ':').Some? {
      var (scheme, rest) := Text.SplitOnce(s, ':').value;
      assert s == scheme + [':'] + rest;
    }
  }
}
