/** The string operations of Rust's standard library that the modelled code
    relies on. Strings are sequences of characters. */
module Text {
  import opened Common

  /** The characters `str::trim` removes (Unicode White_Space). */
  predicate IsWhitespace(c: char)
  {
    || '\t' <= c <= '\r' || c == ' ' || c == '\U{85}' || c == '\U{A0}' || c == '\U{1680}'
    || '\U{2000}' <= c <= '\U{200A}' || c == '\U{2028}' || c == '\U{2029}' || c == '\U{202F}'
    || c == '\U{205F}' || c == '\U{3000}'
  }

  function TrimStart(s: string): string
  {
    if s != [] && IsWhitespace(s[0]) then TrimStart(s[1..]) else s
  }

  function TrimEnd(s: string): string
  {
    if s != [] && IsWhitespace(s[|s| - 1]) then TrimEnd(s[..|s| - 1]) else s
  }

  function Trim(s: string): string { TrimEnd(TrimStart(s)) }

  /** ASCII lower-casing, one character at a time. */
  function LowerChar(c: char): char
  {
    if 'A' <= c <= 'Z' then c - 'A' + 'a' else c
  }

  function ToLower(s: string): (r: string)
    ensures |r| == |s|
    ensures forall i :: 0 <= i < |s| ==> r[i] == LowerChar(s[i])
  {
    seq(|s|, i requires 0 <= i < |s| => LowerChar(s[i]))
  }

  /** `s.contains(p)`. */
  predicate Contains(s: string, p: string)
  {
    exists i :: 0 <= i <= |s| && p <= s[i..]
  }

  /** The index of the first `c`, or the length of the string. */
  function IndexOf(s: string, c: char): (i: nat)
    ensures i <= |s| && (i < |s| ==> s[i] == c)
    ensures forall j :: 0 <= j < i ==> s[j] != c
  {
    if s == [] || s[0] == c then 0 else 1 + IndexOf(s[1..], c)
  }

  /** `s.split_once(c)`. */
  function SplitOnce(s: string, c: char): Option<(string, string)>
  {
    var i := IndexOf(s, c);
    if i == |s| then None else Some((s[..i], s[i + 1..]))
  }

  /** `s.split(c)`. */
  function Split(s: string, c: char): seq<string>
  {
    match SplitOnce(s, c)
    case None => [s]
    case Some((first, rest)) => [first] + Split(rest, c)
  }

  lemma SplitOnceJoined(a: string, c: char, b: string)
    requires c !in a
    ensures SplitOnce(a + [c] + b, c) == Some((a, b))
  {
    var s := a + [c] + b;
    assert s[|a|] == c;
    assert forall j :: 0 <= j < |a| ==> s[j] == a[j];
    assert IndexOf(s, c) == |a|;
    assert s[..|a|] == a && s[|a| + 1..] == b;
  }

  /** `eq_ignore_ascii_case`. */
  predicate EqIgnoreCase(a: string, b: string) { ToLower(a) == ToLower(b) }

  lemma ToLowerIdempotent(s: string)
    ensures ToLower(ToLower(s)) == ToLower(s)
  {
  }

  predicate Ascii(s: string) { forall i :: 0 <= i < |s| ==> s[i] as int < 0x80 }

  lemma SameUpToCase(a: string, b: string)
    requires EqIgnoreCase(a, b) && Ascii(b)
    ensures |a| == |b| && Ascii(a)
  {
    assert |ToLower(a)| == |ToLower(b)|;
    forall i | 0 <= i < |a| ensures a[i] as int < 0x80 {
      assert ToLower(a)[i] == ToLower(b)[i];
    }
  }

  lemma SplitWhole(s: string, c: char)
    requires c !in s
    ensures Split(s, c) == [s]
  {
  }

  lemma SplitFirst(a: string, c: char, b: string)
    requires c !in a
    ensures Split(a + [c] + b, c) == [a] + Split(b, c)
  {
    SplitOnceJoined(a, c, b);
  }

  /** Neither end is whitespace. */
  predicate Tight(s: string)
  {
    s == [] || (!IsWhitespace(s[0]) && !IsWhitespace(s[|s| - 1]))
  }

  lemma TrimTight(s: string)
    requires Tight(s)
    ensures Trim(s) == s
  {
  }

  lemma {:induction false} TrimEndTight(s: string)
    requires s == [] || !IsWhitespace(s[0])
    ensures Tight(TrimEnd(s))
  {
    if s != [] && IsWhitespace(s[|s| - 1]) { TrimEndTight(s[..|s| - 1]); }
  }

  lemma {:induction false} TrimStartStops(s: string)
    ensures TrimStart(s) == [] || !IsWhitespace(TrimStart(s)[0])
  {
    if s != [] && IsWhitespace(s[0]) { TrimStartStops(s[1..]); }
  }

  /** Trimming leaves nothing more to trim. */
  lemma TrimIsTight(s: string)
    ensures Tight(Trim(s)) && Trim(Trim(s)) == Trim(s)
  {
    TrimStartStops(s);
    TrimEndTight(TrimStart(s));
    TrimTight(Trim(s));
  }

  // ---- Bytes -----------------------------------------------------------------------

  /** How many bytes UTF-8 takes for one character. */
  function Utf8Width(c: char): nat
  {
    if c as int < 0x80 then 1 else if c as int < 0x800 then 2 else if c as int < 0x1_0000 then 3 else 4
  }

  /** `str::len`. */
  function ByteLength(s: string): nat { SumOf(s, Utf8Width) }

  lemma {:induction false} ByteLengthAscii(s: string)
    requires Ascii(s)
    ensures ByteLength(s) == |s|
  {
    if s != [] { ByteLengthAscii(s[..|s| - 1]); }
  }

  lemma {:induction false} ByteLengthAtLeast(s: string)
    ensures ByteLength(s) >= |s|
  {
    if s != [] { ByteLengthAtLeast(s[..|s| - 1]); }
  }

  lemma ByteLengthFirst(s: string)
    requires s != []
    ensures ByteLength(s) == Utf8Width(s[0]) + ByteLength(s[1..])
  {
    assert s == [s[0]] + s[1..];
    SumConcat([s[0]], s[1..], Utf8Width);
    assert [s[0]][..0] == [];
  }

  /** `str::is_char_boundary`: the first n bytes are whole characters. */
  ghost predicate Boundary(s: string, n: nat)
  {
    exists k :: 0 <= k <= |s| && ByteLength(s[..k]) == n
  }

  /** How many characters `&s[..n]` has; None where that slice panics. */
  function CutAt(s: string, n: nat): (k: Option<nat>)
    ensures k.Some? ==> k.value <= |s|
  {
    if n == 0 then Some(0)
    else if s == [] || Utf8Width(s[0]) > n then None
    else
      match CutAt(s[1..], n - Utf8Width(s[0]))
      case None => None
      case Some(k) => Some(k + 1)
  }

  /** Slicing finds the boundary if there is one, and panics if there is none. */
  lemma {:induction false} CutAtIff(s: string, n: nat)
    ensures CutAt(s, n).Some? <==> Boundary(s, n)
    ensures CutAt(s, n).Some? ==> ByteLength(s[..CutAt(s, n).value]) == n
  {
    if n == 0 {
      assert s[..0] == [];
    } else if s != [] {
      var w := Utf8Width(s[0]);
      if w <= n { CutAtIff(s[1..], n - w); }
      forall k | 0 < k <= |s| ensures ByteLength(s[..k]) == w + ByteLength(s[1..][..k - 1]) {
        ByteLengthFirst(s[..k]);
        assert s[..k][1..] == s[1..][..k - 1];
      }
      if k :| 0 <= k <= |s| && ByteLength(s[..k]) == n {
        assert k > 0 && ByteLength(s[1..][..k - 1]) == n - w;
        assert Boundary(s[1..], n - w);
      }
      if CutAt(s, n).Some? {
        var k := CutAt(s, n).value;
        assert k > 0 && ByteLength(s[1..][..k - 1]) == n - w;
        assert ByteLength(s[..k]) == n;
      }
    } else {
      assert forall k :: 0 <= k <= |s| ==> s[..k] == [];
    }
  }

  lemma {:induction false} CutAtAscii(s: string, n: nat)
    requires n <= |s| && Ascii(s[..n])
    ensures CutAt(s, n) == Some(n)
  {
    if n > 0 {
      assert s[..n][0] == s[0] && s[..n][1..] == s[1..][..n - 1];
      CutAtAscii(s[1..], n - 1);
    }
  }

  /** Only white space trims to nothing. */
  lemma {:induction false} BlankIff(s: string)
    ensures Trim(s) == [] <==> forall i :: 0 <= i < |s| ==> IsWhitespace(s[i])
  {
    TrimStartStops(s);
    if s != [] && IsWhitespace(s[0]) {
      BlankIff(s[1..]);
      assert forall i :: 0 < i < |s| ==> s[i] == s[1..][i - 1];
    } else if s != [] {
      EndKept(s);
    }
  }

  lemma {:induction false} EndKept(s: string)
    requires s != [] && !IsWhitespace(s[0])
    ensures TrimEnd(s) != []
  {
    if IsWhitespace(s[|s| - 1]) { EndKept(s[..|s| - 1]); }
  }
}
