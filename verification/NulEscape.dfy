/** NUL escaping before a database write (crates/sweeper/src/store.rs): in one
    string, and everywhere inside a JSON document. */
module NulEscape {
  import opened Common
  import opened Documents
  import Text

  const NUL: char := '\0'

  /** A backslash, a u and four zeros. */
  const ESCAPE: string := ['\\', 'u', '0', '0', '0', '0']

  /** What one character becomes. */
  function EscapeChar(c: char): string { if c == NUL then ESCAPE else [c] }

  /** `s.replace('\0', ESCAPE)`. */
  function Escape(s: string): string
  {
    if s == [] then [] else EscapeChar(s[0]) + Escape(s[1..])
  }

  /** `s.replace(ESCAPE, "\0")`: left to right, without overlap. */
  function Unescape(s: string): string
  {
    if s == [] then []
    else if ESCAPE <= s then [NUL] + Unescape(s[6..])
    else [s[0]] + Unescape(s[1..])
  }

  function NulCount(s: string): nat
  {
    if s == [] then 0 else (if s[0] == NUL then 1 else 0) + NulCount(s[1..])
  }

  /** Nothing is left to refuse, and each NUL costs five more characters. */
  lemma {:induction false} EscapeLeavesNone(s: string)
    ensures NUL !in Escape(s) && |Escape(s)| == |s| + 5 * NulCount(s)
  {
    if s != [] { EscapeLeavesNone(s[1..]); }
  }

  lemma {:induction false} EscapeIdentity(s: string)
    requires NUL !in s
    ensures Escape(s) == s
  {
    if s != [] {
      EscapeIdentity(s[1..]);
      assert s == [s[0]] + s[1..];
    }
  }

  lemma EscapeIdempotent(s: string)
    ensures Escape(Escape(s)) == Escape(s)
  {
    EscapeLeavesNone(s);
    EscapeIdentity(Escape(s));
  }

  /** The string spells out an escape of its own. */
  predicate ContainsEscape(s: string) { Text.Contains(s, ESCAPE) }

  lemma ContainsTail(s: string)
    requires s != []
    ensures ContainsEscape(s) <==> ESCAPE <= s || ContainsEscape(s[1..])
  {
    if i :| 0 <= i <= |s| && ESCAPE <= s[i..] {
      if i > 0 { assert s[i..] == s[1..][i - 1..]; } else { assert s[0..] == s; }
    }
    if j :| 0 <= j <= |s[1..]| && ESCAPE <= s[1..][j..] { assert s[1..][j..] == s[j + 1..]; }
    if ESCAPE <= s { assert s[0..] == s; }
  }

  /** What an escaped string starts with, its original started with, as long as
      no backslash is involved. */
  lemma {:induction false} LiteralPrefix(s: string, p: string)
    requires p <= Escape(s) && '\\' !in p
    ensures p <= s
    decreases |p|
  {
    if p != [] {
      assert s != [];
      assert p[0] == Escape(s)[0];
      assert Escape(s)[1..] == Escape(s[1..]);
      LiteralPrefix(s[1..], p[1..]);
    }
  }

  lemma FrontBack(s: string, e: string)
    requires s != [] && s[0] != NUL && e != [] && '\\' !in e[1..] && e <= Escape(s)
    ensures e <= s
  {
    var rest := Escape(s[1..]);
    assert Escape(s) == [s[0]] + rest;
    assert e == [e[0]] + e[1..] && e[0] == s[0];
    assert e[1..] <= rest by { assert ([s[0]] + rest)[1..] == rest; }
    LiteralPrefix(s[1..], e[1..]);
    assert s == [s[0]] + s[1..];
  }

  lemma FrontOn(s: string)
    requires ESCAPE <= s
    ensures ESCAPE <= Escape(s)
  {
    Cut(s, 6);
    EscapeOfLiteral(s[6..]);
  }

  /** Escaping never creates an escape except out of a NUL. */
  lemma EscapeAtFront(s: string)
    requires s != [] && s[0] != NUL
    ensures ESCAPE <= Escape(s) <==> ESCAPE <= s
  {
    if ESCAPE <= Escape(s) { FrontBack(s, ESCAPE); }
    if ESCAPE <= s { FrontOn(s); }
  }

  lemma EscapeFirst(c: char, rest: string)
    ensures Escape([c] + rest) == EscapeChar(c) + Escape(rest)
  {
    assert ([c] + rest)[1..] == rest;
  }

  lemma {:induction false} EscapeConcat(a: string, b: string)
    ensures Escape(a + b) == Escape(a) + Escape(b)
  {
    if a == [] {
      assert a + b == b;
    } else {
      var c, rest := a[0], a[1..];
      EscapeConcat(rest, b);
      FirstOfConcat(a, b);
      EscapeFirst(c, rest + b);
      EscapeFirst(c, rest);
      assert a == [c] + rest;
      Regroup(EscapeChar(c), Escape(rest), Escape(b));
    }
  }

  lemma EscapeOfLiteral(rest: string)
    ensures Escape(ESCAPE + rest) == ESCAPE + Escape(rest)
  {
    EscapeConcat(ESCAPE, rest);
    EscapeIdentity(ESCAPE);
  }

  lemma UnescapeEscape(e: string, rest: string)
    requires e == ESCAPE + rest
    ensures Unescape(e) == [NUL] + Unescape(rest)
  {
    assert e[6..] == rest;
  }

  lemma UnescapeFirst(e: string, c: char, rest: string)
    requires e == [c] + rest && !(ESCAPE <= e)
    ensures Unescape(e) == [c] + Unescape(rest)
  {
    assert e[1..] == rest;
  }

  /** Escaping and substituting back brings back a NUL, */
  lemma BackNul(s: string)
    requires s != [] && s[0] == NUL
    ensures Unescape(Escape(s)) == [NUL] + Unescape(Escape(s[1..]))
  {
    UnescapeEscape(Escape(s), Escape(s[1..]));
  }

  /** and makes one of an escape that was there before; */
  lemma BackLiteral(s: string)
    requires ESCAPE <= s
    ensures Unescape(Escape(s)) == [NUL] + Unescape(Escape(s[6..]))
  {
    Cut(s, 6);
    EscapeOfLiteral(s[6..]);
    UnescapeEscape(Escape(s), Escape(s[6..]));
  }

  /** any other character stays. */
  lemma BackOther(s: string)
    requires s != [] && s[0] != NUL && !(ESCAPE <= s)
    ensures Unescape(Escape(s)) == [s[0]] + Unescape(Escape(s[1..]))
  {
    EscapeAtFront(s);
    UnescapeFirst(Escape(s), s[0], Escape(s[1..]));
  }

  /** Without an escape at the front, it depends on the rest. */
  lemma LosslessFirst(s: string)
    requires s != [] && !(ESCAPE <= s)
    ensures Unescape(Escape(s)) == s <==> Unescape(Escape(s[1..])) == s[1..]
  {
    if s[0] == NUL { BackNul(s); } else { BackOther(s); }
    SameHead(s[0], Unescape(Escape(s[1..])), s[1..]);
    assert s == [s[0]] + s[1..];
  }

  /** The substitution can be undone exactly when the original did not already
      spell out an escape of its own. */
  lemma {:induction false} LosslessIff(s: string)
    ensures Unescape(Escape(s)) == s <==> !ContainsEscape(s)
  {
    if s != [] {
      ContainsTail(s);
      if ESCAPE <= s {
        BackLiteral(s);
      } else {
        LosslessFirst(s);
        LosslessIff(s[1..]);
      }
    }
  }

  /** Escaping and substituting back never lengthens a string, and shortens what
      it does not restore. */
  lemma {:induction false} UndoneOrShorter(s: string)
    ensures Unescape(Escape(s)) == s || |Unescape(Escape(s))| < |s|
    decreases |s|
  {
    if s != [] {
      assert s == [s[0]] + s[1..];
      if s[0] == NUL {
        BackNul(s);
        UndoneOrShorter(s[1..]);
      } else if ESCAPE <= s {
        BackLiteral(s);
        UndoneOrShorter(s[6..]);
      } else {
        BackOther(s);
        UndoneOrShorter(s[1..]);
      }
    }
  }

  // ---- JSON documents --------------------------------------------------------------------

  predicate NulFree(s: string) { NUL !in s }

  predicate Unspelled(s: string) { !ContainsEscape(s) }

  /** The document with every key and string value escaped. */
  ghost function Escaped(v: Json): Json { Rewritten(v, Escape) }

  /** The reverse substitution in every key and string value. */
  ghost function Restored(v: Json): Json { Rewritten(v, Unescape) }

  method EscapeInJson(v: Json) returns (r: Json)
    ensures r == Escaped(v)
  {
    r := Rewrite(v, Escape);
  }

  /** No NUL survives anywhere in the document. */
  lemma EscapedClean(v: Json)
    ensures Everywhere(Escaped(v), NulFree)
  {
    forall s ensures NulFree(Escape(s)) { EscapeLeavesNone(s); }
    RewrittenEverywhere(v, Escape, NulFree);
  }

  /** A document without NULs is left as it is. */
  lemma CleanUntouched(v: Json)
    requires Everywhere(v, NulFree)
    ensures Escaped(v) == v
  {
    forall s | NulFree(s) ensures Escape(s) == s { EscapeIdentity(s); }
    RewrittenFixed(v, Escape, NulFree);
  }

  lemma EscapedIdempotent(v: Json)
    ensures Escaped(Escaped(v)) == Escaped(v)
  {
    EscapedClean(v);
    CleanUntouched(Escaped(v));
  }

  /** The document can be reconstructed exactly when no key or string value, at
      any depth, already spells out an escape of its own. */
  lemma DocumentLosslessIff(v: Json)
    ensures Restored(Escaped(v)) == v <==> Everywhere(v, Unspelled)
  {
    forall s ensures Unescape(Escape(s)) == s || |Unescape(Escape(s))| < |s| { UndoneOrShorter(s); }
    UndoneIff(v, Escape, Unescape);
    forall s ensures Undone(Escape, Unescape)(s) <==> Unspelled(s) { LosslessIff(s); }
    EverywhereAgree(v, Undone(Escape, Unescape), Unspelled);
  }

  /** The tree keeps its shape, every item and field in its place, exactly when in
      every object no two keys escape to the same text. */
  lemma EscapedShapeIff(v: Json)
    ensures SameShape(v, Escaped(v), Escape) <==> ApartEverywhere(v, Escape)
  {
    ShapeKeptIff(v, Escape);
  }

  /** What stands for a NUL: a backslash, a u and four zeros. */
  lemma EscapeSpelled()
    ensures Escape([NUL]) == "\\u0000" && Unescape("\\u0000") == [NUL] && NUL as int == 0
  {
    assert Escape([]) == [] && Unescape([]) == [];
    assert [NUL][1..] == [] && "\\u0000"[6..] == [];
    assert ESCAPE == "\\u0000";
  }
}
