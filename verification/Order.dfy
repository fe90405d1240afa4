/** Strict total orders, and the ascending sequences that sorted collections
    iterate in. */
module Order {

  ghost predicate StrictOrder<K(!new)>(lt: (K, K) -> bool)
  {
    && (forall a, b :: lt(a, b) ==> !lt(b, a))
    && (forall a, b, c :: lt(a, b) && lt(b, c) ==> lt(a, c))
    && (forall a, b :: a != b ==> lt(a, b) || lt(b, a))
  }

  ghost predicate Ascending<K>(s: seq<K>, lt: (K, K) -> bool)
  {
    forall i, j :: 0 <= i < j < |s| ==> lt(s[i], s[j])
  }

  /** Where k belongs in an ascending sequence. */
  function Position<K>(s: seq<K>, k: K, lt: (K, K) -> bool): (i: nat)
    ensures i <= |s|
  {
    if s == [] || !lt(s[0], k) then 0 else 1 + Position(s[1..], k, lt)
  }

  function Insert<K>(s: seq<K>, k: K, lt: (K, K) -> bool): seq<K>
  {
    var i := Position(s, k, lt);
    s[..i] + [k] + s[i..]
  }

  lemma {:induction false} PositionSplits<K(!new)>(s: seq<K>, k: K, lt: (K, K) -> bool)
    requires StrictOrder(lt) && Ascending(s, lt) && k !in s
    ensures forall j :: 0 <= j < Position(s, k, lt) ==> lt(s[j], k)
    ensures forall j :: Position(s, k, lt) <= j < |s| ==> lt(k, s[j])
  {
    if s != [] {
      assert forall j :: 0 <= j < |s[1..]| ==> s[1..][j] == s[j + 1];
      if lt(s[0], k) {
        PositionSplits(s[1..], k, lt);
        forall j | Position(s, k, lt) <= j < |s| ensures lt(k, s[j]) { assert s[j] == s[1..][j - 1]; }
        forall j | 0 <= j < Position(s, k, lt) ensures lt(s[j], k) { if j > 0 { assert s[j] == s[1..][j - 1]; } }
      }
    }
  }

  lemma InsertAscends<K(!new)>(s: seq<K>, k: K, lt: (K, K) -> bool)
    requires StrictOrder(lt) && Ascending(s, lt) && k !in s
    ensures Ascending(Insert(s, k, lt), lt)
    ensures forall x :: x in Insert(s, k, lt) <==> x in s || x == k
  {
    PositionSplits(s, k, lt);
    var p, r := Position(s, k, lt), Insert(s, k, lt);
    forall i, j | 0 <= i < j < |r| ensures lt(r[i], r[j]) {
      assert r[i] == if i < p then s[i] else if i == p then k else s[i - 1];
      assert r[j] == if j < p then s[j] else if j == p then k else s[j - 1];
    }
    InsertMembers(s, k, p);
  }

  lemma InsertMembers<K>(s: seq<K>, k: K, p: nat)
    requires p <= |s|
    ensures forall x :: x in s[..p] + [k] + s[p..] <==> x in s || x == k
  {
    assert s == s[..p] + s[p..];
  }

  /** The members of a set in ascending order, whatever order they come in. */
  method InOrder<K(!new, ==)>(keys: set<K>, lt: (K, K) -> bool) returns (s: seq<K>)
    requires StrictOrder(lt)
    ensures Ascending(s, lt) && |s| == |keys|
    ensures forall k :: k in s <==> k in keys
  {
    s := [];
    var rest := keys;
    while rest != {}
      invariant rest <= keys && Ascending(s, lt) && |s| == |keys - rest|
      invariant forall k :: k in s <==> k in keys - rest
      decreases rest
    {
      var k :| k in rest;
      InsertAscends(s, k, lt);
      s := Insert(s, k, lt);
      assert keys - (rest - {k}) == (keys - rest) + {k};
      rest := rest - {k};
    }
    assert keys - {} == keys;
  }

  /** Two ascending sequences with the same members are the same. */
  lemma {:induction false} AscendingUnique<K(!new)>(a: seq<K>, b: seq<K>, lt: (K, K) -> bool)
    requires StrictOrder(lt) && Ascending(a, lt) && Ascending(b, lt)
    requires forall k :: k in a <==> k in b
    ensures a == b
  {
    assert forall i :: 0 <= i < |a| ==> a[i] in b;
    assert forall i :: 0 <= i < |b| ==> b[i] in a;
    if a != [] && b != [] {
      FirstIsLeast(a, b[0], lt);
      FirstIsLeast(b, a[0], lt);
      assert a[0] == b[0];
      TailMembers(a, lt);
      TailMembers(b, lt);
      assert a == [a[0]] + a[1..] && b == [b[0]] + b[1..];
      AscendingUnique(a[1..], b[1..], lt);
    }
  }

  lemma TailMembers<K(!new)>(s: seq<K>, lt: (K, K) -> bool)
    requires StrictOrder(lt) && Ascending(s, lt) && s != []
    ensures Ascending(s[1..], lt)
    ensures forall k :: k in s[1..] <==> k in s && k != s[0]
  {
    assert s == [s[0]] + s[1..];
    forall k | k in s[1..] ensures k != s[0] {
      var i :| 0 <= i < |s[1..]| && s[1..][i] == k;
      assert lt(s[0], s[i + 1]);
    }
  }

  lemma FirstIsLeast<K(!new)>(s: seq<K>, k: K, lt: (K, K) -> bool)
    requires Ascending(s, lt) && k in s
    ensures k == s[0] || lt(s[0], k)
  {
    var i :| 0 <= i < |s| && s[i] == k;
  }

  // ---- The orders in use ---------------------------------------------------------

  /** Strings by their characters, a prefix first. */
  predicate StrLess(a: string, b: string)
  {
    if b == [] then false
    else if a == [] then true
    else a[0] < b[0] || (a[0] == b[0] && StrLess(a[1..], b[1..]))
  }

  lemma {:induction false} StrLessAsymmetric(a: string, b: string)
    requires StrLess(a, b)
    ensures !StrLess(b, a)
  {
    if a != [] && a[0] == b[0] { StrLessAsymmetric(a[1..], b[1..]); }
  }

  lemma {:induction false} StrLessTransitive(a: string, b: string, c: string)
    requires StrLess(a, b) && StrLess(b, c)
    ensures StrLess(a, c)
  {
    if a != [] && a[0] == b[0] && b[0] == c[0] { StrLessTransitive(a[1..], b[1..], c[1..]); }
  }

  lemma {:induction false} StrLessTotal(a: string, b: string)
    ensures a == b || StrLess(a, b) || StrLess(b, a)
  {
    if a != [] && b != [] && a[0] == b[0] {
      StrLessTotal(a[1..], b[1..]);
      assert a == [a[0]] + a[1..] && b == [b[0]] + b[1..];
    }
  }

  lemma StrOrder()
    ensures StrictOrder(StrLess)
  {
    forall a, b | StrLess(a, b) ensures !StrLess(b, a) { StrLessAsymmetric(a, b); }
    forall a, b, c | StrLess(a, b) && StrLess(b, c) ensures StrLess(a, c) { StrLessTransitive(a, b, c); }
    forall a, b | a != b ensures StrLess(a, b) || StrLess(b, a) { StrLessTotal(a, b); }
  }

  /** Pairs of strings, the first part deciding. */
  predicate PairLess(a: (string, string), b: (string, string))
  {
    StrLess(a.0, b.0) || (a.0 == b.0 && StrLess(a.1, b.1))
  }

  lemma PairOrder()
    ensures StrictOrder(PairLess)
  {
    forall a: (string, string), b: (string, string) | PairLess(a, b) ensures !PairLess(b, a) {
      if StrLess(a.0, b.0) { StrLessAsymmetric(a.0, b.0); } else { StrLessAsymmetric(a.1, b.1); }
    }
    forall a: (string, string), b: (string, string), c: (string, string) | PairLess(a, b) && PairLess(b, c) ensures PairLess(a, c) {
      if StrLess(a.0, b.0) && StrLess(b.0, c.0) { StrLessTransitive(a.0, b.0, c.0); }
      if StrLess(a.1, b.1) && StrLess(b.1, c.1) { StrLessTransitive(a.1, b.1, c.1); }
    }
    forall a: (string, string), b: (string, string) | a != b ensures PairLess(a, b) || PairLess(b, a) {
      StrLessTotal(a.0, b.0);
      StrLessTotal(a.1, b.1);
    }
  }
}
