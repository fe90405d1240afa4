/** Shared vocabulary: optional and fallible values, machine integer bounds,
    binary logarithms, and sums over finite sequences and sets. */
module Common {

  datatype Option<+T> = None | Some(value: T)

  datatype Result<+T, +E> = Ok(value: T) | Err(error: E)

  const U64_SIZE: nat := 0x1_0000_0000_0000_0000
  const U64_MAX: nat := 0xFFFF_FFFF_FFFF_FFFF
  const U128_MAX: nat := 0xFFFF_FFFF_FFFF_FFFF_FFFF_FFFF_FFFF_FFFF
  const I64_SIZE: int := 0x8000_0000_0000_0000

  function Min(a: int, b: int): int { if a <= b then a else b }

  function Max(a: int, b: int): int { if a >= b then a else b }

  /** Rust's `x as i64` for an unsigned `x`: reinterpretation of the 64 bits. */
  function AsI64(x: nat): int
    requires x <= U64_MAX
  {
    if x < I64_SIZE then x else x - U64_SIZE
  }

  /** Rust's `x as u64` for a signed 64-bit `x`. */
  function AsU64(x: int): nat
    requires -I64_SIZE <= x < I64_SIZE
  {
    if x >= 0 then x else x + U64_SIZE
  }

  /** 2^n. */
  function Pow2(n: nat): nat
  {
    if n == 0 then 1 else 2 * Pow2(n - 1)
  }

  lemma {:induction false} Pow2Positive(n: nat)
    ensures Pow2(n) >= 1
  {
    if n > 0 { Pow2Positive(n - 1); }
  }

  /** The integer part of the binary logarithm of `n`. */
  function Log2(n: nat): nat
    requires n >= 1
  {
    if n == 1 then 0 else 1 + Log2(n / 2)
  }

  /** Log2 is the largest exponent whose power of two fits below n. */
  lemma {:induction false} Log2Brackets(n: nat)
    requires n >= 1
    ensures Pow2(Log2(n)) <= n < Pow2(Log2(n) + 1)
  {
    if n > 1 { Log2Brackets(n / 2); }
  }

  lemma {:induction false} Pow2Monotone(a: nat, b: nat)
    requires a <= b
    ensures Pow2(a) <= Pow2(b)
    decreases b
  {
    if a < b { Pow2Monotone(a, b - 1); }
  }

  /** A power of two that fits below `n` has an exponent of at most Log2(n). */
  lemma Log2Largest(n: nat, k: nat)
    requires n >= 1 && Pow2(k) <= n
    ensures k <= Log2(n)
  {
    Log2Brackets(n);
    if k > Log2(n) { Pow2Monotone(Log2(n) + 1, k); }
  }

  lemma Log2Unique(n: nat, k: nat)
    requires n >= 1 && Pow2(k) <= n < Pow2(k + 1)
    ensures k == Log2(n)
  {
    Log2Largest(n, k);
    Log2Brackets(n);
    if k < Log2(n) { Pow2Monotone(k + 1, Log2(n)); }
  }

  // ---- Sums over sequences ----------------------------------------------------------

  function SumOf<T>(s: seq<T>, w: T -> nat): nat
  {
    if s == [] then 0 else SumOf(s[..|s| - 1], w) + w(s[|s| - 1])
  }

  lemma SumOneMore<T>(s: seq<T>, i: nat, w: T -> nat)
    requires i < |s|
    ensures SumOf(s[..i + 1], w) == SumOf(s[..i], w) + w(s[i])
  {
    assert s[..i + 1][..i] == s[..i];
  }

  lemma {:induction false} SumConcat<T>(a: seq<T>, b: seq<T>, w: T -> nat)
    ensures SumOf(a + b, w) == SumOf(a, w) + SumOf(b, w)
    decreases |b|
  {
    if b == [] {
      assert a + b == a;
    } else {
      assert (a + b)[..|a + b| - 1] == a + b[..|b| - 1];
      SumConcat(a, b[..|b| - 1], w);
    }
  }

  /** The sequence with its i-th element taken out. */
  function Without<T>(s: seq<T>, i: nat): seq<T>
    requires i < |s|
  {
    s[..i] + s[i + 1..]
  }

  lemma WithoutMultiset<T>(s: seq<T>, i: nat)
    requires i < |s|
    ensures multiset(Without(s, i)) == multiset(s) - multiset{s[i]}
  {
    Around(s, i);
  }

  lemma SumInsert<T>(s: seq<T>, a: seq<T>, x: T, b: seq<T>, w: T -> nat)
    requires s == a + [x] + b
    ensures SumOf(s, w) == SumOf(a + b, w) + w(x)
  {
    SumConcat(a + [x], b, w);
    SumConcat(a, b, w);
    assert (a + [x])[..|a|] == a;
  }

  lemma Cut<T>(s: seq<T>, n: nat)
    requires n <= |s|
    ensures s == s[..n] + s[n..]
  {
  }

  lemma TakeMore<T>(s: seq<T>, n: nat)
    requires n < |s|
    ensures s[..n + 1] == s[..n] + [s[n]]
  {
  }

  lemma Regroup<T>(a: seq<T>, b: seq<T>, c: seq<T>)
    ensures a + b + c == a + (b + c)
  {
  }

  lemma FirstOfConcat<T>(a: seq<T>, b: seq<T>)
    requires a != []
    ensures a + b == [a[0]] + (a[1..] + b)
  {
  }

  lemma SameHead<T>(head: T, x: seq<T>, y: seq<T>)
    ensures [head] + x == [head] + y <==> x == y
  {
    assert ([head] + x)[1..] == x && ([head] + y)[1..] == y;
  }

  lemma SubsetSize<T>(a: set<T>, b: set<T>)
    requires a <= b
    ensures |a| <= |b|
  {
    assert b == a + (b - a);
  }

  lemma Around<T>(s: seq<T>, i: nat)
    requires i < |s|
    ensures s == s[..i] + [s[i]] + s[i + 1..]
  {
  }

  lemma SumWithout<T>(s: seq<T>, i: nat, w: T -> nat)
    requires i < |s|
    ensures SumOf(s, w) == SumOf(Without(s, i), w) + w(s[i])
  {
    Around(s, i);
    SumInsert(s, s[..i], s[i], s[i + 1..], w);
  }

  /** A sum does not depend on the order of its terms. */
  lemma {:induction false} SumIgnoresOrder<T>(a: seq<T>, b: seq<T>, w: T -> nat)
    requires multiset(a) == multiset(b)
    ensures SumOf(a, w) == SumOf(b, w)
    decreases |a|
  {
    if a == [] {
      assert |multiset(b)| == 0;
    } else {
      var n := |a| - 1;
      assert a[n] in multiset(b);
      var i :| 0 <= i < |b| && b[i] == a[n];
      SumWithout(b, i, w);
      WithoutMultiset(b, i);
      WithoutMultiset(a, n);
      assert Without(a, n) == a[..n];
      SumIgnoresOrder(a[..n], Without(b, i), w);
    }
  }

  /** Adding up weights split in two adds up to the whole. */
  lemma {:induction false} SumAdds<T>(s: seq<T>, w: T -> nat, u: T -> nat, v: T -> nat)
    requires forall x :: x in s ==> w(x) == u(x) + v(x)
    ensures SumOf(s, w) == SumOf(s, u) + SumOf(s, v)
  {
    if s != [] {
      assert forall x :: x in s[..|s| - 1] ==> x in s;
      SumAdds(s[..|s| - 1], w, u, v);
    }
  }
}
