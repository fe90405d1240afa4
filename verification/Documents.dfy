/** JSON documents, and rewriting every string in one: values and object keys,
    at any depth. Where two keys of an object become one, the last in key order
    is kept, as when a sorted map is rebuilt. */
module Documents {
  import opened Common
  import opened Order

  datatype Json =
    | Null | Bool(b: bool) | Number(text: string)
    | Str(s: string) | Array(items: seq<Json>) | Object(fields: map<string, Json>)

  /** Every key and string value, at any depth, satisfies p. */
  ghost predicate Everywhere(v: Json, p: string -> bool)
    decreases v
  {
    match v
    case Str(s) => p(s)
    case Array(items) => forall i :: 0 <= i < |items| ==> Everywhere(items[i], p)
    case Object(fields) => forall k :: k in fields ==> p(k) && Everywhere(fields[k], p)
    case _ => true
  }

  lemma {:induction false} EverywhereAgree(v: Json, p: string -> bool, q: string -> bool)
    requires forall s :: p(s) <==> q(s)
    ensures Everywhere(v, p) <==> Everywhere(v, q)
    decreases v
  {
    match v
    case Array(items) => forall i | 0 <= i < |items| { EverywhereAgree(items[i], p, q); }
    case Object(fields) => forall k | k in fields { EverywhereAgree(fields[k], p, q); }
    case _ =>
  }

  // ---- Keys ----------------------------------------------------------------------------

  ghost function Image(keys: set<string>, f: string -> string): set<string>
  {
    set k | k in keys :: f(k)
  }

  /** Of the keys that become nk, the last in key order. */
  ghost predicate Wins(keys: set<string>, f: string -> string, k: string, nk: string)
  {
    k in keys && f(k) == nk && forall j :: j in keys && f(j) == nk ==> j == k || StrLess(j, k)
  }

  lemma {:induction false} WinnerExists(keys: set<string>, f: string -> string, nk: string)
    requires nk in Image(keys, f)
    ensures exists k :: Wins(keys, f, k, nk)
    decreases keys
  {
    var k :| k in keys && f(k) == nk;
    var rest := keys - {k};
    if nk in Image(rest, f) {
      WinnerExists(rest, f, nk);
      var w :| Wins(rest, f, w, nk);
      StrOrder();
      assert Wins(keys, f, if StrLess(k, w) then w else k, nk);
    } else {
      assert Wins(keys, f, k, nk);
    }
  }

  ghost function Winner(keys: set<string>, f: string -> string, nk: string): (k: string)
    requires nk in Image(keys, f)
    ensures Wins(keys, f, k, nk)
  {
    WinnerExists(keys, f, nk);
    var k :| Wins(keys, f, k, nk);
    k
  }

  ghost predicate Apart(keys: set<string>, f: string -> string)
  {
    forall j, k :: j in keys && k in keys && j != k ==> f(j) != f(k)
  }

  lemma {:induction false} ImageSize(keys: set<string>, f: string -> string)
    ensures |Image(keys, f)| <= |keys|
    ensures |Image(keys, f)| == |keys| <==> Apart(keys, f)
    decreases keys
  {
    if keys == {} {
      assert Image(keys, f) == {};
    } else {
      var k :| k in keys;
      var rest := keys - {k};
      ImageSize(rest, f);
      assert Image(keys, f) == Image(rest, f) + {f(k)};
      if f(k) in Image(rest, f) {
        var j :| j in rest && f(j) == f(k);
        assert !Apart(keys, f);
      } else {
        assert Apart(keys, f) <==> Apart(rest, f);
      }
    }
  }

  // ---- The rewrite -----------------------------------------------------------------------

  ghost function Rewritten(v: Json, f: string -> string): Json
    decreases v
  {
    match v
    case Str(s) => Str(f(s))
    case Array(items) => Array(seq(|items|, i requires 0 <= i < |items| => Rewritten(items[i], f)))
    case Object(fields) => Object(map nk | nk in Image(fields.Keys, f) :: Rewritten(fields[Winner(fields.Keys, f, nk)], f))
    case _ => v
  }

  /** Whatever the rewrite makes true of every string holds everywhere after it. */
  lemma {:induction false} RewrittenEverywhere(v: Json, f: string -> string, p: string -> bool)
    requires forall s :: p(f(s))
    ensures Everywhere(Rewritten(v, f), p)
    decreases v
  {
    match v
    case Array(items) =>
      forall i | 0 <= i < |items| ensures Everywhere(Rewritten(items[i], f), p) { RewrittenEverywhere(items[i], f, p); }
    case Object(fields) =>
      forall nk | nk in Image(fields.Keys, f) ensures p(nk) && Everywhere(Rewritten(fields[Winner(fields.Keys, f, nk)], f), p) {
        RewrittenEverywhere(fields[Winner(fields.Keys, f, nk)], f, p);
      }
    case _ =>
  }

  /** Keys that stay apart keep their own values. */
  lemma OwnValue(fields: map<string, Json>, f: string -> string, k: string)
    requires Apart(fields.Keys, f) && k in fields
    ensures f(k) in Rewritten(Object(fields), f).fields
    ensures Rewritten(Object(fields), f).fields[f(k)] == Rewritten(fields[k], f)
  {
    assert f(k) in Image(fields.Keys, f);
    assert Winner(fields.Keys, f, f(k)) == k;
  }

  /** A document whose strings are all left alone is left alone. */
  lemma {:induction false} RewrittenFixed(v: Json, f: string -> string, p: string -> bool)
    requires Everywhere(v, p) && forall s :: p(s) ==> f(s) == s
    ensures Rewritten(v, f) == v
    decreases v
  {
    match v
    case Array(items) =>
      forall i | 0 <= i < |items| ensures Rewritten(items[i], f) == items[i] { RewrittenFixed(items[i], f, p); }
    case Object(fields) =>
      forall k | k in fields ensures Rewritten(fields[k], f) == fields[k] { RewrittenFixed(fields[k], f, p); }
      assert Image(fields.Keys, f) == fields.Keys;
      forall k | k in fields ensures Rewritten(v, f).fields[k] == fields[k] { OwnValue(fields, f, k); }
      assert Rewritten(v, f).fields == fields;
    case _ =>
  }

  // ---- Rebuilding an object key by key --------------------------------------------------------

  /** The fields written under these keys in turn, a later one over an earlier. */
  ghost function Written(fields: map<string, Json>, keys: seq<string>, f: string -> string): map<string, Json>
    requires forall k :: k in keys ==> k in fields
  {
    if keys == [] then map[] else
      var k := keys[|keys| - 1];
      Written(fields, keys[..|keys| - 1], f)[f(k) := Rewritten(fields[k], f)]
  }

  lemma {:induction false} WrittenKeys(fields: map<string, Json>, keys: seq<string>, f: string -> string, nk: string)
    requires forall k :: k in keys ==> k in fields
    ensures nk in Written(fields, keys, f) <==> exists k :: k in keys && f(k) == nk
  {
    if keys != [] {
      var n := |keys| - 1;
      WrittenKeys(fields, keys[..n], f, nk);
      assert forall k :: k in keys <==> k in keys[..n] || k == keys[n] by { Cut(keys, n); }
      if nk == f(keys[n]) { assert keys[n] in keys; }
      if k :| k in keys && f(k) == nk { assert k in keys[..n] || k == keys[n]; }
    }
  }

  /** The last key with a given new form decides the value. */
  lemma {:induction false} WrittenLast(fields: map<string, Json>, keys: seq<string>, f: string -> string, j: nat)
    requires forall k :: k in keys ==> k in fields
    requires j < |keys| && forall l :: j < l < |keys| ==> f(keys[l]) != f(keys[j])
    ensures f(keys[j]) in Written(fields, keys, f)
    ensures Written(fields, keys, f)[f(keys[j])] == Rewritten(fields[keys[j]], f)
  {
    var n := |keys| - 1;
    if j < n { WrittenLast(fields, keys[..n], f, j); }
  }

  lemma WinnerWritten(fields: map<string, Json>, keys: seq<string>, f: string -> string, nk: string)
    requires StrictOrder(StrLess) && Ascending(keys, StrLess) && forall k :: k in keys <==> k in fields
    requires nk in Image(fields.Keys, f)
    ensures nk in Written(fields, keys, f)
    ensures Written(fields, keys, f)[nk] == Rewritten(fields[Winner(fields.Keys, f, nk)], f)
  {
    var w := Winner(fields.Keys, f, nk);
    var j :| 0 <= j < |keys| && keys[j] == w;
    forall l | j < l < |keys| ensures f(keys[l]) != f(keys[j]) {
      assert keys[l] in keys && StrLess(keys[j], keys[l]);
    }
    WrittenLast(fields, keys, f, j);
  }

  /** Written in key order, the object is the rewritten one. */
  lemma ObjectDone(fields: map<string, Json>, keys: seq<string>, f: string -> string)
    requires StrictOrder(StrLess) && Ascending(keys, StrLess) && forall k :: k in keys <==> k in fields
    ensures Object(Written(fields, keys, f)) == Rewritten(Object(fields), f)
  {
    var out := Written(fields, keys, f);
    forall nk ensures nk in out <==> nk in Image(fields.Keys, f) { WrittenKeys(fields, keys, f, nk); }
    forall nk | nk in out ensures out[nk] == Rewritten(fields[Winner(fields.Keys, f, nk)], f) {
      WinnerWritten(fields, keys, f, nk);
    }
    assert out == Rewritten(Object(fields), f).fields;
  }

  /** The recursive rewrite: values first, then the keys. A key that f leaves alone
      comes out as it was, so nothing depends on rewriting keys only in the
      objects where one changes. */
  method Rewrite(v: Json, f: string -> string) returns (r: Json)
    ensures r == Rewritten(v, f)
    decreases v
  {
    match v {
      case Str(s) => r := Str(f(s));
      case Array(items) =>
        var out: seq<Json> := [];
        for i := 0 to |items|
          invariant |out| == i && forall j :: 0 <= j < i ==> out[j] == Rewritten(items[j], f)
        {
          var item := Rewrite(items[i], f);
          out := out + [item];
        }
        r := Array(out);
      case Object(fields) =>
        StrOrder();
        var keys := InOrder(fields.Keys, StrLess);
        var out: map<string, Json> := map[];
        for i := 0 to |keys|
          invariant out == Written(fields, keys[..i], f)
        {
          assert keys[i] in keys && keys[..i + 1][..i] == keys[..i];
          var value := Rewrite(fields[keys[i]], f);
          out := out[f(keys[i]) := value];
        }
        assert keys[..|keys|] == keys;
        ObjectDone(fields, keys, f);
        r := Object(out);
      case _ => r := v;
    }
  }

  // ---- Shape -------------------------------------------------------------------------------

  /** In every object, at any depth, the keys stay apart. */
  ghost predicate ApartEverywhere(v: Json, f: string -> string)
    decreases v
  {
    match v
    case Array(items) => forall i :: 0 <= i < |items| ==> ApartEverywhere(items[i], f)
    case Object(fields) => Apart(fields.Keys, f) && forall k :: k in fields ==> ApartEverywhere(fields[k], f)
    case _ => true
  }

  /** The same tree, its strings and keys replaced: no item or field is lost. */
  ghost predicate SameShape(v: Json, w: Json, f: string -> string)
    decreases v
  {
    match v
    case Str(s) => w == Str(f(s))
    case Array(items) => w.Array? && |w.items| == |items| && forall i :: 0 <= i < |items| ==> SameShape(items[i], w.items[i], f)
    case Object(fields) =>
      && w.Object? && |w.fields| == |fields|
      && forall k :: k in fields ==> f(k) in w.fields && SameShape(fields[k], w.fields[f(k)], f)
    case _ => w == v
  }

  /** An object keeps all of its fields exactly when its keys stay apart. */
  lemma FieldsKeptIff(fields: map<string, Json>, f: string -> string)
    ensures |Rewritten(Object(fields), f).fields| == |fields| <==> Apart(fields.Keys, f)
  {
    ImageSize(fields.Keys, f);
    assert Rewritten(Object(fields), f).fields.Keys == Image(fields.Keys, f);
  }

  /** The whole tree keeps its shape exactly when keys stay apart in every object. */
  lemma {:induction false} ShapeKeptIff(v: Json, f: string -> string)
    ensures SameShape(v, Rewritten(v, f), f) <==> ApartEverywhere(v, f)
    decreases v
  {
    match v
    case Array(items) => forall i | 0 <= i < |items| { ShapeKeptIff(items[i], f); }
    case Object(fields) =>
      FieldsKeptIff(fields, f);
      if Apart(fields.Keys, f) {
        forall k | k in fields
          ensures f(k) in Rewritten(v, f).fields
          ensures SameShape(fields[k], Rewritten(v, f).fields[f(k)], f) <==> ApartEverywhere(fields[k], f)
        {
          OwnValue(fields, f, k);
          ShapeKeptIff(fields[k], f);
        }
      }
    case _ =>
  }

  // ---- Undoing a rewrite ---------------------------------------------------------------------

  lemma {:induction false} Longest(words: set<string>) returns (w: string)
    requires words != {}
    ensures w in words && forall x :: x in words ==> |x| <= |w|
    decreases words
  {
    w :| w in words;
    if words != {w} {
      var x := Longest(words - {w});
      if |x| > |w| { w := x; }
    }
  }

  /** A map that only ever shortens, and takes a set onto itself, moves nothing. */
  lemma AllFixed(keys: set<string>, u: string -> string)
    requires Image(keys, u) == keys && forall s :: u(s) == s || |u(s)| < |s|
    ensures forall k :: k in keys ==> u(k) == k
  {
    var moved := set k | k in keys && u(k) != k;
    forall k | k in keys ensures u(k) == k || k in moved {}
    if moved != {} {
      var k := Longest(moved);
    }
  }

  function Then(f: string -> string, g: string -> string): string -> string
  {
    (s: string) => g(f(s))
  }

  ghost function Undone(f: string -> string, g: string -> string): string -> bool
  {
    (s: string) => g(f(s)) == s
  }

  lemma TwiceImage(keys: set<string>, f: string -> string, g: string -> string)
    ensures Image(Image(keys, f), g) == Image(keys, Then(f, g))
  {
    forall k | k in keys ensures Then(f, g)(k) in Image(Image(keys, f), g) { assert f(k) in Image(keys, f); }
  }

  /** Where every key is restored, so is its value's place. */
  lemma RestoredField(fields: map<string, Json>, f: string -> string, g: string -> string, k: string)
    requires k in fields && forall j :: j in fields ==> g(f(j)) == j
    ensures k in Rewritten(Rewritten(Object(fields), f), g).fields
    ensures Rewritten(Rewritten(Object(fields), f), g).fields[k] == Rewritten(Rewritten(fields[k], f), g)
  {
    OwnValue(fields, f, k);
    var once := Rewritten(Object(fields), f).fields;
    assert once.Keys == Image(fields.Keys, f);
    assert Apart(once.Keys, g);
    OwnValue(once, g, f(k));
  }

  /** Rewriting with g undoes rewriting with f exactly when it does so for every
      key and string, provided that f and g together never lengthen a string, and
      shorten what they change. */
  lemma {:induction false} UndoneIff(v: Json, f: string -> string, g: string -> string)
    requires forall s :: g(f(s)) == s || |g(f(s))| < |s|
    ensures Rewritten(Rewritten(v, f), g) == v <==> Everywhere(v, Undone(f, g))
    decreases v
  {
    match v
    case Array(items) =>
      forall i | 0 <= i < |items| { UndoneIff(items[i], f, g); }
      ItemsUndone(items, f, g);
    case Object(fields) =>
      forall k | k in fields { UndoneIff(fields[k], f, g); }
      FieldsUndone(fields, f, g);
    case _ =>
  }

  lemma ItemsUndone(items: seq<Json>, f: string -> string, g: string -> string)
    requires forall i :: 0 <= i < |items| ==> (Rewritten(Rewritten(items[i], f), g) == items[i] <==> Everywhere(items[i], Undone(f, g)))
    ensures Rewritten(Rewritten(Array(items), f), g) == Array(items) <==> Everywhere(Array(items), Undone(f, g))
  {
    var back := Rewritten(Rewritten(Array(items), f), g);
    assert back.Array? && |back.items| == |items|;
    assert forall i :: 0 <= i < |items| ==> back.items[i] == Rewritten(Rewritten(items[i], f), g);
    assert back.items == items <==> forall i :: 0 <= i < |items| ==> back.items[i] == items[i];
  }

  ghost predicate KeysRestored(keys: set<string>, f: string -> string, g: string -> string)
  {
    forall k :: k in keys ==> g(f(k)) == k
  }

  lemma RestoredKeys(fields: map<string, Json>, f: string -> string, g: string -> string)
    requires forall s :: g(f(s)) == s || |g(f(s))| < |s|
    ensures Rewritten(Rewritten(Object(fields), f), g).fields.Keys == fields.Keys <==> KeysRestored(fields.Keys, f, g)
  {
    var once := Rewritten(Object(fields), f).fields;
    var back := Rewritten(Object(once), g).fields;
    assert once.Keys == Image(fields.Keys, f) && back.Keys == Image(once.Keys, g);
    TwiceImage(fields.Keys, f, g);
    if back.Keys == fields.Keys { AllFixed(fields.Keys, Then(f, g)); }
    if KeysRestored(fields.Keys, f, g) { assert Image(fields.Keys, Then(f, g)) == fields.Keys; }
  }

  lemma FieldsUndone(fields: map<string, Json>, f: string -> string, g: string -> string)
    requires forall s :: g(f(s)) == s || |g(f(s))| < |s|
    requires forall k :: k in fields ==> (Rewritten(Rewritten(fields[k], f), g) == fields[k] <==> Everywhere(fields[k], Undone(f, g)))
    ensures Rewritten(Rewritten(Object(fields), f), g) == Object(fields) <==> Everywhere(Object(fields), Undone(f, g))
  {
    var twice := Rewritten(Rewritten(Object(fields), f), g);
    RestoredKeys(fields, f, g);
    if KeysRestored(fields.Keys, f, g) {
      forall k | k in fields ensures k in twice.fields && (twice.fields[k] == fields[k] <==> Everywhere(fields[k], Undone(f, g))) {
        RestoredField(fields, f, g, k);
      }
    }
    ObjectAgrees(fields, twice, Undone(f, g));
  }

  lemma ObjectAgrees(fields: map<string, Json>, w: Json, p: string -> bool)
    requires w.Object? && (w.fields.Keys == fields.Keys <==> forall k :: k in fields ==> p(k))
    requires w.fields.Keys == fields.Keys ==> forall k :: k in fields ==> (w.fields[k] == fields[k] <==> Everywhere(fields[k], p))
    ensures w == Object(fields) <==> Everywhere(Object(fields), p)
  {
    if w.fields.Keys == fields.Keys { SameMap(w.fields, fields); }
  }

  lemma SameMap(a: map<string, Json>, b: map<string, Json>)
    requires a.Keys == b.Keys
    ensures a == b <==> forall k :: k in b ==> a[k] == b[k]
  {
  }
}
