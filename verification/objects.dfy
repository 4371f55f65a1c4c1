/** JavaScript plain objects as the pipelines use them: an ordered list of
    (key, value) properties with no key twice.  Property order is insertion
    order, which is what `Object.keys`, `JSON.stringify` and object spread
    observe. */
module Objects {
  import opened Wrappers

  type Key = string

  /** No key occurs twice. */
  predicate UniqueKeys<V>(m: seq<(Key, V)>) {
    m == [] || (m[0].0 !in Keys(m[1..]) && UniqueKeys(m[1..]))
  }

  type Object<V> = m: seq<(Key, V)> | UniqueKeys(m) witness []

  /** `Object.keys(m)`. */
  function Keys<V>(m: seq<(Key, V)>): (ks: seq<Key>)
    ensures |ks| == |m|
  {
    if m == [] then [] else [m[0].0] + Keys(m[1..])
  }

  lemma {:induction false} KeysAt<V>(m: seq<(Key, V)>, i: nat)
    requires i < |m|
    ensures Keys(m)[i] == m[i].0
  {
    if i > 0 {
      KeysAt(m[1..], i - 1);
    }
  }

  /** `m[k]`, with `None` for a key the object does not have. */
  function Lookup<V>(m: seq<(Key, V)>, k: Key): (r: Option<V>)
    ensures r.Some? <==> k in Keys(m)
  {
    if m == [] then None
    else if m[0].0 == k then Some(m[0].1)
    else Lookup(m[1..], k)
  }

  lemma {:induction false} LookupAt<V>(m: Object<V>, i: nat)
    requires i < |m|
    ensures Lookup(m, m[i].0) == Some(m[i].1)
  {
    if i > 0 {
      LookupAt(m[1..], i - 1);
    }
  }

  /** `Lookup` finds the first property with the key. */
  lemma {:induction false} LookupFirst<V>(m: seq<(Key, V)>, q: nat)
    requires q < |m|
    requires forall i :: 0 <= i < q ==> m[i].0 != m[q].0
    ensures Lookup(m, m[q].0) == Some(m[q].1)
  {
    if q > 0 {
      LookupFirst(m[1..], q - 1);
    }
  }

  /** The assignment `m[k] = v`: an existing property keeps its position and
      takes the new value; a new key is appended at the end. */
  function Put<V>(m: Object<V>, k: Key, v: V): (r: Object<V>)
    ensures Keys(r) == if k in Keys(m) then Keys(m) else Keys(m) + [k]
    ensures k !in Keys(m) ==> r == m + [(k, v)]
  {
    if m == [] then
      assert [(k, v)][1..] == [];
      [(k, v)]
    else if m[0].0 == k then
      assert ([(k, v)] + m[1..])[1..] == m[1..];
      [(k, v)] + m[1..]
    else
      var rest := Put(m[1..], k, v);
      assert ([m[0]] + rest)[1..] == rest;
      assert m == [m[0]] + m[1..];
      [m[0]] + rest
  }

  lemma AppendAssoc<T>(x: seq<T>, y: seq<T>, z: seq<T>)
    ensures (x + y) + z == x + (y + z)
  {
  }

  /** After `m[k] = v`, reading `k` gives `v` and every other key reads as
      before. */
  lemma {:induction false} PutLookup<V>(m: Object<V>, k: Key, v: V, q: Key)
    ensures Lookup(Put(m, k, v), q) == if q == k then Some(v) else Lookup(m, q)
  {
    if m != [] && m[0].0 != k {
      PutLookup(m[1..], k, v, q);
    }
  }

  /** The keys of `ks` that are not in `seen`, in the order of `ks`. */
  function NewKeys(ks: seq<Key>, seen: seq<Key>): seq<Key> {
    if ks == [] then [] else (if ks[0] in seen then [] else [ks[0]]) + NewKeys(ks[1..], seen)
  }

  lemma {:induction false} NewKeysSkip(ks: seq<Key>, seen: seq<Key>, k: Key)
    requires k !in ks
    ensures NewKeys(ks, seen + [k]) == NewKeys(ks, seen)
  {
    if ks != [] {
      NewKeysSkip(ks[1..], seen, k);
    }
  }

  /** The shallow spread `{ ...a, ...b }`: the properties of `b` are assigned
      onto a copy of `a` one by one, in `b`'s order. */
  function Spread<V>(a: Object<V>, b: Object<V>): Object<V>
    decreases |b|
  {
    if b == [] then a else Spread(Put(a, b[0].0, b[0].1), b[1..])
  }

  /** After `{ ...a, ...b }` a key of `b` has `b`'s value, a key only in `a`
      keeps `a`'s value, and no other key is present. */
  lemma {:induction false} SpreadLookup<V>(a: Object<V>, b: Object<V>, k: Key)
    ensures Lookup(Spread(a, b), k) == if k in Keys(b) then Lookup(b, k) else Lookup(a, k)
    decreases |b|
  {
    if b != [] {
      SpreadLookup(Put(a, b[0].0, b[0].1), b[1..], k);
      PutLookup(a, b[0].0, b[0].1, k);
    }
  }

  /** `a`'s keys keep their positions in `{ ...a, ...b }`, and the keys of `b`
      that `a` lacks follow in `b`'s order. */
  lemma {:induction false} SpreadKeys<V>(a: Object<V>, b: Object<V>)
    ensures Keys(Spread(a, b)) == Keys(a) + NewKeys(Keys(b), Keys(a))
    decreases |b|
  {
    if b != [] {
      var k := b[0].0;
      var a' := Put(a, k, b[0].1);
      SpreadKeys(a', b[1..]);
      var rest := NewKeys(Keys(b[1..]), Keys(a));
      assert Keys(b) == [k] + Keys(b[1..]);
      if k in Keys(a) {
        assert NewKeys(Keys(b), Keys(a)) == rest;
      } else {
        NewKeysSkip(Keys(b[1..]), Keys(a), k);
        assert NewKeys(Keys(b), Keys(a)) == [k] + rest;
        AppendAssoc(Keys(a), [k], rest);
      }
    }
  }
}
