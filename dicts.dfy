/** Python's insertion-ordered `dict` with string keys, as a sequence of
    key/value items. Python never stores a key twice; every operation here
    keeps that invariant (`UniqueKeys`), and the lemmas say how each one
    changes the key set, the lookups and the order of the items. */
module Dicts {
  import opened Wrappers

  datatype Item<V> = Item(key: string, value: V)

  type Dict<V> = seq<Item<V>>

  /** The keys of `d` (Python `set(d.keys())`). */
  function KeySet<V>(d: Dict<V>): set<string> {
    if d == [] then {} else {d[0].key} + KeySet(d[1..])
  }

  /** No key occurs twice: the invariant of every Python dict. */
  predicate UniqueKeys<V>(d: Dict<V>) {
    d == [] || (d[0].key !in KeySet(d[1..]) && UniqueKeys(d[1..]))
  }

  /** Python `d[k]`, with `None` where Python raises `KeyError`. */
  function Get<V>(d: Dict<V>, k: string): Option<V> {
    if d == [] then None
    else if d[0].key == k then Some(d[0].value)
    else Get(d[1..], k)
  }

  /** Python `d[k] = v`: an existing key keeps its position and gets the new
      value; a new key is appended at the end. */
  function Put<V>(d: Dict<V>, k: string, v: V): Dict<V> {
    if d == [] then [Item(k, v)]
    else if d[0].key == k then [Item(k, v)] + d[1..]
    else [d[0]] + Put(d[1..], k, v)
  }

  /** Python `d.pop(k)` for its effect on `d`: the item for `k` is removed. */
  function Pop<V>(d: Dict<V>, k: string): Dict<V> {
    if d == [] then []
    else if d[0].key == k then d[1..]
    else [d[0]] + Pop(d[1..], k)
  }

  /** Python `d.update(o)`: `d[k] = v` for every item of `o`, in `o`'s order. */
  function Update<V>(d: Dict<V>, o: Dict<V>): Dict<V>
    decreases |o|
  {
    if o == [] then d else Update(Put(d, o[0].key, o[0].value), o[1..])
  }

  /** The items of `d` whose key is in `keep`, in their order. */
  function Restrict<V>(d: Dict<V>, keep: set<string>): Dict<V> {
    if d == [] then []
    else if d[0].key in keep then [d[0]] + Restrict(d[1..], keep)
    else Restrict(d[1..], keep)
  }

  /** The items of `d` whose key is not in `drop`, in their order. */
  function Drop<V>(d: Dict<V>, drop: set<string>): Dict<V> {
    if d == [] then []
    else if d[0].key in drop then Drop(d[1..], drop)
    else [d[0]] + Drop(d[1..], drop)
  }

  /** `d` with the value of every key that `o` also defines replaced by
      `o`'s value; order and keys are those of `d`. */
  function Overwrite<V>(d: Dict<V>, o: Dict<V>): Dict<V> {
    if d == [] then []
    else
      var it := d[0];
      [if Get(o, it.key).Some? then Item(it.key, Get(o, it.key).value) else it] + Overwrite(d[1..], o)
  }

  // ---------------------------------------------------------------------
  // Keys and lookups

  /** How the key set, the invariant and lookups see a leading item. */
  lemma {:induction false} Cons<V>(x: Item<V>, r: Dict<V>)
    ensures KeySet([x] + r) == {x.key} + KeySet(r)
    ensures UniqueKeys([x] + r) <==> x.key !in KeySet(r) && UniqueKeys(r)
    ensures forall k :: Get([x] + r, k) == if x.key == k then Some(x.value) else Get(r, k)
  {
    assert ([x] + r)[1..] == r;
  }

  /** Lookups in a dict of one item. */
  lemma {:induction false} Single<V>(x: Item<V>)
    ensures KeySet([x]) == {x.key}
    ensures forall k :: Get([x], k) == if x.key == k then Some(x.value) else None
  {
    assert [x][1..] == [];
  }

  lemma {:induction false} KeySetAppend<V>(a: Dict<V>, b: Dict<V>)
    ensures KeySet(a + b) == KeySet(a) + KeySet(b)
  {
    if a != [] {
      assert (a + b)[1..] == a[1..] + b;
      KeySetAppend(a[1..], b);
    } else {
      assert a + b == b;
    }
  }

  /** A lookup succeeds exactly for the keys of the dict. */
  lemma {:induction false} GetDefined<V>(d: Dict<V>, k: string)
    ensures Get(d, k).Some? <==> k in KeySet(d)
  {
    if d != [] {
      GetDefined(d[1..], k);
    }
  }

  /** A key of `d` is the key of one of its items. */
  lemma {:induction false} KeyAt<V>(d: Dict<V>, k: string) returns (i: nat)
    requires k in KeySet(d)
    ensures i < |d| && d[i].key == k
  {
    if d[0].key == k {
      i := 0;
    } else {
      var j := KeyAt(d[1..], k);
      i := j + 1;
    }
  }

  /** Looking up a key of the concatenation consults the first part first. */
  lemma {:induction false} GetAppend<V>(a: Dict<V>, b: Dict<V>, k: string)
    ensures Get(a + b, k) == if k in KeySet(a) then Get(a, k) else Get(b, k)
  {
    if a == [] {
      assert a + b == b;
    } else {
      assert (a + b)[1..] == a[1..] + b;
      GetAppend(a[1..], b, k);
    }
  }

  lemma {:induction false} UniqueAppend<V>(a: Dict<V>, b: Dict<V>)
    ensures UniqueKeys(a + b) <==> UniqueKeys(a) && UniqueKeys(b) && KeySet(a) !! KeySet(b)
  {
    if a == [] {
      assert a + b == b;
    } else {
      assert (a + b)[1..] == a[1..] + b;
      UniqueAppend(a[1..], b);
      KeySetAppend(a[1..], b);
    }
  }

  // ---------------------------------------------------------------------
  // d[k] = v and d.pop(k)

  /** Writing a key the dict does not have appends an item. */
  lemma {:induction false} PutNew<V>(d: Dict<V>, k: string, v: V)
    requires k !in KeySet(d)
    ensures Put(d, k, v) == d + [Item(k, v)]
  {
    if d != [] {
      PutNew(d[1..], k, v);
    }
  }

  /** `d[k] = v` defines `k` as `v`, leaves every other key as it was and
      keeps the keys unique. */
  lemma {:induction false} PutProperties<V>(d: Dict<V>, k: string, v: V)
    requires UniqueKeys(d)
    ensures KeySet(Put(d, k, v)) == KeySet(d) + {k}
    ensures UniqueKeys(Put(d, k, v))
    ensures forall j :: Get(Put(d, k, v), j) == if j == k then Some(v) else Get(d, j)
  {
    if d != [] && d[0].key != k {
      PutProperties(d[1..], k, v);
    }
  }

  /** Writing a key the dict already has only replaces its value in place. */
  lemma {:induction false} PutExisting<V>(d: Dict<V>, k: string, v: V)
    requires UniqueKeys(d) && k in KeySet(d)
    ensures Put(d, k, v) == Overwrite(d, [Item(k, v)])
  {
    Single(Item(k, v));
    if d[0].key == k {
      OverwriteDisjoint(d[1..], [Item(k, v)]);
    } else {
      PutExisting(d[1..], k, v);
    }
  }

  /** A second write of the same key only leaves the second value. */
  lemma {:induction false} PutTwice<V>(d: Dict<V>, k: string, v: V, w: V)
    ensures Put(Put(d, k, v), k, w) == Put(d, k, w)
  {
    if d != [] && d[0].key != k {
      PutTwice(d[1..], k, v, w);
    }
  }

  /** Popping a key of the first part leaves the second part alone. */
  lemma {:induction false} PopAppend<V>(a: Dict<V>, b: Dict<V>, k: string)
    requires k in KeySet(a)
    ensures Pop(a + b, k) == Pop(a, k) + b
  {
    assert (a + b)[1..] == a[1..] + b;
    if a[0].key != k {
      PopAppend(a[1..], b, k);
    }
  }

  /** `d.pop(k)` removes exactly the key `k`. */
  lemma {:induction false} PopProperties<V>(d: Dict<V>, k: string)
    requires UniqueKeys(d)
    ensures KeySet(Pop(d, k)) == KeySet(d) - {k}
    ensures UniqueKeys(Pop(d, k))
    ensures forall j :: Get(Pop(d, k), j) == if j == k then None else Get(d, j)
  {
    if d != [] {
      if d[0].key == k {
        GetDefined(d[1..], k);
      } else {
        PopProperties(d[1..], k);
      }
    }
  }

  // ---------------------------------------------------------------------
  // Restrict and Drop (filters that keep the order)

  lemma {:induction false} RestrictAppend<V>(a: Dict<V>, b: Dict<V>, keep: set<string>)
    ensures Restrict(a + b, keep) == Restrict(a, keep) + Restrict(b, keep)
  {
    if a == [] {
      assert a + b == b;
    } else {
      assert (a + b)[1..] == a[1..] + b;
      RestrictAppend(a[1..], b, keep);
    }
  }

  /** The restriction keeps exactly the keys of `d` that are in `keep`,
      each with its value, and keys of `keep` that `d` lacks add nothing. */
  lemma {:induction false} RestrictProperties<V>(d: Dict<V>, keep: set<string>)
    requires UniqueKeys(d)
    ensures KeySet(Restrict(d, keep)) == KeySet(d) * keep
    ensures UniqueKeys(Restrict(d, keep))
    ensures forall k :: Get(Restrict(d, keep), k) == if k in keep then Get(d, k) else None
  {
    if d != [] {
      RestrictProperties(d[1..], keep);
      GetDefined(d[1..], d[0].key);
      Cons(d[0], Restrict(d[1..], keep));
    }
  }

  /** Restricting to a superset of the keys copies the dict. */
  lemma {:induction false} RestrictAll<V>(d: Dict<V>, keep: set<string>)
    requires KeySet(d) <= keep
    ensures Restrict(d, keep) == d
  {
    if d != [] {
      RestrictAll(d[1..], keep);
    }
  }

  /** Restricting to the keys of some `u` that are not in `x` drops `x`. */
  lemma {:induction false} RestrictDifference<V>(d: Dict<V>, u: set<string>, x: set<string>)
    requires KeySet(d) <= u
    ensures Restrict(d, u - x) == Drop(d, x)
  {
    if d != [] {
      RestrictDifference(d[1..], u, x);
    }
  }

  lemma {:induction false} DropAppend<V>(a: Dict<V>, b: Dict<V>, x: set<string>)
    ensures Drop(a + b, x) == Drop(a, x) + Drop(b, x)
  {
    if a == [] {
      assert a + b == b;
    } else {
      assert (a + b)[1..] == a[1..] + b;
      DropAppend(a[1..], b, x);
    }
  }

  /** Dropping removes exactly the keys in `x`. */
  lemma {:induction false} DropProperties<V>(d: Dict<V>, x: set<string>)
    requires UniqueKeys(d)
    ensures KeySet(Drop(d, x)) == KeySet(d) - x
    ensures UniqueKeys(Drop(d, x))
    ensures forall k :: Get(Drop(d, x), k) == if k in x then None else Get(d, k)
  {
    if d != [] {
      DropProperties(d[1..], x);
      GetDefined(d[1..], d[0].key);
      Cons(d[0], Drop(d[1..], x));
    }
  }

  /** Dropping keys the dict does not have changes nothing. */
  lemma {:induction false} DropNone<V>(d: Dict<V>, x: set<string>)
    requires KeySet(d) !! x
    ensures Drop(d, x) == d
  {
    if d != [] {
      DropNone(d[1..], x);
    }
  }

  lemma {:induction false} DropDrop<V>(d: Dict<V>, a: set<string>, b: set<string>)
    ensures Drop(Drop(d, a), b) == Drop(d, a + b)
  {
    if d != [] {
      DropDrop(d[1..], a, b);
      if d[0].key !in a {
        assert Drop(d, a) == [d[0]] + Drop(d[1..], a);
        assert Drop(d, a)[1..] == Drop(d[1..], a);
      }
    }
  }

  /** Dropping additional keys the dict does not have changes nothing. */
  lemma {:induction false} DropExtra<V>(d: Dict<V>, a: set<string>, b: set<string>)
    requires KeySet(d) !! b
    ensures Drop(d, a + b) == Drop(d, a)
  {
    if d != [] {
      DropExtra(d[1..], a, b);
    }
  }

  // ---------------------------------------------------------------------
  // Overwrite

  lemma {:induction false} OverwriteAppend<V>(a: Dict<V>, b: Dict<V>, o: Dict<V>)
    ensures Overwrite(a + b, o) == Overwrite(a, o) + Overwrite(b, o)
  {
    if a == [] {
      assert a + b == b;
    } else {
      assert (a + b)[1..] == a[1..] + b;
      OverwriteAppend(a[1..], b, o);
    }
  }

  /** Overwriting keeps the keys and their order, and a key takes `o`'s
      value exactly when `o` defines it. */
  lemma {:induction false} OverwriteProperties<V>(d: Dict<V>, o: Dict<V>)
    requires UniqueKeys(d)
    ensures KeySet(Overwrite(d, o)) == KeySet(d)
    ensures UniqueKeys(Overwrite(d, o))
    ensures forall k :: Get(Overwrite(d, o), k) ==
                        if k in KeySet(d) && k in KeySet(o) then Get(o, k) else Get(d, k)
  {
    if d != [] {
      OverwriteProperties(d[1..], o);
      GetDefined(o, d[0].key);
      forall k ensures Get(Overwrite(d, o), k) ==
        if k in KeySet(d) && k in KeySet(o) then Get(o, k) else Get(d, k)
      {
        GetDefined(o, k);
      }
    }
  }

  /** Item `i` of an overwrite is item `i` of `d`, with `o`'s value when `o`
      defines its key. */
  lemma {:induction false} OverwriteAt<V>(d: Dict<V>, o: Dict<V>, i: nat)
    requires i < |d|
    ensures |Overwrite(d, o)| == |d|
    ensures Overwrite(d, o)[i] ==
              if Get(o, d[i].key).Some? then Item(d[i].key, Get(o, d[i].key).value) else d[i]
  {
    if i > 0 {
      OverwriteAt(d[1..], o, i - 1);
    } else if |d| > 1 {
      OverwriteAt(d[1..], o, 0);
    }
  }

  /** Overwriting with a dict that shares no key changes nothing. */
  lemma {:induction false} OverwriteDisjoint<V>(d: Dict<V>, o: Dict<V>)
    requires KeySet(d) !! KeySet(o)
    ensures Overwrite(d, o) == d
  {
    if d != [] {
      GetDefined(o, d[0].key);
      OverwriteDisjoint(d[1..], o);
    }
  }

  /** Items of `o` whose keys `d` does not have do not matter to `Overwrite`. */
  lemma {:induction false} OverwriteDropped<V>(d: Dict<V>, o: Dict<V>, x: set<string>)
    requires KeySet(d) !! x
    ensures Overwrite(d, Drop(o, x)) == Overwrite(d, o)
  {
    if d != [] {
      DropGet(o, x, d[0].key);
      OverwriteDropped(d[1..], o, x);
    }
  }

  lemma {:induction false} DropGet<V>(o: Dict<V>, x: set<string>, k: string)
    requires k !in x
    ensures Get(Drop(o, x), k) == Get(o, k)
  {
    if o != [] {
      DropGet(o[1..], x, k);
      Cons(o[0], Drop(o[1..], x));
    }
  }

  /** A leading item whose key `d` does not have does not matter. */
  lemma {:induction false} OverwriteSkip<V>(d: Dict<V>, x: Item<V>, o: Dict<V>)
    requires x.key !in KeySet(d)
    ensures Overwrite(d, [x] + o) == Overwrite(d, o)
  {
    if d != [] {
      assert ([x] + o)[1..] == o;
      OverwriteSkip(d[1..], x, o);
    }
  }

  /** Overwriting with `[x]` and then with `o` is one overwrite with
      `[x] + o` when `o` does not define `x.key` again. */
  lemma {:induction false} OverwriteTwice<V>(d: Dict<V>, x: Item<V>, o: Dict<V>)
    requires x.key !in KeySet(o)
    ensures Overwrite(Overwrite(d, [x]), o) == Overwrite(d, [x] + o)
  {
    if d != [] {
      Single(x);
      Cons(x, o);
      GetDefined(o, x.key);
      var once := Overwrite(d, [x]);
      assert once[1..] == Overwrite(d[1..], [x]);
      OverwriteTwice(d[1..], x, o);
    }
  }

  // ---------------------------------------------------------------------
  // d.update(o)

  /** `d.update(o)` overwrites the keys `d` shares with `o` in place and
      appends the items of `o` with new keys, in `o`'s order. */
  lemma {:induction false} UpdateShape<V>(d: Dict<V>, o: Dict<V>)
    requires UniqueKeys(d) && UniqueKeys(o)
    ensures Update(d, o) == Overwrite(d, o) + Drop(o, KeySet(d))
    decreases |o|
  {
    if o == [] {
      OverwriteDisjoint(d, o);
    } else {
      PutProperties(d, o[0].key, o[0].value);
      UpdateShape(Put(d, o[0].key, o[0].value), o[1..]);
      if o[0].key in KeySet(d) {
        UpdateStepExisting(d, o);
      } else {
        UpdateStepNew(d, o);
      }
    }
  }

  /** One step of `update` with a key `d` already has: the item is
      overwritten in place. */
  lemma {:induction false} UpdateStepExisting<V>(d: Dict<V>, o: Dict<V>)
    requires UniqueKeys(d) && UniqueKeys(o) && o != [] && o[0].key in KeySet(d)
    ensures var p := Put(d, o[0].key, o[0].value);
            Overwrite(p, o[1..]) + Drop(o[1..], KeySet(p)) == Overwrite(d, o) + Drop(o, KeySet(d))
  {
    var x, rest := o[0], o[1..];
    assert o == [x] + rest;
    Cons(x, rest);
    PutProperties(d, x.key, x.value);
    PutExisting(d, x.key, x.value);
    assert Item(x.key, x.value) == x;
    OverwriteTwice(d, x, rest);
    assert KeySet(Put(d, x.key, x.value)) == KeySet(d);
  }

  /** One step of `update` with a key `d` does not have: the item is
      appended. */
  lemma {:induction false} UpdateStepNew<V>(d: Dict<V>, o: Dict<V>)
    requires UniqueKeys(d) && UniqueKeys(o) && o != [] && o[0].key !in KeySet(d)
    ensures var p := Put(d, o[0].key, o[0].value);
            Overwrite(p, o[1..]) + Drop(o[1..], KeySet(p)) == Overwrite(d, o) + Drop(o, KeySet(d))
  {
    var x, rest := o[0], o[1..];
    assert o == [x] + rest;
    Cons(x, rest);
    var p := Put(d, x.key, x.value);
    calc {
      Overwrite(p, rest) + Drop(rest, KeySet(p));
    ==  { PutNew(d, x.key, x.value); assert Item(x.key, x.value) == x; }
      Overwrite(d + [x], rest) + Drop(rest, KeySet(d + [x]));
    ==  { OverwriteAppendNew(d, x, rest); DropAppendedKey(d, x, rest); }
      (Overwrite(d, o) + [x]) + Drop(rest, KeySet(d));
    ==
      Overwrite(d, o) + ([x] + Drop(rest, KeySet(d)));
    ==  { DropCons(x, rest, KeySet(d)); }
      Overwrite(d, o) + Drop(o, KeySet(d));
    }
  }

  lemma {:induction false} DropCons<V>(x: Item<V>, rest: Dict<V>, drop: set<string>)
    requires x.key !in drop
    ensures Drop([x] + rest, drop) == [x] + Drop(rest, drop)
  {
    assert ([x] + rest)[1..] == rest;
  }

  lemma {:induction false} OverwriteAppendNew<V>(d: Dict<V>, x: Item<V>, rest: Dict<V>)
    requires x.key !in KeySet(d) && x.key !in KeySet(rest)
    ensures Overwrite(d + [x], rest) == Overwrite(d, [x] + rest) + [x]
  {
    GetDefined(rest, x.key);
    OverwriteAppend(d, [x], rest);
    assert [x][1..] == [];
    OverwriteSkip(d, x, rest);
  }

  lemma {:induction false} DropAppendedKey<V>(d: Dict<V>, x: Item<V>, rest: Dict<V>)
    requires x.key !in KeySet(rest)
    ensures Drop(rest, KeySet(d + [x])) == Drop(rest, KeySet(d))
  {
    KeySetAppend(d, [x]);
    Single(x);
    DropExtra(rest, KeySet(d), {x.key});
  }

  /** `d.update(o)` has the keys of both, keeps them unique and gives `o`'s
      value to every key `o` defines. */
  lemma {:induction false} UpdateProperties<V>(d: Dict<V>, o: Dict<V>)
    requires UniqueKeys(d) && UniqueKeys(o)
    ensures KeySet(Update(d, o)) == KeySet(d) + KeySet(o)
    ensures UniqueKeys(Update(d, o))
    ensures forall k :: Get(Update(d, o), k) == if k in KeySet(o) then Get(o, k) else Get(d, k)
  {
    UpdateShape(d, o);
    OverwriteProperties(d, o);
    DropProperties(o, KeySet(d));
    KeySetAppend(Overwrite(d, o), Drop(o, KeySet(d)));
    UniqueAppend(Overwrite(d, o), Drop(o, KeySet(d)));
    forall k ensures Get(Update(d, o), k) == if k in KeySet(o) then Get(o, k) else Get(d, k) {
      GetAppend(Overwrite(d, o), Drop(o, KeySet(d)), k);
      GetDefined(d, k);
      GetDefined(o, k);
    }
  }
}
