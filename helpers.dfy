/** The helpers that extract identity sets and filter a package mapping
    (the HELPERS section of concat_yaml.py). */
module Helpers {
  import opened Wrappers
  import opened Dicts
  import opened Documents

  /** The identities (`compiler.spec` values) of a list of compiler entries. */
  function SpecSet(list: seq<CompilerEntry>): set<string> {
    set e | e in list :: e.spec
  }

  /** specs_from_list_with_keys with the key path `compiler`, `spec`: the set
      of specs of the entries, accumulated one entry at a time. */
  method SpecsFromListWithKeys(specList: seq<CompilerEntry>) returns (specs: set<string>)
    ensures specs == SpecSet(specList)
  {
    specs := {};
    for i := 0 to |specList|
      invariant specs == SpecSet(specList[..i])
    {
      assert specList[..i + 1] == specList[..i] + [specList[i]];
      specs := specs + {specList[i].spec};
    }
    assert specList[..|specList|] == specList;
  }

  /** dictkeys_as_set: the keys of a mapping, accumulated one key at a time. */
  method DictKeysAsSet<V>(d: Dict<V>) returns (keys: set<string>)
    ensures keys == KeySet(d)
    ensures forall k :: k in keys <==> Get(d, k).Some?
  {
    keys := {};
    for i := 0 to |d|
      invariant keys == KeySet(d[..i])
    {
      assert d[..i + 1] == d[..i] + [d[i]];
      KeySetAppend(d[..i], [d[i]]);
      Single(d[i]);
      keys := keys + {d[i].key};
    }
    assert d[..|d|] == d;
    forall k ensures k in keys <==> Get(d, k).Some? {
      GetDefined(d, k);
    }
  }

  /** remove_from_dict: a new mapping with the items of `d` whose key is in
      `filter`, built by `filtered[key] = value` in the order of `d`. */
  method RemoveFromDict<V>(d: Dict<V>, filter: set<string>) returns (filtered: Dict<V>)
    requires UniqueKeys(d)
    ensures filtered == Restrict(d, filter)
    ensures UniqueKeys(filtered) && KeySet(filtered) == KeySet(d) * filter
    ensures forall k :: Get(filtered, k) == if k in filter then Get(d, k) else None
  {
    filtered := [];
    for i := 0 to |d|
      invariant filtered == Restrict(d[..i], filter)
    {
      assert d[..i + 1] == d[..i] + [d[i]];
      RestrictAppend(d[..i], [d[i]], filter);
      assert [d[i]][1..] == [];
      if d[i].key in filter {
        assert d == d[..i] + d[i..];
        UniqueAppend(d[..i], d[i..]);
        RestrictProperties(d[..i], filter);
        PutNew(filtered, d[i].key, d[i].value);
        filtered := Put(filtered, d[i].key, d[i].value);
      }
    }
    assert d[..|d|] == d;
    RestrictProperties(d, filter);
  }
}
