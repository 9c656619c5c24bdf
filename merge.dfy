/** The merge of the individual documents (the MERGE section of
    concat_yaml.py): compiler lists are merged by `compiler.spec`, package
    mappings by package name, and a higher tier always wins a shared
    identity. */
module Merge {
  import opened Wrappers
  import opened Dicts
  import opened Documents
  import opened Helpers

  /** The duplicate-removal loop: every identity that the higher tier also
      has is removed, one at a time, from the lower tier's set. */
  method RemoveDuplicates(higher: set<string>, lower: set<string>) returns (kept: set<string>)
    ensures kept == lower - higher
  {
    var duplicates := higher * lower;
    kept := lower;
    var pending := duplicates;
    while pending != {}
      invariant pending <= duplicates
      invariant kept == lower - (duplicates - pending)
      decreases |pending|
    {
      var dupl :| dupl in pending;
      assert dupl in kept;  // set.remove does not raise
      kept := kept - {dupl};
      pending := pending - {dupl};
    }
  }

  // -----------------------------------------------------------------------
  // Compilers

  /** The list comprehension `[item for item in list if spec in keep]`. */
  function KeepSpecs(list: seq<CompilerEntry>, keep: set<string>): seq<CompilerEntry> {
    if list == [] then []
    else if list[0].spec in keep then [list[0]] + KeepSpecs(list[1..], keep)
    else KeepSpecs(list[1..], keep)
  }

  /** The entries of `list` whose spec is not in `drop`, in their order. */
  function DropSpecs(list: seq<CompilerEntry>, drop: set<string>): seq<CompilerEntry> {
    if list == [] then []
    else if list[0].spec in drop then DropSpecs(list[1..], drop)
    else [list[0]] + DropSpecs(list[1..], drop)
  }

  lemma {:induction false} SpecSetTail(list: seq<CompilerEntry>)
    requires list != []
    ensures SpecSet(list) == {list[0].spec} + SpecSet(list[1..])
  {
    assert list == [list[0]] + list[1..];
  }

  /** Filtering a list by a superset of its own specs keeps it whole. */
  lemma {:induction false} KeepSpecsAll(list: seq<CompilerEntry>, keep: set<string>)
    requires SpecSet(list) <= keep
    ensures KeepSpecs(list, keep) == list
  {
    if list != [] {
      SpecSetTail(list);
      KeepSpecsAll(list[1..], keep);
    }
  }

  /** Filtering by the own specs minus `x` drops exactly the specs in `x`. */
  lemma {:induction false} KeepSpecsDifference(list: seq<CompilerEntry>, u: set<string>, x: set<string>)
    requires SpecSet(list) <= u
    ensures KeepSpecs(list, u - x) == DropSpecs(list, x)
  {
    if list != [] {
      SpecSetTail(list);
      KeepSpecsDifference(list[1..], u, x);
    }
  }

  /** An entry survives exactly when it is in the list and its spec is not
      dropped. */
  lemma {:induction false} DropSpecsMembers(list: seq<CompilerEntry>, drop: set<string>)
    ensures forall e :: e in DropSpecs(list, drop) <==> e in list && e.spec !in drop
  {
    if list != [] {
      DropSpecsMembers(list[1..], drop);
      assert list == [list[0]] + list[1..];
    }
  }

  /** Dropping preserves order: it distributes over concatenation. */
  lemma {:induction false} DropSpecsAppend(a: seq<CompilerEntry>, b: seq<CompilerEntry>, drop: set<string>)
    ensures DropSpecs(a + b, drop) == DropSpecs(a, drop) + DropSpecs(b, drop)
  {
    if a == [] {
      assert a + b == b;
    } else {
      assert (a + b)[1..] == a[1..] + b;
      DropSpecsAppend(a[1..], b, drop);
    }
  }

  /** A list none of whose specs is dropped survives whole, duplicates
      included. */
  lemma {:induction false} DropSpecsNone(list: seq<CompilerEntry>, drop: set<string>)
    requires SpecSet(list) !! drop
    ensures DropSpecs(list, drop) == list
  {
    if list != [] {
      SpecSetTail(list);
      DropSpecsNone(list[1..], drop);
    }
  }

  /** remove_duplicate_compilers: the primary list whole, then the secondary
      entries whose spec no primary entry has, each list in its order. */
  method RemoveDuplicateCompilers(c2sm: seq<CompilerEntry>, cscs: seq<CompilerEntry>)
    returns (joint: seq<CompilerEntry>)
    ensures joint == c2sm + DropSpecs(cscs, SpecSet(c2sm))
    ensures forall i :: |c2sm| <= i < |joint| ==> joint[i].spec !in SpecSet(c2sm)
    ensures cscs == [] ==> joint == c2sm
  {
    var c2smSpecs := SpecsFromListWithKeys(c2sm);
    var cscsSpecs := SpecsFromListWithKeys(cscs);
    cscsSpecs := RemoveDuplicates(c2smSpecs, cscsSpecs);
    KeepSpecsAll(c2sm, c2smSpecs);
    KeepSpecsDifference(cscs, SpecSet(cscs), c2smSpecs);
    joint := KeepSpecs(c2sm, c2smSpecs) + KeepSpecs(cscs, cscsSpecs);
    DropSpecsMembers(cscs, c2smSpecs);
    forall i | |c2sm| <= i < |joint| ensures joint[i].spec !in SpecSet(c2sm) {
      assert joint[i] in DropSpecs(cscs, c2smSpecs);
    }
  }

  // -----------------------------------------------------------------------
  // Packages

  /** The precedence merge of three package mappings: all of `primary`, then
      the `secondary` packages that `primary` lacks, each taking `external`'s
      definition where `external` has one, then the `external` packages that
      neither `primary` nor `secondary` has. */
  function MergedPackages(primary: Packages, secondary: Packages, external: Packages): Packages {
    primary
    + Overwrite(Drop(secondary, KeySet(primary)), external)
    + Drop(external, KeySet(primary) + KeySet(secondary))
  }

  /** The merge defines exactly the packages of the three tiers, once each;
      primary wins every package it defines, external wins what it shares
      with secondary alone, and a package only secondary defines keeps
      secondary's definition. */
  lemma {:induction false} MergedPackagesProperties(primary: Packages, secondary: Packages, external: Packages)
    requires UniqueKeys(primary) && UniqueKeys(secondary) && UniqueKeys(external)
    ensures KeySet(MergedPackages(primary, secondary, external))
         == KeySet(primary) + KeySet(secondary) + KeySet(external)
    ensures UniqueKeys(MergedPackages(primary, secondary, external))
    ensures forall k :: Get(MergedPackages(primary, secondary, external), k) ==
                        if k in KeySet(primary) then Get(primary, k)
                        else if k in KeySet(external) then Get(external, k)
                        else Get(secondary, k)
  {
    MergedPackagesKeys(primary, secondary, external);
    forall k ensures Get(MergedPackages(primary, secondary, external), k) ==
                     if k in KeySet(primary) then Get(primary, k)
                     else if k in KeySet(external) then Get(external, k)
                     else Get(secondary, k)
    {
      MergedPackagesGet(primary, secondary, external, k);
    }
  }

  lemma {:induction false} MergedPackagesKeys(primary: Packages, secondary: Packages, external: Packages)
    requires UniqueKeys(primary) && UniqueKeys(secondary) && UniqueKeys(external)
    ensures KeySet(MergedPackages(primary, secondary, external))
         == KeySet(primary) + KeySet(secondary) + KeySet(external)
    ensures UniqueKeys(MergedPackages(primary, secondary, external))
  {
    var kp := KeySet(primary);
    var s := Overwrite(Drop(secondary, kp), external);
    var e := Drop(external, kp + KeySet(secondary));
    DropProperties(secondary, kp);
    OverwriteProperties(Drop(secondary, kp), external);
    DropProperties(external, kp + KeySet(secondary));
    KeySetAppend(primary, s);
    KeySetAppend(primary + s, e);
    UniqueAppend(primary, s);
    UniqueAppend(primary + s, e);
  }

  lemma {:induction false} MergedPackagesGet(primary: Packages, secondary: Packages, external: Packages, k: string)
    requires UniqueKeys(primary) && UniqueKeys(secondary) && UniqueKeys(external)
    ensures Get(MergedPackages(primary, secondary, external), k) ==
              if k in KeySet(primary) then Get(primary, k)
              else if k in KeySet(external) then Get(external, k)
              else Get(secondary, k)
  {
    var kp := KeySet(primary);
    var s := Overwrite(Drop(secondary, kp), external);
    var e := Drop(external, kp + KeySet(secondary));
    DropProperties(secondary, kp);
    OverwriteProperties(Drop(secondary, kp), external);
    DropProperties(external, kp + KeySet(secondary));
    KeySetAppend(primary, s);
    GetAppend(primary + s, e, k);
    GetAppend(primary, s, k);
    GetDefined(primary, k);
    GetDefined(secondary, k);
    GetDefined(external, k);
  }

  /** The merged definitions do not depend on the order of the items within
      the secondary or the external tier. */
  lemma {:induction false} MergedPackagesIgnoreTierOrder(primary: Packages, secondary: Packages, secondary': Packages,
                                      external: Packages, external': Packages)
    requires UniqueKeys(primary)
    requires UniqueKeys(secondary) && UniqueKeys(secondary')
    requires UniqueKeys(external) && UniqueKeys(external')
    requires forall k :: Get(secondary, k) == Get(secondary', k)
    requires forall k :: Get(external, k) == Get(external', k)
    ensures KeySet(MergedPackages(primary, secondary, external))
         == KeySet(MergedPackages(primary, secondary', external'))
    ensures forall k :: Get(MergedPackages(primary, secondary, external), k)
                     == Get(MergedPackages(primary, secondary', external'), k)
  {
    SameLookupsSameKeys(secondary, secondary');
    SameLookupsSameKeys(external, external');
    MergedPackagesKeys(primary, secondary, external);
    MergedPackagesKeys(primary, secondary', external');
    forall k ensures Get(MergedPackages(primary, secondary, external), k)
                  == Get(MergedPackages(primary, secondary', external'), k)
    {
      MergedPackagesGet(primary, secondary, external, k);
      MergedPackagesGet(primary, secondary', external', k);
    }
  }

  /** Two mappings with the same lookups have the same keys. */
  lemma {:induction false} SameLookupsSameKeys(a: Packages, b: Packages)
    requires forall k :: Get(a, k) == Get(b, k)
    ensures KeySet(a) == KeySet(b)
  {
    forall k ensures k in KeySet(a) <==> k in KeySet(b) {
      GetDefined(a, k);
      GetDefined(b, k);
    }
  }

  /** Secondary and external are not deduplicated against each other: a
      package both define, and primary does not, keeps its position among
      the secondary packages that survive and takes external's definition. */
  lemma {:induction false} SecondaryExternalOverlap(primary: Packages, secondary: Packages, external: Packages, k: string)
    requires UniqueKeys(secondary)
    requires k in KeySet(secondary) && k in KeySet(external) && k !in KeySet(primary)
    ensures exists i :: 0 <= i < |Drop(secondary, KeySet(primary))|
              && Drop(secondary, KeySet(primary))[i].key == k
              && |primary| + i < |MergedPackages(primary, secondary, external)|
              && MergedPackages(primary, secondary, external)[|primary| + i].key == k
              && Some(MergedPackages(primary, secondary, external)[|primary| + i].value) == Get(external, k)
  {
    var s := Drop(secondary, KeySet(primary));
    DropProperties(secondary, KeySet(primary));
    var i := KeyAt(s, k);
    OverwriteAt(s, external, i);
    GetDefined(external, k);
    var o := Overwrite(s, external);
    var rest := Drop(external, KeySet(primary) + KeySet(secondary));
    assert (primary + o + rest)[|primary| + i] == o[i];
  }

  /** The smallest case: primary `a`, and `b` in both secondary and
      external. */
  lemma {:induction false} SecondaryExternalOverlapExample(p: Package, s: Package, e: Package)
    ensures MergedPackages([Item("a", p)], [Item("b", s)], [Item("b", e)]) == [Item("a", p), Item("b", e)]
  {
    var primary, secondary, external := [Item("a", p)], [Item("b", s)], [Item("b", e)];
    Single(primary[0]);
    Single(secondary[0]);
    Single(external[0]);
    assert KeySet(primary) == {"a"};
    assert KeySet(primary) + KeySet(secondary) == {"a", "b"};
    assert secondary[1..] == [] && external[1..] == [];
    assert Drop(secondary, {"a"}) == secondary;
    assert Overwrite(secondary, external) == external;
    assert Drop(external, {"a", "b"}) == [];
  }

  /** The first `update`: the filtered secondary shares no name with
      primary, so it is appended. */
  lemma {:induction false} FirstUpdateAppends(primary: Packages, secondary: Packages)
    requires UniqueKeys(primary) && UniqueKeys(secondary)
    ensures Update(primary, Drop(secondary, KeySet(primary))) == primary + Drop(secondary, KeySet(primary))
  {
    var s := Drop(secondary, KeySet(primary));
    DropProperties(secondary, KeySet(primary));
    UpdateShape(primary, s);
    OverwriteDisjoint(primary, s);
    DropNone(s, KeySet(primary));
  }

  /** The second `update`: the filtered external overwrites the secondary
      packages it shares and appends the rest. */
  lemma {:induction false} SecondUpdateMerges(primary: Packages, secondary: Packages, external: Packages)
    requires UniqueKeys(primary) && UniqueKeys(secondary) && UniqueKeys(external)
    ensures Update(primary + Drop(secondary, KeySet(primary)), Drop(external, KeySet(primary)))
         == MergedPackages(primary, secondary, external)
  {
    var kp := KeySet(primary);
    var s, e := Drop(secondary, kp), Drop(external, kp);
    DropProperties(secondary, kp);
    DropProperties(external, kp);
    UniqueAppend(primary, s);
    KeySetAppend(primary, s);
    UpdateShape(primary + s, e);
    OverwriteAppend(primary, s, e);
    OverwriteDisjoint(primary, e);
    OverwriteDropped(s, external, kp);
    DropDrop(external, kp, kp + KeySet(s));
    assert kp + (kp + KeySet(s)) == kp + KeySet(secondary);
  }

  /** remove_duplicate_packages: drop from secondary and from external the
      names primary defines, filter each mapping to its surviving names,
      then overlay secondary and external on the filtered primary with
      `update`. The inputs are values, so the overlay cannot change them. */
  method RemoveDuplicatePackages(c2sm: Packages, cscs: Packages, external: Packages)
    returns (merged: Packages)
    requires UniqueKeys(c2sm) && UniqueKeys(cscs) && UniqueKeys(external)
    ensures merged == MergedPackages(c2sm, cscs, external)
    ensures UniqueKeys(merged)
  {
    var c2smNames := DictKeysAsSet(c2sm);
    var cscsNames := DictKeysAsSet(cscs);
    var externalNames := DictKeysAsSet(external);

    cscsNames := RemoveDuplicates(c2smNames, cscsNames);
    externalNames := RemoveDuplicates(c2smNames, externalNames);

    var c2sm' := RemoveFromDict(c2sm, c2smNames);
    var cscs' := RemoveFromDict(cscs, cscsNames);
    var external' := RemoveFromDict(external, externalNames);

    RestrictAll(c2sm, c2smNames);
    RestrictDifference(cscs, KeySet(cscs), c2smNames);
    RestrictDifference(external, KeySet(external), c2smNames);
    assert c2sm' == c2sm;
    assert cscs' == Drop(cscs, KeySet(c2sm));
    assert external' == Drop(external, KeySet(c2sm));

    merged := Update(c2sm', cscs');
    FirstUpdateAppends(c2sm, cscs);
    merged := Update(merged, external');
    SecondUpdateMerges(c2sm, cscs, external);
    MergedPackagesProperties(c2sm, cscs, external);
  }
}
