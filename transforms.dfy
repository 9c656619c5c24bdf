/** The post-merge rules on the joint package mapping (the CONSISTENCY
    CHECKS section of concat_yaml.py), each as a function from the mapping
    before the rule to the mapping after it or to the error the rule
    raises. The in-place versions in the `Joint` module are proved to agree
    with these. */
module Transforms {
  import opened Wrappers
  import opened Dicts
  import opened Documents
  import opened Text

  // -----------------------------------------------------------------------
  // Rename cray-mpich to mpich

  /** The cray-mpich definition as the rename stores it under `mpich`: the
      first external's spec without any `cray-`, `buildable` false. */
  function Reclassified(e: Package): Package
    requires |e.externals| > 0
  {
    var first := e.externals[0];
    e.(externals := e.externals[0 := first.(spec := RemoveAll(first.spec, "cray-"))],
       buildable := Some(false))
  }

  /** rename_cray_mpich_to_mpich on the package mapping. */
  function RenamedCrayMpich(d: Packages): Result<Packages, Error> {
    match Get(d, "cray-mpich")
    case None => Failure(KeyError("cray-mpich"))
    case Some(e) =>
      if |e.externals| == 0 then Failure(IndexError("cray-mpich"))
      else Success(Pop(Put(d, "mpich", Reclassified(e)), "cray-mpich"))
  }

  /** The rename fails exactly when `cray-mpich` is missing (KeyError) or
      has no externals (IndexError on `externals[0]`). */
  lemma {:induction false} RenameErrors(d: Packages)
    ensures RenamedCrayMpich(d).Failure? <==>
              Get(d, "cray-mpich").None? || |Get(d, "cray-mpich").value.externals| == 0
    ensures Get(d, "cray-mpich").None? ==> RenamedCrayMpich(d) == Failure(KeyError("cray-mpich"))
    ensures Get(d, "cray-mpich").Some? && |Get(d, "cray-mpich").value.externals| == 0 ==>
              RenamedCrayMpich(d) == Failure(IndexError("cray-mpich"))
  {
  }

  /** When `cray-mpich` is defined as `e` with an external, the rename
      succeeds: `cray-mpich` is gone, `mpich` holds `e` not buildable, whose
      first external has its spec stripped of `cray-` and nothing else
      changed, and every other package is as before. */
  lemma {:induction false} RenameProperties(d: Packages, e: Package)
    requires UniqueKeys(d)
    requires Get(d, "cray-mpich") == Some(e) && |e.externals| > 0
    ensures RenamedCrayMpich(d).Success?
    ensures UniqueKeys(RenamedCrayMpich(d).value)
    ensures KeySet(RenamedCrayMpich(d).value) == KeySet(d) - {"cray-mpich"} + {"mpich"}
    ensures Get(RenamedCrayMpich(d).value, "cray-mpich") == None
    ensures Get(RenamedCrayMpich(d).value, "mpich") == Some(Reclassified(e))
    ensures forall k :: k != "cray-mpich" && k != "mpich" ==>
              Get(RenamedCrayMpich(d).value, k) == Get(d, k)
  {
    var m := Reclassified(e);
    var r := Pop(Put(d, "mpich", m), "cray-mpich");
    assert RenamedCrayMpich(d) == Success(r);
    PutProperties(d, "mpich", m);
    PopProperties(Put(d, "mpich", m), "cray-mpich");
  }

  /** The reclassified entry differs from the original only in the first
      external's spec and in `buildable`. */
  lemma {:induction false} ReclassifiedProperties(e: Package)
    requires |e.externals| > 0
    ensures var m := Reclassified(e);
              && m.buildable == Some(false)
              && m.fields == e.fields
              && |m.externals| == |e.externals|
              && m.externals[0] == e.externals[0].(spec := RemoveAll(e.externals[0].spec, "cray-"))
              && m.externals[1..] == e.externals[1..]
  {
    var m := Reclassified(e);
    assert m.externals[1..] == e.externals[1..];
  }

  /** When there was no `mpich` before, the renamed entry moves to the end of
      the mapping; the other packages keep their order. */
  lemma {:induction false} RenameAppendsMpich(d: Packages)
    requires UniqueKeys(d) && "mpich" !in KeySet(d)
    requires RenamedCrayMpich(d).Success?
    ensures RenamedCrayMpich(d).value ==
              Pop(d, "cray-mpich") + [Item("mpich", Reclassified(Get(d, "cray-mpich").value))]
  {
    var m := Reclassified(Get(d, "cray-mpich").value);
    GetDefined(d, "cray-mpich");
    PutNew(d, "mpich", m);
    PopAppend(d, [Item("mpich", m)], "cray-mpich");
  }

  /** The usual Cray case: `cray-mpich@8.1` at `/opt/x` becomes the non-buildable `mpich@8.1` at `/opt/x`. (The spec is a
      parameter so that the solver does not unfold the scan on a literal.) */
  lemma {:induction false} RenameExample(spec: string)
    requires spec == "cray-mpich@8.1"
    ensures RenamedCrayMpich([Item("cray-mpich", Package(None, [External(spec, Some("/opt/x"), map[])], map[]))])
         == Success([Item("mpich", Package(Some(false), [External("mpich@8.1", Some("/opt/x"), map[])], map[]))])
  {
    assert spec == "cray-" + "mpich@8.1";
    RenameStripsPrefix("mpich@8.1", Some("/opt/x"), map[]);
  }

  /** A mapping that holds only `cray-mpich`, with one external whose spec is
      `cray-` followed by a text without `r`, becomes one that holds only the
      non-buildable `mpich` with that text as its spec. */
  lemma {:induction false} RenameStripsPrefix(rest: string, prefix: Option<string>, fields: Fields)
    requires forall i :: 0 <= i < |rest| ==> rest[i] != 'r'
    ensures RenamedCrayMpich([Item("cray-mpich", Package(None, [External("cray-" + rest, prefix, fields)], map[]))])
         == Success([Item("mpich", Package(Some(false), [External(rest, prefix, fields)], map[]))])
  {
    StripExample("cray-", rest, 1);
    var e := Package(None, [External("cray-" + rest, prefix, fields)], map[]);
    assert Reclassified(e) == Package(Some(false), [External(rest, prefix, fields)], map[]);
    RenameSingle(e);
  }

  /** A mapping that holds only `cray-mpich` becomes one that holds only
      `mpich`. */
  lemma {:induction false} RenameSingle(e: Package)
    requires |e.externals| > 0
    ensures RenamedCrayMpich([Item("cray-mpich", e)]) == Success([Item("mpich", Reclassified(e))])
  {
    var x := Item("cray-mpich", e);
    Single(x);
    PutNew([x], "mpich", Reclassified(e));
    var both := [x] + [Item("mpich", Reclassified(e))];
    assert both[1..] == [Item("mpich", Reclassified(e))];
  }

  /** Stripping `pat` from `pat + rest` leaves `rest` when `rest` lacks one
      of `pat`'s characters. */
  lemma {:induction false} StripExample(pat: string, rest: string, j: nat)
    requires |pat| > 0 && j < |pat|
    requires forall i :: 0 <= i < |rest| ==> rest[i] != pat[j]
    ensures RemoveAll(pat + rest, pat) == rest
  {
    MissingCharNotContained(rest, pat, j);
    LeadingOccurrenceRemoved(pat, rest);
  }

  /** The scan deletes the occurrences present in the text it reads; it does
      not rescan, so deleting one occurrence can join a new one. */
  lemma {:induction false} RenameIsSinglePass()
    ensures RemoveAll("ccray-ray-", "cray-") == "cray-"
  {
    var s := "ccray-ray-";
    assert s[..5][1] != "cray-"[1];
    assert s[1..] == "cray-" + "ray-";
    LeadingOccurrenceRemoved("cray-", "ray-");
  }

  // -----------------------------------------------------------------------
  // Allow building of libxml2

  /** allow_xml_to_be_built on the package mapping. */
  function AllowedXml(d: Packages): Result<Packages, Error> {
    match Get(d, "libxml2")
    case None => Failure(KeyError("libxml2"))
    case Some(e) => Success(Put(d, "libxml2", e.(buildable := Some(true))))
  }

  /** The rule fails exactly when `libxml2` is missing. Otherwise `libxml2`
      is buildable with all its other fields unchanged, and the other
      packages, the key set and the order of the keys stay the same. */
  lemma {:induction false} AllowXmlProperties(d: Packages)
    requires UniqueKeys(d)
    ensures AllowedXml(d).Failure? <==> "libxml2" !in KeySet(d)
    ensures AllowedXml(d).Failure? ==> AllowedXml(d).error == KeyError("libxml2")
    ensures AllowedXml(d).Success? ==>
              var r, e := AllowedXml(d).value, Get(d, "libxml2").value;
              && UniqueKeys(r) && KeySet(r) == KeySet(d)
              && Get(r, "libxml2") == Some(Package(Some(true), e.externals, e.fields))
              && (forall k :: k != "libxml2" ==> Get(r, k) == Get(d, k))
              && |r| == |d| && (forall i :: 0 <= i < |d| ==> r[i].key == d[i].key)
  {
    GetDefined(d, "libxml2");
    if "libxml2" in KeySet(d) {
      var e := Get(d, "libxml2").value;
      PutProperties(d, "libxml2", e.(buildable := Some(true)));
      PutExisting(d, "libxml2", e.(buildable := Some(true)));
      OverwriteKeys(d, [Item("libxml2", e.(buildable := Some(true)))]);
    }
  }

  lemma {:induction false} OverwriteKeys<V>(d: Dict<V>, o: Dict<V>)
    ensures |Overwrite(d, o)| == |d|
    ensures forall i :: 0 <= i < |d| ==> Overwrite(d, o)[i].key == d[i].key
  {
    if d != [] {
      OverwriteKeys(d[1..], o);
    }
  }

  /** Allowing libxml2 to be built twice is the same as once. */
  lemma {:induction false} AllowXmlIdempotent(d: Packages)
    requires UniqueKeys(d) && AllowedXml(d).Success?
    ensures AllowedXml(AllowedXml(d).value) == AllowedXml(d)
  {
    var e := Get(d, "libxml2").value;
    PutProperties(d, "libxml2", e.(buildable := Some(true)));
    PutTwice(d, "libxml2", e.(buildable := Some(true)), e.(buildable := Some(true)));
  }

  // -----------------------------------------------------------------------
  // Align the cuda prefix with the module's

  /** The position of the first external whose spec contains `version`. */
  function FirstMatch(externals: seq<External>, version: string): (r: Option<nat>)
    ensures r.Some? ==> r.value < |externals| && Contains(externals[r.value].spec, version)
                        && forall j :: 0 <= j < r.value ==> !Contains(externals[j].spec, version)
    ensures r.None? ==> forall j :: 0 <= j < |externals| ==> !Contains(externals[j].spec, version)
  {
    if externals == [] then None
    else if Contains(externals[0].spec, version) then Some(0)
    else match FirstMatch(externals[1..], version)
      case None => None
      case Some(i) => Some(i + 1)
  }

  /** Every external names a prefix. */
  predicate AllHavePrefix(externals: seq<External>) {
    forall j :: 0 <= j < |externals| ==> externals[j].prefix.Some?
  }

  /** The prefix the module's cuda externals provide for `version`: reading
      every prefix fails if one is missing; otherwise the prefix of the first
      external whose spec contains `version`. */
  function ModulePrefix(externals: seq<External>, version: string): Result<string, Error> {
    if !AllHavePrefix(externals) then Failure(KeyError("prefix"))
    else match FirstMatch(externals, version)
      case None => Failure(NotProvidedByModule(version))
      case Some(i) => Success(externals[i].prefix.value)
  }

  /** The loops of allign_cuda_versions over the module's cuda externals:
      collect every spec and prefix, then stop at the first spec containing
      `version`. */
  method FindModulePrefix(externals: seq<External>, version: string) returns (r: Result<string, Error>)
    ensures r == ModulePrefix(externals, version)
  {
    var specsModule: seq<string> := [];
    var prefixModule: seq<string> := [];
    for i := 0 to |externals|
      invariant |specsModule| == i && |prefixModule| == i
      invariant forall j :: 0 <= j < i ==> specsModule[j] == externals[j].spec
      invariant forall j :: 0 <= j < i ==> externals[j].prefix == Some(prefixModule[j])
    {
      if externals[i].prefix.None? {
        return Failure(KeyError("prefix"));
      }
      specsModule := specsModule + [externals[i].spec];
      prefixModule := prefixModule + [externals[i].prefix.value];
    }

    var i := 0;
    var found := false;
    var prefix := "";
    while i < |specsModule|
      invariant 0 <= i <= |specsModule|
      invariant forall j :: 0 <= j < i ==> !Contains(specsModule[j], version)
    {
      if Contains(specsModule[i], version) {
        prefix := prefixModule[i];
        found := true;
        break;
      }
      i := i + 1;
    }

    if !found {
      return Failure(NotProvidedByModule(version));
    }
    FirstMatchUnique(externals, version, i);
    r := Success(prefix);
  }

  /** A position that matches and has no match before it is the first match. */
  lemma {:induction false} FirstMatchUnique(externals: seq<External>, version: string, i: nat)
    requires i < |externals| && Contains(externals[i].spec, version)
    requires forall j :: 0 <= j < i ==> !Contains(externals[j].spec, version)
    ensures FirstMatch(externals, version) == Some(i)
  {
  }

  /** `c` with the prefix of its first external set to `prefix`. */
  function WithPrefix(c: Package, prefix: string): Package
    requires |c.externals| > 0
  {
    c.(externals := c.externals[0 := c.externals[0].(prefix := Some(prefix))])
  }

  /** allign_cuda_versions on the joint mapping, with the module's package
      mapping given. */
  function AlignedCuda(d: Packages, modulePackages: Packages, version: string): Result<Packages, Error> {
    match Get(d, "cuda")
    case None => Failure(KeyError("cuda"))
    case Some(c) =>
      if |c.externals| == 0 then Failure(IndexError("cuda"))
      else if !Contains(c.externals[0].spec, version) then Failure(NotProvidedByTemplates(version))
      else match Get(modulePackages, "cuda")
        case None => Failure(KeyError("cuda"))
        case Some(m) =>
          match ModulePrefix(m.externals, version)
          case Failure(err) => Failure(err)
          case Success(p) => Success(Put(d, "cuda", WithPrefix(c, p)))
  }

  /** The template-side error is raised exactly when the joint `cuda`'s
      first spec lacks `version`; the module-side error exactly when that
      spec has it but no module cuda external's spec does. On success only
      the prefix of the joint `cuda`'s first external changes, to the prefix
      of the first module external whose spec contains `version`; `cuda`
      keeps its place, so the keys and their order stay the same. */
  lemma {:induction false} AlignCudaProperties(d: Packages, modulePackages: Packages, version: string)
    requires UniqueKeys(d)
    ensures AlignedCuda(d, modulePackages, version) == Failure(NotProvidedByTemplates(version)) <==>
              Get(d, "cuda").Some? && |Get(d, "cuda").value.externals| > 0
              && !Contains(Get(d, "cuda").value.externals[0].spec, version)
    ensures AlignedCuda(d, modulePackages, version) == Failure(NotProvidedByModule(version)) <==>
              Get(d, "cuda").Some? && |Get(d, "cuda").value.externals| > 0
              && Contains(Get(d, "cuda").value.externals[0].spec, version)
              && Get(modulePackages, "cuda").Some? && AllHavePrefix(Get(modulePackages, "cuda").value.externals)
              && forall j :: 0 <= j < |Get(modulePackages, "cuda").value.externals| ==>
                   !Contains(Get(modulePackages, "cuda").value.externals[j].spec, version)
    ensures AlignedCuda(d, modulePackages, version).Success? ==>
              var r, c, m := AlignedCuda(d, modulePackages, version).value, Get(d, "cuda").value, Get(modulePackages, "cuda").value;
              && UniqueKeys(r) && KeySet(r) == KeySet(d)
              && |r| == |d| && (forall i :: 0 <= i < |d| ==> r[i].key == d[i].key)
              && (forall k :: k != "cuda" ==> Get(r, k) == Get(d, k))
              && exists i :: 0 <= i < |m.externals|
                   && Contains(m.externals[i].spec, version)
                   && (forall j :: 0 <= j < i ==> !Contains(m.externals[j].spec, version))
                   && Get(r, "cuda") == Some(c.(externals := c.externals[0 := c.externals[0].(prefix := m.externals[i].prefix)]))
  {
    match Get(d, "cuda")
    case None =>
    case Some(c) =>
      if |c.externals| > 0 && Contains(c.externals[0].spec, version) && Get(modulePackages, "cuda").Some? {
        var m := Get(modulePackages, "cuda").value;
        if AllHavePrefix(m.externals) && FirstMatch(m.externals, version).Some? {
          var i := FirstMatch(m.externals, version).value;
          var p := m.externals[i].prefix.value;
          PutProperties(d, "cuda", WithPrefix(c, p));
          GetDefined(d, "cuda");
          PutExisting(d, "cuda", WithPrefix(c, p));
          OverwriteKeys(d, [Item("cuda", WithPrefix(c, p))]);
          assert Get(Put(d, "cuda", WithPrefix(c, p)), "cuda")
              == Some(c.(externals := c.externals[0 := c.externals[0].(prefix := m.externals[i].prefix)]));
        }
      }
  }

  /** Running the alignment again with the same inputs changes nothing more. */
  lemma {:induction false} AlignCudaIdempotent(d: Packages, modulePackages: Packages, version: string)
    requires UniqueKeys(d) && AlignedCuda(d, modulePackages, version).Success?
    ensures AlignedCuda(AlignedCuda(d, modulePackages, version).value, modulePackages, version) == AlignedCuda(d, modulePackages, version)
  {
    var c := Get(d, "cuda").value;
    var p := ModulePrefix(Get(modulePackages, "cuda").value.externals, version).value;
    PutProperties(d, "cuda", WithPrefix(c, p));
    assert WithPrefix(WithPrefix(c, p), p) == WithPrefix(c, p);
    PutTwice(d, "cuda", WithPrefix(c, p), WithPrefix(c, p));
  }

  /** A typical alignment: the template's `cuda@11.0.228` at `/old` takes
      the module's `/new` for version `11.0`. */
  lemma {:induction false} AlignCudaExample(spec: string, version: string)
    requires spec == "cuda@11.0.228" && version == "11.0"
    ensures AlignedCuda([Item("cuda", Package(None, [External(spec, Some("/old"), map[])], map[]))],
                        [Item("cuda", Package(None, [External(spec, Some("/new"), map[])], map[]))], version)
         == Success([Item("cuda", Package(None, [External(spec, Some("/new"), map[])], map[]))])
  {
    assert OccursAt(spec, version, 5);
    ContainsAt(spec, version);
    var c := Item("cuda", Package(None, [External(spec, Some("/old"), map[])], map[]));
    var m := Item("cuda", Package(None, [External(spec, Some("/new"), map[])], map[]));
    Single(c);
    Single(m);
    assert FirstMatch(m.value.externals, version) == Some(0);
    assert ModulePrefix(m.value.externals, version) == Success("/new");
    assert WithPrefix(c.value, "/new") == m.value;
    assert [c][1..] == [];
    assert Get([c], "cuda") == Some(c.value);
    assert |c.value.externals| > 0 && Contains(c.value.externals[0].spec, version);
    assert Get([m], "cuda") == Some(m.value);
    assert Put([c], "cuda", m.value) == [m];
  }

  /** In the same example version `9.9` is refused on the template side. */
  lemma {:induction false} AlignCudaRefusedExample(spec: string, version: string)
    requires spec == "cuda@11.0.228" && version == "9.9"
    ensures AlignedCuda([Item("cuda", Package(None, [External(spec, Some("/old"), map[])], map[]))],
                        [Item("cuda", Package(None, [External(spec, Some("/new"), map[])], map[]))], version)
         == Failure(NotProvidedByTemplates(version))
  {
    MissingCharNotContained(spec, version, 0);
    Single(Item("cuda", Package(None, [External(spec, Some("/old"), map[])], map[])));
  }

  /** Matching is by substring: version `11.0` takes the prefix of a module
      external `cuda@11.0.1` listed before `cuda@11.0`. */
  lemma {:induction false} SubstringMatchTakesFirst()
    ensures ModulePrefix([External("cuda@11.0.1", Some("/a"), map[]), External("cuda@11.0", Some("/b"), map[])], "11.0")
         == Success("/a")
  {
    assert OccursAt("cuda@11.0.1", "11.0", 5);
    ContainsAt("cuda@11.0.1", "11.0");
  }

  // -----------------------------------------------------------------------
  // The rules in the order the script applies them

  /** The rename followed by allowing libxml2 to be built. */
  function Transformed(d: Packages): Result<Packages, Error> {
    match RenamedCrayMpich(d)
    case Failure(err) => Failure(err)
    case Success(r) => AllowedXml(r)
  }

  /** The two rules fail exactly when one of them would fail on the merged
      mapping itself: `libxml2` is not touched by the rename. On success
      `cray-mpich` has become the non-buildable `mpich`, `libxml2` is
      buildable and every other package is as merged. */
  lemma {:induction false} TransformedProperties(d: Packages)
    requires UniqueKeys(d)
    ensures Transformed(d).Failure? <==>
              RenamedCrayMpich(d).Failure? || "libxml2" !in KeySet(d)
    ensures Transformed(d).Success? ==>
              var r := Transformed(d).value;
              && UniqueKeys(r)
              && KeySet(r) == KeySet(d) - {"cray-mpich"} + {"mpich"}
              && Get(r, "mpich").Some? && Get(r, "mpich").value.buildable == Some(false)
              && Get(r, "libxml2").Some? && Get(r, "libxml2").value.buildable == Some(true)
              && forall k :: k != "cray-mpich" && k != "mpich" && k != "libxml2" ==> Get(r, k) == Get(d, k)
  {
    RenameErrors(d);
    if RenamedCrayMpich(d).Success? {
      RenameProperties(d, Get(d, "cray-mpich").value);
      ReclassifiedProperties(Get(d, "cray-mpich").value);
      var r := RenamedCrayMpich(d).value;
      AllowXmlProperties(r);
      assert "libxml2" in KeySet(r) <==> "libxml2" in KeySet(d);
    }
  }
}
