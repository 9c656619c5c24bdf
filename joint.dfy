/** The joint documents the script builds and then changes in place:
    join_compilers and join_packages produce them from loaded documents, and
    the post-merge rules mutate the joint package document. */
module Joint {
  import opened Wrappers
  import opened Dicts
  import opened Documents
  import opened Text
  import opened Helpers
  import opened Merge
  import opened Transforms

  /** The document `{'compilers': [...]}`. */
  datatype CompilersDocument = CompilersDocument(compilers: seq<CompilerEntry>)

  /** join_compilers on the `compilers` lists of the two loaded documents. */
  method JoinCompilers(primary: seq<CompilerEntry>, secondary: seq<CompilerEntry>)
    returns (joint: CompilersDocument)
    ensures joint.compilers == primary + DropSpecs(secondary, SpecSet(primary))
  {
    var compilers := RemoveDuplicateCompilers(primary, secondary);
    joint := CompilersDocument(compilers);
  }

  /** `outcome` and the new mapping `after` are what a rule with the
      reference result `expected` produces from `before`: on success the
      mapping is replaced, on failure it is left as it was. */
  ghost predicate Applies(expected: Result<Packages, Error>, outcome: Outcome<Error>,
                          before: Packages, after: Packages)
  {
    match expected
    case Success(r) => outcome == Pass && after == r
    case Failure(err) => outcome == Fail(err) && after == before
  }

  /** The document `{'packages': {...}}` that the rules change in place. */
  class PackagesDocument {
    var packages: Packages

    ghost predicate Valid()
      reads this
    {
      UniqueKeys(packages)
    }

    constructor (packages: Packages)
      requires UniqueKeys(packages)
      ensures Valid() && this.packages == packages
    {
      this.packages := packages;
    }

    /** rename_cray_mpich_to_mpich: strip `cray-` from the first external's
        spec of `cray-mpich`, store the definition as `mpich`, make it not
        buildable and pop `cray-mpich`. The source writes the spec and the
        flag through references to one nested mapping that both keys share
        until the pop; here that mapping is the local `crayMpich`. */
    method RenameCrayMpichToMpich() returns (outcome: Outcome<Error>)
      requires Valid()
      modifies this
      ensures Valid()
      ensures Applies(RenamedCrayMpich(old(packages)), outcome, old(packages), packages)
    {
      var found := Get(packages, "cray-mpich");
      if found.None? {
        return Fail(KeyError("cray-mpich"));
      }
      var crayMpich := found.value;
      if |crayMpich.externals| == 0 {
        return Fail(IndexError("cray-mpich"));
      }
      var spec := crayMpich.externals[0].spec;
      spec := RemoveAll(spec, "cray-");
      crayMpich := crayMpich.(externals := crayMpich.externals[0 := crayMpich.externals[0].(spec := spec)]);

      ghost var before := packages;
      packages := Put(packages, "mpich", crayMpich);
      PutProperties(before, "mpich", crayMpich);
      var mpich := Get(packages, "mpich").value;
      packages := Put(packages, "mpich", mpich.(buildable := Some(false)));
      PutTwice(before, "mpich", crayMpich, mpich.(buildable := Some(false)));
      PutProperties(before, "mpich", mpich.(buildable := Some(false)));
      PopProperties(packages, "cray-mpich");
      packages := Pop(packages, "cray-mpich");
      outcome := Pass;
    }

    /** allow_xml_to_be_built: `libxml2` becomes buildable. */
    method AllowXmlToBeBuilt() returns (outcome: Outcome<Error>)
      requires Valid()
      modifies this
      ensures Valid()
      ensures Applies(AllowedXml(old(packages)), outcome, old(packages), packages)
    {
      var found := Get(packages, "libxml2");
      if found.None? {
        return Fail(KeyError("libxml2"));
      }
      PutProperties(packages, "libxml2", found.value.(buildable := Some(true)));
      packages := Put(packages, "libxml2", found.value.(buildable := Some(true)));
      outcome := Pass;
    }

    /** allign_cuda_versions, with the module's `packages` mapping given as
        `modulePackages`: check that the joint `cuda`'s first spec contains
        `version`, find the module prefix for `version` and write it into
        the joint `cuda`'s first external. */
    method AlignCudaVersions(modulePackages: Packages, version: string) returns (outcome: Outcome<Error>)
      requires Valid()
      modifies this
      ensures Valid()
      ensures Applies(AlignedCuda(old(packages), modulePackages, version), outcome, old(packages), packages)
    {
      var cudaJoint := Get(packages, "cuda");
      if cudaJoint.None? {
        return Fail(KeyError("cuda"));
      }
      if |cudaJoint.value.externals| == 0 {
        return Fail(IndexError("cuda"));
      }
      var specJoint := cudaJoint.value.externals[0].spec;
      if !Contains(specJoint, version) {
        return Fail(NotProvidedByTemplates(version));
      }
      var cudaModule := Get(modulePackages, "cuda");
      if cudaModule.None? {
        return Fail(KeyError("cuda"));
      }
      var prefix := FindModulePrefix(cudaModule.value.externals, version);
      if prefix.Failure? {
        return Fail(prefix.error);
      }
      PutProperties(packages, "cuda", WithPrefix(cudaJoint.value, prefix.value));
      packages := Put(packages, "cuda", WithPrefix(cudaJoint.value, prefix.value));
      outcome := Pass;
    }
  }

  /** join_packages on the `packages` mappings of the three loaded
      documents. Its statements are those of remove_duplicate_packages. */
  method JoinPackages(primary: Packages, secondary: Packages, external: Packages)
    returns (joint: PackagesDocument)
    requires UniqueKeys(primary) && UniqueKeys(secondary) && UniqueKeys(external)
    ensures fresh(joint) && joint.Valid()
    ensures joint.packages == MergedPackages(primary, secondary, external)
  {
    var merged := RemoveDuplicatePackages(primary, secondary, external);
    joint := new PackagesDocument(merged);
  }

  /** The merge part of the script's main block: join the compilers, join
      the packages, rename cray-mpich and allow libxml2 to be built. The
      loaded documents are given; writing them out is left to the caller,
      which does so only when `outcome` is `Pass`. */
  method ConcatYaml(c2smCompilers: seq<CompilerEntry>, moduleCompilers: seq<CompilerEntry>,
                    c2smPackages: Packages, modulePackages: Packages, externalPackages: Packages)
    returns (compilers: CompilersDocument, packages: PackagesDocument, outcome: Outcome<Error>)
    requires UniqueKeys(c2smPackages) && UniqueKeys(modulePackages) && UniqueKeys(externalPackages)
    ensures fresh(packages) && packages.Valid()
    ensures compilers.compilers == c2smCompilers + DropSpecs(moduleCompilers, SpecSet(c2smCompilers))
    ensures match Transformed(MergedPackages(c2smPackages, modulePackages, externalPackages))
            case Success(r) => outcome == Pass && packages.packages == r
            case Failure(err) => outcome == Fail(err)
  {
    compilers := JoinCompilers(c2smCompilers, moduleCompilers);
    packages := JoinPackages(c2smPackages, modulePackages, externalPackages);
    outcome := packages.RenameCrayMpichToMpich();
    if outcome.Fail? {
      return;
    }
    outcome := packages.AllowXmlToBeBuilt();
  }
}
